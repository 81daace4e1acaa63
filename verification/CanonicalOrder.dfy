/**
 Canonical DNS name order (section 6.1 of RFC 4034), as canonicalLess of
 internal/dnssec/denial.go compares names: label by label from the right, labels as octet
 strings after ASCII lower-casing.
 */
module CanonicalOrder {
  import opened Common

  type Label = seq<Byte>
  type Name = seq<Label>  // leftmost label first; the root is []

  function LowerOctet(b: Byte): Byte { if 65 <= b <= 90 then b + 32 else b }

  function Lower(l: Label): (r: Label)
    ensures |r| == |l|
  {
    seq(|l|, i requires 0 <= i < |l| => LowerOctet(l[i]))
  }

  function Fold(n: Name): (r: Name)
    ensures |r| == |n|
  {
    seq(|n|, i requires 0 <= i < |n| => Lower(n[i]))
  }

  predicate Folded(n: Name) { Fold(n) == n }

  /** Octet strings in lexicographic order, a prefix first. */
  predicate LabelBefore(x: Label, y: Label)
    decreases x
  {
    if y == [] then false
    else if x == [] then true
    else if x[0] == y[0] then LabelBefore(x[1..], y[1..])
    else x[0] < y[0]
  }

  function Last(n: Name): Label
    requires n != []
  {
    n[|n| - 1]
  }

  function Init(n: Name): Name
    requires n != []
  {
    n[..|n| - 1]
  }

  /** The order on names already lower-cased. */
  predicate Before(a: Name, b: Name)
    decreases a
  {
    if b == [] then false
    else if a == [] then true
    else if Last(a) == Last(b) then Before(Init(a), Init(b))
    else LabelBefore(Last(a), Last(b))
  }

  predicate CanonicalLess(a: Name, b: Name) { Before(Fold(a), Fold(b)) }

  // ----- a strict total order ------------------------------------------------------------

  lemma {:induction false} LabelTotal(x: Label, y: Label)
    ensures !LabelBefore(x, x)
    ensures LabelBefore(x, y) || LabelBefore(y, x) || x == y
    ensures !(LabelBefore(x, y) && LabelBefore(y, x))
    decreases |x| + |y|
  {
    if x != [] {
      LabelTotal(x[1..], if y == [] then [] else y[1..]);
    }
    if x != [] && y != [] && x[0] == y[0] {
      assert x == [x[0]] + x[1..] && y == [y[0]] + y[1..];
    }
  }

  lemma {:induction false} LabelTransitive(x: Label, y: Label, z: Label)
    requires LabelBefore(x, y) && LabelBefore(y, z)
    ensures LabelBefore(x, z)
  {
    if x != [] && x[0] == y[0] == z[0] {
      LabelTransitive(x[1..], y[1..], z[1..]);
    }
  }

  lemma {:induction false} Irreflexive(a: Name)
    ensures !Before(a, a)
  {
    if a != [] {
      Irreflexive(Init(a));
    }
  }

  lemma {:induction false} Trichotomy(a: Name, b: Name)
    ensures Before(a, b) || Before(b, a) || a == b
  {
    if a != [] && b != [] {
      LabelTotal(Last(a), Last(b));
      Trichotomy(Init(a), Init(b));
      assert a == Init(a) + [Last(a)] && b == Init(b) + [Last(b)];
    }
  }

  lemma {:induction false} Transitive(a: Name, b: Name, c: Name)
    requires Before(a, b) && Before(b, c)
    ensures Before(a, c)
  {
    if a != [] {
      LabelTotal(Last(a), Last(b));
      LabelTotal(Last(b), Last(c));
      if Last(a) == Last(b) == Last(c) {
        Transitive(Init(a), Init(b), Init(c));
      } else if Last(a) != Last(b) && Last(b) != Last(c) {
        LabelTransitive(Last(a), Last(b), Last(c));
        LabelTotal(Last(a), Last(c));
      }
    }
  }

  /** Less-or-equal links with less. */
  lemma TransitiveLe(a: Name, b: Name, c: Name)
    ensures !Before(b, a) && Before(b, c) ==> Before(a, c)
    ensures Before(a, b) && !Before(c, b) ==> Before(a, c)
  {
    Trichotomy(a, b);
    Trichotomy(b, c);
    if Before(a, b) && Before(b, c) {
      Transitive(a, b, c);
    }
  }

  /** canonicalLess is a strict total order on names up to case. */
  lemma StrictTotalOrder(a: Name, b: Name, c: Name)
    ensures !CanonicalLess(a, a)
    ensures CanonicalLess(a, b) && CanonicalLess(b, c) ==> CanonicalLess(a, c)
    ensures CanonicalLess(a, b) || CanonicalLess(b, a) || Fold(a) == Fold(b)
    ensures !(CanonicalLess(a, b) && CanonicalLess(b, a))
  {
    var x, y, z := Fold(a), Fold(b), Fold(c);
    Irreflexive(x);
    Trichotomy(x, y);
    if Before(x, y) && Before(y, z) {
      Transitive(x, y, z);
    }
    if Before(x, y) && Before(y, x) {
      Transitive(x, y, x);
    }
  }

  /** A parent sorts before every name below it. */
  lemma {:induction false} ParentFirst(below: Name, parent: Name)
    requires below != []
    ensures CanonicalLess(parent, below + parent)
  {
    ParentFirstFolded(Fold(below), Fold(parent));
    assert Fold(below + parent) == Fold(below) + Fold(parent);
  }

  lemma {:induction false} ParentFirstFolded(below: Name, parent: Name)
    requires below != []
    ensures Before(parent, below + parent)
    decreases parent
  {
    if parent != [] {
      assert Init(below + parent) == below + Init(parent);
      ParentFirstFolded(below, Init(parent));
    } else {
      assert below + parent == below;
    }
  }

  // ----- what case means ---------------------------------------------------------------------

  /** The same octet, or the two cases of an ASCII letter. */
  predicate SameLetter(x: Byte, y: Byte) {
    x == y || ('A' as int <= x <= 'Z' as int && y == x + 32) || ('A' as int <= y <= 'Z' as int && x == y + 32)
  }

  predicate SameLabel(x: Label, y: Label) {
    |x| == |y| && forall i :: 0 <= i < |x| ==> SameLetter(x[i], y[i])
  }

  lemma LowerIff(x: Label, y: Label)
    ensures Lower(x) == Lower(y) <==> SameLabel(x, y)
  {
    if Lower(x) == Lower(y) {
      forall i | 0 <= i < |x|
        ensures SameLetter(x[i], y[i])
      {
        assert Lower(x)[i] == Lower(y)[i];
      }
    }
  }

  /** Two names are neither before the other exactly when they are equal but for the case of ASCII
      letters. */
  lemma NeitherBeforeIff(a: Name, b: Name)
    ensures !CanonicalLess(a, b) && !CanonicalLess(b, a)
       <==> |a| == |b| && forall i :: 0 <= i < |a| ==> SameLabel(a[i], b[i])
  {
    StrictTotalOrder(a, b, a);
    forall i | 0 <= i < |a| && i < |b|
      ensures Lower(a[i]) == Lower(b[i]) <==> SameLabel(a[i], b[i])
    {
      LowerIff(a[i], b[i]);
    }
    if Fold(a) == Fold(b) {
      forall i | 0 <= i < |a|
        ensures SameLabel(a[i], b[i])
      {
        assert Fold(a)[i] == Fold(b)[i];
      }
    }
  }

  /** Letters count as lower case: an underscore sorts before every letter, of either case. */
  lemma UnderscoreFirst(x: Byte)
    ensures CanonicalLess([['_' as int]], [[x]]) <==> x > '_' as int || 'A' as int <= x <= 'Z' as int
  {
    FoldOne('_' as int);
    FoldOne(x);
    var u, y := [['_' as int]], [[LowerOctet(x)]];
    assert Before(u, y) <==> if Last(u) == Last(y) then Before(Init(u), Init(y)) else LabelBefore(Last(u), Last(y));
    assert Last(u) == ['_' as int] && Last(y) == [LowerOctet(x)] && Init(y) == [];
    assert !LabelBefore([], []);
    assert LabelBefore(Last(u), Last(y)) <==> '_' as int < LowerOctet(x);
  }

  lemma FoldOne(x: Byte)
    ensures Fold([[x]]) == [[LowerOctet(x)]]
  {
    assert Lower([x]) == [LowerOctet(x)];
    assert Fold([[x]])[0] == Lower([x]);
  }

  // ----- the RFC's wording ----------------------------------------------------------------

  /** The first difference from the right: `k` labels agree, then `a` ends or its label sorts first. */
  predicate DiffersAt(a: Name, b: Name, k: nat) {
    && k <= |a| && k < |b|
    && a[|a| - k..] == b[|b| - k..]
    && (k == |a| || (a[|a| - k - 1] != b[|b| - k - 1] && LabelBefore(a[|a| - k - 1], b[|b| - k - 1])))
  }

  lemma {:induction false} BeforeWitness(a: Name, b: Name) returns (k: nat)
    requires Before(a, b)
    ensures DiffersAt(a, b, k)
    decreases a
  {
    if a == [] || Last(a) != Last(b) {
      k := 0;
    } else {
      var j := BeforeWitness(Init(a), Init(b));
      k := j + 1;
      DiffersFurther(a, b, j);
    }
  }

  lemma DiffersFurther(a: Name, b: Name, j: nat)
    requires a != [] && b != [] && Last(a) == Last(b) && DiffersAt(Init(a), Init(b), j)
    ensures DiffersAt(a, b, j + 1)
  {
    SuffixStep(a, j);
    SuffixStep(b, j);
  }

  lemma SuffixStep(a: Name, j: nat)
    requires a != [] && j < |a|
    ensures a[|a| - j - 1..] == Init(a)[|Init(a)| - j..] + [Last(a)]
  {
  }

  lemma {:induction false} WitnessBefore(a: Name, b: Name, k: nat)
    requires DiffersAt(a, b, k)
    ensures Before(a, b)
    decreases k
  {
    if k > 0 {
      var x, y := a[|a| - k..], b[|b| - k..];
      assert x[k - 1] == y[k - 1];
      assert Init(a)[|a| - k..] == x[..k - 1] && Init(b)[|b| - k..] == y[..k - 1];
      WitnessBefore(Init(a), Init(b), k - 1);
    }
  }

  /** `a` sorts before `b` exactly when, at the first difference from the right, `a` has run
      out of labels or has the smaller label. */
  lemma CanonicalLessIff(a: Name, b: Name)
    ensures CanonicalLess(a, b) <==> exists k: nat :: DiffersAt(Fold(a), Fold(b), k)
  {
    if CanonicalLess(a, b) {
      var k := BeforeWitness(Fold(a), Fold(b));
    }
    if k: nat :| DiffersAt(Fold(a), Fold(b), k) {
      WitnessBefore(Fold(a), Fold(b), k);
    }
  }

  // ----- names below a name --------------------------------------------------------------

  /** `z` is `x` or a name below it. */
  predicate Below(z: Name, x: Name) {
    |x| <= |z| && z[|z| - |x|..] == x
  }

  lemma BelowStep(z: Name, x: Name)
    requires x != []
    ensures Below(z, x) <==> z != [] && Last(z) == Last(x) && Below(Init(z), Init(x))
  {
    if |x| <= |z| {
      SuffixStep(z, |x| - 1);
      assert x == Init(x) + [Last(x)];
      assert Init(z)[|Init(z)| - (|x| - 1)..] == z[|z| - |x|..][..|x| - 1];
    }
  }

  /** Names below `x` do not sort before it. */
  lemma {:induction false} BelowNotBefore(z: Name, x: Name)
    requires Below(z, x)
    ensures !Before(z, x)
    decreases x
  {
    if x != [] {
      BelowStep(z, x);
      BelowNotBefore(Init(z), Init(x));
    }
  }

  /** They follow it without a gap: a later name that is not one of them comes after them all. */
  lemma {:induction false} BelowContiguous(z: Name, x: Name, y: Name)
    requires Below(z, x) && !Before(y, x) && !Below(y, x)
    ensures Before(z, y)
    decreases x
  {
    if x != [] {
      BelowStep(z, x);
      BelowStep(y, x);
      if Last(y) == Last(x) {
        BelowContiguous(Init(z), Init(x), Init(y));
      } else {
        LabelTotal(Last(x), Last(y));
      }
    }
  }

  /** canonicalLess, as a loop from both right ends. */
  method ComputeCanonicalLess(a: Name, b: Name) returns (r: bool)
    ensures r == CanonicalLess(a, b)
  {
    var la, lb := Fold(a), Fold(b);
    var i, j := |la| - 1, |lb| - 1;
    assert la[..i + 1] == la && lb[..j + 1] == lb;
    while i >= 0 && j >= 0
      invariant -1 <= i < |la| && -1 <= j < |lb|
      invariant |la| - i == |lb| - j
      invariant Before(la, lb) == Before(la[..i + 1], lb[..j + 1])
    {
      assert Init(la[..i + 1]) == la[..i] && Init(lb[..j + 1]) == lb[..j];
      if la[i] != lb[j] {
        r := LabelBefore(la[i], lb[j]);
        return;
      }
      i, j := i - 1, j - 1;
    }
    r := |la| < |lb|;
  }
}
