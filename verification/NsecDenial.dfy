/**
 Denial of existence by NSEC records (section 5.4 of RFC 4035), as proveNSEC of
 internal/dnssec/denial.go judges it, against the NSEC chain of a zone.
 */
module NsecDenial {
  import opened Common
  import opened CanonicalOrder

  datatype Nsec = Nsec(owner: Name, next: Name, types: seq<nat>)

  const CNAME := 5

  datatype Rcode = NoError | NameError | OtherRcode

  /** nsecCovers, on folded names: inclusive at the owner, wrapping at the end of the zone. */
  predicate Covers(owner: Name, next: Name, name: Name) {
    if !Before(owner, next) then !Before(name, owner) || Before(name, next)
    else !Before(name, owner) && Before(name, next)
  }

  /** nsecCovers is membership in a half-open interval of the cycle of names: it has its start and
      not its end, what it leaves out is the interval back from the end to the start, and from a
      name to itself it is the whole cycle. */
  lemma CoversIsInterval(a: Name, b: Name, x: Name)
    ensures a == b ==> Covers(a, b, x)
    ensures a != b ==> Covers(a, b, a) && !Covers(a, b, b)
    ensures a != b ==> (Covers(a, b, x) <==> !Covers(b, a, x))
  {
    Ordered(a, b);
    Ordered(a, x);
    Ordered(b, x);
    Chained(a, b, x);
  }

  /** And at any name inside it falls into two such intervals, without overlap. */
  lemma CoversSplits(a: Name, b: Name, c: Name, x: Name)
    requires b != a && Covers(a, c, b)
    ensures Covers(a, c, x) <==> Covers(a, b, x) || Covers(b, c, x)
    ensures !(Covers(a, b, x) && Covers(b, c, x))
  {
    Ordered(a, b);
    Ordered(a, c);
    Ordered(b, c);
    Ordered(a, x);
    Ordered(b, x);
    Ordered(c, x);
    Chained(a, b, c);
    Chained(a, b, x);
    Chained(a, c, x);
    Chained(b, c, x);
  }

  lemma Ordered(a: Name, b: Name)
    ensures !Before(a, a) && !Before(b, b) && (Before(a, b) || Before(b, a) || a == b) && !(Before(a, b) && Before(b, a))
  {
    Irreflexive(a);
    Irreflexive(b);
    Trichotomy(a, b);
    if Before(a, b) && Before(b, a) {
      Transitive(a, b, a);
    }
  }

  lemma Chained(a: Name, b: Name, c: Name)
    ensures Before(a, b) && Before(b, c) ==> Before(a, c)
    ensures Before(a, c) && Before(c, b) ==> Before(a, b)
    ensures Before(b, a) && Before(a, c) ==> Before(b, c)
    ensures Before(b, c) && Before(c, a) ==> Before(b, a)
    ensures Before(c, a) && Before(a, b) ==> Before(c, b)
    ensures Before(c, b) && Before(b, a) ==> Before(c, a)
  {
    Chain3(a, b, c);
    Chain3(a, c, b);
    Chain3(b, a, c);
    Chain3(b, c, a);
    Chain3(c, a, b);
    Chain3(c, b, a);
  }

  lemma Chain3(a: Name, b: Name, c: Name)
    ensures Before(a, b) && Before(b, c) ==> Before(a, c)
  {
    if Before(a, b) && Before(b, c) {
      Transitive(a, b, c);
    }
  }

  predicate RecordCovers(r: Nsec, name: Name) { Covers(Fold(r.owner), Fold(r.next), name) }

  predicate Owns(r: Nsec, name: Name) { Fold(r.owner) == name }

  predicate CoversAny(nsecs: seq<Nsec>, name: Name) {
    exists i :: 0 <= i < |nsecs| && RecordCovers(nsecs[i], name)
  }

  predicate OwnerExists(nsecs: seq<Nsec>, name: Name) {
    exists i :: 0 <= i < |nsecs| && Owns(nsecs[i], name)
  }

  const STAR: Label := [42]

  function WildcardUnder(n: Name): Name { [STAR] + n }

  /** The closest-encloser walk from the `i`-th ancestor on. */
  predicate WildcardDenied(nsecs: seq<Nsec>, qname: Name, i: nat)
    decreases |qname| - i
  {
    if i >= |qname| then false
    else if OwnerExists(nsecs, qname[i..]) then CoversAny(nsecs, WildcardUnder(qname[i..]))
    else WildcardDenied(nsecs, qname, i + 1)
  }

  /** The verdict of the first record owned by the name. */
  predicate TypeDenied(nsecs: seq<Nsec>, qname: Name, qtype: nat)
    decreases nsecs
  {
    if nsecs == [] then false
    else if Owns(nsecs[0], qname) then qtype !in nsecs[0].types && CNAME !in nsecs[0].types
    else TypeDenied(nsecs[1..], qname, qtype)
  }

  /** proveNSEC, for a folded qname. */
  predicate Proves(rcode: Rcode, qname: Name, qtype: nat, nsecs: seq<Nsec>) {
    match rcode
    case NoError => TypeDenied(nsecs, qname, qtype)
    case NameError => CoversAny(nsecs, qname) && (OwnerExists(nsecs, qname) || WildcardDenied(nsecs, qname, 1))
    case OtherRcode => false
  }

  // ----- the loops ---------------------------------------------------------------------------

  method FindCover(nsecs: seq<Nsec>, name: Name) returns (r: bool)
    ensures r == CoversAny(nsecs, name)
  {
    for i := 0 to |nsecs|
      invariant forall j :: 0 <= j < i ==> !RecordCovers(nsecs[j], name)
    {
      if RecordCovers(nsecs[i], name) {
        return true;
      }
    }
    return false;
  }

  method FindOwner(nsecs: seq<Nsec>, name: Name) returns (r: bool)
    ensures r == OwnerExists(nsecs, name)
  {
    for i := 0 to |nsecs|
      invariant forall j :: 0 <= j < i ==> !Owns(nsecs[j], name)
    {
      if Owns(nsecs[i], name) {
        return true;
      }
    }
    return false;
  }

  method ProveNodata(nsecs: seq<Nsec>, qname: Name, qtype: nat) returns (r: bool)
    ensures r == TypeDenied(nsecs, qname, qtype)
  {
    for i := 0 to |nsecs|
      invariant TypeDenied(nsecs, qname, qtype) == TypeDenied(nsecs[i..], qname, qtype)
    {
      assert nsecs[i..][1..] == nsecs[i + 1..];
      if Owns(nsecs[i], qname) {
        return qtype !in nsecs[i].types && CNAME !in nsecs[i].types;
      }
    }
    return false;
  }

  /** proveNSEC. */
  method ProveNsec(rcode: Rcode, qname: Name, qtype: nat, nsecs: seq<Nsec>) returns (r: bool)
    ensures r == Proves(rcode, qname, qtype, nsecs)
  {
    if rcode == NoError {
      r := ProveNodata(nsecs, qname, qtype);
      return;
    }
    if rcode != NameError {
      return false;
    }
    var covered := FindCover(nsecs, qname);
    if !covered {
      return false;
    }
    var owned := FindOwner(nsecs, qname);
    if owned {
      return true;
    }
    if qname == [] {
      return false;
    }
    for i := 1 to |qname|
      invariant WildcardDenied(nsecs, qname, 1) == WildcardDenied(nsecs, qname, i)
    {
      var found := FindOwner(nsecs, qname[i..]);
      if found {
        r := FindCover(nsecs, WildcardUnder(qname[i..]));
        return;
      }
    }
    return false;
  }

  // ----- the chain of a zone -------------------------------------------------------------------

  /** The NSEC chain of a zone: owners folded and in canonical order, each pointing at the
      next, the last at the first. */
  ghost predicate Chain(c: seq<Nsec>) {
    && c != []
    && (forall i :: 0 <= i < |c| ==> Folded(c[i].owner) && Folded(c[i].next))
    && (forall i :: 0 <= i < |c| - 1 ==> Before(c[i].owner, c[i + 1].owner) && c[i].next == c[i + 1].owner)
    && c[|c| - 1].next == c[0].owner
  }

  predicate InZone(c: seq<Nsec>, name: Name) { OwnerExists(c, name) }

  lemma {:induction false} ChainSorted(c: seq<Nsec>, i: nat, j: nat)
    requires Chain(c) && i < j < |c|
    ensures Before(c[i].owner, c[j].owner)
    decreases j - i
  {
    if i + 1 < j {
      ChainSorted(c, i + 1, j);
      Transitive(c[i].owner, c[i + 1].owner, c[j].owner);
    }
  }

  /** What a record of the chain covers: from its owner, inclusive, up to the next owner. */
  lemma CoversIff(c: seq<Nsec>, i: nat, x: Name)
    requires Chain(c) && i < |c|
    ensures i < |c| - 1 ==> (RecordCovers(c[i], x) <==> !Before(x, c[i].owner) && Before(x, c[i + 1].owner))
    ensures i == |c| - 1 ==> (RecordCovers(c[i], x) <==> !Before(x, c[i].owner) || Before(x, c[0].owner))
  {
    assert Folded(c[i].owner) && Folded(c[i].next);
    if i < |c| - 1 {
      assert Before(c[i].owner, c[i + 1].owner) && c[i].next == c[i + 1].owner;
    } else {
      if i > 0 {
        ChainSorted(c, 0, i);
        if Before(c[i].owner, c[0].owner) {
          Transitive(c[0].owner, c[i].owner, c[0].owner);
        }
      }
      Irreflexive(c[0].owner);
    }
  }

  /** The position of a name in the chain: the last owner not after it. */
  lemma {:induction false} Position(c: seq<Nsec>, n: nat, x: Name) returns (i: nat)
    requires Chain(c) && 0 < n <= |c| && !Before(x, c[0].owner)
    ensures i < n && !Before(x, c[i].owner) && (i + 1 < n ==> Before(x, c[i + 1].owner))
  {
    i := 0;
    while i + 1 < n && !Before(x, c[i + 1].owner)
      invariant i < n && !Before(x, c[i].owner)
      decreases n - i
    {
      i := i + 1;
    }
  }

  /** Every name is covered by some record of the chain. */
  lemma Covered(c: seq<Nsec>, x: Name) returns (i: nat)
    requires Chain(c)
    ensures i < |c| && RecordCovers(c[i], x)
  {
    if Before(x, c[0].owner) {
      i := |c| - 1;
    } else {
      i := Position(c, |c|, x);
    }
    CoversIff(c, i, x);
  }

  /** And by only one. */
  lemma CoveredOnce(c: seq<Nsec>, x: Name, i: nat, j: nat)
    requires Chain(c) && i < |c| && j < |c| && RecordCovers(c[i], x) && RecordCovers(c[j], x)
    ensures i == j
  {
    if i < j {
      NotBoth(c, x, i, j);
    } else if j < i {
      NotBoth(c, x, j, i);
    }
  }

  lemma NotBoth(c: seq<Nsec>, x: Name, i: nat, j: nat)
    requires Chain(c) && i < j < |c|
    ensures !(RecordCovers(c[i], x) && RecordCovers(c[j], x))
  {
    CoversIff(c, i, x);
    CoversIff(c, j, x);
    if i + 1 < j {
      ChainSorted(c, i + 1, j);
      TransitiveLe(x, c[i + 1].owner, c[j].owner);
      if Before(x, c[i + 1].owner) {
        Transitive(x, c[i + 1].owner, c[j].owner);
      }
    }
    if i > 0 {
      ChainSorted(c, 0, i);
      if Before(x, c[0].owner) {
        Transitive(x, c[0].owner, c[i].owner);
      }
    }
  }

  /** A name of the zone is covered by its own record. */
  lemma OwnCovers(c: seq<Nsec>, j: nat)
    requires Chain(c) && j < |c|
    ensures RecordCovers(c[j], c[j].owner)
  {
    CoversIff(c, j, c[j].owner);
    Irreflexive(c[j].owner);
  }

  // ----- what an accepted proof shows ------------------------------------------------------------

  /** The presented records all come from the chain. */
  predicate Presented(nsecs: seq<Nsec>, c: seq<Nsec>) {
    forall i :: 0 <= i < |nsecs| ==> nsecs[i] in c
  }

  /** A name covered by a presented record is absent from the zone exactly when no presented
      record is its own. */
  lemma CoveredAbsentIff(c: seq<Nsec>, nsecs: seq<Nsec>, x: Name)
    requires Chain(c) && Presented(nsecs, c) && CoversAny(nsecs, x)
    ensures InZone(c, x) <==> OwnerExists(nsecs, x)
  {
    var n :| 0 <= n < |nsecs| && RecordCovers(nsecs[n], x);
    var i :| 0 <= i < |c| && c[i] == nsecs[n];
    if InZone(c, x) {
      var j :| 0 <= j < |c| && Owns(c[j], x);
      OwnCovers(c, j);
      assert x == c[j].owner;
      CoveredOnce(c, x, i, j);
      assert Owns(nsecs[n], x);
    }
    if OwnerExists(nsecs, x) {
      var m :| 0 <= m < |nsecs| && Owns(nsecs[m], x);
      var j :| 0 <= j < |c| && c[j] == nsecs[m];
      assert Owns(c[j], x);
    }
  }

  // ----- names that exist ------------------------------------------------------------------------

  /** A name exists when it or some name below it owns records: an empty non-terminal exists too. */
  predicate Exists(c: seq<Nsec>, x: Name) {
    exists i :: 0 <= i < |c| && Below(c[i].owner, x)
  }

  /** The record in whose interval a name falls shows by itself that the name exists. */
  predicate Shows(r: Nsec, x: Name) {
    Owns(r, x) || Below(Fold(r.next), x)
  }

  lemma NotAfter(c: seq<Nsec>, i: nat, j: nat)
    requires Chain(c) && i <= j < |c|
    ensures !Before(c[j].owner, c[i].owner)
  {
    Irreflexive(c[i].owner);
    if i < j {
      ChainSorted(c, i, j);
      if Before(c[j].owner, c[i].owner) {
        Transitive(c[i].owner, c[j].owner, c[i].owner);
      }
    }
  }

  /** The next owner after a covered name is not after any later owner. */
  lemma NextIsFirst(c: seq<Nsec>, i: nat, x: Name, j: nat)
    requires Chain(c) && i < |c| && j < |c| && RecordCovers(c[i], x) && Before(x, c[j].owner)
    ensures Before(x, c[i].next) && !Before(c[j].owner, c[i].next)
  {
    CoversIff(c, i, x);
    if i < |c| - 1 {
      if j <= i {
        NotAfter(c, j, i);
        BeforeNotBack(x, c[j].owner, c[i].owner);
      }
      NotAfter(c, i + 1, j);
    } else {
      NotAfter(c, j, i);
      BeforeNotBack(x, c[j].owner, c[i].owner);
      NotAfter(c, 0, j);
    }
  }

  lemma BeforeNotBack(x: Name, o: Name, p: Name)
    requires Before(x, o) && !Before(p, o)
    ensures Before(x, p)
  {
    TransitiveLe(x, o, p);
  }

  /** A covered name exists exactly when its record's owner is that name or its record's next name
      lies at or below it: whatever lies below a name follows it without a gap. */
  lemma ExistsIff(c: seq<Nsec>, i: nat, x: Name)
    requires Chain(c) && i < |c| && RecordCovers(c[i], x)
    ensures Exists(c, x) <==> Shows(c[i], x)
  {
    assert Fold(c[i].owner) == c[i].owner && Fold(c[i].next) == c[i].next;
    if Exists(c, x) {
      var j :| 0 <= j < |c| && Below(c[j].owner, x);
      if c[j].owner == x {
        OwnCovers(c, j);
        CoveredOnce(c, x, i, j);
      } else {
        BelowNotBefore(c[j].owner, x);
        Trichotomy(c[j].owner, x);
        NextIsFirst(c, i, x, j);
        if !Below(c[i].next, x) {
          NotBack(x, c[i].next);
          BelowContiguous(c[j].owner, x, c[i].next);
        }
      }
    }
    if Shows(c[i], x) {
      var j := if Owns(c[i], x) then i else if i < |c| - 1 then i + 1 else 0;
      assert Below(c[j].owner, x);
    }
  }

  lemma NotBack(x: Name, y: Name)
    requires Before(x, y)
    ensures !Before(y, x)
  {
    Irreflexive(x);
    if Before(y, x) {
      Transitive(x, y, x);
    }
  }

  /** Some presented record covers the name and shows that it exists. */
  predicate ShownByAny(nsecs: seq<Nsec>, x: Name) {
    exists n :: 0 <= n < |nsecs| && RecordCovers(nsecs[n], x) && Shows(nsecs[n], x)
  }

  /** Of a name that some presented record covers, the presented records tell whether it exists. */
  lemma CoveredExistsIff(c: seq<Nsec>, nsecs: seq<Nsec>, x: Name)
    requires Chain(c) && Presented(nsecs, c) && CoversAny(nsecs, x)
    ensures Exists(c, x) <==> ShownByAny(nsecs, x)
  {
    var n :| 0 <= n < |nsecs| && RecordCovers(nsecs[n], x);
    var i :| 0 <= i < |c| && c[i] == nsecs[n];
    ExistsIff(c, i, x);
    if ShownByAny(nsecs, x) {
      var m :| 0 <= m < |nsecs| && RecordCovers(nsecs[m], x) && Shows(nsecs[m], x);
      var j :| 0 <= j < |c| && c[j] == nsecs[m];
      ExistsIff(c, j, x);
    }
  }

  /** An accepted NXDOMAIN is true exactly when no presented record that covers the name is owned
      by it or points at or below it: the inclusive owner side admits the record of a name that
      does own records, and the order admits that of an empty non-terminal. */
  lemma NxdomainSoundIff(c: seq<Nsec>, nsecs: seq<Nsec>, qname: Name, qtype: nat)
    requires Chain(c) && Presented(nsecs, c) && Proves(NameError, qname, qtype, nsecs)
    ensures !Exists(c, qname) <==> !ShownByAny(nsecs, qname)
  {
    CoveredExistsIff(c, nsecs, qname);
  }

  /** Among the proper, non-root ancestors the `e`-th is the nearest one that exists: a wildcard
      under it, and no other, may answer for the name. */
  predicate ClosestEncloser(c: seq<Nsec>, qname: Name, e: nat) {
    && 1 <= e < |qname| && Exists(c, qname[e..])
    && forall i :: 1 <= i < e ==> !Exists(c, qname[i..])
  }

  lemma PresentedExists(c: seq<Nsec>, nsecs: seq<Nsec>, x: Name)
    requires Chain(c) && Presented(nsecs, c) && OwnerExists(nsecs, x)
    ensures Exists(c, x)
  {
    var m :| 0 <= m < |nsecs| && Owns(nsecs[m], x);
    var j :| 0 <= j < |c| && c[j] == nsecs[m];
    assert Fold(c[j].owner) == c[j].owner;
    assert Below(c[j].owner, x);
  }

  /** No nearer ancestor than the `e`-th owns a presented record. */
  predicate NoneNearer(nsecs: seq<Nsec>, qname: Name, e: nat)
    requires e <= |qname|
  {
    forall i :: 1 <= i < e ==> !OwnerExists(nsecs, qname[i..])
  }

  /** The walk stops at the first ancestor that owns a presented record. */
  lemma {:induction false} WalkStops(nsecs: seq<Nsec>, qname: Name, e: nat, i: nat)
    requires 1 <= i <= e < |qname| && NoneNearer(nsecs, qname, e) && OwnerExists(nsecs, qname[e..])
    ensures WildcardDenied(nsecs, qname, i) == CoversAny(nsecs, WildcardUnder(qname[e..]))
    decreases e - i
  {
    if i < e {
      assert !OwnerExists(nsecs, qname[i..]);
      WalkStops(nsecs, qname, e, i + 1);
    }
  }

  /** Which is the closest encloser, when its own record is presented. */
  lemma EncloserIsFirst(c: seq<Nsec>, nsecs: seq<Nsec>, qname: Name, e: nat)
    requires Chain(c) && Presented(nsecs, c) && ClosestEncloser(c, qname, e)
    ensures NoneNearer(nsecs, qname, e)
  {
    forall i | 1 <= i < e
      ensures !OwnerExists(nsecs, qname[i..])
    {
      assert !Exists(c, qname[i..]);
      if OwnerExists(nsecs, qname[i..]) {
        PresentedExists(c, nsecs, qname[i..]);
      }
    }
  }

  /** With the closest encloser's own record presented, an accepted NXDOMAIN rules out the one
      wildcard that could have answered, exactly when no presented record shows that it exists. */
  lemma WildcardAbsentIff(c: seq<Nsec>, nsecs: seq<Nsec>, qname: Name, qtype: nat, e: nat)
    requires Chain(c) && Presented(nsecs, c) && Proves(NameError, qname, qtype, nsecs)
    requires !OwnerExists(nsecs, qname)
    requires ClosestEncloser(c, qname, e) && OwnerExists(nsecs, qname[e..])
    ensures !Exists(c, WildcardUnder(qname[e..])) <==> !ShownByAny(nsecs, WildcardUnder(qname[e..]))
  {
    EncloserIsFirst(c, nsecs, qname, e);
    WalkStops(nsecs, qname, e, 1);
    CoveredExistsIff(c, nsecs, WildcardUnder(qname[e..]));
  }

  // ----- exactly what is accepted ----------------------------------------------------------------

  /** The `e`-th ancestor owns a presented record, and no nearer one does. */
  predicate NearestOwner(nsecs: seq<Nsec>, qname: Name, e: nat)
    requires e <= |qname|
  {
    OwnerExists(nsecs, qname[e..]) && NoneNearer(nsecs, qname, e)
  }

  /** Some proper, non-root ancestor owns a presented record, and the nearest one that does has the
      wildcard under it covered. */
  predicate EncloserClears(nsecs: seq<Nsec>, qname: Name) {
    exists e :: 1 <= e < |qname| && NearestOwner(nsecs, qname, e) && CoversAny(nsecs, [[42]] + qname[e..])
  }

  lemma {:induction false} WalkFinds(nsecs: seq<Nsec>, qname: Name, i: nat) returns (e: nat)
    requires 1 <= i <= |qname| && NoneNearer(nsecs, qname, i)
    ensures i <= e <= |qname| && NoneNearer(nsecs, qname, e) && (e < |qname| ==> OwnerExists(nsecs, qname[e..]))
    decreases |qname| - i
  {
    if i == |qname| || OwnerExists(nsecs, qname[i..]) {
      e := i;
    } else {
      e := WalkFinds(nsecs, qname, i + 1);
    }
  }

  lemma {:induction false} WalkFails(nsecs: seq<Nsec>, qname: Name, i: nat)
    requires 1 <= i <= |qname| && NoneNearer(nsecs, qname, |qname|)
    ensures !WildcardDenied(nsecs, qname, i)
    decreases |qname| - i
  {
    if i < |qname| {
      assert !OwnerExists(nsecs, qname[i..]);
      WalkFails(nsecs, qname, i + 1);
    }
  }

  lemma WalkIff(nsecs: seq<Nsec>, qname: Name)
    ensures WildcardDenied(nsecs, qname, 1) <==> EncloserClears(nsecs, qname)
  {
    if qname != [] {
      var e := WalkFinds(nsecs, qname, 1);
      if e < |qname| {
        WalkStops(nsecs, qname, e, 1);
        assert NearestOwner(nsecs, qname, e) && WildcardUnder(qname[e..]) == [[42]] + qname[e..];
        forall i | 1 <= i < |qname| && NearestOwner(nsecs, qname, i)
          ensures i == e
        {
        }
      } else {
        WalkFails(nsecs, qname, 1);
      }
    }
  }

  lemma OwnerCovers(r: Nsec, name: Name)
    requires Owns(r, name)
    ensures RecordCovers(r, name)
  {
    Irreflexive(name);
  }

  /** NXDOMAIN is accepted exactly when a presented record is owned by the name (the compact form of
      online signers), or when one covers the name and the nearest ancestor that owns a presented
      record has the wildcard under it covered.  No other response code is taken for a denial. */
  lemma NxdomainAcceptedIff(rcode: Rcode, nsecs: seq<Nsec>, qname: Name, qtype: nat)
    requires rcode != NoError
    ensures Proves(rcode, qname, qtype, nsecs)
       <==> rcode == NameError && (OwnerExists(nsecs, qname) || (CoversAny(nsecs, qname) && EncloserClears(nsecs, qname)))
  {
    WalkIff(nsecs, qname);
    if OwnerExists(nsecs, qname) {
      var i :| 0 <= i < |nsecs| && Owns(nsecs[i], qname);
      OwnerCovers(nsecs[i], qname);
    }
  }

  /** Every record of the chain is presented, and no others. */
  predicate AllPresented(nsecs: seq<Nsec>, c: seq<Nsec>) {
    Presented(nsecs, c) && forall i :: 0 <= i < |c| ==> c[i] in nsecs
  }

  lemma AllOwners(nsecs: seq<Nsec>, c: seq<Nsec>, x: Name)
    requires AllPresented(nsecs, c)
    ensures OwnerExists(nsecs, x) <==> InZone(c, x)
  {
    if InZone(c, x) {
      var j :| 0 <= j < |c| && Owns(c[j], x);
      var i :| 0 <= i < |nsecs| && nsecs[i] == c[j];
      assert Owns(nsecs[i], x);
    }
    if OwnerExists(nsecs, x) {
      var i :| 0 <= i < |nsecs| && Owns(nsecs[i], x);
      var j :| 0 <= j < |c| && c[j] == nsecs[i];
      assert Owns(c[j], x);
    }
  }

  lemma AllCovered(nsecs: seq<Nsec>, c: seq<Nsec>, x: Name)
    requires Chain(c) && AllPresented(nsecs, c)
    ensures CoversAny(nsecs, x)
  {
    var j := Covered(c, x);
    var i :| 0 <= i < |nsecs| && nsecs[i] == c[j];
    assert RecordCovers(nsecs[i], x);
  }

  /** With the whole chain presented NXDOMAIN is accepted exactly when the name or a proper, non-root
      ancestor of it owns a record: every name is covered then, wildcards included. */
  lemma WholeChainAcceptsIff(c: seq<Nsec>, nsecs: seq<Nsec>, qname: Name, qtype: nat)
    requires Chain(c) && AllPresented(nsecs, c)
    ensures Proves(NameError, qname, qtype, nsecs) <==> InZone(c, qname) || exists e :: 1 <= e < |qname| && InZone(c, qname[e..])
  {
    NxdomainAcceptedIff(NameError, nsecs, qname, qtype);
    AllOwners(nsecs, c, qname);
    AllCovered(nsecs, c, qname);
    WholeChainClearsIff(c, nsecs, qname);
  }

  lemma WholeChainClearsIff(c: seq<Nsec>, nsecs: seq<Nsec>, qname: Name)
    requires Chain(c) && AllPresented(nsecs, c)
    ensures EncloserClears(nsecs, qname) <==> exists e :: 1 <= e < |qname| && InZone(c, qname[e..])
  {
    if e :| 1 <= e < |qname| && NearestOwner(nsecs, qname, e) && CoversAny(nsecs, [[42]] + qname[e..]) {
      AllOwners(nsecs, c, qname[e..]);
    }
    if e :| 1 <= e < |qname| && InZone(c, qname[e..]) {
      AllOwners(nsecs, c, qname[e..]);
      var n := WalkFinds(nsecs, qname, 1);
      assert n <= e;
      AllCovered(nsecs, c, [[42]] + qname[n..]);
      assert NearestOwner(nsecs, qname, n);
    }
  }

  /** So a true NXDOMAIN goes through: a name that does not exist is accepted when its closest
      existing ancestor owns a record. */
  lemma NonexistentAccepted(c: seq<Nsec>, nsecs: seq<Nsec>, qname: Name, qtype: nat, e: nat)
    requires Chain(c) && AllPresented(nsecs, c) && !Exists(c, qname)
    requires ClosestEncloser(c, qname, e) && InZone(c, qname[e..]) && !Exists(c, WildcardUnder(qname[e..]))
    ensures Proves(NameError, qname, qtype, nsecs)
  {
    WholeChainAcceptsIff(c, nsecs, qname, qtype);
  }

  /** Nor is the whole chain needed: the own record of the closest existing ancestor, a record that
      covers the name and one that covers the wildcard suffice. */
  lemma ThreeRecordsSuffice(c: seq<Nsec>, nsecs: seq<Nsec>, qname: Name, qtype: nat, e: nat)
    requires Chain(c) && Presented(nsecs, c) && ClosestEncloser(c, qname, e)
    requires CoversAny(nsecs, qname) && OwnerExists(nsecs, qname[e..]) && CoversAny(nsecs, WildcardUnder(qname[e..]))
    ensures Proves(NameError, qname, qtype, nsecs)
  {
    EncloserIsFirst(c, nsecs, qname, e);
    assert NearestOwner(nsecs, qname, e) && WildcardUnder(qname[e..]) == [[42]] + qname[e..];
    NxdomainAcceptedIff(NameError, nsecs, qname, qtype);
  }

  lemma {:induction false} OwnerUnique(c: seq<Nsec>, i: nat, j: nat)
    requires Chain(c) && i < |c| && j < |c| && c[i].owner == c[j].owner
    ensures i == j
  {
    Irreflexive(c[i].owner);
    if i < j {
      ChainSorted(c, i, j);
    } else if j < i {
      ChainSorted(c, j, i);
    }
  }

  lemma {:induction false} NodataOfOwner(c: seq<Nsec>, nsecs: seq<Nsec>, qname: Name, qtype: nat, j: nat)
    requires Chain(c) && Presented(nsecs, c) && j < |c| && c[j].owner == qname
    ensures Proves(NoError, qname, qtype, nsecs) <==> c[j] in nsecs && qtype !in c[j].types && CNAME !in c[j].types
    decreases nsecs
  {
    if nsecs != [] {
      var i :| 0 <= i < |c| && c[i] == nsecs[0];
      assert Fold(c[i].owner) == c[i].owner;
      if Owns(nsecs[0], qname) {
        OwnerUnique(c, i, j);
      } else {
        assert nsecs == [nsecs[0]] + nsecs[1..];
        assert Presented(nsecs[1..], c);
        NodataOfOwner(c, nsecs[1..], qname, qtype, j);
      }
    }
  }

  lemma {:induction false} NodataOfNobody(c: seq<Nsec>, nsecs: seq<Nsec>, qname: Name, qtype: nat)
    requires Chain(c) && Presented(nsecs, c) && !InZone(c, qname)
    ensures !Proves(NoError, qname, qtype, nsecs)
    decreases nsecs
  {
    if nsecs != [] {
      var i :| 0 <= i < |c| && c[i] == nsecs[0];
      assert Fold(c[i].owner) == c[i].owner;
      assert Presented(nsecs[1..], c);
      NodataOfNobody(c, nsecs[1..], qname, qtype);
    }
  }

  predicate LacksType(r: Nsec, qtype: nat) { qtype !in r.types && CNAME !in r.types }

  /** NODATA is accepted exactly when the name is in the zone and its own record is presented and
      lists neither the type nor CNAME; in particular never for a name outside the zone. */
  lemma NodataIff(c: seq<Nsec>, nsecs: seq<Nsec>, qname: Name, qtype: nat)
    requires Chain(c) && Presented(nsecs, c)
    ensures Proves(NoError, qname, qtype, nsecs)
       <==> exists j :: 0 <= j < |c| && c[j].owner == qname && c[j] in nsecs && LacksType(c[j], qtype)
  {
    if InZone(c, qname) {
      var j :| 0 <= j < |c| && c[j].owner == qname;
      NodataOfOwner(c, nsecs, qname, qtype, j);
      forall i | 0 <= i < |c| && c[i].owner == qname
        ensures i == j
      {
        OwnerUnique(c, i, j);
      }
    } else {
      NodataOfNobody(c, nsecs, qname, qtype);
    }
  }

  // ----- the closest encloser's record is needed ---------------------------------------------------

  const EX: Label := [101]
  const B: Label := [98]
  const A: Label := [97]

  /** The chain of a zone with names e, b.e and *.b.e. */
  function SampleChain(): seq<Nsec> {
    [Nsec([EX], [B, EX], [2]), Nsec([B, EX], [STAR, B, EX], [1]), Nsec([STAR, B, EX], [EX], [1])]
  }

  lemma FoldSmall(n: Name)
    requires forall i :: 0 <= i < |n| ==> n[i] in [EX, B, A, STAR]
    ensures Folded(n)
  {
    forall i | 0 <= i < |n|
      ensures Lower(n[i]) == n[i]
    {
    }
  }

  lemma SampleOrder()
    ensures Before([EX], [B, EX]) && Before([B, EX], [STAR, B, EX]) && Before([B, EX], [A, B, EX])
    ensures Before([EX], [STAR, EX]) && Before([STAR, EX], [B, EX])
    ensures Before([STAR, B, EX], [A, B, EX]) && Before([EX], [STAR, B, EX]) && Before([EX], [A, B, EX])
  {
    LabelOrder();
    ParentFirstFolded([B], [EX]);
    assert [B] + [EX] == [B, EX];
    ParentFirstFolded([STAR], [B, EX]);
    assert [STAR] + [B, EX] == [STAR, B, EX];
    ParentFirstFolded([A], [B, EX]);
    assert [A] + [B, EX] == [A, B, EX];
    ParentFirstFolded([STAR], [EX]);
    assert [STAR] + [EX] == [STAR, EX];
    assert DiffersAt([STAR, EX], [B, EX], 1);
    WitnessBefore([STAR, EX], [B, EX], 1);
    assert [STAR, B, EX][1..] == [B, EX] == [A, B, EX][1..];
    assert DiffersAt([STAR, B, EX], [A, B, EX], 2);
    WitnessBefore([STAR, B, EX], [A, B, EX], 2);
    Transitive([EX], [B, EX], [STAR, B, EX]);
    Transitive([EX], [B, EX], [A, B, EX]);
  }

  lemma LabelOrder()
    ensures LabelBefore(STAR, B) && LabelBefore(STAR, A) && STAR != B && STAR != A
  {
  }

  lemma FoldNames()
    ensures Folded([EX]) && Folded([B, EX]) && Folded([STAR, B, EX]) && Folded([A, B, EX]) && Folded([STAR, EX])
  {
    FoldSmall([EX]);
    FoldSmall([B, EX]);
    FoldSmall([STAR, B, EX]);
    FoldSmall([A, B, EX]);
    FoldSmall([STAR, EX]);
  }

  /** A zone with the apex and one name below it. */
  function TwoChain(below: Name): seq<Nsec> {
    [Nsec([EX], below, [2]), Nsec(below, [EX], [1])]
  }

  lemma TwoIsChain(below: Name)
    requires Folded(below) && Before([EX], below)
    ensures Chain(TwoChain(below))
  {
    FoldNames();
  }

  lemma SampleIsChain()
    ensures Chain(SampleChain())
  {
    var c := SampleChain();
    SampleOrder();
    FoldNames();
    forall i | 0 <= i < |c| - 1
      ensures Before(c[i].owner, c[i + 1].owner) && c[i].next == c[i + 1].owner
    {
      if i == 0 {
        assert c[1].owner == [B, EX];
      } else {
        assert i == 1;
      }
    }
  }

  /** The names tried for a.b.e, when b.e owns no presented record and the apex does. */
  lemma WalkToApex(nsecs: seq<Nsec>, qname: Name)
    requires qname == [A, B, EX] && OwnerExists(nsecs, [EX]) && !OwnerExists(nsecs, [B, EX]) && CoversAny(nsecs, [STAR, EX])
    ensures WildcardDenied(nsecs, qname, 1)
  {
    assert qname[1..] == [B, EX] && qname[2..] == [EX] && WildcardUnder([EX]) == [STAR, EX];
    assert WildcardDenied(nsecs, qname, 2);
  }

  /** Without that record an accepted NXDOMAIN says nothing of the wildcard: from the records of
      e and *.b.e alone, a.b.e is accepted as nonexistent although *.b.e would have answered. */
  lemma EncloserRecordNeeded(qtype: nat)
    ensures var c := SampleChain();
            var nsecs, qname := [c[0], c[2]], [A, B, EX];
            && Chain(c) && Presented(nsecs, c) && Proves(NameError, qname, qtype, nsecs)
            && ClosestEncloser(c, qname, 1) && InZone(c, WildcardUnder(qname[1..]))
            && !OwnerExists(nsecs, qname[1..])
  {
    var c := SampleChain();
    var nsecs, qname := [c[0], c[2]], [A, B, EX];
    SampleIsChain();
    FoldNames();
    assert qname[1..] == [B, EX] && WildcardUnder([B, EX]) == [STAR, B, EX];
    assert Owns(c[2], [STAR, B, EX]) && Below(c[1].owner, qname[1..]);
    assert nsecs[0] == c[0] && nsecs[1] == c[2];
    ApexCovers(c, [B, EX]);
    LastCovers(c, qname);
    assert Owns(nsecs[0], [EX]) && RecordCovers(nsecs[0], [STAR, EX]) && RecordCovers(nsecs[1], qname);
    WalkToApex(nsecs, qname);
  }

  /** Nor does any set of records help when the closest encloser is an empty non-terminal: with
      every record of the zone e, *.b.e presented, a.b.e is accepted as nonexistent although *.b.e
      would have answered, b.e existing through it. */
  lemma NonTerminalHidesWildcard(qtype: nat)
    ensures var c, qname := TwoChain([STAR, B, EX]), [A, B, EX];
            && Chain(c) && Proves(NameError, qname, qtype, c) && !Exists(c, qname)
            && ClosestEncloser(c, qname, 1) && !OwnerExists(c, qname[1..]) && InZone(c, WildcardUnder(qname[1..]))
  {
    var c, qname := TwoChain([STAR, B, EX]), [A, B, EX];
    SampleOrder();
    FoldNames();
    TwoIsChain([STAR, B, EX]);
    assert qname[1..] == [B, EX] && WildcardUnder([B, EX]) == [STAR, B, EX];
    assert [STAR, B, EX][1..] == [B, EX];
    assert Owns(c[0], [EX]) && Owns(c[1], [STAR, B, EX]) && Below(c[1].owner, qname[1..]);
    ApexCovers(c, [STAR, B, EX]);
    LastCovers(c, qname);
    WalkToApex(c, qname);
    assert [STAR, B, EX][0] != A;
  }

  /** And an empty non-terminal itself is accepted as nonexistent: b.e in the zone e, a.b.e. */
  lemma NonTerminalDenied(qtype: nat)
    ensures var c, qname := TwoChain([A, B, EX]), [B, EX];
            Chain(c) && Proves(NameError, qname, qtype, [c[0]]) && Exists(c, qname)
  {
    var c, qname := TwoChain([A, B, EX]), [B, EX];
    var nsecs := [c[0]];
    SampleOrder();
    FoldNames();
    TwoIsChain([A, B, EX]);
    assert [A, B, EX][1..] == [B, EX];
    assert Below(c[1].owner, qname);
    ApexCovers(c, [A, B, EX]);
    CoversIff(c, 0, qname);
    NotBack([EX], [B, EX]);
    assert nsecs[0] == c[0] && RecordCovers(nsecs[0], qname) && RecordCovers(nsecs[0], [STAR, EX]);
    assert Owns(nsecs[0], [EX]) && OwnerExists(nsecs, [EX]);
    assert qname[1..] == [EX] && WildcardUnder([EX]) == [STAR, EX];
    assert WildcardDenied(nsecs, qname, 1);
  }

  /** The apex's record covers *.e when the next owner is b.e or below it. */
  lemma ApexCovers(c: seq<Nsec>, next: Name)
    requires Chain(c) && |c| > 1 && c[0].owner == [EX] && c[1].owner == next
    requires next == [B, EX] || next == [STAR, B, EX] || next == [A, B, EX]
    ensures RecordCovers(c[0], [STAR, EX])
  {
    SampleOrder();
    CoversIff(c, 0, [STAR, EX]);
    NotBack([EX], [STAR, EX]);
    if next != [B, EX] {
      Transitive([STAR, EX], [B, EX], next);
    }
  }

  /** The record of *.b.e, the last, covers a.b.e. */
  lemma LastCovers(c: seq<Nsec>, qname: Name)
    requires Chain(c) && c[|c| - 1].owner == [STAR, B, EX] && qname == [A, B, EX]
    ensures RecordCovers(c[|c| - 1], qname)
  {
    SampleOrder();
    CoversIff(c, |c| - 1, qname);
    NotBack([STAR, B, EX], qname);
  }
}
