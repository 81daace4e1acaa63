/**
 Which verdict an answer gets, said of signatures and derivations: unsigned, not secure because a
 completed walk or check says so, not checked because the walk met a failed query, or secure.
 */
module TrustVerdict {
  import opened Common
  import opened CanonicalOrder
  import opened TrustChain
  import opened TrustDerivation

  // ----- when the walk fails -----------------------------------------------------------------

  predicate HasKeys(w: World, zone: Zone) {
    && w.oracle.keysOf(zone).Answered?
    && exists n: nat :: n < |w.oracle.keysOf(zone).answer| && w.oracle.keysOf(zone).answer[n].KeyRR?
  }

  /** From the zone up to its `i`-th ancestor every zone below that one publishes keys, so that the
      walk goes on to the next. */
  predicate ClimbsTo(w: World, zone: Zone, i: nat) {
    i <= |zone| && forall j: nat :: j < i ==> HasKeys(w, zone[j..])
  }

  /** The walk meets a failed query at the `i`-th ancestor: for its keys, or, below a parent with a
      derivation, for its DS records. */
  ghost predicate FailsAt(w: World, zone: Zone, i: nat) {
    && ClimbsTo(w, zone, i)
    && (|| w.oracle.keysOf(zone[i..]).Failed?
        || (HasKeys(w, zone[i..]) && i < |zone| && DerivableByFirst(w, zone[i + 1..]) && w.oracle.dsOf(zone[i..]).Failed?))
  }

  ghost predicate WalkFails(w: World, zone: Zone) {
    exists i: nat :: FailsAt(w, zone, i)
  }

  lemma {:induction false} KeysFound(answer: seq<Record>)
    ensures Keys(answer) != [] <==> exists n: nat :: n < |answer| && answer[n].KeyRR?
  {
    if answer != [] {
      KeysFound(answer[1..]);
      if n: nat :| n < |answer| && answer[n].KeyRR? {
        assert n > 0 ==> answer[1..][n - 1] == answer[n];
      }
      if n: nat :| n < |answer[1..]| && answer[1..][n].KeyRR? {
        assert answer[n + 1].KeyRR?;
      }
    }
  }

  /** Failing at an ancestor of the parent is failing at one of the zone, when the zone has keys. */
  lemma FailsAbove(w: World, zone: Zone, i: nat)
    requires zone != [] && HasKeys(w, zone)
    ensures FailsAt(w, zone[1..], i) <==> FailsAt(w, zone, i + 1)
  {
    if i <= |zone| - 1 {
      assert zone[1..][i..] == zone[i + 1..];
      assert i < |zone| - 1 ==> zone[1..][i + 1..] == zone[i + 2..];
      assert forall j: nat :: j < i ==> zone[1..][j..] == zone[j + 1..];
      assert zone[0..] == zone;
      if ClimbsTo(w, zone[1..], i) {
        forall j: nat | j < i + 1
          ensures HasKeys(w, zone[j..])
        {
          assert j > 0 ==> HasKeys(w, zone[1..][j - 1..]);
        }
      }
      if ClimbsTo(w, zone, i + 1) {
        forall j: nat | j < i
          ensures HasKeys(w, zone[1..][j..])
        {
          assert HasKeys(w, zone[j + 1..]);
        }
      }
    }
  }

  lemma FailsHere(w: World, zone: Zone)
    ensures FailsAt(w, zone, 0)
       <==> || w.oracle.keysOf(zone).Failed?
            || (HasKeys(w, zone) && zone != [] && DerivableByFirst(w, zone[1..]) && w.oracle.dsOf(zone).Failed?)
  {
    assert zone[0..] == zone;
  }

  /** The walk ends in an error exactly when it meets a failed query. */
  lemma {:induction false} WalkFailsIff(w: World, zone: Zone)
    ensures Uncached(w, zone).Error? <==> WalkFails(w, zone)
    decreases |zone|
  {
    FailsHere(w, zone);
    if w.oracle.keysOf(zone).Failed? {
      assert FailsAt(w, zone, 0);
    } else {
      KeysFound(w.oracle.keysOf(zone).answer);
      if !HasKeys(w, zone) {
        NoKeysNoFailure(w, zone);
      } else if zone != [] {
        WalkFailsIff(w, zone[1..]);
        SecureIffDerivable(w, zone[1..]);
        HereOrAbove(w, zone);
      } else {
        assert forall i: nat :: i > 0 ==> !FailsAt(w, zone, i);
      }
    }
  }

  lemma NoKeysNoFailure(w: World, zone: Zone)
    requires w.oracle.keysOf(zone).Answered? && !HasKeys(w, zone)
    ensures !WalkFails(w, zone)
  {
    assert zone[0..] == zone;
  }

  lemma HereOrAbove(w: World, zone: Zone)
    requires zone != [] && HasKeys(w, zone)
    ensures WalkFails(w, zone) <==> FailsAt(w, zone, 0) || WalkFails(w, zone[1..])
  {
    if i: nat :| FailsAt(w, zone, i) {
      if i > 0 {
        FailsAbove(w, zone, i - 1);
      }
    }
    if i: nat :| FailsAt(w, zone[1..], i) {
      FailsAbove(w, zone, i);
    }
  }

  // ----- the verdict ---------------------------------------------------------------------------

  /** The signature covers some record of the answer that is not a signature itself. */
  predicate CoversSome(answer: seq<Record>, sig: Rrsig) {
    exists n: nat :: n < |answer| && TypeOf(answer[n]) == sig.covered != TYPE_RRSIG
  }

  /** It verifies under a key of its signer, which has a derivation through first matches. */
  ghost predicate Holds(w: World, answer: seq<Record>, sig: Rrsig) {
    && DerivableByFirst(w, sig.signer)
    && exists k :: k in Keys(w.oracle.keysOf(sig.signer).answer) && Signs(w.oracle, k, sig, OfType(answer, sig.covered))
  }

  /** The first signature of the answer that covers something and does not hold. */
  ghost predicate FirstFault(w: World, answer: seq<Record>, i: nat) {
    && Fault(w, answer, i)
    && forall j: nat :: j < i ==> !Fault(w, answer, j)
  }

  ghost predicate Fault(w: World, answer: seq<Record>, i: nat) {
    i < |Sigs(answer)| && CoversSome(answer, Sigs(answer)[i]) && !Holds(w, answer, Sigs(answer)[i])
  }

  lemma {:induction false} TypeFound(answer: seq<Record>, t: nat)
    ensures OfType(answer, t) != [] <==> exists n: nat :: n < |answer| && TypeOf(answer[n]) == t
  {
    if answer != [] {
      TypeFound(answer[1..], t);
      if n: nat :| n < |answer| && TypeOf(answer[n]) == t {
        assert n > 0 ==> answer[1..][n - 1] == answer[n];
      }
      if n: nat :| n < |answer[1..]| && TypeOf(answer[1..][n]) == t {
        assert TypeOf(answer[n + 1]) == t;
      }
    }
  }

  lemma {:induction false} SigsFound(answer: seq<Record>)
    ensures Sigs(answer) != [] <==> exists n: nat :: n < |answer| && answer[n].SigRR?
  {
    if answer != [] {
      SigsFound(answer[1..]);
      if n: nat :| n < |answer| && answer[n].SigRR? {
        assert n > 0 ==> answer[1..][n - 1] == answer[n];
      }
      if n: nat :| n < |answer[1..]| && answer[1..][n].SigRR? {
        assert answer[n + 1].SigRR?;
      }
    }
  }

  lemma CoversFound(answer: seq<Record>, sig: Rrsig)
    ensures CoveredSet(answer, sig) != [] <==> CoversSome(answer, sig)
  {
    TypeFound(answer, sig.covered);
  }

  /** One signature: passed over, good, or faulty. */
  lemma OneVerdict(w: World, answer: seq<Record>, sig: Rrsig)
    ensures var v := JudgeOne(w, answer, sig);
            && v != Unsigned
            && (v == Secure <==> !CoversSome(answer, sig) || Holds(w, answer, sig))
            && (v == Unknown <==> CoversSome(answer, sig) && WalkFails(w, sig.signer))
  {
    CoversFound(answer, sig);
    WalkFailsIff(w, sig.signer);
    SecureIffDerivable(w, sig.signer);
    if IsSecure(w, sig.signer) && CoversSome(answer, sig) {
      SignedIsHeld(w, answer, sig);
    }
  }

  lemma SignedIsHeld(w: World, answer: seq<Record>, sig: Rrsig)
    requires IsSecure(w, sig.signer) && CoversSome(answer, sig)
    ensures SignedBy(w.oracle, sig, CoveredSet(answer, sig), Uncached(w, sig.signer).keys) <==> Holds(w, answer, sig)
  {
    var keys, rrset := Uncached(w, sig.signer).keys, CoveredSet(answer, sig);
    var _ := SecureIsDerived(w, sig.signer);
    SecureIffDerivable(w, sig.signer);
    assert rrset == OfType(answer, sig.covered);
    if SignedBy(w.oracle, sig, rrset, keys) {
      var i :| 0 <= i < |keys| && Matching(w.oracle, sig, rrset, keys[i]);
      assert keys[i] in keys && Signs(w.oracle, keys[i], sig, rrset);
    }
    if k :| k in keys && Signs(w.oracle, k, sig, rrset) {
      var i :| 0 <= i < |keys| && keys[i] == k;
      assert Matching(w.oracle, sig, rrset, keys[i]);
    }
  }

  /** The first signature that is not found secure decides. */
  lemma {:induction false} FirstDecides(w: World, answer: seq<Record>, sigs: seq<Rrsig>) returns (i: nat)
    ensures i <= |sigs| && forall j: nat :: j < i ==> JudgeOne(w, answer, sigs[j]) == Secure
    ensures if i < |sigs| then JudgeOne(w, answer, sigs[i]) != Secure && JudgeSigs(w, answer, sigs) == JudgeOne(w, answer, sigs[i])
            else JudgeSigs(w, answer, sigs) == Secure
    decreases sigs
  {
    if sigs == [] || JudgeOne(w, answer, sigs[0]) != Secure {
      i := 0;
    } else {
      var k := FirstDecides(w, answer, sigs[1..]);
      i := k + 1;
      assert forall j: nat :: 0 < j < |sigs| ==> sigs[j] == sigs[1..][j - 1];
    }
  }

  /** What each verdict means.  An answer is unsigned exactly when no record is a signature.  Otherwise
      the first signature that covers something and does not hold decides: the answer was not
      checked exactly when the walk from its signer meets a failed query, and is rejected when the
      walk completes. */
  lemma VerdictIff(w: World, answer: seq<Record>)
    ensures Judge(w, answer) == Unsigned <==> !exists n: nat :: n < |answer| && answer[n].SigRR?
    ensures Judge(w, answer) == Unknown <==> exists i: nat :: FirstFault(w, answer, i) && WalkFails(w, Sigs(answer)[i].signer)
    ensures Judge(w, answer) == Bogus <==> exists i: nat :: FirstFault(w, answer, i) && !WalkFails(w, Sigs(answer)[i].signer)
    ensures Judge(w, answer) == Secure <==> Sigs(answer) != [] && forall i: nat :: !Fault(w, answer, i)
  {
    var sigs := Sigs(answer);
    SigsFound(answer);
    forall j: nat | j < |sigs|
      ensures Fault(w, answer, j) <==> JudgeOne(w, answer, sigs[j]) != Secure
    {
      OneVerdict(w, answer, sigs[j]);
    }
    var i := FirstDecides(w, answer, sigs);
    if i < |sigs| {
      OneVerdict(w, answer, sigs[i]);
      FaultIsFirst(w, answer, i);
    }
  }

  lemma FaultIsFirst(w: World, answer: seq<Record>, i: nat)
    requires Fault(w, answer, i) && forall j: nat :: j < i ==> !Fault(w, answer, j)
    ensures FirstFault(w, answer, i) && forall j: nat :: FirstFault(w, answer, j) ==> j == i
  {
    forall j: nat | FirstFault(w, answer, j)
      ensures j == i
    {
    }
  }

  /** A forged answer does not pass: when the signer's zone has a derivation, and the first signature
      that covers anything verifies under none of its keys, the verdict is the one on which the
      handler refuses to answer. */
  lemma ForgedRejected(w: World, answer: seq<Record>, i: nat)
    requires FirstFault(w, answer, i) && DerivableByFirst(w, Sigs(answer)[i].signer)
    ensures Judge(w, answer) == Bogus
  {
    var zone := Sigs(answer)[i].signer;
    SecureIffDerivable(w, zone);
    WalkFailsIff(w, zone);
    VerdictIff(w, answer);
  }

  // ----- what is picked out of an answer ---------------------------------------------------------

  function Times<T(==)>(s: seq<T>, x: T): nat { multiset(s)[x] }

  lemma TimesNext<T>(s: seq<T>, x: T)
    requires s != []
    ensures Times(s, x) == (if s[0] == x then 1 else 0) + Times(s[1..], x)
  {
    assert s == [s[0]] + s[1..];
  }

  lemma TimesJoined<T>(a: seq<T>, b: seq<T>, x: T)
    ensures Times(a + b, x) == Times(a, x) + Times(b, x)
  {
  }

  /** The RRset of a type is all the records of that type, each as often as it comes. */
  lemma {:induction false} RrsetIsWhole(answer: seq<Record>, t: nat, r: Record)
    ensures Times(OfType(answer, t), r) == if TypeOf(r) == t then Times(answer, r) else 0
  {
    if answer != [] {
      RrsetIsWhole(answer[1..], t, r);
      TimesNext(answer, r);
      TimesJoined(if TypeOf(answer[0]) == t then [answer[0]] else [], OfType(answer[1..], t), r);
    }
  }

  /** Likewise the signatures over a type, and the keys and the DS records of an answer. */
  lemma {:induction false} PartsAreWhole(answer: seq<Record>, t: nat)
    ensures forall s :: s in SigsOver(answer, t) <==> s.covered == t && SigRR(s) in answer
    ensures forall k :: k in Keys(answer) <==> exists ttl :: KeyRR(k, ttl) in answer
    ensures forall d :: d in DsSet(answer) <==> DsRR(d) in answer
    ensures forall s :: s in Sigs(answer) <==> SigRR(s) in answer
  {
    if answer != [] {
      PartsAreWhole(answer[1..], t);
      assert answer == [answer[0]] + answer[1..];
    }
  }
}
