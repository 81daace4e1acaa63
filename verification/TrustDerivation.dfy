/**
 What a secure verdict of the chain-of-trust walk means: an explicit derivation from a trust
 anchor down to the zone, and for an answer, a verified signature over every type that any
 signature covers.
 */
module TrustDerivation {
  import opened Common
  import opened CanonicalOrder
  import opened TrustChain

  /** At the root a key that an anchor names signs the key set; below, a key of the parent signs
      a DS set, and a key that one of those DS records names signs the key set. */
  datatype Derivation =
    | Anchored(key: Dnskey, keySig: Rrsig, anchor: Ds)
    | Below(key: Dnskey, keySig: Rrsig, ds: Ds, dsSigner: Dnskey, dsSig: Rrsig, parent: Derivation)

  predicate Signs(o: Oracle, k: Dnskey, sig: Rrsig, rrset: seq<Record>) {
    o.valid(sig) && Matching(o, sig, rrset, k)
  }

  /** The key set of `zone` is published and signed by a key of its own. */
  predicate SelfSigned(w: World, zone: Zone, key: Dnskey, keySig: Rrsig) {
    && w.oracle.keysOf(zone).Answered?
    && var answer := w.oracle.keysOf(zone).answer;
       && key in Keys(answer)
       && keySig in SigsOver(answer, TYPE_DNSKEY)
       && Signs(w.oracle, key, keySig, OfType(answer, TYPE_DNSKEY))
  }

  /** The DS set of `zone` is published and signed by a key of the parent. */
  predicate DsSigned(w: World, zone: Zone, ds: Ds, signer: Dnskey, dsSig: Rrsig)
    requires zone != []
  {
    && w.oracle.dsOf(zone).Answered? && w.oracle.keysOf(zone[1..]).Answered?
    && var answer := w.oracle.dsOf(zone).answer;
       && ds in DsSet(answer)
       && signer in Keys(w.oracle.keysOf(zone[1..]).answer)
       && dsSig in SigsOver(answer, TYPE_DS)
       && Signs(w.oracle, signer, dsSig, OfType(answer, TYPE_DS))
  }

  predicate Checks(w: World, d: Derivation, zone: Zone)
    decreases d
  {
    && SelfSigned(w, zone, d.key, d.keySig)
    && match d
       case Anchored(key, _, anchor) => zone == [] && anchor in w.anchors && DsMatches(w.oracle, key, anchor)
       case Below(key, _, ds, signer, dsSig, parent) =>
         && zone != []
         && DsSigned(w, zone, ds, signer, dsSig)
         && DsMatches(w.oracle, key, ds)
         && Checks(w, parent, zone[1..])
  }

  // ----- soundness ---------------------------------------------------------------------------

  lemma SignedByOne(o: Oracle, sigs: seq<Rrsig>, rrset: seq<Record>, keys: seq<Dnskey>) returns (sig: Rrsig, k: Dnskey)
    requires SignedByAny(o, sigs, rrset, keys)
    ensures sig in sigs && k in keys && Signs(o, k, sig, rrset)
  {
    var i :| 0 <= i < |sigs| && SignedBy(o, sigs[i], rrset, keys);
    var j :| 0 <= j < |keys| && Matching(o, sigs[i], rrset, keys[j]);
    sig, k := sigs[i], keys[j];
  }

  lemma VouchedBy(o: Oracle, answer: seq<Record>, dss: seq<Ds>) returns (key: Dnskey, sig: Rrsig, d: Ds)
    requires Vouched(o, answer, dss)
    ensures key in Keys(answer) && sig in SigsOver(answer, TYPE_DNSKEY)
    ensures Signs(o, key, sig, OfType(answer, TYPE_DNSKEY))
    ensures d in dss && DsMatches(o, key, d) && MatchDs(o, Keys(answer), dss) == Some(key)
  {
    MatchFound(o, Keys(answer), dss);
    key := MatchDs(o, Keys(answer), dss).value;
    var k;
    sig, k := SignedByOne(o, SigsOver(answer, TYPE_DNSKEY), OfType(answer, TYPE_DNSKEY), [key]);
    var i :| 0 <= i < |dss| && DsMatches(o, key, dss[i]);
    d := dss[i];
  }

  /** A secure verdict comes with a full derivation from an anchor down to the zone. */
  lemma {:induction false} SecureIsDerived(w: World, zone: Zone) returns (d: Derivation)
    requires Uncached(w, zone).Judged? && Uncached(w, zone).secure
    ensures Checks(w, d, zone) && FirstMatch(w, d, zone)
    ensures w.oracle.keysOf(zone).Answered? && Uncached(w, zone).keys == Keys(w.oracle.keysOf(zone).answer)
    decreases |zone|
  {
    var answer := w.oracle.keysOf(zone).answer;
    if zone == [] {
      var key, sig, anchor := VouchedBy(w.oracle, answer, w.anchors);
      d := Anchored(key, sig, anchor);
    } else {
      var parent := SecureIsDerived(w, zone[1..]);
      var parentKeys := Uncached(w, zone[1..]).keys;
      var dsAnswer := w.oracle.dsOf(zone).answer;
      var key, sig, ds := VouchedBy(w.oracle, answer, DsSet(dsAnswer));
      var dsSig, signer := SignedByOne(w.oracle, SigsOver(dsAnswer, TYPE_DS), OfType(dsAnswer, TYPE_DS), parentKeys);
      d := Below(key, sig, ds, signer, dsSig, parent);
    }
  }

  // ----- completeness: matchDS commits to its first match -----------------------------------------

  /** At every level the derivation uses the key that matchDS returns: the first key that the
      first matching DS record (or anchor) names. */
  predicate FirstMatch(w: World, d: Derivation, zone: Zone)
    decreases d
  {
    && w.oracle.keysOf(zone).Answered?
    && var keys := Keys(w.oracle.keysOf(zone).answer);
       match d
       case Anchored(key, _, _) => MatchDs(w.oracle, keys, w.anchors) == Some(key)
       case Below(key, _, _, _, _, parent) =>
         && zone != [] && w.oracle.dsOf(zone).Answered?
         && MatchDs(w.oracle, keys, DsSet(w.oracle.dsOf(zone).answer)) == Some(key)
         && FirstMatch(w, parent, zone[1..])
  }

  lemma OneSigns(o: Oracle, sigs: seq<Rrsig>, rrset: seq<Record>, keys: seq<Dnskey>, sig: Rrsig, k: Dnskey)
    requires sig in sigs && k in keys && Signs(o, k, sig, rrset)
    ensures SignedByAny(o, sigs, rrset, keys)
  {
    var i :| 0 <= i < |sigs| && sigs[i] == sig;
    var j :| 0 <= j < |keys| && keys[j] == k;
    assert Matching(o, sig, rrset, keys[j]);
    assert SignedBy(o, sigs[i], rrset, keys);
  }

  lemma {:induction false} DerivedIsSecure(w: World, zone: Zone, d: Derivation)
    requires Checks(w, d, zone) && FirstMatch(w, d, zone)
    ensures IsSecure(w, zone) && Uncached(w, zone).keys == Keys(w.oracle.keysOf(zone).answer)
    decreases |zone|
  {
    var answer := w.oracle.keysOf(zone).answer;
    assert Keys(answer) != [];
    OneSigns(w.oracle, SigsOver(answer, TYPE_DNSKEY), OfType(answer, TYPE_DNSKEY), [d.key], d.keySig, d.key);
    if zone != [] {
      DerivedIsSecure(w, zone[1..], d.parent);
      var dsAnswer := w.oracle.dsOf(zone).answer;
      var parentKeys := Uncached(w, zone[1..]).keys;
      OneSigns(w.oracle, SigsOver(dsAnswer, TYPE_DS), OfType(dsAnswer, TYPE_DS), parentKeys, d.dsSig, d.dsSigner);
    }
  }

  ghost predicate Derivable(w: World, zone: Zone) {
    exists d :: Checks(w, d, zone)
  }

  ghost predicate DerivableByFirst(w: World, zone: Zone) {
    exists d :: Checks(w, d, zone) && FirstMatch(w, d, zone)
  }

  predicate IsSecure(w: World, zone: Zone) {
    Uncached(w, zone).Judged? && Uncached(w, zone).secure
  }

  /** A zone is judged secure exactly when it has a derivation from an anchor through the first
      match at every level. */
  lemma SecureIffDerivable(w: World, zone: Zone)
    ensures IsSecure(w, zone) <==> DerivableByFirst(w, zone)
    ensures IsSecure(w, zone) ==> Derivable(w, zone)
  {
    if IsSecure(w, zone) {
      var d := SecureIsDerived(w, zone);
    } else if DerivableByFirst(w, zone) {
      var d :| Checks(w, d, zone) && FirstMatch(w, d, zone);
      DerivedIsSecure(w, zone, d);
    }
  }

  // ----- a derivation that is passed over -------------------------------------------------------------

  const ROOT_KEY := Dnskey(8, 0, [])
  const OLD_KEY := Dnskey(8, 1, [])
  const NEW_KEY := Dnskey(8, 2, [])
  const ZONE: Zone := [[1]]

  function DsFor(k: Dnskey): Ds { Ds(k.tag, k.alg, 2, []) }
  function SigBy(k: Dnskey, covered: nat, signer: Zone): Rrsig { Rrsig(covered, k.alg, k.tag, signer, []) }

  const ROOT_ANSWER: seq<Record> := [KeyRR(ROOT_KEY, 3600), SigRR(SigBy(ROOT_KEY, TYPE_DNSKEY, []))]
  const ZONE_ANSWER: seq<Record> := [KeyRR(OLD_KEY, 3600), KeyRR(NEW_KEY, 3600), SigRR(SigBy(NEW_KEY, TYPE_DNSKEY, ZONE))]
  const DS_ANSWER: seq<Record> := [DsRR(DsFor(OLD_KEY)), DsRR(DsFor(NEW_KEY)), SigRR(SigBy(ROOT_KEY, TYPE_DS, []))]

  /** A zone rolling over its key: both keys are published and named by DS records, and the key
      set is signed with the new one only. */
  const ROLLOVER: World := World(
    Oracle(
      (z: Zone) => Answered(if z == [] then ROOT_ANSWER else ZONE_ANSWER),
      (z: Zone) => Answered(DS_ANSWER),
      (s: Rrsig) => true,
      (s: Rrsig, r: seq<Record>, k: Dnskey) => true,
      (k: Dnskey, t: nat) => Some(Ds(k.tag, k.alg, t, []))),
    [DsFor(ROOT_KEY)])

  lemma PartsOf(r: Record, rest: seq<Record>, t: nat)
    ensures Keys([r] + rest) == (if r.KeyRR? then [r.key] else []) + Keys(rest)
    ensures DsSet([r] + rest) == (if r.DsRR? then [r.ds] else []) + DsSet(rest)
    ensures SigsOver([r] + rest, t) == (if r.SigRR? && r.sig.covered == t then [r.sig] else []) + SigsOver(rest, t)
  {
    assert ([r] + rest)[1..] == rest;
  }

  lemma PartsOfThree(a: Record, b: Record, c: Record, t: nat)
    requires c.SigRR? && c.sig.covered == t && !a.SigRR? && !b.SigRR?
    ensures Keys([a, b, c]) == (if a.KeyRR? then [a.key] else []) + (if b.KeyRR? then [b.key] else [])
    ensures DsSet([a, b, c]) == (if a.DsRR? then [a.ds] else []) + (if b.DsRR? then [b.ds] else [])
    ensures SigsOver([a, b, c], t) == [c.sig]
  {
    assert [a, b, c] == [a] + ([b] + ([c] + []));
    PartsOf(a, [b] + ([c] + []), t);
    PartsOf(b, [c] + [], t);
    PartsOf(c, [], t);
  }

  lemma RootParts()
    ensures Keys(ROOT_ANSWER) == [ROOT_KEY] && SigsOver(ROOT_ANSWER, TYPE_DNSKEY) == [SigBy(ROOT_KEY, TYPE_DNSKEY, [])]
  {
    var key, sig := KeyRR(ROOT_KEY, 3600), SigRR(SigBy(ROOT_KEY, TYPE_DNSKEY, []));
    assert ROOT_ANSWER == [key] + ([sig] + []);
    PartsOf(key, [sig] + [], TYPE_DNSKEY);
    PartsOf(sig, [], TYPE_DNSKEY);
  }

  lemma ZoneParts()
    ensures Keys(ZONE_ANSWER) == [OLD_KEY, NEW_KEY] && SigsOver(ZONE_ANSWER, TYPE_DNSKEY) == [SigBy(NEW_KEY, TYPE_DNSKEY, ZONE)]
  {
    PartsOfThree(KeyRR(OLD_KEY, 3600), KeyRR(NEW_KEY, 3600), SigRR(SigBy(NEW_KEY, TYPE_DNSKEY, ZONE)), TYPE_DNSKEY);
  }

  lemma DsParts()
    ensures DsSet(DS_ANSWER) == [DsFor(OLD_KEY), DsFor(NEW_KEY)] && SigsOver(DS_ANSWER, TYPE_DS) == [SigBy(ROOT_KEY, TYPE_DS, [])]
  {
    PartsOfThree(DsRR(DsFor(OLD_KEY)), DsRR(DsFor(NEW_KEY)), SigRR(SigBy(ROOT_KEY, TYPE_DS, [])), TYPE_DS);
  }

  lemma RolloverDerivation() returns (d: Derivation)
    ensures Checks(ROLLOVER, d, ZONE)
  {
    RootParts();
    ZoneParts();
    DsParts();
    var root := Anchored(ROOT_KEY, SigBy(ROOT_KEY, TYPE_DNSKEY, []), DsFor(ROOT_KEY));
    assert ZONE[1..] == [];
    assert Checks(ROLLOVER, root, []);
    d := Below(NEW_KEY, SigBy(NEW_KEY, TYPE_DNSKEY, ZONE), DsFor(NEW_KEY), ROOT_KEY, SigBy(ROOT_KEY, TYPE_DS, []), root);
  }

  /** Such a zone has a full derivation and is not judged secure: matchDS settles on the old key. */
  lemma RolloverRejected()
    ensures Derivable(ROLLOVER, ZONE) && !IsSecure(ROLLOVER, ZONE)
  {
    var _ := RolloverDerivation();
    ZoneParts();
    DsParts();
    assert DsMatches(ROLLOVER.oracle, OLD_KEY, DsFor(OLD_KEY));
    assert MatchDs(ROLLOVER.oracle, Keys(ZONE_ANSWER), DsSet(DS_ANSWER)) == Some(OLD_KEY);
    assert !Vouched(ROLLOVER.oracle, ZONE_ANSWER, DsSet(DS_ANSWER));
  }

  /** Every secure entry of a validator's cache has a derivation. */
  lemma SecureEntryDerived(v: Validator, zone: Zone)
    requires v.Valid() && zone in v.cache && v.cache[zone].secure
    ensures Derivable(v.world, zone)
  {
    SecureIffDerivable(v.world, zone);
  }

  // ----- answers -------------------------------------------------------------------------------

  /** The signature verifies under keys that have a derivation. */
  ghost predicate Proven(w: World, answer: seq<Record>, sig: Rrsig) {
    exists d, k :: Checks(w, d, sig.signer) && k in Keys(w.oracle.keysOf(sig.signer).answer)
                   && Signs(w.oracle, k, sig, CoveredSet(answer, sig))
  }

  predicate GoodSig(w: World, answer: seq<Record>, sig: Rrsig) {
    var zone := Uncached(w, sig.signer);
    zone.Judged? && zone.secure && SignedBy(w.oracle, sig, CoveredSet(answer, sig), zone.keys)
  }

  lemma GoodIsProven(w: World, answer: seq<Record>, sig: Rrsig)
    requires GoodSig(w, answer, sig)
    ensures Proven(w, answer, sig)
  {
    var d := SecureIsDerived(w, sig.signer);
    var keys := Uncached(w, sig.signer).keys;
    var i :| 0 <= i < |keys| && Matching(w.oracle, sig, CoveredSet(answer, sig), keys[i]);
    assert Signs(w.oracle, keys[i], sig, CoveredSet(answer, sig));
  }

  lemma {:induction false} JudgeSigsIff(w: World, answer: seq<Record>, sigs: seq<Rrsig>)
    ensures JudgeSigs(w, answer, sigs) == Secure
       <==> forall i :: 0 <= i < |sigs| && CoveredSet(answer, sigs[i]) != [] ==> GoodSig(w, answer, sigs[i])
    decreases sigs
  {
    if sigs != [] {
      JudgeSigsIff(w, answer, sigs[1..]);
      assert forall i :: 0 < i < |sigs| ==> sigs[i] == sigs[1..][i - 1];
      if forall i :: 0 <= i < |sigs| && CoveredSet(answer, sigs[i]) != [] ==> GoodSig(w, answer, sigs[i]) {
        forall i | 0 <= i < |sigs[1..]| && CoveredSet(answer, sigs[1..][i]) != []
          ensures GoodSig(w, answer, sigs[1..][i])
        {
          assert sigs[1..][i] == sigs[i + 1];
        }
      }
    }
  }

  /** A secure answer is one with signatures, each of which that covers anything present
      verifies under keys derived from an anchor. */
  lemma SecureAnswerIff(w: World, answer: seq<Record>)
    ensures Judge(w, answer) == Secure <==>
              && Sigs(answer) != []
              && forall i :: 0 <= i < |Sigs(answer)| && CoveredSet(answer, Sigs(answer)[i]) != [] ==>
                   GoodSig(w, answer, Sigs(answer)[i])
  {
    JudgeSigsIff(w, answer, Sigs(answer));
  }

  predicate Data(answer: seq<Record>, n: nat) {
    n < |answer| && TypeOf(answer[n]) != TYPE_RRSIG
  }

  predicate HasSig(answer: seq<Record>, t: nat) {
    exists i :: 0 <= i < |Sigs(answer)| && Sigs(answer)[i].covered == t
  }

  ghost predicate HasProof(w: World, answer: seq<Record>, t: nat) {
    exists i :: 0 <= i < |Sigs(answer)| && Sigs(answer)[i].covered == t && Proven(w, answer, Sigs(answer)[i])
  }

  lemma {:induction false} PresentType(answer: seq<Record>, n: nat)
    requires n < |answer|
    ensures OfType(answer, TypeOf(answer[n])) != []
  {
    if n > 0 {
      PresentType(answer[1..], n - 1);
    }
  }

  /** In a secure answer every record is proven exactly when every record's type is covered by
      some signature: types without one are let through. */
  lemma AllProvenIffAllCovered(w: World, answer: seq<Record>)
    requires Judge(w, answer) == Secure
    ensures (forall n: nat :: Data(answer, n) ==> HasProof(w, answer, TypeOf(answer[n])))
       <==> (forall n: nat :: Data(answer, n) ==> HasSig(answer, TypeOf(answer[n])))
  {
    SecureAnswerIff(w, answer);
    forall n: nat | Data(answer, n) && HasSig(answer, TypeOf(answer[n]))
      ensures HasProof(w, answer, TypeOf(answer[n]))
    {
      var t := TypeOf(answer[n]);
      var i :| 0 <= i < |Sigs(answer)| && Sigs(answer)[i].covered == t;
      PresentType(answer, n);
      assert CoveredSet(answer, Sigs(answer)[i]) != [];
      GoodIsProven(w, answer, Sigs(answer)[i]);
    }
    forall n: nat | Data(answer, n) && HasProof(w, answer, TypeOf(answer[n]))
      ensures HasSig(answer, TypeOf(answer[n]))
    {
    }
  }

  /** In every world an answer is judged secure although nothing in it was verified, when its
      only signature covers a type that is not there. */
  lemma UncoveredAccepted(w: World, data: Record, sig: Rrsig)
    requires data.OtherRR? && data.rtype != TYPE_RRSIG && sig.covered != data.rtype && sig.covered != TYPE_RRSIG
    ensures Judge(w, [data, SigRR(sig)]) == Secure
  {
    var answer := [data, SigRR(sig)];
    assert answer[1..] == [SigRR(sig)] && answer[1..][1..] == [];
    assert Sigs(answer[1..]) == [sig] + Sigs([]);
    assert Sigs(answer) == [sig];
    assert OfType(answer[1..], sig.covered) == OfType([], sig.covered);
    assert CoveredSet(answer, sig) == [];
    assert [sig][1..] == [];
    assert JudgeSigs(w, answer, [sig]) == JudgeSigs(w, answer, []);
  }
}
