/**
 The chain of trust of internal/dnssec/validate.go (sections 5.2 and 5.3 of RFC 4035): a
 memoised walk from a zone up to the root anchors.  Upstream queries, signature checking and
 DS digests are a fixed oracle.
 */
module TrustChain {
  import opened Common
  import opened CanonicalOrder

  type Zone = Name
  type Time = int

  const SECOND: Time := 1_000_000_000
  const MIN_TTL: Time := 300 * SECOND
  const MAX_TTL: Time := 86400 * SECOND
  const MAX_DEPTH: nat := 20

  const TYPE_DS := 43
  const TYPE_RRSIG := 46
  const TYPE_DNSKEY := 48

  datatype Dnskey = Dnskey(alg: nat, tag: nat, data: seq<Byte>)
  datatype Rrsig = Rrsig(covered: nat, alg: nat, tag: nat, signer: Zone, data: seq<Byte>)

  /** A DS record, or a configured trust anchor. */
  datatype Ds = Ds(tag: nat, alg: nat, digestType: nat, digest: Label)

  datatype Record =
    | KeyRR(key: Dnskey, ttl: nat)
    | DsRR(ds: Ds)
    | SigRR(sig: Rrsig)
    | OtherRR(rtype: nat, data: seq<Byte>)

  function TypeOf(r: Record): nat {
    match r
    case KeyRR(_, _) => TYPE_DNSKEY
    case DsRR(_) => TYPE_DS
    case SigRR(_) => TYPE_RRSIG
    case OtherRR(t, _) => t
  }

  /** An answered query has rcode NOERROR; anything else is an infrastructure failure. */
  datatype Reply = Failed | Answered(answer: seq<Record>)

  datatype Oracle = Oracle(
    keysOf: Zone -> Reply,
    dsOf: Zone -> Reply,
    valid: Rrsig -> bool,
    verifies: (Rrsig, seq<Record>, Dnskey) -> bool,
    digest: (Dnskey, nat) -> Option<Ds>)

  datatype World = World(oracle: Oracle, anchors: seq<Ds>)

  // ----- picking an answer apart ---------------------------------------------------------

  function Keys(answer: seq<Record>): seq<Dnskey> {
    if answer == [] then [] else (if answer[0].KeyRR? then [answer[0].key] else []) + Keys(answer[1..])
  }

  function DsSet(answer: seq<Record>): seq<Ds> {
    if answer == [] then [] else (if answer[0].DsRR? then [answer[0].ds] else []) + DsSet(answer[1..])
  }

  function OfType(answer: seq<Record>, t: nat): seq<Record> {
    if answer == [] then [] else (if TypeOf(answer[0]) == t then [answer[0]] else []) + OfType(answer[1..], t)
  }

  function SigsOver(answer: seq<Record>, t: nat): seq<Rrsig> {
    if answer == [] then []
    else (if answer[0].SigRR? && answer[0].sig.covered == t then [answer[0].sig] else []) + SigsOver(answer[1..], t)
  }

  /** splitAnswer, for DNSKEY answers. */
  method SplitKeys(answer: seq<Record>) returns (keys: seq<Dnskey>, rrset: seq<Record>, sigs: seq<Rrsig>)
    ensures keys == Keys(answer) && rrset == OfType(answer, TYPE_DNSKEY) && sigs == SigsOver(answer, TYPE_DNSKEY)
  {
    keys, rrset, sigs := [], [], [];
    assert answer[0..] == answer;
    for i := 0 to |answer|
      invariant Keys(answer) == keys + Keys(answer[i..])
      invariant OfType(answer, TYPE_DNSKEY) == rrset + OfType(answer[i..], TYPE_DNSKEY)
      invariant SigsOver(answer, TYPE_DNSKEY) == sigs + SigsOver(answer[i..], TYPE_DNSKEY)
    {
      var r := answer[i];
      SplitOne(answer, i);
      var key := if r.KeyRR? then [r.key] else [];
      var set1 := if TypeOf(r) == TYPE_DNSKEY then [r] else [];
      var sig := if r.SigRR? && r.sig.covered == TYPE_DNSKEY then [r.sig] else [];
      AppendMore(keys, key, Keys(answer[i + 1..]));
      AppendMore(rrset, set1, OfType(answer[i + 1..], TYPE_DNSKEY));
      AppendMore(sigs, sig, SigsOver(answer[i + 1..], TYPE_DNSKEY));
      keys, rrset, sigs := keys + key, rrset + set1, sigs + sig;
    }
  }

  lemma SplitOne(answer: seq<Record>, i: nat)
    requires i < |answer|
    ensures var r, rest := answer[i], answer[i + 1..];
            && Keys(answer[i..]) == (if r.KeyRR? then [r.key] else []) + Keys(rest)
            && OfType(answer[i..], TYPE_DNSKEY) == (if TypeOf(r) == TYPE_DNSKEY then [r] else []) + OfType(rest, TYPE_DNSKEY)
            && SigsOver(answer[i..], TYPE_DNSKEY)
               == (if r.SigRR? && r.sig.covered == TYPE_DNSKEY then [r.sig] else []) + SigsOver(rest, TYPE_DNSKEY)
  {
    assert answer[i..][0] == answer[i] && answer[i..][1..] == answer[i + 1..];
  }

  lemma AppendMore<T>(a: seq<T>, b: seq<T>, c: seq<T>)
    ensures a + (b + c) == (a + b) + c
  {
  }

  // ----- signatures ----------------------------------------------------------------------

  predicate Matching(o: Oracle, sig: Rrsig, rrset: seq<Record>, k: Dnskey) {
    k.alg == sig.alg && k.tag == sig.tag && o.verifies(sig, rrset, k)
  }

  /** verifySigned: valid now, and verified by some key of its tag and algorithm. */
  predicate SignedBy(o: Oracle, sig: Rrsig, rrset: seq<Record>, keys: seq<Dnskey>) {
    o.valid(sig) && exists i :: 0 <= i < |keys| && Matching(o, sig, rrset, keys[i])
  }

  /** verifySignedAny. */
  predicate SignedByAny(o: Oracle, sigs: seq<Rrsig>, rrset: seq<Record>, keys: seq<Dnskey>) {
    exists i :: 0 <= i < |sigs| && SignedBy(o, sigs[i], rrset, keys)
  }

  predicate DsMatches(o: Oracle, k: Dnskey, d: Ds) {
    var c := o.digest(k, d.digestType);
    c.Some? && c.value.tag == d.tag && c.value.alg == d.alg && Lower(c.value.digest) == Lower(d.digest)
  }

  /** A DS record made from the key matches it, and of one digest type no record that differs in more
      than the case of its digest does. */
  lemma DsMatchesOne(o: Oracle, k: Dnskey, d: Ds, d': Ds)
    requires o.digest(k, d.digestType) == Some(d) && d'.digestType == d.digestType
    ensures DsMatches(o, k, d') <==> d'.(digest := Lower(d'.digest)) == d.(digest := Lower(d.digest))
  {
  }

  function FirstKey(o: Oracle, keys: seq<Dnskey>, d: Ds): Option<Dnskey> {
    if keys == [] then None else if DsMatches(o, keys[0], d) then Some(keys[0]) else FirstKey(o, keys[1..], d)
  }

  /** matchDS: the first key matching the first DS record that has one. */
  function MatchDs(o: Oracle, keys: seq<Dnskey>, dss: seq<Ds>): Option<Dnskey> {
    if dss == [] then None
    else if FirstKey(o, keys, dss[0]).Some? then FirstKey(o, keys, dss[0])
    else MatchDs(o, keys, dss[1..])
  }

  predicate MatchesSome(o: Oracle, k: Dnskey, dss: seq<Ds>) {
    exists i :: 0 <= i < |dss| && DsMatches(o, k, dss[i])
  }

  method VerifySigned(o: Oracle, sig: Rrsig, rrset: seq<Record>, keys: seq<Dnskey>) returns (r: bool)
    ensures r == SignedBy(o, sig, rrset, keys)
  {
    if !o.valid(sig) {
      return false;
    }
    for i := 0 to |keys|
      invariant forall j :: 0 <= j < i ==> !Matching(o, sig, rrset, keys[j])
    {
      if Matching(o, sig, rrset, keys[i]) {
        return true;
      }
    }
    return false;
  }

  method VerifySignedAny(o: Oracle, sigs: seq<Rrsig>, rrset: seq<Record>, keys: seq<Dnskey>) returns (r: bool)
    ensures r == SignedByAny(o, sigs, rrset, keys)
  {
    for i := 0 to |sigs|
      invariant forall j :: 0 <= j < i ==> !SignedBy(o, sigs[j], rrset, keys)
    {
      var ok := VerifySigned(o, sigs[i], rrset, keys);
      if ok {
        return true;
      }
    }
    return false;
  }

  method FindMatch(o: Oracle, keys: seq<Dnskey>, dss: seq<Ds>) returns (r: Option<Dnskey>)
    ensures r == MatchDs(o, keys, dss)
  {
    for i := 0 to |dss|
      invariant MatchDs(o, keys, dss) == MatchDs(o, keys, dss[i..])
    {
      assert dss[i..][1..] == dss[i + 1..];
      for j := 0 to |keys|
        invariant FirstKey(o, keys, dss[i]) == FirstKey(o, keys[j..], dss[i])
      {
        assert keys[j..][1..] == keys[j + 1..];
        if DsMatches(o, keys[j], dss[i]) {
          return Some(keys[j]);
        }
      }
    }
    return None;
  }

  lemma {:induction false} FirstKeyFound(o: Oracle, keys: seq<Dnskey>, d: Ds)
    ensures FirstKey(o, keys, d).Some? <==> exists i :: 0 <= i < |keys| && DsMatches(o, keys[i], d)
    ensures FirstKey(o, keys, d).Some? ==> FirstKey(o, keys, d).value in keys && DsMatches(o, FirstKey(o, keys, d).value, d)
  {
    if keys != [] && !DsMatches(o, keys[0], d) {
      FirstKeyFound(o, keys[1..], d);
      assert forall i :: 0 < i < |keys| ==> keys[i] == keys[1..][i - 1];
    }
  }

  /** matchDS finds a matching key exactly when there is one. */
  lemma {:induction false} MatchFound(o: Oracle, keys: seq<Dnskey>, dss: seq<Ds>)
    ensures MatchDs(o, keys, dss).Some? <==> exists i :: 0 <= i < |keys| && MatchesSome(o, keys[i], dss)
    ensures var m := MatchDs(o, keys, dss);
            m.Some? ==> m.value in keys && MatchesSome(o, m.value, dss)
  {
    if dss != [] {
      FirstKeyFound(o, keys, dss[0]);
      MatchFound(o, keys, dss[1..]);
      forall i | 0 <= i < |keys|
        ensures MatchesSome(o, keys[i], dss) <==> DsMatches(o, keys[i], dss[0]) || MatchesSome(o, keys[i], dss[1..])
      {
        MatchesSplit(o, keys[i], dss);
      }
      var m := MatchDs(o, keys, dss);
      if m.Some? {
        MatchesSplit(o, m.value, dss);
      }
    }
  }

  lemma MatchesSplit(o: Oracle, k: Dnskey, dss: seq<Ds>)
    requires dss != []
    ensures MatchesSome(o, k, dss) <==> DsMatches(o, k, dss[0]) || MatchesSome(o, k, dss[1..])
  {
    assert forall i :: 0 < i < |dss| ==> dss[i] == dss[1..][i - 1];
    if MatchesSome(o, k, dss[1..]) {
      var j :| 0 <= j < |dss[1..]| && DsMatches(o, k, dss[1..][j]);
      assert DsMatches(o, k, dss[j + 1]);
    }
  }

  // ----- the walk without a cache -----------------------------------------------------------

  datatype Outcome = Error | Judged(keys: seq<Dnskey>, secure: bool)

  /** A key set signed by a key that the DS records (or anchors) vouch for. */
  predicate Vouched(o: Oracle, answer: seq<Record>, dss: seq<Ds>) {
    var m := MatchDs(o, Keys(answer), dss);
    m.Some? && SignedByAny(o, SigsOver(answer, TYPE_DNSKEY), OfType(answer, TYPE_DNSKEY), [m.value])
  }

  /** The judgement of a delegation whose parent is secure with `parentKeys`. */
  function Delegated(w: World, zone: Zone, answer: seq<Record>, parentKeys: seq<Dnskey>): Outcome {
    match w.oracle.dsOf(zone)
    case Failed => Error
    case Answered(dsAnswer) =>
      var dss := DsSet(dsAnswer);
      Judged(Keys(answer),
             && dss != []
             && SignedByAny(w.oracle, SigsOver(dsAnswer, TYPE_DS), OfType(dsAnswer, TYPE_DS), parentKeys)
             && Vouched(w.oracle, answer, dss))
  }

  /** fetchZoneKeys with nothing remembered and no depth limit. */
  function Uncached(w: World, zone: Zone): Outcome
    decreases |zone|
  {
    match w.oracle.keysOf(zone)
    case Failed => Error
    case Answered(answer) =>
      if Keys(answer) == [] then Judged([], false)
      else if zone == [] then Judged(Keys(answer), Vouched(w.oracle, answer, w.anchors))
      else
        match Uncached(w, zone[1..])
        case Error => Error
        case Judged(parentKeys, parentSecure) =>
          if !parentSecure then Judged(Keys(answer), false) else Delegated(w, zone, answer, parentKeys)
  }

  // ----- the memoised walk ---------------------------------------------------------------------

  datatype Entry = Entry(keys: seq<Dnskey>, secure: bool, expires: Time)

  predicate Remembered(cache: map<Zone, Entry>, zone: Zone, now: Time) {
    zone in cache && now <= cache[zone].expires
  }

  /** The walk from `zone`, itself `depth` levels above where it began, has to go on beyond the
      limit: nothing on the way is remembered, and every zone on the way publishes keys. */
  ghost predicate TooDeep(w: World, cache: map<Zone, Entry>, zone: Zone, depth: nat, now: Time) {
    exists i: nat :: depth + i > 20 && GoesOnTo(w, cache, zone, i, now)
  }

  predicate GoesOnTo(w: World, cache: map<Zone, Entry>, zone: Zone, i: nat, now: Time) {
    && i <= |zone|
    && (forall j: nat :: j <= i ==> !Remembered(cache, zone[j..], now))
    && (forall j: nat :: j < i ==> w.oracle.keysOf(zone[j..]).Answered? && Keys(w.oracle.keysOf(zone[j..]).answer) != [])
  }

  lemma GoesOnStep(w: World, cache: map<Zone, Entry>, zone: Zone, i: nat, now: Time)
    requires zone != [] && !Remembered(cache, zone, now)
    requires w.oracle.keysOf(zone).Answered? && Keys(w.oracle.keysOf(zone).answer) != []
    ensures GoesOnTo(w, cache, zone[1..], i, now) <==> GoesOnTo(w, cache, zone, i + 1, now)
  {
    assert zone[0..] == zone;
    if i < |zone| {
      assert forall j: nat :: j <= i ==> zone[1..][j..] == zone[j + 1..];
      if GoesOnTo(w, cache, zone[1..], i, now) {
        forall j: nat | j <= i + 1
          ensures !Remembered(cache, zone[j..], now)
          ensures j < i + 1 ==> w.oracle.keysOf(zone[j..]).Answered? && Keys(w.oracle.keysOf(zone[j..]).answer) != []
        {
          assert j > 0 ==> zone[j..] == zone[1..][j - 1..];
        }
      }
      if GoesOnTo(w, cache, zone, i + 1, now) {
        forall j: nat | j <= i
          ensures !Remembered(cache, zone[1..][j..], now)
          ensures j < i ==> w.oracle.keysOf(zone[1..][j..]).Answered? && Keys(w.oracle.keysOf(zone[1..][j..]).answer) != []
        {
          assert zone[1..][j..] == zone[j + 1..];
        }
      }
    }
  }

  lemma DeepStep(w: World, cache: map<Zone, Entry>, zone: Zone, depth: nat, now: Time)
    requires zone != [] && !Remembered(cache, zone, now) && depth <= MAX_DEPTH
    requires w.oracle.keysOf(zone).Answered? && Keys(w.oracle.keysOf(zone).answer) != []
    ensures TooDeep(w, cache, zone[1..], depth + 1, now) <==> TooDeep(w, cache, zone, depth, now)
  {
    if i: nat :| depth + i > 20 && GoesOnTo(w, cache, zone, i, now) {
      GoesOnStep(w, cache, zone, i - 1, now);
    }
    if i: nat :| depth + 1 + i > 20 && GoesOnTo(w, cache, zone[1..], i, now) {
      GoesOnStep(w, cache, zone, i, now);
    }
  }

  /** Where the walk ends at once. */
  lemma DeepEnds(w: World, cache: map<Zone, Entry>, zone: Zone, depth: nat, now: Time)
    ensures Remembered(cache, zone, now) ==> !TooDeep(w, cache, zone, depth, now)
    ensures !Remembered(cache, zone, now) && depth > MAX_DEPTH ==> TooDeep(w, cache, zone, depth, now)
    ensures depth <= MAX_DEPTH && (zone == [] || w.oracle.keysOf(zone).Failed? || Keys(w.oracle.keysOf(zone).answer) == [])
            ==> !TooDeep(w, cache, zone, depth, now)
  {
    assert zone[0..] == zone;
    if !Remembered(cache, zone, now) && depth > MAX_DEPTH {
      assert GoesOnTo(w, cache, zone, 0, now);
    }
  }

  function KeyTtls(answer: seq<Record>): seq<nat> {
    if answer == [] then []
    else
      var last := answer[|answer| - 1];
      KeyTtls(answer[..|answer| - 1]) + if last.KeyRR? then [last.ttl] else []
  }

  /** The smallest of some TTLs, zero if there are none. */
  function Smallest(ts: seq<nat>): nat {
    if ts == [] then 0
    else
      var n := |ts| - 1;
      if n == 0 || ts[n] < Smallest(ts[..n]) then ts[n] else Smallest(ts[..n])
  }

  /** The TTLs after the last zero. */
  function SinceZero(ts: seq<nat>): seq<nat> {
    if ts == [] || ts[|ts| - 1] == 0 then [] else SinceZero(ts[..|ts| - 1]) + [ts[|ts| - 1]]
  }

  function Clamped(seconds: nat): Time {
    if seconds * SECOND < MIN_TTL then MIN_TTL else if seconds * SECOND > MAX_TTL then MAX_TTL else seconds * SECOND
  }

  lemma {:induction false} SmallestIs(ts: seq<nat>)
    requires ts != []
    ensures Smallest(ts) in ts && forall i :: 0 <= i < |ts| ==> Smallest(ts) <= ts[i]
  {
    var n := |ts| - 1;
    if n > 0 {
      SmallestIs(ts[..n]);
      assert forall i :: 0 <= i < n ==> ts[..n][i] == ts[i];
    }
  }

  lemma {:induction false} SinceZeroPositive(ts: seq<nat>)
    ensures forall i :: 0 <= i < |SinceZero(ts)| ==> SinceZero(ts)[i] > 0
    ensures 0 !in ts ==> SinceZero(ts) == ts
    ensures Smallest(SinceZero(ts)) == 0 <==> SinceZero(ts) == []
  {
    if ts != [] && ts[|ts| - 1] > 0 {
      SinceZeroPositive(ts[..|ts| - 1]);
      assert ts == ts[..|ts| - 1] + [ts[|ts| - 1]];
    }
    if SinceZero(ts) != [] {
      SmallestIs(SinceZero(ts));
    }
  }

  /** One turn of zoneKeyTTL's loop, which takes a zero for unset. */
  lemma SinceZeroNext(ts: seq<nat>, t: nat)
    ensures var m := Smallest(SinceZero(ts));
            Smallest(SinceZero(ts + [t])) == if m == 0 || t < m then t else m
  {
    SinceZeroPositive(ts);
    assert (ts + [t])[..|ts|] == ts;
    var run := SinceZero(ts);
    assert (run + [t])[..|run|] == run;
  }

  /** zoneKeyTTL: the smallest DNSKEY TTL after the last zero, within bounds. */
  method ZoneKeyTtl(answer: seq<Record>) returns (d: Time)
    ensures d == Clamped(Smallest(SinceZero(KeyTtls(answer))))
  {
    var min: nat := 0;
    for i := 0 to |answer|
      invariant min == Smallest(SinceZero(KeyTtls(answer[..i])))
    {
      assert answer[..i + 1][..i] == answer[..i];
      assert KeyTtls(answer[..i + 1]) == KeyTtls(answer[..i]) + if answer[i].KeyRR? then [answer[i].ttl] else [];
      if answer[i].KeyRR? {
        SinceZeroNext(KeyTtls(answer[..i]), answer[i].ttl);
        if min == 0 || answer[i].ttl < min {
          min := answer[i].ttl;
        }
      } else {
        assert KeyTtls(answer[..i + 1]) == KeyTtls(answer[..i]);
      }
    }
    assert answer[..|answer|] == answer;
    d := min * SECOND;
    if d < MIN_TTL {
      d := MIN_TTL;
    } else if d > MAX_TTL {
      d := MAX_TTL;
    }
  }

  /** No TTL from the `i`-th on is zero. */
  predicate PositiveFrom(ts: seq<nat>, i: nat) {
    i < |ts| && forall j :: i <= j < |ts| ==> ts[j] > 0
  }

  lemma {:induction false} SinceZeroIs(ts: seq<nat>, t: nat)
    ensures t in SinceZero(ts) <==> exists i: nat :: PositiveFrom(ts, i) && ts[i] == t
  {
    if ts != [] && ts[|ts| - 1] > 0 {
      var n := |ts| - 1;
      SinceZeroIs(ts[..n], t);
      if i: nat :| PositiveFrom(ts, i) && ts[i] == t {
        assert i < n ==> PositiveFrom(ts[..n], i);
      }
      if i: nat :| PositiveFrom(ts[..n], i) && ts[..n][i] == t {
        assert PositiveFrom(ts, i);
      }
      assert PositiveFrom(ts, n);
    }
  }

  /** That is the smallest of all the TTLs, within bounds, exactly when none is zero, or the last
      one is, or one after the last zero is at most the lower bound. */
  lemma SmallestKeptIff(ts: seq<nat>)
    ensures Clamped(Smallest(SinceZero(ts))) == Clamped(Smallest(ts))
       <==> || 0 !in ts
            || ts[|ts| - 1] == 0
            || exists i: nat :: PositiveFrom(ts, i) && ts[i] * SECOND <= MIN_TTL
  {
    SinceZeroPositive(ts);
    if 0 in ts {
      SmallestIs(ts);
      assert Smallest(ts) == 0;
      if SinceZero(ts) != [] {
        SmallestIs(SinceZero(ts));
        SinceZeroIs(ts, Smallest(SinceZero(ts)));
        if i: nat :| PositiveFrom(ts, i) && ts[i] * SECOND <= MIN_TTL {
          SinceZeroIs(ts, ts[i]);
        }
      }
    }
  }

  /** A zero before a day's TTL is forgotten; after it, it counts. */
  lemma ZeroOrderMatters()
    ensures Clamped(Smallest(SinceZero([0, 86400]))) == 86400 * 1_000_000_000
    ensures Clamped(Smallest(SinceZero([86400, 0]))) == 300 * 1_000_000_000
  {
    SinceZeroNext([0], 86400);
    assert [0] + [86400] == [0, 86400];
    assert SinceZero([0]) == [];
    SinceZeroNext([86400], 0);
    assert [86400] + [0] == [86400, 0];
  }

  class Validator {
    const world: World
    var cache: map<Zone, Entry>

    /** Everything remembered is what the walk without a cache finds. */
    ghost predicate Valid()
      reads this
    {
      forall z :: z in cache ==> Uncached(world, z) == Judged(cache[z].keys, cache[z].secure)
    }

    constructor (world: World)
      ensures this.world == world && Valid() && cache == map[]
    {
      this.world := world;
      cache := map[];
    }

    method StoreZone(zone: Zone, keys: seq<Dnskey>, secure: bool, ttl: Time, now: Time)
      requires Valid() && Uncached(world, zone) == Judged(keys, secure)
      modifies this
      ensures Valid() && cache == old(cache)[zone := Entry(keys, secure, now + ttl)]
    {
      cache := cache[zone := Entry(keys, secure, now + ttl)];
    }

    /** The DS half of fetchZoneKeys, below a secure parent. */
    method JudgeDelegation(zone: Zone, answer: seq<Record>, parentKeys: seq<Dnskey>) returns (r: Outcome)
      ensures r == Delegated(world, zone, answer, parentKeys)
    {
      var o := world.oracle;
      var reply := o.dsOf(zone);
      if reply.Failed? {
        return Error;
      }
      var keys, rrset, sigs := SplitKeys(answer);
      var dss := DsSet(reply.answer);
      if dss == [] {
        return Judged(keys, false);
      }
      var dsSigned := VerifySignedAny(o, SigsOver(reply.answer, TYPE_DS), OfType(reply.answer, TYPE_DS), parentKeys);
      if !dsSigned {
        return Judged(keys, false);
      }
      var matched := FindMatch(o, keys, dss);
      if matched.None? {
        return Judged(keys, false);
      }
      var ok := VerifySignedAny(o, sigs, rrset, [matched.value]);
      return Judged(keys, ok);
    }

    /** zoneKeys and fetchZoneKeys.  Whatever is remembered, the result is that of the walk
        without a cache, or the depth-limit error exactly when the walk has to go beyond the limit.
        What is found is remembered for as long as its keys live. */
    method ZoneKeys(zone: Zone, depth: nat, now: Time) returns (r: Outcome)
      requires Valid()
      modifies this
      ensures Valid()
      ensures r == if TooDeep(world, old(cache), zone, depth, now) then Error else Uncached(world, zone)
      ensures r.Judged? ==> Remembered(cache, zone, now) && r == Judged(cache[zone].keys, cache[zone].secure)
      ensures r.Judged? && !Remembered(old(cache), zone, now) ==>
                cache[zone].expires == now + Clamped(Smallest(SinceZero(KeyTtls(world.oracle.keysOf(zone).answer))))
      decreases |zone|
    {
      DeepEnds(world, cache, zone, depth, now);
      if zone in cache && now <= cache[zone].expires {
        return Judged(cache[zone].keys, cache[zone].secure);
      }
      if depth > MAX_DEPTH {
        return Error;
      }
      var reply := world.oracle.keysOf(zone);
      if reply.Failed? {
        return Error;
      }
      var keys, rrset, sigs := SplitKeys(reply.answer);
      var ttl := ZoneKeyTtl(reply.answer);
      if keys == [] {
        r := Judged([], false);
      } else if zone == [] {
        var matched := FindMatch(world.oracle, keys, world.anchors);
        var ok := false;
        if matched.Some? {
          ok := VerifySignedAny(world.oracle, sigs, rrset, [matched.value]);
        }
        r := Judged(keys, ok);
      } else {
        DeepStep(world, cache, zone, depth, now);
        var parent := ZoneKeys(zone[1..], depth + 1, now);
        if parent.Error? {
          return Error;
        }
        if !parent.secure {
          r := Judged(keys, false);
        } else {
          r := JudgeDelegation(zone, reply.answer, parent.keys);
          if r.Error? {
            return;
          }
        }
      }
      StoreZone(zone, r.keys, r.secure, ttl, now);
    }

    /** One round of the loop of Validate; Secure means go on. */
    method CheckSig(answer: seq<Record>, sig: Rrsig, now: Time) returns (v: Verdict)
      requires Valid()
      modifies this
      ensures Valid()
      ensures v == if CoveredSet(answer, sig) != [] && TooDeep(world, old(cache), sig.signer, 0, now) then Unknown
                   else JudgeOne(world, answer, sig)
    {
      var rrset := CoveredSet(answer, sig);
      if rrset == [] {
        return Secure;
      }
      var zone := ZoneKeys(sig.signer, 0, now);
      if zone.Error? {
        return Unknown;
      }
      if !zone.secure {
        return Bogus;
      }
      var ok := VerifySigned(world.oracle, sig, rrset, zone.keys);
      return if ok then Secure else Bogus;
    }

    /** Validate, for an answer that carries signatures or none. */
    method Validate(answer: seq<Record>, now: Time) returns (v: Verdict)
      requires Valid()
      modifies this
      ensures Valid()
      ensures v == Judge(world, answer) || (v == Unknown && exists i :: 0 <= i < |Sigs(answer)| && |Sigs(answer)[i].signer| > MAX_DEPTH)
    {
      var sigs := Sigs(answer);
      if sigs == [] {
        return Unsigned;
      }
      for i := 0 to |sigs|
        invariant Valid()
        invariant JudgeSigs(world, answer, sigs) == JudgeSigs(world, answer, sigs[i..])
      {
        assert sigs[i..][0] == sigs[i] && sigs[i..][1..] == sigs[i + 1..];
        v := CheckSig(answer, sigs[i], now);
        if v != Secure {
          assert v == JudgeSigs(world, answer, sigs[i..]) || (v == Unknown && |Sigs(answer)[i].signer| > MAX_DEPTH);
          return;
        }
      }
      return Secure;
    }
  }

  // ----- judging an answer -----------------------------------------------------------------------

  /** Unsigned, could not be checked, failed the check, or verified. */
  datatype Verdict = Unsigned | Unknown | Bogus | Secure

  function Sigs(answer: seq<Record>): seq<Rrsig> {
    if answer == [] then [] else (if answer[0].SigRR? then [answer[0].sig] else []) + Sigs(answer[1..])
  }

  /** The records of the answer that a signature claims to cover. */
  function CoveredSet(answer: seq<Record>, sig: Rrsig): seq<Record> {
    if sig.covered == TYPE_RRSIG then [] else OfType(answer, sig.covered)
  }

  /** What Validate finds of one signature, with the keys the walk without a cache finds. */
  function JudgeOne(w: World, answer: seq<Record>, sig: Rrsig): Verdict {
    if CoveredSet(answer, sig) == [] then Secure
    else
      match Uncached(w, sig.signer)
      case Error => Unknown
      case Judged(keys, secure) =>
        if secure && SignedBy(w.oracle, sig, CoveredSet(answer, sig), keys) then Secure else Bogus
  }

  /** The first signature that does not check decides. */
  function JudgeSigs(w: World, answer: seq<Record>, sigs: seq<Rrsig>): Verdict {
    if sigs == [] then Secure
    else
      var v := JudgeOne(w, answer, sigs[0]);
      if v == Secure then JudgeSigs(w, answer, sigs[1..]) else v
  }

  function Judge(w: World, answer: seq<Record>): Verdict {
    if Sigs(answer) == [] then Unsigned else JudgeSigs(w, answer, Sigs(answer))
  }
}
