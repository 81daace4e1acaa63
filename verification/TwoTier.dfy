/**
 Set, SetNegative and Lookup over both cache tiers (internal/cache/cache.go).  The shared tier
 is an oracle that may fail, forget, or answer with anything written to it earlier.  Whatever
 path an answer takes, the client is sent the message some Set stored, with conserved TTLs.
 */
module TwoTier {
  import opened Common
  import opened Wire
  import opened RawServe
  import opened CacheTtl
  import opened L1Cache
  import opened L1Store

  /** The L1 limits and the two configured lifetimes. */
  datatype Settings = Settings(lim: Limits, ttl: CacheTtl.Time, negativeTtl: CacheTtl.Time)

  /** The MGET of both keys: failed or not configured, or what each key holds. */
  datatype L2Reply = Down | Found(pos: Option<Octets>, neg: Option<Octets>)

  datatype Result = Nothing | Positive(hit: Hit, stale: bool) | Negative(raw: Octets, stale: bool)

  function PosKey(h: nat): Key { Key(h, false) }
  function NegKey(h: nat): Key { Key(h, true) }

  /** ttlOffsets of a stored message, none when it does not parse. */
  function FoundOffsets(raw: Octets): seq<nat> {
    if Parse(raw).Some? then Offsets(Parse(raw).value) else []
  }

  function PositiveOf(entry: Octets, offsets: seq<nat>, stale: bool): Result {
    var hit := PositiveResult(entry, offsets);
    if hit.None? then Nothing else Positive(hit.value, stale)
  }

  /** The answer held for the negative key, once the positive one has been read. */
  function NegativeAnswer(cfg: Settings, c: Store, h: nat, now: CacheTtl.Time): Lookup {
    Answer(Step(c, cfg.lim, GetOp(PosKey(h), now)), NegKey(h), now)
  }

  /** What a shared-tier reply writes into L1: under the configured lifetime, whatever is left of
      the entry's own. */
  function Warm(cfg: Settings, h: nat, now: CacheTtl.Time, l2: L2Reply): seq<Op> {
    match l2
    case Found(Some(p), _) => if |p| <= 8 then [] else [SetOp(PosKey(h), p, FoundOffsets(p[8..]), cfg.ttl, now)]
    case Found(None, Some(n)) => [DelOp(PosKey(h)), SetOp(NegKey(h), n, [], cfg.negativeTtl, now)]
    case _ => []
  }

  /** The L1 operations of Lookup. */
  function LookupOps(cfg: Settings, c: Store, h: nat, now: CacheTtl.Time, l2: L2Reply): seq<Op> {
    if Answer(c, PosKey(h), now).Fresh? then [GetOp(PosKey(h), now)]
    else
      [GetOp(PosKey(h), now), GetOp(NegKey(h), now)] + if NegativeAnswer(cfg, c, h, now).Fresh? then [] else Warm(cfg, h, now, l2)
  }

  function StaleResult(pos: Lookup, neg: Lookup): Result {
    if pos.Stale? then PositiveOf(pos.raw, pos.ttlOff, true)
    else if neg.Stale? then Negative(neg.raw, true)
    else Nothing
  }

  /** Lookup: fresh in L1, else from the shared tier, else stale in L1. */
  function LookupResult(cfg: Settings, c: Store, h: nat, now: CacheTtl.Time, l2: L2Reply): Result {
    var pos, neg := Answer(c, PosKey(h), now), NegativeAnswer(cfg, c, h, now);
    if pos.Fresh? then PositiveOf(pos.raw, pos.ttlOff, false)
    else if neg.Fresh? then Negative(neg.raw, false)
    else
      match l2
      case Found(Some(p), _) => if |p| <= 8 then StaleResult(pos, neg) else PositiveOf(p, FoundOffsets(p[8..]), false)
      case Found(None, Some(n)) => Negative(n, false)
      case _ => StaleResult(pos, neg)
  }

  function StepAll(c: Store, lim: Limits, ops: seq<Op>): Store
    decreases |ops|
  {
    if ops == [] then c else StepAll(Step(c, lim, ops[0]), lim, ops[1..])
  }

  lemma StepAllOne(c: Store, lim: Limits, a: Op)
    ensures StepAll(c, lim, [a]) == Step(c, lim, a)
  {
    assert [a][1..] == [];
    assert StepAll(Step(c, lim, a), lim, []) == Step(c, lim, a);
  }

  lemma StepAllNext(c: Store, lim: Limits, a: Op, rest: seq<Op>)
    ensures StepAll(c, lim, [a] + rest) == StepAll(Step(c, lim, a), lim, rest)
  {
    assert ([a] + rest)[1..] == rest;
  }

  lemma {:induction false} RunAll(lim: Limits, ops: seq<Op>, more: seq<Op>)
    ensures StepAll(Run(lim, ops), lim, more) == Run(lim, ops + more)
    decreases |more|
  {
    if more == [] {
      assert ops + more == ops;
    } else {
      var one := ops + [more[0]];
      assert one[..|one| - 1] == ops && one + more[1..] == ops + more;
      RunAll(lim, one, more[1..]);
    }
  }

  // ----- Lookup on the L1 object -----------------------------------------------------------------

  /** The part of Lookup after an L1 miss. */
  method Rewarm(l1: L1, cfg: Settings, h: nat, now: CacheTtl.Time, l2: L2Reply)
    requires l1.Valid() && cfg.lim == l1.lim
    requires l2.Found? && l2.pos.Some? ==> |l2.pos.value| <= UINT32
    modifies l1.shards
    ensures l1.View() == StepAll(old(l1.View()), cfg.lim, Warm(cfg, h, now, l2))
  {
    if l2.Found? && l2.pos.Some? {
      var p := l2.pos.value;
      if |p| > 8 {
        var off := TtlOffsets(p[8..]);
        var places := if off.None? then [] else off.value;
        assert places == FoundOffsets(p[8..]);
        StepAllOne(l1.View(), cfg.lim, SetOp(PosKey(h), p, places, cfg.ttl, now));
        l1.Set(PosKey(h), p, places, cfg.ttl, now);
      }
    } else if l2.Found? && l2.neg.Some? {
      var n := l2.neg.value;
      ghost var del, put := DelOp(PosKey(h)), SetOp(NegKey(h), n, [], cfg.negativeTtl, now);
      StepAllNext(l1.View(), cfg.lim, del, [put]);
      StepAllOne(Step(l1.View(), cfg.lim, del), cfg.lim, put);
      l1.Del(PosKey(h));
      l1.Set(NegKey(h), n, [], cfg.negativeTtl, now);
    }
  }

  method DoLookup(l1: L1, cfg: Settings, h: nat, now: CacheTtl.Time, l2: L2Reply) returns (r: Result)
    requires l1.Valid() && cfg.lim == l1.lim
    requires l2.Found? && l2.pos.Some? ==> |l2.pos.value| <= UINT32
    modifies l1.shards
    ensures r == LookupResult(cfg, old(l1.View()), h, now, l2)
    ensures l1.View() == StepAll(old(l1.View()), cfg.lim, LookupOps(cfg, old(l1.View()), h, now, l2))
  {
    ghost var c := l1.View();
    ghost var getPos, getNeg := GetOp(PosKey(h), now), GetOp(NegKey(h), now);
    var pos := l1.Get(PosKey(h), now);
    if pos.Fresh? {
      StepAllOne(c, cfg.lim, getPos);
      return PositiveOf(pos.raw, pos.ttlOff, false);
    }
    ghost var c1 := l1.View();
    var neg := l1.Get(NegKey(h), now);
    ghost var rest := if neg.Fresh? then [] else Warm(cfg, h, now, l2);
    TwoGets(c, cfg.lim, getPos, getNeg, rest);
    if neg.Fresh? {
      return Negative(neg.raw, false);
    }
    Rewarm(l1, cfg, h, now, l2);
    if l2.Found? && l2.pos.Some? && |l2.pos.value| > 8 {
      return PositiveOf(l2.pos.value, FoundOffsets(l2.pos.value[8..]), false);
    } else if l2.Found? && l2.pos.None? && l2.neg.Some? {
      return Negative(l2.neg.value, false);
    }
    return StaleResult(pos, neg);
  }

  lemma TwoGets(c: Store, lim: Limits, a: Op, b: Op, rest: seq<Op>)
    ensures StepAll(c, lim, [a, b] + rest) == StepAll(Step(Step(c, lim, a), lim, b), lim, rest)
  {
    assert [a, b] + rest == [a] + ([b] + rest);
    StepAllNext(c, lim, a, [b] + rest);
    StepAllNext(Step(c, lim, a), lim, b, rest);
  }

  // ----- runs --------------------------------------------------------------------------------------

  /** `raw` is the packed form of an empty answer that may be cached. */
  datatype Call =
    | SetCall(h: nat, m: Message, capTtl: CacheTtl.Time, now: CacheTtl.Time)
    | SetNegativeCall(h: nat, raw: Octets, ttl: CacheTtl.Time, now: CacheTtl.Time)
    | LookupCall(h: nat, now: CacheTtl.Time, l2: L2Reply)

  /** The L1 operations of a call; a message that does not pack is not cached. */
  function OpsOf(cfg: Settings, c: Store, call: Call): seq<Op> {
    match call
    case SetCall(h, m, capTtl, now) =>
      if m.Ok() && SetWrite(h, m, capTtl, cfg.ttl, now).Some? then [SetWrite(h, m, capTtl, cfg.ttl, now).value] else []
    case SetNegativeCall(h, raw, ttl, now) =>
      [SetOp(NegKey(h), raw, [], if ttl <= 0 then cfg.negativeTtl else ttl, now)]
    case LookupCall(h, now, l2) => LookupOps(cfg, c, h, now, l2)
  }

  /** Every L1 operation that the calls make. */
  function History(cfg: Settings, calls: seq<Call>): seq<Op> {
    if calls == [] then []
    else
      var before := History(cfg, calls[..|calls| - 1]);
      before + OpsOf(cfg, Run(cfg.lim, before), calls[|calls| - 1])
  }

  lemma HistoryThen(cfg: Settings, calls: seq<Call>, call: Call)
    ensures History(cfg, calls + [call]) == History(cfg, calls) + OpsOf(cfg, Run(cfg.lim, History(cfg, calls)), call)
  {
    assert (calls + [call])[..|calls|] == calls;
  }

  /** What DoLookup leaves of the L1 object is the state of the longer run. */
  lemma LookupIsNextCall(cfg: Settings, calls: seq<Call>, h: nat, now: CacheTtl.Time, l2: L2Reply)
    ensures var c := Run(cfg.lim, History(cfg, calls));
            StepAll(c, cfg.lim, LookupOps(cfg, c, h, now, l2)) == Run(cfg.lim, History(cfg, calls + [LookupCall(h, now, l2)]))
  {
    HistoryThen(cfg, calls, LookupCall(h, now, l2));
    var ops := History(cfg, calls);
    RunAll(cfg.lim, ops, LookupOps(cfg, Run(cfg.lim, ops), h, now, l2));
  }

  predicate Stores(call: Call, h: nat, entry: Octets) {
    call.SetCall? && call.h == h && call.m.Ok() && entry == EntryOf(call.m, Unix(call.now))
  }

  predicate StoresNegative(call: Call, h: nat, raw: Octets) {
    call.SetNegativeCall? && call.h == h && call.raw == raw
  }

  predicate Wrote(calls: seq<Call>, h: nat, entry: Octets) {
    exists i :: 0 <= i < |calls| && Stores(calls[i], h, entry)
  }

  predicate WroteNegative(calls: seq<Call>, h: nat, raw: Octets) {
    exists i :: 0 <= i < |calls| && StoresNegative(calls[i], h, raw)
  }

  /** The shared tier answers with something written to that key before. */
  predicate HonestReply(calls: seq<Call>, h: nat, l2: L2Reply) {
    l2.Found? ==> (l2.pos.Some? ==> Wrote(calls, h, l2.pos.value)) && (l2.neg.Some? ==> WroteNegative(calls, h, l2.neg.value))
  }

  predicate Honest(calls: seq<Call>) {
    forall i :: 0 <= i < |calls| && calls[i].LookupCall? ==> HonestReply(calls[..i], calls[i].h, calls[i].l2)
  }

  /** A write to L1 carries what some call stored for that question. */
  predicate Genuine(calls: seq<Call>, op: Op) {
    op.SetOp? ==>
      if op.key.neg then WroteNegative(calls, op.key.h, op.raw)
      else Wrote(calls, op.key.h, op.raw) && |op.raw| > 8 && op.ttlOff == FoundOffsets(op.raw[8..])
  }

  predicate AllGenuine(calls: seq<Call>, ops: seq<Op>) {
    forall i :: 0 <= i < |ops| ==> Genuine(calls, ops[i])
  }

  lemma WroteLonger(calls: seq<Call>, call: Call, h: nat, entry: Octets)
    ensures Wrote(calls, h, entry) ==> Wrote(calls + [call], h, entry)
    ensures WroteNegative(calls, h, entry) ==> WroteNegative(calls + [call], h, entry)
  {
    assert forall i :: 0 <= i < |calls| ==> (calls + [call])[i] == calls[i];
  }

  lemma GenuineLonger(calls: seq<Call>, call: Call, ops: seq<Op>)
    requires AllGenuine(calls, ops)
    ensures AllGenuine(calls + [call], ops)
  {
    forall i | 0 <= i < |ops| && ops[i].SetOp?
      ensures Genuine(calls + [call], ops[i])
    {
      assert Genuine(calls, ops[i]);
      WroteLonger(calls, call, ops[i].key.h, ops[i].raw);
    }
  }

  lemma EntryOffsets(m: Message, storedAt: int)
    requires m.Ok()
    ensures FoundOffsets(EntryOf(m, storedAt)[8..]) == Offsets(m)
  {
    assert EntryOf(m, storedAt)[8..] == m.Packed();
    ParsedAsPacked(m);
  }

  lemma SetGenuine(cfg: Settings, calls: seq<Call>, call: Call, c: Store)
    requires call.SetCall?
    ensures AllGenuine(calls + [call], OpsOf(cfg, c, call))
  {
    if call.m.Ok() {
      EntryOffsets(call.m, Unix(call.now));
      assert Stores((calls + [call])[|calls|], call.h, EntryOf(call.m, Unix(call.now)));
    }
  }

  lemma SetNegativeGenuine(cfg: Settings, calls: seq<Call>, call: Call, c: Store)
    requires call.SetNegativeCall?
    ensures AllGenuine(calls + [call], OpsOf(cfg, c, call))
  {
    assert StoresNegative((calls + [call])[|calls|], call.h, call.raw);
  }

  lemma WarmGenuine(cfg: Settings, calls: seq<Call>, h: nat, now: CacheTtl.Time, l2: L2Reply)
    requires HonestReply(calls, h, l2)
    ensures AllGenuine(calls, Warm(cfg, h, now, l2))
  {
  }

  lemma LookupGenuine(cfg: Settings, calls: seq<Call>, h: nat, now: CacheTtl.Time, l2: L2Reply, c: Store)
    requires HonestReply(calls, h, l2)
    ensures AllGenuine(calls, LookupOps(cfg, c, h, now, l2))
  {
    WarmGenuine(cfg, calls, h, now, l2);
  }

  /** In every run all writes to L1 are genuine, those that re-warm it included. */
  lemma {:induction false} HistoryGenuine(cfg: Settings, calls: seq<Call>)
    requires Honest(calls)
    ensures AllGenuine(calls, History(cfg, calls))
  {
    if calls != [] {
      var n := |calls| - 1;
      var front, call := calls[..n], calls[n];
      HonestFront(calls);
      HistoryGenuine(cfg, front);
      assert calls == front + [call];
      HistoryNextGenuine(cfg, front, call);
    }
  }

  lemma HistoryNextGenuine(cfg: Settings, calls: seq<Call>, call: Call)
    requires AllGenuine(calls, History(cfg, calls)) && (call.LookupCall? ==> HonestReply(calls, call.h, call.l2))
    ensures AllGenuine(calls + [call], History(cfg, calls + [call]))
  {
    CallGenuine(cfg, calls, call, History(cfg, calls));
    HistoryThen(cfg, calls, call);
  }

  lemma CallGenuine(cfg: Settings, calls: seq<Call>, call: Call, before: seq<Op>)
    requires AllGenuine(calls, before) && (call.LookupCall? ==> HonestReply(calls, call.h, call.l2))
    ensures AllGenuine(calls + [call], before + OpsOf(cfg, Run(cfg.lim, before), call))
  {
    var c := Run(cfg.lim, before);
    GenuineLonger(calls, call, before);
    if call.SetCall? {
      SetGenuine(cfg, calls, call, c);
    } else if call.SetNegativeCall? {
      SetNegativeGenuine(cfg, calls, call, c);
    } else {
      LookupGenuine(cfg, calls, call.h, call.now, call.l2, c);
      GenuineLonger(calls, call, OpsOf(cfg, c, call));
    }
    JoinGenuine(calls + [call], before, OpsOf(cfg, c, call));
  }

  lemma JoinGenuine(calls: seq<Call>, a: seq<Op>, b: seq<Op>)
    requires AllGenuine(calls, a) && AllGenuine(calls, b)
    ensures AllGenuine(calls, a + b)
  {
  }

  lemma HonestFront(calls: seq<Call>)
    requires calls != [] && Honest(calls)
    ensures Honest(calls[..|calls| - 1])
  {
    var front := calls[..|calls| - 1];
    forall i | 0 <= i < |front| && front[i].LookupCall?
      ensures HonestReply(front[..i], front[i].h, front[i].l2)
    {
      assert front[..i] == calls[..i];
    }
  }

  /** The latest record of a key comes from one of the writes to it. */
  lemma {:induction false} LatestWritten(lim: Limits, ops: seq<Op>, k: Key) returns (i: nat)
    requires Latest(lim, ops, k).Some?
    ensures i < |ops| && ops[i].SetOp? && ops[i].key == k
    ensures Latest(lim, ops, k).value == RecordOf(ops[i].raw, ops[i].ttlOff, ops[i].ttl, lim.stale, ops[i].now)
  {
    var n := |ops| - 1;
    var op := ops[n];
    if op.SetOp? && op.key == k && Accepted(op.raw, op.ttl) {
      i := n;
    } else {
      i := LatestWritten(lim, ops[..n], k);
    }
  }

  // ----- provenance ----------------------------------------------------------------------------------

  /** An L1 answer for a positive key. */
  lemma AnswerGenuine(cfg: Settings, calls: seq<Call>, h: nat, now: CacheTtl.Time)
    requires Honest(calls)
    ensures var a := Answer(Run(cfg.lim, History(cfg, calls)), PosKey(h), now);
            a.Miss? || (Wrote(calls, h, a.raw) && |a.raw| > 8 && a.ttlOff == FoundOffsets(a.raw[8..]))
  {
    var ops := History(cfg, calls);
    HistoryGenuine(cfg, calls);
    HitsAreLatest(cfg.lim, ops, PosKey(h), now);
    if !Answer(Run(cfg.lim, ops), PosKey(h), now).Miss? {
      var i := LatestWritten(cfg.lim, ops, PosKey(h));
      assert Genuine(calls, ops[i]);
    }
  }

  /** A positive result of Lookup is an entry some Set wrote for the question. */
  lemma ResultGenuine(cfg: Settings, calls: seq<Call>, h: nat, now: CacheTtl.Time, l2: L2Reply) returns (entry: Octets)
    requires Honest(calls) && HonestReply(calls, h, l2)
    requires LookupResult(cfg, Run(cfg.lim, History(cfg, calls)), h, now, l2).Positive?
    ensures Wrote(calls, h, entry) && |entry| > 8
    ensures PositiveResult(entry, FoundOffsets(entry[8..]))
         == Some(LookupResult(cfg, Run(cfg.lim, History(cfg, calls)), h, now, l2).hit)
  {
    var c := Run(cfg.lim, History(cfg, calls));
    var pos := Answer(c, PosKey(h), now);
    AnswerGenuine(cfg, calls, h, now);
    if pos.Fresh? {
      entry := pos.raw;
    } else if l2.Found? && l2.pos.Some? && |l2.pos.value| > 8 {
      entry := l2.pos.value;
    } else {
      entry := pos.raw;
    }
  }

  /** What `hit` puts on the wire is the message stored, with the asker's ID and TTLs that end
      when the stored ones do. */
  predicate Serves(hit: Hit, m: Message, stored: CacheTtl.Time, id: nat, now: CacheTtl.Time) {
    && |hit.raw| >= 2
    && Parse(WireBytes(hit, id, now)) == Some(Reply(m, id, Unix(now) - Unix(stored)))
    && TtlsConserved(m.answers, stored, now)
  }

  predicate TtlsConserved(rrs: seq<RR>, stored: CacheTtl.Time, now: CacheTtl.Time) {
    forall n: nat :: n < |rrs| ==> Conserved(rrs[n].ttl, Rebased(rrs[n].ttl, Unix(now) - Unix(stored)), stored, now)
  }

  lemma ServedTtls(rrs: seq<RR>, stored: CacheTtl.Time, now: CacheTtl.Time)
    requires InEra(stored, now)
    ensures TtlsConserved(rrs, stored, now)
  {
    forall n: nat | n < |rrs|
      ensures Conserved(rrs[n].ttl, Rebased(rrs[n].ttl, Unix(now) - Unix(stored)), stored, now)
    {
      RebasedExact(rrs[n].ttl, Unix(now) - Unix(stored));
    }
  }

  lemma StoredServes(m: Message, stored: CacheTtl.Time, id: nat, now: CacheTtl.Time)
    requires m.Ok() && InEra(stored, now) && id < 0x1_0000
    ensures Serves(HitOn(m, stored), m, stored, id, now)
  {
    WireReply(m, stored, now, id);
    ServedTtls(m.answers, stored, now);
  }

  lemma EntryHit(m: Message, stored: CacheTtl.Time, now: CacheTtl.Time)
    requires m.Ok() && InEra(stored, now)
    ensures var entry := EntryOf(m, Unix(stored));
            PositiveResult(entry, FoundOffsets(entry[8..])) == Some(HitOn(m, stored))
  {
    EntryOffsets(m, Unix(stored));
    EntryParts(m, Unix(stored));
  }

  /** Both ends of the cache: in every run of Set, SetNegative and Lookup, with any honest shared
      tier, a positive result serves the very message some earlier Set stored for the question. */
  lemma LookupConserves(cfg: Settings, calls: seq<Call>, h: nat, now: CacheTtl.Time, l2: L2Reply, id: nat) returns (i: nat)
    requires Honest(calls) && HonestReply(calls, h, l2) && id < 0x1_0000 && AllInEra(calls, now)
    ensures var r := LookupResult(cfg, Run(cfg.lim, History(cfg, calls)), h, now, l2);
            r.Positive? ==>
              i < |calls| && calls[i].SetCall? && calls[i].h == h && Serves(r.hit, calls[i].m, calls[i].now, id, now)
  {
    i := 0;
    if LookupResult(cfg, Run(cfg.lim, History(cfg, calls)), h, now, l2).Positive? {
      var entry := ResultGenuine(cfg, calls, h, now, l2);
      i :| 0 <= i < |calls| && Stores(calls[i], h, entry);
      EntryHit(calls[i].m, calls[i].now, now);
      StoredServes(calls[i].m, calls[i].now, id, now);
    }
  }

  /** Everything was stored in the 2^32 seconds before `now`. */
  predicate AllInEra(calls: seq<Call>, now: CacheTtl.Time) {
    forall j :: 0 <= j < |calls| && calls[j].SetCall? ==> InEra(calls[j].now, now)
  }

  lemma NegativeAnswerGenuine(cfg: Settings, calls: seq<Call>, h: nat, now: CacheTtl.Time)
    requires Honest(calls)
    ensures var a := NegativeAnswer(cfg, Run(cfg.lim, History(cfg, calls)), h, now);
            a.Miss? || WroteNegative(calls, h, a.raw)
  {
    var ops, get := History(cfg, calls), GetOp(PosKey(h), now);
    assert (ops + [get])[..|ops|] == ops;
    HistoryGenuine(cfg, calls);
    HitsAreLatest(cfg.lim, ops + [get], NegKey(h), now);
    if !NegativeAnswer(cfg, Run(cfg.lim, ops), h, now).Miss? {
      var i := LatestWritten(cfg.lim, ops, NegKey(h));
      assert Genuine(calls, ops[i]);
    }
  }

  /** A negative result, fresh, shared or stale, is a packed answer that some SetNegative stored for
      the question. */
  lemma NegativesGenuine(cfg: Settings, calls: seq<Call>, h: nat, now: CacheTtl.Time, l2: L2Reply)
    requires Honest(calls) && HonestReply(calls, h, l2)
    ensures var r := LookupResult(cfg, Run(cfg.lim, History(cfg, calls)), h, now, l2);
            r.Negative? ==> WroteNegative(calls, h, r.raw)
  {
    NegativeAnswerGenuine(cfg, calls, h, now);
  }

  // ----- how long a result counts as fresh -----------------------------------------------------------

  /** Some Set stored the entry, and at `end` all its answers still live. */
  predicate EndsInTime(calls: seq<Call>, h: nat, entry: Octets, end: CacheTtl.Time) {
    exists i :: 0 <= i < |calls| && Stores(calls[i], h, entry) && end <= LivesUntil(calls[i])
  }

  function LivesUntil(call: Call): CacheTtl.Time
    requires call.SetCall?
  {
    call.now + SmallestTtl(call.m.answers) * CacheTtl.SECOND
  }

  /** The L1 lifetime a reply of the shared tier would be given ends in time. */
  predicate ReplyInTime(cfg: Settings, calls: seq<Call>, h: nat, now: CacheTtl.Time, l2: L2Reply) {
    l2.Found? && l2.pos.Some? ==> EndsInTime(calls, h, l2.pos.value, now + cfg.ttl)
  }

  /** So it is at every re-warm of the question. */
  predicate RewarmsInTime(cfg: Settings, calls: seq<Call>, h: nat) {
    forall j :: 0 <= j < |calls| && calls[j].LookupCall? && calls[j].h == h ==>
      ReplyInTime(cfg, calls[..j], h, calls[j].now, calls[j].l2)
  }

  predicate InTime(calls: seq<Call>, h: nat, op: Op) {
    op.SetOp? && op.key == PosKey(h) ==> EndsInTime(calls, h, op.raw, op.now + op.ttl)
  }

  predicate AllInTime(calls: seq<Call>, h: nat, ops: seq<Op>) {
    forall i :: 0 <= i < |ops| ==> InTime(calls, h, ops[i])
  }

  lemma InTimeLonger(calls: seq<Call>, call: Call, h: nat, ops: seq<Op>)
    requires AllInTime(calls, h, ops)
    ensures AllInTime(calls + [call], h, ops)
  {
    forall i | 0 <= i < |ops|
      ensures InTime(calls + [call], h, ops[i])
    {
      assert InTime(calls, h, ops[i]);
      if ops[i].SetOp? && ops[i].key == PosKey(h) {
        var j :| 0 <= j < |calls| && Stores(calls[j], h, ops[i].raw) && ops[i].now + ops[i].ttl <= LivesUntil(calls[j]);
        assert (calls + [call])[j] == calls[j];
      }
    }
  }

  lemma CallInTime(cfg: Settings, calls: seq<Call>, call: Call, h: nat, c: Store)
    requires call.LookupCall? && call.h == h ==> ReplyInTime(cfg, calls, h, call.now, call.l2)
    ensures AllInTime(calls + [call], h, OpsOf(cfg, c, call))
  {
    if call.SetCall? {
      assert (calls + [call])[|calls|] == call;
    } else if call.LookupCall? {
      LookupInTime(cfg, calls, h, call, c);
      InTimeLonger(calls, call, h, OpsOf(cfg, c, call));
    }
  }

  lemma LookupInTime(cfg: Settings, calls: seq<Call>, h: nat, call: Call, c: Store)
    requires call.LookupCall? && (call.h == h ==> ReplyInTime(cfg, calls, h, call.now, call.l2))
    ensures AllInTime(calls, h, OpsOf(cfg, c, call))
  {
    assert forall i :: 0 <= i < |Warm(cfg, call.h, call.now, call.l2)| ==>
        InTime(calls, h, Warm(cfg, call.h, call.now, call.l2)[i]);
  }

  lemma {:induction false} HistoryInTime(cfg: Settings, calls: seq<Call>, h: nat)
    requires RewarmsInTime(cfg, calls, h)
    ensures AllInTime(calls, h, History(cfg, calls))
  {
    if calls != [] {
      var n := |calls| - 1;
      var front, call := calls[..n], calls[n];
      assert calls == front + [call];
      RewarmsFront(cfg, front, call, h);
      HistoryInTime(cfg, front, h);
      HistoryNextInTime(cfg, front, call, h);
    }
  }

  lemma HistoryNextInTime(cfg: Settings, calls: seq<Call>, call: Call, h: nat)
    requires AllInTime(calls, h, History(cfg, calls))
    requires call.LookupCall? && call.h == h ==> ReplyInTime(cfg, calls, h, call.now, call.l2)
    ensures AllInTime(calls + [call], h, History(cfg, calls + [call]))
  {
    NextInTime(cfg, calls, call, h, History(cfg, calls));
    HistoryThen(cfg, calls, call);
  }

  lemma RewarmsFront(cfg: Settings, calls: seq<Call>, call: Call, h: nat)
    requires RewarmsInTime(cfg, calls + [call], h)
    ensures RewarmsInTime(cfg, calls, h)
    ensures call.LookupCall? && call.h == h ==> ReplyInTime(cfg, calls, h, call.now, call.l2)
  {
    var all := calls + [call];
    assert forall j :: 0 <= j < |calls| ==> all[j] == calls[j] && all[..j] == calls[..j];
    assert all[..|calls|] == calls && all[|calls|] == call;
  }

  lemma NextInTime(cfg: Settings, calls: seq<Call>, call: Call, h: nat, before: seq<Op>)
    requires AllInTime(calls, h, before)
    requires call.LookupCall? && call.h == h ==> ReplyInTime(cfg, calls, h, call.now, call.l2)
    ensures AllInTime(calls + [call], h, before + OpsOf(cfg, Run(cfg.lim, before), call))
  {
    InTimeLonger(calls, call, h, before);
    CallInTime(cfg, calls, call, h, Run(cfg.lim, before));
    JoinInTime(calls + [call], h, before, OpsOf(cfg, Run(cfg.lim, before), call));
  }

  lemma JoinInTime(calls: seq<Call>, h: nat, a: seq<Op>, b: seq<Op>)
    requires AllInTime(calls, h, a) && AllInTime(calls, h, b)
    ensures AllInTime(calls, h, a + b)
  {
  }

  lemma FreshInTime(cfg: Settings, calls: seq<Call>, h: nat, now: CacheTtl.Time)
    requires RewarmsInTime(cfg, calls, h)
    ensures var a := Answer(Run(cfg.lim, History(cfg, calls)), PosKey(h), now);
            a.Fresh? ==> EndsInTime(calls, h, a.raw, now + 1)
  {
    var ops := History(cfg, calls);
    HistoryInTime(cfg, calls, h);
    HitsAreLatest(cfg.lim, ops, PosKey(h), now);
    if Answer(Run(cfg.lim, ops), PosKey(h), now).Fresh? {
      var i := LatestWritten(cfg.lim, ops, PosKey(h));
      assert InTime(calls, h, ops[i]);
    }
  }

  /** A result that Lookup does not mark stale. */
  predicate IsFresh(r: Result) {
    r.Positive? && !r.stale
  }

  /** When every lifetime given to a reply of the shared tier ends in time, every fresh positive
      result is an entry whose answers all still live. */
  lemma FreshWithinTtls(cfg: Settings, calls: seq<Call>, h: nat, now: CacheTtl.Time, l2: L2Reply) returns (i: nat)
    requires RewarmsInTime(cfg, calls, h) && ReplyInTime(cfg, calls, h, now, l2) && cfg.ttl > 0
    ensures var r := LookupResult(cfg, Run(cfg.lim, History(cfg, calls)), h, now, l2);
            IsFresh(r) ==>
              && i < |calls| && calls[i].SetCall? && calls[i].h == h && calls[i].m.Ok() && r.hit.raw == calls[i].m.Packed()
              && forall n: nat :: n < |calls[i].m.answers| ==> now < calls[i].now + calls[i].m.answers[n].ttl * CacheTtl.SECOND
  {
    i := 0;
    var c := Run(cfg.lim, History(cfg, calls));
    var pos := Answer(c, PosKey(h), now);
    if IsFresh(LookupResult(cfg, c, h, now, l2)) {
      FreshInTime(cfg, calls, h, now);
      var entry := if pos.Fresh? then pos.raw else l2.pos.value;
      i :| 0 <= i < |calls| && Stores(calls[i], h, entry) && now + 1 <= LivesUntil(calls[i]);
      assert entry[8..] == calls[i].m.Packed();
      forall n: nat | n < |calls[i].m.answers|
        ensures now < calls[i].now + calls[i].m.answers[n].ttl * CacheTtl.SECOND
      {
        SmallestIsBound(calls[i].m.answers, n);
      }
    }
  }

  // ----- a re-warm that does not end in time -----------------------------------------------------------

  /** After the calls, Lookup has a fresh answer of its own at time `u`. */
  predicate FreshAt(cfg: Settings, calls: seq<Call>, h: nat, u: CacheTtl.Time) {
    IsFresh(LookupResult(cfg, Run(cfg.lim, History(cfg, calls)), h, u, Down))
  }

  /** Set, and a Lookup that finds the entry expired in L1 and still in the shared tier. */
  function LateRewarm(h: nat, m: Message, capTtl: CacheTtl.Time, stored: CacheTtl.Time, now: CacheTtl.Time): seq<Call>
    requires m.Ok()
  {
    [SetCall(h, m, capTtl, stored)] + [LookupCall(h, now, Found(Some(EntryOf(m, Unix(stored))), None))]
  }

  /** The four L1 operations that makes. */
  function LateOps(cfg: Settings, h: nat, m: Message, capTtl: CacheTtl.Time, stored: CacheTtl.Time, now: CacheTtl.Time): seq<Op>
    requires m.Ok() && SetWrite(h, m, capTtl, cfg.ttl, stored).Some?
  {
    var entry := EntryOf(m, Unix(stored));
    [SetWrite(h, m, capTtl, cfg.ttl, stored).value, GetOp(PosKey(h), now), GetOp(NegKey(h), now),
     SetOp(PosKey(h), entry, FoundOffsets(entry[8..]), cfg.ttl, now)]
  }

  /** After the Set the positive key is expired at `now`, and the negative one is not there. */
  lemma ExpiredInL1(cfg: Settings, h: nat, m: Message, capTtl: CacheTtl.Time, stored: CacheTtl.Time, now: CacheTtl.Time)
    requires cfg.lim.cap == 0 && m.Ok() && SetWrite(h, m, capTtl, cfg.ttl, stored).Some?
    requires stored + Lifetime(m.answers, capTtl, cfg.ttl) <= now
    ensures var c := Run(cfg.lim, [SetWrite(h, m, capTtl, cfg.ttl, stored).value]);
            !Answer(c, PosKey(h), now).Fresh? && NegativeAnswer(cfg, c, h, now).Miss?
  {
    var op := SetWrite(h, m, capTtl, cfg.ttl, stored).value;
    assert [op][..0] == [];
    UncappedIsExact(cfg.lim, [op], PosKey(h), now);
    var two := [op, GetOp(PosKey(h), now)];
    assert two[..1] == [op];
    UncappedIsExact(cfg.lim, two, NegKey(h), now);
    assert Latest(cfg.lim, [op], NegKey(h)) == Latest(cfg.lim, [], NegKey(h));
    assert Run(cfg.lim, two) == Step(Run(cfg.lim, [op]), cfg.lim, GetOp(PosKey(h), now));
  }

  lemma LateHistory(cfg: Settings, h: nat, m: Message, capTtl: CacheTtl.Time, stored: CacheTtl.Time, now: CacheTtl.Time)
    requires cfg.lim.cap == 0 && m.Ok() && SetWrite(h, m, capTtl, cfg.ttl, stored).Some?
    requires stored + Lifetime(m.answers, capTtl, cfg.ttl) <= now
    ensures History(cfg, LateRewarm(h, m, capTtl, stored, now)) == LateOps(cfg, h, m, capTtl, stored, now)
  {
    var op := SetWrite(h, m, capTtl, cfg.ttl, stored).value;
    var set1, look := SetCall(h, m, capTtl, stored), LookupCall(h, now, Found(Some(EntryOf(m, Unix(stored))), None));
    HistoryThen(cfg, [], set1);
    assert [] + [set1] == [set1] && History(cfg, [set1]) == [op];
    HistoryThen(cfg, [set1], look);
    LateLookup(cfg, h, m, capTtl, stored, now);
    assert [op] + LateOps(cfg, h, m, capTtl, stored, now)[1..] == LateOps(cfg, h, m, capTtl, stored, now);
  }

  lemma LateLookup(cfg: Settings, h: nat, m: Message, capTtl: CacheTtl.Time, stored: CacheTtl.Time, now: CacheTtl.Time)
    requires cfg.lim.cap == 0 && m.Ok() && SetWrite(h, m, capTtl, cfg.ttl, stored).Some?
    requires stored + Lifetime(m.answers, capTtl, cfg.ttl) <= now
    ensures var c := Run(cfg.lim, [SetWrite(h, m, capTtl, cfg.ttl, stored).value]);
            LookupOps(cfg, c, h, now, Found(Some(EntryOf(m, Unix(stored))), None)) == LateOps(cfg, h, m, capTtl, stored, now)[1..]
  {
    ExpiredInL1(cfg, h, m, capTtl, stored, now);
  }

  lemma LateVerdict(cfg: Settings, h: nat, m: Message, capTtl: CacheTtl.Time, stored: CacheTtl.Time, now: CacheTtl.Time, u: CacheTtl.Time)
    requires cfg.lim.cap == 0 && cfg.ttl > 0 && m.Ok() && SetWrite(h, m, capTtl, cfg.ttl, stored).Some?
    requires stored <= now <= u
    ensures var entry, ops := EntryOf(m, Unix(stored)), LateOps(cfg, h, m, capTtl, stored, now);
            Answer(Run(cfg.lim, ops), PosKey(h), u)
            == Verdict(Some(RecordOf(entry, FoundOffsets(entry[8..]), cfg.ttl, cfg.lim.stale, now)), u)
  {
    var ops := LateOps(cfg, h, m, capTtl, stored, now);
    LatestIsLast(cfg.lim, ops, PosKey(h));
    UncappedIsExact(cfg.lim, ops, PosKey(h), u);
  }

  /** From then on the answer is fresh for the whole configured lifetime. */
  lemma RewarmedWindow(cfg: Settings, h: nat, m: Message, capTtl: CacheTtl.Time, stored: CacheTtl.Time, now: CacheTtl.Time, u: CacheTtl.Time)
    requires cfg.lim.cap == 0 && cfg.ttl > 0 && m.Ok() && SetWrite(h, m, capTtl, cfg.ttl, stored).Some?
    requires stored + Lifetime(m.answers, capTtl, cfg.ttl) <= now <= u
    ensures FreshAt(cfg, LateRewarm(h, m, capTtl, stored, now), h, u) <==> u < now + cfg.ttl
  {
    LateHistory(cfg, h, m, capTtl, stored, now);
    LateVerdict(cfg, h, m, capTtl, stored, now, u);
    FreshFromL1(cfg, Run(cfg.lim, LateOps(cfg, h, m, capTtl, stored, now)), h, u);
  }

  /** Without the shared tier a result is fresh exactly when the positive key is. */
  lemma FreshFromL1(cfg: Settings, c: Store, h: nat, u: CacheTtl.Time)
    ensures var a := Answer(c, PosKey(h), u);
            IsFresh(LookupResult(cfg, c, h, u, Down)) <==> a.Fresh? && |a.raw| > 8
  {
  }

  lemma LatestIsLast(lim: Limits, ops: seq<Op>, k: Key)
    requires ops != [] && ops[|ops| - 1].SetOp? && ops[|ops| - 1].key == k && Accepted(ops[|ops| - 1].raw, ops[|ops| - 1].ttl)
    ensures var op := ops[|ops| - 1];
            Latest(lim, ops, k) == Some(RecordOf(op.raw, op.ttlOff, op.ttl, lim.stale, op.now))
  {
  }

  /** A re-warmed entry counts as fresh only while all its answers live exactly when the lifetime
      it is given ends in time: otherwise it is served as fresh past its smallest TTL. */
  lemma RewarmedFreshIff(cfg: Settings, h: nat, m: Message, capTtl: CacheTtl.Time, stored: CacheTtl.Time, now: CacheTtl.Time)
    requires cfg.lim.cap == 0 && cfg.ttl > 0 && m.Ok() && SetWrite(h, m, capTtl, cfg.ttl, stored).Some?
    requires stored + Lifetime(m.answers, capTtl, cfg.ttl) <= now
    ensures var calls := LateRewarm(h, m, capTtl, stored, now);
            var end := stored + SmallestTtl(m.answers) * CacheTtl.SECOND;
            && Honest(calls)
            && ((forall u :: now <= u && FreshAt(cfg, calls, h, u) ==> u < end) <==> now + cfg.ttl <= end)
  {
    var calls := LateRewarm(h, m, capTtl, stored, now);
    LateHonest(h, m, capTtl, stored, now);
    forall u | now <= u
      ensures FreshAt(cfg, calls, h, u) <==> u < now + cfg.ttl
    {
      RewarmedWindow(cfg, h, m, capTtl, stored, now, u);
    }
    assert FreshAt(cfg, calls, h, now + cfg.ttl - 1);
  }

  lemma LateHonest(h: nat, m: Message, capTtl: CacheTtl.Time, stored: CacheTtl.Time, now: CacheTtl.Time)
    requires m.Ok()
    ensures Honest(LateRewarm(h, m, capTtl, stored, now))
  {
    var calls := LateRewarm(h, m, capTtl, stored, now);
    assert calls[..1] == [calls[0]] && Stores(calls[..1][0], h, EntryOf(m, Unix(stored)));
  }
}
