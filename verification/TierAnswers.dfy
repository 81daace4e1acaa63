/**
 What Lookup answers after a write, over both tiers and at every time: the entry while it is fresh,
 then the shared tier's, then the entry as a stale one, then nothing.
 */
module TierAnswers {
  import opened Common
  import opened Wire
  import opened RawServe
  import opened CacheTtl
  import opened L1Cache
  import opened L1Store
  import opened TwoTier

  /** No call came after `u`. */
  predicate CallsBy(calls: seq<Call>, u: CacheTtl.Time) {
    forall i :: 0 <= i < |calls| ==> calls[i].now <= u
  }

  lemma CallTimed(cfg: Settings, c: Store, call: Call, u: CacheTtl.Time)
    requires call.now <= u
    ensures TimedBy(OpsOf(cfg, c, call), u)
  {
  }

  lemma {:induction false} HistoryTimed(cfg: Settings, calls: seq<Call>, u: CacheTtl.Time)
    requires CallsBy(calls, u)
    ensures TimedBy(History(cfg, calls), u)
  {
    if calls != [] {
      var n := |calls| - 1;
      var before := History(cfg, calls[..n]);
      HistoryTimed(cfg, calls[..n], u);
      CallTimed(cfg, Run(cfg.lim, before), calls[n], u);
      JoinTimed(before, OpsOf(cfg, Run(cfg.lim, before), calls[n]), u);
    }
  }

  lemma JoinTimed(a: seq<Op>, b: seq<Op>, u: CacheTtl.Time)
    requires TimedBy(a, u) && TimedBy(b, u)
    ensures TimedBy(a + b, u)
  {
  }

  function After(cfg: Settings, calls: seq<Call>): Store { Run(cfg.lim, History(cfg, calls)) }

  /** The latest record of a key that the calls wrote to L1. */
  function OnRecord(cfg: Settings, calls: seq<Call>, k: Key): Option<Record> {
    Latest(cfg.lim, History(cfg, calls), k)
  }

  /** Without a cap L1 answers from the latest records of the two keys. */
  lemma ExactAnswers(cfg: Settings, calls: seq<Call>, h: nat, u: CacheTtl.Time)
    requires cfg.lim.cap == 0 && CallsBy(calls, u)
    ensures Answer(After(cfg, calls), PosKey(h), u) == Verdict(OnRecord(cfg, calls, PosKey(h)), u)
    ensures NegativeAnswer(cfg, After(cfg, calls), h, u) == Verdict(OnRecord(cfg, calls, NegKey(h)), u)
  {
    var ops, get := History(cfg, calls), GetOp(PosKey(h), u);
    HistoryTimed(cfg, calls, u);
    UncappedIsExact(cfg.lim, ops, PosKey(h), u);
    assert (ops + [get])[..|ops|] == ops;
    UncappedIsExact(cfg.lim, ops + [get], NegKey(h), u);
  }

  // ----- after a Set ---------------------------------------------------------------------

  lemma LatestAfter(lim: Limits, ops: seq<Op>, op: Op, k: Key)
    requires op.SetOp? && Accepted(op.raw, op.ttl)
    ensures Latest(lim, ops + [op], k)
         == if k == op.key then Some(RecordOf(op.raw, op.ttlOff, op.ttl, lim.stale, op.now)) else Latest(lim, ops, k)
  {
    assert (ops + [op])[..|ops|] == ops;
  }

  /** A call that makes one accepted write puts it on record, and leaves other keys' records. */
  lemma OneRecorded(cfg: Settings, calls: seq<Call>, call: Call, op: Op, k: Key)
    requires OpsOf(cfg, After(cfg, calls), call) == [op] && op.SetOp? && Accepted(op.raw, op.ttl)
    ensures OnRecord(cfg, calls + [call], k)
         == if k == op.key then Some(RecordOf(op.raw, op.ttlOff, op.ttl, cfg.lim.stale, op.now)) else OnRecord(cfg, calls, k)
  {
    HistoryThen(cfg, calls, call);
    LatestAfter(cfg.lim, History(cfg, calls), op, k);
  }

  lemma SetRecorded(cfg: Settings, calls: seq<Call>, h: nat, m: Message, capTtl: CacheTtl.Time, stored: CacheTtl.Time)
    requires m.Ok() && m.answers != [] && LivesAt(m.answers, capTtl, cfg.ttl, stored, stored)
    ensures var all := calls + [SetCall(h, m, capTtl, stored)];
            && OnRecord(cfg, all, PosKey(h)) == Some(SetRecord(m, Lifetime(m.answers, capTtl, cfg.ttl), cfg.lim.stale, stored))
            && OnRecord(cfg, all, NegKey(h)) == OnRecord(cfg, calls, NegKey(h))
  {
    LifetimeExact(m.answers, capTtl, cfg.ttl, stored, stored);
    var call, op := SetCall(h, m, capTtl, stored), SetWrite(h, m, capTtl, cfg.ttl, stored).value;
    OneRecorded(cfg, calls, call, op, PosKey(h));
    OneRecorded(cfg, calls, call, op, NegKey(h));
  }

  /** A Set keeps nothing exactly when the message has no answers or some answer's TTL is zero (or the
      message does not pack). */
  lemma SetSkippedIff(cfg: Settings, c: Store, h: nat, m: Message, capTtl: CacheTtl.Time, stored: CacheTtl.Time)
    ensures OpsOf(cfg, c, SetCall(h, m, capTtl, stored)) == []
       <==> !m.Ok() || m.answers == [] || exists i :: 0 <= i < |m.answers| && m.answers[i].ttl == 0
  {
    if m.Ok() && m.answers != [] {
      LifetimeExact(m.answers, capTtl, cfg.ttl, stored, stored);
    }
  }

  /** What Lookup falls back on when L1 has nothing fresh. */
  function Fallback(l2: L2Reply, stale: Result): Result {
    match l2
    case Found(Some(p), _) => if |p| > 8 then Positive(Hit(p[8..], StampedAt(p[..8]), FoundOffsets(p[8..])), false) else stale
    case Found(None, Some(n)) => Negative(n, false)
    case _ => stale
  }

  lemma SetVerdict(m: Message, life: CacheTtl.Time, stale: CacheTtl.Time, stored: CacheTtl.Time, u: CacheTtl.Time)
    requires m.Ok() && InEra(stored, u)
    ensures var a := Verdict(Some(SetRecord(m, life, stale, stored)), u);
            && (a.Fresh? <==> u < stored + life)
            && (a.Stale? <==> stored + life <= u < stored + life + stale)
            && (a.Fresh? ==> PositiveOf(a.raw, a.ttlOff, false) == Positive(HitOn(m, stored), false))
            && (a.Stale? ==> PositiveOf(a.raw, a.ttlOff, true) == Positive(HitOn(m, stored), true))
  {
    var a := Verdict(Some(SetRecord(m, life, stale, stored)), u);
    if !a.Miss? {
      HitOnSet(a, m, life, stale, stored, u);
    }
  }

  /** Lookup by what L1 has for the two keys. */
  lemma LookupIs(cfg: Settings, c: Store, h: nat, u: CacheTtl.Time, l2: L2Reply)
    ensures var pos, neg := Answer(c, PosKey(h), u), NegativeAnswer(cfg, c, h, u);
            LookupResult(cfg, c, h, u, l2)
            == if pos.Fresh? then PositiveOf(pos.raw, pos.ttlOff, false)
               else if neg.Fresh? then Negative(neg.raw, false)
               else Fallback(l2, if pos.Stale? then PositiveOf(pos.raw, pos.ttlOff, true)
                                 else if neg.Stale? then Negative(neg.raw, true)
                                 else Nothing)
  {
  }

  /** Whatever was cached before, without a cap on L1: after a Set, Lookup answers with the message as
      fresh exactly while all its answers and its cap live; from then on with what is on record as a
      fresh negative answer, or else with what the shared tier has; failing that with the message as
      stale, exactly to the end of the stale window; then with a stale negative answer; and then with
      nothing. */
  lemma LookupAfterSet(cfg: Settings, calls: seq<Call>, h: nat, m: Message, capTtl: CacheTtl.Time,
                       stored: CacheTtl.Time, u: CacheTtl.Time, l2: L2Reply)
    requires cfg.lim.cap == 0 && CallsBy(calls, u) && stored <= u && InEra(stored, u)
    requires m.Ok() && m.answers != [] && LivesAt(m.answers, capTtl, cfg.ttl, stored, stored)
    ensures var r := LookupResult(cfg, After(cfg, calls + [SetCall(h, m, capTtl, stored)]), h, u, l2);
            var neg := Verdict(OnRecord(cfg, calls, NegKey(h)), u);
            r == if LivesAt(m.answers, capTtl, cfg.ttl, stored, u) then Positive(HitOn(m, stored), false)
                 else if neg.Fresh? then Negative(neg.raw, false)
                 else Fallback(l2, if LivesAt(m.answers, capTtl, cfg.ttl, stored + cfg.lim.stale, u) then Positive(HitOn(m, stored), true)
                                   else if neg.Stale? then Negative(neg.raw, true)
                                   else Nothing)
  {
    var life := Lifetime(m.answers, capTtl, cfg.ttl);
    SetRecorded(cfg, calls, h, m, capTtl, stored);
    ExactAnswers(cfg, calls + [SetCall(h, m, capTtl, stored)], h, u);
    LifetimeExact(m.answers, capTtl, cfg.ttl, stored, u);
    LifetimeExact(m.answers, capTtl, cfg.ttl, stored + cfg.lim.stale, u);
    SetVerdict(m, life, cfg.lim.stale, stored, u);
    LookupIs(cfg, After(cfg, calls + [SetCall(h, m, capTtl, stored)]), h, u, l2);
  }

  // ----- after a SetNegative ---------------------------------------------------------------

  /** A negative answer is kept for the lifetime given, or the configured one when none is given. */
  function NegativeEnd(cfg: Settings, ttl: CacheTtl.Time, stored: CacheTtl.Time): CacheTtl.Time {
    stored + if ttl > 0 then ttl else cfg.negativeTtl
  }

  lemma NegativeRecorded(cfg: Settings, calls: seq<Call>, h: nat, raw: Octets, ttl: CacheTtl.Time, stored: CacheTtl.Time)
    requires raw != [] && NegativeEnd(cfg, ttl, stored) > stored
    ensures var all := calls + [SetNegativeCall(h, raw, ttl, stored)];
            && OnRecord(cfg, all, NegKey(h))
               == Some(RecordOf(raw, [], NegativeEnd(cfg, ttl, stored) - stored, cfg.lim.stale, stored))
            && OnRecord(cfg, all, PosKey(h)) == OnRecord(cfg, calls, PosKey(h))
  {
    var call := SetNegativeCall(h, raw, ttl, stored);
    var op := SetOp(NegKey(h), raw, [], NegativeEnd(cfg, ttl, stored) - stored, stored);
    assert OpsOf(cfg, After(cfg, calls), call) == [op];
    OneRecorded(cfg, calls, call, op, PosKey(h));
    OneRecorded(cfg, calls, call, op, NegKey(h));
  }

  /** Likewise after a SetNegative; a positive answer on record comes first. */
  lemma LookupAfterNegative(cfg: Settings, calls: seq<Call>, h: nat, raw: Octets, ttl: CacheTtl.Time,
                            stored: CacheTtl.Time, u: CacheTtl.Time, l2: L2Reply)
    requires cfg.lim.cap == 0 && CallsBy(calls, u) && stored <= u && raw != [] && NegativeEnd(cfg, ttl, stored) > stored
    ensures var r := LookupResult(cfg, After(cfg, calls + [SetNegativeCall(h, raw, ttl, stored)]), h, u, l2);
            var pos := Verdict(OnRecord(cfg, calls, PosKey(h)), u);
            r == if pos.Fresh? then PositiveOf(pos.raw, pos.ttlOff, false)
                 else if u < NegativeEnd(cfg, ttl, stored) then Negative(raw, false)
                 else Fallback(l2, if pos.Stale? then PositiveOf(pos.raw, pos.ttlOff, true)
                                   else if u < NegativeEnd(cfg, ttl, stored) + cfg.lim.stale then Negative(raw, true)
                                   else Nothing)
  {
    NegativeRecorded(cfg, calls, h, raw, ttl, stored);
    ExactAnswers(cfg, calls + [SetNegativeCall(h, raw, ttl, stored)], h, u);
    LookupIs(cfg, After(cfg, calls + [SetNegativeCall(h, raw, ttl, stored)]), h, u, l2);
  }

  // ----- after the shared tier answered ---------------------------------------------------------

  /** The L1 operations after a Lookup that finds nothing fresh in L1. */
  lemma HistoryRewarmed(cfg: Settings, calls: seq<Call>, h: nat, now: CacheTtl.Time, l2: L2Reply) returns (before: seq<Op>)
    requires cfg.lim.cap == 0 && CallsBy(calls, now)
    requires !Verdict(OnRecord(cfg, calls, PosKey(h)), now).Fresh? && !Verdict(OnRecord(cfg, calls, NegKey(h)), now).Fresh?
    ensures History(cfg, calls + [LookupCall(h, now, l2)]) == before + Warm(cfg, h, now, l2)
  {
    var gets, warm := [GetOp(PosKey(h), now), GetOp(NegKey(h), now)], Warm(cfg, h, now, l2);
    before := History(cfg, calls) + gets;
    ExactAnswers(cfg, calls, h, now);
    HistoryThen(cfg, calls, LookupCall(h, now, l2));
    assert LookupOps(cfg, After(cfg, calls), h, now, l2) == gets + warm;
    assert History(cfg, calls) + (gets + warm) == before + warm;
  }

  predicate HasEntry(l2: L2Reply) { l2.Found? && l2.pos.Some? && |l2.pos.value| > 8 }

  predicate HasNegative(l2: L2Reply) { l2.Found? && l2.pos.None? && l2.neg.Some? && l2.neg.value != [] }

  /** A Lookup that finds nothing fresh in L1 leaves there what the shared tier had: an entry for the
      configured lifetime, or a negative answer for the configured one, which also displaces any
      positive answer. */
  lemma Rewarmed(cfg: Settings, calls: seq<Call>, h: nat, now: CacheTtl.Time, l2: L2Reply)
    requires cfg.lim.cap == 0 && cfg.ttl > 0 && cfg.negativeTtl > 0 && CallsBy(calls, now)
    requires !Verdict(OnRecord(cfg, calls, PosKey(h)), now).Fresh? && !Verdict(OnRecord(cfg, calls, NegKey(h)), now).Fresh?
    ensures var all := calls + [LookupCall(h, now, l2)];
            && (HasEntry(l2) ==>
                  OnRecord(cfg, all, PosKey(h))
                  == Some(RecordOf(l2.pos.value, FoundOffsets(l2.pos.value[8..]), cfg.ttl, cfg.lim.stale, now)))
            && (HasNegative(l2) ==>
                  && OnRecord(cfg, all, PosKey(h)) == None
                  && OnRecord(cfg, all, NegKey(h)) == Some(RecordOf(l2.neg.value, [], cfg.negativeTtl, cfg.lim.stale, now)))
  {
    var before := HistoryRewarmed(cfg, calls, h, now, l2);
    if HasEntry(l2) {
      LatestAfter(cfg.lim, before, Warm(cfg, h, now, l2)[0], PosKey(h));
    } else if HasNegative(l2) {
      var del, put := DelOp(PosKey(h)), SetOp(NegKey(h), l2.neg.value, [], cfg.negativeTtl, now);
      assert before + [del, put] == (before + [del]) + [put];
      LatestAfter(cfg.lim, before + [del], put, NegKey(h));
      DeletedBefore(cfg.lim, before, del, put, PosKey(h));
    }
  }

  lemma DeletedBefore(lim: Limits, ops: seq<Op>, del: Op, put: Op, k: Key)
    requires del == DelOp(k) && put.SetOp? && put.key != k
    ensures Latest(lim, ops + [del, put], k) == None
  {
    var all := ops + [del, put];
    assert all[..|all| - 1] == ops + [del];
    assert (ops + [del])[..|ops|] == ops;
  }

  /** And a later Lookup answers it from L1 exactly as long. */
  lemma SharedThenLookup(cfg: Settings, calls: seq<Call>, h: nat, now: CacheTtl.Time, l2: L2Reply, u: CacheTtl.Time)
    requires cfg.lim.cap == 0 && cfg.ttl > 0 && cfg.negativeTtl > 0 && CallsBy(calls, now) && now <= u
    requires !Verdict(OnRecord(cfg, calls, PosKey(h)), now).Fresh? && !Verdict(OnRecord(cfg, calls, NegKey(h)), now).Fresh?
    ensures var r := LookupResult(cfg, After(cfg, calls + [LookupCall(h, now, l2)]), h, u, Down);
            && (HasEntry(l2) && u < now + cfg.ttl ==> r == Fallback(l2, Nothing))
            && (HasNegative(l2) ==>
                  r == if u < now + cfg.negativeTtl then Fallback(l2, Nothing)
                       else if u < now + cfg.negativeTtl + cfg.lim.stale then Negative(l2.neg.value, true) else Nothing)
  {
    Rewarmed(cfg, calls, h, now, l2);
    ExactAnswers(cfg, calls + [LookupCall(h, now, l2)], h, u);
  }
}
