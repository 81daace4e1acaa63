/**
 What the token bucket guarantees over whole runs: the admission bound in every time interval,
 blocks that hold for as long as they run, and auto-blocks that are always earned.
 */
module RateBound {
  import opened Common
  import opened Streaks
  import opened Eviction
  import opened RateLimit

  /** `states[i + 1]` follows `states[i]` by `events[i]`, for which Allow reported `oks[i]`. */
  datatype Trace = Trace(states: seq<Buckets>, events: seq<Event>, oks: seq<bool>)

  predicate Shaped(tr: Trace) {
    |tr.states| == |tr.events| + 1 && |tr.oks| == |tr.events|
  }

  predicate InOrder(tr: Trace) {
    forall i, j :: 0 <= i <= j < |tr.events| ==> tr.events[i].now <= tr.events[j].now
  }

  /** A run of the shard from its empty state, with a clock that never goes back. */
  ghost predicate IsRun(c: Config, tr: Trace) {
    && ConfigOk(c) && Shaped(tr) && InOrder(tr)
    && tr.states[0] == map[]
    && forall i: nat :: i < |tr.events| ==> StepAt(c, tr, i)
  }

  ghost predicate StepAt(c: Config, tr: Trace, i: nat)
    requires Shaped(tr) && i < |tr.events|
  {
    Step(c, tr.states[i], tr.events[i], tr.states[i + 1], tr.oks[i])
  }

  // ----- token bounds ------------------------------------------------------------------------

  predicate BucketOk(c: Config, b: Bucket, now: real) {
    0.0 <= b.tokens <= c.burst && b.lastSeen <= now
  }

  predicate StateOk(c: Config, s: Buckets, now: real) {
    forall k :: k in s ==> BucketOk(c, s[k], now)
  }

  lemma RefillNonneg(c: Config, d: real)
    requires ConfigOk(c) && d >= 0.0
    ensures Refill(c, d) >= 0.0
  {
  }

  lemma RefillAdds(c: Config, a: real, b: real, d: real)
    ensures Refill(c, d - a) == Refill(c, b - a) + Refill(c, d - b)
  {
  }

  lemma AskKeepsOk(c: Config, ob: Option<Bucket>, t: real, now: real)
    requires ConfigOk(c) && t <= now && (ob.Some? ==> BucketOk(c, ob.value, t))
    ensures BucketOk(c, AskBucket(c, ob, now).0, now)
  {
    if ob.Some? {
      RefillNonneg(c, now - ob.value.lastSeen);
    }
  }

  lemma StepKeepsOk(c: Config, s: Buckets, e: Event, s2: Buckets, ok: bool, t: real)
    requires ConfigOk(c) && Step(c, s, e, s2, ok) && t <= e.now && StateOk(c, s, t)
    ensures StateOk(c, s2, e.now)
  {
    forall k | k in s2
      ensures BucketOk(c, s2[k], e.now)
    {
      if k == e.client {
        if e.Ask? {
          AskKeepsOk(c, Get(s, k), t, e.now);
        }
      } else {
        StepFrame(c, s, e, s2, ok, k);
      }
    }
  }

  /** The time of the last event before state `n`, or of the first event of the run. */
  function TimeAt(tr: Trace, n: nat): real
    requires n <= |tr.events|
  {
    if n > 0 then tr.events[n - 1].now else if |tr.events| > 0 then tr.events[0].now else 0.0
  }

  /** In every reachable state tokens lie between 0 and burst. */
  lemma {:induction false} TokensInRange(c: Config, tr: Trace, n: nat)
    requires IsRun(c, tr) && n <= |tr.events|
    ensures StateOk(c, tr.states[n], TimeAt(tr, n))
  {
    if n > 0 {
      TokensInRange(c, tr, n - 1);
      assert StepAt(c, tr, n - 1);
      StepKeepsOk(c, tr.states[n - 1], tr.events[n - 1], tr.states[n], tr.oks[n - 1], TimeAt(tr, n - 1));
    }
  }

  // ----- the admission bound -------------------------------------------------------------------

  /** What client `k` could spend at once: an unknown client could spend a whole burst. */
  function Potential(c: Config, s: Buckets, k: string, now: real): real {
    if k in s then Credited(c, s[k], now) else c.burst
  }

  predicate Admits(e: Event, ok: bool, k: string) {
    e.Ask? && e.client == k && ok
  }

  /** The bucket of `k` is refilled at one stroke: a cooldown has run out, the client is
      unblocked, or its bucket is evicted. */
  predicate Refills(s: Buckets, e: Event, s2: Buckets, k: string) {
    && k in s
    && (|| (e == Ask(k, e.now) && CooledDown(s[k], e.now))
        || e == Free(k, e.now)
        || k !in s2)
  }

  function Bit(b: bool): real {
    if b then 1.0 else 0.0
  }

  function Bonus(c: Config, refilled: bool): real {
    if refilled then c.burst else 0.0
  }

  lemma CreditGrows(c: Config, b: Bucket, t: real, now: real)
    requires ConfigOk(c) && t <= now && BucketOk(c, b, t)
    ensures 0.0 <= Credited(c, b, t) <= Credited(c, b, now) <= c.burst
    ensures Credited(c, b, now) <= Credited(c, b, t) + Refill(c, now - t)
  {
    RefillAdds(c, b.lastSeen, t, now);
    RefillNonneg(c, now - t);
    RefillNonneg(c, t - b.lastSeen);
  }

  lemma JustSeen(c: Config, b: Bucket, now: real)
    requires b.lastSeen == now
    ensures Credited(c, b, now) == if b.tokens > c.burst then c.burst else b.tokens
  {
  }

  lemma AskSpends(c: Config, ob: Option<Bucket>, t: real, now: real)
    requires ConfigOk(c) && t <= now && (ob.Some? ==> BucketOk(c, ob.value, t))
    ensures var (b, ok) := AskBucket(c, ob, now);
            var before := if ob.Some? then Credited(c, ob.value, t) else c.burst;
            var refilled := ob.Some? && CooledDown(ob.value, now);
            Bit(ok) + Credited(c, b, now) <= before + Refill(c, now - t) + Bonus(c, refilled)
  {
    var b := AskBucket(c, ob, now).0;
    AskKeepsOk(c, ob, t, now);
    JustSeen(c, b, now);
    RefillNonneg(c, now - t);
    if ob.Some? {
      CreditGrows(c, ob.value, t, now);
      RefillNonneg(c, now - ob.value.lastSeen);
    }
  }

  /** One call raises admissions plus potential by no more than the time passed allows, or by
      one burst when the bucket is refilled. */
  lemma StepSpends(c: Config, s: Buckets, e: Event, s2: Buckets, ok: bool, k: string, t: real)
    requires ConfigOk(c) && Step(c, s, e, s2, ok) && t <= e.now && StateOk(c, s, t) && k != ""
    ensures Bit(Admits(e, ok, k)) + Potential(c, s2, k, e.now)
         <= Potential(c, s, k, t) + Refill(c, e.now - t) + Bonus(c, Refills(s, e, s2, k))
  {
    RefillNonneg(c, e.now - t);
    if k in s {
      CreditGrows(c, s[k], t, e.now);
    }
    if k != e.client {
      StepFrame(c, s, e, s2, ok, k);
    } else if e.Ask? {
      AskSpends(c, Get(s, k), t, e.now);
    } else {
      StepKeepsOk(c, s, e, s2, ok, t);
      if k in s2 {
        OtherSpends(c, s, e, s2, ok, t);
      }
    }
  }

  lemma OtherSpends(c: Config, s: Buckets, e: Event, s2: Buckets, ok: bool, t: real)
    requires ConfigOk(c) && Step(c, s, e, s2, ok) && t <= e.now && StateOk(c, s, t) && !e.Ask? && e.client != "" && e.client in s2
    ensures Potential(c, s2, e.client, e.now)
         <= Potential(c, s, e.client, t) + Refill(c, e.now - t) + Bonus(c, Refills(s, e, s2, e.client))
  {
    var k := e.client;
    RefillNonneg(c, e.now - t);
    if k in s {
      CreditGrows(c, s[k], t, e.now);
      RefillNonneg(c, t - s[k].lastSeen);
    }
    if s2 != s {
      JustSeen(c, s2[k], e.now);
    }
  }

  /** Queries of `k` admitted by the events from `i` up to `j`. */
  function Admitted(tr: Trace, k: string, i: nat, j: nat): real
    requires Shaped(tr) && i <= j <= |tr.events|
  {
    if i == j then 0.0 else Admitted(tr, k, i, j - 1) + Bit(Admits(tr.events[j - 1], tr.oks[j - 1], k))
  }

  /** Refills of `k` by the events from `i` up to `j`. */
  function RefillCount(tr: Trace, k: string, i: nat, j: nat): real
    requires Shaped(tr) && i <= j <= |tr.events|
  {
    if i == j then 0.0
    else RefillCount(tr, k, i, j - 1) + Bit(Refills(tr.states[j - 1], tr.events[j - 1], tr.states[j], k))
  }

  /** A burst for each of those refills. */
  function Bonuses(c: Config, tr: Trace, k: string, i: nat, j: nat): real
    requires Shaped(tr) && i <= j <= |tr.events|
  {
    if i == j then 0.0
    else Bonuses(c, tr, k, i, j - 1) + Bonus(c, Refills(tr.states[j - 1], tr.events[j - 1], tr.states[j], k))
  }

  lemma {:induction false} BonusesCount(c: Config, tr: Trace, k: string, i: nat, j: nat)
    requires Shaped(tr) && i <= j <= |tr.events|
    ensures Bonuses(c, tr, k, i, j) == c.burst * RefillCount(tr, k, i, j)
  {
    if i < j {
      BonusesCount(c, tr, k, i, j - 1);
      var refilled := Refills(tr.states[j - 1], tr.events[j - 1], tr.states[j], k);
      Distribute(c.burst, RefillCount(tr, k, i, j - 1), Bit(refilled));
    }
  }

  lemma Distribute(x: real, a: real, b: real)
    ensures x * (a + b) == x * a + x * b
  {
  }

  lemma {:induction false} Spending(c: Config, tr: Trace, k: string, i: nat, j: nat)
    requires IsRun(c, tr) && k != "" && i < j <= |tr.events|
    ensures Admitted(tr, k, i, j) + Potential(c, tr.states[j], k, tr.events[j - 1].now)
         <= c.burst + Refill(c, tr.events[j - 1].now - tr.events[i].now) + Bonuses(c, tr, k, i, j)
  {
    if j == i + 1 {
      OneSpends(c, tr, k, i);
    } else {
      Spending(c, tr, k, i, j - 1);
      NextSpends(c, tr, k, i, j);
      var t0, t1, t2 := tr.events[i].now, tr.events[j - 2].now, tr.events[j - 1].now;
      RefillAdds(c, t0, t1, t2);
      var p1, p2 := Potential(c, tr.states[j - 1], k, t1), Potential(c, tr.states[j], k, t2);
      Chain(c.burst, Admitted(tr, k, i, j - 1) + p1, Refill(c, t1 - t0), Bonuses(c, tr, k, i, j - 1),
            Admitted(tr, k, i, j) + p2, Refill(c, t2 - t1), Bonuses(c, tr, k, i, j));
    }
  }

  lemma Chain(burst: real, spent1: real, refill1: real, bonus1: real, spent2: real, refill2: real, bonus2: real)
    requires spent1 <= burst + refill1 + bonus1 && spent2 + bonus1 <= spent1 + refill2 + bonus2
    ensures spent2 <= burst + (refill1 + refill2) + bonus2
  {
  }

  lemma NextSpends(c: Config, tr: Trace, k: string, i: nat, j: nat)
    requires IsRun(c, tr) && k != "" && i + 1 < j <= |tr.events|
    ensures Admitted(tr, k, i, j) + Potential(c, tr.states[j], k, tr.events[j - 1].now) + Bonuses(c, tr, k, i, j - 1)
         <= Admitted(tr, k, i, j - 1) + Potential(c, tr.states[j - 1], k, tr.events[j - 2].now)
            + Refill(c, tr.events[j - 1].now - tr.events[j - 2].now) + Bonuses(c, tr, k, i, j)
  {
    TokensInRange(c, tr, j - 1);
    assert StepAt(c, tr, j - 1);
    StepSpends(c, tr.states[j - 1], tr.events[j - 1], tr.states[j], tr.oks[j - 1], k, tr.events[j - 2].now);
  }

  lemma OneSpends(c: Config, tr: Trace, k: string, i: nat)
    requires IsRun(c, tr) && k != "" && i < |tr.events|
    ensures Admitted(tr, k, i, i + 1) + Potential(c, tr.states[i + 1], k, tr.events[i].now)
         <= c.burst + Refill(c, tr.events[i].now - tr.events[i].now) + Bonuses(c, tr, k, i, i + 1)
  {
    var e := tr.events[i];
    TokensInRange(c, tr, i);
    assert StepAt(c, tr, i);
    assert TimeAt(tr, i) <= e.now;
    assert StateOk(c, tr.states[i], e.now);
    StepSpends(c, tr.states[i], e, tr.states[i + 1], tr.oks[i], k, e.now);
    PotentialBounded(c, tr.states[i], k, e.now);
    assert Admitted(tr, k, i, i) == 0.0 && Bonuses(c, tr, k, i, i) == 0.0;
  }

  lemma PotentialBounded(c: Config, s: Buckets, k: string, now: real)
    requires ConfigOk(c) && StateOk(c, s, now)
    ensures 0.0 <= Potential(c, s, k, now) <= c.burst
  {
    if k in s {
      CreditGrows(c, s[k], now, now);
    }
  }

  /** In every interval of every run, a client is admitted at most burst + qps * T times, plus a
      burst for every clean slate, Unblock and eviction of its bucket in the interval. */
  lemma AdmissionBound(c: Config, tr: Trace, k: string, i: nat, j: nat)
    requires IsRun(c, tr) && k != "" && i < j <= |tr.events|
    ensures Admitted(tr, k, i, j)
         <= c.burst + Refill(c, tr.events[j - 1].now - tr.events[i].now) + c.burst * RefillCount(tr, k, i, j)
  {
    Spending(c, tr, k, i, j);
    TokensInRange(c, tr, j);
    PotentialBounded(c, tr.states[j], k, tr.events[j - 1].now);
    BonusesCount(c, tr, k, i, j);
  }

  // ----- blocks --------------------------------------------------------------------------------

  /** Nothing lifts or replaces the block of `k`: no Unblock, ForceBlock or eviction. */
  predicate LeftAlone(tr: Trace, k: string, i: nat, j: nat)
    requires Shaped(tr) && i <= j <= |tr.events|
  {
    forall n: nat :: i <= n < j ==> (tr.events[n].client == k ==> tr.events[n].Ask?) && k in tr.states[n + 1]
  }

  /** While a block runs, every Allow is refused. */
  lemma {:induction false} BlockHolds(c: Config, tr: Trace, k: string, i: nat, j: nat)
    requires IsRun(c, tr) && k != "" && i <= j < |tr.events|
    requires k in tr.states[i] && Blocked(tr.states[i][k], tr.events[j].now) && LeftAlone(tr, k, i, j)
    ensures k in tr.states[j] && tr.states[j][k].blockedUntil == tr.states[i][k].blockedUntil
    ensures tr.events[j] == Ask(k, tr.events[j].now) ==> !tr.oks[j]
    decreases j - i
  {
    if i < j {
      BlockStepHolds(c, tr, k, i, tr.events[j].now);
      assert LeftAlone(tr, k, i + 1, j);
      BlockHolds(c, tr, k, i + 1, j);
    } else {
      assert StepAt(c, tr, j);
    }
  }

  lemma BlockStepHolds(c: Config, tr: Trace, k: string, i: nat, now: real)
    requires IsRun(c, tr) && k != "" && i < |tr.events| && tr.events[i].now <= now
    requires k in tr.states[i] && Blocked(tr.states[i][k], now)
    requires (tr.events[i].client == k ==> tr.events[i].Ask?) && k in tr.states[i + 1]
    ensures tr.states[i + 1][k].blockedUntil == tr.states[i][k].blockedUntil
  {
    var e := tr.events[i];
    assert StepAt(c, tr, i);
    if e.client != k {
      StepFrame(c, tr.states[i], e, tr.states[i + 1], tr.oks[i], k);
    } else {
      assert tr.states[i + 1] == tr.states[i][k := AskBucket(c, Some(tr.states[i][k]), e.now).0];
    }
  }

  /** Refusals of `k` for want of tokens: the violations of its history. */
  predicate OverLimit(s: Buckets, e: Event, ok: bool, k: string) {
    e == Ask(k, e.now) && !ok && !(k in s && Blocked(s[k], e.now))
  }

  function Violations(tr: Trace, k: string, n: nat): seq<real>
    requires Shaped(tr) && n <= |tr.events|
  {
    if n == 0 then []
    else
      Violations(tr, k, n - 1)
      + if OverLimit(tr.states[n - 1], tr.events[n - 1], tr.oks[n - 1], k) then [tr.events[n - 1].now] else []
  }

  predicate ViolsBacked(s: Buckets, k: string, h: seq<real>, now: real) {
    k in s && s[k].viols.Some? ==> Backed(h, s[k].viols.value) && s[k].viols.value.first <= now
  }

  lemma ViolateBacked(c: Config, viols: Option<Streak>, h: seq<real>, now: real)
    requires ConfigOk(c) && c.autoBlock && Upto(h, now)
    requires viols.Some? ==> Backed(h, viols.value) && viols.value.first <= now
    ensures var s := Violated(c, viols, now);
            Backed(h + [now], s) && s.first <= now <= s.first + c.blockFor
  {
    if viols.Some? {
      TickBacked(c.blockFor, h, viols.value, now);
    }
  }

  lemma StepViols(c: Config, s: Buckets, e: Event, s2: Buckets, ok: bool, k: string, h: seq<real>)
    requires ConfigOk(c) && Step(c, s, e, s2, ok) && Upto(h, e.now) && ViolsBacked(s, k, h, e.now) && k != ""
    ensures ViolsBacked(s2, k, if OverLimit(s, e, ok, k) then h + [e.now] else h, e.now)
  {
    if k != e.client {
      StepFrame(c, s, e, s2, ok, k);
    } else if e.Ask? && OverLimit(s, e, ok, k) && c.autoBlock {
      var b := s[k];
      var viols := if b.blockedUntil.Some? then None else b.viols;
      ViolateBacked(c, viols, h, e.now);
    }
  }

  lemma {:induction false} RunViols(c: Config, tr: Trace, k: string, n: nat, now: real)
    requires IsRun(c, tr) && k != "" && n <= |tr.events| && (n < |tr.events| ==> now == tr.events[n].now)
    requires n > 0 ==> tr.events[n - 1].now <= now
    ensures Upto(Violations(tr, k, n), now) && ViolsBacked(tr.states[n], k, Violations(tr, k, n), now)
  {
    if n > 0 {
      var e := tr.events[n - 1];
      RunViols(c, tr, k, n - 1, e.now);
      assert StepAt(c, tr, n - 1);
      StepViols(c, tr.states[n - 1], e, tr.states[n], tr.oks[n - 1], k, Violations(tr, k, n - 1));
    }
  }

  /** A query of `k` that starts an auto-block. */
  predicate Trips(s: Buckets, e: Event, s2: Buckets, ok: bool, k: string) {
    OverLimit(s, e, ok, k) && k in s && k in s2 && s2[k].blocks > s[k].blocks
  }

  /** An auto-block is earned: the last `blockAfter` refusals for want of tokens, this one
      included, fit in one `blockFor`. */
  lemma AutoBlockEarned(c: Config, tr: Trace, k: string, n: nat)
    requires IsRun(c, tr) && k != "" && n < |tr.events|
    requires Trips(tr.states[n], tr.events[n], tr.states[n + 1], tr.oks[n], k)
    ensures c.autoBlock && LastFit(Violations(tr, k, n + 1), c.blockAfter, c.blockFor)
    ensures tr.states[n + 1][k].blockedUntil == Some(tr.events[n].now + c.blockFor)
  {
    var e, b := tr.events[n], tr.states[n][k];
    RunViols(c, tr, k, n, e.now);
    assert StepAt(c, tr, n);
    var viols := if b.blockedUntil.Some? then None else b.viols;
    var h := Violations(tr, k, n);
    ViolateBacked(c, viols, h, e.now);
    BackedFits(c.blockFor, h + [e.now], Violated(c, viols, e.now), e.now, c.blockAfter);
  }

  // ----- auto-blocks come --------------------------------------------------------------------------

  /** The violations of `k` from event `i` up to `j`. */
  function ViolationsFrom(tr: Trace, k: string, i: nat, j: nat): seq<real>
    requires Shaped(tr) && i <= j <= |tr.events|
  {
    if i == j then []
    else
      ViolationsFrom(tr, k, i, j - 1)
      + if OverLimit(tr.states[j - 1], tr.events[j - 1], tr.oks[j - 1], k) then [tr.events[j - 1].now] else []
  }

  predicate TripsAt(tr: Trace, k: string, n: nat)
    requires Shaped(tr) && n < |tr.events|
  {
    Trips(tr.states[n], tr.events[n], tr.states[n + 1], tr.oks[n], k)
  }

  predicate NoTrip(tr: Trace, k: string, i: nat, j: nat)
    requires Shaped(tr) && i <= j <= |tr.events|
  {
    forall n: nat :: i <= n < j ==> !TripsAt(tr, k, n)
  }

  /** The violation count as a streak, an empty one when nothing is counted. */
  function StreakOf(viols: Option<Streak>, t: real): Streak {
    match viols case None => Streak(0, t) case Some(s) => s
  }

  /** The count after the violations `vs`, none of which reached the threshold. */
  ghost predicate Counting(c: Config, viols0: Option<Streak>, b: Bucket, vs: seq<real>) {
    && b.blockedUntil.None?
    && if vs == [] then b.viols == viols0
       else
         && b.viols == Some(Ticks(c.blockFor, StreakOf(viols0, vs[0]), vs))
         && forall m: nat :: 1 <= m <= |vs| ==> !Reaches(c.blockFor, StreakOf(viols0, vs[0]), vs, c.blockAfter, m)
  }

  lemma CountsOne(c: Config, viols0: Option<Streak>, b: Bucket, vs: seq<real>, now: real)
    requires ConfigOk(c) && c.autoBlock && Counting(c, viols0, b, vs) && Violated(c, b.viols, now).count < c.blockAfter
    ensures Counting(c, viols0, b.(viols := Some(Violated(c, b.viols, now))), vs + [now])
  {
    var all := vs + [now];
    var s := StreakOf(viols0, all[0]);
    assert all[..|vs|] == vs && all[..|all|] == all;
    assert Ticks(c.blockFor, s, []) == s;
    assert Ticks(c.blockFor, s, all) == Violated(c, b.viols, now);
    forall m: nat | 1 <= m <= |all|
      ensures !Reaches(c.blockFor, s, all, c.blockAfter, m)
    {
      if m <= |vs| {
        ReachesEarlier(c.blockFor, s, all, c.blockAfter, m, |vs|);
        assert !Reaches(c.blockFor, s, vs, c.blockAfter, m);
      }
    }
  }

  lemma CountsStep(c: Config, tr: Trace, k: string, n: nat, viols0: Option<Streak>, vs: seq<real>)
    requires IsRun(c, tr) && c.autoBlock && k != "" && n < |tr.events| && !TripsAt(tr, k, n)
    requires (tr.events[n].client == k ==> tr.events[n].Ask?) && k in tr.states[n] && k in tr.states[n + 1]
    requires Counting(c, viols0, tr.states[n][k], vs)
    ensures Counting(c, viols0, tr.states[n + 1][k],
                     vs + if OverLimit(tr.states[n], tr.events[n], tr.oks[n], k) then [tr.events[n].now] else [])
  {
    var e, b := tr.events[n], tr.states[n][k];
    assert StepAt(c, tr, n);
    assert vs + [] == vs;
    if e.client != k {
      StepFrame(c, tr.states[n], e, tr.states[n + 1], tr.oks[n], k);
    } else {
      assert tr.states[n + 1][k] == AskBucket(c, Some(b), e.now).0;
      if OverLimit(tr.states[n], e, tr.oks[n], k) {
        CountsOne(c, viols0, b, vs, e.now);
      }
    }
  }

  lemma LeftAloneAt(tr: Trace, k: string, i: nat, j: nat, n: nat)
    requires Shaped(tr) && i <= n < j <= |tr.events| && LeftAlone(tr, k, i, j)
    ensures (tr.events[n].client == k ==> tr.events[n].Ask?) && k in tr.states[n + 1] && LeftAlone(tr, k, i, n)
  {
  }

  lemma {:induction false} CountsUntil(c: Config, tr: Trace, k: string, i: nat, j: nat)
    requires IsRun(c, tr) && c.autoBlock && k != "" && i <= j <= |tr.events| && NoTrip(tr, k, i, j) && LeftAlone(tr, k, i, j)
    requires k in tr.states[i] && tr.states[i][k].blockedUntil.None?
    ensures k in tr.states[j] && Counting(c, tr.states[i][k].viols, tr.states[j][k], ViolationsFrom(tr, k, i, j))
  {
    if i < j {
      assert !TripsAt(tr, k, j - 1);
      LeftAloneAt(tr, k, i, j, j - 1);
      CountsUntil(c, tr, k, i, j - 1);
      CountsStep(c, tr, k, j - 1, tr.states[i][k].viols, ViolationsFrom(tr, k, i, j - 1));
    }
  }

  lemma {:induction false} ViolationsInOrder(tr: Trace, k: string, i: nat, j: nat)
    requires Shaped(tr) && InOrder(tr) && i <= j <= |tr.events|
    ensures Sorted(ViolationsFrom(tr, k, i, j)) && (i < j ==> Upto(ViolationsFrom(tr, k, i, j), tr.events[j - 1].now))
  {
    if i < j {
      ViolationsInOrder(tr, k, i, j - 1);
    }
  }

  /** An auto-block comes: of 2 * blockAfter - 1 refusals for want of tokens inside one blockFor,
      of a client left alone and not blocked before, some refusal starts one. */
  lemma AutoBlockComes(c: Config, tr: Trace, k: string, i: nat, j: nat)
    requires IsRun(c, tr) && c.autoBlock && k != "" && i <= j <= |tr.events| && LeftAlone(tr, k, i, j)
    requires k in tr.states[i] && tr.states[i][k].blockedUntil.None?
    requires var vs := ViolationsFrom(tr, k, i, j);
             |vs| == 2 * c.blockAfter - 1 && vs[|vs| - 1] - vs[0] <= c.blockFor
    ensures exists n: nat :: i <= n < j && TripsAt(tr, k, n)
  {
    if NoTrip(tr, k, i, j) {
      CountsUntil(c, tr, k, i, j);
      ViolationsInOrder(tr, k, i, j);
      var vs := ViolationsFrom(tr, k, i, j);
      var m := FloodCounts(c.blockFor, StreakOf(tr.states[i][k].viols, vs[0]), vs, c.blockAfter);
    }
  }

  // ----- the bound is reached --------------------------------------------------------------------

  /** A client that has its whole burst: new, with a full bucket, unblocked, or past its block. */
  predicate HasBurst(c: Config, ob: Option<Bucket>, now: real) {
    match ob
    case None => true
    case Some(b) => b.lastSeen <= now && (CooledDown(b, now) || (b.blockedUntil.None? && b.tokens == c.burst))
  }

  /** Its bucket after `n` queries at one instant. */
  function AfterBurst(c: Config, start: Option<Bucket>, now: real, n: nat): Option<Bucket> {
    if n == 0 then start else Some(AskBucket(c, AfterBurst(c, start, now, n - 1), now).0)
  }

  /** Of queries sent at one instant such a client is admitted exactly the first burst. */
  lemma {:induction false} BurstAdmitted(c: Config, start: Option<Bucket>, now: real, n: nat)
    requires ConfigOk(c) && HasBurst(c, start, now) && n as real <= c.burst
    ensures AskBucket(c, AfterBurst(c, start, now, n), now).1 <==> (n + 1) as real <= c.burst
    ensures n > 0 ==>
              var b := AfterBurst(c, start, now, n).value;
              b.tokens == c.burst - n as real && b.lastSeen == now && b.blockedUntil.None?
  {
    if n > 0 {
      BurstAdmitted(c, start, now, n - 1);
      SpendsOne(c, AfterBurst(c, start, now, n - 1), now);
      SpendsOne(c, AfterBurst(c, start, now, n), now);
    } else {
      SpendsOne(c, start, now);
    }
  }

  lemma SpendsOne(c: Config, ob: Option<Bucket>, now: real)
    requires ConfigOk(c)
    requires HasBurst(c, ob, now) || (ob.Some? && ob.value.lastSeen == now && ob.value.blockedUntil.None? && 0.0 <= ob.value.tokens <= c.burst)
    ensures var had := if HasBurst(c, ob, now) then c.burst else ob.value.tokens;
            var (b, ok) := AskBucket(c, ob, now);
            && (ok <==> had >= 1.0)
            && (ok ==> b.tokens == had - 1.0 && b.lastSeen == now && b.blockedUntil.None?)
  {
    if ob.Some? {
      RefillNonneg(c, now - ob.value.lastSeen);
    }
  }

  /** An Unblock gives the whole burst back. */
  lemma FreeHasBurst(c: Config, b: Bucket, now: real)
    ensures HasBurst(c, Some(FreeBucket(c, b, now)), now)
  {
  }

  /** The bucket of a new client after queries at the given times. */
  function AfterAsks(c: Config, ts: seq<real>): Option<Bucket> {
    if ts == [] then None else Some(AskBucket(c, AfterAsks(c, ts[..|ts| - 1]), ts[|ts| - 1]).0)
  }

  /** Each query comes when at least one more token is due. */
  predicate Paced(c: Config, ts: seq<real>) {
    forall i :: 0 < i < |ts| ==> PacedAt(c, ts[i - 1], ts[i])
  }

  predicate PacedAt(c: Config, t: real, now: real) {
    Refill(c, now - t) >= 1.0
  }

  /** The sustained rate: a client that keeps to qps is never refused, however long it goes on. */
  lemma {:induction false} SustainedAdmitted(c: Config, ts: seq<real>)
    requires ConfigOk(c) && Paced(c, ts) && ts != []
    ensures AskBucket(c, AfterAsks(c, ts[..|ts| - 1]), ts[|ts| - 1]).1
    ensures var b := AfterAsks(c, ts).value;
            b.tokens == c.burst - 1.0 && b.lastSeen == ts[|ts| - 1] && b.blockedUntil.None?
  {
    var n := |ts| - 1;
    var front := ts[..n];
    if n > 0 {
      assert forall i :: 0 <= i < n ==> front[i] == ts[i];
      SustainedAdmitted(c, front);
      assert PacedAt(c, ts[n - 1], ts[n]);
    } else {
      assert AfterAsks(c, front) == None;
    }
  }

  /** How many of the queries are admitted. */
  function AdmittedOf(c: Config, ts: seq<real>): nat {
    if ts == [] then 0
    else
      var n := |ts| - 1;
      AdmittedOf(c, ts[..n]) + if AskBucket(c, AfterAsks(c, ts[..n]), ts[n]).1 then 1 else 0
  }

  /** Each query comes before more than one token is due, or all but one of the burst. */
  predicate Dense(c: Config, ts: seq<real>) {
    forall i :: 0 < i < |ts| ==> DenseAt(c, ts[i - 1], ts[i])
  }

  predicate DenseAt(c: Config, t: real, now: real) {
    0.0 <= Refill(c, now - t) <= 1.0 && Refill(c, now - t) <= c.burst - 1.0
  }

  predicate HasRoom(c: Config, b: Bucket) {
    0.0 <= b.tokens && (b.tokens < 1.0 || b.tokens <= c.burst - 1.0)
  }

  lemma DenseStep(c: Config, b: Bucket, now: real)
    requires ConfigOk(c) && !c.autoBlock && b.blockedUntil.None? && HasRoom(c, b) && DenseAt(c, b.lastSeen, now)
    ensures var (b2, ok) := AskBucket(c, Some(b), now);
            && b2.tokens + (if ok then 1.0 else 0.0) == b.tokens + Refill(c, now - b.lastSeen)
            && HasRoom(c, b2) && b2.lastSeen == now && b2.blockedUntil.None?
            && (!ok ==> b2.tokens < 1.0)
  {
  }

  /** The other half of the bound: a refusal costs nothing.  Without auto-block, a client that never
      lets its bucket fill up is admitted exactly burst + qps * T times less the tokens it has left,
      which are less than one whenever it has just been refused. */
  lemma {:induction false} NothingLost(c: Config, ts: seq<real>)
    requires ConfigOk(c) && !c.autoBlock && Dense(c, ts) && ts != []
    ensures var b := AfterAsks(c, ts).value;
            && AdmittedOf(c, ts) as real + b.tokens == c.burst + Refill(c, ts[|ts| - 1] - ts[0])
            && HasRoom(c, b) && b.lastSeen == ts[|ts| - 1] && b.blockedUntil.None?
            && (!AskBucket(c, AfterAsks(c, ts[..|ts| - 1]), ts[|ts| - 1]).1 ==> b.tokens < 1.0)
  {
    var n := |ts| - 1;
    var front := ts[..n];
    if n > 0 {
      assert forall i :: 0 <= i < n ==> front[i] == ts[i];
      NothingLost(c, front);
      assert DenseAt(c, ts[n - 1], ts[n]);
      DenseStep(c, AfterAsks(c, front).value, ts[n]);
      RefillAdds(c, ts[0], ts[n - 1], ts[n]);
    } else {
      assert front == [] && AfterAsks(c, front) == None && AdmittedOf(c, front) == 0;
      assert ts[n] - ts[0] == 0.0;
    }
  }

  /** Once its block has run out a client is admitted again. */
  lemma BlockEnds(c: Config, b: Bucket, t: real, now: real)
    requires ConfigOk(c) && BucketOk(c, b, t) && t <= now && b.blockedUntil.Some?
    ensures AskBucket(c, Some(b), now).1 <==> b.blockedUntil.value <= now
  {
    RefillNonneg(c, now - b.lastSeen);
  }

  // ----- ForceBlock and Unblock --------------------------------------------------------------------

  /** No event from `i` up to `j` is of client `k`. */
  predicate Silent(tr: Trace, k: string, i: nat, j: nat)
    requires Shaped(tr) && i <= j <= |tr.events|
  {
    forall n: nat :: i <= n < j ==> tr.events[n].client != k
  }

  /** While a client sends nothing its bucket stays as it is, or goes. */
  lemma {:induction false} BucketStays(c: Config, tr: Trace, k: string, i: nat, j: nat)
    requires IsRun(c, tr) && i <= j <= |tr.events| && Silent(tr, k, i, j)
    ensures k in tr.states[j] ==> k in tr.states[i] && tr.states[j][k] == tr.states[i][k]
    decreases j - i
  {
    if i < j {
      BucketStays(c, tr, k, i, j - 1);
      assert StepAt(c, tr, j - 1);
      StepFrame(c, tr.states[j - 1], tr.events[j - 1], tr.states[j], tr.oks[j - 1], k);
    }
  }

  /** After an Unblock the client's next query is admitted, whatever it had coming. */
  lemma UnblockAdmits(c: Config, tr: Trace, k: string, i: nat, j: nat)
    requires IsRun(c, tr) && k != "" && i < j < |tr.events| && Silent(tr, k, i + 1, j)
    requires tr.events[i] == Free(k, tr.events[i].now) && tr.events[j] == Ask(k, tr.events[j].now)
    ensures tr.oks[j]
  {
    BucketStays(c, tr, k, i + 1, j);
    assert StepAt(c, tr, i) && StepAt(c, tr, j);
    if k in tr.states[j] {
      RefillNonneg(c, tr.events[j].now - tr.states[j][k].lastSeen);
    }
  }

  /** A forced block, of a client known or not, holds for its whole time and no longer: the client's
      first query at its end or after is admitted, and until then all are refused. */
  lemma ForceHolds(c: Config, tr: Trace, k: string, i: nat, j: nat, d: real)
    requires IsRun(c, tr) && k != "" && d > 0.0 && i < j < |tr.events| && LeftAlone(tr, k, i + 1, j)
    requires tr.events[i] == Force(k, tr.events[i].now, d) && tr.events[j] == Ask(k, tr.events[j].now)
    requires forall n: nat :: i < n < j && tr.events[n].client == k ==> tr.events[n].now < tr.events[i].now + d
    ensures tr.oks[j] <==> tr.events[j].now >= tr.events[i].now + d
  {
    var end := tr.events[i].now + d;
    assert StepAt(c, tr, i);
    assert tr.states[i + 1][k].blockedUntil == Some(end);
    ForcedStays(c, tr, k, i + 1, j, end);
    TokensInRange(c, tr, j);
    assert StepAt(c, tr, j);
    BlockEnds(c, tr.states[j][k], TimeAt(tr, j), tr.events[j].now);
  }

  /** A block stays while the client's queries come before its end. */
  lemma {:induction false} ForcedStays(c: Config, tr: Trace, k: string, i: nat, j: nat, end: real)
    requires IsRun(c, tr) && k != "" && i <= j <= |tr.events| && LeftAlone(tr, k, i, j)
    requires k in tr.states[i] && tr.states[i][k].blockedUntil == Some(end)
    requires forall n: nat :: i <= n < j && tr.events[n].client == k ==> tr.events[n].now < end
    ensures k in tr.states[j] && tr.states[j][k].blockedUntil == Some(end)
    decreases j - i
  {
    if i < j {
      LeftAloneAt(tr, k, i, j, j - 1);
      ForcedStays(c, tr, k, i, j - 1, end);
      var e := tr.events[j - 1];
      assert StepAt(c, tr, j - 1);
      if e.client != k {
        StepFrame(c, tr.states[j - 1], e, tr.states[j], tr.oks[j - 1], k);
      }
    }
  }

  /** A ForceBlock for no time at all does nothing. */
  lemma EmptyForce(c: Config, s: Buckets, k: string, now: real, d: real, s2: Buckets)
    requires d <= 0.0 && Step(c, s, Force(k, now, d), s2, false)
    ensures s2 == s
  {
  }
}
