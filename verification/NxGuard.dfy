/**
 The NXDOMAIN flood guard of internal/dnsserver/nxguard.go, one shard of it.
 */
module NxGuard {
  import opened Common
  import opened Streaks
  import opened Eviction

  datatype Config = Config(threshold: int, window: real, blockFor: real)

  predicate ConfigOk(c: Config) {
    c.threshold >= 1 && c.window > 0.0 && c.blockFor > 0.0
  }

  /** NewNXGuard's clamping. */
  function NewConfig(threshold: int, window: real, blockFor: real): (c: Config)
    ensures ConfigOk(c)
    ensures c.threshold == (if threshold >= 1 then threshold else 1) && c.window == (if window > 0.0 then window else 30.0)
    ensures c.blockFor == if blockFor > 0.0 then blockFor else 60.0
  {
    Config(
      if threshold < 1 then 1 else threshold,
      if window <= 0.0 then 30.0 else window,
      if blockFor <= 0.0 then 60.0 else blockFor)
  }

  /** `streak` is the count with the time it counts from. */
  datatype Entry = Entry(streak: Streak, blockedUntil: Option<real>)

  type Entries = map<string, Entry>

  function Get(s: Entries, p: string): Option<Entry> {
    if p in s then Some(s[p]) else None
  }

  function Seen(s: Entries): map<string, real> {
    map p | p in s :: s[p].streak.first
  }

  /** Allow. */
  predicate Allowed(oe: Option<Entry>, now: real) {
    oe.None? || oe.value.blockedUntil.None? || now > oe.value.blockedUntil.value
  }

  /** The count of NoteNX, before the threshold is looked at. */
  function Counted(c: Config, oe: Option<Entry>, now: real): Entry {
    match oe
    case None => Entry(Streak(1, now), None)
    case Some(e) => Entry(Tick(c.window, e.streak, now), if now - e.streak.first > c.window then None else e.blockedUntil)
  }

  /** NoteNX, on the prefix's entry. */
  function Noted(c: Config, oe: Option<Entry>, now: real): Entry {
    var e := Counted(c, oe, now);
    if e.streak.count >= c.threshold && e.blockedUntil.None? then Tripped(c, now) else e
  }

  function Tripped(c: Config, now: real): Entry {
    Entry(Streak(0, now), Some(now + c.blockFor))
  }

  class Shard {
    const config: Config
    var entries: Entries

    ghost predicate Valid()
      reads this
    {
      ConfigOk(config) && |entries| <= CAP
    }

    constructor (threshold: int, window: real, blockFor: real)
      ensures Valid() && config == NewConfig(threshold, window, blockFor) && entries == map[]
    {
      config := NewConfig(threshold, window, blockFor);
      entries := map[];
    }

    method Allow(prefix: string, now: real) returns (ok: bool)
      requires Valid()
      ensures ok <==> prefix == "" || Allowed(Get(entries, prefix), now)
    {
      if prefix == "" {
        return true;
      }
      if prefix !in entries || entries[prefix].blockedUntil.None? {
        return true;
      }
      return now > entries[prefix].blockedUntil.value;
    }

    method NoteNX(prefix: string, now: real)
      requires Valid()
      modifies this
      ensures Valid()
      ensures Step(config, old(entries), Note(prefix, now), entries)
    {
      if prefix == "" {
        return;
      }
      var e := Entry(Streak(1, now), None);
      if prefix in entries {
        e := entries[prefix];
        if now - e.streak.first > config.window {
          e := Entry(Streak(0, now), None);
        }
        e := e.(streak := Streak(e.streak.count + 1, e.streak.first));
      }
      if e.streak.count >= config.threshold && e.blockedUntil.None? {
        e := Entry(Streak(0, now), Some(now + config.blockFor));
      }
      if prefix in entries {
        entries := entries[prefix := e];
      } else {
        entries := Insert(entries, Seen(entries), prefix, e, now);
      }
    }
  }

  // ----- runs ----------------------------------------------------------------------------------

  datatype Event = Query(prefix: string, now: real) | Note(prefix: string, now: real)

  ghost predicate Step(c: Config, s: Entries, e: Event, s2: Entries) {
    match e
    case Query(_, _) => s2 == s
    case Note(p, now) => if p == "" then s2 == s else Put(s, Seen(s), p, Noted(c, Get(s, p), now), now, s2)
  }

  lemma StepFrame(c: Config, s: Entries, e: Event, s2: Entries, p: string)
    requires Step(c, s, e, s2) && e != Note(p, e.now)
    ensures p in s2 ==> p in s && s2[p] == s[p]
  {
  }

  datatype Trace = Trace(states: seq<Entries>, events: seq<Event>)

  predicate Shaped(tr: Trace) {
    && |tr.states| == |tr.events| + 1
    && forall i, j :: 0 <= i <= j < |tr.events| ==> tr.events[i].now <= tr.events[j].now
  }

  ghost predicate IsRun(c: Config, tr: Trace) {
    ConfigOk(c) && Shaped(tr) && tr.states[0] == map[] && forall i: nat :: i < |tr.events| ==> StepAt(c, tr, i)
  }

  ghost predicate StepAt(c: Config, tr: Trace, i: nat)
    requires Shaped(tr) && i < |tr.events|
  {
    Step(c, tr.states[i], tr.events[i], tr.states[i + 1])
  }

  /** The times of the first `n` events that note an NXDOMAIN of `p`. */
  function Notes(tr: Trace, p: string, n: nat): seq<real>
    requires n <= |tr.events|
  {
    if n == 0 then []
    else Notes(tr, p, n - 1) + if tr.events[n - 1] == Note(p, tr.events[n - 1].now) then [tr.events[n - 1].now] else []
  }

  predicate EntryBacked(oe: Option<Entry>, h: seq<real>, now: real) {
    Upto(h, now) && (oe.Some? ==> Backed(h, oe.value.streak) && oe.value.streak.first <= now)
  }

  lemma CountedBacked(c: Config, oe: Option<Entry>, h: seq<real>, now: real)
    requires ConfigOk(c) && EntryBacked(oe, h, now)
    ensures EntryBacked(Some(Counted(c, oe, now)), h + [now], now)
    ensures now - Counted(c, oe, now).streak.first <= c.window
  {
    if oe.Some? {
      TickBacked(c.window, h, oe.value.streak, now);
    }
  }

  lemma {:induction false} RunBacked(c: Config, tr: Trace, p: string, n: nat, now: real)
    requires IsRun(c, tr) && p != "" && n <= |tr.events| && (n > 0 ==> tr.events[n - 1].now <= now)
    ensures EntryBacked(Get(tr.states[n], p), Notes(tr, p, n), now)
  {
    if n > 0 {
      var e := tr.events[n - 1];
      RunBacked(c, tr, p, n - 1, e.now);
      assert StepAt(c, tr, n - 1);
      if e == Note(p, e.now) {
        CountedBacked(c, Get(tr.states[n - 1], p), Notes(tr, p, n - 1), e.now);
      } else {
        StepFrame(c, tr.states[n - 1], e, tr.states[n], p);
      }
    }
  }

  /** The event starts a block of `p`. */
  predicate Trips(s: Entries, s2: Entries, p: string) {
    p in s2 && s2[p].blockedUntil.Some? && (p in s ==> s2[p].blockedUntil != s[p].blockedUntil)
  }

  /** A prefix is blocked only when its last `threshold` NXDOMAINs fit in one window, and then
      for `blockFor`. */
  lemma BlockEarned(c: Config, tr: Trace, p: string, n: nat)
    requires IsRun(c, tr) && p != "" && n < |tr.events| && Trips(tr.states[n], tr.states[n + 1], p)
    ensures tr.events[n] == Note(p, tr.events[n].now)
    ensures LastFit(Notes(tr, p, n + 1), c.threshold, c.window)
    ensures tr.states[n + 1][p] == Tripped(c, tr.events[n].now)
  {
    var e, oe := tr.events[n], Get(tr.states[n], p);
    assert StepAt(c, tr, n);
    if e != Note(p, e.now) {
      StepFrame(c, tr.states[n], e, tr.states[n + 1], p);
    } else {
      RunBacked(c, tr, p, n, e.now);
      var h := Notes(tr, p, n);
      CountedBacked(c, oe, h, e.now);
      BackedFits(c.window, h + [e.now], Counted(c, oe, e.now).streak, e.now, c.threshold);
    }
  }

  /** From `i` up to `j`, NXDOMAINs of `p` are noted only for queries that Allow let pass, and
      the entry of `p` is not evicted. */
  predicate Undisturbed(tr: Trace, p: string, i: nat, j: nat)
    requires Shaped(tr) && i <= j <= |tr.events|
  {
    forall n: nat :: i <= n < j ==> UndisturbedAt(tr, p, n)
  }

  predicate UndisturbedAt(tr: Trace, p: string, n: nat)
    requires Shaped(tr) && n < |tr.events|
  {
    && p in tr.states[n + 1]
    && (tr.events[n] == Note(p, tr.events[n].now) ==> Allowed(Get(tr.states[n], p), tr.events[n].now))
  }

  /** Then a refusal lasts until the block runs out. */
  lemma {:induction false} RefusalLasts(c: Config, tr: Trace, p: string, i: nat, j: nat)
    requires IsRun(c, tr) && i <= j < |tr.events| && Undisturbed(tr, p, i, j)
    requires p in tr.states[i] && tr.states[i][p].blockedUntil.Some? && tr.events[j].now <= tr.states[i][p].blockedUntil.value
    ensures !Allowed(Get(tr.states[j], p), tr.events[j].now)
    decreases j - i
  {
    if i < j {
      assert StepAt(c, tr, i) && UndisturbedAt(tr, p, i);
      StepFrame(c, tr.states[i], tr.events[i], tr.states[i + 1], p);
      RefusalLasts(c, tr, p, i + 1, j);
    }
  }

  // ----- notes for one prefix, whether or not its queries were allowed -------------------------

  function NotedAll(c: Config, oe: Option<Entry>, ts: seq<real>): Option<Entry> {
    if ts == [] then oe else Some(Noted(c, NotedAll(c, oe, ts[..|ts| - 1]), ts[|ts| - 1]))
  }

  predicate Within(ts: seq<real>, lo: real, hi: real) {
    forall i :: 0 <= i < |ts| ==> lo <= ts[i] <= hi
  }

  predicate AllFrom(ts: seq<real>, lo: real) {
    forall i :: 0 <= i < |ts| ==> lo <= ts[i]
  }

  lemma {:induction false} StandsWithin(c: Config, t0: real, ts: seq<real>)
    requires ConfigOk(c) && Within(ts, t0, t0 + c.window)
    ensures NotedAll(c, Some(Tripped(c, t0)), ts) == Some(Entry(Streak(|ts|, t0), Some(t0 + c.blockFor)))
  {
    if ts != [] {
      StandsWithin(c, t0, ts[..|ts| - 1]);
    }
  }

  /** A block can only be replaced by a later one. */
  predicate Replaced(c: Config, oe: Option<Entry>, t0: real) {
    oe.Some? && (oe.value.blockedUntil.None? || oe.value.blockedUntil.value > t0 + c.blockFor)
  }

  lemma {:induction false} FallsBeyond(c: Config, t0: real, ts: seq<real>, late: nat)
    requires ConfigOk(c) && AllFrom(ts, t0) && late < |ts| && Sorted(ts) && ts[late] > t0 + c.window && Within(ts[..late], t0, t0 + c.window)
    ensures Replaced(c, NotedAll(c, Some(Tripped(c, t0)), ts), t0)
  {
    var front := ts[..|ts| - 1];
    if late < |front| {
      assert front[..late] == ts[..late];
      FallsBeyond(c, t0, front, late);
      assert ts[late] <= ts[|ts| - 1];
    } else {
      assert front == ts[..late];
      StandsWithin(c, t0, front);
    }
  }

  /** The block tripped at `t0` survives later notes exactly when none comes more than a window
      after it. */
  lemma StandsIff(c: Config, t0: real, ts: seq<real>)
    requires ConfigOk(c) && AllFrom(ts, t0) && Sorted(ts)
    ensures NotedAll(c, Some(Tripped(c, t0)), ts).value.blockedUntil == Some(t0 + c.blockFor)
       <==> Within(ts, t0, t0 + c.window)
  {
    if Within(ts, t0, t0 + c.window) {
      StandsWithin(c, t0, ts);
    } else {
      var late :| 0 <= late < |ts| && ts[late] > t0 + c.window;
      while late > 0 && ts[late - 1] > t0 + c.window
        invariant 0 <= late < |ts| && ts[late] > t0 + c.window
      {
        late := late - 1;
      }
      FallsBeyond(c, t0, ts, late);
    }
  }

  /** When the window outlasts the block, a prefix is allowed from the end of the block to the
      end of the window, whatever NXDOMAINs it produces meanwhile. */
  lemma GapUnguarded(c: Config, t0: real, ts: seq<real>, now: real)
    requires ConfigOk(c) && Within(ts, t0, t0 + c.window)
    ensures Allowed(NotedAll(c, Some(Tripped(c, t0)), ts), now) <==> now > t0 + c.blockFor
  {
    StandsWithin(c, t0, ts);
  }

  // ----- floods are caught -----------------------------------------------------------------------

  function StreakOf(oe: Option<Entry>, t: real): Streak {
    match oe case None => Streak(0, t) case Some(e) => e.streak
  }

  predicate Quiet(oe: Option<Entry>) {
    oe.Some? ==> oe.value.blockedUntil.None?
  }

  /** Until the threshold is reached, notes only count. */
  lemma {:induction false} CountsUntilTripped(c: Config, oe: Option<Entry>, s: Streak, ts: seq<real>)
    requires ConfigOk(c) && Quiet(oe) && ts != [] && s == StreakOf(oe, ts[0])
    requires forall j: nat :: 1 <= j < |ts| ==> !Reaches(c.window, s, ts, c.threshold, j)
    ensures NotedAll(c, oe, ts)
         == Some(if Reaches(c.window, s, ts, c.threshold, |ts|) then Tripped(c, ts[|ts| - 1]) else Entry(Ticks(c.window, s, ts), None))
  {
    var n := |ts| - 1;
    var front := ts[..n];
    assert ts[..|ts|] == ts;
    if n > 0 {
      forall j: nat | 1 <= j <= n
        ensures !Reaches(c.window, s, front, c.threshold, j)
      {
        ReachesEarlier(c.window, s, ts, c.threshold, j, n);
        assert !Reaches(c.window, s, ts, c.threshold, j);
      }
      CountsUntilTripped(c, oe, s, front);
    } else {
      assert Ticks(c.window, s, front) == s && NotedAll(c, oe, front) == oe;
    }
  }

  /** An entry more than a window old at `t`, whose block, if any, the next note clears. */
  predicate Stale(c: Config, oe: Option<Entry>, t: real) {
    oe.Some? && t - oe.value.streak.first > c.window
  }

  lemma {:induction false} StaleIsNew(c: Config, oe: Option<Entry>, ts: seq<real>)
    requires ts != [] && Stale(c, oe, ts[0])
    ensures NotedAll(c, oe, ts) == NotedAll(c, None, ts)
  {
    var front := ts[..|ts| - 1];
    if front != [] {
      StaleIsNew(c, oe, front);
    } else {
      assert NotedAll(c, oe, front) == oe && NotedAll(c, None, front) == None;
    }
  }

  lemma QuietFloodBlocked(c: Config, oe: Option<Entry>, ts: seq<real>) returns (k: nat)
    requires ConfigOk(c) && Quiet(oe) && |ts| == 2 * c.threshold - 1 && Sorted(ts) && ts[|ts| - 1] - ts[0] <= c.window
    ensures 1 <= k <= |ts| && NotedAll(c, oe, ts[..k]) == Some(Tripped(c, ts[k - 1]))
  {
    var s := StreakOf(oe, ts[0]);
    k := FirstToReach(c.window, s, ts, c.threshold);
    forall j: nat | 1 <= j <= k
      ensures Reaches(c.window, s, ts[..k], c.threshold, j) == Reaches(c.window, s, ts, c.threshold, j)
    {
      ReachesEarlier(c.window, s, ts, c.threshold, j, k);
    }
    CountsUntilTripped(c, oe, s, ts[..k]);
  }

  /** Any 2 * threshold - 1 NXDOMAINs inside one window block a prefix that has no block on record,
      or whose last trip is more than a window ago. */
  lemma FloodBlocked(c: Config, oe: Option<Entry>, ts: seq<real>) returns (k: nat)
    requires ConfigOk(c) && |ts| == 2 * c.threshold - 1 && Sorted(ts) && ts[|ts| - 1] - ts[0] <= c.window
    requires Quiet(oe) || Stale(c, oe, ts[0])
    ensures 1 <= k <= |ts| && NotedAll(c, oe, ts[..k]) == Some(Tripped(c, ts[k - 1]))
  {
    if Quiet(oe) {
      k := QuietFloodBlocked(c, oe, ts);
    } else {
      k := QuietFloodBlocked(c, None, ts);
      StaleIsNew(c, oe, ts[..k]);
    }
  }
}
