/**
 The repeat-query guard of internal/dnsserver/repeatguard.go, one shard of it.
 */
module RepeatGuard {
  import opened Common
  import opened Streaks
  import opened Eviction

  datatype Config = Config(threshold: int, window: real)

  predicate ConfigOk(c: Config) {
    c.threshold >= 2 && c.window > 0.0
  }

  /** NewRepeatGuard's clamping. */
  function NewConfig(threshold: int, window: real): (c: Config)
    ensures ConfigOk(c)
    ensures c.threshold == (if threshold >= 2 then threshold else 2) && c.window == if window > 0.0 then window else 10.0
  {
    Config(if threshold < 2 then 2 else threshold, if window <= 0.0 then 10.0 else window)
  }

  datatype Entry = Entry(qname: string, streak: Streak, blockedUntil: Option<real>)

  type Entries = map<string, Entry>

  function Get(s: Entries, k: string): Option<Entry> {
    if k in s then Some(s[k]) else None
  }

  function Seen(s: Entries): map<string, real> {
    map k | k in s :: s[k].streak.first
  }

  /** Allow. */
  predicate Allowed(oe: Option<Entry>, now: real) {
    oe.None? || oe.value.blockedUntil.None? || now > oe.value.blockedUntil.value
  }

  /** NoteQuery, on the client's entry, and whether it reports a trip. */
  function Noted(c: Config, oe: Option<Entry>, qname: string, now: real): (Entry, bool) {
    if oe.None? || oe.value.qname != qname || now - oe.value.streak.first > c.window then
      (Entry(qname, Streak(1, now), None), false)
    else
      var e := oe.value.(streak := Streak(oe.value.streak.count + 1, oe.value.streak.first));
      (e, e.streak.count >= c.threshold)
  }

  function Forced(now: real, d: real): Entry {
    Entry("", Streak(0, now), Some(now + d))
  }

  class Shard {
    const config: Config
    var entries: Entries

    ghost predicate Valid()
      reads this
    {
      ConfigOk(config) && |entries| <= CAP
    }

    constructor (threshold: int, window: real)
      ensures Valid() && config == NewConfig(threshold, window) && entries == map[]
    {
      config := NewConfig(threshold, window);
      entries := map[];
    }

    method Allow(client: string, now: real) returns (ok: bool)
      requires Valid()
      ensures ok <==> client == "" || Allowed(Get(entries, client), now)
    {
      if client == "" {
        return true;
      }
      if client !in entries || entries[client].blockedUntil.None? {
        return true;
      }
      return now > entries[client].blockedUntil.value;
    }

    method NoteQuery(client: string, qname: string, now: real) returns (trip: bool)
      requires Valid()
      modifies this
      ensures Valid()
      ensures Step(config, old(entries), Note(client, qname, now), entries, trip)
    {
      if client == "" || qname == "" {
        return false;
      }
      if client !in entries {
        entries := Insert(entries, Seen(entries), client, Entry(qname, Streak(1, now), None), now);
        return false;
      }
      var e := entries[client];
      if e.qname != qname || now - e.streak.first > config.window {
        entries := entries[client := Entry(qname, Streak(1, now), None)];
        return false;
      }
      e := e.(streak := Streak(e.streak.count + 1, e.streak.first));
      entries := entries[client := e];
      return e.streak.count >= config.threshold;
    }

    method ForceBlock(client: string, d: real, now: real)
      requires Valid()
      modifies this
      ensures Valid()
      ensures Step(config, old(entries), Force(client, now, d), entries, false)
    {
      if client == "" || d <= 0.0 {
        return;
      }
      if client in entries {
        entries := entries[client := Forced(now, d)];
      } else {
        entries := Insert(entries, Seen(entries), client, Forced(now, d), now);
      }
    }
  }

  // ----- runs ----------------------------------------------------------------------------------

  datatype Event =
    | Query(client: string, now: real)
    | Note(client: string, qname: string, now: real)
    | Force(client: string, now: real, d: real)

  /** One call; `trip` is what NoteQuery reports. */
  ghost predicate Step(c: Config, s: Entries, e: Event, s2: Entries, trip: bool) {
    match e
    case Query(_, _) => !trip && s2 == s
    case Note(k, q, now) =>
      if k == "" || q == "" then !trip && s2 == s
      else trip == Noted(c, Get(s, k), q, now).1 && Put(s, Seen(s), k, Noted(c, Get(s, k), q, now).0, now, s2)
    case Force(k, now, d) =>
      !trip && if k == "" || d <= 0.0 then s2 == s else Put(s, Seen(s), k, Forced(now, d), now, s2)
  }

  lemma StepFrame(c: Config, s: Entries, e: Event, s2: Entries, trip: bool, k: string)
    requires Step(c, s, e, s2, trip) && (e.client != k || e.Query?)
    ensures k in s2 ==> k in s && s2[k] == s[k]
  {
  }

  datatype Trace = Trace(states: seq<Entries>, events: seq<Event>, trips: seq<bool>)

  predicate Shaped(tr: Trace) {
    && |tr.states| == |tr.events| + 1 && |tr.trips| == |tr.events|
    && forall i, j :: 0 <= i <= j < |tr.events| ==> tr.events[i].now <= tr.events[j].now
  }

  ghost predicate IsRun(c: Config, tr: Trace) {
    ConfigOk(c) && Shaped(tr) && tr.states[0] == map[] && forall i: nat :: i < |tr.events| ==> StepAt(c, tr, i)
  }

  ghost predicate StepAt(c: Config, tr: Trace, i: nat)
    requires Shaped(tr) && i < |tr.events|
  {
    Step(c, tr.states[i], tr.events[i], tr.states[i + 1], tr.trips[i])
  }

  predicate Notes(e: Event, k: string) {
    e.Note? && e.client == k && e.qname != ""
  }

  /** The names `k` asked for in the first `n` events, and when. */
  function Asked(tr: Trace, k: string, n: nat): seq<(string, real)>
    requires n <= |tr.events|
  {
    if n == 0 then []
    else
      var e := tr.events[n - 1];
      Asked(tr, k, n - 1) + if Notes(e, k) then [(e.qname, e.now)] else []
  }

  /** The last `streak.count` queries named the entry's domain, none before the streak began. */
  predicate EntryBacked(oe: Option<Entry>, h: seq<(string, real)>, now: real) {
    && (forall i :: 0 <= i < |h| ==> h[i].1 <= now)
    && (oe.Some? ==>
          && oe.value.streak.count <= |h| && oe.value.streak.first <= now
          && forall i :: |h| - oe.value.streak.count <= i < |h| ==> h[i].0 == oe.value.qname && oe.value.streak.first <= h[i].1)
  }

  lemma NotedBacked(c: Config, oe: Option<Entry>, q: string, h: seq<(string, real)>, now: real)
    requires ConfigOk(c) && EntryBacked(oe, h, now)
    ensures EntryBacked(Some(Noted(c, oe, q, now).0), h + [(q, now)], now)
    ensures Noted(c, oe, q, now).0.qname == q && now - Noted(c, oe, q, now).0.streak.first <= c.window
  {
  }

  lemma {:induction false} RunBacked(c: Config, tr: Trace, k: string, n: nat, now: real)
    requires IsRun(c, tr) && k != "" && n <= |tr.events| && (n > 0 ==> tr.events[n - 1].now <= now)
    ensures EntryBacked(Get(tr.states[n], k), Asked(tr, k, n), now)
  {
    if n > 0 {
      var e := tr.events[n - 1];
      RunBacked(c, tr, k, n - 1, e.now);
      assert StepAt(c, tr, n - 1);
      if Notes(e, k) {
        NotedBacked(c, Get(tr.states[n - 1], k), e.qname, Asked(tr, k, n - 1), e.now);
      } else if e.client != k {
        StepFrame(c, tr.states[n - 1], e, tr.states[n], tr.trips[n - 1], k);
      }
    }
  }

  /** The last `n` queries all named `q` and fit in one window. */
  predicate Hammering(h: seq<(string, real)>, n: nat, q: string, window: real) {
    && n <= |h|
    && (forall i :: |h| - n <= i < |h| ==> h[i].0 == q)
    && forall i, j :: |h| - n <= i <= j < |h| ==> h[j].1 - h[i].1 <= window
  }

  /** A trip is reported only when the last `threshold` queries of the client, this one included,
      named one domain within one window. */
  lemma TripEarned(c: Config, tr: Trace, k: string, n: nat)
    requires IsRun(c, tr) && n < |tr.events| && tr.trips[n] && tr.events[n].client == k
    ensures tr.events[n].Note?
    ensures Hammering(Asked(tr, k, n + 1), c.threshold, tr.events[n].qname, c.window)
  {
    assert StepAt(c, tr, n);
    var e, oe, h := tr.events[n], Get(tr.states[n], k), Asked(tr, k, n);
    RunBacked(c, tr, k, n, e.now);
    NotedBacked(c, oe, e.qname, h, e.now);
  }

  /** From `i` up to `j`, `k` is noted only for queries that Allow let pass, no new block is
      forced on it, and its entry is not evicted. */
  predicate Undisturbed(tr: Trace, k: string, i: nat, j: nat)
    requires Shaped(tr) && i <= j <= |tr.events|
  {
    forall n: nat :: i <= n < j ==> UndisturbedAt(tr, k, n)
  }

  predicate UndisturbedAt(tr: Trace, k: string, n: nat)
    requires Shaped(tr) && n < |tr.events|
  {
    && k in tr.states[n + 1]
    && (Notes(tr.events[n], k) ==> Allowed(Get(tr.states[n], k), tr.events[n].now))
    && (tr.events[n].Force? ==> tr.events[n].client != k)
  }

  /** Then a refusal lasts until the block runs out. */
  lemma {:induction false} RefusalLasts(c: Config, tr: Trace, k: string, i: nat, j: nat)
    requires IsRun(c, tr) && i <= j < |tr.events| && Undisturbed(tr, k, i, j)
    requires k in tr.states[i] && tr.states[i][k].blockedUntil.Some? && tr.events[j].now <= tr.states[i][k].blockedUntil.value
    ensures !Allowed(Get(tr.states[j], k), tr.events[j].now)
    decreases j - i
  {
    if i < j {
      assert StepAt(c, tr, i) && UndisturbedAt(tr, k, i);
      if tr.events[i].client != k {
        StepFrame(c, tr.states[i], tr.events[i], tr.states[i + 1], tr.trips[i], k);
      }
      RefusalLasts(c, tr, k, i + 1, j);
    }
  }

  /** No other block is forced on `k`, and its entry is not evicted, from `i` up to `j`. */
  predicate Unforced(tr: Trace, k: string, i: nat, j: nat)
    requires Shaped(tr) && i <= j <= |tr.events|
  {
    forall n: nat :: i <= n < j ==> UnforcedAt(tr, k, n)
  }

  predicate UnforcedAt(tr: Trace, k: string, n: nat)
    requires Shaped(tr) && n < |tr.events|
  {
    k in tr.states[n + 1] && (tr.events[n].Force? ==> tr.events[n].client != k)
  }

  predicate Unnoted(tr: Trace, k: string, i: nat, j: nat)
    requires Shaped(tr) && i <= j <= |tr.events|
  {
    forall n :: i <= n < j ==> !Notes(tr.events[n], k)
  }

  /** Once a name has been noted there is no block until the next one is forced. */
  predicate Lifted(e: Entry) {
    e.blockedUntil.None?
  }

  lemma StandsStep(c: Config, tr: Trace, k: string, n: nat, e: Entry)
    requires IsRun(c, tr) && k != "" && n < |tr.events| && UnforcedAt(tr, k, n)
    requires k in tr.states[n] && (tr.states[n][k] == e || Lifted(tr.states[n][k])) && e.qname == ""
    ensures var e' := tr.states[n + 1][k];
            if Notes(tr.events[n], k) then Lifted(e') else e' == tr.states[n][k]
  {
    assert StepAt(c, tr, n);
    if tr.events[n].client != k {
      StepFrame(c, tr.states[n], tr.events[n], tr.states[n + 1], tr.trips[n], k);
    }
  }

  lemma {:induction false} StandsSince(c: Config, tr: Trace, k: string, i: nat, j: nat, e: Entry)
    requires IsRun(c, tr) && k != "" && i <= j <= |tr.events| && Unforced(tr, k, i, j)
    requires k in tr.states[i] && tr.states[i][k] == e && e.qname == "" && e.blockedUntil.Some?
    ensures k in tr.states[j] && if Unnoted(tr, k, i, j) then tr.states[j][k] == e else Lifted(tr.states[j][k])
  {
    if i < j {
      StandsSince(c, tr, k, i, j - 1, e);
      assert UnforcedAt(tr, k, j - 1);
      StandsStep(c, tr, k, j - 1, e);
      assert Unnoted(tr, k, i, j) <==> Unnoted(tr, k, i, j - 1) && !Notes(tr.events[j - 1], k);
    }
  }

  /** A forced block lasts its time exactly when no query of the client is noted meanwhile: the
      first one noted ends it. */
  lemma ForcedStandsIff(c: Config, tr: Trace, k: string, i: nat, j: nat)
    requires IsRun(c, tr) && k != "" && i < j < |tr.events| && tr.events[i].Force? && tr.events[i].client == k && tr.events[i].d > 0.0
    requires Unforced(tr, k, i + 1, j) && tr.events[j].now <= tr.events[i].now + tr.events[i].d
    ensures Allowed(Get(tr.states[j], k), tr.events[j].now) <==> !Unnoted(tr, k, i + 1, j)
  {
    assert StepAt(c, tr, i);
    StandsSince(c, tr, k, i + 1, j, Forced(tr.events[i].now, tr.events[i].d));
  }

  // ----- floods are caught -----------------------------------------------------------------------

  /** The entry after repeated queries for `q`. */
  function NotedAll(c: Config, oe: Option<Entry>, q: string, ts: seq<real>): Option<Entry> {
    if ts == [] then oe else Some(Noted(c, NotedAll(c, oe, q, ts[..|ts| - 1]), q, ts[|ts| - 1]).0)
  }

  function StreakOn(oe: Option<Entry>, q: string, t: real): Streak {
    if oe.Some? && oe.value.qname == q then oe.value.streak else Streak(0, t)
  }

  lemma {:induction false} RepeatsCount(c: Config, oe: Option<Entry>, q: string, ts: seq<real>)
    requires ConfigOk(c) && ts != []
    ensures var r := NotedAll(c, oe, q, ts);
            r.Some? && r.value.qname == q && r.value.streak == Ticks(c.window, StreakOn(oe, q, ts[0]), ts)
  {
    var front := ts[..|ts| - 1];
    if front != [] {
      RepeatsCount(c, oe, q, front);
    }
  }

  /** Of any 2 * threshold - 1 queries in a row for one domain inside one window, some query
      reports a trip, whatever came before. */
  lemma FloodTrips(c: Config, oe: Option<Entry>, q: string, ts: seq<real>) returns (k: nat)
    requires ConfigOk(c) && |ts| == 2 * c.threshold - 1 && Sorted(ts) && ts[|ts| - 1] - ts[0] <= c.window
    ensures 1 <= k <= |ts| && Noted(c, NotedAll(c, oe, q, ts[..k - 1]), q, ts[k - 1]).1
  {
    k := FloodCounts(c.window, StreakOn(oe, q, ts[0]), ts, c.threshold);
    RepeatsCount(c, oe, q, ts[..k]);
    assert ts[..k][..k - 1] == ts[..k - 1];
  }
}
