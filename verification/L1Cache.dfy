/**
 The in-process response cache (internal/cache/l1.go): shards of a map plus an insertion
 queue, evicted by the CLOCK rule.  Here the operations on one shard as functions, and what
 eviction does.
 */
module L1Cache {
  import opened Common

  type Time = int

  datatype Key = Key(h: nat, neg: bool)

  /** What a caller stored: the packed bytes, their answer-TTL offsets, and two deadlines. */
  datatype Record = Record(raw: seq<Byte>, ttlOff: seq<nat>, expires: Time, staleUntil: Time)

  datatype Entry = Entry(record: Record, referenced: bool)

  datatype Shard = Shard(m: map<Key, Entry>, queue: seq<Key>)

  datatype Lookup =
    | Miss
    | Fresh(raw: seq<Byte>, ttlOff: seq<nat>, remaining: Time)
    | Stale(raw: seq<Byte>, ttlOff: seq<nat>)

  const EMPTY: Shard := Shard(map[], [])

  /** What a stored record answers at time `now`. */
  function Verdict(r: Option<Record>, now: Time): Lookup {
    match r
    case None => Miss
    case Some(x) =>
      if now < x.expires then Fresh(x.raw, x.ttlOff, x.expires - now)
      else if now < x.staleUntil then Stale(x.raw, x.ttlOff)
      else Miss
  }

  function Stored(s: Shard, k: Key): Option<Record> {
    if k in s.m then Some(s.m[k].record) else None
  }

  // ----- eviction ---------------------------------------------------------------------

  function Marked(m: map<Key, Entry>): set<Key> {
    set k | k in m && m[k].referenced
  }

  function Unmarked(e: Entry): Entry { e.(referenced := false) }

  lemma UnmarkOne(m: map<Key, Entry>, k: Key)
    requires k in m && m[k].referenced
    ensures |Marked(m[k := Unmarked(m[k])])| < |Marked(m)|
    ensures |m[k := Unmarked(m[k])]| == |m|
  {
    var m' := m[k := Unmarked(m[k])];
    assert Marked(m') == Marked(m) - {k};
    assert m'.Keys == m.Keys;
  }

  lemma DropOne(m: map<Key, Entry>, k: Key)
    requires k in m && !m[k].referenced
    ensures |Marked(m - {k})| == |Marked(m)|
    ensures |m - {k}| == |m| - 1
  {
    assert Marked(m - {k}) == Marked(m);
    assert (m - {k}).Keys == m.Keys - {k};
  }

  /** evictToCap.  A pass ends because each turn shortens the queue or clears a mark. */
  function Evict(s: Shard, cap: nat): Shard
    decreases |Marked(s.m)| + |s.queue|
  {
    if |s.m| <= cap || s.queue == [] then s else
      var k, rest := s.queue[0], s.queue[1..];
      if k !in s.m then Evict(Shard(s.m, rest), cap)
      else if s.m[k].referenced then
        UnmarkOne(s.m, k);
        Evict(Shard(s.m[k := Unmarked(s.m[k])], rest + [k]), cap)
      else
        DropOne(s.m, k);
        Evict(Shard(s.m - {k}, rest), cap)
  }

  /** Every live key has a queue slot, so eviction can always reach it. */
  predicate Covered(s: Shard) {
    forall k :: k in s.m ==> k in s.queue
  }

  /** `t` holds some of the records of `s`, unchanged. */
  predicate Within(t: Shard, s: Shard) {
    forall k :: k in t.m ==> k in s.m && t.m[k].record == s.m[k].record
  }

  /** Eviction only removes records, keeps live keys reachable, and meets the cap. */
  lemma {:induction false} EvictKeeps(s: Shard, cap: nat)
    requires Covered(s)
    ensures var t := Evict(s, cap);
            Covered(t) && |t.m| <= cap && Within(t, s)
    decreases |Marked(s.m)| + |s.queue|
  {
    assert s.queue == [] ==> s.m.Keys == {};
    if |s.m| > cap && s.queue != [] {
      var k, rest := s.queue[0], s.queue[1..];
      assert s.queue == [k] + rest;
      if k !in s.m {
        EvictKeeps(Shard(s.m, rest), cap);
      } else if s.m[k].referenced {
        UnmarkOne(s.m, k);
        EvictKeeps(Shard(s.m[k := Unmarked(s.m[k])], rest + [k]), cap);
      } else {
        DropOne(s.m, k);
        EvictKeeps(Shard(s.m - {k}, rest), cap);
      }
    }
  }

  // ----- one insertion into a full shard, without duplicate slots ------------------------

  predicate Distinct(q: seq<Key>) {
    forall i, j :: 0 <= i < j < |q| ==> q[i] != q[j]
  }

  function Live(q: seq<Key>, m: map<Key, Entry>): seq<Key> {
    if q == [] then [] else (if q[0] in m then [q[0]] else []) + Live(q[1..], m)
  }

  lemma LiveNext(q: seq<Key>, m: map<Key, Entry>, i: nat, keep: seq<Key>)
    requires i < |q|
    ensures keep + Live(q[i..], m) == (if q[i] in m then keep + [q[i]] else keep) + Live(q[i + 1..], m)
  {
    var rest := Live(q[i + 1..], m);
    assert q[i..][0] == q[i] && q[i..][1..] == q[i + 1..];
    assert keep + ([q[i]] + rest) == (keep + [q[i]]) + rest && keep + ([] + rest) == keep + rest;
  }

  /** `v` is the first queue position holding a live key without a mark. */
  predicate Victim(s: Shard, v: nat) {
    && v < |s.queue| && s.queue[v] in s.m && !s.m[s.queue[v]].referenced
    && forall i :: 0 <= i < v && s.queue[i] in s.m ==> s.m[s.queue[i]].referenced
  }

  /** Marks cleared on the keys passed over, the victim gone. */
  function AfterPass(s: Shard, v: nat): map<Key, Entry>
    requires v < |s.queue|
  {
    map k | k in s.m && k != s.queue[v] :: if k in s.queue[..v] then Unmarked(s.m[k]) else s.m[k]
  }

  /** One over the cap, eviction removes exactly the first live key without a mark; the keys
      passed over lose their mark and move behind the rest in the same order. */
  lemma {:induction false} EvictsFirstUnmarked(s: Shard, cap: nat, v: nat)
    requires |s.m| == cap + 1 && Distinct(s.queue) && Victim(s, v)
    ensures Evict(s, cap) == Shard(AfterPass(s, v), s.queue[v + 1..] + Live(s.queue[..v], s.m))
    decreases v
  {
    var k, rest := s.queue[0], s.queue[1..];
    if v == 0 {
      DropOne(s.m, k);
      assert AfterPass(s, 0) == s.m - {k};
      assert s.queue[1..] + Live(s.queue[..0], s.m) == rest;
      assert Evict(s, cap) == Evict(Shard(s.m - {k}, rest), cap);
    } else if k !in s.m {
      PassDead(s, cap, v);
    } else {
      PassMarked(s, cap, v);
    }
  }

  lemma PassDead(s: Shard, cap: nat, v: nat)
    requires |s.m| == cap + 1 && Distinct(s.queue) && Victim(s, v) && v > 0 && s.queue[0] !in s.m
    ensures Evict(s, cap) == Shard(AfterPass(s, v), s.queue[v + 1..] + Live(s.queue[..v], s.m))
    decreases v, 0
  {
    var t := Shard(s.m, s.queue[1..]);
    EvictsFirstUnmarked(t, cap, v - 1);
    assert s.queue[..v][1..] == t.queue[..v - 1];
    assert s.queue[..v] == [s.queue[0]] + t.queue[..v - 1];
    assert AfterPass(t, v - 1) == AfterPass(s, v);
    assert t.queue[v..] == s.queue[v + 1..];
  }

  /** The shard after a marked key was passed over. */
  function Requeued(s: Shard): Shard
    requires s.queue != [] && s.queue[0] in s.m
  {
    Shard(s.m[s.queue[0] := Unmarked(s.m[s.queue[0]])], s.queue[1..] + [s.queue[0]])
  }

  lemma RequeuedVictim(s: Shard, v: nat)
    requires Distinct(s.queue) && Victim(s, v) && v > 0 && s.queue[0] in s.m
    ensures Distinct(Requeued(s).queue) && Victim(Requeued(s), v - 1)
    ensures AfterPass(Requeued(s), v - 1) == AfterPass(s, v)
  {
    var t := Requeued(s);
    assert forall i :: 0 <= i < |s.queue| - 1 ==> t.queue[i] == s.queue[i + 1];
    assert t.queue[..v - 1] == s.queue[1..v];
    assert s.queue[..v] == [s.queue[0]] + s.queue[1..v];
  }

  lemma PassMarked(s: Shard, cap: nat, v: nat)
    requires |s.m| == cap + 1 && Distinct(s.queue) && Victim(s, v) && v > 0 && s.queue[0] in s.m
    ensures Evict(s, cap) == Shard(AfterPass(s, v), s.queue[v + 1..] + Live(s.queue[..v], s.m))
    decreases v, 0
  {
    var k, t := s.queue[0], Requeued(s);
    UnmarkOne(s.m, k);
    RequeuedVictim(s, v);
    EvictsFirstUnmarked(t, cap, v - 1);
    assert t.queue[..v - 1] == s.queue[1..v];
    LiveSame(s.queue[1..v], t.m, s.m);
    assert s.queue[..v][1..] == s.queue[1..v];
    assert Live(s.queue[..v], s.m) == [k] + Live(s.queue[1..v], s.m);
    RotateTail(s.queue, v, k, Live(s.queue[1..v], s.m));
  }

  lemma {:induction false} LiveSame(q: seq<Key>, m: map<Key, Entry>, m': map<Key, Entry>)
    requires m.Keys == m'.Keys
    ensures Live(q, m) == Live(q, m')
  {
    if q != [] {
      assert q[0] in m.Keys <==> q[0] in m'.Keys;
      LiveSame(q[1..], m, m');
    }
  }

  lemma RotateTail(q: seq<Key>, v: nat, k: Key, live: seq<Key>)
    requires 0 < v < |q|
    ensures (q[1..] + [k])[v..] + live == q[v + 1..] + ([k] + live)
  {
    assert (q[1..] + [k])[v..] == q[v + 1..] + [k];
  }

  // ----- the operations ------------------------------------------------------------------

  function Compact(s: Shard): Shard { s.(queue := Live(s.queue, s.m)) }

  lemma {:induction false} LiveHas(q: seq<Key>, m: map<Key, Entry>, k: Key)
    ensures k in Live(q, m) <==> k in q && k in m
  {
    if q != [] {
      assert q == [q[0]] + q[1..];
      LiveHas(q[1..], m, k);
    }
  }

  predicate Accepted(raw: seq<Byte>, ttl: Time) { ttl > 0 && raw != [] }

  function RecordOf(raw: seq<Byte>, ttlOff: seq<nat>, ttl: Time, stale: Time, now: Time): Record {
    Record(raw, ttlOff, now + ttl, now + ttl + stale)
  }

  /** set, for an accepted record. */
  function Put(s: Shard, cap: nat, k: Key, r: Record): Shard {
    if cap > 0 && k !in s.m then
      var t := Evict(Shard(s.m[k := Entry(r, false)], s.queue + [k]), cap);
      if |t.queue| > 2 * cap then Compact(t) else t
    else s.(m := s.m[k := Entry(r, false)])
  }

  /** get: a hit marks the entry, an entry past its stale window is dropped. */
  function Touch(s: Shard, k: Key, now: Time): Shard {
    if k !in s.m then s
    else if Verdict(Stored(s, k), now).Miss? then s.(m := s.m - {k})
    else s.(m := s.m[k := s.m[k].(referenced := true)])
  }

  function Drop(s: Shard, k: Key): Shard { s.(m := s.m - {k}) }

  /** What every operation keeps when there is a cap. */
  predicate Bounded(s: Shard, cap: nat) {
    cap > 0 ==> Covered(s) && |s.m| <= cap
  }

  lemma {:induction false} FirstUnmarked(s: Shard, v: nat) returns (w: nat)
    requires v < |s.queue| && s.queue[v] in s.m && !s.m[s.queue[v]].referenced
    ensures Victim(s, w) && w <= v
  {
    w := 0;
    while !(s.queue[w] in s.m && !s.m[s.queue[w]].referenced)
      invariant w <= v
      invariant forall i :: 0 <= i < w && s.queue[i] in s.m ==> s.m[s.queue[i]].referenced
      decreases v - w
    {
      w := w + 1;
    }
  }

  /** Inserting a new key into a full shard evicts exactly one key; the new key itself goes
      when, and only when, every other live key carries a mark. */
  lemma PutIntoFullShard(s: Shard, cap: nat, k: Key, r: Record) returns (v: nat)
    requires cap > 0 && |s.m| == cap && k !in s.m && Covered(s) && Distinct(s.queue + [k])
    ensures var full := Shard(s.m[k := Entry(r, false)], s.queue + [k]);
            Victim(full, v) && Put(s, cap, k, r).m == AfterPass(full, v)
    ensures k !in Put(s, cap, k, r).m <==> forall x :: x in s.m ==> s.m[x].referenced
  {
    var full := Shard(s.m[k := Entry(r, false)], s.queue + [k]);
    v := FirstUnmarked(full, |s.queue|);
    assert full.m.Keys == s.m.Keys + {k};
    EvictsFirstUnmarked(full, cap, v);
    NewKeyGoesIff(s, k, r, v);
  }

  /** The victim is the new key exactly when every other one is marked. */
  lemma NewKeyGoesIff(s: Shard, k: Key, r: Record, v: nat)
    requires k !in s.m && Covered(s) && Distinct(s.queue + [k])
    requires Victim(Shard(s.m[k := Entry(r, false)], s.queue + [k]), v)
    ensures k !in AfterPass(Shard(s.m[k := Entry(r, false)], s.queue + [k]), v) <==> forall x :: x in s.m ==> s.m[x].referenced
  {
    var full := Shard(s.m[k := Entry(r, false)], s.queue + [k]);
    if x :| x in s.m && !s.m[x].referenced {
      var i :| 0 <= i < |s.queue| && s.queue[i] == x;
      assert full.queue[i] == x && full.m[x] == s.m[x];
      assert v <= i;
      assert full.queue[v] != full.queue[|s.queue|] == k;
    } else {
      assert full.queue[v] == k;
    }
  }

  lemma PutKeeps(s: Shard, cap: nat, k: Key, r: Record)
    requires Bounded(s, cap)
    ensures Bounded(Put(s, cap, k, r), cap)
    ensures Within(Put(s, cap, k, r), s.(m := s.m[k := Entry(r, false)]))
  {
    if cap > 0 {
      if k !in s.m {
        var full := Shard(s.m[k := Entry(r, false)], s.queue + [k]);
        assert Covered(full);
        EvictKeeps(full, cap);
        var t := Evict(full, cap);
        forall x | x in t.m
          ensures x in Live(t.queue, t.m)
        {
          LiveHas(t.queue, t.m, x);
        }
      } else {
        assert s.m[k := Entry(r, false)].Keys == s.m.Keys;
      }
    }
  }

  lemma TouchKeeps(s: Shard, cap: nat, k: Key, now: Time)
    requires Bounded(s, cap)
    ensures Bounded(Touch(s, k, now), cap) && Within(Touch(s, k, now), s)
  {
    if k in s.m {
      assert (s.m - {k}).Keys == s.m.Keys - {k};
      assert s.m[k := s.m[k].(referenced := true)].Keys == s.m.Keys;
    }
  }

  lemma DropKeeps(s: Shard, cap: nat, k: Key)
    requires Bounded(s, cap)
    ensures Bounded(Drop(s, k), cap) && Within(Drop(s, k), s)
  {
    assert (s.m - {k}).Keys == s.m.Keys - {k};
    if k !in s.m {
      assert s.m - {k} == s.m;
    }
  }
}
