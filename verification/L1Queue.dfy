/**
 How long the insertion queue of a capped shard can grow.  Compaction is meant to keep slots of
 deleted keys from piling up; a key that is set again after it was dropped makes its old slots live
 once more, so they are never compacted away.
 */
module L1Queue {
  import opened Common
  import opened L1Cache
  import opened L1Store
  import opened L1Chance

  function Names(q: seq<Key>): set<Key> { set k | k in q }

  lemma NamesFew(q: seq<Key>)
    ensures |Names(q)| <= |q|
  {
    if q != [] {
      NamesFew(q[1..]);
      assert q == [q[0]] + q[1..];
      assert Names(q) == Names(q[1..]) + {q[0]};
    }
  }

  /** Slots beyond the first of their key. */
  function Spare(q: seq<Key>): nat {
    NamesFew(q);
    |q| - |Names(q)|
  }

  lemma SpareFirst(q: seq<Key>)
    requires q != []
    ensures Spare(q) == Spare(q[1..]) + if q[0] in q[1..] then 1 else 0
  {
    assert q == [q[0]] + q[1..];
    assert Names(q) == Names(q[1..]) + {q[0]};
    if q[0] in q[1..] {
      assert Names(q) == Names(q[1..]);
    }
  }

  lemma SpareLast(q: seq<Key>, k: Key)
    ensures Spare(q + [k]) == Spare(q) + if k in q then 1 else 0
  {
    assert Names(q + [k]) == Names(q) + {k};
    if k in q {
      assert Names(q + [k]) == Names(q);
    }
  }

  lemma SpareMoved(q: seq<Key>)
    requires q != []
    ensures Spare(q[1..] + [q[0]]) == Spare(q)
  {
    SpareFirst(q);
    SpareLast(q[1..], q[0]);
  }

  // ----- one insertion -----------------------------------------------------------------------

  lemma {:induction false} EvictSpare(s: Shard, cap: nat)
    ensures Spare(Evict(s, cap).queue) <= Spare(s.queue) && |Evict(s, cap).queue| <= |s.queue|
    decreases |Marked(s.m)| + |s.queue|
  {
    if |s.m| > cap && s.queue != [] {
      var k, rest := s.queue[0], s.queue[1..];
      SpareFirst(s.queue);
      if k !in s.m {
        EvictSpare(Shard(s.m, rest), cap);
      } else if s.m[k].referenced {
        UnmarkOne(s.m, k);
        SpareMoved(s.queue);
        EvictSpare(Shard(s.m[k := Unmarked(s.m[k])], rest + [k]), cap);
      } else {
        DropOne(s.m, k);
        EvictSpare(Shard(s.m - {k}, rest), cap);
      }
    }
  }

  lemma {:induction false} LiveSpare(q: seq<Key>, m: map<Key, Entry>)
    ensures Spare(Live(q, m)) <= Spare(q)
  {
    if q != [] {
      var rest := Live(q[1..], m);
      LiveSpare(q[1..], m);
      SpareFirst(q);
      LiveHas(q[1..], m, q[0]);
      if q[0] in m {
        var live := [q[0]] + rest;
        assert Live(q, m) == live && live[0] == q[0] && live[1..] == rest;
        SpareFirst(live);
      } else {
        assert Live(q, m) == rest;
      }
    }
  }

  lemma LiveLength(q: seq<Key>, m: map<Key, Entry>)
    ensures |Live(q, m)| <= |m| + Spare(Live(q, m))
  {
    forall k | k in Names(Live(q, m))
      ensures k in m.Keys
    {
      LiveHas(q, m, k);
    }
    SubsetSize(Names(Live(q, m)), m.Keys);
    assert |m.Keys| == |m|;
  }

  /** The queue is within twice the cap, or within the cap and its spare slots. */
  predicate WithinBound(s: Shard, cap: nat, spare: nat) {
    Spare(s.queue) <= spare && (|s.queue| <= 2 * cap || |s.queue| <= cap + spare)
  }

  lemma PutWithin(s: Shard, cap: nat, k: Key, r: Record, spare: nat)
    requires cap > 0 && Bounded(s, cap) && WithinBound(s, cap, spare)
    ensures WithinBound(Put(s, cap, k, r), cap, spare + if k !in s.m && k in s.queue then 1 else 0)
  {
    if k !in s.m {
      var full := Shard(s.m[k := Entry(r, false)], s.queue + [k]);
      var t := Evict(full, cap);
      SpareLast(s.queue, k);
      EvictSpare(full, cap);
      EvictKeeps(full, cap);
      if |t.queue| > 2 * cap {
        LiveSpare(t.queue, t.m);
        LiveLength(t.queue, t.m);
      }
    }
  }

  // ----- over runs -----------------------------------------------------------------------------

  /** The operation sets a key of shard `i` that is not there but still has a slot. */
  predicate SetsAgain(lim: Limits, ops: seq<Op>, op: Op, i: nat)
    requires i < SHARDS
  {
    && op.SetOp? && Accepted(op.raw, op.ttl) && ShardOf(op.key) == i
    && op.key !in Run(lim, ops)[i].m && op.key in Run(lim, ops)[i].queue
  }

  /** How often that happened in shard `i` since the last flush. */
  function Again(lim: Limits, ops: seq<Op>, i: nat): nat
    requires i < SHARDS
  {
    if ops == [] then 0
    else
      var rest, op := ops[..|ops| - 1], ops[|ops| - 1];
      if op.FlushOp? then 0 else Again(lim, rest, i) + if SetsAgain(lim, rest, op, i) then 1 else 0
  }

  lemma AgainNext(lim: Limits, ops: seq<Op>, op: Op, i: nat)
    requires i < SHARDS
    ensures Again(lim, ops + [op], i)
         == if op.FlushOp? then 0 else Again(lim, ops, i) + if SetsAgain(lim, ops, op, i) then 1 else 0
  {
    assert (ops + [op])[..|ops|] == ops;
  }

  lemma {:induction false} RunWithin(lim: Limits, ops: seq<Op>, i: nat)
    requires lim.cap > 0 && i < SHARDS
    ensures WithinBound(Run(lim, ops)[i], lim.cap, Again(lim, ops, i))
    decreases |ops|
  {
    if ops != [] {
      var n := |ops| - 1;
      var rest, op := ops[..n], ops[n];
      assert ops == rest + [op];
      AgainNext(lim, rest, op, i);
      RunWithin(lim, rest, i);
      RunOk(lim, rest);
      var s := Run(lim, rest)[i];
      assert Bounded(s, lim.cap);
      if op.SetOp? && Accepted(op.raw, op.ttl) && ShardOf(op.key) == i {
        PutWithin(s, lim.cap, op.key, RecordOf(op.raw, op.ttlOff, op.ttl, lim.stale, op.now), Again(lim, rest, i));
      }
    }
  }

  /** In every run a shard's queue has at most 2 * cap slots, or cap plus one for each time a dropped
      key was set again while it still had a slot. */
  lemma QueueBound(lim: Limits, ops: seq<Op>, i: nat)
    requires lim.cap > 0 && i < SHARDS
    ensures var n := |Run(lim, ops)[i].queue|;
            n <= 2 * lim.cap || n <= lim.cap + Again(lim, ops, i)
  {
    RunWithin(lim, ops, i);
  }

  // ----- the bound is reached --------------------------------------------------------------------

  /** The `j`-th key of shard 0. */
  function KeyAt(j: nat): Key { Key(SHARDS * j, false) }

  function SetAt(j: nat): Op { SetOp(KeyAt(j), [0], [], 1, 0) }

  /** Set the first `n` keys of shard 0, and then del and set the first of them `r` times. */
  function Refilled(n: nat, r: nat): seq<Op> {
    if r > 0 then Refilled(n, r - 1) + [DelOp(KeyAt(0))] + [SetAt(0)]
    else if n > 0 then Refilled(n - 1, 0) + [SetAt(n - 1)]
    else []
  }

  ghost predicate Filled(s: Shard, n: nat) {
    |s.m| == n && forall j: nat :: (KeyAt(j) in s.m <==> j < n) && (KeyAt(j) in s.queue <==> j < n)
  }

  lemma KeyAtDiffers(i: nat, j: nat)
    requires i != j
    ensures KeyAt(i) != KeyAt(j) && ShardOf(KeyAt(i)) == 0
  {
  }

  lemma FillOne(s: Shard, cap: nat, n: nat, r: Record)
    requires n < cap && Filled(s, n) && AllLive(s) && |s.queue| == n
    ensures var t := Put(s, cap, KeyAt(n), r);
            Filled(t, n + 1) && AllLive(t) && |t.queue| == n + 1
  {
    var k := KeyAt(n);
    var full := Shard(s.m[k := Entry(r, false)], s.queue + [k]);
    assert full.m.Keys == s.m.Keys + {k};
    assert Evict(full, cap) == full;
    forall j: nat
      ensures (KeyAt(j) in full.m <==> j < n + 1) && (KeyAt(j) in full.queue <==> j < n + 1)
    {
      if j != n {
        KeyAtDiffers(j, n);
      }
    }
  }

  /** Dropping the first key and setting it again adds a slot that no compaction removes. */
  lemma RefillOne(s: Shard, cap: nat, n: nat, r: Record)
    requires 0 < n <= cap && Filled(s, n) && AllLive(s)
    ensures var t := Put(Drop(s, KeyAt(0)), cap, KeyAt(0), r);
            Filled(t, n) && t.queue == s.queue + [KeyAt(0)] && AllLive(t)
  {
    var k, d := KeyAt(0), Drop(s, KeyAt(0));
    assert d.m.Keys == s.m.Keys - {k};
    var full := Shard(d.m[k := Entry(r, false)], s.queue + [k]);
    assert full.m.Keys == s.m.Keys;
    assert |full.m| == |full.m.Keys| == |s.m.Keys| == |s.m|;
    assert Evict(full, cap) == full;
    LiveIsAll(full.queue, full.m);
    forall j: nat
      ensures (KeyAt(j) in full.m <==> j < n) && (KeyAt(j) in full.queue <==> j < n)
    {
      assert KeyAt(j) in full.m <==> KeyAt(j) in s.m.Keys;
    }
  }

  predicate AllLive(s: Shard) {
    forall k :: k in s.queue ==> k in s.m
  }

  lemma {:induction false} LiveIsAll(q: seq<Key>, m: map<Key, Entry>)
    requires forall k :: k in q ==> k in m
    ensures Live(q, m) == q
  {
    if q != [] {
      LiveIsAll(q[1..], m);
      assert q == [q[0]] + q[1..];
    }
  }

  lemma KeyAtShard(j: nat)
    ensures ShardOf(KeyAt(j)) == 0
  {
    KeyAtDiffers(j, j + 1);
  }

  function RecordSet(lim: Limits): Record { RecordOf([0], [], 1, lim.stale, 0) }

  /** Shard 0 after one more set or del of one of its keys. */
  lemma AfterSet(lim: Limits, ops: seq<Op>, j: nat)
    ensures Run(lim, ops + [SetAt(j)])[0] == Put(Run(lim, ops)[0], lim.cap, KeyAt(j), RecordSet(lim))
    ensures Again(lim, ops + [SetAt(j)], 0)
         == Again(lim, ops, 0) + if KeyAt(j) !in Run(lim, ops)[0].m && KeyAt(j) in Run(lim, ops)[0].queue then 1 else 0
  {
    KeyAtShard(j);
    assert (ops + [SetAt(j)])[..|ops|] == ops;
    AgainNext(lim, ops, SetAt(j), 0);
  }

  lemma AfterDel(lim: Limits, ops: seq<Op>, j: nat)
    ensures Run(lim, ops + [DelOp(KeyAt(j))])[0] == Drop(Run(lim, ops)[0], KeyAt(j))
    ensures Again(lim, ops + [DelOp(KeyAt(j))], 0) == Again(lim, ops, 0)
  {
    KeyAtShard(j);
    assert (ops + [DelOp(KeyAt(j))])[..|ops|] == ops;
    AgainNext(lim, ops, DelOp(KeyAt(j)), 0);
  }

  lemma FillStep(lim: Limits, ops: seq<Op>, n: nat)
    requires var s := Run(lim, ops)[0]; n < lim.cap && Filled(s, n) && AllLive(s) && |s.queue| == n && Again(lim, ops, 0) == 0
    ensures var s := Run(lim, ops + [SetAt(n)])[0];
            Filled(s, n + 1) && AllLive(s) && |s.queue| == n + 1 && Again(lim, ops + [SetAt(n)], 0) == 0
  {
    AfterSet(lim, ops, n);
    FillOne(Run(lim, ops)[0], lim.cap, n, RecordSet(lim));
  }

  lemma {:induction false} FilledAfter(lim: Limits, n: nat)
    requires n <= lim.cap
    ensures var s := Run(lim, Refilled(n, 0))[0];
            Filled(s, n) && AllLive(s) && |s.queue| == n && Again(lim, Refilled(n, 0), 0) == 0
  {
    if n > 0 {
      FilledAfter(lim, n - 1);
      FillStep(lim, Refilled(n - 1, 0), n - 1);
    }
  }

  lemma {:induction false} RefilledAfter(lim: Limits, n: nat, r: nat)
    requires 0 < n <= lim.cap
    ensures var s := Run(lim, Refilled(n, r))[0];
            Filled(s, n) && AllLive(s) && |s.queue| == n + r && Again(lim, Refilled(n, r), 0) == r
    decreases r
  {
    if r == 0 {
      FilledAfter(lim, n);
    } else {
      RefilledAfter(lim, n, r - 1);
      var ops := Refilled(n, r - 1);
      AfterDel(lim, ops, 0);
      AfterSet(lim, ops + [DelOp(KeyAt(0))], 0);
      RefillOne(Run(lim, ops)[0], lim.cap, n, RecordSet(lim));
      FirstDropped(Run(lim, ops)[0], n);
    }
  }

  lemma FirstDropped(s: Shard, n: nat)
    requires Filled(s, n) && n > 0
    ensures KeyAt(0) !in Drop(s, KeyAt(0)).m && KeyAt(0) in Drop(s, KeyAt(0)).queue
  {
  }

  /** Twice the cap bounds the queue of a shard exactly as long as dropped keys are set again at most
      `cap` times: a single key that is deleted and set over and over makes it grow without end. */
  lemma QueueBoundedIff(lim: Limits, again: nat)
    requires lim.cap > 0
    ensures (forall ops :: Again(lim, ops, 0) <= again ==> |Run(lim, ops)[0].queue| <= 2 * lim.cap) <==> again <= lim.cap
  {
    if again <= lim.cap {
      forall ops | Again(lim, ops, 0) <= again
        ensures |Run(lim, ops)[0].queue| <= 2 * lim.cap
      {
        QueueBound(lim, ops, 0);
      }
    } else {
      RefilledAfter(lim, lim.cap, again);
      assert Again(lim, Refilled(lim.cap, again), 0) <= again;
    }
  }
}
