/**
 What reading a key buys it in a capped shard: the second chance of the CLOCK rule.  A key with one
 queue slot that is read between any two insertions of new keys is never lost.
 */
module L1Chance {
  import opened Common
  import opened L1Cache
  import opened L1Store

  // ----- one pass of eviction ------------------------------------------------------------

  /** `k` has its only queue slot at place `i`. */
  predicate SlotAt(q: seq<Key>, k: Key, i: nat) {
    i < |q| && q[i] == k && forall j :: 0 <= j < |q| && q[j] == k ==> j == i
  }

  predicate OneSlot(q: seq<Key>, k: Key) {
    exists i :: 0 <= i < |q| && SlotAt(q, k, i)
  }

  /** `n` at place `j` would be evicted before `k` at its only place `i`. */
  predicate Spared(s: Shard, k: Key, i: nat, n: Key, j: nat) {
    && k in s.m && n in s.m && k != n && SlotAt(s.queue, k, i)
    && j < |s.queue| && s.queue[j] == n && !s.m[n].referenced
    && (s.m[k].referenced || j < i)
  }

  /** The first slot dropped, or requeued without its mark, a spared key is still spared. */
  lemma SparedNext(s: Shard, k: Key, i: nat, n: Key, j: nat)
    requires Spared(s, k, i, n, j) && s.queue != []
    ensures var x, rest := s.queue[0], s.queue[1..];
            && (x !in s.m ==> 0 < i && 0 < j && Spared(Shard(s.m, rest), k, i - 1, n, j - 1))
            && (x in s.m && s.m[x].referenced ==>
                  0 < j && Spared(Shard(s.m[x := Unmarked(s.m[x])], rest + [x]), k, if x == k then |rest| else i - 1, n, j - 1))
            && (x in s.m && !s.m[x].referenced ==> x != k && 0 < i && SlotAt(rest, k, i - 1))
  {
    var x, rest := s.queue[0], s.queue[1..];
    assert forall p :: 0 <= p < |rest| ==> rest[p] == s.queue[p + 1];
  }

  /** One entry over the cap, eviction does not reach a spared key. */
  lemma {:induction false} EvictSpares(s: Shard, cap: nat, k: Key, i: nat, n: Key, j: nat)
    requires |s.m| <= cap + 1 && Spared(s, k, i, n, j)
    ensures var t := Evict(s, cap);
            k in t.m && t.m[k].record == s.m[k].record && OneSlot(t.queue, k)
    decreases |Marked(s.m)| + |s.queue|
  {
    if |s.m| > cap {
      var x, rest := s.queue[0], s.queue[1..];
      SparedNext(s, k, i, n, j);
      if x !in s.m {
        EvictSpares(Shard(s.m, rest), cap, k, i - 1, n, j - 1);
      } else if s.m[x].referenced {
        UnmarkOne(s.m, x);
        EvictSpares(Shard(s.m[x := Unmarked(s.m[x])], rest + [x]), cap, k, if x == k then |rest| else i - 1, n, j - 1);
      } else {
        DropOne(s.m, x);
      }
    }
  }

  lemma {:induction false} LiveKeepsSlot(q: seq<Key>, m: map<Key, Entry>, k: Key)
    requires k in m && OneSlot(q, k)
    ensures OneSlot(Live(q, m), k)
  {
    var i :| 0 <= i < |q| && SlotAt(q, k, i);
    if i == 0 {
      LiveHas(q[1..], m, k);
      assert forall p :: 0 <= p < |q[1..]| ==> q[1..][p] == q[p + 1];
      assert SlotAt(Live(q, m), k, 0);
    } else {
      assert forall p :: 0 <= p < |q[1..]| ==> q[1..][p] == q[p + 1];
      assert SlotAt(q[1..], k, i - 1);
      LiveKeepsSlot(q[1..], m, k);
      var p :| 0 <= p < |Live(q[1..], m)| && SlotAt(Live(q[1..], m), k, p);
      assert SlotAt(Live(q, m), k, if q[0] in m then p + 1 else p);
    }
  }

  /** Inserting another key leaves a read key alone: the new key itself would go first. */
  lemma PutSparesRead(s: Shard, cap: nat, k: Key, n: Key, r: Record)
    requires Bounded(s, cap) && k != n && k in s.m && OneSlot(s.queue, k)
    requires n in s.m || cap == 0 || s.m[k].referenced
    ensures var t := Put(s, cap, n, r);
            k in t.m && t.m[k].record == s.m[k].record && OneSlot(t.queue, k)
  {
    if cap > 0 && n !in s.m {
      var full := Shard(s.m[n := Entry(r, false)], s.queue + [n]);
      var i :| 0 <= i < |s.queue| && SlotAt(s.queue, k, i);
      assert full.m.Keys == s.m.Keys + {n};
      assert Spared(full, k, i, n, |s.queue|);
      EvictSpares(full, cap, k, i, n, |s.queue|);
      var t := Evict(full, cap);
      LiveKeepsSlot(t.queue, t.m, k);
    }
  }

  // ----- over runs -----------------------------------------------------------------------------

  function ShardFor(lim: Limits, ops: seq<Op>, k: Key): Shard { Run(lim, ops)[ShardOf(k)] }

  predicate Held(lim: Limits, ops: seq<Op>, k: Key) {
    k in ShardFor(lim, ops, k).m && OneSlot(ShardFor(lim, ops, k).queue, k)
  }

  lemma NextShard(lim: Limits, ops: seq<Op>, op: Op, k: Key)
    ensures ShardFor(lim, ops + [op], k)
         == if op.FlushOp? then EMPTY
            else if ShardOf(op.key) == ShardOf(k) then Apply(ShardFor(lim, ops, k), lim, op) else ShardFor(lim, ops, k)
  {
    assert (ops + [op])[..|ops|] == ops;
  }

  predicate Hits(lim: Limits, ops: seq<Op>, op: Op, k: Key) {
    op.GetOp? && op.key == k && !Answer(Run(lim, ops), k, op.now).Miss?
  }

  predicate Puts(op: Op, k: Key) {
    op.SetOp? && op.key == k && Accepted(op.raw, op.ttl)
  }

  /** The operation puts a key into the shard of `k` that was not there. */
  predicate Inserts(lim: Limits, ops: seq<Op>, op: Op, k: Key) {
    && op.SetOp? && Accepted(op.raw, op.ttl) && op.key != k && ShardOf(op.key) == ShardOf(k)
    && op.key !in ShardFor(lim, ops, k).m
  }

  /** A get of `k` hits, and nothing deletes it. */
  predicate Leaves(lim: Limits, ops: seq<Op>, op: Op, k: Key) {
    && !op.FlushOp? && op != DelOp(k)
    && (op.GetOp? && op.key == k ==> Hits(lim, ops, op, k))
  }

  /** Whether `k` has been read since it was last set and since the last insertion. */
  predicate ReadAfter(lim: Limits, ops: seq<Op>, op: Op, k: Key, read: bool) {
    Hits(lim, ops, op, k) || (read && !Puts(op, k) && !Inserts(lim, ops, op, k))
  }

  /** From a history in which `k` was last read or not, every insertion comes after a read. */
  predicate ReadInTime(lim: Limits, ops: seq<Op>, more: seq<Op>, k: Key, read: bool)
    decreases |more|
  {
    more != [] ==>
      && Leaves(lim, ops, more[0], k)
      && (lim.cap > 0 && Inserts(lim, ops, more[0], k) ==> read)
      && ReadInTime(lim, ops + [more[0]], more[1..], k, ReadAfter(lim, ops, more[0], k, read))
  }

  /** A get that hits marks its key and changes nothing else. */
  lemma GetMarks(lim: Limits, ops: seq<Op>, k: Key, now: Time)
    requires !Answer(Run(lim, ops), k, now).Miss?
    ensures var s, t := ShardFor(lim, ops, k), ShardFor(lim, ops + [GetOp(k, now)], k);
            && t.queue == s.queue && t.m.Keys == s.m.Keys
            && k in t.m && t.m[k] == Entry(s.m[k].record, true)
            && forall x :: x in s.m && x != k ==> t.m[x] == s.m[x]
  {
    NextShard(lim, ops, GetOp(k, now), k);
    var s := ShardFor(lim, ops, k);
    assert s.m[k := s.m[k].(referenced := true)].Keys == s.m.Keys;
  }

  /** A get that misses takes an entry past its stale window out of the shard, and changes nothing
      else. */
  lemma GetDrops(lim: Limits, ops: seq<Op>, k: Key, now: Time)
    requires Answer(Run(lim, ops), k, now).Miss?
    ensures var s, t := ShardFor(lim, ops, k), ShardFor(lim, ops + [GetOp(k, now)], k);
            k !in t.m && t.queue == s.queue && forall x :: x != k ==> (x in t.m <==> x in s.m) && (x in t.m ==> t.m[x] == s.m[x])
  {
    NextShard(lim, ops, GetOp(k, now), k);
  }

  predicate IsMarked(lim: Limits, ops: seq<Op>, k: Key) {
    k in ShardFor(lim, ops, k).m && ShardFor(lim, ops, k).m[k].referenced
  }

  lemma StepStays(lim: Limits, ops: seq<Op>, op: Op, k: Key, read: bool)
    requires Held(lim, ops, k) && (read ==> IsMarked(lim, ops, k)) && Leaves(lim, ops, op, k)
    requires lim.cap > 0 && Inserts(lim, ops, op, k) ==> read
    ensures Held(lim, ops + [op], k)
    ensures ReadAfter(lim, ops, op, k, read) ==> IsMarked(lim, ops + [op], k)
  {
    var s := ShardFor(lim, ops, k);
    RunOk(lim, ops);
    assert Bounded(s, lim.cap);
    NextShard(lim, ops, op, k);
    if ShardOf(op.key) == ShardOf(k) {
      match op
      case SetOp(n, raw, off, ttl, now) =>
        if Accepted(raw, ttl) && n != k {
          PutSparesRead(s, lim.cap, k, n, RecordOf(raw, off, ttl, lim.stale, now));
        }
      case GetOp(n, now) =>
      case DelOp(n) =>
    }
  }

  lemma {:induction false} HotStays(lim: Limits, ops: seq<Op>, more: seq<Op>, k: Key, read: bool)
    requires Held(lim, ops, k) && (read ==> IsMarked(lim, ops, k)) && ReadInTime(lim, ops, more, k, read)
    ensures Held(lim, ops + more, k)
    decreases |more|
  {
    if more == [] {
      assert ops + more == ops;
    } else {
      StepStays(lim, ops, more[0], k, read);
      HotStays(lim, ops + [more[0]], more[1..], k, ReadAfter(lim, ops, more[0], k, read));
      assert ops + [more[0]] + more[1..] == ops + more;
    }
  }

  /** However full its shard, a key that is read before every insertion of a new key there is never
      lost to eviction: it goes on answering what the unbounded map answers. */
  lemma ReadKeyStays(lim: Limits, ops: seq<Op>, more: seq<Op>, k: Key, now: Time)
    requires Held(lim, ops, k) && ReadInTime(lim, ops, more, k, false)
    ensures Answer(Run(lim, ops + more), k, now) == Verdict(Latest(lim, ops + more, k), now)
  {
    HotStays(lim, ops, more, k, false);
    RunOk(lim, ops + more);
    assert Faithful(Run(lim, ops + more)[ShardOf(k)], ShardOf(k), lim, ops + more);
  }

  // ----- how a key comes to have one slot ----------------------------------------------------------

  lemma {:induction false} EvictQueue(s: Shard, cap: nat, k: Key)
    requires k !in s.queue
    ensures k !in Evict(s, cap).queue
    decreases |Marked(s.m)| + |s.queue|
  {
    if |s.m| > cap && s.queue != [] {
      var x, rest := s.queue[0], s.queue[1..];
      if x !in s.m {
        EvictQueue(Shard(s.m, rest), cap, k);
      } else if s.m[x].referenced {
        UnmarkOne(s.m, x);
        EvictQueue(Shard(s.m[x := Unmarked(s.m[x])], rest + [x]), cap, k);
      } else {
        DropOne(s.m, x);
        EvictQueue(Shard(s.m - {x}, rest), cap, k);
      }
    }
  }

  lemma PutQueue(s: Shard, cap: nat, n: Key, r: Record, k: Key)
    requires k !in s.queue && n != k
    ensures k !in Put(s, cap, n, r).queue
  {
    if cap > 0 && n !in s.m {
      var t := Evict(Shard(s.m[n := Entry(r, false)], s.queue + [n]), cap);
      EvictQueue(Shard(s.m[n := Entry(r, false)], s.queue + [n]), cap, k);
      LiveHas(t.queue, t.m, k);
    }
  }

  /** A key that was never set has no slot. */
  lemma {:induction false} NeverSet(lim: Limits, ops: seq<Op>, k: Key)
    requires forall i :: 0 <= i < |ops| ==> !Puts(ops[i], k)
    ensures k !in ShardFor(lim, ops, k).queue && k !in ShardFor(lim, ops, k).m
    decreases |ops|
  {
    if ops != [] {
      var n := |ops| - 1;
      var front, op := ops[..n], ops[n];
      assert ops == front + [op];
      NeverSet(lim, front, k);
      NextShard(lim, front, op, k);
      RunOk(lim, front);
      assert Bounded(ShardFor(lim, front, k), lim.cap);
      if op.SetOp? && Puts(op, op.key) && ShardOf(op.key) == ShardOf(k) {
        var r := RecordOf(op.raw, op.ttlOff, op.ttl, lim.stale, op.now);
        PutQueue(ShardFor(lim, front, k), lim.cap, op.key, r, k);
        PutKeeps(ShardFor(lim, front, k), lim.cap, op.key, r);
      }
    }
  }

  /** Eviction that leaves a key with one slot in the shard leaves it that slot. */
  lemma {:induction false} EvictOneSlot(s: Shard, cap: nat, k: Key, i: nat)
    requires SlotAt(s.queue, k, i) && k in s.m && k in Evict(s, cap).m
    ensures OneSlot(Evict(s, cap).queue, k)
    decreases |Marked(s.m)| + |s.queue|
  {
    if |s.m| > cap {
      var x, rest := s.queue[0], s.queue[1..];
      assert forall p :: 0 <= p < |rest| ==> rest[p] == s.queue[p + 1];
      if x !in s.m {
        EvictOneSlot(Shard(s.m, rest), cap, k, i - 1);
      } else if s.m[x].referenced {
        UnmarkOne(s.m, x);
        EvictOneSlot(Shard(s.m[x := Unmarked(s.m[x])], rest + [x]), cap, k, if x == k then |rest| else i - 1);
      } else {
        DropOne(s.m, x);
        if x == k {
          EvictOnlyRemoves(Shard(s.m - {x}, rest), cap, k);
        } else {
          EvictOneSlot(Shard(s.m - {x}, rest), cap, k, i - 1);
        }
      }
    }
  }

  lemma {:induction false} EvictOnlyRemoves(s: Shard, cap: nat, k: Key)
    requires k !in s.m
    ensures k !in Evict(s, cap).m
    decreases |Marked(s.m)| + |s.queue|
  {
    if |s.m| > cap && s.queue != [] {
      var x, rest := s.queue[0], s.queue[1..];
      if x !in s.m {
        EvictOnlyRemoves(Shard(s.m, rest), cap, k);
      } else if s.m[x].referenced {
        UnmarkOne(s.m, x);
        EvictOnlyRemoves(Shard(s.m[x := Unmarked(s.m[x])], rest + [x]), cap, k);
      } else {
        DropOne(s.m, x);
        EvictOnlyRemoves(Shard(s.m - {x}, rest), cap, k);
      }
    }
  }

  /** So the first set of a key, unless the key is evicted at once, leaves it one slot. */
  lemma FirstSetHeld(lim: Limits, ops: seq<Op>, op: Op, k: Key)
    requires lim.cap > 0 && Puts(op, k) && forall i :: 0 <= i < |ops| ==> !Puts(ops[i], k)
    ensures Held(lim, ops + [op], k) <==> k in ShardFor(lim, ops + [op], k).m
  {
    var s, r := ShardFor(lim, ops, k), RecordOf(op.raw, op.ttlOff, op.ttl, lim.stale, op.now);
    NeverSet(lim, ops, k);
    NextShard(lim, ops, op, k);
    var full := Shard(s.m[k := Entry(r, false)], s.queue + [k]);
    assert SlotAt(full.queue, k, |s.queue|);
    if k in Evict(full, lim.cap).m {
      EvictOneSlot(full, lim.cap, k, |s.queue|);
      var t := Evict(full, lim.cap);
      LiveKeepsSlot(t.queue, t.m, k);
    }
  }

  // ----- one read decides ----------------------------------------------------------------------------

  /** The key next to go from a full shard goes at the next insertion; read before, it stays. */
  lemma ReadDecides(lim: Limits, ops: seq<Op>, k: Key, now: Time, put: Op)
    requires lim.cap > 0 && Inserts(lim, ops, put, k) && !Answer(Run(lim, ops), k, now).Miss?
    requires var s := ShardFor(lim, ops, k);
             |s.m| == lim.cap && Distinct(s.queue + [put.key]) && s.queue != [] && s.queue[0] == k && !s.m[k].referenced
    ensures k !in ShardFor(lim, ops + [put], k).m
    ensures k in ShardFor(lim, ops + [GetOp(k, now)] + [put], k).m
  {
    var s, get, r := ShardFor(lim, ops, k), GetOp(k, now), RecordOf(put.raw, put.ttlOff, put.ttl, lim.stale, put.now);
    var full := Shard(s.m[put.key := Entry(r, false)], s.queue + [put.key]);
    assert full.m.Keys == s.m.Keys + {put.key};
    NextShard(lim, ops, put, k);
    EvictsFirstUnmarked(full, lim.cap, 0);
    GetMarks(lim, ops, k, now);
    assert forall j :: 0 <= j < |s.queue| ==> s.queue[j] == (s.queue + [put.key])[j];
    assert SlotAt(s.queue, k, 0);
    StepStays(lim, ops + [get], put, k, true);
  }

  /** Setting a key, new or not, takes its mark away: it has to be read again to be spared. */
  lemma SetUnmarks(lim: Limits, ops: seq<Op>, op: Op, k: Key)
    requires Puts(op, k) && k in ShardFor(lim, ops + [op], k).m
    ensures ShardFor(lim, ops + [op], k).m[k] == Entry(RecordOf(op.raw, op.ttlOff, op.ttl, lim.stale, op.now), false)
    ensures k in ShardFor(lim, ops, k).m ==> ShardFor(lim, ops + [op], k).queue == ShardFor(lim, ops, k).queue
  {
    var s, r := ShardFor(lim, ops, k), RecordOf(op.raw, op.ttlOff, op.ttl, lim.stale, op.now);
    NextShard(lim, ops, op, k);
    if lim.cap > 0 && k !in s.m {
      EvictNeverMarks(Shard(s.m[k := Entry(r, false)], s.queue + [k]), lim.cap, k);
    }
  }

  lemma {:induction false} EvictNeverMarks(s: Shard, cap: nat, k: Key)
    requires k in s.m && !s.m[k].referenced
    ensures k in Evict(s, cap).m ==> Evict(s, cap).m[k] == s.m[k]
    decreases |Marked(s.m)| + |s.queue|
  {
    if |s.m| > cap && s.queue != [] {
      var x, rest := s.queue[0], s.queue[1..];
      if x !in s.m {
        EvictNeverMarks(Shard(s.m, rest), cap, k);
      } else if s.m[x].referenced {
        UnmarkOne(s.m, x);
        EvictNeverMarks(Shard(s.m[x := Unmarked(s.m[x])], rest + [x]), cap, k);
      } else {
        DropOne(s.m, x);
        if x == k {
          EvictOnlyRemoves(Shard(s.m - {x}, rest), cap, k);
        } else {
          EvictNeverMarks(Shard(s.m - {x}, rest), cap, k);
        }
      }
    }
  }

  // ----- two slots lose the chance ---------------------------------------------------------------------

  /** In a shard for one entry: a key is set, deleted, set again and read; the next insertion evicts
      it, because the pass meets its second slot with the mark already cleared. */
  lemma TwoSlotsLose(stale: Time, k: Key, n: Key, raw: seq<Byte>, ttl: Time, now: Time)
    requires k != n && ShardOf(k) == ShardOf(n) && Accepted(raw, ttl)
    ensures var lim := Limits(1, stale);
            var put, other := SetOp(k, raw, [], ttl, now), SetOp(n, raw, [], ttl, now);
            var ops := [put] + [DelOp(k)] + [put] + [GetOp(k, now)];
            && Hits(lim, [put] + [DelOp(k)] + [put], GetOp(k, now), k)
            && ShardFor(lim, ops, k).queue == [k, k] && IsMarked(lim, ops, k)
            && k !in ShardFor(lim, ops + [other], k).m
  {
    var lim, r := Limits(1, stale), RecordOf(raw, [], ttl, stale, now);
    var put, other, get := SetOp(k, raw, [], ttl, now), SetOp(n, raw, [], ttl, now), GetOp(k, now);
    var ops := [put] + [DelOp(k)] + [put];
    SetAgain(lim, k, put, r);
    GetMarks(lim, ops, k, now);
    MarkedTwice(ShardFor(lim, ops + [get], k), k, r);
    NextShard(lim, ops + [get], other, k);
    PassTwice(k, n, r);
  }

  lemma MarkedTwice(s: Shard, k: Key, r: Record)
    requires s.m.Keys == {k} && s.m[k] == Entry(r, true) && s.queue == [k, k]
    ensures s == Shard(map[k := Entry(r, true)], [k, k])
  {
  }

  lemma SetAgain(lim: Limits, k: Key, put: Op, r: Record)
    requires lim.cap == 1 && Puts(put, k) && r == RecordOf(put.raw, put.ttlOff, put.ttl, lim.stale, put.now)
    ensures ShardFor(lim, [put] + [DelOp(k)] + [put], k) == Shard(map[k := Entry(r, false)], [k, k])
  {
    assert Run(lim, []) == EmptyStore();
    assert [] + [put] == [put] && [] + [k] == [k] && [k] + [k] == [k, k];
    NextShard(lim, [], put, k);
    FirstPut(k, r, []);
    NextShard(lim, [put], DelOp(k), k);
    assert map[k := Entry(r, false)] - {k} == map[];
    NextShard(lim, [put] + [DelOp(k)], put, k);
    FirstPut(k, r, [k]);
  }

  lemma FirstPut(k: Key, r: Record, q: seq<Key>)
    requires |q| < 2
    ensures Put(Shard(map[], q), 1, k, r) == Shard(map[k := Entry(r, false)], q + [k])
  {
    var m: map<Key, Entry> := map[k := Entry(r, false)];
    assert m.Keys == {k};
    assert Evict(Shard(m, q + [k]), 1) == Shard(m, q + [k]);
  }

  lemma PassTwice(k: Key, n: Key, r: Record)
    requires k != n
    ensures k !in Put(Shard(map[k := Entry(r, true)], [k, k]), 1, n, r).m
  {
    var m: map<Key, Entry> := map[k := Entry(r, true)][n := Entry(r, false)];
    var full := Shard(m, [k, k] + [n]);
    assert m.Keys == {k, n};
    UnmarkOne(m, k);
    var once := Shard(m[k := Unmarked(m[k])], [k, n] + [k]);
    assert full.queue[1..] == [k, n];
    assert Evict(full, 1) == Evict(once, 1);
    DropOne(once.m, k);
    assert once.queue[0] == k;
    assert |once.m - {k}| == 1;
    assert Evict(once, 1) == Shard(once.m - {k}, once.queue[1..]);
  }
}
