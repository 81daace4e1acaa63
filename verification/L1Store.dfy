/**
 The whole L1 layer: 256 shards, every run of set, get, del and flush.  The bounded cache
 refines an unbounded map of the latest accepted records; eviction only turns hits into
 misses.
 */
module L1Store {
  import opened Common
  import opened L1Cache

  const SHARDS := 256

  /** Per-shard entry cap (0 means unlimited) and serve-stale window. */
  datatype Limits = Limits(cap: nat, stale: Time)

  datatype Op =
    | SetOp(key: Key, raw: seq<Byte>, ttlOff: seq<nat>, ttl: Time, now: Time)
    | GetOp(key: Key, now: Time)
    | DelOp(key: Key)
    | FlushOp

  function ShardOf(k: Key): (i: nat)
    ensures i < SHARDS
  {
    k.h % SHARDS
  }

  /** What one operation does to the shard of its key. */
  function Apply(s: Shard, lim: Limits, op: Op): Shard
    requires !op.FlushOp?
  {
    match op
    case SetOp(k, raw, off, ttl, now) =>
      if Accepted(raw, ttl) then Put(s, lim.cap, k, RecordOf(raw, off, ttl, lim.stale, now)) else s
    case GetOp(k, now) => Touch(s, k, now)
    case DelOp(k) => Drop(s, k)
  }

  type Store = c: seq<Shard> | |c| == SHARDS witness seq(SHARDS, i => EMPTY)

  function EmptyStore(): Store { seq(SHARDS, i => EMPTY) }

  function Step(c: Store, lim: Limits, op: Op): Store {
    if op.FlushOp? then EmptyStore()
    else var i := ShardOf(op.key); c[i := Apply(c[i], lim, op)]
  }

  function Run(lim: Limits, ops: seq<Op>): Store {
    if ops == [] then EmptyStore() else Step(Run(lim, ops[..|ops| - 1]), lim, ops[|ops| - 1])
  }

  /** The answer of get. */
  function Answer(c: Store, k: Key, now: Time): Lookup {
    Verdict(Stored(c[ShardOf(k)], k), now)
  }

  // ----- the unbounded map -------------------------------------------------------------

  /** The latest accepted set of `k` since its last del or flush. */
  function Latest(lim: Limits, ops: seq<Op>, k: Key): Option<Record> {
    if ops == [] then None else
      var rest := ops[..|ops| - 1];
      match ops[|ops| - 1]
      case SetOp(k', raw, off, ttl, now) =>
        if k' == k && Accepted(raw, ttl) then Some(RecordOf(raw, off, ttl, lim.stale, now)) else Latest(lim, rest, k)
      case GetOp(_, _) => Latest(lim, rest, k)
      case DelOp(k') => if k' == k then None else Latest(lim, rest, k)
      case FlushOp => None
  }

  /** Every record held is the latest one of its key, in the shard of its key. */
  ghost predicate Faithful(s: Shard, i: nat, lim: Limits, ops: seq<Op>) {
    forall k :: k in s.m ==> ShardOf(k) == i && Latest(lim, ops, k) == Some(s.m[k].record)
  }

  ghost predicate StoreOk(c: Store, lim: Limits, ops: seq<Op>) {
    forall i :: 0 <= i < SHARDS ==> Bounded(c[i], lim.cap) && Faithful(c[i], i, lim, ops)
  }

  lemma ApplyBounded(s: Shard, lim: Limits, op: Op)
    requires !op.FlushOp? && Bounded(s, lim.cap)
    ensures Bounded(Apply(s, lim, op), lim.cap)
  {
    match op
    case SetOp(k, raw, off, ttl, now) =>
      if Accepted(raw, ttl) {
        PutKeeps(s, lim.cap, k, RecordOf(raw, off, ttl, lim.stale, now));
      }
    case GetOp(k, now) => TouchKeeps(s, lim.cap, k, now);
    case DelOp(k) => DropKeeps(s, lim.cap, k);
  }

  /** The operation's own shard stays faithful to the longer history. */
  lemma ApplyFaithful(s: Shard, lim: Limits, ops: seq<Op>, op: Op)
    requires !op.FlushOp? && Bounded(s, lim.cap) && Faithful(s, ShardOf(op.key), lim, ops)
    ensures Faithful(Apply(s, lim, op), ShardOf(op.key), lim, ops + [op])
  {
    assert (ops + [op])[..|ops|] == ops;
    match op
    case SetOp(k, raw, off, ttl, now) =>
      if Accepted(raw, ttl) {
        PutKeeps(s, lim.cap, k, RecordOf(raw, off, ttl, lim.stale, now));
      }
    case GetOp(k, now) => TouchKeeps(s, lim.cap, k, now);
    case DelOp(k) => DropKeeps(s, lim.cap, k);
  }

  /** Shards of other keys are untouched, and so is what they should hold. */
  lemma OthersFaithful(s: Shard, i: nat, lim: Limits, ops: seq<Op>, op: Op)
    requires !op.FlushOp? && i != ShardOf(op.key) && Faithful(s, i, lim, ops)
    ensures Faithful(s, i, lim, ops + [op])
  {
    assert (ops + [op])[..|ops|] == ops;
  }

  lemma StepKeeps(c: Store, lim: Limits, ops: seq<Op>, op: Op)
    requires StoreOk(c, lim, ops)
    ensures StoreOk(Step(c, lim, op), lim, ops + [op])
  {
    var c' := Step(c, lim, op);
    forall i | 0 <= i < SHARDS
      ensures Bounded(c'[i], lim.cap) && Faithful(c'[i], i, lim, ops + [op])
    {
      if !op.FlushOp? {
        if i == ShardOf(op.key) {
          ApplyBounded(c[i], lim, op);
          ApplyFaithful(c[i], lim, ops, op);
        } else {
          OthersFaithful(c[i], i, lim, ops, op);
        }
      }
    }
  }

  /** Every run keeps each shard within its cap, reachable by eviction, and faithful. */
  lemma {:induction false} RunOk(lim: Limits, ops: seq<Op>)
    ensures StoreOk(Run(lim, ops), lim, ops)
    decreases |ops|
  {
    if ops != [] {
      var n := |ops| - 1;
      RunOk(lim, ops[..n]);
      StepKeeps(Run(lim, ops[..n]), lim, ops[..n], ops[n]);
      assert ops == ops[..n] + [ops[n]];
    }
  }

  /** A hit answers exactly what the unbounded map answers; anything else is a miss. */
  lemma HitsAreLatest(lim: Limits, ops: seq<Op>, k: Key, now: Time)
    ensures var a := Answer(Run(lim, ops), k, now);
            a == Verdict(Latest(lim, ops, k), now) || a == Miss
  {
    RunOk(lim, ops);
    assert Faithful(Run(lim, ops)[ShardOf(k)], ShardOf(k), lim, ops);
  }

  /** A set without a lifetime or without octets changes nothing, and a set of octets with one is on
      record until the key is set again, deleted or flushed. */
  lemma SetTakenIff(lim: Limits, ops: seq<Op>, op: Op)
    requires op.SetOp?
    ensures op.ttl <= 0 || op.raw == [] ==> Run(lim, ops + [op]) == Run(lim, ops)
    ensures op.ttl > 0 && op.raw != [] ==>
              Latest(lim, ops + [op], op.key) == Some(Record(op.raw, op.ttlOff, op.now + op.ttl, op.now + op.ttl + lim.stale))
  {
    assert (ops + [op])[..|ops|] == ops;
  }

  /** After every run each shard holds at most `cap` entries. */
  lemma CapHolds(lim: Limits, ops: seq<Op>, i: nat)
    requires lim.cap > 0 && i < SHARDS
    ensures |Run(lim, ops)[i].m| <= lim.cap
  {
    RunOk(lim, ops);
    assert Bounded(Run(lim, ops)[i], lim.cap);
  }

  // ----- without a cap the cache is the unbounded map --------------------------------------

  predicate TimedBy(ops: seq<Op>, now: Time) {
    forall i :: 0 <= i < |ops| && (ops[i].SetOp? || ops[i].GetOp?) ==> ops[i].now <= now
  }

  /** A key that is absent has no record, or one past its stale window by `now`. */
  ghost predicate Complete(s: Shard, lim: Limits, ops: seq<Op>, k: Key, now: Time) {
    k !in s.m ==> Verdict(Latest(lim, ops, k), now) == Miss
  }

  lemma ApplyComplete(s: Shard, lim: Limits, ops: seq<Op>, op: Op, k: Key, now: Time)
    requires lim.cap == 0 && !op.FlushOp? && TimedBy([op], now)
    requires Faithful(s, ShardOf(op.key), lim, ops) && Complete(s, lim, ops, k, now)
    ensures Complete(Apply(s, lim, op), lim, ops + [op], k, now)
  {
    assert (ops + [op])[..|ops|] == ops;
    assert op == [op][0];
  }

  lemma {:induction false} UncappedComplete(lim: Limits, ops: seq<Op>, k: Key, now: Time)
    requires lim.cap == 0 && TimedBy(ops, now)
    ensures Complete(Run(lim, ops)[ShardOf(k)], lim, ops, k, now)
    decreases |ops|
  {
    if ops != [] {
      var n := |ops| - 1;
      var rest, op := ops[..n], ops[n];
      UncappedComplete(lim, rest, k, now);
      RunOk(lim, rest);
      assert ops == rest + [op];
      if op.FlushOp? {
      } else if ShardOf(op.key) == ShardOf(k) {
        assert TimedBy([op], now);
        ApplyComplete(Run(lim, rest)[ShardOf(k)], lim, rest, op, k, now);
      } else {
        assert Run(lim, ops)[ShardOf(k)] == Run(lim, rest)[ShardOf(k)];
      }
    }
  }

  /** Without a cap, and with a clock that does not go back, nothing is ever lost. */
  lemma UncappedIsExact(lim: Limits, ops: seq<Op>, k: Key, now: Time)
    requires lim.cap == 0 && TimedBy(ops, now)
    ensures Answer(Run(lim, ops), k, now) == Verdict(Latest(lim, ops, k), now)
  {
    RunOk(lim, ops);
    assert Faithful(Run(lim, ops)[ShardOf(k)], ShardOf(k), lim, ops);
    UncappedComplete(lim, ops, k, now);
  }

  // ----- the objects ------------------------------------------------------------------------

  class L1Shard {
    var m: map<Key, Entry>
    var queue: seq<Key>

    ghost function View(): Shard
      reads this
    {
      Shard(m, queue)
    }

    constructor ()
      ensures View() == EMPTY
    {
      m, queue := map[], [];
    }

    /** evictToCap. */
    method EvictToCap(cap: nat)
      modifies this
      ensures View() == Evict(old(View()), cap)
    {
      while |m| > cap && |queue| > 0
        invariant Evict(View(), cap) == Evict(old(View()), cap)
        decreases |Marked(m)| + |queue|
      {
        var k := queue[0];
        queue := queue[1..];
        if k in m {
          if m[k].referenced {
            UnmarkOne(m, k);
            m := m[k := Unmarked(m[k])];
            queue := queue + [k];
          } else {
            DropOne(m, k);
            m := m - {k};
          }
        }
      }
    }

    /** compact. */
    method CompactQueue()
      modifies this
      ensures View() == Compact(old(View()))
    {
      var keep: seq<Key> := [];
      for i := 0 to |queue|
        invariant m == old(m) && queue == old(queue)
        invariant Live(queue, m) == keep + Live(queue[i..], m)
      {
        LiveNext(queue, m, i, keep);
        if queue[i] in m {
          keep := keep + [queue[i]];
        }
      }
      assert queue[|queue|..] == [];
      queue := keep;
    }

    method PutRecord(cap: nat, k: Key, r: Record)
      modifies this
      ensures View() == Put(old(View()), cap, k, r)
    {
      if cap > 0 && k !in m {
        m := m[k := Entry(r, false)];
        queue := queue + [k];
        EvictToCap(cap);
        if |queue| > 2 * cap {
          CompactQueue();
        }
        return;
      }
      m := m[k := Entry(r, false)];
    }

    method GetRecord(k: Key, now: Time) returns (a: Lookup)
      modifies this
      ensures a == Verdict(Stored(old(View()), k), now)
      ensures View() == Touch(old(View()), k, now)
    {
      if k !in m {
        return Miss;
      }
      var e := m[k];
      m := m[k := e.(referenced := true)];
      if now < e.record.expires {
        return Fresh(e.record.raw, e.record.ttlOff, e.record.expires - now);
      }
      if now < e.record.staleUntil {
        return Stale(e.record.raw, e.record.ttlOff);
      }
      m := m - {k};
      assert m == old(m) - {k};
      return Miss;
    }
  }

  class L1 {
    const shards: seq<L1Shard>
    const lim: Limits

    ghost predicate Valid()
      reads this
    {
      && |shards| == SHARDS
      && forall i, j :: 0 <= i < j < SHARDS ==> shards[i] != shards[j]
    }

    ghost function View(): Store
      requires Valid()
      reads this, shards
    {
      seq(SHARDS, i requires 0 <= i < SHARDS reads this, shards => shards[i].View())
    }

    /** newL1. */
    constructor (lim: Limits)
      ensures Valid() && fresh(shards) && this.lim == lim
      ensures View() == EmptyStore()
    {
      var made: seq<L1Shard> := [];
      while |made| < SHARDS
        invariant |made| <= SHARDS && fresh(made)
        invariant forall i :: 0 <= i < |made| ==> made[i].View() == EMPTY
        invariant forall i, j :: 0 <= i < j < |made| ==> made[i] != made[j]
      {
        var s := new L1Shard();
        made := made + [s];
      }
      this.shards := made;
      this.lim := lim;
    }

    method Set(k: Key, raw: seq<Byte>, ttlOff: seq<nat>, ttl: Time, now: Time)
      requires Valid()
      modifies shards[ShardOf(k)]
      ensures View() == Step(old(View()), lim, SetOp(k, raw, ttlOff, ttl, now))
    {
      if ttl <= 0 || |raw| == 0 {
        return;
      }
      shards[ShardOf(k)].PutRecord(lim.cap, k, RecordOf(raw, ttlOff, ttl, lim.stale, now));
    }

    method Get(k: Key, now: Time) returns (a: Lookup)
      requires Valid()
      modifies shards[ShardOf(k)]
      ensures a == Answer(old(View()), k, now)
      ensures View() == Step(old(View()), lim, GetOp(k, now))
    {
      a := shards[ShardOf(k)].GetRecord(k, now);
    }

    method Del(k: Key)
      requires Valid()
      modifies shards[ShardOf(k)]
      ensures View() == Step(old(View()), lim, DelOp(k))
    {
      var s := shards[ShardOf(k)];
      s.m := s.m - {k};
    }

    method Flush()
      requires Valid()
      modifies shards
      ensures View() == EmptyStore()
    {
      for i := 0 to SHARDS
        invariant forall j :: 0 <= j < i ==> shards[j].View() == EMPTY
      {
        shards[i].m := map[];
        shards[i].queue := [];
      }
    }
  }
}
