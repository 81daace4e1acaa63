/**
 Sequential failover over a list of upstreams with one deadline for all
 (internal/dnsserver/handler.go, sequentialUpstreams).  Times are in nanoseconds.
 */
module Failover {
  import opened Common

  const SERVFAIL: nat := 2

  datatype Msg = Msg(rcode: nat, body: seq<Byte>)

  datatype Reply = Failed | NoResponse | Replied(msg: Msg)

  /** What an upstream does when asked at a time with a time limit, and how long it takes. */
  type Upstream = (int, Option<int>) -> (Reply, nat)

  /** One attempt: when it started, the limit it was given, and its reply. */
  datatype Try = Try(start: int, limit: Option<int>, reply: Reply)

  datatype Result = Error | Answer(upstream: nat, msg: Msg)

  predicate Expired(now: int, deadline: Option<int>) {
    deadline.Some? && deadline.value <= now
  }

  /** Integer division of a positive time by a number of upstreams: how often `n` fits into `a`. */
  function Quot(a: nat, n: nat): nat
    requires n > 0
  {
    if a < n then 0 else 1 + Quot(a - n, n)
  }

  /** The limit of the next attempt when `n` upstreams are left. */
  function Limit(n: nat, now: int, deadline: Option<int>): Option<int>
    requires n > 0
  {
    match deadline
    case None => None
    case Some(d) => if n > 1 && d > now && Quot(d - now, n) > 0 then Some(Quot(d - now, n)) else Some(d - now)
  }

  predicate Good(r: Reply) {
    r.Replied? && r.msg.rcode != SERVFAIL
  }

  predicate ServFailed(r: Reply) {
    r.Replied? && r.msg.rcode == SERVFAIL
  }

  /** The attempts that are made, up to the first good answer or the deadline. */
  function Tries(ups: seq<Upstream>, now: int, deadline: Option<int>): seq<Try> {
    if ups == [] || Expired(now, deadline) then []
    else
      var limit := Limit(|ups|, now, deadline);
      var (reply, used) := ups[0](now, limit);
      [Try(now, limit, reply)] + if Good(reply) then [] else Tries(ups[1..], now + used, deadline)
  }

  /** The first good answer, else the last SERVFAIL, else an error. */
  predicate Chosen(tries: seq<Try>, r: Result) {
    match r
    case Answer(i, m) =>
      && i < |tries| && tries[i].reply == Replied(m)
      && (forall j :: 0 <= j < |tries| && Good(tries[j].reply) ==> i <= j)
      && (ServFailed(tries[i].reply) ==>
            && (forall j :: 0 <= j < |tries| ==> !Good(tries[j].reply))
            && forall j :: i < j < |tries| ==> !ServFailed(tries[j].reply))
    case Error => forall j :: 0 <= j < |tries| ==> !tries[j].reply.Replied?
  }

  /** What the loop remembers of attempts none of which gave a good answer. */
  predicate Remembers(tries: seq<Try>, lastFail: Option<(nat, Msg)>) {
    && (forall j :: 0 <= j < |tries| ==> !Good(tries[j].reply))
    && Chosen(tries, ResultOf(lastFail))
  }

  function ResultOf(lastFail: Option<(nat, Msg)>): Result {
    match lastFail case None => Error case Some(f) => Answer(f.0, f.1)
  }

  lemma RemembersNext(tries: seq<Try>, lastFail: Option<(nat, Msg)>, t: Try)
    requires Remembers(tries, lastFail) && !Good(t.reply)
    ensures Remembers(tries + [t], if t.reply.Replied? then Some((|tries|, t.reply.msg)) else lastFail)
  {
    var tries2 := tries + [t];
    assert forall j :: 0 <= j < |tries| ==> tries2[j] == tries[j];
    assert tries2[|tries|] == t;
  }

  lemma GoodIsChosen(tries: seq<Try>, lastFail: Option<(nat, Msg)>, t: Try)
    requires Remembers(tries, lastFail) && Good(t.reply)
    ensures Chosen(tries + [t], Answer(|tries|, t.reply.msg))
  {
  }

  lemma TriesNext(ups: seq<Upstream>, i: nat, now: int, deadline: Option<int>)
    requires i < |ups| && !Expired(now, deadline)
    ensures var limit := Limit(|ups| - i, now, deadline);
            var (reply, used) := ups[i](now, limit);
            var rest := if Good(reply) then [] else Tries(ups[i + 1..], now + used, deadline);
            Tries(ups[i..], now, deadline) == [Try(now, limit, reply)] + rest
  {
    assert ups[i..][0] == ups[i] && ups[i..][1..] == ups[i + 1..];
  }

  /** `done` followed by what is still to be tried from `i` on is all of `all`. */
  predicate Remains(all: seq<Try>, done: seq<Try>, ups: seq<Upstream>, i: nat, now: int, deadline: Option<int>)
    requires i <= |ups|
  {
    all == done + Tries(ups[i..], now, deadline)
  }

  /** One attempt. */
  method Attempt(ups: seq<Upstream>, i: nat, now: int, deadline: Option<int>, ghost all: seq<Try>, ghost done: seq<Try>)
    returns (reply: Reply, used: nat, ghost t: Try)
    requires i < |ups| && !Expired(now, deadline) && Remains(all, done, ups, i, now, deadline)
    ensures t.reply == reply
    ensures Good(reply) ==> all == done + [t]
    ensures !Good(reply) ==> Remains(all, done + [t], ups, i + 1, now + used, deadline)
  {
    var limit := Limit(|ups| - i, now, deadline);
    var outcome := ups[i](now, limit);
    reply, used := outcome.0, outcome.1;
    t := Try(now, limit, reply);
    RemainsNext(all, done, ups, i, now, deadline);
  }

  /** What the next attempt leaves to be tried. */
  lemma RemainsNext(all: seq<Try>, done: seq<Try>, ups: seq<Upstream>, i: nat, now: int, deadline: Option<int>)
    requires i < |ups| && !Expired(now, deadline) && Remains(all, done, ups, i, now, deadline)
    ensures var limit := Limit(|ups| - i, now, deadline);
            var o := ups[i](now, limit);
            var t := Try(now, limit, o.0);
            && (Good(o.0) ==> all == done + [t])
            && (!Good(o.0) ==> Remains(all, done + [t], ups, i + 1, now + o.1, deadline))
  {
    var limit := Limit(|ups| - i, now, deadline);
    var o := ups[i](now, limit);
    var t, rest := Try(now, limit, o.0), if Good(o.0) then [] else Tries(ups[i + 1..], now + o.1, deadline);
    TriesNext(ups, i, now, deadline);
    assert Tries(ups[i..], now, deadline) == [t] + rest;
    Append(done, t, rest);
  }

  lemma Append(done: seq<Try>, t: Try, rest: seq<Try>)
    ensures done + ([t] + rest) == done + [t] + rest
    ensures rest == [] ==> done + ([t] + rest) == done + [t]
  {
  }

  /** No attempt got an answer other than SERVFAIL. */
  predicate ServFailsOnly(tries: seq<Try>) {
    forall j :: 0 <= j < |tries| && tries[j].reply.Replied? ==> tries[j].reply.msg.rcode == 2
  }

  /** So a SERVFAIL is handed on only when nobody asked had anything better, and any other answer is the
      first that is none. */
  lemma ChosenIsBest(tries: seq<Try>, r: Result)
    requires Chosen(tries, r) && r.Answer?
    ensures r.upstream < |tries| && tries[r.upstream].reply == Replied(r.msg)
    ensures ServFailsOnly(if r.msg.rcode == 2 then tries else tries[..r.upstream])
  {
    assert tries[r.upstream].reply == Replied(r.msg);
    if r.msg.rcode != 2 {
      assert Good(tries[r.upstream].reply);
    }
  }

  method Sequential(ups: seq<Upstream>, start: int, deadline: Option<int>) returns (r: Result)
    ensures Chosen(Tries(ups, start, deadline), r)
  {
    var now := start;
    var lastFail: Option<(nat, Msg)> := None;
    ghost var all, done: seq<Try> := Tries(ups, start, deadline), [];
    NothingDone(ups, start, deadline);
    var i := 0;
    while i < |ups| && !Expired(now, deadline)
      invariant 0 <= i <= |ups| && |done| == i
      invariant Remains(all, done, ups, i, now, deadline)
      invariant Remembers(done, lastFail)
    {
      var reply, used;
      ghost var t;
      reply, used, t := Attempt(ups, i, now, deadline, all, done);
      if Good(reply) {
        GoodIsChosen(done, lastFail, t);
        return Answer(i, reply.msg);
      }
      RemembersNext(done, lastFail, t);
      done := done + [t];
      if reply.Replied? {
        lastFail := Some((i, reply.msg));
      }
      now := now + used;
      i := i + 1;
    }
    AllDone(all, done, ups, i, now, deadline);
    return ResultOf(lastFail);
  }

  lemma NothingDone(ups: seq<Upstream>, now: int, deadline: Option<int>)
    ensures Remains(Tries(ups, now, deadline), [], ups, 0, now, deadline)
  {
    assert ups[0..] == ups;
  }

  lemma AllDone(all: seq<Try>, done: seq<Try>, ups: seq<Upstream>, i: nat, now: int, deadline: Option<int>)
    requires i <= |ups| && Remains(all, done, ups, i, now, deadline) && (i == |ups| || Expired(now, deadline))
    ensures all == done
  {
  }

  // ----- fairness ------------------------------------------------------------------------------

  /** No attempt outlasts its limit. */
  ghost predicate Punctual(ups: seq<Upstream>) {
    forall i, t, d :: 0 <= i < |ups| && d > 0 ==> Takes(ups[i], t, d) <= d
  }

  function Takes(up: Upstream, t: int, d: int): nat {
    up(t, Some(d)).1
  }

  lemma PunctualTail(ups: seq<Upstream>)
    requires ups != [] && Punctual(ups)
    ensures Punctual(ups[1..]) && forall t, d :: d > 0 ==> Takes(ups[0], t, d) <= d
  {
    forall i, t, d | 0 <= i < |ups[1..]| && d > 0
      ensures Takes(ups[1..][i], t, d) <= d
    {
      assert ups[1..][i] == ups[i + 1];
    }
  }

  lemma Scaled(n: int, x: int, y: int)
    requires n > 0 && x <= y
    ensures n * x <= n * y
  {
  }

  lemma {:induction false} Quotient(a: nat, n: nat, q: nat)
    requires n > 0
    ensures Quot(a, n) >= q <==> a >= n * q
  {
    if a < n {
      if q > 0 {
        Scaled(n, 1, q);
      }
    } else if q > 0 {
      Quotient(a - n, n, q - 1);
      assert n * (q - 1) == n * q - n;
    }
  }

  /** Whoever keeps to an equal share leaves the others at least that share each. */
  lemma ShareKept(left: nat, n: nat, used: nat)
    requires n > 1 && left >= n && used <= Quot(left, n)
    ensures left - used >= n - 1 && Quot(left - used, n - 1) >= Quot(left, n)
  {
    var q := Quot(left, n);
    Quotient(left, n, q);
    Leftover(left, n, q, used);
    Quotient(left - used, n - 1, q);
  }

  lemma Leftover(left: int, n: int, q: int, used: nat)
    requires n > 1 && left >= n * q && used <= q && q >= 1
    ensures left - used >= (n - 1) * q >= n - 1
  {
    Scaled(n - 1, 1, q);
  }

  predicate AtLeast(tries: seq<Try>, q: int) {
    forall i :: 0 <= i < |tries| ==> tries[i].limit.Some? && tries[i].limit.value >= q
  }

  predicate Ascending(tries: seq<Try>) {
    forall i, j :: 0 <= i <= j < |tries| ==>
      tries[i].limit.Some? && tries[j].limit.Some? && tries[i].limit.value <= tries[j].limit.value
  }

  predicate Answered(tries: seq<Try>) {
    tries != [] && Good(tries[|tries| - 1].reply)
  }

  /** With at least a nanosecond for each upstream: limits never decrease along the list, each
      is at least an equal share, and failover goes on until a good answer or the end. */
  lemma {:induction false} SharesNeverShrink(ups: seq<Upstream>, now: int, d: int)
    requires ups != [] && Punctual(ups) && d - now >= |ups|
    ensures var tries := Tries(ups, now, Some(d));
            && Ascending(tries) && AtLeast(tries, Quot(d - now, |ups|))
            && (|tries| == |ups| || Answered(tries))
    decreases |ups|
  {
    var n, left := |ups|, d - now;
    PunctualTail(ups);
    LimitIsShare(n, now, d);
    var limit := Limit(n, now, Some(d));
    var (reply, used) := ups[0](now, limit);
    assert used == Takes(ups[0], now, limit.value);
    var t := Try(now, limit, reply);
    if n > 1 && !Good(reply) {
      ShareKept(left, n, used);
      SharesNeverShrink(ups[1..], now + used, d);
      assert Tries(ups, now, Some(d)) == [t] + Tries(ups[1..], now + used, Some(d));
      Prepend(t, Tries(ups[1..], now + used, Some(d)), Quot(left - used, n - 1));
    } else {
      assert Tries(ups, now, Some(d)) == [t] + [];
    }
  }

  /** A limit is the whole part of an equal share of the time left, for `n` upstreams. */
  predicate EqualShare(t: Try, n: nat, d: int) {
    t.limit.Some? && t.limit.value * n <= d - t.start < (t.limit.value + 1) * n
  }

  /** Each attempt is given exactly an equal share of what is left for it and those after it, so none
      can outlast the deadline. */
  lemma {:induction false} EqualShares(ups: seq<Upstream>, now: int, d: int, i: nat)
    requires ups != [] && Punctual(ups) && d - now >= |ups| && i < |Tries(ups, now, Some(d))|
    ensures i < |ups| && EqualShare(Tries(ups, now, Some(d))[i], |ups| - i, d)
    decreases |ups|
  {
    var n, left := |ups|, d - now;
    PunctualTail(ups);
    LimitIsShare(n, now, d);
    var limit := Limit(n, now, Some(d));
    var (reply, used) := ups[0](now, limit);
    assert used == Takes(ups[0], now, limit.value);
    Quotient(left, n, limit.value);
    Quotient(left, n, limit.value + 1);
    if i > 0 {
      assert Tries(ups, now, Some(d))[i] == Tries(ups[1..], now + used, Some(d))[i - 1];
      if n > 1 {
        ShareKept(left, n, used);
        EqualShares(ups[1..], now + used, d, i - 1);
      }
    }
  }

  /** Without a deadline no attempt is limited, and failover goes on to a good answer or the end. */
  lemma {:induction false} NoDeadline(ups: seq<Upstream>, now: int)
    requires ups != []
    ensures var tries := Tries(ups, now, None);
            (|tries| == |ups| || Answered(tries)) && forall i :: 0 <= i < |tries| ==> tries[i].limit == None
  {
    var (reply, used) := ups[0](now, None);
    if !Good(reply) && |ups| > 1 {
      NoDeadline(ups[1..], now + used);
    }
  }

  lemma LimitIsShare(n: nat, now: int, d: int)
    requires n > 0 && d - now >= n
    ensures Limit(n, now, Some(d)) == Some(Quot(d - now, n)) && Quot(d - now, n) >= 1
  {
    if n == 1 {
      Quotient(d - now, 1, d - now);
      Quotient(d - now, 1, d - now + 1);
    }
  }

  lemma Prepend(first: Try, rest: seq<Try>, q: int)
    requires Ascending(rest) && AtLeast(rest, q) && first.limit.Some? && first.limit.value <= q
    ensures Ascending([first] + rest) && AtLeast([first] + rest, first.limit.value)
    ensures Answered(rest) ==> Answered([first] + rest)
  {
  }

  // ----- the nanosecond each is needed -----------------------------------------------------------

  /** Fails after using up its whole limit. */
  const Slow: Upstream := (t: int, limit: Option<int>) => (Failed, if limit.Some? && limit.value > 0 then limit.value else 0)

  ghost predicate NobodyStarved(n: nat, now: int, d: int) {
    forall ups: seq<Upstream> :: |ups| == n && Punctual(ups) ==> GoesOn(ups, now, d)
  }

  predicate GoesOn(ups: seq<Upstream>, now: int, d: int) {
    var tries := Tries(ups, now, Some(d));
    |tries| == |ups| || Answered(tries)
  }

  lemma SlowStarves(n: nat, now: int, d: int)
    requires n > 0 && d - now < n
    ensures !NobodyStarved(n, now, d)
  {
    var ups := seq(n, i => Slow);
    assert Punctual(ups);
    var left := d - now;
    if left > 0 {
      assert Limit(n, now, Some(d)) == Some(left);
      assert Tries(ups[1..], now + left, Some(d)) == [];
    }
    assert !GoesOn(ups, now, d);
  }

  /** No list of punctual upstreams is cut short by the deadline exactly when there is a
      nanosecond for each. */
  lemma NobodyStarvedIff(n: nat, now: int, d: int)
    requires n > 0
    ensures NobodyStarved(n, now, d) <==> d - now >= n
  {
    if d - now >= n {
      forall ups: seq<Upstream> | |ups| == n && Punctual(ups)
        ensures GoesOn(ups, now, d)
      {
        SharesNeverShrink(ups, now, d);
      }
    } else {
      SlowStarves(n, now, d);
    }
  }
}
