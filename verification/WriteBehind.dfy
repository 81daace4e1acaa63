/**
 One shard of the write-behind queue of internal/cache/cache.go as a state machine: any
 interleaving of enqueueL2 callers, the writer goroutine, its ticker, and Close.
 */
module WriteBehind {
  import opened Common

  const BATCH := 256

  datatype Write = Write(key: string, val: seq<Byte>, ttl: int)

  datatype Writer = Running | Draining | Exited

  /** `pending` are callers of enqueueL2 that have read wclosed as false and not yet sent;
      `accepted` is the history of successful sends, `direct` of synchronous SETs. */
  datatype State = State(
    capacity: nat,
    chan: seq<Write>,
    batch: seq<Write>,
    flushed: seq<seq<Write>>,
    direct: seq<Write>,
    pending: multiset<Write>,
    closed: bool,
    done: bool,
    writer: Writer,
    accepted: seq<Write>,
    acceptedAtExit: nat)

  function Init(capacity: nat): State {
    State(capacity, [], [], [], [], multiset{}, false, false, Running, [], 0)
  }

  datatype Action =
    | CheckClosed(w: Write)   // enqueueL2 reads wclosed
    | Send(w: Write)          // its non-blocking send, or the fallback
    | Receive                 // the writer takes one write, flushing a full batch
    | Tick                    // the ticker case
    | SeeDone                 // the writer sees wdone and starts to drain
    | DrainEmpty              // the drain loop finds the channel empty: flush and return
    | CloseSwap               // the compare-and-swap of Close
    | CloseSignal             // close(wdone)

  predicate Enabled(s: State, a: Action) {
    match a
    case CheckClosed(_) => true
    case Send(w) => w in s.pending
    case Receive => s.writer != Exited && s.chan != []
    case Tick => s.writer == Running
    case SeeDone => s.writer == Running && s.done
    case DrainEmpty => s.writer == Draining && s.chan == []
    case CloseSwap => !s.closed
    case CloseSignal => s.closed && !s.done
  }

  /** flush: commit the batch in one round trip, unless it is empty. */
  function Flush(s: State): State {
    if s.batch == [] then s else s.(flushed := s.flushed + [s.batch], batch := [])
  }

  function Take(s: State): State
    requires s.chan != []
  {
    s.(chan := s.chan[1..], batch := s.batch + [s.chan[0]])
  }

  function Next(s: State, a: Action): State
    requires Enabled(s, a)
  {
    match a
    case CheckClosed(w) =>
      if s.closed then s.(direct := s.direct + [w]) else s.(pending := s.pending + multiset{w})
    case Send(w) =>
      var s' := s.(pending := s.pending - multiset{w});
      if |s.chan| < s.capacity then s'.(chan := s.chan + [w], accepted := s.accepted + [w])
      else s'.(direct := s.direct + [w])
    case Receive =>
      var s' := Take(s);
      if |s'.batch| >= BATCH then Flush(s') else s'
    case Tick => Flush(s)
    case SeeDone => s.(writer := Draining)
    case DrainEmpty => Flush(s).(writer := Exited, acceptedAtExit := |s.accepted|)
    case CloseSwap => s.(closed := true)
    case CloseSignal => s.(done := true)
  }

  function Concat(batches: seq<seq<Write>>): seq<Write> {
    if batches == [] then [] else Concat(batches[..|batches| - 1]) + batches[|batches| - 1]
  }

  // ----- what every interleaving keeps -----------------------------------------------------

  /** Nothing accepted is lost, repeated or reordered: it is committed, or in the current
      batch, or still in the channel, in that order. */
  predicate Conserved(s: State) {
    Concat(s.flushed) + s.batch + s.chan == s.accepted
  }

  predicate Inv(s: State) {
    && Conserved(s)
    && |s.batch| < BATCH
    && |s.chan| <= s.capacity
    && (forall i :: 0 <= i < |s.flushed| ==> 0 < |s.flushed[i]| <= BATCH)
    && (s.done ==> s.closed)
    && (s.writer != Running ==> s.done)
    && (s.writer == Exited ==>
          s.batch == [] && s.acceptedAtExit <= |s.accepted| && Concat(s.flushed) == s.accepted[..s.acceptedAtExit])
  }

  lemma ConcatOne(batches: seq<seq<Write>>, b: seq<Write>)
    ensures Concat(batches + [b]) == Concat(batches) + b
  {
    assert (batches + [b])[..|batches|] == batches;
  }

  lemma FlushKeeps(s: State)
    requires Conserved(s)
    ensures Conserved(Flush(s))
  {
    if s.batch != [] {
      ConcatOne(s.flushed, s.batch);
    }
  }

  lemma TakeKeeps(s: State)
    requires Conserved(s) && s.chan != []
    ensures Conserved(Take(s))
  {
    assert s.chan == [s.chan[0]] + s.chan[1..];
    assert Concat(s.flushed) + (s.batch + [s.chan[0]]) + s.chan[1..]
        == Concat(s.flushed) + s.batch + ([s.chan[0]] + s.chan[1..]);
  }

  lemma SendKeeps(s: State, w: Write)
    requires Conserved(s)
    ensures Concat(s.flushed) + s.batch + (s.chan + [w]) == s.accepted + [w]
  {
    assert Concat(s.flushed) + s.batch + (s.chan + [w]) == (Concat(s.flushed) + s.batch + s.chan) + [w];
  }

  lemma FlushInv(s: State)
    requires Conserved(s) && s.batch != [] && |s.batch| <= BATCH && forall i :: 0 <= i < |s.flushed| ==> 0 < |s.flushed[i]| <= BATCH
    ensures Conserved(Flush(s)) && forall i :: 0 <= i < |Flush(s).flushed| ==> 0 < |Flush(s).flushed[i]| <= BATCH
  {
    FlushKeeps(s);
  }

  lemma ReceiveKeeps(s: State)
    requires Inv(s) && Enabled(s, Receive)
    ensures Inv(Next(s, Receive))
  {
    TakeKeeps(s);
    if |Take(s).batch| >= BATCH {
      FlushInv(Take(s));
    }
  }

  lemma ExitKeeps(s: State)
    requires Inv(s) && Enabled(s, DrainEmpty)
    ensures Inv(Next(s, DrainEmpty))
  {
    FlushKeeps(s);
    assert Concat(Flush(s).flushed) + [] + [] == Concat(Flush(s).flushed);
    assert s.accepted[..|s.accepted|] == s.accepted;
  }

  lemma SendingKeeps(s: State, w: Write)
    requires Inv(s) && Enabled(s, Send(w))
    ensures Inv(Next(s, Send(w)))
  {
    SendKeeps(s, w);
    if s.writer == Exited {
      assert (s.accepted + [w])[..s.acceptedAtExit] == s.accepted[..s.acceptedAtExit];
    }
  }

  /** Every action keeps the invariant. */
  lemma StepKeeps(s: State, a: Action)
    requires Inv(s) && Enabled(s, a)
    ensures Inv(Next(s, a))
  {
    match a
    case CheckClosed(_) =>
    case Send(w) => SendingKeeps(s, w);
    case Receive => ReceiveKeeps(s);
    case Tick => FlushKeeps(s);
    case SeeDone =>
    case DrainEmpty => ExitKeeps(s);
    case CloseSwap =>
    case CloseSignal =>
  }

  /** `s` is reached from `from` by the actions, each enabled in its turn. */
  predicate Reaches(from: State, actions: seq<Action>, s: State)
    decreases |actions|
  {
    if actions == [] then s == from
    else Enabled(from, actions[0]) && Reaches(Next(from, actions[0]), actions[1..], s)
  }

  lemma {:induction false} ReachesKeeps(from: State, actions: seq<Action>, s: State)
    requires Inv(from) && Reaches(from, actions, s)
    ensures Inv(s)
    decreases |actions|
  {
    if actions != [] {
      StepKeeps(from, actions[0]);
      ReachesKeeps(Next(from, actions[0]), actions[1..], s);
    }
  }

  /** In every interleaving: committed batches, then the current batch, then the channel are
      exactly the accepted writes in order; and batches stay within their size. */
  lemma EveryRunConserves(capacity: nat, actions: seq<Action>, s: State)
    requires Reaches(Init(capacity), actions, s)
    ensures Concat(s.flushed) + s.batch + s.chan == s.accepted
    ensures |s.batch| < BATCH && forall i :: 0 <= i < |s.flushed| ==> 0 < |s.flushed[i]| <= BATCH
  {
    ReachesKeeps(Init(capacity), actions, s);
  }

  /** A tick commits what the writer has taken: all that is accepted is then committed or still in the
      channel.  Taking a write commits exactly the batches that it fills. */
  lemma TickCommits(capacity: nat, actions: seq<Action>, s: State)
    requires Reaches(Init(capacity), actions, s)
    ensures Enabled(s, Tick) ==> Next(s, Tick).batch == [] && Concat(Next(s, Tick).flushed) + s.chan == s.accepted
    ensures Enabled(s, Receive) ==>
              Next(s, Receive).flushed == if |s.batch| == 255 then s.flushed + [s.batch + [s.chan[0]]] else s.flushed
  {
    ReachesKeeps(Init(capacity), actions, s);
    if Enabled(s, Tick) {
      StepKeeps(s, Tick);
      assert Concat(Next(s, Tick).flushed) + [] == Concat(Next(s, Tick).flushed);
    }
  }

  // ----- what becomes of every call --------------------------------------------------------------

  /** The writes that callers of enqueueL2 brought. */
  function Called(actions: seq<Action>): multiset<Write> {
    if actions == [] then multiset{}
    else (if actions[0].CheckClosed? then multiset{actions[0].w} else multiset{}) + Called(actions[1..])
  }

  function Accounted(s: State): multiset<Write> {
    multiset(s.accepted) + multiset(s.direct) + s.pending
  }

  lemma MovedOver(pending: multiset<Write>, w: Write, rest: multiset<Write>)
    requires w in pending
    ensures (rest + multiset{w}) + (pending - multiset{w}) == rest + pending
  {
  }

  lemma SendAccounts(s: State, w: Write)
    requires Enabled(s, Send(w))
    ensures Accounted(Next(s, Send(w))) == Accounted(s)
  {
    var a, d := multiset(s.accepted), multiset(s.direct);
    MovedOver(s.pending, w, a + d);
    if |s.chan| < s.capacity {
      assert multiset(s.accepted + [w]) == a + multiset{w};
      assert (a + multiset{w}) + d == (a + d) + multiset{w};
    } else {
      assert multiset(s.direct + [w]) == d + multiset{w};
      assert a + (d + multiset{w}) == (a + d) + multiset{w};
    }
  }

  lemma CheckAccounts(s: State, w: Write)
    ensures Accounted(Next(s, CheckClosed(w))) == Accounted(s) + multiset{w}
  {
    if s.closed {
      assert multiset(s.direct + [w]) == multiset(s.direct) + multiset{w};
    }
  }

  lemma StepAccounts(s: State, a: Action)
    requires Enabled(s, a)
    ensures Accounted(Next(s, a)) == if a.CheckClosed? then Accounted(s) + multiset{a.w} else Accounted(s)
  {
    match a
    case CheckClosed(w) => CheckAccounts(s, w);
    case Send(w) => SendAccounts(s, w);
    case _ =>
  }

  lemma {:induction false} ReachesAccounts(from: State, actions: seq<Action>, s: State)
    requires Reaches(from, actions, s)
    ensures Accounted(s) == Accounted(from) + Called(actions)
    decreases |actions|
  {
    if actions != [] {
      StepAccounts(from, actions[0]);
      ReachesAccounts(Next(from, actions[0]), actions[1..], s);
    }
  }

  /** In every interleaving every write some caller brought is, once for each time it was brought, in
      a committed batch, in the current batch, in the channel, written directly, or still about to be
      sent; and nothing else is anywhere. */
  lemma EveryCallAccounted(capacity: nat, actions: seq<Action>, s: State)
    requires Reaches(Init(capacity), actions, s)
    ensures multiset(Concat(s.flushed)) + multiset(s.batch) + multiset(s.chan) + multiset(s.direct) + s.pending == Called(actions)
  {
    ReachesAccounts(Init(capacity), actions, s);
    EveryRunConserves(capacity, actions, s);
    assert multiset(Concat(s.flushed) + s.batch + s.chan) == multiset(Concat(s.flushed)) + multiset(s.batch) + multiset(s.chan);
  }

  /** Once the writer has returned, what was accepted before its last empty read has been
      committed once and in order, and what was accepted after it lies in the channel. */
  lemma ExitCommits(capacity: nat, actions: seq<Action>, s: State)
    requires Reaches(Init(capacity), actions, s) && s.writer == Exited
    ensures s.closed && s.batch == [] && s.acceptedAtExit <= |s.accepted|
    ensures Concat(s.flushed) == s.accepted[..s.acceptedAtExit]
    ensures s.chan == s.accepted[s.acceptedAtExit..]
  {
    ReachesKeeps(Init(capacity), actions, s);
    assert s.accepted == Concat(s.flushed) + s.chan;
  }

  // ----- when the promise not to lose an entry holds -------------------------------------------

  lemma {:induction false} QuietStaysQuiet(from: State, actions: seq<Action>, s: State)
    requires from.writer == Exited && from.closed && from.pending == multiset{} && Reaches(from, actions, s)
    ensures s.chan == from.chan && s.accepted == from.accepted
    decreases |actions|
  {
    if actions != [] {
      QuietStaysQuiet(Next(from, actions[0]), actions[1..], s);
    }
  }

  ghost predicate CanFollow(from: State, s: State) {
    exists actions :: Reaches(from, actions, s)
  }

  /** After the writer has returned no accepted write can be stranded, whatever happens next,
      exactly when no caller was between its wclosed check and its send. */
  lemma NothingStrandedIff(from: State)
    requires Inv(from) && from.writer == Exited && from.chan == [] && from.capacity > 0
    ensures from.pending == multiset{} <==> forall s :: CanFollow(from, s) ==> s.chan == []
  {
    if from.pending == multiset{} {
      forall s | CanFollow(from, s)
        ensures s.chan == []
      {
        var actions :| Reaches(from, actions, s);
        QuietStaysQuiet(from, actions, s);
      }
    } else {
      var w :| w in from.pending;
      var s := Next(from, Send(w));
      assert [Send(w)][1..] == [];
      assert Reaches(s, [], s);
      assert Reaches(from, [Send(w)], s);
      assert CanFollow(from, s) && s.chan == [w];
    }
  }

  /** Such a caller exists in some run: it passes the check, Close completes, then it sends. */
  lemma LateSendIsStranded(w: Write, capacity: nat) returns (s: State)
    requires capacity > 0
    ensures var run := [CheckClosed(w), CloseSwap, CloseSignal, SeeDone, DrainEmpty, Send(w)];
            Reaches(Init(capacity), run, s)
    ensures s.writer == Exited && s.chan == [w] && s.flushed == [] && s.direct == []
  {
    var run := [CheckClosed(w), CloseSwap, CloseSignal, SeeDone, DrainEmpty, Send(w)];
    var s1 := Next(Init(capacity), CheckClosed(w));
    var s2 := Next(s1, CloseSwap);
    var s3 := Next(s2, CloseSignal);
    var s4 := Next(s3, SeeDone);
    var s5 := Next(s4, DrainEmpty);
    s := Next(s5, Send(w));
    ReachesBy(s5, Send(w), [], s);
    ReachesBy(s4, DrainEmpty, [Send(w)], s);
    ReachesBy(s3, SeeDone, [DrainEmpty, Send(w)], s);
    ReachesBy(s2, CloseSignal, [SeeDone, DrainEmpty, Send(w)], s);
    ReachesBy(s1, CloseSwap, [CloseSignal, SeeDone, DrainEmpty, Send(w)], s);
    ReachesBy(Init(capacity), CheckClosed(w), [CloseSwap, CloseSignal, SeeDone, DrainEmpty, Send(w)], s);
  }

  lemma ReachesBy(from: State, a: Action, rest: seq<Action>, s: State)
    requires Enabled(from, a) && Reaches(Next(from, a), rest, s)
    ensures Reaches(from, [a] + rest, s)
  {
    assert ([a] + rest)[1..] == rest;
  }
}
