/**
 The counter that the rate limiter and both flood guards share: events are counted from the
 first of a burst, and an event more than a window after it starts a new burst.
 */
module Streaks {
  datatype Streak = Streak(count: nat, first: real)

  function Tick(window: real, s: Streak, now: real): Streak {
    if now - s.first > window then Streak(1, now) else Streak(s.count + 1, s.first)
  }

  /** The last `s.count` entries of the history are no older than the start of the streak. */
  predicate Backed(h: seq<real>, s: Streak) {
    s.count <= |h| && forall i :: |h| - s.count <= i < |h| ==> s.first <= h[i]
  }

  /** The last `n` entries of the history fit in one window. */
  predicate LastFit(h: seq<real>, n: nat, window: real) {
    n <= |h| && forall i, j :: |h| - n <= i <= j < |h| ==> h[j] - h[i] <= window
  }

  predicate Upto(h: seq<real>, now: real) {
    forall i :: 0 <= i < |h| ==> h[i] <= now
  }

  lemma TickBacked(window: real, h: seq<real>, s: Streak, now: real)
    requires window >= 0.0 && Backed(h, s) && Upto(h, now) && s.first <= now
    ensures var s2 := Tick(window, s, now);
            Backed(h + [now], s2) && s2.first <= now <= s2.first + window
  {
  }

  /** A counted burst fits in one window. */
  lemma BackedFits(window: real, h: seq<real>, s: Streak, now: real, n: nat)
    requires Backed(h, s) && Upto(h, now) && now - s.first <= window && n <= s.count
    ensures LastFit(h, n, window)
  {
  }

  function Ticks(window: real, s: Streak, ts: seq<real>): Streak {
    if ts == [] then s else Tick(window, Ticks(window, s, ts[..|ts| - 1]), ts[|ts| - 1])
  }

  predicate Sorted(ts: seq<real>) {
    forall i, j :: 0 <= i <= j < |ts| ==> ts[i] <= ts[j]
  }

  /** As long as no event starts a new burst, the count grows by one each time. */
  lemma {:induction false} CountGrows(window: real, s: Streak, ts: seq<real>)
    requires forall i :: 0 <= i < |ts| ==> ts[i] - s.first <= window
    ensures Ticks(window, s, ts) == Streak(s.count + |ts|, s.first)
  {
    if ts != [] {
      CountGrows(window, s, ts[..|ts| - 1]);
    }
  }

  lemma {:induction false} TicksSplit(window: real, s: Streak, ts: seq<real>, k: nat)
    requires k <= |ts|
    ensures Ticks(window, s, ts) == Ticks(window, Ticks(window, s, ts[..k]), ts[k..])
  {
    if k == |ts| {
      assert ts[..k] == ts && ts[k..] == [];
    } else {
      var front := ts[..|ts| - 1];
      TicksSplit(window, s, front, k);
      assert front[..k] == ts[..k] && front[k..] == ts[k..][..|ts[k..]| - 1];
    }
  }

  predicate Reaches(window: real, s: Streak, ts: seq<real>, n: int, k: nat)
    requires k <= |ts|
  {
    Ticks(window, s, ts[..k]).count >= n
  }

  /** Completeness: of any 2n - 1 events inside one window, some event brings the count to n,
      however the counter stood before. */
  lemma FloodCounts(window: real, s: Streak, ts: seq<real>, n: nat) returns (k: nat)
    requires n >= 1 && |ts| == 2 * n - 1 && Sorted(ts) && ts[|ts| - 1] - ts[0] <= window
    ensures 1 <= k <= |ts| && Reaches(window, s, ts, n, k)
  {
    if ts[n - 1] - s.first <= window {
      k := n;
      CountGrows(window, s, ts[..n]);
    } else {
      var i: nat := 0;
      while ts[i] - s.first <= window
        invariant i < n
        invariant forall j :: 0 <= j < i ==> ts[j] - s.first <= window
        decreases n - i
      {
        i := i + 1;
      }
      k := |ts|;
      CountGrows(window, s, ts[..i]);
      assert ts[..i + 1][..i] == ts[..i];
      assert Ticks(window, s, ts[..i + 1]) == Streak(1, ts[i]);
      CountGrows(window, Streak(1, ts[i]), ts[i + 1..]);
      TicksSplit(window, s, ts, i + 1);
      assert ts[..k] == ts;
    }
  }

  /** The first event that does. */
  lemma FirstToReach(window: real, s: Streak, ts: seq<real>, n: nat) returns (k: nat)
    requires n >= 1 && |ts| == 2 * n - 1 && Sorted(ts) && ts[|ts| - 1] - ts[0] <= window
    ensures 1 <= k <= |ts| && Reaches(window, s, ts, n, k)
    ensures forall j: nat :: 1 <= j < k ==> !Reaches(window, s, ts, n, j)
  {
    var top := FloodCounts(window, s, ts, n);
    k := 1;
    while k < top && !Reaches(window, s, ts, n, k)
      invariant 1 <= k <= top
      invariant forall j: nat :: 1 <= j < k ==> !Reaches(window, s, ts, n, j)
    {
      k := k + 1;
    }
  }

  lemma ReachesEarlier(window: real, s: Streak, ts: seq<real>, n: int, j: nat, k: nat)
    requires j <= k <= |ts|
    ensures Reaches(window, s, ts[..k], n, j) == Reaches(window, s, ts, n, j)
  {
    assert ts[..k][..j] == ts[..j];
  }
}
