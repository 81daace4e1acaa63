/**
 The eviction that keeps the per-client maps of the rate limiter and both flood guards small
 (internal/dnsserver/ratelimit.go, nxguard.go, repeatguard.go).
 */
module Eviction {
  import opened Common

  const CAP: nat := 4096
  const IDLE: real := 600.0

  predicate Idle(seen: map<string, real>, k: string, now: real)
    requires k in seen
  {
    now - seen[k] > IDLE
  }

  /** What eviction may leave of a map, by the time each key was last seen: nothing goes while
      there is room; otherwise idle keys go, and active ones only as far as needed and oldest
      first. */
  predicate Evicted(seen: map<string, real>, kept: set<string>, now: real) {
    && kept <= seen.Keys
    && (|seen| < CAP ==> kept == seen.Keys)
    && (|seen| >= CAP ==>
          && |kept| < CAP
          && (forall k :: k in kept ==> !Idle(seen, k, now))
          && (forall k :: k in seen && k !in kept && !Idle(seen, k, now) ==> |kept| == CAP - 1 && OlderThanAll(seen, k, kept)))
  }

  predicate OlderThanAll(seen: map<string, real>, k: string, kept: set<string>)
    requires k in seen && kept <= seen.Keys
  {
    forall j :: j in kept ==> seen[k] <= seen[j]
  }

  method DropIdle(seen: map<string, real>, now: real) returns (kept: set<string>)
    ensures kept <= seen.Keys
    ensures forall k :: k in seen ==> (k in kept <==> !Idle(seen, k, now))
  {
    kept := seen.Keys;
    var todo := seen.Keys;
    while todo != {}
      invariant todo <= kept <= seen.Keys
      invariant forall k :: k in seen && k !in todo ==> (k in kept <==> !Idle(seen, k, now))
      decreases |todo|
    {
      var k :| k in todo;
      todo := todo - {k};
      if Idle(seen, k, now) {
        kept := kept - {k};
      }
    }
  }

  method FindOldest(seen: map<string, real>, kept: set<string>) returns (oldest: string)
    requires kept <= seen.Keys && kept != {}
    ensures oldest in kept && OlderThanAll(seen, oldest, kept)
  {
    oldest :| oldest in kept;
    var todo := kept - {oldest};
    while todo != {}
      invariant todo <= kept && oldest in kept
      invariant forall j :: j in kept && j !in todo ==> seen[oldest] <= seen[j]
      decreases |todo|
    {
      var k :| k in todo;
      todo := todo - {k};
      if seen[k] < seen[oldest] {
        oldest := k;
      }
    }
  }

  method Evict(seen: map<string, real>, now: real) returns (kept: set<string>)
    ensures Evicted(seen, kept, now)
  {
    if |seen| < CAP {
      return seen.Keys;
    }
    kept := DropIdle(seen, now);
    if |kept| >= CAP {
      kept := DropOldest(seen, kept, now);
    }
  }

  method DropOldest(seen: map<string, real>, active: set<string>, now: real) returns (kept: set<string>)
    requires active <= seen.Keys && |active| >= CAP
    ensures kept <= active && |kept| == CAP - 1
    ensures forall k :: k in active && k !in kept ==> OlderThanAll(seen, k, kept)
  {
    kept := active;
    while |kept| >= CAP
      invariant kept <= active && |kept| >= CAP - 1
      invariant forall k :: k in active && k !in kept ==> OlderThanAll(seen, k, kept)
      decreases |kept|
    {
      var oldest := FindOldest(seen, kept);
      kept := kept - {oldest};
    }
  }

  /** After eviction one more key fits. */
  lemma RoomForOne(seen: map<string, real>, kept: set<string>, now: real)
    requires Evicted(seen, kept, now)
    ensures |kept| < CAP
  {
    assert |seen.Keys| == |seen|;
  }

  /** Eviction spares a key seen within the idle time unless CAP - 1 keys were seen since. */
  lemma SparedUnlessCrowded(seen: map<string, real>, kept: set<string>, now: real, k: string)
    requires Evicted(seen, kept, now) && k in seen && k !in kept && now - seen[k] <= IDLE
    ensures |set j | j in seen && j != k && seen[j] >= seen[k]| >= CAP - 1
  {
    var newer := set j | j in seen && j != k && seen[j] >= seen[k];
    assert kept <= newer;
    SubsetSize(kept, newer);
  }

  // ----- inserting -----------------------------------------------------------------------------

  /** `s2` is `s` with `e` put in for `k`; a new key may push others out. */
  ghost predicate Put<E>(s: map<string, E>, seen: map<string, real>, k: string, e: E, now: real, s2: map<string, E>) {
    if k in s then s2 == s[k := e]
    else exists kept :: Evicted(seen, kept, now) && s2 == PutInto(s, kept, k, e)
  }

  function PutInto<E>(s: map<string, E>, kept: set<string>, k: string, e: E): map<string, E> {
    (map j | j in s && j in kept :: s[j])[k := e]
  }

  /** The caller's map after eviction and insertion, still within the cap. */
  method Insert<E>(s: map<string, E>, seen: map<string, real>, k: string, e: E, now: real) returns (s2: map<string, E>)
    requires seen.Keys == s.Keys && k !in s
    ensures Put(s, seen, k, e, now, s2) && |s2| <= CAP
  {
    var kept := Evict(seen, now);
    RoomForOne(seen, kept, now);
    s2 := PutInto(s, kept, k, e);
    KeptSize(s, kept, k, e);
  }

  lemma KeptSize<E>(s: map<string, E>, kept: set<string>, k: string, e: E)
    requires kept <= s.Keys && |kept| < CAP
    ensures |PutInto(s, kept, k, e)| <= CAP
  {
    assert PutInto(s, kept, k, e).Keys == kept + {k};
    assert |kept + {k}| <= |kept| + 1;
    assert |PutInto(s, kept, k, e)| == |PutInto(s, kept, k, e).Keys|;
  }
}
