/**
 The token bucket with auto-block of internal/dnsserver/ratelimit.go, one shard of it (a client
 always hashes to the same shard).  Tokens and times are reals, times in seconds.
 */
module RateLimit {
  import opened Common
  import opened Streaks
  import opened Eviction

  datatype Config = Config(qps: real, burst: real, autoBlock: bool, blockAfter: int, blockFor: real)

  predicate ConfigOk(c: Config) {
    c.qps >= 1.0 && c.burst >= c.qps && (c.autoBlock ==> c.blockAfter >= 1 && c.blockFor > 0.0)
  }

  /** NewRateLimiter. */
  function NewConfig(qps: int, burst: int): (c: Config)
    ensures ConfigOk(c) && !c.autoBlock
    ensures c.qps == if qps >= 1 then qps as real else 1.0
    ensures c.burst == if burst as real >= c.qps then burst as real else c.qps
  {
    var q := if qps < 1 then 1 else qps;
    Config(q as real, (if burst < q then q else burst) as real, false, 0, 0.0)
  }

  /** SetAutoBlock. */
  function WithAutoBlock(c: Config, after: int, blockFor: real): (r: Config)
    requires ConfigOk(c)
    ensures ConfigOk(r) && r.autoBlock && r.qps == c.qps && r.burst == c.burst
    ensures r.blockAfter == (if after >= 1 then after else 1) && r.blockFor == if blockFor > 0.0 then blockFor else 60.0
  {
    c.(autoBlock := true, blockAfter := if after < 1 then 1 else after, blockFor := if blockFor <= 0.0 then 60.0 else blockFor)
  }

  /** `viols` is the violation count with the time of the first; both are set and cleared together. */
  datatype Bucket = Bucket(
    tokens: real,
    lastSeen: real,
    viols: Option<Streak>,
    blockedUntil: Option<real>,
    queries: nat,
    blocks: nat,
    firstSeen: real)

  type Buckets = map<string, Bucket>

  // ----- one bucket --------------------------------------------------------------------------

  predicate Blocked(b: Bucket, now: real) {
    b.blockedUntil.Some? && now < b.blockedUntil.value
  }

  /** A block has run out and the client has not been seen since. */
  predicate CooledDown(b: Bucket, now: real) {
    b.blockedUntil.Some? && b.blockedUntil.value <= now
  }

  function CleanSlate(c: Config, b: Bucket): Bucket {
    b.(blockedUntil := None, viols := None, tokens := c.burst)
  }

  /** The tokens that `d` seconds bring. */
  function Refill(c: Config, d: real): real {
    d * c.qps
  }

  /** The tokens of a bucket once the time since `lastSeen` has been credited. */
  function Credited(c: Config, b: Bucket, now: real): real {
    var t := b.tokens + Refill(c, now - b.lastSeen);
    if t > c.burst then c.burst else t
  }

  function Violated(c: Config, viols: Option<Streak>, now: real): Streak {
    match viols
    case None => Streak(1, now)
    case Some(s) => Tick(c.blockFor, s, now)
  }

  /** recordViolationLocked. */
  function Violate(c: Config, b: Bucket, now: real): Bucket {
    if !c.autoBlock then b
    else
      var s := Violated(c, b.viols, now);
      if s.count >= c.blockAfter then b.(viols := None, blockedUntil := Some(now + c.blockFor), blocks := b.blocks + 1)
      else b.(viols := Some(s))
  }

  /** Allow, on the client's bucket. */
  function AskBucket(c: Config, ob: Option<Bucket>, now: real): (Bucket, bool) {
    match ob
    case None => (Bucket(c.burst - 1.0, now, None, None, 1, 0, now), true)
    case Some(b) =>
      var seen := b.(lastSeen := now, queries := b.queries + 1);
      if Blocked(b, now) then (seen, false)
      else
        var b1 := if b.blockedUntil.Some? then CleanSlate(c, b) else b;
        var tokens := Credited(c, b1, now);
        var b2 := b1.(lastSeen := now, queries := b.queries + 1, tokens := tokens);
        if tokens < 1.0 then (Violate(c, b2, now), false) else (b2.(tokens := tokens - 1.0), true)
  }

  function ForceBucket(ob: Option<Bucket>, now: real, d: real): Bucket {
    var b := match ob case None => Bucket(0.0, now, None, None, 0, 0, now) case Some(b) => b;
    b.(blockedUntil := Some(now + d), viols := None, blocks := b.blocks + 1, lastSeen := now)
  }

  function FreeBucket(c: Config, b: Bucket, now: real): Bucket {
    CleanSlate(c, b).(lastSeen := now)
  }

  // ----- one shard ---------------------------------------------------------------------------

  datatype Event =
    | Ask(client: string, now: real)
    | Force(client: string, now: real, d: real)
    | Free(client: string, now: real)

  function Get(s: Buckets, k: string): Option<Bucket> {
    if k in s then Some(s[k]) else None
  }

  function Seen(s: Buckets): map<string, real> {
    map k | k in s :: s[k].lastSeen
  }

  /** One call; `ok` is what Allow reports. */
  ghost predicate Step(c: Config, s: Buckets, e: Event, s2: Buckets, ok: bool) {
    match e
    case Ask(k, now) =>
      if k == "" then ok && s2 == s
      else
        var (b, r) := AskBucket(c, Get(s, k), now);
        ok == r && Put(s, Seen(s), k, b, now, s2)
    case Force(k, now, d) =>
      !ok && if k == "" || d <= 0.0 then s2 == s else Put(s, Seen(s), k, ForceBucket(Get(s, k), now, d), now, s2)
    case Free(k, now) =>
      !ok && if k in s && k != "" then Put(s, Seen(s), k, FreeBucket(c, s[k], now), now, s2) else s2 == s
  }

  /** What one call leaves of another client's bucket: all of it, or nothing. */
  lemma StepFrame(c: Config, s: Buckets, e: Event, s2: Buckets, ok: bool, k: string)
    requires Step(c, s, e, s2, ok) && k != e.client
    ensures k in s2 ==> k in s && s2[k] == s[k]
    ensures k in s && k !in s2 ==> e.client !in s
  {
  }

  class Shard {
    const config: Config
    var buckets: Buckets

    ghost predicate Valid()
      reads this
    {
      ConfigOk(config) && |buckets| <= CAP
    }

    constructor (c: Config)
      requires ConfigOk(c)
      ensures Valid() && config == c && buckets == map[]
    {
      config := c;
      buckets := map[];
    }

    /** Allow. */
    method Allow(client: string, now: real) returns (ok: bool)
      requires Valid()
      modifies this
      ensures Valid()
      ensures Step(config, old(buckets), Ask(client, now), buckets, ok)
    {
      if client == "" {
        return true;
      }
      if client !in buckets {
        buckets := Insert(buckets, Seen(buckets), client, Bucket(config.burst - 1.0, now, None, None, 1, 0, now), now);
        return true;
      }
      var b;
      b, ok := AllowKnown(buckets[client], now);
      buckets := buckets[client := b];
    }

    /** The part of Allow that works on a bucket already there. */
    method AllowKnown(bucket: Bucket, now: real) returns (b: Bucket, ok: bool)
      ensures (b, ok) == AskBucket(config, Some(bucket), now)
    {
      var elapsed := now - bucket.lastSeen;
      b := bucket.(lastSeen := now, queries := bucket.queries + 1);
      if b.blockedUntil.Some? {
        if now < b.blockedUntil.value {
          return b, false;
        }
        b := b.(blockedUntil := None, viols := None, tokens := config.burst);
      }
      b := b.(tokens := b.tokens + Refill(config, elapsed));
      if b.tokens > config.burst {
        b := b.(tokens := config.burst);
      }
      if b.tokens < 1.0 {
        return Violate(config, b, now), false;
      }
      b := b.(tokens := b.tokens - 1.0);
      return b, true;
    }

    /** ForceBlock. */
    method ForceBlock(client: string, d: real, now: real)
      requires Valid()
      modifies this
      ensures Valid()
      ensures Step(config, old(buckets), Force(client, now, d), buckets, false)
    {
      if client == "" || d <= 0.0 {
        return;
      }
      var b := ForceBucket(Get(buckets, client), now, d);
      if client in buckets {
        buckets := buckets[client := b];
      } else {
        buckets := Insert(buckets, Seen(buckets), client, b, now);
      }
    }

    /** Unblock. */
    method Unblock(client: string, now: real)
      requires Valid()
      modifies this
      ensures Valid()
      ensures Step(config, old(buckets), Free(client, now), buckets, false)
    {
      if client != "" && client in buckets {
        buckets := buckets[client := FreeBucket(config, buckets[client], now)];
      }
    }
  }
}
