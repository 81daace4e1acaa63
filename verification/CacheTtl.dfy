/**
 TTLs from Set through the L1 layer to the wire (internal/cache/cache.go, writeRaw in
 internal/dnsserver/handler.go): the second at which an answer expires is conserved.
 */
module CacheTtl {
  import opened Common
  import opened Wire
  import opened RawServe
  import L1Cache
  import L1Store

  type Time = int  // nanoseconds

  const SECOND: Time := 1_000_000_000
  const UINT64: nat := 0x1_0000_0000_0000_0000
  const INT64: nat := 0x8000_0000_0000_0000

  /** Unix seconds, rounded down. */
  function Unix(t: Time): int { t / SECOND }

  // ----- the stored value: an eight-octet store time, then the packed message ----------------

  function Stamp(seconds: int): (b: Octets)
    ensures |b| == 8
  {
    Bytes(seconds % UINT64, 8)
  }

  function StampedAt(b: Octets): int
    requires |b| == 8
  {
    if Value(b) < INT64 then Value(b) else Value(b) - UINT64
  }

  lemma StampRoundTrip(seconds: int)
    requires -(INT64 as int) <= seconds < INT64
    ensures StampedAt(Stamp(seconds)) == seconds
  {
    assert Pow256(8) == UINT64;
    ValueOfBytes(seconds % UINT64, 8);
  }

  function EntryOf(m: Message, storedAt: int): (e: Octets)
    requires m.Ok()
    ensures |e| > 8
  {
    Stamp(storedAt) + m.Packed()
  }

  datatype Hit = Hit(raw: Octets, storedAt: int, offsets: seq<nat>)

  /** positiveResult. */
  function PositiveResult(entry: Octets, offsets: seq<nat>): Option<Hit> {
    if |entry| <= 8 then None else Some(Hit(entry[8..], StampedAt(entry[..8]), offsets))
  }

  /** unpackEntry: decode, then count every answer TTL down. */
  function UnpackEntry(entry: Octets, now: Time): Option<Message> {
    if |entry| <= 8 || Parse(entry[8..]).None? then None else
      var m := Parse(entry[8..]).value;
      Some(m.(answers := RebasedAll(m.answers, Unix(now) - StampedAt(entry[..8]))))
  }

  // ----- Set ------------------------------------------------------------------------------------

  /** The smallest answer TTL, starting from the largest 32-bit value. */
  method MinTtl(rrs: seq<RR>) returns (min: nat)
    requires forall i :: 0 <= i < |rrs| ==> rrs[i].Ok()
    ensures min == SmallestTtl(rrs)
  {
    min := UINT32 - 1;
    for i := 0 to |rrs|
      invariant min <= UINT32 - 1
      invariant SmallestTtl(rrs) == Least(min, SmallestTtl(rrs[i..]))
    {
      assert rrs[i..][1..] == rrs[i + 1..];
      if rrs[i].ttl < min {
        min := rrs[i].ttl;
      }
    }
  }

  function Least(x: nat, y: nat): nat { if x < y then x else y }

  function SmallestTtl(rrs: seq<RR>): (t: nat)
    ensures t < UINT32
  {
    if rrs == [] then UINT32 - 1 else Least(rrs[0].ttl, SmallestTtl(rrs[1..]))
  }

  lemma {:induction false} SmallestIsBound(rrs: seq<RR>, i: nat)
    requires i < |rrs|
    ensures SmallestTtl(rrs) <= rrs[i].ttl
  {
    if i > 0 {
      SmallestIsBound(rrs[1..], i - 1);
    }
  }

  /** The lifetime Set gives an entry. */
  function Lifetime(rrs: seq<RR>, capTtl: Time, configured: Time): Time {
    var ttl := SmallestTtl(rrs) * SECOND;
    var cap := if capTtl <= 0 then configured else capTtl;
    if cap > 0 && ttl > cap then cap else ttl
  }

  /** The L1 write made by Set, if it makes one. */
  function SetWrite(h: nat, m: Message, capTtl: Time, configured: Time, now: Time): Option<L1Store.Op>
    requires m.Ok()
  {
    var life := Lifetime(m.answers, capTtl, configured);
    if m.answers == [] || life <= 0 then None
    else Some(L1Store.SetOp(L1Cache.Key(h, false), EntryOf(m, Unix(now)), Offsets(m), life, now))
  }

  // ----- conservation ------------------------------------------------------------------------

  /** A served TTL is 1 exactly up to the end of the entry's first second, a clock that went back
      included, and from its last second on; otherwise it ends when the original would have. */
  lemma RebasedExact(ttl: nat, elapsed: int)
    requires elapsed < UINT32
    ensures Rebased(ttl, elapsed) == 1 <==> elapsed <= 0 || ttl <= elapsed + 1
    ensures Rebased(ttl, elapsed) != 1 ==> elapsed + Rebased(ttl, elapsed) == ttl
  {
  }

  /** In the first second after it was stored an answer of any lifetime is served with TTL 1. */
  lemma FirstSecondServesOne(ttl: nat, stored: Time, now: Time)
    requires Unix(now) == Unix(stored)
    ensures Rebased(ttl, Unix(now) - Unix(stored)) == 1
  {
  }

  /** `s` seconds from `now` is when `ttl` seconds from `stored` was, unless floored at one. */
  predicate Conserved(ttl: nat, s: nat, stored: Time, now: Time) {
    s >= 1 && (s == 1 || Unix(now) + s == Unix(stored) + ttl)
  }

  predicate InEra(stored: Time, now: Time) {
    && -(INT64 as int) <= Unix(stored) < INT64
    && 0 <= Unix(now) - Unix(stored) < UINT32
  }

  lemma EntryParts(m: Message, storedAt: int)
    requires m.Ok() && -(INT64 as int) <= storedAt < INT64
    ensures var e := EntryOf(m, storedAt);
            && PositiveResult(e, Offsets(m)) == Some(Hit(m.Packed(), storedAt, Offsets(m)))
            && Parse(e[8..]) == Some(m) && StampedAt(e[..8]) == storedAt
  {
    var e := EntryOf(m, storedAt);
    assert e[..8] == Stamp(storedAt) && e[8..] == m.Packed();
    StampRoundTrip(storedAt);
    ParsedAsPacked(m);
  }

  /** What writeRaw puts on the wire for a hit. */
  function WireBytes(hit: Hit, id: nat, now: Time): Octets
    requires |hit.raw| >= 2
  {
    Served(hit.raw, hit.offsets, id, Unix(now) - hit.storedAt)
  }

  function HitOn(m: Message, stored: Time): Hit
    requires m.Ok()
  {
    Hit(m.Packed(), Unix(stored), Offsets(m))
  }

  /** The wire carries the stored message with its answer TTLs counted down. */
  lemma WireReply(m: Message, stored: Time, now: Time, id: nat)
    requires m.Ok() && id < 0x1_0000
    ensures |m.Packed()| >= 2
    ensures Parse(WireBytes(HitOn(m, stored), id, now)) == Some(Reply(m, id, Unix(now) - Unix(stored)))
  {
    var elapsed := Unix(now) - Unix(stored);
    ServedIsReply(m, id, elapsed);
    ParsedAsPacked(Reply(m, id, elapsed));
  }

  lemma PathsAgreeOn(raw: Octets, storedAt: int, id: nat, now: Time)
    requires Parse(raw).Some? && id < 0x1_0000
    ensures var m, elapsed := Parse(raw).value, Unix(now) - storedAt;
            |raw| >= 2 && Parse(WireBytes(Hit(raw, storedAt, Offsets(m)), id, now)) == Some(Reply(m, id, elapsed))
  {
    RawEqualsDecoded(raw, id, Unix(now) - storedAt);
  }

  lemma Unpacked(entry: Octets, raw: Octets, storedAt: int, now: Time)
    requires |entry| > 8 && raw == entry[8..] && storedAt == StampedAt(entry[..8]) && Parse(raw).Some?
    ensures var m := Parse(raw).value;
            && UnpackEntry(entry, now) == Some(m.(answers := RebasedAll(m.answers, Unix(now) - storedAt)))
            && PositiveResult(entry, Offsets(m)) == Some(Hit(raw, storedAt, Offsets(m)))
  {
  }

  /** The two ways of serving any parsable entry agree: patching its bytes, or decoding it,
      counting down, and setting the query ID. */
  lemma PathsAgree(entry: Octets, id: nat, now: Time)
    requires |entry| > 8 && Parse(entry[8..]).Some? && id < 0x1_0000
    ensures UnpackEntry(entry, now).Some?
    ensures var hit := PositiveResult(entry, Offsets(Parse(entry[8..]).value)).value;
            |hit.raw| >= 2 && Parse(WireBytes(hit, id, now)) == Some(UnpackEntry(entry, now).value.(id := id))
  {
    var raw, storedAt := entry[8..], StampedAt(entry[..8]);
    PathsAgreeOn(raw, storedAt, id, now);
    Unpacked(entry, raw, storedAt, now);
  }

  /** Every answer of such a reply expires in the second it would have expired in anyway. */
  lemma ReplyConserves(m: Message, id: nat, stored: Time, now: Time, i: nat)
    requires InEra(stored, now) && i < |m.answers|
    ensures Conserved(m.answers[i].ttl, Reply(m, id, Unix(now) - Unix(stored)).answers[i].ttl, stored, now)
  {
    RebasedExact(m.answers[i].ttl, Unix(now) - Unix(stored));
  }

  lemma LifetimeBound(rrs: seq<RR>, capTtl: Time, configured: Time, i: nat)
    requires i < |rrs|
    ensures Lifetime(rrs, capTtl, configured) <= rrs[i].ttl * SECOND
    ensures capTtl > 0 ==> Lifetime(rrs, capTtl, configured) <= capTtl
    ensures capTtl <= 0 && configured > 0 ==> Lifetime(rrs, capTtl, configured) <= configured
  {
    SmallestIsBound(rrs, i);
  }

  lemma {:induction false} SmallestIsOne(rrs: seq<RR>) returns (i: nat)
    requires rrs != [] && forall j :: 0 <= j < |rrs| ==> rrs[j].Ok()
    ensures i < |rrs| && SmallestTtl(rrs) == rrs[i].ttl
  {
    i := 0;
    if |rrs| > 1 {
      var j := SmallestIsOne(rrs[1..]);
      if SmallestTtl(rrs) != rrs[0].ttl {
        i := j + 1;
      }
    }
  }

  /** At `u` every answer still lives, and the lifetime that caps the entry has not run out. */
  predicate LivesAt(rrs: seq<RR>, capTtl: Time, configured: Time, stored: Time, u: Time) {
    && (forall i :: 0 <= i < |rrs| ==> u < stored + rrs[i].ttl * SECOND)
    && (capTtl > 0 ==> u < stored + capTtl)
    && (capTtl <= 0 && configured > 0 ==> u < stored + configured)
  }

  /** The bound is met: an entry lives exactly as long as all its answers and its cap do. */
  lemma LifetimeExact(rrs: seq<RR>, capTtl: Time, configured: Time, stored: Time, u: Time)
    requires rrs != [] && forall j :: 0 <= j < |rrs| ==> rrs[j].Ok()
    ensures LivesAt(rrs, capTtl, configured, stored, u) <==> u < stored + Lifetime(rrs, capTtl, configured)
  {
    forall i | 0 <= i < |rrs|
      ensures SmallestTtl(rrs) <= rrs[i].ttl
    {
      SmallestIsBound(rrs, i);
    }
    var i := SmallestIsOne(rrs);
  }

  /** The record Set leaves for its key. */
  function SetRecord(m: Message, life: Time, stale: Time, stored: Time): L1Cache.Record
    requires m.Ok()
  {
    L1Cache.RecordOf(EntryOf(m, Unix(stored)), Offsets(m), life, stale, stored)
  }

  lemma HitOnSet(a: L1Cache.Lookup, m: Message, life: Time, stale: Time, stored: Time, now: Time)
    requires m.Ok() && InEra(stored, now)
    requires a == L1Cache.Verdict(Some(SetRecord(m, life, stale, stored)), now) && !a.Miss?
    ensures PositiveResult(a.raw, a.ttlOff) == Some(HitOn(m, stored))
    ensures a.Fresh? ==> now < stored + life
  {
    EntryParts(m, Unix(stored));
  }

  /** From Set through every run of the L1 layer to the wire: whenever the entry written by
      Set is still the latest for its key and the lookup hits, what is served parses to the
      stored message with conserved TTLs; and a fresh hit lies within every answer's lifetime
      and within the cap. */
  lemma SetToWire(lim: L1Store.Limits, ops: seq<L1Store.Op>, h: nat, m: Message, capTtl: Time, configured: Time,
                  stored: Time, now: Time, id: nat, i: nat)
    requires m.Ok() && id < 0x1_0000 && InEra(stored, now) && i < |m.answers|
    requires SetWrite(h, m, capTtl, configured, stored).Some?
    requires L1Store.Latest(lim, ops, L1Cache.Key(h, false))
          == Some(SetRecord(m, Lifetime(m.answers, capTtl, configured), lim.stale, stored))
    requires !L1Store.Answer(L1Store.Run(lim, ops), L1Cache.Key(h, false), now).Miss?
    ensures var a := L1Store.Answer(L1Store.Run(lim, ops), L1Cache.Key(h, false), now);
            var hit := PositiveResult(a.raw, a.ttlOff);
            && hit.Some? && |hit.value.raw| >= 2
            && Parse(WireBytes(hit.value, id, now)) == Some(Reply(m, id, Unix(now) - Unix(stored)))
            && Conserved(m.answers[i].ttl, Reply(m, id, Unix(now) - Unix(stored)).answers[i].ttl, stored, now)
            && (a.Fresh? ==> now < stored + m.answers[i].ttl * SECOND && (capTtl > 0 ==> now < stored + capTtl))
  {
    var life := Lifetime(m.answers, capTtl, configured);
    L1Store.HitsAreLatest(lim, ops, L1Cache.Key(h, false), now);
    HitOnSet(L1Store.Answer(L1Store.Run(lim, ops), L1Cache.Key(h, false), now), m, life, lim.stale, stored, now);
    WireReply(m, stored, now, id);
    ReplyConserves(m, id, stored, now, i);
    LifetimeBound(m.answers, capTtl, configured, i);
  }
}
