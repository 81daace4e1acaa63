/**
 Runs in which many new clients ask for an address at one instant: every search succeeds with
 an address of its own until the whole span of the scan is on offer.  They show exactly which
 configured ranges the scans stay inside.
 */
module DhcpFlood {
  import opened Common
  import opened AddressMath
  import opened DhcpModel
  import opened DhcpTables
  import opened DhcpSearch

  // ----- clients without a reservation ---------------------------------------------------

  /** As many reservations as a machine can hold. */
  predicate FewStatics(cfg: Config) {
    |cfg.statics| < 0xffff_ffff_ffff_ffff
  }

  /** The reservation matches a client whose identifier starts with the octets of `j`. */
  ghost predicate Blocks(st: StaticLease, v6: bool, j: nat) {
    exists id :: |id| <= 16 + 9 && IdMatches(st, v6, j, id)
  }

  predicate IdMatches(st: StaticLease, v6: bool, j: nat, id: seq<Byte>)
    requires |id| <= 16 + 9
  {
    && |id| >= 8 && id[..8] == Bytes(j, 8)
    && if v6 then Matches(st, Duid(id)) else |id| <= 16 && Matches(st, Mac(id))
  }

  lemma BlocksOne(st: StaticLease, v6: bool, i: nat, j: nat)
    requires Blocks(st, v6, i) && Blocks(st, v6, j) && i < Pow256(8) && j < Pow256(8)
    ensures i == j
  {
    var a :| |a| <= 16 + 9 && IdMatches(st, v6, i, a);
    var b :| |b| <= 16 + 9 && IdMatches(st, v6, j, b);
    if v6 {
      HexInjective(a, b);
    } else {
      PrintedInjective(a, b);
    }
    ValueOfBytes(i, 8);
    ValueOfBytes(j, 8);
  }

  predicate AllBelow(s: set<nat>, n: nat) {
    forall j :: j in s ==> j < n
  }

  ghost predicate Unblocked(statics: seq<StaticLease>, v6: bool, j: nat) {
    forall i :: 0 <= i < |statics| ==> !Blocks(statics[i], v6, j)
  }

  /** Each reservation blocks one prefix at most, so of more prefixes than reservations one is
      free. */
  lemma {:induction false} FreeAmong(statics: seq<StaticLease>, v6: bool, candidates: set<nat>) returns (j: nat)
    requires |candidates| > |statics| && AllBelow(candidates, Pow256(8))
    ensures j in candidates && Unblocked(statics, v6, j)
  {
    if statics == [] {
      j :| j in candidates;
    } else {
      var rest := candidates;
      if c :| c in candidates && Blocks(statics[0], v6, c) {
        rest := candidates - {c};
        forall x | x in rest
          ensures !Blocks(statics[0], v6, x)
        {
          if Blocks(statics[0], v6, x) {
            BlocksOne(statics[0], v6, x, c);
          }
        }
      }
      j := FreeAmong(statics[1..], v6, rest);
      assert forall i :: 0 < i < |statics| ==> statics[i] == statics[1..][i - 1];
    }
  }

  ghost function UpTo(n: nat): (s: set<nat>)
    ensures |s| == n && AllBelow(s, n)
  {
    if n == 0 then {} else UpTo(n - 1) + {n - 1}
  }

  lemma FreePrefix(cfg: Config, v6: bool)
    requires FewStatics(cfg)
    ensures exists j: nat :: j < Pow256(8) && Unblocked(cfg.statics, v6, j)
  {
    assert Pow256(8) == 0x1_0000_0000_0000_0000;
    var j := FreeAmong(cfg.statics, v6, UpTo(|cfg.statics| + 1));
  }

  ghost function Prefix(cfg: Config, v6: bool): (j: nat)
    requires FewStatics(cfg)
    ensures Unblocked(cfg.statics, v6, j)
  {
    FreePrefix(cfg, v6);
    var j: nat :| j < Pow256(8) && Unblocked(cfg.statics, v6, j);
    j
  }

  /** How many octets number the clients of a flood: more than enough for the span. */
  function Width(v6: bool): nat { if v6 then 17 else 5 }

  ghost predicate Numbered(v6: bool, i: nat) { i < Pow256(Width(v6)) }

  /** The `i`-th client: a prefix that no reservation has, and a number. */
  ghost function Client(cfg: Config, v6: bool, i: nat): (id: seq<Byte>)
    requires FewStatics(cfg)
    ensures |id| == 8 + Width(v6)
  {
    Bytes(Prefix(cfg, v6), 8) + Bytes(i, Width(v6))
  }

  ghost function ClientKey(cfg: Config, v6: bool, i: nat): Key
    requires FewStatics(cfg)
  {
    if v6 then Duid(Client(cfg, true, i)) else Mac(Client(cfg, false, i))
  }

  lemma {:induction false} NoneMatches(statics: seq<StaticLease>, k: Key)
    requires forall i :: 0 <= i < |statics| ==> !Matches(statics[i], k)
    ensures StaticFor(statics, k) == None
  {
    if statics != [] {
      assert forall i :: 0 <= i < |statics[1..]| ==> statics[1..][i] == statics[i + 1];
      NoneMatches(statics[1..], k);
    }
  }

  lemma Unreserved(cfg: Config, v6: bool, i: nat)
    requires FewStatics(cfg)
    ensures StaticFor(cfg.statics, ClientKey(cfg, v6, i)) == None
  {
    var id, j := Client(cfg, v6, i), Prefix(cfg, v6);
    assert id[..8] == Bytes(j, 8);
    forall n | 0 <= n < |cfg.statics|
      ensures !Matches(cfg.statics[n], ClientKey(cfg, v6, i))
    {
      assert !Blocks(cfg.statics[n], v6, j);
      assert !IdMatches(cfg.statics[n], v6, j, id);
    }
    NoneMatches(cfg.statics, ClientKey(cfg, v6, i));
  }

  lemma ClientsDiffer(cfg: Config, v6: bool, i: nat, j: nat)
    requires FewStatics(cfg) && i != j && Numbered(v6, i) && Numbered(v6, j)
    ensures ClientKey(cfg, v6, i) != ClientKey(cfg, v6, j)
  {
    var a, b := Client(cfg, v6, i), Client(cfg, v6, j);
    assert a[8..] == Bytes(i, Width(v6)) && b[8..] == Bytes(j, Width(v6));
    ValueOfBytes(i, Width(v6));
    ValueOfBytes(j, Width(v6));
  }

  /** The numbers suffice for every address of a span, and one more client. */
  lemma EnoughClients(cfg: Config, v6: bool, i: nat)
    requires ScanSpan(cfg, v6).Some? && i <= ScanSpan(cfg, v6).value.size
    ensures Numbered(v6, i)
  {
    Limits();
    assert Pow256(5) == 256 * Pow256(4) && Pow256(17) == 256 * Pow256(16);
  }

  // ----- counting addresses ----------------------------------------------------------------

  /** The first `m` addresses of a span. */
  ghost function Places(span: Span, m: nat): (s: set<Addr>)
    requires m <= span.size
  {
    if m == 0 then {} else Places(span, m - 1) + {span.At(m - 1)}
  }

  lemma {:induction false} PlaceIn(span: Span, m: nat, j: nat)
    requires j < m <= span.size
    ensures span.At(j) in Places(span, m)
  {
    if j < m - 1 {
      PlaceIn(span, m - 1, j);
    }
  }

  lemma {:induction false} PlaceOf(span: Span, m: nat, a: Addr) returns (j: nat)
    requires m <= span.size && a in Places(span, m)
    ensures j < m && a == span.At(j)
  {
    if a == span.At(m - 1) {
      j := m - 1;
    } else {
      j := PlaceOf(span, m - 1, a);
    }
  }

  lemma {:induction false} PlacesCount(span: Span, m: nat)
    requires m <= span.size
    ensures |Places(span, m)| == m
  {
    if m > 0 {
      PlacesCount(span, m - 1);
      NewPlace(span, m - 1);
    }
  }

  lemma NewPlace(span: Span, m: nat)
    requires m < span.size
    ensures span.At(m) !in Places(span, m)
  {
    if span.At(m) in Places(span, m) {
      var j := PlaceOf(span, m, span.At(m));
      AtInjective(span, j, m);
    }
  }

  /** The `m` addresses of one width that spell the integers from `lo` on. */
  ghost function Numbers(width: nat, lo: nat, m: nat): (s: set<Addr>)
    requires width == 4 || width == 16
    ensures |s| <= m
  {
    if m == 0 then {} else Numbers(width, lo, m - 1) + {Text(Bytes(lo + m - 1, width))}
  }

  lemma {:induction false} NumberIn(width: nat, lo: nat, m: nat, v: nat)
    requires (width == 4 || width == 16) && lo <= v < lo + m
    ensures Text(Bytes(v, width)) in Numbers(width, lo, m)
  {
    if v < lo + m - 1 {
      NumberIn(width, lo, m - 1, v);
    }
  }

  // ----- the flood --------------------------------------------------------------------------

  ghost function Ask(cfg: Config, v6: bool, i: nat): Event
    requires FewStatics(cfg)
  {
    Event(if v6 then Solicit6(Client(cfg, true, i), Absent, None, false) else Discover(Client(cfg, false, i), Absent, None), 0)
  }

  ghost function Flood(cfg: Config, v6: bool, n: nat): seq<Event>
    requires FewStatics(cfg)
  {
    if n == 0 then [] else Flood(cfg, v6, n - 1) + [Ask(cfg, v6, n - 1)]
  }

  lemma {:induction false} AllAtOnce(events: seq<Event>)
    requires forall i :: 0 <= i < |events| ==> events[i].at == 0
    ensures Timely(0, events)
  {
    if events != [] {
      AllAtOnce(events[1..]);
    }
  }

  lemma {:induction false} FloodTimely(cfg: Config, v6: bool, n: nat)
    requires FewStatics(cfg)
    ensures |Flood(cfg, v6, n)| == n && forall i :: 0 <= i < n ==> Flood(cfg, v6, n)[i].at == 0
  {
    if n > 0 {
      FloodTimely(cfg, v6, n - 1);
    }
  }

  ghost predicate HoldOfClient(cfg: Config, v6: bool, n: nat, h: Hold)
    requires FewStatics(cfg)
  {
    h.until == OFFERED_HOLD && exists i: nat :: i < n && h.key == ClientKey(cfg, v6, i)
  }

  /** `n` distinct addresses of the span are on offer, each to a client of its own, and there is
      nothing else. */
  ghost predicate Flooded(t: Tables, cfg: Config, v6: bool, n: nat)
    requires FewStatics(cfg) && ScanSpan(cfg, v6).Some?
  {
    && t.leases == map[] && t.byIP == map[]
    && |t.reserved| == n
    && (forall a :: a in t.reserved ==> HoldOfClient(cfg, v6, n, t.reserved[a]) && OnSpan(ScanSpan(cfg, v6).value, a))
  }

  lemma {:induction false} NothingToReclaim(t: Tables, span: Span, p: nat, i: nat, k: Key, now: Time)
    requires t.byIP == map[] && p < span.size
    ensures Scan(t, span, p, i, k, now).0 == t
    decreases span.size - i
  {
    if i < span.size {
      NothingToReclaim(t, span, p, i + 1, k, now);
    }
  }

  lemma NextBare(t: Tables, cfg: Config, v6: bool, k: Key, now: Time)
    requires t.byIP == map[]
    ensures var t' := NextFree(t, cfg, v6, k, now).0;
            t'.leases == t.leases && t'.byIP == t.byIP && t'.reserved == t.reserved
  {
    if ScanSpan(cfg, v6).Some? {
      NothingToReclaim(t, ScanSpan(cfg, v6).value, ScanStart(t, cfg, v6), 0, k, now);
    }
  }

  /** The next client holds no offer. */
  lemma NewClient(t: Tables, cfg: Config, v6: bool, n: nat)
    requires FewStatics(cfg) && ScanSpan(cfg, v6).Some? && Flooded(t, cfg, v6, n) && n <= ScanSpan(cfg, v6).value.size
    ensures forall a :: a in t.reserved ==> t.reserved[a].key != ClientKey(cfg, v6, n) && t.reserved[a].until == OFFERED_HOLD
  {
    forall a | a in t.reserved
      ensures t.reserved[a].key != ClientKey(cfg, v6, n) && t.reserved[a].until == OFFERED_HOLD
    {
      assert HoldOfClient(cfg, v6, n, t.reserved[a]);
      var i: nat :| i < n && t.reserved[a].key == ClientKey(cfg, v6, i);
      EnoughClients(cfg, v6, i);
      EnoughClients(cfg, v6, n);
      ClientsDiffer(cfg, v6, i, n);
    }
  }

  lemma FreePlace(t: Tables, span: Span) returns (j: nat)
    requires |t.reserved| < span.size
    ensures j < span.size && span.At(j) !in t.reserved
  {
    PlacesCount(span, span.size);
    assert |t.reserved.Keys| == |t.reserved|;
    if Places(span, span.size) <= t.reserved.Keys {
      SubsetSize(Places(span, span.size), t.reserved.Keys);
    }
    var a :| a in Places(span, span.size) && a !in t.reserved;
    j := PlaceOf(span, span.size, a);
  }

  /** While fewer addresses are on offer than the span has, a search finds a new one. */
  lemma FindsAnother(t: Tables, cfg: Config, v6: bool, k: Key)
    requires ScanSpan(cfg, v6).Some? && |t.reserved| < ScanSpan(cfg, v6).value.size && t.byIP == map[]
    requires forall a :: a in t.reserved ==> t.reserved[a].key != k && t.reserved[a].until > 0
    ensures var (t', a) := NextFree(t, cfg, v6, k, 0);
            && a.Some? && a.value !in t.reserved && OnSpan(ScanSpan(cfg, v6).value, a.value)
            && t'.leases == t.leases && t'.byIP == t.byIP && t'.reserved == t.reserved
  {
    var span := ScanSpan(cfg, v6).value;
    var j := FreePlace(t, span);
    assert !HeldByOther(t, span.At(j), k, 0);
    var _ := SearchExact(t, cfg, v6, k, 0);
    NextBare(t, cfg, v6, k, 0);
    assert forall b :: b in t.reserved ==> HeldByOther(t, b, k, 0);
  }

  lemma OneMoreOffer(t: Tables, t': Tables, cfg: Config, v6: bool, n: nat, a: Addr)
    requires FewStatics(cfg) && ScanSpan(cfg, v6).Some? && Flooded(t, cfg, v6, n)
    requires a !in t.reserved && OnSpan(ScanSpan(cfg, v6).value, a)
    requires t'.leases == map[] && t'.byIP == map[]
    requires t'.reserved == t.reserved[a := Hold(ClientKey(cfg, v6, n), OFFERED_HOLD)]
    ensures Flooded(t', cfg, v6, n + 1)
  {
    assert t'.reserved.Keys == t.reserved.Keys + {a};
    assert |t'.reserved| == |t'.reserved.Keys| && |t.reserved| == |t.reserved.Keys|;
    forall b | b in t'.reserved
      ensures HoldOfClient(cfg, v6, n + 1, t'.reserved[b])
    {
      if b != a {
        assert HoldOfClient(cfg, v6, n, t.reserved[b]);
      }
    }
  }

  /** An allocation for a client that is nowhere on record. */
  lemma AllocatedBySearch(t: Tables, cfg: Config, k: Key, now: Time)
    requires k != Nobody && k != Mac([]) && k != Duid([])
    requires StaticFor(cfg.statics, k).None? && k !in t.leases && OfferOf(t, k, now).None?
    ensures var (t', a) := NextFree(t, cfg, k.Duid?, k, now);
            Allocate(t, cfg, k, None, now) == Allocation(if a.Some? then Offer(t', a.value, k, now) else t', a, false)
  {
    assert Allocate(t, cfg, k, None, now) == AllocateFresh(t, cfg, k, None, now);
  }

  lemma AllocatesAnother(t: Tables, cfg: Config, v6: bool, n: nat)
    requires FewStatics(cfg) && ScanSpan(cfg, v6).Some? && Flooded(t, cfg, v6, n) && n < ScanSpan(cfg, v6).value.size
    ensures Flooded(Allocate(t, cfg, ClientKey(cfg, v6, n), None, 0).tables, cfg, v6, n + 1)
  {
    var k := ClientKey(cfg, v6, n);
    Unreserved(cfg, v6, n);
    NewClient(t, cfg, v6, n);
    FindsAnother(t, cfg, v6, k);
    NewOffer(t, cfg, v6, k);
    var (t', a) := NextFree(t, cfg, v6, k, 0);
    OneMoreOffer(t, Offer(t', a.value, k, 0), cfg, v6, n, a.value);
  }

  lemma NewOffer(t: Tables, cfg: Config, v6: bool, k: Key)
    requires k != Nobody && k != Mac([]) && k != Duid([]) && k.Duid? == v6
    requires StaticFor(cfg.statics, k).None? && k !in t.leases
    requires forall a :: a in t.reserved ==> t.reserved[a].key != k
    requires NextFree(t, cfg, v6, k, 0).1.Some?
    ensures var (t', a) := NextFree(t, cfg, v6, k, 0);
            Allocate(t, cfg, k, None, 0).tables == Offer(t', a.value, k, 0)
  {
    assert OfferOf(t, k, 0).None?;
    AllocatedBySearch(t, cfg, k, 0);
  }

  ghost function AfterFlood(cfg: Config, v6: bool, n: nat): World
    requires FewStatics(cfg)
  {
    Reached(cfg, 0, Flood(cfg, v6, n))
  }

  lemma {:induction false} FloodOffers(cfg: Config, v6: bool, n: nat)
    requires FewStatics(cfg) && ScanSpan(cfg, v6).Some? && n <= ScanSpan(cfg, v6).value.size
    ensures var w := AfterFlood(cfg, v6, n);
            Flooded(w.tables, cfg, v6, n) && w.grants == {} && w.clock == 0
  {
    if n > 0 {
      FloodOffers(cfg, v6, n - 1);
      var w := AfterFlood(cfg, v6, n - 1);
      AllocatesAnother(w.tables, cfg, v6, n - 1);
      RunThen(World(EMPTY, {}, 0), cfg, Flood(cfg, v6, n - 1), Ask(cfg, v6, n - 1));
      AskIsAllocation(w, cfg, v6, n - 1);
    } else {
      assert AfterFlood(cfg, v6, 0) == World(EMPTY, {}, 0);
    }
  }

  lemma DiscoverIs(w: World, cfg: Config, mac: HwAddr)
    ensures Step(w, cfg, Event(Discover(mac, Absent, None), 0)) == World(Allocate(w.tables, cfg, Mac(mac), None, 0).tables, w.grants, 0)
  {
  }

  lemma SolicitIs(w: World, cfg: Config, d: DuidOctets)
    requires d != []
    ensures Step(w, cfg, Event(Solicit6(d, Absent, None, false), 0)) == World(Allocate(w.tables, cfg, Duid(d), None, 0).tables, w.grants, 0)
  {
  }

  lemma AskIsAllocation(w: World, cfg: Config, v6: bool, i: nat)
    requires FewStatics(cfg)
    ensures Step(w, cfg, Ask(cfg, v6, i)) == World(Allocate(w.tables, cfg, ClientKey(cfg, v6, i), None, 0).tables, w.grants, 0)
  {
    if v6 {
      SolicitIs(w, cfg, Client(cfg, true, i));
    } else {
      DiscoverIs(w, cfg, Client(cfg, false, i));
    }
  }

  /** When as many clients have asked as the span has addresses, every one of them is on offer. */
  lemma FullyFlooded(cfg: Config, v6: bool, a: Addr)
    requires FewStatics(cfg) && ScanSpan(cfg, v6).Some? && OnSpan(ScanSpan(cfg, v6).value, a)
    ensures var n := ScanSpan(cfg, v6).value.size;
            a in AfterFlood(cfg, v6, n).tables.reserved
  {
    var span := ScanSpan(cfg, v6).value;
    var t := AfterFlood(cfg, v6, span.size).tables;
    FloodOffers(cfg, v6, span.size);
    PlacesCount(span, span.size);
    forall b | b in t.reserved
      ensures b in Places(span, span.size)
    {
      var j: nat :| j < span.size && b == span.At(j);
      PlaceIn(span, span.size, j);
    }
    assert |t.reserved| == |t.reserved.Keys|;
    SubsetSize(t.reserved.Keys, Places(span, span.size));
    var j: nat :| j < span.size && a == span.At(j);
    PlaceIn(span, span.size, j);
  }

  // ----- which ranges the scans stay inside ---------------------------------------------------

  predicate OnOffer(t: Tables, v6: bool, a: Addr) {
    a in t.reserved && if v6 then t.reserved[a].key.Duid? else t.reserved[a].key.Mac?
  }

  ghost predicate RangeHas(cfg: Config, v6: bool, a: Addr) {
    exists ip :: InRange(cfg.range4, cfg.range6, v6, ip) && a == Text(ip)
  }

  /** In every run every offer lies inside the configured range of its family. */
  ghost predicate OffersInRange(cfg: Config, v6: bool) {
    forall start, events, a :: Timely(start, events) && OnOffer(Reached(cfg, start, events).tables, v6, a) ==>
      RangeHas(cfg, v6, a)
  }

  lemma PoolInRange(cfg: Config, v6: bool, a: Addr)
    requires InPool(cfg, v6, a)
    ensures RangeHas(cfg, v6, a)
  {
    var ip := if v6 then To16(a) else a;
    assert InRange(cfg.range4, cfg.range6, v6, ip) && a == Text(ip);
  }

  lemma SpanInside(cfg: Config, v6: bool)
    requires ScanSpan(cfg, v6).Some?
    requires forall a :: OnSpan(ScanSpan(cfg, v6).value, a) ==> RangeHas(cfg, v6, a)
    ensures OffersInRange(cfg, v6)
  {
    forall start, events, a | Timely(start, events) && OnOffer(Reached(cfg, start, events).tables, v6, a)
      ensures RangeHas(cfg, v6, a)
    {
      ReachedOk(cfg, start, events);
      assert (v6, a) in OffersOf(cfg);
      if InPool(cfg, v6, a) {
        PoolInRange(cfg, v6, a);
      }
    }
  }

  lemma OnSpanInRange(cfg: Config, v6: bool, a: Addr)
    requires RangeOk(cfg, v6) && ScanSpan(cfg, v6).Some? && OnSpan(ScanSpan(cfg, v6).value, a)
    ensures RangeHas(cfg, v6, a)
  {
    var span := ScanSpan(cfg, v6).value;
    var j: nat :| j < span.size && a == span.At(j);
    PlaceInRange(cfg, v6, j);
    assert InRange(cfg.range4, cfg.range6, v6, span.Raw(j)) && a == Text(span.Raw(j));
  }

  /** More clients than the range has addresses: one of them is offered an address outside. */
  lemma Overflow(cfg: Config, v6: bool, lo: nat, m: nat)
    requires FewStatics(cfg) && ScanSpan(cfg, v6).Some? && m < ScanSpan(cfg, v6).value.size
    requires forall ip :: InRange(cfg.range4, cfg.range6, v6, ip) ==> lo <= Value(ip) < lo + m
    ensures exists a :: OnOffer(AfterFlood(cfg, v6, m + 1).tables, v6, a) && !RangeHas(cfg, v6, a)
    ensures !OffersInRange(cfg, v6)
  {
    var t := AfterFlood(cfg, v6, m + 1).tables;
    FloodOffers(cfg, v6, m + 1);
    FloodTimely(cfg, v6, m + 1);
    AllAtOnce(Flood(cfg, v6, m + 1));
    var inside := Numbers(if v6 then 16 else 4, lo, m);
    assert |t.reserved| == |t.reserved.Keys|;
    if t.reserved.Keys <= inside {
      SubsetSize(t.reserved.Keys, inside);
    }
    var a :| a in t.reserved && a !in inside;
    assert HoldOfClient(cfg, v6, m + 1, t.reserved[a]);
    if RangeHas(cfg, v6, a) {
      var ip :| InRange(cfg.range4, cfg.range6, v6, ip) && a == Text(ip);
      BytesOfValue(ip);
      NumberIn(|ip|, lo, m, Value(ip));
    }
    assert OnOffer(t, v6, a);
  }

  /** Addresses in a range, none when its bounds are the wrong way round. */
  function RangeSize(lo: nat, hi: nat): nat {
    if lo <= hi then hi - lo + 1 else 0
  }

  /** nextFree4 keeps every run's offers inside the range exactly when the octets of its bounds
      are ordered.  Otherwise one more client than the range has addresses is offered one
      outside. */
  lemma Offers4InRangeIff(cfg: Config)
    requires FewStatics(cfg) && cfg.range4.Some?
    ensures OffersInRange(cfg, false) <==> OctetsOrdered(cfg.range4.value.start, cfg.range4.value.end)
  {
    var r := cfg.range4.value;
    ScanLengthExactIff(r.start, r.end);
    if OctetsOrdered(r.start, r.end) {
      forall a | OnSpan(ScanSpan(cfg, false).value, a)
        ensures RangeHas(cfg, false, a)
      {
        OnSpanInRange(cfg, false, a);
      }
      SpanInside(cfg, false);
    } else {
      Overflow(cfg, false, Value(r.start), RangeSize(Value(r.start), Value(r.end)));
    }
  }

  /** The bounds nextFree6 walks correctly: in order, and ending in all ones only when they start
      at zero. */
  predicate Walked6(r: Range6) {
    Value(r.start) <= Value(r.end) && (Value(r.end) == LIMIT_16 - 1 ==> Value(r.start) == 0)
  }

  lemma OnSpan6InRange(cfg: Config, a: Addr)
    requires cfg.range6.Some? && Walked6(cfg.range6.value) && OnSpan(ScanSpan(cfg, true).value, a)
    ensures RangeHas(cfg, true, a)
  {
    Limited(cfg.range6.value.end);
    if RangeOk(cfg, true) {
      OnSpanInRange(cfg, true, a);
    } else {
      Limited(To16(a));
      assert InRange(cfg.range4, cfg.range6, true, To16(a)) && a == Text(To16(a));
    }
  }

  /** nextFree6 likewise, exactly for those bounds. */
  lemma Offers6InRangeIff(cfg: Config)
    requires FewStatics(cfg) && cfg.range6.Some?
    ensures OffersInRange(cfg, true) <==> Walked6(cfg.range6.value)
  {
    var r := cfg.range6.value;
    Limited(r.start);
    Limited(r.end);
    if Walked6(r) {
      forall a | OnSpan(ScanSpan(cfg, true).value, a)
        ensures RangeHas(cfg, true, a)
      {
        OnSpan6InRange(cfg, a);
      }
      SpanInside(cfg, true);
    } else {
      Overflow(cfg, true, Value(r.start), RangeSize(Value(r.start), Value(r.end)));
    }
  }
}
