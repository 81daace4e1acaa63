/**
 Exactly which configurations are safe, by runs that grant one address twice in all the others.
 */
module DhcpLimits {
  import opened Common
  import opened AddressMath
  import opened DhcpModel
  import opened DhcpTables
  import opened DhcpSafety
  import opened DhcpSearch
  import opened DhcpOffers
  import opened DhcpFlood
  import opened DhcpRestart

  /** Two clients count on one address. */
  ghost predicate DoubleGrant(w: World) {
    exists g, g' :: g in w.grants && g' in w.grants && Clash(g, g', w.clock)
  }

  predicate Clash(g: Grant, g': Grant, now: Time) {
    g.addr == g'.addr && g.client != g'.client && g.until > now && g'.until > now
  }

  /** No run grants an address twice. */
  ghost predicate Safe(cfg: Config) {
    forall start, events :: Timely(start, events) ==> !DoubleGrant(Reached(cfg, start, events))
  }

  predicate AllAt0(events: seq<Event>) {
    forall i :: 0 <= i < |events| ==> events[i].at == 0
  }

  /** One more packet, whose grant clashes with an earlier one. */
  lemma DoubleThen(cfg: Config, run: seq<Event>, e: Event, g: Grant, g': Grant)
    requires AllAt0(run) && e.at == 0 && Clash(g, g', 0)
    requires g in Reached(cfg, 0, run).grants && Handle(Reached(cfg, 0, run).tables, cfg, e.msg, 0).effect == Granted(g')
    ensures !Safe(cfg) && Timely(0, run + [e]) && DoubleGrant(Reached(cfg, 0, run + [e]))
  {
    RunThen(World(EMPTY, {}, 0), cfg, run, e);
    AllAtOnce(run + [e]);
    var w := Reached(cfg, 0, run + [e]);
    assert g in w.grants && g' in w.grants && w.clock == 0;
    assert DoubleGrant(w);
  }

  /** From a second up to 2^32 - 1 seconds, what the lease time options can carry. */
  predicate SaneLease(cfg: Config) {
    SECOND <= LeaseTime(cfg) < 0xffff_ffff * SECOND
  }

  lemma PromisePositive(cfg: Config)
    requires SaneLease(cfg)
    ensures Promise4(cfg) > 0
  {
  }

  // ----- a reservation inside the IPv4 pool ------------------------------------------------

  lemma GrantedInPool(t: Tables, cfg: Config, mac: HwAddr, a: Addr, now: Time)
    requires InPool(cfg, false, a) && !HeldByOther(t, a, Mac(mac), now)
    ensures var m := Request(mac, Ours, Some(a), None);
            var out := Handle(t, cfg, m, now);
            && out == CommitRequested(t, cfg, Mac(mac), a, now)
            && out.effect == Granted(Grant(Mac(mac), a, now + Promise4(cfg)))
            && a in out.tables.byIP && out.tables.byIP[a].key == Mac(mac)
            && a !in out.tables.reserved
  {
  }

  /** A passer-by is granted the address, and so is its owner, whose DISCOVER displaces the
      holder. */
  lemma Static4Breaks(cfg: Config, owner: HwAddr, other: HwAddr, a: Addr)
    requires owner != other && owner != [] && StaticAddr(cfg, Mac(owner)) == Some(a)
    requires InPool(cfg, false, a) && Promise4(cfg) > 0
    ensures var run := [Event(Request(other, Ours, Some(a), None), 0),
                        Event(Discover(owner, Absent, None), 0),
                        Event(Request(owner, Ours, Some(a), None), 0)];
            Timely(0, run) && DoubleGrant(Reached(cfg, 0, run))
  {
    var w0 := World(EMPTY, {}, 0);
    var e1, e2 := Event(Request(other, Ours, Some(a), None), 0), Event(Discover(owner, Absent, None), 0);
    var e3 := Event(Request(owner, Ours, Some(a), None), 0);
    var g, g' := Grant(Mac(other), a, Promise4(cfg)), Grant(Mac(owner), a, Promise4(cfg));
    AllAtOnce([e1, e2, e3]);
    GrantedInPool(EMPTY, cfg, other, a, 0);
    var w1 := Step(w0, cfg, e1);
    assert g in w1.grants;
    var w2 := Step(w1, cfg, e2);
    assert w2 == World(Commit(w1.tables, StaticLeaseFor(Mac(owner), a)), w1.grants, 0);
    GrantedInPool(w2.tables, cfg, owner, a, 0);
    var w3 := Step(w2, cfg, e3);
    assert g in w3.grants && g' in w3.grants && Clash(g, g', 0);
    RunOfThree(w0, cfg, e1, e2, e3);
  }

  lemma RunOfThree(w: World, cfg: Config, e1: Event, e2: Event, e3: Event)
    ensures Run(w, cfg, [e1, e2, e3]) == Step(Step(Step(w, cfg, e1), cfg, e2), cfg, e3)
  {
    assert [e1, e2, e3] == [e1] + [e2] + [e3];
    RunOfOne(w, cfg, e1);
    RunThen(w, cfg, [e1], e2);
    RunThen(w, cfg, [e1] + [e2], e3);
  }

  // ----- a passer-by on any address the IPv6 search can reach --------------------------------

  lemma PoolOnSpan(cfg: Config, a: Addr)
    requires Offerable(cfg, true, a)
    ensures ScanSpan(cfg, true).Some? && OnSpan(ScanSpan(cfg, true).value, a)
  {
    if InPool(cfg, true, a) {
      Limited(cfg.range6.value.end);
      NumberOnSpan(ScanSpan(cfg, true).value, To16(a));
    }
  }

  lemma NumberOnSpan(span: Span, ip: seq<Byte>)
    requires |ip| == span.width && span.base <= Value(ip) < span.base + span.size <= span.Limit()
    ensures OnSpan(span, Text(ip))
  {
    RawOfNumber(span, ip);
    assert Text(ip) == span.At(Value(ip) - span.base);
  }

  /** Rapid commit, of an offer and of a reservation. */
  function Rapid(d: DuidOctets): Event { Event(Solicit6(d, Absent, None, true), 0) }

  lemma RapidTakesOffer(t: Tables, cfg: Config, d: DuidOctets, a: Addr, until: Time)
    requires OneOffer(t, 0) && d != [] && StaticFor(cfg.statics, Duid(d)).None? && Waiting(t, a, Duid(d), until) && until > 0
    ensures Handle(t, cfg, Rapid(d).msg, 0)
         == Outcome(Commit(t, DynamicLeaseFor(LeaseTime(cfg), Duid(d), a, 0)), Granted(Grant(Duid(d), a, LeaseTime(cfg))))
  {
    OnlyOffer(t, Duid(d), a, 0);
  }

  lemma RapidStatic(t: Tables, cfg: Config, d: DuidOctets, a: Addr)
    requires StaticAddr(cfg, Duid(d)) == Some(a)
    ensures var l := StaticLeaseFor(Duid(d), a);
            Handle(t, cfg, Rapid(d).msg, 0) == Outcome(Commit(Commit(t, l), l), Granted(Grant(Duid(d), a, 0xffff_ffff * SECOND)))
  {
    var _ := StaticForFound(cfg.statics, Duid(d));
  }

  ghost function Size6(cfg: Config): nat
    requires ScanSpan(cfg, true).Some?
  {
    ScanSpan(cfg, true).value.size
  }

  /** After the flood the client that holds the offer of `a`. */
  lemma Holder(cfg: Config, a: Addr) returns (j: nat)
    requires FewStatics(cfg) && ScanSpan(cfg, true).Some? && OnSpan(ScanSpan(cfg, true).value, a)
    ensures j < Size6(cfg) && Waiting(AfterFlood(cfg, true, Size6(cfg)).tables, a, Duid(Client(cfg, true, j)), OFFERED_HOLD)
    ensures OneOffer(AfterFlood(cfg, true, Size6(cfg)).tables, 0)
  {
    var n := Size6(cfg);
    var t := AfterFlood(cfg, true, n).tables;
    FullyFlooded(cfg, true, a);
    FloodOffers(cfg, true, n);
    assert HoldOfClient(cfg, true, n, t.reserved[a]);
    j :| 0 <= j < n && t.reserved[a].key == ClientKey(cfg, true, j);
    FloodTimely(cfg, true, n);
    AllAtOnce(Flood(cfg, true, n));
    ReachedOk(cfg, 0, Flood(cfg, true, n));
  }

  /** The flood, and then the holder of the offer takes it up. */
  ghost function Occupied(cfg: Config, j: nat): seq<Event>
    requires FewStatics(cfg) && ScanSpan(cfg, true).Some?
  {
    Flood(cfg, true, Size6(cfg)) + [Rapid(Client(cfg, true, j))]
  }

  lemma OccupiedWorld(cfg: Config, a: Addr) returns (j: nat)
    requires FewStatics(cfg) && ScanSpan(cfg, true).Some? && OnSpan(ScanSpan(cfg, true).value, a)
    ensures j < Size6(cfg)
    ensures var w, t := Reached(cfg, 0, Occupied(cfg, j)), AfterFlood(cfg, true, Size6(cfg)).tables;
            var k := Duid(Client(cfg, true, j));
            w == World(Commit(t, DynamicLeaseFor(LeaseTime(cfg), k, a, 0)), {Grant(k, a, LeaseTime(cfg))}, 0)
    ensures forall i :: 0 <= i < |Occupied(cfg, j)| ==> Occupied(cfg, j)[i].at == 0
  {
    j := Holder(cfg, a);
    var n := Size6(cfg);
    Unreserved(cfg, true, j);
    FloodOffers(cfg, true, n);
    FloodTimely(cfg, true, n);
    TakenUp(AfterFlood(cfg, true, n), cfg, Client(cfg, true, j), a);
    RunThen(World(EMPTY, {}, 0), cfg, Flood(cfg, true, n), Rapid(Client(cfg, true, j)));
  }

  lemma TakenUp(w: World, cfg: Config, d: DuidOctets, a: Addr)
    requires w.grants == {} && w.clock == 0 && OneOffer(w.tables, 0) && d != []
    requires StaticFor(cfg.statics, Duid(d)).None? && Waiting(w.tables, a, Duid(d), OFFERED_HOLD)
    ensures Step(w, cfg, Rapid(d))
         == World(Commit(w.tables, DynamicLeaseFor(LeaseTime(cfg), Duid(d), a, 0)), {Grant(Duid(d), a, LeaseTime(cfg))}, 0)
  {
    RapidTakesOffer(w.tables, cfg, d, a, OFFERED_HOLD);
  }

  lemma RequestGrants(t: Tables, cfg: Config, d: DuidOctets, a: Addr, now: Time)
    requires InPool(cfg, true, a) && !HeldByOther(t, a, Duid(d), now) && d != []
    ensures var out := Handle(t, cfg, Request6(d, Absent, Some(a)), now);
            out.effect.Granted? && out.effect.grant.client == Duid(d) && out.effect.grant.addr == a && out.effect.grant.until > now
  {
  }

  /** A reserved address inside the IPv6 pool: one REQUEST of a passer-by and one rapid SOLICIT of
      its owner. */
  lemma Static6InPoolBreaks(cfg: Config, owner: DuidOctets, a: Addr)
    requires StaticAddr(cfg, Duid(owner)) == Some(a) && InPool(cfg, true, a)
    ensures var run := [Event(Request6(Other(owner), Absent, Some(a)), 0)] + [Rapid(owner)];
            Timely(0, run) && DoubleGrant(Reached(cfg, 0, run))
  {
    var w0, e := World(EMPTY, {}, 0), Event(Request6(Other(owner), Absent, Some(a)), 0);
    RequestGrants(EMPTY, cfg, Other(owner), a, 0);
    RunOfOne(w0, cfg, e);
    var w1 := Step(w0, cfg, e);
    var g, g' := Handle(EMPTY, cfg, e.msg, 0).effect.grant, Grant(Duid(owner), a, 0xffff_ffff * SECOND);
    assert w1.grants == {g};
    RapidStatic(w1.tables, cfg, owner, a);
    DoubleThen(cfg, [e], Rapid(owner), g, g');
  }

  /** A reserved address outside the pool that the IPv6 search can reach all the same: when as many
      clients have asked as the search has addresses, one of them is granted it, then its owner. */
  lemma Static6OnSpanBreaks(cfg: Config, owner: DuidOctets, a: Addr)
    requires FewStatics(cfg) && StaticAddr(cfg, Duid(owner)) == Some(a) && Offerable(cfg, true, a)
    ensures !Safe(cfg)
  {
    PoolOnSpan(cfg, a);
    var j := OccupiedWorld(cfg, a);
    Unreserved(cfg, true, j);
    RapidStatic(Reached(cfg, 0, Occupied(cfg, j)).tables, cfg, owner, a);
    DoubleThen(cfg, Occupied(cfg, j), Rapid(owner), Grant(Duid(Client(cfg, true, j)), a, LeaseTime(cfg)),
               Grant(Duid(owner), a, 0xffff_ffff * SECOND));
  }

  /** A reserved address that the IPv6 pool or its search may grant is granted twice. */
  lemma Static6Breaks(cfg: Config, owner: DuidOctets, a: Addr)
    requires FewStatics(cfg) && StaticAddr(cfg, Duid(owner)) == Some(a) && Offerable(cfg, true, a)
    ensures !Safe(cfg)
  {
    if InPool(cfg, true, a) {
      Static6InPoolBreaks(cfg, owner, a);
    } else {
      Static6OnSpanBreaks(cfg, owner, a);
    }
  }

  // ----- a reserved IPv4 address whose mapped form the IPv6 search can reach --------------------

  lemma DiscoverStatic(t: Tables, cfg: Config, mac: HwAddr, a: Addr)
    requires StaticAddr(cfg, Mac(mac)) == Some(a)
    ensures Handle(t, cfg, Discover(mac, Absent, None), 0) == Outcome(Commit(t, StaticLeaseFor(Mac(mac), a)), Silent)
  {
    var _ := StaticForFound(cfg.statics, Mac(mac));
  }

  /** What is left once the owner has displaced the holder and released the address. */
  lemma Vacated(cfg: Config, j: nat, mac: HwAddr, a: Addr) returns (w: World)
    requires FewStatics(cfg) && ScanSpan(cfg, true).Some? && a != ZERO4 && StaticAddr(cfg, Mac(mac)) == Some(a)
    requires var w, t := Reached(cfg, 0, Occupied(cfg, j)), AfterFlood(cfg, true, Size6(cfg)).tables;
             var k := Duid(Client(cfg, true, j));
             w == World(Commit(t, DynamicLeaseFor(LeaseTime(cfg), k, a, 0)), {Grant(k, a, LeaseTime(cfg))}, 0)
    ensures var t := AfterFlood(cfg, true, Size6(cfg)).tables;
            && w.tables.leases == map[] && w.tables.byIP == map[] && w.tables.reserved == t.reserved - {a}
            && w.grants == {Grant(Duid(Client(cfg, true, j)), a, LeaseTime(cfg))} && w.clock == 0
    ensures w == Reached(cfg, 0, VacatingRun(cfg, j, mac, a))
  {
    var n, w0 := Size6(cfg), World(EMPTY, {}, 0);
    var e, e' := Event(Discover(mac, Absent, None), 0), Event(ReleaseMsg(mac, Some(a)), 0);
    FloodOffers(cfg, true, n);
    var w1 := Reached(cfg, 0, Occupied(cfg, j));
    RunThen(w0, cfg, Occupied(cfg, j), e);
    RunThen(w0, cfg, Occupied(cfg, j) + [e], e');
    w := DisplacedAndReleased(w1, cfg, AfterFlood(cfg, true, n).tables, Client(cfg, true, j), mac, a);
  }

  lemma DisplacedAndReleased(w1: World, cfg: Config, t: Tables, d: DuidOctets, mac: HwAddr, a: Addr) returns (w: World)
    requires t.leases == map[] && t.byIP == map[] && a != ZERO4 && StaticAddr(cfg, Mac(mac)) == Some(a)
    requires w1 == World(Commit(t, DynamicLeaseFor(LeaseTime(cfg), Duid(d), a, 0)), {Grant(Duid(d), a, LeaseTime(cfg))}, 0)
    ensures w == Step(Step(w1, cfg, Event(Discover(mac, Absent, None), 0)), cfg, Event(ReleaseMsg(mac, Some(a)), 0))
    ensures && w.tables.leases == map[] && w.tables.byIP == map[] && w.tables.reserved == t.reserved - {a}
            && w.grants == w1.grants && w.clock == 0
  {
    DiscoverStatic(w1.tables, cfg, mac, a);
    var w2 := Step(w1, cfg, Event(Discover(mac, Absent, None), 0));
    ReleasedAgain(t, cfg, Duid(d), mac, a);
    w := Step(w2, cfg, Event(ReleaseMsg(mac, Some(a)), 0));
  }

  lemma ReleasedAgain(t: Tables, cfg: Config, k: Key, mac: HwAddr, a: Addr)
    requires t.leases == map[] && t.byIP == map[] && a != ZERO4 && k != Mac(mac)
    ensures var t2 := Commit(Commit(t, DynamicLeaseFor(LeaseTime(cfg), k, a, 0)), StaticLeaseFor(Mac(mac), a));
            var out := Handle(t2, cfg, ReleaseMsg(mac, Some(a)), 0);
            && out.tables.leases == map[] && out.tables.byIP == map[] && out.tables.reserved == t.reserved - {a}
            && out.effect == Released(Mac(mac), a)
  {
  }

  /** With every other address on offer, a new client gets the vacated one. */
  lemma OnlyOneLeft(cfg: Config, t: Tables, a: Addr, k: Key)
    requires FewStatics(cfg) && ScanSpan(cfg, true).Some? && OnSpan(ScanSpan(cfg, true).value, a)
    requires t.byIP == map[] && t.reserved == AfterFlood(cfg, true, Size6(cfg)).tables.reserved - {a}
    requires forall b :: b in t.reserved ==> t.reserved[b].key != k && t.reserved[b].until > 0
    ensures NextFree(t, cfg, true, k, 0).1 == Some(a)
  {
    var span := ScanSpan(cfg, true).value;
    var _ := SearchExact(t, cfg, true, k, 0);
    var found := NextFree(t, cfg, true, k, 0).1;
    assert !HeldByOther(t, a, k, 0);
    assert found.Some?;
    if found.value != a {
      assert OnSpan(span, found.value);
      FullyFlooded(cfg, true, found.value);
      assert HeldByOther(t, found.value, k, 0);
    }
  }

  /** A client the flood has not seen. */
  predicate Newcomer(cfg: Config, d: DuidOctets, reserved: map<Addr, Hold>) {
    && d != [] && StaticFor(cfg.statics, Duid(d)).None?
    && forall b :: b in reserved ==> reserved[b].key != Duid(d) && reserved[b].until > 0
  }

  lemma NextNewcomer(cfg: Config) returns (d: DuidOctets)
    requires FewStatics(cfg) && ScanSpan(cfg, true).Some?
    ensures Newcomer(cfg, d, AfterFlood(cfg, true, Size6(cfg)).tables.reserved)
    ensures forall j: nat :: j < Size6(cfg) ==> d != Client(cfg, true, j)
  {
    var n := Size6(cfg);
    d := Client(cfg, true, n);
    FloodOffers(cfg, true, n);
    Unreserved(cfg, true, n);
    NewClient(AfterFlood(cfg, true, n).tables, cfg, true, n);
    EnoughClients(cfg, true, n);
    forall j: nat | j < n
      ensures d != Client(cfg, true, j)
    {
      EnoughClients(cfg, true, j);
      ClientsDiffer(cfg, true, j, n);
    }
  }

  lemma NotOffered(t: Tables, k: Key, now: Time)
    requires forall b :: b in t.reserved ==> t.reserved[b].key != k
    ensures OfferOf(t, k, now).None?
  {
  }

  lemma RapidFromSearch(t: Tables, cfg: Config, d: DuidOctets, a: Addr, now: Time)
    requires d != [] && StaticFor(cfg.statics, Duid(d)).None? && Duid(d) !in t.leases
    requires forall b :: b in t.reserved ==> t.reserved[b].key != Duid(d)
    requires NextFree(t, cfg, true, Duid(d), now).1 == Some(a)
    ensures Handle(t, cfg, Solicit6(d, Absent, None, true), now).effect == Granted(Grant(Duid(d), a, now + LeaseTime(cfg)))
  {
    NotOffered(t, Duid(d), now);
    AllocatedBySearch(t, cfg, Duid(d), now);
    SolicitAnswered(t, cfg, d, now);
    RapidAnswer(Allocate(t, cfg, Duid(d), None, now), cfg, d, now);
  }

  lemma SolicitAnswered(t: Tables, cfg: Config, d: DuidOctets, now: Time)
    requires d != []
    ensures Handle(t, cfg, Solicit6(d, Absent, None, true), now)
         == AnswerSolicit(Allocate(t, cfg, Duid(d), None, now), cfg, Duid(d), true, now)
  {
  }

  lemma RapidAnswer(x: Allocation, cfg: Config, d: DuidOctets, now: Time)
    requires x.addr.Some? && !x.fixed
    ensures AnswerSolicit(x, cfg, Duid(d), true, now).effect == Granted(Grant(Duid(d), x.addr.value, now + LeaseTime(cfg)))
  {
  }

  /** A passer-by is granted the address; its IPv4 owner displaces it, and releases it although
      never granted it; the next client is granted it too. */
  lemma MappedStaticBreaks(cfg: Config, mac: HwAddr, a: Addr)
    requires FewStatics(cfg) && StaticAddr(cfg, Mac(mac)) == Some(a) && a != ZERO4 && Offerable(cfg, true, a)
    ensures !Safe(cfg)
  {
    PoolOnSpan(cfg, a);
    var run, k, d := VacatedFor(cfg, mac, a);
    OnlyOneLeft(cfg, Reached(cfg, 0, run).tables, a, Duid(d));
    SecondGrant(cfg, run, a, k, d);
  }

  lemma VacatedFor(cfg: Config, mac: HwAddr, a: Addr) returns (run: seq<Event>, k: Key, d: DuidOctets)
    requires FewStatics(cfg) && StaticAddr(cfg, Mac(mac)) == Some(a) && a != ZERO4
    requires ScanSpan(cfg, true).Some? && OnSpan(ScanSpan(cfg, true).value, a)
    ensures AllAt0(run) && k != Duid(d)
    ensures var w := Reached(cfg, 0, run);
            && w.clock == 0 && Grant(k, a, LeaseTime(cfg)) in w.grants && w.tables.leases == map[] && w.tables.byIP == map[]
            && w.tables.reserved == AfterFlood(cfg, true, Size6(cfg)).tables.reserved - {a}
            && Newcomer(cfg, d, w.tables.reserved)
  {
    var j := OccupiedWorld(cfg, a);
    d := NextNewcomer(cfg);
    k := Duid(Client(cfg, true, j));
    var w := Vacated(cfg, j, mac, a);
    run := VacatingRun(cfg, j, mac, a);
  }

  ghost function VacatingRun(cfg: Config, j: nat, mac: HwAddr, a: Addr): seq<Event>
    requires FewStatics(cfg) && ScanSpan(cfg, true).Some?
  {
    Occupied(cfg, j) + [Event(Discover(mac, Absent, None), 0)] + [Event(ReleaseMsg(mac, Some(a)), 0)]
  }

  /** The search hands the newcomer an address that `k` is still granted. */
  lemma SecondGrant(cfg: Config, run: seq<Event>, a: Addr, k: Key, d: DuidOctets)
    requires AllAt0(run) && k != Duid(d)
    requires var w := Reached(cfg, 0, run);
             && w.clock == 0 && Grant(k, a, LeaseTime(cfg)) in w.grants && Duid(d) !in w.tables.leases
             && Newcomer(cfg, d, w.tables.reserved) && NextFree(w.tables, cfg, true, Duid(d), 0).1 == Some(a)
    ensures !Safe(cfg)
  {
    RapidFromSearch(Reached(cfg, 0, run).tables, cfg, d, a, 0);
    DoubleThen(cfg, run, Rapid(d), Grant(k, a, LeaseTime(cfg)), Grant(Duid(d), a, LeaseTime(cfg)));
  }

  // ----- an IPv4 address reserved for a DUID ------------------------------------------------------

  /** The REQUEST of the mapped address makes the lease static and promises it for 2^32 - 1
      seconds; a rapid SOLICIT turns it into a dynamic one, and when that expires the address goes
      to someone else. */
  lemma MappedDuidBreaks(cfg: Config, d: DuidOctets)
    requires MappedClash(cfg, d) && SaneLease(cfg)
    ensures !Safe(cfg)
  {
    var k, a, life := Duid(d), StaticFor(cfg.statics, Duid(d)).value.ip, LeaseTime(cfg);
    var other := Other(d);
    var _ := StaticForFound(cfg.statics, k);
    var w0 := World(EMPTY, {}, 0);
    var e1, e3 := Event(Request6(d, Absent, Some(a)), 0), Event(Request6(other, Absent, Some(a)), life);
    var w1 := Step(w0, cfg, e1);
    var w2 := Step(w1, cfg, Rapid(d));
    MappedTurned(cfg, d, a);
    RequestGrants(w2.tables, cfg, other, a, life);
    var w3 := Step(w2, cfg, e3);
    var g, g' := Grant(k, a, 0xffff_ffff * SECOND), Handle(w2.tables, cfg, e3.msg, life).effect.grant;
    assert g in w3.grants && g' in w3.grants && Clash(g, g', life);
    RunOfThree(w0, cfg, e1, Rapid(d), e3);
    ThreeTimely(e1, Rapid(d), e3);
    assert DoubleGrant(Reached(cfg, 0, [e1, Rapid(d), e3]));
  }

  lemma MappedTurned(cfg: Config, d: DuidOctets, a: Addr)
    requires d != [] && MappedClash(cfg, d) && a == StaticFor(cfg.statics, Duid(d)).value.ip
    ensures var w := Step(Step(World(EMPTY, {}, 0), cfg, Event(Request6(d, Absent, Some(a)), 0)), cfg, Rapid(d));
            && w.tables == Commit(Commit(EMPTY, StaticLeaseFor(Duid(d), a)), DynamicLeaseFor(LeaseTime(cfg), Duid(d), a, 0))
            && Grant(Duid(d), a, 0xffff_ffff * SECOND) in w.grants && w.clock == 0
  {
    var k := Duid(d);
    var w1 := Step(World(EMPTY, {}, 0), cfg, Event(Request6(d, Absent, Some(a)), 0));
    MappedRequest(cfg, d, a);
    assert Allocate(w1.tables, cfg, k, None, 0) == Allocation(w1.tables, Some(a), false);
  }

  lemma MappedRequest(cfg: Config, d: DuidOctets, a: Addr)
    requires d != [] && MappedClash(cfg, d) && a == StaticFor(cfg.statics, Duid(d)).value.ip
    ensures var w := Step(World(EMPTY, {}, 0), cfg, Event(Request6(d, Absent, Some(a)), 0));
            w == World(Commit(EMPTY, StaticLeaseFor(Duid(d), a)), {Grant(Duid(d), a, 0xffff_ffff * SECOND)}, 0)
  {
    assert !HeldByOther(EMPTY, a, Duid(d), 0);
  }

  lemma ThreeTimely(e1: Event, e2: Event, e3: Event)
    requires 0 <= e1.at <= e2.at <= e3.at
    ensures Timely(0, [e1, e2, e3])
  {
    assert [e1, e2, e3][1..] == [e2, e3] && [e2, e3][1..] == [e3] && [e3][1..] == [];
    assert Timely(e2.at, [e3]);
    assert Timely(e1.at, [e2, e3]);
  }

  // ----- one IPv6 address reserved for two DUIDs ---------------------------------------------------

  lemma SharedBreaks(cfg: Config, d: DuidOctets, d': DuidOctets)
    requires d != d' && SharedReservation(cfg, d, d')
    ensures !Safe(cfg)
  {
    var a, w0 := StaticAddr(cfg, Duid(d)).value, World(EMPTY, {}, 0);
    RapidStatic(w0.tables, cfg, d, a);
    RunOfOne(w0, cfg, Rapid(d));
    var w1 := Step(w0, cfg, Rapid(d));
    RapidStatic(w1.tables, cfg, d', a);
    DoubleThen(cfg, [Rapid(d)], Rapid(d'), Grant(Duid(d), a, 0xffff_ffff * SECOND), Grant(Duid(d'), a, 0xffff_ffff * SECOND));
  }

  // ----- exactly when ----------------------------------------------------------------------------

  lemma OkIsSafe(cfg: Config)
    requires ConfigOk(cfg)
    ensures Safe(cfg)
  {
    forall start, events | Timely(start, events)
      ensures !DoubleGrant(Reached(cfg, start, events))
    {
      var w := Reached(cfg, start, events);
      forall g, g' | g in w.grants && g' in w.grants
        ensures !Clash(g, g', w.clock)
      {
        if Clash(g, g', w.clock) {
          NoDoubleGrant(cfg, start, events, w.clock, g, g');
        }
      }
    }
  }

  lemma PooledBreaks(cfg: Config, k: Key, a: Addr)
    requires FewStatics(cfg) && SaneLease(cfg) && StaticAddr(cfg, k) == Some(a) && a != ZERO4 && Pooled(cfg, a)
    ensures !Safe(cfg)
  {
    var _ := StaticForFound(cfg.statics, k);
    PromisePositive(cfg);
    if k.Duid? {
      Static6Breaks(cfg, k.duid, a);
    } else if InPool(cfg, false, a) {
      Static4Breaks(cfg, k.mac, Other(k.mac), a);
    } else {
      MappedStaticBreaks(cfg, k.mac, a);
    }
  }

  /** The server never grants an address twice exactly when no client's reserved address is one
      that the pools may grant, and no two DUIDs share a reservation. */
  lemma SafeIff(cfg: Config)
    requires FewStatics(cfg) && SaneLease(cfg) && forall k :: StaticAddr(cfg, k) != Some(ZERO4)
    ensures Safe(cfg) <==> ConfigOk(cfg)
  {
    if ConfigOk(cfg) {
      OkIsSafe(cfg);
    } else if k :| StaticAddr(cfg, k).Some? && Pooled(cfg, StaticAddr(cfg, k).value) {
      PooledBreaks(cfg, k, StaticAddr(cfg, k).value);
    } else if d :| MappedClash(cfg, d) {
      MappedDuidBreaks(cfg, d);
    } else {
      var d, d' :| d != d' && SharedReservation(cfg, d, d');
      SharedBreaks(cfg, d, d');
    }
  }

  // ----- a client that moved ------------------------------------------------------------------------

  /** The client that moved, whose old by-address record is left behind: a stranger's DECLINE of
      the old address drops its lease on the new one. */
  lemma MovedLeaseDropped(cfg: Config, mac: HwAddr, a: Addr, b: Addr) returns (m: Msg)
    requires a != b && InPool(cfg, false, a) && InPool(cfg, false, b) && Promise4(cfg) > 0
    ensures var t := TwoRequests(cfg, mac, a, b).tables;
            && Mac(mac) in t.leases && t.leases[Mac(mac)].ip == b && t.leases[Mac(mac)].Live(0)
            && DhcpOffers.Foreign(m, Mac(mac), b) && !Survives(t, cfg, Mac(mac), m, 0)
  {
    MovedClient(cfg, mac, a, b);
    m := SecondRecordDropped(TwoRequests(cfg, mac, a, b).tables, cfg, Mac(mac), a, 0);
  }
}
