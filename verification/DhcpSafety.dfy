/**
 Section 1.6 of RFC 2131 over whole runs: no address is granted to two clients at once.
 On top of the table invariant, every grant still running is tied to the by-address table.
 */
module DhcpSafety {
  import opened Common
  import opened AddressMath
  import opened DhcpModel
  import opened DhcpTables

  /** An address that clients of a family may be granted without a reservation for it: an IPv4
      REQUEST is held to the pool, an IPv6 rapid commit to what a search can offer. */
  ghost predicate Served(cfg: Config, v6: bool, a: Addr) {
    if v6 then Offerable(cfg, true, a) else InPool(cfg, false, a)
  }

  ghost predicate Pooled(cfg: Config, a: Addr) {
    Served(cfg, false, a) || Served(cfg, true, a)
  }

  /** No client's reserved address is one the pools may grant, and no two DUIDs share one.  An
      IPv4 address reserved for a DUID counts when the IPv6 pool holds its mapped form. */
  ghost predicate ConfigOk(cfg: Config) {
    && (forall k :: StaticAddr(cfg, k).Some? ==> !Pooled(cfg, StaticAddr(cfg, k).value))
    && (forall d :: !MappedClash(cfg, d))
    && (forall d, d' :: d != d' ==> !SharedReservation(cfg, d, d'))
  }

  predicate MappedClash(cfg: Config, d: DuidOctets) {
    var st := StaticFor(cfg.statics, Duid(d));
    st.Some? && |st.value.ip| == 4 && InPool(cfg, true, st.value.ip)
  }

  predicate SharedReservation(cfg: Config, d: DuidOctets, d': DuidOctets) {
    StaticAddr(cfg, Duid(d)).Some? && StaticAddr(cfg, Duid(d)) == StaticAddr(cfg, Duid(d'))
  }

  /** All the invariant needs to know of a configuration. */
  datatype Rules = Rules(pool: iset<(bool, Addr)>, fixedFor: iset<(Key, Addr)>, leaseTime: Time)

  ghost predicate RulesOk(r: Rules) {
    && r.leaseTime > 0
    && (forall k, a, v6 :: (k, a) in r.fixedFor ==> (v6, a) !in r.pool)
    && (forall k, k', a :: (k, a) in r.fixedFor && (k', a) in r.fixedFor ==> k == k' || (k.Mac? && k'.Mac?))
  }

  ghost function RulesOf(cfg: Config): Rules {
    Rules(iset v6: bool, a: Addr | Served(cfg, v6, a) :: (v6, a),
          iset k: Key, a: Addr | StaticAddr(cfg, k) == Some(a) :: (k, a),
          LeaseTime(cfg))
  }

  lemma RulesOfOk(cfg: Config)
    requires ConfigOk(cfg)
    ensures RulesOk(RulesOf(cfg))
  {
    var r := RulesOf(cfg);
    forall k, k', a | (k, a) in r.fixedFor && (k', a) in r.fixedFor
      ensures k == k' || (k.Mac? && k'.Mac?)
    {
      var _ := StaticForFound(cfg.statics, k);
      var _ := StaticForFound(cfg.statics, k');
      if k.Duid? && k'.Duid? {
        assert !(k.duid != k'.duid) || !SharedReservation(cfg, k.duid, k'.duid);
      }
    }
  }

  // ----- the invariant -------------------------------------------------------------

  ghost predicate WellFiled(r: Rules, clock: Time, a: Addr, l: Lease) {
    && l.ip == a
    && (l.fixed ==> (l.key, a) in r.fixedFor)
    && (!l.fixed ==> (l.key.Duid?, a) in r.pool && l.expires <= clock + r.leaseTime)
  }

  ghost predicate Filed(t: Tables, r: Rules, clock: Time) {
    forall a :: a in t.byIP ==> WellFiled(r, clock, a, t.byIP[a])
  }

  /** Every grant still running is recorded against its address, at least as long. */
  predicate Backed(t: Tables, grants: set<Grant>, clock: Time) {
    forall g :: g in grants && g.until > clock ==> BackedBy(t, g)
  }

  predicate BackedBy(t: Tables, g: Grant) {
    && g.addr in t.byIP
    && t.byIP[g.addr].key == g.client
    && (t.byIP[g.addr].fixed || t.byIP[g.addr].expires >= g.until)
  }

  /** Grants are for pool addresses, or for reservations of DUIDs. */
  ghost predicate Placed(r: Rules, g: Grant) {
    (g.client.Duid?, g.addr) in r.pool || (g.client.Duid? && (g.client, g.addr) in r.fixedFor)
  }

  ghost predicate GrantsOk(t: Tables, r: Rules, grants: set<Grant>, clock: Time) {
    && Filed(t, r, clock) && Backed(t, grants, clock)
    && forall g :: g in grants ==> Placed(r, g)
  }

  ghost predicate WorldOk(w: World, cfg: Config) {
    TablesOk(w.tables, OffersOf(cfg), w.clock) && GrantsOk(w.tables, RulesOf(cfg), w.grants, w.clock)
  }

  // ----- one table operation at a time ----------------------------------------------

  lemma TimeKeeps(t: Tables, r: Rules, grants: set<Grant>, clock: Time, now: Time)
    requires GrantsOk(t, r, grants, clock) && clock <= now
    ensures GrantsOk(t, r, grants, now)
  {
    assert forall a :: a in t.byIP ==> WellFiled(r, clock, a, t.byIP[a]);
  }

  lemma ReclaimKeeps(t: Tables, r: Rules, grants: set<Grant>, a: Addr, k: Key, now: Time)
    requires GrantsOk(t, r, grants, now)
    ensures GrantsOk(Reclaim(t, a, k, now), r, grants, now)
  {
    var t' := Reclaim(t, a, k, now);
    assert forall b :: b in t'.byIP ==> WellFiled(r, now, b, t.byIP[b]);
  }

  /** Only a reservation of a hardware address may displace a record, and on such an address
      nobody counts. */
  ghost predicate MayFile(t: Tables, l: Lease) {
    Mine(t, l.ip, l.key) || (l.fixed && l.key.Mac?)
  }

  lemma CommitKeeps(t: Tables, r: Rules, grants: set<Grant>, l: Lease, now: Time)
    requires RulesOk(r) && GrantsOk(t, r, grants, now)
    requires MayFile(t, l) && WellFiled(r, now, l.ip, l)
    requires l.fixed || l.expires == now + r.leaseTime
    ensures GrantsOk(Commit(t, l), r, grants, now)
  {
    var t' := Commit(t, l);
    assert forall b :: b in t'.byIP && b != l.ip ==> WellFiled(r, now, b, t.byIP[b]);
    forall g | g in grants && g.until > now
      ensures BackedBy(t', g)
    {
      assert BackedBy(t, g) && Placed(r, g);
      assert WellFiled(r, now, g.addr, t.byIP[g.addr]);
    }
  }

  lemma RenewKeeps(t: Tables, r: Rules, grants: set<Grant>, k: Key, now: Time)
    requires RulesOk(r) && Indexed(t) && GrantsOk(t, r, grants, now) && k in t.leases
    ensures GrantsOk(Renew(t, r.leaseTime, k, now), r, grants, now)
  {
    var l := t.leases[k];
    assert WellFiled(r, now, l.ip, t.byIP[l.ip]);
    if !l.fixed {
      RenewIsCommit(t, r.leaseTime, k, now);
      CommitKeeps(t, r, grants, l.(expires := now + r.leaseTime), now);
    }
  }

  ghost predicate OutcomeOk(out: Outcome, r: Rules, grants: set<Grant>, now: Time) {
    GrantsOk(out.tables, r, Settle(grants, out.effect), now)
  }

  lemma ReleaseKeeps(t: Tables, r: Rules, grants: set<Grant>, k: Key, a: Option<Addr>, now: Time)
    requires Indexed(t) && GrantsOk(t, r, grants, now)
    ensures OutcomeOk(HandleRelease(t, k, a), r, grants, now)
  {
    var t' := Release(t, k, a);
    assert forall b :: b in t'.byIP ==> WellFiled(r, now, b, t.byIP[b]);
  }

  ghost function Without(grants: set<Grant>, addrs: set<Addr>): set<Grant> {
    set g | g in grants && g.addr !in addrs
  }

  lemma DeclineKeeps(t: Tables, r: Rules, grants: set<Grant>, a: Addr, now: Time)
    requires GrantsOk(t, r, grants, now)
    ensures GrantsOk(Decline(t, a, now), r, Without(grants, {a}), now)
  {
    var t' := Decline(t, a, now);
    assert forall b :: b in t'.byIP ==> WellFiled(r, now, b, t.byIP[b]);
  }

  lemma {:induction false} DeclineAllKeeps(t: Tables, r: Rules, grants: set<Grant>, addrs: seq<Addr>, now: Time)
    requires GrantsOk(t, r, grants, now)
    ensures GrantsOk(DeclineAll(t, addrs, now), r, Without(grants, set a | a in addrs), now)
    decreases addrs
  {
    if addrs == [] {
      assert Without(grants, set a | a in addrs) == grants;
    } else {
      var kept := Without(grants, {addrs[0]});
      DeclineKeeps(t, r, grants, addrs[0], now);
      DeclineAllKeeps(Decline(t, addrs[0], now), r, kept, addrs[1..], now);
      assert forall a :: a in addrs <==> a == addrs[0] || a in addrs[1..];
      assert Without(kept, set a | a in addrs[1..]) == Without(grants, set a | a in addrs);
    }
  }

  // ----- the search and the allocation ------------------------------------------------

  lemma {:induction false} ScanKeeps(t: Tables, r: Rules, grants: set<Grant>, span: Span, p: nat, i: nat, k: Key, now: Time)
    requires GrantsOk(t, r, grants, now) && p < span.size
    ensures GrantsOk(Scan(t, span, p, i, k, now).0, r, grants, now)
    decreases span.size - i
  {
    if i < span.size {
      var a := span.At(Place(p, i, span.size));
      ReclaimKeeps(t, r, grants, a, k, now);
      if HeldByOther(t, a, k, now) {
        ScanKeeps(Reclaim(t, a, k, now), r, grants, span, p, i + 1, k, now);
      }
    }
  }

  lemma AllocateFreshKeeps(t: Tables, cfg: Config, r: Rules, grants: set<Grant>, k: Key, requested: Option<Addr>, now: Time)
    requires GrantsOk(t, r, grants, now)
    ensures GrantsOk(AllocateFresh(t, cfg, k, requested, now).tables, r, grants, now)
  {
    var asked := requested.Some? && Eligible(cfg, k, requested.value);
    if asked {
      ReclaimKeeps(t, r, grants, requested.value, k, now);
    }
    var t' := if asked then Reclaim(t, requested.value, k, now) else t;
    if !asked || HeldByOther(t, requested.value, k, now) {
      NextFreeKeeps(t', cfg, r, grants, k.Duid?, k, now);
    }
  }

  lemma NextFreeKeeps(t: Tables, cfg: Config, r: Rules, grants: set<Grant>, v6: bool, k: Key, now: Time)
    requires GrantsOk(t, r, grants, now)
    ensures GrantsOk(NextFree(t, cfg, v6, k, now).0, r, grants, now)
  {
    if ScanSpan(cfg, v6).Some? {
      ScanKeeps(t, r, grants, ScanSpan(cfg, v6).value, ScanStart(t, cfg, v6), 0, k, now);
    }
  }

  /** A reserved address is on record for its own client only, if that is a DUID. */
  lemma FixedIsMine(t: Tables, r: Rules, k: Key, a: Addr, now: Time)
    requires RulesOk(r) && Filed(t, r, now) && (k, a) in r.fixedFor
    ensures MayFile(t, StaticLeaseFor(k, a)) || k == Nobody
  {
    assert a in t.byIP ==> WellFiled(r, now, a, t.byIP[a]);
  }

  /** What an allocation returns may be granted to its client. */
  ghost predicate Grantable(x: Allocation, r: Rules, k: Key) {
    x.addr.Some? ==> if x.fixed then (k, x.addr.value) in r.fixedFor else k.Duid? ==> (true, x.addr.value) in r.pool
  }

  lemma AllocateKeeps(t: Tables, cfg: Config, r: Rules, grants: set<Grant>, k: Key, requested: Option<Addr>, now: Time)
    requires r == RulesOf(cfg) && RulesOk(r) && TablesOk(t, OffersOf(cfg), now) && GrantsOk(t, r, grants, now)
    ensures var x := Allocate(t, cfg, k, requested, now);
            GrantsOk(x.tables, r, grants, now) && Grantable(x, r, k)
  {
    if k == Nobody || k == Mac([]) || k == Duid([]) {
    } else if StaticAddr(cfg, k).Some? {
      var a := StaticAddr(cfg, k).value;
      assert (k, a) in r.fixedFor;
      FixedIsMine(t, r, k, a, now);
      CommitKeeps(t, r, grants, StaticLeaseFor(k, a), now);
    } else if k in t.leases {
      RenewKeeps(t, r, grants, k, now);
      assert WellFiled(r, now, t.leases[k].ip, t.byIP[t.leases[k].ip]);
    } else if OfferOf(t, k, now).None? {
      AllocateFreshKeeps(t, cfg, r, grants, k, requested, now);
      WithoutOffer(t, k, now);
      AllocateFreshOk(t, cfg, OffersOf(cfg), k, requested, now);
    }
  }

  // ----- packets ----------------------------------------------------------------------

  /** Committing a lease and telling its client so. */
  lemma GrantKeeps(t: Tables, r: Rules, grants: set<Grant>, l: Lease, g: Grant, now: Time)
    requires RulesOk(r) && GrantsOk(t, r, grants, now)
    requires Mine(t, l.ip, l.key) && WellFiled(r, now, l.ip, l)
    requires l.fixed || (l.expires == now + r.leaseTime && g.until <= l.expires)
    requires g.client == l.key && g.addr == l.ip && Placed(r, g)
    ensures OutcomeOk(Outcome(Commit(t, l), Granted(g)), r, grants, now)
  {
    CommitKeeps(t, r, grants, l, now);
  }

  /** No request inside a pool is for the client's own reservation. */
  lemma NotReserved(cfg: Config, k: Key, a: Addr)
    requires ConfigOk(cfg) && (k.Mac? || k.Duid?) && InPool(cfg, k.Duid?, a)
    ensures var st := StaticFor(cfg.statics, k); !(st.Some? && st.value.ip == a)
  {
    assert k.Duid? ==> !MappedClash(cfg, k.duid);
    assert StaticAddr(cfg, k).Some? ==> !Pooled(cfg, StaticAddr(cfg, k).value);
  }

  lemma CommitRequestedKeeps(t: Tables, cfg: Config, r: Rules, grants: set<Grant>, k: Key, a: Addr, now: Time)
    requires ConfigOk(cfg) && r == RulesOf(cfg) && RulesOk(r)
    requires TablesOk(t, OffersOf(cfg), now) && GrantsOk(t, r, grants, now)
    requires (k.Mac? || k.Duid?) && InPool(cfg, k.Duid?, a)
    ensures OutcomeOk(CommitRequested(t, cfg, k, a, now), r, grants, now)
  {
    ReclaimOk(t, OffersOf(cfg), a, k, now);
    ReclaimKeeps(t, r, grants, a, k, now);
    NotReserved(cfg, k, a);
    if !HeldByOther(t, a, k, now) {
      var promise := if k.Mac? then Promise4(cfg) else Promise6(cfg, false);
      var l, g := DynamicLeaseFor(r.leaseTime, k, a, now), Grant(k, a, now + promise);
      GrantKeeps(Reclaim(t, a, k, now), r, grants, l, g, now);
    }
  }

  lemma AnswerSolicitKeeps(x: Allocation, cfg: Config, r: Rules, grants: set<Grant>, k: Key, rapid: bool, now: Time)
    requires RulesOk(r) && r.leaseTime == LeaseTime(cfg) && GrantsOk(x.tables, r, grants, now) && Grantable(x, r, k)
    requires k.Duid? && (x.addr.Some? ==> Mine(x.tables, x.addr.value, k))
    ensures OutcomeOk(AnswerSolicit(x, cfg, k, rapid, now), r, grants, now)
  {
    if rapid && x.addr.Some? {
      var a := x.addr.value;
      var lease := if x.fixed then StaticLeaseFor(k, a) else DynamicLeaseFor(r.leaseTime, k, a, now);
      GrantKeeps(x.tables, r, grants, lease, Grant(k, a, now + Promise6(cfg, x.fixed)), now);
    }
  }

  lemma RequestsKeep(t: Tables, cfg: Config, r: Rules, grants: set<Grant>, m: Msg, now: Time)
    requires ConfigOk(cfg) && r == RulesOf(cfg) && RulesOk(r)
    requires TablesOk(t, OffersOf(cfg), now) && GrantsOk(t, r, grants, now)
    ensures m.Request? ==> OutcomeOk(HandleRequest(t, cfg, m, now), r, grants, now)
    ensures m.Request6? ==> OutcomeOk(HandleRequest6(t, cfg, m, now), r, grants, now)
  {
    if m.Request? {
      var asked := if Unset(m.requested) && !Unset(m.ciaddr) then m.ciaddr else m.requested;
      if asked.Some? && InPool(cfg, false, asked.value) {
        CommitRequestedKeeps(t, cfg, r, grants, Mac(m.mac), asked.value, now);
      }
    } else if m.Request6? {
      var k := Duid(m.duid);
      var asked := if m.requested.None? && k in t.leases then Some(t.leases[k].ip) else m.requested;
      if asked.Some? && InPool(cfg, true, asked.value) {
        CommitRequestedKeeps(t, cfg, r, grants, k, asked.value, now);
      }
    }
  }

  lemma SolicitKeeps(t: Tables, cfg: Config, r: Rules, grants: set<Grant>, k: Key, requested: Option<Addr>, rapid: bool, now: Time)
    requires r == RulesOf(cfg) && RulesOk(r) && k.Duid?
    requires TablesOk(t, OffersOf(cfg), now) && GrantsOk(t, r, grants, now)
    ensures OutcomeOk(AnswerSolicit(Allocate(t, cfg, k, requested, now), cfg, k, rapid, now), r, grants, now)
  {
    AllocateOk(t, cfg, OffersOf(cfg), k, requested, now);
    AllocateKeeps(t, cfg, r, grants, k, requested, now);
    AnswerSolicitKeeps(Allocate(t, cfg, k, requested, now), cfg, r, grants, k, rapid, now);
  }

  predicate Is4(m: Msg) { m.Discover? || m.Request? || m.ReleaseMsg? || m.DeclineMsg? }

  lemma HandleKeeps4(t: Tables, cfg: Config, r: Rules, grants: set<Grant>, m: Msg, now: Time)
    requires ConfigOk(cfg) && r == RulesOf(cfg) && RulesOk(r) && Is4(m)
    requires TablesOk(t, OffersOf(cfg), now) && GrantsOk(t, r, grants, now)
    ensures OutcomeOk(Handle(t, cfg, m, now), r, grants, now)
  {
    if m.Discover? {
      AllocateKeeps(t, cfg, r, grants, Mac(m.mac), m.requested, now);
    } else if m.Request? {
      RequestsKeep(t, cfg, r, grants, m, now);
    } else if m.ReleaseMsg? {
      ReleaseKeeps(t, r, grants, Mac(m.mac), m.ciaddr, now);
    } else {
      var a := if m.requested.Some? then m.requested else m.ciaddr;
      if a.Some? {
        DeclineKeeps(t, r, grants, a.value, now);
      }
    }
  }

  lemma HandleKeeps6(t: Tables, cfg: Config, r: Rules, grants: set<Grant>, m: Msg, now: Time)
    requires ConfigOk(cfg) && r == RulesOf(cfg) && RulesOk(r) && !Is4(m)
    requires TablesOk(t, OffersOf(cfg), now) && GrantsOk(t, r, grants, now)
    ensures OutcomeOk(Handle(t, cfg, m, now), r, grants, now)
  {
    if m.Solicit6? {
      SolicitKeeps(t, cfg, r, grants, Duid(m.duid), m.requested, m.rapid, now);
    } else if m.Request6? {
      RequestsKeep(t, cfg, r, grants, m, now);
    } else if m.Release6? {
      ReleaseKeeps(t, r, grants, Duid(m.duid), m.addr, now);
    } else {
      DeclineAllKeeps(t, r, grants, m.addrs, now);
    }
  }

  /** Every packet keeps all running grants recorded. */
  lemma HandleKeeps(t: Tables, cfg: Config, r: Rules, grants: set<Grant>, m: Msg, now: Time)
    requires ConfigOk(cfg) && r == RulesOf(cfg) && RulesOk(r)
    requires TablesOk(t, OffersOf(cfg), now) && GrantsOk(t, r, grants, now)
    ensures OutcomeOk(Handle(t, cfg, m, now), r, grants, now)
  {
    if Is4(m) {
      HandleKeeps4(t, cfg, r, grants, m, now);
    } else {
      HandleKeeps6(t, cfg, r, grants, m, now);
    }
  }

  // ----- runs --------------------------------------------------------------------------

  lemma StepKeeps(w: World, cfg: Config, e: Event)
    requires ConfigOk(cfg) && WorldOk(w, cfg) && w.clock <= e.at
    ensures WorldOk(Step(w, cfg, e), cfg)
  {
    var r := RulesOf(cfg);
    RulesOfOk(cfg);
    StepOk(w, cfg, e);
    TimePasses(w.tables, OffersOf(cfg), w.clock, e.at);
    TimeKeeps(w.tables, r, w.grants, w.clock, e.at);
    HandleKeeps(w.tables, cfg, r, w.grants, e.msg, e.at);
  }

  /** Every run keeps all running grants recorded. */
  lemma {:induction false} RunKeeps(w: World, cfg: Config, events: seq<Event>)
    requires ConfigOk(cfg) && WorldOk(w, cfg) && Timely(w.clock, events)
    ensures WorldOk(Run(w, cfg, events), cfg)
    decreases events
  {
    if events != [] {
      StepKeeps(w, cfg, events[0]);
      RunKeeps(Step(w, cfg, events[0]), cfg, events[1..]);
    }
  }

  lemma ReachedKeeps(cfg: Config, start: Time, events: seq<Event>)
    requires ConfigOk(cfg) && Timely(start, events)
    ensures WorldOk(Reached(cfg, start, events), cfg)
  {
    RunKeeps(World(EMPTY, {}, start), cfg, events);
  }

  /** In no run, at no instant, do two clients hold running grants for one address. */
  lemma NoDoubleGrant(cfg: Config, start: Time, events: seq<Event>, now: Time, g: Grant, g': Grant)
    requires ConfigOk(cfg) && Timely(start, events)
    requires Reached(cfg, start, events).clock <= now
    requires g in Reached(cfg, start, events).grants && g' in Reached(cfg, start, events).grants
    requires g.addr == g'.addr && g.until > now && g'.until > now
    ensures g.client == g'.client
  {
    ReachedKeeps(cfg, start, events);
  }

  // ----- whom the theorem is about --------------------------------------------------------

  predicate GrantsInPool4(grants: set<Grant>, cfg: Config) {
    forall g :: g in grants && g.client.Mac? ==> InPool(cfg, false, g.addr)
  }

  lemma StepInPool4(w: World, cfg: Config, e: Event)
    requires GrantsInPool4(w.grants, cfg)
    ensures GrantsInPool4(Step(w, cfg, e).grants, cfg)
  {
  }

  /** Whatever the configuration, IPv4 clients are granted pool addresses only. */
  lemma {:induction false} V4GrantsInPool(w: World, cfg: Config, events: seq<Event>)
    requires GrantsInPool4(w.grants, cfg)
    ensures GrantsInPool4(Run(w, cfg, events).grants, cfg)
    decreases events
  {
    if events != [] {
      StepInPool4(w, cfg, events[0]);
      V4GrantsInPool(Step(w, cfg, events[0]), cfg, events[1..]);
    }
  }

  /** So a client whose reserved IPv4 address lies outside the range, as safety demands, is
      offered it but never granted it. */
  lemma ReservationNeverGranted(cfg: Config, start: Time, events: seq<Event>, mac: HwAddr, a: Addr)
    requires StaticAddr(cfg, Mac(mac)) == Some(a) && ConfigOk(cfg)
    ensures forall g :: g in Reached(cfg, start, events).grants && g.client == Mac(mac) ==> g.addr != a
  {
    V4GrantsInPool(World(EMPTY, {}, start), cfg, events);
    assert !Pooled(cfg, StaticAddr(cfg, Mac(mac)).value);
  }
}
