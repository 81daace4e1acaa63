/**
 What DECLINE, which the server believes from anyone, does to a grant: counting it as ending only
 the grants of its sender, addresses are granted twice exactly where leases outlast the half hour
 for which a declined address is withheld.
 */
module DhcpDecline {
  import opened Common
  import opened AddressMath
  import opened DhcpModel
  import opened DhcpTables
  import opened DhcpSafety
  import opened DhcpSearch
  import opened DhcpOffers
  import opened DhcpFlood
  import opened DhcpLimits

  /** A stricter account of who still counts on an address: a DECLINE ends only the grants of its
      sender. */
  function SettleStrictly(grants: set<Grant>, sender: Key, e: Effect): set<Grant> {
    match e
    case Declined(addrs) => set g | g in grants && !(g.client == sender && g.addr in addrs)
    case _ => Settle(grants, e)
  }

  ghost function StrictStep(w: World, cfg: Config, e: Event): World {
    var out := Handle(w.tables, cfg, e.msg, e.at);
    World(out.tables, SettleStrictly(w.grants, Sender(e.msg), out.effect), e.at)
  }

  ghost function StrictRun(w: World, cfg: Config, events: seq<Event>): World
    decreases events
  {
    if events == [] then w else StrictRun(StrictStep(w, cfg, events[0]), cfg, events[1..])
  }

  /** The packet does not decline an address that another client is still granted. */
  predicate Fair(w: World, e: Event) {
    forall g :: g in w.grants && g.until > e.at && Declines(e.msg, g.addr) ==> g.client == Sender(e.msg)
  }

  ghost predicate FairRun(w: World, cfg: Config, events: seq<Event>)
    decreases events
  {
    events != [] ==> Fair(w, events[0]) && FairRun(StrictStep(w, cfg, events[0]), cfg, events[1..])
  }

  /** Grants that have run out do no harm. */
  lemma MoreGrants(t: Tables, r: Rules, some: set<Grant>, more: set<Grant>, now: Time)
    requires GrantsOk(t, r, some, now)
    requires forall g :: g in more && g !in some ==> Placed(r, g) && g.until <= now
    ensures GrantsOk(t, r, more, now)
  {
  }

  lemma DeclinedAre(t: Tables, cfg: Config, m: Msg, now: Time, a: Addr)
    ensures var e := Handle(t, cfg, m, now).effect;
            e.Declined? && a in e.addrs ==> Declines(m, a)
  {
  }

  lemma StrictStepKeeps(w: World, cfg: Config, e: Event)
    requires ConfigOk(cfg) && WorldOk(w, cfg) && w.clock <= e.at && Fair(w, e)
    ensures WorldOk(StrictStep(w, cfg, e), cfg)
  {
    StepKeeps(w, cfg, e);
    var w1, w2 := Step(w, cfg, e), StrictStep(w, cfg, e);
    forall g | g in w2.grants && g !in w1.grants
      ensures g in w.grants && g.until <= e.at
    {
      DeclinedAre(w.tables, cfg, e.msg, e.at, g.addr);
    }
    MoreGrants(w2.tables, RulesOf(cfg), w1.grants, w2.grants, e.at);
  }

  lemma {:induction false} StrictRunKeeps(w: World, cfg: Config, events: seq<Event>)
    requires ConfigOk(cfg) && WorldOk(w, cfg) && Timely(w.clock, events) && FairRun(w, cfg, events)
    ensures WorldOk(StrictRun(w, cfg, events), cfg)
    decreases events
  {
    if events != [] {
      StrictStepKeeps(w, cfg, events[0]);
      StrictRunKeeps(StrictStep(w, cfg, events[0]), cfg, events[1..]);
    }
  }

  /** Even so counted, no address is granted twice in a run in which nobody declines what another
      client is still granted. */
  lemma FairRunSafe(cfg: Config, start: Time, events: seq<Event>)
    requires ConfigOk(cfg) && Timely(start, events) && FairRun(World(EMPTY, {}, start), cfg, events)
    ensures !DoubleGrant(StrictRun(World(EMPTY, {}, start), cfg, events))
  {
    StrictRunKeeps(World(EMPTY, {}, start), cfg, events);
  }

  /** A DECLINE from a stranger frees an address its holder still counts on: half an hour
      later the stranger is granted it. */
  lemma StrangerDeclineRegrants(cfg: Config, holder: HwAddr, stranger: HwAddr, a: Addr)
    requires holder != stranger && InPool(cfg, false, a) && Promise4(cfg) > DECLINED_HOLD
    ensures var run := [Event(Request(holder, Ours, Some(a), None), 0),
                        Event(DeclineMsg(stranger, Some(a), None), 0),
                        Event(Request(stranger, Ours, Some(a), None), DECLINED_HOLD)];
            Timely(0, run) && DoubleGrant(StrictRun(World(EMPTY, {}, 0), cfg, run))
  {
    var w0 := World(EMPTY, {}, 0);
    var e1, e2 := Event(Request(holder, Ours, Some(a), None), 0), Event(DeclineMsg(stranger, Some(a), None), 0);
    var e3 := Event(Request(stranger, Ours, Some(a), None), DECLINED_HOLD);
    ThreeTimely(e1, e2, e3);
    GrantedInPool(EMPTY, cfg, holder, a, 0);
    var g, g' := Grant(Mac(holder), a, Promise4(cfg)), Grant(Mac(stranger), a, DECLINED_HOLD + Promise4(cfg));
    var w1 := StrictStep(w0, cfg, e1);
    var w2 := StrictStep(w1, cfg, e2);
    assert w2.tables == Decline(w1.tables, a, 0) && g in w2.grants;
    assert !HeldByOther(w2.tables, a, Mac(stranger), DECLINED_HOLD);
    GrantedInPool(w2.tables, cfg, stranger, a, DECLINED_HOLD);
    var w3 := StrictStep(w2, cfg, e3);
    assert g in w3.grants && g' in w3.grants && Clash(g, g', DECLINED_HOLD);
    StrictRunOfThree(w0, cfg, e1, e2, e3);
  }

  lemma StrictRunOfThree(w: World, cfg: Config, e1: Event, e2: Event, e3: Event)
    ensures StrictRun(w, cfg, [e1, e2, e3]) == StrictStep(StrictStep(StrictStep(w, cfg, e1), cfg, e2), cfg, e3)
  {
    assert [e1, e2, e3][1..] == [e2, e3] && [e2, e3][1..] == [e3] && [e3][1..] == [];
    var w1 := StrictStep(w, cfg, e1);
    var w2 := StrictStep(w1, cfg, e2);
    assert StrictRun(w2, cfg, [e3]) == StrictRun(StrictStep(w2, cfg, e3), cfg, []);
    assert StrictRun(w1, cfg, [e2, e3]) == StrictRun(w2, cfg, [e3]);
  }

  // ----- leases no longer than the hold --------------------------------------------------------

  /** No run grants an address twice, even so counted. */
  ghost predicate StrictSafe(cfg: Config) {
    forall start, events :: Timely(start, events) ==> !DoubleGrant(StrictRun(World(EMPTY, {}, start), cfg, events))
  }

  /** No dynamic grant outlasts the time for which a declined address is withheld. */
  ghost predicate ShortLeases(cfg: Config) {
    && ((exists a :: InPool(cfg, false, a)) ==> Promise4(cfg) <= DECLINED_HOLD)
    && (cfg.range6.Some? ==> LeaseTime(cfg) <= DECLINED_HOLD)
  }

  /** The address is withheld from everyone at least as long as the grant runs. */
  predicate Withheld(t: Tables, g: Grant) {
    && Nobody !in t.leases && g.addr in t.reserved
    && t.reserved[g.addr].key == Nobody && t.reserved[g.addr].until >= g.until
  }

  predicate Kept(t: Tables, g: Grant) {
    BackedBy(t, g) || Withheld(t, g)
  }

  /** A grant of a pool address, as opposed to a reservation. */
  ghost predicate Dynamic(r: Rules, g: Grant) {
    (g.client.Duid?, g.addr) in r.pool
  }

  ghost predicate Short(r: Rules, grants: set<Grant>, clock: Time) {
    forall g :: g in grants && Dynamic(r, g) ==> g.until <= clock + DECLINED_HOLD
  }

  ghost predicate AllKept(t: Tables, r: Rules, grants: set<Grant>, clock: Time) {
    forall g :: g in grants && Dynamic(r, g) && g.until > clock ==> Kept(t, g)
  }

  ghost predicate NoClash(grants: set<Grant>, clock: Time) {
    forall g, g' :: g in grants && g' in grants ==> !Clash(g, g', clock)
  }

  ghost predicate AllPlaced(r: Rules, grants: set<Grant>) {
    forall g :: g in grants ==> Placed(r, g)
  }

  ghost predicate StrictOk(w: World, cfg: Config) {
    var r := RulesOf(cfg);
    && TablesOk(w.tables, OffersOf(cfg), w.clock) && Filed(w.tables, r, w.clock) && Nobody !in w.tables.leases
    && AllPlaced(r, w.grants) && Short(r, w.grants, w.clock) && AllKept(w.tables, r, w.grants, w.clock) && NoClash(w.grants, w.clock)
  }

  // ----- what a packet does to the tables ---------------------------------------------------------

  lemma NobodyStays(t: Tables, cfg: Config, m: Msg, now: Time)
    requires Nobody !in t.leases
    ensures Nobody !in Handle(t, cfg, m, now).tables.leases
  {
    match m
    case Discover(mac, _, requested) => NobodyAllocated(t, cfg, Mac(mac), requested, now);
    case Request(_, _, _, _) => NobodyRequested(t, cfg, m, now);
    case ReleaseMsg(_, _) =>
    case DeclineMsg(_, _, _) =>
    case Solicit6(duid, _, requested, rapid) =>
      NobodyAllocated(t, cfg, Duid(duid), requested, now);
      NobodyAnswered(Allocate(t, cfg, Duid(duid), requested, now), cfg, Duid(duid), rapid, now);
    case Request6(_, _, _) => NobodyRequested(t, cfg, m, now);
    case Release6(_, _, _) =>
    case Decline6(_, _, addrs) => NobodyDeclined(t, addrs, now);
  }

  lemma NobodyRequested(t: Tables, cfg: Config, m: Msg, now: Time)
    requires Nobody !in t.leases
    ensures m.Request? ==> Nobody !in HandleRequest(t, cfg, m, now).tables.leases
    ensures m.Request6? ==> Nobody !in HandleRequest6(t, cfg, m, now).tables.leases
  {
    if m.Request? {
      var asked := if Unset(m.requested) && !Unset(m.ciaddr) then m.ciaddr else m.requested;
      if asked.Some? {
        NobodyRequestedOf(t, cfg, Mac(m.mac), asked.value, now);
      }
    } else if m.Request6? {
      var k := Duid(m.duid);
      var asked := if m.requested.None? && k in t.leases then Some(t.leases[k].ip) else m.requested;
      if asked.Some? {
        NobodyRequestedOf(t, cfg, k, asked.value, now);
      }
    }
  }

  lemma NobodyRequestedOf(t: Tables, cfg: Config, k: Key, a: Addr, now: Time)
    requires Nobody !in t.leases && k != Nobody
    ensures Nobody !in CommitRequested(t, cfg, k, a, now).tables.leases
  {
  }

  lemma NobodyAnswered(x: Allocation, cfg: Config, k: Key, rapid: bool, now: Time)
    requires Nobody !in x.tables.leases && k != Nobody
    ensures Nobody !in AnswerSolicit(x, cfg, k, rapid, now).tables.leases
  {
  }

  lemma NobodyAllocated(t: Tables, cfg: Config, k: Key, requested: Option<Addr>, now: Time)
    requires Nobody !in t.leases && k != Nobody
    ensures Nobody !in Allocate(t, cfg, k, requested, now).tables.leases
  {
    NobodyFresh(t, cfg, k, requested, now);
    if StaticAddr(cfg, k).Some? {
      NobodyCommitted(t, StaticLeaseFor(k, StaticAddr(cfg, k).value));
    } else if k in t.leases {
      NobodyRenewed(t, LeaseTime(cfg), k, now);
    }
  }

  lemma NobodyCommitted(t: Tables, l: Lease)
    requires Nobody !in t.leases && l.key != Nobody
    ensures Nobody !in Commit(t, l).leases
  {
  }

  lemma NobodyRenewed(t: Tables, leaseTime: Time, k: Key, now: Time)
    requires Nobody !in t.leases && k in t.leases
    ensures Nobody !in Renew(t, leaseTime, k, now).leases
  {
  }

  lemma NobodyFresh(t: Tables, cfg: Config, k: Key, requested: Option<Addr>, now: Time)
    requires Nobody !in t.leases
    ensures Nobody !in AllocateFresh(t, cfg, k, requested, now).tables.leases
  {
    var asked := requested.Some? && Eligible(cfg, k, requested.value);
    var t' := if asked then Reclaim(t, requested.value, k, now) else t;
    assert Nobody !in t'.leases;
    NextFreeFrame(t', cfg, k.Duid?, k, now);
  }

  lemma {:induction false} NobodyDeclined(t: Tables, addrs: seq<Addr>, now: Time)
    requires Nobody !in t.leases
    ensures Nobody !in DeclineAll(t, addrs, now).leases
    decreases addrs
  {
    if addrs != [] {
      NobodyDeclined(Decline(t, addrs[0], now), addrs[1..], now);
    }
  }

  lemma {:induction false} DeclineAllHolds(t: Tables, addrs: seq<Addr>, now: Time, a: Addr)
    requires a in addrs || (a in t.reserved && t.reserved[a] == Hold(Nobody, now + DECLINED_HOLD))
    ensures var t' := DeclineAll(t, addrs, now);
            a in t'.reserved && t'.reserved[a] == Hold(Nobody, now + DECLINED_HOLD)
    decreases addrs
  {
    if addrs != [] {
      DeclineAllHolds(Decline(t, addrs[0], now), addrs[1..], now, a);
    }
  }

  /** A declined address is withheld for the full time from now. */
  lemma DeclineWithholds(t: Tables, cfg: Config, m: Msg, now: Time, a: Addr)
    requires var e := Handle(t, cfg, m, now).effect; e.Declined? && a in e.addrs
    ensures var t' := Handle(t, cfg, m, now).tables;
            a in t'.reserved && t'.reserved[a] == Hold(Nobody, now + DECLINED_HOLD)
  {
    if m.Decline6? {
      DeclineAllHolds(t, m.addrs, now, a);
    }
  }

  /** A DECLINE that is not acted on changes nothing. */
  lemma DeclineIgnored(t: Tables, cfg: Config, m: Msg, now: Time, a: Addr)
    requires var e := Handle(t, cfg, m, now).effect; Declines(m, a) && !(e.Declined? && a in e.addrs)
    ensures Handle(t, cfg, m, now).tables == t
  {
  }

  /** A granted address is no longer held. */
  lemma GrantClears(t: Tables, cfg: Config, m: Msg, now: Time)
    requires Handle(t, cfg, m, now).effect.Granted?
    ensures var out := Handle(t, cfg, m, now);
            out.effect.grant.addr !in out.tables.reserved && out.effect.grant.client == Sender(m)
  {
  }

  /** How long a dynamic grant is made for. */
  lemma GrantTerm(t: Tables, cfg: Config, m: Msg, now: Time)
    requires ConfigOk(cfg) && Handle(t, cfg, m, now).effect.Granted?
    ensures var g := Handle(t, cfg, m, now).effect.grant;
            Dynamic(RulesOf(cfg), g) ==> g.until == now + if g.client.Mac? then Promise4(cfg) else LeaseTime(cfg)
  {
    if m.Request6? {
      var k := Duid(m.duid);
      var asked := if m.requested.None? && k in t.leases then Some(t.leases[k].ip) else m.requested;
      RequestTerm(t, cfg, k, asked.value, now);
    } else if m.Request? {
      var asked := if Unset(m.requested) && !Unset(m.ciaddr) then m.ciaddr else m.requested;
      RequestTerm(t, cfg, Mac(m.mac), asked.value, now);
    } else {
      SolicitTerm(t, cfg, Duid(m.duid), m.requested, m.rapid, now);
    }
  }

  lemma RequestTerm(t: Tables, cfg: Config, k: Key, a: Addr, now: Time)
    requires ConfigOk(cfg) && (k.Mac? || k.Duid?) && InPool(cfg, k.Duid?, a)
    ensures var e := CommitRequested(t, cfg, k, a, now).effect;
            e.Granted? ==> e.grant.client == k && e.grant.until == now + if k.Mac? then Promise4(cfg) else LeaseTime(cfg)
  {
    NotReserved(cfg, k, a);
  }

  lemma SolicitTerm(t: Tables, cfg: Config, k: Key, requested: Option<Addr>, rapid: bool, now: Time)
    requires ConfigOk(cfg) && k.Duid? && AnswerSolicit(Allocate(t, cfg, k, requested, now), cfg, k, rapid, now).effect.Granted?
    ensures var g := AnswerSolicit(Allocate(t, cfg, k, requested, now), cfg, k, rapid, now).effect.grant;
            g.client == k && (Dynamic(RulesOf(cfg), g) ==> g.until == now + LeaseTime(cfg))
  {
    var x := Allocate(t, cfg, k, requested, now);
    assert x.fixed ==> StaticAddr(cfg, k) == x.addr;
    assert StaticAddr(cfg, k).Some? ==> !Pooled(cfg, StaticAddr(cfg, k).value);
  }

  lemma ShortGrant(t: Tables, cfg: Config, m: Msg, now: Time)
    requires ConfigOk(cfg) && ShortLeases(cfg) && Handle(t, cfg, m, now).effect.Granted?
    ensures var g := Handle(t, cfg, m, now).effect.grant;
            Dynamic(RulesOf(cfg), g) ==> g.until <= now + DECLINED_HOLD
  {
    var g := Handle(t, cfg, m, now).effect.grant;
    GrantTerm(t, cfg, m, now);
    GrantClears(t, cfg, m, now);
    if Dynamic(RulesOf(cfg), g) {
      assert Served(cfg, g.client.Duid?, g.addr);
    }
  }

  // ----- one packet, strictly counted --------------------------------------------------------------

  /** The running grants that are on record. */
  ghost function Recorded(t: Tables, grants: set<Grant>, now: Time): set<Grant> {
    set g | g in grants && g.until > now && BackedBy(t, g)
  }

  lemma RecordedKept(t: Tables, cfg: Config, r: Rules, grants: set<Grant>, m: Msg, now: Time)
    requires ConfigOk(cfg) && r == RulesOf(cfg) && TablesOk(t, OffersOf(cfg), now) && Filed(t, r, now) && AllPlaced(r, grants)
    ensures OutcomeOk(Handle(t, cfg, m, now), r, Recorded(t, grants, now), now)
  {
    RulesOfOk(cfg);
    HandleKeeps(t, cfg, r, Recorded(t, grants, now), m, now);
  }

  /** A withheld address stays withheld. */
  lemma WithheldStays(t: Tables, cfg: Config, m: Msg, now: Time, g: Grant)
    requires ConfigOk(cfg) && Indexed(t) && Agreed(t) && Dynamic(RulesOf(cfg), g)
    requires Withheld(t, g) && g.until > now && g.until <= now + DECLINED_HOLD
    ensures Withheld(Handle(t, cfg, m, now).tables, g)
  {
    var e, until := Handle(t, cfg, m, now).effect, t.reserved[g.addr].until;
    NobodyStays(t, cfg, m, now);
    if Declines(m, g.addr) {
      if e.Declined? && g.addr in e.addrs {
        DeclineWithholds(t, cfg, m, now, g.addr);
      } else {
        DeclineIgnored(t, cfg, m, now, g.addr);
      }
    } else {
      assert StaticAddr(cfg, Sender(m)).Some? ==> !Pooled(cfg, StaticAddr(cfg, Sender(m)).value);
      HandleKeepsWaiting(t, cfg, m, now, g.addr, Nobody, until);
    }
  }

  /** An old grant that the strict account still counts. */
  lemma OldKept(t: Tables, cfg: Config, r: Rules, grants: set<Grant>, m: Msg, now: Time, g: Grant)
    requires ConfigOk(cfg) && r == RulesOf(cfg) && TablesOk(t, OffersOf(cfg), now) && Filed(t, r, now) && AllPlaced(r, grants)
    requires g in grants && Dynamic(r, g) && now < g.until <= now + DECLINED_HOLD && Kept(t, g) && Nobody !in t.leases
    requires g in SettleStrictly(grants, Sender(m), Handle(t, cfg, m, now).effect)
    ensures Kept(Handle(t, cfg, m, now).tables, g)
  {
    var out := Handle(t, cfg, m, now);
    if BackedBy(t, g) {
      RecordedKept(t, cfg, r, grants, m, now);
      ReleaseIsOwn(t, cfg, m, now);
      if g !in Settle(Recorded(t, grants, now), out.effect) {
        DeclineWithholds(t, cfg, m, now, g.addr);
        NobodyStays(t, cfg, m, now);
      }
    } else {
      WithheldStays(t, cfg, m, now, g);
    }
  }

  lemma ReleaseIsOwn(t: Tables, cfg: Config, m: Msg, now: Time)
    ensures var e := Handle(t, cfg, m, now).effect; e.Released? ==> e.client == Sender(m)
  {
  }

  /** The new grant clashes with none. */
  lemma NewApart(t: Tables, cfg: Config, r: Rules, grants: set<Grant>, m: Msg, now: Time, g: Grant)
    requires ConfigOk(cfg) && r == RulesOf(cfg) && TablesOk(t, OffersOf(cfg), now) && Filed(t, r, now) && AllPlaced(r, grants)
    requires g in grants && Dynamic(r, g) && now < g.until <= now + DECLINED_HOLD && Kept(t, g) && Nobody !in t.leases
    requires Handle(t, cfg, m, now).effect.Granted? && Handle(t, cfg, m, now).effect.grant.until > now
    ensures !Clash(g, Handle(t, cfg, m, now).effect.grant, now)
  {
    var out := Handle(t, cfg, m, now);
    if BackedBy(t, g) {
      RecordedKept(t, cfg, r, grants, m, now);
      assert BackedBy(out.tables, g) && BackedBy(out.tables, out.effect.grant);
    } else {
      WithheldStays(t, cfg, m, now, g);
      GrantClears(t, cfg, m, now);
    }
  }

  /** On a reserved address there is only one client to be granted. */
  lemma StaticsApart(r: Rules, g: Grant, g': Grant)
    requires RulesOk(r) && Placed(r, g) && Placed(r, g') && g.addr == g'.addr && !Dynamic(r, g)
    ensures g.client == g'.client
  {
  }

  lemma StepKept(w: World, cfg: Config, e: Event)
    requires ConfigOk(cfg) && ShortLeases(cfg) && StrictOk(w, cfg) && w.clock <= e.at
    ensures AllKept(StrictStep(w, cfg, e).tables, RulesOf(cfg), StrictStep(w, cfg, e).grants, e.at)
  {
    var t, r, now, w2 := w.tables, RulesOf(cfg), e.at, StrictStep(w, cfg, e);
    AtStep(w, cfg, now);
    RecordedKept(t, cfg, r, w.grants, e.msg, now);
    forall g | g in w2.grants && Dynamic(r, g) && g.until > now
      ensures Kept(w2.tables, g)
    {
      if g in w.grants {
        OldKept(t, cfg, r, w.grants, e.msg, now, g);
      } else {
        assert BackedBy(w2.tables, g);
      }
    }
  }

  /** The invariant's facts at the time of the packet. */
  lemma AtStep(w: World, cfg: Config, now: Time)
    requires StrictOk(w, cfg) && w.clock <= now
    ensures TablesOk(w.tables, OffersOf(cfg), now) && Filed(w.tables, RulesOf(cfg), now)
    ensures Short(RulesOf(cfg), w.grants, now) && AllKept(w.tables, RulesOf(cfg), w.grants, now) && NoClash(w.grants, now)
  {
    TimePasses(w.tables, OffersOf(cfg), w.clock, now);
    assert forall a :: a in w.tables.byIP ==> WellFiled(RulesOf(cfg), w.clock, a, w.tables.byIP[a]);
    forall g, g' | g in w.grants && g' in w.grants
      ensures !Clash(g, g', now)
    {
      assert !Clash(g, g', w.clock);
    }
  }

  lemma StepApart(w: World, cfg: Config, e: Event)
    requires ConfigOk(cfg) && ShortLeases(cfg) && StrictOk(w, cfg) && w.clock <= e.at
    ensures NoClash(StrictStep(w, cfg, e).grants, e.at)
  {
    var t, r, now, out := w.tables, RulesOf(cfg), e.at, Handle(w.tables, cfg, e.msg, e.at);
    AtStep(w, cfg, now);
    RulesOfOk(cfg);
    RecordedKept(t, cfg, r, w.grants, e.msg, now);
    if out.effect.Granted? {
      var n := out.effect.grant;
      assert Placed(r, n);
      forall g | g in w.grants
        ensures !Clash(g, n, now) && !Clash(n, g, now)
      {
        if g.addr == n.addr && g.until > now && n.until > now {
          if !Dynamic(r, g) {
            StaticsApart(r, g, n);
          } else {
            NewApart(t, cfg, r, w.grants, e.msg, now, g);
          }
        }
      }
    }
  }

  lemma StrictlyKeeps(w: World, cfg: Config, e: Event)
    requires ConfigOk(cfg) && ShortLeases(cfg) && StrictOk(w, cfg) && w.clock <= e.at
    ensures StrictOk(StrictStep(w, cfg, e), cfg)
  {
    var t, r, now := w.tables, RulesOf(cfg), e.at;
    AtStep(w, cfg, now);
    StepOk(w, cfg, e);
    RecordedKept(t, cfg, r, w.grants, e.msg, now);
    NobodyStays(t, cfg, e.msg, now);
    StepKept(w, cfg, e);
    StepApart(w, cfg, e);
    if Handle(t, cfg, e.msg, now).effect.Granted? {
      ShortGrant(t, cfg, e.msg, now);
    }
  }

  lemma {:induction false} StrictlyKept(w: World, cfg: Config, events: seq<Event>)
    requires ConfigOk(cfg) && ShortLeases(cfg) && StrictOk(w, cfg) && Timely(w.clock, events)
    ensures StrictOk(StrictRun(w, cfg, events), cfg)
    decreases events
  {
    if events != [] {
      StrictlyKeeps(w, cfg, events[0]);
      StrictlyKept(StrictStep(w, cfg, events[0]), cfg, events[1..]);
    }
  }

  lemma ShortIsSafe(cfg: Config)
    requires ConfigOk(cfg) && ShortLeases(cfg)
    ensures StrictSafe(cfg)
  {
    forall start, events | Timely(start, events)
      ensures !DoubleGrant(StrictRun(World(EMPTY, {}, start), cfg, events))
    {
      StrictlyKept(World(EMPTY, {}, start), cfg, events);
    }
  }

  // ----- leases that outlast the hold ------------------------------------------------------------

  /** Every grant still counted is counted strictly too. */
  lemma {:induction false} StrictCountsMore(w: World, w': World, cfg: Config, events: seq<Event>)
    requires w.tables == w'.tables && w.clock == w'.clock && w.grants <= w'.grants
    ensures var x, x' := Run(w, cfg, events), StrictRun(w', cfg, events);
            x.tables == x'.tables && x.clock == x'.clock && x.grants <= x'.grants
    decreases events
  {
    if events != [] {
      StrictCountsMore(Step(w, cfg, events[0]), StrictStep(w', cfg, events[0]), cfg, events[1..]);
    }
  }

  lemma StrictSafeIsSafe(cfg: Config)
    requires StrictSafe(cfg)
    ensures Safe(cfg)
  {
    forall start, events | Timely(start, events)
      ensures !DoubleGrant(Reached(cfg, start, events))
    {
      var w := World(EMPTY, {}, start);
      StrictCountsMore(w, w, cfg, events);
      assert !DoubleGrant(StrictRun(w, cfg, events));
    }
  }

  lemma {:induction false} StrictRunThen(w: World, cfg: Config, events: seq<Event>, e: Event)
    ensures StrictRun(w, cfg, events + [e]) == StrictStep(StrictRun(w, cfg, events), cfg, e)
    decreases events
  {
    if events == [] {
      assert [] + [e] == [e] && [e][1..] == [];
      assert StrictRun(StrictStep(w, cfg, e), cfg, []) == StrictStep(w, cfg, e);
    } else {
      assert (events + [e])[1..] == events[1..] + [e];
      StrictRunThen(StrictStep(w, cfg, events[0]), cfg, events[1..], e);
    }
  }

  /** The holder of a grant that outlasts the hold, a stranger who declines its address, and the
      next client, who is granted it when the hold ends. */
  lemma Regranted(cfg: Config, run: seq<Event>, decline: Event, next: Event, g: Grant, g': Grant)
    requires AllAt0(run) && decline.at == 0 && next.at == DECLINED_HOLD && g in Reached(cfg, 0, run).grants
    requires Sender(decline.msg) != g.client && Clash(g, g', DECLINED_HOLD)
    requires var t := Handle(Reached(cfg, 0, run).tables, cfg, decline.msg, 0);
             t.effect.Declined? && Handle(t.tables, cfg, next.msg, DECLINED_HOLD).effect == Granted(g')
    ensures var all := run + [decline] + [next];
            Timely(0, all) && DoubleGrant(StrictRun(World(EMPTY, {}, 0), cfg, all))
  {
    var w0 := World(EMPTY, {}, 0);
    StrictCountsMore(w0, w0, cfg, run);
    StrictRunThen(w0, cfg, run, decline);
    StrictRunThen(w0, cfg, run + [decline], next);
    TimelyThen(run, decline, next);
    var w3 := StrictRun(w0, cfg, run + [decline] + [next]);
    assert g in w3.grants && g' in w3.grants && w3.clock == DECLINED_HOLD;
  }

  lemma TimelyThen(run: seq<Event>, e: Event, next: Event)
    requires AllAt0(run) && e.at == 0 <= next.at
    ensures Timely(0, run + [e] + [next])
  {
    ZerosThen(run + [e], next);
  }

  lemma {:induction false} ZerosThen(run: seq<Event>, next: Event)
    requires AllAt0(run) && next.at >= 0
    ensures Timely(0, run + [next])
  {
    if run == [] {
      assert ([] + [next])[1..] == [];
      assert Timely(next.at, []);
    } else {
      assert (run + [next])[1..] == run[1..] + [next];
      ZerosThen(run[1..], next);
    }
  }

  /** The IPv6 run: REQUEST, DECLINE by a stranger, REQUEST by the stranger when the hold ends. */
  lemma StrangerDeclineRegrants6(cfg: Config, holder: DuidOctets, stranger: DuidOctets, a: Addr)
    requires holder != stranger && holder != [] && stranger != [] && InPool(cfg, true, a)
    requires DECLINED_HOLD < LeaseTime(cfg) < 0xffff_ffff * SECOND
    ensures var run := [Event(Request6(holder, Absent, Some(a)), 0)] + [Event(Decline6(stranger, Absent, [a]), 0)]
                     + [Event(Request6(stranger, Absent, Some(a)), DECLINED_HOLD)];
            Timely(0, run) && DoubleGrant(StrictRun(World(EMPTY, {}, 0), cfg, run))
  {
    var e, decline := Event(Request6(holder, Absent, Some(a)), 0), Event(Decline6(stranger, Absent, [a]), 0);
    var next := Event(Request6(stranger, Absent, Some(a)), DECLINED_HOLD);
    RunOfOne(World(EMPTY, {}, 0), cfg, e);
    RequestGrantsLong(EMPTY, cfg, holder, a, 0);
    var w1 := Step(World(EMPTY, {}, 0), cfg, e);
    var t2 := Handle(w1.tables, cfg, decline.msg, 0);
    DeclinedOne(w1.tables, a);
    RequestGrants(t2.tables, cfg, stranger, a, DECLINED_HOLD);
    Regranted(cfg, [e], decline, next, Handle(EMPTY, cfg, e.msg, 0).effect.grant,
              Handle(t2.tables, cfg, next.msg, DECLINED_HOLD).effect.grant);
  }

  lemma DeclinedOne(t: Tables, a: Addr)
    ensures DeclineAll(t, [a], 0) == Decline(t, a, 0)
  {
    assert [a][1..] == [];
    assert DeclineAll(Decline(t, a, 0), [], 0) == Decline(t, a, 0);
  }

  lemma RequestGrantsLong(t: Tables, cfg: Config, d: DuidOctets, a: Addr, now: Time)
    requires InPool(cfg, true, a) && !HeldByOther(t, a, Duid(d), now) && d != [] && LeaseTime(cfg) < 0xffff_ffff * SECOND
    ensures var e := Handle(t, cfg, Request6(d, Absent, Some(a)), now).effect;
            e.Granted? && e.grant.client == Duid(d) && e.grant.addr == a && e.grant.until >= now + LeaseTime(cfg)
  {
  }

  /** With an IPv6 range, whether or not the pool has an address: what the search will come to
      next is taken by rapid commit, declined by a stranger, and taken again when the hold ends. */
  lemma SearchRegrants(cfg: Config)
    requires FewStatics(cfg) && cfg.range6.Some? && LeaseTime(cfg) > DECLINED_HOLD
    ensures !StrictSafe(cfg)
  {
    var t := AfterFlood(cfg, true, Size6(cfg)).tables;
    var a := ScanSpan(cfg, true).value.At(ScanStart(t, cfg, true));
    var run, k, d := NextAddressTaken(cfg, a);
    TakenAgain(t, cfg, k, a, d, Other(k.duid));
    RegrantedBySearch(cfg, run, t, k, a, d);
  }

  lemma NextAddressTaken(cfg: Config, a: Addr) returns (run: seq<Event>, k: Key, d: DuidOctets)
    requires FewStatics(cfg) && cfg.range6.Some? && a == ScanSpan(cfg, true).value.At(ScanStart(AfterFlood(cfg, true, Size6(cfg)).tables, cfg, true))
    ensures AllAt0(run) && k.Duid? && k != Duid(d)
    ensures var t := AfterFlood(cfg, true, Size6(cfg)).tables;
            && t.leases == map[] && t.byIP == map[] && Newcomer(cfg, d, t.reserved)
            && Reached(cfg, 0, run) == World(Commit(t, DynamicLeaseFor(LeaseTime(cfg), k, a, 0)), {Grant(k, a, LeaseTime(cfg))}, 0)
  {
    assert OnSpan(ScanSpan(cfg, true).value, a);
    var j := OccupiedWorld(cfg, a);
    run, k := Occupied(cfg, j), Duid(Client(cfg, true, j));
    d := NextNewcomer(cfg);
    FloodOffers(cfg, true, Size6(cfg));
  }

  lemma RegrantedBySearch(cfg: Config, run: seq<Event>, t: Tables, k: Key, a: Addr, d: DuidOctets)
    requires AllAt0(run) && k.Duid? && k != Duid(d) && LeaseTime(cfg) > DECLINED_HOLD
    requires Reached(cfg, 0, run) == World(Commit(t, DynamicLeaseFor(LeaseTime(cfg), k, a, 0)), {Grant(k, a, LeaseTime(cfg))}, 0)
    requires var out := Handle(Commit(t, DynamicLeaseFor(LeaseTime(cfg), k, a, 0)), cfg, Decline6(Other(k.duid), Absent, [a]), 0);
             && out.effect.Declined?
             && Handle(out.tables, cfg, Solicit6(d, Absent, None, true), DECLINED_HOLD).effect
                == Granted(Grant(Duid(d), a, DECLINED_HOLD + LeaseTime(cfg)))
    ensures !StrictSafe(cfg)
  {
    Regranted(cfg, run, Event(Decline6(Other(k.duid), Absent, [a]), 0), Event(Solicit6(d, Absent, None, true), DECLINED_HOLD),
              Grant(k, a, LeaseTime(cfg)), Grant(Duid(d), a, DECLINED_HOLD + LeaseTime(cfg)));
  }

  lemma TakenAgain(t: Tables, cfg: Config, k: Key, a: Addr, d: DuidOctets, stranger: DuidOctets)
    requires cfg.range6.Some? && t.leases == map[] && t.byIP == map[] && Newcomer(cfg, d, t.reserved) && stranger != []
    requires a == ScanSpan(cfg, true).value.At(ScanStart(t, cfg, true)) && k != Duid(d)
    ensures var t1 := Commit(t, DynamicLeaseFor(LeaseTime(cfg), k, a, 0));
            var out := Handle(t1, cfg, Decline6(stranger, Absent, [a]), 0);
            && out.effect.Declined?
            && Handle(out.tables, cfg, Solicit6(d, Absent, None, true), DECLINED_HOLD).effect
               == Granted(Grant(Duid(d), a, DECLINED_HOLD + LeaseTime(cfg)))
  {
    var t1 := Commit(t, DynamicLeaseFor(LeaseTime(cfg), k, a, 0));
    var t2 := Decline(t1, a, 0);
    DeclineServed(t1, cfg, stranger, a);
    AfterTheHold(t, cfg, k, a, d, t2);
    FoundAtOnce(t2, cfg, a, ScanStart(t2, cfg, true), Duid(d));
    RapidFromSearch(t2, cfg, d, a, DECLINED_HOLD);
  }

  lemma DeclineServed(t: Tables, cfg: Config, stranger: DuidOctets, a: Addr)
    requires stranger != []
    ensures Handle(t, cfg, Decline6(stranger, Absent, [a]), 0) == Outcome(Decline(t, a, 0), Declined({a}))
  {
    DeclinedOne(t, a);
    assert (set x | x in [a]) == {a};
  }

  lemma AfterTheHold(t: Tables, cfg: Config, k: Key, a: Addr, d: DuidOctets, t2: Tables)
    requires cfg.range6.Some? && t.leases == map[] && t.byIP == map[] && Newcomer(cfg, d, t.reserved) && k != Duid(d)
    requires t2 == Decline(Commit(t, DynamicLeaseFor(LeaseTime(cfg), k, a, 0)), a, 0)
    ensures ScanStart(t2, cfg, true) == ScanStart(t, cfg, true) && Duid(d) !in t2.leases
    ensures !HeldByOther(t2, a, Duid(d), DECLINED_HOLD)
    ensures forall b :: b in t2.reserved ==> t2.reserved[b].key != Duid(d)
  {
  }

  lemma FoundAtOnce(t: Tables, cfg: Config, a: Addr, p: nat, k: Key)
    requires cfg.range6.Some? && p == ScanStart(t, cfg, true) && a == ScanSpan(cfg, true).value.At(p)
    requires !HeldByOther(t, a, k, DECLINED_HOLD)
    ensures NextFree(t, cfg, true, k, DECLINED_HOLD).1 == Some(a)
  {
    var span := ScanSpan(cfg, true).value;
    assert Place(p, 0, span.size) == p;
    assert Scan(t, span, p, 0, k, DECLINED_HOLD).1 == Some(p);
  }

  lemma LongBreaks(cfg: Config)
    requires FewStatics(cfg) && SaneLease(cfg) && !ShortLeases(cfg)
    ensures !StrictSafe(cfg)
  {
    if cfg.range6.Some? && LeaseTime(cfg) > DECLINED_HOLD {
      LongBreaks6(cfg);
    } else {
      var a :| InPool(cfg, false, a);
      StrangerDeclineRegrants(cfg, Other([]), Other(Other([])), a);
    }
  }

  lemma LongBreaks6(cfg: Config)
    requires FewStatics(cfg) && SaneLease(cfg) && cfg.range6.Some? && LeaseTime(cfg) > DECLINED_HOLD
    ensures !StrictSafe(cfg)
  {
    if a :| InPool(cfg, true, a) {
      StrangerDeclineRegrants6(cfg, Other([]), Other(Other([])), a);
    } else {
      SearchRegrants(cfg);
    }
  }

  /** Even counting a DECLINE as ending only its sender's grants, no run grants an address twice
      exactly when the configuration is safe otherwise and no dynamic grant outlasts the half hour
      for which a declined address is withheld. */
  lemma StrictSafeIff(cfg: Config)
    requires FewStatics(cfg) && SaneLease(cfg) && forall k :: StaticAddr(cfg, k) != Some(ZERO4)
    ensures StrictSafe(cfg) <==> ConfigOk(cfg) && ShortLeases(cfg)
  {
    SafeIff(cfg);
    if ConfigOk(cfg) && ShortLeases(cfg) {
      ShortIsSafe(cfg);
    } else if StrictSafe(cfg) {
      StrictSafeIsSafe(cfg);
      LongBreaks(cfg);
    }
  }
}
