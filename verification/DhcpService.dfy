/**
 What a client is given, beyond what it is never given: which packets are granted, that a client
 which keeps renewing keeps its address, and what each allocation offers.
 */
module DhcpService {
  import opened Common
  import opened AddressMath
  import opened DhcpModel
  import opened DhcpTables
  import opened DhcpSearch
  import opened DhcpSafety
  import opened DhcpOffers

  /** An address of the configured range that a host may use: of IPv4 addresses neither the network
      address nor the broadcast address. */
  predicate Usable(cfg: Config, v6: bool, a: Addr) {
    && InRange(cfg.range4, cfg.range6, v6, if v6 then To16(a) else a)
    && (v6 || (cfg.subnet.Some? && IsHost(cfg.subnet.value, a)))
  }

  predicate IsHost(net: Subnet, a: Addr) {
    net.base < Value(a) && Value(a) + 1 < net.base + net.size
  }

  predicate Reserves(cfg: Config, k: Key, a: Addr) {
    var st := StaticFor(cfg.statics, k);
    st.Some? && st.value.ip == a
  }

  /** `k` holds a lease on `a` in both tables: its reservation, or a dynamic lease from `now`. */
  predicate Leased(t: Tables, cfg: Config, k: Key, a: Addr, now: Time) {
    && k in t.leases && t.leases[k].key == k && t.leases[k].ip == a
    && a in t.byIP && t.byIP[a] == t.leases[k]
    && (Reserves(cfg, k, a) ==> t.leases[k].fixed)
    && (!Reserves(cfg, k, a) ==> !t.leases[k].fixed && t.leases[k].expires == now + LeaseTime(cfg))
  }

  /** How long a grant made at `now` is told to last: whole seconds for IPv4. */
  function PromisedUntil(cfg: Config, k: Key, a: Addr, now: Time): Time {
    now + if k.Mac? then Promise4(cfg) else if Reserves(cfg, k, a) then 0xffff_ffff * SECOND else LeaseTime(cfg)
  }

  /** An IPv4 client is told its lease time to the second, exactly when that fits 32 bits. */
  lemma PromiseExactIff(cfg: Config)
    ensures LeaseTime(cfg) - SECOND < Promise4(cfg) <= LeaseTime(cfg) <==> LeaseTime(cfg) < 0x1_0000_0000 * SECOND
  {
    var s := LeaseTime(cfg) / SECOND;
    assert s * SECOND <= LeaseTime(cfg) < (s + 1) * SECOND;
    if s < 0x1_0000_0000 {
      assert s % 0x1_0000_0000 == s;
    } else {
      assert s % 0x1_0000_0000 < s;
    }
  }

  // ----- which REQUESTs are granted --------------------------------------------------------

  ghost predicate GrantedNow(out: Outcome, cfg: Config, k: Key, a: Addr, now: Time) {
    && out.effect == Granted(Grant(k, a, PromisedUntil(cfg, k, a, now)))
    && Leased(out.tables, cfg, k, a, now) && a !in out.tables.reserved
  }

  /** Nobody else has an unexpired lease or hold on the address. */
  predicate FreeFor(t: Tables, a: Addr, k: Key, now: Time) {
    && (a in t.byIP && t.byIP[a].key != k ==> !t.byIP[a].fixed && t.byIP[a].expires <= now)
    && (a in t.reserved && t.reserved[a].key != k ==> t.reserved[a].until <= now)
  }

  lemma RequestedOutcome(t: Tables, cfg: Config, k: Key, a: Addr, now: Time)
    ensures var out := CommitRequested(t, cfg, k, a, now);
            if FreeFor(t, a, k, now) then GrantedNow(out, cfg, k, a, now) else out.effect == Silent
  {
  }

  /** A REQUEST or RENEW that names an address other than 0.0.0.0 as its requested address. */
  predicate Names(m: Msg, k: Key, a: Addr) {
    || (m.Request? && k == Mac(m.mac) && m.requested == Some(a) && a != [0, 0, 0, 0])
    || (m.Request6? && k == Duid(m.duid) && m.duid != [] && m.requested == Some(a))
  }

  predicate ForUs(m: Msg)
    requires m.Request? || m.Request6?
  {
    m.sid != ServerId.Foreign
  }

  /** Without a server identifier an IPv4 REQUEST is refused as long as somebody else is on record for
      the address, expired or not. */
  predicate Contested(t: Tables, m: Msg, k: Key, a: Addr) {
    m.Request? && m.sid == Absent && a in t.byIP && t.byIP[a].key != k
  }

  /** A named address is granted exactly when the packet is for this server, the address is usable,
      and nobody else has it. */
  lemma RequestGrantedIff(t: Tables, cfg: Config, m: Msg, k: Key, a: Addr, now: Time)
    requires Names(m, k, a)
    ensures var out := Handle(t, cfg, m, now);
            if ForUs(m) && Usable(cfg, k.Duid?, a) && FreeFor(t, a, k, now) && !Contested(t, m, k, a)
            then GrantedNow(out, cfg, k, a, now)
            else out.effect == Silent
  {
    RequestedOutcome(t, cfg, k, a, now);
    PoolIsUsable(cfg, k.Duid?, a);
  }

  lemma PoolIsUsable(cfg: Config, v6: bool, a: Addr)
    ensures InPool(cfg, v6, a) <==> Usable(cfg, v6, a)
  {
  }

  /** In every run of every configuration IPv4 clients are granted usable addresses only. */
  lemma GrantsUsable(cfg: Config, start: Time, events: seq<Event>, g: Grant)
    requires g in Reached(cfg, start, events).grants && g.client.Mac?
    ensures Usable(cfg, false, g.addr)
  {
    V4GrantsInPool(World(EMPTY, {}, start), cfg, events);
    PoolIsUsable(cfg, false, g.addr);
  }

  // ----- renewal ---------------------------------------------------------------------------

  /** A renewal of `a`: a REQUEST with the address in ciaddr and none requested, or a RENEW that
      names no address. */
  predicate Renews(m: Msg, k: Key, a: Addr) {
    || (m.Request? && k == Mac(m.mac) && ForUs(m) && m.ciaddr == Some(a) && (m.requested == None || m.requested == Some([0, 0, 0, 0])))
    || (m.Request6? && k == Duid(m.duid) && m.duid != [] && ForUs(m) && m.requested == None)
  }

  /** Consistent tables have an address on record for its leaseholder alone. */
  lemma LeasedIsFree(t: Tables, k: Key, now: Time)
    requires Indexed(t) && Agreed(t) && k in t.leases
    ensures FreeFor(t, t.leases[k].ip, k, now) && t.byIP[t.leases[k].ip].key == k
  {
  }

  lemma ZeroNotUsable(cfg: Config)
    ensures !Usable(cfg, false, [0, 0, 0, 0])
  {
    Value4([0, 0, 0, 0]);
  }

  lemma RenewalHandled4(t: Tables, cfg: Config, m: Msg, k: Key, a: Addr, now: Time)
    requires m.Request? && Renews(m, k, a) && Usable(cfg, false, a) && a in t.byIP && t.byIP[a].key == k
    ensures Handle(t, cfg, m, now) == CommitRequested(t, cfg, k, a, now)
  {
    PoolIsUsable(cfg, false, a);
    ZeroNotUsable(cfg);
    assert Handle(t, cfg, m, now) == HandleRequest(t, cfg, m, now);
  }

  lemma RenewalHandled6(t: Tables, cfg: Config, m: Msg, k: Key, a: Addr, now: Time)
    requires m.Request6? && Renews(m, k, a) && Usable(cfg, true, a) && k in t.leases && t.leases[k].ip == a
    ensures Handle(t, cfg, m, now) == CommitRequested(t, cfg, k, a, now)
  {
    PoolIsUsable(cfg, true, a);
    assert Handle(t, cfg, m, now) == HandleRequest6(t, cfg, m, now);
  }

  lemma RenewalHandled(t: Tables, cfg: Config, m: Msg, k: Key, a: Addr, now: Time)
    requires a in t.byIP && t.byIP[a].key == k && k in t.leases && t.leases[k].ip == a
    requires Renews(m, k, a) && Usable(cfg, k.Duid?, a)
    ensures Handle(t, cfg, m, now) == CommitRequested(t, cfg, k, a, now)
  {
    if m.Request? {
      RenewalHandled4(t, cfg, m, k, a, now);
    } else {
      RenewalHandled6(t, cfg, m, k, a, now);
    }
  }

  /** A renewal of an unusable address does nothing. */
  lemma RenewalRefused(t: Tables, cfg: Config, m: Msg, k: Key, a: Addr, now: Time)
    requires k in t.leases && t.leases[k].ip == a && Renews(m, k, a) && !Usable(cfg, k.Duid?, a)
    ensures Handle(t, cfg, m, now) == Outcome(t, Silent)
  {
    PoolIsUsable(cfg, k.Duid?, a);
    if m.Request? {
      ZeroNotUsable(cfg);
      PoolIsUsable(cfg, false, [0, 0, 0, 0]);
      assert Handle(t, cfg, m, now) == HandleRequest(t, cfg, m, now);
    } else {
      assert Handle(t, cfg, m, now) == HandleRequest6(t, cfg, m, now);
    }
  }

  /** In consistent tables, as every run leaves them, a renewal by the leaseholder is granted exactly
      when its address is usable; lease and grant run from now.  Otherwise nothing happens. */
  lemma RenewalIff(t: Tables, cfg: Config, m: Msg, k: Key, now: Time)
    requires Indexed(t) && Agreed(t) && k in t.leases && Renews(m, k, t.leases[k].ip)
    ensures var out, a := Handle(t, cfg, m, now), t.leases[k].ip;
            if Usable(cfg, k.Duid?, a) then GrantedNow(out, cfg, k, a, now) else out == Outcome(t, Silent)
  {
    var a := t.leases[k].ip;
    if Usable(cfg, k.Duid?, a) {
      LeasedIsFree(t, k, now);
      RenewalHandled(t, cfg, m, k, a, now);
      RequestedOutcome(t, cfg, k, a, now);
    } else {
      RenewalRefused(t, cfg, m, k, a, now);
    }
  }

  /** So it is after every run of packets, whatever they were. */
  lemma RenewalInRun(cfg: Config, start: Time, events: seq<Event>, m: Msg, k: Key, now: Time)
    requires Timely(start, events)
    requires var t := Reached(cfg, start, events).tables; k in t.leases && Renews(m, k, t.leases[k].ip)
    ensures var t := Reached(cfg, start, events).tables;
            var out, a := Handle(t, cfg, m, now), t.leases[k].ip;
            if Usable(cfg, k.Duid?, a) then GrantedNow(out, cfg, k, a, now) else out == Outcome(t, Silent)
  {
    ReachedOk(cfg, start, events);
    RenewalIff(Reached(cfg, start, events).tables, cfg, m, k, now);
  }

  /** A packet of another client that comes before the lease runs out, does not decline its address
      and does not claim it as a reservation. */
  predicate LeavesLease(cfg: Config, e: Event, k: Key, l: Lease) {
    Sender(e.msg) != k && !Declines(e.msg, l.ip) && !Claims(cfg, e.msg, l.ip) && l.Live(e.at)
  }

  lemma {:induction false} RunKeepsLease(w: World, cfg: Config, events: seq<Event>, k: Key, l: Lease)
    requires TablesOk(w.tables, OffersOf(cfg), w.clock) && Timely(w.clock, events) && SoleRecord(w.tables, k, l)
    requires forall i :: 0 <= i < |events| ==> LeavesLease(cfg, events[i], k, l)
    ensures SoleRecord(Run(w, cfg, events).tables, k, l)
    decreases events
  {
    if events != [] {
      var e := events[0];
      assert LeavesLease(cfg, e, k, l);
      TimePasses(w.tables, OffersOf(cfg), w.clock, e.at);
      HandleKeepsLease(w.tables, cfg, e.msg, e.at, k, l);
      StepOk(w, cfg, e);
      assert forall i :: 0 <= i < |events[1..]| ==> events[1..][i] == events[i + 1];
      RunKeepsLease(Step(w, cfg, e), cfg, events[1..], k, l);
    }
  }

  /** What others send, and then the client's renewal. */
  datatype Round = Round(others: seq<Event>, renewal: Event)

  /** The lease the client holds once its renewal at `now` is granted. */
  function RenewedLease(cfg: Config, k: Key, a: Addr, now: Time): Lease {
    if Reserves(cfg, k, a) then StaticLeaseFor(k, a) else DynamicLeaseFor(LeaseTime(cfg), k, a, now)
  }

  ghost function AfterRound(w: World, cfg: Config, r: Round): World {
    Step(Run(w, cfg, r.others), cfg, r.renewal)
  }

  ghost predicate Calm(w: World, cfg: Config, r: Round, k: Key, l: Lease) {
    && Timely(w.clock, r.others) && Run(w, cfg, r.others).clock <= r.renewal.at
    && (forall i :: 0 <= i < |r.others| ==> LeavesLease(cfg, r.others[i], k, l))
    && Renews(r.renewal.msg, k, l.ip)
  }

  /** Each renewal comes before anybody else's packet that finds the lease expired. */
  ghost predicate KeepsRenewing(w: World, cfg: Config, rounds: seq<Round>, k: Key, l: Lease)
    decreases rounds
  {
    rounds != [] ==>
      && Calm(w, cfg, rounds[0], k, l)
      && KeepsRenewing(AfterRound(w, cfg, rounds[0]), cfg, rounds[1..], k, RenewedLease(cfg, k, l.ip, rounds[0].renewal.at))
  }

  ghost function Renewal(w: World, cfg: Config, r: Round): Outcome {
    Handle(Run(w, cfg, r.others).tables, cfg, r.renewal.msg, r.renewal.at)
  }

  ghost predicate AllGranted(w: World, cfg: Config, rounds: seq<Round>, k: Key, a: Addr)
    decreases rounds
  {
    rounds != [] ==>
      && GrantedNow(Renewal(w, cfg, rounds[0]), cfg, k, a, rounds[0].renewal.at)
      && AllGranted(AfterRound(w, cfg, rounds[0]), cfg, rounds[1..], k, a)
  }

  lemma RequestCommits(t: Tables, cfg: Config, k: Key, a: Addr, now: Time)
    requires FreeFor(t, a, k, now) && (a in t.byIP ==> t.byIP[a].key == k)
    ensures CommitRequested(t, cfg, k, a, now).tables == Commit(t, RenewedLease(cfg, k, a, now))
  {
  }

  lemma RenewalIsSole(t: Tables, cfg: Config, m: Msg, k: Key, l: Lease, now: Time)
    requires Indexed(t) && Agreed(t) && SoleRecord(t, k, l) && Renews(m, k, l.ip) && Usable(cfg, k.Duid?, l.ip)
    ensures SoleRecord(Handle(t, cfg, m, now).tables, k, RenewedLease(cfg, k, l.ip, now))
  {
    LeasedIsFree(t, k, now);
    RenewalHandled(t, cfg, m, k, l.ip, now);
    RequestCommits(t, cfg, k, l.ip, now);
    CommitIsSole(t, k, l, RenewedLease(cfg, k, l.ip, now));
  }

  lemma CommitIsSole(t: Tables, k: Key, l: Lease, n: Lease)
    requires SoleRecord(t, k, l) && n.key == k && n.ip == l.ip
    ensures SoleRecord(Commit(t, n), k, n)
  {
  }

  lemma RoundGranted(w: World, cfg: Config, r: Round, k: Key, l: Lease)
    requires TablesOk(w.tables, OffersOf(cfg), w.clock) && SoleRecord(w.tables, k, l) && Usable(cfg, k.Duid?, l.ip)
    requires Calm(w, cfg, r, k, l)
    ensures GrantedNow(Renewal(w, cfg, r), cfg, k, l.ip, r.renewal.at)
    ensures var w' := AfterRound(w, cfg, r);
            TablesOk(w'.tables, OffersOf(cfg), w'.clock) && SoleRecord(w'.tables, k, RenewedLease(cfg, k, l.ip, r.renewal.at))
  {
    var w1 := Run(w, cfg, r.others);
    RunOk(w, cfg, r.others);
    RunKeepsLease(w, cfg, r.others, k, l);
    RenewalIff(w1.tables, cfg, r.renewal.msg, k, r.renewal.at);
    RenewalIsSole(w1.tables, cfg, r.renewal.msg, k, l, r.renewal.at);
    StepOk(w1, cfg, r.renewal);
  }

  /** A client that renews in time keeps its address for good: every renewal is granted, whatever
      others send in between short of a DECLINE of the address or a claim to it as a reservation. */
  lemma {:induction false} RenewalsGranted(w: World, cfg: Config, rounds: seq<Round>, k: Key, l: Lease)
    requires TablesOk(w.tables, OffersOf(cfg), w.clock) && SoleRecord(w.tables, k, l) && Usable(cfg, k.Duid?, l.ip)
    requires KeepsRenewing(w, cfg, rounds, k, l)
    ensures AllGranted(w, cfg, rounds, k, l.ip)
    decreases rounds
  {
    if rounds != [] {
      RoundGranted(w, cfg, rounds[0], k, l);
      RenewalsGranted(AfterRound(w, cfg, rounds[0]), cfg, rounds[1..], k, RenewedLease(cfg, k, l.ip, rounds[0].renewal.at));
    }
  }

  // ----- what an allocation offers -------------------------------------------------------------

  /** `a` is pinned for `k` for the ninety seconds from `now`. */
  predicate Pinned(t: Tables, a: Addr, k: Key, now: Time) {
    a in t.reserved && t.reserved[a] == Hold(k, now + 90 * SECOND)
  }

  /** A reserved client is always offered its reservation, and holds it from then on. */
  lemma ReservedOffered(t: Tables, cfg: Config, k: Key, requested: Option<Addr>, now: Time)
    requires RealClient(k) && StaticAddr(cfg, k).Some?
    ensures var x, a := Allocate(t, cfg, k, requested, now), StaticAddr(cfg, k).value;
            x.addr == Some(a) && x.fixed && Leased(x.tables, cfg, k, a, now)
  {
  }

  predicate Unreserved(cfg: Config, k: Key) {
    RealClient(k) && StaticAddr(cfg, k).None?
  }

  /** A returning client is offered the address it has, and a dynamic lease runs from now again. */
  lemma ReturningOffered(t: Tables, cfg: Config, k: Key, requested: Option<Addr>, now: Time)
    requires Unreserved(cfg, k) && Indexed(t) && k in t.leases
    ensures var x, l := Allocate(t, cfg, k, requested, now), t.leases[k];
            && x.addr == Some(l.ip) && !x.fixed && k in x.tables.leases
            && x.tables.leases[k] == (if l.fixed then l else l.(expires := now + LeaseTime(cfg)))
            && l.ip in x.tables.byIP && x.tables.byIP[l.ip] == x.tables.leases[k]
  {
  }

  /** A client that asks for nothing the server knows of. */
  ghost predicate Newcomer(t: Tables, cfg: Config, k: Key, now: Time) {
    Unreserved(cfg, k) && k !in t.leases && OfferOf(t, k, now).None?
  }

  /** A new client is offered the usable address it asks for exactly when nobody else has it, and it
      is pinned for the client. */
  lemma WishHonouredIff(t: Tables, cfg: Config, k: Key, a: Addr, now: Time)
    requires Newcomer(t, cfg, k, now) && Usable(cfg, k.Duid?, a) && (|a| == 4 <==> k.Mac?)
    ensures var x := Allocate(t, cfg, k, Some(a), now);
            && (x.addr == Some(a) <==> FreeFor(t, a, k, now))
            && (x.addr.Some? ==> Pinned(x.tables, x.addr.value, k, now))
  {
    PoolIsUsable(cfg, k.Duid?, a);
    var t' := Reclaim(t, a, k, now);
    NextFreeFrame(t', cfg, k.Duid?, k, now);
    ReclaimKeepsVerdicts(t, a, a, k, now);
  }

  /** A wish for an unusable address, or by an IPv6 client for an IPv4 one, is no wish at all. */
  lemma WishIgnored(t: Tables, cfg: Config, k: Key, a: Addr, now: Time)
    requires !Usable(cfg, k.Duid?, a) || (k.Duid? && |a| == 4)
    ensures Allocate(t, cfg, k, Some(a), now) == Allocate(t, cfg, k, None, now)
  {
    PoolIsUsable(cfg, k.Duid?, a);
  }

  /** Whoever asks for nothing in particular is offered something exactly when the range has an
      address that nobody else has. */
  lemma ServedIff(t: Tables, cfg: Config, k: Key, now: Time)
    requires Newcomer(t, cfg, k, now) && RangeOk(cfg, k.Duid?)
    ensures var x := Allocate(t, cfg, k, None, now);
            && (x.addr.Some? <==> exists ip :: InRange(cfg.range4, cfg.range6, k.Duid?, ip) && FreeFor(t, Text(ip), k, now))
            && (x.addr.Some? ==> FreeFor(t, x.addr.value, k, now) && Pinned(x.tables, x.addr.value, k, now))
  {
    NextFreeExact(t, cfg, k.Duid?, k, now);
    var a := NextFree(t, cfg, k.Duid?, k, now).1;
    assert Allocate(t, cfg, k, None, now).addr == a;
    if a.None? {
      forall ip | InRange(cfg.range4, cfg.range6, k.Duid?, ip)
        ensures !FreeFor(t, Text(ip), k, now)
      {
        assert HeldByOther(t, Text(ip), k, now);
      }
    }
  }

  /** A SOLICIT with rapid commit is granted what the same SOLICIT without it would be offered, for
      as long as a REQUEST of it would be; without it nothing is granted. */
  lemma RapidIff(t: Tables, cfg: Config, d: DuidOctets, sid: ServerId, requested: Option<Addr>, rapid: bool, now: Time)
    requires d != [] && sid != ServerId.Foreign
    ensures var x, k := Allocate(t, cfg, Duid(d), requested, now), Duid(d);
            var out := Handle(t, cfg, Solicit6(d, sid, requested, rapid), now);
            && (out.effect.Granted? <==> rapid && x.addr.Some?)
            && (out.effect.Granted? ==>
                  && out.effect.grant == Grant(k, x.addr.value, now + if x.fixed then 0xffff_ffff * SECOND else LeaseTime(cfg))
                  && k in out.tables.leases && out.tables.leases[k].ip == x.addr.value && out.tables.leases[k].fixed == x.fixed
                  && (!x.fixed ==> out.tables.leases[k].expires == now + LeaseTime(cfg)))
            && (!rapid ==> out == Outcome(x.tables, Silent))
  {
  }

  // ----- release, and packets for another server ---------------------------------------------------

  predicate ReleasesAddr(m: Msg, k: Key, a: Addr) {
    || (m.ReleaseMsg? && k == Mac(m.mac) && m.ciaddr == Some(a) && a != [0, 0, 0, 0])
    || (m.Release6? && k == Duid(m.duid) && m.duid != [] && m.sid != ServerId.Foreign && m.addr == Some(a))
  }

  /** A RELEASE of the client's own lease takes it, and nothing else, off both tables, so that anybody
      may be granted the address at once; any other RELEASE changes nothing. */
  lemma ReleaseIff(t: Tables, cfg: Config, m: Msg, k: Key, a: Addr, now: Time)
    requires Indexed(t) && ReleasesAddr(m, k, a)
    ensures var out := Handle(t, cfg, m, now);
            if k in t.leases && t.leases[k].ip == a then
              && out.effect == Released(k, a)
              && k !in out.tables.leases && a !in out.tables.byIP && out.tables.reserved == t.reserved
              && (forall d :: d != k && d in t.leases ==> d in out.tables.leases && out.tables.leases[d] == t.leases[d])
              && (forall b :: b != a && b in t.byIP ==> b in out.tables.byIP && out.tables.byIP[b] == t.byIP[b])
            else out == Outcome(t, Silent)
  {
  }

  /** A RELEASE that names no address: an IPv4 one does nothing, a v6 one releases whatever its client
      has. */
  lemma UnnamedRelease(t: Tables, cfg: Config, mac: HwAddr, d: DuidOctets, sid: ServerId, now: Time)
    requires d != [] && sid != ServerId.Foreign
    ensures Handle(t, cfg, ReleaseMsg(mac, None), now) == Outcome(t, Silent)
    ensures Handle(t, cfg, ReleaseMsg(mac, Some([0, 0, 0, 0])), now) == Outcome(t, Silent)
    ensures Handle(t, cfg, Release6(d, sid, None), now)
         == if Duid(d) in t.leases then Handle(t, cfg, Release6(d, sid, Some(t.leases[Duid(d)].ip)), now) else Outcome(t, Silent)
  {
  }

  predicate NamesOther(m: Msg) {
    (m.Discover? || m.Request? || m.Solicit6? || m.Request6? || m.Release6? || m.Decline6?) && m.sid == ServerId.Foreign
  }

  /** DISCOVER without a hardware address, or any v6 packet without a DUID. */
  predicate Anonymous(m: Msg) {
    (m.Discover? && m.mac == []) || ((m.Solicit6? || m.Request6? || m.Release6? || m.Decline6?) && m.duid == [])
  }

  /** Packets for another server, and those that do not say whose they are, change nothing and grant
      nothing. */
  lemma OtherServersIgnored(t: Tables, cfg: Config, m: Msg, now: Time)
    requires NamesOther(m) || Anonymous(m)
    ensures Handle(t, cfg, m, now) == Outcome(t, Silent)
  {
  }

  // ----- decline -----------------------------------------------------------------------------------

  predicate TakesEffect(m: Msg) {
    m.DeclineMsg? || (m.Decline6? && m.duid != [] && m.sid != ServerId.Foreign)
  }

  lemma {:induction false} DeclineAllHolds(t: Tables, addrs: seq<Addr>, a: Addr, now: Time)
    requires a in addrs || (a !in t.byIP && a in t.reserved && t.reserved[a] == Hold(Nobody, now + DECLINED_HOLD))
    ensures var x := DeclineAll(t, addrs, now);
            a !in x.byIP && a in x.reserved && x.reserved[a] == Hold(Nobody, now + DECLINED_HOLD)
    decreases addrs
  {
    if addrs != [] {
      DeclineAllHolds(Decline(t, addrs[0], now), addrs[1..], a, now);
    }
  }

  /** A declined address is nobody's any more, and is kept from everybody for exactly half an hour. */
  lemma DeclineWithholds(t: Tables, cfg: Config, m: Msg, a: Addr, now: Time, k: Key, u: Time)
    requires Declines(m, a) && TakesEffect(m) && k != Nobody
    ensures var x := Handle(t, cfg, m, now).tables;
            a !in x.byIP && (FreeFor(x, a, k, u) <==> u >= now + 30 * 60 * 1_000_000_000)
  {
    if m.Decline6? {
      DeclineAllHolds(t, m.addrs, a, now);
    }
  }

  // ----- reservations ------------------------------------------------------------------------------

  /** Of several reservations that name a client the first counts. */
  lemma {:induction false} FirstReservationCounts(statics: seq<StaticLease>, k: Key, i: nat)
    requires i < |statics| && Matches(statics[i], k) && forall j :: 0 <= j < i ==> !Matches(statics[j], k)
    ensures StaticFor(statics, k) == Some(statics[i])
  {
    if i > 0 {
      assert !Matches(statics[0], k);
      FirstReservationCounts(statics[1..], k, i - 1);
    }
  }
}
