/**
 What a client may rely on between its own packets, whatever the configuration: its offer
 stands until the hold runs out, a REQUEST for it is honoured exactly inside the pool, and its
 lease-table entry stands exactly while it is the only record of that client and nobody else
 has the address reserved.
 */
module DhcpOffers {
  import opened Common
  import opened AddressMath
  import opened DhcpModel
  import opened DhcpTables
  import opened DhcpSearch

  predicate Declines(m: Msg, a: Addr) {
    || (m.DeclineMsg? && (if m.requested.Some? then m.requested else m.ciaddr) == Some(a))
    || (m.Decline6? && a in m.addrs)
  }

  predicate RealClient(k: Key) {
    k != Nobody && k != Mac([]) && k != Duid([])
  }

  /** Some other client than the one given. */
  function Other(id: seq<Byte>): (r: HwAddr)
    ensures r != id && r != []
  {
    if id == [2, 0, 0, 0, 0, 1] then [2, 0, 0, 0, 0, 2] else [2, 0, 0, 0, 0, 1]
  }

  // ----- an offer stands ---------------------------------------------------------------

  /** `k` has been offered `a` and has no lease. */
  predicate Waiting(t: Tables, a: Addr, k: Key, until: Time) {
    k !in t.leases && a in t.reserved && t.reserved[a] == Hold(k, until)
  }

  lemma {:induction false} ScanFrame(t: Tables, span: Span, p: nat, i: nat, k: Key, now: Time)
    requires p < span.size
    ensures var (t', found) := Scan(t, span, p, i, k, now);
            && t'.reserved == t.reserved
            && t'.leases.Keys <= t.leases.Keys
            && (found.Some? ==> !HeldByOther(t, span.At(found.value), k, now))
    decreases span.size - i
  {
    if i < span.size {
      var a := span.At(Place(p, i, span.size));
      if HeldByOther(t, a, k, now) {
        var t' := Reclaim(t, a, k, now);
        ScanFrame(t', span, p, i + 1, k, now);
        var found := Scan(t', span, p, i + 1, k, now).1;
        if found.Some? {
          ReclaimKeepsVerdicts(t, a, span.At(found.value), k, now);
        }
      }
    }
  }

  lemma NextFreeFrame(t: Tables, cfg: Config, v6: bool, k: Key, now: Time)
    ensures var (t', a) := NextFree(t, cfg, v6, k, now);
            && t'.reserved == t.reserved
            && t'.leases.Keys <= t.leases.Keys
            && (a.Some? ==> !HeldByOther(t, a.value, k, now))
  {
    if ScanSpan(cfg, v6).Some? {
      ScanFrame(t, ScanSpan(cfg, v6).value, ScanStart(t, cfg, v6), 0, k, now);
    }
  }

  lemma ReclaimKeepsWaiting(t: Tables, x: Addr, d: Key, now: Time, a: Addr, k: Key, until: Time)
    requires Waiting(t, a, k, until)
    ensures Waiting(Reclaim(t, x, d, now), a, k, until)
  {
  }

  lemma OfferKeepsWaiting(t: Tables, b: Addr, d: Key, now: Time, a: Addr, k: Key, until: Time)
    requires Waiting(t, a, k, until) && b != a
    ensures Waiting(Offer(t, b, d, now), a, k, until)
  {
  }

  lemma SearchKeepsWaiting(t: Tables, cfg: Config, d: Key, now: Time, a: Addr, k: Key, until: Time)
    requires Waiting(t, a, k, until) && d != k && now < until
    ensures var (t', found) := NextFree(t, cfg, d.Duid?, d, now);
            Waiting(t', a, k, until) && found != Some(a)
  {
    assert HeldByOther(t, a, d, now);
    NextFreeFrame(t, cfg, d.Duid?, d, now);
  }

  lemma FreshKeepsWaiting(t: Tables, cfg: Config, d: Key, requested: Option<Addr>, now: Time, a: Addr, k: Key, until: Time)
    requires Waiting(t, a, k, until) && d != k && now < until
    ensures var x := AllocateFresh(t, cfg, d, requested, now);
            Waiting(x.tables, a, k, until) && x.addr != Some(a)
  {
    var asked := requested.Some? && Eligible(cfg, d, requested.value);
    if asked {
      ReclaimKeepsWaiting(t, requested.value, d, now, a, k, until);
    }
    var t' := if asked then Reclaim(t, requested.value, d, now) else t;
    if asked && !HeldByOther(t, requested.value, d, now) {
      OfferKeepsWaiting(t', requested.value, d, now, a, k, until);
    } else {
      SearchKeepsWaiting(t', cfg, d, now, a, k, until);
      var (t'', found) := NextFree(t', cfg, d.Duid?, d, now);
      if found.Some? {
        OfferKeepsWaiting(t'', found.value, d, now, a, k, until);
      }
    }
  }

  /** Whatever the tables and the configuration say of `d`, it is not about `a`. */
  ghost predicate NotAbout(t: Tables, cfg: Config, d: Key, a: Addr) {
    StaticAddr(cfg, d) != Some(a) && (d in t.leases ==> t.leases[d].ip != a)
  }

  lemma OthersElsewhere(t: Tables, d: Key, a: Addr, k: Key, until: Time)
    requires Indexed(t) && Agreed(t) && Waiting(t, a, k, until) && d != k
    ensures d in t.leases ==> t.leases[d].ip != a
  {
  }

  lemma CommitKeepsWaiting(t: Tables, l: Lease, a: Addr, k: Key, until: Time)
    requires Waiting(t, a, k, until) && l.key != k && l.ip != a
    ensures Waiting(Commit(t, l), a, k, until)
  {
  }

  lemma RenewKeepsWaiting(t: Tables, leaseTime: Time, d: Key, now: Time, a: Addr, k: Key, until: Time)
    requires Waiting(t, a, k, until) && d in t.leases && t.leases[d].ip != a && d != k
    ensures Waiting(Renew(t, leaseTime, d, now), a, k, until)
  {
  }

  /** The three ways an allocation can go. */
  lemma AllocationIs(t: Tables, cfg: Config, d: Key, requested: Option<Addr>, now: Time)
    requires RealClient(d)
    ensures var x := Allocate(t, cfg, d, requested, now);
            if StaticAddr(cfg, d).Some? then
              x.tables == Commit(t, StaticLeaseFor(d, StaticAddr(cfg, d).value)) && x.addr == StaticAddr(cfg, d)
            else if d in t.leases then x.tables == Renew(t, LeaseTime(cfg), d, now) && x.addr == Some(t.leases[d].ip)
            else if OfferOf(t, d, now).Some? then x.tables == t && x.addr == OfferOf(t, d, now)
            else x == AllocateFresh(t, cfg, d, requested, now)
  {
  }

  lemma AllocateKeepsWaiting(t: Tables, cfg: Config, d: Key, requested: Option<Addr>, now: Time, a: Addr, k: Key, until: Time)
    requires NotAbout(t, cfg, d, a)
    requires Waiting(t, a, k, until) && d != k && now < until
    ensures var x := Allocate(t, cfg, d, requested, now);
            Waiting(x.tables, a, k, until) && x.addr != Some(a)
  {
    if RealClient(d) {
      AllocationIs(t, cfg, d, requested, now);
      if StaticAddr(cfg, d).Some? {
        CommitKeepsWaiting(t, StaticLeaseFor(d, StaticAddr(cfg, d).value), a, k, until);
      } else if d in t.leases {
        RenewKeepsWaiting(t, LeaseTime(cfg), d, now, a, k, until);
      } else if OfferOf(t, d, now).None? {
        FreshKeepsWaiting(t, cfg, d, requested, now, a, k, until);
      }
    }
  }

  lemma SolicitKeepsWaiting(t: Tables, cfg: Config, d: Key, requested: Option<Addr>, rapid: bool, now: Time, a: Addr, k: Key, until: Time)
    requires NotAbout(t, cfg, d, a)
    requires Waiting(t, a, k, until) && d != k && now < until
    ensures Waiting(AnswerSolicit(Allocate(t, cfg, d, requested, now), cfg, d, rapid, now).tables, a, k, until)
  {
    AllocateKeepsWaiting(t, cfg, d, requested, now, a, k, until);
    AnswerKeepsWaiting(Allocate(t, cfg, d, requested, now), cfg, d, rapid, now, a, k, until);
  }

  lemma AnswerKeepsWaiting(x: Allocation, cfg: Config, d: Key, rapid: bool, now: Time, a: Addr, k: Key, until: Time)
    requires Waiting(x.tables, a, k, until) && d != k && x.addr != Some(a)
    ensures Waiting(AnswerSolicit(x, cfg, d, rapid, now).tables, a, k, until)
  {
  }

  lemma {:induction false} DeclineAllKeepsWaiting(t: Tables, addrs: seq<Addr>, now: Time, a: Addr, k: Key, until: Time)
    requires Waiting(t, a, k, until) && a !in addrs
    ensures Waiting(DeclineAll(t, addrs, now), a, k, until)
    decreases addrs
  {
    if addrs != [] {
      DeclineAllKeepsWaiting(Decline(t, addrs[0], now), addrs[1..], now, a, k, until);
    }
  }

  lemma RequestedKeepsWaiting(t: Tables, cfg: Config, d: Key, asked: Addr, now: Time, a: Addr, k: Key, until: Time)
    requires Waiting(t, a, k, until) && d != k && now < until
    ensures Waiting(CommitRequested(t, cfg, d, asked, now).tables, a, k, until)
  {
    assert HeldByOther(t, a, d, now);
  }

  lemma RequestsKeepWaiting(t: Tables, cfg: Config, m: Msg, now: Time, a: Addr, k: Key, until: Time)
    requires Waiting(t, a, k, until) && Sender(m) != k && now < until
    ensures m.Request? ==> Waiting(HandleRequest(t, cfg, m, now).tables, a, k, until)
    ensures m.Request6? ==> Waiting(HandleRequest6(t, cfg, m, now).tables, a, k, until)
  {
    if m.Request? {
      var asked := if Unset(m.requested) && !Unset(m.ciaddr) then m.ciaddr else m.requested;
      if asked.Some? {
        RequestedKeepsWaiting(t, cfg, Mac(m.mac), asked.value, now, a, k, until);
      }
    } else if m.Request6? {
      var d := Duid(m.duid);
      var asked := if m.requested.None? && d in t.leases then Some(t.leases[d].ip) else m.requested;
      if asked.Some? {
        RequestedKeepsWaiting(t, cfg, d, asked.value, now, a, k, until);
      }
    }
  }

  /** A DISCOVER or SOLICIT by the client that has `a` reserved. */
  predicate Claims(cfg: Config, m: Msg, a: Addr) {
    (m.Discover? || m.Solicit6?) && StaticAddr(cfg, Sender(m)) == Some(a)
  }

  /** No packet of another client disturbs a standing offer, short of a DECLINE of its address or
      a claim to its reservation. */
  lemma HandleKeepsWaiting(t: Tables, cfg: Config, m: Msg, now: Time, a: Addr, k: Key, until: Time)
    requires Indexed(t) && Agreed(t)
    requires Waiting(t, a, k, until) && now < until
    requires Sender(m) != k && !Declines(m, a) && !Claims(cfg, m, a)
    ensures Waiting(Handle(t, cfg, m, now).tables, a, k, until)
  {
    OthersElsewhere(t, Sender(m), a, k, until);
    match m
    case Discover(mac, _, requested) =>
      AllocateKeepsWaiting(t, cfg, Mac(mac), requested, now, a, k, until);
    case Request(_, _, _, _) =>
      RequestsKeepWaiting(t, cfg, m, now, a, k, until);
    case ReleaseMsg(_, _) =>
    case DeclineMsg(_, _, _) =>
    case Solicit6(duid, _, requested, rapid) =>
      SolicitKeepsWaiting(t, cfg, Duid(duid), requested, rapid, now, a, k, until);
    case Request6(_, _, _) =>
      RequestsKeepWaiting(t, cfg, m, now, a, k, until);
    case Release6(_, _, _) =>
    case Decline6(_, _, addrs) =>
      DeclineAllKeepsWaiting(t, addrs, now, a, k, until);
  }

  /** Packets from others only, none declining `a` or claiming it, all before `until`. */
  predicate Undisturbed(cfg: Config, events: seq<Event>, a: Addr, k: Key, until: Time) {
    forall i :: 0 <= i < |events| ==> Elsewhere(cfg, events[i], a, k, until)
  }

  predicate Elsewhere(cfg: Config, e: Event, a: Addr, k: Key, until: Time) {
    Sender(e.msg) != k && !Declines(e.msg, a) && !Claims(cfg, e.msg, a) && e.at < until
  }

  lemma {:induction false} RunKeepsWaiting(w: World, cfg: Config, events: seq<Event>, a: Addr, k: Key, until: Time)
    requires TablesOk(w.tables, OffersOf(cfg), w.clock) && Timely(w.clock, events)
    requires Waiting(w.tables, a, k, until) && Undisturbed(cfg, events, a, k, until)
    ensures Waiting(Run(w, cfg, events).tables, a, k, until)
    decreases events
  {
    if events != [] {
      var e := events[0];
      assert Elsewhere(cfg, e, a, k, until);
      StepOk(w, cfg, e);
      HandleKeepsWaiting(w.tables, cfg, e.msg, e.at, a, k, until);
      assert forall i :: 0 <= i < |events[1..]| ==> events[1..][i] == events[i + 1];
      RunKeepsWaiting(Step(w, cfg, e), cfg, events[1..], a, k, until);
    }
  }

  /** A first DISCOVER or SOLICIT leaves an offer that stands for the whole hold. */
  lemma OfferMade(t: Tables, cfg: Config, k: Key, requested: Option<Addr>, at: Time) returns (until: Time)
    requires RealClient(k) && k !in t.leases && StaticAddr(cfg, k).None?
    requires Allocate(t, cfg, k, requested, at).addr.Some?
    ensures var x := Allocate(t, cfg, k, requested, at);
            Waiting(x.tables, x.addr.value, k, until) && until > at
    ensures OfferOf(t, k, at).None? ==> until == at + OFFERED_HOLD
  {
    var x := Allocate(t, cfg, k, requested, at);
    if OfferOf(t, k, at).Some? {
      until := t.reserved[x.addr.value].until;
    } else {
      until := at + OFFERED_HOLD;
      var asked := requested.Some? && Eligible(cfg, k, requested.value);
      var t' := if asked then Reclaim(t, requested.value, k, at) else t;
      NextFreeFrame(t', cfg, k.Duid?, k, at);
    }
  }

  /** At `at` a client without lease or reservation is offered `a`, to hold until `until`. */
  ghost predicate Offered(w: World, cfg: Config, k: Key, requested: Option<Addr>, at: Time, a: Addr, until: Time) {
    && RealClient(k) && k !in w.tables.leases && StaticAddr(cfg, k).None?
    && var x := Allocate(w.tables, cfg, k, requested, at);
       x.addr == Some(a) && Waiting(x.tables, a, k, until)
  }

  ghost function AfterOffer(w: World, cfg: Config, k: Key, requested: Option<Addr>, at: Time): World {
    World(Allocate(w.tables, cfg, k, requested, at).tables, w.grants, at)
  }

  /** The world after others' packets that leave the offer alone. */
  lemma OfferStands(w: World, cfg: Config, k: Key, requested: Option<Addr>, at: Time, events: seq<Event>, now: Time, a: Addr, until: Time)
    requires TablesOk(w.tables, OffersOf(cfg), w.clock) && w.clock <= at
    requires Timely(at, events) && Undisturbed(cfg, events, a, k, until) && Offered(w, cfg, k, requested, at, a, until)
    ensures var w' := Run(AfterOffer(w, cfg, k, requested, at), cfg, events);
            Waiting(w'.tables, a, k, until) && (w'.clock <= now ==> TablesOk(w'.tables, OffersOf(cfg), now))
  {
    var o, w1 := OffersOf(cfg), AfterOffer(w, cfg, k, requested, at);
    TimePasses(w.tables, o, w.clock, at);
    AllocateOk(w.tables, cfg, o, k, requested, at);
    RunKeepsWaiting(w1, cfg, events, a, k, until);
    RunOk(w1, cfg, events);
    var w' := Run(w1, cfg, events);
    if w'.clock <= now {
      TimePasses(w'.tables, o, w'.clock, now);
    }
  }

  /** A repeated DISCOVER or SOLICIT within the hold is offered the same address, whatever
      other clients did meanwhile. */
  lemma RepeatedDiscover(w: World, cfg: Config, k: Key, requested: Option<Addr>, at: Time,
                         events: seq<Event>, again: Option<Addr>, now: Time, a: Addr, until: Time)
    requires TablesOk(w.tables, OffersOf(cfg), w.clock) && w.clock <= at
    requires Timely(at, events) && Undisturbed(cfg, events, a, k, until)
    ensures var w' := Run(AfterOffer(w, cfg, k, requested, at), cfg, events);
            Offered(w, cfg, k, requested, at, a, until) && w'.clock <= now < until ==>
              Allocate(w'.tables, cfg, k, again, now).addr == Some(a)
  {
    var w' := Run(AfterOffer(w, cfg, k, requested, at), cfg, events);
    if Offered(w, cfg, k, requested, at, a, until) && w'.clock <= now < until {
      OfferStands(w, cfg, k, requested, at, events, now, a, until);
      OnlyOffer(w'.tables, k, a, now);
    }
  }

  /** The REQUEST that takes up an offer. */
  function TakeUp(k: Key, sid: ServerId, a: Addr): Msg
    requires RealClient(k)
  {
    if k.Mac? then Request(k.mac, sid, Some(a), None) else Request6(k.duid, sid, Some(a))
  }

  ghost predicate Grants(out: Outcome, k: Key, a: Addr) {
    out.effect.Granted? && out.effect.grant.client == k && out.effect.grant.addr == a
  }

  lemma WaitingServed4(t: Tables, cfg: Config, mac: HwAddr, sid: ServerId, now: Time, a: Addr)
    requires Mine(t, a, Mac(mac)) && !HeldByOther(t, a, Mac(mac), now) && sid != ServerId.Foreign
    ensures Grants(Handle(t, cfg, Request(mac, sid, Some(a), None), now), Mac(mac), a) <==> InPool(cfg, false, a)
  {
    RequestedGranted(t, cfg, Mac(mac), a, now);
  }

  lemma WaitingServed6(t: Tables, cfg: Config, d: DuidOctets, sid: ServerId, now: Time, a: Addr)
    requires d != [] && !HeldByOther(t, a, Duid(d), now) && sid != ServerId.Foreign
    ensures Grants(Handle(t, cfg, Request6(d, sid, Some(a)), now), Duid(d), a) <==> InPool(cfg, true, a)
  {
    RequestedGranted(t, cfg, Duid(d), a, now);
  }

  lemma WaitingServed(t: Tables, cfg: Config, k: Key, sid: ServerId, now: Time, a: Addr, until: Time)
    requires RealClient(k) && Agreed(t) && Waiting(t, a, k, until) && sid != ServerId.Foreign
    ensures Grants(Handle(t, cfg, TakeUp(k, sid, a), now), k, a) <==> InPool(cfg, k.Duid?, a)
  {
    assert Mine(t, a, k) && !HeldByOther(t, a, k, now);
    if k.Mac? {
      WaitingServed4(t, cfg, k.mac, sid, now, a);
    } else {
      WaitingServed6(t, cfg, k.duid, sid, now, a);
    }
  }

  lemma RequestedGranted(t: Tables, cfg: Config, k: Key, a: Addr, now: Time)
    requires !HeldByOther(t, a, k, now)
    ensures Grants(CommitRequested(t, cfg, k, a, now), k, a)
  {
  }

  /** An offer is honoured exactly when the address lies inside the pool of its family: a search
      can offer a network, broadcast or past-the-end address that the REQUEST is then refused. */
  lemma OfferHonouredIff(w: World, cfg: Config, k: Key, requested: Option<Addr>, at: Time,
                         events: seq<Event>, sid: ServerId, now: Time, a: Addr, until: Time)
    requires TablesOk(w.tables, OffersOf(cfg), w.clock) && w.clock <= at && RealClient(k) && sid != ServerId.Foreign
    requires Timely(at, events) && Undisturbed(cfg, events, a, k, until)
    ensures var w' := Run(AfterOffer(w, cfg, k, requested, at), cfg, events);
            Offered(w, cfg, k, requested, at, a, until) && w'.clock <= now ==>
              (Grants(Handle(w'.tables, cfg, TakeUp(k, sid, a), now), k, a) <==> InPool(cfg, k.Duid?, a))
  {
    var w' := Run(AfterOffer(w, cfg, k, requested, at), cfg, events);
    if Offered(w, cfg, k, requested, at, a, until) && w'.clock <= now {
      OfferStands(w, cfg, k, requested, at, events, now, a, until);
      WaitingServed(w'.tables, cfg, k, sid, now, a, until);
    }
  }

  lemma OnlyOffer(t: Tables, k: Key, a: Addr, now: Time)
    requires OneOffer(t, now) && k != Nobody && IsOffer(t, a, k, now)
    ensures OfferOf(t, k, now) == Some(a)
  {
    var o := OfferOf(t, k, now);
    assert o.Some?;
    assert SameOwner(t.reserved[a], t.reserved[o.value], now);
  }

  // ----- a lease stands ------------------------------------------------------------------

  /** The lease is on record for `k`, and nothing else is. */
  predicate SoleRecord(t: Tables, k: Key, l: Lease) {
    && k in t.leases && t.leases[k] == l && l.key == k
    && l.ip in t.byIP && t.byIP[l.ip] == l
    && forall b :: b in t.byIP && t.byIP[b].key == k ==> b == l.ip
  }

  lemma ReclaimKeepsLease(t: Tables, x: Addr, d: Key, now: Time, k: Key, l: Lease)
    requires SoleRecord(t, k, l) && l.Live(now) && d != k
    ensures SoleRecord(Reclaim(t, x, d, now), k, l)
  {
  }

  lemma CommitKeepsLease(t: Tables, n: Lease, k: Key, l: Lease)
    requires SoleRecord(t, k, l) && n.key != k && n.ip != l.ip
    ensures SoleRecord(Commit(t, n), k, l)
  {
  }

  lemma {:induction false} ScanKeepsLease(t: Tables, span: Span, p: nat, i: nat, d: Key, now: Time, k: Key, l: Lease)
    requires SoleRecord(t, k, l) && l.Live(now) && d != k && p < span.size
    ensures SoleRecord(Scan(t, span, p, i, d, now).0, k, l)
    decreases span.size - i
  {
    if i < span.size {
      var a := span.At(Place(p, i, span.size));
      ReclaimKeepsLease(t, a, d, now, k, l);
      if HeldByOther(t, a, d, now) {
        ScanKeepsLease(Reclaim(t, a, d, now), span, p, i + 1, d, now, k, l);
      }
    }
  }

  lemma NextFreeKeepsLease(t: Tables, cfg: Config, v6: bool, d: Key, now: Time, k: Key, l: Lease)
    requires SoleRecord(t, k, l) && l.Live(now) && d != k
    ensures SoleRecord(NextFree(t, cfg, v6, d, now).0, k, l)
  {
    if ScanSpan(cfg, v6).Some? {
      ScanKeepsLease(t, ScanSpan(cfg, v6).value, ScanStart(t, cfg, v6), 0, d, now, k, l);
    }
  }

  lemma OfferKeepsLease(t: Tables, a: Addr, d: Key, now: Time, k: Key, l: Lease)
    requires SoleRecord(t, k, l)
    ensures SoleRecord(Offer(t, a, d, now), k, l)
  {
  }

  lemma FreshKeepsLease(t: Tables, cfg: Config, d: Key, requested: Option<Addr>, now: Time, k: Key, l: Lease)
    requires SoleRecord(t, k, l) && l.Live(now) && d != k
    ensures SoleRecord(AllocateFresh(t, cfg, d, requested, now).tables, k, l)
  {
    var asked := requested.Some? && Eligible(cfg, d, requested.value);
    if asked {
      ReclaimKeepsLease(t, requested.value, d, now, k, l);
    }
    var t' := if asked then Reclaim(t, requested.value, d, now) else t;
    if asked && !HeldByOther(t, requested.value, d, now) {
      OfferKeepsLease(t', requested.value, d, now, k, l);
    } else {
      NextFreeKeepsLease(t', cfg, d.Duid?, d, now, k, l);
      var (t'', a) := NextFree(t', cfg, d.Duid?, d, now);
      if a.Some? {
        OfferKeepsLease(t'', a.value, d, now, k, l);
      }
    }
  }

  lemma AllocateKeepsLease(t: Tables, cfg: Config, d: Key, requested: Option<Addr>, now: Time, k: Key, l: Lease)
    requires Indexed(t) && StaticAddr(cfg, d) != Some(l.ip)
    requires SoleRecord(t, k, l) && l.Live(now) && d != k
    ensures SoleRecord(Allocate(t, cfg, d, requested, now).tables, k, l)
  {
    if StaticAddr(cfg, d).Some? {
      CommitKeepsLease(t, StaticLeaseFor(d, StaticAddr(cfg, d).value), k, l);
    } else if d in t.leases {
      RenewKeepsLease(t, LeaseTime(cfg), d, now, k, l);
    } else {
      FreshKeepsLease(t, cfg, d, requested, now, k, l);
    }
  }

  lemma RenewKeepsLease(t: Tables, leaseTime: Time, d: Key, now: Time, k: Key, l: Lease)
    requires Indexed(t) && d in t.leases && SoleRecord(t, k, l) && d != k
    ensures SoleRecord(Renew(t, leaseTime, d, now), k, l)
  {
    if !t.leases[d].fixed {
      RenewIsCommit(t, leaseTime, d, now);
      CommitKeepsLease(t, t.leases[d].(expires := now + leaseTime), k, l);
    }
  }

  lemma RequestedKeepsLease(t: Tables, cfg: Config, d: Key, asked: Addr, now: Time, k: Key, l: Lease)
    requires SoleRecord(t, k, l) && l.Live(now) && d != k
    ensures SoleRecord(CommitRequested(t, cfg, d, asked, now).tables, k, l)
  {
    ReclaimKeepsLease(t, asked, d, now, k, l);
    var t' := Reclaim(t, asked, d, now);
    if !HeldByOther(t, asked, d, now) {
      assert Mine(t', asked, d);
      var st := StaticFor(cfg.statics, d);
      var n := if st.Some? && st.value.ip == asked then StaticLeaseFor(d, asked)
               else DynamicLeaseFor(LeaseTime(cfg), d, asked, now);
      CommitKeepsLease(t', n, k, l);
    }
  }

  lemma AnswerKeepsLease(x: Allocation, cfg: Config, d: Key, rapid: bool, now: Time, k: Key, l: Lease)
    requires SoleRecord(x.tables, k, l) && d != k
    requires x.addr.Some? ==> Mine(x.tables, x.addr.value, d)
    ensures SoleRecord(AnswerSolicit(x, cfg, d, rapid, now).tables, k, l)
  {
    if rapid && x.addr.Some? {
      var a := x.addr.value;
      var n := if x.fixed then StaticLeaseFor(d, a) else DynamicLeaseFor(LeaseTime(cfg), d, a, now);
      CommitKeepsLease(x.tables, n, k, l);
    }
  }

  lemma RequestsKeepLease(t: Tables, cfg: Config, m: Msg, now: Time, k: Key, l: Lease)
    requires SoleRecord(t, k, l) && l.Live(now) && Sender(m) != k
    ensures m.Request? ==> SoleRecord(HandleRequest(t, cfg, m, now).tables, k, l)
    ensures m.Request6? ==> SoleRecord(HandleRequest6(t, cfg, m, now).tables, k, l)
  {
    if m.Request? {
      var asked := if Unset(m.requested) && !Unset(m.ciaddr) then m.ciaddr else m.requested;
      if asked.Some? {
        RequestedKeepsLease(t, cfg, Mac(m.mac), asked.value, now, k, l);
      }
    } else if m.Request6? {
      var d := Duid(m.duid);
      var asked := if m.requested.None? && d in t.leases then Some(t.leases[d].ip) else m.requested;
      if asked.Some? {
        RequestedKeepsLease(t, cfg, d, asked.value, now, k, l);
      }
    }
  }

  lemma {:induction false} DeclineAllKeepsLease(t: Tables, addrs: seq<Addr>, now: Time, k: Key, l: Lease)
    requires SoleRecord(t, k, l) && l.ip !in addrs
    ensures SoleRecord(DeclineAll(t, addrs, now), k, l)
    decreases addrs
  {
    if addrs != [] {
      DeclineAllKeepsLease(Decline(t, addrs[0], now), addrs[1..], now, k, l);
    }
  }

  lemma SolicitKeepsLease(t: Tables, cfg: Config, d: Key, requested: Option<Addr>, rapid: bool, now: Time, k: Key, l: Lease)
    requires TablesOk(t, OffersOf(cfg), now) && StaticAddr(cfg, d) != Some(l.ip)
    requires SoleRecord(t, k, l) && l.Live(now) && d != k
    ensures SoleRecord(AnswerSolicit(Allocate(t, cfg, d, requested, now), cfg, d, rapid, now).tables, k, l)
  {
    AllocateOk(t, cfg, OffersOf(cfg), d, requested, now);
    AllocateKeepsLease(t, cfg, d, requested, now, k, l);
    AnswerKeepsLease(Allocate(t, cfg, d, requested, now), cfg, d, rapid, now, k, l);
  }

  lemma HandleKeepsLease(t: Tables, cfg: Config, m: Msg, now: Time, k: Key, l: Lease)
    requires SoleRecord(t, k, l) && l.Live(now)
    requires Sender(m) != k && !Declines(m, l.ip) && !Claims(cfg, m, l.ip)
    requires TablesOk(t, OffersOf(cfg), now)
    ensures SoleRecord(Handle(t, cfg, m, now).tables, k, l)
  {
    match m
    case Discover(mac, _, requested) =>
      AllocateKeepsLease(t, cfg, Mac(mac), requested, now, k, l);
    case Request(_, _, _, _) =>
      RequestsKeepLease(t, cfg, m, now, k, l);
    case ReleaseMsg(mac, ciaddr) =>
      ReleaseKeepsLease(t, Mac(mac), ciaddr, k, l);
    case DeclineMsg(_, requested, ciaddr) =>
      var a := if requested.Some? then requested else ciaddr;
      if a.Some? {
        DeclineKeepsLease(t, a.value, now, k, l);
      }
    case Solicit6(duid, _, requested, rapid) =>
      SolicitKeepsLease(t, cfg, Duid(duid), requested, rapid, now, k, l);
    case Request6(_, _, _) =>
      RequestsKeepLease(t, cfg, m, now, k, l);
    case Release6(duid, _, addr) =>
      ReleaseKeepsLease(t, Duid(duid), addr, k, l);
    case Decline6(_, _, addrs) =>
      DeclineAllKeepsLease(t, addrs, now, k, l);
  }

  lemma DeclineKeepsLease(t: Tables, a: Addr, now: Time, k: Key, l: Lease)
    requires SoleRecord(t, k, l) && a != l.ip
    ensures SoleRecord(Decline(t, a, now), k, l)
  {
  }

  lemma ReleaseKeepsLease(t: Tables, d: Key, a: Option<Addr>, k: Key, l: Lease)
    requires Indexed(t) && SoleRecord(t, k, l) && d != k
    ensures SoleRecord(HandleRelease(t, d, a).tables, k, l)
  {
    if d in t.leases {
      assert t.leases[d].ip != l.ip;
    }
  }

  /** The packets a lease of `k` at `a` should be indifferent to. */
  predicate Foreign(m: Msg, k: Key, a: Addr) {
    Sender(m) != k && !Declines(m, a)
  }

  ghost predicate Survives(t: Tables, cfg: Config, k: Key, m: Msg, now: Time)
    requires k in t.leases
  {
    var t' := Handle(t, cfg, m, now).tables;
    k in t'.leases && t'.leases[k] == t.leases[k]
  }

  /** Declining a second address of `k` drops its lease-table entry. */
  lemma SecondRecordDropped(t: Tables, cfg: Config, k: Key, b: Addr, now: Time) returns (m: Msg)
    requires k in t.leases && b in t.byIP && t.byIP[b].key == k && b != t.leases[k].ip
    ensures Foreign(m, k, t.leases[k].ip) && !Survives(t, cfg, k, m, now)
  {
    var stranger := Other(if k.Mac? then k.mac else []);
    m := DeclineMsg(stranger, Some(b), None);
    assert Handle(t, cfg, m, now).tables == Decline(t, b, now);
  }

  /** A client whose reservation is the leased address displaces the holder. */
  lemma ClaimDisplaces(t: Tables, cfg: Config, k: Key, d: Key, now: Time) returns (m: Msg)
    requires k in t.leases && Indexed(t) && d != k && StaticAddr(cfg, d) == Some(t.leases[k].ip)
    ensures Foreign(m, k, t.leases[k].ip) && !Survives(t, cfg, k, m, now)
  {
    var _ := StaticForFound(cfg.statics, d);
    m := if d.Mac? then Discover(d.mac, Absent, None) else Solicit6(d.duid, Absent, None, false);
    assert Handle(t, cfg, m, now).tables == Commit(t, StaticLeaseFor(d, t.leases[k].ip));
  }

  /** Nobody but `k` has `a` reserved. */
  ghost predicate Unclaimed(cfg: Config, k: Key, a: Addr) {
    forall d :: StaticAddr(cfg, d) == Some(a) ==> d == k
  }

  /** A live lease-table entry survives every packet of other clients that does not DECLINE
      its address, exactly when no second by-address record names the same client and no other
      client has the address reserved.  (Such a record is left behind when a client moves to
      another address.) */
  lemma LeaseSurvivesIff(t: Tables, cfg: Config, k: Key, now: Time)
    requires TablesOk(t, OffersOf(cfg), now) && k in t.leases && t.leases[k].Live(now)
    ensures (forall m :: Foreign(m, k, t.leases[k].ip) ==> Survives(t, cfg, k, m, now))
       <==> SoleRecord(t, k, t.leases[k]) && Unclaimed(cfg, k, t.leases[k].ip)
  {
    var l := t.leases[k];
    if !SoleRecord(t, k, l) {
      var b :| b in t.byIP && t.byIP[b].key == k && b != l.ip;
      var m := SecondRecordDropped(t, cfg, k, b, now);
    } else if !Unclaimed(cfg, k, l.ip) {
      var d :| StaticAddr(cfg, d) == Some(l.ip) && d != k;
      var m := ClaimDisplaces(t, cfg, k, d, now);
    } else {
      forall m | Foreign(m, k, l.ip)
        ensures Survives(t, cfg, k, m, now)
      {
        assert StaticAddr(cfg, Sender(m)) == Some(l.ip) ==> Sender(m) == k;
        HandleKeepsLease(t, cfg, m, now, k, l);
      }
    }
  }
}
