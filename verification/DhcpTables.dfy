/**
 What the lease tables keep in every run, whatever the configuration: the lease table and the
 by-address table agree, an address both leased and held names one client, a client has one
 unexpired offer, and only addresses of the right pool are offered.
 */
module DhcpTables {
  import opened Common
  import opened AddressMath
  import opened DhcpModel

  // ----- the invariant -------------------------------------------------------------

  /** A lease-table entry has its own key, and the by-address table holds the same lease. */
  predicate Indexed(t: Tables) {
    forall k :: k in t.leases ==>
      && t.leases[k].key == k
      && t.leases[k].ip in t.byIP
      && t.byIP[t.leases[k].ip] == t.leases[k]
  }

  /** An address both leased and held names one client. */
  predicate Agreed(t: Tables) {
    forall a :: a in t.reserved && a in t.byIP ==> t.byIP[a].key == t.reserved[a].key
  }

  /** A client has at most one unexpired offer. */
  predicate OneOffer(t: Tables, clock: Time) {
    forall a, b :: a in t.reserved && b in t.reserved && a != b ==>
      !SameOwner(t.reserved[a], t.reserved[b], clock)
  }

  predicate SameOwner(h: Hold, h': Hold, clock: Time) {
    h.key == h'.key != Nobody && h.until > clock && h'.until > clock
  }

  /** Offers, by address family. */
  type Offers = iset<(bool, Addr)>

  ghost function OffersOf(cfg: Config): Offers {
    iset v6: bool, a: Addr | Offerable(cfg, v6, a) :: (v6, a)
  }

  ghost predicate HoldsIn(t: Tables, o: Offers) {
    forall a :: a in t.reserved && t.reserved[a].key != Nobody ==> (t.reserved[a].key.Duid?, a) in o
  }

  ghost predicate TablesOk(t: Tables, o: Offers, clock: Time) {
    Indexed(t) && Agreed(t) && OneOffer(t, clock) && HoldsIn(t, o)
  }

  /** Nobody but `k` is on record for `a`. */
  predicate Mine(t: Tables, a: Addr, k: Key) {
    a in t.byIP ==> t.byIP[a].key == k
  }

  lemma {:induction false} StaticForFound(statics: seq<StaticLease>, k: Key) returns (i: nat)
    requires StaticFor(statics, k).Some?
    ensures i < |statics| && statics[i] == StaticFor(statics, k).value && Matches(statics[i], k)
  {
    if Matches(statics[0], k) {
      i := 0;
    } else {
      var j := StaticForFound(statics[1..], k);
      i := j + 1;
    }
  }

  // ----- one table operation at a time ----------------------------------------------

  lemma TimePasses(t: Tables, o: Offers, clock: Time, now: Time)
    requires TablesOk(t, o, clock) && clock <= now
    ensures TablesOk(t, o, now)
  {
    forall a, b | a in t.reserved && b in t.reserved && a != b
      ensures !SameOwner(t.reserved[a], t.reserved[b], now)
    {
      assert !SameOwner(t.reserved[a], t.reserved[b], clock);
    }
  }

  /** Dropping holds, and by-address records together with the lease of their client. */
  lemma DroppingKeeps(t: Tables, t': Tables, o: Offers, now: Time)
    requires TablesOk(t, o, now) && Indexed(t')
    requires forall a :: a in t'.byIP ==> a in t.byIP && t'.byIP[a] == t.byIP[a]
    requires forall a :: a in t'.reserved ==> a in t.reserved && t'.reserved[a] == t.reserved[a]
    ensures TablesOk(t', o, now)
  {
  }

  /** The in-use test, which drops expired leases as it goes. */
  lemma ReclaimOk(t: Tables, o: Offers, a: Addr, k: Key, now: Time)
    requires TablesOk(t, o, now)
    ensures var t' := Reclaim(t, a, k, now);
            && TablesOk(t', o, now) && t'.reserved == t.reserved
            && (!HeldByOther(t, a, k, now) ==> Mine(t', a, k))
  {
    var t' := Reclaim(t, a, k, now);
    forall x | x in t'.leases
      ensures t'.leases[x].ip in t'.byIP
    {
      assert t.byIP[t.leases[x].ip] == t.leases[x];
    }
    DroppingKeeps(t, t', o, now);
  }

  lemma CommitIndexed(t: Tables, l: Lease)
    requires Indexed(t)
    ensures Indexed(Commit(t, l))
  {
    var t' := Commit(t, l);
    forall x | x in t'.leases && x != l.key
      ensures x in t.leases && t.leases[x].ip != l.ip
    {
      assert t.byIP[t.leases[x].ip] == t.leases[x];
    }
  }

  /** A commit keeps the tables consistent even where it displaces another client. */
  lemma CommitOk(t: Tables, o: Offers, l: Lease, now: Time)
    requires TablesOk(t, o, now)
    ensures TablesOk(Commit(t, l), o, now)
  {
    CommitIndexed(t, l);
  }

  /** Renewing a dynamic lease files it again with a later expiry. */
  lemma RenewIsCommit(t: Tables, leaseTime: Time, k: Key, now: Time)
    requires Indexed(t) && k in t.leases && !t.leases[k].fixed
    ensures Renew(t, leaseTime, k, now) == Commit(t, t.leases[k].(expires := now + leaseTime))
  {
  }

  lemma RenewOk(t: Tables, o: Offers, leaseTime: Time, k: Key, now: Time)
    requires TablesOk(t, o, now) && k in t.leases
    ensures var t' := Renew(t, leaseTime, k, now);
            TablesOk(t', o, now) && Mine(t', t.leases[k].ip, k)
  {
    if !t.leases[k].fixed {
      RenewIsCommit(t, leaseTime, k, now);
      CommitOk(t, o, t.leases[k].(expires := now + leaseTime), now);
    }
  }

  lemma ReleaseOk(t: Tables, o: Offers, k: Key, a: Option<Addr>, now: Time)
    requires TablesOk(t, o, now)
    ensures TablesOk(Release(t, k, a), o, now)
  {
    var t' := Release(t, k, a);
    forall x | x in t'.leases
      ensures t'.leases[x].ip in t'.byIP
    {
      assert t.byIP[t.leases[x].ip] == t.leases[x];
    }
    DroppingKeeps(t, t', o, now);
  }

  lemma HoldOk(t: Tables, t': Tables, o: Offers, a: Addr, h: Hold, now: Time)
    requires TablesOk(t, o, now) && Indexed(t')
    requires forall b :: b in t'.byIP ==> b in t.byIP && t'.byIP[b] == t.byIP[b]
    requires t'.reserved == t.reserved[a := h] && Mine(t', a, h.key)
    requires h.key != Nobody ==> (h.key.Duid?, a) in o && NoOffer(t, h.key, now)
    ensures TablesOk(t', o, now)
  {
    forall b, c | b in t'.reserved && c in t'.reserved && b != c
      ensures !SameOwner(t'.reserved[b], t'.reserved[c], now)
    {
      assert b in t.reserved && c in t.reserved ==> !SameOwner(t.reserved[b], t.reserved[c], now);
    }
  }

  predicate NoOffer(t: Tables, k: Key, now: Time) {
    forall a :: a in t.reserved ==> !(t.reserved[a].key == k && t.reserved[a].until > now)
  }

  lemma DeclineOk(t: Tables, o: Offers, a: Addr, now: Time)
    requires TablesOk(t, o, now)
    ensures TablesOk(Decline(t, a, now), o, now)
  {
    var t' := Decline(t, a, now);
    forall x | x in t'.leases
      ensures t'.leases[x].ip in t'.byIP
    {
      assert t.byIP[t.leases[x].ip] == t.leases[x];
    }
    HoldOk(t, t', o, a, Hold(Nobody, now + DECLINED_HOLD), now);
  }

  lemma {:induction false} DeclineAllOk(t: Tables, o: Offers, addrs: seq<Addr>, now: Time)
    requires TablesOk(t, o, now)
    ensures TablesOk(DeclineAll(t, addrs, now), o, now)
    decreases addrs
  {
    if addrs != [] {
      DeclineOk(t, o, addrs[0], now);
      DeclineAllOk(Decline(t, addrs[0], now), o, addrs[1..], now);
    }
  }

  lemma OfferOk(t: Tables, o: Offers, a: Addr, k: Key, now: Time)
    requires TablesOk(t, o, now) && Mine(t, a, k) && k != Nobody && (k.Duid?, a) in o && NoOffer(t, k, now)
    ensures TablesOk(Offer(t, a, k, now), o, now) && Mine(Offer(t, a, k, now), a, k)
  {
    HoldOk(t, Offer(t, a, k, now), o, a, Hold(k, now + OFFERED_HOLD), now);
  }

  // ----- the search and the allocation ------------------------------------------------

  lemma {:induction false} ScanOk(t: Tables, o: Offers, span: Span, p: nat, i: nat, k: Key, now: Time)
    requires TablesOk(t, o, now) && p < span.size
    ensures var (t', found) := Scan(t, span, p, i, k, now);
            && TablesOk(t', o, now) && t'.reserved == t.reserved
            && (found.Some? ==> Mine(t', span.At(found.value), k))
    decreases span.size - i
  {
    if i < span.size {
      var a := span.At(Place(p, i, span.size));
      ReclaimOk(t, o, a, k, now);
      if HeldByOther(t, a, k, now) {
        ScanOk(Reclaim(t, a, k, now), o, span, p, i + 1, k, now);
      }
    }
  }

  lemma NextFreeOk(t: Tables, cfg: Config, o: Offers, v6: bool, k: Key, now: Time)
    requires o == OffersOf(cfg) && TablesOk(t, o, now)
    ensures var (t', a) := NextFree(t, cfg, v6, k, now);
            && TablesOk(t', o, now) && t'.reserved == t.reserved
            && (a.Some? ==> Mine(t', a.value, k) && (v6, a.value) in o)
  {
    if ScanSpan(cfg, v6).Some? {
      var span, p := ScanSpan(cfg, v6).value, ScanStart(t, cfg, v6);
      ScanOk(t, o, span, p, 0, k, now);
      var (t', found) := Scan(t, span, p, 0, k, now);
      DroppingKeeps(t', NextFree(t, cfg, v6, k, now).0, o, now);
      if found.Some? {
        assert OnSpan(span, span.At(found.value));
      }
    }
  }

  lemma AllocateFreshOk(t: Tables, cfg: Config, o: Offers, k: Key, requested: Option<Addr>, now: Time)
    requires o == OffersOf(cfg) && TablesOk(t, o, now) && k != Nobody && NoOffer(t, k, now)
    ensures var x := AllocateFresh(t, cfg, k, requested, now);
            TablesOk(x.tables, o, now) && (x.addr.Some? ==> Mine(x.tables, x.addr.value, k) && (k.Duid?, x.addr.value) in o)
  {
    var asked := requested.Some? && Eligible(cfg, k, requested.value);
    if asked {
      ReclaimOk(t, o, requested.value, k, now);
    }
    var t' := if asked then Reclaim(t, requested.value, k, now) else t;
    if asked && !HeldByOther(t, requested.value, k, now) {
      OfferOk(t', o, requested.value, k, now);
    } else {
      NextFreeOk(t', cfg, o, k.Duid?, k, now);
      var (t'', a) := NextFree(t', cfg, k.Duid?, k, now);
      if a.Some? {
        OfferOk(t'', o, a.value, k, now);
      }
    }
  }

  lemma WithoutOffer(t: Tables, k: Key, now: Time)
    requires OfferOf(t, k, now).None?
    ensures NoOffer(t, k, now)
  {
    forall a | a in t.reserved
      ensures !(t.reserved[a].key == k && t.reserved[a].until > now)
    {
      assert !IsOffer(t, a, k, now);
    }
  }

  /** An allocation keeps the tables consistent, and what it returns is on record for nobody
      but its client. */
  lemma AllocateOk(t: Tables, cfg: Config, o: Offers, k: Key, requested: Option<Addr>, now: Time)
    requires o == OffersOf(cfg) && TablesOk(t, o, now)
    ensures var x := Allocate(t, cfg, k, requested, now);
            TablesOk(x.tables, o, now) && (x.addr.Some? ==> Mine(x.tables, x.addr.value, k))
  {
    if k == Nobody || k == Mac([]) || k == Duid([]) {
    } else if StaticAddr(cfg, k).Some? {
      CommitOk(t, o, StaticLeaseFor(k, StaticAddr(cfg, k).value), now);
    } else if k in t.leases {
      RenewOk(t, o, LeaseTime(cfg), k, now);
    } else if OfferOf(t, k, now).None? {
      WithoutOffer(t, k, now);
      AllocateFreshOk(t, cfg, o, k, requested, now);
    }
  }

  // ----- packets and runs ---------------------------------------------------------------

  lemma CommitRequestedOk(t: Tables, cfg: Config, o: Offers, k: Key, a: Addr, now: Time)
    requires TablesOk(t, o, now)
    ensures TablesOk(CommitRequested(t, cfg, k, a, now).tables, o, now)
  {
    ReclaimOk(t, o, a, k, now);
    var st := StaticFor(cfg.statics, k);
    var l := if st.Some? && st.value.ip == a then StaticLeaseFor(k, a) else DynamicLeaseFor(LeaseTime(cfg), k, a, now);
    CommitOk(Reclaim(t, a, k, now), o, l, now);
  }

  lemma RequestsOk(t: Tables, cfg: Config, o: Offers, m: Msg, now: Time)
    requires TablesOk(t, o, now)
    ensures m.Request? ==> TablesOk(HandleRequest(t, cfg, m, now).tables, o, now)
    ensures m.Request6? ==> TablesOk(HandleRequest6(t, cfg, m, now).tables, o, now)
  {
    if m.Request? {
      var asked := if Unset(m.requested) && !Unset(m.ciaddr) then m.ciaddr else m.requested;
      if asked.Some? {
        CommitRequestedOk(t, cfg, o, Mac(m.mac), asked.value, now);
      }
    } else if m.Request6? {
      var k := Duid(m.duid);
      var asked := if m.requested.None? && k in t.leases then Some(t.leases[k].ip) else m.requested;
      if asked.Some? {
        CommitRequestedOk(t, cfg, o, k, asked.value, now);
      }
    }
  }

  lemma AnswerOk(x: Allocation, cfg: Config, o: Offers, k: Key, rapid: bool, now: Time)
    requires TablesOk(x.tables, o, now)
    ensures TablesOk(AnswerSolicit(x, cfg, k, rapid, now).tables, o, now)
  {
    if rapid && x.addr.Some? {
      var a := x.addr.value;
      CommitOk(x.tables, o, if x.fixed then StaticLeaseFor(k, a) else DynamicLeaseFor(LeaseTime(cfg), k, a, now), now);
    }
  }

  /** Every packet keeps the tables consistent. */
  lemma HandleOk(t: Tables, cfg: Config, o: Offers, m: Msg, now: Time)
    requires o == OffersOf(cfg) && TablesOk(t, o, now)
    ensures TablesOk(Handle(t, cfg, m, now).tables, o, now)
  {
    match m
    case Discover(mac, sid, requested) =>
      AllocateOk(t, cfg, o, Mac(mac), requested, now);
    case Request(_, _, _, _) =>
      RequestsOk(t, cfg, o, m, now);
    case ReleaseMsg(mac, ciaddr) =>
      ReleaseOk(t, o, Mac(mac), ciaddr, now);
    case DeclineMsg(_, requested, ciaddr) =>
      var a := if requested.Some? then requested else ciaddr;
      if a.Some? {
        DeclineOk(t, o, a.value, now);
      }
    case Solicit6(duid, _, requested, rapid) =>
      AllocateOk(t, cfg, o, Duid(duid), requested, now);
      AnswerOk(Allocate(t, cfg, Duid(duid), requested, now), cfg, o, Duid(duid), rapid, now);
    case Request6(_, _, _) =>
      RequestsOk(t, cfg, o, m, now);
    case Release6(duid, _, addr) =>
      ReleaseOk(t, o, Duid(duid), addr, now);
    case Decline6(_, _, addrs) =>
      DeclineAllOk(t, o, addrs, now);
  }

  lemma StepOk(w: World, cfg: Config, e: Event)
    requires TablesOk(w.tables, OffersOf(cfg), w.clock) && w.clock <= e.at
    ensures TablesOk(Step(w, cfg, e).tables, OffersOf(cfg), e.at)
  {
    TimePasses(w.tables, OffersOf(cfg), w.clock, e.at);
    HandleOk(w.tables, cfg, OffersOf(cfg), e.msg, e.at);
  }

  /** Every run keeps the tables consistent, whatever the configuration. */
  lemma {:induction false} RunOk(w: World, cfg: Config, events: seq<Event>)
    requires TablesOk(w.tables, OffersOf(cfg), w.clock) && Timely(w.clock, events)
    ensures TablesOk(Run(w, cfg, events).tables, OffersOf(cfg), Run(w, cfg, events).clock)
    ensures w.clock <= Run(w, cfg, events).clock
    decreases events
  {
    if events != [] {
      StepOk(w, cfg, events[0]);
      RunOk(Step(w, cfg, events[0]), cfg, events[1..]);
    }
  }

  ghost function Reached(cfg: Config, start: Time, events: seq<Event>): World {
    Run(World(EMPTY, {}, start), cfg, events)
  }

  lemma ReachedOk(cfg: Config, start: Time, events: seq<Event>)
    requires Timely(start, events)
    ensures TablesOk(Reached(cfg, start, events).tables, OffersOf(cfg), Reached(cfg, start, events).clock)
    ensures start <= Reached(cfg, start, events).clock
  {
    RunOk(World(EMPTY, {}, start), cfg, events);
  }

  /** No two lease-table entries share an address. */
  predicate Disjoint(t: Tables) {
    forall k, k' :: k in t.leases && k' in t.leases && k != k' ==> t.leases[k].ip != t.leases[k'].ip
  }

  /** In every reachable state of every configuration. */
  lemma LeasesDisjoint(cfg: Config, start: Time, events: seq<Event>)
    requires Timely(start, events)
    ensures Disjoint(Reached(cfg, start, events).tables)
  {
    ReachedOk(cfg, start, events);
  }

  // ----- putting runs together ------------------------------------------------------------

  lemma {:induction false} RunJoined(w: World, cfg: Config, first: seq<Event>, rest: seq<Event>)
    ensures Run(w, cfg, first + rest) == Run(Run(w, cfg, first), cfg, rest)
    decreases first
  {
    if first == [] {
      assert first + rest == rest;
    } else {
      assert (first + rest)[1..] == first[1..] + rest;
      RunJoined(Step(w, cfg, first[0]), cfg, first[1..], rest);
    }
  }

  lemma RunOfOne(w: World, cfg: Config, e: Event)
    ensures Run(w, cfg, [e]) == Step(w, cfg, e)
  {
    assert [e][1..] == [];
    assert Run(Step(w, cfg, e), cfg, []) == Step(w, cfg, e);
  }

  lemma RunThen(w: World, cfg: Config, events: seq<Event>, e: Event)
    ensures Run(w, cfg, events + [e]) == Step(Run(w, cfg, events), cfg, e)
  {
    RunJoined(w, cfg, events, [e]);
    RunOfOne(Run(w, cfg, events), cfg, e);
  }
}
