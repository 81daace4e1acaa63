/**
 The DHCP server object of internal/dhcp: its tables are updated in place, by loops over
 the pool, the reservations and the octets of an address.  Each method is tied to the
 transition system it implements.
 */
module DhcpServer {
  import opened Common
  import opened AddressMath
  import opened DhcpModel
  import opened DhcpTables
  import opened DhcpSearch
  import opened DhcpRestart

  /** The scan index (cursor + i) mod n is one place along the ring per step. */
  lemma PlaceIsMod(c: nat, i: nat, n: nat)
    requires i < n
    ensures (c + i) % n == Place(c % n, i, n)
  {
    var q, r := c / n, c % n;
    if r + i < n {
      ModUnique(c + i, n, q, r + i);
    } else {
      assert (q + 1) * n == q * n + n;
      ModUnique(c + i, n, q + 1, r + i - n);
    }
  }

  lemma PoolAtIsRaw(span: Span, b: seq<Byte>, j: nat)
    requires j < span.size && span.width == |b| == 4 && span.base == Value(b)
    ensures Bytes(Value(b) + j, |b|) == span.Raw(j)
  {
    Limits();
    if span.base + j >= LIMIT_4 {
      BytesWrap(span.base + j - LIMIT_4, span.width);
    }
  }

  /** One turn of nextFree4's loop: the index and the address there. */
  method Candidate4(r: Range4, cursor: nat, i: nat, n: nat) returns (idx: nat, cand: Addr)
    requires n == ScanLength(r.start, r.end) + 1 && i < n
    ensures idx == Place(cursor % n, i, n)
    ensures Value(r.start) < LIMIT_4 && cand == Span(4, Value(r.start), n).At(idx)
  {
    Limited(r.start);
    PlaceIsMod(cursor, i, n);
    idx := (cursor + i) % n;
    var buf := PoolAt(r.start, idx);
    PoolAtIsRaw(Span(4, Value(r.start), n), r.start, idx);
    cand := Text(buf[..]);
  }

  /** incr and the test against the pool's end. */
  method Successor6(r: Range6, cur: Octets16) returns (next: Octets16)
    ensures next == Next6(r, cur)
  {
    var buf := new Byte[|cur|](i requires 0 <= i < |cur| => cur[i]);
    assert buf[..] == cur;
    Incr(buf);
    next := Wrapped6(r, buf[..], cur);
  }

  method Wrapped6(r: Range6, up: Octets16, ghost cur: Octets16) returns (next: Octets16)
    requires up == Bytes(Value(cur) + 1, |cur|)
    ensures next == Next6(r, cur)
  {
    var c := CompareBytes(up, r.end);
    next := if c > 0 then r.start else up;
  }

  class Server {
    const cfg: Config
    var leases: map<Key, Lease>
    var byIP: map<Addr, Lease>
    var reserved: map<Addr, Hold>
    var cursor4: nat
    var cursor6: Option<Octets16>

    ghost function View(): Tables
      reads this
    {
      Tables(leases, byIP, reserved, cursor4, cursor6)
    }

    constructor (cfg: Config)
      ensures this.cfg == cfg && View() == EMPTY
    {
      this.cfg := cfg;
      leases, byIP, reserved, cursor4, cursor6 := map[], map[], map[], 0, None;
    }

    /** loadLocked. */
    method LoadLeases(saved: seq<Lease>, now: Time)
      modifies this
      ensures View() == Load(old(View()), cfg, saved, now)
    {
      for i := 0 to |saved|
        invariant Load(old(View()), cfg, saved, now) == Load(View(), cfg, saved[i..], now)
      {
        var l := saved[i];
        if Keeps(cfg, l, now) {
          leases, byIP := leases[l.key := l], byIP[l.ip := l];
        }
        assert saved[i..][1..] == saved[i + 1..];
      }
    }

    /** inUseLocked. */
    method InUse(ip: Addr, key: Key, now: Time) returns (held: bool)
      modifies this
      ensures held == HeldByOther(old(View()), ip, key, now)
      ensures View() == Reclaim(old(View()), ip, key, now)
    {
      if ip in byIP && byIP[ip].key != key {
        if byIP[ip].Live(now) {
          return true;
        }
        leases, byIP := leases - {byIP[ip].key}, byIP - {ip};
      }
      held := ip in reserved && reserved[ip].until > now && reserved[ip].key != key;
    }

    /** staticForClientLocked. */
    method StaticForClient(key: Key) returns (st: Option<StaticLease>)
      ensures st == StaticFor(cfg.statics, key)
    {
      for i := 0 to |cfg.statics|
        invariant StaticFor(cfg.statics, key) == StaticFor(cfg.statics[i..], key)
      {
        if Matches(cfg.statics[i], key) {
          return Some(cfg.statics[i]);
        }
        assert cfg.statics[i..][1..] == cfg.statics[i + 1..];
      }
      return None;
    }

    /** The loop of nextFree4, from the cursor once around. */
    method Scan4(r: Range4, n: nat, ghost span: Span, key: Key, now: Time) returns (idx: nat, a: Option<Addr>)
      requires n == ScanLength(r.start, r.end) + 1
      requires span == Span(4, Value(r.start), n)
      modifies this
      ensures Scan(old(View()), span, old(cursor4) % n, 0, key, now) == (View(), if a.Some? then Some(idx) else None)
      ensures a.Some? ==> idx < n && a.value == span.At(idx)
    {
      ghost var t0, p := View(), cursor4 % n;
      for i := 0 to n
        invariant cursor4 == t0.cursor4
        invariant Scan(t0, span, p, 0, key, now) == Scan(View(), span, p, i, key, now)
      {
        var j, cand := Candidate4(r, cursor4, i, n);
        var held := InUse(cand, key, now);
        if !held {
          return j, Some(cand);
        }
      }
      return 0, None;
    }

    method NextFree4(key: Key, now: Time) returns (a: Option<Addr>)
      modifies this
      ensures (View(), a) == NextFree(old(View()), cfg, false, key, now)
    {
      if cfg.range4.None? {
        return None;
      }
      var n := ScanLength(cfg.range4.value.start, cfg.range4.value.end) + 1;
      var idx;
      idx, a := Scan4(cfg.range4.value, n, ScanSpan(cfg, false).value, key, now);
      if a.Some? {
        cursor4 := if idx + 1 == n then 0 else idx + 1;
      }
    }

    /** One turn of nextFree6's loop: is the candidate taken? */
    method Try6(cur: Octets16, ghost t0: Tables, ghost span: Span, ghost p: nat, ghost i: nat, key: Key, now: Time)
        returns (held: bool)
      requires p < span.size && i < span.size && cur == span.Raw(Place(p, i, span.size))
      requires Going(t0, View(), span, p, i, key, now)
      modifies this
      ensures held ==> Going(t0, View(), span, p, i + 1, key, now)
      ensures !held ==> Scan(t0, span, p, 0, key, now) == (View(), Some(Place(p, i, span.size)))
    {
      ScanTurn(t0, View(), span, p, i, key, now);
      held := InUse(Text(cur), key, now);
    }

    /** The loop of nextFree6, until it comes back to where it began. */
    method Scan6(r: Range6, first: Octets16, ghost span: Span, ghost p: nat, key: Key, now: Time)
        returns (ghost j: nat, a: Option<Octets16>)
      requires cfg.range6 == Some(r) && ScanSpan(cfg, true) == Some(span)
      requires p < span.size && first == span.Raw(p)
      modifies this
      ensures Scan(old(View()), span, p, 0, key, now) == (View(), if a.Some? then Some(j) else None)
      ensures a.Some? ==> j < span.size && a.value == span.Raw(j)
    {
      var cur := first;
      ghost var t0, i := View(), 0;
      while true
        invariant i < span.size
        invariant cur == span.Raw(Place(p, i, span.size))
        invariant Going(t0, View(), span, p, i, key, now)
        decreases span.size - i
      {
        var held := Try6(cur, t0, span, p, i, key, now);
        if !held {
          return Place(p, i, span.size), Some(cur);
        }
        StepOnRing(cfg, span, p, i);
        cur := Successor6(r, cur);
        if cur == first {
          ScanDone(t0, View(), span, p, key, now);
          return 0, None;
        }
        i := i + 1;
      }
    }

    method NextFree6(key: Key, now: Time) returns (a: Option<Addr>)
      modifies this
      ensures (View(), a) == NextFree(old(View()), cfg, true, key, now)
    {
      if cfg.range6.None? {
        return None;
      }
      var r := cfg.range6.value;
      StartsAtFirst(View(), cfg);
      ghost var j;
      var found;
      j, found := Scan6(r, First6(r, cursor6), ScanSpan(cfg, true).value, ScanStart(View(), cfg, true), key, now);
      if found.None? {
        return None;
      }
      var next := Successor6(r, found.value);
      cursor6 := Some(next);
      return Some(Text(found.value));
    }

    /** The reservation loop of allocV4 and allocV6, in whatever order the map yields. */
    method FindOffer(key: Key, now: Time) returns (a: Option<Addr>)
      ensures a.Some? ==> IsOffer(View(), a.value, key, now)
      ensures a.None? ==> NoOffer(View(), key, now)
    {
      var rest := reserved.Keys;
      while rest != {}
        invariant rest <= reserved.Keys
        invariant forall x :: x in reserved && x !in rest ==> !(reserved[x].key == key && reserved[x].until > now)
        decreases |rest|
      {
        var x :| x in rest;
        if reserved[x].key == key && reserved[x].until > now {
          return Some(x);
        }
        rest := rest - {x};
      }
      return None;
    }

    method CommitLease(l: Lease)
      modifies this
      ensures View() == Commit(old(View()), l)
    {
      reserved := reserved - {l.ip};
      if l.ip in byIP && byIP[l.ip].key != l.key {
        leases := leases - {byIP[l.ip].key};
      }
      leases := leases[l.key := l];
      byIP := byIP[l.ip := l];
    }

    method RenewLease(key: Key, now: Time)
      requires key in leases
      modifies this
      ensures View() == Renew(old(View()), LeaseTime(cfg), key, now)
    {
      var l := leases[key];
      if l.fixed {
        return;
      }
      var l' := l.(expires := now + LeaseTime(cfg));
      if l.ip in byIP && byIP[l.ip] == l {
        byIP := byIP[l.ip := l'];
      }
      leases := leases[key := l'];
      reserved := reserved - {l.ip};
    }

    method Reserve(a: Addr, key: Key, now: Time)
      modifies this
      ensures View() == Offer(old(View()), a, key, now)
    {
      reserved := reserved[a := Hold(key, now + OFFERED_HOLD)];
    }

    /** Steps 3 and 4 of an allocation. */
    method AllocFresh(key: Key, requested: Option<Addr>, now: Time) returns (a: Option<Addr>)
      modifies this
      ensures Allocation(View(), a, false) == AllocateFresh(old(View()), cfg, key, requested, now)
    {
      if requested.Some? && Eligible(cfg, key, requested.value) {
        var held := InUse(requested.value, key, now);
        if !held {
          Reserve(requested.value, key, now);
          return requested;
        }
      }
      if key.Duid? {
        a := NextFree6(key, now);
      } else {
        a := NextFree4(key, now);
      }
      if a.Some? {
        Reserve(a.value, key, now);
      }
    }

    /** allocV4 and allocV6. */
    method Alloc(key: Key, requested: Option<Addr>, now: Time) returns (a: Option<Addr>, fixed: bool)
      requires OneOffer(View(), now)
      modifies this
      ensures Allocation(View(), a, fixed) == Allocate(old(View()), cfg, key, requested, now)
    {
      if key == Nobody || key == Mac([]) || key == Duid([]) {
        return None, false;
      }
      var st := StaticForClient(key);
      if st.Some? && (|st.value.ip| == 4) == key.Mac? {
        CommitLease(StaticLeaseFor(key, st.value.ip));
        return Some(st.value.ip), true;
      }
      if key in leases {
        a := Some(leases[key].ip);
        RenewLease(key, now);
        return a, false;
      }
      a := FindOffer(key, now);
      OfferIsUnique(View(), key, a, now);
      if a.Some? {
        return a, false;
      }
      a := AllocFresh(key, requested, now);
      return a, false;
    }

    method CommitRequest(key: Key, asked: Addr, now: Time) returns (e: Effect)
      modifies this
      ensures Outcome(View(), e) == CommitRequested(old(View()), cfg, key, asked, now)
    {
      var held := InUse(asked, key, now);
      if held {
        return Silent;
      }
      var st := StaticForClient(key);
      var fixed := st.Some? && st.value.ip == asked;
      CommitLease(if fixed then StaticLeaseFor(key, asked) else DynamicLeaseFor(LeaseTime(cfg), key, asked, now));
      return Granted(Grant(key, asked, now + if key.Mac? then Promise4(cfg) else Promise6(cfg, fixed)));
    }

    method ReleaseLease(key: Key, a: Option<Addr>) returns (e: Effect)
      modifies this
      ensures Outcome(View(), e) == HandleRelease(old(View()), key, a)
    {
      if key !in leases || (a.Some? && a.value != leases[key].ip) {
        return Silent;
      }
      var l := leases[key];
      leases, byIP := leases - {key}, byIP - {l.ip};
      return Released(key, l.ip);
    }

    method DeclineLease(a: Addr, now: Time)
      modifies this
      ensures View() == Decline(old(View()), a, now)
    {
      if a in byIP {
        leases, byIP := leases - {byIP[a].key}, byIP - {a};
      }
      reserved := reserved[a := Hold(Nobody, now + DECLINED_HOLD)];
    }

    method V4Request(m: Msg, now: Time) returns (e: Effect)
      requires m.Request?
      modifies this
      ensures Outcome(View(), e) == HandleRequest(old(View()), cfg, m, now)
    {
      var key := Mac(m.mac);
      var asked := if Unset(m.requested) && !Unset(m.ciaddr) then m.ciaddr else m.requested;
      if m.sid == Foreign || asked.None? || !InPool(cfg, false, asked.value) {
        return Silent;
      }
      if m.sid == Absent && asked.value in byIP && byIP[asked.value].key != key {
        return Silent;
      }
      e := CommitRequest(key, asked.value, now);
    }

    /** handleV4: DISCOVER, REQUEST, RELEASE and DECLINE. */
    method HandleV4(m: Msg, now: Time) returns (e: Effect)
      requires m.Discover? || m.Request? || m.ReleaseMsg? || m.DeclineMsg?
      requires OneOffer(View(), now)
      modifies this
      ensures Outcome(View(), e) == Handle(old(View()), cfg, m, now)
    {
      e := Silent;
      match m
      case Discover(mac, sid, requested) =>
        if sid != Foreign {
          var _, _ := Alloc(Mac(mac), requested, now);
        }
      case Request(_, _, _, _) =>
        e := V4Request(m, now);
      case ReleaseMsg(mac, ciaddr) =>
        if !Unset(ciaddr) {
          e := ReleaseLease(Mac(mac), ciaddr);
        }
      case DeclineMsg(mac, requested, ciaddr) =>
        var a := if requested.Some? then requested else ciaddr;
        if a.Some? {
          DeclineLease(a.value, now);
          e := Declined({a.value});
        }
    }

    method V6Answer(key: Key, a: Option<Addr>, fixed: bool, rapid: bool, now: Time) returns (e: Effect)
      modifies this
      ensures Outcome(View(), e) == AnswerSolicit(Allocation(old(View()), a, fixed), cfg, key, rapid, now)
    {
      if !rapid || a.None? {
        return Silent;
      }
      CommitLease(if fixed then StaticLeaseFor(key, a.value) else DynamicLeaseFor(LeaseTime(cfg), key, a.value, now));
      return Granted(Grant(key, a.value, now + Promise6(cfg, fixed)));
    }

    method V6Request(m: Msg, now: Time) returns (e: Effect)
      requires m.Request6?
      modifies this
      ensures Outcome(View(), e) == HandleRequest6(old(View()), cfg, m, now)
    {
      var key := Duid(m.duid);
      var asked := m.requested;
      if asked.None? && key in leases {
        asked := Some(leases[key].ip);
      }
      if asked.None? || !InPool(cfg, true, asked.value) {
        return Silent;
      }
      e := CommitRequest(key, asked.value, now);
    }

    method V6Decline(addrs: seq<Addr>, now: Time)
      modifies this
      ensures View() == DeclineAll(old(View()), addrs, now)
    {
      for i := 0 to |addrs|
        invariant DeclineAll(old(View()), addrs, now) == DeclineAll(View(), addrs[i..], now)
      {
        DeclineLease(addrs[i], now);
        assert addrs[i..][1..] == addrs[i + 1..];
      }
    }

    /** handleV6: SOLICIT, REQUEST (RENEW, REBIND), RELEASE and DECLINE. */
    method HandleV6(m: Msg, now: Time) returns (e: Effect)
      requires m.Solicit6? || m.Request6? || m.Release6? || m.Decline6?
      requires OneOffer(View(), now)
      modifies this
      ensures Outcome(View(), e) == Handle(old(View()), cfg, m, now)
    {
      e := Silent;
      if m.sid == Foreign || m.duid == [] {
        return;
      }
      match m
      case Solicit6(duid, _, requested, rapid) =>
        var a, fixed := Alloc(Duid(duid), requested, now);
        e := V6Answer(Duid(duid), a, fixed, rapid, now);
      case Request6(_, _, _) =>
        e := V6Request(m, now);
      case Release6(duid, _, addr) =>
        e := ReleaseLease(Duid(duid), addr);
      case Decline6(_, _, addrs) =>
        V6Decline(addrs, now);
        e := Declined(set a | a in addrs);
    }
  }

  /** A scan that began with `t0` has come to its `i`-th candidate with `t`. */
  ghost predicate Going(t0: Tables, t: Tables, span: Span, p: nat, i: nat, k: Key, now: Time)
    requires p < span.size
  {
    Scan(t0, span, p, 0, k, now) == Scan(t, span, p, i, k, now)
  }

  lemma ScanTurn(t0: Tables, t: Tables, span: Span, p: nat, i: nat, k: Key, now: Time)
    requires p < span.size && i < span.size && Going(t0, t, span, p, i, k, now)
    ensures var a := Text(span.Raw(Place(p, i, span.size)));
            if HeldByOther(t, a, k, now) then Going(t0, Reclaim(t, a, k, now), span, p, i + 1, k, now)
            else Scan(t0, span, p, 0, k, now) == (Reclaim(t, a, k, now), Some(Place(p, i, span.size)))
  {
  }

  lemma ScanDone(t0: Tables, t: Tables, span: Span, p: nat, k: Key, now: Time)
    requires p < span.size && Going(t0, t, span, p, span.size, k, now)
    ensures Scan(t0, span, p, 0, k, now) == (t, None)
  {
  }

  lemma StartsAtFirst(t: Tables, cfg: Config)
    requires cfg.range6.Some?
    ensures var span := ScanSpan(cfg, true).value;
            First6(cfg.range6.value, t.cursor6) == span.Raw(ScanStart(t, cfg, true))
  {
    var span, first := ScanSpan(cfg, true).value, First6(cfg.range6.value, t.cursor6);
    Limited(first);
    BytesOfValue(first);
  }

  /** One turn of nextFree6's loop: the next candidate, or the first one again. */
  lemma StepOnRing(cfg: Config, span: Span, p: nat, i: nat)
    requires cfg.range6.Some? && ScanSpan(cfg, true) == Some(span) && p < span.size && i < span.size
    ensures var next := Next6(cfg.range6.value, span.Raw(Place(p, i, span.size)));
            && (next == span.Raw(p) <==> i + 1 == span.size)
            && (i + 1 < span.size ==> next == span.Raw(Place(p, i + 1, span.size)))
  {
    NextOnSpan(cfg, Place(p, i, span.size));
    if i + 1 < span.size {
      DifferentPlaces(span, p, Place(p, i + 1, span.size));
    }
  }

  lemma DifferentPlaces(span: Span, i: nat, j: nat)
    requires i != j && i < span.size && j < span.size
    ensures span.Raw(i) != span.Raw(j)
  {
    RawNumber(span, i);
    RawNumber(span, j);
  }

  lemma OfferIsUnique(t: Tables, k: Key, a: Option<Addr>, now: Time)
    requires OneOffer(t, now) && k != Nobody
    requires a.Some? ==> IsOffer(t, a.value, k, now)
    requires a.None? ==> NoOffer(t, k, now)
    ensures OfferOf(t, k, now) == a
  {
    var o := OfferOf(t, k, now);
    if o.Some? && a.Some? && o != a {
      assert SameOwner(t.reserved[a.value], t.reserved[o.value], now);
    } else if o.None? && a.Some? {
      assert IsOffer(t, a.value, k, now);
    }
  }
}
