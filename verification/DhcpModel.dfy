/**
 The lease allocator of internal/dhcp as a transition system: what each packet handler
 does to the lease tables, and which address it grants to whom until when.  One packet is
 one atomic step with one clock reading.
 */
module DhcpModel {
  import opened Common
  import opened AddressMath

  type Time = int  // nanoseconds

  const SECOND: Time := 1_000_000_000
  const OFFERED_HOLD: Time := 90 * SECOND
  const DECLINED_HOLD: Time := 30 * 60 * SECOND
  const DEFAULT_LEASE_TIME: Time := 24 * 60 * 60 * SECOND

  // ----- clients and configuration -------------------------------------------------

  function Lower(s: string): (r: string)
    ensures |r| == |s|
  {
    seq(|s|, i requires 0 <= i < |s| => LowerChar(s[i]))
  }

  function LowerChar(c: char): char { if 'A' <= c <= 'Z' then (c as int + 32) as char else c }

  /** A client's hardware address, at most the sixteen octets of a packet's chaddr field. */
  type HwAddr = b: seq<Byte> | |b| <= 16

  /** A client's DUID, as long as an option can carry. */
  type DuidOctets = b: seq<Byte> | |b| <= 0xffff

  /** leaseKey: "v4:" and the printed hardware address, "v6:" and the printed DUID, or the empty
      key that owns a declined address.  Printing loses nothing (PrintedInjective, HexInjective). */
  datatype Key = Nobody | Mac(mac: HwAddr) | Duid(duid: DuidOctets)

  function Digit(n: nat): (c: char)
    requires n < 16
    ensures !('A' <= c <= 'Z')
  {
    if n < 10 then '0' + n as char else 'a' + (n - 10) as char
  }

  /** The first or second hexadecimal digit of an octet. */
  function DigitOf(o: Byte, second: bool): (c: char)
    ensures !('A' <= c <= 'Z') && c != ':'
  {
    if second then Digit(o % 16) else Digit(o / 16)
  }

  lemma DigitsTell(o: Byte, o': Byte)
    requires DigitOf(o, false) == DigitOf(o', false) && DigitOf(o, true) == DigitOf(o', true)
    ensures o == o'
  {
    assert o / 16 == o' / 16 && o % 16 == o' % 16;
  }

  function Pair(o: Byte): string { [DigitOf(o, false), DigitOf(o, true)] }

  /** net.HardwareAddr's String: pairs of digits joined by colons. */
  function Printed(b: seq<Byte>): (s: string)
    ensures b != [] ==> |s| == 3 * |b| - 1
  {
    if b == [] then "" else if |b| == 1 then Pair(b[0]) else Pair(b[0]) + ":" + Printed(b[1..])
  }

  /** hex.EncodeToString. */
  function Hex(b: seq<Byte>): (s: string)
    ensures |s| == 2 * |b|
  {
    if b == [] then "" else Pair(b[0]) + Hex(b[1..])
  }

  lemma {:induction false} PrintedInjective(a: seq<Byte>, b: seq<Byte>)
    requires Printed(a) == Printed(b)
    ensures a == b
  {
    assert |a| == |b|;
    if a != [] {
      assert Printed(a)[0] == DigitOf(a[0], false) && Printed(a)[1] == DigitOf(a[0], true);
      assert Printed(b)[0] == DigitOf(b[0], false) && Printed(b)[1] == DigitOf(b[0], true);
      DigitsTell(a[0], b[0]);
      if |a| > 1 {
        assert Printed(a)[3..] == Printed(a[1..]) && Printed(b)[3..] == Printed(b[1..]);
        PrintedInjective(a[1..], b[1..]);
        assert a == [a[0]] + a[1..] && b == [b[0]] + b[1..];
      }
    }
  }

  lemma {:induction false} HexInjective(a: seq<Byte>, b: seq<Byte>)
    requires Hex(a) == Hex(b)
    ensures a == b
  {
    if a != [] {
      assert Hex(a)[0] == DigitOf(a[0], false) && Hex(a)[1] == DigitOf(a[0], true);
      assert Hex(b)[0] == DigitOf(b[0], false) && Hex(b)[1] == DigitOf(b[0], true);
      DigitsTell(a[0], b[0]);
      assert Hex(a)[2..] == Hex(a[1..]) && Hex(b)[2..] == Hex(b[1..]);
      HexInjective(a[1..], b[1..]);
      assert a == [a[0]] + a[1..] && b == [b[0]] + b[1..];
    }
  }

  datatype StaticLease = StaticLease(mac: string, duid: string, ip: Addr)

  /** A served IPv4 network: addresses base .. base + size - 1. */
  datatype Subnet = Subnet(base: nat, size: nat)

  type Octets4 = s: seq<Byte> | |s| == 4 witness [0, 0, 0, 0]
  type Octets16 = s: seq<Byte> | |s| == 16 witness seq(16, i => 0)

  datatype Range4 = Range4(start: Octets4, end: Octets4)
  datatype Range6 = Range6(start: Octets16, end: Octets16)

  datatype Config = Config(
    subnet: Option<Subnet>,
    range4: Option<Range4>,
    range6: Option<Range6>,
    leaseTime: Time,
    statics: seq<StaticLease>)

  function LeaseTime(cfg: Config): (d: Time)
    ensures d > 0 && (cfg.leaseTime <= 0 ==> d == 86400 * 1_000_000_000)
  {
    if cfg.leaseTime > 0 then cfg.leaseTime else DEFAULT_LEASE_TIME
  }

  predicate Matches(st: StaticLease, key: Key) {
    match key
    case Nobody => false
    case Mac(mac) => mac != [] && Lower(st.mac) == Printed(mac)
    case Duid(duid) => duid != [] && Lower(st.duid) == Hex(duid)
  }

  /** staticForClientLocked: the first configured reservation naming the client. */
  function StaticFor(statics: seq<StaticLease>, key: Key): Option<StaticLease> {
    if statics == [] then None
    else if Matches(statics[0], key) then Some(statics[0])
    else StaticFor(statics[1..], key)
  }

  /** The reserved address of a client, when it is of the client's own family. */
  function StaticAddr(cfg: Config, key: Key): Option<Addr> {
    match StaticFor(cfg.statics, key)
    case None => None
    case Some(st) => if (|st.ip| == 4) == key.Mac? then Some(st.ip) else None
  }

  // ----- the dynamic pool ----------------------------------------------------------

  const LIMIT_4: nat := 0x1_0000_0000
  const LIMIT_16: nat := 0x1_0000_0000_0000_0000_0000_0000_0000_0000

  lemma Limits()
    ensures Pow256(4) == LIMIT_4 && Pow256(16) == LIMIT_16
  {
  }

  lemma Limited(b: seq<Byte>)
    requires |b| == 4 || |b| == 16
    ensures Value(b) < if |b| == 4 then LIMIT_4 else LIMIT_16
  {
    Limits();
  }

  /** The `size` addresses from `base` on, for one address width, wrapping past all ones. */
  datatype SpanOf = Span(width: nat, base: nat, size: nat) {
    function Limit(): nat { if width == 4 then LIMIT_4 else LIMIT_16 }
    function Number(j: nat): (n: nat)
      requires base < Limit() && j < Limit()
      ensures n < Limit()
    {
      if base + j < Limit() then base + j else base + j - Limit()
    }
    function Raw(j: nat): (ip: seq<Byte>)
      requires base < Limit() && j < Limit()
      ensures |ip| == width
    {
      Bytes(Number(j), width)
    }
    function At(j: nat): Addr
      requires width == 4 || width == 16
      requires base < Limit() && j < Limit()
    {
      Text(Raw(j))
    }
  }
  type Span = s: SpanOf | (s.width == 4 || s.width == 16) && s.base < s.Limit() && 0 < s.size <= s.Limit()
    witness Span(4, 0, 1)

  /** The scan length of nextFree4: octets are subtracted as bytes, without borrow. */
  function ScanLength(start: Octets4, end: Octets4): (n: nat)
    ensures n < LIMIT_4
  {
    (end[3] as int - start[3] as int) % 256 + 256 * ((end[2] as int - start[2] as int) % 256)
    + 65536 * ((end[1] as int - start[1] as int) % 256) + 16777216 * ((end[0] as int - start[0] as int) % 256)
  }

  /** The addresses a pool scan can visit. */
  function ScanSpan(cfg: Config, v6: bool): Option<Span> {
    if v6 then
      match cfg.range6
      case None => None
      case Some(r) =>
        var lo, hi := Value(r.start), Value(r.end);
        Limited(r.start);
        Limited(r.end);
        if hi == LIMIT_16 - 1 then Some(Span(16, 0, LIMIT_16))
        else if lo <= hi then Some(Span(16, lo, hi - lo + 1))
        else Some(Span(16, lo, if lo == LIMIT_16 - 1 then hi + 2 else 1))
    else
      match cfg.range4
      case None => None
      case Some(r) => Limited(r.start); Some(Span(4, Value(r.start), ScanLength(r.start, r.end) + 1))
  }

  /** addrInPoolLocked. */
  predicate InPool(cfg: Config, v6: bool, a: Addr) {
    if v6 then
      cfg.range6.Some? && Value(cfg.range6.value.start) <= Value(To16(a)) <= Value(cfg.range6.value.end)
    else
      && |a| == 4 && cfg.range4.Some? && cfg.subnet.Some?
      // neither the network address nor the broadcast address
      && cfg.subnet.value.base < Value(a) < cfg.subnet.value.base + cfg.subnet.value.size - 1
      && Value(cfg.range4.value.start) <= Value(a) <= Value(cfg.range4.value.end)
  }

  ghost predicate OnSpan(span: Span, a: Addr) {
    exists j: nat :: j < span.size && a == span.At(j)
  }

  /** An address that a search, or a client's own request, can make the server offer. */
  ghost predicate Offerable(cfg: Config, v6: bool, a: Addr) {
    InPool(cfg, v6, a) || (ScanSpan(cfg, v6).Some? && OnSpan(ScanSpan(cfg, v6).value, a))
  }

  // ----- the lease tables ----------------------------------------------------------

  /** Static leases never expire; `expires` is unused for them. */
  datatype Lease = Lease(key: Key, ip: Addr, expires: Time, fixed: bool) {
    predicate Live(now: Time) { fixed || expires > now }
  }

  /** An address pinned for a client awaiting its REQUEST, or for nobody after a DECLINE. */
  datatype Hold = Hold(key: Key, until: Time)

  datatype Tables = Tables(
    leases: map<Key, Lease>,
    byIP: map<Addr, Lease>,
    reserved: map<Addr, Hold>,
    cursor4: nat,
    cursor6: Option<Octets16>)

  const EMPTY: Tables := Tables(map[], map[], map[], 0, None)

  /** The verdict of inUseLocked. */
  predicate HeldByOther(t: Tables, a: Addr, k: Key, now: Time) {
    || (a in t.byIP && t.byIP[a].key != k && t.byIP[a].Live(now))
    || (a in t.reserved && t.reserved[a].until > now && t.reserved[a].key != k)
  }

  /** The side effect of inUseLocked: an expired lease of someone else is dropped. */
  function Reclaim(t: Tables, a: Addr, k: Key, now: Time): Tables {
    if a in t.byIP && t.byIP[a].key != k && !t.byIP[a].Live(now) then
      t.(leases := t.leases - {t.byIP[a].key}, byIP := t.byIP - {a})
    else t
  }

  /** commitLocked. */
  function Commit(t: Tables, l: Lease): Tables {
    var kept := if l.ip in t.byIP && t.byIP[l.ip].key != l.key then t.leases - {t.byIP[l.ip].key} else t.leases;
    t.(reserved := t.reserved - {l.ip}, leases := kept[l.key := l], byIP := t.byIP[l.ip := l])
  }

  function StaticLeaseFor(k: Key, a: Addr): Lease { Lease(k, a, 0, true) }

  function DynamicLeaseFor(leaseTime: Time, k: Key, a: Addr, now: Time): Lease {
    Lease(k, a, now + leaseTime, false)
  }

  /** renewLocked: both tables point at the one lease object, so both see its new expiry. */
  function Renew(t: Tables, leaseTime: Time, k: Key, now: Time): Tables
    requires k in t.leases
  {
    var l := t.leases[k];
    if l.fixed then t else
      var l' := l.(expires := now + leaseTime);
      t.(leases := t.leases[k := l'],
         byIP := if l.ip in t.byIP && t.byIP[l.ip] == l then t.byIP[l.ip := l'] else t.byIP,
         reserved := t.reserved - {l.ip})
  }

  predicate Releases(t: Tables, k: Key, a: Option<Addr>) {
    k in t.leases && (a.Some? ==> a.value == t.leases[k].ip)
  }

  /** releaseLease. */
  function Release(t: Tables, k: Key, a: Option<Addr>): Tables {
    if Releases(t, k, a) then t.(leases := t.leases - {k}, byIP := t.byIP - {t.leases[k].ip}) else t
  }

  /** declineLease. */
  function Decline(t: Tables, a: Addr, now: Time): Tables {
    var dropped := if a in t.byIP then t.(leases := t.leases - {t.byIP[a].key}, byIP := t.byIP - {a}) else t;
    dropped.(reserved := t.reserved[a := Hold(Nobody, now + DECLINED_HOLD)])
  }

  function DeclineAll(t: Tables, addrs: seq<Addr>, now: Time): Tables
    decreases addrs
  {
    if addrs == [] then t else DeclineAll(Decline(t, addrs[0], now), addrs[1..], now)
  }

  predicate IsOffer(t: Tables, a: Addr, k: Key, now: Time) {
    a in t.reserved && t.reserved[a].key == k && t.reserved[a].until > now
  }

  /** The address still offered to a client, if any. */
  ghost function OfferOf(t: Tables, k: Key, now: Time): (r: Option<Addr>)
    ensures r.Some? ==> IsOffer(t, r.value, k, now)
    ensures r.None? ==> forall a :: !IsOffer(t, a, k, now)
  {
    if exists a :: IsOffer(t, a, k, now) then
      var a :| IsOffer(t, a, k, now);
      Some(a)
    else None
  }

  function Offer(t: Tables, a: Addr, k: Key, now: Time): Tables {
    t.(reserved := t.reserved[a := Hold(k, now + OFFERED_HOLD)])
  }

  // ----- the search for a free address ---------------------------------------------

  /** The place `i` steps after `p` on a ring of `n` places, for at most one turn. */
  function Place(p: nat, i: nat, n: nat): (j: nat)
    requires p < n && i < n
    ensures j < n
  {
    if p + i < n then p + i else p + i - n
  }

  /** The scan from its `i`-th candidate on: the tables it leaves and the place it found. */
  function Scan(t: Tables, span: Span, p: nat, i: nat, k: Key, now: Time): (r: (Tables, Option<nat>))
    requires p < span.size
    ensures r.1.Some? ==> r.1.value < span.size
    decreases span.size - i
  {
    if i >= span.size then (t, None) else
      var j := Place(p, i, span.size);
      var t' := Reclaim(t, span.At(j), k, now);
      if HeldByOther(t, span.At(j), k, now) then Scan(t', span, p, i + 1, k, now) else (t', Some(j))
  }

  /** Where nextFree6 starts: its cursor, or the pool's start when the cursor is outside. */
  function First6(r: Range6, cursor: Option<Octets16>): Octets16 {
    if cursor.None? || Value(cursor.value) < Value(r.start) || Value(cursor.value) > Value(r.end) then r.start
    else cursor.value
  }

  function Next6(r: Range6, cur: Octets16): Octets16 {
    var next := Bytes(Value(cur) + 1, |cur|);
    if Value(next) > Value(r.end) then r.start else next
  }

  /** The place where the next search begins. */
  function ScanStart(t: Tables, cfg: Config, v6: bool): (p: nat)
    requires ScanSpan(cfg, v6).Some?
    ensures p < ScanSpan(cfg, v6).value.size
  {
    if v6 then
      var first := First6(cfg.range6.value, t.cursor6);
      Limited(first);
      Value(first) - ScanSpan(cfg, true).value.base
    else t.cursor4 % ScanSpan(cfg, false).value.size
  }

  /** nextFree4 and nextFree6. */
  function NextFree(t: Tables, cfg: Config, v6: bool, k: Key, now: Time): (Tables, Option<Addr>) {
    match ScanSpan(cfg, v6)
    case None => (t, None)
    case Some(span) =>
      var (t', found) := Scan(t, span, ScanStart(t, cfg, v6), 0, k, now);
      match found
      case None => (t', None)
      case Some(j) =>
        if v6 then (t'.(cursor6 := Some(Next6(cfg.range6.value, span.Raw(j)))), Some(span.At(j)))
        else (t'.(cursor4 := if j + 1 == span.size then 0 else j + 1), Some(span.At(j)))
  }

  /** A requested address is considered only when it is of the family and in the pool. */
  predicate Eligible(cfg: Config, k: Key, a: Addr) {
    (|a| == 4) == k.Mac? && InPool(cfg, k.Duid?, a)
  }

  /** What an allocation leaves behind: the tables, the address, and whether it is static. */
  datatype Allocation = Allocation(tables: Tables, addr: Option<Addr>, fixed: bool)

  /** Steps 3 and 4 of allocV4 and allocV6: the requested address, else the next free one. */
  function AllocateFresh(t: Tables, cfg: Config, k: Key, requested: Option<Addr>, now: Time): Allocation {
    if requested.Some? && Eligible(cfg, k, requested.value) && !HeldByOther(t, requested.value, k, now) then
      Allocation(Offer(Reclaim(t, requested.value, k, now), requested.value, k, now), requested, false)
    else
      var t' := if requested.Some? && Eligible(cfg, k, requested.value)
                then Reclaim(t, requested.value, k, now) else t;
      var (t'', a) := NextFree(t', cfg, k.Duid?, k, now);
      Allocation(if a.Some? then Offer(t'', a.value, k, now) else t'', a, false)
  }

  /** allocV4 (for a hardware address) and allocV6 (for a DUID). */
  ghost function Allocate(t: Tables, cfg: Config, k: Key, requested: Option<Addr>, now: Time): Allocation {
    if k == Nobody || k == Mac([]) || k == Duid([]) then Allocation(t, None, false)
    else
      match StaticAddr(cfg, k)
      case Some(a) => Allocation(Commit(t, StaticLeaseFor(k, a)), Some(a), true)
      case None =>
        if k in t.leases then Allocation(Renew(t, LeaseTime(cfg), k, now), Some(t.leases[k].ip), false)
        else if OfferOf(t, k, now).Some? then Allocation(t, OfferOf(t, k, now), false)
        else AllocateFresh(t, cfg, k, requested, now)
  }

  // ----- packet handlers -----------------------------------------------------------

  datatype ServerId = Absent | Ours | Foreign

  datatype Msg =
    | Discover(mac: HwAddr, sid: ServerId, requested: Option<Addr>)
    | Request(mac: HwAddr, sid: ServerId, requested: Option<Addr>, ciaddr: Option<Addr>)
    | ReleaseMsg(mac: HwAddr, ciaddr: Option<Addr>)
    | DeclineMsg(mac: HwAddr, requested: Option<Addr>, ciaddr: Option<Addr>)
    | Solicit6(duid: DuidOctets, sid: ServerId, requested: Option<Addr>, rapid: bool)
    | Request6(duid: DuidOctets, sid: ServerId, requested: Option<Addr>)  // also RENEW and REBIND
    | Release6(duid: DuidOctets, sid: ServerId, addr: Option<Addr>)
    | Decline6(duid: DuidOctets, sid: ServerId, addrs: seq<Addr>)

  function Sender(m: Msg): Key {
    match m
    case Discover(mac, _, _) => Mac(mac)
    case Request(mac, _, _, _) => Mac(mac)
    case ReleaseMsg(mac, _) => Mac(mac)
    case DeclineMsg(mac, _, _) => Mac(mac)
    case Solicit6(duid, _, _, _) => Duid(duid)
    case Request6(duid, _, _) => Duid(duid)
    case Release6(duid, _, _) => Duid(duid)
    case Decline6(duid, _, _) => Duid(duid)
  }

  const ZERO4: Addr := [0, 0, 0, 0]

  predicate Unset(a: Option<Addr>) { a.None? || a.value == ZERO4 }

  /** A client was told it may use `addr` until `until`. */
  datatype Grant = Grant(client: Key, addr: Addr, until: Time)

  datatype Effect =
    | Silent
    | Granted(grant: Grant)
    | Released(client: Key, addr: Addr)
    | Declined(addrs: set<Addr>)

  datatype Outcome = Outcome(tables: Tables, effect: Effect)

  /** The lease time option carries whole seconds in 32 bits. */
  function Promise4(cfg: Config): (d: Time)
    ensures d <= LeaseTime(cfg)
  {
    LeaseTime(cfg) / SECOND % 0x1_0000_0000 * SECOND
  }

  /** Valid lifetime of an IA_NA address: the lease time, or 2^32 - 1 seconds when static. */
  function Promise6(cfg: Config, fixed: bool): Time {
    if fixed then 0xffff_ffff * SECOND else LeaseTime(cfg)
  }

  /** The tail of v4Request and v6Request: refuse, or commit and answer. */
  function CommitRequested(t: Tables, cfg: Config, k: Key, a: Addr, now: Time): Outcome {
    var t' := Reclaim(t, a, k, now);
    if HeldByOther(t, a, k, now) then Outcome(t', Silent) else
      var st := StaticFor(cfg.statics, k);
      var fixed := st.Some? && st.value.ip == a;
      var lease := if fixed then StaticLeaseFor(k, a) else DynamicLeaseFor(LeaseTime(cfg), k, a, now);
      var promise := if k.Mac? then Promise4(cfg) else Promise6(cfg, fixed);
      Outcome(Commit(t', lease), Granted(Grant(k, a, now + promise)))
  }

  function HandleRequest(t: Tables, cfg: Config, m: Msg, now: Time): Outcome
    requires m.Request?
  {
    var k := Mac(m.mac);
    var asked := if Unset(m.requested) && !Unset(m.ciaddr) then m.ciaddr else m.requested;
    if m.sid == Foreign || asked.None? || !InPool(cfg, false, asked.value) then Outcome(t, Silent)
    else if m.sid == Absent && asked.value in t.byIP && t.byIP[asked.value].key != k then Outcome(t, Silent)
    else CommitRequested(t, cfg, k, asked.value, now)
  }

  function HandleRequest6(t: Tables, cfg: Config, m: Msg, now: Time): Outcome
    requires m.Request6?
  {
    var k := Duid(m.duid);
    var asked := if m.requested.None? && k in t.leases then Some(t.leases[k].ip) else m.requested;
    if asked.None? || !InPool(cfg, true, asked.value) then Outcome(t, Silent)
    else CommitRequested(t, cfg, k, asked.value, now)
  }

  /** v6Solicit after its allocation: a rapid commit answers with a REPLY at once. */
  function AnswerSolicit(x: Allocation, cfg: Config, k: Key, rapid: bool, now: Time): Outcome {
    if rapid && x.addr.Some? then
      var a := x.addr.value;
      var lease := if x.fixed then StaticLeaseFor(k, a) else DynamicLeaseFor(LeaseTime(cfg), k, a, now);
      Outcome(Commit(x.tables, lease), Granted(Grant(k, a, now + Promise6(cfg, x.fixed))))
    else Outcome(x.tables, Silent)
  }

  function HandleRelease(t: Tables, k: Key, a: Option<Addr>): Outcome {
    if Releases(t, k, a) then Outcome(Release(t, k, a), Released(k, t.leases[k].ip)) else Outcome(t, Silent)
  }

  /** handleV4 and handleV6. */
  ghost function Handle(t: Tables, cfg: Config, m: Msg, now: Time): Outcome {
    match m
    case Discover(mac, sid, requested) =>
      if sid == Foreign then Outcome(t, Silent)
      else Outcome(Allocate(t, cfg, Mac(mac), requested, now).tables, Silent)
    case Request(_, _, _, _) => HandleRequest(t, cfg, m, now)
    case ReleaseMsg(mac, ciaddr) => if Unset(ciaddr) then Outcome(t, Silent) else HandleRelease(t, Mac(mac), ciaddr)
    case DeclineMsg(_, requested, ciaddr) =>
      var a := if requested.Some? then requested else ciaddr;
      if a.None? then Outcome(t, Silent) else Outcome(Decline(t, a.value, now), Declined({a.value}))
    case Solicit6(duid, sid, requested, rapid) =>
      if sid == Foreign || duid == [] then Outcome(t, Silent)
      else AnswerSolicit(Allocate(t, cfg, Duid(duid), requested, now), cfg, Duid(duid), rapid, now)
    case Request6(duid, sid, _) =>
      if sid == Foreign || duid == [] then Outcome(t, Silent) else HandleRequest6(t, cfg, m, now)
    case Release6(duid, sid, addr) =>
      if sid == Foreign || duid == [] then Outcome(t, Silent) else HandleRelease(t, Duid(duid), addr)
    case Decline6(duid, sid, addrs) =>
      if sid == Foreign || duid == [] then Outcome(t, Silent)
      else Outcome(DeclineAll(t, addrs, now), Declined(set a | a in addrs))
  }

  // ----- runs ----------------------------------------------------------------------

  /** The server, the grants clients still count on, and the last clock reading. */
  datatype World = World(tables: Tables, grants: set<Grant>, clock: Time)

  function Settle(grants: set<Grant>, e: Effect): set<Grant> {
    match e
    case Silent => grants
    case Granted(g) => grants + {g}
    case Released(k, a) => set g | g in grants && !(g.client == k && g.addr == a)
    case Declined(addrs) => set g | g in grants && g.addr !in addrs
  }

  datatype Event = Event(msg: Msg, at: Time)

  ghost function Step(w: World, cfg: Config, e: Event): World {
    var out := Handle(w.tables, cfg, e.msg, e.at);
    World(out.tables, Settle(w.grants, out.effect), e.at)
  }

  /** Clock readings never go back. */
  predicate Timely(start: Time, events: seq<Event>)
    decreases events
  {
    events != [] ==> start <= events[0].at && Timely(events[0].at, events[1..])
  }

  ghost function Run(w: World, cfg: Config, events: seq<Event>): World
    decreases events
  {
    if events == [] then w else Run(Step(w, cfg, events[0]), cfg, events[1..])
  }
}
