/**
 Persistence (internal/dhcp/dhcp.go): persistNow writes the lease table, loadLocked reads it
 back into empty tables.  A restart keeps the tables consistent; it keeps a running grant
 exactly when that grant is the client's current lease and, for a static lease, some
 reservation still spells the client the way loadLocked reads it.
 */
module DhcpRestart {
  import opened Common
  import opened AddressMath
  import opened DhcpModel
  import opened DhcpTables
  import opened DhcpSafety

  // ----- how a reservation spells a client when it is read back ---------------------------

  predicate HexDigit(c: char) {
    '0' <= c <= '9' || 'a' <= c <= 'f' || 'A' <= c <= 'F'
  }

  function DigitValue(c: char): (n: nat)
    requires HexDigit(c)
    ensures n < 16
  {
    if c <= '9' then (c - '0') as nat else if c <= 'F' then (c - 'A') as nat + 10 else (c - 'a') as nat + 10
  }

  function OctetAt(s: string, i: nat): Byte
    requires i + 1 < |s| && HexDigit(s[i]) && HexDigit(s[i + 1])
  {
    16 * DigitValue(s[i]) + DigitValue(s[i + 1])
  }

  /** The `j`-th pair of digits, and the separator after it unless the text ends there. */
  predicate PairAt(s: string, j: nat, sep: char) {
    && 3 * j + 1 < |s| && HexDigit(s[3 * j]) && HexDigit(s[3 * j + 1])
    && (3 * j + 2 < |s| ==> s[3 * j + 2] == sep)
  }

  /** The `j`-th group of four digits, likewise. */
  predicate FourAt(s: string, j: nat, sep: char) {
    && 5 * j + 3 < |s| && HexDigit(s[5 * j]) && HexDigit(s[5 * j + 1]) && HexDigit(s[5 * j + 2]) && HexDigit(s[5 * j + 3])
    && (5 * j + 4 < |s| ==> s[5 * j + 4] == sep)
  }

  /** How many octets a text of that length spells in pairs: 6, 8, 20, or it does not parse. */
  function PairCount(length: nat): nat {
    if length == 17 then 6 else if length == 23 then 8 else if length == 59 then 20 else 0
  }

  /** How many groups of four. */
  function FourCount(length: nat): nat {
    if length == 14 then 3 else if length == 19 then 4 else if length == 49 then 10 else 0
  }

  function ParsePairs(s: string, sep: char): Option<seq<Byte>> {
    var n := PairCount(|s|);
    if n > 0 && forall j: nat :: j < n ==> PairAt(s, j, sep) then
      Some(seq(n, j requires 0 <= j < n => assert PairAt(s, j, sep); OctetAt(s, 3 * j)))
    else None
  }

  function ParseFours(s: string): Option<seq<Byte>> {
    var n := FourCount(|s|);
    if n > 0 && forall j: nat :: j < n ==> FourAt(s, j, '.') then
      Some(seq(2 * n, i requires 0 <= i < 2 * n =>
             assert FourAt(s, i / 2, '.'); if i % 2 == 0 then OctetAt(s, 5 * (i / 2)) else OctetAt(s, 5 * (i / 2) + 2)))
    else None
  }

  /** net.ParseMAC: pairs of hexadecimal digits joined by colons or by hyphens, or groups of four
      joined by dots, for 6, 8 or 20 octets. */
  function ParseMac(s: string): Option<seq<Byte>> {
    if |s| < 14 then None
    else if s[2] == ':' || s[2] == '-' then ParsePairs(s, s[2])
    else if s[4] == '.' then ParseFours(s)
    else None
  }

  /** The test of staticForLocked: a hardware address is parsed (and taken for empty when it does
      not parse), a DUID is taken as it stands. */
  predicate Spells(st: StaticLease, key: Key) {
    match key
    case Nobody => false
    case Mac(mac) => st.mac != "" && mac == (if ParseMac(st.mac).Some? then ParseMac(st.mac).value else [])
    case Duid(duid) => st.duid != "" && st.duid == Hex(duid)
  }

  /** staticForLocked. */
  predicate StillReserved(statics: seq<StaticLease>, key: Key, ip: Addr) {
    exists i :: 0 <= i < |statics| && Spells(statics[i], key) && statics[i].ip == ip
  }

  /** A digit and its octet, in whatever case. */
  lemma DigitRead(c: char, n: nat)
    requires n < 16 && LowerChar(c) == Digit(n)
    ensures HexDigit(c) && DigitValue(c) == n && c != '.' && c != '-'
  {
  }

  lemma {:induction false} PrintedAt(b: seq<Byte>, j: nat)
    requires j < |b|
    ensures 3 * j + 1 < |Printed(b)|
    ensures Printed(b)[3 * j] == DigitOf(b[j], false) && Printed(b)[3 * j + 1] == DigitOf(b[j], true)
    ensures j + 1 < |b| ==> Printed(b)[3 * j + 2] == ':'
  {
    if j > 0 {
      PrintedAt(b[1..], j - 1);
      assert Printed(b)[3..] == Printed(b[1..]);
      var rest := Printed(b[1..]);
      assert Printed(b)[3 * j] == rest[3 * (j - 1)] && Printed(b)[3 * j + 1] == rest[3 * (j - 1) + 1];
      assert j + 1 < |b| ==> Printed(b)[3 * j + 2] == rest[3 * (j - 1) + 2];
    }
  }

  /** The two digits of an octet. */
  lemma DigitsRead(c: char, c': char, o: Byte)
    requires LowerChar(c) == DigitOf(o, false) && LowerChar(c') == DigitOf(o, true)
    ensures HexDigit(c) && HexDigit(c') && 16 * DigitValue(c) + DigitValue(c') == o
  {
    DigitRead(c, o / 16);
    DigitRead(c', o % 16);
  }

  /** Two texts that differ only in case, at one place. */
  lemma SameAt(s: string, p: string, i: nat)
    requires Lower(s) == p && i < |s|
    ensures |s| == |p| && LowerChar(s[i]) == p[i]
  {
    assert Lower(s)[i] == LowerChar(s[i]);
  }

  lemma ColonRead(c: char)
    requires LowerChar(c) == ':'
    ensures c == ':'
  {
  }

  lemma PrintedRead(s: string, p: string, o: Byte, i: nat)
    requires Lower(s) == p && i + 1 < |p| && p[i] == DigitOf(o, false) && p[i + 1] == DigitOf(o, true)
    ensures i + 1 < |s| && HexDigit(s[i]) && HexDigit(s[i + 1]) && OctetAt(s, i) == o
  {
    SameAt(s, p, i);
    SameAt(s, p, i + 1);
    DigitsRead(s[i], s[i + 1], o);
  }

  lemma SeparatorRead(s: string, p: string, i: nat)
    requires Lower(s) == p && i < |p| && p[i] == ':'
    ensures i < |s| && s[i] == ':'
  {
    SameAt(s, p, i);
    ColonRead(s[i]);
  }

  lemma TextRead(s: string, p: string, o: Byte, i: nat, more: bool)
    requires Lower(s) == p && i + 1 < |p| && p[i] == DigitOf(o, false) && p[i + 1] == DigitOf(o, true)
    requires if more then i + 2 < |p| && p[i + 2] == ':' else |p| == i + 2
    ensures |s| == |p| && HexDigit(s[i]) && HexDigit(s[i + 1]) && OctetAt(s, i) == o
    ensures i + 2 < |s| ==> s[i + 2] == ':'
  {
    PrintedRead(s, p, o, i);
    if more {
      SeparatorRead(s, p, i + 2);
    }
  }

  /** The `j`-th pair of digits of a reservation that matches a hardware address. */
  lemma PairRead(s: string, mac: HwAddr, j: nat)
    requires Lower(s) == Printed(mac) && j < |mac|
    ensures |s| == 3 * |mac| - 1 && PairAt(s, j, ':') && OctetAt(s, 3 * j) == mac[j]
  {
    PrintedAt(mac, j);
    TextRead(s, Printed(mac), mac[j], 3 * j, j + 1 < |mac|);
  }

  /** Clients are matched to reservations without regard to case, by the printed form.  Read back,
      such a reservation counts exactly for hardware addresses of 6 or 8 octets. */
  lemma MatchedMacSpelledIff(st: StaticLease, mac: HwAddr)
    requires Matches(st, Mac(mac))
    ensures Spells(st, Mac(mac)) <==> |mac| == 6 || |mac| == 8
  {
    var s := st.mac;
    forall j: nat | j < |mac|
      ensures |s| == 3 * |mac| - 1 && PairAt(s, j, ':') && OctetAt(s, 3 * j) == mac[j]
    {
      PairRead(s, mac, j);
    }
    PairRead(s, mac, 0);
    if |mac| == 6 || |mac| == 8 {
      assert PairCount(|s|) == |mac|;
      assert ParsePairs(s, ':').value == mac;
    } else {
      assert |s| >= 14 ==> s[2] == ':';
      assert PairCount(|s|) == 0;
    }
  }

  /** A DUID is spelled only letter by letter: one capital in the configuration is enough. */
  lemma MatchedDuidSpelledIff(st: StaticLease, duid: DuidOctets)
    requires Matches(st, Duid(duid))
    ensures Spells(st, Duid(duid)) <==> Lower(st.duid) == st.duid
  {
  }

  /** validMAC accepts every hardware address that parses, and loadLocked takes its lease back; but
      it matches a client exactly when it is written with colons. */
  lemma HyphensMatchNobodyIff(st: StaticLease, mac: HwAddr)
    requires ParseMac(st.mac) == Some(mac)
    ensures Spells(st, Mac(mac))
    ensures (exists m :: Matches(st, Mac(m))) <==> st.mac[2] == ':'
  {
    var s := st.mac;
    if m :| Matches(st, Mac(m)) {
      PairRead(s, m, 0);
    }
    if s[2] == ':' {
      ParsedMatches(st, mac);
    }
  }

  lemma DigitPrinted(c: char)
    requires HexDigit(c)
    ensures LowerChar(c) == Digit(DigitValue(c))
  {
  }

  /** The pair of digits of an octet, in lower case. */
  predicate HasPair(s: string, mac: HwAddr, j: nat)
    requires j < |mac| && |s| == 3 * |mac| - 1
  {
    && s[3 * j] == DigitOf(mac[j], false) && s[3 * j + 1] == DigitOf(mac[j], true)
    && (j + 1 < |mac| ==> s[3 * j + 2] == ':')
  }

  lemma ParsedPair(s: string, mac: HwAddr, j: nat)
    requires j < |mac| && |s| == 3 * |mac| - 1 && PairAt(s, j, ':') && mac[j] == OctetAt(s, 3 * j)
    ensures HasPair(Lower(s), mac, j)
  {
    DigitPrinted(s[3 * j]);
    DigitPrinted(s[3 * j + 1]);
    assert mac[j] / 16 == DigitValue(s[3 * j]) && mac[j] % 16 == DigitValue(s[3 * j + 1]);
  }

  lemma ParsedMatches(st: StaticLease, mac: HwAddr)
    requires ParseMac(st.mac) == Some(mac) && st.mac[2] == ':'
    ensures Matches(st, Mac(mac))
  {
    var s := st.mac;
    assert |s| == 3 * |mac| - 1;
    forall j: nat | j < |mac|
      ensures HasPair(Lower(s), mac, j)
    {
      assert PairAt(s, j, ':');
      ParsedPair(s, mac, j);
    }
    SameText(Lower(s), mac);
  }

  lemma SamePair(s: string, mac: HwAddr, j: nat, i: nat)
    requires j < |mac| && |s| == 3 * |mac| - 1 && HasPair(s, mac, j) && 3 * j <= i < 3 * j + 3 && i < |s|
    ensures s[i] == Printed(mac)[i]
  {
    PrintedAt(mac, j);
    assert i == 3 * j || i == 3 * j + 1 || i == 3 * j + 2;
  }

  lemma SameText(s: string, mac: HwAddr)
    requires mac != [] && |s| == 3 * |mac| - 1 && forall j: nat :: j < |mac| ==> HasPair(s, mac, j)
    ensures s == Printed(mac)
  {
    forall i: nat | i < |s|
      ensures s[i] == Printed(mac)[i]
    {
      assert HasPair(s, mac, i / 3);
      SamePair(s, mac, i / 3, i);
    }
  }

  /** The hardware address with hyphens in place of the colons. */
  function Hyphenated(mac: HwAddr): (s: string)
    ensures |s| == |Printed(mac)|
  {
    var p := Printed(mac);
    seq(|p|, i requires 0 <= i < |p| => if p[i] == ':' then '-' else p[i])
  }

  function Group(o: Byte, o': Byte): string {
    [DigitOf(o, false), DigitOf(o, true), DigitOf(o', false), DigitOf(o', true)]
  }

  /** Groups of two octets, joined by dots. */
  function Dotted(mac: seq<Byte>): (s: string)
    requires |mac| % 2 == 0
    ensures mac != [] ==> |s| == 5 * (|mac| / 2) - 1
  {
    if mac == [] then ""
    else if |mac| == 2 then Group(mac[0], mac[1])
    else (Group(mac[0], mac[1]) + ".") + Dotted(mac[2..])
  }

  lemma DigitsParsed(c: char, c': char, o: Byte)
    requires c == DigitOf(o, false) && c' == DigitOf(o, true)
    ensures HexDigit(c) && HexDigit(c') && 16 * DigitValue(c) + DigitValue(c') == o
  {
    DigitParsed(o / 16);
    DigitParsed(o % 16);
  }

  lemma DigitParsed(n: nat)
    requires n < 16
    ensures HexDigit(Digit(n)) && DigitValue(Digit(n)) == n
  {
  }

  lemma HyphenPair(mac: HwAddr, j: nat)
    requires j < |mac|
    ensures PairAt(Hyphenated(mac), j, '-') && OctetAt(Hyphenated(mac), 3 * j) == mac[j]
  {
    PrintedAt(mac, j);
    var s := Hyphenated(mac);
    assert s[3 * j] == DigitOf(mac[j], false) && s[3 * j + 1] == DigitOf(mac[j], true);
    DigitsParsed(s[3 * j], s[3 * j + 1], mac[j]);
  }

  /** The digits of two octets, and a dot unless the text ends there. */
  predicate GroupAt(s: string, i: nat, o: Byte, o': Byte) {
    && i + 3 < |s|
    && s[i] == DigitOf(o, false) && s[i + 1] == DigitOf(o, true) && s[i + 2] == DigitOf(o', false) && s[i + 3] == DigitOf(o', true)
    && (i + 4 < |s| ==> s[i + 4] == '.')
  }

  lemma GroupLater(s: string, first: string, rest: string, i: nat, o: Byte, o': Byte)
    requires s == first + rest && GroupAt(rest, i, o, o')
    ensures GroupAt(s, |first| + i, o, o')
  {
  }

  lemma GroupFirst(s: string, o: Byte, o': Byte, rest: string)
    requires s == Group(o, o') || s == (Group(o, o') + ".") + rest
    ensures GroupAt(s, 0, o, o')
  {
  }

  lemma {:induction false} DottedGroup(mac: seq<Byte>, j: nat)
    requires |mac| % 2 == 0 && j < |mac| / 2
    ensures GroupAt(Dotted(mac), 5 * j, mac[2 * j], mac[2 * j + 1])
    decreases j
  {
    if j == 0 {
      GroupFirst(Dotted(mac), mac[0], mac[1], if |mac| > 2 then Dotted(mac[2..]) else "");
    } else {
      DottedGroup(mac[2..], j - 1);
      assert mac[2..][2 * (j - 1)] == mac[2 * j] && mac[2..][2 * (j - 1) + 1] == mac[2 * j + 1];
      var first := Group(mac[0], mac[1]) + ".";
      GroupLater(Dotted(mac), first, Dotted(mac[2..]), 5 * (j - 1), mac[2 * j], mac[2 * j + 1]);
    }
  }

  lemma GroupParsed(s: string, j: nat, o: Byte, o': Byte)
    requires GroupAt(s, 5 * j, o, o')
    ensures FourAt(s, j, '.') && OctetAt(s, 5 * j) == o && OctetAt(s, 5 * j + 2) == o'
  {
    DigitsParsed(s[5 * j], s[5 * j + 1], o);
    DigitsParsed(s[5 * j + 2], s[5 * j + 3], o');
  }

  lemma DottedFour(mac: seq<Byte>, j: nat)
    requires |mac| % 2 == 0 && j < |mac| / 2
    ensures FourAt(Dotted(mac), j, '.')
    ensures OctetAt(Dotted(mac), 5 * j) == mac[2 * j] && OctetAt(Dotted(mac), 5 * j + 2) == mac[2 * j + 1]
  {
    DottedGroup(mac, j);
    GroupParsed(Dotted(mac), j, mac[2 * j], mac[2 * j + 1]);
  }

  /** A hardware address of 6 or 8 octets parses when written with hyphens or dots: validation lets
      it pass, the lease is taken back when leases are loaded, and no client ever matches. */
  lemma HyphensPass(st: StaticLease, mac: HwAddr)
    requires |mac| == 6 || |mac| == 8
    requires st.mac == Hyphenated(mac) || st.mac == Dotted(mac)
    ensures ParseMac(st.mac) == Some(mac) && Spells(st, Mac(mac)) && forall k: HwAddr :: !Matches(st, Mac(k))
  {
    var s := st.mac;
    if s == Hyphenated(mac) {
      forall j: nat | j < |mac|
        ensures PairAt(s, j, '-') && OctetAt(s, 3 * j) == mac[j]
      {
        HyphenPair(mac, j);
      }
      assert PairAt(s, 0, '-');
      assert ParsePairs(s, '-').value == mac;
    } else {
      DottedParses(mac);
    }
    HyphensMatchNobodyIff(st, mac);
  }

  lemma FoursAre(s: string, i: nat)
    requires ParseFours(s).Some? && i < 2 * FourCount(|s|)
    ensures |ParseFours(s).value| == 2 * FourCount(|s|) && FourAt(s, i / 2, '.')
    ensures ParseFours(s).value[i] == if i % 2 == 0 then OctetAt(s, 5 * (i / 2)) else OctetAt(s, 5 * (i / 2) + 2)
  {
    assert FourAt(s, i / 2, '.');
  }

  lemma DottedOctet(mac: HwAddr, i: nat)
    requires |mac| % 2 == 0 && i < |mac|
    ensures FourAt(Dotted(mac), i / 2, '.')
    ensures mac[i] == if i % 2 == 0 then OctetAt(Dotted(mac), 5 * (i / 2)) else OctetAt(Dotted(mac), 5 * (i / 2) + 2)
  {
    var j := i / 2;
    DottedFour(mac, j);
    if i % 2 == 0 {
      assert i == 2 * j;
    } else {
      assert i == 2 * j + 1;
    }
  }

  lemma DottedFours(mac: HwAddr)
    requires |mac| == 6 || |mac| == 8
    ensures ParseFours(Dotted(mac)).Some? && FourCount(|Dotted(mac)|) == |mac| / 2
  {
    assert |Dotted(mac)| == 5 * (|mac| / 2) - 1;
    forall j: nat | j < |mac| / 2
      ensures FourAt(Dotted(mac), j, '.')
    {
      DottedFour(mac, j);
    }
  }

  lemma DottedParses(mac: HwAddr)
    requires |mac| == 6 || |mac| == 8
    ensures ParseMac(Dotted(mac)) == Some(mac) && Dotted(mac)[2] != ':'
  {
    var s := Dotted(mac);
    DottedFours(mac);
    DottedGroup(mac, 0);
    var r := ParseFours(s).value;
    forall i: nat | i < |mac|
      ensures i < |r| && r[i] == mac[i]
    {
      FoursAre(s, i);
      DottedOctet(mac, i);
    }
    FoursAre(s, 0);
    assert r == mac;
  }

  // ----- saving and loading ------------------------------------------------------------------

  /** The leases loadLocked takes back. */
  predicate Keeps(cfg: Config, l: Lease, now: Time) {
    if l.fixed then StillReserved(cfg.statics, l.key, l.ip) else l.expires > now
  }

  /** loadLocked, lease by lease. */
  function Load(t: Tables, cfg: Config, saved: seq<Lease>, now: Time): Tables
    decreases saved
  {
    if saved == [] then t else
      var l := saved[0];
      var t' := if Keeps(cfg, l, now) then t.(leases := t.leases[l.key := l], byIP := t.byIP[l.ip := l]) else t;
      Load(t', cfg, saved[1..], now)
  }

  /** persistNow: every lease of the table once, in some order. */
  predicate Snapshot(t: Tables, saved: seq<Lease>) {
    && (forall k :: k in t.leases ==> t.leases[k] in saved)
    && (forall l :: l in saved ==> l.key in t.leases && t.leases[l.key] == l)
  }

  /** `t'` holds leases of `t` that loadLocked keeps, in both tables alike. */
  predicate PartOf(t': Tables, t: Tables, cfg: Config, now: Time) {
    && (forall k :: k in t'.leases ==>
          && k in t.leases && t'.leases[k] == t.leases[k]
          && Keeps(cfg, t.leases[k], now)
          && Both(t', t.leases[k]))
    && (forall a :: a in t'.byIP ==> t'.byIP[a].ip == a && Both(t', t'.byIP[a]))
    && t'.reserved == map[]
  }

  predicate Both(t: Tables, l: Lease) {
    && l.ip in t.byIP && t.byIP[l.ip] == l
    && l.key in t.leases && t.leases[l.key] == l
  }

  lemma {:induction false} LoadKeepsPart(t': Tables, t: Tables, cfg: Config, saved: seq<Lease>, now: Time)
    requires Indexed(t) && PartOf(t', t, cfg, now)
    requires forall l :: l in saved ==> l.key in t.leases && t.leases[l.key] == l
    ensures var x := Load(t', cfg, saved, now);
            && PartOf(x, t, cfg, now)
            && (forall k :: k in t'.leases ==> k in x.leases)
            && (forall l :: l in saved && Keeps(cfg, l, now) ==> l.key in x.leases)
    decreases saved
  {
    if saved != [] {
      var l := saved[0];
      var t1 := if Keeps(cfg, l, now) then t'.(leases := t'.leases[l.key := l], byIP := t'.byIP[l.ip := l]) else t';
      if Keeps(cfg, l, now) {
        OneMore(t', t, cfg, l, now);
      }
      LoadKeepsPart(t1, t, cfg, saved[1..], now);
      assert forall x :: x in saved ==> x == l || x in saved[1..];
    }
  }

  lemma OneMore(t': Tables, t: Tables, cfg: Config, l: Lease, now: Time)
    requires Indexed(t) && PartOf(t', t, cfg, now)
    requires l.key in t.leases && t.leases[l.key] == l && Keeps(cfg, l, now)
    ensures PartOf(t'.(leases := t'.leases[l.key := l], byIP := t'.byIP[l.ip := l]), t, cfg, now)
  {
    var x := t'.(leases := t'.leases[l.key := l], byIP := t'.byIP[l.ip := l]);
    forall k | k in x.leases
      ensures Both(x, x.leases[k])
    {
      if k != l.key {
        assert Both(t', t.leases[k]);
        assert t.leases[k].ip == l.ip ==> k == l.key by {
          if t.leases[k].ip == l.ip {
            SoleHolder(t, k, l);
          }
        }
      }
    }
    AddrsToo(t', t, cfg, l, now);
  }

  lemma AddrsToo(t': Tables, t: Tables, cfg: Config, l: Lease, now: Time)
    requires PartOf(t', t, cfg, now) && l.key in t.leases && t.leases[l.key] == l
    ensures var x := t'.(leases := t'.leases[l.key := l], byIP := t'.byIP[l.ip := l]);
            forall a :: a in x.byIP ==> x.byIP[a].ip == a && Both(x, x.byIP[a])
  {
    var x := t'.(leases := t'.leases[l.key := l], byIP := t'.byIP[l.ip := l]);
    forall a | a in x.byIP
      ensures x.byIP[a].ip == a && Both(x, x.byIP[a])
    {
      if a != l.ip {
        assert Both(t', t'.byIP[a]);
        assert t'.byIP[a].key != l.key;
      }
    }
  }

  lemma SoleHolder(t: Tables, k: Key, l: Lease)
    requires Indexed(t) && k in t.leases && l.key in t.leases && t.leases[l.key] == l && t.leases[k].ip == l.ip
    ensures k == l.key
  {
    assert t.byIP[t.leases[k].ip] == t.leases[k] && t.byIP[t.leases[l.key].ip] == t.leases[l.key];
  }

  /** A restart takes back exactly the leases that still run and the static ones whose reservation
      still spells their client, in both tables; offers, withheld addresses and cursors are gone. */
  lemma LoadedIff(t: Tables, cfg: Config, saved: seq<Lease>, now: Time)
    requires Indexed(t) && Snapshot(t, saved)
    ensures var x := Load(EMPTY, cfg, saved, now);
            && (forall k :: k in x.leases <==>
                  k in t.leases && if t.leases[k].fixed then StillReserved(cfg.statics, k, t.leases[k].ip) else t.leases[k].expires > now)
            && (forall k :: k in x.leases ==> x.leases[k] == t.leases[k] && Both(x, t.leases[k]))
            && (forall a :: a in x.byIP ==> Both(x, x.byIP[a]))
            && x.reserved == map[]
  {
    LoadKeepsPart(EMPTY, t, cfg, saved, now);
    var x := Load(EMPTY, cfg, saved, now);
    forall k | k in t.leases && Keeps(cfg, t.leases[k], now)
      ensures k in x.leases
    {
      assert t.leases[k] in saved && t.leases[k].key == k;
    }
  }

  // ----- which grants survive ------------------------------------------------------------------

  /** The grant is its client's current lease: what a snapshot carries over. */
  predicate CurrentLease(t: Tables, g: Grant) {
    g.client in t.leases && t.leases[g.client].ip == g.addr
  }

  /** What has to hold of a running grant for a restart to keep it. */
  predicate Lasting(t: Tables, cfg: Config, g: Grant) {
    CurrentLease(t, g) && (t.leases[g.client].fixed ==> StillReserved(cfg.statics, g.client, g.addr))
  }

  /** A running grant survives a restart exactly when it is its client's current lease and, if
      that is static, a reservation spells the client. */
  lemma GrantSurvivesIff(t: Tables, t': Tables, cfg: Config, g: Grant, now: Time)
    requires Indexed(t) && BackedBy(t, g) && g.until > now
    requires PartOf(t', t, cfg, now)
    requires forall k :: k in t.leases && Keeps(cfg, t.leases[k], now) ==> k in t'.leases
    ensures BackedBy(t', g) <==> Lasting(t, cfg, g)
  {
    if CurrentLease(t, g) {
      var l := t.leases[g.client];
      assert l == t.byIP[g.addr];
      assert Keeps(cfg, l, now) <==> Lasting(t, cfg, g);
    }
  }

  /** A restart keeps the tables consistent, and all running grants exactly when all are
      lasting. */
  lemma RestartIff(w: World, cfg: Config, saved: seq<Lease>, now: Time)
    requires Indexed(w.tables) && Backed(w.tables, w.grants, now) && Snapshot(w.tables, saved)
    ensures TablesOk(Load(EMPTY, cfg, saved, now), OffersOf(cfg), now)
    ensures Backed(Load(EMPTY, cfg, saved, now), w.grants, now)
       <==> forall g :: g in w.grants && g.until > now ==> Lasting(w.tables, cfg, g)
  {
    var t, t' := w.tables, Load(EMPTY, cfg, saved, now);
    LoadKeepsPart(EMPTY, t, cfg, saved, now);
    forall g | g in w.grants && g.until > now
      ensures BackedBy(t', g) <==> Lasting(t, cfg, g)
    {
      GrantSurvivesIff(t, t', cfg, g, now);
    }
  }

  /** The server after the restart, with the grants its clients still count on. */
  ghost function Restarted(w: World, cfg: Config, saved: seq<Lease>, now: Time): World {
    World(Load(EMPTY, cfg, saved, now), w.grants, now)
  }

  lemma LoadedFiled(t': Tables, t: Tables, cfg: Config, r: Rules, now: Time)
    requires PartOf(t', t, cfg, now) && Indexed(t) && Filed(t, r, now)
    ensures Filed(t', r, now)
  {
    forall a | a in t'.byIP
      ensures WellFiled(r, now, a, t'.byIP[a])
    {
      assert Both(t', t'.byIP[a]);
      assert WellFiled(r, now, a, t.byIP[a]);
    }
  }

  /** A restart keeps the invariant of the safety theorem exactly when all running grants are
      lasting. */
  lemma RestartKeepsIff(w: World, cfg: Config, saved: seq<Lease>, now: Time)
    requires WorldOk(w, cfg) && w.clock <= now && Snapshot(w.tables, saved)
    ensures WorldOk(Restarted(w, cfg, saved, now), cfg)
       <==> forall g :: g in w.grants && g.until > now ==> Lasting(w.tables, cfg, g)
  {
    TimeKeeps(w.tables, RulesOf(cfg), w.grants, w.clock, now);
    RestartIff(w, cfg, saved, now);
    LoadKeepsPart(EMPTY, w.tables, cfg, saved, now);
    LoadedFiled(Load(EMPTY, cfg, saved, now), w.tables, cfg, RulesOf(cfg), now);
  }

  /** Then no run after the restart grants an address twice either, counting the grants made
      before it. */
  lemma SafeAcrossRestart(w: World, cfg: Config, saved: seq<Lease>, now: Time, events: seq<Event>, g: Grant, g': Grant)
    requires ConfigOk(cfg) && WorldOk(w, cfg) && w.clock <= now && Snapshot(w.tables, saved) && Timely(now, events)
    requires forall x :: x in w.grants && x.until > now ==> Lasting(w.tables, cfg, x)
    ensures var w' := Run(Restarted(w, cfg, saved, now), cfg, events);
            g in w'.grants && g' in w'.grants && g.addr == g'.addr && g.until > w'.clock && g'.until > w'.clock ==>
              g.client == g'.client
  {
    RestartKeepsIff(w, cfg, saved, now);
    RunKeeps(Restarted(w, cfg, saved, now), cfg, events);
  }

  // ----- runs that lose a grant ------------------------------------------------------------------

  const DOC_ADDR: Addr := [0x20, 1, 0xd, 0xb8, 0, 0, 0, 0, 0, 0, 0, 0, 0, 0, 0, 1]

  /** A server with no pool and one reservation, spelled with capitals. */
  const CAPITALS: Config := Config(None, None, None, 0, [StaticLease("", "00AB", DOC_ADDR)])

  const CAPITAL_CLIENT: Key := Duid([0, 0xab])

  ghost function AfterCapitals(): World {
    Reached(CAPITALS, 0, [Event(Solicit6([0, 0xab], Absent, None, true), 0)])
  }

  lemma CapitalsGranted()
    ensures var l := StaticLeaseFor(CAPITAL_CLIENT, DOC_ADDR);
            && AfterCapitals().grants == {Grant(CAPITAL_CLIENT, DOC_ADDR, 0xffff_ffff * SECOND)}
            && AfterCapitals().tables.leases == map[CAPITAL_CLIENT := l] && AfterCapitals().tables.byIP == map[DOC_ADDR := l]
  {
    var e := Event(Solicit6([0, 0xab], Absent, None, true), 0);
    OnlyReservation();
    RunOfOne(World(EMPTY, {}, 0), CAPITALS, e);
    var l := StaticLeaseFor(CAPITAL_CLIENT, DOC_ADDR);
    assert Allocate(EMPTY, CAPITALS, CAPITAL_CLIENT, None, 0) == Allocation(Commit(EMPTY, l), Some(DOC_ADDR), true);
  }

  /** Its client is granted the reserved address for 2^32 - 1 seconds, and a restart in the same
      instant forgets it. */
  lemma CapitalsForgotten(saved: seq<Lease>)
    requires Snapshot(AfterCapitals().tables, saved)
    ensures ConfigOk(CAPITALS)
    ensures var w, g := AfterCapitals(), Grant(CAPITAL_CLIENT, DOC_ADDR, 0xffff_ffff * SECOND);
            g in w.grants && CurrentLease(w.tables, g) && !BackedBy(Load(EMPTY, CAPITALS, saved, 0), g)
  {
    var w, g := AfterCapitals(), Grant(CAPITAL_CLIENT, DOC_ADDR, 0xffff_ffff * SECOND);
    OnlyReservation();
    CapitalsGranted();
    LoadKeepsPart(EMPTY, w.tables, CAPITALS, saved, 0);
    GrantSurvivesIff(w.tables, Load(EMPTY, CAPITALS, saved, 0), CAPITALS, g, 0);
  }

  lemma OnlyClient(d: DuidOctets)
    ensures StaticFor(CAPITALS.statics, Duid(d)).Some? ==> d == [0, 0xab]
  {
    assert Lower("00AB") == "00ab" && Hex([0, 0xab]) == "00ab";
    if StaticFor(CAPITALS.statics, Duid(d)).Some? {
      var _ := StaticForFound(CAPITALS.statics, Duid(d));
      HexInjective(d, [0, 0xab]);
    }
  }

  lemma CapitalsMatch()
    ensures StaticFor(CAPITALS.statics, CAPITAL_CLIENT) == Some(StaticLease("", "00AB", DOC_ADDR))
    ensures !StillReserved(CAPITALS.statics, CAPITAL_CLIENT, DOC_ADDR)
  {
    assert Lower("00AB") == "00ab" && Hex([0, 0xab]) == "00ab";
    assert CAPITALS.statics == [StaticLease("", "00AB", DOC_ADDR)];
  }

  lemma OnlyReservation()
    ensures StaticAddr(CAPITALS, CAPITAL_CLIENT) == Some(DOC_ADDR)
    ensures ConfigOk(CAPITALS) && !StillReserved(CAPITALS.statics, CAPITAL_CLIENT, DOC_ADDR)
  {
    CapitalsMatch();
    forall d, d' | d != d'
      ensures !SharedReservation(CAPITALS, d, d')
    {
      OnlyClient(d);
      OnlyClient(d');
    }
  }

  /** A client that asks for one pool address and then another holds two running grants, of which
      a restart forgets the first. */
  lemma MovedGrantForgotten(cfg: Config, mac: HwAddr, a: Addr, b: Addr, saved: seq<Lease>)
    requires a != b && InPool(cfg, false, a) && InPool(cfg, false, b) && Promise4(cfg) > 0
    requires Snapshot(TwoRequests(cfg, mac, a, b).tables, saved)
    ensures var w := TwoRequests(cfg, mac, a, b);
            var g, g' := Grant(Mac(mac), a, Promise4(cfg)), Grant(Mac(mac), b, Promise4(cfg));
            && g in w.grants && g' in w.grants && BackedBy(w.tables, g) && BackedBy(w.tables, g')
            && w.tables.leases.Keys == {Mac(mac)} && w.tables.byIP.Keys == {a, b} && w.tables.leases[Mac(mac)].ip == b
            && !BackedBy(Load(EMPTY, cfg, saved, 0), g)
  {
    var w := TwoRequests(cfg, mac, a, b);
    var g := Grant(Mac(mac), a, Promise4(cfg));
    MovedClient(cfg, mac, a, b);
    LoadKeepsPart(EMPTY, w.tables, cfg, saved, 0);
    GrantSurvivesIff(w.tables, Load(EMPTY, cfg, saved, 0), cfg, g, 0);
  }

  ghost function TwoRequests(cfg: Config, mac: HwAddr, a: Addr, b: Addr): World {
    Reached(cfg, 0, [Event(Request(mac, Ours, Some(a), None), 0)] + [Event(Request(mac, Ours, Some(b), None), 0)])
  }

  function LeaseOn(cfg: Config, k: Key, a: Addr, now: Time): Lease {
    var st := StaticFor(cfg.statics, k);
    if st.Some? && st.value.ip == a then StaticLeaseFor(k, a) else DynamicLeaseFor(LeaseTime(cfg), k, a, now)
  }

  lemma MovedClient(cfg: Config, mac: HwAddr, a: Addr, b: Addr)
    requires a != b && InPool(cfg, false, a) && InPool(cfg, false, b) && Promise4(cfg) > 0
    ensures var w := TwoRequests(cfg, mac, a, b);
            var g, g' := Grant(Mac(mac), a, Promise4(cfg)), Grant(Mac(mac), b, Promise4(cfg));
            && Indexed(w.tables) && w.grants == {g, g'} && BackedBy(w.tables, g) && BackedBy(w.tables, g')
            && w.tables.leases == map[Mac(mac) := LeaseOn(cfg, Mac(mac), b, 0)]
            && w.tables.byIP == map[a := LeaseOn(cfg, Mac(mac), a, 0), b := LeaseOn(cfg, Mac(mac), b, 0)]
  {
    var k, w0 := Mac(mac), World(EMPTY, {}, 0);
    var e, e' := Event(Request(mac, Ours, Some(a), None), 0), Event(Request(mac, Ours, Some(b), None), 0);
    RunOfOne(w0, cfg, e);
    RunThen(w0, cfg, [e], e');
    RequestServed(EMPTY, cfg, mac, a, 0);
    var w1 := Step(w0, cfg, e);
    assert w1 == World(Commit(EMPTY, LeaseOn(cfg, k, a, 0)), {Grant(k, a, Promise4(cfg))}, 0);
    RequestServed(w1.tables, cfg, mac, b, 0);
    MovedTables(cfg, k, a, b);
  }

  lemma MovedTables(cfg: Config, k: Key, a: Addr, b: Addr)
    requires a != b
    ensures var l, l' := LeaseOn(cfg, k, a, 0), LeaseOn(cfg, k, b, 0);
            var t := Commit(Commit(EMPTY, l), l');
            t.leases == map[k := l'] && t.byIP == map[a := l, b := l']
  {
  }

  /** A REQUEST for a pool address that nobody has or holds. */
  lemma RequestServed(t: Tables, cfg: Config, mac: HwAddr, a: Addr, now: Time)
    requires InPool(cfg, false, a) && a !in t.byIP && a !in t.reserved
    ensures Handle(t, cfg, Request(mac, Ours, Some(a), None), now)
         == Outcome(Commit(t, LeaseOn(cfg, Mac(mac), a, now)), Granted(Grant(Mac(mac), a, now + Promise4(cfg))))
  {
    assert !HeldByOther(t, a, Mac(mac), now);
  }
}
