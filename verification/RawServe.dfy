/**
 Serving a cache hit without decoding it: ttlOffsets (internal/cache/cache.go) finds the
 answer TTL fields once, writeRaw (internal/dnsserver/handler.go) patches the query ID and
 those fields in a copy of the packed bytes.  The result is the packed form of exactly the
 message the decoding path would have produced.
 */
module RawServe {
  import opened Common
  import opened Wire

  // ----- finding the fields -------------------------------------------------------------

  /** Where the TTL fields stand when the records are packed from `off` on. */
  function TtlPlaces(off: nat, rrs: seq<RR>): seq<nat>
    decreases rrs
  {
    if rrs == [] then [] else [off + |rrs[0].name| + 4] + TtlPlaces(off + rrs[0].Size(), rrs[1..])
  }

  function Offsets(m: Message): seq<nat> {
    TtlPlaces(12 + |PackedQuestions(m.questions)|, m.answers)
  }

  /** The places for the `n` records that a packet holds from `off` on. */
  function Places(msg: Octets, off: nat, n: nat): Option<seq<nat>>
    requires off <= |msg|
  {
    match ReadAnswers(msg, off, n)
    case None => None
    case Some(r) => Some(TtlPlaces(off, r.0))
  }

  function Prefixed(out: seq<nat>, more: Option<seq<nat>>): Option<seq<nat>> {
    if more.Some? then Some(out + more.value) else None
  }

  lemma PlacesStep(msg: Octets, off: nat, n: nat)
    requires off <= |msg| && n > 0
    ensures ReadRR(msg, off).None? ==> Places(msg, off, n) == None
    ensures ReadRR(msg, off).Some? ==>
              var (rr, next) := ReadRR(msg, off).value;
              Places(msg, off, n) == Prefixed([off + |rr.name| + 4], Places(msg, next, n - 1))
  {
    if ReadRR(msg, off).Some? {
      var (rr, next) := ReadRR(msg, off).value;
      if ReadAnswers(msg, next, n - 1).Some? {
        PlacesFirst(off, rr, ReadAnswers(msg, next, n - 1).value.0);
      }
    }
  }

  lemma PlacesFirst(off: nat, rr: RR, rest: seq<RR>)
    ensures TtlPlaces(off, [rr] + rest) == [off + |rr.name| + 4] + TtlPlaces(off + rr.Size(), rest)
  {
    assert ([rr] + rest)[1..] == rest;
  }

  lemma PrefixedTwice(out: seq<nat>, x: nat, more: Option<seq<nat>>)
    ensures Prefixed(out, Prefixed([x], more)) == Prefixed(out + [x], more)
  {
    if more.Some? {
      assert out + ([x] + more.value) == (out + [x]) + more.value;
    }
  }

  /** skipPackedName. */
  method SkipPackedName(msg: Octets, start: nat) returns (n: nat, ok: bool)
    ensures SkipName(msg, start) == if ok then Some(n) else None
  {
    var off := start;
    while true
      invariant SkipName(msg, start) == SkipName(msg, off)
      decreases |msg| - off
    {
      if off >= |msg| {
        return 0, false;
      }
      var b := msg[off];
      if b >= 0xC0 {
        if off + 2 > |msg| {
          return 0, false;
        }
        return off + 2, true;
      }
      if b == 0 {
        return off + 1, true;
      }
      off := off + 1 + b as int;
      if off > |msg| {
        return 0, false;
      }
    }
  }

  /** Where the `n` questions that start at `off` end. */
  function QuestionsEnd(msg: Octets, off: nat, n: nat): Option<nat>
    requires off <= |msg|
  {
    match ReadQuestions(msg, off, n)
    case None => None
    case Some(r) => Some(r.1)
  }

  lemma QuestionsEndStep(msg: Octets, off: nat, n: nat)
    requires off <= |msg| && n > 0
    ensures QuestionsEnd(msg, off, n)
         == match SkipName(msg, off)
            case None => None
            case Some(e) => if e + 4 > |msg| then None else QuestionsEnd(msg, e + 4, n - 1)
  {
  }

  /** The question loop of ttlOffsets. */
  method SkipQuestions(msg: Octets, qd: nat) returns (mid: nat, ok: bool)
    requires |msg| >= 12
    ensures QuestionsEnd(msg, 12, qd) == if ok then Some(mid) else None
  {
    var off: nat := 12;
    for i := 0 to qd
      invariant off <= |msg|
      invariant QuestionsEnd(msg, 12, qd) == QuestionsEnd(msg, off, qd - i)
    {
      QuestionsEndStep(msg, off, qd - i);
      var n, found := SkipPackedName(msg, off);
      if !found || n + 4 > |msg| {
        return 0, false;
      }
      off := n + 4;
    }
    return off, true;
  }

  /** One turn of the answer loop: the TTL field's place and the next record. */
  method NextRecord(msg: Octets, off: nat) returns (place: nat, next: nat, ok: bool)
    requires |msg| <= UINT32
    ensures match ReadRR(msg, off)
            case None => !ok
            case Some(r) => ok && next == r.1 && place == off + |r.0.name| + 4
  {
    var n, found := SkipPackedName(msg, off);
    if !found || n + 10 > |msg| {
      return 0, 0, false;
    }
    next := n + 10 + Value(msg[n + 8..n + 10]);
    return (n + 4) % UINT32, next, next <= |msg|;
  }

  /** The answer loop of ttlOffsets.  Offsets are stored as 32-bit integers. */
  method CollectOffsets(msg: Octets, mid: nat, an: nat) returns (r: Option<seq<nat>>)
    requires mid <= |msg| <= UINT32
    ensures r == Places(msg, mid, an)
  {
    var off: nat := mid;
    var out: seq<nat> := [];
    ghost var all := Places(msg, mid, an);
    assert all.Some? ==> out + all.value == all.value;
    for i := 0 to an
      invariant off <= |msg|
      invariant all == Prefixed(out, Places(msg, off, an - i))
    {
      PlacesStep(msg, off, an - i);
      var place, next, ok := NextRecord(msg, off);
      if !ok {
        return None;
      }
      PrefixedTwice(out, place, Places(msg, next, an - i - 1));
      out := out + [place];
      off := next;
    }
    assert Places(msg, off, 0) == Some([]) && out + [] == out;
    return Some(out);
  }

  /** ttlOffsets: present exactly when the packet parses and has answers, and then the
      places of the TTL fields, one per answer. */
  method TtlOffsets(msg: Octets) returns (r: Option<seq<nat>>)
    requires |msg| <= UINT32
    ensures r == if Parse(msg).Some? && Parse(msg).value.answers != [] then Some(Offsets(Parse(msg).value)) else None
  {
    if |msg| < 12 {
      return None;
    }
    var an := Count(msg, 6);
    if an == 0 {
      return None;
    }
    var mid, ok := SkipQuestions(msg, Count(msg, 4));
    if !ok {
      return None;
    }
    r := CollectOffsets(msg, mid, an);
    PlacesAreOffsets(msg, mid);
  }

  /** The places found are the offsets of the parsed message. */
  lemma PlacesAreOffsets(msg: Octets, mid: nat)
    requires |msg| >= 12 && ReadQuestions(msg, 12, Count(msg, 4)).Some? && ReadQuestions(msg, 12, Count(msg, 4)).value.1 == mid
    ensures Places(msg, mid, Count(msg, 6)) == if Parse(msg).Some? then Some(Offsets(Parse(msg).value)) else None
    ensures Parse(msg).Some? ==> |Parse(msg).value.answers| == Count(msg, 6)
  {
    QuestionsWritten(msg, 12, Count(msg, 4));
  }

  /** One offset per answer; each field is clear of the header, in bounds, and ten octets or
      more before the next. */
  lemma {:induction false} PlacesApart(off: nat, rrs: seq<RR>, i: nat)
    requires i < |rrs| && forall j :: 0 <= j < |rrs| ==> rrs[j].Ok()
    ensures var p := TtlPlaces(off, rrs);
            && |p| == |rrs|
            && off <= p[i] && p[i] + 6 <= off + |PackedAnswers(rrs)|
            && (i + 1 < |rrs| ==> p[i] + 10 <= p[i + 1])
    decreases rrs
  {
    var rest, next := rrs[1..], off + rrs[0].Size();
    PackedLength(rrs[0]);
    assert |PackedAnswers(rrs)| == rrs[0].Size() + |PackedAnswers(rest)|;
    if i > 0 {
      PlacesApart(next, rest, i - 1);
    } else if rest != [] {
      PlacesApart(next, rest, 0);
      PackedLength(rest[0]);
    } else {
      assert TtlPlaces(next, rest) == [];
    }
  }

  lemma PackedLength(rr: RR)
    requires |rr.typeClass| == 4
    ensures |rr.Packed()| == rr.Size()
  {
  }

  // ----- patching them --------------------------------------------------------------------

  /** The remaining lifetime, floored at one second; elapsed seconds are taken as 32 bits. */
  function Rebased(ttl: nat, elapsed: int): (s: nat)
    ensures s >= 1 && (s == 1 || s <= ttl)
  {
    if elapsed > 0 && ttl > elapsed % UINT32 then ttl - elapsed % UINT32 else 1
  }

  function RebasedRR(rr: RR, elapsed: int): RR { rr.(ttl := Rebased(rr.ttl, elapsed)) }

  function RebasedAll(rrs: seq<RR>, elapsed: int): (r: seq<RR>)
    ensures |r| == |rrs|
    ensures forall i :: 0 <= i < |r| ==> r[i] == RebasedRR(rrs[i], elapsed)
  {
    if rrs == [] then [] else [RebasedRR(rrs[0], elapsed)] + RebasedAll(rrs[1..], elapsed)
  }

  /** The message a decoding path answers with: new ID, answer TTLs counted down. */
  function Reply(m: Message, id: nat, elapsed: int): Message {
    m.(id := id, answers := RebasedAll(m.answers, elapsed))
  }

  function PatchTtl(buf: Octets, off: nat, elapsed: int): (r: Octets)
    requires off + 4 <= |buf|
    ensures |r| == |buf|
  {
    buf[..off] + Bytes(Rebased(Value(buf[off..off + 4]), elapsed), 4) + buf[off + 4..]
  }

  function PatchAll(buf: Octets, offs: seq<nat>, elapsed: int): (r: Octets)
    ensures |r| == |buf|
    decreases offs
  {
    if offs == [] || offs[0] + 4 > |buf| then buf
    else PatchAll(PatchTtl(buf, offs[0], elapsed), offs[1..], elapsed)
  }

  function WithId(raw: Octets, id: nat): (r: Octets)
    requires |raw| >= 2
    ensures |r| == |raw|
  {
    Bytes(id, 2) + raw[2..]
  }

  /** What writeRaw sends for a positive entry. */
  function Served(raw: Octets, offs: seq<nat>, id: nat, elapsed: int): Octets
    requires |raw| >= 2
  {
    PatchAll(WithId(raw, id), offs, elapsed)
  }

  /** writeRaw's copy, for a positive entry with offsets. */
  method WriteRaw(raw: Octets, offs: seq<nat>, id: nat, elapsed: int) returns (buf: array<Byte>)
    requires |raw| >= 2 && id < 0x1_0000
    ensures fresh(buf) && buf[..] == Served(raw, offs, id, elapsed)
  {
    buf := new Byte[|raw|](i requires 0 <= i < |raw| => raw[i]);
    buf[0], buf[1] := id / 256, id % 256;
    IdOctets(id);
    assert buf[..] == WithId(raw, id);
    ghost var start := buf[..];
    for i := 0 to |offs|
      invariant PatchAll(start, offs, elapsed) == PatchAll(buf[..], offs[i..], elapsed)
    {
      var off := offs[i];
      if off + 4 > buf.Length {
        return;
      }
      ghost var before := buf[..];
      var ttl := Rebased(Value(buf[off..off + 4]), elapsed);
      PutUint32(buf, off, ttl);
      assert buf[..] == PatchTtl(before, off, elapsed);
      assert offs[i..][1..] == offs[i + 1..];
    }
  }

  lemma IdOctets(id: nat)
    requires id < 0x1_0000
    ensures Bytes(id, 2) == [id / 256, id % 256]
  {
    assert Bytes(id / 256, 1) == [id / 256];
  }

  method PutUint32(buf: array<Byte>, off: nat, v: nat)
    requires off + 4 <= buf.Length
    modifies buf
    ensures buf[..] == old(buf[..off]) + Bytes(v, 4) + old(buf[off + 4..])
  {
    var b := Bytes(v, 4);
    buf[off], buf[off + 1], buf[off + 2], buf[off + 3] := b[0], b[1], b[2], b[3];
  }

  // ----- the patched bytes are the packed reply ---------------------------------------------

  lemma Join(msg: Octets, off: nat, a: Octets, b: Octets)
    requires StandsAt(msg, off, a) && StandsAt(msg, off + |a|, b)
    ensures StandsAt(msg, off, a + b)
  {
    assert msg[off..off + |a + b|] == msg[off..off + |a|] + msg[off + |a|..off + |a + b|];
  }

  /** `t` agrees with `s` outside the octets from `lo` up to `hi`. */
  predicate SameOutside(s: Octets, t: Octets, lo: nat, hi: nat) {
    lo <= hi <= |s| == |t| && t[..lo] == s[..lo] && t[hi..] == s[hi..]
  }

  lemma PatchTtlParts(s: Octets, p: nat, elapsed: int)
    requires p + 4 <= |s|
    ensures var t := PatchTtl(s, p, elapsed);
            SameOutside(s, t, p, p + 4) && t[p..p + 4] == Bytes(Rebased(Value(s[p..p + 4]), elapsed), 4)
  {
  }

  lemma NarrowSame(s: Octets, t: Octets, lo: nat, a: nat, b: nat, hi: nat)
    requires SameOutside(s, t, a, b) && lo <= a && b <= hi <= |s|
    ensures SameOutside(s, t, lo, hi)
    ensures t[lo..a] == s[lo..a] && t[b..hi] == s[b..hi]
  {
    assert t[..lo] == t[..a][..lo] && s[..lo] == s[..a][..lo];
    assert t[lo..a] == t[..a][lo..] && s[lo..a] == s[..a][lo..];
    assert t[hi..] == t[b..][hi - b..] && s[hi..] == s[b..][hi - b..];
    assert t[b..hi] == t[b..][..hi - b] && s[b..hi] == s[b..][..hi - b];
  }

  /** Replacing the middle of three parts. */
  lemma ReplaceMiddle(s: Octets, t: Octets, off: nat, a: Octets, b: Octets, b': Octets, c: Octets)
    requires StandsAt(s, off, a + b + c) && |b'| == |b|
    requires SameOutside(s, t, off + |a|, off + |a| + |b|)
    requires t[off + |a|..off + |a| + |b|] == b'
    ensures StandsAt(t, off, a + b' + c)
    ensures SameOutside(s, t, off, off + |a + b + c|)
  {
    var p, q, end := off + |a|, off + |a| + |b|, off + |a + b + c|;
    Parts(s, off, a + b, c);
    Parts(s, off, a, b);
    NarrowSame(s, t, off, p, q, end);
    assert StandsAt(t, off, a) && StandsAt(t, p, b') && StandsAt(t, q, c);
    Join(t, off, a, b');
    Join(t, off, a + b', c);
  }

  lemma ThreeParts(rr: RR)
    ensures rr.Packed() == (rr.name + rr.typeClass) + Bytes(rr.ttl, 4) + (Bytes(|rr.rdata|, 2) + rr.rdata)
  {
    var a, b := rr.name + rr.typeClass, Bytes(rr.ttl, 4);
    assert a + b + Bytes(|rr.rdata|, 2) + rr.rdata == a + b + (Bytes(|rr.rdata|, 2) + rr.rdata);
  }

  lemma MiddleStands(s: Octets, off: nat, a: Octets, b: Octets, c: Octets)
    requires StandsAt(s, off, a + b + c)
    ensures StandsAt(s, off + |a|, b)
  {
    Parts(s, off, a + b, c);
    Parts(s, off, a, b);
  }

  /** Patching four octets that stand between two other parts. */
  lemma PatchMiddle(s: Octets, off: nat, a: Octets, b: Octets, b': Octets, c: Octets, elapsed: int)
    requires |b| == 4 && StandsAt(s, off, a + b + c) && b' == Bytes(Rebased(Value(b), elapsed), 4)
    ensures var p := off + |a|;
            && p + 4 <= |s|
            && var t := PatchTtl(s, p, elapsed);
               SameOutside(s, t, off, off + |a + b + c|) && StandsAt(t, off, a + b' + c)
  {
    var p := off + |a|;
    MiddleStands(s, off, a, b, c);
    PatchTtlParts(s, p, elapsed);
    assert s[p..p + 4] == b;
    ReplaceMiddle(s, PatchTtl(s, p, elapsed), off, a, b, b', c);
  }

  /** A record around its TTL field, and with another TTL. */
  lemma AroundTtl(rr: RR, elapsed: int) returns (a: Octets, b: Octets, b': Octets, c: Octets)
    requires rr.Ok()
    ensures rr.Packed() == a + b + c && RebasedRR(rr, elapsed).Packed() == a + b' + c
    ensures |a| == |rr.name| + 4 && |b| == 4 && |a + b + c| == rr.Size() && b' == Bytes(Rebased(Value(b), elapsed), 4)
  {
    a, b, c := rr.name + rr.typeClass, Bytes(rr.ttl, 4), Bytes(|rr.rdata|, 2) + rr.rdata;
    b' := Bytes(Rebased(rr.ttl, elapsed), 4);
    ThreeParts(rr);
    ThreeParts(RebasedRR(rr, elapsed));
    BytesBack(rr.ttl, 4);
  }

  /** Patching one record's TTL field turns it into the record with the new TTL. */
  lemma PatchRR(s: Octets, off: nat, rr: RR, elapsed: int)
    requires rr.Ok() && StandsAt(s, off, rr.Packed())
    ensures var p := off + |rr.name| + 4;
            && p + 4 <= |s|
            && var t := PatchTtl(s, p, elapsed);
               && SameOutside(s, t, off, off + rr.Size())
               && StandsAt(t, off, RebasedRR(rr, elapsed).Packed())
  {
    var a, b, b', c := AroundTtl(rr, elapsed);
    PatchMiddle(s, off, a, b, b', c, elapsed);
  }

  /** The first record patched, the others still to do. */
  lemma PatchFirst(s: Octets, off: nat, rr: RR, rest: Octets, elapsed: int) returns (s1: Octets, next: nat)
    requires rr.Ok() && StandsAt(s, off, rr.Packed() + rest)
    ensures next == off + rr.Size() && off + |rr.name| + 8 <= |s| && s1 == PatchTtl(s, off + |rr.name| + 4, elapsed)
    ensures SameOutside(s, s1, off, next) && StandsAt(s1, off, RebasedRR(rr, elapsed).Packed())
    ensures |RebasedRR(rr, elapsed).Packed()| == next - off && StandsAt(s1, next, rest)
  {
    next := off + rr.Size();
    PackedLength(rr);
    PackedLength(RebasedRR(rr, elapsed));
    Parts(s, off, rr.Packed(), rest);
    PatchRR(s, off, rr, elapsed);
    s1 := PatchTtl(s, off + |rr.name| + 4, elapsed);
    StillStands(s, s1, off, next, rest);
  }

  lemma PatchAllStep(s: Octets, offs: seq<nat>, elapsed: int)
    requires offs != [] && offs[0] + 4 <= |s|
    ensures PatchAll(s, offs, elapsed) == PatchAll(PatchTtl(s, offs[0], elapsed), offs[1..], elapsed)
  {
  }

  lemma PlacesOfFirst(off: nat, rrs: seq<RR>)
    requires rrs != []
    ensures var p := TtlPlaces(off, rrs);
            p != [] && p[0] == off + |rrs[0].name| + 4 && p[1..] == TtlPlaces(off + rrs[0].Size(), rrs[1..])
  {
  }

  /** Patching all TTL fields turns packed answers into the packed rebased ones. */
  lemma {:induction false} PatchAnswersTo(s: Octets, off: nat, rrs: seq<RR>, end: nat, elapsed: int, t: Octets)
    requires (forall i :: 0 <= i < |rrs| ==> rrs[i].Ok()) && t == PatchAll(s, TtlPlaces(off, rrs), elapsed)
    requires StandsAt(s, off, PackedAnswers(rrs)) && end == off + |PackedAnswers(rrs)|
    ensures SameOutside(s, t, off, end) && StandsAt(t, off, PackedAnswers(RebasedAll(rrs, elapsed)))
    ensures |PackedAnswers(RebasedAll(rrs, elapsed))| == end - off
    decreases rrs
  {
    if rrs != [] {
      var s1, next := FirstAnswerPatched(s, off, rrs, end, elapsed);
      PatchedOnce(s, off, rrs, elapsed);
      PatchAnswersTo(s1, next, rrs[1..], end, elapsed, t);
      PatchedOn(s, s1, t, off, next, end, rrs, elapsed);
    }
  }

  lemma FirstAnswerPatched(s: Octets, off: nat, rrs: seq<RR>, end: nat, elapsed: int) returns (s1: Octets, next: nat)
    requires rrs != [] && rrs[0].Ok()
    requires StandsAt(s, off, PackedAnswers(rrs)) && end == off + |PackedAnswers(rrs)|
    ensures next == off + rrs[0].Size() && off + |rrs[0].name| + 8 <= |s| && s1 == PatchTtl(s, off + |rrs[0].name| + 4, elapsed)
    ensures StandsAt(s1, next, PackedAnswers(rrs[1..])) && end == next + |PackedAnswers(rrs[1..])|
    ensures SameOutside(s, s1, off, next) && StandsAt(s1, off, RebasedRR(rrs[0], elapsed).Packed())
    ensures |RebasedRR(rrs[0], elapsed).Packed()| == next - off
  {
    PackedFirst(rrs);
    PackedLength(rrs[0]);
    s1, next := PatchFirst(s, off, rrs[0], PackedAnswers(rrs[1..]), elapsed);
  }

  lemma PatchedOnce(s: Octets, off: nat, rrs: seq<RR>, elapsed: int)
    requires rrs != [] && off + |rrs[0].name| + 8 <= |s|
    ensures PatchAll(s, TtlPlaces(off, rrs), elapsed)
         == PatchAll(PatchTtl(s, off + |rrs[0].name| + 4, elapsed), TtlPlaces(off + rrs[0].Size(), rrs[1..]), elapsed)
  {
    PlacesOfFirst(off, rrs);
    PatchAllStep(s, TtlPlaces(off, rrs), elapsed);
  }

  lemma PatchAnswers(s: Octets, off: nat, rrs: seq<RR>, end: nat, elapsed: int)
    requires (forall i :: 0 <= i < |rrs| ==> rrs[i].Ok())
    requires StandsAt(s, off, PackedAnswers(rrs)) && end == off + |PackedAnswers(rrs)|
    ensures var t := PatchAll(s, TtlPlaces(off, rrs), elapsed);
            SameOutside(s, t, off, end) && StandsAt(t, off, PackedAnswers(RebasedAll(rrs, elapsed)))
    ensures |PackedAnswers(RebasedAll(rrs, elapsed))| == end - off
  {
    PatchAnswersTo(s, off, rrs, end, elapsed, PatchAll(s, TtlPlaces(off, rrs), elapsed));
  }

  /** The first record patched and then the others. */
  lemma PatchedOn(s: Octets, s1: Octets, t: Octets, off: nat, next: nat, end: nat, rrs: seq<RR>, elapsed: int)
    requires rrs != [] && SameOutside(s, s1, off, next) && SameOutside(s1, t, next, end)
    requires StandsAt(s1, off, RebasedRR(rrs[0], elapsed).Packed()) && |RebasedRR(rrs[0], elapsed).Packed()| == next - off
    requires StandsAt(t, next, PackedAnswers(RebasedAll(rrs[1..], elapsed)))
    requires |PackedAnswers(RebasedAll(rrs[1..], elapsed))| == end - next
    ensures SameOutside(s, t, off, end) && StandsAt(t, off, PackedAnswers(RebasedAll(rrs, elapsed)))
    ensures |PackedAnswers(RebasedAll(rrs, elapsed))| == end - off
  {
    var x, y := RebasedRR(rrs[0], elapsed).Packed(), PackedAnswers(RebasedAll(rrs[1..], elapsed));
    RebasedFirst(rrs, elapsed);
    PatchedTwice(s, s1, t, off, next, end, x, y);
  }

  lemma RebasedFirst(rrs: seq<RR>, elapsed: int)
    requires rrs != []
    ensures PackedAnswers(RebasedAll(rrs, elapsed))
         == RebasedRR(rrs[0], elapsed).Packed() + PackedAnswers(RebasedAll(rrs[1..], elapsed))
  {
    assert RebasedAll(rrs, elapsed)[1..] == RebasedAll(rrs[1..], elapsed);
  }

  lemma StillStands(s: Octets, t: Octets, lo: nat, hi: nat, x: Octets)
    requires SameOutside(s, t, lo, hi) && StandsAt(s, hi, x)
    ensures StandsAt(t, hi, x)
  {
    assert t[hi..hi + |x|] == t[hi..][..|x|];
    assert s[hi..hi + |x|] == s[hi..][..|x|];
  }

  /** A patch of [lo, mid) followed by a patch of [mid, hi). */
  lemma PatchedTwice(s: Octets, s1: Octets, t: Octets, lo: nat, mid: nat, hi: nat, x: Octets, y: Octets)
    requires SameOutside(s, s1, lo, mid) && SameOutside(s1, t, mid, hi)
    requires StandsAt(s1, lo, x) && |x| == mid - lo && StandsAt(t, mid, y)
    ensures SameOutside(s, t, lo, hi) && StandsAt(t, lo, x + y)
  {
    assert t[..lo] == t[..mid][..lo] && s1[..lo] == s1[..mid][..lo];
    assert s1[hi..] == s1[mid..][hi - mid..] && s[hi..] == s[mid..][hi - mid..];
    assert t[lo..mid] == t[..mid][lo..] && s1[lo..mid] == s1[..mid][lo..];
    Join(t, lo, x, y);
  }

  lemma WithIdStands(m: Message, id: nat)
    requires m.Ok() && id < 0x1_0000
    ensures WithId(m.Packed(), id) == m.(id := id).Packed()
  {
    var s, m' := m.Packed(), m.(id := id);
    var rest := m.flags + Bytes(|m.questions|, 2) + Bytes(|m.answers|, 2) + m.counts;
    var body := PackedQuestions(m.questions) + PackedAnswers(m.answers) + m.tail;
    AfterId(m, rest, body);
    AfterId(m', rest, body);
    assert s[2..] == rest + body;
  }

  lemma AfterId(m: Message, rest: Octets, body: Octets)
    requires |m.flags| == 2 && |m.counts| == 4
    requires rest == m.flags + Bytes(|m.questions|, 2) + Bytes(|m.answers|, 2) + m.counts
    requires body == PackedQuestions(m.questions) + PackedAnswers(m.answers) + m.tail
    ensures m.Packed() == Bytes(m.id, 2) + (rest + body)
  {
    FirstApart(Bytes(m.id, 2), m.flags, Bytes(|m.questions|, 2), Bytes(|m.answers|, 2), m.counts);
    FirstApart(m.Header(), PackedQuestions(m.questions), PackedAnswers(m.answers), m.tail, []);
    assert (Bytes(m.id, 2) + rest) + body == Bytes(m.id, 2) + (rest + body);
    assert m.Header() + PackedQuestions(m.questions) + PackedAnswers(m.answers) + m.tail + [] == m.Packed();
    assert body + [] == body;
  }

  lemma FirstApart(a: Octets, b: Octets, c: Octets, d: Octets, e: Octets)
    ensures a + b + c + d + e == a + (b + c + d + e)
  {
  }

  lemma ReplyOk(m: Message, id: nat, elapsed: int)
    requires m.Ok() && id < 0x1_0000
    ensures Reply(m, id, elapsed).Ok()
  {
    forall i | 0 <= i < |m.answers|
      ensures RebasedRR(m.answers[i], elapsed).Ok()
    {
      assert m.answers[i].Ok();
    }
  }

  /** The bytes writeRaw sends are the packed form of the decoded, rebased reply. */
  lemma ServedIsReply(m: Message, id: nat, elapsed: int)
    requires m.Ok() && id < 0x1_0000
    ensures Reply(m, id, elapsed).Ok()
    ensures Served(m.Packed(), Offsets(m), id, elapsed) == Reply(m, id, elapsed).Packed()
  {
    var m1, m2 := m.(id := id), Reply(m, id, elapsed);
    ReplyOk(m, id, elapsed);
    WithIdStands(m, id);
    var s := m1.Packed();
    Sections(m1);
    var mid := 12 + |PackedQuestions(m.questions)|;
    PatchAnswers(s, mid, m.answers, mid + |PackedAnswers(m.answers)|, elapsed);
    var t := PatchAll(s, Offsets(m), elapsed);
    RebuiltFrom(s, t, m1, m2, mid, mid + |PackedAnswers(m.answers)|);
  }

  lemma RebuiltFrom(s: Octets, t: Octets, m1: Message, m2: Message, mid: nat, end: nat)
    requires m1.Ok() && m2 == m1.(answers := m2.answers) && |m2.answers| == |m1.answers|
    requires s == m1.Packed() && mid == 12 + |PackedQuestions(m1.questions)| && end == mid + |PackedAnswers(m1.answers)|
    requires SameOutside(s, t, mid, end) && StandsAt(t, mid, PackedAnswers(m2.answers))
    requires |PackedAnswers(m2.answers)| == |PackedAnswers(m1.answers)|
    ensures t == m2.Packed()
  {
    var front := m1.Header() + PackedQuestions(m1.questions);
    assert s[..mid] == front;
    assert s[end..] == m1.tail;
    assert t == t[..mid] + t[mid..end] + t[end..];
    assert m2.Header() == m1.Header();
  }

  /** Both ways of serving a positive hit agree: parsing the patched bytes gives the stored
      message with only its ID and answer TTLs changed, as decoding and rebasing does. */
  lemma RawEqualsDecoded(raw: Octets, id: nat, elapsed: int)
    requires Parse(raw).Some? && id < 0x1_0000
    ensures |raw| >= 12
    ensures Parse(Served(raw, Offsets(Parse(raw).value), id, elapsed)) == Some(Reply(Parse(raw).value, id, elapsed))
  {
    var m := Parse(raw).value;
    PackedAsParsed(raw);
    ServedIsReply(m, id, elapsed);
    ParsedAsPacked(Reply(m, id, elapsed));
  }
}
