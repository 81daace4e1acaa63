/**
 The free-address search is exact: it visits the pool once around, in cyclic order from
 its cursor, and answers by the tables as they stood when it began, although testing an
 address may drop an expired lease from them.
 */
module DhcpSearch {
  import opened Common
  import opened AddressMath
  import opened DhcpModel

  // ----- the span a scan walks --------------------------------------------------------

  lemma RawNumber(span: Span, j: nat)
    requires j < span.Limit()
    ensures Value(span.Raw(j)) == span.Number(j)
  {
    Limits();
    ValueOfBytes(span.Number(j), span.width);
  }

  lemma AtInjective(span: Span, i: nat, j: nat)
    requires i < j < span.size
    ensures span.At(i) != span.At(j)
  {
    RawNumber(span, i);
    RawNumber(span, j);
    if span.At(i) == span.At(j) {
      TextInjective(span.Raw(i), span.Raw(j));
    }
  }

  // ----- the scan against the tables as they stood --------------------------------------

  /** Dropping one expired lease changes no verdict but possibly on its own address. */
  lemma ReclaimKeepsVerdicts(t: Tables, a: Addr, b: Addr, k: Key, now: Time)
    ensures HeldByOther(Reclaim(t, a, k, now), b, k, now) == HeldByOther(t, b, k, now)
  {
  }

  /** The verdict on the `i`-th candidate of a scan. */
  predicate Busy(t: Tables, span: Span, p: nat, i: nat, k: Key, now: Time)
    requires p < span.size && i < span.size
  {
    HeldByOther(t, span.At(Place(p, i, span.size)), k, now)
  }

  /** `n` candidates are busy and the next one, if there is one, is free. */
  predicate FirstFree(t: Tables, span: Span, p: nat, from: nat, n: nat, k: Key, now: Time)
    requires p < span.size
  {
    && from <= n <= span.size
    && (forall i :: from <= i < n ==> Busy(t, span, p, i, k, now))
    && (n < span.size ==> !Busy(t, span, p, n, k, now))
  }

  lemma {:induction false} ScanFirstFree(t: Tables, span: Span, p: nat, from: nat, k: Key, now: Time) returns (n: nat)
    requires p < span.size && from <= span.size
    ensures FirstFree(t, span, p, from, n, k, now)
    ensures Scan(t, span, p, from, k, now).1
         == if n < span.size then Some(Place(p, n, span.size)) else None
    decreases span.size - from
  {
    if from == span.size {
      n := from;
    } else {
      var a := span.At(Place(p, from, span.size));
      if HeldByOther(t, a, k, now) {
        var t' := Reclaim(t, a, k, now);
        n := ScanFirstFree(t', span, p, from + 1, k, now);
        SameVerdicts(t, a, span, p, from + 1, n, k, now);
        assert Busy(t, span, p, from, k, now);
      } else {
        n := from;
      }
    }
  }

  lemma SameVerdicts(t: Tables, a: Addr, span: Span, p: nat, from: nat, n: nat, k: Key, now: Time)
    requires p < span.size && FirstFree(Reclaim(t, a, k, now), span, p, from, n, k, now)
    ensures FirstFree(t, span, p, from, n, k, now)
  {
    var t' := Reclaim(t, a, k, now);
    forall i | from <= i < n
      ensures Busy(t, span, p, i, k, now)
    {
      assert Busy(t', span, p, i, k, now);
      ReclaimKeepsVerdicts(t, a, span.At(Place(p, i, span.size)), k, now);
    }
    if n < span.size {
      ReclaimKeepsVerdicts(t, a, span.At(Place(p, n, span.size)), k, now);
    }
  }

  /** A search fails exactly when every address of its span is held by someone else;
      otherwise it returns the first free one in cyclic order from its cursor. */
  lemma SearchExact(t: Tables, cfg: Config, v6: bool, k: Key, now: Time) returns (n: nat)
    requires ScanSpan(cfg, v6).Some?
    ensures var span, p := ScanSpan(cfg, v6).value, ScanStart(t, cfg, v6);
            var found := NextFree(t, cfg, v6, k, now).1;
            && FirstFree(t, span, p, 0, n, k, now)
            && (found.None? <==> n == span.size)
            && (found.Some? ==> found.value == span.At(Place(p, n, span.size)))
            && (found.Some? ==> !HeldByOther(t, found.value, k, now))
            && (found.None? ==> forall j: nat :: j < span.size ==> HeldByOther(t, span.At(j), k, now))
  {
    var span, p := ScanSpan(cfg, v6).value, ScanStart(t, cfg, v6);
    n := ScanFirstFree(t, span, p, 0, k, now);
    if n == span.size {
      forall j: nat | j < span.size
        ensures HeldByOther(t, span.At(j), k, now)
      {
        var i := if j >= p then j - p else j - p + span.size;
        assert Busy(t, span, p, i, k, now);
        assert Place(p, i, span.size) == j;
      }
    } else {
      assert !Busy(t, span, p, n, k, now);
    }
  }

  /** One turn of the search never tests an address twice. */
  lemma CandidatesDistinct(cfg: Config, v6: bool, p: nat, i: nat, j: nat)
    requires ScanSpan(cfg, v6).Some? && i < j < ScanSpan(cfg, v6).value.size && p < ScanSpan(cfg, v6).value.size
    ensures var span := ScanSpan(cfg, v6).value;
            span.At(Place(p, i, span.size)) != span.At(Place(p, j, span.size))
  {
    var span := ScanSpan(cfg, v6).value;
    var x, y := Place(p, i, span.size), Place(p, j, span.size);
    if x < y {
      AtInjective(span, x, y);
    } else {
      AtInjective(span, y, x);
    }
  }

  // ----- the span against the configured range -----------------------------------------

  predicate OctetsOrdered(start: Octets4, end: Octets4) {
    start[0] <= end[0] && start[1] <= end[1] && start[2] <= end[2] && start[3] <= end[3]
  }

  lemma Value4(b: Octets4)
    ensures Value(b) == 16777216 * b[0] as int + 65536 * b[1] as int + 256 * b[2] as int + b[3] as int
  {
    assert b[..3][..2] == b[..2] && b[..2][..1] == b[..1];
    assert b[..1] == [b[0]] && b[..1][..0] == [];
    assert Value(b[..1]) == b[0];
    assert Value(b[..2]) == 256 * Value(b[..1]) + b[1];
    assert Value(b[..3]) == 256 * Value(b[..2]) + b[2];
  }

  /** A byte subtraction that wraps adds 256 in its place; none wraps iff octets are ordered. */
  lemma ScanLengthExactIff(start: Octets4, end: Octets4)
    ensures ScanLength(start, end) >= Value(end) - Value(start)
    ensures ScanLength(start, end) == Value(end) - Value(start) <==> OctetsOrdered(start, end)
  {
    Value4(start);
    Value4(end);
    ByteDifference(start[0], end[0]);
    ByteDifference(start[1], end[1]);
    ByteDifference(start[2], end[2]);
    ByteDifference(start[3], end[3]);
  }

  lemma ByteDifference(s: Byte, e: Byte)
    ensures (e as int - s as int) % 256 == e as int - s as int + if s <= e then 0 else 256
  {
  }

  predicate InRange(r4: Option<Range4>, r6: Option<Range6>, v6: bool, ip: seq<Byte>) {
    if v6 then |ip| == 16 && r6.Some? && Value(r6.value.start) <= Value(ip) <= Value(r6.value.end)
    else |ip| == 4 && r4.Some? && Value(r4.value.start) <= Value(ip) <= Value(r4.value.end)
  }

  /** The configured bounds the source's arithmetic walks correctly. */
  predicate RangeOk(cfg: Config, v6: bool) {
    if v6 then
      cfg.range6.Some? && Value(cfg.range6.value.start) <= Value(cfg.range6.value.end) < LIMIT_16 - 1
    else
      cfg.range4.Some? && OctetsOrdered(cfg.range4.value.start, cfg.range4.value.end)
  }

  lemma RangeEnds(cfg: Config, v6: bool)
    requires RangeOk(cfg, v6)
    ensures ScanSpan(cfg, v6).Some?
    ensures var span := ScanSpan(cfg, v6).value;
            && span.width == (if v6 then 16 else 4)
            && span.base + span.size <= span.Limit()
            && span.base == (if v6 then Value(cfg.range6.value.start) else Value(cfg.range4.value.start))
            && span.base + span.size - 1 == if v6 then Value(cfg.range6.value.end) else Value(cfg.range4.value.end)
  {
    if !v6 {
      ScanLengthExactIff(cfg.range4.value.start, cfg.range4.value.end);
      Limited(cfg.range4.value.end);
    }
  }

  /** With such bounds the scan walks exactly the configured range: every place is in it. */
  lemma PlaceInRange(cfg: Config, v6: bool, j: nat)
    requires RangeOk(cfg, v6) && ScanSpan(cfg, v6).Some? && j < ScanSpan(cfg, v6).value.size
    ensures InRange(cfg.range4, cfg.range6, v6, ScanSpan(cfg, v6).value.Raw(j))
  {
    RangeEnds(cfg, v6);
    RawNumber(ScanSpan(cfg, v6).value, j);
  }

  /** And every address of it is a place. */
  lemma RangeOnSpan(cfg: Config, v6: bool, ip: seq<Byte>)
    requires RangeOk(cfg, v6) && InRange(cfg.range4, cfg.range6, v6, ip)
    ensures ScanSpan(cfg, v6).Some?
    ensures var span := ScanSpan(cfg, v6).value;
            span.base <= Value(ip) < span.base + span.size && span.Raw(Value(ip) - span.base) == ip
  {
    RangeEnds(cfg, v6);
    RawOfNumber(ScanSpan(cfg, v6).value, ip);
  }

  lemma RawOfNumber(span: Span, ip: seq<Byte>)
    requires |ip| == span.width && span.base <= Value(ip) < span.base + span.size <= span.Limit()
    ensures span.Raw(Value(ip) - span.base) == ip
  {
    BytesOfValue(ip);
    assert span.Number(Value(ip) - span.base) == Value(ip);
  }

  /** nextFree4 and nextFree6 on such a pool: what they return is in range and free. */
  lemma FoundInRange(t: Tables, cfg: Config, v6: bool, k: Key, now: Time)
    requires RangeOk(cfg, v6) && NextFree(t, cfg, v6, k, now).1.Some?
    ensures var a := NextFree(t, cfg, v6, k, now).1.value;
            !HeldByOther(t, a, k, now) && exists ip :: InRange(cfg.range4, cfg.range6, v6, ip) && a == Text(ip)
  {
    RangeEnds(cfg, v6);
    var span := ScanSpan(cfg, v6).value;
    var n := SearchExact(t, cfg, v6, k, now);
    var j := Place(ScanStart(t, cfg, v6), n, span.size);
    PlaceInRange(cfg, v6, j);
    assert NextFree(t, cfg, v6, k, now).1.value == Text(span.Raw(j));
  }

  /** When they return nothing, every address of the range is held by others. */
  lemma NoneIsFull(t: Tables, cfg: Config, v6: bool, k: Key, now: Time, ip: seq<Byte>)
    requires RangeOk(cfg, v6) && NextFree(t, cfg, v6, k, now).1.None? && InRange(cfg.range4, cfg.range6, v6, ip)
    ensures HeldByOther(t, Text(ip), k, now)
  {
    RangeOnSpan(cfg, v6, ip);
    var span := ScanSpan(cfg, v6).value;
    PlaceHeld(t, cfg, v6, k, now, Value(ip) - span.base);
  }

  lemma PlaceHeld(t: Tables, cfg: Config, v6: bool, k: Key, now: Time, j: nat)
    requires ScanSpan(cfg, v6).Some? && j < ScanSpan(cfg, v6).value.size && NextFree(t, cfg, v6, k, now).1.None?
    ensures HeldByOther(t, ScanSpan(cfg, v6).value.At(j), k, now)
  {
    var _ := SearchExact(t, cfg, v6, k, now);
  }

  /** In range, free, and complete. */
  lemma NextFreeExact(t: Tables, cfg: Config, v6: bool, k: Key, now: Time)
    requires RangeOk(cfg, v6)
    ensures var a := NextFree(t, cfg, v6, k, now).1;
            && (a.Some? ==> !HeldByOther(t, a.value, k, now)
                            && exists ip :: InRange(cfg.range4, cfg.range6, v6, ip) && a.value == Text(ip))
            && (a.None? <==> forall ip :: InRange(cfg.range4, cfg.range6, v6, ip) ==> HeldByOther(t, Text(ip), k, now))
  {
    if NextFree(t, cfg, v6, k, now).1.Some? {
      FoundInRange(t, cfg, v6, k, now);
    } else {
      forall ip: seq<Byte> | InRange(cfg.range4, cfg.range6, v6, ip)
        ensures HeldByOther(t, Text(ip), k, now)
      {
        NoneIsFull(t, cfg, v6, k, now, ip);
      }
    }
  }

  lemma Cursor6InRange(t: Tables, cfg: Config, k: Key, now: Time)
    requires RangeOk(cfg, true) && NextFree(t, cfg, true, k, now).1.Some?
    ensures var c := NextFree(t, cfg, true, k, now).0.cursor6;
            c.Some? && InRange(cfg.range4, cfg.range6, true, c.value)
  {
    var span := ScanSpan(cfg, true).value;
    var j := Scan(t, span, ScanStart(t, cfg, true), 0, k, now).1.value;
    NextOnSpan(cfg, j);
    PlaceInRange(cfg, true, if j + 1 == span.size then 0 else j + 1);
  }

  lemma Cursor4InRange(t: Tables, cfg: Config, k: Key, now: Time)
    requires cfg.range4.Some? && NextFree(t, cfg, false, k, now).1.Some?
    ensures NextFree(t, cfg, false, k, now).0.cursor4 < ScanSpan(cfg, false).value.size
  {
  }

  lemma StartOf4(t: Tables, cfg: Config, next: nat)
    requires cfg.range4.Some? && t.cursor4 == next < ScanSpan(cfg, false).value.size
    ensures ScanStart(t, cfg, false) == next
  {
    ModUnique(next, ScanSpan(cfg, false).value.size, 0, next);
  }

  lemma StartOf6(t: Tables, cfg: Config, next: nat)
    requires RangeOk(cfg, true) && ScanSpan(cfg, true).Some? && next < ScanSpan(cfg, true).value.size
    requires t.cursor6 == Some(ScanSpan(cfg, true).value.Raw(next))
    ensures ScanStart(t, cfg, true) == next
  {
    RangeEnds(cfg, true);
    RawNumber(ScanSpan(cfg, true).value, next);
  }

  /** The tables a successful search leaves, and the place it found. */
  lemma SearchLeaves(t: Tables, cfg: Config, v6: bool, k: Key, now: Time) returns (j: nat)
    requires ScanSpan(cfg, v6).Some? && NextFree(t, cfg, v6, k, now).1.Some?
    ensures j < ScanSpan(cfg, v6).value.size && NextFree(t, cfg, v6, k, now).1.value == ScanSpan(cfg, v6).value.At(j)
    ensures !v6 ==> NextFree(t, cfg, v6, k, now).0.cursor4 == Following(ScanSpan(cfg, v6).value, j)
    ensures v6 ==> NextFree(t, cfg, v6, k, now).0.cursor6 == Some(Next6(cfg.range6.value, ScanSpan(cfg, v6).value.Raw(j)))
  {
    j := Scan(t, ScanSpan(cfg, v6).value, ScanStart(t, cfg, v6), 0, k, now).1.value;
  }

  /** The next place of a span, round to the first. */
  function Following(span: Span, j: nat): (n: nat)
    requires j < span.size
    ensures n < span.size
  {
    if j + 1 == span.size then 0 else j + 1
  }

  /** The next search begins one place behind the address found: an address just handed out is the
      last to be tried again. */
  lemma SearchMovesOn(t: Tables, cfg: Config, v6: bool, k: Key, now: Time) returns (j: nat)
    requires RangeOk(cfg, v6) && ScanSpan(cfg, v6).Some? && NextFree(t, cfg, v6, k, now).1.Some?
    ensures j < ScanSpan(cfg, v6).value.size && NextFree(t, cfg, v6, k, now).1.value == ScanSpan(cfg, v6).value.At(j)
    ensures ScanStart(NextFree(t, cfg, v6, k, now).0, cfg, v6) == Following(ScanSpan(cfg, v6).value, j)
  {
    j := SearchLeaves(t, cfg, v6, k, now);
    var t', next := NextFree(t, cfg, v6, k, now).0, Following(ScanSpan(cfg, v6).value, j);
    if v6 {
      NextOnSpan(cfg, j);
      StartOf6(t', cfg, next);
    } else {
      StartOf4(t', cfg, next);
    }
  }

  /** The cursors stay inside the pool. */
  lemma CursorsStayInRange(t: Tables, cfg: Config, k: Key, now: Time)
    ensures RangeOk(cfg, false) && NextFree(t, cfg, false, k, now).1.Some? ==>
              NextFree(t, cfg, false, k, now).0.cursor4 < ScanSpan(cfg, false).value.size
    ensures RangeOk(cfg, true) && NextFree(t, cfg, true, k, now).1.Some? ==>
              var c := NextFree(t, cfg, true, k, now).0.cursor6;
              c.Some? && InRange(cfg.range4, cfg.range6, true, c.value)
  {
    if RangeOk(cfg, false) && NextFree(t, cfg, false, k, now).1.Some? {
      Cursor4InRange(t, cfg, k, now);
    }
    if RangeOk(cfg, true) && NextFree(t, cfg, true, k, now).1.Some? {
      Cursor6InRange(t, cfg, k, now);
    }
  }

  /** nextFree6's step, on integers. */
  function NextNumber(lo: nat, hi: nat, n: nat): nat {
    var next := if n + 1 == LIMIT_16 then 0 else n + 1;
    if next > hi then lo else next
  }

  lemma NextIsNumber(r: Range6, cur: Octets16)
    ensures Value(Next6(r, cur)) == NextNumber(Value(r.start), Value(r.end), Value(cur))
  {
    var n := |cur|;
    Limits();
    Limited(cur);
    if Value(cur) + 1 < LIMIT_16 {
      ValueOfBytes(Value(cur) + 1, n);
    } else {
      BytesWrap(0, n);
      ValueOfBytes(0, n);
    }
  }

  /** nextFree6's step from one address to the next is one place along its span. */
  lemma NextOnSpan(cfg: Config, j: nat)
    requires cfg.range6.Some? && j < ScanSpan(cfg, true).value.size
    ensures var span := ScanSpan(cfg, true).value;
            Next6(cfg.range6.value, span.Raw(j)) == span.Raw(if j + 1 == span.size then 0 else j + 1)
  {
    var r, span := cfg.range6.value, ScanSpan(cfg, true).value;
    var k := if j + 1 == span.size then 0 else j + 1;
    NextIsNumber(r, span.Raw(j));
    RawNumber(span, j);
    RawNumber(span, k);
    Limited(r.start);
    Limited(r.end);
    assert NextNumber(Value(r.start), Value(r.end), span.Number(j)) == span.Number(k);
    ValueInjective(Next6(r, span.Raw(j)), span.Raw(k));
  }
}
