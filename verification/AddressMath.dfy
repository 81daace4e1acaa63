/**
 Address arithmetic of the DHCP pool (internal/dhcp/pool.go): carry loops over octet
 arrays, and the comparison of two addresses.
 */
module AddressMath {
  import opened Common

  /** The four-octet form inside a 16-octet IPv4-mapped address. */
  predicate Mapped(ip: seq<Byte>) {
    && |ip| == 16
    && (forall i :: 0 <= i < 10 ==> ip[i] == 0)
    && ip[10] == 255 && ip[11] == 255
  }

  /** An address as the tables key it: an IPv4-mapped address prints as the IPv4 one. */
  type Addr = a: seq<Byte> | |a| == 4 || (|a| == 16 && !Mapped(a)) witness [0, 0, 0, 0]

  function Text(ip: seq<Byte>): (a: Addr)
    requires |ip| == 4 || |ip| == 16
  {
    if Mapped(ip) then ip[12..] else ip
  }

  const MAPPED: seq<Byte> := [0, 0, 0, 0, 0, 0, 0, 0, 0, 0, 255, 255]

  /** net.IP's To16: an IPv4 address in its mapped form. */
  function To16(a: seq<Byte>): (ip: seq<Byte>)
    requires |a| == 4 || |a| == 16
    ensures |ip| == 16 && (|a| == 4 || !Mapped(a) ==> Text(ip) == a)
  {
    if |a| == 4 then
      var ip := MAPPED + a;
      assert ip[12..] == a;
      ip
    else a
  }

  lemma TextInjective(x: seq<Byte>, y: seq<Byte>)
    requires |x| == |y| && (|x| == 4 || |x| == 16)
    requires Text(x) == Text(y)
    ensures x == y
  {
    if Mapped(x) {
      assert Mapped(y);
      assert x == x[..12] + x[12..];
      assert y == y[..12] + y[12..];
      assert x[..12] == y[..12];
    }
  }

  /** Schoolbook addition: octets from the right, passing the carry on. */
  function Added(b: seq<Byte>, carry: nat): (r: seq<Byte>)
    ensures |r| == |b|
  {
    if b == [] then [] else
      var sum: int := b[|b| - 1] as int + carry;
      Added(b[..|b| - 1], sum / 256) + [sum % 256]
  }

  /** The carry loop is integer addition, modulo the width of the address. */
  lemma {:induction false} AddedIsSum(b: seq<Byte>, carry: nat)
    ensures Added(b, carry) == Bytes(Value(b) + carry, |b|)
  {
    if b != [] {
      var sum: int := b[|b| - 1] as int + carry;
      AddedIsSum(b[..|b| - 1], sum / 256);
      assert (Value(b) + carry) / 256 == Value(b[..|b| - 1]) + sum / 256;
    }
  }

  lemma AddedNothing(b: seq<Byte>)
    ensures Added(b, 0) == b
  {
    AddedIsSum(b, 0);
    BytesOfValue(b);
  }

  /** Octets from `i` on are settled; the carry still has to go into those before. */
  ghost predicate Settled(base: seq<Byte>, offset: nat, b: seq<Byte>, i: int, carry: nat) {
    && |b| == |base| && -1 <= i < |b|
    && b[..i + 1] == base[..i + 1]
    && Added(base, offset) == Added(base[..i + 1], carry) + b[i + 1..]
  }

  /** One turn of the carry loop: octet `i` is settled, its carry moves left. */
  lemma SettleOctet(base: seq<Byte>, offset: nat, b: seq<Byte>, i: nat, carry: nat)
    requires Settled(base, offset, b, i, carry)
    ensures var digit: int := b[i] as int + carry;
            Settled(base, offset, b[i := digit % 256], i - 1, digit / 256)
  {
    var digit: int := b[i] as int + carry;
    var low: Byte := digit % 256;
    var b' := b[i := low];
    assert base[..i + 1][..i] == base[..i];
    var left := Added(base[..i], digit / 256);
    assert Added(base[..i + 1], carry) == left + [low];
    assert b'[i..] == [low] + b[i + 1..];
    assert (left + [low]) + b[i + 1..] == left + ([low] + b[i + 1..]);
  }

  lemma AllSettled(base: seq<Byte>, offset: nat, b: seq<Byte>, i: int, carry: nat)
    requires Settled(base, offset, b, i, carry) && (i == -1 || carry == 0)
    ensures b == Bytes(Value(base) + offset, |base|)
  {
    if carry == 0 {
      AddedNothing(base[..i + 1]);
    }
    assert b == b[..i + 1] + b[i + 1..];
    AddedIsSum(base, offset);
  }

  /** poolAt: the address `offset` places after `base`, carrying through the octets. */
  method PoolAt(base: seq<Byte>, offset: nat) returns (b: array<Byte>)
    ensures fresh(b)
    ensures b[..] == Bytes(Value(base) + offset, |base|)
  {
    b := new Byte[|base|](i requires 0 <= i < |base| => base[i]);
    var carry := offset;
    var i := |base| - 1;
    assert b[..] == base && base[..i + 1] == base;
    while i >= 0 && carry > 0
      invariant -1 <= i < |base| && carry >= 0
      invariant Settled(base, offset, b[..], i, carry)
    {
      ghost var before := b[..];
      SettleOctet(base, offset, before, i, carry);
      var digit: int := b[i] as int + carry;
      var low: Byte := digit % 256;
      b[i] := low;
      assert b[..] == before[i := low];
      carry := digit / 256;
      i := i - 1;
    }
    AllSettled(base, offset, b[..], i, carry);
  }

  /** `b` is `a` with its trailing 255s zeroed and the octet before them raised by one. */
  predicate Bumped(a: seq<Byte>, b: seq<Byte>, i: int)
    requires |a| == |b| && -1 <= i < |a|
  {
    && (forall j :: i < j < |a| ==> a[j] == 255 && b[j] == 0)
    && (i >= 0 ==> a[..i] == b[..i] && b[i] as int == a[i] as int + 1)
  }

  lemma {:induction false} BumpedIsNext(a: seq<Byte>, b: seq<Byte>, i: int)
    requires |a| == |b| && -1 <= i < |a| && Bumped(a, b, i)
    ensures b == Bytes(Value(a) + 1, |a|)
  {
    if a != [] {
      var n := |a| - 1;
      if i == n {
        LastRaised(a, b);
      } else {
        assert i >= 0 ==> a[..n][..i] == a[..i] && b[..n][..i] == b[..i];
        BumpedIsNext(a[..n], b[..n], i);
        LastWrapped(a, b);
      }
    }
  }

  lemma LastRaised(a: seq<Byte>, b: seq<Byte>)
    requires |a| == |b| > 0
    requires var n := |a| - 1; b[..n] == a[..n] && b[n] as int == a[n] as int + 1
    ensures b == Bytes(Value(a) + 1, |a|)
  {
    BytesOfValue(b);
  }

  lemma LastWrapped(a: seq<Byte>, b: seq<Byte>)
    requires |a| == |b| > 0
    requires var n := |a| - 1; a[n] == 255 && b[n] == 0 && b[..n] == Bytes(Value(a[..n]) + 1, n)
    ensures b == Bytes(Value(a) + 1, |a|)
  {
    var n := |a| - 1;
    assert Value(a) + 1 == 256 * (Value(a[..n]) + 1);
    assert b == b[..n] + [0];
  }

  /** incr: the next address, in place; the all-ones address wraps to zero. */
  method Incr(ip: array<Byte>)
    modifies ip
    ensures ip[..] == Bytes(Value(old(ip[..])) + 1, ip.Length)
  {
    ghost var was := ip[..];
    var i := ip.Length - 1;
    while i >= 0
      invariant -1 <= i < ip.Length
      invariant ip[..i + 1] == was[..i + 1]
      invariant forall j :: i < j < ip.Length ==> was[j] == 255 && ip[j] == 0
    {
      ip[i] := if ip[i] == 255 then 0 else ip[i] + 1;
      if ip[i] != 0 {
        BumpedIsNext(was, ip[..], i);
        return;
      }
      i := i - 1;
    }
    BumpedIsNext(was, ip[..], -1);
  }

  function Order(x: int, y: int): int { if x < y then -1 else if x > y then 1 else 0 }

  /** bytesCompare, on the 16-octet forms: the first differing octet decides, as the order of
      the integers does; for addresses of one width, of the integers they spell themselves. */
  method CompareBytes(x: seq<Byte>, y: seq<Byte>) returns (c: int)
    requires (|x| == 4 || |x| == 16) && (|y| == 4 || |y| == 16)
    ensures c == Order(Value(To16(x)), Value(To16(y)))
    ensures |x| == |y| ==> c == Order(Value(x), Value(y))
  {
    if |x| == |y| {
      WideningKeepsOrder(x, y);
    }
    c := CompareOctets(To16(x), To16(y));
  }

  method CompareOctets(a: seq<Byte>, b: seq<Byte>) returns (c: int)
    requires |a| == |b|
    ensures c == Order(Value(a), Value(b))
  {
    for i := 0 to |a|
      invariant a[..i] == b[..i]
    {
      if a[i] < b[i] {
        FirstDifference(a, b, i);
        return -1;
      }
      if a[i] > b[i] {
        FirstDifference(b, a, i);
        return 1;
      }
    }
    assert a == a[..|a|] && b == b[..|b|];
    return 0;
  }

  lemma WideningKeepsOrder(x: seq<Byte>, y: seq<Byte>)
    requires |x| == |y| && (|x| == 4 || |x| == 16)
    ensures Value(To16(x)) - Value(To16(y)) == Value(x) - Value(y)
  {
    if |x| == 4 {
      PrefixKeepsOrder(MAPPED, x, y);
    }
  }

  lemma {:induction false} FirstDifference(a: seq<Byte>, b: seq<Byte>, i: nat)
    requires |a| == |b| && i < |a| && a[..i] == b[..i] && a[i] < b[i]
    ensures Value(a) < Value(b)
  {
    var n := |a| - 1;
    if i == n {
      assert a[..n] == b[..n];
    } else {
      assert a[..n][..i] == a[..i] && b[..n][..i] == b[..i];
      FirstDifference(a[..n], b[..n], i);
    }
  }

  /** Writing IPv4 addresses as IPv4-mapped ones keeps their integer order. */
  lemma {:induction false} PrefixKeepsOrder(p: seq<Byte>, a: seq<Byte>, b: seq<Byte>)
    requires |a| == |b|
    ensures Value(p + a) - Value(p + b) == Value(a) - Value(b)
  {
    if a == [] {
      assert p + a == p == p + b;
    } else {
      var n := |a| - 1;
      assert (p + a)[..|p + a| - 1] == p + a[..n];
      assert (p + b)[..|p + b| - 1] == p + b[..n];
      PrefixKeepsOrder(p, a[..n], b[..n]);
    }
  }
}
