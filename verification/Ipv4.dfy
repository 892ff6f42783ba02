/** 32-bit IPv4 addresses, their canonical CIDR text, and CIDR containment
    (section 3.1 of RFC 4632). */
module Ipv4 {
  import opened Text

  const ADDRESS_SPACE := 0x1_0000_0000
  const MAX_ADDRESS: Addr := 0xFFFF_FFFF

  type Addr = x: int | 0 <= x < ADDRESS_SPACE
  type Octet = x: int | 0 <= x < 256

  /** The big-endian bytes of a net.IP in its four-byte form. */
  datatype Bytes = Bytes(b0: Octet, b1: Octet, b2: Octet, b3: Octet)

  function ToUint32(ip: Bytes): Addr {
    ip.b0 * 0x100_0000 + ip.b1 * 0x1_0000 + ip.b2 * 0x100 + ip.b3
  }

  function FromUint32(value: Addr): Bytes {
    Bytes(value / 0x100_0000, value / 0x1_0000 % 0x100, value / 0x100 % 0x100, value % 0x100)
  }

  /** The two conversions are inverse to each other, in both directions. */
  lemma Uint32RoundTrip(value: Addr, ip: Bytes)
    ensures ToUint32(FromUint32(value)) == value
    ensures FromUint32(ToUint32(ip)) == ip
  {
    var v := ToUint32(ip);
    assert v / 0x100 == ip.b0 * 0x1_0000 + ip.b1 * 0x100 + ip.b2;
    assert v / 0x1_0000 == ip.b0 * 0x100 + ip.b1;
    assert v / 0x100_0000 == ip.b0;
    assert value / 0x1_0000 == value / 0x100_0000 * 0x100 + value / 0x1_0000 % 0x100;
    assert value / 0x100 == value / 0x1_0000 * 0x100 + value / 0x100 % 0x100;
  }

  /** net.IP.String() for an IPv4 address. */
  function Dotted(ip: Bytes): string {
    Itoa(ip.b0) + ['.'] + (Itoa(ip.b1) + ['.'] + (Itoa(ip.b2) + ['.'] + Itoa(ip.b3)))
  }

  /** The text an allocation stores: the address and the prefix length of the pool's subnet. */
  function CidrText(value: Addr, ones: nat): (s: string)
    ensures s != [] && IsDigit(s[0])
  {
    Dotted(FromUint32(value)) + ['/'] + Itoa(ones)
  }

  lemma DottedInjective(p: Bytes, q: Bytes)
    requires Dotted(p) == Dotted(q)
    ensures p == q
  {
    CutAtSeparator(Itoa(p.b0), Itoa(p.b1) + ['.'] + (Itoa(p.b2) + ['.'] + Itoa(p.b3)),
                   Itoa(q.b0), Itoa(q.b1) + ['.'] + (Itoa(q.b2) + ['.'] + Itoa(q.b3)), '.');
    CutAtSeparator(Itoa(p.b1), Itoa(p.b2) + ['.'] + Itoa(p.b3), Itoa(q.b1), Itoa(q.b2) + ['.'] + Itoa(q.b3), '.');
    CutAtSeparator(Itoa(p.b2), Itoa(p.b3), Itoa(q.b2), Itoa(q.b3), '.');
    ItoaInjective(p.b0, q.b0);
    ItoaInjective(p.b1, q.b1);
    ItoaInjective(p.b2, q.b2);
    ItoaInjective(p.b3, q.b3);
  }

  /** Canonical text: different addresses or prefix lengths never print alike. */
  lemma CidrTextInjective(x: Addr, m: nat, y: Addr, n: nat)
    requires CidrText(x, m) == CidrText(y, n)
    ensures x == y && m == n
  {
    CutAtSeparator(Dotted(FromUint32(x)), Itoa(m), Dotted(FromUint32(y)), Itoa(n), '/');
    ItoaInjective(m, n);
    DottedInjective(FromUint32(x), FromUint32(y));
    Uint32RoundTrip(x, FromUint32(x));
    Uint32RoundTrip(y, FromUint32(y));
  }

  // ---------------------------------------------------------------- reading the text

  /** Reads dotted decimal from left to right: each octet in base ten, the octets in base 256. */
  function ReadDotted(s: string, done: nat, octet: nat): nat {
    if s == [] then done * 256 + octet
    else if s[0] == '.' then ReadDotted(s[1..], done * 256 + octet, 0)
    else if IsDigit(s[0]) then ReadDotted(s[1..], done, octet * 10 + (s[0] - '0') as nat)
    else ReadDotted(s[1..], done, octet)
  }

  function UpTo(s: string, c: char): string {
    if s == [] || s[0] == c then [] else [s[0]] + UpTo(s[1..], c)
  }

  function Beyond(s: string, c: char): string {
    if s == [] then [] else if s[0] == c then s[1..] else Beyond(s[1..], c)
  }

  lemma {:induction false} ReadNumeral(n: nat, rest: string, done: nat)
    ensures ReadDotted(Itoa(n) + rest, done, 0) == ReadDotted(rest, done, n)
  {
    var last := ['0' + (n % 10) as char];
    if n >= 10 {
      ReadNumeral(n / 10, last + rest, done);
      assert Itoa(n) + rest == Itoa(n / 10) + (last + rest);
      assert (last + rest)[1..] == rest;
    } else {
      assert (Itoa(n) + rest)[1..] == rest;
    }
  }

  lemma ReadOctet(n: nat, rest: string, done: nat)
    ensures ReadDotted(Itoa(n) + ['.'] + rest, done, 0) == ReadDotted(rest, done * 256 + n, 0)
  {
    assert Itoa(n) + ['.'] + rest == Itoa(n) + (['.'] + rest);
    ReadNumeral(n, ['.'] + rest, done);
    assert (['.'] + rest)[1..] == rest;
  }

  lemma DottedReads(ip: Bytes)
    ensures ReadDotted(Dotted(ip), 0, 0) == ((ip.b0 * 256 + ip.b1) * 256 + ip.b2) * 256 + ip.b3
  {
    var t3 := Itoa(ip.b3);
    var t2 := Itoa(ip.b2) + ['.'] + t3;
    var t1 := Itoa(ip.b1) + ['.'] + t2;
    ReadOctet(ip.b0, t1, 0);
    ReadOctet(ip.b1, t2, ip.b0);
    ReadOctet(ip.b2, t3, ip.b0 * 256 + ip.b1);
    ReadNumeral(ip.b3, [], (ip.b0 * 256 + ip.b1) * 256 + ip.b2);
    assert t3 + [] == t3;
  }

  lemma {:induction false} CutFirst(a: string, b: string, c: char)
    requires c !in a
    ensures UpTo(a + [c] + b, c) == a && Beyond(a + [c] + b, c) == b
  {
    if a == [] {
      assert a + [c] + b == [c] + b && ([c] + b)[1..] == b;
    } else {
      assert (a + [c] + b)[1..] == a[1..] + [c] + b;
      CutFirst(a[1..], b, c);
    }
  }

  /** The stored text, read as dotted decimal up to the slash and as a numeral after it, is the address and the prefix length. */
  lemma CidrTextReads(value: Addr, ones: nat)
    ensures var text := CidrText(value, ones);
            ReadDotted(UpTo(text, '/'), 0, 0) == value && Atoi(Beyond(text, '/')) == Some(ones)
  {
    var ip := FromUint32(value);
    CutFirst(Dotted(ip), Itoa(ones), '/');
    DottedReads(ip);
    Uint32RoundTrip(value, ip);
    AtoiItoa(ones);
  }

  // ---------------------------------------------------------------- subnets

  function Pow2(k: nat): (p: nat)
    ensures p > 0
  {
    if k == 0 then 1 else 2 * Pow2(k - 1)
  }

  /** A parsed subnet. An IPv6 subnet contains no IPv4 address. */
  datatype Subnet = V4(base: Addr, ones: nat) | V6(ones: nat) {
    predicate Valid() {
      V4? ==> ones <= 32
    }

    /** The leading `ones` bits of the two addresses agree. */
    predicate Contains(ip: Addr)
      requires Valid()
    {
      V4? && ip / Pow2(32 - ones) == base / Pow2(32 - ones)
    }
  }

  lemma MulMonotone(p: int, q: int, d: nat)
    requires p <= q
    ensures p * d <= q * d
  {
  }

  lemma DivMonotone(x: nat, y: nat, d: nat)
    requires x <= y && d > 0
    ensures x / d <= y / d
  {
    if y / d + 1 <= x / d {
      MulMonotone(y / d + 1, x / d, d);
    }
  }

  /** CIDR blocks are convex: whatever lies between two members is a member. */
  lemma SubnetConvex(net: Subnet, lo: Addr, ip: Addr, hi: Addr)
    requires net.Valid() && net.Contains(lo) && net.Contains(hi)
    requires lo <= ip <= hi
    ensures net.Contains(ip)
  {
    DivMonotone(lo, ip, Pow2(32 - net.ones));
    DivMonotone(ip, hi, Pow2(32 - net.ones));
  }

  // ---------------------------------------------------------------- what containment means

  /** Bit `k` of an address, the lowest being bit 0. */
  function Bit(x: Addr, k: nat): int {
    x / Pow2(k) % 2
  }

  lemma HalfOfQuotient(x: nat, d: nat)
    requires d > 0
    ensures x / d / 2 == x / (2 * d)
  {
    var q, r := x / (2 * d), x % (2 * d);
    assert x == 2 * d * q + r && 0 <= r < 2 * d;
    if r < d {
      QuotientIs(x, d, 2 * q, r);
    } else {
      QuotientIs(x, d, 2 * q + 1, r - d);
    }
  }

  lemma QuotientIs(x: nat, d: nat, q: int, r: int)
    requires d > 0 && x == d * q + r && 0 <= r < d
    ensures x / d == q
  {
    var p, t := x / d, x % d;
    assert d * (p - q) == r - t;
    if p > q {
      MulMonotone(1, p - q, d);
    } else if p < q {
      MulMonotone(1, q - p, d);
    }
  }

  lemma Pow2Of32()
    ensures Pow2(32) == ADDRESS_SPACE
  {
    assert Pow2(8) == 0x100;
    assert Pow2(16) == 0x1_0000;
    assert Pow2(24) == 0x100_0000;
    assert Pow2(32) == ADDRESS_SPACE;
  }

  lemma {:induction false} LeadingBits(x: Addr, y: Addr, m: nat)
    requires m <= 32
    ensures x / Pow2(m) == y / Pow2(m) <==> forall k :: m <= k < 32 ==> Bit(x, k) == Bit(y, k)
    decreases 32 - m
  {
    if m == 32 {
      Pow2Of32();
      QuotientIs(x, Pow2(32), 0, x);
      QuotientIs(y, Pow2(32), 0, y);
    } else {
      LeadingBits(x, y, m + 1);
      HalfOfQuotient(x, Pow2(m));
      HalfOfQuotient(y, Pow2(m));
      assert Pow2(m + 1) == 2 * Pow2(m);
      assert x / Pow2(m) == y / Pow2(m) <==> x / Pow2(m + 1) == y / Pow2(m + 1) && Bit(x, m) == Bit(y, m);
    }
  }

  /** A subnet contains exactly the addresses whose leading bits are those of its base: as many as its prefix is long. */
  lemma ContainsLeadingBits(net: Subnet, ip: Addr)
    requires net.Valid() && net.V4?
    ensures net.Contains(ip) <==> forall k :: 32 - net.ones <= k < 32 ==> Bit(ip, k) == Bit(net.base, k)
  {
    LeadingBits(ip, net.base, 32 - net.ones);
  }

  /** They are that many consecutive addresses, from a multiple of their number. */
  lemma ContainsBlock(net: Subnet, ip: Addr)
    requires net.Valid() && net.V4?
    ensures var size := Pow2(32 - net.ones);
            var first := net.base - net.base % size;
            first % size == 0 && (net.Contains(ip) <==> first <= ip < first + size)
  {
    SameQuotient(ip, net.base, Pow2(32 - net.ones));
  }

  lemma SameQuotient(x: nat, y: nat, d: nat)
    requires d > 0
    ensures (y - y % d) % d == 0
    ensures x / d == y / d <==> y - y % d <= x < y - y % d + d
  {
    var q := y / d;
    assert y - y % d == d * q;
    MultipleLeavesNothing(d, q);
    if d * q <= x < d * q + d {
      QuotientIs(x, d, q, x - d * q);
    }
  }

  lemma MultipleLeavesNothing(d: nat, q: nat)
    requires d > 0
    ensures (d * q) % d == 0
  {
    QuotientIs(d * q, d, q, 0);
    assert d * q == d * (d * q / d) + (d * q) % d;
  }
}
