/** Address ranges of an IP pool: validation, membership, expansion, and the
    order in which dynamic addresses are tried. */
module Pools {
  import opened Ipv4
  import opened Text

  /** What the code observes of a textual address: whether it is empty, and what net.ParseIP(..).To4() gives. */
  datatype IpText = EmptyText | Unparsable | Ip(addr: Addr)

  datatype IPRange = IPRange(addresses: seq<IpText>, rangeStart: IpText, rangeEnd: IpText) {
    predicate HasBounds() {
      rangeStart.Ip? && rangeEnd.Ip?
    }
  }

  /** A pool whose subnet text has been parsed. */
  datatype Pool = Pool(name: string, subnet: Subnet, allocations: seq<IPRange>, reservations: seq<IPRange>)

  /** ipInRanges for one range. */
  predicate InRange(ip: Addr, r: IPRange) {
    || Ip(ip) in r.addresses
    || (r.HasBounds() && r.rangeStart.addr <= ip <= r.rangeEnd.addr)
  }

  predicate InRanges(ip: Addr, ranges: seq<IPRange>) {
    exists r :: r in ranges && InRange(ip, r)
  }

  /** validateIPRanges: unlike expansion, an unparsable entry or bound is an error here. */
  predicate ValidRange(net: Subnet, r: IPRange)
    requires net.Valid()
  {
    && (forall a :: a in r.addresses ==> a.Ip? && net.Contains(a.addr))
    && ((r.rangeStart.EmptyText? && r.rangeEnd.EmptyText?)
        || (r.HasBounds() && net.Contains(r.rangeStart.addr) && net.Contains(r.rangeEnd.addr)
            && r.rangeStart.addr <= r.rangeEnd.addr))
  }

  predicate ValidRanges(net: Subnet, ranges: seq<IPRange>)
    requires net.Valid()
  {
    forall r :: r in ranges ==> ValidRange(net, r)
  }

  predicate ValidPool(pool: Pool) {
    pool.subnet.Valid() && ValidRanges(pool.subnet, pool.allocations) && ValidRanges(pool.subnet, pool.reservations)
  }

  /** The parsable single addresses, in order. */
  function Parsed(texts: seq<IpText>): seq<Addr> {
    if texts == [] then []
    else (if texts[0].Ip? then [texts[0].addr] else []) + Parsed(texts[1..])
  }

  /** lo, lo + 1, ..., hi. */
  function Interval(lo: Addr, hi: Addr): (s: seq<Addr>)
    ensures |s| == if lo <= hi then hi - lo + 1 else 0
    ensures forall i :: 0 <= i < |s| ==> s[i] == lo + i
  {
    if lo > hi then [] else seq(hi - lo + 1, i requires 0 <= i <= hi - lo => (lo + i) as Addr)
  }

  function Expanded(r: IPRange): seq<Addr> {
    Parsed(r.addresses) + (if r.HasBounds() then Interval(r.rangeStart.addr, r.rangeEnd.addr) else [])
  }

  lemma {:induction false} ParsedAppend(texts: seq<IpText>, t: IpText)
    ensures Parsed(texts + [t]) == Parsed(texts) + (if t.Ip? then [t.addr] else [])
  {
    if texts == [] {
      assert (texts + [t])[1..] == [];
    } else {
      var head := if texts[0].Ip? then [texts[0].addr] else [];
      var last := if t.Ip? then [t.addr] else [];
      ParsedAppend(texts[1..], t);
      assert (texts + [t])[1..] == texts[1..] + [t];
      assert Parsed(texts + [t]) == head + (Parsed(texts[1..]) + last);
    }
  }

  /** expandIPRange. The counter is a 32-bit word: its increment wraps, and the explicit break
      at the largest word is what keeps the loop from running past it. */
  method ExpandIPRange(r: IPRange) returns (ips: seq<Addr>)
    ensures ips == Expanded(r)
  {
    ips := [];
    for i := 0 to |r.addresses|
      invariant ips == Parsed(r.addresses[..i])
    {
      assert r.addresses[..i + 1] == r.addresses[..i] + [r.addresses[i]];
      ParsedAppend(r.addresses[..i], r.addresses[i]);
      if r.addresses[i].Ip? {
        ips := ips + [r.addresses[i].addr];
      }
    }
    assert r.addresses[..|r.addresses|] == r.addresses;
    if r.rangeStart.EmptyText? || r.rangeEnd.EmptyText? {
      return;
    }
    if !r.rangeStart.Ip? || !r.rangeEnd.Ip? {
      return;
    }
    var start, last := r.rangeStart.addr, r.rangeEnd.addr;
    var current := start;
    ghost var fixed := ips;
    ghost var n := 0;
    while current <= last
      invariant 0 <= n <= |Interval(start, last)|
      invariant n == |Interval(start, last)| || current == start + n
      invariant n == |Interval(start, last)| ==> current > last
      invariant ips == fixed + Interval(start, last)[..n]
      decreases |Interval(start, last)| - n
    {
      ips := ips + [current];
      n := n + 1;
      if current == MAX_ADDRESS {
        break;
      }
      current := (current + 1) % ADDRESS_SPACE;
    }
    assert n == |Interval(start, last)|;
  }

  lemma {:induction false} ParsedMembers(texts: seq<IpText>, ip: Addr)
    ensures ip in Parsed(texts) <==> Ip(ip) in texts
  {
    if texts != [] {
      ParsedMembers(texts[1..], ip);
      assert texts == [texts[0]] + texts[1..];
    }
  }

  /** Expansion and the membership test agree on every range, however malformed or reversed. */
  lemma ExpandedMembers(r: IPRange, ip: Addr)
    ensures ip in Expanded(r) <==> InRanges(ip, [r])
  {
    ParsedMembers(r.addresses, ip);
    assert r in [r];
    if r.HasBounds() {
      var s := Interval(r.rangeStart.addr, r.rangeEnd.addr);
      if r.rangeStart.addr <= ip <= r.rangeEnd.addr {
        assert s[ip - r.rangeStart.addr] == ip;
      }
    }
  }

  /** The bounds part of an expansion ascends without gaps from start to end. */
  lemma ExpandedBoundsAscending(r: IPRange, i: nat)
    requires r.HasBounds() && |Parsed(r.addresses)| <= i < |Expanded(r)|
    ensures r.rangeStart.addr <= r.rangeEnd.addr
    ensures Expanded(r)[i] == r.rangeStart.addr + (i - |Parsed(r.addresses)|)
    ensures Expanded(r)[|Expanded(r)| - 1] == r.rangeEnd.addr
  {
  }

  /** Every address a validated range expands to lies in the subnet: the endpoints are checked, the rest follows. */
  lemma ValidRangeInSubnet(net: Subnet, r: IPRange, ip: Addr)
    requires net.Valid() && ValidRange(net, r) && InRange(ip, r)
    ensures net.Contains(ip)
  {
    if Ip(ip) !in r.addresses {
      SubnetConvex(net, r.rangeStart.addr, ip, r.rangeEnd.addr);
    }
  }

  /** Every address is one, and there are no bounds or two in order. */
  predicate WellWritten(r: IPRange) {
    && (forall a :: a in r.addresses ==> a.Ip?)
    && ((r.rangeStart.EmptyText? && r.rangeEnd.EmptyText?) || (r.HasBounds() && r.rangeStart.addr <= r.rangeEnd.addr))
  }

  /** A range is refused exactly when it is not well written or some address of it is outside the subnet. */
  lemma ValidRangeExactly(net: Subnet, r: IPRange)
    requires net.Valid()
    ensures ValidRange(net, r) <==> WellWritten(r) && forall ip :: InRange(ip, r) ==> net.Contains(ip)
  {
    if ValidRange(net, r) {
      forall ip | InRange(ip, r)
        ensures net.Contains(ip)
      {
        ValidRangeInSubnet(net, r, ip);
      }
    }
    if WellWritten(r) && forall ip :: InRange(ip, r) ==> net.Contains(ip) {
      forall a | a in r.addresses
        ensures net.Contains(a.addr)
      {
        assert InRange(a.addr, r);
      }
      assert r.HasBounds() ==> InRange(r.rangeStart.addr, r) && InRange(r.rangeEnd.addr, r);
    }
  }

  function Unreserved(ips: seq<Addr>, reservations: seq<IPRange>): seq<Addr> {
    if ips == [] then []
    else (if InRanges(ips[0], reservations) then [] else [ips[0]]) + Unreserved(ips[1..], reservations)
  }

  /** The addresses the inner loop of reserveDynamicAddress tries while all are taken:
      the unreserved ones, up to and including the first 255.255.255.255. */
  function Tried(ips: seq<Addr>, reservations: seq<IPRange>): seq<Addr> {
    if ips == [] then []
    else if InRanges(ips[0], reservations) then Tried(ips[1..], reservations)
    else if ips[0] == MAX_ADDRESS then [ips[0]]
    else [ips[0]] + Tried(ips[1..], reservations)
  }

  function TriedInRanges(ranges: seq<IPRange>, reservations: seq<IPRange>): seq<Addr> {
    if ranges == [] then []
    else Tried(Expanded(ranges[0]), reservations) + TriedInRanges(ranges[1..], reservations)
  }

  function EligibleInRanges(ranges: seq<IPRange>, reservations: seq<IPRange>): seq<Addr> {
    if ranges == [] then []
    else Unreserved(Expanded(ranges[0]), reservations) + EligibleInRanges(ranges[1..], reservations)
  }

  /** The addresses dynamic allocation will try, in order. */
  function Candidates(pool: Pool): seq<Addr> {
    TriedInRanges(pool.allocations, pool.reservations)
  }

  /** The addresses a pool offers for dynamic allocation, in the order of its allocations. */
  function Eligible(pool: Pool): seq<Addr> {
    EligibleInRanges(pool.allocations, pool.reservations)
  }

  lemma {:induction false} UnreservedMembers(ips: seq<Addr>, reservations: seq<IPRange>, ip: Addr)
    ensures ip in Unreserved(ips, reservations) <==> ip in ips && !InRanges(ip, reservations)
  {
    if ips != [] {
      UnreservedMembers(ips[1..], reservations, ip);
      assert ips == [ips[0]] + ips[1..];
    }
  }

  lemma {:induction false} EligibleInRangesMembers(ranges: seq<IPRange>, reservations: seq<IPRange>, ip: Addr)
    ensures ip in EligibleInRanges(ranges, reservations) <==> InRanges(ip, ranges) && !InRanges(ip, reservations)
  {
    if ranges != [] {
      var r := ranges[0];
      UnreservedMembers(Expanded(r), reservations, ip);
      ExpandedMembers(r, ip);
      EligibleInRangesMembers(ranges[1..], reservations, ip);
      assert ranges == [r] + ranges[1..];
    }
  }

  /** What Eligible means: inside some allocation range and in no reservation. */
  lemma EligibleMembers(pool: Pool, ip: Addr)
    ensures ip in Eligible(pool) <==> InRanges(ip, pool.allocations) && !InRanges(ip, pool.reservations)
  {
    EligibleInRangesMembers(pool.allocations, pool.reservations, ip);
  }

  /** The largest address is reserved, absent, or the last unreserved one listed. */
  predicate MaxOnlyLast(ips: seq<Addr>, reservations: seq<IPRange>) {
    var s := Unreserved(ips, reservations);
    forall i :: 0 <= i < |s| - 1 ==> s[i] != MAX_ADDRESS
  }

  lemma {:induction false} TriedIsPrefix(ips: seq<Addr>, reservations: seq<IPRange>)
    ensures Tried(ips, reservations) <= Unreserved(ips, reservations)
    ensures Tried(ips, reservations) == Unreserved(ips, reservations) <==> MaxOnlyLast(ips, reservations)
  {
    if ips != [] {
      TriedIsPrefix(ips[1..], reservations);
      var s, t := Unreserved(ips, reservations), Unreserved(ips[1..], reservations);
      if !InRanges(ips[0], reservations) {
        assert s == [ips[0]] + t;
        assert forall i :: 0 <= i < |t| ==> t[i] == s[i + 1];
        if ips[0] == MAX_ADDRESS {
          assert s[0] == MAX_ADDRESS;
        } else {
          assert MaxOnlyLast(ips, reservations) ==> MaxOnlyLast(ips[1..], reservations);
          assert Tried(ips, reservations) == [ips[0]] + Tried(ips[1..], reservations);
          assert Tried(ips, reservations)[1..] == Tried(ips[1..], reservations) && s[1..] == t;
        }
      } else {
        assert s == t;
      }
    }
  }

  lemma {:induction false} TriedInRangesExact(ranges: seq<IPRange>, reservations: seq<IPRange>)
    ensures |TriedInRanges(ranges, reservations)| <= |EligibleInRanges(ranges, reservations)|
    ensures |TriedInRanges(ranges, reservations)| == |EligibleInRanges(ranges, reservations)|
            <==> (forall r :: r in ranges ==> MaxOnlyLast(Expanded(r), reservations))
    ensures (forall r :: r in ranges ==> MaxOnlyLast(Expanded(r), reservations))
            ==> TriedInRanges(ranges, reservations) == EligibleInRanges(ranges, reservations)
    ensures forall ip :: ip in TriedInRanges(ranges, reservations) ==> ip in EligibleInRanges(ranges, reservations)
  {
    if ranges != [] {
      var ips := Expanded(ranges[0]);
      TriedIsPrefix(ips, reservations);
      TriedInRangesExact(ranges[1..], reservations);
      assert ranges == [ranges[0]] + ranges[1..];
      assert |Tried(ips, reservations)| == |Unreserved(ips, reservations)|
             ==> Tried(ips, reservations) == Unreserved(ips, reservations);
    }
  }

  /** Every pool address that is offered is also tried, exactly when 255.255.255.255 ends
      whatever range offers it; otherwise the addresses listed after it are passed over. */
  lemma CandidatesComplete(pool: Pool)
    ensures Candidates(pool) == Eligible(pool)
            <==> (forall r :: r in pool.allocations ==> MaxOnlyLast(Expanded(r), pool.reservations))
    ensures forall ip :: ip in Candidates(pool) ==> ip in Eligible(pool)
  {
    TriedInRangesExact(pool.allocations, pool.reservations);
  }

  /** A pool on which the early break hides an address that is offered. */
  lemma BreakHidesAddress()
    ensures var pool := Pool("p", V4(MAX_ADDRESS, 31), [IPRange([Ip(MAX_ADDRESS), Ip(MAX_ADDRESS - 1)], EmptyText, EmptyText)], []);
            ValidPool(pool) && MAX_ADDRESS - 1 in Eligible(pool) && MAX_ADDRESS - 1 !in Candidates(pool)
  {
    var r := IPRange([Ip(MAX_ADDRESS), Ip(MAX_ADDRESS - 1)], EmptyText, EmptyText);
    var pool := Pool("p", V4(MAX_ADDRESS, 31), [r], []);
    assert Pow2(1) == 2;
    assert r.addresses[1..] == [Ip(MAX_ADDRESS - 1)];
    assert Expanded(r)[0] == MAX_ADDRESS;
    assert Tried(Expanded(r), []) == [MAX_ADDRESS];
    assert Candidates(pool) == [MAX_ADDRESS] + TriedInRanges(pool.allocations[1..], []);
    assert r in pool.allocations && r.addresses[1] == Ip(MAX_ADDRESS - 1);
    EligibleMembers(pool, MAX_ADDRESS - 1);
  }

  /** Dynamic candidates of a valid pool are inside its subnet, inside an allocation range and unreserved. */
  lemma CandidateAdmissible(pool: Pool, ip: Addr)
    requires ValidPool(pool) && ip in Candidates(pool)
    ensures pool.subnet.Contains(ip) && InRanges(ip, pool.allocations) && !InRanges(ip, pool.reservations)
  {
    CandidatesComplete(pool);
    EligibleMembers(pool, ip);
    var r :| r in pool.allocations && InRange(ip, r);
    ValidRangeInSubnet(pool.subnet, r, ip);
  }

  /** What the code observes of a requested address: what net.ParseCIDR gives. */
  datatype RequestedText = NoAddress | BadCidr | NotIpv4 | Ipv4Cidr(ip: Addr, ones: nat)

  /** normalizeRequestedAddress followed by the reservation check of a static request. */
  function StaticAddress(pool: Pool, requested: RequestedText): Option<Addr>
    requires pool.subnet.Valid()
  {
    if !requested.Ipv4Cidr? then None
    else if !pool.subnet.Contains(requested.ip) then None
    else if pool.subnet.ones != requested.ones then None
    else if !InRanges(requested.ip, pool.reservations) then None
    else Some(requested.ip)
  }

  /** Every reserved address of a valid pool can be had by asking for the very text that is then stored, and no
      other text gets it. What can be had so is never handed out dynamically: of the addresses in the allocation
      ranges, each is offered in exactly one of the two ways. */
  lemma StaticOrDynamic(pool: Pool, ip: Addr, requested: RequestedText)
    requires ValidPool(pool)
    ensures var text := CidrText(ip, pool.subnet.ones);
            && (StaticAddress(pool, Ipv4Cidr(ip, pool.subnet.ones)) == Some(ip) <==> InRanges(ip, pool.reservations))
            && (StaticAddress(pool, requested) == Some(ip) ==> requested.Ipv4Cidr? && CidrText(requested.ip, requested.ones) == text)
            && (requested.Ipv4Cidr? && CidrText(requested.ip, requested.ones) == text && InRanges(ip, pool.reservations) ==>
                  StaticAddress(pool, requested) == Some(ip))
    ensures StaticAddress(pool, requested) == Some(ip) ==> ip !in Candidates(pool)
    ensures InRanges(ip, pool.allocations) ==>
              (ip in Eligible(pool) <==> StaticAddress(pool, Ipv4Cidr(ip, pool.subnet.ones)).None?)
  {
    EligibleMembers(pool, ip);
    CandidatesComplete(pool);
    if InRanges(ip, pool.reservations) {
      var r :| r in pool.reservations && InRange(ip, r);
      ValidRangeInSubnet(pool.subnet, r, ip);
    }
    if requested.Ipv4Cidr? && CidrText(requested.ip, requested.ones) == CidrText(ip, pool.subnet.ones) {
      CidrTextInjective(requested.ip, requested.ones, ip, pool.subnet.ones);
    }
  }
}
