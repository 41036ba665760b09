/** Packet parsing (internal/packet/parser.go) on raw bytes: the IPv6 next-header walk, the L4
    reader both address families share, and the two header parsers. */
module Packet {
  import opened Util
  import opened Decimals

  type Byte = x: int | 0 <= x < 256
  type Bytes = seq<Byte>

  const TCP: Byte := 6
  const UDP: Byte := 17
  const ICMPV4: Byte := 1
  const ICMPV6: Byte := 58
  const FRAGMENT: Byte := 44
  const IPV4_HEADER_LEN := 20
  const IPV6_HEADER_LEN := 40
  const FRAGMENT_HEADER_LEN := 8

  datatype Fragment = Fragment(isFragment: bool, more: bool, offset: nat, l4Incomplete: bool)

  datatype ExtName = HopByHop | Routing | FragmentHeader | Destination

  /** Result of following the next-header chain; `offset` is -1 when no L4 header is on the wire. */
  datatype Chain = Chain(proto: Byte, offset: int, names: seq<ExtName>, fragment: Fragment)

  /** The L4 fields a policy keys on. */
  datatype L4 = L4(srcPort: nat, dstPort: nat, flags: Flags, icmpType: Option<Byte>, icmpCode: Option<Byte>)

  datatype Report = Report(
    src: Bytes, dst: Bytes, protocol: string, l4: L4, fragment: Fragment, size: nat, names: seq<ExtName>)

  datatype Error = TooShort | UnsupportedVersion
  datatype Result<T> = Ok(value: T) | Err(error: Error)

  const NO_FRAGMENT := Fragment(false, false, 0, false)
  const NO_L4 := L4(0, 0, Flags(false, false, false, false), None, None)

  function Word(raw: Bytes, at: nat): nat
    requires at + 2 <= |raw|
  {
    raw[at] as int * 256 + raw[at + 1] as int
  }

  predicate Bit(b: Byte, weight: nat)
    requires weight > 0
  {
    b / weight % 2 == 1
  }

  function ExtensionName(proto: Byte): Option<ExtName> {
    if proto == 0 then Some(HopByHop)
    else if proto == 43 then Some(Routing)
    else if proto == FRAGMENT then Some(FragmentHeader)
    else if proto == 60 then Some(Destination)
    else None
  }

  /** Total length of an options header, from its Hdr Ext Len field. */
  function HeaderLen(extLen: Byte): nat {
    (extLen as int + 1) * 8
  }

  function FragmentAt(raw: Bytes, off: nat): Fragment
    requires off + FRAGMENT_HEADER_LEN <= |raw|
  {
    Fragment(true, Word(raw, off + 2) % 2 == 1, Word(raw, off + 2) / 8, false)
  }

  /** A point of the walk: the protocol announced for the bytes at `off`, and what was passed. */
  datatype Point = Point(proto: Byte, off: nat, names: seq<ExtName>, fragment: Fragment)

  datatype Hop = Stop(chain: Chain) | Go(next: Point)

  /** One turn of the walk. */
  function HopFrom(raw: Bytes, p: Point): (hop: Hop)
    ensures hop.Go? ==> p.off < hop.next.off && p.off < |raw|
  {
    match ExtensionName(p.proto)
    case None => Stop(Chain(p.proto, if p.off < |raw| then p.off else -1, p.names, p.fragment))
    case Some(name) =>
      var names := p.names + [name];
      if p.off >= |raw| then Stop(Chain(p.proto, -1, p.names, p.fragment))
      else if p.proto == FRAGMENT then
        if p.off + FRAGMENT_HEADER_LEN > |raw| then Stop(Chain(p.proto, -1, names, p.fragment))
        else
          var fragment := FragmentAt(raw, p.off);
          if fragment.offset > 0 then Stop(Chain(raw[p.off], -1, names, fragment))
          else Go(Point(raw[p.off], p.off + FRAGMENT_HEADER_LEN, names, fragment))
      else if p.off + 2 > |raw| then Stop(Chain(p.proto, -1, names, p.fragment))
      else Go(Point(raw[p.off], p.off + HeaderLen(raw[p.off + 1]), names, p.fragment))
  }

  function Walk(raw: Bytes, p: Point): Chain
    decreases |raw| - p.off
  {
    match HopFrom(raw, p) case Stop(chain) => chain case Go(next) => Walk(raw, next)
  }

  function HeaderChain(raw: Bytes, first: Byte): Chain {
    Walk(raw, Point(first, IPV6_HEADER_LEN, [], NO_FRAGMENT))
  }

  method WalkHeaderChain(raw: Bytes, first: Byte) returns (chain: Chain)
    ensures chain == HeaderChain(raw, first)
  {
    chain := Chain(first, -1, [], NO_FRAGMENT);
    var proto, off := first, IPV6_HEADER_LEN;
    while true
      invariant off >= 0 && chain.offset == -1
      invariant Walk(raw, Point(proto, off, chain.names, chain.fragment)) == HeaderChain(raw, first)
      decreases |raw| - off
    {
      var name := ExtensionName(proto);
      if name.None? {
        chain := chain.(proto := proto);
        if off < |raw| {
          chain := chain.(offset := off);
        }
        return;
      }
      if off >= |raw| {
        chain := chain.(proto := proto);
        return;
      }
      chain := chain.(names := chain.names + [name.value]);
      var next := raw[off];
      if proto == FRAGMENT {
        if off + FRAGMENT_HEADER_LEN > |raw| {
          chain := chain.(proto := proto);
          return;
        }
        chain := chain.(fragment := FragmentAt(raw, off));
        if chain.fragment.offset > 0 {
          chain := chain.(proto := next);
          return;
        }
        proto, off := next, off + FRAGMENT_HEADER_LEN;
        continue;
      }
      if off + 2 > |raw| {
        chain := chain.(proto := proto);
        return;
      }
      proto, off := next, off + HeaderLen(raw[off + 1]);
    }
  }

  // ----- the L4 reader

  function MinHeader(proto: Byte): nat {
    if proto == TCP then 20 else if proto == UDP then 8
    else if proto == ICMPV4 || proto == ICMPV6 then 4 else 0
  }

  function ProtocolName(proto: Byte): string {
    if proto == TCP then "TCP"
    else if proto == UDP then "UDP"
    else if proto == ICMPV4 then "ICMP"
    else if proto == ICMPV6 then "ICMPv6"
    else "IP-" + Decimal(proto)
  }

  /** `base` with the fields of a complete header at `off` read into it. */
  function Fields(base: L4, raw: Bytes, off: nat, proto: Byte): L4
    requires off + MinHeader(proto) <= |raw|
  {
    if proto == TCP then
      var f := raw[off + 13];
      base.(srcPort := Word(raw, off), dstPort := Word(raw, off + 2),
            flags := Flags(Bit(f, 2), Bit(f, 16), Bit(f, 4), Bit(f, 1)))
    else if proto == UDP then
      base.(srcPort := Word(raw, off), dstPort := Word(raw, off + 2))
    else if proto == ICMPV4 || proto == ICMPV6 then
      base.(icmpType := Some(raw[off]), icmpCode := Some(raw[off + 1]))
    else
      base
  }

  predicate Truncated(raw: Bytes, off: int, proto: Byte) {
    off >= 0 && MinHeader(proto) > 0 && off + MinHeader(proto) > |raw|
  }

  function WithL4(r: Report, raw: Bytes, off: int, proto: Byte): Report {
    var named := r.(protocol := ProtocolName(proto));
    if Truncated(raw, off, proto) then named.(fragment := r.fragment.(l4Incomplete := true))
    else if off >= 0 && MinHeader(proto) > 0 then named.(l4 := Fields(r.l4, raw, off, proto))
    else named
  }

  // ----- the parsers

  function ParseV4(raw: Bytes): Result<Report> {
    if |raw| < IPV4_HEADER_LEN then Err(TooShort)
    else
      var word := Word(raw, 6);
      var more, offset := word / 8192 % 2 == 1, word % 8192;
      var r := Report(raw[12..16], raw[16..20], ProtocolName(raw[9]), NO_L4,
                      Fragment(offset > 0 || more, more, offset, false), |raw|, []);
      if offset > 0 then Ok(r)
      else if raw[0] % 16 * 4 < IPV4_HEADER_LEN then Ok(r.(fragment := r.fragment.(l4Incomplete := true)))
      else Ok(WithL4(r, raw, raw[0] % 16 * 4, raw[9]))
  }

  function ParseV6(raw: Bytes): Result<Report> {
    if |raw| < IPV6_HEADER_LEN then Err(TooShort)
    else
      var chain := HeaderChain(raw, raw[6]);
      Ok(WithL4(Report(raw[8..24], raw[24..40], "", NO_L4, chain.fragment, |raw|, chain.names),
                raw, chain.offset, chain.proto))
  }

  function Parse(raw: Bytes): Result<Report> {
    if |raw| < 1 then Err(TooShort)
    else if raw[0] / 16 == 4 then ParseV4(raw)
    else if raw[0] / 16 == 6 then ParseV6(raw)
    else Err(UnsupportedVersion)
  }

  // ----- the parser as it runs, filling a record in place

  class PacketInfo {
    var src: Bytes
    var dst: Bytes
    var protocol: string
    var srcPort: nat
    var dstPort: nat
    var flags: Flags
    var icmpType: Option<Byte>
    var icmpCode: Option<Byte>
    var fragment: Fragment
    var size: nat
    var names: seq<ExtName>

    function View(): Report
      reads this
    {
      Report(src, dst, protocol, L4(srcPort, dstPort, flags, icmpType, icmpCode), fragment, size, names)
    }

    constructor (src: Bytes, dst: Bytes, fragment: Fragment, size: nat, names: seq<ExtName>)
      ensures View() == Report(src, dst, "", NO_L4, fragment, size, names)
    {
      this.src, this.dst, this.protocol, this.fragment, this.size, this.names := src, dst, "", fragment, size, names;
      srcPort, dstPort, flags, icmpType, icmpCode := 0, 0, NO_L4.flags, None, None;
    }
  }

  method PopulateL4FromBytes(info: PacketInfo, raw: Bytes, off: int, proto: Byte)
    modifies info
    ensures info.View() == WithL4(old(info.View()), raw, off, proto)
  {
    info.protocol := ProtocolName(proto);
    if off < 0 {
      return;
    }
    if proto == TCP {
      if off + 20 > |raw| {
        info.fragment := info.fragment.(l4Incomplete := true);
        return;
      }
      info.srcPort := Word(raw, off);
      info.dstPort := Word(raw, off + 2);
      var f := raw[off + 13];
      info.flags := Flags(Bit(f, 2), Bit(f, 16), Bit(f, 4), Bit(f, 1));
    } else if proto == UDP {
      if off + 8 > |raw| {
        info.fragment := info.fragment.(l4Incomplete := true);
        return;
      }
      info.srcPort := Word(raw, off);
      info.dstPort := Word(raw, off + 2);
    } else if proto == ICMPV4 || proto == ICMPV6 {
      if off + 4 > |raw| {
        info.fragment := info.fragment.(l4Incomplete := true);
        return;
      }
      info.icmpType := Some(raw[off]);
      info.icmpCode := Some(raw[off + 1]);
    }
  }

  method ParseIPv4Packet(raw: Bytes) returns (r: Result<PacketInfo>)
    ensures r.Ok? ==> fresh(r.value)
    ensures match r case Ok(info) => ParseV4(raw) == Ok(info.View()) case Err(e) => ParseV4(raw) == Err(e)
  {
    if |raw| < IPV4_HEADER_LEN {
      return Err(TooShort);
    }
    var word := Word(raw, 6);
    var more, offset := word / 8192 % 2 == 1, word % 8192;
    var info := new PacketInfo(raw[12..16], raw[16..20], Fragment(offset > 0 || more, more, offset, false), |raw|, []);
    if offset > 0 {
      info.protocol := ProtocolName(raw[9]);
      return Ok(info);
    }
    var l4Off := raw[0] % 16 * 4;
    if l4Off < IPV4_HEADER_LEN {
      info.protocol := ProtocolName(raw[9]);
      info.fragment := info.fragment.(l4Incomplete := true);
      return Ok(info);
    }
    PopulateL4FromBytes(info, raw, l4Off, raw[9]);
    return Ok(info);
  }

  method ParseIPv6Packet(raw: Bytes) returns (r: Result<PacketInfo>)
    ensures r.Ok? ==> fresh(r.value)
    ensures match r case Ok(info) => ParseV6(raw) == Ok(info.View()) case Err(e) => ParseV6(raw) == Err(e)
  {
    if |raw| < IPV6_HEADER_LEN {
      return Err(TooShort);
    }
    var chain := WalkHeaderChain(raw, raw[6]);
    var info := new PacketInfo(raw[8..24], raw[24..40], chain.fragment, |raw|, chain.names);
    PopulateL4FromBytes(info, raw, chain.offset, chain.proto);
    return Ok(info);
  }

  method ParsePacket(raw: Bytes) returns (r: Result<PacketInfo>)
    ensures r.Ok? ==> fresh(r.value)
    ensures match r case Ok(info) => Parse(raw) == Ok(info.View()) case Err(e) => Parse(raw) == Err(e)
  {
    if |raw| < 1 {
      return Err(TooShort);
    }
    var version := raw[0] / 16;
    if version == 4 {
      r := ParseIPv4Packet(raw);
    } else if version == 6 {
      r := ParseIPv6Packet(raw);
    } else {
      r := Err(UnsupportedVersion);
    }
  }
}
