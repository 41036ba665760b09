/** Round trips through the headers a packet is made of: an IPv4 header (section 3.1 of RFC 791), and
    the TCP, UDP and ICMP headers behind it (section 3.1 of RFC 9293, RFC 768, RFC 792). */
module HeaderTheorems {
  import opened Util
  import opened Decimals
  import opened Packet
  import opened PacketTheorems

  // ----- L4 headers as a sender writes them

  /** Fields the policy does not look at are kept as plain bytes and bits. */
  datatype Segment =
    | TcpSegment(
        src: nat, dst: nat, numbers: Bytes, cwr: bool, ece: bool, urg: bool, psh: bool, flags: Flags, tail: Bytes)
    | UdpDatagram(src: nat, dst: nat, tail: Bytes)
    | IcmpMessage(kind: Byte, code: Byte, tail: Bytes, v6: bool)

  predicate Writable(s: Segment) {
    match s
    case TcpSegment(src, dst, numbers, _, _, _, _, _, tail) => src < 65536 && dst < 65536 && |numbers| == 9 && |tail| >= 6
    case UdpDatagram(src, dst, tail) => src < 65536 && dst < 65536 && |tail| >= 4
    case IcmpMessage(_, _, tail, _) => |tail| >= 2
  }

  function Protocol(s: Segment): Byte {
    match s case TcpSegment(_, _, _, _, _, _, _, _, _) => TCP case UdpDatagram(_, _, _) => UDP
    case IcmpMessage(_, _, _, v6) => if v6 then ICMPV6 else ICMPV4
  }

  function Weight(bit: bool, w: nat): nat {
    if bit then w else 0
  }

  function Port(p: nat): Bytes
    requires p < 65536
  {
    [p / 256, p % 256]
  }

  /** A bit string extended by its next bit. */
  function Push(x: nat, bit: bool): nat {
    2 * x + if bit then 1 else 0
  }

  /** The reserved and congestion bits, and URG: the part above ACK. */
  function Upper(s: Segment): nat
    requires s.TcpSegment?
  {
    Push(Push(Push(0, s.cwr), s.ece), s.urg)
  }

  function Control(s: Segment): Byte
    requires s.TcpSegment?
  {
    Push(Push(Push(Push(Push(Upper(s), s.flags.ack), s.psh), s.flags.rst), s.flags.syn), s.flags.fin)
  }

  function Written(s: Segment): Bytes
    requires Writable(s)
  {
    match s
    case TcpSegment(src, dst, numbers, _, _, _, _, _, tail) => Port(src) + Port(dst) + numbers + [Control(s)] + tail
    case UdpDatagram(src, dst, tail) => Port(src) + Port(dst) + tail
    case IcmpMessage(kind, code, tail, _) => [kind, code] + tail
  }

  /** What the policy is to see of it. */
  function Visible(s: Segment): L4 {
    match s
    case TcpSegment(src, dst, _, _, _, _, _, flags, _) => NO_L4.(srcPort := src, dstPort := dst, flags := flags)
    case UdpDatagram(src, dst, _) => NO_L4.(srcPort := src, dstPort := dst)
    case IcmpMessage(kind, code, _, _) => NO_L4.(icmpType := Some(kind), icmpCode := Some(code))
  }

  function NameOfKind(s: Segment): string {
    match s case TcpSegment(_, _, _, _, _, _, _, _, _) => "TCP" case UdpDatagram(_, _, _) => "UDP"
    case IcmpMessage(_, _, _, v6) => if v6 then "ICMPv6" else "ICMP"
  }

  /** The length of the header without options, of which no part may be missing. */
  function FixedLength(s: Segment): nat {
    match s case TcpSegment(_, _, _, _, _, _, _, _, _) => 20 case UdpDatagram(_, _, _) => 8 case IcmpMessage(_, _, _, _) => 4
  }

  lemma Popped(x: nat, bit: bool)
    ensures Push(x, bit) / 2 == x && (Push(x, bit) % 2 == 1 <==> bit)
  {
  }

  lemma Shifted(c: nat)
    ensures c / 4 == c / 2 / 2 && c / 16 == c / 2 / 2 / 2 / 2
  {
  }

  lemma ControlBits(s: Segment)
    requires s.TcpSegment?
    ensures var c := Control(s);
            Flags(Bit(c, 2), Bit(c, 16), Bit(c, 4), Bit(c, 1)) == s.flags
  {
    var a := Push(Upper(s), s.flags.ack);
    var b := Push(a, s.psh);
    var d := Push(b, s.flags.rst);
    var e := Push(d, s.flags.syn);
    var c := Push(e, s.flags.fin);
    Popped(Upper(s), s.flags.ack);
    Popped(a, s.psh);
    Popped(b, s.flags.rst);
    Popped(d, s.flags.syn);
    Popped(e, s.flags.fin);
    Shifted(c);
  }

  /** Reading a written header yields its ports, flags, type and code. */
  lemma SegmentRoundTrip(s: Segment)
    requires Writable(s)
    ensures MinHeader(Protocol(s)) <= |Written(s)|
    ensures Fields(NO_L4, Written(s), 0, Protocol(s)) == Visible(s)
  {
    var w := Written(s);
    match s
    case TcpSegment(src, dst, numbers, _, _, _, _, _, tail) =>
      assert w[0] == src / 256 && w[1] == src % 256 && w[2] == dst / 256 && w[3] == dst % 256;
      assert w[13] == Control(s);
      ControlBits(s);
    case UdpDatagram(src, dst, tail) =>
      assert w[0] == src / 256 && w[1] == src % 256 && w[2] == dst / 256 && w[3] == dst % 256;
    case IcmpMessage(kind, code, tail, _) =>
  }

  // ----- IPv4

  /** `before` holds bytes 1 to 5: type of service, total length and identification. */
  datatype V4 = V4(
    before: Bytes, reserved: bool, df: bool, mf: bool, offset: nat, ttl: Byte, proto: Byte, checksum: Bytes,
    src: Bytes, dst: Bytes, options: Bytes)

  predicate Valid(h: V4) {
    && |h.before| == 5 && h.offset < 8192 && |h.checksum| == 2 && |h.src| == 4 && |h.dst| == 4
    && |h.options| % 4 == 0 && |h.options| <= 40
  }

  function FragmentByte(h: V4): Byte
    requires Valid(h)
  {
    Weight(h.reserved, 128) + Weight(h.df, 64) + Weight(h.mf, 32) + h.offset / 256
  }

  function EncodeV4(h: V4): Bytes
    requires Valid(h)
  {
    [64 + 5 + |h.options| / 4] + h.before
    + [FragmentByte(h), h.offset % 256]
    + [h.ttl, h.proto] + h.checksum + h.src + h.dst + h.options
  }

  lemma FragmentWord(h: V4)
    requires Valid(h)
    ensures var word := FragmentByte(h) as int * 256 + h.offset % 256;
            (word / 8192 % 2 == 1 <==> h.mf) && word % 8192 == h.offset
  {
    var top := Weight(h.reserved, 4) + Weight(h.df, 2) + Weight(h.mf, 1);
    assert FragmentByte(h) as int * 256 + h.offset % 256 == top * 8192 + h.offset;
  }

  lemma EncodedV4Bytes(h: V4, payload: Bytes)
    requires Valid(h)
    ensures var raw := EncodeV4(h) + payload;
            && |raw| == 20 + |h.options| + |payload|
            && raw[0] == 69 + |h.options| / 4 && raw[9] == h.proto
            && raw[6] == FragmentByte(h)
            && raw[7] == h.offset % 256
            && raw[12..16] == h.src && raw[16..20] == h.dst
            && |EncodeV4(h)| == 20 + |h.options|
  {
  }

  /** Parsing an IPv4 packet reads back its addresses, protocol and fragment state. A first or whole
      fragment shows the L4 fields of its payload, whatever options precede it, and is marked when
      they do not fit; a later fragment shows none. */
  lemma V4RoundTrip(h: V4, payload: Bytes)
    requires Valid(h)
    ensures var r := Parse(EncodeV4(h) + payload);
            && r.Ok?
            && r.value.src == h.src && r.value.dst == h.dst && r.value.protocol == ProtocolName(h.proto)
            && r.value.size == 20 + |h.options| + |payload| && r.value.names == []
            && r.value.fragment ==
               Fragment(h.offset > 0 || h.mf, h.mf, h.offset, h.offset == 0 && Truncated(payload, 0, h.proto))
            && r.value.l4 ==
               if h.offset == 0 && MinHeader(h.proto) <= |payload| then Fields(NO_L4, payload, 0, h.proto) else NO_L4
  {
    var head := EncodeV4(h);
    var raw := head + payload;
    EncodedV4Bytes(h, payload);
    FragmentWord(h);
    assert Word(raw, 6) == raw[6] as int * 256 + raw[7] as int;
    assert raw[0] % 16 * 4 == |head|;
    if MinHeader(h.proto) <= |payload| {
      FieldsMove(NO_L4, head, [], payload, h.proto);
      assert [] + payload == payload;
    }
  }

  // ----- IPv6

  predicate FixedHeader(header: Bytes, first: Byte) {
    |header| == IPV6_HEADER_LEN && header[0] / 16 == 6 && header[6] == first
  }

  lemma FixedFields(header: Bytes, rest: Bytes)
    requires |header| == IPV6_HEADER_LEN
    ensures var raw := header + rest;
            raw[0] == header[0] && raw[6] == header[6] && raw[8..24] == header[8..24] && raw[24..40] == header[24..40]
  {
  }

  /** The report is that of the walk, with the L4 header it resolves read in. */
  lemma WalkReport(header: Bytes, rest: Bytes)
    requires |header| == IPV6_HEADER_LEN && header[0] / 16 == 6
    ensures var raw := header + rest;
            var c := HeaderChain(raw, header[6]);
            Parse(raw) == Ok(WithL4(Report(header[8..24], header[24..40], "", NO_L4, c.fragment, |raw|, c.names),
                                    raw, c.offset, c.proto))
  {
    FixedFields(header, rest);
  }

  lemma L4Behind(r: Report, front: Bytes, payload: Bytes, proto: Byte)
    requires r.l4 == NO_L4 && !r.fragment.l4Incomplete
    ensures WithL4(r, front + payload, if payload == [] then -1 else |front|, proto)
            == r.(protocol := ProtocolName(proto),
                  fragment := r.fragment.(l4Incomplete := payload != [] && Truncated(payload, 0, proto)),
                  l4 := if payload != [] && MinHeader(proto) <= |payload| then Fields(NO_L4, payload, 0, proto) else NO_L4)
  {
    if payload != [] && MinHeader(proto) <= |payload| {
      FieldsMove(NO_L4, front, [], payload, proto);
      assert [] + payload == payload;
    }
  }

  /** Parsing an IPv6 packet reads back its addresses, the names of its extension headers, its protocol
      and the fragment state its last Fragment header was written with. It shows the L4 fields of its
      payload and is marked when they do not fit. */
  lemma V6RoundTrip(header: Bytes, es: seq<Ext>, proto: Byte, payload: Bytes)
    requires AllWellFormed(es) && ExtensionName(proto).None? && FixedHeader(header, Leading(es, proto))
    ensures var r := Parse(header + Encode(es, proto) + payload);
            && r.Ok?
            && r.value.src == header[8..24] && r.value.dst == header[24..40]
            && r.value.protocol == ProtocolName(proto) && r.value.names == Names(es)
            && r.value.size == IPV6_HEADER_LEN + |Encode(es, proto)| + |payload|
            && r.value.fragment ==
               FragmentOf(es, NO_FRAGMENT).(l4Incomplete := payload != [] && Truncated(payload, 0, proto))
            && r.value.l4 ==
               if payload != [] && MinHeader(proto) <= |payload| then Fields(NO_L4, payload, 0, proto) else NO_L4
  {
    var front, rest := header + Encode(es, proto), Encode(es, proto) + payload;
    var size := IPV6_HEADER_LEN + |Encode(es, proto)| + |payload|;
    Regrouped(header, Encode(es, proto), payload);
    WalkEncoded(header, es, proto, payload);
    WalkReport(header, rest);
    FragmentComplete(es, NO_FRAGMENT);
    var bare := Report(header[8..24], header[24..40], "", NO_L4, FragmentOf(es, NO_FRAGMENT), size, Names(es));
    L4Behind(bare, front, payload, proto);
  }

  /** A Fragment header with a non-zero offset, as its sender composes it; `bits` are the two reserved
      bits in front of M. */
  datatype Later = Later(reserved: Byte, offset: nat, bits: nat, more: bool, ident: Bytes)

  predicate ValidLater(f: Later) {
    0 < f.offset < 8192 && f.bits < 4 && |f.ident| == 4
  }

  function LaterWord(f: Later): nat {
    8 * f.offset + 2 * f.bits + Weight(f.more, 1)
  }

  function EncodeLater(f: Later, next: Byte): Bytes
    requires ValidLater(f)
  {
    [next, f.reserved, LaterWord(f) / 256, LaterWord(f) % 256] + f.ident
  }

  lemma LaterBits(f: Later) returns (hi: Byte, lo: Byte)
    requires ValidLater(f)
    ensures hi == LaterWord(f) / 256 && lo == LaterWord(f) % 256
    ensures hi as int * 256 + lo as int >= 8 && (hi as int * 256 + lo as int) / 8 == f.offset && (lo % 2 == 1 <==> f.more)
  {
    hi, lo := LaterWord(f) / 256, LaterWord(f) % 256;
  }

  lemma LaterBytes(f: Later, next: Byte, hi: Byte, lo: Byte) returns (rest: Bytes)
    requires ValidLater(f) && hi == LaterWord(f) / 256 && lo == LaterWord(f) % 256
    ensures |rest| == 5 && EncodeLater(f, next) == [next, rest[0], hi, lo] + rest[1..]
  {
    rest := [f.reserved] + f.ident;
    assert rest[1..] == f.ident;
  }

  lemma Between(a: Bytes, b: Bytes, c: Bytes, d: Bytes)
    ensures At(a + b + c + d, |a|, b + c)
  {
    var raw := a + b + c + d;
    assert raw == a + (b + c) + d;
    assert raw[|a|..|a| + |b + c|] == b + c;
  }

  lemma WalkLater(header: Bytes, es: seq<Ext>, last: Bytes, next: Byte, hi: Byte, lo: Byte, rest: Bytes, payload: Bytes)
    requires |header| == IPV6_HEADER_LEN && AllWellFormed(es) && |rest| == 5 && hi as int * 256 + lo as int >= 8
    requires last == [next, rest[0], hi, lo] + rest[1..]
    ensures HeaderChain(header + Encode(es, FRAGMENT) + last + payload, Leading(es, FRAGMENT))
            == Chain(next, -1, Names(es) + [FragmentHeader],
                     Fragment(true, lo % 2 == 1, (hi as int * 256 + lo as int) / 8, false))
  {
    Between(header, Encode(es, FRAGMENT), last, payload);
    WalkNonFirst(header + Encode(es, FRAGMENT) + last + payload, es, next, hi, lo, rest);
  }

  /** Behind any chain a later fragment is reported as one: with its offset, whether more follow, and the
      protocol it names, and without any L4 field or mark. */
  lemma V6LaterFragment(header: Bytes, es: seq<Ext>, f: Later, next: Byte, payload: Bytes)
    requires AllWellFormed(es) && ValidLater(f) && FixedHeader(header, Leading(es, FRAGMENT))
    ensures var r := Parse(header + Encode(es, FRAGMENT) + EncodeLater(f, next) + payload);
            && r.Ok?
            && r.value.src == header[8..24] && r.value.dst == header[24..40]
            && r.value.protocol == ProtocolName(next) && r.value.names == Names(es) + [FragmentHeader]
            && r.value.fragment == Fragment(true, f.more, f.offset, false) && r.value.l4 == NO_L4
  {
    var rest := Encode(es, FRAGMENT) + EncodeLater(f, next) + payload;
    var hi, lo := LaterBits(f);
    var tail := LaterBytes(f, next, hi, lo);
    WalkLater(header, es, EncodeLater(f, next), next, hi, lo, tail, payload);
    assert header + Encode(es, FRAGMENT) + EncodeLater(f, next) + payload == header + rest;
    WalkReport(header, rest);
  }

  // ----- both families

  /** A segment cut short inside its fixed header is marked incomplete and shows no field of it, in both
      families; one cut later is not. */
  lemma CutSegmentIsMarked(h: V4, v6: Bytes, es: seq<Ext>, s: Segment, k: nat)
    requires Valid(h) && Writable(s) && 0 < k <= |Written(s)| && h.proto == Protocol(s) && h.offset == 0
    requires AllWellFormed(es) && FixedHeader(v6, Leading(es, Protocol(s)))
    ensures var cut := Written(s)[..k];
            var a, b := Parse(EncodeV4(h) + cut), Parse(v6 + Encode(es, Protocol(s)) + cut);
            && a.Ok? && b.Ok?
            && (a.value.fragment.l4Incomplete <==> k < FixedLength(s))
            && (b.value.fragment.l4Incomplete <==> k < FixedLength(s))
            && (k < FixedLength(s) ==> a.value.l4 == b.value.l4 == NO_L4)
  {
    V4RoundTrip(h, Written(s)[..k]);
    V6RoundTrip(v6, es, Protocol(s), Written(s)[..k]);
  }

  /** A protocol without a header the parser knows is reported by number, with nothing read or marked. */
  lemma OtherProtocols(v6: Bytes, es: seq<Ext>, proto: Byte, payload: Bytes)
    requires AllWellFormed(es) && proto !in {0, 1, 6, 17, 43, 44, 58, 60} && FixedHeader(v6, Leading(es, proto))
    ensures var r := Parse(v6 + Encode(es, proto) + payload);
            && r.Ok? && r.value.protocol == "IP-" + Decimal(proto)
            && r.value.l4 == NO_L4 && !r.value.fragment.l4Incomplete
  {
    V6RoundTrip(v6, es, proto, payload);
  }

  /** The two address families judge one segment alike: whole, or first of several fragments, behind
      IPv4 options or any chain of IPv6 extension headers. */
  lemma FamiliesAgree(h: V4, v6: Bytes, es: seq<Ext>, s: Segment)
    requires Valid(h) && Writable(s) && h.proto == Protocol(s) && h.offset == 0
    requires |v6| == IPV6_HEADER_LEN && v6[0] / 16 == 6 && AllWellFormed(es) && v6[6] == Leading(es, Protocol(s))
    ensures var a, b := Parse(EncodeV4(h) + Written(s)), Parse(v6 + Encode(es, Protocol(s)) + Written(s));
            && a.Ok? && b.Ok?
            && a.value.l4 == b.value.l4 == Visible(s)
            && a.value.protocol == b.value.protocol == NameOfKind(s)
            && !a.value.fragment.l4Incomplete && !b.value.fragment.l4Incomplete
  {
    SegmentRoundTrip(s);
    V4RoundTrip(h, Written(s));
    var plain := v6[6 := Protocol(s)];
    ExtensionHeadersAreTransparent(plain, v6, es, Protocol(s), Written(s));
    PlainV6(plain, s);
  }

  lemma PlainV6(plain: Bytes, s: Segment)
    requires |plain| == IPV6_HEADER_LEN && plain[0] / 16 == 6 && Writable(s) && plain[6] == Protocol(s)
    ensures var p := Parse(plain + Written(s));
            && p.Ok? && p.value.l4 == Visible(s) && !p.value.fragment.l4Incomplete
            && p.value.protocol == ProtocolName(Protocol(s))
  {
    var payload, proto := Written(s), Protocol(s);
    SegmentRoundTrip(s);
    ResolvesPlain(plain, payload, proto);
    NothingInvented(plain + payload);
    FieldsMove(NO_L4, plain, [], payload, proto);
    assert [] + payload == payload;
  }

  lemma ResolvesPlain(plain: Bytes, payload: Bytes, proto: Byte)
    requires |plain| == IPV6_HEADER_LEN && plain[0] / 16 == 6 && plain[6] == proto && ExtensionName(proto).None?
    requires payload != []
    ensures Parse(plain + payload).Ok?
    ensures ResolvedOffset(plain + payload) == IPV6_HEADER_LEN && ResolvedProto(plain + payload) == proto
  {
    assert plain + Encode([], proto) + payload == plain + payload;
    WalkEncoded(plain, [], proto, payload);
  }
}
