/** The IPv6 walk is the inverse of writing an extension-header chain (sections 4 and 4.5 of
    RFC 8200), and the L4 fields reported are bytes of a complete header or nothing. */
module PacketTheorems {
  import opened Util
  import opened Decimals
  import opened Packet

  // ----- writing a chain

  /** An extension header as its sender composes it. A Fragment header here is a first fragment:
      its offset bits are zero, and `flags` holds the two reserved bits and M. */
  datatype Ext =
    | Options(name: ExtName, body: Bytes)
    | First(reserved: Byte, flags: Byte, ident: Bytes)

  predicate WellFormed(e: Ext) {
    match e
    case Options(name, body) => name != FragmentHeader && |body| % 8 == 6 && |body| + 2 <= 256 * 8
    case First(_, flags, ident) => flags < 8 && |ident| == 4
  }

  predicate AllWellFormed(es: seq<Ext>) {
    forall i :: 0 <= i < |es| ==> WellFormed(es[i])
  }

  function NameOf(e: Ext): ExtName {
    if e.Options? then e.name else FragmentHeader
  }

  function Number(name: ExtName): (n: Byte)
    ensures ExtensionName(n) == Some(name)
  {
    match name case HopByHop => 0 case Routing => 43 case FragmentHeader => FRAGMENT case Destination => 60
  }

  function Names(es: seq<Ext>): seq<ExtName> {
    if es == [] then [] else [NameOf(es[0])] + Names(es[1..])
  }

  /** The protocol number that announces the chain. */
  function Leading(es: seq<Ext>, proto: Byte): Byte {
    if es == [] then proto else Number(NameOf(es[0]))
  }

  function EncodeOne(e: Ext, next: Byte): (bytes: Bytes)
    requires WellFormed(e)
    ensures |bytes| == if e.Options? then |e.body| + 2 else 8
  {
    match e
    case Options(_, body) => [next, (|body| + 2) / 8 - 1] + body
    case First(reserved, flags, ident) => [next, reserved, 0, flags] + ident
  }

  function Encode(es: seq<Ext>, proto: Byte): Bytes
    requires AllWellFormed(es)
  {
    if es == [] then [] else EncodeOne(es[0], Leading(es[1..], proto)) + Encode(es[1..], proto)
  }

  function FragmentAfter(e: Ext, before: Fragment): Fragment {
    if e.Options? then before else Fragment(true, e.flags % 2 == 1, 0, false)
  }

  /** The fragment state a chain leaves: that of its last Fragment header, if any. */
  function FragmentOf(es: seq<Ext>, before: Fragment): Fragment {
    if es == [] then before else FragmentOf(es[1..], FragmentAfter(es[0], before))
  }

  // ----- reading it back

  ghost predicate At(raw: Bytes, off: nat, part: Bytes) {
    off + |part| <= |raw| && raw[off..off + |part|] == part
  }

  lemma HopOver(raw: Bytes, e: Ext, next: Byte, off: nat, names: seq<ExtName>, frag: Fragment)
    requires WellFormed(e) && At(raw, off, EncodeOne(e, next))
    ensures HopFrom(raw, Point(Number(NameOf(e)), off, names, frag))
            == Go(Point(next, off + |EncodeOne(e, next)|, names + [NameOf(e)], FragmentAfter(e, frag)))
  {
    var one := EncodeOne(e, next);
    var got := raw[off..off + |one|];
    assert forall i :: 0 <= i < |one| ==> got[i] == raw[off + i];
    assert raw[off + 0] == one[0] == next && raw[off + 1] == one[1];
    if e.Options? {
      assert HeaderLen(raw[off + 1]) == |one|;
    } else {
      assert raw[off + 2] == one[2] == 0 && raw[off + 3] == one[3] == e.flags;
      assert Word(raw, off + 2) == e.flags as int;
    }
  }

  lemma AtParts(raw: Bytes, off: nat, a: Bytes, b: Bytes)
    requires At(raw, off, a + b)
    ensures At(raw, off, a) && At(raw, off + |a|, b)
  {
    var whole := raw[off..off + |a + b|];
    assert whole[..|a|] == a && whole[|a|..] == b;
    assert raw[off..off + |a|] == whole[..|a|] && raw[off + |a|..off + |a| + |b|] == whole[|a|..];
  }

  lemma UnfoldNames(es: seq<Ext>, names: seq<ExtName>)
    requires es != []
    ensures names + [NameOf(es[0])] + Names(es[1..]) == names + Names(es)
  {
    var head, tail := [NameOf(es[0])], Names(es[1..]);
    assert Names(es) == head + tail;
    assert names + head + tail == names + (head + tail);
  }

  /** The point behind an encoded chain that starts at `p`. */
  function Behind(es: seq<Ext>, proto: Byte, p: Point): Point
    requires AllWellFormed(es)
  {
    Point(proto, p.off + |Encode(es, proto)|, p.names + Names(es), FragmentOf(es, p.fragment))
  }

  /** The point behind one encoded header that starts at `p`. */
  function BehindOne(e: Ext, next: Byte, p: Point): Point
    requires WellFormed(e)
  {
    Point(next, p.off + |EncodeOne(e, next)|, p.names + [NameOf(e)], FragmentAfter(e, p.fragment))
  }

  lemma BehindFirst(es: seq<Ext>, proto: Byte, p: Point)
    requires es != [] && AllWellFormed(es)
    ensures Behind(es, proto, p) == Behind(es[1..], proto, BehindOne(es[0], Leading(es[1..], proto), p))
  {
    UnfoldNames(es, p.names);
  }

  lemma WalkGo(raw: Bytes, p: Point, q: Point)
    requires HopFrom(raw, p) == Go(q)
    ensures Walk(raw, p) == Walk(raw, q)
  {
  }

  lemma ConsumeOne(raw: Bytes, es: seq<Ext>, proto: Byte, p: Point)
    requires es != [] && AllWellFormed(es) && p.proto == Leading(es, proto) && At(raw, p.off, Encode(es, proto))
    ensures var q := BehindOne(es[0], Leading(es[1..], proto), p);
            HopFrom(raw, p) == Go(q) && At(raw, q.off, Encode(es[1..], proto))
  {
    var next := Leading(es[1..], proto);
    AtParts(raw, p.off, EncodeOne(es[0], next), Encode(es[1..], proto));
    HopOver(raw, es[0], next, p.off, p.names, p.fragment);
  }

  /** Walking an encoded chain consumes exactly its headers and goes on with the protocol behind it. */
  lemma {:induction false} WalkConsumes(raw: Bytes, es: seq<Ext>, proto: Byte, p: Point)
    requires AllWellFormed(es) && p.proto == Leading(es, proto) && At(raw, p.off, Encode(es, proto))
    ensures Walk(raw, p) == Walk(raw, Behind(es, proto, p))
    decreases |es|
  {
    if es == [] {
      assert Behind(es, proto, p) == p;
    } else {
      var q := BehindOne(es[0], Leading(es[1..], proto), p);
      ConsumeOne(raw, es, proto, p);
      WalkGo(raw, p, q);
      BehindFirst(es, proto, p);
      WalkConsumes(raw, es[1..], proto, q);
    }
  }

  /** Round trip: a chain of any length in front of any payload is read back as written. */
  lemma WalkEncoded(header: Bytes, es: seq<Ext>, proto: Byte, payload: Bytes)
    requires |header| == IPV6_HEADER_LEN && AllWellFormed(es) && ExtensionName(proto).None?
    ensures HeaderChain(header + Encode(es, proto) + payload, Leading(es, proto)) ==
            Chain(proto, if payload == [] then -1 else IPV6_HEADER_LEN + |Encode(es, proto)|,
                  Names(es), FragmentOf(es, NO_FRAGMENT))
  {
    var raw := header + Encode(es, proto) + payload;
    var p := Point(Leading(es, proto), IPV6_HEADER_LEN, [], NO_FRAGMENT);
    assert raw[p.off..p.off + |Encode(es, proto)|] == Encode(es, proto);
    WalkConsumes(raw, es, proto, p);
    assert p.names + Names(es) == Names(es);
  }

  lemma HopAtNonFirst(raw: Bytes, p: Point, next: Byte, hi: Byte, lo: Byte, rest: Bytes)
    requires p.proto == FRAGMENT && |rest| == 5 && hi as int * 256 + lo as int >= 8
    requires At(raw, p.off, [next, rest[0], hi, lo] + rest[1..])
    ensures HopFrom(raw, p) ==
            Stop(Chain(next, -1, p.names + [FragmentHeader],
                       Fragment(true, lo % 2 == 1, (hi as int * 256 + lo as int) / 8, false)))
  {
    var header := [next, rest[0], hi, lo] + rest[1..];
    var got := raw[p.off..p.off + |header|];
    assert forall i :: 0 <= i < |header| ==> got[i] == raw[p.off + i];
    assert raw[p.off + 0] == header[0] && raw[p.off + 2] == header[2] && raw[p.off + 3] == header[3];
    assert Word(raw, p.off + 2) == hi as int * 256 + lo as int;
  }

  /** A later fragment ends the walk: its protocol and offset are reported, and no L4 header. */
  lemma WalkNonFirst(raw: Bytes, es: seq<Ext>, next: Byte, hi: Byte, lo: Byte, rest: Bytes)
    requires AllWellFormed(es) && |rest| == 5 && hi as int * 256 + lo as int >= 8
    requires At(raw, IPV6_HEADER_LEN, Encode(es, FRAGMENT) + ([next, rest[0], hi, lo] + rest[1..]))
    ensures HeaderChain(raw, Leading(es, FRAGMENT)) ==
            Chain(next, -1, Names(es) + [FragmentHeader],
                  Fragment(true, lo % 2 == 1, (hi as int * 256 + lo as int) / 8, false))
  {
    var header := [next, rest[0], hi, lo] + rest[1..];
    AtParts(raw, IPV6_HEADER_LEN, Encode(es, FRAGMENT), header);
    var p := Point(Leading(es, FRAGMENT), IPV6_HEADER_LEN, [], NO_FRAGMENT);
    WalkConsumes(raw, es, FRAGMENT, p);
    HopAtNonFirst(raw, Behind(es, FRAGMENT, p), next, hi, lo, rest);
    assert p.names + Names(es) == Names(es);
  }

  /** The bytes behind a chain end inside the header they begin: too few to tell how long it is. */
  predicate Cut(name: ExtName, rest: Bytes) {
    0 < |rest| < if name == FragmentHeader then FRAGMENT_HEADER_LEN else 2
  }

  lemma HopAtCut(raw: Bytes, p: Point, name: ExtName)
    requires p.proto == Number(name) && p.off <= |raw|
    ensures p.off == |raw| ==> HopFrom(raw, p) == Stop(Chain(p.proto, -1, p.names, p.fragment))
    ensures Cut(name, raw[p.off..]) ==> HopFrom(raw, p) == Stop(Chain(p.proto, -1, p.names + [name], p.fragment))
  {
  }

  /** A packet that ends where its next extension header should begin, or within the part of it that
      tells its length, resolves no L4 header: it is reported as that extension header, which is named
      if any byte of it is there. */
  lemma WalkCut(header: Bytes, es: seq<Ext>, name: ExtName, rest: Bytes)
    requires |header| == IPV6_HEADER_LEN && AllWellFormed(es) && (rest == [] || Cut(name, rest))
    ensures HeaderChain(header + Encode(es, Number(name)) + rest, Leading(es, Number(name))) ==
            Chain(Number(name), -1, Names(es) + if rest == [] then [] else [name], FragmentOf(es, NO_FRAGMENT))
  {
    var proto := Number(name);
    var raw := header + Encode(es, proto) + rest;
    var p := Point(Leading(es, proto), IPV6_HEADER_LEN, [], NO_FRAGMENT);
    assert raw[p.off..p.off + |Encode(es, proto)|] == Encode(es, proto);
    WalkConsumes(raw, es, proto, p);
    var q := Behind(es, proto, p);
    assert raw[q.off..] == rest && p.names + Names(es) == Names(es);
    HopAtCut(raw, q, name);
  }

  lemma HopBeyond(raw: Bytes, p: Point, name: ExtName, next: Byte, extLen: Byte)
    requires p.proto == Number(name) && name != FragmentHeader && p.off + 2 <= |raw| < p.off + HeaderLen(extLen)
    requires raw[p.off] == next && raw[p.off + 1] == extLen
    ensures Walk(raw, p) == Chain(next, -1, p.names + [name], p.fragment)
  {
    var q := Point(next, p.off + HeaderLen(extLen), p.names + [name], p.fragment);
    assert HopFrom(raw, p) == Go(q);
  }

  /** An options header that claims more bytes than there are resolves no L4 header either: the protocol
      it announces is reported, whatever that is. */
  lemma WalkOverrun(header: Bytes, es: seq<Ext>, name: ExtName, next: Byte, extLen: Byte, rest: Bytes)
    requires |header| == IPV6_HEADER_LEN && AllWellFormed(es)
    requires name != FragmentHeader && 2 + |rest| < HeaderLen(extLen)
    ensures HeaderChain(header + Encode(es, Number(name)) + ([next, extLen] + rest), Leading(es, Number(name))) ==
            Chain(next, -1, Names(es) + [name], FragmentOf(es, NO_FRAGMENT))
  {
    var proto := Number(name);
    var raw := header + Encode(es, proto) + ([next, extLen] + rest);
    var p := Point(Leading(es, proto), IPV6_HEADER_LEN, [], NO_FRAGMENT);
    assert raw[p.off..p.off + |Encode(es, proto)|] == Encode(es, proto);
    WalkConsumes(raw, es, proto, p);
    var q := Behind(es, proto, p);
    assert raw[q.off] == next && raw[q.off + 1] == extLen && p.names + Names(es) == Names(es);
    HopBeyond(raw, q, name, next, extLen);
  }

  // ----- nothing but a chain is read

  ghost predicate IsChain(raw: Bytes, first: Byte, from: nat, to: int, proto: Byte, es: seq<Ext>) {
    && from <= to < |raw|
    && AllWellFormed(es)
    && ExtensionName(proto).None?
    && first == Leading(es, proto)
    && raw[from..to] == Encode(es, proto)
  }

  /** The header a hop from `p` steps over. */
  function Decoded(raw: Bytes, p: Point): Ext
    requires HopFrom(raw, p).Go? && HopFrom(raw, p).next.off <= |raw|
  {
    if p.proto == FRAGMENT then
      First(raw[p.off + 1], raw[p.off + 3], raw[p.off + 4..p.off + 8])
    else
      Options(ExtensionName(p.proto).value, raw[p.off + 2..HopFrom(raw, p).next.off])
  }

  lemma DecodedEncodes(raw: Bytes, p: Point)
    requires HopFrom(raw, p).Go? && HopFrom(raw, p).next.off <= |raw|
    ensures var e, q := Decoded(raw, p), HopFrom(raw, p).next;
            && WellFormed(e) && Number(NameOf(e)) == p.proto
            && EncodeOne(e, q.proto) == raw[p.off..q.off]
            && q.names == p.names + [NameOf(e)]
            && q.fragment == FragmentAfter(e, p.fragment)
  {
    var e := Decoded(raw, p);
    if p.proto == FRAGMENT {
      assert Word(raw, p.off + 2) == raw[p.off + 2] as int * 256 + raw[p.off + 3] as int;
      assert raw[p.off + 2] == 0 && raw[p.off + 3] < 8;
    } else {
      assert |e.body| + 2 == HeaderLen(raw[p.off + 1]);
      assert (|e.body| + 2) / 8 - 1 == raw[p.off + 1];
    }
  }

  lemma {:induction false} WalkGrows(raw: Bytes, p: Point)
    ensures Walk(raw, p).offset >= 0 ==> p.off <= Walk(raw, p).offset < |raw|
    decreases |raw| - p.off
  {
    if HopFrom(raw, p).Go? {
      WalkGrows(raw, HopFrom(raw, p).next);
    }
  }

  lemma ChainExtends(raw: Bytes, p: Point, to: int, proto: Byte, tail: seq<Ext>)
    requires HopFrom(raw, p).Go? && HopFrom(raw, p).next.off <= to < |raw|
    requires IsChain(raw, HopFrom(raw, p).next.proto, HopFrom(raw, p).next.off, to, proto, tail)
    ensures IsChain(raw, p.proto, p.off, to, proto, [Decoded(raw, p)] + tail)
    ensures HopFrom(raw, p).next.names + Names(tail) == p.names + Names([Decoded(raw, p)] + tail)
    ensures FragmentOf(tail, HopFrom(raw, p).next.fragment) == FragmentOf([Decoded(raw, p)] + tail, p.fragment)
  {
    DecodedEncodes(raw, p);
    var es, mid := [Decoded(raw, p)] + tail, HopFrom(raw, p).next.off;
    assert es[1..] == tail;
    UnfoldNames(es, p.names);
    assert raw[p.off..to] == raw[p.off..mid] + raw[mid..to];
  }

  lemma {:induction false} WalkDecodes(raw: Bytes, p: Point) returns (es: seq<Ext>)
    requires Walk(raw, p).offset >= 0
    ensures IsChain(raw, p.proto, p.off, Walk(raw, p).offset, Walk(raw, p).proto, es)
    ensures Walk(raw, p).names == p.names + Names(es)
    ensures Walk(raw, p).fragment == FragmentOf(es, p.fragment)
    decreases |raw| - p.off
  {
    if HopFrom(raw, p).Stop? {
      es := [];
      assert p.names + Names(es) == p.names;
    } else {
      var q, c := HopFrom(raw, p).next, Walk(raw, p);
      WalkGrows(raw, q);
      var tail := WalkDecodes(raw, q);
      es := [Decoded(raw, p)] + tail;
      ChainExtends(raw, p, c.offset, c.proto, tail);
    }
  }

  /** The walk resolves an L4 header at `to` exactly when the bytes up to `to` are a well-formed
      chain announcing it: it neither skips nor invents a header. */
  lemma WalkIsExact(raw: Bytes, first: Byte, to: int, proto: Byte)
    ensures HeaderChain(raw, first).offset == to >= 0 && HeaderChain(raw, first).proto == proto
       <==> exists es :: IsChain(raw, first, IPV6_HEADER_LEN, to, proto, es)
  {
    var c := HeaderChain(raw, first);
    if c.offset >= 0 {
      var es := WalkDecodes(raw, Point(first, IPV6_HEADER_LEN, [], NO_FRAGMENT));
      assert IsChain(raw, first, IPV6_HEADER_LEN, c.offset, c.proto, es);
    }
    if es :| IsChain(raw, first, IPV6_HEADER_LEN, to, proto, es) {
      assert raw == raw[..IPV6_HEADER_LEN] + Encode(es, proto) + raw[to..];
      WalkEncoded(raw[..IPV6_HEADER_LEN], es, proto, raw[to..]);
    }
  }

  // ----- extension headers hide nothing

  lemma FieldsMove(base: L4, a: Bytes, b: Bytes, payload: Bytes, proto: Byte)
    requires MinHeader(proto) <= |payload|
    ensures Fields(base, a + payload, |a|, proto) == Fields(base, b + payload, |b|, proto)
  {
    forall i | 0 <= i < |payload|
      ensures (a + payload)[|a| + i] == payload[i] == (b + payload)[|b| + i]
    {
    }
    if MinHeader(proto) >= 4 {
      assert (a + payload)[|a|] == payload[0] == (b + payload)[|b|];
      assert (a + payload)[|a| + 1] == payload[1] == (b + payload)[|b| + 1];
      assert (a + payload)[|a| + 2] == payload[2] == (b + payload)[|b| + 2];
      assert (a + payload)[|a| + 3] == payload[3] == (b + payload)[|b| + 3];
    }
    if proto == TCP {
      assert (a + payload)[|a| + 13] == payload[13] == (b + payload)[|b| + 13];
    }
  }

  /** Prepending any chain of extension headers leaves the protocol name, ports, flags, ICMP
      fields and the incomplete mark of a packet exactly as they were. */
  lemma ExtensionHeadersAreTransparent(plain: Bytes, extended: Bytes, es: seq<Ext>, proto: Byte, payload: Bytes)
    requires |plain| == |extended| == IPV6_HEADER_LEN && plain[0] / 16 == extended[0] / 16 == 6
    requires AllWellFormed(es) && ExtensionName(proto).None?
    requires plain[6] == proto && extended[6] == Leading(es, proto)
    ensures var p, q := Parse(plain + payload), Parse(extended + Encode(es, proto) + payload);
            && p.Ok? && q.Ok?
            && q.value.protocol == p.value.protocol
            && q.value.l4 == p.value.l4
            && q.value.fragment.l4Incomplete == p.value.fragment.l4Incomplete
            && q.value.names == Names(es) && p.value.names == []
            && q.value.src == extended[8..24] && q.value.dst == extended[24..40]
  {
    assert (extended + Encode(es, proto) + payload)[8..24] == extended[8..24];
    assert (extended + Encode(es, proto) + payload)[24..40] == extended[24..40];
    assert plain + Encode([], proto) + payload == plain + payload;
    WalkEncoded(plain, [], proto, payload);
    WalkEncoded(extended, es, proto, payload);
    FragmentComplete(es, NO_FRAGMENT);
    if MinHeader(proto) <= |payload| {
      FieldsMove(NO_L4, plain, extended + Encode(es, proto), payload, proto);
    }
  }

  lemma {:induction false} FragmentComplete(es: seq<Ext>, before: Fragment)
    requires !before.l4Incomplete
    ensures !FragmentOf(es, before).l4Incomplete
    decreases |es|
  {
    if es != [] {
      FragmentComplete(es[1..], FragmentAfter(es[0], before));
    }
  }

  // ----- every byte string

  predicate IsV4(raw: Bytes) {
    |raw| >= IPV4_HEADER_LEN && raw[0] / 16 == 4
  }

  /** Where the L4 header of a packet is, or -1. */
  function ResolvedOffset(raw: Bytes): int
    requires Parse(raw).Ok?
  {
    if !IsV4(raw) then HeaderChain(raw, raw[6]).offset
    else if Word(raw, 6) % 8192 > 0 || raw[0] % 16 < 5 then -1
    else raw[0] % 16 * 4
  }

  function ResolvedProto(raw: Bytes): Byte
    requires Parse(raw).Ok?
  {
    if IsV4(raw) then raw[9] else HeaderChain(raw, raw[6]).proto
  }

  lemma {:induction false} WalkFragment(raw: Bytes, p: Point)
    requires !p.fragment.l4Incomplete && p.fragment.offset == 0
    ensures !Walk(raw, p).fragment.l4Incomplete
    ensures Walk(raw, p).fragment.offset > 0 ==> Walk(raw, p).offset == -1
    decreases |raw| - p.off
  {
    if HopFrom(raw, p).Go? {
      WalkFragment(raw, HopFrom(raw, p).next);
    }
  }

  /** L4 fields are read from a complete header at the resolved offset, and are all zero otherwise; the
      incomplete mark is set exactly when a known header is due at a resolved offset and does not fit, or
      an IPv4 first fragment has an IHL below 5; a later fragment reports no L4 field and no mark. */
  ghost predicate Honest(raw: Bytes, r: Report, off: int, proto: Byte) {
    && r.protocol == ProtocolName(proto) && r.size == |raw|
    && r.l4 == (if off >= 0 && off + MinHeader(proto) <= |raw| then Fields(NO_L4, raw, off, proto) else NO_L4)
    && (r.l4 != NO_L4 ==> MinHeader(proto) > 0 && 0 <= off && off + MinHeader(proto) <= |raw|)
    && (r.fragment.l4Incomplete <==>
          Truncated(raw, off, proto) || (IsV4(raw) && Word(raw, 6) % 8192 == 0 && raw[0] % 16 < 5))
    && (r.fragment.offset > 0 ==> r.l4 == NO_L4 && !r.fragment.l4Incomplete)
  }

  /** Every byte string is reported honestly, or refused: one that is no fixed header of a version 4 or 6
      packet. */
  lemma NothingInvented(raw: Bytes)
    ensures Parse(raw).Err? <==>
              || |raw| == 0
              || raw[0] / 16 !in {4, 6}
              || |raw| < (if raw[0] / 16 == 4 then 20 else 40)
    ensures Parse(raw).Err? ==> (Parse(raw).error == UnsupportedVersion <==> |raw| > 0 && raw[0] / 16 !in {4, 6})
    ensures Parse(raw).Ok? ==> Honest(raw, Parse(raw).value, ResolvedOffset(raw), ResolvedProto(raw))
  {
    if Parse(raw).Ok? && !IsV4(raw) {
      WalkFragment(raw, Point(raw[6], IPV6_HEADER_LEN, [], NO_FRAGMENT));
    }
  }

  /** A protocol's name identifies its number, so a rule keyed on a name matches one protocol. */
  lemma ProtocolNameInjective(p: Byte, q: Byte)
    requires ProtocolName(p) == ProtocolName(q)
    ensures p == q
  {
    if MinHeader(p) == 0 && MinHeader(q) == 0 {
      assert ProtocolName(p)[3..] == Decimal(p) && ProtocolName(q)[3..] == Decimal(q);
      DecimalValue(p);
      DecimalValue(q);
    } else {
      assert ProtocolName(p)[2] == ProtocolName(q)[2];
      assert |ProtocolName(p)| == |ProtocolName(q)|;
    }
  }
}
