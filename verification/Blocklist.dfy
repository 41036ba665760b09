/** The threat-intelligence blocklist (internal/threatintel/threatintel.go). Addresses are numbers of
    one of two families, in the normal form the program gives them; networks are canonical. */
module Blocklist {
  import opened Util

  const MAX_ENTRIES := 500000
  const MAX_NETWORKS := 65536

  datatype Address = Address(v4: bool, value: nat)

  datatype Network = Network(v4: bool, base: nat, len: nat)

  /** A parsed entry; `Junk` is a string that is neither an address nor a network. */
  datatype Entry = Single(address: Address) | Range(network: Network) | Junk

  function Pow2(k: nat): (p: nat)
    ensures p > 0
  {
    if k == 0 then 1 else 2 * Pow2(k - 1)
  }

  function HostBits(n: Network): nat {
    var bits := if n.v4 then 32 else 128;
    if n.len <= bits then bits - n.len else 0
  }

  predicate Covers(n: Network, a: Address) {
    n.v4 == a.v4 && a.value / Pow2(HostBits(n)) == n.base / Pow2(HostBits(n))
  }

  datatype State = State(ips: set<Address>, nets: seq<Network>, netKeys: set<Network>)

  datatype Op = Add(entry: Entry) | Remove(entry: Entry)

  const INITIAL := State({}, [], {})

  function Added(s: State, e: Entry): State {
    if |s.ips| + |s.nets| >= MAX_ENTRIES then s
    else match e
      case Junk => s
      case Single(a) => s.(ips := s.ips + {a})
      case Range(n) =>
        if n in s.netKeys || |s.nets| >= MAX_NETWORKS then s
        else s.(nets := s.nets + [n], netKeys := s.netKeys + {n})
  }

  /** The list without its first occurrence of `n`. */
  function Without(nets: seq<Network>, n: Network): seq<Network> {
    if nets == [] then [] else if nets[0] == n then nets[1..] else [nets[0]] + Without(nets[1..], n)
  }

  function Removed(s: State, e: Entry): State {
    match e
    case Junk => s
    case Single(a) => s.(ips := s.ips - {a})
    case Range(n) => if n in s.nets then s.(nets := Without(s.nets, n), netKeys := s.netKeys - {n}) else s
  }

  function Step(s: State, op: Op): State {
    if op.Add? then Added(s, op.entry) else Removed(s, op.entry)
  }

  function Run(ops: seq<Op>): State {
    if ops == [] then INITIAL else Step(Run(Front(ops)), Last(ops))
  }

  ghost predicate Blocks(s: State, a: Address) {
    a in s.ips || exists i :: 0 <= i < |s.nets| && Covers(s.nets[i], a)
  }

  // ----- the list as it runs

  class List {
    var ips: set<Address>
    var nets: seq<Network>
    var netKeys: set<Network>

    function Model(): State
      reads this
    {
      State(ips, nets, netKeys)
    }

    constructor ()
      ensures Model() == INITIAL
    {
      ips, nets, netKeys := {}, [], {};
    }

    method AddEntry(e: Entry)
      modifies this
      ensures Model() == Added(old(Model()), e)
    {
      if |ips| + |nets| >= MAX_ENTRIES {
        return;
      }
      if e.Range? {
        if e.network in netKeys {
          return;
        }
        if |nets| >= MAX_NETWORKS {
          return;
        }
        netKeys := netKeys + {e.network};
        nets := nets + [e.network];
      } else if e.Single? {
        ips := ips + {e.address};
      }
    }

    method RemoveEntry(e: Entry)
      modifies this
      ensures Model() == Removed(old(Model()), e)
    {
      if e.Range? {
        for i := 0 to |nets|
          invariant e.network !in nets[..i]
        {
          if nets[i] == e.network {
            WithoutAt(nets, i);
            nets := nets[..i] + nets[i + 1..];
            netKeys := netKeys - {e.network};
            return;
          }
        }
        assert nets[..|nets|] == nets;
      } else if e.Single? {
        ips := ips - {e.address};
      }
    }

    /** `None` is a string that does not parse. */
    method Contains(ip: Option<Address>) returns (blocked: bool)
      ensures blocked <==> ip.Some? && Blocks(Model(), ip.value)
    {
      if ip.None? {
        return false;
      }
      if ip.value in ips {
        return true;
      }
      for i := 0 to |nets|
        invariant forall j :: 0 <= j < i ==> !Covers(nets[j], ip.value)
      {
        if Covers(nets[i], ip.value) {
          return true;
        }
      }
      return false;
    }

    method Len() returns (n: nat)
      ensures n == |ips| + |nets|
    {
      return |ips| + |nets|;
    }
  }

  lemma {:induction false} WithoutAt(nets: seq<Network>, i: nat)
    requires i < |nets| && nets[i] !in nets[..i]
    ensures Without(nets, nets[i]) == nets[..i] + nets[i + 1..]
    decreases i
  {
    if i > 0 {
      var rest := nets[1..];
      assert nets[..i] == [nets[0]] + rest[..i - 1] && rest[i..] == nets[i + 1..];
      WithoutAt(rest, i - 1);
    }
  }

  /** A canonical network is the interval of addresses that share its prefix. */
  lemma CoversIsInterval(n: Network, a: Address)
    requires n.base % Pow2(HostBits(n)) == 0
    ensures Covers(n, a) <==> n.v4 == a.v4 && n.base <= a.value < n.base + Pow2(HostBits(n))
  {
    var p := Pow2(HostBits(n));
    var q := n.base / p;
    assert n.base == q * p;
    SameQuotient(a.value, p, q);
  }

  lemma SameQuotient(v: int, p: int, q: int)
    requires p > 0
    ensures v / p == q <==> q * p <= v < q * p + p
  {
    if q * p <= v < q * p + p {
      Quotient(v, p, q, v - q * p);
    }
  }

  /** Number of bits in an address of the family. */
  function Width(v4: bool): nat {
    if v4 then 32 else 128
  }

  predicate Fits(v: nat, width: nat) {
    if width == 0 then v == 0 else Fits(v / 2, width - 1)
  }

  /** The binary digits of `v`, the highest first. */
  function Bits(v: nat, width: nat): (bits: seq<bool>)
    ensures |bits| == width
  {
    if width == 0 then [] else Bits(v / 2, width - 1) + [v % 2 == 1]
  }

  lemma HalfOfQuotient(v: nat, k: nat)
    ensures v / 2 / Pow2(k) == v / Pow2(k + 1)
  {
    var p := Pow2(k);
    var q, r := v / 2 / p, v / 2 % p;
    assert v / 2 == q * p + r;
    assert v == q * (2 * p) + (2 * r + v % 2);
    Quotient(v, 2 * p, q, 2 * r + v % 2);
  }

  lemma {:induction false} LeadingBits(v: nat, width: nat, len: nat) returns (q: nat)
    requires len <= width && Fits(v, width)
    ensures q == v / Pow2(width - len) && Bits(v, width)[..len] == Bits(q, len) && Fits(q, len)
    decreases width
  {
    if len == width {
      q := v;
      assert Bits(v, width)[..len] == Bits(v, width);
    } else {
      q := LeadingBits(v / 2, width - 1, len);
      assert Bits(v, width)[..len] == Bits(v / 2, width - 1)[..len];
      HalfOfQuotient(v, width - 1 - len);
    }
  }

  lemma {:induction false} BitsInjective(v: nat, w: nat, width: nat)
    requires Fits(v, width) && Fits(w, width) && Bits(v, width) == Bits(w, width)
    ensures v == w
    decreases width
  {
    if width > 0 {
      assert Bits(v, width)[..width - 1] == Bits(v / 2, width - 1) && Bits(w, width)[..width - 1] == Bits(w / 2, width - 1);
      assert Bits(v, width)[width - 1] == Bits(w, width)[width - 1];
      BitsInjective(v / 2, w / 2, width - 1);
    }
  }

  /** The first `len` of the `width` digits are the same. */
  predicate SharePrefix(v: nat, w: nat, width: nat, len: nat)
    requires len <= width
  {
    Bits(v, width)[..len] == Bits(w, width)[..len]
  }

  lemma QuotientIsPrefix(v: nat, w: nat, width: nat, len: nat)
    requires len <= width && Fits(v, width) && Fits(w, width)
    ensures v / Pow2(width - len) == w / Pow2(width - len) <==> SharePrefix(v, w, width, len)
  {
    var x := LeadingBits(v, width, len);
    var y := LeadingBits(w, width, len);
    if Bits(x, len) == Bits(y, len) {
      BitsInjective(x, y, len);
    }
  }

  /** A network covers an address if and only if both are of one family and agree in their first `len`
      binary digits, of the 32 of an IPv4 or the 128 of an IPv6 address. */
  lemma CoversIsPrefix(n: Network, a: Address, width: nat)
    requires width == Width(n.v4) && n.len <= width && Fits(n.base, width) && Fits(a.value, Width(a.v4))
    ensures Covers(n, a) <==> n.v4 == a.v4 && SharePrefix(n.base, a.value, width, n.len)
  {
    if n.v4 == a.v4 {
      QuotientIsPrefix(n.base, a.value, width, n.len);
    }
  }

  // ----- the reference: a plain list of everything that was added

  function Reference(ops: seq<Op>): seq<Entry> {
    if ops == [] then []
    else if Last(ops).Add? then Reference(Front(ops)) + [Last(ops).entry]
    else Purged(Reference(Front(ops)), Last(ops).entry)
  }

  function Purged(entries: seq<Entry>, e: Entry): seq<Entry> {
    if entries == [] then []
    else Purged(Front(entries), e) + if Last(entries) == e then [] else [Last(entries)]
  }

  predicate Matches(e: Entry, a: Address) {
    match e case Single(x) => x == a case Range(n) => Covers(n, a) case Junk => false
  }

  ghost predicate ReferenceBlocks(entries: seq<Entry>, a: Address) {
    exists i :: 0 <= i < |entries| && Matches(entries[i], a)
  }

  /** The list holds each added entry once. */
  ghost predicate Represents(s: State, entries: seq<Entry>) {
    && (forall a :: a in s.ips <==> Single(a) in entries)
    && (forall n :: n in s.nets <==> Range(n) in entries)
  }

  /** No network is listed twice, and the keys are exactly the networks. */
  ghost predicate Sound(s: State) {
    && (forall i, j :: 0 <= i < j < |s.nets| ==> s.nets[i] != s.nets[j])
    && (forall n :: n in s.nets <==> n in s.netKeys)
    && |s.nets| <= 65536
    && |s.ips| + |s.nets| <= 500000
  }

  /** An Add that a cap turns away although the entry is new. */
  ghost predicate Dropped(s: State, op: Op) {
    op.Add? && match op.entry
      case Junk => false
      case Single(a) => a !in s.ips && |s.ips| + |s.nets| >= 500000
      case Range(n) => n !in s.nets && (|s.ips| + |s.nets| >= 500000 || |s.nets| >= 65536)
  }

  lemma {:induction false} PurgedExactly(entries: seq<Entry>, e: Entry)
    ensures forall x :: x in Purged(entries, e) <==> x in entries && x != e
    decreases |entries|
  {
    if entries != [] {
      PurgedExactly(Front(entries), e);
      assert entries == Front(entries) + [Last(entries)];
    }
  }

  lemma {:induction false} WithoutExactly(nets: seq<Network>, n: Network)
    requires forall i, j :: 0 <= i < j < |nets| ==> nets[i] != nets[j]
    ensures var r := Without(nets, n);
            && (forall i, j :: 0 <= i < j < |r| ==> r[i] != r[j])
            && (forall x :: x in r <==> x in nets && x != n)
            && |r| <= |nets|
    decreases |nets|
  {
    if nets != [] {
      assert nets == [nets[0]] + nets[1..];
      WithoutExactly(nets[1..], n);
      assert nets[0] !in nets[1..];
      var w := Without(nets[1..], n);
      assert forall i :: 0 <= i < |w| ==> w[i] in w;
    }
  }

  lemma {:induction false} SoundStep(s: State, op: Op)
    requires Sound(s)
    ensures Sound(Step(s, op))
  {
    match op
    case Add(e) =>
      if e.Single? {
        assert |s.ips + {e.address}| <= |s.ips| + 1;
      }
    case Remove(e) =>
      match e
      case Single(a) => assert s.ips == (s.ips - {a}) + (s.ips * {a});
      case Range(n) => WithoutExactly(s.nets, n);
      case Junk =>
  }

  /** The step that adds or removes an entry stays in agreement with the reference exactly when no
      cap turned a new entry away. */
  lemma RepresentsStep(s: State, op: Op, entries: seq<Entry>)
    requires Sound(s) && Represents(s, entries)
    ensures Represents(Step(s, op), if op.Add? then entries + [op.entry] else Purged(entries, op.entry))
       <==> !Dropped(s, op)
  {
    if op.Add? {
      assert forall x :: x in entries + [op.entry] <==> x in entries || x == op.entry;
      assert op.entry in entries + [op.entry];
    } else {
      PurgedExactly(entries, op.entry);
      WithoutExactly(s.nets, if op.entry.Range? then op.entry.network else Network(true, 0, 0));
    }
  }

  ghost predicate NeverDropped(ops: seq<Op>) {
    forall k :: 0 <= k < |ops| ==> !Dropped(Run(ops[..k]), ops[k])
  }

  /** On all runs both caps hold, networks are not repeated and the keys mirror them. */
  lemma {:induction false} RunSound(ops: seq<Op>)
    ensures Sound(Run(ops))
    decreases |ops|
  {
    if ops != [] {
      RunSound(Front(ops));
      SoundStep(Run(Front(ops)), Last(ops));
    }
  }

  lemma {:induction false} RunRepresents(ops: seq<Op>)
    requires NeverDropped(ops)
    ensures Represents(Run(ops), Reference(ops))
    decreases |ops|
  {
    if ops != [] {
      var front := Front(ops);
      assert forall k :: 0 <= k < |front| ==> front[..k] == ops[..k] && front[k] == ops[k];
      RunRepresents(front);
      RunSound(front);
      assert ops[..|ops| - 1] == front;
      RepresentsStep(Run(front), Last(ops), Reference(front));
    }
  }

  /** On every run in which no cap turns a new entry away, the list blocks exactly the addresses that
      a plain list of all added and not removed entries would; duplicates and order do not matter. */
  lemma AgreesWithReference(ops: seq<Op>, a: Address)
    requires NeverDropped(ops)
    ensures Blocks(Run(ops), a) <==> ReferenceBlocks(Reference(ops), a)
  {
    var s, entries := Run(ops), Reference(ops);
    RunRepresents(ops);
    if a in s.ips {
      var i :| 0 <= i < |entries| && entries[i] == Single(a);
      assert Matches(entries[i], a);
    }
    if i :| 0 <= i < |s.nets| && Covers(s.nets[i], a) {
      assert s.nets[i] in s.nets;
      var j :| 0 <= j < |entries| && entries[j] == Range(s.nets[i]);
      assert Matches(entries[j], a);
    }
    if i :| 0 <= i < |entries| && Matches(entries[i], a) {
      assert entries[i] in entries;
      if entries[i].Range? {
        var j :| 0 <= j < |s.nets| && s.nets[j] == entries[i].network;
        assert Covers(s.nets[j], a);
      }
    }
  }

  /** Removing an entry takes all of it away, however often and in whatever order it was added. */
  lemma RemoveIsFinal(ops: seq<Op>, e: Entry)
    ensures var s := Run(ops + [Remove(e)]);
            && (e.Single? ==> e.address !in s.ips)
            && (e.Range? ==> e.network !in s.nets && e.network !in s.netKeys)
  {
    assert Front(ops + [Remove(e)]) == ops;
    RunSound(ops);
    if e.Range? {
      WithoutExactly(Run(ops).nets, e.network);
    }
  }

  ghost function Distinct(entries: seq<Entry>): set<Entry> {
    set e | e in entries && e != Junk
  }

  lemma {:induction false} NetsSize(nets: seq<Network>)
    requires forall i, j :: 0 <= i < j < |nets| ==> nets[i] != nets[j]
    ensures |set n | n in nets :: Range(n)| == |nets|
    decreases |nets|
  {
    if nets != [] {
      NetsSize(Front(nets));
      assert nets == Front(nets) + [Last(nets)];
      var front, all := set n | n in Front(nets) :: Range(n), set n | n in nets :: Range(n);
      assert Last(nets) in nets && Range(Last(nets)) !in front;
      assert forall n :: n in Front(nets) ==> n in nets;
      assert all == front + {Range(Last(nets))};
    }
  }

  lemma {:induction false} IpsSize(ips: set<Address>)
    ensures |set a | a in ips :: Single(a)| == |ips|
    decreases ips
  {
    var all := set a | a in ips :: Single(a);
    if a :| a in ips {
      IpsSize(ips - {a});
      var rest := set x | x in ips - {a} :: Single(x);
      assert all == rest + {Single(a)} && Single(a) !in rest;
    } else {
      assert all == {};
    }
  }

  /** On every run in which no cap turned a new entry away, the length reported is the number of
      distinct entries added and not removed. */
  lemma LengthIsDistinctEntries(ops: seq<Op>)
    requires NeverDropped(ops)
    ensures |Run(ops).ips| + |Run(ops).nets| == |Distinct(Reference(ops))|
  {
    var s, entries := Run(ops), Reference(ops);
    RunSound(ops);
    RunRepresents(ops);
    NetsSize(s.nets);
    IpsSize(s.ips);
    var ranges, singles := set n | n in s.nets :: Range(n), set a | a in s.ips :: Single(a);
    forall e
      ensures e in Distinct(entries) <==> e in ranges + singles
    {
      if e.Range? {
        assert e in ranges <==> e.network in s.nets;
      } else if e.Single? {
        assert e in singles <==> e.address in s.ips;
      }
    }
    assert Distinct(entries) == ranges + singles && ranges !! singles;
  }
}
