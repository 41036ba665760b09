/** Retention of capture files, and the order of their names. */
module CaptureTheorems {
  import opened Util
  import opened Decimals
  import opened StringOrder
  import opened Capture

  // ----- names and numbers

  function Pow10(k: nat): (p: nat)
    ensures p > 0
  {
    if k == 0 then 1 else 10 * Pow10(k - 1)
  }

  predicate Digits(s: string) {
    forall i :: 0 <= i < |s| ==> '0' <= s[i] <= '9'
  }

  lemma {:induction false} DecimalDigits(n: nat)
    ensures Digits(Decimal(n)) && Decimal(n) != []
  {
    if n >= 10 {
      DecimalDigits(n / 10);
    }
  }

  lemma {:induction false} ValueHead(c: char, t: string)
    requires Digits([c] + t)
    ensures Value([c] + t) == (c as int - 48) * Pow10(|t|) + Value(t)
    decreases |t|
  {
    if t == [] {
      assert Front([c] + t) == [] && Last([c] + t) == c;
    } else {
      assert Front([c] + t) == [c] + Front(t) && Last([c] + t) == Last(t);
      assert Digits([c] + Front(t)) by {
        assert forall i :: 0 <= i < |t| ==> ([c] + Front(t))[i] == ([c] + t)[i];
      }
      ValueHead(c, Front(t));
    }
  }

  lemma {:induction false} ValueRange(s: string)
    requires Digits(s)
    ensures 0 <= Value(s) < Pow10(|s|)
    decreases |s|
  {
    if s != [] {
      ValueRange(Front(s));
    }
  }

  lemma {:induction false} ValueZeros(k: nat, s: string)
    requires Digits(s)
    ensures Digits(Zeros(k) + s) && |Zeros(k)| == k && Value(Zeros(k) + s) == Value(s)
    decreases k
  {
    if k == 0 {
      assert Zeros(k) + s == s;
    } else {
      ValueZeros(k - 1, s);
      assert Zeros(k) + s == ['0'] + (Zeros(k - 1) + s);
      ValueHead('0', Zeros(k - 1) + s);
    }
  }

  lemma PaddedValue(n: nat)
    ensures Digits(Padded(n)) && |Padded(n)| >= 5 && Value(Padded(n)) == n
  {
    DecimalDigits(n);
    DecimalValue(n);
    if |Decimal(n)| < 5 {
      ValueZeros(5 - |Decimal(n)|, Decimal(n));
    }
  }

  lemma NameInjective(i: nat, j: nat)
    requires Name(i) == Name(j)
    ensures i == j
  {
    PaddedValue(i);
    PaddedValue(j);
    assert |Name(i)| == 8 + |Padded(i)| + 5 && |Name(j)| == 8 + |Padded(j)| + 5;
    assert Padded(i) == Name(i)[8..8 + |Padded(i)|] && Padded(j) == Name(j)[8..8 + |Padded(j)|];
  }

  lemma NameIsCapture(i: nat)
    ensures IsCapture(Name(i))
  {
    var name := Name(i);
    assert name[..8] == PREFIX;
    assert name[|name| - 5..] == SUFFIX;
  }

  /** Digit strings of one length are ordered as the numbers they denote. */
  lemma {:induction false} OrderIsNumeric(a: string, b: string)
    requires Digits(a) && Digits(b) && |a| == |b|
    ensures Below(a, b) <==> Value(a) <= Value(b)
    decreases |a|
  {
    if a != [] {
      var ta, tb, p := a[1..], b[1..], Pow10(|a| - 1);
      assert a == [a[0]] + ta && b == [b[0]] + tb;
      OrderIsNumeric(ta, tb);
      ValueHead(a[0], ta);
      ValueHead(b[0], tb);
      ValueRange(ta);
      ValueRange(tb);
      LeadDecides(a[0] as int - 48, b[0] as int - 48, Value(ta), Value(tb), p);
    }
  }

  /** A common prefix does not matter. */
  lemma {:induction false} BelowPrefix(p: string, a: string, b: string)
    ensures Below(p + a, p + b) <==> Below(a, b)
    decreases |p|
  {
    if p == [] {
      assert p + a == a && p + b == b;
    } else {
      BelowPrefix(p[1..], a, b);
      assert (p + a)[1..] == p[1..] + a && (p + b)[1..] == p[1..] + b;
    }
  }

  /** A difference in a prefix of one length decides. */
  lemma {:induction false} BelowDiffering(a: string, b: string, x: string, y: string)
    requires |a| == |b| && a != b
    ensures Below(a + x, b + y) <==> Below(a, b)
    decreases |a|
  {
    assert (a + x)[1..] == a[1..] + x && (b + y)[1..] == b[1..] + y;
    if a[0] == b[0] {
      assert a == [a[0]] + a[1..] && b == [b[0]] + b[1..];
      BelowDiffering(a[1..], b[1..], x, y);
    }
  }

  lemma {:induction false} ValuePrefix(s: string, k: nat)
    requires Digits(s) && k <= |s|
    ensures Value(s[..k]) == Value(s) / Pow10(|s| - k)
    decreases |s| - k
  {
    if k == |s| {
      assert s[..k] == s;
    } else {
      ValuePrefix(s, k + 1);
      assert Front(s[..k + 1]) == s[..k] && Last(s[..k + 1]) == s[k];
      var p := Pow10(|s| - k - 1);
      ValueRange(s);
      DivideAgain(Value(s), p);
    }
  }

  lemma DivideAgain(v: int, p: int)
    requires v >= 0 && p > 0
    ensures v / p / 10 == v / (10 * p)
  {
    var q, r := v / p, v % p;
    var q', r' := q / 10, q % 10;
    Regroup(v, p, q', r', r);
    Quotient(v, 10 * p, q', r' * p + r);
  }

  lemma Regroup(v: int, p: int, q: int, r': int, r: int)
    requires v == (10 * q + r') * p + r && 0 <= r < p && 0 <= r' < 10
    ensures v == q * (10 * p) + (r' * p + r) && 0 <= r' * p + r < 10 * p
  {
    assert (10 * q + r') * p == q * (10 * p) + r' * p;
    assert 0 <= r' * p <= 9 * p;
  }

  lemma {:induction false} DecimalWidth(n: nat, k: nat)
    requires k >= 1
    ensures n < Pow10(k) <==> |Decimal(n)| <= k
    decreases n
  {
    if k == 1 {
      assert Pow10(1) == 10 * Pow10(0);
      if n >= 10 {
        DecimalDigits(n / 10);
      }
    } else if n < 10 {
      PowGrows(k);
    } else {
      DecimalWidth(n / 10, k - 1);
    }
  }

  lemma {:induction false} PowGrows(k: nat)
    requires k >= 1
    ensures Pow10(k) >= 10
  {
    if k > 1 {
      PowGrows(k - 1);
    }
  }

  lemma PaddedWidth(n: nat)
    ensures |Padded(n)| == if |Decimal(n)| <= 5 then 5 else |Decimal(n)|
  {
    DecimalDigits(n);
    if |Decimal(n)| < 5 {
      ValueZeros(5 - |Decimal(n)|, Decimal(n));
    }
  }

  lemma WiderIsLarger(i: nat, j: nat)
    requires i <= j
    ensures |Padded(i)| <= |Padded(j)|
  {
    DecimalDigits(j);
    DecimalWidth(j, |Decimal(j)|);
    DecimalWidth(i, |Decimal(j)|);
    PaddedWidth(i);
    PaddedWidth(j);
  }

  /** A shorter digit string, against a longer one that begins with `head` and goes on with `tail`. */
  lemma ShorterName(a: string, head: string, tail: string)
    requires Digits(a) && Digits(head) && Digits(tail) && |a| == |head| && (a != head || tail != [])
    ensures Below(PREFIX + a + SUFFIX, PREFIX + (head + tail) + SUFFIX) <==> Value(a) <= Value(head)
  {
    assert PREFIX + a + SUFFIX == PREFIX + (a + SUFFIX);
    assert PREFIX + (head + tail) + SUFFIX == PREFIX + (head + (tail + SUFFIX));
    BelowPrefix(PREFIX, a + SUFFIX, head + (tail + SUFFIX));
    if a == head {
      BelowPrefix(a, SUFFIX, tail + SUFFIX);
      assert (tail + SUFFIX)[0] == tail[0];
    } else {
      BelowDiffering(a, head, SUFFIX, tail + SUFFIX);
      OrderIsNumeric(a, head);
    }
  }

  lemma OrderByHead(a: string, b: string)
    requires Digits(a) && Digits(b) && |a| <= |b| && a != b
    ensures Below(PREFIX + a + SUFFIX, PREFIX + b + SUFFIX) <==> Value(a) <= Value(b[..|a|])
  {
    var head, tail := b[..|a|], b[|a|..];
    assert b == head + tail;
    assert tail == [] ==> b == head;
    ShorterName(a, head, tail);
  }

  lemma NameOrderByHead(i: nat, j: nat)
    requires |Padded(i)| <= |Padded(j)| && i != j
    ensures Below(Name(i), Name(j)) <==> i <= Value(Padded(j)[..|Padded(i)|])
  {
    PaddedValue(i);
    PaddedValue(j);
    OrderByHead(Padded(i), Padded(j));
  }

  lemma HeadValue(j: nat, k: nat)
    requires k <= |Padded(j)|
    ensures Value(Padded(j)[..k]) == j / Pow10(|Padded(j)| - k)
  {
    PaddedValue(j);
    ValuePrefix(Padded(j), k);
  }

  /** Exactly when names sort in rotation order: for i < j, the name of i comes first if and only if
      i is at most j with its extra digits cut off. */
  lemma NameOrder(i: nat, j: nat)
    requires i < j
    ensures |Padded(i)| <= |Padded(j)|
    ensures Below(Name(i), Name(j)) <==> i <= j / Pow10(|Padded(j)| - |Padded(i)|)
  {
    WiderIsLarger(i, j);
    HeadValue(j, |Padded(i)|);
    NameOrderByHead(i, j);
  }

  lemma FiveWide(n: nat)
    requires n < 100000
    ensures |Padded(n)| == 5
  {
    assert Pow10(5) == 100000 by {
      assert Pow10(1) == 10 && Pow10(2) == 100 && Pow10(3) == 1000;
      assert Pow10(4) == 10000;
    }
    DecimalWidth(n, 5);
    PaddedWidth(n);
  }

  /** Below index 100000 names sort in rotation order, as the cleanup relies on. */
  lemma NamesSortNumerically(i: nat, j: nat)
    requires i < 100000 && j < 100000
    ensures Below(Name(i), Name(j)) <==> i <= j
  {
    FiveWide(i);
    FiveWide(j);
    Reflexive(Name(i));
    if i < j {
      NameOrder(i, j);
    } else if j < i {
      NameOrder(j, i);
      if Below(Name(i), Name(j)) {
        Antisymmetric(Name(i), Name(j));
        NameInjective(i, j);
      }
    }
  }

  lemma SixWide()
    ensures |Padded(100000)| == 6
  {
    assert Decimal(100000) == Decimal(10000) + "0" && |Decimal(10000)| == 5 by {
      assert Decimal(1000) == Decimal(100) + "0" && Decimal(100) == Decimal(10) + "0" && Decimal(10) == "10";
      assert Decimal(10000) == Decimal(1000) + "0";
    }
  }

  /** From there on they do not: file 100000 sorts before file 99999. */
  lemma SixthDigitBreaksOrder()
    ensures !Below(Name(99999), Name(100000))
  {
    FiveWide(99999);
    SixWide();
    NameOrder(99999, 100000);
    assert Pow10(1) == 10 * Pow10(0);
  }

  // ----- what a rotation keeps

  ghost predicate Distinct(s: seq<string>) {
    forall i, j :: 0 <= i < j < |s| ==> s[i] != s[j]
  }

  lemma {:induction false} DistinctSize(s: seq<string>)
    requires Distinct(s)
    ensures |Elements(s)| == |s|
    decreases |s|
  {
    if s != [] {
      DistinctSize(Front(s));
      assert s == Front(s) + [Last(s)];
      assert Elements(s) == Elements(Front(s)) + {Last(s)};
    }
  }

  /** What one bounded directory read yields: distinct entries, as many as the bound allows. */
  ghost predicate Lists(listing: seq<string>, dir: set<string>) {
    && Distinct(listing)
    && (forall i :: 0 <= i < |listing| ==> listing[i] in dir)
    && |listing| == Min(MAX_CLEANUP_ENTRIES, |dir|)
  }

  lemma FullListing(listing: seq<string>, dir: set<string>)
    requires Lists(listing, dir) && |dir| <= MAX_CLEANUP_ENTRIES
    ensures Elements(listing) == dir
  {
    DistinctSize(listing);
    assert dir == Elements(listing) + (dir - Elements(listing));
  }

  lemma {:induction false} CapturesExactly(names: seq<string>)
    requires Distinct(names)
    ensures Distinct(Captures(names))
    ensures forall x :: x in Captures(names) <==> x in names && IsCapture(x)
    decreases |names|
  {
    if names != [] {
      CapturesExactly(Front(names));
      assert names == Front(names) + [Last(names)];
    }
  }

  lemma SortDistinct(s: seq<string>)
    requires Distinct(s)
    ensures Distinct(Sort(s)) && Elements(Sort(s)) == Elements(s) && |Sort(s)| == |s|
  {
    SortCorrect(s);
    SortSize(s);
    var t := Sort(s);
    forall x
      ensures x in t <==> x in s
    {
      assert x in t <==> x in multiset(t);
    }
    assert Elements(t) == Elements(s);
    DistinctSize(s);
    SizeDistinct(t);
  }

  lemma {:induction false} ElementsBound(s: seq<string>)
    ensures |Elements(s)| <= |s|
    decreases |s|
  {
    if s != [] {
      ElementsBound(Front(s));
      assert s == Front(s) + [Last(s)];
      assert Elements(s) == Elements(Front(s)) + {Last(s)};
    }
  }

  lemma {:induction false} SizeDistinct(s: seq<string>)
    requires |Elements(s)| == |s|
    ensures Distinct(s)
    decreases |s|
  {
    if s != [] {
      assert s == Front(s) + [Last(s)];
      assert Elements(s) == Elements(Front(s)) + {Last(s)};
      ElementsBound(Front(s));
      SizeDistinct(Front(s));
      assert Last(s) !in Elements(Front(s));
    }
  }

  lemma DoomedHead(head: string, rest: seq<string>, current: string, quota: nat, k: nat)
    requires k <= |rest| && head != current && head !in rest
    requires Distinct(Doomed(rest, current, quota))
    requires forall x :: x in Doomed(rest, current, quota) <==> x in rest[..k] && x != current
    ensures var all := [head] + Doomed(rest, current, quota);
            Distinct(all) && forall x :: x in all <==> x in [head] + rest[..k] && x != current
  {
    var doomed := Doomed(rest, current, quota);
    assert forall x :: x in rest[..k] ==> x in rest;
    assert forall i :: 0 <= i < |doomed| ==> doomed[i] in doomed;
  }

  /** The removal loop takes a prefix of the list, apart from the current file. */
  lemma {:induction false} DoomedPrefix(names: seq<string>, current: string, quota: nat) returns (k: nat)
    requires Distinct(names) && quota <= |names| - if current in names then 1 else 0
    ensures k <= |names| && |Doomed(names, current, quota)| == quota && Distinct(Doomed(names, current, quota))
    ensures forall x :: x in Doomed(names, current, quota) <==> x in names[..k] && x != current
    decreases |names|
  {
    if names == [] || quota == 0 {
      k := 0;
    } else {
      var rest := names[1..];
      assert names == [names[0]] + rest;
      var quota' := if names[0] == current then quota else quota - 1;
      var k' := DoomedPrefix(rest, current, quota');
      k := k' + 1;
      assert names[..k] == [names[0]] + rest[..k'];
      if names[0] != current {
        DoomedHead(names[0], rest, current, quota', k');
        assert Doomed(names, current, quota) == [names[0]] + Doomed(rest, current, quota');
      }
    }
  }

  lemma {:induction false} UnlinkedAll(dir: set<string>, names: seq<string>, stuck: set<string>)
    ensures UnlinkAll(dir, names, stuck) == dir - (Elements(names) - stuck)
    decreases |names|
  {
    if names != [] {
      UnlinkedAll(Unlink(dir, names[0], stuck), names[1..], stuck);
      assert names == [names[0]] + names[1..];
      assert Elements(names) == {names[0]} + Elements(names[1..]);
    }
  }

  ghost function CapturesIn(dir: set<string>): set<string> {
    set x | x in dir && IsCapture(x)
  }

  /** The survivors of a cleanup: as many as allowed, the current file, and the youngest by name. */
  ghost predicate Retained(maxFiles: nat, before: set<string>, after: set<string>, current: string) {
    && |CapturesIn(after)| == Min(|CapturesIn(before)|, maxFiles)
    && current in after && after <= before
    && (forall x :: x in before && !IsCapture(x) ==> x in after)
    && (forall x, y :: x in CapturesIn(after) && x != current && y in before && y !in after ==> Below(y, x))
  }

  lemma PrefixIsBelow(names: seq<string>, k: nat, x: string, y: string)
    requires Sorted(names) && k <= |names| && y in names[..k] && x in names && x !in names[..k]
    ensures Below(y, x)
  {
    var i :| 0 <= i < k && names[i] == y;
    var j :| 0 <= j < |names| && names[j] == x;
    assert j >= k;
  }

  lemma MatchesAreCaptures(listing: seq<string>, dir: set<string>)
    requires Lists(listing, dir) && |dir| <= MAX_CLEANUP_ENTRIES
    ensures Distinct(Captures(listing)) && Elements(Captures(listing)) == CapturesIn(dir)
    ensures |CapturesIn(dir)| == |Captures(listing)|
  {
    FullListing(listing, dir);
    CapturesExactly(listing);
    assert forall x :: x in listing <==> x in Elements(listing);
    assert Elements(Captures(listing)) == CapturesIn(dir);
    DistinctSize(Captures(listing));
  }

  lemma SortedScanRetains(maxFiles: nat, dir: set<string>, matches: seq<string>, current: string)
    requires Distinct(matches) && Elements(matches) == CapturesIn(dir) && current in dir && IsCapture(current)
    requires 0 < maxFiles < |matches|
    ensures Retained(maxFiles, dir, UnlinkAll(dir, Doomed(Sort(matches), current, |matches| - maxFiles), {}), current)
  {
    SortDistinct(matches);
    SortCorrect(matches);
    assert current in Elements(Sort(matches));
    RemovalRetains(maxFiles, dir, Sort(matches), current);
  }

  lemma ScanRetains(maxFiles: nat, dir: set<string>, index: nat, d: Disk)
    requires maxFiles > 0 && Name(index) in dir && |dir| <= MAX_CLEANUP_ENTRIES
    requires d.listing.Some? && Lists(d.listing.value, dir) && d.stuck == {}
    ensures Retained(maxFiles, dir, Scan(maxFiles, dir, index, d), Name(index))
  {
    var matches := Captures(d.listing.value);
    MatchesAreCaptures(d.listing.value, dir);
    if |matches| > maxFiles {
      NameIsCapture(index);
      SortedScanRetains(maxFiles, dir, matches, Name(index));
    }
  }

  lemma RemovalCounts(dir: set<string>, sorted: seq<string>, doomed: seq<string>)
    requires Distinct(sorted) && Distinct(doomed) && Elements(sorted) == CapturesIn(dir)
    requires Elements(doomed) <= Elements(sorted)
    ensures |CapturesIn(dir - Elements(doomed))| == |sorted| - |doomed| && |CapturesIn(dir)| == |sorted|
  {
    DistinctSize(sorted);
    DistinctSize(doomed);
    assert CapturesIn(dir - Elements(doomed)) == Elements(sorted) - Elements(doomed);
  }

  lemma PrefixElements(names: seq<string>, doomed: seq<string>, current: string, k: nat)
    requires k <= |names| && forall x :: x in doomed <==> x in names[..k] && x != current
    ensures Elements(doomed) <= Elements(names) && current !in Elements(doomed)
  {
    assert forall x :: x in names[..k] ==> x in names;
  }

  lemma RemovalRetains(maxFiles: nat, dir: set<string>, sorted: seq<string>, current: string)
    requires Distinct(sorted) && Sorted(sorted) && Elements(sorted) == CapturesIn(dir)
    requires current in sorted && 0 < maxFiles < |sorted|
    ensures Retained(maxFiles, dir, UnlinkAll(dir, Doomed(sorted, current, |sorted| - maxFiles), {}), current)
  {
    var doomed := Doomed(sorted, current, |sorted| - maxFiles);
    var k := DoomedPrefix(sorted, current, |sorted| - maxFiles);
    PrefixElements(sorted, doomed, current, k);
    RemovalCounts(dir, sorted, doomed);
    UnlinkedAll(dir, doomed, {});
    var after := UnlinkAll(dir, doomed, {});
    assert after == dir - Elements(doomed);
    assert current in Elements(sorted);
    forall x, y | x in CapturesIn(after) && x != current && y in dir && y !in after
      ensures Below(y, x)
    {
      assert y in doomed && x !in doomed && x in Elements(sorted);
      PrefixIsBelow(sorted, k, x, y);
    }
  }

  /** What the scan of a successful rotation finds. */
  function Found(cfg: Config, s: State): set<string> {
    DropOwn(cfg.maxFiles, s.dir + {Name(s.index + 1)}, s.index + 1, {})
  }

  /** After every successful rotation that could list the whole directory and remove what it chose,
      the number of capture files is the smaller of what the scan found and the limit, the current
      file is among them, and every other survivor sorts after every file that was scanned away. */
  lemma RotationRetains(cfg: Config, s: State, d: Disk)
    requires cfg.maxFiles > 0 && Rotates(d) && d.stuck == {} && d.listing.Some?
    requires |Found(cfg, s)| <= MAX_CLEANUP_ENTRIES && Lists(d.listing.value, Found(cfg, s))
    ensures Retained(cfg.maxFiles, Found(cfg, s), Rotated(cfg, s, d).dir, Name(s.index + 1))
  {
    var n := s.index + 1;
    if n - cfg.maxFiles >= 1 && Name(n - cfg.maxFiles) == Name(n) {
      NameInjective(n - cfg.maxFiles, n);
    }
    ScanRetains(cfg.maxFiles, Found(cfg, s), n, d);
  }

  /** The scan keeps an older file of the program and removes a newer one only if the older index is
      larger than the newer one with its extra digits cut off, so never below index 100000. */
  lemma InversionNeedsSixDigits(cfg: Config, s: State, d: Disk, i: nat, j: nat)
    requires cfg.maxFiles > 0 && Rotates(d) && d.stuck == {} && d.listing.Some?
    requires |Found(cfg, s)| <= MAX_CLEANUP_ENTRIES && Lists(d.listing.value, Found(cfg, s))
    requires i < j && Name(i) in Rotated(cfg, s, d).dir && i != s.index + 1
    requires Name(j) in Found(cfg, s) && Name(j) !in Rotated(cfg, s, d).dir
    ensures |Padded(i)| <= |Padded(j)| && i > j / Pow10(|Padded(j)| - |Padded(i)|)
    ensures j >= 100000
  {
    RotationRetains(cfg, s, d);
    NameIsCapture(i);
    if Name(i) == Name(s.index + 1) {
      NameInjective(i, s.index + 1);
    }
    assert Below(Name(j), Name(i));
    NameOrder(i, j);
    if Below(Name(i), Name(j)) {
      Antisymmetric(Name(i), Name(j));
      NameInjective(i, j);
    }
    if j < 100000 {
      NamesSortNumerically(i, j);
    }
  }

  lemma {:induction false} ThreeNames(a: nat, b: nat, c: nat)
    requires a < b < c
    ensures Name(a) != Name(b) && Name(b) != Name(c) && Name(a) != Name(c)
  {
    if Name(a) == Name(b) {
      NameInjective(a, b);
    } else if Name(b) == Name(c) {
      NameInjective(b, c);
    } else if Name(a) == Name(c) {
      NameInjective(a, c);
    }
  }

  lemma TwoOfThree(s: set<string>, x: string, y: string, z: string)
    requires s <= {x, y, z} && |s| == 2 && z in s
    ensures s == {x, z} || s == {y, z}
  {
    var rest := s - {z};
    assert |rest| == 1 && rest != {};
    var w :| w in rest;
    assert |rest - {w}| == 0;
    assert s == {w, z};
  }

  lemma RetainedOfThree(after: set<string>, x: string, y: string, z: string)
    requires Retained(2, {x, y, z}, after, z) && IsCapture(x) && IsCapture(y) && IsCapture(z)
    requires x != y && y != z && x != z
    ensures after == {if Below(x, y) then y else x, z}
  {
    assert CapturesIn({x, y, z}) == {x, y, z} && |{x, y, z}| == 3;
    assert CapturesIn(after) == after;
    TwoOfThree(after, x, y, z);
    if Below(x, y) && Below(y, x) {
      Antisymmetric(x, y);
    }
  }

  lemma ThreeAtMost(x: string, y: string, z: string)
    ensures |{x, y, z}| <= 3
  {
  }

  lemma ThreeRemain(a: string, b: string, c: string, gone: string)
    requires gone != a && gone != b && gone != c
    ensures ({a, b} + {c}) - {gone} == {a, b, c} && |{a, b, c}| <= 3
  {
    ThreeAtMost(a, b, c);
  }

  lemma FoundThree(cfg: Config, s: State, i: nat, a: string, b: string, c: string)
    requires cfg.maxFiles == 2 && i + 1 < s.index && s.dir == {a, b}
    requires a == Name(i) && b == Name(s.index) && c == Name(s.index + 1)
    ensures Found(cfg, s) == {a, b, c} && |{a, b, c}| <= MAX_CLEANUP_ENTRIES
  {
    ThreeNames(i, s.index - 1, s.index);
    ThreeNames(s.index - 1, s.index, s.index + 1);
    ThreeRemain(a, b, c, Name(s.index - 1));
  }

  /** With room for two files, one of which a leftover `i` takes, the next rotation keeps the program's
      own latest file if its name sorts after the leftover's, and else removes it and keeps the leftover. */
  lemma LeftoverOrLatest(cfg: Config, s: State, d: Disk, i: nat)
    requires cfg.maxFiles == 2 && Rotates(d) && d.stuck == {} && d.listing.Some?
    requires i + 1 < s.index && s.dir == {Name(i), Name(s.index)}
    requires Lists(d.listing.value, {Name(i), Name(s.index), Name(s.index + 1)})
    ensures Rotated(cfg, s, d).dir ==
            {if Below(Name(i), Name(s.index)) then Name(s.index) else Name(i), Name(s.index + 1)}
  {
    FoundThree(cfg, s, i, Name(i), Name(s.index), Name(s.index + 1));
    RotationRetains(cfg, s, d);
    NameIsCapture(i);
    NameIsCapture(s.index);
    NameIsCapture(s.index + 1);
    ThreeNames(i, s.index, s.index + 1);
    RetainedOfThree(Rotated(cfg, s, d).dir, Name(i), Name(s.index), Name(s.index + 1));
  }

  /** That happens, against the comment that sorted names are oldest first: rotation 100001 keeps any
      leftover of 10001 to 99998 and removes file 100000, written just before. */
  lemma InvertedRetention(d: Disk, i: nat, open: bool, packets: nat)
    requires 10000 < i < 99999 && Rotates(d) && d.stuck == {} && d.listing.Some?
    requires Lists(d.listing.value, {Name(i), Name(100000), Name(100001)})
    ensures Rotated(Config(2, 1), State({Name(i), Name(100000)}, 100000, open, packets), d).dir == {Name(i), Name(100001)}
  {
    var s := State({Name(i), Name(100000)}, 100000, open, packets);
    assert s.dir + {Name(100001)} == {Name(i), Name(100000), Name(100001)};
    SixWide();
    FiveWide(i);
    NameOrder(i, 100000);
    assert Pow10(1) == 10 * Pow10(0);
    LeftoverOrLatest(Config(2, 1), s, d, i);
  }

  // ----- every run

  datatype Op = Op(size: nat, disk: Disk, written: bool)

  function Taken(cfg: Config, s: State, op: Op): State {
    Step(cfg, s, op.size, op.disk, op.written)
  }

  ghost predicate StepAt(cfg: Config, states: seq<State>, ops: seq<Op>, i: int) {
    0 <= i < |ops| && i + 1 < |states| && states[i + 1] == Taken(cfg, states[i], ops[i])
  }

  ghost predicate IsRun(cfg: Config, states: seq<State>, ops: seq<Op>) {
    && |states| == |ops| + 1
    && states[0].index == 0 && !states[0].open && states[0].packets == 0
    && forall i :: 0 <= i < |ops| ==> StepAt(cfg, states, ops, i)
  }

  lemma {:induction false} DoomedSpares(names: seq<string>, current: string, quota: int)
    ensures current !in Doomed(names, current, quota)
    decreases |names|
  {
    if names != [] && quota > 0 {
      DoomedSpares(names[1..], current, if names[0] == current then quota else quota - 1);
    }
  }

  lemma CleanedSpares(maxFiles: nat, dir: set<string>, index: nat, d: Disk)
    requires maxFiles > 0 && Name(index) in dir
    ensures Name(index) in Cleaned(maxFiles, dir, index, d) && Cleaned(maxFiles, dir, index, d) <= dir
  {
    if index - maxFiles >= 1 && Name(index - maxFiles) == Name(index) {
      NameInjective(index - maxFiles, index);
    }
    ScanSpares(maxFiles, DropOwn(maxFiles, dir, index, d.stuck), index, d);
  }

  lemma ScanSpares(maxFiles: nat, dir: set<string>, index: nat, d: Disk)
    ensures Scan(maxFiles, dir, index, d) <= dir
    ensures Name(index) in dir ==> Name(index) in Scan(maxFiles, dir, index, d)
  {
    if d.listing.Some? {
      var matches := Captures(d.listing.value);
      DoomedSpares(Sort(matches), Name(index), |matches| - maxFiles);
      UnlinkedAll(dir, Doomed(Sort(matches), Name(index), |matches| - maxFiles), d.stuck);
    }
  }

  ghost predicate Writable(cfg: Config, s: State) {
    (s.open ==> Name(s.index) in s.dir) && s.packets <= cfg.maxPackets
  }

  lemma StaysWritable(cfg: Config, s: State, op: Op)
    requires Writable(cfg, s) && cfg.maxFiles > 0 && cfg.maxPackets > 0
    ensures Writable(cfg, Taken(cfg, s, op))
  {
    CleanedSpares(cfg.maxFiles, s.dir + {Name(s.index + 1)}, s.index + 1, op.disk);
  }

  /** The file being written is never unlinked, whatever the directory holds and however reads,
      opens and removals fail, and no file gets more than its share of packets. */
  lemma {:induction false} CurrentFileSurvives(cfg: Config, states: seq<State>, ops: seq<Op>, n: nat)
    requires IsRun(cfg, states, ops) && n <= |ops| && cfg.maxFiles > 0 && cfg.maxPackets > 0
    ensures states[n].open ==> Name(states[n].index) in states[n].dir
    ensures states[n].packets <= cfg.maxPackets
    decreases n
  {
    if n > 0 {
      CurrentFileSurvives(cfg, states, ops, n - 1);
      assert StepAt(cfg, states, ops, n - 1);
      StaysWritable(cfg, states[n - 1], ops[n - 1]);
    }
  }

  /** The name is not of the form the writer gives its files. */
  predicate Foreign(name: string) {
    !("blocked_" <= name) || |name| < 5 || name[|name| - 5..] != ".pcap"
  }

  lemma ForeignIsNoCapture(name: string)
    requires Foreign(name)
    ensures !IsCapture(name)
  {
  }

  lemma {:induction false} DoomedFromList(names: seq<string>, current: string, quota: int, x: string)
    requires x in Doomed(names, current, quota)
    ensures x in names
    decreases |names|
  {
    if names != [] && quota > 0 && x != names[0] {
      DoomedFromList(names[1..], current, if names[0] == current then quota else quota - 1, x);
    }
  }

  lemma {:induction false} CapturesOnly(names: seq<string>, x: string)
    requires x in Captures(names)
    ensures IsCapture(x)
    decreases |names|
  {
    if names != [] && x in Captures(Front(names)) {
      CapturesOnly(Front(names), x);
    }
  }

  lemma SortFromList(names: seq<string>, x: string)
    requires x in Sort(names)
    ensures x in names
  {
    SortCorrect(names);
    assert x in multiset(Sort(names));
  }

  lemma ScanSparesForeign(maxFiles: nat, dir: set<string>, index: nat, d: Disk, x: string)
    requires x in dir && !IsCapture(x)
    ensures x in Scan(maxFiles, dir, index, d)
  {
    if d.listing.Some? {
      var matches := Captures(d.listing.value);
      var doomed := Doomed(Sort(matches), Name(index), |matches| - maxFiles);
      if x in doomed {
        DoomedFromList(Sort(matches), Name(index), |matches| - maxFiles, x);
        SortFromList(matches, x);
        CapturesOnly(d.listing.value, x);
      }
      UnlinkedAll(dir, doomed, d.stuck);
    }
  }

  lemma TakenSparesForeign(cfg: Config, s: State, op: Op, x: string)
    requires x in s.dir && !IsCapture(x)
    ensures x in Taken(cfg, s, op).dir
  {
    var n := s.index + 1;
    var grown := s.dir + {Name(n)};
    if n - cfg.maxFiles >= 1 {
      NameIsCapture(n - cfg.maxFiles);
    }
    ScanSparesForeign(cfg.maxFiles, DropOwn(cfg.maxFiles, grown, n, op.disk.stuck), n, op.disk, x);
  }

  /** No run removes a file whose name is not of that form, whatever else is in the directory. */
  lemma {:induction false} ForeignFilesStay(cfg: Config, states: seq<State>, ops: seq<Op>, n: nat, x: string)
    requires IsRun(cfg, states, ops) && n <= |ops| && x in states[0].dir && Foreign(x)
    ensures x in states[n].dir
    decreases n
  {
    if n > 0 {
      ForeignFilesStay(cfg, states, ops, n - 1, x);
      assert StepAt(cfg, states, ops, n - 1);
      ForeignIsNoCapture(x);
      TakenSparesForeign(cfg, states[n - 1], ops[n - 1], x);
    }
  }

  /** A packet is counted when it is not oversized, a file could be opened for it if one was due, and it
      was written. */
  ghost predicate Succeeds(cfg: Config, s: State, op: Op) {
    op.size <= 65536 && (NeedsRotation(cfg, s) ==> Rotates(op.disk)) && op.written
  }

  ghost predicate Turns(cfg: Config, s: State, op: Op) {
    op.size <= 65536 && NeedsRotation(cfg, s) && Rotates(op.disk)
  }

  ghost function SuccessesIn(cfg: Config, states: seq<State>, ops: seq<Op>, r: nat, n: nat): nat
    requires r <= n <= |ops| <= |states|
    decreases n
  {
    if r == n then 0
    else SuccessesIn(cfg, states, ops, r, n - 1) + if Succeeds(cfg, states[n - 1], ops[n - 1]) then 1 else 0
  }

  /** The packet count is the number of packets written since the current file was opened by operation `r`:
      oversized packets, failed writes and failed rotations do not count. */
  lemma {:induction false} PacketsCounted(cfg: Config, states: seq<State>, ops: seq<Op>, r: nat, n: nat)
    requires IsRun(cfg, states, ops) && r < n <= |ops| && Turns(cfg, states[r], ops[r])
    requires forall i :: r < i < n ==> !Turns(cfg, states[i], ops[i])
    ensures states[n].packets == SuccessesIn(cfg, states, ops, r, n)
    decreases n
  {
    assert StepAt(cfg, states, ops, n - 1);
    if n > r + 1 {
      PacketsCounted(cfg, states, ops, r, n - 1);
    } else {
      assert SuccessesIn(cfg, states, ops, r, r) == 0;
    }
  }

  /** What is left when no file can be opened for a packet: nothing changes if the path is refused; else the
      old file is closed and the index used up, and a file that was created stays without a header. */
  lemma FailedRotationLeaves(cfg: Config, s: State, op: Op)
    requires op.size <= 65536 && NeedsRotation(cfg, s) && !Rotates(op.disk)
    ensures Taken(cfg, s, op) ==
            if !op.disk.pathOk then s
            else State(s.dir + if op.disk.openOk then {Name(s.index + 1)} else {}, s.index + 1, false, s.packets)
  {
    assert s.dir + {} == s.dir;
  }

  /** Oversized packets are not written at all. */
  lemma OversizedIsSkipped(cfg: Config, s: State, op: Op)
    requires op.size > 65536
    ensures Taken(cfg, s, op) == s
  {
  }

  /** With nothing configured, ten files of ten thousand packets are kept. */
  lemma DefaultRetention(maxFiles: int, maxPackets: int)
    ensures Defaults(maxFiles, maxPackets).maxFiles == (if maxFiles > 0 then maxFiles else 10)
    ensures Defaults(maxFiles, maxPackets).maxPackets == (if maxPackets > 0 then maxPackets else 10000)
  {
  }

  /** The operation moves the writer on to index `n`. */
  ghost predicate Advances(cfg: Config, s: State, op: Op, n: nat) {
    op.size <= MAX_PACKET_SIZE && NeedsRotation(cfg, s) && op.disk.pathOk && s.index + 1 == n
  }

  /** File `i` does not come back once the writer is past it. */
  lemma StaysGone(cfg: Config, s: State, op: Op, i: nat)
    requires cfg.maxFiles > 0 && i <= s.index && Name(i) !in s.dir
    ensures Name(i) !in Taken(cfg, s, op).dir && s.index <= Taken(cfg, s, op).index
  {
    CleanedSpares(cfg.maxFiles, s.dir + {Name(s.index + 1)}, s.index + 1, op.disk);
    if Name(i) == Name(s.index + 1) {
      NameInjective(i, s.index + 1);
    }
  }

  lemma OwnFileDropped(cfg: Config, s: State, op: Op, i: nat)
    requires cfg.maxFiles > 0 && i >= 1
    requires Advances(cfg, s, op, i + cfg.maxFiles) && Rotates(op.disk) && Name(i) !in op.disk.stuck
    ensures Name(i) !in Taken(cfg, s, op).dir && Taken(cfg, s, op).index == i + cfg.maxFiles
  {
    var n := i + cfg.maxFiles;
    ScanSpares(cfg.maxFiles, DropOwn(cfg.maxFiles, s.dir + {Name(n)}, n, op.disk.stuck), n, op.disk);
  }

  /** Retention by index does not need the directory read: once rotation i + maxFiles has succeeded,
      file i is gone for the rest of the run. */
  lemma {:induction false} OwnFileGone(cfg: Config, states: seq<State>, ops: seq<Op>, m: nat, n: nat, i: nat)
    requires IsRun(cfg, states, ops) && m < n <= |ops| && cfg.maxFiles > 0 && i >= 1
    requires Advances(cfg, states[m], ops[m], i + cfg.maxFiles) && Rotates(ops[m].disk) && Name(i) !in ops[m].disk.stuck
    ensures Name(i) !in states[n].dir && i + cfg.maxFiles <= states[n].index
    decreases n
  {
    assert StepAt(cfg, states, ops, n - 1);
    if n == m + 1 {
      OwnFileDropped(cfg, states[m], ops[m], i);
    } else {
      OwnFileGone(cfg, states, ops, m, n - 1, i);
      StaysGone(cfg, states[n - 1], ops[n - 1], i);
    }
  }

  /** A rotation that cannot list the directory removes the one file its index names. */
  lemma StaysWithoutListing(cfg: Config, s: State, op: Op, i: nat)
    requires cfg.maxFiles > 0 && i + cfg.maxFiles <= s.index && Name(i) in s.dir && op.disk.listing.None?
    ensures Name(i) in Taken(cfg, s, op).dir && s.index <= Taken(cfg, s, op).index
  {
    var j := s.index + 1 - cfg.maxFiles;
    if j >= 1 && Name(i) == Name(j) {
      NameInjective(i, j);
    }
  }

  /** One rotation without a listing keeps file i exactly when it fails, or its removal does. */
  lemma KeptByRotation(cfg: Config, s: State, op: Op, i: nat)
    requires cfg.maxFiles > 0 && i >= 1 && Advances(cfg, s, op, i + cfg.maxFiles) && op.disk.listing.None?
    ensures Name(i) in Taken(cfg, s, op).dir <==> Name(i) in s.dir && (!Rotates(op.disk) || Name(i) in op.disk.stuck)
    ensures Taken(cfg, s, op).index == i + cfg.maxFiles
  {
    if Name(i) == Name(i + cfg.maxFiles) {
      NameInjective(i, i + cfg.maxFiles);
    }
  }

  /** Exactly when retention by index fails: in a run that cannot list the directory from rotation
      i + maxFiles on, file i is still there if and only if it was there and that rotation failed, or
      its removal did. A failed rotation consumes its index without cleaning up. */
  lemma {:induction false} OwnFileKeptExactly(cfg: Config, states: seq<State>, ops: seq<Op>, m: nat, n: nat, i: nat)
    requires IsRun(cfg, states, ops) && m < n <= |ops| && cfg.maxFiles > 0 && i >= 1
    requires Advances(cfg, states[m], ops[m], i + cfg.maxFiles)
    requires forall k :: m <= k < n ==> ops[k].disk.listing.None?
    ensures Name(i) in states[n].dir <==>
              Name(i) in states[m].dir && (!Rotates(ops[m].disk) || Name(i) in ops[m].disk.stuck)
    ensures i + cfg.maxFiles <= states[n].index
    decreases n
  {
    assert StepAt(cfg, states, ops, n - 1);
    if n == m + 1 {
      KeptByRotation(cfg, states[m], ops[m], i);
    } else {
      OwnFileKeptExactly(cfg, states, ops, m, n - 1, i);
      if Name(i) in states[n - 1].dir {
        StaysWithoutListing(cfg, states[n - 1], ops[n - 1], i);
      } else {
        StaysGone(cfg, states[n - 1], ops[n - 1], i);
      }
    }
  }

  const SMALL := Config(1, 1)
  const FINE := Op(0, Disk(true, true, true, None, {}), true)
  const BROKEN := Op(0, Disk(true, false, false, None, {}), true)

  lemma SmallRotates(dir: set<string>, index: nat, packets: nat)
    requires Name(index) !in dir
    ensures Taken(SMALL, State(dir, index, false, packets), FINE) == State(dir + {Name(index + 1)}, index + 1, true, 1)
  {
    if Name(index) == Name(index + 1) {
      NameInjective(index, index + 1);
    }
    var grown := dir + {Name(index + 1)};
    assert grown - {Name(index)} == grown;
    assert DropOwn(1, grown, index + 1, {}) == grown;
  }

  /** Such a run, from an empty directory with room for one file: rotation 2 cannot open its file, and
      after rotation 3 both files 1 and 3 are there although every removal worked. */
  lemma FailedRotationExample() returns (states: seq<State>, ops: seq<Op>)
    ensures IsRun(SMALL, states, ops) && |ops| == 3 && states[0].dir == {}
    ensures forall k :: 0 <= k < 3 ==> ops[k].disk.stuck == {}
    ensures states[3].dir == {Name(1), Name(3)} && Name(1) != Name(3)
  {
    ops := [FINE, BROKEN, FINE];
    var s1, s2, s3 := State({Name(1)}, 1, true, 1), State({Name(1)}, 2, false, 1), State({Name(1), Name(3)}, 3, true, 1);
    states := [State({}, 0, false, 0), s1, s2, s3];
    SmallRotates({}, 0, 0);
    assert StepAt(SMALL, states, ops, 0);
    assert StepAt(SMALL, states, ops, 1);
    if Name(1) == Name(2) {
      NameInjective(1, 2);
    }
    if Name(1) == Name(3) {
      NameInjective(1, 3);
    }
    SmallRotates({Name(1)}, 2, 1);
    assert StepAt(SMALL, states, ops, 2);
  }
}
