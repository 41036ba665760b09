/** Rotating capture files (internal/capture/capture.go) over a directory given as a set of names. */
module Capture {
  import opened Util
  import opened Decimals
  import opened StringOrder

  const MAX_PACKET_SIZE := 65536
  const MAX_CLEANUP_ENTRIES := 4096

  const PREFIX := "blocked_"
  const SUFFIX := ".pcap"

  /** `%05d` */
  function Padded(n: nat): string {
    var d := Decimal(n);
    if |d| >= 5 then d else Zeros(5 - |d|) + d
  }

  function Zeros(k: nat): string {
    if k == 0 then "" else "0" + Zeros(k - 1)
  }

  function Name(n: nat): string {
    PREFIX + Padded(n) + SUFFIX
  }

  predicate IsCapture(name: string) {
    |name| >= |PREFIX| && name[..|PREFIX|] == PREFIX && |name| >= |SUFFIX| && name[|name| - |SUFFIX|..] == SUFFIX
  }

  datatype Config = Config(maxFiles: nat, maxPackets: nat)

  function Defaults(maxFiles: int, maxPackets: int): Config {
    Config(if maxFiles <= 0 then 10 else maxFiles, if maxPackets <= 0 then 10000 else maxPackets)
  }

  datatype State = State(dir: set<string>, index: nat, open: bool, packets: nat)

  /** What the file system does during one rotation: whether the path check, the open and the header
      write succeed, what the directory read yields (`None` if it fails), and which removals fail. */
  datatype Disk = Disk(
    pathOk: bool, openOk: bool, headerOk: bool, listing: Option<seq<string>>, stuck: set<string>)

  function Unlink(dir: set<string>, name: string, stuck: set<string>): set<string> {
    if name in stuck then dir else dir - {name}
  }

  function Captures(names: seq<string>): seq<string> {
    if names == [] then []
    else Captures(Front(names)) + if IsCapture(Last(names)) then [Last(names)] else []
  }

  /** The first `quota` names other than the current one. */
  function Doomed(names: seq<string>, current: string, quota: int): seq<string> {
    if names == [] || quota <= 0 then []
    else if names[0] == current then Doomed(names[1..], current, quota)
    else [names[0]] + Doomed(names[1..], current, quota - 1)
  }

  function UnlinkAll(dir: set<string>, names: seq<string>, stuck: set<string>): set<string> {
    if names == [] then dir else UnlinkAll(Unlink(dir, names[0], stuck), names[1..], stuck)
  }

  /** Removal by index: the file created `maxFiles` rotations ago. */
  function DropOwn(maxFiles: nat, dir: set<string>, index: nat, stuck: set<string>): set<string> {
    if index - maxFiles >= 1 then Unlink(dir, Name(index - maxFiles), stuck) else dir
  }

  /** Removal by scan. */
  function Scan(maxFiles: nat, dir: set<string>, index: nat, d: Disk): set<string> {
    if d.listing.None? then dir
    else
      var matches := Captures(d.listing.value);
      if |matches| <= maxFiles then dir
      else UnlinkAll(dir, Doomed(Sort(matches), Name(index), |matches| - maxFiles), d.stuck)
  }

  function Cleaned(maxFiles: nat, dir: set<string>, index: nat, d: Disk): set<string> {
    Scan(maxFiles, DropOwn(maxFiles, dir, index, d.stuck), index, d)
  }

  predicate Rotates(d: Disk) {
    d.pathOk && d.openOk && d.headerOk
  }

  function Rotated(cfg: Config, s: State, d: Disk): State {
    if !d.pathOk then s
    else
      var n := s.index + 1;
      if !d.openOk then s.(open := false, index := n)
      else if !d.headerOk then s.(open := false, index := n, dir := s.dir + {Name(n)})
      else State(Cleaned(cfg.maxFiles, s.dir + {Name(n)}, n, d), n, true, 0)
  }

  predicate NeedsRotation(cfg: Config, s: State) {
    !s.open || s.packets >= cfg.maxPackets
  }

  /** One blocked packet; `written` tells whether the packet write succeeds. */
  function Step(cfg: Config, s: State, size: nat, d: Disk, written: bool): State {
    if size > MAX_PACKET_SIZE then s
    else
      var r := if NeedsRotation(cfg, s) then Rotated(cfg, s, d) else s;
      if NeedsRotation(cfg, s) && !Rotates(d) then r
      else if written then r.(packets := r.packets + 1) else r
  }

  lemma DoomedStep(dir: set<string>, sorted: seq<string>, i: nat, current: string, quota: int, stuck: set<string>)
    requires i < |sorted| && quota > 0
    ensures UnlinkAll(dir, Doomed(sorted[i..], current, quota), stuck)
            == if sorted[i] == current then UnlinkAll(dir, Doomed(sorted[i + 1..], current, quota), stuck)
               else UnlinkAll(Unlink(dir, sorted[i], stuck), Doomed(sorted[i + 1..], current, quota - 1), stuck)
  {
    var rest := sorted[i..];
    assert rest[0] == sorted[i] && rest[1..] == sorted[i + 1..];
    if sorted[i] != current {
      var doomed := Doomed(rest, current, quota);
      assert doomed[0] == sorted[i] && doomed[1..] == Doomed(sorted[i + 1..], current, quota - 1);
    }
  }

  // ----- the writer as it runs

  method Matching(names: seq<string>) returns (matches: seq<string>)
    ensures matches == Captures(names)
  {
    matches := [];
    for i := 0 to |names|
      invariant matches == Captures(names[..i])
    {
      assert Front(names[..i + 1]) == names[..i];
      if IsCapture(names[i]) {
        matches := matches + [names[i]];
      }
    }
    assert names[..|names|] == names;
  }

  class Writer {
    const cfg: Config
    var dir: set<string>
    var curFileN: nat
    var open: bool
    var pktCount: nat
    var closed: bool

    function Model(): State
      reads this
    {
      State(dir, curFileN, open, pktCount)
    }

    constructor (maxFiles: int, maxPackets: int, dir: set<string>)
      ensures cfg == Defaults(maxFiles, maxPackets) && Model() == State(dir, 0, false, 0) && !closed
    {
      cfg, this.dir := Defaults(maxFiles, maxPackets), dir;
      curFileN, open, pktCount, closed := 0, false, 0, false;
    }

    method CleanupLocked(d: Disk)
      modifies this`dir
      ensures dir == Cleaned(cfg.maxFiles, old(dir), curFileN, d)
    {
      var oldIdx := curFileN - cfg.maxFiles;
      if oldIdx >= 1 {
        dir := Unlink(dir, Name(oldIdx), d.stuck);
      }
      ScanDirectory(d);
    }

    method ScanDirectory(d: Disk)
      modifies this`dir
      ensures dir == Scan(cfg.maxFiles, old(dir), curFileN, d)
    {
      if d.listing.None? {
        return;
      }
      var matches := Matching(d.listing.value);
      if |matches| <= cfg.maxFiles {
        return;
      }
      SortSize(matches);
      RemoveOldest(Sort(matches), d.stuck);
    }

    method RemoveOldest(sorted: seq<string>, stuck: set<string>)
      modifies this`dir
      ensures dir == UnlinkAll(old(dir), Doomed(sorted, Name(curFileN), |sorted| - cfg.maxFiles), stuck)
    {
      var current, quota := Name(curFileN), |sorted| - cfg.maxFiles;
      var removed, i := 0, 0;
      assert sorted[0..] == sorted;
      while i < |sorted| && removed < quota
        invariant 0 <= i <= |sorted|
        invariant UnlinkAll(dir, Doomed(sorted[i..], current, quota - removed), stuck)
                  == UnlinkAll(old(dir), Doomed(sorted, current, quota), stuck)
      {
        DoomedStep(dir, sorted, i, current, quota - removed, stuck);
        if sorted[i] != current {
          dir := Unlink(dir, sorted[i], stuck);
          removed := removed + 1;
        }
        i := i + 1;
      }
    }

    method RotateLocked(d: Disk) returns (ok: bool)
      modifies this
      ensures Model() == Rotated(cfg, old(Model()), d) && (ok <==> Rotates(d)) && closed == old(closed)
    {
      if !d.pathOk {
        return false;
      }
      open := false;
      curFileN := curFileN + 1;
      if !d.openOk {
        return false;
      }
      dir := dir + {Name(curFileN)};
      if !d.headerOk {
        return false;
      }
      open := true;
      pktCount := 0;
      CleanupLocked(d);
      return true;
    }

    method WriteBlock(size: nat, d: Disk, written: bool) returns (ok: bool)
      modifies this
      ensures closed == old(closed)
      ensures Model() == if old(closed) then old(Model()) else Step(cfg, old(Model()), size, d, written)
      ensures ok <==> size <= MAX_PACKET_SIZE && !closed && (NeedsRotation(cfg, old(Model())) ==> Rotates(d)) && written
    {
      if size > MAX_PACKET_SIZE {
        return false;
      }
      if closed {
        return false;
      }
      if !open || pktCount >= cfg.maxPackets {
        var rotated := RotateLocked(d);
        if !rotated {
          return false;
        }
      }
      if !written {
        return false;
      }
      pktCount := pktCount + 1;
      return true;
    }
  }
}
