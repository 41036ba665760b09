/** Hot reload of the policy file (cmd/server/main.go). Times count from Go's zero time, so the
    zero time itself, which means that nothing was loaded yet, is 0 and a file's is positive. */
module PolicyFile {
  import opened Util

  const SHORT := 5
  const LONG := 30

  datatype Read = Refused | Content(data: string, mtime: int)

  /** What one poll finds: the stat of the path (which follows links), what the hardened read then
      yields (links are refused), and whether the evaluator accepts the content. */
  datatype Poll = Poll(stat: Option<int>, read: Read, accepted: bool)

  /** `loads` are the files loaded so far. */
  datatype State = State(lastMod: int, loads: seq<Read>)

  predicate Changed(lastMod: int, p: Poll) {
    p.stat.Some? && (lastMod == 0 || p.stat.value > lastMod)
  }

  predicate Loads(lastMod: int, p: Poll) {
    Changed(lastMod, p) && p.read.Content? && p.accepted
  }

  function Step(s: State, p: Poll): State {
    if Loads(s.lastMod, p) then State(p.read.mtime, s.loads + [p.read]) else s
  }

  function Run(s: State, polls: seq<Poll>): State {
    if polls == [] then s else Step(Run(s, Front(polls)), Last(polls))
  }

  class Watcher {
    var lastMod: int
    ghost var loads: seq<Read>

    ghost function Model(): State
      reads this
    {
      State(lastMod, loads)
    }

    constructor (seed: int)
      ensures Model() == State(seed, [])
    {
      lastMod, loads := seed, [];
    }

    method PollPolicyFile(p: Poll) returns (sleep: nat)
      modifies this
      ensures Model() == Step(old(Model()), p)
      ensures sleep == if p.stat.Some? && (Changed(old(lastMod), p) ==> Loads(old(lastMod), p)) then 5 else 30
    {
      if p.stat.None? {
        return LONG;
      }
      var modTime := p.stat.value;
      if lastMod == 0 || modTime > lastMod {
        if p.read.Refused? {
          return LONG;
        }
        if !p.accepted {
          return LONG;
        }
        loads := loads + [p.read];
        lastMod := p.read.mtime;
        return SHORT;
      }
      return SHORT;
    }

    method WatchPolicyFile(polls: seq<Poll>)
      modifies this
      ensures Model() == Run(old(Model()), polls)
    {
      for i := 0 to |polls|
        invariant Model() == Run(old(Model()), polls[..i])
      {
        assert Front(polls[..i + 1]) == polls[..i];
        var sleep := PollPolicyFile(polls[i]);
      }
      assert polls[..|polls|] == polls;
    }
  }

  // ----- every run

  /** What the poll reads is no older than what it saw in the stat: the same file, or one edited or
      replaced since. */
  ghost predicate NotOlder(p: Poll) {
    && (p.read.Content? ==> p.read.mtime > 0)
    && (p.stat.Some? && p.read.Content? ==> p.stat.value <= p.read.mtime)
  }

  ghost predicate NoneOlder(polls: seq<Poll>) {
    forall i :: 0 <= i < |polls| ==> NotOlder(polls[i])
  }

  /** Loaded files are strictly newer one after the other and newer than the seed, and the record is
      the newest of them, or the seed. */
  ghost predicate Verified(seed: int, s: State) {
    && (forall i :: 0 <= i < |s.loads| ==> s.loads[i].Content? && seed < s.loads[i].mtime <= s.lastMod)
    && (forall i, j :: 0 <= i < j < |s.loads| ==> s.loads[i].mtime < s.loads[j].mtime)
    && s.lastMod == if s.loads == [] then seed else Last(s.loads).mtime
  }

  lemma {:induction false} RunVerified(seed: int, polls: seq<Poll>)
    requires seed >= 0 && NoneOlder(polls)
    ensures Verified(seed, Run(State(seed, []), polls))
    decreases |polls|
  {
    if polls != [] {
      RunVerified(seed, Front(polls));
    }
  }

  lemma {:induction false} RunSplit(s: State, a: seq<Poll>, b: seq<Poll>)
    ensures Run(s, a + b) == Run(Run(s, a), b)
    decreases |b|
  {
    if b == [] {
      assert a + b == a;
    } else {
      RunSplit(s, a, Front(b));
      assert Front(a + b) == a + Front(b);
    }
  }

  /** In every run, whatever is swapped under it, the record is the seed or the mtime of the content
      loaded last. */
  lemma {:induction false} RecordIsOfLoaded(seed: int, polls: seq<Poll>)
    ensures var s := Run(State(seed, []), polls);
            && (forall i :: 0 <= i < |s.loads| ==> s.loads[i].Content?)
            && s.lastMod == if s.loads == [] then seed else Last(s.loads).mtime
    decreases |polls|
  {
    if polls != [] {
      RecordIsOfLoaded(seed, Front(polls));
    }
  }

  /** In every run of such polls the record never goes back, always equals the seed or the mtime of content that
      was loaded, and loads have strictly increasing mtimes. */
  lemma RecordIsVerified(seed: int, before: seq<Poll>, after: seq<Poll>)
    requires seed >= 0 && NoneOlder(before + after)
    ensures Verified(seed, Run(State(seed, []), before + after))
    ensures Run(State(seed, []), before).lastMod <= Run(State(seed, []), before + after).lastMod
  {
    RunVerified(seed, before + after);
    assert NoneOlder(before) by { assert forall i :: 0 <= i < |before| ==> (before + after)[i] == before[i]; }
    RunVerified(seed, before);
    RunSplit(State(seed, []), before, after);
    LoadsGrow(Run(State(seed, []), before), after);
  }

  lemma {:induction false} LoadsGrow(s: State, polls: seq<Poll>)
    ensures s.loads <= Run(s, polls).loads
    ensures |s.loads| == |Run(s, polls).loads| ==> Run(s, polls) == s
    decreases |polls|
  {
    if polls != [] {
      LoadsGrow(s, Front(polls));
    }
  }

  /** Exactly when polls load nothing: while no stat is newer than the record together with a read that
      yields content the evaluator accepts. Planted links are harmless as long as they are refused. */
  lemma {:induction false} UnchangedIsNotReloaded(seed: int, before: seq<Poll>, after: seq<Poll>)
    ensures var s := Run(State(seed, []), before);
            Run(State(seed, []), before + after) == s <==>
              forall i :: 0 <= i < |after| ==> !Loads(s.lastMod, after[i])
    decreases |after|
  {
    var start, s := State(seed, []), Run(State(seed, []), before);
    if after == [] {
      assert before + after == before;
    } else {
      var front := Front(after);
      UnchangedIsNotReloaded(seed, before, front);
      assert Front(before + after) == before + front && Last(before + after) == Last(after);
      assert forall i :: 0 <= i < |front| ==> front[i] == after[i];
      RunSplit(start, before, front);
      LoadsGrow(s, front);
    }
  }

  /** While nothing is loaded yet, any file that can be read and is accepted is loaded, however old. */
  lemma FirstPollLoads(p: Poll, loads: seq<Read>)
    ensures Step(State(0, loads), p) != State(0, loads) <==> p.stat.Some? && p.read.Content? && p.accepted
  {
    if p.read.Content? {
      assert |loads + [p.read]| > |loads|;
    }
  }

  /** Every load by this poll moves the record forward, whatever the record is. */
  ghost predicate MovesForward(p: Poll) {
    forall s: State :: s.lastMod > 0 && Loads(s.lastMod, p) ==> Step(s, p).lastMod > s.lastMod
  }

  /** Exactly which polls cannot move a record back: those that load nothing, and those that read a file
      no older than the one they saw in the stat ... */
  lemma MovesForwardExactly(p: Poll)
    ensures MovesForward(p) <==>
              !p.accepted || p.read.Refused? || p.stat.None? || p.stat.value <= 1 || p.stat.value <= p.read.mtime
  {
    if MovesForward(p) && p.accepted && p.read.Content? && p.stat.Some? && p.stat.value > 1 {
      var s := State(p.stat.value - 1, []);
      assert Loads(s.lastMod, p) && Step(s, p).lastMod == p.read.mtime;
    }
  }

  /** ... and the others do: the stat sees a link to a newer file, the read the old file put back in its
      place, and the policy of the old file is loaded again. */
  lemma SwappedEntryReloads()
    ensures exists polls ::
              && |polls| == 2 && NotOlder(polls[0]) && !NotOlder(polls[1])
              && Run(State(10, []), polls[..1]).lastMod == 20
              && Run(State(10, []), polls) == State(10, [Content("new", 20), Content("old", 10)])
  {
    var polls := [Poll(Some(20), Content("new", 20), true), Poll(Some(30), Content("old", 10), true)];
    assert polls[..1] == [polls[0]] && Front(polls) == [polls[0]] && Front([polls[0]]) == [];
    assert Run(State(10, []), []) == State(10, []);
    assert Run(State(10, []), [polls[0]]) == State(20, [Content("new", 20)]);
  }
}
