/** Policy hot reload (internal/opa/embed.go). Any number of `Load` and `Evaluate` calls interleave;
    a step is one critical section, or one computation between two of them. A compiled module set
    and a prepared query are identified by the policy source they were built from. */
module Evaluator {
  import opened Util

  /** Where a call is. The comment says what the thread does next. */
  datatype Pc =
    | Waiting(policy: string)                  // take loadMu
    | Locked(policy: string)                   // compile and check the package
    | Compiled(policy: string)                 // swap compiler and policy under mu
    | Swapped(policy: string)                  // rebuild: read the compiler under mu
    | Fetched(policy: string, compiler: string)   // prepare the query
    | Ready(policy: string, query: string)     // swap prepared under mu
    | Installed(policy: string)                // notify, release loadMu, return nil
    | Evaluating                               // read prepared under mu
    | Judging(query: string)                   // evaluate with the query that was read
    | Returned(ok: bool)

  datatype Outcome = InProgress | Rejected | NotPrepared | Succeeded

  /** A `Load` that obtained loadMu. */
  datatype Attempt = Attempt(thread: nat, policy: string, outcome: Outcome)

  /** `attempts` is the history of loadMu, in the order it was taken. */
  datatype State = State(
    compiler: string, policy: string, prepared: string, holder: Option<nat>, threads: map<nat, Pc>,
    attempts: seq<Attempt>)

  function Boot(policy: string): State {
    State(policy, policy, policy, None, map[], [])
  }

  function At(s: State, t: nat, pc: Pc): State {
    s.(threads := s.threads[t := pc])
  }

  function Conclude(s: State, t: nat, outcome: Outcome): State
    requires s.attempts != []
  {
    At(s, t, Returned(outcome == Succeeded))
      .(holder := None, attempts := Front(s.attempts) + [Last(s.attempts).(outcome := outcome)])
  }

  /** A thread calls `Load` or `Evaluate`. */
  ghost predicate Begins(s: State, s': State, t: nat) {
    && (t in s.threads ==> s.threads[t].Returned?)
    && (|| (exists policy :: s' == At(s, t, if policy == "" then Returned(false) else Waiting(policy)))
        || s' == At(s, t, Evaluating))
  }

  /** Thread `t` takes its next step; the compiler and the query planner may fail or succeed. */
  ghost predicate Moves(s: State, s': State, t: nat) {
    t in s.threads && match s.threads[t]
      case Waiting(p) =>
        && s.holder.None?
        && s' == At(s, t, Locked(p)).(holder := Some(t), attempts := s.attempts + [Attempt(t, p, InProgress)])
      case Locked(p) => s.attempts != [] && (s' == Conclude(s, t, Rejected) || s' == At(s, t, Compiled(p)))
      case Compiled(p) => s' == At(s, t, Swapped(p)).(compiler := p, policy := p)
      case Swapped(p) => s' == At(s, t, Fetched(p, s.compiler))
      case Fetched(p, c) => s.attempts != [] && (s' == Conclude(s, t, NotPrepared) || s' == At(s, t, Ready(p, c)))
      case Ready(p, q) => s' == At(s, t, Installed(p)).(prepared := q)
      case Installed(p) => s.attempts != [] && s' == Conclude(s, t, Succeeded)
      case Evaluating => s' == At(s, t, Judging(s.prepared))
      case Judging(q) => s' == At(s, t, Returned(true)) || s' == At(s, t, Returned(false))
      case Returned(_) => false
  }

  ghost predicate Next(s: State, s': State) {
    exists t: nat :: Begins(s, s', t) || Moves(s, s', t)
  }

  ghost predicate IsRun(boot: string, states: seq<State>) {
    && states != [] && states[0] == Boot(boot)
    && forall i :: 0 <= i < |states| - 1 ==> StepAt(states, i)
  }

  ghost predicate StepAt(states: seq<State>, i: int) {
    0 <= i && i + 1 < |states| && Next(states[i], states[i + 1])
  }

  // ----- the invariant

  predicate HoldsLock(pc: Pc) {
    pc.Locked? || pc.Compiled? || pc.Swapped? || pc.Fetched? || pc.Ready? || pc.Installed?
  }

  /** Index of the latest attempt that succeeded, or -1. */
  function LatestSuccess(attempts: seq<Attempt>): int {
    if attempts == [] then -1
    else if Last(attempts).outcome == Succeeded then |attempts| - 1
    else LatestSuccess(Front(attempts))
  }

  /** The load under way has put its query in place. */
  predicate Installing(s: State) {
    s.holder.Some? && s.holder.value in s.threads && s.threads[s.holder.value].Installed?
  }

  /** Index of the attempt whose policy governs: the one being installed, else the latest success. */
  function Governing(s: State): int {
    if Installing(s) then |s.attempts| - 1 else LatestSuccess(s.attempts)
  }

  function PolicyAt(boot: string, attempts: seq<Attempt>, i: int): string
    requires -1 <= i < |attempts|
  {
    if i == -1 then boot else attempts[i].policy
  }

  lemma {:induction false} LatestSuccessRange(attempts: seq<Attempt>)
    ensures -1 <= LatestSuccess(attempts) < |attempts|
    ensures LatestSuccess(attempts) >= 0 ==> attempts[LatestSuccess(attempts)].outcome == Succeeded
    ensures forall j :: LatestSuccess(attempts) < j < |attempts| ==> attempts[j].outcome != Succeeded
    decreases |attempts|
  {
    if attempts != [] {
      LatestSuccessRange(Front(attempts));
      assert attempts == Front(attempts) + [Last(attempts)];
    }
  }

  /** What the holder of loadMu has done so far. */
  ghost predicate HolderInv(s: State, t: nat) {
    && t in s.threads && HoldsLock(s.threads[t]) && s.attempts != []
    && Last(s.attempts) == Attempt(t, s.threads[t].policy, InProgress)
    && (s.threads[t].Swapped? || s.threads[t].Fetched? || s.threads[t].Ready? || s.threads[t].Installed? ==>
          s.compiler == s.threads[t].policy)
    && (s.threads[t].Fetched? ==> s.threads[t].compiler == s.threads[t].policy)
    && (s.threads[t].Ready? ==> s.threads[t].query == s.threads[t].policy)
  }

  ghost predicate Inv(boot: string, s: State) {
    && (forall t :: t in s.threads && HoldsLock(s.threads[t]) ==> s.holder == Some(t))
    && (s.holder.Some? ==> HolderInv(s, s.holder.value))
    && (forall i :: 0 <= i < |s.attempts| ==>
          (s.attempts[i].outcome == InProgress <==> s.holder.Some? && i == |s.attempts| - 1))
    && s.compiler == s.policy
    && -1 <= Governing(s) < |s.attempts|
    && s.prepared == PolicyAt(boot, s.attempts, Governing(s))
  }

  lemma LatestAppend(attempts: seq<Attempt>, a: Attempt)
    ensures LatestSuccess(attempts + [a]) == if a.outcome == Succeeded then |attempts| else LatestSuccess(attempts)
  {
    assert Front(attempts + [a]) == attempts;
  }

  lemma BeginKeeps(boot: string, s: State, s': State, t: nat)
    requires Inv(boot, s) && Begins(s, s', t)
    ensures Inv(boot, s') && s'.attempts == s.attempts && Governing(s') == Governing(s)
  {
  }

  lemma ConcludeKeeps(boot: string, s: State, t: nat, outcome: Outcome)
    requires Inv(boot, s) && s.holder == Some(t) && outcome != InProgress
    requires outcome == Succeeded <==> s.threads[t].Installed?
    ensures Inv(boot, Conclude(s, t, outcome)) && Governing(Conclude(s, t, outcome)) == Governing(s)
  {
    var s' := Conclude(s, t, outcome);
    var front, last := Front(s.attempts), Last(s.attempts);
    assert s.attempts == front + [last];
    LatestAppend(front, last);
    LatestAppend(front, last.(outcome := outcome));
    LatestSuccessRange(front);
    assert forall i :: 0 <= i < |front| ==> s.attempts[i] == front[i] == s'.attempts[i];
  }

  lemma AcquireKeeps(boot: string, s: State, t: nat, p: string)
    requires Inv(boot, s) && s.holder.None? && t in s.threads && s.threads[t] == Waiting(p)
    ensures var s' := At(s, t, Locked(p)).(holder := Some(t), attempts := s.attempts + [Attempt(t, p, InProgress)]);
            Inv(boot, s') && Governing(s') == Governing(s)
  {
    LatestAppend(s.attempts, Attempt(t, p, InProgress));
    LatestSuccessRange(s.attempts);
  }

  /** The holder of loadMu goes on. */
  lemma HolderKeeps(boot: string, s: State, s': State, t: nat, pc: Pc)
    requires Inv(boot, s) && s.holder == Some(t) && !s.threads[t].Installed?
    requires HoldsLock(pc) && s' == At(s, t, pc).(compiler := s'.compiler, policy := s'.compiler, prepared := s'.prepared)
    requires HolderInv(s', t)
    requires s'.prepared == if pc.Installed? then pc.policy else s.prepared
    ensures Inv(boot, s') && Governing(s) <= Governing(s')
  {
    LatestSuccessRange(s.attempts);
    assert Last(s.attempts).policy == pc.policy;
  }

  /** A thread without loadMu moves and changes nothing else. */
  lemma OutsiderKeeps(boot: string, s: State, t: nat, pc: Pc)
    requires Inv(boot, s) && s.holder != Some(t) && !HoldsLock(pc)
    ensures Inv(boot, At(s, t, pc)) && Governing(At(s, t, pc)) == Governing(s)
  {
  }

  lemma MoveKeeps(boot: string, s: State, s': State, t: nat)
    requires Inv(boot, s) && Moves(s, s', t)
    ensures Inv(boot, s') && Governing(s) <= Governing(s')
  {
    if HoldsLock(s.threads[t]) {
      HolderMoves(boot, s, s', t);
    } else if s.threads[t].Waiting? {
      AcquireKeeps(boot, s, t, s.threads[t].policy);
    } else {
      assert s' == At(s, t, s'.threads[t]);
      OutsiderKeeps(boot, s, t, s'.threads[t]);
    }
  }

  lemma HolderMoves(boot: string, s: State, s': State, t: nat)
    requires Inv(boot, s) && Moves(s, s', t) && HoldsLock(s.threads[t])
    ensures Inv(boot, s') && Governing(s) <= Governing(s')
  {
    assert s.holder == Some(t) && HolderInv(s, t);
    if s.threads[t].Installed? {
      ConcludeKeeps(boot, s, t, Succeeded);
    } else if s'.threads[t].Returned? {
      ConcludeKeeps(boot, s, t, if s.threads[t].Locked? then Rejected else NotPrepared);
    } else {
      assert HolderInv(s', t);
      HolderKeeps(boot, s, s', t, s'.threads[t]);
    }
  }

  lemma NextKeeps(boot: string, s: State, s': State)
    requires Inv(boot, s) && Next(s, s')
    ensures Inv(boot, s') && Governing(s) <= Governing(s')
  {
    var t: nat :| Begins(s, s', t) || Moves(s, s', t);
    if Begins(s, s', t) {
      BeginKeeps(boot, s, s', t);
    } else {
      MoveKeeps(boot, s, s', t);
    }
  }

  lemma {:induction false} RunInv(boot: string, states: seq<State>, n: nat)
    requires IsRun(boot, states) && n < |states|
    ensures Inv(boot, states[n])
    decreases n
  {
    if n > 0 {
      RunInv(boot, states, n - 1);
      assert StepAt(states, n - 1);
      NextKeeps(boot, states[n - 1], states[n]);
    }
  }

  // ----- the theorems

  /** In every interleaving every packet is judged by the policy of the latest load that succeeded, in
      the order loadMu was taken, or by the boot policy - also during a load and after loads that failed
      to compile, failed the package check or failed to prepare; and by the policy of the current load
      exactly from the moment that load has installed its query. */
  lemma LatestLoadGoverns(boot: string, states: seq<State>, n: nat)
    requires IsRun(boot, states) && n < |states|
    ensures var s := states[n];
            var i := if Installing(s) then |s.attempts| - 1 else LatestSuccess(s.attempts);
            -1 <= i < |s.attempts| && s.prepared == PolicyAt(boot, s.attempts, i)
  {
    RunInv(boot, states, n);
  }

  lemma AttemptsGrow(s: State, s': State)
    requires Next(s, s')
    ensures |s.attempts| <= |s'.attempts|
    ensures forall i :: 0 <= i < |s.attempts| ==> s'.attempts[i].policy == s.attempts[i].policy
  {
    var t: nat :| Begins(s, s', t) || Moves(s, s', t);
  }

  lemma {:induction false} AttemptStays(boot: string, states: seq<State>, m: nat, n: nat, i: nat)
    requires IsRun(boot, states) && m <= n < |states| && i < |states[m].attempts|
    ensures i < |states[n].attempts| && states[n].attempts[i].policy == states[m].attempts[i].policy
    decreases n
  {
    if m < n {
      AttemptStays(boot, states, m, n - 1, i);
      assert StepAt(states, n - 1);
      AttemptsGrow(states[n - 1], states[n]);
    }
  }

  lemma {:induction false} GoverningClimbs(boot: string, states: seq<State>, m: nat, n: nat)
    requires IsRun(boot, states) && m <= n < |states|
    ensures Governing(states[m]) <= Governing(states[n])
    decreases n
  {
    if m < n {
      GoverningClimbs(boot, states, m, n - 1);
      RunInv(boot, states, n - 1);
      assert StepAt(states, n - 1);
      NextKeeps(boot, states[n - 1], states[n]);
    }
  }

  /** Thread `t` reads the query it will evaluate with, between states `k` and `k + 1`. */
  ghost predicate Reads(states: seq<State>, k: int, t: nat) {
    && 0 <= k && k + 1 < |states|
    && t in states[k].threads && states[k].threads[t].Evaluating? && Moves(states[k], states[k + 1], t)
  }

  function QueryRead(states: seq<State>, k: int, t: nat): string
    requires 0 <= k && k + 1 < |states| && t in states[k + 1].threads && states[k + 1].threads[t].Judging?
  {
    states[k + 1].threads[t].query
  }

  lemma ReadsPrepared(states: seq<State>, k: int, t: nat)
    requires Reads(states, k, t)
    ensures t in states[k + 1].threads && states[k + 1].threads[t] == Judging(states[k].prepared)
  {
  }

  lemma {:induction false} PreparedStays(boot: string, states: seq<State>, m: nat, k: nat)
    requires IsRun(boot, states) && m <= k < |states|
    ensures -1 <= Governing(states[m]) < |states[k].attempts|
    ensures states[m].prepared == PolicyAt(boot, states[k].attempts, Governing(states[m]))
  {
    RunInv(boot, states, m);
    RunInv(boot, states, k);
    GoverningClimbs(boot, states, m, k);
    if Governing(states[m]) >= 0 {
      AttemptStays(boot, states, m, k, Governing(states[m]));
    }
  }

  /** What an evaluation reads is never older than a load that had returned successfully before: the
      query comes from the latest success of any earlier moment, or from a later attempt. */
  lemma ReadsNothingOlder(boot: string, states: seq<State>, m: nat, k: nat, t: nat)
    requires IsRun(boot, states) && m <= k && Reads(states, k, t)
    ensures t in states[k + 1].threads && states[k + 1].threads[t].Judging?
    ensures exists j :: LatestSuccess(states[m].attempts) <= j < |states[k].attempts|
              && -1 <= j && QueryRead(states, k, t) == PolicyAt(boot, states[k].attempts, j)
  {
    ReadsPrepared(states, k, t);
    RunInv(boot, states, m);
    GoverningClimbs(boot, states, m, k);
    PreparedStays(boot, states, k, k);
    LatestSuccessRange(states[m].attempts);
    var j := Governing(states[k]);
    assert LatestSuccess(states[m].attempts) <= Governing(states[m]) <= j;
    assert QueryRead(states, k, t) == PolicyAt(boot, states[k].attempts, j);
  }

  /** Of two evaluations, the one that reads later reads the query of the same or a later attempt. */
  lemma NeverRevertsToOlder(boot: string, states: seq<State>, m: nat, t: nat, k: nat, u: nat)
    requires IsRun(boot, states) && m <= k && Reads(states, m, t) && Reads(states, k, u)
    ensures t in states[m + 1].threads && states[m + 1].threads[t].Judging?
    ensures u in states[k + 1].threads && states[k + 1].threads[u].Judging?
    ensures exists i, j ::
              && -1 <= i <= j < |states[k].attempts|
              && QueryRead(states, m, t) == PolicyAt(boot, states[k].attempts, i)
              && QueryRead(states, k, u) == PolicyAt(boot, states[k].attempts, j)
  {
    ReadsPrepared(states, m, t);
    ReadsPrepared(states, k, u);
    GoverningClimbs(boot, states, m, k);
    PreparedStays(boot, states, m, k);
    PreparedStays(boot, states, k, k);
    assert QueryRead(states, m, t) == PolicyAt(boot, states[k].attempts, Governing(states[m]));
    assert QueryRead(states, k, u) == PolicyAt(boot, states[k].attempts, Governing(states[k]));
  }

  ghost predicate NoneEmpty(s: State) {
    && (forall t :: t in s.threads && s.threads[t].Waiting? ==> s.threads[t].policy != "")
    && (forall i :: 0 <= i < |s.attempts| ==> s.attempts[i].policy != "")
  }

  lemma BeginNotEmpty(s: State, s': State, t: nat)
    requires NoneEmpty(s) && Begins(s, s', t)
    ensures NoneEmpty(s')
  {
  }

  lemma ConcludeNotEmpty(s: State, t: nat, outcome: Outcome)
    requires NoneEmpty(s) && s.attempts != []
    ensures NoneEmpty(Conclude(s, t, outcome))
  {
  }

  lemma MoveNotEmpty(s: State, s': State, t: nat)
    requires NoneEmpty(s) && Moves(s, s', t)
    ensures NoneEmpty(s')
  {
    if s'.threads[t].Returned? && HoldsLock(s.threads[t]) {
      ConcludeNotEmpty(s, t, Last(s'.attempts).outcome);
    } else if !s.threads[t].Waiting? {
      assert s'.attempts == s.attempts;
    }
  }

  lemma {:induction false} RunNotEmpty(boot: string, states: seq<State>, n: nat)
    requires IsRun(boot, states) && n < |states|
    ensures NoneEmpty(states[n])
    decreases n
  {
    if n > 0 {
      RunNotEmpty(boot, states, n - 1);
      assert StepAt(states, n - 1);
      var t: nat :| Begins(states[n - 1], states[n], t) || Moves(states[n - 1], states[n], t);
      if Begins(states[n - 1], states[n], t) {
        BeginNotEmpty(states[n - 1], states[n], t);
      } else {
        MoveNotEmpty(states[n - 1], states[n], t);
      }
    }
  }

  /** An empty source is turned away before it takes the lock: it never governs. */
  lemma EmptyNeverGoverns(boot: string, states: seq<State>, n: nat)
    requires IsRun(boot, states) && n < |states| && boot != ""
    ensures states[n].prepared != ""
  {
    RunInv(boot, states, n);
    RunNotEmpty(boot, states, n);
  }

  // ----- the policy field

  /** Index of the latest attempt that got as far as replacing the compiler, or -1. */
  function LatestSwap(attempts: seq<Attempt>): int {
    if attempts == [] then -1
    else if Last(attempts).outcome == Succeeded || Last(attempts).outcome == NotPrepared then |attempts| - 1
    else LatestSwap(Front(attempts))
  }

  /** Index of the attempt whose source is compiled now: the one under way from its swap on. */
  function SwapIndex(s: State): int {
    if s.holder.Some? && s.holder.value in s.threads && !s.threads[s.holder.value].Locked?
       && !s.threads[s.holder.value].Compiled? then |s.attempts| - 1
    else LatestSwap(s.attempts)
  }

  ghost predicate SwapInv(boot: string, s: State) {
    -1 <= SwapIndex(s) < |s.attempts| && s.policy == PolicyAt(boot, s.attempts, SwapIndex(s))
  }

  lemma {:induction false} LatestSwapRange(attempts: seq<Attempt>)
    ensures -1 <= LatestSwap(attempts) < |attempts|
    decreases |attempts|
  {
    if attempts != [] {
      LatestSwapRange(Front(attempts));
    }
  }

  lemma SwapAppend(attempts: seq<Attempt>, a: Attempt)
    ensures LatestSwap(attempts + [a]) ==
            if a.outcome == Succeeded || a.outcome == NotPrepared then |attempts| else LatestSwap(attempts)
  {
    assert Front(attempts + [a]) == attempts;
  }

  lemma SwapConclude(boot: string, s: State, t: nat, outcome: Outcome)
    requires Inv(boot, s) && SwapInv(boot, s) && s.holder == Some(t)
    requires if s.threads[t].Locked? then outcome == Rejected
             else !s.threads[t].Compiled? && (outcome == NotPrepared || outcome == Succeeded)
    ensures SwapInv(boot, Conclude(s, t, outcome))
  {
    var front, last := Front(s.attempts), Last(s.attempts);
    assert s.attempts == front + [last];
    SwapAppend(front, last);
    SwapAppend(front, last.(outcome := outcome));
    LatestSwapRange(front);
  }

  lemma SwapOutside(boot: string, s: State, s': State, t: nat)
    requires Inv(boot, s) && SwapInv(boot, s) && s.holder != Some(t) && (Begins(s, s', t) || Moves(s, s', t))
    ensures SwapInv(boot, s')
  {
    LatestSwapRange(s.attempts);
    if t in s.threads && s.threads[t].Waiting? && Moves(s, s', t) {
      SwapAppend(s.attempts, Attempt(t, s.threads[t].policy, InProgress));
    }
  }

  lemma SwapInside(boot: string, s: State, s': State, t: nat)
    requires Inv(boot, s) && SwapInv(boot, s) && s.holder == Some(t) && Moves(s, s', t)
    ensures SwapInv(boot, s')
  {
    assert HolderInv(s, t);
    if s.threads[t].Installed? {
      SwapConclude(boot, s, t, Succeeded);
    } else if s'.threads[t].Returned? {
      SwapConclude(boot, s, t, if s.threads[t].Locked? then Rejected else NotPrepared);
    }
  }

  lemma SwapKeeps(boot: string, s: State, s': State)
    requires Inv(boot, s) && SwapInv(boot, s) && Next(s, s')
    ensures SwapInv(boot, s')
  {
    var t: nat :| Begins(s, s', t) || Moves(s, s', t);
    if s.holder == Some(t) {
      assert HolderInv(s, t);
      SwapInside(boot, s, s', t);
    } else {
      SwapOutside(boot, s, s', t);
    }
  }

  lemma {:induction false} RunSwapInv(boot: string, states: seq<State>, n: nat)
    requires IsRun(boot, states) && n < |states|
    ensures SwapInv(boot, states[n])
    decreases n
  {
    if n > 0 {
      RunSwapInv(boot, states, n - 1);
      RunInv(boot, states, n - 1);
      assert StepAt(states, n - 1);
      SwapKeeps(boot, states[n - 1], states[n]);
    }
  }

  lemma {:induction false} SuccessIsSwap(attempts: seq<Attempt>)
    ensures -1 <= LatestSuccess(attempts) <= LatestSwap(attempts) < |attempts|
    ensures LatestSwap(attempts) == LatestSuccess(attempts) <==>
            LatestSwap(attempts) == -1 || attempts[LatestSwap(attempts)].outcome == Succeeded
    decreases |attempts|
  {
    LatestSuccessRange(attempts);
    if attempts != [] {
      SuccessIsSwap(Front(attempts));
      assert attempts == Front(attempts) + [Last(attempts)];
    }
  }

  /** The `policy` field is not the policy that governs: at every moment it is the source of the latest
      load that compiled, and that load governs exactly when it was also prepared, or has just put its
      query in place. */
  lemma PolicyFieldTracksCompiles(boot: string, states: seq<State>, n: nat)
    requires IsRun(boot, states) && n < |states|
    ensures var s, i := states[n], SwapIndex(states[n]);
            && -1 <= i < |s.attempts|
            && s.policy == PolicyAt(boot, s.attempts, i)
            && (i == Governing(s) <==> i == -1 || s.attempts[i].outcome == Succeeded || Installing(s))
  {
    RunSwapInv(boot, states, n);
    RunInv(boot, states, n);
    SuccessIsSwap(states[n].attempts);
    LatestSuccessRange(states[n].attempts);
  }

  // ----- one load by itself

  /** Rego as a partial function: which sources compile, declare the decision package, prepare. */
  datatype Toolchain = Toolchain(compiles: string -> bool, packaged: string -> bool, prepares: string -> bool)

  datatype Fields = Fields(compiler: string, policy: string, prepared: string)

  predicate Accepted(tc: Toolchain, policy: string) {
    policy != "" && tc.compiles(policy) && tc.packaged(policy)
  }

  function Loaded(tc: Toolchain, f: Fields, policy: string): Fields {
    if !Accepted(tc, policy) then f
    else Fields(policy, policy, if tc.prepares(policy) then policy else f.prepared)
  }

  /** One load after another. */
  function LoadedAll(tc: Toolchain, f: Fields, policies: seq<string>): Fields {
    if policies == [] then f else Loaded(tc, LoadedAll(tc, f, Front(policies)), Last(policies))
  }

  /** The last of the policies that passes, or else the one there was. */
  function LastPassing(passes: string -> bool, policies: seq<string>, otherwise: string): string {
    if policies == [] then otherwise
    else if passes(Last(policies)) then Last(policies)
    else LastPassing(passes, Front(policies), otherwise)
  }

  /** After any sequence of loads the last policy that is not empty, compiles, declares the package and
      prepares governs, and the field names the last that got as far as being compiled and checked. */
  lemma {:induction false} LastGoodPolicyGoverns(tc: Toolchain, boot: string, policies: seq<string>)
    ensures var f := LoadedAll(tc, Fields(boot, boot, boot), policies);
            && f.prepared == LastPassing(p => p != "" && tc.compiles(p) && tc.packaged(p) && tc.prepares(p), policies, boot)
            && f.policy == LastPassing(p => p != "" && tc.compiles(p) && tc.packaged(p), policies, boot)
            && f.compiler == f.policy
    decreases |policies|
  {
    if policies != [] {
      LastGoodPolicyGoverns(tc, boot, Front(policies));
    }
  }

  class EmbeddedEvaluator {
    var compiler: string
    var policy: string
    var prepared: Option<string>

    constructor (policy: string)
      ensures compiler == this.policy == policy && prepared == None
    {
      this.compiler, this.policy, prepared := policy, policy, None;
    }

    method Rebuild(tc: Toolchain) returns (ok: bool)
      modifies this`prepared
      ensures ok <==> tc.prepares(compiler)
      ensures prepared == if ok then Some(compiler) else old(prepared)
    {
      var source := compiler;
      if !tc.prepares(source) {
        return false;
      }
      prepared := Some(source);
      return true;
    }

    method Load(tc: Toolchain, policy: string) returns (ok: bool)
      requires prepared.Some?
      modifies this
      ensures ok <==> Accepted(tc, policy) && tc.prepares(policy)
      ensures prepared.Some?
      ensures Fields(compiler, this.policy, prepared.value)
              == Loaded(tc, old(Fields(compiler, this.policy, prepared.value)), policy)
    {
      if policy == "" || !tc.compiles(policy) || !tc.packaged(policy) {
        return false;
      }
      compiler := policy;
      this.policy := policy;
      ok := Rebuild(tc);
    }
  }

  method NewEmbedded(tc: Toolchain, policy: string) returns (e: Option<EmbeddedEvaluator>)
    ensures e.Some? <==> Accepted(tc, policy) && tc.prepares(policy)
    ensures e.Some? ==> fresh(e.value) && e.value.compiler == e.value.policy == policy && e.value.prepared == Some(policy)
  {
    if policy == "" || !tc.compiles(policy) || !tc.packaged(policy) {
      return None;
    }
    var evaluator := new EmbeddedEvaluator(policy);
    var ok := evaluator.Rebuild(tc);
    return if ok then Some(evaluator) else None;
  }

  ghost predicate Solo(states: seq<State>, t: nat) {
    states != [] && forall i :: 0 <= i < |states| - 1 ==> Moves(states[i], states[i + 1], t)
  }

  function FieldsOf(s: State): Fields {
    Fields(s.compiler, s.policy, s.prepared)
  }

  lemma Extend(states: seq<State>, t: nat, s: State)
    requires Solo(states, t) && Moves(Last(states), s, t)
    ensures Solo(states + [s], t) && (states + [s])[0] == states[0] && Last(states + [s]) == s
  {
  }

  /** The steps of one uninterrupted thread do what `Load` does as a whole. */
  lemma SoloLoad(tc: Toolchain, s: State, t: nat, policy: string) returns (states: seq<State>)
    requires s.holder.None? && t in s.threads && s.threads[t] == Waiting(policy) && policy != ""
    ensures Solo(states, t) && states[0] == s
    ensures FieldsOf(Last(states)) == Loaded(tc, FieldsOf(s), policy)
    ensures t in Last(states).threads
    ensures Last(states).threads[t] == Returned(Accepted(tc, policy) && tc.prepares(policy))
    ensures Last(states).holder.None?
    ensures forall u :: u in s.threads && u != t ==> u in Last(states).threads && Last(states).threads[u] == s.threads[u]
  {
    var x := At(s, t, Locked(policy)).(holder := Some(t), attempts := s.attempts + [Attempt(t, policy, InProgress)]);
    Extend([s], t, x);
    states := [s] + [x];
    if !Accepted(tc, policy) {
      Extend(states, t, Conclude(x, t, Rejected));
      return states + [Conclude(x, t, Rejected)];
    }
    states, x := SoloSwap(states, t, policy);
    if !tc.prepares(policy) {
      Extend(states, t, Conclude(x, t, NotPrepared));
      return states + [Conclude(x, t, NotPrepared)];
    }
    states, x := SoloInstall(states, t, policy);
    Extend(states, t, Conclude(x, t, Succeeded));
    states := states + [Conclude(x, t, Succeeded)];
  }

  lemma SoloSwap(states: seq<State>, t: nat, policy: string) returns (states': seq<State>, x: State)
    requires Solo(states, t) && t in Last(states).threads && Last(states).threads[t] == Locked(policy)
    requires Last(states).attempts != []
    ensures Solo(states', t) && states'[0] == states[0] && x == Last(states')
    ensures x == At(Last(states), t, Fetched(policy, policy)).(compiler := policy, policy := policy)
  {
    var a := At(Last(states), t, Compiled(policy));
    var b := At(a, t, Swapped(policy)).(compiler := policy, policy := policy);
    x := At(b, t, Fetched(policy, policy));
    Extend(states, t, a);
    Extend(states + [a], t, b);
    Extend(states + [a] + [b], t, x);
    states' := states + [a] + [b] + [x];
  }

  lemma SoloInstall(states: seq<State>, t: nat, policy: string) returns (states': seq<State>, x: State)
    requires Solo(states, t) && t in Last(states).threads && Last(states).threads[t] == Fetched(policy, policy)
    requires Last(states).attempts != []
    ensures Solo(states', t) && states'[0] == states[0] && x == Last(states')
    ensures x == At(Last(states), t, Installed(policy)).(prepared := policy)
  {
    var a := At(Last(states), t, Ready(policy, policy));
    x := At(a, t, Installed(policy)).(prepared := policy);
    Extend(states, t, a);
    Extend(states + [a], t, x);
    states' := states + [a] + [x];
  }

  lemma RunBegins(boot: string, states: seq<State>, s: State, t: nat)
    requires IsRun(boot, states) && Begins(Last(states), s, t)
    ensures IsRun(boot, states + [s])
  {
    var all := states + [s];
    forall i | 0 <= i < |all| - 1
      ensures StepAt(all, i)
    {
      if i < |states| - 1 {
        assert StepAt(states, i);
      } else {
        assert Next(all[i], all[i + 1]);
      }
    }
  }

  lemma RunGoesOn(boot: string, states: seq<State>, solo: seq<State>, t: nat)
    requires IsRun(boot, states) && Solo(solo, t) && solo[0] == Last(states)
    ensures IsRun(boot, states + solo[1..]) && Last(states + solo[1..]) == Last(solo)
  {
    var all := states + solo[1..];
    forall i | 0 <= i < |all| - 1
      ensures StepAt(all, i)
    {
      if i < |states| - 1 {
        assert StepAt(states, i);
      } else {
        var j := i - (|states| - 1);
        assert all[i] == solo[j] && all[i + 1] == solo[j + 1];
        assert Moves(solo[j], solo[j + 1], t);
        assert Next(all[i], all[i + 1]);
      }
    }
  }

  /** A run in which the two disagree: one load that compiles and does not prepare. */
  lemma PolicyFieldExample(boot: string, policy: string) returns (states: seq<State>)
    requires policy != ""
    ensures IsRun(boot, states) && Last(states).holder.None?
    ensures Last(states).policy == policy && Last(states).prepared == boot
  {
    var tc := Toolchain(p => true, p => true, p => false);
    var s := At(Boot(boot), 0, Waiting(policy));
    assert Begins(Boot(boot), s, 0);
    RunBegins(boot, [Boot(boot)], s, 0);
    var solo := SoloLoad(tc, s, 0, policy);
    RunGoesOn(boot, [Boot(boot)] + [s], solo, 0);
    states := [Boot(boot)] + [s] + solo[1..];
    assert FieldsOf(Last(solo)) == Fields(policy, policy, boot);
  }

  /** Loads are serialised, but not in the order in which they were issued: `older` is issued first and
      `newer` second, `newer` takes loadMu first, both succeed, and `older` governs. */
  lemma IssueOrderExample(boot: string, older: string, newer: string) returns (states: seq<State>)
    requires older != "" && newer != ""
    ensures IsRun(boot, states) && |states| > 2
    ensures states[1] == At(states[0], 0, Waiting(older)) && states[2] == At(states[1], 1, Waiting(newer))
    ensures var s := Last(states);
            && s.holder.None? && s.prepared == older
            && {0, 1} <= s.threads.Keys && s.threads[0] == s.threads[1] == Returned(true)
  {
    var tc := Toolchain(p => true, p => true, p => true);
    var s0 := Boot(boot);
    var s1 := At(s0, 0, Waiting(older));
    var s2 := At(s1, 1, Waiting(newer));
    assert Begins(s0, s1, 0) && Begins(s1, s2, 1);
    RunBegins(boot, [s0], s1, 0);
    RunBegins(boot, [s0] + [s1], s2, 1);
    var first := SoloLoad(tc, s2, 1, newer);
    RunGoesOn(boot, [s0] + [s1] + [s2], first, 1);
    var second := SoloLoad(tc, Last(first), 0, older);
    RunGoesOn(boot, [s0] + [s1] + [s2] + first[1..], second, 0);
    states := [s0] + [s1] + [s2] + first[1..] + second[1..];
    assert FieldsOf(Last(second)) == Fields(older, older, older);
  }
}
