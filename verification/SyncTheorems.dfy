/** What every run of the policy syncer keeps. */
module SyncTheorems {
  import opened Util
  import opened SyncModel

  // ----- the slot and the last call

  /** The policy that governs now, or will once the slot is flushed. */
  function Due(s: State): string {
    if s.pending.Some? then s.pending.value.policy
    else if s.calls == [] then ""
    else Last(s.calls).policy
  }

  /** Nothing seen is lost: the last content processed is in the slot, or was just applied. */
  ghost predicate Settled(s: State) {
    Due(s) == s.lastPolicy
  }

  /** A resync that reads an empty value while another policy waits in the slot. */
  predicate EmptyResync(s: State, i: Input) {
    i.Reconnect? && i.reply.Found? && i.reply.value == "" && s.pending.Some? && s.lastPolicy != ""
  }

  /** The content of the last usable PUT, if any. */
  function LatestAccepted(es: seq<Event>, otherwise: string): string {
    if es == [] then otherwise
    else if Accepts(Last(es)) then Last(es).value
    else LatestAccepted(Front(es), otherwise)
  }

  lemma {:induction false} ConsumeSettles(s: State, es: seq<Event>)
    requires Settled(s)
    ensures Settled(ConsumeAll(s, es))
    ensures ConsumeAll(s, es).lastPolicy == LatestAccepted(es, s.lastPolicy)
    decreases |es|
  {
    if es != [] {
      ConsumeSettles(s, Front(es));
    }
  }

  lemma StepSettles(s: State, i: Input)
    requires Settled(s)
    ensures Settled(Step(s, i)) <==> !EmptyResync(s, i)
  {
    if i.Batch? {
      ConsumeSettles(Flush(s, i.t1, i.d1), Collapse(i.events));
    }
  }

  ghost predicate NoEmptyResync(inputs: seq<Input>) {
    forall k :: 0 <= k < |inputs| ==> !EmptyResync(Run(INITIAL, inputs[..k]), inputs[k])
  }

  ghost predicate AlwaysSettled(inputs: seq<Input>) {
    forall k :: 0 <= k <= |inputs| ==> Settled(Run(INITIAL, inputs[..k]))
  }

  lemma RunPrefix(inputs: seq<Input>, k: nat)
    requires k < |inputs|
    ensures Run(INITIAL, inputs[..k + 1]) == Step(Run(INITIAL, inputs[..k]), inputs[k])
  {
    assert Front(inputs[..k + 1]) == inputs[..k];
  }

  lemma {:induction false} SettledUpTo(inputs: seq<Input>, k: nat)
    requires k <= |inputs| && NoEmptyResync(inputs)
    ensures Settled(Run(INITIAL, inputs[..k]))
    decreases k
  {
    if k > 0 {
      SettledUpTo(inputs, k - 1);
      RunPrefix(inputs, k - 1);
      StepSettles(Run(INITIAL, inputs[..k - 1]), inputs[k - 1]);
    }
  }

  /** Between any two steps of a run the slot holds exactly the last content processed, or the
      last call applied it - in precisely the runs without an `EmptyResync`. */
  lemma SlotOrApplied(inputs: seq<Input>)
    ensures AlwaysSettled(inputs) <==> NoEmptyResync(inputs)
  {
    if NoEmptyResync(inputs) {
      forall k | 0 <= k <= |inputs|
        ensures Settled(Run(INITIAL, inputs[..k]))
      {
        SettledUpTo(inputs, k);
      }
    }
    if AlwaysSettled(inputs) {
      forall k | 0 <= k < |inputs|
        ensures !EmptyResync(Run(INITIAL, inputs[..k]), inputs[k])
      {
        RunPrefix(inputs, k);
        assert Settled(Run(INITIAL, inputs[..k + 1]));
        StepSettles(Run(INITIAL, inputs[..k]), inputs[k]);
      }
    }
  }

  // ----- content that is already known

  /** Every usable PUT among the events carries this content. */
  ghost predicate Repeats(es: seq<Event>, policy: string) {
    forall i :: 0 <= i < |es| && Accepts(es[i]) ==> es[i].value == policy
  }

  lemma {:induction false} ConsumeRepeats(s: State, es: seq<Event>)
    requires Repeats(es, s.lastPolicy)
    ensures ConsumeAll(s, es) == s
    decreases |es|
  {
    if es != [] {
      ConsumeRepeats(s, Front(es));
    }
  }

  /** A replay of the last processed content, however often, does nothing: the response leaves what its
      two flushes leave. */
  lemma ReplaysAreIgnored(s: State, es: seq<Event>, t1: int, d1: int, t2: int, d2: int)
    requires Repeats(es, s.lastPolicy)
    ensures Step(s, Batch(es, t1, d1, t2, d2)) == Flush(Flush(s, t1, d1), t2, d2)
  {
    ConsumeRepeats(Flush(s, t1, d1), Collapse(es));
  }

  function Content(e: Event): seq<string> {
    if Accepts(e) then [e.value] else []
  }

  /** The usable content of the events looked at, in order. */
  function Contents(es: seq<Event>): seq<string> {
    if es == [] then [] else Contents(Front(es)) + Content(Last(es))
  }

  function ContentOf(i: Input): seq<string> {
    match i
    case Batch(events, _, _, _, _) => Contents(Collapse(events))
    case Timer(_, _) => []
    case Reconnect(reply, _, _) => if reply.Found? && |reply.value| <= MAX_POLICY_SIZE then [reply.value] else []
  }

  /** All usable content of a run, from watch responses and Gets, in order. */
  function Delivered(inputs: seq<Input>): seq<string> {
    if inputs == [] then [] else Delivered(Front(inputs)) + ContentOf(Last(inputs))
  }

  function Newest(contents: seq<string>): string {
    if contents == [] then "" else Last(contents)
  }

  /** How often the content differs from the one before it, the first one from no content. */
  function Changes(contents: seq<string>): nat {
    if contents == [] then 0
    else Changes(Front(contents)) + if Last(contents) != Newest(Front(contents)) then 1 else 0
  }

  /** Calls made, and one more if the slot is set. */
  function Owed(s: State): nat {
    |s.calls| + if s.pending.Some? then 1 else 0
  }

  ghost predicate Economical(s: State, contents: seq<string>) {
    s.lastPolicy == Newest(contents) && Owed(s) <= Changes(contents)
  }

  lemma ChangesMore(contents: seq<string>, content: string)
    ensures Newest(contents + [content]) == content
    ensures Changes(contents + [content]) == Changes(contents) + if content != Newest(contents) then 1 else 0
  {
    assert Front(contents + [content]) == contents;
  }

  lemma ConsumeOneEconomical(s: State, e: Event, contents: seq<string>)
    requires Economical(s, contents)
    ensures Economical(Consume(s, e), contents + Content(e))
  {
    if Accepts(e) {
      ChangesMore(contents, e.value);
    } else {
      assert contents + [] == contents;
    }
  }

  lemma {:induction false} ConsumeEconomical(s: State, es: seq<Event>, contents: seq<string>)
    requires Economical(s, contents)
    ensures Economical(ConsumeAll(s, es), contents + Contents(es))
    decreases |es|
  {
    if es == [] {
      assert contents + [] == contents;
    } else {
      ConsumeEconomical(s, Front(es), contents);
      ConsumeOneEconomical(ConsumeAll(s, Front(es)), Last(es), contents + Contents(Front(es)));
      Regrouped(contents, Contents(Front(es)), Content(Last(es)));
    }
  }

  lemma StepEconomical(s: State, i: Input, contents: seq<string>)
    requires Economical(s, contents)
    ensures Economical(Step(s, i), contents + ContentOf(i))
  {
    match i
    case Batch(events, t1, d1, t2, d2) => ConsumeEconomical(Flush(s, t1, d1), Collapse(events), contents);
    case Timer(t, d) => assert contents + [] == contents;
    case Reconnect(reply, t, d) =>
      if ContentOf(i) == [] {
        assert contents + [] == contents;
      } else {
        ChangesMore(contents, reply.value);
      }
  }

  /** In every run the policy is recompiled at most as often as the delivered content changes: repeated
      deliveries of one content, by events, Gets or both, cost one call. */
  lemma {:induction false} CallsOnlyForChanges(inputs: seq<Input>)
    ensures |Run(INITIAL, inputs).calls| <= Changes(Delivered(inputs))
    ensures Economical(Run(INITIAL, inputs), Delivered(inputs))
    decreases |inputs|
  {
    if inputs != [] {
      CallsOnlyForChanges(Front(inputs));
      StepEconomical(Run(INITIAL, Front(inputs)), Last(inputs), Delivered(Front(inputs)));
    }
  }

  // ----- size

  /** Content of more than ten mebibytes is neither processed nor queued nor applied, in any run. */
  ghost predicate Small(s: State) {
    && |s.lastPolicy| <= 10485760
    && (s.pending.Some? ==> |s.pending.value.policy| <= 10485760)
    && (forall i :: 0 <= i < |s.calls| ==> |s.calls[i].policy| <= 10485760)
  }

  lemma {:induction false} ConsumeSmall(s: State, es: seq<Event>)
    requires Small(s)
    ensures Small(ConsumeAll(s, es))
    decreases |es|
  {
    if es != [] {
      ConsumeSmall(s, Front(es));
    }
  }

  lemma StepSmall(s: State, i: Input)
    requires Small(s)
    ensures Small(Step(s, i))
  {
    if i.Batch? {
      ConsumeSmall(Flush(s, i.t1, i.d1), Collapse(i.events));
    }
  }

  lemma {:induction false} OversizedIsIgnored(inputs: seq<Input>)
    ensures Small(Run(INITIAL, inputs))
    decreases |inputs|
  {
    if inputs != [] {
      OversizedIsIgnored(Front(inputs));
      StepSmall(Run(INITIAL, Front(inputs)), Last(inputs));
    }
  }

  /** Anything smaller is processed, from a watch response or a Get: it is the last content then. */
  lemma SmallIsProcessed(s: State, policy: string, rev: nat, t: int, d: int)
    requires |policy| <= 10485760
    ensures Step(s, Batch([Update(policy, rev)], t, d, t, d)).lastPolicy == policy
    ensures Step(s, Reconnect(Found(policy, rev), t, d)).lastPolicy == policy
  {
    assert Front([Update(policy, rev)]) == [];
    assert ConsumeAll(Flush(s, t, d), []) == Flush(s, t, d);
    assert ConsumeAll(Flush(s, t, d), [Update(policy, rev)]) == Consume(Flush(s, t, d), Update(policy, rev));
  }

  // ----- collapsing an oversized response

  /** Looking only at the last event of a response leaves the same policy due to govern exactly
      when that event is a usable PUT, or the response changes nothing at all. */
  lemma CollapseKeepsDue(s: State, es: seq<Event>, t1: int, d1: int, t2: int, d2: int)
    requires Settled(s) && es != []
    ensures Due(Respond(s, es, t1, d1, t2, d2)) == LatestAccepted(es, s.lastPolicy)
    ensures Due(Respond(s, es, t1, d1, t2, d2)) == Due(Respond(s, [Last(es)], t1, d1, t2, d2))
       <==> Accepts(Last(es)) || LatestAccepted(es, s.lastPolicy) == s.lastPolicy
  {
    ConsumeSettles(Flush(s, t1, d1), es);
    ConsumeSettles(Flush(s, t1, d1), [Last(es)]);
    assert LatestAccepted([Last(es)], s.lastPolicy) ==
           if Accepts(Last(es)) then Last(es).value else LatestAccepted(Front([Last(es)]), s.lastPolicy);
  }

  /** `n` writes of one policy, as events. */
  function Updates(policy: string, n: nat): seq<Event> {
    if n == 0 then [] else Updates(policy, n - 1) + [Update(policy, n - 1)]
  }

  lemma {:induction false} UpdatesFrom(h: seq<Write>, policy: string, n: nat)
    requires n <= |h| && forall i :: 0 <= i < n ==> h[i] == Put(policy)
    ensures |Updates(policy, n)| == n && EventsFrom(h, Updates(policy, n), 0) && CursorAfter(Updates(policy, n), 0) == n
    decreases n
  {
    if n > 0 {
      UpdatesFrom(h, policy, n - 1);
      assert Front(Updates(policy, n)) == Updates(policy, n - 1);
    }
  }

  /** The last event of an oversized response need not be the latest policy: 10000 writes of a policy
      and a deletion arrive in one response, and the policy is neither applied nor queued, although it
      is what the events one by one would leave due. */
  lemma CollapseLosesPolicy(policy: string) returns (h: seq<Write>, es: seq<Event>)
    requires policy != "" && |policy| <= MAX_POLICY_SIZE
    ensures |es| == 10001 && From(h, [Batch(es, 0, 0, 0, 0)])
    ensures Due(Run(INITIAL, [Batch(es, 0, 0, 0, 0)])) == ""
    ensures Due(Respond(INITIAL, es, 0, 0, 0, 0)) == policy
  {
    h := seq(10000, i => Put(policy)) + [Removed];
    var updates := Updates(policy, 10000);
    es := updates + [Deletion(10000)];
    UpdatesFrom(h, policy, 10000);
    assert Front(es) == updates && Last(es) == Deletion(10000);
    assert Last(updates) == Update(policy, 9999);
    assert LatestAccepted(es, "") == LatestAccepted(updates, "") == policy;
    var i := Batch(es, 0, 0, 0, 0);
    assert EventsFrom(h, es, 0);
    assert Front([i]) == [] && From(h, []) && Cursor([]) == 0 && Run(INITIAL, []) == INITIAL;
    CollapseKeepsDue(INITIAL, es, 0, 0, 0, 0);
    CollapseKeepsDue(INITIAL, [Last(es)], 0, 0, 0, 0);
    assert Front([Last(es)]) == [] && LatestAccepted([Last(es)], "") == LatestAccepted([], "");
  }

  // ----- no older policy after a newer one

  /** Calls replay the write history without going back, and the slot is no older than any call. */
  ghost predicate Ordered(h: seq<Write>, s: State, cursor: nat) {
    && (forall i :: 0 <= i < |s.calls| ==>
          s.calls[i].rev < |h| && s.calls[i].rev < cursor && h[s.calls[i].rev] == Put(s.calls[i].policy))
    && (forall i, j :: 0 <= i < j < |s.calls| ==> s.calls[i].rev <= s.calls[j].rev)
    && (s.pending.Some? ==>
          && s.pending.value.rev < |h| && s.pending.value.rev < cursor
          && h[s.pending.value.rev] == Put(s.pending.value.policy)
          && forall i :: 0 <= i < |s.calls| ==> s.calls[i].rev <= s.pending.value.rev)
  }

  lemma {:induction false} CursorGrows(h: seq<Write>, es: seq<Event>, cursor: nat)
    requires EventsFrom(h, es, cursor)
    ensures cursor <= CursorAfter(es, cursor)
    decreases |es|
  {
    if es != [] {
      CursorGrows(h, Front(es), cursor);
    }
  }

  lemma FlushOrdered(h: seq<Write>, s: State, cursor: nat, t: int, d: int)
    requires Ordered(h, s, cursor)
    ensures Ordered(h, Flush(s, t, d), cursor)
  {
  }

  lemma {:induction false} ConsumeOrdered(h: seq<Write>, s: State, es: seq<Event>, cursor: nat)
    requires Ordered(h, s, cursor) && EventsFrom(h, es, cursor)
    ensures Ordered(h, ConsumeAll(s, es), CursorAfter(es, cursor))
    decreases |es|
  {
    if es != [] {
      ConsumeOrdered(h, s, Front(es), cursor);
    }
  }

  lemma CollapsedFrom(h: seq<Write>, es: seq<Event>, cursor: nat)
    requires EventsFrom(h, es, cursor)
    ensures EventsFrom(h, Collapse(es), cursor)
    ensures CursorAfter(Collapse(es), cursor) <= CursorAfter(es, cursor)
  {
    if |es| > MAX_EVENTS_PER_RESPONSE {
      CursorGrows(h, Front(es), cursor);
      assert Front([Last(es)]) == [] && EventsFrom(h, [], cursor) && CursorAfter([], cursor) == cursor;
    }
  }

  lemma BatchOrdered(h: seq<Write>, s: State, events: seq<Event>, cursor: nat, t1: int, d1: int, t2: int, d2: int)
    requires Ordered(h, s, cursor) && EventsFrom(h, events, cursor)
    ensures Ordered(h, Respond(s, Collapse(events), t1, d1, t2, d2), CursorAfter(events, cursor))
  {
    var es := Collapse(events);
    CollapsedFrom(h, events, cursor);
    FlushOrdered(h, s, cursor, t1, d1);
    ConsumeOrdered(h, Flush(s, t1, d1), es, cursor);
    var after := ConsumeAll(Flush(s, t1, d1), es);
    assert Ordered(h, after, CursorAfter(events, cursor));
    FlushOrdered(h, after, CursorAfter(events, cursor), t2, d2);
  }

  lemma ReconnectOrdered(h: seq<Write>, s: State, i: Input, cursor: nat)
    requires i.Reconnect? && Ordered(h, s, cursor) && Settled(s) && InputFrom(h, i, cursor) && !EmptyResync(s, i)
    ensures Ordered(h, Step(s, i), Advance(i, cursor))
  {
  }

  lemma StepOrdered(h: seq<Write>, s: State, i: Input, cursor: nat)
    requires Ordered(h, s, cursor) && Settled(s) && InputFrom(h, i, cursor) && !EmptyResync(s, i)
    ensures Ordered(h, Step(s, i), Advance(i, cursor))
  {
    match i
    case Batch(events, t1, d1, t2, d2) => BatchOrdered(h, s, events, cursor, t1, d1, t2, d2);
    case Timer(t, d) => FlushOrdered(h, s, cursor, t, d);
    case Reconnect(_, _, _) => ReconnectOrdered(h, s, i, cursor);
  }

  lemma {:induction false} RunOrdered(h: seq<Write>, inputs: seq<Input>)
    requires From(h, inputs) && NoEmptyResync(inputs)
    ensures Ordered(h, Run(INITIAL, inputs), Cursor(inputs))
    decreases |inputs|
  {
    if inputs != [] {
      var front, k := Front(inputs), |inputs| - 1;
      assert forall j :: 0 <= j < k ==> front[..j] == inputs[..j] && front[j] == inputs[j];
      RunOrdered(h, front);
      SettledUpTo(inputs, k);
      assert !EmptyResync(Run(INITIAL, inputs[..k]), inputs[k]);
      StepOrdered(h, Run(INITIAL, front), Last(inputs), Cursor(front));
    }
  }

  ghost predicate InOrder(calls: seq<Call>) {
    forall i, j :: 0 <= i < j < |calls| ==> calls[i].rev <= calls[j].rev
  }

  /** Across any number of terminations and resyncs, the calls of a run are entries of the key's
      write history at non-decreasing positions: no older policy is applied after a newer one. */
  lemma NeverRegresses(h: seq<Write>, inputs: seq<Input>)
    requires From(h, inputs) && NoEmptyResync(inputs)
    ensures var calls := Run(INITIAL, inputs).calls;
            && (forall i :: 0 <= i < |calls| ==> calls[i].rev < |h| && h[calls[i].rev] == Put(calls[i].policy))
            && InOrder(calls)
  {
    RunOrdered(h, inputs);
  }

  /** In every run: the slot is an entry of the write history, and holds the last content processed
      unless that is empty. */
  ghost predicate Queued(h: seq<Write>, s: State, cursor: nat) {
    s.pending.Some? ==>
      && s.pending.value.rev < |h| && s.pending.value.rev < cursor
      && h[s.pending.value.rev] == Put(s.pending.value.policy)
      && (s.lastPolicy != "" ==> s.pending.value.policy == s.lastPolicy)
  }

  lemma {:induction false} ConsumeQueued(h: seq<Write>, s: State, es: seq<Event>, cursor: nat)
    requires Queued(h, s, cursor) && EventsFrom(h, es, cursor)
    ensures Queued(h, ConsumeAll(s, es), CursorAfter(es, cursor))
    decreases |es|
  {
    if es != [] {
      ConsumeQueued(h, s, Front(es), cursor);
    }
  }

  lemma StepQueued(h: seq<Write>, s: State, i: Input, cursor: nat)
    requires Queued(h, s, cursor) && InputFrom(h, i, cursor)
    ensures Queued(h, Step(s, i), Advance(i, cursor))
  {
    if i.Batch? {
      CollapsedFrom(h, i.events, cursor);
      ConsumeQueued(h, Flush(s, i.t1, i.d1), Collapse(i.events), cursor);
    }
  }

  lemma {:induction false} RunQueued(h: seq<Write>, inputs: seq<Input>)
    requires From(h, inputs)
    ensures Queued(h, Run(INITIAL, inputs), Cursor(inputs))
    decreases |inputs|
  {
    if inputs != [] {
      RunQueued(h, Front(inputs));
      StepQueued(h, Run(INITIAL, Front(inputs)), Last(inputs), Cursor(Front(inputs)));
    }
  }

  lemma EmptyResyncStep(h: seq<Write>, s: State, i: Input, cursor: nat, t: int, d: int)
    requires Queued(h, s, cursor) && InputFrom(h, i, cursor)
    requires EmptyResync(s, i) && Elapsed(s.lastReload, t)
    ensures var calls := Flush(Step(s, i), t, d).calls;
            var n := |calls|;
            && n >= 2
            && calls[n - 2].policy == "" && calls[n - 1].policy == s.lastPolicy
            && calls[n - 1].rev < calls[n - 2].rev
  {
    assert h[s.pending.value.rev] != h[i.reply.rev];
  }

  /** The excluded runs do regress: every `EmptyResync` of any run, followed by a timer after the
      interval, applies the slot's older policy on top of the newer empty one. */
  lemma EmptyResyncRegresses(h: seq<Write>, inputs: seq<Input>, i: Input, t: int, d: int)
    requires From(h, inputs + [i])
    requires EmptyResync(Run(INITIAL, inputs), i) && Elapsed(Run(INITIAL, inputs).lastReload, t)
    ensures var calls := Run(INITIAL, inputs + [i] + [Timer(t, d)]).calls;
            var n := |calls|;
            && n >= 2
            && calls[n - 2].policy == "" && calls[n - 1].policy == Run(INITIAL, inputs).lastPolicy
            && calls[n - 1].rev < calls[n - 2].rev
  {
    assert Front(inputs + [i]) == inputs;
    assert Front(inputs + [i] + [Timer(t, d)]) == inputs + [i];
    RunQueued(h, inputs);
    EmptyResyncStep(h, Run(INITIAL, inputs), i, Cursor(inputs), t, d);
  }

  /** The calls are in order when the run is cut after `k` inputs and its timer then fires at `t`. */
  ghost predicate FiresInOrder(inputs: seq<Input>, k: nat, t: int, d: int)
    requires k <= |inputs|
  {
    InOrder(Run(INITIAL, inputs[..k] + [Timer(t, d)]).calls)
  }

  /** ... whenever the timer fires, no earlier than the last input. */
  ghost predicate AlwaysInOrder(inputs: seq<Input>, start: int) {
    forall k: nat, t: int, d: int ::
      k <= |inputs| && Clock(inputs[..k], start) <= t <= d ==> FiresInOrder(inputs, k, t, d)
  }

  lemma {:induction false} FromPrefix(h: seq<Write>, inputs: seq<Input>, k: nat)
    requires From(h, inputs) && k <= |inputs|
    ensures From(h, inputs[..k])
    decreases |inputs|
  {
    if k < |inputs| {
      FromPrefix(h, Front(inputs), k);
      assert Front(inputs)[..k] == inputs[..k];
    } else {
      assert inputs[..k] == inputs;
    }
  }

  lemma CutFiresInOrder(h: seq<Write>, inputs: seq<Input>, k: nat, t: int, d: int)
    requires From(h, inputs) && NoEmptyResync(inputs) && k <= |inputs|
    ensures FiresInOrder(inputs, k, t, d)
  {
    var cut := inputs[..k] + [Timer(t, d)];
    FromPrefix(h, inputs, k);
    assert Front(cut) == inputs[..k] && cut[k] == Timer(t, d);
    assert forall j :: 0 <= j < k ==> cut[..j] == inputs[..j] && cut[j] == inputs[j];
    NeverRegresses(h, cut);
  }

  lemma EmptyResyncFires(h: seq<Write>, inputs: seq<Input>, start: int, k: nat)
    requires From(h, inputs) && k < |inputs| && EmptyResync(Run(INITIAL, inputs[..k]), inputs[k])
    ensures !AlwaysInOrder(inputs, start)
  {
    var last, now := Run(INITIAL, inputs[..k]).lastReload, Clock(inputs[..k + 1], start);
    var t := if last.Some? && last.value + MIN_RELOAD_INTERVAL > now then last.value + MIN_RELOAD_INTERVAL else now;
    assert inputs[..k + 1] == inputs[..k] + [inputs[k]];
    FromPrefix(h, inputs, k + 1);
    EmptyResyncRegresses(h, inputs[..k], inputs[k], t, t);
    var calls := Run(INITIAL, inputs[..k + 1] + [Timer(t, t)]).calls;
    assert calls[|calls| - 1].rev < calls[|calls| - 2].rev;
    assert !FiresInOrder(inputs, k + 1, t, t);
  }

  /** Exactly which runs keep the order, whenever their timers fire: those without an `EmptyResync`. */
  lemma InOrderExactly(h: seq<Write>, inputs: seq<Input>, start: int)
    requires From(h, inputs)
    ensures AlwaysInOrder(inputs, start) <==> NoEmptyResync(inputs)
  {
    if NoEmptyResync(inputs) {
      forall k: nat, t: int, d: int | k <= |inputs| && Clock(inputs[..k], start) <= t <= d
        ensures FiresInOrder(inputs, k, t, d)
      {
        CutFiresInOrder(h, inputs, k, t, d);
      }
    } else {
      var k :| 0 <= k < |inputs| && EmptyResync(Run(INITIAL, inputs[..k]), inputs[k]);
      EmptyResyncFires(h, inputs, start, k);
    }
  }

  /** Such a run exists: "allow" is applied, "block" waits in the slot, and the key is then emptied. */
  lemma EmptyResyncExample()
    ensures exists h, inputs, i :: From(h, inputs + [i]) && NoEmptyResync(inputs) && EmptyResync(Run(INITIAL, inputs), i)
  {
    var h := [Put("allow"), Put("block"), Put("")];
    var e0, e1 := [Update("allow", 0)], [Update("block", 1)];
    var i0, i1, i2 := Batch(e0, 0, 0, 0, 0), Batch(e1, 1, 1, 1, 1), Reconnect(Found("", 2), 2, 2);
    assert Front(e0) == [] && Front(e1) == [];
    assert Front([i0]) == [] && Front([i0, i1]) == [i0] && Front([i0, i1] + [i2]) == [i0, i1];
    assert EventsFrom(h, [], 0) && EventsFrom(h, [], 1) && CursorAfter([], 0) == 0 && CursorAfter([], 1) == 1;
    assert From(h, []) && Cursor([]) == 0;
    assert From(h, [i0]) && Cursor([i0]) == 1;
    assert From(h, [i0, i1]) && Cursor([i0, i1]) == 2;
    var s1 := Run(INITIAL, [i0]);
    assert s1 == Step(Run(INITIAL, []), i0) && ConsumeAll(INITIAL, []) == INITIAL;
    assert Run(INITIAL, [i0, i1]) == Step(s1, i1) && ConsumeAll(s1, []) == s1;
    assert From(h, [i0, i1] + [i2]) && NoEmptyResync([i0, i1]) && EmptyResync(Run(INITIAL, [i0, i1]), i2);
  }

  // ----- the reload rate

  ghost predicate Spaced(calls: seq<Call>) {
    forall i, j :: 0 <= i < j < |calls| && calls[i].watched && calls[j].watched ==>
      calls[j].at >= calls[i].done + 100 * MILLISECOND
  }

  ghost predicate RateInv(s: State, clock: int) {
    && Spaced(s.calls)
    && (s.lastReload.Some? ==> s.lastReload.value <= clock)
    && (forall i :: 0 <= i < |s.calls| && s.calls[i].watched ==>
          s.calls[i].at <= s.calls[i].done && s.lastReload.Some? && s.calls[i].done <= s.lastReload.value)
  }

  lemma {:induction false} ConsumeKeepsCalls(s: State, es: seq<Event>)
    ensures ConsumeAll(s, es).calls == s.calls && ConsumeAll(s, es).lastReload == s.lastReload
    decreases |es|
  {
    if es != [] {
      ConsumeKeepsCalls(s, Front(es));
    }
  }

  lemma FlushSpaced(s: State, clock: int, t: int, d: int)
    requires RateInv(s, clock) && clock <= t <= d
    ensures RateInv(Flush(s, t, d), d)
  {
  }

  lemma {:induction false} RunSpaced(inputs: seq<Input>, start: int)
    requires ClockRuns(inputs, start)
    ensures RateInv(Run(INITIAL, inputs), Clock(inputs, start))
    decreases |inputs|
  {
    if inputs != [] {
      RunSpaced(Front(inputs), start);
      var s, clock := Run(INITIAL, Front(inputs)), Clock(Front(inputs), start);
      match Last(inputs)
      case Batch(events, t1, d1, t2, d2) =>
        FlushSpaced(s, clock, t1, d1);
        ConsumeKeepsCalls(Flush(s, t1, d1), Collapse(events));
        FlushSpaced(ConsumeAll(Flush(s, t1, d1), Collapse(events)), t2, t2, d2);
      case Timer(t, d) => FlushSpaced(s, clock, t, d);
      case Reconnect(reply, t, d) =>
    }
  }

  /** Watch-path calls that begin in the closed window [lo, hi]. */
  function WatchedIn(calls: seq<Call>, lo: int, hi: int): nat {
    if calls == [] then 0
    else WatchedIn(Front(calls), lo, hi) + if Last(calls).watched && lo <= Last(calls).at <= hi then 1 else 0
  }

  lemma {:induction false} WindowNarrows(calls: seq<Call>, lo: int, hi: int, hi': int)
    requires hi' <= hi
    requires forall i :: 0 <= i < |calls| && calls[i].watched ==> calls[i].at <= hi'
    ensures WatchedIn(calls, lo, hi) == WatchedIn(calls, lo, hi')
    decreases |calls|
  {
    if calls != [] {
      WindowNarrows(Front(calls), lo, hi, hi');
    }
  }

  lemma {:induction false} WindowBound(calls: seq<Call>, lo: int, hi: int)
    requires Spaced(calls)
    requires forall i :: 0 <= i < |calls| && calls[i].watched ==> calls[i].at <= calls[i].done
    ensures WatchedIn(calls, lo, hi) > 0 ==> (WatchedIn(calls, lo, hi) - 1) * MIN_RELOAD_INTERVAL <= hi - lo
    decreases |calls|
  {
    if calls != [] {
      var front, c := Front(calls), Last(calls);
      if c.watched && lo <= c.at <= hi {
        forall i | 0 <= i < |front| && front[i].watched
          ensures front[i].at <= c.at - MIN_RELOAD_INTERVAL
        {
          assert calls[i].done + MIN_RELOAD_INTERVAL <= calls[|calls| - 1].at;
        }
        WindowNarrows(front, lo, hi, c.at - MIN_RELOAD_INTERVAL);
        WindowBound(front, lo, c.at - MIN_RELOAD_INTERVAL);
      } else {
        WindowBound(front, lo, hi);
      }
    }
  }

  /** In every run, reconnects included, each watch-path reload begins a full interval after the
      previous one ended, so a window of length `hi - lo` holds at most that many intervals plus one. */
  lemma ReloadRate(inputs: seq<Input>, start: int, lo: int, hi: int)
    requires ClockRuns(inputs, start) && lo <= hi
    ensures Spaced(Run(INITIAL, inputs).calls)
    ensures WatchedIn(Run(INITIAL, inputs).calls, lo, hi) <= (hi - lo) / (100 * MILLISECOND) + 1
  {
    RunSpaced(inputs, start);
    WindowBound(Run(INITIAL, inputs).calls, lo, hi);
    Intervals(WatchedIn(Run(INITIAL, inputs).calls, lo, hi), hi - lo);
  }

  lemma Intervals(n: nat, length: int)
    requires length >= 0 && (n > 0 ==> (n - 1) * MIN_RELOAD_INTERVAL <= length)
    ensures n <= length / MIN_RELOAD_INTERVAL + 1
  {
  }

  /** The delay the loop arms its timer with while the slot is set. */
  function TimerDelay(s: State, now: int): int {
    var d := if s.lastReload.None? then 0 else MIN_RELOAD_INTERVAL - (now - s.lastReload.value);
    if d < MILLISECOND then MILLISECOND else d
  }

  /** A timer armed with that delay does not fire too early for the flush; it waits no longer than that
      takes, and never less than a millisecond. */
  lemma TimerIsLateEnough(s: State, armed: int, fired: int)
    requires fired >= armed + TimerDelay(s, armed)
    ensures Elapsed(s.lastReload, fired)
    ensures var delay := TimerDelay(s, armed);
            delay >= MILLISECOND && (delay > MILLISECOND ==> !Elapsed(s.lastReload, armed + delay - 1))
  {
  }

  /** A queued policy is not dropped by waiting: at any timer or response once the interval has
      passed, the very next call carries the slot's policy. */
  lemma SlotIsFlushed(s: State, i: Input)
    requires s.pending.Some?
    requires i.Timer? || i.Batch?
    requires var t := if i.Timer? then i.t else i.t1; s.lastReload.Some? ==> t >= s.lastReload.value + 100 * MILLISECOND
    ensures |Step(s, i).calls| > |s.calls|
    ensures Step(s, i).calls[..|s.calls|] == s.calls
    ensures Step(s, i).calls[|s.calls|].policy == s.pending.value.policy
    ensures Step(s, i).calls[|s.calls|].watched
  {
    if i.Batch? {
      ConsumeKeepsCalls(Flush(s, i.t1, i.d1), Collapse(i.events));
    }
  }
}
