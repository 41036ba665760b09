/** The watch loop as the program runs it: mutable fields, and a nested loop over the events of
    every response. Each method is proved against the step functions of SyncModel. */
module SyncLoop {
  import opened Util
  import opened SyncModel

  class Syncer {
    var lastPolicy: string
    var lastReload: Option<int>
    var pendingPolicy: string
    var pendingSet: bool
    ghost var pendingRev: nat
    ghost var calls: seq<Call>

    ghost function Model(): State
      reads this
    {
      State(lastPolicy, lastReload, if pendingSet then Some(Slot(pendingPolicy, pendingRev)) else None, calls)
    }

    constructor ()
      ensures Model() == INITIAL
    {
      lastPolicy, lastReload, pendingPolicy, pendingSet := "", None, "", false;
      pendingRev, calls := 0, [];
    }

    method ApplyPolicy(policy: string) returns (changed: bool)
      modifies this`lastPolicy
      ensures lastPolicy == policy
      ensures changed <==> policy != old(lastPolicy)
    {
      if policy == lastPolicy {
        return false;
      }
      lastPolicy := policy;
      return true;
    }

    method LoadCurrent(reply: Reply, t: int, d: int) returns (current: string)
      modifies this`lastPolicy, this`calls
      ensures Model() == Load(old(Model()), reply, t, d)
      ensures current == Current(reply)
    {
      if reply.NoReply? || |reply.value| > MAX_POLICY_SIZE {
        return "";
      }
      var changed := ApplyPolicy(reply.value);
      if changed {
        calls := calls + [Call(reply.value, reply.rev, t, d, false)];
      }
      return reply.value;
    }

    method FlushPending(t: int, d: int)
      modifies this`pendingSet, this`lastReload, this`calls
      ensures Model() == Flush(old(Model()), t, d)
    {
      if !pendingSet {
        return;
      }
      if lastReload.Some? && t - lastReload.value < MIN_RELOAD_INTERVAL {
        return;
      }
      pendingSet := false;
      calls := calls + [Call(pendingPolicy, pendingRev, t, d, true)];
      lastReload := Some(d);
    }

    method HandleResponse(response: seq<Event>, t1: int, d1: int, t2: int, d2: int)
      modifies this
      ensures Model() == Respond(old(Model()), Collapse(response), t1, d1, t2, d2)
    {
      FlushPending(t1, d1);
      ghost var before := Model();
      var events := response;
      if |events| > MAX_EVENTS_PER_RESPONSE {
        events := events[|events| - 1..];
      }
      assert events == Collapse(response);
      for i := 0 to |events|
        invariant Model() == ConsumeAll(before, events[..i])
      {
        assert Front(events[..i + 1]) == events[..i];
        var ev := events[i];
        if ev.Malformed? || ev.Deletion? {
          continue;
        }
        if |ev.value| > MAX_POLICY_SIZE {
          continue;
        }
        var changed := ApplyPolicy(ev.value);
        if !changed {
          continue;
        }
        pendingPolicy := ev.value;
        pendingRev := ev.rev;
        pendingSet := true;
      }
      assert events[..|events|] == events;
      FlushPending(t2, d2);
    }

    method Resync(reply: Reply, t: int, d: int)
      modifies this
      ensures Model() == DropSuperseded(Load(old(Model()), reply, t, d), Current(reply))
    {
      var current := LoadCurrent(reply, t, d);
      if current != "" && pendingSet && pendingPolicy != current {
        pendingSet := false;
      }
    }

    /** The outer loop over whatever the channels deliver. */
    method Watch(inputs: seq<Input>)
      modifies this
      ensures Model() == Run(old(Model()), inputs)
    {
      for i := 0 to |inputs|
        invariant Model() == Run(old(Model()), inputs[..i])
      {
        assert Front(inputs[..i + 1]) == inputs[..i];
        match inputs[i]
        case Batch(events, t1, d1, t2, d2) => HandleResponse(events, t1, d1, t2, d2);
        case Timer(t, d) => FlushPending(t, d);
        case Reconnect(reply, t, d) => Resync(reply, t, d);
      }
      assert inputs[..|inputs|] == inputs;
    }
  }
}
