/**
 * `StackTraceCollector::Collect` of src/ts/signal_handler.cc from top to bottom: the loop that signals
 * the threads, the difference of the two sets of thread ids, the loop that waits for the
 * acknowledgements and the grouping.  What the kernel and the handlers do meanwhile is a run of the
 * protocol of module Collector, and the result is proved against that run.
 */
module Collect {
  import opened Common
  import opened Stacks
  import opened Collector

  // ----- the loops

  /** The signalling loop, given which signals the kernel accepts. */
  method SignalAll(threads: seq<int>, accepted: set<int>) returns (slot: seq<int>, failed: seq<int>)
    requires Ascending(threads)
    ensures forall x :: x in failed <==> x in threads && x !in accepted
    ensures Ascending(failed) && slot == Kept(threads, Elements(failed))
  {
    slot, failed := [], [];
    assert Kept(threads[..0], {}) == [];
    hide Kept;
    for i := 0 to |threads|
      invariant forall x :: x in failed <==> x in threads[..i] && x !in accepted
      invariant Ascending(failed) && slot == Kept(threads[..i], Elements(failed))
    {
      var tid := threads[i];
      assert threads[..i + 1] == threads[..i] + [tid];
      KeptNext(threads, i, Elements(failed));
      if tid !in accepted {
        AscendingAppend(failed, tid);
        ElementsAppend(failed, tid);
        failed := failed + [tid];
      } else {
        slot := slot + [tid];
      }
    }
    assert threads[..|threads|] == threads;
  }

  function AckCount(events: seq<Event>): nat
  {
    if events == [] then 0 else AckCount(events[..|events| - 1]) + (if events[|events| - 1].AckRead? then 1 else 0)
  }

  datatype Wait = AllAcked | TimedOut | StillWaiting

  /** The wait loop, fed with events: it stops at the timer, or when the last awaited byte has been read. */
  method AwaitAcks(awaited: nat, events: seq<Event>) returns (w: Wait, used: nat)
    ensures used <= |events| && TimerFires !in events[..used]
    ensures w.AllAcked? <==> AckCount(events[..used]) == awaited
    ensures AckCount(events[..used]) <= awaited
    ensures w.TimedOut? ==> used < |events| && events[used].TimerFires?
    ensures w.StillWaiting? ==> used == |events|
  {
    var acks := 0;
    used := 0;
    while acks < awaited
      invariant used <= |events| && acks == AckCount(events[..used]) <= awaited && TimerFires !in events[..used]
      decreases |events| - used
    {
      if used == |events| {
        return StillWaiting, used;
      }
      if events[used].TimerFires? {
        return TimedOut, used;
      }
      if events[used].AckRead? {
        acks := acks + 1;
      }
      assert events[..used + 1] == events[..used] + [events[used]];
      used := used + 1;
    }
    return AllAcked, used;
  }

  // ----- what a run of the protocol reports to the wait loop

  function EventOf(e: Step): seq<Event>
  {
    match e
    case CountAck => [AckRead]
    case Retry(event) => [event]
    case TimeOut => [TimerFires]
    case _ => []
  }

  function EventsOf(steps: seq<Step>): seq<Event>
  {
    if steps == [] then [] else EventsOf(steps[..|steps| - 1]) + EventOf(steps[|steps| - 1])
  }

  /** What the wait loop has seen agrees with where the protocol is. */
  ghost predicate Agree(events: seq<Event>, s: State)
  {
    && AckCount(events) == s.acks
    && (TimerFires in events <==> s.phase.Failed?)
    && (if s.phase.Signalling? || s.phase.Storing? then s.acks == 0 else s.acks <= |Awaited(s)|)
    && (s.phase.Failed? ==> s.acks < |Awaited(s)|)
    && (s.phase.Collected? ==> s.acks == |Awaited(s)|)
  }

  lemma AckCountAppend(events: seq<Event>, event: Event)
    ensures AckCount(events + [event]) == AckCount(events) + (if event.AckRead? then 1 else 0)
  {
    assert (events + [event])[..|events|] == events;
  }

  lemma AgreeStep(events: seq<Event>, s: State, e: Step)
    requires Agree(events, s) && Enabled(s, e)
    ensures Agree(events + EventOf(e), Apply(s, e))
  {
    hide AckCount;
    if EventOf(e) != [] {
      AckCountAppend(events, EventOf(e)[0]);
    } else {
      assert events + EventOf(e) == events;
    }
  }

  lemma {:induction false} RunAgrees(states: seq<State>, steps: seq<Step>, k: nat)
    requires IsRun(states, steps) && k < |states|
    ensures Agree(EventsOf(steps[..k]), states[k])
  {
    hide Apply, Enabled;
    if k == 0 {
      assert EventsOf(steps[..0]) == [];
    } else {
      RunAgrees(states, steps, k - 1);
      AgreeStep(EventsOf(steps[..k - 1]), states[k - 1], steps[k - 1]);
      assert steps[..k][..k - 1] == steps[..k - 1] && steps[..k][k - 1] == steps[k - 1];
      assert EventsOf(steps[..k]) == EventsOf(steps[..k - 1]) + EventOf(steps[k - 1]);
    }
  }

  lemma {:induction false} AckCountMonotone(events: seq<Event>, n: nat)
    requires n <= |events|
    ensures AckCount(events[..n]) <= AckCount(events)
  {
    if n == |events| {
      assert events[..n] == events;
    } else {
      var m := |events| - 1;
      assert events[..m][..n] == events[..n];
      AckCountMonotone(events[..m], n);
    }
  }

  /** How a collection ends, as far as the wait loop can tell. */
  lemma WaitEndsLikeRun(states: seq<State>, steps: seq<Step>, used: nat, w: Wait)
    requires IsRun(states, steps) && Over(states[|steps|])
    requires var events, awaited := EventsOf(steps), |Awaited(states[|steps|])|;
             && used <= |events| && TimerFires !in events[..used]
             && (w.AllAcked? <==> AckCount(events[..used]) == awaited) && AckCount(events[..used]) <= awaited
             && (w.TimedOut? ==> used < |events| && events[used].TimerFires?) && (w.StillWaiting? ==> used == |events|)
    ensures w == if states[|steps|].phase.Collected? then AllAcked else TimedOut
  {
    hide Apply, Enabled, EventsOf, AckCount, Awaited;
    var events := EventsOf(steps);
    assert events[..|events|] == events;
    assert steps[..|steps|] == steps;
    RunAgrees(states, steps, |steps|);
    AckCountMonotone(events, used);
  }

  // ----- Collect

  /** The collection has returned, normally or with an error. */
  predicate Over(s: State) { s.phase.Collected? || s.phase.Failed? }

  /** The threads of the second set are those awaited, and as many. */
  lemma DifferenceIsAwaited(s: State, failed: seq<int>, tids: seq<int>)
    requires s.failed == Elements(failed) && Ascending(tids)
    requires forall x :: x in tids <==> x in s.threads && x !in failed
    ensures Elements(tids) == Awaited(s) && |tids| == |Awaited(s)|
  {
    AscendingSize(tids);
    assert Elements(tids) == Awaited(s);
  }

  /** What the loop over the threads finds is what the run recorded. */
  lemma SignalsLikeRun(states: seq<State>, steps: seq<Step>, slot: seq<int>, failed: seq<int>)
    requires IsRun(states, steps) && Over(states[|steps|])
    requires forall x :: x in failed <==> x in states[0].threads && x !in Awaited(states[|steps|])
    requires slot == Kept(states[0].threads, Elements(failed))
    ensures Elements(failed) == states[|steps|].failed && slot == states[|steps|].slot
    ensures states[|steps|].forms.Keys == Elements(slot)
  {
    hide Kept;
    var s := states[|steps|];
    RunInv(states, steps, |steps|);
    assert s.threads[..|s.threads|] == s.threads;
    forall x ensures x in Elements(failed) <==> x in s.failed {
      assert x in s.failed ==> x in s.threads[..Handled(s)];
    }
    assert Elements(failed) == s.failed;
  }

  /**
   * Collect.  The run is what happens while it executes: which signals the kernel accepts, what
   * `select` and `read` report, and what the handlers leave in the forms.  It returns results exactly
   * when the run ends normally; they list the threads that could be signalled, each once, and each
   * under the first hundred readable instruction pointers of its own unwind.
   */
  method Collect(threads: seq<int>, accepted: set<int>, events: seq<Event>, stacks: map<int, Stack>,
                 ghost states: seq<State>, ghost steps: seq<Step>)
    returns (results: Option<seq<Group>>)
    requires IsRun(states, steps) && Over(states[|steps|])
    requires threads == states[0].threads && accepted == Awaited(states[|steps|]) && events == EventsOf(steps)
    requires forall x :: x in states[|steps|].forms ==> x in stacks && stacks[x] == states[|steps|].forms[x].stack
    ensures results.Some? <==> states[|steps|].phase.Collected?
    ensures results.Some? ==> IsCollection(results.value, accepted, states[0].unwinds)
  {
    hide Apply, Enabled, Kept, EventsOf, AckCount, Awaited, IsCollection, GroupsOf;
    ghost var s := states[|steps|];
    assert Ascending(threads) && s.threads == threads by { RunStarts(states, steps); }
    var slot, failed := SignalAll(threads, accepted);
    SignalsLikeRun(states, steps, slot, failed);
    var tids := SetDifference(threads, failed);
    DifferenceIsAwaited(s, failed, tids);
    var w, used := AwaitAcks(|tids|, events);
    WaitEndsLikeRun(states, steps, used, w);
    if !w.AllAcked? {
      return None;
    }
    assert forall x :: x in slot ==> x in stacks;
    var forms := seq(|slot|, i requires 0 <= i < |slot| => Trace(slot[i], stacks[slot[i]]));
    assert forms == Slots(s);
    var groups := GroupByStack(forms);
    EndToEnd(states, steps, |steps|, groups);
    return Some(groups);
  }

  lemma RunStarts(states: seq<State>, steps: seq<Step>)
    requires IsRun(states, steps)
    ensures Ascending(states[0].threads) && states[|steps|].threads == states[0].threads
  {
    RunInv(states, steps, |steps|);
  }
}
