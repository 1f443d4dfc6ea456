/**
 * One stack collection in src/ts/signal_handler.cc: the collector signals the threads one by one,
 * the signal handlers fill their forms and write one byte each to the pipe, and the collector
 * counts the bytes.  Handlers run at any time after their signal was queued, even before the
 * collector has stored the form in its slot vector.
 *
 * Assumed of the system: a queued signal is handled at most once and by the thread it names, a
 * one-byte write is all or nothing, and no form of an earlier collection is outstanding.
 */
module Collector {
  import opened Common
  import opened Stacks

  datatype Handler = Queued | Unwinding(pos: nat) | Submitting | Submitted | Abandoned

  datatype Form = Form(stack: Stack, handler: Handler)

  /** `Signalling(i)` is at the top of the loop over the threads, `Storing(i)` between signal and `push_back`. */
  datatype Phase = Signalling(i: nat) | Storing(i: nat) | Waiting | Collected | Failed

  /** `threads` is the ascending list of thread ids, `unwinds` what unwinding each of them yields. */
  datatype State = State(
    threads: seq<int>, unwinds: map<int, seq<Frame>>,
    phase: Phase, forms: map<int, Form>, slot: seq<int>, failed: set<int>,
    pipe: nat, acks: nat)

  function Init(threads: seq<int>, unwinds: map<int, seq<Frame>>): State
  {
    State(threads, unwinds, Signalling(0), map[], [], {}, 0, 0)
  }

  /** The thread ids come out of a set, in ascending order, and each thread has an unwind. */
  ghost predicate GoodInput(threads: seq<int>, unwinds: map<int, seq<Frame>>)
  {
    Ascending(threads) && forall x :: x in threads ==> x in unwinds
  }

  /** What `select` and the read after it report. */
  datatype Event = SelectFails | NothingReady | TimerFires | ReadFails | AckRead

  datatype Step =
    | SignalOk | SignalFails | Store | StartWaiting
    | Begin(tid: int, ok: bool)
    | Unwind(tid: int)
    | Submit(tid: int, ok: bool)
    | CountAck | Retry(event: Event) | TimeOut | Finish

  predicate HandlerAt(s: State, tid: int) { tid in s.forms && tid in s.unwinds }

  /** The threads whose acknowledgement is awaited: all but those that could not be signalled. */
  function Awaited(s: State): set<int> { Elements(s.threads) - s.failed }

  predicate Enabled(s: State, e: Step)
  {
    !s.phase.Failed? &&
    match e
    case SignalOk => s.phase.Signalling? && s.phase.i < |s.threads|
    case SignalFails => s.phase.Signalling? && s.phase.i < |s.threads|
    case Store => s.phase.Storing? && s.phase.i < |s.threads|
    case StartWaiting => s.phase.Signalling? && s.phase.i >= |s.threads|
    case Begin(tid, _) => HandlerAt(s, tid) && s.forms[tid].handler.Queued?
    case Unwind(tid) => HandlerAt(s, tid) && s.forms[tid].handler.Unwinding?
    case Submit(tid, _) => HandlerAt(s, tid) && s.forms[tid].handler.Submitting?
    case CountAck => s.phase.Waiting? && s.acks < |Awaited(s)| && s.pipe > 0
    case Retry(event) => s.phase.Waiting? && s.acks < |Awaited(s)| && !event.AckRead? && !event.TimerFires?
    case TimeOut => s.phase.Waiting? && s.acks < |Awaited(s)|
    case Finish => s.phase.Waiting? && s.acks >= |Awaited(s)|
  }

  function SetForm(s: State, tid: int, f: Form): State { s.(forms := s.forms[tid := f]) }

  /** One turn of the unwinding loop of the handler, with `AddAddress`. */
  function UnwindOne(f: Form, frames: seq<Frame>): Form
    requires f.handler.Unwinding?
  {
    var pos := f.handler.pos;
    if pos >= |frames| then f.(handler := Submitting)
    else if frames[pos].None? then f.(handler := Unwinding(pos + 1))
    else if |f.stack| >= MAX_DEPTH then f.(handler := Submitting)
    else Form(f.stack + [frames[pos].value], Unwinding(pos + 1))
  }

  function Apply(s: State, e: Step): State
    requires Enabled(s, e)
  {
    match e
    case SignalOk => SetForm(s, s.threads[s.phase.i], Form([], Queued)).(phase := Storing(s.phase.i))
    case SignalFails => s.(failed := s.failed + {s.threads[s.phase.i]}, phase := Signalling(s.phase.i + 1))
    case Store => s.(slot := s.slot + [s.threads[s.phase.i]], phase := Signalling(s.phase.i + 1))
    case StartWaiting => s.(phase := Waiting)
    case Begin(tid, ok) => SetForm(s, tid, s.forms[tid].(handler := if ok then Unwinding(0) else Abandoned))
    case Unwind(tid) => SetForm(s, tid, UnwindOne(s.forms[tid], Visited(s.unwinds[tid])))
    case Submit(tid, ok) =>
      if ok then SetForm(s, tid, s.forms[tid].(handler := Submitted)).(pipe := s.pipe + 1)
      else SetForm(s, tid, s.forms[tid].(handler := Abandoned))
    case CountAck => s.(pipe := s.pipe - 1, acks := s.acks + 1)
    case Retry(_) => s
    case TimeOut => s.(phase := Failed)
    case Finish => s.(phase := Collected)
  }

  ghost predicate IsRun(states: seq<State>, steps: seq<Step>)
  {
    && |states| == |steps| + 1
    && states[0] == Init(states[0].threads, states[0].unwinds)
    && GoodInput(states[0].threads, states[0].unwinds)
    && forall i :: 0 <= i < |steps| ==> Enabled(states[i], steps[i]) && states[i + 1] == Apply(states[i], steps[i])
  }

  // ----- signalling

  /** How many threads the signalling loop has dealt with. */
  function Handled(s: State): nat
  {
    match s.phase
    case Signalling(i) => i
    case Storing(i) => i
    case _ => |s.threads|
  }

  /** The threads among `xs` that were signalled, in order. */
  function Kept(xs: seq<int>, failed: set<int>): seq<int>
  {
    if xs == [] then []
    else Kept(xs[..|xs| - 1], failed) + (if xs[|xs| - 1] in failed then [] else [xs[|xs| - 1]])
  }

  ghost predicate SignalInv(s: State)
  {
    && GoodInput(s.threads, s.unwinds)
    && Handled(s) <= |s.threads| && (s.phase.Storing? ==> s.phase.i < |s.threads|)
    && s.slot == Kept(s.threads[..Handled(s)], s.failed)
    && (forall x :: x in s.failed ==> x in s.threads[..Handled(s)])
    && s.forms.Keys == Elements(s.slot) + (if s.phase.Storing? then {s.threads[s.phase.i]} else {})
  }

  lemma {:induction false} KeptMembers(xs: seq<int>, failed: set<int>)
    ensures forall x :: x in Kept(xs, failed) <==> x in xs && x !in failed
    ensures Ascending(xs) ==> Ascending(Kept(xs, failed))
  {
    if xs == [] {
    } else {
      var n := |xs| - 1;
      KeptMembers(xs[..n], failed);
      assert xs == xs[..n] + [xs[n]];
      if Ascending(xs) && xs[n] !in failed {
        forall y | y in Kept(xs[..n], failed) ensures y < xs[n] {
          assert y in xs[..n];
        }
        AscendingAppend(Kept(xs[..n], failed), xs[n]);
      }
    }
  }

  lemma {:induction false} KeptIgnoresOthers(xs: seq<int>, failed: set<int>, x: int)
    requires x !in xs
    ensures Kept(xs, failed + {x}) == Kept(xs, failed)
  {
    if xs == [] {
    } else {
      assert xs[|xs| - 1] in xs;
      assert forall y :: y in xs[..|xs| - 1] ==> y in xs;
      KeptIgnoresOthers(xs[..|xs| - 1], failed, x);
    }
  }

  /** One more thread dealt with: stored or failed. */
  lemma KeptNext(threads: seq<int>, n: nat, failed: set<int>)
    requires Ascending(threads) && n < |threads|
    ensures threads[n] !in failed ==> Kept(threads[..n + 1], failed) == Kept(threads[..n], failed) + [threads[n]]
    ensures Kept(threads[..n + 1], failed + {threads[n]}) == Kept(threads[..n], failed)
  {
    var x := threads[n];
    assert x !in threads[..n];
    assert threads[..n + 1][..n] == threads[..n] && threads[..n + 1][n] == x;
    KeptIgnoresOthers(threads[..n], failed, x);
  }

  /** The thread being dealt with is new to all that was collected so far. */
  lemma NotYetHandled(s: State)
    requires SignalInv(s) && Handled(s) < |s.threads|
    ensures var x := s.threads[Handled(s)]; x !in s.threads[..Handled(s)] && x !in s.failed && x !in s.slot
  {
    var n := Handled(s);
    var x := s.threads[n];
    forall i | 0 <= i < n ensures s.threads[..n][i] != x {
      assert s.threads[i] < s.threads[n];
    }
    assert forall y :: y in s.failed ==> y in s.threads[..n];
    KeptMembers(s.threads[..n], s.failed);
  }

  lemma StoreStep(s: State)
    requires SignalInv(s) && Enabled(s, Store)
    ensures SignalInv(Apply(s, Store))
  {
    hide Kept;
    var n, t := Handled(s), Apply(s, Store);
    assert s.threads[..n + 1] == s.threads[..n] + [s.threads[n]];
    NotYetHandled(s);
    KeptNext(s.threads, n, s.failed);
    ElementsAppend(s.slot, s.threads[n]);
  }

  lemma FailStep(s: State)
    requires SignalInv(s) && Enabled(s, SignalFails)
    ensures SignalInv(Apply(s, SignalFails))
  {
    hide Kept;
    var n := Handled(s);
    assert s.threads[..n + 1] == s.threads[..n] + [s.threads[n]];
    KeptNext(s.threads, n, s.failed);
  }

  lemma HandlerKeepsSignals(s: State, e: Step)
    requires SignalInv(s) && Enabled(s, e) && (e.Begin? || e.Unwind? || e.Submit?)
    ensures SignalInv(Apply(s, e))
  {
    hide Kept;
    KeysUpdate(s.forms, e.tid, Apply(s, e).forms[e.tid]);
    assert Apply(s, e).forms == s.forms[e.tid := Apply(s, e).forms[e.tid]];
  }

  lemma SignalOkStep(s: State)
    requires SignalInv(s) && Enabled(s, SignalOk)
    ensures SignalInv(Apply(s, SignalOk))
  {
    hide Kept, Awaited;
    KeysUpdate(s.forms, s.threads[s.phase.i], Form([], Queued));
  }

  lemma WaitingKeepsSignals(s: State, e: Step)
    requires SignalInv(s) && Enabled(s, e)
    requires e.StartWaiting? || e.CountAck? || e.Retry? || e.TimeOut? || e.Finish?
    ensures SignalInv(Apply(s, e))
  {
    hide Kept, Awaited;
    var t := Apply(s, e);
    assert Handled(t) == Handled(s) && t.forms == s.forms && !t.phase.Storing? && !s.phase.Storing?;
  }

  lemma SignalStep(s: State, e: Step)
    requires SignalInv(s) && Enabled(s, e)
    ensures SignalInv(Apply(s, e))
  {
    hide SignalInv, Enabled, Apply;
    if e.Store? {
      StoreStep(s);
    } else if e.SignalFails? {
      FailStep(s);
    } else if e.SignalOk? {
      SignalOkStep(s);
    } else if e.Begin? || e.Unwind? || e.Submit? {
      HandlerKeepsSignals(s, e);
    } else {
      WaitingKeepsSignals(s, e);
    }
  }

  // ----- acknowledgements

  function SubmittedIn(forms: map<int, Form>): set<int> { set x | x in forms && forms[x].handler.Submitted? }

  /** Every byte written is either counted or still in the pipe. */
  ghost predicate AckInv(s: State) { s.acks + s.pipe == |SubmittedIn(s.forms)| }

  lemma SubmittedUpdate(forms: map<int, Form>, x: int, f: Form)
    ensures SubmittedIn(forms[x := f]) ==
            if f.handler.Submitted? then SubmittedIn(forms) + {x} else SubmittedIn(forms) - {x}
  {
  }

  lemma HandlerKeepsAcks(s: State, e: Step)
    requires AckInv(s) && Enabled(s, e) && (e.Begin? || e.Unwind? || e.Submit?)
    ensures AckInv(Apply(s, e))
  {
    var t := Apply(s, e);
    SubmittedUpdate(s.forms, e.tid, t.forms[e.tid]);
    assert e.tid !in SubmittedIn(s.forms);
  }

  lemma AckStep(s: State, e: Step)
    requires SignalInv(s) && AckInv(s) && Enabled(s, e)
    ensures AckInv(Apply(s, e))
  {
    if e.Begin? || e.Unwind? || e.Submit? {
      HandlerKeepsAcks(s, e);
    } else if e.SignalOk? {
      NotYetHandled(s);
      SubmittedUpdate(s.forms, s.threads[s.phase.i], Form([], Queued));
    }
  }

  // ----- what the forms hold

  ghost predicate FormInv(f: Form, frames: seq<Frame>)
  {
    match f.handler
    case Queued => f.stack == []
    case Unwinding(pos) => pos <= |frames| && f.stack == Readable(frames[..pos]) && |f.stack| <= MAX_DEPTH
    case Submitting => f.stack == Recorded(frames)
    case Submitted => f.stack == Recorded(frames)
    case Abandoned => true
  }

  ghost predicate StackInv(s: State)
  {
    forall x :: x in s.forms && x in s.unwinds ==> FormInv(s.forms[x], Visited(s.unwinds[x]))
  }

  lemma UnwindKeepsForm(f: Form, frames: seq<Frame>)
    requires FormInv(f, frames) && f.handler.Unwinding?
    ensures FormInv(UnwindOne(f, frames), frames)
  {
    var pos := f.handler.pos;
    if pos < |frames| {
      ReadableNext(frames, pos);
      if |f.stack| >= MAX_DEPTH { FullStackIsFinal(frames, pos); }
    } else {
      assert frames[..pos] == frames;
    }
  }

  lemma StackStep(s: State, e: Step)
    requires StackInv(s) && Enabled(s, e)
    ensures StackInv(Apply(s, e))
  {
    if e.Unwind? { UnwindKeepsForm(s.forms[e.tid], Visited(s.unwinds[e.tid])); }
  }

  ghost predicate DoneInv(s: State) { s.phase.Collected? ==> s.acks >= |Awaited(s)| }

  ghost predicate Inv(s: State) { SignalInv(s) && AckInv(s) && StackInv(s) && DoneInv(s) }

  lemma StepKeepsInv(s: State, e: Step)
    requires Inv(s) && Enabled(s, e)
    ensures Inv(Apply(s, e)) && Apply(s, e).threads == s.threads && Apply(s, e).unwinds == s.unwinds
  {
    hide SignalInv, AckInv, StackInv;
    SignalStep(s, e);
    AckStep(s, e);
    StackStep(s, e);
  }

  lemma InitInv(threads: seq<int>, unwinds: map<int, seq<Frame>>)
    requires GoodInput(threads, unwinds)
    ensures Inv(Init(threads, unwinds))
  {
    assert SubmittedIn(map[]) == {};
  }

  lemma {:induction false} RunInv(states: seq<State>, steps: seq<Step>, k: nat)
    requires IsRun(states, steps) && k < |states|
    ensures Inv(states[k])
    ensures states[k].threads == states[0].threads && states[k].unwinds == states[0].unwinds
  {
    hide Inv, Apply, Enabled;
    if k == 0 {
      InitInv(states[0].threads, states[0].unwinds);
    } else {
      RunInv(states, steps, k - 1);
      StepKeepsInv(states[k - 1], steps[k - 1]);
    }
  }

  // ----- the theorems

  lemma SubsetSize(a: set<int>, b: set<int>)
    requires a <= b
    ensures |a| <= |b| && (|a| == |b| ==> a == b)
  {
    assert b == a + (b - a);
    if |a| == |b| { assert b - a == {}; }
  }

  /** After signalling, the forms are those of the awaited threads, one slot each. */
  lemma FormsAreAwaited(s: State)
    requires SignalInv(s) && !s.phase.Signalling? && !s.phase.Storing?
    ensures s.forms.Keys == Awaited(s) && s.slot == Kept(s.threads, s.failed)
  {
    assert s.threads[..|s.threads|] == s.threads;
    KeptMembers(s.threads, s.failed);
  }

  /**
   * Ack counting: acknowledgements counted plus bytes in the pipe are the forms submitted, at most
   * the forms handed out, which after signalling are the awaited threads.
   */
  lemma AcksMatchForms(states: seq<State>, steps: seq<Step>, k: nat)
    requires IsRun(states, steps) && k < |states|
    ensures var s := states[k];
            && s.acks + s.pipe == |SubmittedIn(s.forms)| <= |s.forms|
            && |s.forms| == |s.slot| + (if s.phase.Storing? then 1 else 0)
            && (!s.phase.Signalling? && !s.phase.Storing? ==> |s.slot| == |Awaited(s)|)
  {
    RunInv(states, steps, k);
    var s := states[k];
    SubsetSize(SubmittedIn(s.forms), s.forms.Keys);
    KeptMembers(s.threads[..Handled(s)], s.failed);
    AscendingSize(s.slot);
    if !s.phase.Signalling? && !s.phase.Storing? { FormsAreAwaited(s); }
    if s.phase.Storing? { NotYetHandled(s); }
  }

  lemma {:induction false} AscendingSize(xs: seq<int>)
    requires Ascending(xs)
    ensures |Elements(xs)| == |xs|
  {
    if xs == [] {
    } else {
      var n := |xs| - 1;
      AscendingSize(xs[..n]);
      ElementsAppend(xs[..n], xs[n]);
      assert xs[..n] + [xs[n]] == xs;
      assert xs[n] !in xs[..n];
    }
  }

  /** A collection that returns normally has every form submitted. */
  lemma CollectedMeansSubmitted(states: seq<State>, steps: seq<Step>, k: nat)
    requires IsRun(states, steps) && k < |states| && states[k].phase.Collected?
    ensures var s := states[k];
            s.forms.Keys == Awaited(s) && forall x :: x in s.forms ==> s.forms[x].handler.Submitted?
  {
    RunInv(states, steps, k);
    var s := states[k];
    FormsAreAwaited(s);
    SubsetSize(SubmittedIn(s.forms), s.forms.Keys);
    forall x | x in s.forms ensures s.forms[x].handler.Submitted? {
      assert x in SubmittedIn(s.forms);
    }
  }

  /** And from then on no handler changes any form: nothing in this collection can move any more. */
  lemma FormsAreFinal(states: seq<State>, steps: seq<Step>, k: nat, e: Step)
    requires IsRun(states, steps) && k < |states| && states[k].phase.Collected?
    ensures !Enabled(states[k], e)
  {
    CollectedMeansSubmitted(states, steps, k);
  }

  function StackOf(s: State, x: int): Stack { if x in s.forms then s.forms[x].stack else [] }

  /** The slots as the grouping sees them. */
  function Slots(s: State): seq<Trace>
  {
    seq(|s.slot|, i requires 0 <= i < |s.slot| => Trace(s.slot[i], StackOf(s, s.slot[i])))
  }

  /**
   * The groups list exactly the threads in `signalled`, each once and in ascending order within its
   * group, and the stack of a group is the first hundred readable instruction pointers of the unwind
   * of each of its threads; the stacks of the groups are strictly increasing, shallow ones first.
   */
  ghost predicate IsCollection(groups: seq<Group>, signalled: set<int>, unwinds: map<int, seq<Frame>>)
  {
    && (forall x :: (exists g :: g in groups && x in g.tids) <==> x in signalled)
    && (forall g, x :: g in groups && x in g.tids ==> x in unwinds && g.stack == Recorded(Visited(unwinds[x])))
    && (forall i, j, x :: 0 <= i < j < |groups| && x in groups[i].tids ==> x !in groups[j].tids)
    && Increasing(groups) && (forall i, j :: 0 <= i < j < |groups| ==> |groups[i].stack| <= |groups[j].stack|)
    && (forall g :: g in groups ==> Ascending(g.tids) && g.tids != [])
  }

  /** End to end: on every normal return, grouping the slots yields the collection that was asked for. */
  lemma EndToEnd(states: seq<State>, steps: seq<Step>, k: nat, groups: seq<Group>)
    requires IsRun(states, steps) && k < |states| && states[k].phase.Collected?
    requires GroupsOf(groups, Slots(states[k]))
    ensures IsCollection(groups, Awaited(states[k]), states[0].unwinds)
  {
    var s, slots := states[k], Slots(states[k]);
    SlotsAreFinal(states, steps, k);
    GroupsPartition(groups, slots);
    forall i, j | 0 <= i < j < |groups| ensures |groups[i].stack| <= |groups[j].stack| {
      GroupsInOrder(groups, i, j);
    }
    forall x | x in s.slot ensures exists g :: g in groups && x in g.tids {
      var i :| 0 <= i < |s.slot| && s.slot[i] == x;
      assert slots[i] in slots;
    }
    forall g, x | g in groups && x in g.tids
      ensures x in s.slot && x in states[0].unwinds && g.stack == Recorded(Visited(states[0].unwinds[x]))
    {
      assert Trace(x, g.stack) in slots;
    }
  }

  lemma FinalSlot(states: seq<State>, steps: seq<Step>, k: nat)
    requires IsRun(states, steps) && k < |states| && states[k].phase.Collected?
    ensures Ascending(states[k].slot) && states[k].forms.Keys == Elements(states[k].slot)
    ensures forall x :: x in states[k].slot <==> x in states[k].threads && x !in states[k].failed
  {
    RunInv(states, steps, k);
    FormsAreAwaited(states[k]);
    KeptMembers(states[k].threads, states[k].failed);
  }

  lemma FinalStack(states: seq<State>, steps: seq<Step>, k: nat, x: int)
    requires IsRun(states, steps) && k < |states| && states[k].phase.Collected? && x in states[k].slot
    ensures x in states[0].unwinds && StackOf(states[k], x) == Recorded(Visited(states[0].unwinds[x]))
  {
    assert x in states[k].forms && x in states[k].threads by { FinalSlot(states, steps, k); }
    assert states[k].forms[x].handler.Submitted? by { CollectedMeansSubmitted(states, steps, k); }
    RunForm(states, steps, k, x);
  }

  lemma RunForm(states: seq<State>, steps: seq<Step>, k: nat, x: int)
    requires IsRun(states, steps) && k < |states| && x in states[k].forms && x in states[k].threads
    ensures x in states[0].unwinds && FormInv(states[k].forms[x], Visited(states[0].unwinds[x]))
  {
    RunInv(states, steps, k);
    assert x in states[0].threads;
  }

  /** The slots of a successful collection: the signalled threads, ascending, with their recorded stacks. */
  lemma SlotsAreFinal(states: seq<State>, steps: seq<Step>, k: nat)
    requires IsRun(states, steps) && k < |states| && states[k].phase.Collected?
    ensures Ascending(Tids(Slots(states[k])))
    ensures forall x :: x in states[k].slot <==> x in states[k].threads && x !in states[k].failed
    ensures forall t :: t in Slots(states[k]) ==>
              && t.tid in states[k].slot && t.tid in states[0].unwinds
              && t.stack == Recorded(Visited(states[0].unwinds[t.tid]))
  {
    var s := states[k];
    FinalSlot(states, steps, k);
    assert Tids(Slots(s)) == s.slot;
    forall t | t in Slots(s)
      ensures t.tid in s.slot && t.tid in states[0].unwinds && t.stack == Recorded(Visited(states[0].unwinds[t.tid]))
    {
      FinalStack(states, steps, k, t.tid);
    }
  }
}
