/**
 * What the steps of a collection bring about: which threads were signalled, why a form is given up,
 * how long a handler takes, and that a collection in which nothing fails ends normally.
 */
module CollectorProgress {
  import opened Common
  import opened Stacks
  import opened Collector

  // ----- who was signalled

  /** The results of the signals sent, in order. */
  function SignalResults(steps: seq<Step>): seq<bool>
  {
    if steps == [] then []
    else
      var last := steps[|steps| - 1];
      SignalResults(steps[..|steps| - 1])
      + (if last.SignalOk? then [true] else if last.SignalFails? then [false] else [])
  }

  /** The n-th signal goes to the n-th thread, which has failed exactly if the signal did. */
  ghost predicate SignalsAgree(results: seq<bool>, s: State)
  {
    && |results| == Handled(s) + (if s.phase.Storing? then 1 else 0) && |results| <= |s.threads|
    && forall n :: 0 <= n < |results| ==> (s.threads[n] in s.failed <==> !results[n])
  }

  lemma SignalsAgreeStep(results: seq<bool>, s: State, e: Step)
    requires SignalInv(s) && SignalsAgree(results, s) && Enabled(s, e)
    ensures SignalsAgree(results + SignalResults([e]), Apply(s, e))
  {
    hide Kept, Awaited;
    assert [e][..0] == [] && SignalResults([]) == [];
    if e.SignalOk? || e.SignalFails? {
      NotYetHandled(s);
      assert forall n :: 0 <= n < |results| ==> s.threads[n] != s.threads[|results|];
    } else {
      assert results + SignalResults([e]) == results;
    }
  }

  lemma SignalResultsNext(steps: seq<Step>, k: nat)
    requires k < |steps|
    ensures SignalResults(steps[..k + 1]) == SignalResults(steps[..k]) + SignalResults([steps[k]])
  {
    assert steps[..k + 1][..k] == steps[..k] && [steps[k]][..0] == [];
  }

  lemma {:induction false} SignalledBySteps(states: seq<State>, steps: seq<Step>, k: nat)
    requires IsRun(states, steps) && k < |states|
    ensures SignalsAgree(SignalResults(steps[..k]), states[k])
  {
    hide Apply, Enabled;
    if k == 0 {
    } else {
      SignalledBySteps(states, steps, k - 1);
      RunInv(states, steps, k - 1);
      SignalResultsNext(steps, k - 1);
      SignalsAgreeStep(SignalResults(steps[..k - 1]), states[k - 1], steps[k - 1]);
    }
  }

  /** After a normal end the thread `n` has a form exactly if its signal, the n-th, was accepted. */
  lemma CollectedAreSignalled(states: seq<State>, steps: seq<Step>, k: nat, n: nat)
    requires IsRun(states, steps) && k < |states| && states[k].phase.Collected? && n < |states[k].threads|
    ensures |SignalResults(steps[..k])| == |states[k].threads|
    ensures states[k].threads[n] in Awaited(states[k]) <==> SignalResults(steps[..k])[n]
  {
    hide Apply, Enabled;
    SignalledBySteps(states, steps, k);
    RunInv(states, steps, k);
    assert states[k].threads[n] in states[k].threads;
  }

  // ----- handlers

  /** The steps by which a handler gives its form up: no cursor, or no room in the pipe. */
  predicate GivesUp(e: Step, x: int) { e == Begin(x, false) || e == Submit(x, false) }

  lemma AbandonStep(s: State, e: Step, x: int)
    requires SignalInv(s) && Enabled(s, e) && x in Apply(s, e).forms && Apply(s, e).forms[x].handler.Abandoned?
    ensures GivesUp(e, x) || (x in s.forms && s.forms[x].handler.Abandoned?)
  {
  }

  /** A form is given up only by such a step. */
  lemma {:induction false} AbandonedMeansGivenUp(states: seq<State>, steps: seq<Step>, k: nat, x: int)
    requires IsRun(states, steps) && k < |states| && x in states[k].forms && states[k].forms[x].handler.Abandoned?
    ensures exists i :: 0 <= i < k && GivesUp(steps[i], x)
  {
    hide Apply, Enabled, GivesUp;
    if k == 0 {
    } else {
      RunInv(states, steps, k - 1);
      AbandonStep(states[k - 1], steps[k - 1], x);
      if !GivesUp(steps[k - 1], x) { AbandonedMeansGivenUp(states, steps, k - 1, x); }
    }
  }

  /** The form after `n` turns of the handler's loop. */
  function Turns(f: Form, frames: seq<Frame>, n: nat): Form
    decreases n
  {
    if n == 0 || !f.handler.Unwinding? then f else Turns(UnwindOne(f, frames), frames, n - 1)
  }

  /** The handler's loop ends, after one turn more than frames at most, with the recorded stack. */
  lemma {:induction false} HandlerFinishes(f: Form, frames: seq<Frame>)
    requires FormInv(f, frames) && f.handler.Unwinding?
    ensures Turns(f, frames, |frames| + 1 - f.handler.pos) == Form(Recorded(frames), Submitting)
    decreases |frames| - f.handler.pos
  {
    var g := UnwindOne(f, frames);
    UnwindKeepsForm(f, frames);
    UnwindMovesOn(f, frames);
    if g.handler.Unwinding? { HandlerFinishes(g, frames); }
  }

  lemma UnwindMovesOn(f: Form, frames: seq<Frame>)
    requires f.handler.Unwinding? && f.handler.pos <= |frames|
    ensures var g := UnwindOne(f, frames);
            g.handler.Submitting? || (g.handler == Unwinding(f.handler.pos + 1) && f.handler.pos < |frames|)
  {
  }

  /** From a form just begun: the recorded stack is complete and ready to be submitted. */
  lemma BegunHandlerFinishes(frames: seq<Frame>)
    ensures Turns(Form([], Unwinding(0)), frames, |frames| + 1) == Form(Recorded(frames), Submitting)
  {
    assert frames[..0] == [] && Readable([]) == [];
    HandlerFinishes(Form([], Unwinding(0)), frames);
  }

  // ----- the collection ends

  /** The steps still to be made for a form, counting of its acknowledgement included. */
  function FormWork(f: Form, frames: seq<Frame>): int
  {
    match f.handler
    case Queued => |frames| + 4
    case Unwinding(pos) => |frames| - pos + 3
    case Submitting => 2
    case Submitted => 0
    case Abandoned => 0
  }

  function FramesOf(s: State, x: int): seq<Frame> { if x in s.unwinds then Visited(s.unwinds[x]) else [] }

  function FormWorks(forms: map<int, Form>, s: State): map<int, int>
  {
    map x | x in forms :: FormWork(forms[x], FramesOf(s, x))
  }

  /** The steps still to be made for the threads from `i` on: signal, store and all that follows. */
  function ThreadsWork(s: State, i: nat): int
    decreases |s.threads| - i
  {
    if i >= |s.threads| then 0 else |FramesOf(s, s.threads[i])| + 6 + ThreadsWork(s, i + 1)
  }

  function PhaseWork(s: State): int
  {
    match s.phase
    case Signalling(i) => ThreadsWork(s, i) + 2
    case Storing(i) => ThreadsWork(s, i + 1) + 3
    case Waiting => 1
    case Collected => 0
    case Failed => 0
  }

  ghost function Work(s: State): int { Sum(FormWorks(s.forms, s)) + s.pipe + PhaseWork(s) }

  /** Nothing fails for good: no handler gives up and the timer does not fire. */
  predicate Fails(e: Step) { (e.Begin? && !e.ok) || (e.Submit? && !e.ok) || e.TimeOut? }

  lemma FormWorkUpdate(s: State, x: int, f: Form)
    ensures Sum(FormWorks(s.forms[x := f], s)) ==
            Sum(FormWorks(s.forms, s)) + FormWork(f, FramesOf(s, x))
            - (if x in s.forms then FormWork(s.forms[x], FramesOf(s, x)) else 0)
  {
    SumUpdate(FormWorks(s.forms, s), x, FormWork(f, FramesOf(s, x)));
    SameMap(FormWorks(s.forms[x := f], s), FormWorks(s.forms, s)[x := FormWork(f, FramesOf(s, x))]);
  }

  /** What a handler's step does to its form and the pipe. */
  lemma HandlerFormWorks(s: State, e: Step)
    requires SignalInv(s) && StackInv(s) && Enabled(s, e) && (e.Begin? || e.Unwind? || e.Submit?) && !Fails(e)
    ensures var t, frames := Apply(s, e), FramesOf(s, e.tid);
            && e.tid in s.forms && e.tid in t.forms && t.forms == s.forms[e.tid := t.forms[e.tid]]
            && t.phase == s.phase && t.threads == s.threads && t.unwinds == s.unwinds
            && FormWork(t.forms[e.tid], frames) + t.pipe < FormWork(s.forms[e.tid], frames) + s.pipe
  {
    hide SignalInv;
    assert FormInv(s.forms[e.tid], FramesOf(s, e.tid));
    if e.Unwind? { UnwindMovesOn(s.forms[e.tid], FramesOf(s, e.tid)); }
  }

  lemma HandlerWorks(s: State, e: Step)
    requires SignalInv(s) && StackInv(s) && Enabled(s, e) && (e.Begin? || e.Unwind? || e.Submit?) && !Fails(e)
    ensures Work(Apply(s, e)) < Work(s)
  {
    hide SignalInv, StackInv, Enabled, Apply, FormWork, FramesOf, FormWorks, ThreadsWork;
    var t := Apply(s, e);
    HandlerFormWorks(s, e);
    FormWorkUpdate(s, e.tid, t.forms[e.tid]);
    SameWork(s, t);
  }

  /** Work depends on threads and unwinds, which no step changes. */
  lemma SameWork(s: State, t: State)
    requires s.threads == t.threads && s.unwinds == t.unwinds
    ensures FormWorks(t.forms, t) == FormWorks(t.forms, s)
    ensures forall i :: ThreadsWork(t, i) == ThreadsWork(s, i)
  {
    SameMap(FormWorks(t.forms, t), FormWorks(t.forms, s));
    forall i: nat ensures ThreadsWork(t, i) == ThreadsWork(s, i) {
      SameThreadsWork(s, t, i);
    }
  }

  lemma {:induction false} SameThreadsWork(s: State, t: State, i: nat)
    requires s.threads == t.threads && s.unwinds == t.unwinds
    ensures ThreadsWork(t, i) == ThreadsWork(s, i)
    decreases |s.threads| - i
  {
    if i >= |s.threads| {
    } else {
      SameThreadsWork(s, t, i + 1);
    }
  }

  lemma CollectorWorks(s: State, e: Step)
    requires SignalInv(s) && Enabled(s, e) && !(e.Begin? || e.Unwind? || e.Submit?) && !Fails(e) && !e.Retry?
    ensures Work(Apply(s, e)) < Work(s)
  {
    hide Kept, Awaited;
    var t := Apply(s, e);
    SameWork(s, t);
    if e.SignalOk? {
      NotYetHandled(s);
      FormWorkUpdate(s, s.threads[s.phase.i], Form([], Queued));
    } else {
      assert t.forms == s.forms;
    }
  }

  lemma {:induction false} WorkIsNatural(s: State)
    requires SignalInv(s) && StackInv(s)
    ensures Work(s) >= 0
  {
    forall x | x in FormWorks(s.forms, s) ensures FormWorks(s.forms, s)[x] >= 0 {
      FormWorkNatural(s, x);
    }
    SumNatural(FormWorks(s.forms, s));
    ThreadsWorkNatural(s, Handled(s));
    if s.phase.Storing? { ThreadsWorkNatural(s, s.phase.i + 1); }
  }

  lemma FormWorkNatural(s: State, x: int)
    requires SignalInv(s) && StackInv(s) && x in s.forms
    ensures FormWork(s.forms[x], FramesOf(s, x)) >= 0
  {
    FormsHaveUnwinds(s, x);
    assert FormInv(s.forms[x], FramesOf(s, x));
  }

  lemma FormsHaveUnwinds(s: State, x: int)
    requires SignalInv(s) && x in s.forms
    ensures x in s.threads && x in s.unwinds
  {
    KeptMembers(s.threads[..Handled(s)], s.failed);
    assert x in s.slot ==> x in s.threads[..Handled(s)];
    assert x in s.threads;
  }

  lemma {:induction false} ThreadsWorkNatural(s: State, i: nat)
    ensures ThreadsWork(s, i) >= 0
    decreases |s.threads| - i
  {
    if i >= |s.threads| {
    } else {
      ThreadsWorkNatural(s, i + 1);
    }
  }

  lemma {:induction false} SumNatural(m: map<int, int>)
    requires forall x :: x in m ==> m[x] >= 0
    ensures Sum(m) >= 0
    decreases |m|
  {
    if m.Keys == {} {
    } else {
      var x := Choose(m.Keys);
      assert (m - {x}).Keys == m.Keys - {x};
      SumNatural(m - {x});
      SumSplit(m, x);
    }
  }

  /** No form has been given up. */
  ghost predicate Unspoilt(s: State)
  {
    !s.phase.Failed? && forall x :: x in s.forms ==> !s.forms[x].handler.Abandoned?
  }

  lemma UnspoiltStep(s: State, e: Step)
    requires SignalInv(s) && Unspoilt(s) && Enabled(s, e) && !Fails(e)
    ensures Unspoilt(Apply(s, e))
  {
  }

  /** A handler that has not finished can go on. */
  lemma HandlerGoesOn(s: State, x: int) returns (e: Step)
    requires SignalInv(s) && Unspoilt(s) && x in s.forms && !s.forms[x].handler.Submitted?
    ensures Enabled(s, e) && !Fails(e) && !e.Retry?
  {
    FormsHaveUnwinds(s, x);
    match s.forms[x].handler
    case Queued => e := Begin(x, true);
    case Unwinding(_) => e := Unwind(x);
    case Submitting => e := Submit(x, true);
  }

  /** While acknowledgements are missing and none is in the pipe, some form is not submitted. */
  lemma SomeoneUnsubmitted(s: State) returns (x: int)
    requires SignalInv(s) && AckInv(s) && s.phase.Waiting? && s.acks < |Awaited(s)| && s.pipe == 0
    ensures x in s.forms && !s.forms[x].handler.Submitted?
  {
    hide Kept, GoodInput;
    FormsAreAwaited(s);
    var all, done := s.forms.Keys, SubmittedIn(s.forms);
    Difference(done, all);
    x := Choose(all - done);
  }

  lemma Difference(a: set<int>, b: set<int>)
    requires a <= b && |a| < |b|
    ensures b - a != {}
  {
    assert b == a + (b - a);
  }

  /** A collection that waits can go on. */
  lemma WaitingGoesOn(s: State) returns (e: Step)
    requires SignalInv(s) && AckInv(s) && Unspoilt(s) && s.phase.Waiting?
    ensures Enabled(s, e) && !Fails(e) && !e.Retry?
  {
    hide SignalInv, AckInv, Unspoilt, Awaited;
    if s.acks >= |Awaited(s)| {
      e := Finish;
    } else if s.pipe > 0 {
      e := CountAck;
    } else {
      var x := SomeoneUnsubmitted(s);
      e := HandlerGoesOn(s, x);
    }
    assert !s.phase.Failed?;
  }

  /** And as long as acknowledgements are missing, the timer can end it. */
  lemma WaitingCanTimeOut(s: State)
    requires s.phase.Waiting? && s.acks < |Awaited(s)|
    ensures Enabled(s, TimeOut) && Apply(s, TimeOut).phase.Failed?
  {
  }

  lemma CollectionGoesOn(s: State) returns (e: Step)
    requires SignalInv(s) && AckInv(s) && Unspoilt(s) && !s.phase.Collected?
    ensures Enabled(s, e) && !Fails(e) && !e.Retry?
  {
    match s.phase
    case Signalling(i) => e := if i < |s.threads| then SignalOk else StartWaiting;
    case Storing(i) => e := Store;
    case Waiting => e := WaitingGoesOn(s);
  }

  /** The steps of a run other than idle turns of the wait loop. */
  function Moves(steps: seq<Step>): nat
  {
    if steps == [] then 0 else Moves(steps[..|steps| - 1]) + (if steps[|steps| - 1].Retry? then 0 else 1)
  }

  lemma MoveWorks(s: State, e: Step)
    requires Inv(s) && Unspoilt(s) && Enabled(s, e) && !Fails(e)
    ensures Work(Apply(s, e)) + (if e.Retry? then 0 else 1) <= Work(s) && Unspoilt(Apply(s, e))
  {
    hide Work, SignalInv, StackInv, AckInv, Unspoilt;
    UnspoiltStep(s, e);
    if e.Retry? {
      assert Apply(s, e) == s;
    } else if e.Begin? || e.Unwind? || e.Submit? {
      HandlerWorks(s, e);
    } else {
      CollectorWorks(s, e);
    }
  }

  lemma {:induction false} MovesAreBounded(states: seq<State>, steps: seq<Step>, k: nat)
    requires IsRun(states, steps) && k < |states| && forall i :: 0 <= i < k ==> !Fails(steps[i])
    ensures Unspoilt(states[k]) && Moves(steps[..k]) + Work(states[k]) <= Work(states[0])
  {
    hide Apply, Enabled, Work, Inv, Fails;
    if k == 0 {
    } else {
      MovesAreBounded(states, steps, k - 1);
      RunInv(states, steps, k - 1);
      MoveWorks(states[k - 1], steps[k - 1]);
      assert steps[..k][..k - 1] == steps[..k - 1];
    }
  }

  /**
   * A collection ends normally: a run in which no handler gives up and the timer does not fire can go
   * on until it has, and apart from idle turns of the wait loop it is no longer than the work at its
   * beginning: six steps and one per visited frame for each thread, and two more.
   */
  lemma CollectionCompletes(states: seq<State>, steps: seq<Step>, k: nat)
    requires IsRun(states, steps) && k < |states| && forall i :: 0 <= i < k ==> !Fails(steps[i])
    ensures Moves(steps[..k]) <= ThreadsWork(states[0], 0) + 2
    ensures states[k].phase.Collected? || exists e :: Enabled(states[k], e) && !Fails(e) && !e.Retry?
  {
    hide Apply, Enabled;
    MovesAreBounded(states, steps, k);
    RunInv(states, steps, k);
    WorkIsNatural(states[k]);
    assert Sum(FormWorks(states[0].forms, states[0])) == 0 by { assert FormWorks(map[], states[0]).Keys == {}; }
    if !states[k].phase.Collected? {
      var e := CollectionGoesOn(states[k]);
    }
  }
}
