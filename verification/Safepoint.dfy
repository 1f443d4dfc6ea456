/**
 * The safepoint handshake of src/trace_agent.h: the worker starts a notifier thread, takes the
 * stack trace, pushes one token to a queue of its own and joins the notifier, which signals and
 * then tries to pop the token, over and over until it gets it.
 */
module Safepoint {
  import opened Common
  import Q = ZQueue

  datatype Worker = Tracing | Pushing | Notifying | Joining | Joined

  /** `Popping(c)` is inside the `try_pop` call `c`. */
  datatype Notifier = Signalling | Popping(call: Q.Id) | Finished

  datatype State = State(worker: Worker, notifier: Notifier, qq: Q.State, signals: nat, traced: bool, calls: nat)

  const INIT := State(Tracing, Signalling, Q.INIT, 0, false, 0)

  datatype Step =
    | Trace
    | Push(token: Q.Item)
    | NotifyOne(wake: Option<Q.Id>)
    | Signal
    | Loop(expired: bool)
    | WakeUp
    | Return
    | Join

  /** The step of the queue that a step makes, if any. */
  function QueueStep(s: State, e: Step): Option<Q.Step>
  {
    match e
    case Push(token) => Some(Q.Append(token))
    case NotifyOne(wake) => Some(Q.Notify(wake))
    case Signal => Some(Q.Start(s.calls, true))
    case Loop(expired) => if s.notifier.Popping? then Some(Q.Check(s.notifier.call, expired)) else None
    case WakeUp => if s.notifier.Popping? then Some(Q.WakeUp(s.notifier.call)) else None
    case _ => None
  }

  ghost predicate Enabled(s: State, e: Step)
  {
    && (match e
        case Trace => s.worker.Tracing?
        case Push(_) => s.worker.Pushing?
        case NotifyOne(_) => s.worker.Notifying?
        case Join => s.worker.Joining? && s.notifier.Finished?
        case Signal => s.notifier.Signalling?
        case Loop(_) => s.notifier.Popping?
        case WakeUp => s.notifier.Popping?
        case Return => s.notifier.Popping? && s.notifier.call in s.qq.consumers && !Q.InFlight(s.qq, s.notifier.call))
    && (QueueStep(s, e).Some? ==> Q.Enabled(s.qq, QueueStep(s, e).value))
  }

  ghost function Apply(s: State, e: Step): State
    requires Enabled(s, e)
  {
    var qq := if QueueStep(s, e).Some? then Q.Apply(s.qq, QueueStep(s, e).value) else s.qq;
    match e
    case Trace => s.(worker := Pushing, traced := true)
    case Push(_) => s.(worker := Notifying, qq := qq)
    case NotifyOne(_) => s.(worker := Joining, qq := qq)
    case Signal => s.(notifier := Popping(s.calls), signals := s.signals + 1, calls := s.calls + 1, qq := qq)
    case Loop(_) => s.(qq := qq)
    case WakeUp => s.(qq := qq)
    case Return => s.(notifier := if s.qq.consumers[s.notifier.call].Got? then Finished else Signalling)
    case Join => s.(worker := Joined)
  }

  ghost predicate IsRun(states: seq<State>, steps: seq<Step>)
  {
    && |states| == |steps| + 1
    && states[0] == INIT
    && forall i :: 0 <= i < |steps| ==> Enabled(states[i], steps[i]) && states[i + 1] == Apply(states[i], steps[i])
  }

  // ----- the invariant

  ghost predicate Progress(s: State)
  {
    && (s.worker.Tracing? <==> !s.traced)
    && (s.notifier.Signalling? || s.signals >= 1)
    && |s.qq.pushed| == (if s.worker.Tracing? || s.worker.Pushing? then 0 else 1)
    && s.qq.unnotified == (if s.worker.Notifying? then 1 else 0)
    && (s.worker.Joined? ==> s.notifier.Finished?)
  }

  /** Only the notifier uses the consuming end, one call at a time. */
  ghost predicate SoleConsumer(s: State)
  {
    && (forall c :: c in s.qq.consumers ==> 0 <= c < s.calls)
    && (forall c :: Q.InFlight(s.qq, c) ==> s.notifier == Popping(c))
    && (s.notifier.Popping? ==> s.notifier.call in s.qq.consumers)
    && (s.notifier.Finished? ==> exists c :: c in s.qq.consumers && s.qq.consumers[c].Got?)
    && (forall c :: c in s.qq.consumers && s.qq.consumers[c].Got? ==> s.notifier == Popping(c) || s.notifier.Finished?)
  }

  ghost predicate Inv(s: State)
  {
    && Progress(s) && SoleConsumer(s) && Q.Conserved(s.qq) && Q.Matched(s.qq)
    && forall r :: r in s.qq.removed ==> r.Popped?
  }

  lemma SoleConsumerStep(s: State, e: Step)
    requires SoleConsumer(s) && Enabled(s, e)
    ensures SoleConsumer(Apply(s, e))
  {
    var t := Apply(s, e);
    if e.Return? && t.notifier.Finished? {
      assert s.qq.consumers[s.notifier.call].Got?;
    } else if t.notifier.Finished? {
      var c :| c in s.qq.consumers && s.qq.consumers[c].Got?;
      assert c in t.qq.consumers && t.qq.consumers[c].Got?;
    }
  }

  lemma StepKeepsInv(s: State, e: Step)
    requires Inv(s) && Enabled(s, e)
    ensures Inv(Apply(s, e))
  {
    SoleConsumerStep(s, e);
    var qe := QueueStep(s, e);
    if qe.Some? {
      assert forall d :: Q.IsWaiting(s.qq, d) ==> Q.InFlight(s.qq, d);
      Q.ConservedStep(s.qq, qe.value);
      Q.MatchedStep(s.qq, qe.value);
    }
  }

  lemma InitInv()
    ensures Inv(INIT)
  {
  }

  lemma {:induction false} RunInv(states: seq<State>, steps: seq<Step>, k: nat)
    requires IsRun(states, steps) && k < |states|
    ensures Inv(states[k])
  {
    hide Inv, Apply, Enabled;
    if k == 0 {
      InitInv();
    } else {
      RunInv(states, steps, k - 1);
      StepKeepsInv(states[k - 1], steps[k - 1]);
    }
  }

  // ----- the theorems

  /** A finished notifier holds the token. */
  lemma FinishedTookToken(s: State)
    requires Inv(s) && s.notifier.Finished?
    ensures |s.qq.pushed| == 1 && s.qq.que == []
    ensures exists c :: c in s.qq.consumers && s.qq.consumers[c] == Q.Got(s.qq.pushed[0])
  {
    var c :| c in s.qq.consumers && s.qq.consumers[c].Got?;
    var r := Q.Popped(c, s.qq.consumers[c].item);
    assert r in s.qq.removed;
    assert |s.qq.pushed| == |s.qq.removed| + |s.qq.que|;
    assert s.qq.removed[0] == r && s.qq.pushed[0] == Q.Removed(s.qq.removed)[0];
  }

  // ----- what has been done, step by step

  function SignalsIn(steps: seq<Step>): nat
  {
    if steps == [] then 0 else SignalsIn(steps[..|steps| - 1]) + (if steps[|steps| - 1].Signal? then 1 else 0)
  }

  lemma DoneStep(s: State, e: Step)
    requires Enabled(s, e)
    ensures Apply(s, e).signals == s.signals + (if e.Signal? then 1 else 0)
    ensures Apply(s, e).traced <==> s.traced || e.Trace?
    ensures Apply(s, e).qq.pushed == s.qq.pushed + (if e.Push? then [e.token] else [])
    ensures e.Trace? ==> s.worker.Tracing?
    ensures e.Push? ==> s.worker.Pushing?
  {
  }

  /** The counters are what the steps say: signals sent, trace taken, and the token pushed. */
  lemma {:induction false} DoneBySteps(states: seq<State>, steps: seq<Step>, k: nat)
    requires IsRun(states, steps) && k < |states|
    ensures states[k].signals == SignalsIn(steps[..k])
    ensures states[k].traced <==> exists i :: 0 <= i < k && steps[i].Trace?
    ensures forall x :: x in states[k].qq.pushed <==> exists i :: 0 <= i < k && steps[i] == Push(x)
  {
    hide Apply, Enabled;
    if k == 0 {
    } else {
      DoneBySteps(states, steps, k - 1);
      DoneStep(states[k - 1], steps[k - 1]);
      assert steps[..k][..k - 1] == steps[..k - 1];
    }
  }

  /**
   * When `th.join()` has returned: the trace was taken, at least one signal was sent, the one
   * token that was pushed was consumed, the queue is empty with no notification outstanding, and
   * nobody can touch it any more, so it may go out of scope.
   */
  lemma JoinedMeansDone(states: seq<State>, steps: seq<Step>, k: nat)
    requires IsRun(states, steps) && k < |states| && states[k].worker.Joined?
    ensures (exists i :: 0 <= i < k && steps[i].Trace?) && SignalsIn(steps[..k]) >= 1
    ensures var qq := states[k].qq;
            && |qq.pushed| == 1 && qq.que == [] && qq.unnotified == 0
            && (exists i :: 0 <= i < k && steps[i] == Push(qq.pushed[0]))
            && (exists c :: c in qq.consumers && qq.consumers[c] == Q.Got(qq.pushed[0]))
    ensures forall e :: !Enabled(states[k], e)
  {
    RunInv(states, steps, k);
    FinishedTookToken(states[k]);
    DoneBySteps(states, steps, k);
    assert states[k].qq.pushed[0] in states[k].qq.pushed;
  }

  /** Until it joins, the worker is never kept from its next step, which brings it one on. */
  lemma WorkerGoesOn(s: State, token: Q.Item) returns (e: Step)
    requires Inv(s) && (s.worker.Tracing? || s.worker.Pushing? || s.worker.Notifying?)
    ensures Enabled(s, e) && (e.Trace? || e.Push? || e.NotifyOne?)
    ensures Apply(s, e).worker == match s.worker case Tracing => Pushing case Pushing => Notifying case _ => Joining
  {
    match s.worker
    case Tracing => e := Trace;
    case Pushing => e := Push(token);
    case Notifying =>
      if c :| Q.IsWaiting(s.qq, c) {
        e := NotifyOne(Some(c));
      } else {
        e := NotifyOne(None);
      }
  }

  lemma TimedStep(s: State, e: Step, c: Q.Id)
    requires Enabled(s, e) && Q.InFlight(Apply(s, e).qq, c)
    ensures Q.InFlight(s.qq, c) ==> Apply(s, e).qq.consumers[c].timed == s.qq.consumers[c].timed
    ensures !Q.InFlight(s.qq, c) ==> Apply(s, e).qq.consumers[c].timed
  {
  }

  /** The notifier uses `try_pop`, never `pop`. */
  lemma {:induction false} NotifierIsTimed(states: seq<State>, steps: seq<Step>, k: nat, c: Q.Id)
    requires IsRun(states, steps) && k < |states| && Q.InFlight(states[k].qq, c)
    ensures states[k].qq.consumers[c].timed
  {
    hide Apply, Enabled;
    if k == 0 {
    } else {
      TimedStep(states[k - 1], steps[k - 1], c);
      if Q.InFlight(states[k - 1].qq, c) { NotifierIsTimed(states, steps, k - 1, c); }
    }
  }

  /** A notifier asleep is not stuck there: it can time out, return and signal once more. */
  lemma NotifierSignalsAgain(states: seq<State>, steps: seq<Step>, k: nat, c: Q.Id)
    requires IsRun(states, steps) && k < |states| && Q.IsWaiting(states[k].qq, c)
    ensures var s := states[k];
            && Enabled(s, WakeUp) && Enabled(Apply(s, WakeUp), Loop(true))
            && var t := Apply(Apply(s, WakeUp), Loop(true));
               && Enabled(t, Return) && Enabled(Apply(t, Return), Signal)
               && Apply(Apply(t, Return), Signal).signals == s.signals + 1 && t.qq.que == s.qq.que
  {
    RunInv(states, steps, k);
    NotifierIsTimed(states, steps, k, c);
    SleeperSignalsAgain(states[k], c);
  }

  lemma SleeperSignalsAgain(s: State, c: Q.Id)
    requires Inv(s) && Q.IsWaiting(s.qq, c) && s.qq.consumers[c].timed
    ensures && Enabled(s, WakeUp) && Enabled(Apply(s, WakeUp), Loop(true))
            && var t := Apply(Apply(s, WakeUp), Loop(true));
               && Enabled(t, Return) && Enabled(Apply(t, Return), Signal)
               && Apply(Apply(t, Return), Signal).signals == s.signals + 1 && t.qq.que == s.qq.que
  {
    assert Q.InFlight(s.qq, c) && s.notifier == Popping(c);
    Q.SleeperCanGiveUp(s.qq, c);
    assert s.calls !in s.qq.consumers;
  }

  // ----- joining

  lemma RemovedMeansGot(s: State)
    requires Inv(s)
    ensures s.qq.removed == [] || exists c :: c in s.qq.consumers && s.qq.consumers[c].Got?
  {
    if s.qq.removed != [] {
      var r := s.qq.removed[0];
      assert r in s.qq.removed && s.qq.consumers[r.taker].Got?;
    }
  }

  /** While nobody has the token, a worker that joins has left it in the queue. */
  lemma TokenInQueue(s: State)
    requires Inv(s) && s.worker.Joining? && forall c :: c in s.qq.consumers ==> !s.qq.consumers[c].Got?
    ensures |s.qq.que| == 1
  {
    RemovedMeansGot(s);
    assert |s.qq.pushed| == |s.qq.removed| + |s.qq.que|;
  }

  lemma SoleChecker(s: State, c: Q.Id)
    requires Inv(s) && Q.IsWaiting(s.qq, c)
    ensures Q.Checkers(s.qq) == {}
  {
    assert Q.InFlight(s.qq, c);
    forall d | d in Q.Checkers(s.qq) ensures d == c {
      assert Q.InFlight(s.qq, d);
    }
    assert Q.Checkers(s.qq) <= {c} && c !in Q.Checkers(s.qq);
  }

  lemma NobodySleeps(s: State, c: Q.Id)
    requires Inv(s) && s.worker.Joining?
    ensures !Q.IsWaiting(s.qq, c)
  {
    if Q.IsWaiting(s.qq, c) {
      SoleChecker(s, c);
      assert s.qq.que == [];
      assert Q.InFlight(s.qq, c);
      TokenInQueue(s);
    }
  }

  /** Once the worker waits in `join`, the notifier never sleeps: it cannot have missed the token. */
  lemma NeverAsleepDuringJoin(states: seq<State>, steps: seq<Step>, k: nat, c: Q.Id)
    requires IsRun(states, steps) && k < |states| && states[k].worker.Joining?
    ensures !Q.IsWaiting(states[k].qq, c)
  {
    RunInv(states, steps, k);
    NobodySleeps(states[k], c);
  }

  /** How many steps remain before `join` returns. */
  function Remaining(s: State): nat
  {
    match s.notifier
    case Signalling => 4
    case Finished => if s.worker.Joined? then 0 else 1
    case Popping(c) =>
      if c !in s.qq.consumers then 0
      else match s.qq.consumers[c]
        case Checking(_, waited) => if waited then 6 else 3
        case GaveUp => 5
        case _ => 2
  }

  lemma JoinStepCountsDown(s: State, e: Step)
    requires Inv(s) && s.worker.Joining? && Enabled(s, e)
    ensures Remaining(Apply(s, e)) < Remaining(s)
  {
    if s.notifier.Popping? {
      NobodySleeps(s, s.notifier.call);
      if Q.IsChecking(s.qq, s.notifier.call) {
        assert Q.InFlight(s.qq, s.notifier.call);
        TokenInQueue(s);
      }
    }
  }

  /** Until it is over, `join` is never stuck: the notifier can go on, or the worker can. */
  lemma JoinNeverStuck(s: State)
    requires Inv(s) && s.worker.Joining?
    ensures exists e :: Enabled(s, e)
  {
    match s.notifier
    case Signalling => assert Enabled(s, Signal);
    case Finished => assert Enabled(s, Join);
    case Popping(c) =>
      NobodySleeps(s, c);
      if Q.IsChecking(s.qq, c) { assert Enabled(s, Loop(false)); } else { assert Enabled(s, Return); }
  }

  lemma RemainingBound(s: State)
    requires Inv(s) && s.worker.Joining?
    ensures Remaining(s) <= 6
  {
  }

  lemma JoinedIsFinal(s: State, e: Step)
    requires Inv(s) && Enabled(s, e)
    ensures !s.worker.Joined?
    ensures s.worker.Joining? ==> Apply(s, e).worker.Joining? || Apply(s, e).worker.Joined?
  {
  }

  lemma RunJoinStep(states: seq<State>, steps: seq<Step>, i: nat)
    requires IsRun(states, steps) && i < |steps| && (states[i].worker.Joining? || states[i].worker.Joined?)
    ensures Remaining(states[i + 1]) < Remaining(states[i])
    ensures states[i + 1].worker.Joining? || states[i + 1].worker.Joined?
  {
    RunInv(states, steps, i);
    JoinedIsFinal(states[i], steps[i]);
    JoinStepCountsDown(states[i], steps[i]);
  }

  lemma {:induction false} JoinCountsDown(states: seq<State>, steps: seq<Step>, k: nat, j: nat)
    requires IsRun(states, steps) && k <= j < |states| && states[k].worker.Joining?
    ensures j - k + Remaining(states[j]) <= 6
    ensures states[j].worker.Joining? || states[j].worker.Joined?
  {
    hide Apply, Enabled, Remaining;
    if k == j {
      RunInv(states, steps, k);
      RemainingBound(states[k]);
    } else {
      JoinCountsDown(states, steps, k, j - 1);
      RunJoinStep(states, steps, j - 1);
    }
  }

  /** `join` returns: once the worker waits there, every run goes on and reaches `Joined` within six steps. */
  lemma JoinReturns(states: seq<State>, steps: seq<Step>, k: nat, j: nat)
    requires IsRun(states, steps) && k <= j < |states| && states[k].worker.Joining?
    ensures j - k <= 6
    ensures states[j].worker.Joined? || exists e :: Enabled(states[j], e)
  {
    JoinCountsDown(states, steps, k, j);
    RunInv(states, steps, j);
    if states[j].worker.Joining? { JoinNeverStuck(states[j]); }
  }
}
