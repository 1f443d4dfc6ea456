/** How calls end: the channel is closed exactly by `Close`, which never blocks, and any sleeper can time out. */
module ChannelCalls {
  import opened Common
  import opened Channel
  import opened ChannelSafety
  import opened ChannelTheorems

  // ----- closing

  lemma ClosedByStep(s: State, e: Step)
    requires Enabled(s, e)
    ensures Apply(s, e).closed <==> s.closed || e.LockClose?
  {
  }

  /** The channel is closed exactly when some `Close` has had the lock. */
  lemma {:induction false} ClosedIff(states: seq<State>, steps: seq<Step>, k: nat)
    requires IsRun(states, steps) && k < |states|
    ensures states[k].closed <==> exists i :: 0 <= i < k && steps[i].LockClose?
  {
    hide Apply, Enabled;
    if k == 0 {
    } else {
      ClosedIff(states, steps, k - 1);
      ClosedByStep(states[k - 1], steps[k - 1]);
    }
  }

  /** How many of its four steps a `Close` has still to make. */
  function StepsLeft(p: ClosePhase): nat
  {
    match p
    case CloseLock => 4
    case TellWriters => 3
    case TellReaders => 2
    case TellHandshake => 1
    case CloseDone => 0
  }

  /** `Close` never blocks: in whatever state, its next step can be made and brings it one on. */
  lemma CloseGoesOn(s: State, c: CallId) returns (e: Step)
    requires !s.crashed && c in s.calls && s.calls[c].Close? && !s.calls[c].cp.CloseDone?
    ensures Enabled(s, e) && e.c == c
    ensures Apply(s, e).crashed <==> e.LockClose? && s.closed
    ensures !Apply(s, e).crashed ==>
              && c in Apply(s, e).calls && Apply(s, e).calls[c].Close?
              && StepsLeft(Apply(s, e).calls[c].cp) == StepsLeft(s.calls[c].cp) - 1
  {
    match s.calls[c].cp
    case CloseLock => e := LockClose(c);
    case TellWriters => e := NotifyWriters(c);
    case TellReaders => e := NotifyReaders(c);
    case TellHandshake =>
      var w := SomePick(s, Handshake);
      e := NotifyHandshake(c, w);
  }

  function OwnSteps(steps: seq<Step>, c: CallId): nat
  {
    if steps == [] then 0 else OwnSteps(steps[..|steps| - 1], c) + (if steps[|steps| - 1].c == c then 1 else 0)
  }

  lemma CloseStepCounts(s: State, e: Step, c: CallId)
    requires Enabled(s, e) && c in s.calls && s.calls[c].Close? && !Apply(s, e).crashed
    ensures c in Apply(s, e).calls && Apply(s, e).calls[c].Close?
    ensures StepsLeft(Apply(s, e).calls[c].cp) + (if e.c == c then 1 else 0) == StepsLeft(s.calls[c].cp)
  {
  }

  lemma NotBegunNoSteps(s: State, e: Step, c: CallId)
    requires Enabled(s, e) && c !in s.calls
    ensures e.c == c <==> IsStart(e) && e.c == c
    ensures e == StartClose(c) ==> Apply(s, e).calls[c] == Close(CloseLock)
    ensures e.c == c <==> c in Apply(s, e).calls
  {
  }

  lemma {:induction false} NoOwnSteps(states: seq<State>, steps: seq<Step>, k: nat, c: CallId)
    requires IsRun(states, steps) && k < |states| && c !in states[k].calls
    ensures OwnSteps(steps[..k], c) == 0
  {
    hide Apply, Enabled;
    if k == 0 {
    } else {
      StartStep(states[k - 1], steps[k - 1], c);
      NoOwnSteps(states, steps, k - 1, c);
      NotBegunNoSteps(states[k - 1], steps[k - 1], c);
      assert steps[..k][..k - 1] == steps[..k - 1];
    }
  }

  /** In every run, a `Close` that was begun is over after five steps of its own, the beginning included. */
  lemma {:induction false} CloseTakesFiveSteps(states: seq<State>, steps: seq<Step>, k: nat, c: CallId)
    requires IsRun(states, steps) && k < |states| && !states[k].crashed
    requires c in states[k].calls && states[k].calls[c].Close?
    ensures OwnSteps(steps[..k], c) + StepsLeft(states[k].calls[c].cp) == 5
  {
    hide Apply, Enabled;
    if k == 0 {
    } else {
      var s, e := states[k - 1], steps[k - 1];
      assert steps[..k][..k - 1] == steps[..k - 1];
      assert !s.crashed by { NotCrashedBefore(s, e); }
      StartStep(s, e, c);
      if c in s.calls {
        CloseTakesFiveSteps(states, steps, k - 1, c);
        CloseStepCounts(s, e, c);
      } else {
        NoOwnSteps(states, steps, k - 1, c);
        NotBegunNoSteps(s, e, c);
      }
    }
  }

  lemma NotCrashedBefore(s: State, e: Step)
    requires Enabled(s, e)
    ensures !s.crashed
  {
  }

  // ----- timing out

  /**
   * A sleeper is never kept from timing out: it can wake of its own accord and check with its deadline
   * passed; then it reports a timeout if its condition is false, and otherwise it does not.
   */
  lemma SleeperCanTimeOut(s: State, c: CallId, junk: Value) returns (t: State, e: Step)
    requires !s.crashed && Asleep(s, c)
    ensures Enabled(s, WakeUp(c)) && t == Apply(s, WakeUp(c)) && t == s.(calls := s.calls[c := Roused(s.calls[c])])
    ensures IsCheck(e) && e.c == c && e.expired && Enabled(t, e)
    ensures ReportsTimeout(Apply(t, e), c) <==> !ConditionHolds(t, e)
  {
    t := Apply(s, WakeUp(c));
    var w := SomePick(t, Readers);
    var x := SomePick(t, Writers);
    var y := SomePick(t, Handshake);
    e := if EntryChecker(t, c) then TryEnter(c, true, w)
         else if HandshakeChecker(t, c) then TryFinish(c, true, x)
         else TryRead(c, true, y, junk);
    TimeoutStep(t, e, c);
  }
}
