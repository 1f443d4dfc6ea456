/**
 * The blocking queue of src/zqueue.h: pushers that append under the lock and notify after
 * releasing it, `pop` consumers that wait without a deadline, and `try_pop` consumers that return
 * false when a wait reports a timeout, without looking at the queue again.
 */
module ZQueue {
  import opened Common

  type Id = int
  type Item(==, !new)

  /**
   * A consumer call.  `timed` distinguishes `try_pop` from `pop`; `waited` says that it comes out
   * of a wait rather than from its caller.
   */
  datatype Consumer =
    | Checking(timed: bool, waited: bool)
    | Waiting(timed: bool)
    | Got(item: Item)
    | GaveUp

  /** How an item left the queue. */
  datatype Removal = Popped(taker: Id, what: Item) | Cleared(what: Item)

  /** `unnotified` counts the pushes that have appended but not yet called `notify_one`. */
  datatype State = State(
    que: seq<Item>, consumers: map<Id, Consumer>, unnotified: nat,
    pushed: seq<Item>, removed: seq<Removal>)

  const INIT := State([], map[], 0, [], [])

  datatype Step =
    | Start(c: Id, timed: bool)
    | Append(x: Item)
    | Notify(wake: Option<Id>)
    | Check(c: Id, expired: bool)
    | WakeUp(c: Id)
    | Clear

  predicate IsChecking(s: State, c: Id) { c in s.consumers && s.consumers[c].Checking? }

  predicate IsWaiting(s: State, c: Id) { c in s.consumers && s.consumers[c].Waiting? }

  predicate InFlight(s: State, c: Id) { IsChecking(s, c) || IsWaiting(s, c) }

  function Rouse(s: State, w: Option<Id>): State
  {
    if w.Some? && IsWaiting(s, w.value)
    then s.(consumers := s.consumers[w.value := Checking(s.consumers[w.value].timed, true)])
    else s
  }

  /** A timed wait that reports a timeout ends the call, notified or not, item or not. */
  predicate IsGiveUp(s: State, e: Step)
  {
    e.Check? && IsChecking(s, e.c) && s.consumers[e.c].timed && s.consumers[e.c].waited && e.expired
  }

  /** One turn of the loop in `pop` or `try_pop`. */
  function Turn(s: State, c: Id, expired: bool): State
    requires IsChecking(s, c)
  {
    if IsGiveUp(s, Check(c, expired)) then s.(consumers := s.consumers[c := GaveUp])
    else if s.que == [] then s.(consumers := s.consumers[c := Waiting(s.consumers[c].timed)])
    else
      var x := s.que[0];
      s.(que := s.que[1..], consumers := s.consumers[c := Got(x)], removed := s.removed + [Popped(c, x)])
  }

  function Wipe(xs: seq<Item>): seq<Removal> { seq(|xs|, i requires 0 <= i < |xs| => Cleared(xs[i])) }

  ghost predicate Enabled(s: State, e: Step)
  {
    match e
    case Start(c, _) => c !in s.consumers
    case Append(_) => true
    case Notify(None) => s.unnotified > 0 && forall c :: !IsWaiting(s, c)
    case Notify(Some(c)) => s.unnotified > 0 && IsWaiting(s, c)
    case Check(c, _) => IsChecking(s, c)
    case WakeUp(c) => IsWaiting(s, c)
    case Clear => true
  }

  ghost function Apply(s: State, e: Step): State
    requires Enabled(s, e)
  {
    match e
    case Start(c, timed) => s.(consumers := s.consumers[c := Checking(timed, false)])
    case Append(x) => s.(que := s.que + [x], unnotified := s.unnotified + 1, pushed := s.pushed + [x])
    case Notify(wake) => Rouse(s.(unnotified := s.unnotified - 1), wake)
    case Check(c, expired) => Turn(s, c, expired)
    case WakeUp(c) => Rouse(s, Some(c))
    case Clear => s.(que := [], removed := s.removed + Wipe(s.que))
  }

  /** The states passed through and the steps between them. */
  ghost predicate IsPath(states: seq<State>, steps: seq<Step>)
  {
    && |states| == |steps| + 1
    && forall i :: 0 <= i < |steps| ==> Enabled(states[i], steps[i]) && states[i + 1] == Apply(states[i], steps[i])
  }

  /** A run is a path from the empty queue. */
  ghost predicate IsRun(states: seq<State>, steps: seq<Step>) { IsPath(states, steps) && states[0] == INIT }

  // ----- first in, first out, nothing lost, nothing twice

  function Removed(rs: seq<Removal>): seq<Item> { seq(|rs|, i requires 0 <= i < |rs| => rs[i].what) }

  /** What went in is what came out, in that order, followed by what is still there. */
  ghost predicate Conserved(s: State)
  {
    && s.pushed == Removed(s.removed) + s.que
    && (forall r :: r in s.removed && r.Popped? ==> r.taker in s.consumers && s.consumers[r.taker] == Got(r.what))
    && (forall c :: c in s.consumers && s.consumers[c].Got? ==> Popped(c, s.consumers[c].item) in s.removed)
    && (forall i, j :: 0 <= i < j < |s.removed| && s.removed[i].Popped? && s.removed[j].Popped? ==>
          s.removed[i].taker != s.removed[j].taker)
  }

  lemma ConservedStep(s: State, e: Step)
    requires Conserved(s) && Enabled(s, e)
    ensures Conserved(Apply(s, e))
  {
    var t := Apply(s, e);
    match e
    case Check(c, expired) =>
      if t.removed != s.removed {
        assert Removed(t.removed) == Removed(s.removed) + [s.que[0]];
        assert t.removed[|s.removed|] == Popped(c, s.que[0]);
      }
      forall d | d in t.consumers && t.consumers[d].Got?
        ensures Popped(d, t.consumers[d].item) in t.removed
      {
        assert d != c ==> Popped(d, s.consumers[d].item) in s.removed;
      }
    case Clear =>
      assert Removed(t.removed) == Removed(s.removed) + s.que;
      assert forall r :: r in t.removed && r.Popped? ==> r in s.removed;
      assert forall r :: r in s.removed ==> r in t.removed;
    case _ =>
  }

  lemma EmptyConserved()
    ensures Conserved(INIT)
  {
  }

  lemma {:induction false} RunConserved(states: seq<State>, steps: seq<Step>, k: nat)
    requires IsRun(states, steps) && k < |states|
    ensures Conserved(states[k])
  {
    hide Apply, Enabled, Conserved;
    if k == 0 {
      EmptyConserved();
    } else {
      RunConserved(states, steps, k - 1);
      ConservedStep(states[k - 1], steps[k - 1]);
    }
  }

  /** The arguments of the pushes among `steps`, in order. */
  function Appended(steps: seq<Step>): seq<Item>
  {
    if steps == [] then []
    else
      var last := steps[|steps| - 1];
      Appended(steps[..|steps| - 1]) + (if last.Append? then [last.x] else [])
  }

  /** What a step does to the record of pushes and removals. */
  lemma HistoryStep(s: State, e: Step)
    requires Enabled(s, e)
    ensures var t := Apply(s, e);
            && t.pushed == s.pushed + (if e.Append? then [e.x] else [])
            && s.removed <= t.removed
            && (e.Clear? ==> t.que == [] && forall i :: |s.removed| <= i < |t.removed| ==> t.removed[i].Cleared?)
            && (!e.Clear? ==> forall i :: |s.removed| <= i < |t.removed| ==>
                  i == |s.removed| && t.removed[i].Popped? && e.Check? && t.removed[i].taker == e.c)
  {
  }

  lemma {:induction false} PushedIsAppended(states: seq<State>, steps: seq<Step>, k: nat)
    requires IsRun(states, steps) && k < |states|
    ensures states[k].pushed == Appended(steps[..k])
  {
    hide Apply, Enabled;
    if k == 0 {
    } else {
      PushedIsAppended(states, steps, k - 1);
      HistoryStep(states[k - 1], steps[k - 1]);
      assert steps[..k][..k - 1] == steps[..k - 1];
    }
  }

  /**
   * First in, first out: what was removed, followed by what is still there, is what was pushed, in the
   * order of the pushes.  A call returns an item exactly if it removed it, and removes no other.
   */
  lemma FirstInFirstOut(states: seq<State>, steps: seq<Step>, k: nat)
    requires IsRun(states, steps) && k < |states|
    ensures Appended(steps[..k]) == Removed(states[k].removed) + states[k].que
    ensures var s := states[k];
            && (forall c, x :: Popped(c, x) in s.removed <==> c in s.consumers && s.consumers[c] == Got(x))
            && (forall i, j :: 0 <= i < j < |s.removed| && s.removed[i].Popped? && s.removed[j].Popped? ==>
                  s.removed[i].taker != s.removed[j].taker)
  {
    hide Apply, Enabled;
    RunConserved(states, steps, k);
    PushedIsAppended(states, steps, k);
    var s := states[k];
    forall c, x ensures Popped(c, x) in s.removed <==> c in s.consumers && s.consumers[c] == Got(x) {
      if c in s.consumers && s.consumers[c] == Got(x) { assert Popped(c, s.consumers[c].item) in s.removed; }
    }
  }

  /** Each push sends one notification: those sent and those owed are as many as the pushes. */
  lemma {:induction false} NotificationsOwed(states: seq<State>, steps: seq<Step>, k: nat)
    requires IsRun(states, steps) && k < |states|
    ensures NotifiesIn(steps[..k]) + states[k].unnotified == |Appended(steps[..k])|
  {
    hide Apply, Enabled;
    if k == 0 {
    } else {
      NotificationsOwed(states, steps, k - 1);
      OwedStep(states[k - 1], steps[k - 1]);
      assert steps[..k][..k - 1] == steps[..k - 1];
    }
  }

  function NotifiesIn(steps: seq<Step>): nat
  {
    if steps == [] then 0 else NotifiesIn(steps[..|steps| - 1]) + (if steps[|steps| - 1].Notify? then 1 else 0)
  }

  lemma OwedStep(s: State, e: Step)
    requires Enabled(s, e)
    ensures Apply(s, e).unnotified == s.unnotified + (if e.Append? then 1 else if e.Notify? then -1 else 0)
  {
  }

  lemma {:induction false} OnlyClearClears(states: seq<State>, steps: seq<Step>, k: nat)
    requires IsRun(states, steps) && k < |states| && forall i :: 0 <= i < k ==> !steps[i].Clear?
    ensures forall r :: r in states[k].removed ==> r.Popped?
  {
    hide Apply, Enabled;
    if k == 0 {
    } else {
      OnlyClearClears(states, steps, k - 1);
      HistoryStep(states[k - 1], steps[k - 1]);
    }
  }

  /** Without `clear`, the n-th item handed to a consumer is the n-th pushed. */
  lemma PopsFollowPushes(states: seq<State>, steps: seq<Step>, k: nat, n: nat)
    requires IsRun(states, steps) && k < |states| && forall i :: 0 <= i < k ==> !steps[i].Clear?
    requires n < |states[k].removed|
    ensures n < |Appended(steps[..k])|
    ensures var s, x := states[k], Appended(steps[..k])[n];
            exists c :: s.removed[n] == Popped(c, x) && c in s.consumers && s.consumers[c] == Got(x)
  {
    hide Apply, Enabled;
    OnlyClearClears(states, steps, k);
    FirstInFirstOut(states, steps, k);
    var s := states[k];
    var r := s.removed[n];
    assert r in s.removed && r == Popped(r.taker, r.what) && Removed(s.removed)[n] == r.what;
  }

  // ----- what a call comes to

  lemma ConsumerStep(s: State, e: Step, c: Id)
    requires Enabled(s, e)
    ensures c in Apply(s, e).consumers <==> c in s.consumers || (e.Start? && e.c == c)
    ensures InFlight(Apply(s, e), c) ==>
              if c in s.consumers then InFlight(s, c) && Apply(s, e).consumers[c].timed == s.consumers[c].timed
              else e == Start(c, Apply(s, e).consumers[c].timed)
  {
  }

  /** The consumer calls are those begun, and one in progress is of the kind begun. */
  lemma {:induction false} ConsumersAreBegun(states: seq<State>, steps: seq<Step>, k: nat, c: Id)
    requires IsRun(states, steps) && k < |states|
    ensures c in states[k].consumers <==> exists i :: 0 <= i < k && steps[i].Start? && steps[i].c == c
    ensures InFlight(states[k], c) ==> exists i :: 0 <= i < k && steps[i] == Start(c, states[k].consumers[c].timed)
  {
    hide Apply, Enabled;
    if k == 0 {
    } else {
      ConsumersAreBegun(states, steps, k - 1, c);
      ConsumerStep(states[k - 1], steps[k - 1], c);
    }
  }

  ghost predicate Slept(states: seq<State>, k: nat, c: Id)
    requires k <= |states|
  {
    exists j :: 0 <= j < k && IsWaiting(states[j], c)
  }

  lemma WaitedStep(s: State, e: Step, c: Id)
    requires Enabled(s, e)
    ensures c in s.consumers ==> c in Apply(s, e).consumers
    ensures IsChecking(Apply(s, e), c) && !IsWaiting(s, c) ==> c !in s.consumers || IsChecking(s, c)
    ensures IsChecking(Apply(s, e), c) ==>
              (Apply(s, e).consumers[c].waited <==> IsWaiting(s, c) || (IsChecking(s, c) && s.consumers[c].waited))
  {
  }

  lemma {:induction false} WaitedMeansSlept(states: seq<State>, steps: seq<Step>, k: nat, c: Id)
    requires IsRun(states, steps) && k < |states|
    ensures c !in states[k].consumers ==> !Slept(states, k, c)
    ensures IsChecking(states[k], c) ==> (states[k].consumers[c].waited <==> Slept(states, k, c))
  {
    hide Apply, Enabled;
    if k == 0 {
    } else {
      WaitedMeansSlept(states, steps, k - 1, c);
      WaitedStep(states[k - 1], steps[k - 1], c);
    }
  }

  /** At step `i` the `try_pop` call `c` comes out of a wait that reports a timeout. */
  ghost predicate TimesOutAt(states: seq<State>, steps: seq<Step>, i: nat, c: Id)
    requires i < |steps| && |steps| < |states|
  {
    steps[i] == Check(c, true) && Slept(states, i, c) && InFlight(states[i], c) && states[i].consumers[c].timed
  }

  predicate HasGivenUp(s: State, c: Id) { c in s.consumers && s.consumers[c].GaveUp? }

  lemma GiveUpStep(s: State, e: Step, c: Id)
    requires Enabled(s, e)
    ensures HasGivenUp(Apply(s, e), c) <==> HasGivenUp(s, c) || (IsGiveUp(s, e) && e.c == c)
    ensures IsGiveUp(s, e) <==> e.Check? && e.expired && s.consumers[e.c].timed && s.consumers[e.c].waited
    ensures e.Check? ==> IsChecking(s, e.c)
  {
  }

  /** A call returns false exactly if it is a `try_pop` that came out of a wait with a timeout. */
  lemma {:induction false} GivesUpExactly(states: seq<State>, steps: seq<Step>, k: nat, c: Id)
    requires IsRun(states, steps) && k < |states|
    ensures HasGivenUp(states[k], c) <==> exists i :: 0 <= i < k && TimesOutAt(states, steps, i, c)
  {
    hide Apply, Enabled, IsGiveUp, HasGivenUp, Slept;
    if k == 0 {
      NothingAtFirst(c);
    } else {
      var s, e := states[k - 1], steps[k - 1];
      GivesUpExactly(states, steps, k - 1, c);
      GiveUpStep(s, e, c);
      WaitedMeansSlept(states, steps, k - 1, c);
      assert TimesOutAt(states, steps, k - 1, c) <==> IsGiveUp(s, e) && e.c == c;
    }
  }

  lemma NothingAtFirst(c: Id)
    ensures !HasGivenUp(INIT, c)
  {
  }

  /** An awake call that sees an item before any timeout returns the oldest one. */
  lemma CheckTakesOldest(s: State, c: Id)
    requires IsChecking(s, c) && s.que != []
    ensures Enabled(s, Check(c, false)) && Apply(s, Check(c, false)).que == s.que[1..]
    ensures Apply(s, Check(c, false)).consumers == s.consumers[c := Got(s.que[0])]
  {
  }

  /** A sleeping `try_pop` can always come back with a timeout. */
  lemma SleeperCanGiveUp(s: State, c: Id)
    requires IsWaiting(s, c) && s.consumers[c].timed
    ensures Enabled(s, WakeUp(c)) && Enabled(Apply(s, WakeUp(c)), Check(c, true))
    ensures HasGivenUp(Apply(Apply(s, WakeUp(c)), Check(c, true)), c)
    ensures Apply(Apply(s, WakeUp(c)), Check(c, true)).que == s.que
  {
  }

  // ----- wakeups

  function CheckingIn(consumers: map<Id, Consumer>): set<Id> { set c | c in consumers && consumers[c].Checking? }

  function Checkers(s: State): set<Id> { CheckingIn(s.consumers) }

  lemma CheckingUpdate(consumers: map<Id, Consumer>, c: Id, v: Consumer)
    ensures CheckingIn(consumers[c := v]) ==
            if v.Checking? then CheckingIn(consumers) + {c} else CheckingIn(consumers) - {c}
  {
  }

  /** While somebody waits, every item is matched by an awake consumer or a notification to come. */
  ghost predicate Matched(s: State)
  {
    (exists c :: IsWaiting(s, c)) ==> |s.que| <= |Checkers(s)| + s.unnotified
  }

  /** The step does not swallow a notification that somebody else may have needed. */
  ghost predicate Harmless(s: State, e: Step)
  {
    IsGiveUp(s, e) ==> forall d :: d != e.c ==> !IsWaiting(s, d)
  }

  /** How a step changes the set of awake consumers. */
  lemma CheckersStep(s: State, e: Step)
    requires Enabled(s, e)
    ensures e.Check? ==> |Checkers(Apply(s, e))| == |Checkers(s)| - 1
    ensures e.Start? || e.WakeUp? || (e.Notify? && e.wake.Some?) ==> |Checkers(Apply(s, e))| == |Checkers(s)| + 1
    ensures e.Append? || e.Clear? ==> |Checkers(Apply(s, e))| == |Checkers(s)|
  {
    match e
    case Check(c, expired) => TurnCheckers(s, c, expired);
    case Start(c, timed) => CheckingUpdate(s.consumers, c, Checking(timed, false));
    case WakeUp(c) => CheckingUpdate(s.consumers, c, Checking(s.consumers[c].timed, true));
    case Notify(Some(c)) => CheckingUpdate(s.consumers, c, Checking(s.consumers[c].timed, true));
    case _ =>
  }

  lemma TurnCheckers(s: State, c: Id, expired: bool)
    requires IsChecking(s, c)
    ensures |Checkers(Turn(s, c, expired))| == |Checkers(s)| - 1
  {
    var t := Turn(s, c, expired);
    CheckingUpdate(s.consumers, c, t.consumers[c]);
    assert t.consumers == s.consumers[c := t.consumers[c]];
  }

  lemma MatchedStep(s: State, e: Step)
    requires Matched(s) && Enabled(s, e) && Harmless(s, e)
    ensures Matched(Apply(s, e))
  {
    var t := Apply(s, e);
    if w :| IsWaiting(t, w) {
      CheckersStep(s, e);
      assert IsWaiting(s, w) || (e.Check? && t.que == []);
    }
  }

  // ----- exactly when an item can be stranded

  /** An item is in the queue, somebody sleeps beside it, and nobody is awake or about to be notified. */
  ghost predicate Stranded(s: State)
  {
    && s.que != [] && s.unnotified == 0
    && (exists c :: IsWaiting(s, c)) && (forall c :: !IsChecking(s, c))
  }

  /** A `try_pop` is in progress, and another call of either kind as well. */
  ghost predicate Risky(s: State)
  {
    exists c, d :: c != d && InFlight(s, c) && InFlight(s, d) && s.consumers[c].timed
  }

  lemma SafeIsHarmless(s: State, e: Step)
    requires Enabled(s, e) && !Risky(s)
    ensures Harmless(s, e)
  {
    if IsGiveUp(s, e) {
      forall d | d != e.c ensures !IsWaiting(s, d) {
        assert IsWaiting(s, d) ==> InFlight(s, e.c) && InFlight(s, d);
      }
    }
  }

  lemma MatchedMeansNotStranded(s: State)
    requires Matched(s)
    ensures !Stranded(s)
  {
    if Stranded(s) && Checkers(s) != {} {
      assert IsChecking(s, Choose(Checkers(s)));
    }
  }

  lemma {:induction false} SafePathMatched(states: seq<State>, steps: seq<Step>, k: nat)
    requires IsPath(states, steps) && k < |states| && Matched(states[0])
    requires forall i :: 0 <= i < k ==> !Risky(states[i])
    ensures Matched(states[k])
  {
    hide Apply, Enabled, Matched, Risky;
    if k == 0 {
    } else {
      SafePathMatched(states, steps, k - 1);
      SafeIsHarmless(states[k - 1], steps[k - 1]);
      MatchedStep(states[k - 1], steps[k - 1]);
    }
  }

  /**
   * As long as no `try_pop` has been in progress beside another call, every item is matched while
   * somebody waits, and none is stranded.
   */
  lemma NothingStranded(states: seq<State>, steps: seq<Step>, k: nat)
    requires IsRun(states, steps) && k < |states|
    requires forall i :: 0 <= i < k ==> !Risky(states[i])
    ensures Matched(states[k]) && !Stranded(states[k])
  {
    SafePathMatched(states, steps, k);
    MatchedMeansNotStranded(states[k]);
  }

  predicate NoStart(steps: seq<Step>) { forall i :: 0 <= i < |steps| ==> !steps[i].Start? }

  /** Left to the calls already in progress, pushes and clears, the queue can come to strand an item. */
  ghost predicate CanStrand(s: State)
  {
    exists states, steps :: IsPath(states, steps) && states[0] == s && NoStart(steps) && Stranded(states[|steps|])
  }

  lemma StepKeepsSafe(s: State, e: Step)
    requires Enabled(s, e) && !e.Start? && !Risky(s)
    ensures !Risky(Apply(s, e))
  {
    var t := Apply(s, e);
    forall c | InFlight(t, c) ensures InFlight(s, c) && t.consumers[c].timed == s.consumers[c].timed {
    }
  }

  lemma {:induction false} SafePathStaysSafe(states: seq<State>, steps: seq<Step>, k: nat)
    requires IsPath(states, steps) && k < |states| && NoStart(steps) && !Risky(states[0])
    ensures !Risky(states[k])
  {
    hide Apply, Enabled, Risky;
    if k == 0 {
    } else {
      SafePathStaysSafe(states, steps, k - 1);
      StepKeepsSafe(states[k - 1], steps[k - 1]);
    }
  }

  lemma SafeCannotStrand(s: State)
    requires Matched(s) && !Risky(s)
    ensures !CanStrand(s)
  {
    hide Matched, Risky, Stranded, Apply, Enabled;
    forall states, steps | IsPath(states, steps) && states[0] == s && NoStart(steps)
      ensures !Stranded(states[|steps|])
    {
      forall i | 0 <= i < |steps| ensures !Risky(states[i]) {
        SafePathStaysSafe(states, steps, i);
      }
      SafePathMatched(states, steps, |steps|);
      MatchedMeansNotStranded(states[|steps|]);
    }
  }

  /** The calls in progress are those of `s`, each of its own kind. */
  ghost predicate SameCalls(s: State, t: State)
  {
    forall c ::
      && (InFlight(t, c) <==> InFlight(s, c))
      && (InFlight(s, c) ==> t.consumers[c].timed == s.consumers[c].timed)
  }

  /** Whatever was appended has been removed and announced, and every call in progress sleeps. */
  ghost predicate Settled(s: State) { s.que == [] && s.unnotified == 0 && forall c :: !IsChecking(s, c) }

  lemma SettleStep(s: State) returns (e: Step)
    requires s.que == [] && !Settled(s)
    ensures Enabled(s, e) && !e.Start? && Apply(s, e).que == [] && SameCalls(s, Apply(s, e))
    ensures Apply(s, e).unnotified <= s.unnotified
    ensures Apply(s, e).unnotified < s.unnotified || |Checkers(Apply(s, e))| < |Checkers(s)|
  {
    if s.unnotified > 0 {
      if c :| IsWaiting(s, c) {
        e := Notify(Some(c));
      } else {
        e := Notify(None);
      }
    } else {
      var c :| IsChecking(s, c);
      e := Check(c, false);
      TurnCheckers(s, c, false);
    }
  }

  lemma Prepend(s: State, e: Step, states: seq<State>, steps: seq<Step>)
    requires Enabled(s, e) && IsPath(states, steps) && states[0] == Apply(s, e)
    ensures IsPath([s] + states, [e] + steps) && ([s] + states)[|[e] + steps|] == states[|steps|]
    ensures !e.Start? && NoStart(steps) ==> NoStart([e] + steps)
  {
    hide Apply, Enabled;
  }

  /** From a settled queue with a `try_pop` and another call asleep, three steps strand an item. */
  lemma SwallowNotification(s: State, c: Id, d: Id, x: Item) returns (states: seq<State>, steps: seq<Step>)
    requires Settled(s) && c != d && InFlight(s, c) && InFlight(s, d) && s.consumers[c].timed
    ensures IsPath(states, steps) && states[0] == s && NoStart(steps) && Stranded(states[|steps|])
  {
    steps := [Append(x), Notify(Some(c)), Check(c, true)];
    assert IsWaiting(s, c) && IsWaiting(s, d);
    var s1 := Apply(s, steps[0]);
    assert IsWaiting(s1, c);
    var s2 := Apply(s1, steps[1]);
    var s3 := Apply(s2, steps[2]);
    states := [s, s1, s2, s3];
    assert IsWaiting(s3, d);
    forall b ensures !IsChecking(s3, b) {
      assert !IsChecking(s, b);
    }
  }

  lemma SettleAndStrand(s: State, c: Id, d: Id, x: Item) returns (states: seq<State>, steps: seq<Step>)
    requires s.que == [] && c != d && InFlight(s, c) && InFlight(s, d) && s.consumers[c].timed
    ensures IsPath(states, steps) && states[0] == s && NoStart(steps) && Stranded(states[|steps|])
    decreases s.unnotified, |Checkers(s)|
  {
    hide Apply, Enabled, Stranded, IsPath, NoStart;
    if Settled(s) {
      states, steps := SwallowNotification(s, c, d, x);
    } else {
      var e := SettleStep(s);
      states, steps := SettleAndStrand(Apply(s, e), c, d, x);
      Prepend(s, e, states, steps);
      states, steps := [s] + states, [e] + steps;
    }
  }

  lemma RiskyCanStrand(s: State, x: Item)
    requires Risky(s)
    ensures CanStrand(s)
  {
    hide Stranded, IsPath, NoStart;
    var c, d :| c != d && InFlight(s, c) && InFlight(s, d) && s.consumers[c].timed;
    var s1 := Apply(s, Clear);
    var states, steps := SettleAndStrand(s1, c, d, x);
    Prepend(s, Clear, states, steps);
    assert IsPath([s] + states, [Clear] + steps);
  }

  lemma CanStrandIffRisky(states: seq<State>, steps: seq<Step>, k: nat, x: Item)
    requires IsRun(states, steps) && k < |states|
    requires forall i :: 0 <= i < k ==> !Risky(states[i])
    ensures CanStrand(states[k]) <==> Risky(states[k])
  {
    hide Risky, CanStrand, Matched;
    NothingStranded(states, steps, k);
    if Risky(states[k]) { RiskyCanStrand(states[k], x); } else { SafeCannotStrand(states[k]); }
  }

  /**
   * Exactly when an item can be stranded: a run up to `k` had a moment from which the calls then in
   * progress could come to sleep beside an item, with nobody awake or about to be notified, if and
   * only if it had a moment with a `try_pop` in progress beside another call.
   */
  lemma StrandsIff(states: seq<State>, steps: seq<Step>, k: nat, x: Item)
    requires IsRun(states, steps) && k < |states|
    ensures (exists i :: 0 <= i <= k && CanStrand(states[i])) <==> (exists i :: 0 <= i <= k && Risky(states[i]))
  {
    hide Risky, CanStrand, IsRun;
    if i :| 0 <= i <= k && Risky(states[i]) {
      RiskyCanStrand(states[i], x);
    } else {
      forall i | 0 <= i <= k ensures !CanStrand(states[i]) {
        CanStrandIffRisky(states, steps, i, x);
      }
    }
  }

  // ----- two ways of keeping clear of it

  ghost predicate PopOnly(steps: seq<Step>) { forall e :: e in steps && e.Start? ==> !e.timed }

  /** A consumer call begins only when no other one is in progress: one looping thread. */
  ghost predicate OneConsumer(states: seq<State>, steps: seq<Step>)
    requires IsRun(states, steps)
  {
    forall i :: 0 <= i < |steps| && steps[i].Start? ==> forall c :: !InFlight(states[i], c)
  }

  lemma {:induction false} PopOnlyNeverTimed(states: seq<State>, steps: seq<Step>, k: nat, c: Id)
    requires IsRun(states, steps) && PopOnly(steps) && k < |states| && InFlight(states[k], c)
    ensures !states[k].consumers[c].timed
  {
    if k == 0 {
    } else {
      var e := steps[k - 1];
      assert e in steps;
      if InFlight(states[k - 1], c) { PopOnlyNeverTimed(states, steps, k - 1, c); }
    }
  }

  lemma {:induction false} OneConsumerAlone(states: seq<State>, steps: seq<Step>, k: nat, c: Id, d: Id)
    requires IsRun(states, steps) && OneConsumer(states, steps) && k < |states|
    requires InFlight(states[k], c) && InFlight(states[k], d)
    ensures c == d
  {
    if k == 0 {
    } else if InFlight(states[k - 1], c) && InFlight(states[k - 1], d) {
      OneConsumerAlone(states, steps, k - 1, c, d);
    } else {
      assert steps[k - 1].Start? && !InFlight(states[k - 1], c) && !InFlight(states[k - 1], d);
    }
  }

  /** `pop` consumers only, or a single thread looping on either operation: no item is ever stranded. */
  lemma PopOnlyOrOneConsumer(states: seq<State>, steps: seq<Step>, k: nat)
    requires IsRun(states, steps) && k < |states|
    requires PopOnly(steps) || OneConsumer(states, steps)
    ensures !Risky(states[k]) && Matched(states[k]) && !Stranded(states[k])
  {
    hide Apply, Enabled, IsRun, Matched, Stranded;
    forall i | 0 <= i < |states| ensures !Risky(states[i]) {
      forall c, d | c != d && InFlight(states[i], c) && InFlight(states[i], d) ensures !states[i].consumers[c].timed {
        if PopOnly(steps) { PopOnlyNeverTimed(states, steps, i, c); } else { OneConsumerAlone(states, steps, i, c, d); }
      }
    }
    NothingStranded(states, steps, k);
  }

  /** A run that strands an item: the notified `try_pop` times out and leaves the other call, of either kind, asleep. */
  lemma TimedConsumerCanStrand(x: Item, otherTimed: bool) returns (states: seq<State>, steps: seq<Step>)
    ensures IsRun(states, steps) && Stranded(states[|steps|]) && states[|steps|].que == [x]
    ensures 1 in states[|steps|].consumers && states[|steps|].consumers[1] == GaveUp
    ensures IsWaiting(states[|steps|], 2) && states[|steps|].consumers[2].timed == otherTimed
  {
    steps := [Start(1, true), Start(2, otherTimed), Check(1, false), Check(2, false),
              Append(x), Notify(Some(1)), Check(1, true)];
    var s1 := Apply(INIT, steps[0]);
    var s2 := Apply(s1, steps[1]);
    var s3 := Apply(s2, steps[2]);
    var s4 := Apply(s3, steps[3]);
    var s5 := Apply(s4, steps[4]);
    var s6 := Apply(s5, steps[5]);
    var s7 := Apply(s6, steps[6]);
    states := [INIT, s1, s2, s3, s4, s5, s6, s7];
    assert IsWaiting(s7, 2);
  }

  // ----- the object

  class Queue {
    var que: seq<Item>
    var consumers: map<Id, Consumer>
    var unnotified: nat
    ghost var pushed: seq<Item>
    ghost var removed: seq<Removal>

    ghost function View(): State
      reads this
    {
      State(que, consumers, unnotified, pushed, removed)
    }

    constructor ()
      ensures View() == INIT && Conserved(View())
    {
      que, consumers, unnotified, pushed, removed := [], map[], 0, [], [];
    }

    /** `push` under the lock. */
    method PushLocked(x: Item)
      requires Conserved(View())
      modifies this
      ensures View() == Apply(old(View()), Append(x)) && Conserved(View())
      ensures que == old(que) + [x] && pushed == old(pushed) + [x]
    {
      hide Conserved;
      ConservedStep(View(), Append(x));
      que := que + [x];
      pushed := pushed + [x];
      unnotified := unnotified + 1;
    }

    /** `push` after releasing the lock. */
    method PushNotify(wake: Option<Id>)
      requires Conserved(View()) && Enabled(View(), Notify(wake))
      modifies this
      ensures View() == Apply(old(View()), Notify(wake)) && Conserved(View())
    {
      hide Conserved;
      ConservedStep(View(), Notify(wake));
      unnotified := unnotified - 1;
      if wake.Some? {
        consumers := consumers[wake.value := Checking(consumers[wake.value].timed, true)];
      }
    }

    /** `pop` or `try_pop` from taking the lock to returning or waiting. */
    method PopLocked(c: Id, expired: bool)
      requires Conserved(View()) && Enabled(View(), Check(c, expired))
      modifies this
      ensures View() == Apply(old(View()), Check(c, expired)) && Conserved(View())
    {
      hide Conserved;
      ConservedStep(View(), Check(c, expired));
      if consumers[c].timed && consumers[c].waited && expired {
        consumers := consumers[c := GaveUp];
      } else if que == [] {
        consumers := consumers[c := Waiting(consumers[c].timed)];
      } else {
        var t := que[0];
        que := que[1..];
        consumers := consumers[c := Got(t)];
        removed := removed + [Popped(c, t)];
      }
    }

    method ClearLocked()
      requires Conserved(View())
      modifies this
      ensures View() == Apply(old(View()), Clear) && Conserved(View()) && que == []
    {
      hide Conserved;
      ConservedStep(View(), Clear);
      ghost var n := 0;
      while que != []
        invariant 0 <= n <= |old(que)| && que == old(que)[n..]
        invariant removed == old(removed) + Wipe(old(que)[..n])
        invariant consumers == old(consumers) && unnotified == old(unnotified) && pushed == old(pushed)
        decreases |que|
      {
        removed := removed + [Cleared(que[0])];
        que := que[1..];
        n := n + 1;
      }
      assert old(que)[..n] == old(que);
    }
  }
}
