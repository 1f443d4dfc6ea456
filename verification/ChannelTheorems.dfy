/** What `UnbufferedChannel` promises its callers, over every run. */
module ChannelTheorems {
  import opened Common
  import opened Channel
  import opened ChannelSafety

  // ----- the borrowed pointer

  /**
   * Whenever a read copies `*item_`, the call that stored the pointer is still inside its own
   * `Write`, it is the only call in the zone, and the copied value is its own argument.
   */
  lemma BorrowedPointerIsLive(states: seq<State>, steps: seq<Step>, k: nat)
    requires IsRun(states, steps) && k < |steps| && steps[k].TryRead?
    requires states[k + 1].delivered != states[k].delivered
    ensures states[k].item.Some?
    ensures forall c :: InZone(states[k], c) <==> c == states[k].item.value
    ensures var s, w := states[k], states[k].item.value;
            states[k + 1].delivered == s.delivered + [Delivery(steps[k].c, w, s.calls[w].value)]
  {
    RunInv(states, steps, k);
    assert InZone(states[k], states[k].item.value);
  }

  /** INVARIANTS 1 and 2 of the two zone flags. */
  lemma ZoneHoldsOneHandshake(states: seq<State>, steps: seq<Step>, k: nat, a: CallId, b: CallId)
    requires IsRun(states, steps) && k < |states|
    ensures InZone(states[k], a) && InZone(states[k], b) ==> a == b
    ensures states[k].writerInZone <==> exists c :: InZone(states[k], c)
    ensures states[k].readerInZone ==> states[k].writerInZone
  {
    RunInv(states, steps, k);
    if states[k].writerInZone { assert InZone(states[k], states[k].item.value); }
  }

  // ----- what was begun

  predicate IsStart(e: Step) { e.StartWrite? || e.StartRead? || e.StartClose? }

  /** The step that begins such a call. */
  function StartOf(c: CallId, call: Call): Step
  {
    match call
    case Write(v, _) => StartWrite(c, v)
    case Read(_) => StartRead(c)
    case Close(_) => StartClose(c)
  }

  lemma CheckKeepsStart(s: State, e: Step)
    requires Enabled(s, e) && IsCheck(e)
    ensures e.c in s.calls && e.c in Apply(s, e).calls
    ensures StartOf(e.c, Apply(s, e).calls[e.c]) == StartOf(e.c, s.calls[e.c])
  {
  }

  lemma StartBegins(s: State, e: Step)
    requires Enabled(s, e)
    ensures IsStart(e) ==> e.c !in s.calls && e.c in Apply(s, e).calls && e == StartOf(e.c, Apply(s, e).calls[e.c])
    ensures forall c :: c in Apply(s, e).calls && c !in s.calls ==> IsStart(e) && c == e.c
  {
  }

  lemma StartStep(s: State, e: Step, c: CallId)
    requires Enabled(s, e)
    ensures c in s.calls ==> c in Apply(s, e).calls && StartOf(c, Apply(s, e).calls[c]) == StartOf(c, s.calls[c])
    ensures c !in s.calls && c in Apply(s, e).calls ==> e == StartOf(c, Apply(s, e).calls[c])
    ensures IsStart(e) ==> e.c !in s.calls && e.c in Apply(s, e).calls
  {
    hide Apply, Enabled;
    StartBegins(s, e);
    if c == e.c && IsCheck(e) { CheckKeepsStart(s, e); } else { CallStep(s, e, c); }
  }

  /** The calls in a state are exactly those begun, each of its kind and with its argument. */
  lemma {:induction false} CallsAreBegun(states: seq<State>, steps: seq<Step>, k: nat, c: CallId)
    requires IsRun(states, steps) && k < |states|
    ensures c in states[k].calls ==> exists i :: 0 <= i < k && steps[i] == StartOf(c, states[k].calls[c])
    ensures forall i :: 0 <= i < k && IsStart(steps[i]) && steps[i].c == c ==>
              c in states[k].calls && steps[i] == StartOf(c, states[k].calls[c])
  {
    hide Apply, Enabled;
    if k == 0 {
    } else {
      CallsAreBegun(states, steps, k - 1, c);
      StartStep(states[k - 1], steps[k - 1], c);
    }
  }

  /** `Write(v)` was called, as call `c`. */
  ghost predicate Called(steps: seq<Step>, k: nat, c: CallId, v: Value)
    requires k <= |steps|
  {
    exists i :: 0 <= i < k && steps[i] == StartWrite(c, v)
  }

  lemma CalledOnce(states: seq<State>, steps: seq<Step>, k: nat, c: CallId, v: Value)
    requires IsRun(states, steps) && k < |states|
    ensures Called(steps, k, c, v) <==> IsWriter(states[k], c) && states[k].calls[c].value == v
  {
    hide Apply, Enabled;
    CallsAreBegun(states, steps, k, c);
  }

  // ----- delivery

  lemma {:induction false} OnlyTakenIsFilter(s: State, cs: seq<CallId>)
    ensures forall c :: c in OnlyTaken(s, cs) <==> c in cs && Taken(s, c)
    ensures (forall i, j :: 0 <= i < j < |cs| ==> cs[i] != cs[j]) ==>
              forall i, j :: 0 <= i < j < |OnlyTaken(s, cs)| ==> OnlyTaken(s, cs)[i] != OnlyTaken(s, cs)[j]
  {
    if cs == [] {
    } else {
      var n := |cs| - 1;
      OnlyTakenIsFilter(s, cs[..n]);
      assert cs == cs[..n] + [cs[n]];
      if forall i, j :: 0 <= i < j < |cs| ==> cs[i] != cs[j] {
        assert cs[n] !in cs[..n];
        assert cs[n] !in OnlyTaken(s, cs[..n]);
      }
    }
  }

  /**
   * Exactly-once, ordered delivery.  The values handed out by successful reads are, in order, the
   * arguments of the completed writes followed by that of a zone writer whose reader has been and
   * gone; equally, they are those of the zone entries, in order, with the timed-out writes removed.
   */
  lemma ExactlyOnceInOrder(states: seq<State>, steps: seq<Step>, k: nat)
    requires IsRun(states, steps) && k < |states|
    ensures var s := states[k];
            && Sources(s.delivered) == s.completed + (if s.readerInZone && s.item.Some? then [s.item.value] else [])
            && Sources(s.delivered) == OnlyTaken(s, s.entered)
            && (forall d :: d in s.delivered ==> Called(steps, k, d.source, d.value))
            && (forall c :: c in s.completed <==> HasWritten(s, c))
    ensures var s := states[k];
            && (forall i, j :: 0 <= i < j < |s.delivered| ==> s.delivered[i].source != s.delivered[j].source)
            && (forall c :: c in s.entered && !Taken(s, c) ==> HasTimedOut(s, c) || (InZone(s, c) && !s.readerInZone))
  {
    hide Apply, Enabled;
    RunInv(states, steps, k);
    var s := states[k];
    OnlyTakenIsFilter(s, s.entered);
    forall d | d in s.delivered ensures Called(steps, k, d.source, d.value) {
      CalledOnce(states, steps, k, d.source, d.value);
    }
    forall i, j | 0 <= i < j < |s.delivered| ensures s.delivered[i].source != s.delivered[j].source {
      assert Sources(s.delivered)[i] != Sources(s.delivered)[j];
    }
    forall c | c in s.entered && !Taken(s, c)
      ensures HasTimedOut(s, c) || (InZone(s, c) && !s.readerInZone)
    {
      assert FateOf(s, c) != Outside;
    }
  }

  /**
   * The reads that returned true are exactly the readers of the deliveries, each once, with that value,
   * which is the argument of a `Write` that has entered the zone and cannot fail any more.
   */
  lemma EveryReadOnce(states: seq<State>, steps: seq<Step>, k: nat)
    requires IsRun(states, steps) && k < |states|
    ensures var s := states[k];
            && (forall c, v :: ReadReturned(s, c, v) <==> exists d :: d in s.delivered && d.reader == c && d.value == v)
            && (forall i, j :: 0 <= i < j < |s.delivered| ==> s.delivered[i].reader != s.delivered[j].reader)
    ensures var s := states[k];
            forall d :: d in s.delivered ==>
              Called(steps, k, d.source, d.value) && d.source in s.entered && Taken(s, d.source)
  {
    hide Apply, Enabled, Taken;
    RunInv(states, steps, k);
    ExactlyOnceInOrder(states, steps, k);
    var s := states[k];
    OnlyTakenIsFilter(s, s.entered);
    forall d | d in s.delivered ensures d.source in s.entered && Taken(s, d.source) {
      SourcesMembers(s.delivered, d.source);
    }
  }

  // ----- outcome of a write against what readers saw

  lemma {:induction false} DeliveriesOnlyGrow(states: seq<State>, steps: seq<Step>, k: nat, j: nat)
    requires IsRun(states, steps) && k <= j < |states|
    ensures states[k].delivered <= states[j].delivered
  {
    hide Apply, Enabled;
    if k == j {
    } else {
      DeliveriesOnlyGrow(states, steps, k, j - 1);
      StepDelivers(states[j - 1], steps[j - 1]);
    }
  }

  lemma StepDelivers(s: State, e: Step)
    requires Enabled(s, e)
    ensures s.delivered <= Apply(s, e).delivered
  {
  }

  /** A write that reports a timeout was never read, neither before nor afterwards. */
  lemma TimedOutWriteIsNeverRead(states: seq<State>, steps: seq<Step>, k: nat, j: nat, c: CallId)
    requires IsRun(states, steps) && k < |states| && j < |states| && HasTimedOut(states[k], c)
    ensures forall d :: d in states[j].delivered ==> d.source != c
  {
    hide Apply, Enabled;
    var m := if k < j then j else k;
    TimeoutIsFinal(states, steps, k, m, c);
    DeliveriesOnlyGrow(states, steps, j, m);
    ExactlyOnceInOrder(states, steps, m);
    var s := states[m];
    OnlyTakenIsFilter(s, s.entered);
    forall i | 0 <= i < |s.delivered| ensures s.delivered[i].source != c {
      assert Sources(s.delivered)[i] == s.delivered[i].source;
      assert Sources(s.delivered)[i] in OnlyTaken(s, s.entered);
    }
  }

  lemma {:induction false} TimeoutIsFinal(states: seq<State>, steps: seq<Step>, k: nat, j: nat, c: CallId)
    requires IsRun(states, steps) && k <= j < |states| && HasTimedOut(states[k], c)
    ensures HasTimedOut(states[j], c)
  {
    if k == j {
    } else {
      TimeoutIsFinal(states, steps, k, j - 1, c);
      var s, e := states[j - 1], steps[j - 1];
      assert FateOf(s, c) == GaveUp;
      if e.c != c || !(e.TryEnter? || e.TryFinish? || e.TryRead?) { OthersKeep(s, e, c); }
    }
  }

  /**
   * A write whose value has been read can only succeed: from then on it is complete, or awake at
   * its handshake check with the check bound to pass, whether or not the channel is closed
   * meanwhile; and its check makes it complete without a crash.
   */
  lemma ReadWriteOnlySucceeds(states: seq<State>, steps: seq<Step>, k: nat, j: nat, d: Delivery)
    requires IsRun(states, steps) && k <= j < |states| && d in states[k].delivered
    ensures HasWritten(states[j], d.source) || (HandshakeChecker(states[j], d.source) && states[j].readerInZone)
    ensures j < |steps| && steps[j].TryFinish? && steps[j].c == d.source ==>
              HasWritten(states[j + 1], d.source) && !states[j + 1].crashed
  {
    DeliveriesOnlyGrow(states, steps, k, j);
    RunInv(states, steps, j);
    var s := states[j];
    assert d in s.delivered;
    var i :| 0 <= i < |s.delivered| && s.delivered[i] == d;
    assert Sources(s.delivered)[i] == d.source;
    OnlyTakenIsFilter(s, s.entered);
    assert Taken(s, d.source);
    if InZone(s, d.source) { assert s.item == Some(d.source); }
  }

  // ----- no lost wakeup

  /** Awake, and bound to act on the zone as soon as it gets the lock. */
  predicate ReadyToAct(s: State, c: CallId)
  {
    || (EntryChecker(s, c) && !s.writerInZone)
    || (ReadChecker(s, c) && s.writerInZone && !s.readerInZone)
    || (HandshakeChecker(s, c) && s.readerInZone)
  }

  /**
   * With a write and a read in flight on an open channel, some call is awake and about to make
   * progress.
   */
  lemma NoLostWakeup(states: seq<State>, steps: seq<Step>, k: nat, w: CallId, r: CallId)
    requires IsRun(states, steps) && k < |states| && !states[k].closed
    requires WriteInFlight(states[k], w) && ReadInFlight(states[k], r)
    ensures exists c :: ReadyToAct(states[k], c) && Awake(states[k], c)
  {
    RunInv(states, steps, k);
    var s := states[k];
    if s.readerInZone {
      assert ReadyToAct(s, s.item.value);
    } else if s.writerInZone {
      assert exists c :: ReadChecker(s, c);
      var c :| ReadChecker(s, c);
      assert ReadyToAct(s, c);
    } else {
      assert !InZone(s, w);
      assert exists c :: EntryChecker(s, c);
      var c :| EntryChecker(s, c);
      assert ReadyToAct(s, c);
    }
  }

  // ----- coming to rest

  /** The checks a call can still cause to be made, by itself or by those it wakes. */
  function Weight(call: Call): nat
  {
    match call
    case Write(_, EntryCheck(_)) => 3
    case Write(_, EntrySleep) => 2
    case Write(_, HandshakeCheck) => 2
    case Write(_, HandshakeSleep) => 1
    case Read(ReadCheck(_)) => 2
    case Read(ReadSleep) => 1
    case _ => 0
  }

  function Weights(calls: map<CallId, Call>): map<CallId, int> { map c | c in calls :: Weight(calls[c]) }

  ghost function Potential(calls: map<CallId, Call>): int { Sum(Weights(calls)) }

  lemma PotentialUpdate(calls: map<CallId, Call>, c: CallId, call: Call)
    requires c in calls
    ensures Potential(calls[c := call]) == Potential(calls) - Weight(calls[c]) + Weight(call)
  {
    SumUpdate(Weights(calls), c, Weight(call));
    assert Weights(calls[c := call]) == Weights(calls)[c := Weight(call)];
  }

  lemma {:induction false} PotentialBound(calls: map<CallId, Call>)
    ensures 0 <= Potential(calls) <= 3 * |calls|
    decreases |calls|
  {
    if calls.Keys == {} {
      assert Weights(calls).Keys == {};
    } else {
      var c := Choose(calls.Keys);
      SumSplit(Weights(calls), c);
      assert Weights(calls) - {c} == Weights(calls - {c}) by { SameMap(Weights(calls) - {c}, Weights(calls - {c})); }
      assert (calls - {c}).Keys == calls.Keys - {c};
      PotentialBound(calls - {c});
    }
  }

  lemma CheckUsesPotential(s: State, e: Step)
    requires ZoneInv(s) && Enabled(s, e) && IsCheck(e) && !Apply(s, e).crashed
    ensures Potential(Apply(s, e).calls) < Potential(s.calls)
  {
    var t := Apply(s, e);
    PotentialUpdate(s.calls, e.c, t.calls[e.c]);
    if t.calls != s.calls[e.c := t.calls[e.c]] {
      WakerUsesPotential(s, e, e.wake.value);
    }
  }

  lemma WakerUsesPotential(s: State, e: Step, w: CallId)
    requires ZoneInv(s) && Enabled(s, e) && IsCheck(e) && !Apply(s, e).crashed
    requires e.wake == Some(w) && Apply(s, e).calls != s.calls[e.c := Apply(s, e).calls[e.c]]
    ensures Potential(Apply(s, e).calls) < Potential(s.calls)
  {
    var t := Apply(s, e);
    var woken := Roused(s.calls[w]);
    assert t.calls == s.calls[w := woken][e.c := t.calls[e.c]];
    assert Weight(woken) == Weight(s.calls[w]) + 1;
    assert Weight(t.calls[e.c]) + 2 <= Weight(s.calls[e.c]);
    PotentialUpdate(s.calls, w, woken);
    PotentialUpdate(s.calls[w := woken], e.c, t.calls[e.c]);
  }

  /**
   * Left alone, the channel comes to rest: a stretch of a run in which calls only re-check their
   * conditions is no longer than the potential of its first state, at most three times the calls.
   */
  lemma {:induction false} ComesToRest(states: seq<State>, steps: seq<Step>, k: nat, j: nat)
    requires IsRun(states, steps) && k <= j < |states| && !states[j].crashed
    requires forall i :: k <= i < j ==> IsCheck(steps[i])
    ensures j - k + Potential(states[j].calls) <= Potential(states[k].calls) <= 3 * |states[k].calls|
  {
    hide Apply, Enabled, Potential;
    PotentialBound(states[k].calls);
    if k == j {
    } else {
      RunCheckUsesPotential(states, steps, j - 1);
      ComesToRest(states, steps, k, j - 1);
    }
  }

  lemma RunCheckUsesPotential(states: seq<State>, steps: seq<Step>, i: nat)
    requires IsRun(states, steps) && i < |steps| && IsCheck(steps[i]) && !states[i + 1].crashed
    ensures !states[i].crashed && Potential(states[i + 1].calls) < Potential(states[i].calls)
  {
    RunInv(states, steps, i);
    CheckUsesPotential(states[i], steps[i]);
  }

  /** And at rest no write waits while a read waits. */
  lemma RestMeansPaired(states: seq<State>, steps: seq<Step>, k: nat)
    requires IsRun(states, steps) && k < |states| && !states[k].closed
    requires forall c :: !Awake(states[k], c)
    ensures (forall c :: !WriteInFlight(states[k], c)) || (forall c :: !ReadInFlight(states[k], c))
  {
    if w, r :| WriteInFlight(states[k], w) && ReadInFlight(states[k], r) {
      NoLostWakeup(states, steps, k, w, r);
    }
  }

  // ----- progress

  lemma SomePick(s: State, cv: Condition) returns (w: Option<CallId>)
    ensures PickOne(s, cv, w)
  {
    if c :| SleepsOn(s, c, cv) {
      w := Some(c);
    } else {
      w := None;
    }
  }

  /** An awake call is never kept from its check. */
  lemma AwakeCanCheck(s: State, c: CallId, junk: Value) returns (e: Step)
    requires !s.crashed && Awake(s, c)
    ensures IsCheck(e) && e.c == c && !e.expired && Enabled(s, e)
  {
    if EntryChecker(s, c) {
      var w := SomePick(s, Readers);
      e := TryEnter(c, false, w);
    } else if HandshakeChecker(s, c) {
      var w := SomePick(s, Writers);
      e := TryFinish(c, false, w);
    } else {
      var w := SomePick(s, Handshake);
      e := TryRead(c, false, w, junk);
    }
  }

  predicate Served(s: State, c: CallId) { IsReader(s, c) && s.calls[c].rp.ReadOk? }

  predicate WriteGoesOn(s: State, c: CallId) { WriteInFlight(s, c) || HasWritten(s, c) }

  predicate ReadGoesOn(s: State, c: CallId) { ReadInFlight(s, c) || Served(s, c) }

  /** A check leaves an open channel open, and no call leaves it empty-handed before its deadline. */
  lemma OpenCheck(s: State, e: Step, c: CallId)
    requires !s.closed && Enabled(s, e) && IsCheck(e)
    ensures !Apply(s, e).closed && !Apply(s, e).crashed
    ensures !e.expired && WriteGoesOn(s, c) ==> WriteGoesOn(Apply(s, e), c)
    ensures !e.expired && ReadGoesOn(s, c) ==> ReadGoesOn(Apply(s, e), c)
  {
    if c != e.c { CallStep(s, e, c); }
  }

  /** From step `k` to step `j` calls only check, and no deadline has passed. */
  ghost predicate InTime(steps: seq<Step>, k: nat, j: nat)
    requires k <= j <= |steps|
  {
    forall i :: k <= i < j ==> IsCheck(steps[i]) && !steps[i].expired
  }

  lemma {:induction false} OpenStretch(states: seq<State>, steps: seq<Step>, k: nat, j: nat, c: CallId)
    requires IsRun(states, steps) && k <= j < |states| && !states[k].closed && !states[k].crashed
    requires forall i :: k <= i < j ==> IsCheck(steps[i])
    ensures !states[j].closed && !states[j].crashed
    ensures InTime(steps, k, j) && WriteGoesOn(states[k], c) ==> WriteGoesOn(states[j], c)
    ensures InTime(steps, k, j) && ReadGoesOn(states[k], c) ==> ReadGoesOn(states[j], c)
  {
    hide Apply, Enabled, WriteGoesOn, ReadGoesOn;
    if k == j {
    } else {
      OpenStretch(states, steps, k, j - 1, c);
      OpenCheck(states[j - 1], steps[j - 1], c);
    }
  }

  ghost predicate AtRest(s: State) { forall c :: !Awake(s, c) }

  /**
   * Progress on an open channel: however its calls are scheduled, a stretch of checks is bounded by
   * three times the calls, is never stuck before all are at rest, and at rest writes and reads are
   * paired off: none of one kind is left.
   */
  lemma ChecksComeToRest(states: seq<State>, steps: seq<Step>, k: nat, j: nat, junk: Value)
    requires IsRun(states, steps) && k <= j < |states| && !states[k].closed && !states[k].crashed
    requires forall i :: k <= i < j ==> IsCheck(steps[i])
    ensures j - k <= 3 * |states[k].calls|
    ensures AtRest(states[j]) || exists e :: IsCheck(e) && Enabled(states[j], e)
    ensures AtRest(states[j]) ==>
              (forall c :: !WriteInFlight(states[j], c)) || (forall c :: !ReadInFlight(states[j], c))
  {
    hide Apply, Enabled, Potential, Awake, WriteInFlight, ReadInFlight;
    OpenStretch(states, steps, k, j, 0);
    ComesToRest(states, steps, k, j);
    PotentialBound(states[j].calls);
    if c :| Awake(states[j], c) {
      var e := AwakeCanCheck(states[j], c, junk);
    } else {
      RestMeansPaired(states, steps, j);
    }
  }

  /**
   * The rendezvous: if no deadline passes before the calls are at rest, then all writes that were in
   * flight have succeeded or all reads that were in flight have returned a value.
   */
  lemma RendezvousCompletes(states: seq<State>, steps: seq<Step>, k: nat, j: nat)
    requires IsRun(states, steps) && k <= j < |states| && !states[k].closed && !states[k].crashed
    requires InTime(steps, k, j) && AtRest(states[j])
    ensures || (forall c :: WriteInFlight(states[k], c) ==> HasWritten(states[j], c))
            || (forall c :: ReadInFlight(states[k], c) ==> Served(states[j], c))
  {
    hide Apply, Enabled, WriteInFlight, ReadInFlight, Awake, Served, HasWritten;
    forall c
      ensures !states[j].closed && (WriteInFlight(states[k], c) ==> WriteGoesOn(states[j], c))
      ensures ReadInFlight(states[k], c) ==> ReadGoesOn(states[j], c)
    {
      OpenStretch(states, steps, k, j, c);
    }
    OpenStretch(states, steps, k, j, 0);
    RestMeansPaired(states, steps, j);
  }

  // ----- closing

  lemma ClosedStep(s: State, e: Step)
    requires s.closed && Enabled(s, e)
    ensures Apply(s, e).closed && Apply(s, e).delivered == s.delivered
    ensures forall c :: Asleep(Apply(s, e), c) ==> Asleep(s, c)
  {
    forall c | Asleep(Apply(s, e), c) ensures Asleep(s, c) {
      var cv :| SleepsOn(Apply(s, e), c, cv);
      SleeperOrigin(s, e, c, cv);
    }
  }

  /**
   * Once closed, the channel stays closed, no read returns a value any more and nobody goes to
   * sleep who was not already asleep.
   */
  lemma {:induction false} ClosedChannelDrains(states: seq<State>, steps: seq<Step>, k: nat, j: nat)
    requires IsRun(states, steps) && k <= j < |states| && states[k].closed
    ensures states[j].closed && states[j].delivered == states[k].delivered
    ensures forall c :: Asleep(states[j], c) ==> Asleep(states[k], c)
  {
    hide Apply, Enabled, Asleep;
    if k == j {
    } else {
      ClosedChannelDrains(states, steps, k, j - 1);
      ClosedStep(states[j - 1], steps[j - 1]);
    }
  }

  /** After the three notifications of `Close`, nobody is asleep on any condition variable, ever again. */
  lemma CloseLeavesNoSleeper(states: seq<State>, steps: seq<Step>, k: nat, j: nat, closer: CallId)
    requires IsRun(states, steps) && k <= j < |states| && CloseAt(states[k], closer, CloseDone)
    ensures forall c :: !Asleep(states[j], c)
  {
    RunInv(states, steps, k);
    assert Closing(states[k], closer);
    ClosedChannelDrains(states, steps, k, j);
    assert forall cv :: Notified(states[k].calls[closer].cp, cv);
  }

  /** The value of this write is in the zone and not yet read. */
  predicate Unread(s: State, c: CallId) { InZone(s, c) && !s.readerInZone }

  predicate EverDelivered(s: State, c: CallId) { exists d :: d in s.delivered && d.source == c }

  /** A value that has entered the zone has been read, has timed out or is there unread. */
  lemma EnteredFate(states: seq<State>, steps: seq<Step>, k: nat, c: CallId)
    requires IsRun(states, steps) && k < |states| && c in states[k].entered
    ensures EverDelivered(states[k], c) <==> !HasTimedOut(states[k], c) && !Unread(states[k], c)
  {
    ExactlyOnceInOrder(states, steps, k);
    var s := states[k];
    OnlyTakenIsFilter(s, s.entered);
    assert EverDelivered(s, c) <==> c in Sources(s.delivered) by { SourcesMembers(s.delivered, c); }
  }

  lemma SourcesMembers(ds: seq<Delivery>, c: CallId)
    ensures c in Sources(ds) <==> exists d :: d in ds && d.source == c
  {
    if d :| d in ds && d.source == c {
      var i :| 0 <= i < |ds| && ds[i] == d;
      assert Sources(ds)[i] == c;
    }
    if c in Sources(ds) {
      var i :| 0 <= i < |ds| && Sources(ds)[i] == c;
      assert ds[i] in ds;
    }
  }

  /**
   * Exactly when a written value survives closing.  When `Close` takes the lock, all that was written
   * and has not timed out gets read, then or later, if and only if the zone holds no unread value.
   */
  lemma WrittenSurvivesCloseIff(states: seq<State>, steps: seq<Step>, k: nat, j: nat)
    requires IsRun(states, steps) && k < j < |states| && steps[k].LockClose? && !states[k].closed
    ensures (forall c :: c in states[k].entered && !HasTimedOut(states[k], c) ==> EverDelivered(states[j], c)) <==>
              !(states[k].writerInZone && !states[k].readerInZone)
  {
    hide Apply, Enabled;
    var s := states[k];
    LockClosesOnly(s, steps[k]);
    ClosedChannelDrains(states, steps, k + 1, j);
    RunInv(states, steps, k);
    forall c | c in s.entered ensures EverDelivered(states[j], c) <==> !HasTimedOut(s, c) && !Unread(s, c) {
      EnteredFate(states, steps, k, c);
    }
    if s.writerInZone && !s.readerInZone {
      var z := s.item.value;
      assert Unread(s, z) && FateOf(s, z) == Zone && z in s.entered;
    }
  }

  lemma LockClosesOnly(s: State, e: Step)
    requires Enabled(s, e) && e.LockClose? && !s.closed
    ensures Apply(s, e).closed && Apply(s, e).delivered == s.delivered
  {
  }

  ghost predicate Reachable(s: State)
  {
    exists states, steps :: IsRun(states, steps) && states[|steps|] == s
  }

  lemma ReachOn(s: State, e: Step)
    requires Reachable(s) && Enabled(s, e)
    ensures Reachable(Apply(s, e))
  {
    hide Apply, Enabled;
    var states, steps :| IsRun(states, steps) && states[|steps|] == s;
    var states', steps' := states + [Apply(s, e)], steps + [e];
    assert IsRun(states', steps') && states'[|steps'|] == Apply(s, e);
  }

  lemma StartReachable()
    ensures Reachable(INIT)
  {
    assert IsRun([INIT], []);
  }

  /** A run can leave a value unread in the zone. */
  lemma WriteWaits(v: Value) returns (s: State)
    ensures Reachable(s)
    ensures s == State(false, true, false, Some(1), map[1 := Write(v, HandshakeSleep)], [1], [], [], false)
  {
    hide Reachable;
    StartReachable();
    s := Apply(INIT, StartWrite(1, v));
    ReachOn(INIT, StartWrite(1, v));
    ReachOn(s, TryEnter(1, false, None));
    s := Apply(s, TryEnter(1, false, None));
  }

  lemma CloseAfter(s: State, c: CallId) returns (t: State)
    requires Reachable(s) && c !in s.calls && !s.crashed && !s.closed
    ensures Reachable(t) && t == s.(closed := true, calls := s.calls[c := Close(TellWriters)])
  {
    hide Reachable;
    ReachOn(s, StartClose(c));
    t := Apply(s, StartClose(c));
    ReachOn(t, LockClose(c));
    t := Apply(t, LockClose(c));
  }

  lemma ReadAfterClose(s: State, c: CallId, w: CallId, v: Value) returns (t: State)
    requires Reachable(s) && c !in s.calls && !s.crashed && s.closed && SleepsOn(s, w, Handshake)
    ensures Reachable(t) && t == s.(calls := s.calls[c := Read(ReadClosed)])
  {
    hide Reachable;
    ReachOn(s, StartRead(c));
    t := Apply(s, StartRead(c));
    ReachOn(t, TryRead(c, false, Some(w), v));
    t := Apply(t, TryRead(c, false, Some(w), v));
  }

  /**
   * A value can be lost to closing: it is in the zone, neither read nor timed out, and a read that
   * comes after the closing returns without it.
   */
  lemma CloseCanLoseValue(v: Value) returns (s: State)
    ensures Reachable(s) && s.closed && s.entered == [1] && IsWriter(s, 1) && s.calls[1].value == v
    ensures 3 in s.calls && s.calls[3] == Read(ReadClosed)
    ensures !EverDelivered(s, 1) && !HasTimedOut(s, 1)
  {
    hide Reachable;
    s := WriteWaits(v);
    s := CloseAfter(s, 2);
    s := ReadAfterClose(s, 3, 1, v);
  }

  // ----- timeouts and crashes

  predicate ReportsTimeout(s: State, c: CallId)
  {
    HasTimedOut(s, c) || (IsReader(s, c) && s.calls[c].rp.ReadTimedOut?)
  }

  /** The condition that the call making the check waits for. */
  predicate ConditionHolds(s: State, e: Step)
    requires IsCheck(e)
  {
    match e
    case TryEnter(_, _, _) => MayEnter(s)
    case TryFinish(_, _, _) => MayFinish(s)
    case TryRead(_, _, _, _) => MayRead(s)
  }

  /** The call is not at the first check of its wait. */
  predicate HasWaited(s: State, c: CallId)
  {
    || HandshakeChecker(s, c)
    || (EntryChecker(s, c) && s.calls[c].wp.waited)
    || (ReadChecker(s, c) && s.calls[c].rp.waited)
  }

  ghost predicate Slept(states: seq<State>, k: nat, c: CallId)
    requires k <= |states|
  {
    exists j :: 0 <= j < k && Asleep(states[j], c)
  }

  /** How a step changes whether a call has begun, waits or has waited. */
  lemma WaitStep(s: State, e: Step, c: CallId)
    requires ZoneInv(s) && Enabled(s, e) && !Asleep(s, c)
    ensures c !in Apply(s, e).calls ==> c !in s.calls
    ensures Awake(Apply(s, e), c) ==> c !in s.calls || Awake(s, c)
    ensures Awake(Apply(s, e), c) ==> (HasWaited(Apply(s, e), c) <==> c in s.calls && HasWaited(s, c))
  {
    if c == e.c && IsCheck(e) {
      CheckerSettles(s, e);
    } else {
      hide Apply;
      CallStep(s, e, c);
    }
  }

  /** A check is the last one for now: the call sleeps, has returned or the process is dead. */
  lemma CheckerSettles(s: State, e: Step)
    requires ZoneInv(s) && Enabled(s, e) && IsCheck(e)
    ensures e.c in Apply(s, e).calls && Awake(s, e.c)
    ensures Awake(Apply(s, e), e.c) ==> Apply(s, e).calls == s.calls
  {
  }

  lemma WakeStepWaited(s: State, e: Step, c: CallId)
    requires Enabled(s, e) && Asleep(s, c)
    ensures c in Apply(s, e).calls && (Awake(Apply(s, e), c) ==> HasWaited(Apply(s, e), c))
  {
    hide Apply;
    CallStep(s, e, c);
  }

  /** A call at a check has been asleep exactly when it is not at the first one. */
  lemma {:induction false} WaitedMeansSlept(states: seq<State>, steps: seq<Step>, k: nat, c: CallId)
    requires IsRun(states, steps) && k < |states|
    ensures c !in states[k].calls ==> !Slept(states, k, c)
    ensures Awake(states[k], c) ==> (HasWaited(states[k], c) <==> Slept(states, k, c))
  {
    hide Apply, Enabled, Asleep, Awake, HasWaited, ZoneInv;
    if k == 0 {
      assert !Awake(INIT, c) by { NobodyAtFirst(c); }
    } else {
      RunInv(states, steps, k - 1);
      WaitedMeansSlept(states, steps, k - 1, c);
      if Asleep(states[k - 1], c) {
        WakeStepWaited(states[k - 1], steps[k - 1], c);
      } else {
        WaitStep(states[k - 1], steps[k - 1], c);
      }
    }
  }

  lemma NobodyAtFirst(c: CallId)
    ensures !Awake(INIT, c) && !ReportsTimeout(INIT, c)
  {
  }

  /** What a check does that finds its condition false. */
  lemma FailedCheck(s: State, e: Step)
    requires Enabled(s, e) && IsCheck(e) && !ConditionHolds(s, e)
    ensures if e.expired && HasWaited(s, e.c) then ReportsTimeout(Apply(s, e), e.c) else Asleep(Apply(s, e), e.c)
  {
  }

  lemma PassedCheck(s: State, e: Step)
    requires Enabled(s, e) && IsCheck(e) && ConditionHolds(s, e)
    ensures !ReportsTimeout(Apply(s, e), e.c)
  {
  }

  lemma TimeoutStep(s: State, e: Step, c: CallId)
    requires Enabled(s, e)
    ensures ReportsTimeout(Apply(s, e), c) <==>
              ReportsTimeout(s, c) || (IsCheck(e) && c == e.c && !ConditionHolds(s, e) && e.expired && HasWaited(s, c))
    ensures IsCheck(e) ==> Awake(s, e.c)
    ensures IsCheck(e) && !ConditionHolds(s, e) && !(e.expired && HasWaited(s, e.c)) ==> Asleep(Apply(s, e), e.c)
  {
    hide Apply, ConditionHolds;
    if IsCheck(e) {
      if ConditionHolds(s, e) { PassedCheck(s, e); } else { FailedCheck(s, e); }
    }
    if c != e.c || !IsCheck(e) { CallStep(s, e, c); }
  }

  /** At step `i` the call `c` checks, having slept, with its deadline passed and its condition false. */
  ghost predicate ExpiresAt(states: seq<State>, steps: seq<Step>, i: nat, c: CallId)
    requires i < |steps| && |steps| < |states|
  {
    && IsCheck(steps[i]) && steps[i].c == c && steps[i].expired
    && !ConditionHolds(states[i], steps[i]) && Slept(states, i, c)
  }

  lemma ExpiresIff(states: seq<State>, steps: seq<Step>, i: nat, c: CallId)
    requires IsRun(states, steps) && i < |steps|
    ensures ExpiresAt(states, steps, i, c) <==>
              && IsCheck(steps[i]) && c == steps[i].c && !ConditionHolds(states[i], steps[i])
              && steps[i].expired && HasWaited(states[i], c)
  {
    hide Apply, ReportsTimeout, HasWaited, Slept, ConditionHolds, Awake;
    TimeoutStep(states[i], steps[i], c);
    WaitedMeansSlept(states, steps, i, c);
  }

  /**
   * A call has reported a timeout exactly when it once checked its condition after having slept, with
   * the deadline passed and the condition false; no other course of events makes or unmakes one.
   */
  lemma {:induction false} TimeoutExactly(states: seq<State>, steps: seq<Step>, k: nat, c: CallId)
    requires IsRun(states, steps) && k < |states|
    ensures ReportsTimeout(states[k], c) <==> exists i :: 0 <= i < k && ExpiresAt(states, steps, i, c)
  {
    hide Apply, Enabled, ReportsTimeout, HasWaited, ConditionHolds, ExpiresAt;
    if k == 0 {
      NobodyAtFirst(c);
    } else {
      TimeoutExactly(states, steps, k - 1, c);
      TimeoutStep(states[k - 1], steps[k - 1], c);
      ExpiresIff(states, steps, k - 1, c);
    }
  }

  /** Short of that, a check that finds its condition false goes to sleep. */
  lemma FalseConditionSleeps(states: seq<State>, steps: seq<Step>, k: nat)
    requires IsRun(states, steps) && k < |steps| && IsCheck(steps[k]) && !ConditionHolds(states[k], steps[k])
    ensures ExpiresAt(states, steps, k, steps[k].c) || Asleep(states[k + 1], steps[k].c)
  {
    hide Apply, HasWaited, Slept, ConditionHolds, Asleep, ExpiresAt;
    ExpiresIff(states, steps, k, steps[k].c);
    TimeoutStep(states[k], steps[k], steps[k].c);
  }

  lemma CrashStep(s: State, e: Step)
    requires Enabled(s, e)
    ensures Apply(s, e).crashed <==> s.closed && (e.LockClose? || e.TryEnter? || (e.TryFinish? && !s.readerInZone))
  {
  }

  lemma ReadIffDelivered(s: State, c: CallId)
    requires ZoneInv(s) && DeliveryInv(s) && InZone(s, c)
    ensures s.readerInZone <==> exists d :: d in s.delivered && d.source == c
  {
    if s.readerInZone {
      assert Sources(s.delivered)[|s.completed|] == c;
      assert s.delivered[|s.completed|] in s.delivered;
    } else {
      forall i | 0 <= i < |s.delivered| ensures s.delivered[i].source != c {
        assert s.completed[i] == Sources(s.delivered)[i] && s.completed[i] in s.completed;
      }
    }
  }

  /**
   * The process dies in exactly the documented ways: closing a closed channel, starting to write on
   * one, or being in the zone of one without the value ever having been read.
   */
  lemma CrashExactly(states: seq<State>, steps: seq<Step>, k: nat)
    requires IsRun(states, steps) && k < |steps|
    ensures states[k + 1].crashed <==>
              && states[k].closed
              && (steps[k].LockClose? || steps[k].TryEnter?
                  || (steps[k].TryFinish? && !exists d :: d in states[k].delivered && d.source == steps[k].c))
  {
    hide Apply, ZoneInv, DeliveryInv, WakeInv, CloseInv, ReaderInv, EntryLog;
    RunInv(states, steps, k);
    CrashStep(states[k], steps[k]);
    if steps[k].TryFinish? { ReadIffDelivered(states[k], steps[k].c); }
  }
}
