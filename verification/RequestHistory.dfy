/**
 * What the steps of handlers and service bring about: every request made is accounted for, requests
 * are received and acknowledged in the order sent, and the service never stops serving.
 */
module RequestHistory {
  import opened Common
  import opened RequestService

  // ----- every request is accounted for

  ghost predicate Accounted(s: State)
  {
    forall r :: r in s.handlers ==> (exists fd :: IsWriteEnd(s, fd, r)) || Some(WriteEnd(r)) in s.closes
  }

  lemma AccountedStep(s: State, e: Step)
    requires Inv(s) && Accounted(s) && Enabled(s, e)
    ensures Accounted(Apply(s, e))
  {
    var t := Apply(s, e);
    forall r | r in t.handlers ensures (exists fd :: IsWriteEnd(t, fd, r)) || Some(WriteEnd(r)) in t.closes {
      if e.Create? && e.r == r {
        assert IsWriteEnd(t, e.fd, r);
      } else if fd :| IsWriteEnd(s, fd, r) {
        StillThere(s, e, r, fd);
      } else {
        assert Some(WriteEnd(r)) in s.closes;
        ClosesGrow(s, e);
      }
    }
  }

  lemma ClosesGrow(s: State, e: Step)
    requires Enabled(s, e)
    ensures s.closes <= Apply(s, e).closes && (!e.Create? ==> Apply(s, e).handlers.Keys == s.handlers.Keys)
  {
  }

  /** An open write end stays open until it is closed on purpose. */
  lemma StillThere(s: State, e: Step, r: Request, fd: Fd)
    requires Inv(s) && Enabled(s, e) && IsWriteEnd(s, fd, r)
    ensures IsWriteEnd(Apply(s, e), fd, r) || Some(WriteEnd(r)) in Apply(s, e).closes
  {
    var t := Apply(s, e);
    if t.closes != s.closes { assert t.closes[|s.closes|] in t.closes; }
  }

  /** The requests are those created, and each is held open by somebody or has been closed. */
  lemma {:induction false} RequestsAreAccounted(states: seq<State>, steps: seq<Step>, k: nat, r: Request)
    requires IsRun(states, steps) && k < |states|
    ensures r in states[k].handlers <==> exists i :: 0 <= i < k && steps[i].Create? && steps[i].r == r
    ensures Accounted(states[k])
  {
    hide Apply, Enabled, Accounted;
    if k == 0 {
      assert Accounted(INIT) by { NothingToAccount(); }
    } else {
      RequestsAreAccounted(states, steps, k - 1, r);
      RunInv(states, steps, k - 1);
      AccountedStep(states[k - 1], steps[k - 1]);
      HandlersStep(states[k - 1], steps[k - 1], r);
    }
  }

  lemma NothingToAccount()
    ensures Accounted(INIT)
  {
  }

  lemma HandlersStep(s: State, e: Step, r: Request)
    requires Enabled(s, e)
    ensures r in Apply(s, e).handlers <==> r in s.handlers || (e.Create? && e.r == r)
  {
  }

  // ----- requests in order

  /** The requests sent to the service, in order. */
  function Sent(steps: seq<Step>): seq<Request>
  {
    if steps == [] then []
    else
      var last := steps[|steps| - 1];
      Sent(steps[..|steps| - 1]) + (if last.Send? && last.ok then [last.r] else [])
  }

  /** The request whose write end `fd` is. */
  function RequestOf(s: State, fd: Fd): Request { if fd in s.open && s.open[fd].WriteEnd? then s.open[fd].r else 0 }

  function Queued(s: State): seq<Request>
  {
    seq(|s.queue|, i requires 0 <= i < |s.queue| => RequestOf(s, s.queue[i]))
  }

  /** What the service has at hand: the request it serves, until it has closed its end. */
  function InHand(s: State): seq<Request>
  {
    if s.service.Serving? && s.service.deferred != [] then [RequestOf(s, s.service.fd)] else []
  }

  /** The request that the step acknowledges, if it does. */
  function Acks(s: State, e: Step): seq<Request>
  {
    if e.RunDeferred? && s.service.Serving? && |s.service.deferred| == 1 then [RequestOf(s, s.service.fd)] else []
  }

  /** The requests acknowledged by the service in the first `k` steps, in order. */
  function Acked(states: seq<State>, steps: seq<Step>, k: nat): seq<Request>
    requires k <= |steps| && k <= |states|
  {
    if k == 0 then [] else Acked(states, steps, k - 1) + Acks(states[k - 1], steps[k - 1])
  }

  lemma OwnersStay(s: State, e: Step, fd: Fd)
    requires Inv(s) && Enabled(s, e) && (HeldByQueue(s, fd) || HeldByService(s, fd))
    requires e.RunDeferred? && s.service.deferred == [CloseAck] ==> fd != s.service.fd
    ensures RequestOf(Apply(s, e), fd) == RequestOf(s, fd)
  {
    if e.Send? { assert HeldByHandler(s, e.r, s.handlers[e.r].fd); }
  }

  lemma QueueStep(s: State, e: Step)
    requires Inv(s) && Enabled(s, e) && !e.Send? && !e.Receive?
    ensures Queued(Apply(s, e)) == Queued(s)
  {
    var t := Apply(s, e);
    assert t.queue == s.queue;
    forall i | 0 <= i < |s.queue| ensures RequestOf(t, s.queue[i]) == RequestOf(s, s.queue[i]) {
      assert HeldByQueue(s, s.queue[i]);
      if e.RunDeferred? && s.service.deferred == [CloseAck] { assert HeldByService(s, s.service.fd); }
      OwnersStay(s, e, s.queue[i]);
    }
  }

  lemma SendQueues(s: State, e: Step)
    requires Inv(s) && Enabled(s, e) && e.Send?
    ensures Queued(Apply(s, e)) == Queued(s) + (if e.ok then [e.r] else []) && InHand(Apply(s, e)) == InHand(s)
  {
    var t := Apply(s, e);
    forall i | 0 <= i < |s.queue| ensures RequestOf(t, s.queue[i]) == RequestOf(s, s.queue[i]) {
      assert HeldByQueue(s, s.queue[i]);
      OwnersStay(s, e, s.queue[i]);
    }
    assert HeldByHandler(s, e.r, s.handlers[e.r].fd) && IsWriteEnd(s, s.handlers[e.r].fd, e.r);
    if InHand(s) != [] {
      assert HeldByService(s, s.service.fd);
      OwnersStay(s, e, s.service.fd);
    }
  }

  lemma ReceiveTakes(s: State)
    requires Inv(s) && Enabled(s, Receive)
    ensures Queued(s) == InHand(Apply(s, Receive)) + Queued(Apply(s, Receive)) && InHand(s) == []
  {
    var t := Apply(s, Receive);
    assert Queued(t) == Queued(s)[1..];
  }

  lemma HandStep(s: State, e: Step)
    requires Inv(s) && Enabled(s, e) && !e.Send? && !e.Receive?
    ensures InHand(s) == Acks(s, e) + InHand(Apply(s, e))
  {
    if InHand(s) != [] {
      assert HeldByService(s, s.service.fd);
      if Acks(s, e) == [] { OwnersStay(s, e, s.service.fd); }
    }
  }

  lemma OrderStep(s: State, e: Step)
    requires Inv(s) && Enabled(s, e)
    ensures InHand(s) + Queued(s) + (if e.Send? && e.ok then [e.r] else []) ==
            Acks(s, e) + InHand(Apply(s, e)) + Queued(Apply(s, e))
  {
    hide Apply, Enabled, Inv, Queued, InHand;
    if e.Send? {
      SendQueues(s, e);
    } else if e.Receive? {
      ReceiveTakes(s);
    } else {
      QueueStep(s, e);
      HandStep(s, e);
    }
  }

  /**
   * Requests are served in the order sent: those acknowledged, the one in hand and those in the pipe
   * are, one after the other, those that were sent.
   */
  lemma {:induction false} ServedInOrder(states: seq<State>, steps: seq<Step>, k: nat)
    requires IsRun(states, steps) && k < |states|
    ensures Sent(steps[..k]) == Acked(states, steps, k) + InHand(states[k]) + Queued(states[k])
  {
    hide Apply, Enabled, Inv, Queued, InHand, Acks;
    if k == 0 {
      assert InHand(INIT) == [] && Queued(INIT) == [] by { NothingQueued(); }
    } else {
      var s, t, e := states[k - 1], states[k], steps[k - 1];
      ServedInOrder(states, steps, k - 1);
      RunInv(states, steps, k - 1);
      OrderStep(s, e);
      assert steps[..k][..k - 1] == steps[..k - 1];
      var done, next := Acked(states, steps, k - 1), if e.Send? && e.ok then [e.r] else [];
      assert done + InHand(s) + Queued(s) + next == done + (InHand(s) + Queued(s) + next);
      assert done + (Acks(s, e) + InHand(t) + Queued(t)) == done + Acks(s, e) + InHand(t) + Queued(t);
    }
  }

  lemma NothingQueued()
    ensures InHand(INIT) == [] && Queued(INIT) == []
  {
  }

  lemma AckCloses(s: State, e: Step, r: Request)
    requires Inv(s) && Enabled(s, e) && r in Acks(s, e)
    ensures Some(WriteEnd(r)) in Apply(s, e).closes && LinesFor(Apply(s, e).flushed, s.served) == s.dumped
  {
    assert HeldByService(s, s.service.fd);
    var t := Apply(s, e);
    assert t.closes[|s.closes|] == Some(WriteEnd(r));
  }

  /** A request is acknowledged by closing its write end. */
  lemma {:induction false} AckedMeansClosed(states: seq<State>, steps: seq<Step>, k: nat, r: Request)
    requires IsRun(states, steps) && k < |states| && r in Acked(states, steps, k)
    ensures Some(WriteEnd(r)) in states[k].closes
  {
    hide Apply, Enabled, Inv, Acks;
    if k == 0 {
    } else {
      RunInv(states, steps, k - 1);
      ClosesGrow(states[k - 1], steps[k - 1]);
      if r in Acked(states, steps, k - 1) {
        AckedMeansClosed(states, steps, k - 1, r);
      } else {
        AckCloses(states[k - 1], steps[k - 1], r);
      }
    }
  }

  // ----- the service goes on

  predicate IsServiceStep(e: Step) { e.Receive? || e.LeaveScope? || e.RunDeferred? }

  /** The steps the service has still to make: five for each request in the pipe. */
  function ServiceWork(s: State): nat
  {
    5 * |s.queue| +
    match s.service
    case Reading => 0
    case Serving(_, deferred, leaving) => |deferred| + (if leaving then 1 else 2)
  }

  function ServiceSteps(steps: seq<Step>): nat
  {
    if steps == [] then 0
    else ServiceSteps(steps[..|steps| - 1]) + (if IsServiceStep(steps[|steps| - 1]) then 1 else 0)
  }

  lemma ServiceWorks(s: State, e: Step)
    requires Inv(s) && Enabled(s, e)
    ensures ServiceWork(Apply(s, e)) + (if IsServiceStep(e) then 1 else 0) ==
            ServiceWork(s) + (if e.Send? && e.ok then 5 else 0)
  {
  }

  lemma {:induction false} ServiceAccount(states: seq<State>, steps: seq<Step>, k: nat)
    requires IsRun(states, steps) && k < |states|
    ensures ServiceSteps(steps[..k]) + ServiceWork(states[k]) == 5 * |Sent(steps[..k])|
  {
    hide Apply, Enabled, Inv, ServiceWork;
    if k == 0 {
      assert ServiceWork(INIT) == 0 by { NothingToDo(); }
    } else {
      ServiceAccount(states, steps, k - 1);
      RunInv(states, steps, k - 1);
      ServiceWorks(states[k - 1], steps[k - 1]);
      assert steps[..k][..k - 1] == steps[..k - 1];
    }
  }

  lemma NothingToDo()
    ensures ServiceWork(INIT) == 0
  {
  }

  lemma ServiceGoesOn(s: State)
    requires ServiceWork(s) > 0
    ensures exists e :: IsServiceStep(e) && Enabled(s, e)
  {
    match s.service
    case Reading => assert Enabled(s, Receive);
    case Serving(_, _, leaving) =>
      if leaving { assert Enabled(s, RunDeferred); } else { assert Enabled(s, LeaveScope); }
  }

  /**
   * Every request sent is served: as long as one is left the service can go on, it makes exactly five
   * steps for each, and when none is left all that were sent have been acknowledged, in that order.
   */
  lemma EveryRequestIsServed(states: seq<State>, steps: seq<Step>, k: nat)
    requires IsRun(states, steps) && k < |states|
    ensures ServiceSteps(steps[..k]) <= 5 * |Sent(steps[..k])|
    ensures ServiceSteps(steps[..k]) == 5 * |Sent(steps[..k])| ==>
              states[k].service.Reading? && Acked(states, steps, k) == Sent(steps[..k])
    ensures ServiceSteps(steps[..k]) < 5 * |Sent(steps[..k])| ==>
              exists e :: IsServiceStep(e) && Enabled(states[k], e)
  {
    hide Apply, Enabled;
    ServiceAccount(states, steps, k);
    ServedInOrder(states, steps, k);
    if ServiceWork(states[k]) > 0 { ServiceGoesOn(states[k]); }
  }

  /** Leaving the scope of a request: flush, then close, then back to reading, in exactly four steps. */
  lemma LeavingScope(s: State)
    requires Inv(s) && s.service.Serving? && !s.service.leaving
    ensures var t := s.(service := s.service.(leaving := true));
            && Enabled(s, LeaveScope) && Apply(s, LeaveScope) == t
            && Enabled(t, RunDeferred) && Enabled(Apply(t, RunDeferred), RunDeferred)
            && Enabled(Apply(Apply(t, RunDeferred), RunDeferred), RunDeferred)
            && Apply(Apply(Apply(t, RunDeferred), RunDeferred), RunDeferred) ==
               s.(service := Reading, flushed := s.flushed + s.buffered, buffered := [],
                  open := s.open - {s.service.fd},
                  closes := s.closes + [Some(WriteEnd(RequestOf(s, s.service.fd)))])
  {
    assert HeldByService(s, s.service.fd);
    var t := Apply(s, LeaveScope);
    assert t.service.deferred[..1] == [CloseAck];
    var u := Apply(t, RunDeferred);
    assert u.service.deferred[..0] == [];
  }

  // ----- what is printed

  /** What a step prints; lines of the service carry the number of the request. */
  function Prints(s: State, e: Step): seq<Line>
  {
    match e
    case PrintDump(text) => [Dump(s.served, text)]
    case OtherPrints(text) => [Noise(text)]
    case _ => []
  }

  function AllPrinted(states: seq<State>, steps: seq<Step>, k: nat): seq<Line>
    requires k <= |steps| && k <= |states|
  {
    if k == 0 then [] else AllPrinted(states, steps, k - 1) + Prints(states[k - 1], steps[k - 1])
  }

  function Receives(steps: seq<Step>): nat
  {
    if steps == [] then 0 else Receives(steps[..|steps| - 1]) + (if steps[|steps| - 1].Receive? then 1 else 0)
  }

  lemma PrintsStep(s: State, e: Step)
    requires Inv(s) && Enabled(s, e)
    ensures Apply(s, e).flushed + Apply(s, e).buffered == s.flushed + s.buffered + Prints(s, e)
    ensures s.flushed <= Apply(s, e).flushed
    ensures Apply(s, e).served == s.served + (if e.Receive? then 1 else 0)
  {
  }

  /** Nothing printed is lost, doubled or reordered on its way through the buffer. */
  lemma {:induction false} PrintedIsKept(states: seq<State>, steps: seq<Step>, k: nat)
    requires IsRun(states, steps) && k < |states|
    ensures states[k].flushed + states[k].buffered == AllPrinted(states, steps, k)
    ensures states[k].served == Receives(steps[..k])
  {
    hide Apply, Enabled, Inv, Prints;
    if k == 0 {
    } else {
      PrintedIsKept(states, steps, k - 1);
      RunInv(states, steps, k - 1);
      PrintsStep(states[k - 1], steps[k - 1]);
      assert steps[..k][..k - 1] == steps[..k - 1];
    }
  }
}
