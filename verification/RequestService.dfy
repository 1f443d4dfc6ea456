/**
 * Ownership of the acknowledgement descriptors in src/ts/signal_handler.cc: an external handler
 * creates a pipe, sends its write end through the service pipe and forgets it; the service thread
 * dumps the stacks and, leaving the scope of the request, runs its deferred actions in reverse
 * order of their registration.  Descriptor numbers are reused as soon as they are free, as the
 * kernel does.  Assumed: descriptors travel through the service pipe whole.
 */
module RequestService {
  import opened Common

  type Fd = int
  type Request = int

  /** Whose descriptor an open number is: the write end of a request, or anybody else's. */
  datatype Owner = WriteEnd(r: Request) | Foreign

  datatype Handler = Holding(fd: Fd) | Sent | Dropped

  datatype Deferred = CloseAck | FlushErr

  /** `deferred` is in registration order; `leaving` is past the end of the loop body. */
  datatype Service = Reading | Serving(fd: Fd, deferred: seq<Deferred>, leaving: bool)

  /** Text on its way to stderr: of the service for the n-th request, or of another thread. */
  datatype Line = Dump(n: nat, text: int) | Noise(text: int)

  /** `closes` records what each `close` by a handler or the service hit. */
  datatype State = State(
    open: map<Fd, Owner>, handlers: map<Request, Handler>, queue: seq<Fd>, service: Service,
    served: nat, dumped: seq<Line>, buffered: seq<Line>, flushed: seq<Line>,
    closes: seq<Option<Owner>>)

  const INIT := State(map[], map[], [], Reading, 0, [], [], [], [])

  datatype Step =
    | Create(r: Request, fd: Fd)
    | Send(r: Request, ok: bool)
    | Receive
    | PrintDump(text: int)
    | LeaveScope
    | RunDeferred
    | OtherOpens(fd: Fd) | OtherCloses(fd: Fd) | OtherPrints(text: int)

  predicate Enabled(s: State, e: Step)
  {
    match e
    case Create(r, fd) => r !in s.handlers && fd !in s.open
    case Send(r, _) => r in s.handlers && s.handlers[r].Holding?
    case Receive => s.service.Reading? && s.queue != []
    case PrintDump(_) => s.service.Serving? && !s.service.leaving
    case LeaveScope => s.service.Serving? && !s.service.leaving
    case RunDeferred => s.service.Serving? && s.service.leaving
    case OtherOpens(fd) => fd !in s.open
    case OtherCloses(fd) => fd in s.open && s.open[fd] == Foreign
    case OtherPrints(_) => true
  }

  function CloseFd(s: State, fd: Fd): State
  {
    s.(open := s.open - {fd}, closes := s.closes + [if fd in s.open then Some(s.open[fd]) else None])
  }

  /** The destructors of the scope: last registered, first run. */
  function RunLast(s: State): State
    requires s.service.Serving?
  {
    if s.service.deferred == [] then s.(service := Reading)
    else
      var n := |s.service.deferred| - 1;
      var s1 := s.(service := s.service.(deferred := s.service.deferred[..n]));
      match s.service.deferred[n]
      case FlushErr => s1.(flushed := s.flushed + s.buffered, buffered := [])
      case CloseAck => CloseFd(s1, s.service.fd)
  }

  function Apply(s: State, e: Step): State
    requires Enabled(s, e)
  {
    match e
    case Create(r, fd) => s.(open := s.open[fd := WriteEnd(r)], handlers := s.handlers[r := Holding(fd)])
    case Send(r, ok) =>
      if ok then s.(queue := s.queue + [s.handlers[r].fd], handlers := s.handlers[r := Sent])
      else CloseFd(s, s.handlers[r].fd).(handlers := s.handlers[r := Dropped])
    case Receive =>
      s.(queue := s.queue[1..], service := Serving(s.queue[0], [CloseAck, FlushErr], false),
         served := s.served + 1, dumped := [])
    case PrintDump(text) =>
      s.(buffered := s.buffered + [Dump(s.served, text)], dumped := s.dumped + [Dump(s.served, text)])
    case LeaveScope => s.(service := s.service.(leaving := true))
    case RunDeferred => RunLast(s)
    case OtherOpens(fd) => s.(open := s.open[fd := Foreign])
    case OtherCloses(fd) => s.(open := s.open - {fd})
    case OtherPrints(text) => s.(buffered := s.buffered + [Noise(text)])
  }

  ghost predicate IsRun(states: seq<State>, steps: seq<Step>)
  {
    && |states| == |steps| + 1
    && states[0] == INIT
    && forall i :: 0 <= i < |steps| ==> Enabled(states[i], steps[i]) && states[i + 1] == Apply(states[i], steps[i])
  }

  // ----- who holds what

  predicate HeldByHandler(s: State, r: Request, fd: Fd) { r in s.handlers && s.handlers[r] == Holding(fd) }

  predicate HeldByQueue(s: State, fd: Fd) { fd in s.queue }

  /** The service holds its descriptor until the deferred close, the last one to run, has run. */
  predicate HeldByService(s: State, fd: Fd) { s.service.Serving? && s.service.fd == fd && s.service.deferred != [] }

  predicate IsWriteEnd(s: State, fd: Fd, r: Request) { fd in s.open && s.open[fd] == WriteEnd(r) }

  /** Each open write end has exactly one holder, and every descriptor held is an open write end. */
  ghost predicate Ownership(s: State)
  {
    && (forall r, fd :: HeldByHandler(s, r, fd) ==> IsWriteEnd(s, fd, r))
    && (forall fd :: HeldByQueue(s, fd) || HeldByService(s, fd) ==>
          fd in s.open && s.open[fd].WriteEnd? && s.open[fd].r in s.handlers && s.handlers[s.open[fd].r] == Sent)
    && (forall r, fd :: IsWriteEnd(s, fd, r) ==> HeldByHandler(s, r, fd) || HeldByQueue(s, fd) || HeldByService(s, fd))
    && (forall fd :: !(HeldByQueue(s, fd) && HeldByService(s, fd)))
    && (forall i, j :: 0 <= i < j < |s.queue| ==> s.queue[i] != s.queue[j])
    && (forall r, fd, fd' :: IsWriteEnd(s, fd, r) && IsWriteEnd(s, fd', r) ==> fd == fd')
  }

  /** Closes hit the request they were meant for, at most once each, and for good. */
  ghost predicate CloseLog(s: State)
  {
    && (forall c :: c in s.closes ==>
          c.Some? && c.value.WriteEnd? && c.value.r in s.handlers && !s.handlers[c.value.r].Holding?)
    && (forall c, fd :: c in s.closes && c.Some? && c.value.WriteEnd? ==> !IsWriteEnd(s, fd, c.value.r))
    && (forall i, j :: 0 <= i < j < |s.closes| ==> s.closes[i] != s.closes[j])
    && (forall r, fd :: IsWriteEnd(s, fd, r) ==> r in s.handlers)
  }

  /** Of `lines`, those printed for the n-th request, in order. */
  function LinesFor(lines: seq<Line>, n: nat): seq<Line>
  {
    if lines == [] then []
    else
      var last := lines[|lines| - 1];
      LinesFor(lines[..|lines| - 1], n) + (if last.Dump? && last.n == n then [last] else [])
  }

  lemma {:induction false} LinesForAppend(a: seq<Line>, b: seq<Line>, n: nat)
    ensures LinesFor(a + b, n) == LinesFor(a, n) + LinesFor(b, n)
  {
    if b == [] {
      assert a + b == a;
    } else {
      var m := |b| - 1;
      assert (a + b)[..|a + b| - 1] == a + b[..m];
      LinesForAppend(a, b[..m], n);
    }
  }

  lemma LinesForNext(lines: seq<Line>, line: Line, n: nat)
    ensures LinesFor(lines + [line], n) == LinesFor(lines, n) + (if line.Dump? && line.n == n then [line] else [])
  {
    assert (lines + [line])[..|lines|] == lines;
  }

  lemma {:induction false} NoLinesFor(lines: seq<Line>, n: nat)
    requires forall l :: l in lines && l.Dump? ==> l.n < n
    ensures LinesFor(lines, n) == []
  {
    if lines == [] {
    } else {
      assert lines[|lines| - 1] in lines;
      assert forall l :: l in lines[..|lines| - 1] ==> l in lines;
      NoLinesFor(lines[..|lines| - 1], n);
    }
  }

  /** The deferred actions left, and where the dump is: none of it is unflushed once the flush has run. */
  ghost predicate FlushOrder(s: State)
  {
    && (forall l :: (l in s.flushed || l in s.buffered) && l.Dump? ==> l.n <= s.served)
    && LinesFor(s.flushed, s.served) + LinesFor(s.buffered, s.served) == s.dumped
    && (s.service.Serving? ==>
          && s.service.deferred in {[CloseAck, FlushErr], [CloseAck], []}
          && (!s.service.leaving ==> s.service.deferred == [CloseAck, FlushErr])
          && (|s.service.deferred| < 2 ==> LinesFor(s.buffered, s.served) == []))
  }

  ghost predicate Inv(s: State) { Ownership(s) && CloseLog(s) && FlushOrder(s) }

  lemma PrintStep(s: State, e: Step)
    requires FlushOrder(s) && Enabled(s, e) && (e.PrintDump? || e.OtherPrints?)
    ensures FlushOrder(Apply(s, e))
  {
    hide LinesFor;
    var line := if e.PrintDump? then Dump(s.served, e.text) else Noise(e.text);
    LinesForNext(s.buffered, line, s.served);
    var before, now := LinesFor(s.flushed, s.served), LinesFor(s.buffered, s.served);
    assert before + (now + [line]) == before + now + [line];
  }

  lemma DeferredStep(s: State)
    requires FlushOrder(s) && Enabled(s, RunDeferred)
    ensures FlushOrder(Apply(s, RunDeferred))
  {
    hide LinesFor;
    assert LinesFor([], s.served) == [] by { NoLinesFor([], s.served); }
    if |s.service.deferred| == 2 {
      assert s.service.deferred[..1] == [CloseAck];
      LinesForAppend(s.flushed, s.buffered, s.served);
    } else if |s.service.deferred| == 1 {
      assert s.service.deferred[..0] == [];
    }
  }

  lemma FlushStep(s: State, e: Step)
    requires FlushOrder(s) && Enabled(s, e)
    ensures FlushOrder(Apply(s, e))
  {
    hide LinesFor;
    if e.RunDeferred? {
      DeferredStep(s);
    } else if e.PrintDump? || e.OtherPrints? {
      PrintStep(s, e);
    } else if e.Receive? {
      NoLinesFor(s.flushed, s.served + 1);
      NoLinesFor(s.buffered, s.served + 1);
    }
  }

  lemma CreateStep(s: State, r: Request, fd: Fd)
    requires Inv(s) && Enabled(s, Create(r, fd))
    ensures Ownership(Apply(s, Create(r, fd))) && CloseLog(Apply(s, Create(r, fd)))
  {
    var t := Apply(s, Create(r, fd));
    assert forall r', fd' :: IsWriteEnd(t, fd', r') <==> IsWriteEnd(s, fd', r') || (r' == r && fd' == fd);
    assert forall r', fd' :: HeldByHandler(t, r', fd') <==> HeldByHandler(s, r', fd') || (r' == r && fd' == fd);
    assert forall fd' :: HeldByQueue(t, fd') <==> HeldByQueue(s, fd');
    assert forall fd' :: HeldByService(t, fd') <==> HeldByService(s, fd');
    assert forall fd' :: !IsWriteEnd(s, fd', r);
  }

  lemma SendStep(s: State, r: Request, ok: bool)
    requires Inv(s) && Enabled(s, Send(r, ok))
    ensures Ownership(Apply(s, Send(r, ok))) && CloseLog(Apply(s, Send(r, ok)))
  {
    var t, fd := Apply(s, Send(r, ok)), s.handlers[r].fd;
    assert HeldByHandler(s, r, fd) && IsWriteEnd(s, fd, r);
    assert !HeldByQueue(s, fd) && !HeldByService(s, fd);
    assert forall r', fd' :: IsWriteEnd(t, fd', r') <==> IsWriteEnd(s, fd', r') && (ok || fd' != fd);
    assert forall r', fd' :: HeldByHandler(t, r', fd') <==> HeldByHandler(s, r', fd') && r' != r;
    assert forall fd' :: HeldByQueue(t, fd') <==> HeldByQueue(s, fd') || (ok && fd' == fd);
    assert forall fd' :: HeldByService(t, fd') <==> HeldByService(s, fd');
  }

  lemma ReceiveStep(s: State)
    requires Inv(s) && Enabled(s, Receive)
    ensures Ownership(Apply(s, Receive)) && CloseLog(Apply(s, Receive))
  {
    var t, fd := Apply(s, Receive), s.queue[0];
    assert HeldByQueue(s, fd);
    assert forall r', fd' :: IsWriteEnd(t, fd', r') <==> IsWriteEnd(s, fd', r');
    assert forall r', fd' :: HeldByHandler(t, r', fd') <==> HeldByHandler(s, r', fd');
    assert forall fd' :: HeldByQueue(s, fd') <==> HeldByQueue(t, fd') || fd' == fd;
    assert !HeldByQueue(t, fd);
    assert forall fd' :: HeldByService(t, fd') <==> fd' == fd;
  }

  lemma AckStep(s: State)
    requires Inv(s) && Enabled(s, RunDeferred) && s.service.deferred == [CloseAck]
    ensures Ownership(Apply(s, RunDeferred)) && CloseLog(Apply(s, RunDeferred))
  {
    var t, fd := Apply(s, RunDeferred), s.service.fd;
    assert HeldByService(s, fd) && !HeldByQueue(s, fd);
    var r := s.open[fd].r;
    assert IsWriteEnd(s, fd, r);
    assert forall r', fd' :: IsWriteEnd(t, fd', r') <==> IsWriteEnd(s, fd', r') && fd' != fd;
    assert forall r', fd' :: HeldByHandler(t, r', fd') <==> HeldByHandler(s, r', fd');
    assert forall fd' :: HeldByQueue(s, fd') <==> HeldByQueue(t, fd');
    assert forall fd' :: !HeldByService(t, fd');
  }

  lemma OtherStep(s: State, e: Step)
    requires Inv(s) && Enabled(s, e) && !e.Create? && !e.Send? && !e.Receive?
    requires e.RunDeferred? ==> s.service.deferred != [CloseAck]
    ensures Ownership(Apply(s, e)) && CloseLog(Apply(s, e))
  {
    var t := Apply(s, e);
    assert forall r', fd' :: IsWriteEnd(t, fd', r') <==> IsWriteEnd(s, fd', r');
    assert forall r', fd' :: HeldByHandler(t, r', fd') <==> HeldByHandler(s, r', fd');
    assert forall fd' :: HeldByQueue(s, fd') <==> HeldByQueue(t, fd');
    assert forall fd' :: HeldByService(t, fd') <==> HeldByService(s, fd');
  }

  lemma StepKeepsInv(s: State, e: Step)
    requires Inv(s) && Enabled(s, e)
    ensures Inv(Apply(s, e))
  {
    FlushStep(s, e);
    match e
    case Create(r, fd) => CreateStep(s, r, fd);
    case Send(r, ok) => SendStep(s, r, ok);
    case Receive => ReceiveStep(s);
    case RunDeferred => if s.service.deferred == [CloseAck] { AckStep(s); } else { OtherStep(s, e); }
    case _ => OtherStep(s, e);
  }

  lemma InitInv()
    ensures Inv(INIT)
  {
  }

  lemma {:induction false} RunInv(states: seq<State>, steps: seq<Step>, k: nat)
    requires IsRun(states, steps) && k < |states|
    ensures Inv(states[k])
  {
    hide Inv, Apply, Enabled;
    if k == 0 {
      InitInv();
    } else {
      RunInv(states, steps, k - 1);
      StepKeepsInv(states[k - 1], steps[k - 1]);
    }
  }

  // ----- the theorems

  /**
   * At every moment each request's open write end is held by exactly one of its handler, the
   * service pipe and the service thread, and nothing else is held: no leak, no sharing.
   */
  lemma ExactlyOneHolder(states: seq<State>, steps: seq<Step>, k: nat, fd: Fd)
    requires IsRun(states, steps) && k < |states|
    ensures var s := states[k];
            && ((exists r :: IsWriteEnd(s, fd, r)) <==>
                  (exists r :: HeldByHandler(s, r, fd)) || HeldByQueue(s, fd) || HeldByService(s, fd))
            && !(HeldByQueue(s, fd) && HeldByService(s, fd))
            && (forall r :: HeldByHandler(s, r, fd) ==> !HeldByQueue(s, fd) && !HeldByService(s, fd))
            && (forall r, r' :: HeldByHandler(s, r, fd) && HeldByHandler(s, r', fd) ==> r == r')
            && multiset(s.queue)[fd] <= 1
  {
    RunInv(states, steps, k);
    var s := states[k];
    if HeldByQueue(s, fd) || HeldByService(s, fd) {
      assert IsWriteEnd(s, fd, s.open[fd].r);
    }
    if r :| HeldByHandler(s, r, fd) {
      assert IsWriteEnd(s, fd, r);
    }
    DistinctOnce(s.queue, fd);
  }

  lemma {:induction false} DistinctOnce(xs: seq<Fd>, x: Fd)
    requires forall i, j :: 0 <= i < j < |xs| ==> xs[i] != xs[j]
    ensures multiset(xs)[x] <= 1
  {
    if xs == [] {
    } else {
      var n := |xs| - 1;
      DistinctOnce(xs[..n], x);
      assert xs == xs[..n] + [xs[n]];
      if xs[n] == x { assert x !in xs[..n]; }
    }
  }

  /** Every close hits the write end it was meant for, no request is closed twice, and none comes back. */
  lemma ClosedAtMostOnce(states: seq<State>, steps: seq<Step>, k: nat, j: nat)
    requires IsRun(states, steps) && k <= j < |states|
    ensures states[k].closes <= states[j].closes
    ensures forall c :: c in states[j].closes ==> c.Some? && c.value.WriteEnd?
    ensures forall a, b :: 0 <= a < b < |states[j].closes| ==> states[j].closes[a] != states[j].closes[b]
    ensures forall r, fd :: Some(WriteEnd(r)) in states[k].closes ==> !IsWriteEnd(states[j], fd, r)
  {
    ClosesOnlyGrow(states, steps, k, j);
    RunInv(states, steps, j);
    forall r, fd | Some(WriteEnd(r)) in states[k].closes ensures !IsWriteEnd(states[j], fd, r) {
      assert Some(WriteEnd(r)) in states[j].closes;
    }
  }

  lemma {:induction false} ClosesOnlyGrow(states: seq<State>, steps: seq<Step>, k: nat, j: nat)
    requires IsRun(states, steps) && k <= j < |states|
    ensures states[k].closes <= states[j].closes
  {
    if k == j {
    } else {
      ClosesOnlyGrow(states, steps, k, j - 1);
    }
  }

  /**
   * The service acknowledges a request, by closing its own write end, only after everything it
   * printed for that request has been flushed, each line once and in order.
   */
  lemma FlushedBeforeAck(states: seq<State>, steps: seq<Step>, k: nat)
    requires IsRun(states, steps) && k < |steps| && steps[k].RunDeferred?
    requires states[k + 1].closes != states[k].closes
    ensures LinesFor(states[k].flushed, states[k].served) == states[k].dumped
    ensures exists r :: && IsWriteEnd(states[k], states[k].service.fd, r)
                        && states[k + 1].closes == states[k].closes + [Some(WriteEnd(r))]
  {
    RunInv(states, steps, k);
    var s := states[k];
    assert HeldByService(s, s.service.fd);
    assert IsWriteEnd(s, s.service.fd, s.open[s.service.fd].r);
  }

  /** What the service prints in these steps, as lines of its n-th request. */
  function Printed(steps: seq<Step>, n: nat): seq<Line>
  {
    if steps == [] then []
    else
      var last := steps[|steps| - 1];
      Printed(steps[..|steps| - 1], n) + (if last.PrintDump? then [Dump(n, last.text)] else [])
  }

  /** What `dumped` holds is what was printed since the request was received, in order. */
  lemma {:induction false} DumpIsComplete(states: seq<State>, steps: seq<Step>, k: nat, j: nat)
    requires IsRun(states, steps) && k < j < |states| && steps[k].Receive?
    requires forall i :: k < i < j ==> !steps[i].Receive?
    ensures states[j].served == states[k].served + 1
    ensures states[j].dumped == Printed(steps[k + 1..j], states[j].served)
  {
    if k + 1 == j {
    } else {
      DumpIsComplete(states, steps, k, j - 1);
      assert steps[k + 1..j][..j - k - 2] == steps[k + 1..j - 1];
      DumpGrows(states[j - 1], steps[j - 1]);
    }
  }

  lemma DumpGrows(s: State, e: Step)
    requires Enabled(s, e) && !e.Receive?
    ensures Apply(s, e).served == s.served
    ensures Apply(s, e).dumped == s.dumped + (if e.PrintDump? then [Dump(s.served, e.text)] else [])
  {
  }

  // ----- the code

  /**
   * The process as the handlers and the service thread share it; each method is what one of them
   * does between two points where others may run.
   */
  class Descriptors {
    var open: map<Fd, Owner>
    var handlers: map<Request, Handler>
    var queue: seq<Fd>
    var service: Service
    var served: nat
    var buffered: seq<Line>
    var flushed: seq<Line>
    ghost var dumped: seq<Line>
    ghost var closes: seq<Option<Owner>>

    ghost function View(): State
      reads this
    {
      State(open, handlers, queue, service, served, dumped, buffered, flushed, closes)
    }

    constructor ()
      ensures View() == INIT && Inv(View())
    {
      open, handlers, queue, service, served := map[], map[], [], Reading, 0;
      buffered, flushed, dumped, closes := [], [], [], [];
    }

    method CloseDescriptor(fd: Fd)
      modifies this`open, this`closes
      ensures View() == CloseFd(old(View()), fd)
    {
      closes := closes + [if fd in open then Some(open[fd]) else None];
      open := open - {fd};
    }

    /** ExternalHandler, up to the write: a new pipe, whose read end is closed at once. */
    method OpenPipe(r: Request, fd: Fd)
      requires Inv(View()) && Enabled(View(), Create(r, fd))
      modifies this
      ensures View() == Apply(old(View()), Create(r, fd)) && Inv(View())
    {
      hide Inv;
      StepKeepsInv(View(), Create(r, fd));
      open := open[fd := WriteEnd(r)];
      handlers := handlers[r := Holding(fd)];
    }

    /** ExternalHandler, from the write on: a failed one leaves the descriptor to be closed here. */
    method SendRequest(r: Request, ok: bool)
      requires Inv(View()) && Enabled(View(), Send(r, ok))
      modifies this
      ensures View() == Apply(old(View()), Send(r, ok)) && Inv(View())
    {
      hide Inv;
      StepKeepsInv(View(), Send(r, ok));
      var fd := handlers[r].fd;
      if ok {
        queue := queue + [fd];
        handlers := handlers[r := Sent];
      } else {
        CloseDescriptor(fd);
        handlers := handlers[r := Dropped];
      }
    }

    /** RequestProcessor: read a request and register the two deferred actions. */
    method ReceiveRequest()
      requires Inv(View()) && Enabled(View(), Receive)
      modifies this
      ensures View() == Apply(old(View()), Receive) && Inv(View())
    {
      hide Inv;
      StepKeepsInv(View(), Receive);
      service := Serving(queue[0], [CloseAck, FlushErr], false);
      queue := queue[1..];
      served := served + 1;
      dumped := [];
    }

    method Print(text: int)
      requires Inv(View()) && Enabled(View(), PrintDump(text))
      modifies this
      ensures View() == Apply(old(View()), PrintDump(text)) && Inv(View())
    {
      hide Inv;
      StepKeepsInv(View(), PrintDump(text));
      buffered := buffered + [Dump(served, text)];
      dumped := dumped + [Dump(served, text)];
    }

    method EndOfScope()
      requires Inv(View()) && Enabled(View(), LeaveScope)
      modifies this
      ensures View() == Apply(old(View()), LeaveScope) && Inv(View())
    {
      hide Inv;
      StepKeepsInv(View(), LeaveScope);
      service := service.(leaving := true);
    }

    /** The destructor of one ScopedLambda, in reverse order of construction. */
    method Unwind()
      requires Inv(View()) && Enabled(View(), RunDeferred)
      modifies this
      ensures View() == Apply(old(View()), RunDeferred) && Inv(View())
    {
      hide Inv;
      StepKeepsInv(View(), RunDeferred);
      if service.deferred == [] {
        service := Reading;
        return;
      }
      var n := |service.deferred| - 1;
      var last := service.deferred[n];
      service := service.(deferred := service.deferred[..n]);
      match last {
        case FlushErr =>
          flushed := flushed + buffered;
          buffered := [];
        case CloseAck =>
          CloseDescriptor(service.fd);
      }
    }
  }
}
