/**
 * The rendezvous channel of src/ts/common/unbuffered_channel.h, as a step relation over any
 * number of concurrent `Write`, `Read` and `Close` calls.
 *
 * Every stretch of code run while holding the mutex is one step.  A timed wait with a
 * predicate is: check under the lock; if false, sleep; be woken by a notification, by the
 * deadline or spuriously; check again under the lock.  A later check that fails either sleeps
 * again or, when the deadline has passed, reports a timeout; a check that succeeds never does.
 */
module Channel {
  import opened Common

  type CallId = int
  type Value(==, !new)

  /** Where a `Write` is.  `Entry*` is the wait on `writers_`, `Handshake*` that on `handshake_`. */
  datatype WritePhase =
    | EntryCheck(waited: bool) | EntrySleep
    | HandshakeCheck | HandshakeSleep
    | Written | WriteTimedOut

  datatype ReadPhase =
    | ReadCheck(waited: bool) | ReadSleep
    | ReadOk(result: Value) | ReadClosed | ReadTimedOut

  /** `Close` sends its three notifications one by one, after releasing the lock. */
  datatype ClosePhase = CloseLock | TellWriters | TellReaders | TellHandshake | CloseDone

  /** One call, with the parameter that `item_` may point to. */
  datatype Call =
    | Write(value: Value, wp: WritePhase)
    | Read(rp: ReadPhase)
    | Close(cp: ClosePhase)

  /** A value copied by a successful `Read`: who read, whose frame `item_` pointed to, what was copied. */
  datatype Delivery = Delivery(reader: CallId, source: CallId, value: Value)

  /**
   * The fields of the channel, the calls in flight or finished, and three histories: the calls
   * that entered the handshake zone, the values copied out and the writes that succeeded.
   * `crashed` is the state after LOG(FATAL).
   */
  datatype State = State(
    closed: bool, writerInZone: bool, readerInZone: bool, item: Option<CallId>,
    calls: map<CallId, Call>,
    entered: seq<CallId>, delivered: seq<Delivery>, completed: seq<CallId>,
    crashed: bool)

  const INIT := State(false, false, false, None, map[], [], [], [], false)

  /**
   * `expired` says that the deadline had passed at the check, `wake` names the sleeper that
   * `notify_one` picked, and `junk` is what a dangling `item_` would yield.
   */
  datatype Step =
    | StartWrite(c: CallId, v: Value) | StartRead(c: CallId) | StartClose(c: CallId)
    | TryEnter(c: CallId, expired: bool, wake: Option<CallId>)
    | TryFinish(c: CallId, expired: bool, wake: Option<CallId>)
    | TryRead(c: CallId, expired: bool, wake: Option<CallId>, junk: Value)
    | LockClose(c: CallId)
    | NotifyWriters(c: CallId) | NotifyReaders(c: CallId)
    | NotifyHandshake(c: CallId, wake: Option<CallId>)
    | WakeUp(c: CallId)

  // ----- the three wait predicates (src/ts/common/unbuffered_channel.h:58, 77, 124)

  predicate MayEnter(s: State) { s.closed || !s.writerInZone }

  predicate MayFinish(s: State) { s.closed || s.readerInZone }

  predicate MayRead(s: State) { s.closed || (!s.readerInZone && s.writerInZone) }

  // ----- calls and where they are

  predicate IsWriter(s: State, c: CallId) { c in s.calls && s.calls[c].Write? }

  predicate IsReader(s: State, c: CallId) { c in s.calls && s.calls[c].Read? }

  /** The three condition variables. */
  datatype Condition = Writers | Readers | Handshake

  predicate WaitsOn(call: Call, cv: Condition)
  {
    match cv
    case Writers => call.Write? && call.wp.EntrySleep?
    case Readers => call.Read? && call.rp.ReadSleep?
    case Handshake => call.Write? && call.wp.HandshakeSleep?
  }

  predicate SleepsOn(s: State, c: CallId, cv: Condition) { c in s.calls && WaitsOn(s.calls[c], cv) }

  predicate EntryChecker(s: State, c: CallId) { IsWriter(s, c) && s.calls[c].wp.EntryCheck? }

  predicate HandshakeChecker(s: State, c: CallId) { IsWriter(s, c) && s.calls[c].wp.HandshakeCheck? }

  predicate ReadChecker(s: State, c: CallId) { IsReader(s, c) && s.calls[c].rp.ReadCheck? }

  /** At the handshake wait: between entering the zone and leaving it. */
  predicate InZone(s: State, c: CallId) { SleepsOn(s, c, Handshake) || HandshakeChecker(s, c) }

  predicate Asleep(s: State, c: CallId)
  {
    SleepsOn(s, c, Writers) || SleepsOn(s, c, Handshake) || SleepsOn(s, c, Readers)
  }

  predicate Awake(s: State, c: CallId) { EntryChecker(s, c) || HandshakeChecker(s, c) || ReadChecker(s, c) }

  predicate WriteInFlight(s: State, c: CallId) { SleepsOn(s, c, Writers) || EntryChecker(s, c) || InZone(s, c) }

  predicate ReadInFlight(s: State, c: CallId) { SleepsOn(s, c, Readers) || ReadChecker(s, c) }

  function SetWrite(s: State, c: CallId, p: WritePhase): State
    requires IsWriter(s, c)
  {
    s.(calls := s.calls[c := Write(s.calls[c].value, p)])
  }

  function SetRead(s: State, c: CallId, p: ReadPhase): State
  {
    s.(calls := s.calls[c := Read(p)])
  }

  function SetClose(s: State, c: CallId, p: ClosePhase): State
  {
    s.(calls := s.calls[c := Close(p)])
  }

  /** The call as it is once unblocked from whatever it was waiting for. */
  function Roused(call: Call): Call
  {
    match call
    case Write(v, EntrySleep) => Write(v, EntryCheck(true))
    case Write(v, HandshakeSleep) => Write(v, HandshakeCheck)
    case Read(ReadSleep) => Read(ReadCheck(true))
    case _ => call
  }

  function Rouse(s: State, w: Option<CallId>): State
  {
    match w
    case None => s
    case Some(c) => if c in s.calls then s.(calls := s.calls[c := Roused(s.calls[c])]) else s
  }

  /** `notify_one` unblocks some sleeper of its condition variable if there is one. */
  ghost predicate PickOne(s: State, cv: Condition, w: Option<CallId>)
  {
    match w
    case None => forall c :: !SleepsOn(s, c, cv)
    case Some(c) => SleepsOn(s, c, cv)
  }

  // ----- what each step does

  /** Write, lines 55-77: the entry check and, when it succeeds, the way into the zone. */
  function Enter(s: State, c: CallId, expired: bool, wake: Option<CallId>): State
    requires EntryChecker(s, c)
  {
    if !MayEnter(s) then
      if expired && s.calls[c].wp.waited then SetWrite(s, c, WriteTimedOut) else SetWrite(s, c, EntrySleep)
    else if s.closed then s.(crashed := true)
    else
      var s1 := Rouse(s.(writerInZone := true, item := Some(c), entered := s.entered + [c]), wake);
      SetWrite(s1, c, if MayFinish(s1) then HandshakeCheck else HandshakeSleep)
  }

  /** Write, lines 74-108: the handshake check after having been woken. */
  function Finish(s: State, c: CallId, expired: bool, wake: Option<CallId>): State
    requires HandshakeChecker(s, c)
  {
    if !MayFinish(s) then
      if expired then Rouse(SetWrite(s.(writerInZone := false), c, WriteTimedOut), wake)
      else SetWrite(s, c, HandshakeSleep)
    else if !s.readerInZone && s.closed then s.(crashed := true)
    else
      var s1 := s.(writerInZone := false, readerInZone := false, completed := s.completed + [c]);
      Rouse(SetWrite(s1, c, Written), wake)
  }

  /** What `*item_` yields: the writer's value while its frame exists, anything afterwards. */
  function Deref(s: State, junk: Value): Value
  {
    if s.item.Some? && InZone(s, s.item.value) then s.calls[s.item.value].value else junk
  }

  /** Read, lines 120-143. */
  function Take(s: State, c: CallId, expired: bool, wake: Option<CallId>, junk: Value): State
    requires ReadChecker(s, c)
  {
    if !MayRead(s) then
      if expired && s.calls[c].rp.waited then SetRead(s, c, ReadTimedOut) else SetRead(s, c, ReadSleep)
    else if s.closed then SetRead(s, c, ReadClosed)
    else
      var v := Deref(s, junk);
      var source := if s.item.Some? then s.item.value else 0;
      var s1 := s.(readerInZone := true, delivered := s.delivered + [Delivery(c, source, v)]);
      Rouse(SetRead(s1, c, ReadOk(v)), wake)
  }

  /** Close, lines 148-150. */
  function Shut(s: State, c: CallId): State
  {
    if s.closed then s.(crashed := true) else SetClose(s.(closed := true), c, TellWriters)
  }

  /** `notify_all`. */
  function RouseAll(s: State, cv: Condition): State
  {
    s.(calls := map c | c in s.calls :: if WaitsOn(s.calls[c], cv) then Roused(s.calls[c]) else s.calls[c])
  }

  predicate CloseAt(s: State, c: CallId, p: ClosePhase) { c in s.calls && s.calls[c] == Close(p) }

  ghost predicate Enabled(s: State, e: Step)
  {
    !s.crashed &&
    match e
    case StartWrite(c, v) => c !in s.calls
    case StartRead(c) => c !in s.calls
    case StartClose(c) => c !in s.calls
    case TryEnter(c, expired, wake) => EntryChecker(s, c) && PickOne(s, Readers, wake)
    case TryFinish(c, expired, wake) => HandshakeChecker(s, c) && PickOne(s, Writers, wake)
    case TryRead(c, expired, wake, junk) => ReadChecker(s, c) && PickOne(s, Handshake, wake)
    case LockClose(c) => CloseAt(s, c, CloseLock)
    case NotifyWriters(c) => CloseAt(s, c, TellWriters)
    case NotifyReaders(c) => CloseAt(s, c, TellReaders)
    case NotifyHandshake(c, wake) => CloseAt(s, c, TellHandshake) && PickOne(s, Handshake, wake)
    case WakeUp(c) => Asleep(s, c)
  }

  ghost function Apply(s: State, e: Step): State
    requires Enabled(s, e)
  {
    match e
    case StartWrite(c, v) => s.(calls := s.calls[c := Write(v, EntryCheck(false))])
    case StartRead(c) => SetRead(s, c, ReadCheck(false))
    case StartClose(c) => SetClose(s, c, CloseLock)
    case TryEnter(c, expired, wake) => Enter(s, c, expired, wake)
    case TryFinish(c, expired, wake) => Finish(s, c, expired, wake)
    case TryRead(c, expired, wake, junk) => Take(s, c, expired, wake, junk)
    case LockClose(c) => Shut(s, c)
    case NotifyWriters(c) => SetClose(RouseAll(s, Writers), c, TellReaders)
    case NotifyReaders(c) => SetClose(RouseAll(s, Readers), c, TellHandshake)
    case NotifyHandshake(c, wake) => SetClose(Rouse(s, wake), c, CloseDone)
    case WakeUp(c) => Rouse(s, Some(c))
  }

  /** A run: the states it passes through and the steps between them. */
  ghost predicate IsRun(states: seq<State>, steps: seq<Step>)
  {
    && |states| == |steps| + 1
    && states[0] == INIT
    && forall i :: 0 <= i < |steps| ==> Enabled(states[i], steps[i]) && states[i + 1] == Apply(states[i], steps[i])
  }
}
