/** The inductive invariant of the rendezvous channel, and what holds in every run. */
module ChannelSafety {
  import opened Common
  import opened Channel

  // ----- the invariant

  /** At most one call is at the handshake wait; it is the one `item_` points to. */
  ghost predicate ZoneInv(s: State)
  {
    && (s.writerInZone ==> s.item.Some? && InZone(s, s.item.value))
    && (forall c :: InZone(s, c) ==> s.writerInZone && s.item == Some(c))
    && (s.readerInZone ==> s.writerInZone && HandshakeChecker(s, s.item.value))
  }

  /** A free zone or an unread zone never has sleepers only. */
  ghost predicate WakeInv(s: State)
  {
    !s.closed ==>
      && (!s.writerInZone && (exists c :: SleepsOn(s, c, Writers)) ==> exists c :: EntryChecker(s, c))
      && (s.writerInZone && !s.readerInZone && (exists c :: SleepsOn(s, c, Readers)) ==> exists c :: ReadChecker(s, c))
  }

  /** The `Close` that has come to `p` has sent its notification on `cv`. */
  predicate Notified(p: ClosePhase, cv: Condition)
  {
    match cv
    case Writers => p.TellReaders? || p.TellHandshake? || p.CloseDone?
    case Readers => p.TellHandshake? || p.CloseDone?
    case Handshake => p.CloseDone?
  }

  /** A `Close` that has closed the channel. */
  predicate Closing(s: State, k: CallId) { k in s.calls && s.calls[k].Close? && !s.calls[k].cp.CloseLock? }

  /** What the notifications of `Close` have achieved so far. */
  ghost predicate CloseInv(s: State)
  {
    && (forall k :: Closing(s, k) ==> s.closed)
    && (forall k, cv, c :: Closing(s, k) && Notified(s.calls[k].cp, cv) ==> !SleepsOn(s, c, cv))
  }

  // ----- what a step changes

  predicate HasWritten(s: State, c: CallId) { IsWriter(s, c) && s.calls[c].wp.Written? }

  predicate HasTimedOut(s: State, c: CallId) { IsWriter(s, c) && s.calls[c].wp.WriteTimedOut? }

  predicate ReadReturned(s: State, c: CallId, v: Value) { c in s.calls && s.calls[c] == Read(ReadOk(v)) }

  /** How far a write has got, as far as the histories care. */
  datatype Fate = Outside | Zone | Succeeded | GaveUp

  function FateOf(s: State, c: CallId): Fate
  {
    if InZone(s, c) then Zone else if HasWritten(s, c) then Succeeded else if HasTimedOut(s, c) then GaveUp else Outside
  }

  predicate IsCheck(e: Step) { e.TryEnter? || e.TryFinish? || e.TryRead? }

  /** A call just begun. */
  predicate IsNew(call: Call)
  {
    match call
    case Write(_, EntryCheck(waited)) => !waited
    case Read(ReadCheck(waited)) => !waited
    case Close(CloseLock) => true
    case _ => false
  }

  /** Apart from its own checks, a step begins a call, unblocks it or moves on a `Close`. */
  lemma CallStep(s: State, e: Step, x: CallId)
    requires Enabled(s, e) && (x == e.c ==> !IsCheck(e))
    ensures x in s.calls ==> x in Apply(s, e).calls
    ensures x in s.calls ==> var now, was := Apply(s, e).calls[x], s.calls[x];
                             now == was || now == Roused(was) || (now.Close? && was.Close?)
    ensures x !in s.calls && x in Apply(s, e).calls ==> IsNew(Apply(s, e).calls[x])
  {
  }

  /** Only its own checks change the fate of a write or the outcome of a read. */
  lemma OthersKeep(s: State, e: Step, x: CallId)
    requires Enabled(s, e) && (x == e.c ==> !IsCheck(e))
    ensures FateOf(Apply(s, e), x) == FateOf(s, x)
    ensures IsWriter(s, x) ==> IsWriter(Apply(s, e), x) && Apply(s, e).calls[x].value == s.calls[x].value
  {
    hide Apply, Enabled;
    CallStep(s, e, x);
  }

  lemma OthersReadOn(s: State, e: Step, x: CallId, v: Value)
    requires Enabled(s, e) && (x == e.c ==> !IsCheck(e))
    ensures ReadReturned(s, x, v) <==> ReadReturned(Apply(s, e), x, v)
  {
    hide Apply, Enabled;
    CallStep(s, e, x);
  }

  /** Apart from a writer at its two checks, nobody changes a fate or the zone. */
  lemma QuietStep(s: State, e: Step)
    requires Enabled(s, e) && !e.TryEnter? && !e.TryFinish?
    ensures forall c :: FateOf(s, c) == FateOf(Apply(s, e), c)
    ensures s.entered == Apply(s, e).entered && s.completed == Apply(s, e).completed
    ensures s.writerInZone == Apply(s, e).writerInZone && s.item == Apply(s, e).item
    ensures forall c :: IsWriter(s, c) ==> IsWriter(Apply(s, e), c) && Apply(s, e).calls[c].value == s.calls[c].value
  {
    forall c
      ensures FateOf(s, c) == FateOf(Apply(s, e), c)
      ensures IsWriter(s, c) ==> IsWriter(Apply(s, e), c) && Apply(s, e).calls[c].value == s.calls[c].value
    {
      if c != e.c || !e.TryRead? { OthersKeep(s, e, c); }
    }
  }

  // ----- each step keeps it

  lemma ZoneWriterStep(s: State, e: Step)
    requires ZoneInv(s) && Enabled(s, e) && (e.TryEnter? || e.TryFinish?)
    ensures ZoneInv(Apply(s, e))
  {
    var t := Apply(s, e);
    assert e.TryFinish? ==> InZone(s, e.c);
    forall c | InZone(t, c) ensures t.writerInZone && t.item == Some(c) {
      if c != e.c {
        OthersKeep(s, e, c);
        assert FateOf(t, c) == Zone && FateOf(s, c) == Zone;
        assert InZone(s, c);
      }
    }
    if t.writerInZone && s.writerInZone {
      var z := s.item.value;
      assert InZone(s, z);
      if z != e.c {
        OthersKeep(s, e, z);
        assert FateOf(s, z) == Zone && FateOf(t, z) == Zone;
        assert e.TryEnter? && HandshakeChecker(s, z) ==> HandshakeChecker(t, z);
      }
    }
  }

  lemma ZoneOtherStep(s: State, e: Step)
    requires ZoneInv(s) && Enabled(s, e) && !e.TryEnter? && !e.TryFinish?
    ensures ZoneInv(Apply(s, e))
  {
    var t := Apply(s, e);
    QuietStep(s, e);
    forall c ensures InZone(t, c) <==> InZone(s, c) {
      assert FateOf(t, c) == FateOf(s, c);
    }
    if s.writerInZone {
      var z := s.item.value;
      assert InZone(s, z) && (SleepsOn(s, z, Handshake) || HandshakeChecker(s, z));
      assert HandshakeChecker(s, z) ==> HandshakeChecker(t, z);
    }
  }

  lemma ZoneStep(s: State, e: Step)
    requires ZoneInv(s) && Enabled(s, e)
    ensures ZoneInv(Apply(s, e))
  {
    if e.TryEnter? || e.TryFinish? { ZoneWriterStep(s, e); } else { ZoneOtherStep(s, e); }
  }

  /** A sleeper after the step slept before it or is the call that just failed its check. */
  lemma SleeperOrigin(s: State, e: Step, x: CallId, cv: Condition)
    requires Enabled(s, e) && SleepsOn(Apply(s, e), x, cv)
    ensures SleepsOn(s, x, cv) || (e.c == x && Awake(s, x))
  {
  }

  /** Whenever the zone becomes free, an entering writer is awake. */
  lemma WritersStep(s: State, e: Step, x: CallId) returns (y: CallId)
    requires ZoneInv(s) && WakeInv(s) && Enabled(s, e)
    requires !Apply(s, e).closed && !Apply(s, e).writerInZone && SleepsOn(Apply(s, e), x, Writers)
    ensures EntryChecker(Apply(s, e), y)
  {
    SleeperOrigin(s, e, x, Writers);
    if e.TryFinish? {
      assert SleepsOn(s, x, Writers) && InZone(s, e.c);
      y := e.wake.value;
    } else {
      y :| EntryChecker(s, y);
    }
  }

  /** Whenever a value is in the zone unread, a reader is awake. */
  lemma ReadersStep(s: State, e: Step, x: CallId) returns (y: CallId)
    requires ZoneInv(s) && WakeInv(s) && Enabled(s, e) && !Apply(s, e).closed
    requires Apply(s, e).writerInZone && !Apply(s, e).readerInZone && SleepsOn(Apply(s, e), x, Readers)
    ensures ReadChecker(Apply(s, e), y)
  {
    SleeperOrigin(s, e, x, Readers);
    if e.TryEnter? && !s.writerInZone {
      assert SleepsOn(s, x, Readers);
      y := e.wake.value;
    } else {
      y :| ReadChecker(s, y);
    }
  }

  lemma WakeStep(s: State, e: Step)
    requires ZoneInv(s) && WakeInv(s) && Enabled(s, e)
    ensures WakeInv(Apply(s, e))
  {
    hide Apply, Enabled, ZoneInv, SleepsOn, EntryChecker, ReadChecker;
    var t := Apply(s, e);
    if !t.closed && !t.writerInZone && exists c :: SleepsOn(t, c, Writers) {
      var x :| SleepsOn(t, x, Writers);
      var y := WritersStep(s, e, x);
    }
    if !t.closed && t.writerInZone && !t.readerInZone && exists c :: SleepsOn(t, c, Readers) {
      var x :| SleepsOn(t, x, Readers);
      var y := ReadersStep(s, e, x);
    }
  }

  /** The step is the notification of `Close` on `cv`. */
  predicate Notifies(e: Step, cv: Condition)
  {
    match cv
    case Writers => e.NotifyWriters?
    case Readers => e.NotifyReaders?
    case Handshake => e.NotifyHandshake?
  }

  /** A closed channel gains no sleeper, and a notification of `Close` leaves none on its variable. */
  lemma CloseSleepers(s: State, e: Step, x: CallId, cv: Condition)
    requires ZoneInv(s) && Enabled(s, e) && s.closed && SleepsOn(Apply(s, e), x, cv)
    ensures SleepsOn(s, x, cv) && !Notifies(e, cv)
  {
    SleeperOrigin(s, e, x, cv);
    if e.NotifyHandshake? && e.wake.Some? { assert InZone(s, e.wake.value); }
    if cv == Handshake { assert InZone(s, x) || EntryChecker(s, x); }
  }

  /** A `Close` past the lock was so before the step, or the step took the lock. */
  lemma ClosingOrigin(s: State, e: Step, k: CallId)
    requires Enabled(s, e) && Closing(Apply(s, e), k)
    ensures Closing(s, k) || e == LockClose(k)
    ensures s.closed ==> Apply(s, e).closed
    ensures e.LockClose? ==> Apply(s, e).closed
  {
  }

  /** A notification sent by `k` was sent before the step or is the step. */
  lemma NotifiedOrigin(s: State, e: Step, k: CallId, cv: Condition)
    requires Enabled(s, e) && Closing(Apply(s, e), k) && Notified(Apply(s, e).calls[k].cp, cv)
    ensures Closing(s, k) && (Notified(s.calls[k].cp, cv) || Notifies(e, cv))
  {
    ClosingOrigin(s, e, k);
    assert k != e.c ==> Apply(s, e).calls[k] == s.calls[k];
  }

  lemma CloseStep(s: State, e: Step)
    requires ZoneInv(s) && CloseInv(s) && Enabled(s, e)
    ensures CloseInv(Apply(s, e))
  {
    hide ZoneInv, Apply, Enabled, Notified, Notifies, SleepsOn;
    var t := Apply(s, e);
    forall k | Closing(t, k) ensures t.closed {
      ClosingOrigin(s, e, k);
    }
    forall k, cv, c | Closing(t, k) && Notified(t.calls[k].cp, cv) ensures !SleepsOn(t, c, cv) {
      NotifiedOrigin(s, e, k, cv);
      if SleepsOn(t, c, cv) { CloseSleepers(s, e, c, cv); }
    }
  }

  // ----- the histories

  /** The value of this write has been copied out by a reader. */
  predicate Taken(s: State, c: CallId) { HasWritten(s, c) || (InZone(s, c) && s.readerInZone) }

  /** The calls of `cs` whose value has been taken, in the order of `cs`. */
  function OnlyTaken(s: State, cs: seq<CallId>): seq<CallId>
  {
    if cs == [] then []
    else OnlyTaken(s, cs[..|cs| - 1]) + (if Taken(s, cs[|cs| - 1]) then [cs[|cs| - 1]] else [])
  }

  function Sources(ds: seq<Delivery>): seq<CallId>
  {
    seq(|ds|, i requires 0 <= i < |ds| => ds[i].source)
  }

  ghost predicate DeliveryInv(s: State)
  {
    && Sources(s.delivered) == OnlyTaken(s, s.entered)
    && Sources(s.delivered) == s.completed + (if s.readerInZone && s.item.Some? then [s.item.value] else [])
    && (forall c :: c in s.completed <==> HasWritten(s, c))
    && (forall d :: d in s.delivered ==> IsWriter(s, d.source) && s.calls[d.source].value == d.value)
  }

  ghost predicate ReaderInv(s: State)
  {
    && (forall i, j :: 0 <= i < j < |s.delivered| ==> s.delivered[i].reader != s.delivered[j].reader)
    && (forall d :: d in s.delivered ==> ReadReturned(s, d.reader, d.value))
    && (forall c, v :: ReadReturned(s, c, v) ==> exists d :: d in s.delivered && d.reader == c && d.value == v)
  }

  /** The entry history in terms of fates. */
  ghost predicate EntryLog(s: State)
  {
    && (forall i, j :: 0 <= i < j < |s.entered| ==> s.entered[i] != s.entered[j])
    && (forall c :: c in s.entered ==> FateOf(s, c) != Outside)
    && (forall c :: FateOf(s, c) in {Zone, Succeeded} ==> c in s.entered)
    && (s.writerInZone ==> s.entered != [] && s.item == Some(s.entered[|s.entered| - 1]))
  }

  lemma EntryLogQuiet(s: State, e: Step)
    requires EntryLog(s) && Enabled(s, e) && !e.TryEnter? && !e.TryFinish?
    ensures EntryLog(Apply(s, e))
  {
    hide Apply, FateOf;
    QuietStep(s, e);
  }

  lemma EntryLogEnter(s: State, e: Step)
    requires EntryLog(s) && Enabled(s, e) && e.TryEnter?
    ensures EntryLog(Apply(s, e))
  {
    var t := Apply(s, e);
    assert FateOf(s, e.c) == Outside && e.c !in s.entered;
    forall c | c != e.c ensures FateOf(s, c) == FateOf(t, c) {
      OthersKeep(s, e, c);
    }
    assert t.entered == s.entered || (t.entered == s.entered + [e.c] && FateOf(t, e.c) == Zone);
    assert t.entered == s.entered ==> FateOf(t, e.c) in {Outside, GaveUp} && t.writerInZone == s.writerInZone;
  }

  lemma EntryLogFinish(s: State, e: Step)
    requires ZoneInv(s) && EntryLog(s) && Enabled(s, e) && e.TryFinish?
    ensures EntryLog(Apply(s, e))
  {
    var t := Apply(s, e);
    assert FateOf(s, e.c) == Zone && e.c in s.entered && FateOf(t, e.c) != Outside;
    forall c | c != e.c ensures FateOf(s, c) == FateOf(t, c) {
      OthersKeep(s, e, c);
    }
  }

  lemma EntryLogStep(s: State, e: Step)
    requires ZoneInv(s) && EntryLog(s) && Enabled(s, e)
    ensures EntryLog(Apply(s, e))
  {
    hide ZoneInv, EntryLog, Apply, Enabled;
    if e.TryEnter? {
      EntryLogEnter(s, e);
    } else if e.TryFinish? {
      EntryLogFinish(s, e);
    } else {
      EntryLogQuiet(s, e);
    }
  }

  lemma {:induction false} OnlyTakenSame(s: State, t: State, cs: seq<CallId>)
    requires forall c :: c in cs ==> (Taken(s, c) <==> Taken(t, c))
    ensures OnlyTaken(s, cs) == OnlyTaken(t, cs)
  {
    if cs == [] {
    } else {
      assert cs[|cs| - 1] in cs;
      OnlyTakenSame(s, t, cs[..|cs| - 1]);
    }
  }

  /** What is taken by other calls stays so, as long as the zone keeps its reader or does not hold them. */
  lemma OthersStayTaken(s: State, e: Step, cs: seq<CallId>)
    requires Enabled(s, e) && IsCheck(e)
    requires e.c !in cs && (s.readerInZone == Apply(s, e).readerInZone || forall c :: c in cs ==> !InZone(s, c))
    ensures OnlyTaken(s, cs) == OnlyTaken(Apply(s, e), cs)
  {
    hide Apply, Enabled;
    forall c | c in cs ensures Taken(s, c) <==> Taken(Apply(s, e), c) {
      OthersKeep(s, e, c);
      assert FateOf(s, c) == FateOf(Apply(s, e), c);
    }
    OnlyTakenSame(s, Apply(s, e), cs);
  }

  /** A check by another call, or one that completes no write, keeps who has written and what. */
  lemma WrittenKept(s: State, e: Step)
    requires DeliveryInv(s) && Enabled(s, e) && IsCheck(e)
    requires IsWriter(s, e.c) ==> IsWriter(Apply(s, e), e.c) && Apply(s, e).calls[e.c].value == s.calls[e.c].value
    requires forall c :: c in Apply(s, e).completed <==> c in s.completed || (c == e.c && HasWritten(Apply(s, e), c))
    requires HasWritten(s, e.c) ==> HasWritten(Apply(s, e), e.c)
    ensures forall c :: c in Apply(s, e).completed <==> HasWritten(Apply(s, e), c)
    ensures forall d :: d in s.delivered ==>
              IsWriter(Apply(s, e), d.source) && Apply(s, e).calls[d.source].value == d.value
  {
    hide Apply, Enabled, OnlyTaken;
    var t := Apply(s, e);
    forall c ensures c in t.completed <==> HasWritten(t, c) {
      if c != e.c {
        OthersKeep(s, e, c);
        assert FateOf(s, c) == FateOf(t, c);
      }
    }
    forall d | d in s.delivered ensures IsWriter(t, d.source) && t.calls[d.source].value == d.value {
      if d.source != e.c { OthersKeep(s, e, d.source); }
    }
  }

  /** What a successful read does. */
  lemma TakeEffect(s: State, e: Step)
    requires ZoneInv(s) && Enabled(s, e) && e.TryRead? && MayRead(s) && !s.closed
    ensures var t, z := Apply(s, e), s.item.value;
            && InZone(s, z) && e.c != z && t.item == s.item && t.readerInZone && !s.readerInZone
            && t.entered == s.entered && t.completed == s.completed
            && t.delivered == s.delivered + [Delivery(e.c, z, s.calls[z].value)]
            && IsReader(s, e.c) && IsReader(t, e.c)
  {
    assert InZone(s, s.item.value);
  }

  lemma TakeDelivers(s: State, e: Step)
    requires ZoneInv(s) && EntryLog(s) && DeliveryInv(s) && Enabled(s, e)
    requires e.TryRead? && MayRead(s) && !s.closed
    ensures DeliveryInv(Apply(s, e))
  {
    hide Apply, Enabled;
    var t, z, n := Apply(s, e), s.item.value, |s.entered| - 1;
    TakeEffect(s, e);
    OthersKeep(s, e, z);
    assert FateOf(s, z) == Zone && FateOf(t, z) == Zone && Taken(t, z) && !Taken(s, z);
    assert FateOf(s, e.c) == Outside && e.c !in s.entered;
    OthersStayTaken(s, e, s.entered[..n]);
    assert Sources(t.delivered) == Sources(s.delivered) + [z];
    WrittenKept(s, e);
  }

  /** What a check at the entrance does. */
  lemma EntryEffect(s: State, e: Step)
    requires Enabled(s, e) && e.TryEnter?
    ensures var t := Apply(s, e);
            && t.delivered == s.delivered && t.completed == s.completed && t.readerInZone == s.readerInZone
            && IsWriter(t, e.c) && t.calls[e.c].value == s.calls[e.c].value
            && FateOf(s, e.c) == Outside && FateOf(t, e.c) != Succeeded
            && (|| (t.entered == s.entered && t.item == s.item && FateOf(t, e.c) != Zone)
                || (t.entered == s.entered + [e.c] && FateOf(t, e.c) == Zone && !s.writerInZone))
  {
  }

  lemma EntryDelivers(s: State, e: Step)
    requires ZoneInv(s) && EntryLog(s) && DeliveryInv(s) && Enabled(s, e)
    requires e.TryEnter?
    ensures DeliveryInv(Apply(s, e))
  {
    hide Apply, Enabled;
    var t := Apply(s, e);
    EntryEffect(s, e);
    OthersStayTaken(s, e, s.entered);
    assert t.entered != s.entered ==> t.entered[..|t.entered| - 1] == s.entered && !Taken(t, e.c);
    WrittenKept(s, e);
  }

  /** What a check at the handshake does. */
  lemma FinishEffect(s: State, e: Step)
    requires ZoneInv(s) && Enabled(s, e) && e.TryFinish?
    ensures var t := Apply(s, e);
            && t.delivered == s.delivered && t.entered == s.entered && t.item == s.item == Some(e.c)
            && IsWriter(t, e.c) && t.calls[e.c].value == s.calls[e.c].value && FateOf(s, e.c) == Zone
            && (if s.readerInZone then
                  t.completed == s.completed + [e.c] && !t.readerInZone && FateOf(t, e.c) == Succeeded
                else
                  t.completed == s.completed && !t.readerInZone && FateOf(t, e.c) != Succeeded)
  {
    assert InZone(s, e.c);
  }

  lemma FinishDelivers(s: State, e: Step)
    requires ZoneInv(s) && EntryLog(s) && DeliveryInv(s) && Enabled(s, e)
    requires e.TryFinish?
    ensures DeliveryInv(Apply(s, e))
  {
    hide Apply, Enabled;
    var t, n := Apply(s, e), |s.entered| - 1;
    FinishEffect(s, e);
    assert s.entered[n] == e.c && (Taken(s, e.c) <==> Taken(t, e.c));
    OthersStayTaken(s, e, s.entered[..n]);
    WrittenKept(s, e);
  }

  lemma QuietDelivers(s: State, e: Step)
    requires DeliveryInv(s) && Enabled(s, e) && !e.TryEnter? && !e.TryFinish?
    requires Apply(s, e).delivered == s.delivered && Apply(s, e).readerInZone == s.readerInZone
    ensures DeliveryInv(Apply(s, e))
  {
    hide Apply, Enabled;
    var t := Apply(s, e);
    QuietStep(s, e);
    forall c ensures Taken(s, c) <==> Taken(t, c) {
      assert FateOf(s, c) == FateOf(t, c);
    }
    OnlyTakenSame(s, t, s.entered);
    forall c ensures c in t.completed <==> HasWritten(t, c) {
      assert FateOf(s, c) == FateOf(t, c);
    }
  }

  lemma NothingTaken(s: State, e: Step)
    requires Enabled(s, e) && !e.TryFinish? && (e.TryRead? ==> s.closed || !MayRead(s))
    ensures Apply(s, e).delivered == s.delivered && Apply(s, e).readerInZone == s.readerInZone
  {
  }

  lemma DeliveryStep(s: State, e: Step)
    requires ZoneInv(s) && EntryLog(s) && DeliveryInv(s) && Enabled(s, e)
    ensures DeliveryInv(Apply(s, e))
  {
    hide ZoneInv, EntryLog, DeliveryInv, Apply, Enabled;
    if e.TryEnter? {
      EntryDelivers(s, e);
    } else if e.TryFinish? {
      FinishDelivers(s, e);
    } else if e.TryRead? && MayRead(s) && !s.closed {
      TakeDelivers(s, e);
    } else {
      NothingTaken(s, e);
      QuietDelivers(s, e);
    }
  }

  lemma ReaderStep(s: State, e: Step)
    requires ReaderInv(s) && Enabled(s, e)
    ensures ReaderInv(Apply(s, e))
  {
    var t := Apply(s, e);
    forall c, v | c != e.c || !e.TryRead?
      ensures ReadReturned(s, c, v) <==> ReadReturned(t, c, v)
    {
      if e.c != c || !(e.TryEnter? || e.TryFinish?) { OthersReadOn(s, e, c, v); }
    }
    forall d | d in s.delivered
      ensures ReadReturned(t, d.reader, d.value) && (e.TryRead? ==> d.reader != e.c)
    {
      assert ReadReturned(s, d.reader, d.value);
    }
    if s.delivered != t.delivered {
      assert e.TryRead? && t.delivered == s.delivered + [t.delivered[|s.delivered|]];
      assert ReadReturned(t, e.c, t.delivered[|s.delivered|].value);
    }
    forall c, v | ReadReturned(t, c, v)
      ensures exists d :: d in t.delivered && d.reader == c && d.value == v
    {
      if ReadReturned(s, c, v) {
        var d :| d in s.delivered && d.reader == c && d.value == v;
        assert d in t.delivered;
      } else {
        assert t.delivered[|s.delivered|].reader == c;
      }
    }
  }

  ghost predicate Inv(s: State)
  {
    ZoneInv(s) && WakeInv(s) && CloseInv(s) && EntryLog(s) && DeliveryInv(s) && ReaderInv(s)
  }

  lemma StepKeepsInv(s: State, e: Step)
    requires Inv(s) && Enabled(s, e)
    ensures Inv(Apply(s, e))
  {
    hide ZoneInv, WakeInv, CloseInv, EntryLog, DeliveryInv, ReaderInv, Apply, Enabled;
    ZoneStep(s, e);
    WakeStep(s, e);
    CloseStep(s, e);
    EntryLogStep(s, e);
    DeliveryStep(s, e);
    ReaderStep(s, e);
  }

  lemma InitInv()
    ensures Inv(INIT)
  {
  }

  /** Every state of every run satisfies the invariant. */
  lemma {:induction false} RunInv(states: seq<State>, steps: seq<Step>, k: nat)
    requires IsRun(states, steps) && k < |states|
    ensures Inv(states[k])
  {
    hide Inv, Apply, Enabled;
    if k == 0 {
      InitInv();
    } else {
      RunInv(states, steps, k - 1);
      StepKeepsInv(states[k - 1], steps[k - 1]);
    }
  }
}
