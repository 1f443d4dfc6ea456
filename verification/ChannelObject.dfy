/**
 * The channel as the object its callers share.  Each method is one stretch of code that the
 * original runs while holding `m_` (or, for the notifications of `Close`, right after releasing
 * it); it updates the fields in place and is proved to be the corresponding step of the protocol,
 * which therefore keeps the invariant.  The scheduler's choices are parameters.
 */
module ChannelObject {
  import opened Common
  import opened Channel
  import opened ChannelSafety

  lemma ZoneWriterIsItem(s: State)
    requires Inv(s) && s.writerInZone
    ensures s.item.Some? && InZone(s, s.item.value)
  {
  }

  class UnbufferedChannel {
    var closed: bool
    var writerInZone: bool
    var readerInZone: bool
    var item: Option<CallId>
    /** The calls being served: their arguments, and where each of them waits. */
    var calls: map<CallId, Call>
    var crashed: bool
    ghost var entered: seq<CallId>
    ghost var delivered: seq<Delivery>
    ghost var completed: seq<CallId>

    ghost function View(): State
      reads this
    {
      State(closed, writerInZone, readerInZone, item, calls, entered, delivered, completed, crashed)
    }

    constructor ()
      ensures View() == INIT && Inv(View())
    {
      closed, writerInZone, readerInZone, item := false, false, false, None;
      calls, crashed := map[], false;
      entered, delivered, completed := [], [], [];
    }

    method Unblock(w: Option<CallId>)
      modifies this`calls
      ensures View() == Rouse(old(View()), w)
    {
      if w.Some? && w.value in calls {
        calls := calls[w.value := Roused(calls[w.value])];
      }
    }

    method UnblockAll(cv: Condition)
      modifies this`calls
      ensures View() == RouseAll(old(View()), cv)
    {
      calls := map c | c in calls :: if WaitsOn(calls[c], cv) then Roused(calls[c]) else calls[c];
    }

    /** `Write` from taking the lock to sleeping in the zone, timing out or crashing. */
    method WriteEntry(c: CallId, expired: bool, wake: Option<CallId>)
      requires Inv(View()) && Enabled(View(), TryEnter(c, expired, wake))
      modifies this
      ensures View() == Apply(old(View()), TryEnter(c, expired, wake)) && Inv(View())
    {
      hide Inv;
      StepKeepsInv(View(), TryEnter(c, expired, wake));
      var value := calls[c].value;
      if !(closed || !writerInZone) {
        calls := calls[c := Write(value, if expired && calls[c].wp.waited then WriteTimedOut else EntrySleep)];
        return;
      }
      if closed {
        crashed := true;
        return;
      }
      writerInZone := true;
      item := Some(c);
      entered := entered + [c];
      Unblock(wake);
      calls := calls[c := Write(value, if closed || readerInZone then HandshakeCheck else HandshakeSleep)];
    }

    /** `Write` from being woken at the handshake wait to its return, its crash or more sleep. */
    method WriteHandshake(c: CallId, expired: bool, wake: Option<CallId>)
      requires Inv(View()) && Enabled(View(), TryFinish(c, expired, wake))
      modifies this
      ensures View() == Apply(old(View()), TryFinish(c, expired, wake)) && Inv(View())
    {
      hide Inv;
      StepKeepsInv(View(), TryFinish(c, expired, wake));
      var value := calls[c].value;
      if !(closed || readerInZone) {
        if expired {
          writerInZone := false;
          calls := calls[c := Write(value, WriteTimedOut)];
          Unblock(wake);
        } else {
          calls := calls[c := Write(value, HandshakeSleep)];
        }
        return;
      }
      if !readerInZone && closed {
        crashed := true;
        return;
      }
      writerInZone := false;
      readerInZone := false;
      completed := completed + [c];
      calls := calls[c := Write(value, Written)];
      Unblock(wake);
    }

    /**
     * `Read` from taking the lock to returning or sleeping; `item_` is never dangling when used.  The
     * caller's variable goes from `before` to `after`; `blank` is the default value of its type.
     */
    method ReadItem(c: CallId, expired: bool, wake: Option<CallId>, junk: Value, before: Value, blank: Value)
      returns (after: Value)
      requires Inv(View()) && Enabled(View(), TryRead(c, expired, wake, junk))
      modifies this
      ensures View() == Apply(old(View()), TryRead(c, expired, wake, junk)) && Inv(View())
      ensures c in calls && calls[c].Read?
      ensures after == match calls[c].rp case ReadOk(v) => v case ReadClosed => blank case _ => before
    {
      hide Inv;
      after := before;
      StepKeepsInv(View(), TryRead(c, expired, wake, junk));
      if !(closed || (!readerInZone && writerInZone)) {
        calls := calls[c := Read(if expired && calls[c].rp.waited then ReadTimedOut else ReadSleep)];
        return;
      }
      if closed {
        calls := calls[c := Read(ReadClosed)];
        after := blank;
        return;
      }
      assert InZone(View(), item.value) by { ZoneWriterIsItem(View()); }
      readerInZone := true;
      after := calls[item.value].value;
      delivered := delivered + [Delivery(c, item.value, after)];
      calls := calls[c := Read(ReadOk(after))];
      Unblock(wake);
    }

    /** `Close` under the lock. */
    method CloseLocked(c: CallId)
      requires Inv(View()) && Enabled(View(), LockClose(c))
      modifies this
      ensures View() == Apply(old(View()), LockClose(c)) && Inv(View())
    {
      hide Inv;
      StepKeepsInv(View(), LockClose(c));
      if closed {
        crashed := true;
      } else {
        closed := true;
        calls := calls[c := Close(TellWriters)];
      }
    }

    /** The rest of `Close`: other steps may come before each of the three notifications. */
    method CloseNotify(c: CallId, wake: Option<CallId>) returns (ghost e: Step)
      requires Inv(View()) && c in calls && calls[c].Close?
      requires !crashed && !calls[c].cp.CloseLock? && !calls[c].cp.CloseDone?
      requires calls[c].cp.TellHandshake? ==> PickOne(View(), Handshake, wake)
      modifies this`calls
      ensures Enabled(old(View()), e) && e.c == c && (e.NotifyWriters? || e.NotifyReaders? || e.NotifyHandshake?)
      ensures View() == Apply(old(View()), e) && Inv(View())
    {
      hide Inv;
      match calls[c].cp {
        case TellWriters =>
          e := NotifyWriters(c);
          StepKeepsInv(View(), e);
          UnblockAll(Writers);
          calls := calls[c := Close(TellReaders)];
        case TellReaders =>
          e := NotifyReaders(c);
          StepKeepsInv(View(), e);
          UnblockAll(Readers);
          calls := calls[c := Close(TellHandshake)];
        case TellHandshake =>
          e := NotifyHandshake(c, wake);
          StepKeepsInv(View(), e);
          Unblock(wake);
          calls := calls[c := Close(CloseDone)];
      }
    }
  }
}
