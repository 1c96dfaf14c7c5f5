/** The client Conn as an object (go/socks0/conn.go): its mutex-guarded fields, and its critical
    sections as methods. Each does to the fields what ConnState says and keeps their invariant;
    ConnRuns is about their runs. */
module ClientConn {
  import opened Wire
  import opened ConnState

  class Conn {
    var phase: Phase
    var busy: bool // the claim on the replies is taken
    var done: bool // the handshake is over, well or badly
    var closed: bool
    var abortErr: Option<Error>
    var err: Option<Failure>
    var readDeadline: Deadline // as set by the caller
    var replyDeadline: Deadline
    var wake: Option<nat>
    var channels: nat
    var readReady: bool
    var writeReady: bool
    var connRead: Deadline // of the underlying conn

    ghost function View(): State
      reads this
    {
      State(phase, busy, done, closed, abortErr, err, readDeadline, replyDeadline, wake, channels,
            readReady, writeReady, connRead)
    }

    constructor (conf: Option<Failure>)
      ensures View() == Opened(conf) && Ok(View())
    {
      phase, busy, done, closed, abortErr, err := Idle, false, false, false, None, None;
      readDeadline, replyDeadline, connRead := NoDeadline, NoDeadline, NoDeadline;
      wake, channels, readReady, writeReady := None, 0, false, false;
      new;
      if conf.Some? {
        Fail(conf.value);
      }
    }

    // --------------------------------------------------------- under the lock

    method StoreReady()
      modifies `readReady, `writeReady
      ensures View() == ConnState.StoreReady(old(View()))
    {
      var ok := err.None? && !closed;
      readReady := ok && done;
      writeReady := ok && phase.Sent?;
    }

    method Broadcast()
      modifies `wake
      ensures View() == ConnState.Broadcast(old(View()))
    {
      if wake.Some? {
        wake := None;
      }
    }

    method Fail(he: Failure)
      modifies `done, `err, `wake, `readReady, `writeReady, `connRead
      ensures View() == ConnState.Fail(old(View()), he)
    {
      done, err := true, Some(he);
      Broadcast();
      StoreReady();
      if busy {
        connRead := LONG_AGO;
      }
    }

    method End(he: Option<Failure>) returns (hook: bool)
      modifies `done, `err, `wake, `readReady, `writeReady, `connRead
      ensures (View(), hook) == ConnState.End(old(View()), he)
      ensures done && hook == (!old(done) && phase.Sent?) && err == (if old(done) || he.None? then old(err) else he)
      ensures Ok(old(View())) && (he.None? ==> abortErr.None? && !busy && !phase.Idle?) ==> Kept(old(View()), View(), hook)
    {
      EndKeeps(View(), he);
      if done {
        return false;
      }
      if he.None? {
        done := true;
        Broadcast();
        StoreReady();
      } else {
        Fail(he.value);
      }
      hook := phase.Sent?;
    }

    method Blame(he: Option<Failure>, stage: Stage, cause: Option<Error>, dl: Deadline, now: int) returns (b: Option<Failure>)
      ensures b == ConnState.Blame(View(), he, stage, cause, dl, now)
      ensures b.None? <==> he.None? && cause.None?
      ensures he.Some? && IsServerMsg(he.value.err) ==> b == he
      ensures cause.Some? && (he.None? || !IsServerMsg(he.value.err)) ==> b.Some? && b.value.err == cause.value
      ensures he.Some? && cause.None? && b != he ==>
                he.value.err.Timeout? && dl.At? && dl.t <= now && b == Some(Failure(he.value.stage, DeadlineExceeded))
    {
      if he.Some? && IsServerMsg(he.value.err) {
        b := he;
      } else if cause.Some? {
        b := Some(Failure(if he.Some? then he.value.stage else stage, cause.value));
      } else if he.Some? && dl.At? && he.value.err.Timeout? && now >= dl.t
                && (readDeadline.NoDeadline? || dl.t < readDeadline.t) {
        b := Some(Failure(he.value.stage, DeadlineExceeded));
      } else {
        b := he;
      }
    }

    method Settle(stage: Stage) returns (hook: bool)
      modifies `done, `err, `wake, `readReady, `writeReady, `connRead
      ensures (View(), hook) == ConnState.Settle(old(View()), stage)
      ensures done == (old(done) || (abortErr.Some? && phase.Sent? && !busy)) && hook == (done && !old(done))
      ensures done && !old(done) ==> err == Some(Failure(stage, abortErr.value))
      ensures Ok(old(View())) ==> Kept(old(View()), View(), hook)
    {
      hide ConnState.End, ConnState.Blame, Ok, Kept;
      SettleKeeps(View(), stage);
      hook := false;
      if abortErr.Some? && phase.Sent? && !busy {
        var he := Blame(None, stage, abortErr, NoDeadline, 0);
        hook := End(he);
      }
      Broadcast();
    }

    method EndIO(ctxErr: Option<Error>)
      modifies `busy, `abortErr
      ensures View() == ConnState.EndIO(old(View()), ctxErr)
    {
      busy := false;
      if abortErr.None? && ctxErr.Some? {
        abortErr := ctxErr;
      }
    }

    method Check() returns (e: Option<Error>)
      ensures e == ConnState.Check(View()) && IsTold(View(), e)
    {
      e := if closed then Some(Error.Closed) else if err.Some? then Some(err.value.err) else None;
    }

    method Sleep() returns (ch: nat)
      modifies `wake, `channels
      ensures (View(), ch) == ConnState.Sleep(old(View()))
    {
      if wake.None? {
        wake, channels := Some(channels), channels + 1;
      }
      ch := wake.value;
    }

    // -------------------------------------------------- the critical sections

    /** claimRunLocked, until it claims, returns or sleeps. */
    method ClaimRun(stage: Stage) returns (next: Next, hook: bool)
      requires Ok(View()) && (phase.Idle? ==> wake.None?)
      modifies this
      ensures Effect(View(), next, hook) == ConnState.ClaimRun(old(View()), stage)
      ensures Kept(old(View()), View(), hook)
    {
      hide Kept, Ok;
      ClaimRunKeeps(View(), stage);
      hook := false;
      while true
        invariant done || (View() == old(View()) && !hook)
        invariant done ==> (done == old(done) && View() == old(View()) && !hook)
                           || (!old(done) && ConnState.Check(old(View())).None? && old(phase).Idle? && old(abortErr).Some?
                               && (View(), hook) == ConnState.End(old(View()), Some(Failure(stage, old(abortErr).value))))
        decreases if done then 0 else 1
      {
        var e := Check();
        if e.Some? || done {
          return Return(e), hook;
        }
        if !phase.Idle? {
          var ch := Sleep();
          return Wait(ch), false;
        } else if abortErr.Some? {
          hook := End(Some(Failure(stage, abortErr.value)));
        } else {
          phase, busy := Sending, true;
          return Go, false;
        }
      }
    }

    method RunEnd(he: Option<Failure>, stage: Stage, ctxErr: Option<Error>) returns (next: Next, hook: bool)
      requires Ok(View()) && busy && phase.Sending? && !done && replyDeadline.NoDeadline?
      modifies this
      ensures Effect(View(), next, hook) == ConnState.RunEnd(old(View()), he, stage, ctxErr)
      ensures Kept(old(View()), View(), hook)
    {
      hide Kept, Ok;
      RunEndKeeps(View(), he, stage, ctxErr);
      hide ConnState.Blame, ConnState.End;
      EndIO(ctxErr);
      phase := Sent;
      var b := Blame(he, stage, abortErr, NoDeadline, 0);
      hook := End(b);
      var e := Check();
      next := Return(e);
    }

    method ClaimSend() returns (next: Next, hook: bool)
      requires Ok(View())
      modifies `phase, `wake
      ensures Effect(View(), next, hook) == ConnState.ClaimSend(old(View()))
      ensures Kept(old(View()), View(), hook)
    {
      hide Kept, Ok;
      ClaimSendKeeps(View());
      hook := false;
      var e := Check();
      if e.Some? || !phase.Idle? {
        return Return(e), false;
      }
      phase := Sending;
      Broadcast();
      next := Go;
    }

    method FailShort(he: Option<Failure>) returns (hook: bool)
      modifies `done, `err, `wake, `readReady, `writeReady, `connRead
      ensures (View(), hook) == ConnState.FailShort(old(View()), he)
    {
      hook := End(he);
      if err.None? {
        err := he;
        StoreReady();
      }
    }

    method SendEnd(short: bool, werr: Option<Error>, stage: Stage) returns (next: Next, hook: bool)
      requires Ok(View()) && phase.Sending? && (short ==> werr.Some?)
      modifies this
      ensures Effect(View(), next, hook) == ConnState.SendEnd(old(View()), short, werr, stage)
      ensures Kept(old(View()), View(), hook)
    {
      hide Kept, Ok;
      hide ConnState.Blame, ConnState.FailShort, ConnState.Settle, ConnState.StoreReady;
      var owed := done;
      phase := Sent;
      assert View() == old(View()).(phase := Sent);
      if short && werr.Some? {
        next, hook := SendFailed(werr.value, stage);
      } else {
        StoreReady();
        hook := Settle(stage);
        next := Return(werr);
      }
      hook := hook || owed;
      assert Effect(View(), next, hook) == ConnState.SendEnd(old(View()), short, werr, stage);
      SendEndKeeps(old(View()), short, werr, stage);
    }

    method SendFailed(werr: Error, stage: Stage) returns (next: Next, hook: bool)
      modifies `done, `err, `wake, `readReady, `writeReady, `connRead
      ensures var he := ConnState.Blame(old(View()), Some(Failure(stage, werr)), stage, old(abortErr), NoDeadline, 0);
              (View(), hook) == ConnState.FailShort(old(View()), he)
      ensures next == Return(if err.Some? then Some(err.value.err) else None)
    {
      var he := Blame(Some(Failure(stage, werr)), stage, abortErr, NoDeadline, 0);
      hook := FailShort(he);
      next := Return(if err.Some? then Some(err.value.err) else None);
    }

    method WaitWritten() returns (next: Next)
      requires Ok(View())
      modifies `wake, `channels
      ensures Effect(View(), next, false) == ConnState.WaitWritten(old(View()))
      ensures Kept(old(View()), View(), false)
    {
      hide Kept, Ok;
      WaitWrittenKeeps(View());
      if !phase.Sent? && !done && !closed {
        var ch := Sleep();
        return Wait(ch);
      }
      var e := Check();
      next := Return(e);
    }

    method WaitClaimed(now: int) returns (next: Next)
      requires Ok(View())
      modifies `wake, `channels
      ensures Effect(View(), next, false) == ConnState.WaitClaimed(old(View()), now)
      ensures Kept(old(View()), View(), false)
    {
      hide Kept, Ok;
      WaitClaimedKeeps(View(), now);
      if !(phase.Idle? && !done && !closed) {
        return Go;
      }
      if readDeadline.At? && now >= readDeadline.t {
        return Return(Some(Timeout));
      }
      var ch := Sleep();
      next := Wait(ch);
    }

    method ClaimRead(dl: Deadline, stage: Stage) returns (next: Next, hook: bool)
      requires Ok(View()) && !ClaimPending(View())
      modifies this
      ensures Effect(View(), next, hook) == ConnState.ClaimRead(old(View()), dl, stage)
      ensures Kept(old(View()), View(), hook)
    {
      hide Kept, Ok;
      ClaimReadKeeps(View(), dl, stage);
      hook := false;
      var e := Check();
      if e.Some? || done {
        return Return(e), false;
      }
      if abortErr.Some? && phase.Sent? && !busy {
        hook := Settle(stage);
        return Again, hook;
      }
      if abortErr.None? && !busy {
        busy, replyDeadline := true, dl;
        if dl.At? {
          connRead := Earliest(readDeadline, dl);
        }
        return Go, false;
      }
      var ch := Sleep();
      next := Wait(ch);
    }

    method ClearReplyDeadline()
      modifies `replyDeadline, `connRead
      ensures View() == ConnState.ClearReplyDeadline(old(View()))
    {
      if replyDeadline.At? {
        replyDeadline := NoDeadline;
        if abortErr.None? {
          connRead := readDeadline;
        }
      }
    }

    method AwaitEnd(he: Option<Failure>, stage: Stage, ctxErr: Option<Error>, dl: Deadline, now: int)
      returns (next: Next, hook: bool)
      requires Ok(View()) && busy
      modifies this
      ensures Effect(View(), next, hook) == ConnState.AwaitEnd(old(View()), he, stage, ctxErr, dl, now)
      ensures Kept(old(View()), View(), hook)
    {
      hide Kept, Ok;
      AwaitEndKeeps(View(), he, stage, ctxErr, dl, now);
      hide ConnState.Blame, ConnState.End;
      EndIO(ctxErr);
      ClearReplyDeadline();
      var b := Blame(he, stage, abortErr, dl, now);
      hook := End(b);
      var e := Check();
      next := Return(e);
    }

    method AbortWith(e: Error, stage: Stage) returns (hook: bool)
      requires Ok(View())
      modifies this
      ensures (View(), hook) == Abort(old(View()), e, stage)
      ensures Kept(old(View()), View(), hook)
    {
      hide Kept, Ok;
      AbortKeeps(View(), e, stage);
      hide ConnState.Settle;
      if done || abortErr.Some? {
        return false;
      }
      abortErr, connRead := Some(e), LONG_AGO;
      hook := Settle(stage);
    }

    method Close(stage: Stage) returns (hook: bool, e: Option<Error>)
      requires Ok(View())
      modifies this
      ensures (View(), hook) == ConnState.Close(old(View()), stage) && e.Some? == old(closed)
      ensures Kept(old(View()), View(), hook)
    {
      hide Kept, Ok, ConnState.Settle, ConnState.MarkClosed;
      CloseKeeps(View(), stage);
      if closed {
        return false, Some(Error.Closed);
      }
      MarkClosed();
      hook := Settle(stage);
      e := None;
      assert (View(), hook) == ConnState.Close(old(View()), stage);
    }

    method MarkClosed()
      modifies `closed, `abortErr, `readReady, `writeReady
      ensures View() == ConnState.MarkClosed(old(View()))
    {
      closed := true;
      if abortErr.None? && !done {
        abortErr := Some(Error.Closed);
      }
      StoreReady();
    }

    method SetReadDeadline(t: Deadline)
      requires Ok(View())
      modifies `readDeadline, `wake, `connRead
      ensures View() == ConnState.SetReadDeadline(old(View()), t)
      ensures Kept(old(View()), View(), false) && readDeadline == t
      ensures if abortErr.Some? && !done then connRead == old(connRead) else IsSooner(connRead, t, replyDeadline)
    {
      hide Kept, Ok;
      SetReadDeadlineKeeps(View(), t);
      readDeadline := t;
      Broadcast();
      if abortErr.Some? && !done {
        return;
      }
      connRead := if replyDeadline.At? then Earliest(t, replyDeadline) else t;
    }
  }
}
