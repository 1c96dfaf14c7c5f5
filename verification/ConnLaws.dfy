/** What each critical section of a client Conn decides, and where a call goes after each of its steps
    (go/socks0/conn.go): which call claims, which waits, which gets what error. */
module ConnLaws {
  import opened Wire
  import opened ConnState
  import opened ConnRuns

  // -------------------------------------------------- the critical sections

  /** A local error is not the proxy's word. */
  lemma ServerMessages(e: Error)
    ensures !IsServerMsg(e) <==>
              || e in {EOF, Timeout, DeadlineExceeded, Reset, Error.Closed, Canceled, WriteFailed}
              || e in {NoCommonMethod, BadCredentials, NotPermitted, TooLong, BufferFull, AlreadyReplied, NotBind}
  {
  }

  /** A failure wakes everybody, and whoever reads is interrupted. */
  lemma Fails(s: State, he: Failure)
    ensures var t := ConnState.Fail(s, he);
            && t.done && t.err == Some(he) && t.wake.None? && !t.readReady && !t.writeReady
            && t.connRead == (if s.busy then At(1) else s.connRead)
            && t.phase == s.phase && t.busy == s.busy && t.closed == s.closed && t.abortErr == s.abortErr
  {
  }

  /** Whether nothing is over yet. */
  predicate Open(s: State) { !s.done && !s.closed && s.err.None? }

  /** The first call at an idle conn runs the handshake, unless it was aborted before: then it fails with
      that. Others wait for it, or are told how it ended. */
  lemma RunClaims(s: State, stage: Stage)
    requires Ok(s)
    ensures var r := ClaimRun(s, stage);
            && (r.next.Go? <==> Open(s) && s.phase.Idle? && s.abortErr.None?)
            && (r.next.Wait? <==> Open(s) && !s.phase.Idle?)
            && (Open(s) && s.phase.Idle? && s.abortErr.Some? ==>
                  r.s.done && r.s.err == Some(Failure(stage, s.abortErr.value)) && r.next.Return?)
            && (!Open(s) ==> r.s == s && r.next.Return?)
  {
  }

  /** The first call that writes claims the handshake; nobody else does. */
  lemma SendClaims(s: State)
    requires Ok(s)
    ensures ClaimSend(s).next.Go? <==> s.phase.Idle? && !s.closed && s.err.None?
    ensures !ClaimSend(s).next.Go? ==> ClaimSend(s).s == s && ClaimSend(s).next.Return?
  {
  }

  /** What a handshake that went wrong is blamed on, by a call that saw he and knows of a cause. */
  function Blamed(he: Option<Failure>, stage: Stage, cause: Option<Error>): Option<Failure> {
    if cause.None? || (he.Some? && IsServerMsg(he.value.err)) then he
    else Some(Failure(if he.Some? then he.value.stage else stage, cause.value))
  }

  /** After the write: its own error, if any, is the caller's. In full, it ends an aborted handshake that
      nobody reads for; cut short, it ends any, with the cancellation if there was one. */
  lemma SendEnds(s: State, short: bool, werr: Option<Error>, stage: Stage)
    requires Ok(s) && s.phase.Sending? && (short ==> werr.Some?)
    ensures var r := SendEnd(s, short, werr, stage);
            if short then
              && r.s.err == (if s.err.Some? then s.err else Blamed(Some(Failure(stage, werr.value)), stage, s.abortErr))
              && r.next == Return(Some(r.s.err.value.err))
            else
              && r.next == Return(werr)
              && if !s.done && s.abortErr.Some? && !s.busy then r.s.err == Some(Failure(stage, s.abortErr.value))
                 else r.s.err == s.err && r.s.done == s.done
  {
  }

  /** A call that is to write data waits while the handshake is neither written nor over. */
  lemma WritesWaited(s: State)
    requires Ok(s)
    ensures WaitWritten(s).next.Wait? <==> !s.phase.Sent? && Open(s)
  {
  }

  /** A reader waits for somebody to claim the handshake, up to its own deadline. */
  lemma ClaimsWaited(s: State, now: int)
    requires Ok(s)
    ensures var next := WaitClaimed(s, now).next;
            && (next.Go? <==> !(s.phase.Idle? && Open(s)))
            && (next.Return? <==> s.phase.Idle? && Open(s) && s.readDeadline.At? && s.readDeadline.t <= now)
            && (next.Return? ==> next == Return(Some(Timeout)) && WaitClaimed(s, now).s == s)
            && (next.Wait? <==> s.phase.Idle? && Open(s) && (s.readDeadline.At? ==> now < s.readDeadline.t))
  {
  }

  /** One call reads the replies, unless the handshake was aborted; once that is written and nobody
      reads, it is over. The others wait, or are told how it ended. */
  lemma ReadClaims(s: State, dl: Deadline, stage: Stage)
    requires Ok(s) && !s.phase.Idle?
    ensures var r := ClaimRead(s, dl, stage);
            && (r.next.Go? <==> Open(s) && s.abortErr.None? && !s.busy)
            && (r.next.Again? <==> Open(s) && s.abortErr.Some? && s.phase.Sent? && !s.busy)
            && (r.next.Again? ==> r.s.done && r.s.err == Some(Failure(stage, s.abortErr.value)))
            && (r.next.Wait? <==> Open(s) && (s.busy || (s.abortErr.Some? && !s.phase.Sent?)))
            && (r.next.Return? <==> !Open(s))
  {
  }

  /** How a handshake run in one go ends: with what went wrong, a cancellation first. */
  lemma RunEnds(s: State, he: Option<Failure>, stage: Stage, ctxErr: Option<Error>)
    requires Ok(s) && s.busy && s.phase.Sending? && !s.done && s.replyDeadline.NoDeadline?
    ensures RunEnd(s, he, stage, ctxErr).s.err == Blamed(he, stage, if s.abortErr.Some? then s.abortErr else ctxErr)
  {
  }

  /** A timeout under ReplyTimeout's deadline alone goes by that name. */
  predicate TooLate(s: State, he: Option<Failure>, dl: Deadline, now: int) {
    && he.Some? && he.value.err == Timeout
    && dl.At? && dl.t <= now && (s.readDeadline.At? ==> dl.t < s.readDeadline.t)
  }

  lemma Blames(s: State, he: Option<Failure>, stage: Stage, cause: Option<Error>, dl: Deadline, now: int)
    ensures Blame(s, he, stage, cause, dl, now)
              == if cause.None? && TooLate(s, he, dl, now) then Some(Failure(he.value.stage, DeadlineExceeded))
                 else Blamed(he, stage, cause)
  {
  }

  /** How reading the replies ends: the same, but an outcome there is already stays, and a timeout is
      looked at. */
  lemma ReadEnds(s: State, he: Option<Failure>, stage: Stage, ctxErr: Option<Error>, dl: Deadline, now: int)
    requires Ok(s) && s.busy
    ensures var (r, cause) := (AwaitEnd(s, he, stage, ctxErr, dl, now), if s.abortErr.Some? then s.abortErr else ctxErr);
            r.s.err == if s.done then s.err
                       else if cause.None? && TooLate(s, he, dl, now) then Some(Failure(he.value.stage, DeadlineExceeded))
                       else Blamed(he, stage, cause)
  {
    assert s.err.Some? ==> s.done;
    hide Ok, Blame, Blamed, Check;
    var t := ClearReplyDeadline(EndIO(s, ctxErr));
    Blames(t, he, stage, t.abortErr, dl, now);
  }

  /** The first cancellation counts, and interrupts whoever reads or writes; with nobody at it, a written
      handshake is over. */
  lemma Aborts(s: State, e: Error, stage: Stage)
    requires Ok(s)
    ensures var (t, _) := Abort(s, e, stage);
            if s.done || s.abortErr.Some? then t == s
            else
              && t.abortErr == Some(e) && t.connRead == At(1) && t.wake.None?
              && t.err == if s.phase.Sent? && !s.busy then Some(Failure(stage, e)) else None
  {
  }

  /** Close counts once: everybody is woken, nothing is ready any more, and a handshake that is not over
      is cancelled. */
  lemma Closes(s: State, stage: Stage)
    requires Ok(s)
    ensures var (t, _) := Close(s, stage);
            if s.closed then t == s
            else
              && t.closed && t.wake.None? && !t.readReady && !t.writeReady
              && t.abortErr == (if s.done || s.abortErr.Some? then s.abortErr else Some(Error.Closed))
              && t.err == if !s.done && s.phase.Sent? && !s.busy then Some(Failure(stage, t.abortErr.value)) else s.err
  {
  }

  // --------------------------------------------------------- where calls go

  /** Of the calls, Write and ReadFrom go on to write data. */
  predicate ForData(call: Call) { call.Writer? || call.ReadFrom? }

  function After(y: Sys, t: nat, w: World): PC
    requires t in y.at
  {
    On(y, Step(t, w)).at[t]
  }

  /** A call looks whether it may go straight on; CloseWrite hears of an error first. */
  lemma Enters(y: Sys, t: nat, w: World, e: Option<Error>)
    requires Ok(y.c) && t in y.at && y.at[t].Enter? && IsTold(y.c, e)
    ensures var call := y.at[t].call;
            After(y, t, w) == if call.CloseWrite? then (if e.Some? then Returned(e) else Enter(Call.Handshake))
                              else if ForData(call) then (if y.c.phase.Sent? && e.None? then Data else PC.Start(call))
                              else if y.c.done && e.None? then Returned(None) else PC.Start(call)
    ensures On(y, Step(t, w)).c == y.c
  {
  }

  /** Without ModeEarly: the call runs the handshake, waits for the one that does, or is through. */
  lemma StartsRun(y: Sys, t: nat, w: World)
    requires Ok(y.c) && t in y.at && y.at[t].Start? && !y.early
    ensures var (call, r) := (y.at[t].call, ClaimRun(y.c, w.stage));
            && On(y, Step(t, w)).c == r.s
            && After(y, t, w) == match r.next
                                 case Wait(ch) => RunWait(call, ch)
                                 case Return(err) => if err.None? && ForData(call) then Data else Returned(err)
                                 case _ => Running(call, false)
  {
  }

  /** With ModeEarly a Read only ever waits for replies; ReadFrom writes the handshake if nobody did, else
      waits for that; the rest claim the write, and go on behind it. */
  lemma StartsEarly(y: Sys, t: nat, w: World, e: Option<Error>)
    requires Ok(y.c) && t in y.at && y.at[t].Start? && y.early && IsTold(y.c, e)
    ensures var (call, z) := (y.at[t].call, On(y, Step(t, w)));
            match call
            case Reader => z == On(Move(y, t, Await), Step(t, w))
            case ReadFrom =>
              z == Move(y, t, if e.Some? then Returned(e) else if y.c.phase.Idle? then PC.Start(Writer) else AwaitWrite)
            case _ =>
              z.at[t] == if e.Some? then Returned(e) else if y.c.phase.Idle? then Writing(call, false)
                         else if call.Writer? then AwaitWrite else Await
  {
  }

  /** The handshake in one go: it counts as written once, and then the call is told how it ended. */
  lemma RunsThrough(y: Sys, t: nat, w: World, e: Option<Error>)
    requires t in y.at && y.at[t].Running?
    requires y.at[t].wrote ==> IsTold(RunEnd(y.c, w.he, w.stage, w.ctxErr).s, e)
    ensures var (call, z) := (y.at[t].call, On(y, Step(t, w)));
            if !y.at[t].wrote then z == Move(y, t, Running(call, true)).(wrote := y.wrote + 1)
            else
              && z.c == RunEnd(y.c, w.he, w.stage, w.ctxErr).s
              && z.at[t] == (if e.None? && ForData(call) then Data else Returned(e))
              && z.wire == y.wire + if w.he.None? then [TheHandshake] else []
  {
  }

  /** The early write: on the wire in whole or not, then back with an error or without. */
  lemma Writes(y: Sys, t: nat, w: World)
    requires t in y.at && y.at[t].Writing?
    ensures var (call, flushed, z) := (y.at[t].call, y.at[t].flushed, On(y, Step(t, w)));
            if !flushed && w.choice then z.at[t] == Writing(call, true) && z.wire == y.wire + [TheHandshake] && z.wrote == y.wrote
            else if !flushed && w.werr.None? then z == y
            else z.at[t] == SentIt(call, !flushed, w.werr) && z.wire == y.wire && z.wrote == y.wrote + 1
    ensures On(y, Step(t, w)).c == y.c
  {
  }

  /** After it: an error is the call's; otherwise a Write has more data or is through, and the rest wait
      for the replies. */
  lemma WroteIt(y: Sys, t: nat, w: World)
    requires Ok(y.c) && y.c.phase.Sending? && t in y.at && y.at[t].SentIt? && (y.at[t].short ==> y.at[t].werr.Some?)
    ensures var (call, r) := (y.at[t].call, SendEnd(y.c, y.at[t].short, y.at[t].werr, w.stage));
            && r.next.Return? && On(y, Step(t, w)).c == r.s
            && After(y, t, w) == if r.next.err.Some? then Returned(r.next.err) else if !call.Writer? then Await
                                 else if w.choice then Data else Returned(None)
  {
    SendEnds(y.c, y.at[t].short, y.at[t].werr, w.stage);
  }

  /** A Write behind another's handshake: it waits, is told of a failure, or writes. */
  lemma AwaitsWrite(y: Sys, t: nat, w: World, e: Option<Error>)
    requires Ok(y.c) && t in y.at && y.at[t].AwaitWrite? && IsTold(y.c, e)
    ensures var (pc, c) := (After(y, t, w), On(y, Step(t, w)).c);
            if !y.c.phase.Sent? && Open(y.c) then pc.WriteWait? && c.wake == Some(pc.ch)
            else pc == (if e.Some? then Returned(e) else Data) && c == y.c
  {
  }

  /** A Read before the handshake is anybody's: it waits, times out, or goes on to the replies. */
  lemma AwaitsReplies(y: Sys, t: nat, w: World)
    requires Ok(y.c) && t in y.at && y.at[t].Await?
    ensures var (pc, z, next) := (After(y, t, w), On(y, Step(t, w)), WaitClaimed(y.c, w.now).next);
            match next
            case Wait(_) => pc.ClaimWait? && pc.timer == y.c.readDeadline && z.c.wake == Some(pc.ch)
            case Return(_) => pc == Returned(Some(Timeout)) && z.c == y.c
            case _ => z == On(Move(y, t, ReadTurn(w.dl)), Step(t, w))
  {
  }

  /** At the replies: it reads them, waits for the call that does, looks again, or is told. */
  lemma TurnsToReplies(y: Sys, t: nat, w: World)
    requires Ok(y.c) && t in y.at && y.at[t].ReadTurn? && !y.c.phase.Idle?
    ensures var (pc, z, dl) := (After(y, t, w), On(y, Step(t, w)), y.at[t].dl);
            match ClaimRead(y.c, dl, w.stage).next
            case Go => pc == Reading(dl) && z.reader == t
            case Wait(_) => pc.ReadWait? && pc.dl == dl && z.c.wake == Some(pc.ch)
            case Again => pc == ReadTurn(dl)
            case Return(err) => pc == Returned(err)
  {
  }

  /** Having read them it is told how the handshake ended. */
  lemma ReadThem(y: Sys, t: nat, w: World)
    requires t in y.at && y.at[t].Reading?
    ensures var z := On(y, Step(t, w));
            && z.c == AwaitEnd(y.c, w.he, w.stage, w.ctxErr, y.at[t].dl, w.now).s
            && z.at[t].Returned? && IsTold(z.c, z.at[t].err)
  {
  }

  /** A sleeper goes on once its channel is closed, and a Read also once its deadline passed. */
  lemma Wakes(y: Sys, t: nat, w: World)
    requires t in y.at
    ensures match y.at[t]
            case RunWait(call, ch) => After(y, t, w) == if y.c.wake == Some(ch) then y.at[t] else PC.Start(call)
            case WriteWait(ch) => After(y, t, w) == if y.c.wake == Some(ch) then y.at[t] else AwaitWrite
            case ReadWait(dl, ch) => After(y, t, w) == if y.c.wake == Some(ch) then y.at[t] else ReadTurn(dl)
            case ClaimWait(ch, timer) =>
              After(y, t, w) == if y.c.wake == Some(ch) && (timer.At? ==> w.now < timer.t) then y.at[t] else Await
            case Data => On(y, Step(t, w)).wire == y.wire + [DataOf(t)] && After(y, t, w) == Returned(None)
            case Returned(_) => On(y, Step(t, w)) == y
            case _ => true
  {
  }

  /** What happens to the conn from outside. */
  lemma Outsiders(y: Sys, e: Event)
    ensures match e
            case CallIt(t, call) => t !in y.at ==> On(y, e) == y.(at := y.at[t := Enter(call)])
            case CloseConn(stage) => On(y, e).c == Close(y.c, stage).0 && On(y, e).at == y.at && On(y, e).wire == y.wire
            case Cancel(err, stage) => On(y, e).c == Abort(y.c, err, stage).0 && On(y, e).at == y.at && On(y, e).wire == y.wire
            case SetDeadline(d) => On(y, e) == y.(c := SetReadDeadline(y.c, d))
            case _ => true
  {
  }
}
