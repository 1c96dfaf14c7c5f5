/** The fields of a client Conn that its mutex guards, and what each critical section makes of them
    (go/socks0/conn.go). */
module ConnState {
  import opened Wire

  /** Nobody's yet, some call's, over: the first write. */
  datatype Phase = Idle | Sending | Sent {
    function Rank(): nat { match this case Idle => 0 case Sending => 1 case Sent => 2 }
  }

  datatype Deadline = NoDeadline | At(t: int)

  const LONG_AGO := At(1)

  function Earliest(a: Deadline, b: Deadline): Deadline {
    if a.NoDeadline? || (b.At? && b.t < a.t) then b else a
  }

  /** wake is the channel the next waiter sleeps on, by number; the closed ones are those made before. */
  datatype State = State(
    phase: Phase, busy: bool, done: bool, closed: bool,
    abortErr: Option<Error>, err: Option<Failure>,
    readDeadline: Deadline, replyDeadline: Deadline,
    wake: Option<nat>, channels: nat,
    readReady: bool, writeReady: bool,
    connRead: Deadline) // the read deadline of the underlying conn

  const INIT := State(Idle, false, false, false, None, None, NoDeadline, NoDeadline, None, 0, false, false, NoDeadline)

  // -------------------------------------------------------- the small steps

  function StoreReady(s: State): State {
    var ok := s.err.None? && !s.closed;
    s.(readReady := ok && s.done, writeReady := ok && s.phase.Sent?)
  }

  function Broadcast(s: State): State { s.(wake := None) }

  function Establish(s: State): State { StoreReady(Broadcast(s.(done := true))) }

  function Fail(s: State, he: Failure): State {
    var f := StoreReady(Broadcast(s.(done := true, err := Some(he))));
    if f.busy then f.(connRead := LONG_AGO) else f
  }

  /** A new Conn: one whose configuration is bad has failed before anybody uses it. */
  function Opened(conf: Option<Failure>): State {
    if conf.Some? then Fail(INIT, conf.value) else INIT
  }

  /** The one end of the handshake, and whether it was written by then, so that HandshakeDone is due. */
  function End(s: State, he: Option<Failure>): (State, bool) {
    if s.done then (s, false)
    else if he.None? then (Establish(s), s.phase.Sent?)
    else (Fail(s, he.value), s.phase.Sent?)
  }

  predicate IsServerMsg(e: Error) {
    e.BadField? || e.Truncated? || e.MethodRefused? || e.AuthRejected? || e.ReplyRefused?
  }

  /** What to report: what the proxy said, if it said no; else what broke the handshake off; else a
      timeout under ReplyTimeout's own deadline dl goes by that name. */
  function Blame(s: State, he: Option<Failure>, stage: Stage, cause: Option<Error>, dl: Deadline, now: int): Option<Failure> {
    if he.Some? && IsServerMsg(he.value.err) then he
    else if cause.Some? then Some(Failure(if he.Some? then he.value.stage else stage, cause.value))
    else if he.Some? && Expired(s, he.value.err, dl, now) then Some(Failure(he.value.stage, DeadlineExceeded))
    else he
  }

  predicate Expired(s: State, e: Error, dl: Deadline, now: int) {
    dl.At? && e.Timeout? && now >= dl.t && (s.readDeadline.NoDeadline? || dl.t < s.readDeadline.t)
  }

  /** An aborted handshake that nobody sees to any more fails here; every sleeper looks again. */
  function Settle(s: State, stage: Stage): (State, bool) {
    var (t, hook) := if s.abortErr.Some? && s.phase.Sent? && !s.busy
                     then End(s, Blame(s, None, stage, s.abortErr, NoDeadline, 0)) else (s, false);
    (Broadcast(t), hook)
  }

  function EndIO(s: State, ctxErr: Option<Error>): State {
    var t := s.(busy := false);
    if t.abortErr.None? then t.(abortErr := ctxErr) else t
  }

  /** The error a call gets now, if any. */
  function Check(s: State): Option<Error> {
    if s.closed then Some(Closed) else if s.err.Some? then Some(s.err.value.err) else None
  }

  /** The channel to sleep on. */
  function Sleep(s: State): (State, nat) {
    if s.wake.Some? then (s, s.wake.value) else (s.(wake := Some(s.channels), channels := s.channels + 1), s.channels)
  }

  // -------------------------------------------------- the critical sections

  /** What a call does after one of its critical sections. */
  datatype Next =
    | Return(err: Option<Error>) // with c.checkLocked's answer
    | Wait(ch: nat)
    | Go
    | Again

  datatype Effect = Effect(s: State, next: Next, hook: bool)

  /** claimRunLocked: this call runs the handshake, or waits for the one that does. */
  function ClaimRun(s: State, stage: Stage): Effect {
    if Check(s).Some? || s.done then Effect(s, Return(Check(s)), false)
    else if !s.phase.Idle? then var (t, ch) := Sleep(s); Effect(t, Wait(ch), false)
    else if s.abortErr.Some? then
      var (t, hook) := End(s, Some(Failure(stage, s.abortErr.value)));
      Effect(t, Return(Check(t)), hook)
    else Effect(s.(phase := Sending, busy := true), Go, false)
  }

  /** The end of run. */
  function RunEnd(s: State, he: Option<Failure>, stage: Stage, ctxErr: Option<Error>): Effect {
    var t := EndIO(s, ctxErr).(phase := Sent);
    var (u, hook) := End(t, Blame(t, he, stage, t.abortErr, NoDeadline, 0));
    Effect(u, Return(Check(u)), hook)
  }

  /** claim: this call sends the handshake (Go) or another does. */
  function ClaimSend(s: State): Effect {
    if Check(s).Some? || !s.phase.Idle? then Effect(s, Return(Check(s)), false)
    else Effect(Broadcast(s.(phase := Sending)), Go, false)
  }

  /** A write short of the handshake: the handshake fails, even if the replies came first. */
  function FailShort(s: State, he: Option<Failure>): (State, bool) {
    var (t, hook) := End(s, he);
    (if t.err.None? then StoreReady(t.(err := he)) else t, hook)
  }

  /** The end of send, after a write that was short of the handshake or not. A reader that ended the
      handshake meanwhile left HandshakeDone to this call (owed). */
  function SendEnd(s: State, short: bool, werr: Option<Error>, stage: Stage): Effect {
    var owed := s.done;
    var t := s.(phase := Sent);
    if short && werr.Some? then
      var he := Blame(t, Some(Failure(stage, werr.value)), stage, t.abortErr, NoDeadline, 0);
      var (u, hook) := FailShort(t, he);
      Effect(u, Return(if u.err.Some? then Some(u.err.value.err) else None), hook || owed)
    else
      var (u, hook) := Settle(StoreReady(t), stage);
      Effect(u, Return(werr), hook || owed)
  }

  predicate WritePending(s: State) { !s.phase.Sent? && !s.done && !s.closed }

  function WaitWritten(s: State): Effect {
    if WritePending(s) then var (t, ch) := Sleep(s); Effect(t, Wait(ch), false)
    else Effect(s, Return(Check(s)), false)
  }

  predicate ClaimPending(s: State) { s.phase.Idle? && !s.done && !s.closed }

  /** waitClaimedLocked: a reader has nothing to do before a claim; its deadline may pass first. */
  function WaitClaimed(s: State, now: int): Effect {
    if !ClaimPending(s) then Effect(s, Go, false)
    else if s.readDeadline.At? && now >= s.readDeadline.t then Effect(s, Return(Some(Timeout)), false)
    else var (t, ch) := Sleep(s); Effect(t, Wait(ch), false)
  }

  predicate ReadPending(s: State) {
    !s.done && Check(s).None? && (s.busy || (s.abortErr.Some? && !s.phase.Sent?))
  }

  /** claimReadLocked, one turn: this call reads the replies, or waits for the one that does. */
  function ClaimRead(s: State, dl: Deadline, stage: Stage): Effect {
    if Check(s).Some? || s.done then Effect(s, Return(Check(s)), false)
    else if s.abortErr.Some? && s.phase.Sent? && !s.busy then
      var (t, hook) := Settle(s, stage);
      Effect(t, Again, hook)
    else if s.abortErr.None? && !s.busy then
      var t := s.(busy := true, replyDeadline := dl);
      Effect(if dl.At? then t.(connRead := Earliest(t.readDeadline, dl)) else t, Go, false)
    else var (t, ch) := Sleep(s); Effect(t, Wait(ch), false)
  }

  function ClearReplyDeadline(s: State): State {
    if s.replyDeadline.NoDeadline? then s
    else
      var t := s.(replyDeadline := NoDeadline);
      if t.abortErr.None? then t.(connRead := t.readDeadline) else t
  }

  /** The end of awaitReplies. */
  function AwaitEnd(s: State, he: Option<Failure>, stage: Stage, ctxErr: Option<Error>, dl: Deadline, now: int): Effect {
    var t := ClearReplyDeadline(EndIO(s, ctxErr));
    var (u, hook) := End(t, Blame(t, he, stage, t.abortErr, dl, now));
    Effect(u, Return(Check(u)), hook)
  }

  function Abort(s: State, e: Error, stage: Stage): (State, bool) {
    if s.done || s.abortErr.Some? then (s, false)
    else Settle(s.(abortErr := Some(e), connRead := LONG_AGO), stage)
  }

  function MarkClosed(s: State): State {
    var t := s.(closed := true);
    StoreReady(if t.abortErr.None? && !t.done then t.(abortErr := Some(Error.Closed)) else t)
  }

  function Close(s: State, stage: Stage): (State, bool) {
    if s.closed then (s, false) else Settle(MarkClosed(s), stage)
  }

  function SetReadDeadline(s: State, d: Deadline): State {
    var t := Broadcast(s.(readDeadline := d));
    if t.abortErr.Some? && !t.done then t
    else t.(connRead := if t.replyDeadline.At? then Earliest(d, t.replyDeadline) else d)
  }

  // ---------------------------------------------------- what they are for

  /** The deadline in force is that of the two which comes first: it is one of them, and not past
      either. */
  predicate IsSooner(c: Deadline, r: Deadline, d: Deadline) {
    && (c == r || c == d) && (c.NoDeadline? ==> r.NoDeadline? && d.NoDeadline?)
    && (r.At? && c.At? ==> c.t <= r.t) && (d.At? && c.At? ==> c.t <= d.t)
  }

  /** What a call is told: nothing while all is well, that the conn is closed once it is, and else
      why the handshake failed. */
  predicate IsTold(s: State, e: Option<Error>) {
    && (e.None? <==> !s.closed && s.err.None?)
    && (s.closed ==> e == Some(Error.Closed))
    && (!s.closed && s.err.Some? ==> e == Some(s.err.value.err))
  }

  // ------------------------------------------------------------- invariants

  /** What holds whenever the mutex is free. */
  ghost predicate Ok(s: State) {
    && s.readReady == (s.done && s.err.None? && !s.closed)
    && s.writeReady == (s.phase.Sent? && s.err.None? && !s.closed)
    && (s.err.Some? ==> s.done)
    && (s.done && s.err.None? ==> s.abortErr.None?)
    && (s.busy ==> !s.phase.Idle?)
    && (s.busy && s.done ==> s.err.Some?)
    && (s.done && s.err.None? ==> !s.phase.Idle?)
    && (s.wake.Some? ==> s.wake.value < s.channels && !s.done && !s.closed)
    && (s.replyDeadline.At? ==> s.busy)
    && (s.abortErr.None? && s.err.None? ==> s.connRead == Earliest(s.readDeadline, s.replyDeadline))
  }

  /** HandshakeDone is due once the handshake is over and written. */
  function Due(s: State): nat { if s.done && s.phase.Sent? then 1 else 0 }

  /** A waiter's condition stays true on a channel that stays open. */
  ghost predicate WakesWaiters(s: State, t: State) {
    s.wake.Some? && t.wake == s.wake ==>
      && (WritePending(s) ==> WritePending(t))
      && (ClaimPending(s) ==> ClaimPending(t) && t.readDeadline == s.readDeadline)
      && (ReadPending(s) ==> ReadPending(t))
      && (!s.phase.Idle? ==> !t.phase.Idle?)
  }

  /** What every critical section keeps: everything only advances, a failure is final, and so is a
      success once the handshake write is over; HandshakeDone is called when due; nobody is left
      asleep. */
  ghost predicate Advances(s: State, t: State, hook: bool) {
    && s.phase.Rank() <= t.phase.Rank()
    && (s.done ==> t.done) && (s.closed ==> t.closed)
    && (s.err.Some? || (s.done && s.phase.Sent?) ==> t.err == s.err)
    && (s.abortErr.Some? ==> t.abortErr == s.abortErr)
    && s.channels <= t.channels && (t.wake.Some? ==> t.wake == s.wake || t.wake.value >= s.channels)
    && Due(t) == Due(s) + (if hook then 1 else 0)
    && WakesWaiters(s, t)
  }

  /** The handshake was written, or is established, without error. */
  predicate Through(s: State) { (s.phase.Sent? || s.done) && s.err.None? }

  ghost predicate Kept(s: State, t: State, hook: bool) { Ok(t) && Advances(s, t, hook) }

  lemma CheckTells(s: State)
    ensures IsTold(s, Check(s))
  {
  }

  lemma ClaimRunKeeps(s: State, stage: Stage)
    requires Ok(s) && (s.phase.Idle? ==> s.wake.None?)
    ensures var r := ClaimRun(s, stage);
            && Kept(s, r.s, r.hook)
            && (r.next.Wait? ==> r.s.wake == Some(r.next.ch) && !r.s.phase.Idle? && !r.s.done && !r.s.closed)
            && (r.next.Go? ==>
                  s.phase.Idle? && !s.busy && !s.done && !s.closed && r.s.phase.Sending? && r.s.busy && !r.s.done)
            && (r.next.Return? && r.next.err.None? ==> r.s.done && r.s.err.None?)
            && (!r.next.Go? ==> r.s.phase == s.phase && r.s.busy == s.busy)
            && (r.s.phase.Idle? ==> r.s.wake.None?) && r.s.replyDeadline == s.replyDeadline && !r.next.Again?
            && (s.phase.Sending? ==> r.s.done == s.done)
            && (Through(r.s) ==> Through(s))
            && (r.next.Return? ==> IsTold(r.s, r.next.err))
  {
  }

  lemma RunEndKeeps(s: State, he: Option<Failure>, stage: Stage, ctxErr: Option<Error>)
    requires Ok(s) && s.busy && s.phase.Sending? && !s.done && s.replyDeadline.NoDeadline?
    ensures var r := RunEnd(s, he, stage, ctxErr);
            && Kept(s, r.s, r.hook) && r.s.done && r.s.phase.Sent? && !r.s.busy
            && (r.s.err.None? <==> he.None? && s.abortErr.None? && ctxErr.None?)
            && r.next.Return? && IsTold(r.s, r.next.err)
  {
    hide Blame, Check, IsTold;
    var t := EndIO(s, ctxErr).(phase := Sent);
    BlameDecides(t, he, stage, t.abortErr, NoDeadline, 0);
    CheckTells(RunEnd(s, he, stage, ctxErr).s);
  }

  lemma ClaimSendKeeps(s: State)
    requires Ok(s)
    ensures var r := ClaimSend(s);
            && Kept(s, r.s, r.hook) && r.s.busy == s.busy && r.s.done == s.done
            && r.s.replyDeadline == s.replyDeadline
            && (r.next.Go? ==> s.phase.Idle? && r.s.phase.Sending?)
            && (r.next.Return? ==> r.s == s && IsTold(s, r.next.err) && (r.next.err.None? ==> !s.phase.Idle?))
            && (Through(r.s) ==> Through(s))
  {
  }

  /** The first end counts; a success is for a handshake that nobody is at and nobody cancelled. */
  lemma EndKeeps(s: State, he: Option<Failure>)
    ensures var (t, hook) := End(s, he);
            && t.done && hook == (!s.done && s.phase.Sent?) && t.err == (if s.done || he.None? then s.err else he)
            && (Ok(s) && (he.None? ==> s.abortErr.None? && !s.busy && !s.phase.Idle?) ==> Kept(s, t, hook))
  {
  }

  /** A cancellation ends the handshake once it is written and nobody reads its replies. */
  lemma SettleKeeps(s: State, stage: Stage)
    ensures var (t, hook) := Settle(s, stage);
            && t.done == (s.done || (s.abortErr.Some? && s.phase.Sent? && !s.busy)) && hook == (t.done && !s.done)
            && (t.done && !s.done ==> t.err == Some(Failure(stage, s.abortErr.value)))
            && (Ok(s) ==> Kept(s, t, hook))
  {
    BlameDecides(s, None, stage, s.abortErr, NoDeadline, 0);
    if s.abortErr.Some? && s.phase.Sent? && !s.busy {
      EndKeeps(s, Blame(s, None, stage, s.abortErr, NoDeadline, 0));
    }
  }

  lemma SendEndKeeps(s: State, short: bool, werr: Option<Error>, stage: Stage)
    requires Ok(s) && s.phase.Sending? && (short ==> werr.Some?)
    ensures var r := SendEnd(s, short, werr, stage);
            && Kept(s, r.s, r.hook) && r.s.phase.Sent? && r.s.busy == s.busy && r.s.replyDeadline == s.replyDeadline
            && (short ==> r.s.done && r.s.err.Some? && r.next.Return? && r.next.err.Some?)
  {
    hide Blame;
    var t := s.(phase := Sent);
    if short {
      BlameDecides(t, Some(Failure(stage, werr.value)), stage, t.abortErr, NoDeadline, 0);
    }
    BlameDecides(StoreReady(t), None, stage, t.abortErr, NoDeadline, 0);
  }

  lemma WaitWrittenKeeps(s: State)
    requires Ok(s)
    ensures var r := WaitWritten(s);
            && Kept(s, r.s, r.hook) && r.s.phase == s.phase && r.s.busy == s.busy && r.s.done == s.done
            && r.s.replyDeadline == s.replyDeadline && !r.next.Again? && !r.next.Go?
            && (r.next.Wait? ==> r.s.wake == Some(r.next.ch) && WritePending(r.s))
            && (r.next.Return? ==> r.s == s && IsTold(s, r.next.err))
            && (r.next.Return? && r.next.err.None? ==> s.err.None? && !s.closed && (s.phase.Sent? || s.done))
            && (Through(r.s) ==> Through(s))
  {
  }

  lemma WaitClaimedKeeps(s: State, now: int)
    requires Ok(s)
    ensures var r := WaitClaimed(s, now);
            && Kept(s, r.s, r.hook) && r.s.phase == s.phase && r.s.busy == s.busy && r.s.done == s.done
            && r.s.replyDeadline == s.replyDeadline && r.s.readDeadline == s.readDeadline && !r.next.Again?
            && (r.next.Wait? ==> r.s.wake == Some(r.next.ch) && ClaimPending(r.s))
            && (r.next.Go? ==> r.s == s && !ClaimPending(s))
            && (Through(r.s) ==> Through(s))
  {
  }

  lemma ClaimReadKeeps(s: State, dl: Deadline, stage: Stage)
    requires Ok(s) && !ClaimPending(s)
    ensures var r := ClaimRead(s, dl, stage);
            && Kept(s, r.s, r.hook) && r.s.phase == s.phase
            && (r.next.Wait? ==> r.s.wake == Some(r.next.ch) && ReadPending(r.s))
            && (r.next.Go? ==> !s.busy && !s.done && r.s.busy && r.s.replyDeadline == dl)
            && (r.next.Go? && s.err.None? ==> IsSooner(r.s.connRead, s.readDeadline, dl))
            && (r.next.Return? ==> IsTold(r.s, r.next.err))
            && (!r.next.Go? ==> r.s.busy == s.busy && r.s.replyDeadline == s.replyDeadline)
            && (r.next.Again? ==> r.s.done)
            && (r.next.Return? && r.next.err.None? ==> r.s.done && r.s.err.None?)
            && (Through(r.s) ==> Through(s))
  {
  }

  lemma AwaitEndKeeps(s: State, he: Option<Failure>, stage: Stage, ctxErr: Option<Error>, dl: Deadline, now: int)
    requires Ok(s) && s.busy
    ensures var r := AwaitEnd(s, he, stage, ctxErr, dl, now);
            && Kept(s, r.s, r.hook) && r.s.done && r.s.phase == s.phase && !r.s.busy && r.s.replyDeadline.NoDeadline?
            && (!s.done ==> (r.s.err.None? <==> he.None? && s.abortErr.None? && ctxErr.None?))
            && r.next.Return? && IsTold(r.s, r.next.err)
            && (r.s.abortErr.None? && r.s.err.None? ==> r.s.connRead == s.readDeadline)
  {
    hide Blame, Check, IsTold;
    var t := ClearReplyDeadline(EndIO(s, ctxErr));
    BlameDecides(t, he, stage, t.abortErr, dl, now);
    CheckTells(AwaitEnd(s, he, stage, ctxErr, dl, now).s);
  }

  lemma AbortKeeps(s: State, e: Error, stage: Stage)
    requires Ok(s)
    ensures var (t, hook) := Abort(s, e, stage);
            Kept(s, t, hook) && t.phase == s.phase && t.busy == s.busy && t.replyDeadline == s.replyDeadline
            && (t.wake.Some? ==> t.wake == s.wake)
            && (!s.done && !(s.phase.Sent? && !s.busy) ==> !t.done)
            && (Through(t) ==> Through(s))
  {
    hide Blame;
    var t := s.(abortErr := Some(e), connRead := LONG_AGO);
    BlameDecides(t, None, stage, t.abortErr, NoDeadline, 0);
  }

  lemma CloseKeeps(s: State, stage: Stage)
    requires Ok(s)
    ensures var (t, hook) := Close(s, stage);
            Kept(s, t, hook) && t.closed && t.phase == s.phase && t.busy == s.busy && t.replyDeadline == s.replyDeadline
            && (t.wake.Some? ==> t.wake == s.wake)
            && (!s.done && !(s.phase.Sent? && !s.busy) ==> !t.done)
            && (Through(t) ==> Through(s))
  {
    hide Blame;
    var t := s.(closed := true);
    var u := StoreReady(if t.abortErr.None? && !t.done then t.(abortErr := Some(Error.Closed)) else t);
    BlameDecides(u, None, stage, u.abortErr, NoDeadline, 0);
  }

  lemma SetReadDeadlineKeeps(s: State, d: Deadline)
    requires Ok(s)
    ensures var t := SetReadDeadline(s, d);
            Kept(s, t, false) && t.phase == s.phase && t.busy == s.busy && t.done == s.done && t.closed == s.closed
            && t.replyDeadline == s.replyDeadline && t.wake.None? && t.readDeadline == d
            && (if s.abortErr.Some? && !s.done then t.connRead == s.connRead
                else IsSooner(t.connRead, d, s.replyDeadline))
            && (Through(t) ==> Through(s))
  {
  }

  // ------------------------------------------------------- what blame decides

  /** A proxy's own message is never replaced; otherwise a cancellation or Close is what is reported;
      a handshake is established only if nothing went wrong. */
  lemma BlameDecides(s: State, he: Option<Failure>, stage: Stage, cause: Option<Error>, dl: Deadline, now: int)
    ensures var b := Blame(s, he, stage, cause, dl, now);
            && (he.Some? && IsServerMsg(he.value.err) ==> b == he)
            && (b.None? <==> he.None? && cause.None?)
            && (b.Some? && he.Some? ==> b.value.stage == he.value.stage)
            && (b.Some? && cause.Some? && (he.None? || !IsServerMsg(he.value.err)) ==> b.value.err == cause.value)
            && (he.Some? && cause.None? && b != he ==> b.value.err == DeadlineExceeded)
            && (he.Some? && cause.None? && he.value.err != DeadlineExceeded ==>
                  (b != he <==> he.value.err.Timeout? && dl.At? && dl.t <= now
                                && (s.readDeadline.At? ==> dl.t < s.readDeadline.t)))
  {
  }
}
