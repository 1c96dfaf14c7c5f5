/** All runs of a client Conn: any number of calls, each at some point between two critical sections,
    with Close, cancellations and deadline changes at any moment (go/socks0/conn.go). */
module ConnRuns {
  import opened Wire
  import opened ConnState

  /** What a call is for. CloseWrite starts with a check of its own, ReadFrom with one and a read. */
  datatype Call = Handshake | Reader | Writer | CloseWrite | ReadFrom

  /** Where a call is. */
  datatype PC =
    | Enter(call: Call) // about to look at the fast path
    | Start(call: Call) // about to take the mutex
    | RunWait(call: Call, ch: nat)
    | Running(call: Call, wrote: bool) // the handshake's I/O, all of it
    | Writing(call: Call, flushed: bool) // in the first write
    | SentIt(call: Call, short: bool, werr: Option<Error>) // its write returned
    | AwaitWrite
    | WriteWait(ch: nat)
    | Await
    | ClaimWait(ch: nat, timer: Deadline)
    | ReadTurn(dl: Deadline)
    | ReadWait(dl: Deadline, ch: nat)
    | Reading(dl: Deadline) // the replies
    | Data // may write tunnel data
    | Returned(err: Option<Error>)

  datatype Item = TheHandshake | DataOf(t: nat)

  /** What the world decides: the time, the outcome of the I/O, a cancelled context, a choice. */
  datatype World = World(
    now: int, stage: Stage, werr: Option<Error>, he: Option<Failure>, ctxErr: Option<Error>, dl: Deadline, choice: bool)

  datatype Event =
    | CallIt(t: nat, call: Call)
    | Step(t: nat, world: World)
    | CloseConn(stage: Stage)
    | Cancel(e: Error, stage: Stage)
    | SetDeadline(d: Deadline)

  /** early is ModeEarly. Of the ghosts: wire is what reached the proxy in whole, hooks counts
      HandshakeDone and wrote WroteHandshake; writer and reader claimed those parts last. */
  datatype Sys = Sys(
    early: bool, c: State, at: map<nat, PC>, wire: seq<Item>, hooks: nat, wrote: nat, writer: nat, reader: nat)

  /** A new conn, with the error of its configuration, if that is bad. */
  function Init(early: bool, conf: Option<Failure>): Sys { Sys(early, Opened(conf), map[], [], 0, 0, 0, 0) }

  function Move(y: Sys, t: nat, pc: PC): Sys { y.(at := y.at[t := pc]) }

  /** Call t's critical section: the new state, and where t goes. */
  function Put(y: Sys, t: nat, pc: PC, r: Effect): Sys {
    y.(c := r.s, hooks := y.hooks + (if r.hook then 1 else 0), at := y.at[t := pc])
  }

  /** After a call's part in the handshake: the error, or on to what it is for. */
  function Then(call: Call, err: Option<Error>): PC {
    if err.None? && (call.Writer? || call.ReadFrom?) then Data else Returned(err)
  }

  /** Only t went on. */
  ghost predicate Only(y: Sys, z: Sys, t: nat) { t in z.at && z.at == y.at[t := z.at[t]] }

  function EnterStep(y: Sys, t: nat, call: Call): (z: Sys)
    requires t in y.at
    ensures Only(y, z, t) && z.wire == y.wire
  {
    match call
    case CloseWrite => Move(y, t, if Check(y.c).Some? then Returned(Check(y.c)) else Enter(Handshake))
    case Writer | ReadFrom => Move(y, t, if y.c.writeReady then Data else Start(call))
    case _ => Move(y, t, if y.c.readReady then Returned(None) else Start(call))
  }

  function StartStep(y: Sys, t: nat, call: Call, w: World): (z: Sys)
    requires t in y.at
    ensures Only(y, z, t) && z.wire == y.wire
  {
    if !y.early then RunClaimStep(y, t, call, w)
    else
      match call
      case Reader => AwaitStep(y, t, w)
      case ReadFrom =>
        Move(y, t, if Check(y.c).Some? then Returned(Check(y.c)) else if y.c.phase.Idle? then Start(Writer) else AwaitWrite)
      case _ => ClaimStep(y, t, call)
  }

  function RunClaimStep(y: Sys, t: nat, call: Call, w: World): (z: Sys)
    requires t in y.at
    ensures Only(y, z, t) && z.wire == y.wire
  {
    var r := ClaimRun(y.c, w.stage);
    match r.next
    case Wait(ch) => Put(y, t, RunWait(call, ch), r)
    case Return(err) => Put(y, t, Then(call, err), r)
    case _ => Put(y, t, Running(call, false), r).(writer := t, reader := t)
  }

  function RunningStep(y: Sys, t: nat, call: Call, wrote: bool, w: World): (z: Sys)
    requires t in y.at
    ensures Only(y, z, t)
  {
    if !wrote then Move(y, t, Running(call, true)).(wrote := y.wrote + 1)
    else
      var r := RunEnd(y.c, w.he, w.stage, w.ctxErr);
      Put(y, t, Then(call, Check(r.s)), r).(wire := if w.he.None? then y.wire + [TheHandshake] else y.wire)
  }

  function ClaimStep(y: Sys, t: nat, call: Call): (z: Sys)
    requires t in y.at
    ensures Only(y, z, t) && z.wire == y.wire && !z.at[t].Data?
  {
    var r := ClaimSend(y.c);
    match r.next
    case Go => Put(y, t, Writing(call, false), r).(writer := t)
    case Return(err) => Put(y, t, if err.Some? then Returned(err) else if call.Writer? then AwaitWrite else Await, r)
    case _ => y
  }

  /** The write reaches the proxy, then returns; or it fails. */
  function SendingStep(y: Sys, t: nat, call: Call, flushed: bool, w: World): (z: Sys)
    requires t in y.at
    ensures Only(y, z, t)
  {
    if !flushed && w.choice then Move(y, t, Writing(call, true)).(wire := y.wire + [TheHandshake])
    else if flushed || w.werr.Some? then Move(y, t, SentIt(call, !flushed, w.werr)).(wrote := y.wrote + 1)
    else y
  }

  function SentStep(y: Sys, t: nat, call: Call, short: bool, werr: Option<Error>, w: World): (z: Sys)
    requires t in y.at
    ensures Only(y, z, t) && z.wire == y.wire
  {
    var r := SendEnd(y.c, short, werr, w.stage);
    var err := if r.next.Return? then r.next.err else None;
    Put(y, t, if err.Some? then Returned(err) else if !call.Writer? then Await
              else if w.choice then Data else Returned(None), r)
  }

  function AwaitWriteStep(y: Sys, t: nat): (z: Sys)
    requires t in y.at
    ensures Only(y, z, t) && z.wire == y.wire
  {
    var r := WaitWritten(y.c);
    match r.next
    case Wait(ch) => Put(y, t, WriteWait(ch), r)
    case Return(err) => Put(y, t, if err.Some? then Returned(err) else Data, r)
    case _ => y
  }

  function AwaitStep(y: Sys, t: nat, w: World): (z: Sys)
    requires t in y.at
    ensures Only(y, z, t) && z.wire == y.wire && !z.at[t].Data?
  {
    var r := WaitClaimed(y.c, w.now);
    match r.next
    case Wait(ch) => Put(y, t, ClaimWait(ch, y.c.readDeadline), r)
    case Return(err) => Put(y, t, Returned(err), r)
    case _ => ReadTurnStep(y, t, w.dl, w)
  }

  function ReadTurnStep(y: Sys, t: nat, dl: Deadline, w: World): (z: Sys)
    requires t in y.at
    ensures Only(y, z, t) && z.wire == y.wire && !z.at[t].Data?
  {
    var r := ClaimRead(y.c, dl, w.stage);
    match r.next
    case Wait(ch) => Put(y, t, ReadWait(dl, ch), r)
    case Return(err) => Put(y, t, Returned(err), r)
    case Again => Put(y, t, ReadTurn(dl), r)
    case Go => Put(y, t, Reading(dl), r).(reader := t)
  }

  function ReadingStep(y: Sys, t: nat, dl: Deadline, w: World): (z: Sys)
    requires t in y.at
    ensures Only(y, z, t) && z.wire == y.wire && !z.at[t].Data?
  {
    var r := AwaitEnd(y.c, w.he, w.stage, w.ctxErr, dl, w.now);
    Put(y, t, Returned(Check(r.s)), r)
  }

  /** A sleeper goes on once its channel is closed, or its timer fired. */
  function WakeStep(y: Sys, t: nat, ch: nat, pc: PC, fired: bool): (z: Sys)
    requires t in y.at
    ensures Only(y, z, t) && z.wire == y.wire
  {
    if y.c.wake == Some(ch) && !fired then y else Move(y, t, pc)
  }

  function Goes(y: Sys, t: nat, pc: PC, w: World): (z: Sys)
    requires t in y.at
    ensures Only(y, z, t)
  {
    match pc
    case Enter(call) => EnterStep(y, t, call)
    case Start(call) => StartStep(y, t, call, w)
    case RunWait(call, ch) => WakeStep(y, t, ch, Start(call), false)
    case Running(call, wrote) => RunningStep(y, t, call, wrote, w)
    case Writing(call, flushed) => SendingStep(y, t, call, flushed, w)
    case SentIt(call, short, werr) => SentStep(y, t, call, short, werr, w)
    case AwaitWrite => AwaitWriteStep(y, t)
    case WriteWait(ch) => WakeStep(y, t, ch, AwaitWrite, false)
    case Await => AwaitStep(y, t, w)
    case ClaimWait(ch, timer) => WakeStep(y, t, ch, Await, timer.At? && w.now >= timer.t)
    case ReadTurn(dl) => ReadTurnStep(y, t, dl, w)
    case ReadWait(dl, ch) => WakeStep(y, t, ch, ReadTurn(dl), false)
    case Reading(dl) => ReadingStep(y, t, dl, w)
    case Data => Move(y, t, Returned(None)).(wire := y.wire + [DataOf(t)])
    case Returned(_) => y
  }

  function On(y: Sys, e: Event): Sys {
    match e
    case CallIt(t, call) => if t in y.at then y else Move(y, t, Enter(call))
    case Step(t, w) => if t in y.at then Goes(y, t, y.at[t], w) else y
    case CloseConn(stage) => Outside(y, Close(y.c, stage))
    case Cancel(e, stage) => Outside(y, Abort(y.c, e, stage))
    case SetDeadline(d) => y.(c := SetReadDeadline(y.c, d))
  }

  function Outside(y: Sys, r: (State, bool)): Sys { y.(c := r.0, hooks := y.hooks + (if r.1 then 1 else 0)) }

  function Run(y: Sys, es: seq<Event>): Sys
    decreases |es|
  {
    if es == [] then y else On(Run(y, es[..|es| - 1]), es[|es| - 1])
  }

  // -------------------------------------------------------------- invariant

  /** A sleeper's condition holds for as long as its channel is open. */
  ghost predicate AsleepFor(c: State, ch: nat, pending: bool) {
    ch < c.channels && (c.wake == Some(ch) ==> pending)
  }

  ghost predicate InPlace(y: Sys, t: nat, pc: PC) {
    match pc
    case RunWait(_, ch) => !y.early && AsleepFor(y.c, ch, !y.c.phase.Idle? && !y.c.done && !y.c.closed)
    case Running(_, wrote) =>
      !y.early && t == y.writer == y.reader && y.c.phase.Sending? && y.c.busy && TheHandshake !in y.wire
      && y.wrote == if wrote then 1 else 0
    case Writing(_, flushed) =>
      y.early && t == y.writer && y.c.phase.Sending? && y.wrote == 0 && (flushed <==> TheHandshake in y.wire)
    case SentIt(_, short, werr) =>
      && y.early && t == y.writer && y.c.phase.Sending? && y.wrote == 1
      && (short ==> werr.Some?) && (short <==> TheHandshake !in y.wire)
    case WriteWait(ch) => y.early && AsleepFor(y.c, ch, WritePending(y.c))
    case ClaimWait(ch, timer) => y.early && AsleepFor(y.c, ch, ClaimPending(y.c) && timer == y.c.readDeadline)
    case ReadTurn(_) => y.early && !ClaimPending(y.c)
    case ReadWait(_, ch) => y.early && !ClaimPending(y.c) && AsleepFor(y.c, ch, ReadPending(y.c))
    case Reading(dl) => y.early && t == y.reader && y.c.busy && y.c.replyDeadline == dl
    case AwaitWrite | Await => y.early
    case Data => y.c.phase.Sent? || y.c.done
    case _ => true
  }

  ghost predicate Global(y: Sys) {
    && Ok(y.c) && y.hooks == Due(y.c)
    && (y.c.phase.Sending? ==> y.writer in y.at && var pc := y.at[y.writer]; pc.Running? || pc.Writing? || pc.SentIt?)
    && (y.c.busy ==> y.reader in y.at && var pc := y.at[y.reader]; pc.Running? || pc.Reading?)
    && y.wrote <= 1 && (y.c.phase.Idle? ==> y.wrote == 0) && (y.c.phase.Sent? ==> y.wrote == 1)
    && (y.c.phase.Idle? ==> TheHandshake !in y.wire)
    && (y.c.err.None? && (y.c.phase.Sent? || (y.c.done && !y.early)) ==> TheHandshake in y.wire)
    && (!y.early ==>
          && (y.c.phase.Idle? ==> y.c.wake.None?) && y.c.replyDeadline.NoDeadline?
          && (y.c.phase.Sending? ==> y.c.busy && !y.c.done) && (y.c.phase.Sent? ==> !y.c.busy))
  }

  ghost predicate Inv(y: Sys) {
    Global(y) && forall t :: t in y.at ==> InPlace(y, t, y.at[t])
  }

  /** How a step of t from y to z treats the claims of the others. */
  ghost predicate Handover(y: Sys, z: Sys, t: nat) {
    && z.early == y.early
    && (z.writer != y.writer ==> y.c.phase.Idle? && z.writer == t)
    && (y.c.phase.Sending? && (!z.c.phase.Sending? || z.wrote != y.wrote) ==> t == y.writer)
    && (z.reader != y.reader ==> !y.c.busy && z.reader == t)
    && (y.c.busy && (!z.c.busy || z.c.replyDeadline != y.c.replyDeadline) ==> t == y.reader)
    && (TheHandshake in y.wire ==> TheHandshake in z.wire)
    && (TheHandshake in z.wire && TheHandshake !in y.wire ==> t == y.writer && y.c.phase.Sending?)
  }

  lemma OtherInPlace(y: Sys, z: Sys, t: nat, u: nat, pc: PC, hook: bool)
    requires Inv(y) && Handover(y, z, t) && Advances(y.c, z.c, hook) && Ok(z.c)
    requires u in y.at && u != t && pc == y.at[u]
    ensures InPlace(z, u, pc)
  {
    assert InPlace(y, u, pc);
  }

  /** A step: the invariant is kept, and the state only advances. */
  ghost predicate Good(y: Sys, z: Sys) {
    Inv(z) && z.early == y.early && Advances(y.c, z.c, z.hooks != y.hooks)
  }

  /** A step of t that keeps its own part keeps the others'. */
  lemma Moved(y: Sys, z: Sys, t: nat, pc: PC, hook: bool)
    requires Inv(y) && Handover(y, z, t) && Advances(y.c, z.c, hook) && Global(z)
    requires z.at == y.at[t := pc] && InPlace(z, t, pc)
    ensures Good(y, z)
  {
    hide InPlace;
    assert (z.hooks != y.hooks) == hook;
    forall u | u in z.at
      ensures InPlace(z, u, z.at[u])
    {
      if u != t {
        OtherInPlace(y, z, t, u, y.at[u], hook);
      }
    }
  }

  lemma MoveKeeps(y: Sys, t: nat, pc: PC)
    requires Inv(y) && InPlace(y, t, pc)
    requires t in y.at ==> var was := y.at[t]; !(was.Running? || was.Writing? || was.SentIt? || was.Reading?)
    ensures Good(y, Move(y, t, pc))
  {
    var z := Move(y, t, pc);
    if t in y.at {
      assert InPlace(y, t, y.at[t]);
    }
    Moved(y, z, t, pc, false);
  }

  /** A critical section that claims nothing and ends nothing of the handshake. */
  lemma PutKeeps(y: Sys, t: nat, pc: PC, r: Effect)
    requires Inv(y) && t in y.at && Kept(y.c, r.s, r.hook)
    requires var was := y.at[t]; !(was.Running? || was.Writing? || was.SentIt? || was.Reading?)
    requires r.s.phase == y.c.phase && r.s.busy == y.c.busy && r.s.replyDeadline == y.c.replyDeadline
    requires !y.early ==> (r.s.phase.Idle? ==> r.s.wake.None?) && (r.s.phase.Sending? ==> !r.s.done)
    requires InPlace(Put(y, t, pc, r), t, pc)
    ensures Good(y, Put(y, t, pc, r))
  {
    assert InPlace(y, t, y.at[t]);
    Moved(y, Put(y, t, pc, r), t, pc, r.hook);
  }

  lemma EnterKeeps(y: Sys, t: nat, call: Call)
    requires Inv(y) && t in y.at && y.at[t] == Enter(call)
    ensures Good(y, EnterStep(y, t, call))
  {
    var z := EnterStep(y, t, call);
    MoveKeeps(y, t, z.at[t]);
  }

  lemma RunClaimKeeps(y: Sys, t: nat, call: Call, w: World)
    requires Inv(y) && !y.early && t in y.at && y.at[t] == Start(call)
    ensures Good(y, RunClaimStep(y, t, call, w))
  {
    hide ClaimRun;
    ClaimRunKeeps(y.c, w.stage);
    var r, z := ClaimRun(y.c, w.stage), RunClaimStep(y, t, call, w);
    if r.next.Go? {
      Moved(y, z, t, Running(call, false), r.hook);
    } else {
      PutKeeps(y, t, z.at[t], r);
    }
  }

  lemma RunningKeeps(y: Sys, t: nat, call: Call, wrote: bool, w: World)
    requires Inv(y) && t in y.at && y.at[t] == Running(call, wrote)
    ensures Good(y, RunningStep(y, t, call, wrote, w))
  {
    hide RunEnd;
    var z := RunningStep(y, t, call, wrote, w);
    assert InPlace(y, t, y.at[t]);
    if wrote {
      RunEndKeeps(y.c, w.he, w.stage, w.ctxErr);
      Moved(y, z, t, z.at[t], RunEnd(y.c, w.he, w.stage, w.ctxErr).hook);
    } else {
      Moved(y, z, t, Running(call, true), false);
    }
  }

  lemma ClaimKeeps(y: Sys, t: nat, call: Call)
    requires Inv(y) && y.early && t in y.at && y.at[t] == Start(call)
    ensures Good(y, ClaimStep(y, t, call))
  {
    hide ClaimSend;
    ClaimSendKeeps(y.c);
    var r, z := ClaimSend(y.c), ClaimStep(y, t, call);
    if r.next.Go? {
      Moved(y, z, t, Writing(call, false), r.hook);
    } else if r.next.Return? {
      PutKeeps(y, t, z.at[t], r);
    }
  }

  lemma WritingKeeps(y: Sys, t: nat, call: Call, flushed: bool, w: World)
    requires Inv(y) && t in y.at && y.at[t] == Writing(call, flushed)
    ensures Good(y, SendingStep(y, t, call, flushed, w))
  {
    var z := SendingStep(y, t, call, flushed, w);
    assert InPlace(y, t, y.at[t]);
    if z != y {
      Moved(y, z, t, z.at[t], false);
    }
  }

  lemma SentKeeps(y: Sys, t: nat, call: Call, short: bool, werr: Option<Error>, w: World)
    requires Inv(y) && t in y.at && y.at[t] == SentIt(call, short, werr)
    ensures Good(y, SentStep(y, t, call, short, werr, w))
  {
    hide SendEnd;
    var z := SentStep(y, t, call, short, werr, w);
    assert InPlace(y, t, y.at[t]);
    SendEndKeeps(y.c, short, werr, w.stage);
    Moved(y, z, t, z.at[t], SendEnd(y.c, short, werr, w.stage).hook);
  }

  lemma AwaitWriteKeeps(y: Sys, t: nat)
    requires Inv(y) && t in y.at && y.at[t] == AwaitWrite
    ensures Good(y, AwaitWriteStep(y, t))
  {
    hide WaitWritten;
    WaitWrittenKeeps(y.c);
    assert InPlace(y, t, y.at[t]);
    var r, z := WaitWritten(y.c), AwaitWriteStep(y, t);
    if z != y {
      PutKeeps(y, t, z.at[t], r);
    }
  }

  lemma AwaitKeeps(y: Sys, t: nat, w: World)
    requires Inv(y) && y.early && t in y.at && (y.at[t] == Await || y.at[t] == Start(Reader))
    ensures Good(y, AwaitStep(y, t, w))
  {
    hide WaitClaimed;
    WaitClaimedKeeps(y.c, w.now);
    var r, z := WaitClaimed(y.c, w.now), AwaitStep(y, t, w);
    if r.next.Wait? || r.next.Return? {
      PutKeeps(y, t, z.at[t], r);
    } else {
      ReadTurnKeeps(y, t, w.dl, w);
    }
  }

  lemma ReadTurnKeeps(y: Sys, t: nat, dl: Deadline, w: World)
    requires Inv(y) && y.early && t in y.at && !ClaimPending(y.c)
    requires y.at[t] == ReadTurn(dl) || y.at[t] == Await || y.at[t] == Start(Reader)
    ensures Good(y, ReadTurnStep(y, t, dl, w))
  {
    hide ClaimRead;
    ClaimReadKeeps(y.c, dl, w.stage);
    var r, z := ClaimRead(y.c, dl, w.stage), ReadTurnStep(y, t, dl, w);
    if r.next.Go? {
      Moved(y, z, t, Reading(dl), r.hook);
    } else {
      PutKeeps(y, t, z.at[t], r);
    }
  }

  lemma ReadingKeeps(y: Sys, t: nat, dl: Deadline, w: World)
    requires Inv(y) && t in y.at && y.at[t] == Reading(dl)
    ensures Good(y, ReadingStep(y, t, dl, w))
  {
    hide AwaitEnd;
    var z := ReadingStep(y, t, dl, w);
    assert InPlace(y, t, y.at[t]);
    AwaitEndKeeps(y.c, w.he, w.stage, w.ctxErr, dl, w.now);
    Moved(y, z, t, z.at[t], AwaitEnd(y.c, w.he, w.stage, w.ctxErr, dl, w.now).hook);
  }

  lemma StartKeeps(y: Sys, t: nat, call: Call, w: World)
    requires Inv(y) && t in y.at && y.at[t] == Start(call)
    ensures Good(y, StartStep(y, t, call, w))
  {
    if !y.early {
      RunClaimKeeps(y, t, call, w);
    } else {
      match call
      case Reader => AwaitKeeps(y, t, w);
      case ReadFrom => MoveKeeps(y, t, StartStep(y, t, call, w).at[t]);
      case _ => ClaimKeeps(y, t, call);
    }
  }

  lemma WakeKeeps(y: Sys, t: nat, ch: nat, pc: PC, fired: bool)
    requires Inv(y) && t in y.at && InPlace(y, t, pc)
    requires var was := y.at[t]; was.RunWait? || was.WriteWait? || was.ClaimWait? || was.ReadWait?
    ensures Good(y, WakeStep(y, t, ch, pc, fired))
  {
    MoveKeeps(y, t, pc);
  }

  lemma GoKeeps(y: Sys, t: nat, w: World)
    requires Inv(y) && t in y.at
    ensures Good(y, Goes(y, t, y.at[t], w))
  {
    hide EnterStep, StartStep, WakeStep, RunningStep, SendingStep, SentStep, AwaitWriteStep, AwaitStep,
         ReadTurnStep, ReadingStep;
    assert InPlace(y, t, y.at[t]);
    match y.at[t]
    case Enter(call) => EnterKeeps(y, t, call);
    case Start(call) => StartKeeps(y, t, call, w);
    case RunWait(call, ch) => WakeKeeps(y, t, ch, Start(call), false);
    case Running(call, wrote) => RunningKeeps(y, t, call, wrote, w);
    case Writing(call, flushed) => WritingKeeps(y, t, call, flushed, w);
    case SentIt(call, short, werr) => SentKeeps(y, t, call, short, werr, w);
    case AwaitWrite => AwaitWriteKeeps(y, t);
    case WriteWait(ch) => WakeKeeps(y, t, ch, AwaitWrite, false);
    case Await => AwaitKeeps(y, t, w);
    case ClaimWait(ch, timer) => WakeKeeps(y, t, ch, Await, timer.At? && w.now >= timer.t);
    case ReadTurn(dl) => ReadTurnKeeps(y, t, dl, w);
    case ReadWait(dl, ch) => WakeKeeps(y, t, ch, ReadTurn(dl), false);
    case Reading(dl) => ReadingKeeps(y, t, dl, w);
    case Data => Moved(y, Goes(y, t, Data, w), t, Returned(None), false);
    case Returned(_) =>
  }

  lemma OutsideKeeps(y: Sys, z: Sys, hook: bool)
    requires Inv(y) && Kept(y.c, z.c, hook) && z == y.(c := z.c, hooks := y.hooks + if hook then 1 else 0)
    requires z.c.phase == y.c.phase && z.c.busy == y.c.busy && z.c.replyDeadline == y.c.replyDeadline
    requires !y.c.done && !(y.c.phase.Sent? && !y.c.busy) ==> !z.c.done
    requires z.c.wake.Some? ==> z.c.wake == y.c.wake
    ensures Good(y, z)
  {
    forall u | u in z.at
      ensures InPlace(z, u, z.at[u])
    {
      OtherInPlace(y, z, u + 1, u, y.at[u], hook);
    }
  }

  lemma OnKeeps(y: Sys, e: Event)
    requires Inv(y)
    ensures Good(y, On(y, e))
  {
    hide Close, Abort, SetReadDeadline;
    match e
    case CallIt(t, call) =>
      if t !in y.at {
        MoveKeeps(y, t, Enter(call));
      }
    case Step(t, w) =>
      if t in y.at {
        GoKeeps(y, t, w);
      }
    case CloseConn(stage) =>
      CloseKeeps(y.c, stage);
      OutsideKeeps(y, On(y, e), Close(y.c, stage).1);
    case Cancel(err, stage) =>
      AbortKeeps(y.c, err, stage);
      OutsideKeeps(y, On(y, e), Abort(y.c, err, stage).1);
    case SetDeadline(d) =>
      SetReadDeadlineKeeps(y.c, d);
      OutsideKeeps(y, On(y, e), false);
  }

  /** Every reachable state. */
  lemma {:induction false} Always(early: bool, conf: Option<Failure>, es: seq<Event>)
    ensures Inv(Run(Init(early, conf), es))
    decreases |es|
  {
    if es != [] {
      Always(early, conf, es[..|es| - 1]);
      OnKeeps(Run(Init(early, conf), es[..|es| - 1]), es[|es| - 1]);
    }
  }

  // ------------------------------------------------- what it means for runs

  /** HandshakeDone runs once the handshake is both over and written, once, after WroteHandshake. */
  lemma HandshakeDoneOnce(early: bool, conf: Option<Failure>, es: seq<Event>)
    ensures var y := Run(Init(early, conf), es);
            && y.hooks == (if y.c.done && y.c.phase.Sent? then 1 else 0)
            && y.hooks <= y.wrote <= 1
  {
    Always(early, conf, es);
  }

  function Channel(pc: PC): Option<nat> {
    if pc.RunWait? || pc.WriteWait? || pc.ClaimWait? || pc.ReadWait? then Some(pc.ch) else None
  }

  /** What a sleeper waits for has not happened. */
  predicate StillPending(c: State, pc: PC) {
    match pc
    case RunWait(_, _) => !c.phase.Idle? && !c.done
    case WriteWait(_) => !c.phase.Sent? && !c.done
    case ClaimWait(_, timer) => c.phase.Idle? && !c.done && timer == c.readDeadline
    case ReadWait(_, _) => !c.done && (c.busy || (c.abortErr.Some? && !c.phase.Sent?))
    case _ => true
  }

  /** No wake-up is lost: a call asleep on an open channel still has what it waits for ahead of it;
      after the end of the handshake or Close nobody is asleep on an open channel. */
  lemma NobodyLeftAsleep(early: bool, conf: Option<Failure>, es: seq<Event>, t: nat)
    requires var y := Run(Init(early, conf), es); t in y.at && Channel(y.at[t]).Some?
    ensures var y := Run(Init(early, conf), es);
            && (y.c.wake == Channel(y.at[t]) ==> StillPending(y.c, y.at[t]) && !y.c.closed)
            && (y.c.done || y.c.closed ==> y.c.wake != Channel(y.at[t]))
  {
    Always(early, conf, es);
    var y := Run(Init(early, conf), es);
    assert InPlace(y, t, y.at[t]);
  }

  /** The call that sends the handshake, until that is over. */
  predicate Writes(pc: PC) { pc.Writing? || pc.SentIt? || pc.Running? }

  /** One call writes the handshake, one call at a time reads the replies; the fast paths say what
      the state says; an established handshake was not aborted. */
  lemma OneAtATime(early: bool, conf: Option<Failure>, es: seq<Event>, t: nat, u: nat)
    requires var y := Run(Init(early, conf), es); t in y.at && u in y.at
    ensures var y := Run(Init(early, conf), es);
            && ((y.at[t].Reading? || y.at[t].Running?) && (y.at[u].Reading? || y.at[u].Running?) ==> t == u)
            && (Writes(y.at[t]) && Writes(y.at[u]) ==> t == u)
            && y.c.readReady == (y.c.done && y.c.err.None? && !y.c.closed)
            && y.c.writeReady == (y.c.phase.Sent? && y.c.err.None? && !y.c.closed)
            && (y.c.done && y.c.err.None? ==> y.c.abortErr.None?)
  {
    Always(early, conf, es);
    var y := Run(Init(early, conf), es);
    assert InPlace(y, t, y.at[t]) && InPlace(y, u, y.at[u]);
  }

  /** The conn's read deadline is the caller's, narrowed by ReplyTimeout's while replies are read. */
  lemma DeadlineNarrowed(early: bool, conf: Option<Failure>, es: seq<Event>)
    ensures var c := Run(Init(early, conf), es).c;
            c.abortErr.None? && c.err.None? ==>
              && IsSooner(c.connRead, c.readDeadline, c.replyDeadline)
              && (!c.busy ==> c.replyDeadline.NoDeadline? && c.connRead == c.readDeadline)
  {
    Always(early, conf, es);
  }

  lemma {:induction false} RunSplits(y: Sys, es: seq<Event>, more: seq<Event>)
    ensures Run(y, es + more) == Run(Run(y, es), more)
    decreases |more|
  {
    if more == [] {
      assert es + more == es;
    } else {
      RunSplits(y, es, more[..|more| - 1]);
      assert (es + more)[..|es + more| - 1] == es + more[..|more| - 1];
    }
  }

  lemma RunSnoc(y: Sys, es: seq<Event>, e: Event)
    ensures Run(y, es + [e]) == On(Run(y, es), e)
  {
    hide On;
    assert (es + [e])[..|es + [e]| - 1] == es;
  }

  /** What happened stays: everything only advances, and an outcome is final, a success once the
      handshake write is over. */
  ghost predicate Later(c: State, d: State) {
    && c.phase.Rank() <= d.phase.Rank()
    && (c.done ==> d.done) && (c.closed ==> d.closed)
    && (c.err.Some? || (c.done && c.phase.Sent?) ==> d.err == c.err)
    && (c.abortErr.Some? ==> d.abortErr == c.abortErr)
  }

  lemma {:induction false} OutcomeStable(early: bool, conf: Option<Failure>, es: seq<Event>, more: seq<Event>)
    ensures Later(Run(Init(early, conf), es).c, Run(Init(early, conf), es + more).c)
    decreases |more|
  {
    hide On, Inv;
    var y := Run(Init(early, conf), es);
    RunSplits(Init(early, conf), es, more);
    if more != [] {
      var less := more[..|more| - 1];
      OutcomeStable(early, conf, es, less);
      RunSplits(Init(early, conf), es, less);
      Always(early, conf, es + less);
      OnKeeps(Run(y, less), more[|more| - 1]);
    }
  }
}
