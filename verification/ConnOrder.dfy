/** What a run of the client Conn puts on the wire first, and when a success is final
    (go/socks0/conn.go). */
module ConnOrder {
  import opened Wire
  import opened ConnState
  import opened ConnRuns

  // ---------------------------------------------------- where data may start

  /** The handshake is established, for a call that asks now. */
  predicate Established(c: State) { c.done && c.err.None? && !c.closed }

  /** Where tunnel data may be written. */
  predicate Ready(c: State) { c.phase.Sent? || (c.done && c.err.None?) }

  /** A call that starts tunnel data finds the write over or the handshake established, and unless
      the handshake is on the wire, established it was. */
  ghost predicate DataMeans(y: Sys, z: Sys, t: nat) {
    t in z.at && z.at[t].Data? ==> Ready(z.c) && (TheHandshake in z.wire || Established(y.c))
  }

  lemma RunStepsData(y: Sys, t: nat, w: World)
    requires Inv(y) && t in y.at && (y.at[t].Running? || (y.at[t].Start? && !y.early))
    ensures DataMeans(y, Goes(y, t, y.at[t], w), t)
  {
    hide ClaimRun, RunEnd;
    GoKeeps(y, t, w);
    assert InPlace(y, t, y.at[t]);
    if y.at[t].Running? {
      RunEndKeeps(y.c, w.he, w.stage, w.ctxErr);
    } else {
      ClaimRunKeeps(y.c, w.stage);
    }
  }

  lemma SentStepData(y: Sys, t: nat, call: Call, short: bool, werr: Option<Error>, w: World)
    requires Inv(y) && t in y.at && y.at[t] == SentIt(call, short, werr)
    ensures DataMeans(y, SentStep(y, t, call, short, werr, w), t)
  {
    hide SendEnd;
    assert InPlace(y, t, y.at[t]);
    SendEndKeeps(y.c, short, werr, w.stage);
  }

  lemma AwaitWriteData(y: Sys, t: nat)
    requires Inv(y) && t in y.at && y.at[t] == AwaitWrite
    ensures DataMeans(y, AwaitWriteStep(y, t), t)
  {
    hide WaitWritten;
    WaitWrittenKeeps(y.c);
  }

  lemma EnterData(y: Sys, t: nat, call: Call)
    requires Inv(y) && t in y.at
    ensures DataMeans(y, EnterStep(y, t, call), t)
  {
  }

  lemma GoData(y: Sys, t: nat, w: World)
    requires Inv(y) && t in y.at
    ensures DataMeans(y, Goes(y, t, y.at[t], w), t)
  {
    hide RunClaimStep, RunningStep, SentStep, AwaitWriteStep, AwaitStep, ReadTurnStep, ReadingStep, ClaimStep, EnterStep;
    match y.at[t]
    case Enter(call) => EnterData(y, t, call);
    case Running(_, _) => RunStepsData(y, t, w);
    case Start(_) =>
      if !y.early {
        RunStepsData(y, t, w);
      }
    case SentIt(call, short, werr) => SentStepData(y, t, call, short, werr, w);
    case AwaitWrite => AwaitWriteData(y, t);
    case _ =>
  }

  /** A call goes on to tunnel data only after the handshake write returned, or once the handshake is
      established without error. */
  lemma DataStarts(early: bool, conf: Option<Failure>, es: seq<Event>, e: Event, t: nat)
    requires var y := Run(Init(early, conf), es); var z := On(y, e);
             t in z.at && z.at[t].Data? && !(t in y.at && y.at[t].Data?)
    ensures Ready(On(Run(Init(early, conf), es), e).c)
  {
    hide Goes;
    Always(early, conf, es);
    var y := Run(Init(early, conf), es);
    GoData(y, e.t, e.world);
  }

  // ----------------------------------------------------------- the order kept

  /** A proxy that replies only once it has the whole handshake. */
  predicate Honest(y: Sys, e: Event) {
    e.Step? && e.t in y.at && y.at[e.t].Reading? && e.world.he.None? ==> TheHandshake in y.wire
  }

  ghost predicate HonestFrom(y: Sys, es: seq<Event>) {
    forall k :: 0 <= k < |es| ==> Honest(Run(y, es[..k]), es[k])
  }

  /** The wire so far: nothing, or the handshake and then data. */
  ghost predicate HandshakeFirst(wire: seq<Item>) {
    (wire != [] ==> wire[0].TheHandshake?) && forall i :: 1 <= i < |wire| ==> wire[i].DataOf?
  }

  /** The handshake is not on the wire, and a call may put data there: the handshake is established,
      which lets waitWritten go on, or a call was let through before. */
  ghost predicate Exposed(y: Sys) {
    TheHandshake !in y.wire && (Established(y.c) || exists t :: t in y.at && y.at[t].Data?)
  }

  /** What a step of t adds to the wire. */
  ghost predicate Adds(y: Sys, z: Sys, t: nat) {
    || z.wire == y.wire
    || (z.wire == y.wire + [TheHandshake] && TheHandshake !in y.wire)
    || (z.wire == y.wire + [DataOf(t)] && t in y.at && y.at[t].Data?)
  }

  lemma GoAdds(y: Sys, t: nat, w: World)
    requires Inv(y) && t in y.at
    ensures Adds(y, Goes(y, t, y.at[t], w), t)
  {
    hide EnterStep, StartStep, SentStep, AwaitWriteStep, AwaitStep, ReadTurnStep, ReadingStep, WakeStep;
    assert InPlace(y, t, y.at[t]);
  }

  /** A step after which the handshake is through, though it was not before. */
  ghost predicate ThroughMeans(y: Sys, z: Sys) {
    Through(z.c) ==> Through(y.c) || TheHandshake in z.wire
  }

  lemma StartThrough(y: Sys, t: nat, w: World)
    requires Inv(y) && t in y.at && y.at[t].Start?
    ensures ThroughMeans(y, Goes(y, t, y.at[t], w))
  {
    hide ClaimRun, ClaimSend, AwaitStep;
    ClaimSendKeeps(y.c);
    if !y.early {
      ClaimRunKeeps(y.c, w.stage);
    } else {
      AwaitThrough(y, t, w);
    }
  }

  lemma RunningThrough(y: Sys, t: nat, call: Call, wrote: bool, w: World)
    requires Inv(y) && t in y.at && y.at[t] == Running(call, wrote)
    ensures ThroughMeans(y, RunningStep(y, t, call, wrote, w))
  {
    hide RunEnd;
    assert InPlace(y, t, y.at[t]);
    RunEndKeeps(y.c, w.he, w.stage, w.ctxErr);
  }

  lemma SentThrough(y: Sys, t: nat, call: Call, short: bool, werr: Option<Error>, w: World)
    requires Inv(y) && t in y.at && y.at[t] == SentIt(call, short, werr)
    ensures ThroughMeans(y, SentStep(y, t, call, short, werr, w))
  {
    hide SendEnd;
    assert InPlace(y, t, y.at[t]);
    SendEndKeeps(y.c, short, werr, w.stage);
  }

  lemma AwaitWriteThrough(y: Sys, t: nat)
    requires Inv(y) && t in y.at
    ensures ThroughMeans(y, AwaitWriteStep(y, t))
  {
    hide WaitWritten;
    WaitWrittenKeeps(y.c);
  }

  lemma TurnThrough(y: Sys, t: nat, dl: Deadline, w: World)
    requires Inv(y) && t in y.at && !ClaimPending(y.c)
    ensures ThroughMeans(y, ReadTurnStep(y, t, dl, w))
  {
    hide ClaimRead;
    ClaimReadKeeps(y.c, dl, w.stage);
  }

  lemma AwaitThrough(y: Sys, t: nat, w: World)
    requires Inv(y) && t in y.at
    ensures ThroughMeans(y, AwaitStep(y, t, w))
  {
    hide WaitClaimed, ReadTurnStep;
    WaitClaimedKeeps(y.c, w.now);
    if WaitClaimed(y.c, w.now).next.Go? {
      TurnThrough(y, t, w.dl, w);
    }
  }

  lemma ReadingThrough(y: Sys, t: nat, dl: Deadline, w: World)
    requires Inv(y) && t in y.at && y.at[t] == Reading(dl) && Honest(y, Step(t, w))
    ensures ThroughMeans(y, ReadingStep(y, t, dl, w))
  {
    hide AwaitEnd;
    assert InPlace(y, t, y.at[t]);
    AwaitEndKeeps(y.c, w.he, w.stage, w.ctxErr, dl, w.now);
  }

  lemma GoThrough(y: Sys, t: nat, w: World)
    requires Inv(y) && t in y.at && Honest(y, Step(t, w))
    ensures ThroughMeans(y, Goes(y, t, y.at[t], w))
  {
    hide StartStep, RunningStep, SentStep, AwaitWriteStep, AwaitStep, ReadTurnStep, ReadingStep;
    assert InPlace(y, t, y.at[t]);
    match y.at[t]
    case Start(_) => StartThrough(y, t, w);
    case Running(call, wrote) => RunningThrough(y, t, call, wrote, w);
    case SentIt(call, short, werr) => SentThrough(y, t, call, short, werr, w);
    case AwaitWrite => AwaitWriteThrough(y, t);
    case Await => AwaitThrough(y, t, w);
    case ReadTurn(dl) => TurnThrough(y, t, dl, w);
    case Reading(dl) => ReadingThrough(y, t, dl, w);
    case _ =>
  }

  /** While nobody can put data first, an honest proxy lets nobody. */
  lemma StaysOrdered(y: Sys, e: Event)
    requires Inv(y) && HandshakeFirst(y.wire) && !Exposed(y) && Honest(y, e)
    ensures HandshakeFirst(On(y, e).wire) && !Exposed(On(y, e))
  {
    hide Goes, Close, Abort, SetReadDeadline, InPlace;
    OnKeeps(y, e);
    match e
    case CallIt(t, call) =>
    case Step(t, w) =>
      if t in y.at {
        GoAdds(y, t, w);
        GoThrough(y, t, w);
        GoData(y, t, w);
      }
    case CloseConn(stage) => CloseKeeps(y.c, stage);
    case Cancel(err, stage) => AbortKeeps(y.c, err, stage);
    case SetDeadline(d) => SetReadDeadlineKeeps(y.c, d);
  }

  lemma {:induction false} OrderedRun(early: bool, conf: Option<Failure>, es: seq<Event>, more: seq<Event>)
    requires var y := Run(Init(early, conf), es); HandshakeFirst(y.wire) && !Exposed(y) && HonestFrom(y, more)
    ensures var z := Run(Run(Init(early, conf), es), more); HandshakeFirst(z.wire) && !Exposed(z)
    decreases |more|
  {
    hide On, Inv, Honest, Exposed;
    if more != [] {
      var y, less := Run(Init(early, conf), es), more[..|more| - 1];
      assert forall k :: 0 <= k < |less| ==> less[..k] == more[..k] && less[k] == more[k];
      OrderedRun(early, conf, es, less);
      RunSplits(Init(early, conf), es, less);
      Always(early, conf, es + less);
      var e := more[|more| - 1];
      assert Honest(Run(y, more[..|more| - 1]), e);
      StaysOrdered(Run(y, less), e);
      RunSnoc(y, less, e);
      assert less + [e] == more;
      assert HandshakeFirst(Run(y, more).wire);
    } else {
      assert Run(Run(Init(early, conf), es), []) == Run(Init(early, conf), es);
      assert HandshakeFirst(Run(Run(Init(early, conf), es), more).wire);
    }
  }

  /** With a proxy that replies only to whole handshakes, the wire carries the handshake and then
      data, whatever the calls do. */
  lemma WriteOrder(early: bool, conf: Option<Failure>, es: seq<Event>)
    requires HonestFrom(Init(early, conf), es)
    ensures HandshakeFirst(Run(Init(early, conf), es).wire)
  {
    OrderedRun(early, conf, [], es);
  }

  // ----------------------------------------------------------- and the rest

  ghost predicate Breaks(y: Sys, more: seq<Event>) {
    HonestFrom(y, more) && !HandshakeFirst(Run(y, more).wire)
  }

  lemma {:induction false} Fresh(used: set<nat>) returns (t: nat)
    ensures t !in used && forall u :: u in used ==> u < t
  {
    if used == {} {
      t := 0;
    } else {
      var u :| u in used;
      var v := Fresh(used - {u});
      assert forall x :: x in used ==> x == u || x in used - {u};
      t := if v > u then v else u + 1;
    }
  }

  const CALM := World(0, Request, None, None, None, NoDeadline, false)

  /** A call that writes while the handshake is established, its write still under way. */
  lemma LetThrough(y: Sys, t: nat)
    requires Inv(y) && y.early && Established(y.c) && y.c.phase.Sending? && t !in y.at
    ensures var a := On(y, CallIt(t, Writer));
            var b := On(On(On(a, Step(t, CALM)), Step(t, CALM)), Step(t, CALM));
            && On(b, Step(t, CALM)).wire == y.wire + [DataOf(t)]
            && a.at[t] == Enter(Writer) && On(a, Step(t, CALM)).at[t] == Start(Writer)
            && On(On(a, Step(t, CALM)), Step(t, CALM)).at[t] == AwaitWrite && b.at[t] == Data
  {
    var a := On(y, CallIt(t, Writer));
    var b := On(a, Step(t, CALM));
    assert b.at[t] == Start(Writer) && b.c == y.c;
    var d := On(b, Step(t, CALM));
    assert d.at[t] == AwaitWrite && d.c == y.c;
  }

  lemma OneStep(y: Sys, e: Event)
    ensures Run(y, [e]) == On(y, e)
  {
    assert [e][..0] == [];
  }

  lemma LetThroughRun(y: Sys, t: nat)
    requires Inv(y) && y.early && Established(y.c) && y.c.phase.Sending? && t !in y.at
    ensures var more := [CallIt(t, Writer), Step(t, CALM), Step(t, CALM), Step(t, CALM), Step(t, CALM)];
            HonestFrom(y, more) && Run(y, more).wire == y.wire + [DataOf(t)]
  {
    hide On, Inv, Established;
    LetThrough(y, t);
    var e, s := CallIt(t, Writer), Step(t, CALM);
    var more := [e, s, s, s, s];
    OneStep(y, e);
    RunSnoc(y, [e], s);
    RunSnoc(y, [e, s], s);
    RunSnoc(y, [e, s, s], s);
    RunSnoc(y, [e, s, s, s], s);
    assert [e] + [s] == [e, s] && [e, s] + [s] == [e, s, s] && [e, s, s] + [s] == [e, s, s, s] && [e, s, s, s] + [s] == more;
    assert more[..0] == [] && more[..1] == [e] && more[..2] == [e, s] && more[..3] == [e, s, s] && more[..4] == [e, s, s, s];
  }

  lemma StillEmpty(wire: seq<Item>)
    requires HandshakeFirst(wire) && TheHandshake !in wire
    ensures wire == []
  {
  }

  lemma CanBreak(y: Sys) returns (more: seq<Event>)
    requires Inv(y) && Exposed(y) && HandshakeFirst(y.wire)
    ensures Breaks(y, more)
  {
    StillEmpty(y.wire);
    if t :| t in y.at && y.at[t].Data? {
      more := [Step(t, CALM)];
      OneStep(y, Step(t, CALM));
      assert more[..0] == [];
      assert Run(y, more).wire == [DataOf(t)];
      assert Run(y, more).wire[0] == DataOf(t);
    } else {
      var t := Fresh(y.at.Keys);
      more := [CallIt(t, Writer), Step(t, CALM), Step(t, CALM), Step(t, CALM), Step(t, CALM)];
      LetThroughRun(y, t);
      assert Run(y, more).wire == [DataOf(t)];
      assert Run(y, more).wire[0] == DataOf(t);
    }
  }

  /** In any run, however the proxy behaved so far: data can still come first, with a proxy that is
      honest from here on, exactly if the handshake is not on the wire and it is established or a
      call was let through already. */
  lemma OrderExactly(early: bool, conf: Option<Failure>, es: seq<Event>)
    requires HandshakeFirst(Run(Init(early, conf), es).wire)
    ensures var y := Run(Init(early, conf), es); (exists more :: Breaks(y, more)) <==> Exposed(y)
  {
    hide Exposed, Run;
    var y := Run(Init(early, conf), es);
    Always(early, conf, es);
    if Exposed(y) {
      var more := CanBreak(y);
    } else {
      forall more
        ensures !Breaks(y, more)
      {
        if HonestFrom(y, more) {
          OrderedRun(early, conf, es, more);
        }
      }
    }
  }

  lemma RunThree(y: Sys, es: seq<Event>, a: Event, b: Event, c: Event)
    ensures Run(y, es + [a, b, c]) == On(On(On(Run(y, es), a), b), c)
  {
    hide On;
    RunSnoc(y, es, a);
    RunSnoc(y, es + [a], b);
    RunSnoc(y, es + [a] + [b], c);
    assert es + [a] + [b] + [c] == es + [a, b, c];
  }

  // Call 0 claims the handshake and is about to write it; 1 reads the replies; 2 writes data.

  const WRITER_CLAIMED := Init(true, None).(c := INIT.(phase := Sending), at := map[0 := Writing(Writer, false)])

  const READER_CLAIMED := WRITER_CLAIMED.(
    c := INIT.(phase := Sending, busy := true), at := WRITER_CLAIMED.at[1 := Reading(NoDeadline)], reader := 1)

  lemma ClaimFirst()
    ensures On(On(On(Init(true, None), CallIt(0, Writer)), Step(0, CALM)), Step(0, CALM)) == WRITER_CLAIMED
  {
    var y := On(Init(true, None), CallIt(0, Writer));
    assert On(y, Step(0, CALM)) == Move(y, 0, Start(Writer));
  }

  lemma ReaderNext()
    ensures On(On(On(WRITER_CLAIMED, CallIt(1, Reader)), Step(1, CALM)), Step(1, CALM)) == READER_CLAIMED
  {
    var y := On(WRITER_CLAIMED, CallIt(1, Reader));
    assert On(y, Step(1, CALM)) == Move(y, 1, Start(Reader));
  }

  lemma SecondWriter()
    ensures On(On(On(READER_CLAIMED, CallIt(2, Writer)), Step(2, CALM)), Step(2, CALM))
            == Move(READER_CLAIMED, 2, AwaitWrite)
  {
    var y := On(READER_CLAIMED, CallIt(2, Writer));
    assert On(y, Step(2, CALM)) == Move(y, 2, Start(Writer));
  }

  lemma LetGo(z: Sys)
    requires z.early && z.c.done && Check(z.c).None? && 2 in z.at && z.at[2] == AwaitWrite
    ensures On(On(z, Step(2, CALM)), Step(2, CALM)).wire == z.wire + [DataOf(2)]
  {
  }

  lemma DataFirst()
    ensures var y := Move(READER_CLAIMED, 2, AwaitWrite);
            On(On(On(y, Step(1, CALM)), Step(2, CALM)), Step(2, CALM)).wire == [DataOf(2)]
  {
    hide On;
    ReplyFirst();
    LetGo(On(Move(READER_CLAIMED, 2, AwaitWrite), Step(1, CALM)));
  }

  lemma ReplyFirst()
    ensures var z := On(Move(READER_CLAIMED, 2, AwaitWrite), Step(1, CALM));
            && z.early && z.c.done && Check(z.c).None? && 2 in z.at && z.at[2] == AwaitWrite && z.wire == []
  {
  }

  lemma ReplyAwaited() returns (es: seq<Event>)
    ensures Run(Init(true, None), es) == READER_CLAIMED
  {
    hide On;
    es := [] + [CallIt(0, Writer), Step(0, CALM), Step(0, CALM)];
    RunThree(Init(true, None), [], CallIt(0, Writer), Step(0, CALM), Step(0, CALM));
    ClaimFirst();
    RunThree(Init(true, None), es, CallIt(1, Reader), Step(1, CALM), Step(1, CALM));
    es := es + [CallIt(1, Reader), Step(1, CALM), Step(1, CALM)];
    ReaderNext();
  }

  /** A run in which it does: the proxy's replies beat the handshake's write, another call is let
      through by the end of the handshake, and its data is first. */
  lemma EagerProxy() returns (es: seq<Event>)
    ensures !HandshakeFirst(Run(Init(true, None), es).wire)
  {
    hide On;
    es := ReplyAwaited();
    RunThree(Init(true, None), es, CallIt(2, Writer), Step(2, CALM), Step(2, CALM));
    es := es + [CallIt(2, Writer), Step(2, CALM), Step(2, CALM)];
    SecondWriter();
    RunThree(Init(true, None), es, Step(1, CALM), Step(2, CALM), Step(2, CALM));
    es := es + [Step(1, CALM), Step(2, CALM), Step(2, CALM)];
    DataFirst();
    assert Run(Init(true, None), es).wire == [DataOf(2)];
    assert [DataOf(2)][0] == DataOf(2);
  }

  // ------------------------------------------------------ when success stands

  /** The end of a first write that did not carry the whole handshake. */
  predicate EndsShort(y: Sys, e: Event) {
    e.Step? && e.t in y.at && y.at[e.t].SentIt? && y.at[e.t].short
  }

  /** An established handshake is lost to such an end, and to nothing else. */
  lemma LostExactly(y: Sys, e: Event)
    requires Inv(y) && y.c.done && y.c.err.None?
    ensures On(y, e).c.err.Some? <==> EndsShort(y, e)
  {
    if e.Step? && e.t in y.at {
      assert InPlace(y, e.t, y.at[e.t]);
    }
  }

  ghost predicate NoneShort(y: Sys, es: seq<Event>) {
    forall k :: 0 <= k < |es| ==> !EndsShort(Run(y, es[..k]), es[k])
  }

  lemma NoneShortSnoc(y: Sys, es: seq<Event>, e: Event)
    ensures NoneShort(y, []) && (NoneShort(y, es + [e]) <==> NoneShort(y, es) && !EndsShort(Run(y, es), e))
  {
    hide EndsShort, Run;
    var more := es + [e];
    assert more[..|es|] == es && more[|es|] == e;
    assert forall k :: 0 <= k < |es| ==> more[..k] == es[..k] && more[k] == es[k];
  }

  /** Over any continuation, a success stands exactly if no write of the handshake ends short. */
  lemma {:induction false} SuccessStands(early: bool, conf: Option<Failure>, es: seq<Event>, more: seq<Event>)
    requires var y := Run(Init(early, conf), es); y.c.done && y.c.err.None?
    ensures var y := Run(Init(early, conf), es);
            Run(y, more).c.err.None? <==> NoneShort(y, more)
    decreases |more|
  {
    hide On, Inv, NoneShort;
    if more != [] {
      var y, less := Run(Init(early, conf), es), more[..|more| - 1];
      SuccessStands(early, conf, es, less);
      RunSplits(Init(early, conf), es, less);
      Always(early, conf, es + less);
      OutcomeStable(early, conf, es, less);
      NoneShortSnoc(y, less, more[|more| - 1]);
      assert less + [more[|more| - 1]] == more;
      if Run(y, less).c.err.None? {
        LostExactly(Run(y, less), more[|more| - 1]);
      } else {
        OnKeeps(Run(y, less), more[|more| - 1]);
      }
    } else {
      assert NoneShort(Run(Init(early, conf), es), []) by {
        NoneShortSnoc(Run(Init(early, conf), es), [], CloseConn(Request));
      }
    }
  }

  /** Once the handshake is on the wire a success is final. */
  lemma {:induction false} FlushedStands(early: bool, conf: Option<Failure>, es: seq<Event>, more: seq<Event>)
    requires var y := Run(Init(early, conf), es); y.c.done && y.c.err.None? && TheHandshake in y.wire
    ensures var z := Run(Run(Init(early, conf), es), more); z.c.done && z.c.err.None? && TheHandshake in z.wire
    decreases |more|
  {
    hide On, Inv;
    if more != [] {
      var y, less := Run(Init(early, conf), es), more[..|more| - 1];
      FlushedStands(early, conf, es, less);
      RunSplits(Init(early, conf), es, less);
      Always(early, conf, es + less);
      FlushedStep(Run(y, less), more[|more| - 1]);
    }
  }

  lemma FlushedStep(y: Sys, e: Event)
    requires Inv(y) && y.c.done && y.c.err.None? && TheHandshake in y.wire
    ensures var z := On(y, e); z.c.done && z.c.err.None? && TheHandshake in z.wire
  {
    hide Goes;
    OnKeeps(y, e);
    LostExactly(y, e);
    if e.Step? && e.t in y.at {
      assert InPlace(y, e.t, y.at[e.t]);
      GoAdds(y, e.t, e.world);
    }
  }

  /** A run in which a success is lost: the replies came, yet the write ends short. HandshakeDone then
      runs, once, with that error. */
  lemma EstablishedThenShort() returns (es: seq<Event>, more: seq<Event>)
    ensures var y, z := Run(Init(true, None), es), Run(Init(true, None), es + more);
            && y.c.done && y.c.err.None? && y.hooks == 0
            && z.c.err == Some(Failure(Request, WriteFailed)) && z.hooks == 1
  {
    hide On;
    var e, f, s := Step(1, CALM), Step(0, CALM.(werr := Some(WriteFailed))), Step(0, CALM);
    var start := ReplyAwaited();
    es, more := start + [e], [f, s];
    RunSnoc(Init(true, None), start, e);
    RunThree(Init(true, None), start, e, f, s);
    assert es + more == start + [e, f, s];
    ShortAfterReply();
  }

  lemma ShortAfterReply()
    ensures var y := On(READER_CLAIMED, Step(1, CALM));
            var z := On(On(y, Step(0, CALM.(werr := Some(WriteFailed)))), Step(0, CALM));
            y.c.done && y.c.err.None? && y.hooks == 0 && z.c.err == Some(Failure(Request, WriteFailed)) && z.hooks == 1
  {
    var y := On(READER_CLAIMED, Step(1, CALM));
    assert y.c.done && y.c.err.None? && y.at[0] == Writing(Writer, false);
    var x := On(y, Step(0, CALM.(werr := Some(WriteFailed))));
    assert x.at[0] == SentIt(Writer, true, Some(WriteFailed)) && x.c == y.c;
  }
}
