/** The server's slots (go/socks0/server/server.go): how many connections it takes, from how many
    Serve loops at once, and how Shutdown waits for them. */
module Slots {
  import opened Wire

  datatype ConnState = New | Active | Shut | Closed

  /** A tracked connection; counted while it is in inHandshake. */
  datatype Tracked = Tracked(state: ConnState, counted: bool)

  /** freed is the channel waiting loops sleep on, by number. */
  datatype State = State(
    slotsUsed: int, conns: map<nat, Tracked>, inHandshake: int, done: bool, freed: Option<nat>, channels: nat)

  const NO_CONNS := State(0, map[], 0, false, None, 0)

  // -------------------------------------------------- the critical sections

  datatype Slot = Taken | Refused | Sleep(ch: nat)

  function WaitSlot(s: State, maxConns: int): (State, Slot) {
    if s.done then (s, Refused)
    else if maxConns <= 0 || s.slotsUsed < maxConns then (s.(slotsUsed := s.slotsUsed + 1), Taken)
    else if s.freed.Some? then (s, Sleep(s.freed.value))
    else (s.(freed := Some(s.channels), channels := s.channels + 1), Sleep(s.channels))
  }

  /** Nothing is tracked after Shutdown. */
  function NewConn(s: State, id: nat, slotTaken: bool): (State, bool) {
    if s.done then (if slotTaken then s.(slotsUsed := s.slotsUsed - 1) else s, false)
    else
      (s.(conns := s.conns[id := Tracked(New, true)],
          slotsUsed := if slotTaken then s.slotsUsed else s.slotsUsed + 1,
          inHandshake := s.inHandshake + 1), true)
  }

  /** The handshake is over: the connection may be served, unless a shutdown took it first. */
  function Activate(s: State, id: nat): (State, bool)
    requires id in s.conns
  {
    if s.conns[id].state.New? then
      (s.(conns := s.conns[id := Tracked(Active, false)], inHandshake := s.inHandshake - 1), true)
    else (s, false)
  }

  /** The end of a connection, before untrack. */
  function Finish(s: State, id: nat): State
    requires id in s.conns
  {
    s.(conns := s.conns[id := Tracked(ConnState.Closed, false)],
       inHandshake := if s.conns[id].counted then s.inHandshake - 1 else s.inHandshake)
  }

  function Untrack(s: State, id: nat): State {
    s.(conns := s.conns - {id}, slotsUsed := s.slotsUsed - 1, freed := None)
  }

  function Stop(s: State): State { s.(done := true) }

  function CloseHandshakes(s: State): State {
    s.(conns := map id | id in s.conns :: if s.conns[id].state.New? then Tracked(Shut, s.conns[id].counted) else s.conns[id])
  }

  // ---------------------------------------------------- what they are for

  /** A slot is refused only after the stop, and given whenever one is free; otherwise the loop sleeps on
      the one channel there is, and nothing else changes. */
  lemma GivesSlot(s: State, maxConns: int)
    ensures var (t, slot) := WaitSlot(s, maxConns);
            && (slot.Refused? <==> s.done)
            && (slot.Taken? <==> !s.done && (maxConns <= 0 || s.slotsUsed < maxConns))
            && t.slotsUsed == s.slotsUsed + (if slot.Taken? then 1 else 0)
            && t.conns == s.conns && t.inHandshake == s.inHandshake && t.done == s.done
            && (slot.Sleep? ==> t.freed == Some(slot.ch) && slot.ch == if s.freed.Some? then s.freed.value else s.channels)
  {
  }

  /** A connection is served exactly if it is still new when its handshake is over; then its place among
      the handshakes is free. */
  lemma ServesNew(s: State, id: nat)
    requires id in s.conns
    ensures var (t, served) := Activate(s, id);
            && served == s.conns[id].state.New? && t.slotsUsed == s.slotsUsed && t.done == s.done
            && (served ==> t.conns == s.conns[id := Tracked(Active, false)] && t.inHandshake == s.inHandshake - 1)
            && (!served ==> t == s)
  {
  }

  /** Shutdown's poll takes every connection that is new, and no other. */
  lemma ShutsNew(s: State)
    ensures var t := CloseHandshakes(s);
            && t.conns.Keys == s.conns.Keys && t.slotsUsed == s.slotsUsed && t.inHandshake == s.inHandshake
            && t.done == s.done && t.freed == s.freed
            && forall id :: id in s.conns ==>
                 && t.conns[id].counted == s.conns[id].counted
                 && t.conns[id].state == if s.conns[id].state.New? then Shut else s.conns[id].state
  {
  }

  /** A connection is tracked unless the server stopped; then a slot taken for it is given back. */
  lemma TracksUntilStop(s: State, id: nat, slotTaken: bool)
    ensures var (t, ok) := NewConn(s, id, slotTaken);
            && ok == !s.done && t.done == s.done && t.freed == s.freed
            && (ok ==> t.conns == s.conns[id := Tracked(New, true)] && t.inHandshake == s.inHandshake + 1)
            && (!ok ==> t.conns == s.conns && t.inHandshake == s.inHandshake)
            && t.slotsUsed == s.slotsUsed + (if ok then 1 else 0) - (if slotTaken then 1 else 0)
  {
  }

  // ------------------------------------------------------------------- runs

  /** A Serve loop: accepting; past the handshake cap; asleep; holding a slot. */
  datatype Loop = Accepting | Admitted | Asleep(ch: nat) | Slotted

  datatype Event =
    | Accepts(loop: nat) // start's look at the cap
    | Waits(loop: nat) // waitSlot, or a sleeper's turn
    | Starts(loop: nat, id: nat) // newConn
    | ServesConn(id: nat) // ServeConn, past every limit
    | Activates(id: nat) | Finishes(id: nat) | Untracks(id: nat)
    | Stops | ClosesHandshakes

  datatype Sys = Sys(s: State, loops: map<nat, Loop>, maxConns: int, maxHandshakes: int)

  function WaitStep(y: Sys, loop: nat): Sys {
    var (t, slot) := WaitSlot(y.s, y.maxConns);
    var pc := match slot case Taken => Slotted case Refused => Accepting case Sleep(ch) => Asleep(ch);
    y.(s := t, loops := y.loops[loop := pc])
  }

  function On(y: Sys, e: Event): Sys {
    match e
    case Accepts(loop) =>
      if loop !in y.loops || !y.loops[loop].Accepting? || (y.maxHandshakes > 0 && y.s.inHandshake >= y.maxHandshakes) then y
      else y.(loops := y.loops[loop := Admitted])
    case Waits(loop) =>
      if loop !in y.loops then y
      else if y.loops[loop].Admitted? then WaitStep(y, loop)
      else if y.loops[loop].Asleep? && (y.s.freed != Some(y.loops[loop].ch) || y.s.done) then WaitStep(y, loop)
      else y
    case Starts(loop, id) =>
      if loop !in y.loops || !y.loops[loop].Slotted? || id in y.s.conns then y
      else y.(s := NewConn(y.s, id, true).0, loops := y.loops[loop := Accepting])
    case ServesConn(id) => if id in y.s.conns then y else y.(s := NewConn(y.s, id, false).0)
    case Activates(id) => if id in y.s.conns then y.(s := Activate(y.s, id).0) else y
    case Finishes(id) => if id in y.s.conns && !y.s.conns[id].state.Closed? then y.(s := Finish(y.s, id)) else y
    case Untracks(id) => if id in y.s.conns && y.s.conns[id].state.Closed? then y.(s := Untrack(y.s, id)) else y
    case Stops => y.(s := Stop(y.s))
    case ClosesHandshakes => y.(s := CloseHandshakes(y.s))
  }

  function Run(y: Sys, es: seq<Event>): Sys
    decreases |es|
  {
    if es == [] then y else On(Run(y, es[..|es| - 1]), es[|es| - 1])
  }

  function Init(loops: set<nat>, maxConns: int, maxHandshakes: int): Sys {
    Sys(NO_CONNS, map l | l in loops :: Accepting, maxConns, maxHandshakes)
  }

  // -------------------------------------------------------------- invariant

  ghost function Slotteds(loops: map<nat, Loop>): set<nat> { set l | l in loops && loops[l].Slotted? }

  ghost function Past(loops: map<nat, Loop>): set<nat> { set l | l in loops && !loops[l].Accepting? }

  ghost function Counted(conns: map<nat, Tracked>): set<nat> { set c | c in conns && conns[c].counted }

  ghost predicate Inv(y: Sys) {
    && y.s.slotsUsed == |y.s.conns| + |Slotteds(y.loops)|
    && y.s.inHandshake == |Counted(y.s.conns)|
    && (forall c :: c in y.s.conns ==> (y.s.conns[c].state.New? ==> y.s.conns[c].counted)
                                       && (y.s.conns[c].counted ==> y.s.conns[c].state.New? || y.s.conns[c].state.Shut?))
    && (y.s.freed.Some? ==> y.s.freed.value < y.s.channels)
    && forall l :: l in y.loops && y.loops[l].Asleep? ==>
         y.loops[l].ch < y.s.channels
         && (y.s.freed == Some(y.loops[l].ch) && !y.s.done ==> 0 < y.maxConns <= y.s.slotsUsed)
  }

  /** What holds when only Serve loops take connections. */
  ghost predicate Capped(y: Sys) {
    && (y.maxConns > 0 ==> y.s.slotsUsed <= y.maxConns)
    && (y.maxHandshakes > 0 ==> y.s.inHandshake + |Past(y.loops)| < y.maxHandshakes + |y.loops| || y.loops == map[])
  }

  lemma LoopMoves(loops: map<nat, Loop>, l: nat, pc: Loop)
    requires l in loops
    ensures var m := loops[l := pc];
            && m.Keys == loops.Keys && |m| == |loops|
            && |Slotteds(m)| == |Slotteds(loops)| + (if pc.Slotted? then 1 else 0) - (if loops[l].Slotted? then 1 else 0)
            && |Past(m)| == |Past(loops)| + (if pc.Accepting? then 0 else 1) - (if loops[l].Accepting? then 0 else 1)
            && |Past(m)| <= |loops|
  {
    hide Slotteds, Past;
    assert loops[l := pc].Keys == loops.Keys;
    SlottedsMove(loops, l, pc);
    PastMoves(loops, l, pc);
  }

  lemma SlottedsMove(loops: map<nat, Loop>, l: nat, pc: Loop)
    requires l in loops
    ensures |Slotteds(loops[l := pc])|
            == |Slotteds(loops)| + (if pc.Slotted? then 1 else 0) - (if loops[l].Slotted? then 1 else 0)
  {
    var m := loops[l := pc];
    assert Slotteds(m) - {l} == Slotteds(loops) - {l};
    Sized(Slotteds(m), l);
    Sized(Slotteds(loops), l);
  }

  lemma PastMoves(loops: map<nat, Loop>, l: nat, pc: Loop)
    requires l in loops
    ensures var m := loops[l := pc];
            && |Past(m)| == |Past(loops)| + (if pc.Accepting? then 0 else 1) - (if loops[l].Accepting? then 0 else 1)
            && |Past(m)| <= |m.Keys|
  {
    var m := loops[l := pc];
    assert Past(m) - {l} == Past(loops) - {l};
    Sized(Past(m), l);
    Sized(Past(loops), l);
    Within(Past(m), m.Keys);
  }

  lemma Sized(s: set<nat>, x: nat)
    ensures |s| == |s - {x}| + (if x in s then 1 else 0)
  {
    if x in s {
      assert s == (s - {x}) + {x};
    } else {
      assert s == s - {x};
    }
  }

  lemma {:induction false} Within(s: set<nat>, t: set<nat>)
    requires s <= t
    ensures |s| <= |t|
  {
    if s != {} {
      var x :| x in s;
      Within(s - {x}, t - {x});
      Sized(s, x);
      Sized(t, x);
    }
  }

  lemma ConnMoves(conns: map<nat, Tracked>, id: nat, c: Tracked)
    ensures var m := conns[id := c];
            && |m| == |conns| + (if id in conns then 0 else 1)
            && |Counted(m)| == |Counted(conns)| + (if c.counted then 1 else 0)
                                                - (if id in conns && conns[id].counted then 1 else 0)
  {
    var m := conns[id := c];
    CountMoves(conns, m, id);
    KeysMove(conns.Keys, m.Keys, id);
  }

  lemma KeysMove(a: set<nat>, b: set<nat>, id: nat)
    requires b == a + {id}
    ensures |b| == |a| + (if id in a then 0 else 1)
  {
    assert b - {id} == a - {id};
    Sized(a, id);
    Sized(b, id);
  }

  lemma CountMoves(conns: map<nat, Tracked>, m: map<nat, Tracked>, id: nat)
    requires id in m && m == conns[id := m[id]]
    ensures |Counted(m)| == |Counted(conns)| + (if m[id].counted then 1 else 0)
                                             - (if id in conns && conns[id].counted then 1 else 0)
  {
    assert Counted(m) - {id} == Counted(conns) - {id};
    Sized(Counted(m), id);
    Sized(Counted(conns), id);
  }

  lemma ConnGoes(conns: map<nat, Tracked>, id: nat)
    requires id in conns
    ensures |conns - {id}| == |conns| - 1
    ensures !conns[id].counted ==> Counted(conns - {id}) == Counted(conns)
  {
    var m := conns - {id};
    assert m.Keys == conns.Keys - {id};
    Sized(conns.Keys, id);
  }

  lemma ShutKeepsCount(s: State)
    ensures Counted(CloseHandshakes(s).conns) == Counted(s.conns) && |CloseHandshakes(s).conns| == |s.conns|
  {
    var m := CloseHandshakes(s).conns;
    assert m.Keys == s.conns.Keys;
  }

  lemma AllShut(s: State, m: map<nat, Tracked>)
    requires m.Keys == s.conns.Keys
    requires forall c :: c in m ==> m[c] == if s.conns[c].state.New? then Tracked(Shut, s.conns[c].counted) else s.conns[c]
    ensures CloseHandshakes(s) == s.(conns := m)
  {
    assert CloseHandshakes(s).conns == m;
  }

  lemma WaitKeeps(y: Sys, loop: nat)
    requires Inv(y) && loop in y.loops && (y.loops[loop].Admitted? || y.loops[loop].Asleep?)
    ensures Inv(WaitStep(y, loop)) && (Capped(y) ==> Capped(WaitStep(y, loop)))
    ensures Grows(y, WaitStep(y, loop))
  {
    var z := WaitStep(y, loop);
    LoopMoves(y.loops, loop, z.loops[loop]);
  }

  lemma StartKeeps(y: Sys, loop: nat, id: nat)
    requires Inv(y) && loop in y.loops && y.loops[loop].Slotted? && id !in y.s.conns
    ensures var z := On(y, Starts(loop, id)); Inv(z) && (Capped(y) ==> Capped(z)) && Grows(y, z)
  {
    LoopMoves(y.loops, loop, Accepting);
    ConnMoves(y.s.conns, id, Tracked(New, true));
  }

  lemma AcceptKeeps(y: Sys, loop: nat)
    requires Inv(y)
    ensures var z := On(y, Accepts(loop)); Inv(z) && (Capped(y) ==> Capped(z)) && Grows(y, z)
  {
    if loop in y.loops {
      LoopMoves(y.loops, loop, Admitted);
    }
  }

  /** Once stopped, always; and then nothing new is tracked. */
  ghost predicate Grows(y: Sys, z: Sys) {
    && (y.s.done ==> z.s.done && z.s.conns.Keys <= y.s.conns.Keys)
    && z.maxConns == y.maxConns && z.maxHandshakes == y.maxHandshakes && z.loops.Keys == y.loops.Keys
  }

  lemma ServedKeeps(y: Sys, id: nat)
    requires Inv(y)
    ensures var z := On(y, ServesConn(id)); Inv(z) && Grows(y, z)
  {
    ConnMoves(y.s.conns, id, Tracked(New, true));
  }

  lemma ActivateKeeps(y: Sys, id: nat)
    requires Inv(y) && id in y.s.conns
    ensures var z := On(y, Activates(id)); Inv(z) && Grows(y, z) && (Capped(y) ==> Capped(z))
  {
    ConnMoves(y.s.conns, id, Tracked(Active, false));
  }

  lemma FinishKeeps(y: Sys, id: nat)
    requires Inv(y) && id in y.s.conns
    ensures var z := On(y, Finishes(id)); Inv(z) && Grows(y, z) && (Capped(y) ==> Capped(z))
  {
    ConnMoves(y.s.conns, id, Tracked(ConnState.Closed, false));
  }

  lemma UntrackKeeps(y: Sys, id: nat)
    requires Inv(y) && id in y.s.conns
    ensures var z := On(y, Untracks(id)); Inv(z) && Grows(y, z) && (Capped(y) ==> Capped(z))
  {
    ConnGoes(y.s.conns, id);
  }

  lemma OnKeeps(y: Sys, e: Event)
    requires Inv(y)
    ensures var z := On(y, e); Inv(z) && Grows(y, z) && (Capped(y) && !e.ServesConn? ==> Capped(z))
  {
    match e
    case Accepts(loop) => AcceptKeeps(y, loop);
    case Waits(loop) =>
      if loop in y.loops && (y.loops[loop].Admitted? || y.loops[loop].Asleep?) {
        WaitKeeps(y, loop);
      }
    case Starts(loop, id) =>
      if loop in y.loops && y.loops[loop].Slotted? && id !in y.s.conns {
        StartKeeps(y, loop, id);
      }
    case Stops =>
    case ClosesHandshakes => ShutKeepsCount(y.s);
    case ServesConn(id) => ServedKeeps(y, id);
    case Activates(id) =>
      if id in y.s.conns {
        ActivateKeeps(y, id);
      }
    case Finishes(id) =>
      if id in y.s.conns {
        FinishKeeps(y, id);
      }
    case Untracks(id) =>
      if id in y.s.conns {
        UntrackKeeps(y, id);
      }
  }

  lemma InitOk(loops: set<nat>, maxConns: int, maxHandshakes: int)
    ensures var y := Init(loops, maxConns, maxHandshakes); Inv(y) && Capped(y) && y.loops.Keys == loops
  {
    var y := Init(loops, maxConns, maxHandshakes);
    assert Slotteds(y.loops) == {} && Past(y.loops) == {} && Counted(y.s.conns) == {};
  }

  /** Slots in use are the tracked connections and the loops between waitSlot and newConn; no loop
      sleeps on an open channel while a slot is free. */
  lemma {:induction false} Always(loops: set<nat>, maxConns: int, maxHandshakes: int, es: seq<Event>)
    ensures Inv(Run(Init(loops, maxConns, maxHandshakes), es))
    ensures Grows(Init(loops, maxConns, maxHandshakes), Run(Init(loops, maxConns, maxHandshakes), es))
    decreases |es|
  {
    hide On, Inv;
    var y := Init(loops, maxConns, maxHandshakes);
    InitOk(loops, maxConns, maxHandshakes);
    if es != [] {
      Always(loops, maxConns, maxHandshakes, es[..|es| - 1]);
      OnKeeps(Run(y, es[..|es| - 1]), es[|es| - 1]);
    }
  }

  /** No wake-up is lost: a loop sleeps on an open channel only while every slot is in use. */
  lemma NoLoopStuck(loops: set<nat>, maxConns: int, maxHandshakes: int, es: seq<Event>, l: nat)
    requires var y := Run(Init(loops, maxConns, maxHandshakes), es); l in y.loops && y.loops[l].Asleep?
    ensures var y := Run(Init(loops, maxConns, maxHandshakes), es);
            y.s.freed == Some(y.loops[l].ch) && !y.s.done ==> 0 < maxConns <= y.s.slotsUsed
  {
    Always(loops, maxConns, maxHandshakes, es);
  }

  lemma {:induction false} CappedRun(loops: set<nat>, maxConns: int, maxHandshakes: int, es: seq<Event>)
    requires forall i :: 0 <= i < |es| ==> !es[i].ServesConn?
    ensures Capped(Run(Init(loops, maxConns, maxHandshakes), es))
    decreases |es|
  {
    hide On, Inv, Capped;
    var y := Init(loops, maxConns, maxHandshakes);
    InitOk(loops, maxConns, maxHandshakes);
    if es != [] {
      CappedRun(loops, maxConns, maxHandshakes, es[..|es| - 1]);
      Always(loops, maxConns, maxHandshakes, es[..|es| - 1]);
      OnKeeps(Run(y, es[..|es| - 1]), es[|es| - 1]);
    }
  }

  /** With Serve loops only, MaxConns is never exceeded; k loops overshoot MaxHandshakes by at most
      k - 1, as each looks before it takes. */
  lemma Limits(loops: set<nat>, maxConns: int, maxHandshakes: int, es: seq<Event>)
    requires loops != {} && forall i :: 0 <= i < |es| ==> !es[i].ServesConn?
    ensures var s := Run(Init(loops, maxConns, maxHandshakes), es).s;
            && (maxConns > 0 ==> |s.conns| <= maxConns)
            && (maxHandshakes > 0 ==> s.inHandshake <= maxHandshakes + |loops| - 1)
  {
    CappedRun(loops, maxConns, maxHandshakes, es);
    Always(loops, maxConns, maxHandshakes, es);
    InitOk(loops, maxConns, maxHandshakes);
    var y := Run(Init(loops, maxConns, maxHandshakes), es);
    assert |y.loops| == |y.loops.Keys|;
  }

  lemma {:induction false} RunSplits(y: Sys, es: seq<Event>, more: seq<Event>)
    ensures Run(y, es + more) == Run(Run(y, es), more)
    decreases |more|
  {
    hide On;
    if more == [] {
      assert es + more == es;
    } else {
      assert (es + more)[..|es + more| - 1] == es + more[..|more| - 1];
      RunSplits(y, es, more[..|more| - 1]);
    }
  }

  /** A loop under the handshake cap goes on; one that is woken while a slot is free takes it. */
  lemma LoopsGoOn(y: Sys, l: nat)
    requires l in y.loops
    ensures y.loops[l].Accepting? && (y.maxHandshakes <= 0 || y.s.inHandshake < y.maxHandshakes) ==>
              On(y, Accepts(l)).loops[l] == Loop.Admitted
    ensures y.loops[l].Accepting? && y.maxHandshakes > 0 && y.s.inHandshake >= y.maxHandshakes ==> On(y, Accepts(l)) == y
    ensures !y.s.done && (y.maxConns <= 0 || y.s.slotsUsed < y.maxConns) ==>
              y.loops[l].Admitted? || (y.loops[l].Asleep? && y.s.freed != Some(y.loops[l].ch)) ==>
                On(y, Waits(l)).loops[l] == Slotted
    ensures y.loops[l].Asleep? && y.s.freed == Some(y.loops[l].ch) && !y.s.done ==> On(y, Waits(l)) == y
    ensures (y.loops[l].Admitted? || y.loops[l].Asleep?) && y.s.done ==> On(y, Waits(l)).loops[l] == Accepting
  {
  }

  /** A slotted loop or ServeConn starts a connection, which ends once. */
  lemma ConnsComeAndEnd(y: Sys, l: nat, id: nat)
    ensures l in y.loops && y.loops[l].Slotted? && id !in y.s.conns ==>
              On(y, Starts(l, id)) == y.(s := NewConn(y.s, id, true).0, loops := y.loops[l := Accepting])
    ensures id !in y.s.conns ==> On(y, ServesConn(id)) == y.(s := NewConn(y.s, id, false).0)
    ensures id in y.s.conns ==> On(y, Activates(id)) == y.(s := Activate(y.s, id).0)
    ensures id in y.s.conns && !y.s.conns[id].state.Closed? ==>
              var t := On(y, Finishes(id)).s;
              && t.conns == y.s.conns[id := Tracked(ConnState.Closed, false)] && t.slotsUsed == y.s.slotsUsed
              && t.inHandshake == y.s.inHandshake - if y.s.conns[id].counted then 1 else 0
    ensures On(y, Stops).s == y.s.(done := true) && On(y, ClosesHandshakes).s == CloseHandshakes(y.s)
  {
  }

  /** A connection that goes frees its slot and wakes every sleeper. */
  lemma SlotFreed(y: Sys, id: nat)
    requires id in y.s.conns && y.s.conns[id].state.Closed?
    ensures var z := On(y, Untracks(id));
            && id !in z.s.conns && z.s.slotsUsed == y.s.slotsUsed - 1 && z.s.freed == None && z.loops == y.loops
            && forall c :: c in y.s.conns && c != id ==> c in z.s.conns && z.s.conns[c] == y.s.conns[c]
  {
  }

  ghost predicate NoneNew(s: State) { forall c :: c in s.conns ==> !s.conns[c].state.New? }

  /** After the server stopped, what is tracked only gets fewer; so when Shutdown finds nothing
      tracked, nothing is and nothing will be. Handshakes closed once are not missed later. */
  lemma {:induction false} AfterStop(loops: set<nat>, maxConns: int, maxHandshakes: int, es: seq<Event>, more: seq<Event>)
    requires Run(Init(loops, maxConns, maxHandshakes), es).s.done
    ensures var y := Init(loops, maxConns, maxHandshakes);
            && Run(y, es + more).s.done
            && Run(y, es + more).s.conns.Keys <= Run(y, es).s.conns.Keys
            && (NoneNew(Run(y, es).s) ==> NoneNew(Run(y, es + more).s))
    decreases |more|
  {
    hide On, Inv;
    var y := Init(loops, maxConns, maxHandshakes);
    if more == [] {
      assert es + more == es;
    } else {
      var less := more[..|more| - 1];
      assert (es + more)[..|es + more| - 1] == es + less;
      AfterStop(loops, maxConns, maxHandshakes, es, less);
      Always(loops, maxConns, maxHandshakes, es + less);
      OnKeeps(Run(y, es + less), more[|more| - 1]);
      NoneNewKept(Run(y, es + less), more[|more| - 1]);
    }
  }

  lemma NoneNewKept(y: Sys, e: Event)
    requires y.s.done
    ensures NoneNew(y.s) ==> NoneNew(On(y, e).s)
    ensures e.ClosesHandshakes? ==> NoneNew(On(y, e).s)
  {
  }

  /** Nothing is tracked under this number, or a connection that is not served. */
  predicate Unserved(s: State, id: nat) { id in s.conns ==> s.conns[id].state.Shut? || s.conns[id].state.Closed? }

  lemma UnservedKept(y: Sys, e: Event, id: nat)
    requires y.s.done && Unserved(y.s, id)
    ensures Unserved(On(y, e).s, id)
  {
  }

  /** A connection that a poll of Shutdown took in its handshake is never served, whatever follows. */
  lemma {:induction false} ShutIsFinal(loops: set<nat>, maxConns: int, maxHandshakes: int, es: seq<Event>, more: seq<Event>, id: nat)
    requires var s := Run(Init(loops, maxConns, maxHandshakes), es).s;
             s.done && id in s.conns && s.conns[id].state.Shut?
    ensures Unserved(Run(Init(loops, maxConns, maxHandshakes), es + more).s, id)
    decreases |more|
  {
    hide On;
    var y := Init(loops, maxConns, maxHandshakes);
    if more == [] {
      assert es + more == es;
    } else {
      var less := more[..|more| - 1];
      assert (es + more)[..|es + more| - 1] == es + less;
      ShutIsFinal(loops, maxConns, maxHandshakes, es, less, id);
      AfterStop(loops, maxConns, maxHandshakes, es, less);
      UnservedKept(Run(y, es + less), more[|more| - 1], id);
    }
  }
}

/** The server's own fields and what start, untrack, stop and Shutdown's poll do to them. */
module SlotServer {
  import opened Wire
  import opened Slots

  class Server {
    const maxConns: int
    var slotsUsed: int
    var conns: map<nat, Tracked>
    var inHandshake: int
    var done: bool
    var freed: Option<nat>
    var channels: nat
    ghost var slotted: nat // loops between waitSlot and newConn

    /** The slots in use are the tracked connections and the slotted loops. */
    ghost predicate Valid()
      reads this
    {
      slotsUsed == |conns| + slotted && inHandshake == |Counted(conns)| && (freed.Some? ==> freed.value < channels)
    }

    ghost function View(): State
      reads this
    {
      State(slotsUsed, conns, inHandshake, done, freed, channels)
    }

    constructor (maxConns: int)
      ensures this.maxConns == maxConns && View() == NO_CONNS && Valid() && slotted == 0
    {
      this.maxConns, slotted := maxConns, 0;
      slotsUsed, conns, inHandshake, done, freed, channels := 0, map[], 0, false, None, 0;
      new;
      assert Counted(conns) == {};
    }

    /** One turn of waitSlot's loop. */
    method WaitSlot() returns (slot: Slot)
      requires Valid()
      modifies `slotsUsed, `freed, `channels, `slotted
      ensures Valid() && slotted == old(slotted) + if slot.Taken? then 1 else 0
      ensures (View(), slot) == Slots.WaitSlot(old(View()), maxConns)
    {
      if done {
        return Refused;
      }
      if maxConns <= 0 || slotsUsed < maxConns {
        slotsUsed, slotted := slotsUsed + 1, slotted + 1;
        return Taken;
      }
      if freed.None? {
        freed, channels := Some(channels), channels + 1;
      }
      slot := Sleep(freed.value);
    }

    method NewConn(id: nat, slotTaken: bool) returns (ok: bool)
      requires Valid() && id !in conns && (slotTaken ==> slotted > 0)
      modifies `conns, `slotsUsed, `inHandshake, `slotted
      ensures Valid() && slotted == old(slotted) - if slotTaken then 1 else 0
      ensures (View(), ok) == Slots.NewConn(old(View()), id, slotTaken)
    {
      if done {
        if slotTaken {
          slotsUsed, slotted := slotsUsed - 1, slotted - 1;
        }
        return false;
      }
      ConnMoves(conns, id, Tracked(New, true));
      conns := conns[id := Tracked(New, true)];
      if slotTaken {
        slotted := slotted - 1;
      } else {
        slotsUsed := slotsUsed + 1;
      }
      inHandshake := inHandshake + 1;
      ok := true;
    }

    method Untrack(id: nat)
      requires Valid() && id in conns && !conns[id].counted
      modifies `conns, `slotsUsed, `freed
      ensures Valid()
      ensures View() == Slots.Untrack(old(View()), id)
    {
      ConnGoes(conns, id);
      conns := conns - {id};
      slotsUsed := slotsUsed - 1;
      if freed.Some? {
        freed := None;
      }
    }

    method Stop()
      requires Valid()
      modifies `done
      ensures Valid()
      ensures View() == Slots.Stop(old(View()))
    {
      if !done {
        done := true;
      }
    }

    /** Shuts the connections still in their handshake; how many are left altogether. */
    method CloseHandshakes() returns (n: nat)
      requires Valid()
      modifies `conns
      ensures Valid()
      ensures View() == Slots.CloseHandshakes(old(View())) && n == |old(conns)|
    {
      hide Slots.CloseHandshakes, Counted;
      ghost var was := conns;
      var left := conns.Keys;
      while left != {}
        invariant left <= was.Keys && conns.Keys == was.Keys
        invariant forall c :: c in was && c in left ==> conns[c] == was[c]
        invariant forall c :: c in was && c !in left ==>
                    conns[c] == if was[c].state.New? then Tracked(Shut, was[c].counted) else was[c]
        decreases |left|
      {
        var c :| c in left;
        if conns[c].state.New? {
          conns := conns[c := Tracked(Shut, conns[c].counted)];
        }
        left := left - {c};
      }
      ShutKeepsCount(old(View()));
      AllShut(old(View()), conns);
      n := |conns|;
    }
  }
}
