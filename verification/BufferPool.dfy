/** Who owns a connection's pooled buffers when its Conn is read, handed over and ended from several
    goroutines (go/socks0/server/tunnel.go, request.go and the end of conn.go). One step is one
    critical section, or the copy between two of them. Where the buffers are given back here, Session
    calls InBuffer.PutBack and OutBuffer.PutBack, after which both are all zero. */
module BufferPool {

  /** Where the buffers got from the pool are. */
  datatype Owner = TheConn | Ender | Pool | Dropped

  /** left counts the unread buffered bytes. using is the reader's copy outside the lock, peeking the
      handler's Peek; lingers is the end's own use of the buffers. puts counts the returns. */
  datatype Life = Life(
    held: bool, reading: bool, done: bool, handedOff: bool, drained: bool, exposed: bool,
    replied: bool, tunnel: bool, readErr: bool, left: nat, linger: bool,
    owner: Owner, using: bool, peeking: bool, lingers: bool, puts: nat)

  function Start(left: nat, readErr: bool, exposed: bool): Life {
    Life(true, false, false, false, false, exposed, false, false, readErr, left, false, TheConn, false, false, false, 0)
  }

  datatype Event =
    | Early | PeekBegins | PeekEnds(left: nat, readErr: bool) | Replied(ok: bool, success: bool)
    | Take | Consumed(n: nat) | HandOver | End | Closes

  function Give(s: Life): Life {
    if s.exposed then s.(owner := Dropped) else s.(owner := Pool, puts := s.puts + 1)
  }

  function Release(s: Life): Life {
    if s.held && !s.reading && (!s.handedOff || s.done) then Give(s).(held := false) else s
  }

  predicate Live(s: Life) { !s.replied && !s.done && s.held }

  function On(s: Life, e: Event): Life {
    match e
    case Early => if Live(s) && !s.peeking then s.(exposed := s.exposed || s.left > 0) else s
    case PeekBegins => if Live(s) && !s.peeking then s.(peeking := true) else s
    case PeekEnds(left, readErr) =>
      if s.peeking then s.(peeking := false, left := left, readErr := readErr, exposed := s.exposed || left > 0) else s
    case Replied(ok, success) =>
      if !Live(s) || s.peeking then s // Reply runs anywhere, not during Peek
      else s.(replied := true, tunnel := ok && success, linger := ok && !success)
    case Take =>
      if !s.tunnel || s.using || s.drained then s // one reader; once drained it reads the conn itself
      else if s.done || s.handedOff then s
      else if s.held && s.left > 0 then s.(reading := true, using := true)
      else if s.readErr then s
      else Release(s).(drained := true)
    case Consumed(n) =>
      if !s.using || n > s.left then s
      else
        var t := s.(using := false, reading := false, left := s.left - n);
        if t.left == 0 || t.done then Release(t) else t
    case HandOver =>
      if !s.tunnel then s
      else
        var t := s.(handedOff := true, drained := true);
        if s.handedOff || s.done || !s.held then t else t.(exposed := s.exposed || s.left > 0)
    case End =>
      if s.done || s.peeking || !s.replied then s // the handler returned; fallbackReply came first
      else
        var t := s.(done := true);
        var u := if s.reading then t
                 else if !s.held then t
                 else if s.exposed then t.(held := false, owner := Dropped)
                 else t.(held := false, owner := Ender);
        u.(lingers := u.owner.Ender? && s.linger)
    case Closes => if s.owner.Ender? then Give(s).(lingers := false) else s
  }

  function Run(s: Life, es: seq<Event>): Life
    decreases |es|
  {
    if es == [] then s else On(Run(s, es[..|es| - 1]), es[|es| - 1])
  }

  ghost predicate Inv(s: Life) {
    && (s.held <==> s.owner.TheConn?) && s.puts == (if s.owner.Pool? then 1 else 0)
    && s.reading == s.using && (s.done && s.held ==> s.using)
    && (s.using ==> s.owner.TheConn?) && (s.peeking ==> s.owner.TheConn? && !s.replied && !s.done)
    && (s.lingers ==> s.owner.Ender?) && (s.owner.Ender? ==> s.done)
    && (s.owner.Pool? || s.owner.Ender? ==> !s.exposed) && (s.owner.Dropped? ==> s.exposed)
    && (!s.replied ==> s.held && !s.done && !s.tunnel) && (s.tunnel ==> s.replied) && (s.using ==> s.tunnel)
  }

  lemma OnKeeps(s: Life, e: Event)
    requires Inv(s)
    ensures Inv(On(s, e))
    ensures s.owner.Pool? ==> On(s, e).owner.Pool? && On(s, e).exposed == s.exposed
  {
  }

  /** The buffers are put back at most once, never while a read, a Peek or the lingering close uses
      them, and never once a slice of them reached the handler. */
  lemma {:induction false} PutBackOnce(left: nat, readErr: bool, exposed: bool, es: seq<Event>)
    ensures var s := Run(Start(left, readErr, exposed), es);
            && Inv(s) && s.puts <= 1
            && (s.puts == 1 ==> !s.using && !s.peeking && !s.lingers && !s.exposed)
    decreases |es|
  {
    if es != [] {
      PutBackOnce(left, readErr, exposed, es[..|es| - 1]);
      OnKeeps(Run(Start(left, readErr, exposed), es[..|es| - 1]), es[|es| - 1]);
    }
  }

  /** Once they are back in the pool, no call gets at them again. */
  lemma {:induction false} BackForGood(left: nat, readErr: bool, exposed: bool, es: seq<Event>, more: seq<Event>)
    requires Run(Start(left, readErr, exposed), es).owner.Pool?
    ensures var s := Run(Start(left, readErr, exposed), es + more); s.owner.Pool? && s.puts == 1 && !s.exposed && !s.using
    decreases |more|
  {
    PutBackOnce(left, readErr, exposed, es + more);
    if more == [] {
      assert es + more == es;
    } else {
      var less := more[..|more| - 1];
      assert (es + more)[..|es + more| - 1] == es + less;
      BackForGood(left, readErr, exposed, es, less);
      PutBackOnce(left, readErr, exposed, es + less);
      OnKeeps(Run(Start(left, readErr, exposed), es + less), more[|more| - 1]);
    }
  }

  lemma RunSnoc(s: Life, es: seq<Event>, e: Event)
    ensures Run(s, es + [e]) == On(Run(s, es), e)
  {
    hide On;
    assert (es + [e])[..|es|] == es;
  }

  /** A slice gets out exactly if one that is not empty is handed over: by Early, by Peek or with the
      connection itself. */
  lemma GetsOut(s: Life, e: Event)
    ensures On(s, e).exposed ==
            (s.exposed
             || (e.Early? && Live(s) && !s.peeking && s.left > 0)
             || (e.PeekEnds? && s.peeking && e.left > 0)
             || (e.HandOver? && s.tunnel && !s.handedOff && !s.done && s.held && s.left > 0))
  {
    hide On;
    match e
    case Early | HandOver => ShowsBuffered(s);
    case PeekEnds(left, readErr) => ShowsPeeked(s, left, readErr);
    case _ => ShowsNothing(s, e);
  }

  lemma ShowsBuffered(s: Life)
    ensures On(s, Early).exposed == (s.exposed || (Live(s) && !s.peeking && s.left > 0))
    ensures On(s, HandOver).exposed
            == (s.exposed || (s.tunnel && !s.handedOff && !s.done && s.held && s.left > 0))
  {
  }

  lemma ShowsPeeked(s: Life, left: nat, readErr: bool)
    ensures On(s, PeekEnds(left, readErr)).exposed == (s.exposed || (s.peeking && left > 0))
  {
  }

  lemma ShowsNothing(s: Life, e: Event)
    requires !e.Early? && !e.PeekEnds? && !e.HandOver?
    ensures On(s, e).exposed == s.exposed
  {
    hide Release, Give;
    if e.Take? || e.Closes? {
      ReleaseExposes(s);
    } else if e.Consumed? && e.n <= s.left {
      ReleaseExposes(s.(using := false, reading := false, left := s.left - e.n));
    }
  }

  lemma ReleaseExposes(s: Life)
    ensures Release(s).exposed == Give(s).exposed == s.exposed
  {
  }

  /** A read takes what is buffered, then the error that came behind it, then the connection itself, for
      which the buffers are given up. */
  lemma Takes(s: Life)
    requires Inv(s) && s.tunnel && !s.using && !s.drained && !s.done && !s.handedOff && s.held
    ensures var t := On(s, Take);
            if s.left > 0 then t.using && t.reading && t.held && t.left == s.left
            else if s.readErr then t == s
            else t.drained && !t.held && !t.using && t.owner == if s.exposed then Dropped else Pool
  {
  }

  /** What was copied is gone; the reader gives the buffers up if they are empty, unless the connection
      was handed over meanwhile, and in any case if it is over. */
  lemma TakenIs(s: Life, n: nat)
    requires Inv(s) && s.using && n <= s.left
    ensures var t := On(s, Consumed(n));
            && !t.using && !t.reading && t.left == s.left - n
            && (!t.held <==> s.done || (t.left == 0 && !s.handedOff))
  {
  }

  /** A reply is final: a tunnel if it is a success that was written, a lingering close if it is a refusal
      that was. */
  lemma RepliedOnce(s: Life, ok: bool, success: bool)
    ensures var t := On(s, Replied(ok, success));
            if s.replied || s.done || !s.held || s.peeking then t == s
            else t == s.(replied := true, tunnel := ok && success, linger := ok && !success)
  {
  }

  /** The end: the buffers stay with a read that is under way, are dropped if a slice got out, and else
      are the end's own until the close is over, through which it lingers after a refusal. */
  lemma Ended(s: Life)
    requires Inv(s) && s.replied && !s.done
    ensures var t := On(s, End);
            && t.done && t.held == s.using && t.using == s.using && t.puts == s.puts
            && t.owner == (if s.using || !s.held then s.owner else if s.exposed then Dropped else Ender)
            && t.lingers == (s.linger && s.held && !s.using && !s.exposed)
  {
  }

  /** Nothing is kept for ever: after the end, once no read is under way and the close is over, the
      buffers are back, or dropped exactly if the handler may still hold a slice. */
  lemma Returned(left: nat, readErr: bool, exposed: bool, es: seq<Event>)
    requires var s := Run(Start(left, readErr, exposed), es); s.done && !s.using
    ensures var s := Run(Start(left, readErr, exposed), es + [Closes]); s.owner == if s.exposed then Dropped else Pool
  {
    PutBackOnce(left, readErr, exposed, es);
    RunSnoc(Start(left, readErr, exposed), es, Closes);
  }
}
