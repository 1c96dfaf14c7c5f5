/** A server connection from the request to its end (go/socks0/server/request.go, tunnel.go and the
    end of conn.go): what the handler reads, and the replies it may send. */
module Session {
  import opened Wire
  import opened Framing
  import opened Net
  import opened Buffers
  import opened WireContract
  import opened ServerSpec
  import opened ServerConn

  const COPY_SIZE := 32 * 1024

  datatype Kind = FirstBind | Last | Fallback

  /** A reply that was attempted, and whether all of it was written. */
  datatype Attempt = Attempt(kind: Kind, rep: Byte, bound: Addr, ok: bool)

  function NeverSuccess(rep: Byte): Byte { if IsSuccess(rep) then REPLY_GENERAL_FAILURE else rep }

  function FallbackTo(rep: Byte, ok: bool): Attempt { Attempt(Fallback, NeverSuccess(rep), ZERO_ADDR, ok) }

  ghost predicate Sendable(log: seq<Attempt>) { forall i :: 0 <= i < |log| ==> Canonical(log[i].bound) }

  /** At most one final reply; before it at most one other, and that for BIND only; a fallback is
      never a success. */
  ghost predicate Orderly(log: seq<Attempt>, bind: bool, listening: bool, replied: bool) {
    && (forall i :: 0 <= i < |log| && log[i].kind.FirstBind? ==> i == 0 && bind && log[i].rep == REPLY_SUCCEEDED)
    && (forall i :: 0 <= i < |log| && log[i].kind.Fallback? ==> !IsSuccess(log[i].rep))
    && match |log|
       case 0 => !listening && !replied
       case 1 => if log[0].kind.FirstBind? then listening == log[0].ok && replied == !log[0].ok else !listening && replied
       case 2 => log[0].kind.FirstBind? && log[0].ok && !log[1].kind.FirstBind? && listening && replied
       case _ => false
  }

  /** The bytes of the replies. */
  ghost function Sent(socks4: bool, log: seq<Attempt>): Bytes
    requires Sendable(log)
  {
    if log == [] then []
    else Sent(socks4, log[..|log| - 1]) + ReplyBytes(socks4, log[|log| - 1].rep, log[|log| - 1].bound)
  }

  /** What is written is the replies, the last possibly cut off. */
  ghost predicate Wrote(written: Bytes, sent0: Bytes, socks4: bool, log: seq<Attempt>) {
    && Sendable(log)
    && written <= sent0 + Sent(socks4, log)
    && ((forall i :: 0 <= i < |log| ==> log[i].ok) ==> written == sent0 + Sent(socks4, log))
  }

  lemma WroteMore(written: Bytes, sent0: Bytes, socks4: bool, log: seq<Attempt>, a: Attempt, now: Bytes)
    requires Wrote(written, sent0, socks4, log) && Canonical(a.bound)
    requires forall i :: 0 <= i < |log| ==> log[i].ok
    requires now <= written + ReplyBytes(socks4, a.rep, a.bound)
    requires a.ok ==> now == written + ReplyBytes(socks4, a.rep, a.bound)
    ensures Wrote(now, sent0, socks4, log + [a])
  {
    hide ReplyBytes;
    var all, reply := log + [a], ReplyBytes(socks4, a.rep, a.bound);
    SentMore(socks4, log, a);
    assert written + reply == sent0 + (Sent(socks4, log) + reply);
    assert all[|log|] == a;
  }

  lemma SentMore(socks4: bool, log: seq<Attempt>, a: Attempt)
    requires Sendable(log) && Canonical(a.bound)
    ensures Sendable(log + [a]) && Sent(socks4, log + [a]) == Sent(socks4, log) + ReplyBytes(socks4, a.rep, a.bound)
  {
    hide ReplyBytes;
    assert (log + [a])[..|log|] == log;
  }

  lemma OrderlyMore(log: seq<Attempt>, bind: bool, listening: bool, a: Attempt)
    requires Orderly(log, bind, listening, false)
    requires a.kind.FirstBind? ==> bind && !listening && a.rep == REPLY_SUCCEEDED
    requires a.kind.Fallback? ==> !IsSuccess(a.rep)
    ensures forall i :: 0 <= i < |log| ==> log[i].ok
    ensures Orderly(log + [a], bind, if a.kind.FirstBind? then a.ok else listening, !a.kind.FirstBind? || !a.ok)
  {
  }

  /** A call of the handler, or its return. */
  datatype Op =
    | Early | Peek(n: nat) | Watch | Listening(bound: Addr) | Reply(rep: Byte, bound: Addr)
    | Read(n: nat) | ReadAcross(n: nat, rep: Byte, halfCloses: bool) | WriteTo(room: nat) | NetConn
    | Return(rep: Byte, halfCloses: bool)
  {
    predicate Sane() { (Listening? || Reply?) ==> Canonical(bound) }
  }

  class Session {
    const sc: ServerConn
    const socks4: bool
    const bind: bool
    var replied: bool // the one final reply was attempted
    var listening: bool
    var tunnel: bool // the handler holds a Conn
    var done: bool
    var handedOff: bool
    var drained: bool // nothing to give before the connection's own bytes and end
    var held: bool // the buffers are not put back yet
    var reading: bool // a reader copies out of the buffer
    var exposed: bool // the handler, or a hook of the handshake, saw the input buffer itself

    ghost const base: nat // where in the client's stream the request ends
    ghost const sent0: Bytes // written before the first reply
    ghost var from: nat // where what the handler has not been given starts
    ghost var log: seq<Attempt>

    /** Where the handler's next byte is. */
    ghost predicate Placed()
      reads `from, `handedOff, `drained, `held, sc`start, sc`lastLo, sc`lastHi, sc`readErr, sc.nc`pos, sc.inb, sc.inb.data
    {
      && base <= from <= sc.nc.pos && sc.nc.Valid() && sc.inb.Valid() && sc.lastHi == 0
      && (handedOff ==> from == sc.nc.pos && drained)
      && (!handedOff ==> sc.Input() && sc.ReadErrKnown(false) && sc.start == from)
      && (drained && !handedOff ==> sc.inb.unread == [] && sc.readErr.None?)
      && (!held && !handedOff ==> sc.inb.unread == [])
    }

    /** What was sent. */
    ghost predicate Replying()
      reads `replied, `listening, `log, sc`written, sc`writeErr, sc.nc`sent, sc.nc`room, sc.outb, sc.outb.data
    {
      && sc.Output() && sc.outb.queued == [] && sc.writeErr.None?
      && Orderly(log, bind, listening, replied) && Wrote(sc.written, sent0, socks4, log)
    }

    ghost predicate Valid()
      reads this, sc, sc.nc, sc.inb, sc.inb.data, sc.outb, sc.outb.data
    {
      && Parts() && (done ==> replied && held == reading)
      && (reading ==> held && tunnel && !handedOff && Copying())
    }

    /** The buffer holds what the handler gets next, whatever happens meanwhile. */
    ghost predicate Copying()
      reads `from, sc.nc`pos, sc.inb`unread
    {
      from + |sc.inb.unread| <= sc.nc.pos <= |sc.nc.input| && sc.inb.unread == sc.nc.input[from..from + |sc.inb.unread|]
    }

    /** Valid, up to who sees to the buffers after the end. */
    ghost predicate Parts()
      reads this, sc, sc.nc, sc.inb, sc.inb.data, sc.outb, sc.outb.data
    {
      && (!done ==> Placed()) && Replying() && sc.inb.data != sc.outb.data
      && sc.nc.Valid() && from <= sc.nc.pos && sc.inb.Valid()
      && (!replied ==> !tunnel && !drained && !handedOff && held)
    }

    /** What the handler has not been given yet. */
    ghost function Rest(): Bytes
      requires from <= |sc.nc.input|
      reads this
    {
      sc.nc.input[from..]
    }

    constructor (sc: ServerConn)
      requires sc.Valid() && sc.lastHi == 0 && sc.outb.queued == [] && sc.writeErr.None? && sc.req.Some?
      ensures Valid() && this.sc == sc && from == base == sc.start && sent0 == sc.nc.sent && log == []
      ensures socks4 == sc.req.value.socks4 && bind == (sc.req.value.cmd == CMD_BIND)
      ensures !done && !tunnel && !replied && held && !listening && !reading
      ensures exposed == sc.cfg.Lends(sc.req.value)
    {
      this.sc, socks4, bind := sc, sc.req.value.socks4, sc.req.value.cmd == CMD_BIND;
      replied, listening, tunnel, done := false, false, false, false;
      handedOff, drained, held, reading := false, false, true, false;
      exposed := sc.cfg.Lends(sc.req.value);
      base, from, sent0, log := sc.start, sc.start, sc.nc.sent, [];
      new;
      assert sc.nc.sent + [] == sc.nc.sent;
    }

    // ------------------------------------------------------ before the reply

    predicate Live()
      reads this
    {
      !replied && !done && held
    }

    /** What is buffered of the tunnel, left where it is. */
    method Early() returns (b: Bytes)
      requires Valid()
      modifies `exposed
      ensures Valid() && b == if old(Live()) then sc.inb.unread else []
      ensures b <= Rest() && exposed == (old(exposed) || b != [])
    {
      hide Wrote, Orderly;
      if !Live() {
        return [];
      }
      b := sc.inb.Unread();
      assert b == Rest()[..|b|];
      exposed := exposed || |b| > 0;
    }

    method FillCtx(need: nat) returns (err: Option<Error>)
      requires Valid() && Live() && need <= IN_SIZE
      modifies sc`readErr, sc`writeErr, sc.inb, sc.inb.data, sc.outb`len, sc.outb`queued
      modifies sc.nc`pos, sc.nc`expired, sc.nc`sent, sc.nc`room
      ensures Valid()
      ensures if err.None? then |sc.inb.unread| >= need else |sc.inb.unread| < need
      ensures err.Some? ==> || (err.value == Timeout && sc.nc.expired > old(sc.nc.expired))
                            || (sc.nc.pos == |sc.nc.input| && err.value == sc.nc.fin)
    {
      hide Orderly, Wrote;
      if sc.inb.w - sc.inb.r >= need {
        return None;
      }
      assert sc.nc.sent + [] == sc.nc.sent;
      err := sc.FillCtx(need);
      assert sc.writeErr.None?;
    }

    /** What is buffered before a reply is the next of the tunnel, and all of it once the client's end was
        read. */
    lemma Ahead()
      requires Valid() && Live()
      ensures sc.inb.Valid() && sc.inb.unread <= Rest() && |sc.inb.unread| <= IN_SIZE
      ensures sc.nc.pos == |sc.nc.input| ==> sc.inb.unread == Rest()
    {
      hide Replying;
      assert sc.inb.unread == Rest()[..|sc.inb.unread|];
    }

    /** The tunnel's next n bytes, or as many as fit the buffer, left where they are. */
    method Peek(n: nat) returns (b: Bytes, err: Option<Error>)
      requires Valid()
      modifies `exposed, sc`readErr, sc`writeErr, sc.inb, sc.inb.data, sc.outb`len, sc.outb`queued
      modifies sc.nc`pos, sc.nc`expired, sc.nc`sent, sc.nc`room
      ensures Valid() && b <= Rest() && |b| <= n && exposed == (old(exposed) || b != [])
      ensures err.None? ==> |b| == n
      ensures old(Live()) && err.Some? ==>
                || (err.value == Timeout && sc.nc.expired > old(sc.nc.expired))
                || (err.value == BufferFull && n > IN_SIZE && |b| == IN_SIZE)
                || (b == Rest() && err.value == sc.nc.fin)
      ensures old(Live()) ==> b <= sc.inb.unread && (|b| == n || |b| == IN_SIZE || b == sc.inb.unread)
      ensures !old(Live()) ==> b == [] && err == Some(AlreadyReplied)
    {
      hide Replying, Copying, Placed;
      if !Live() {
        return [], Some(AlreadyReplied);
      }
      var k := if n > IN_SIZE then IN_SIZE else n;
      err := FillCtx(k);
      if err.None? && k < n {
        err := Some(BufferFull);
      }
      Ahead();
      b := sc.inb.Head(k);
      exposed := exposed || |b| > 0;
    }

    /** The BIND watch: what the client sends before the second reply stays in front of the tunnel. */
    method Watch() returns (gone: bool)
      requires Valid()
      modifies sc`readErr, sc.inb, sc.inb.data, sc.nc`pos, sc.nc`expired
      ensures Valid() && (gone ==> sc.nc.pos == |sc.nc.input| && sc.readErr == Some(sc.nc.fin))
      ensures old(Live()) && !gone ==> sc.nc.expired > old(sc.nc.expired) || |sc.inb.unread| == IN_SIZE || sc.nc.fin == Timeout
      ensures !old(Live()) ==> !gone && sc.nc.pos == old(sc.nc.pos)
    {
      if !Live() {
        return false;
      }
      gone := sc.ReadUntilGone();
    }

    // ------------------------------------------------------------ the replies

    method WriteReply(kind: Kind, rep: Byte, bound: Addr) returns (err: Option<Error>)
      requires Valid() && Canonical(bound) && Live()
      requires kind.FirstBind? ==> bind && !listening && rep == REPLY_SUCCEEDED
      requires kind.Fallback? ==> !IsSuccess(rep)
      modifies `log, `replied, `listening, sc`linger, sc`written, sc.outb, sc.outb.data, sc.nc`sent, sc.nc`room
      ensures Valid() && log == old(log) + [Attempt(kind, rep, bound, err.None?)]
      ensures replied == (!kind.FirstBind? || err.Some?)
      ensures listening == if kind.FirstBind? then err.None? else old(listening)
      ensures err.None? ==> sc.nc.sent == old(sc.nc.sent) + ReplyBytes(socks4, rep, bound)
      ensures err.Some? ==> err.value == WriteFailed && old(sc.nc.room) < |ReplyBytes(socks4, rep, bound)|
      ensures sc.linger == (err.None? && !IsSuccess(rep))
    {
      hide Wrote, ReplyBytes, Sent, Orderly, Placed, Copying, ZeroFrom, Zeros;
      ghost var was := sc.written;
      assert sc.nc.sent + [] == sc.nc.sent;
      err := sc.WriteReply(socks4, rep, bound);
      assert sc.nc.sent + [] == sc.nc.sent;
      ghost var a := Attempt(kind, rep, bound, err.None?);
      OrderlyMore(log, bind, listening, a);
      WroteMore(was, sent0, socks4, log, a, sc.written);
      log := log + [a];
      if kind.FirstBind? {
        listening := err.None?;
        replied := err.Some?;
      } else {
        replied := true;
      }
    }

    /** The final reply; on success the handler gets the tunnel. */
    method Reply(rep: Byte, bound: Addr) returns (err: Option<Error>)
      requires Valid() && Canonical(bound)
      modifies `log, `replied, `listening, `tunnel
      modifies sc`linger, sc`written, sc.outb, sc.outb.data, sc.nc`sent, sc.nc`room
      ensures Valid() && (old(replied) ==> replied)
      ensures if old(Live()) then log == old(log) + [Attempt(Last, rep, bound, err != Some(WriteFailed))]
              else err == Some(AlreadyReplied) && log == old(log) && tunnel == old(tunnel)
      ensures old(Live()) ==> replied && (err.None? <==> tunnel) && (tunnel <==> IsSuccess(rep) && err != Some(WriteFailed))
      ensures err == Some(WriteFailed) ==> old(sc.nc.room) < |ReplyBytes(socks4, rep, bound)|
      ensures old(Live()) && err != Some(WriteFailed) ==>
                sc.nc.sent == old(sc.nc.sent) + ReplyBytes(socks4, rep, bound)
    {
      hide Wrote, Orderly, ReplyBytes;
      if !Live() {
        return Some(AlreadyReplied);
      }
      err := WriteReply(Last, rep, bound);
      if err.None? {
        if IsSuccess(rep) {
          tunnel := true;
        } else {
          err := Some(ReplyRefused(rep, bound));
        }
      }
    }

    /** BIND's first reply: the bytes that say so, once. */
    method ReplyListening(bound: Addr) returns (err: Option<Error>)
      requires Valid() && Canonical(bound)
      modifies `log, `replied, `listening, sc`linger, sc`written, sc.outb, sc.outb.data, sc.nc`sent, sc.nc`room
      ensures Valid() && (old(replied) ==> replied)
      ensures if bind && old(Live()) && !old(listening)
              then log == old(log) + [Attempt(FirstBind, REPLY_SUCCEEDED, bound, err.None?)] && replied == err.Some?
              else log == old(log) && err == Some(if bind then AlreadyReplied else NotBind)
      ensures bind && old(Live()) && !old(listening) && err.None? ==>
                && listening && sc.nc.sent == old(sc.nc.sent) + ReplyBytes(socks4, REPLY_SUCCEEDED, bound)
                && sc.nc.room == old(sc.nc.room) - |ReplyBytes(socks4, REPLY_SUCCEEDED, bound)|
      ensures bind && old(Live()) && !old(listening) && err.Some? ==>
                err.value == WriteFailed && old(sc.nc.room) < |ReplyBytes(socks4, REPLY_SUCCEEDED, bound)|
    {
      hide Wrote, Orderly, ReplyBytes;
      if !bind {
        return Some(NotBind);
      }
      if !Live() || listening {
        return Some(AlreadyReplied);
      }
      err := WriteReply(FirstBind, REPLY_SUCCEEDED, bound);
    }

    /** After the handler: a reply if it sent none, never a success. */
    method Finish(rep: Byte, halfCloses: bool)
      requires Valid() && !done
      modifies this, sc`linger, sc`written, sc.inb, sc.inb.data, sc.outb, sc.outb.data
      modifies sc.nc`pos, sc.nc`expired, sc.nc`sent, sc.nc`room
      ensures Valid() && done && held == reading == old(reading) && tunnel == old(tunnel)
      ensures exposed == old(exposed) && from == old(from) && (reading ==> sc.inb.unread == old(sc.inb.unread))
      ensures if old(replied) then log == old(log)
              else log == old(log) + [FallbackTo(rep, true)] || log == old(log) + [FallbackTo(rep, false)]
      ensures !old(replied) ==> log[|log| - 1].rep == if rep == 0 || rep == 90 then 1 else rep
      ensures old(held) && !exposed && !reading ==>
                sc.inb.data[..] == Zeros(IN_SIZE) && sc.outb.data[..] == Zeros(OUT_SIZE)
      ensures sc.linger && halfCloses ==> Lingered()
    {
      hide Wrote, Orderly, ReplyBytes, Placed, Replying, Copying, ZeroFrom;
      if Live() {
        var err := WriteReply(Fallback, NeverSuccess(rep), ZERO_ADDR);
      }
      End(halfCloses);
    }

    /** The end: the buffers go back, unless a reader still uses them and will see to it. */
    method End(halfCloses: bool)
      requires Valid() && replied && !done
      modifies `done, `held, sc.inb, sc.inb.data, sc.outb, sc.outb.data, sc.nc`pos, sc.nc`expired
      ensures Valid() && done && held == reading && (reading ==> sc.inb.unread == old(sc.inb.unread))
      ensures old(held) && !exposed && !reading ==>
                sc.inb.data[..] == Zeros(IN_SIZE) && sc.outb.data[..] == Zeros(OUT_SIZE)
      ensures if sc.linger && halfCloses then Lingered() else sc.nc.pos == old(sc.nc.pos)
    {
      hide Wrote, Orderly;
      var mine := held && !exposed && !reading;
      done, held := true, reading;
      if sc.linger && halfCloses {
        LingerClose(mine);
      }
      if mine {
        sc.inb.PutBack();
        sc.outb.PutBack();
      }
    }

    /** The client's further bytes were read, up to their end, the bound or the deadline. */
    twostate predicate Lingered()
      reads sc.nc
    {
      sc.nc.pos >= old(sc.nc.pos) + LINGER_MAX || sc.nc.pos == |sc.nc.input| || sc.nc.expired > old(sc.nc.expired)
    }

    /** Drops the client's further bytes, through the buffers if they are at hand. */
    method LingerClose(mine: bool)
      requires Parts() && done && (mine ==> !reading)
      modifies sc.inb, sc.inb.data, sc.nc`pos, sc.nc`expired
      ensures Parts() && sc.nc.pos >= old(sc.nc.pos)
      ensures !mine ==> unchanged(sc.inb) && unchanged(sc.inb.data)
      ensures Lingered()
    {
      hide Replying;
      if mine {
        sc.inb.Drain(sc.nc);
      } else {
        var b := new InBuffer();
        b.Drain(sc.nc);
        b.PutBack();
      }
    }

    // ------------------------------------------------------------- the tunnel

    /** What the handler is given next: the part of the client's stream that follows what it had. */
    twostate predicate Gave(b: Bytes)
      reads this, sc.nc
    {
      old(from) <= from <= |sc.nc.input| && b == sc.nc.input[old(from)..from]
    }

    /** Pools the buffers, which the handler is through with. */
    method Release()
      requires replied && held && !reading && Parts() && !handedOff && (done || sc.inb.unread == [])
      modifies `held, sc.inb, sc.inb.data, sc.outb, sc.outb.data
      ensures Valid() && !held && (!done ==> sc.inb.unread == [])
      ensures !exposed ==> sc.inb.data[..] == Zeros(IN_SIZE) && sc.outb.data[..] == Zeros(OUT_SIZE)
    {
      hide Wrote, Orderly;
      held := false;
      if !exposed {
        sc.inb.PutBack();
        sc.outb.PutBack();
      }
    }

    /** The buffered bytes, or why there are none. */
    method TakeBuffered() returns (b: Bytes, ok: bool, err: Option<Error>)
      requires Valid() && tunnel && !reading
      modifies `held, `drained, `reading, sc.inb, sc.inb.data, sc.outb, sc.outb.data
      ensures Valid() && sc.inb.unread == old(sc.inb.unread) && reading == ok
      ensures ok ==> !done && b == sc.inb.unread && b != [] && drained == old(drained)
      ensures !done && !handedOff && old(sc.inb.unread) != [] ==> ok
      ensures !ok && err.None? ==> !done && drained && from == sc.nc.pos && (!handedOff ==> !held)
      ensures old(held) && !held && !exposed ==> sc.inb.data[..] == Zeros(IN_SIZE) && sc.outb.data[..] == Zeros(OUT_SIZE)
      ensures err.Some? ==> !ok && if done then err.value == Closed
                                   else sc.nc.pos == |sc.nc.input| && from == sc.nc.pos && err.value == sc.nc.fin
    {
      hide Wrote, Orderly;
      if done {
        return [], false, Some(Closed);
      }
      if handedOff {
        return [], false, None;
      }
      if held && sc.inb.r < sc.inb.w {
        reading := true;
        b := sc.inb.Unread();
        return b, true, None;
      }
      if sc.readErr.Some? {
        return [], false, sc.readErr;
      }
      if held {
        Release();
      }
      drained := true;
      return [], false, None;
    }

    /** n of the bytes TakeBuffered gave were used; the last to use the buffers puts them back. */
    method Consumed(n: nat)
      requires Valid() && reading && n <= |sc.inb.unread|
      modifies `held, `from, `reading, sc`start, sc.inb, sc.inb.data, sc.outb, sc.outb.data
      ensures Valid() && !reading && from == old(from) + n && Gave(old(sc.inb.unread)[..n])
      ensures !done ==> sc.inb.unread == old(sc.inb.unread)[n..]
      ensures held == (!done && n < |old(sc.inb.unread)|)
      ensures !held && !exposed ==> sc.inb.data[..] == Zeros(IN_SIZE) && sc.outb.data[..] == Zeros(OUT_SIZE)
    {
      hide Wrote, Orderly;
      assert sc.inb.unread[..n] == sc.nc.input[from..from + n];
      Use(n);
      reading := false;
      if sc.inb.r == sc.inb.w || done {
        Release();
      }
    }

    method Use(n: nat)
      requires Valid() && reading && n <= |sc.inb.unread|
      modifies `from, sc`start, sc.inb
      ensures Parts() && from == old(from) + n && sc.inb.unread == old(sc.inb.unread)[n..]
    {
      hide Wrote, Orderly;
      if done {
        sc.inb.Consume(n);
      } else {
        sc.Consume(n);
      }
      from := from + n;
    }

    /** Up to limit of the client's bytes; its end only after them all. */
    method Read(limit: nat) returns (b: Bytes, err: Option<Error>)
      requires Valid() && tunnel && !reading
      modifies `held, `drained, `reading, `from, sc`start, sc.inb, sc.inb.data, sc.outb, sc.outb.data, sc.nc`pos, sc.nc`expired
      ensures Valid() && tunnel && !reading && Gave(b) && |b| <= limit
      ensures err.None? && limit > 0 ==> b != []
      ensures err.Some? ==> if done then b == [] && err.value == Closed
                            else Rest() == [] && err.value == sc.nc.fin
    {
      hide Replying;
      if !drained {
        var buf, ok;
        buf, ok, err := TakeBuffered();
        if ok {
          var n := if |buf| <= limit then |buf| else limit;
          Consumed(n);
          return buf[..n], None;
        }
        if err.Some? {
          return [], err;
        }
      }
      b, err := ReadConn(limit);
    }

    /** A read straight from the connection. */
    method ReadConn(limit: nat) returns (b: Bytes, err: Option<Error>)
      requires Valid() && tunnel && drained && !reading
      modifies `from, sc`start, sc.nc`pos, sc.nc`expired
      ensures Valid() && tunnel && Gave(b) && |b| <= limit
      ensures err.None? && limit > 0 ==> b != []
      ensures err.Some? ==> if done then b == [] && err.value == Closed
                            else Rest() == [] && err.value == sc.nc.fin
      ensures done ==> err.Some?
    {
      hide Replying;
      if done {
        return [], Some(Closed);
      }
      if limit == 0 {
        return [], None;
      }
      var a := new Byte[limit];
      var n;
      n, err := sc.nc.Read(a, 0, limit);
      b := a[..n];
      from, sc.start := from + n, sc.start + n;
    }

    /** The connection and the buffered bytes, which come before what it still has. */
    method TakeNetConn() returns (b: Bytes)
      requires Valid() && tunnel && !reading
      modifies `handedOff, `drained, `exposed, `from
      ensures Valid() && tunnel && Gave(b) && handedOff && (!done ==> from == sc.nc.pos)
      ensures old(handedOff) || done ==> b == []
      ensures exposed == (old(exposed) || b != [])
    {
      hide Replying;
      if handedOff || done || !held {
        b := [];
      } else {
        b := sc.inb.Unread();
      }
      assert b == if done then [] else sc.nc.input[from..sc.nc.pos];
      handedOff, drained, exposed := true, true, exposed || |b| > 0;
      from := if done then from else sc.nc.pos;
    }

    /** dst, which had `was` when the handler's next byte was at `at`, got no byte but the ones after. */
    ghost predicate Copied(dst: NetConn, was: Bytes, at: nat)
      reads `from, dst`sent
    {
      at <= from <= |sc.nc.input| && dst.sent <= was + sc.nc.input[at..from]
    }

    /** It got them all. */
    ghost predicate CopiedAll(dst: NetConn, was: Bytes, at: nat)
      reads `from, dst`sent
    {
      at <= from <= |sc.nc.input| && dst.sent == was + sc.nc.input[at..from]
    }

    /** A copy to a destination with this room loses bytes: it outlives the buffered ones, and fails
        on bytes already taken off the connection. */
    ghost predicate Loses(room: nat)
      requires from <= |sc.nc.input|
      reads this, sc.nc, sc.inb
    {
      !done && room < |Rest()| && (drained || |sc.inb.unread| <= room)
    }

    /** Writes what the client sends to dst until the client's end (no error) or an error. dst gets
        every byte that is used up, unless a copy straight off the connection fails. */
    method WriteTo(dst: NetConn) returns (err: Option<Error>)
      requires Valid() && tunnel && dst != sc.nc && !reading
      modifies `held, `drained, `reading, `from, sc`start, sc.inb, sc.inb.data, sc.outb, sc.outb.data, sc.nc`pos, sc.nc`expired
      modifies dst`sent, dst`room
      ensures Valid() && tunnel && !reading && Copied(dst, old(dst.sent), old(from))
      ensures dst.room + |dst.sent| == old(dst.room + |dst.sent|)
      ensures !done ==> (err == Some(WriteFailed) <==> old(dst.room) < |old(Rest())|)
      ensures err != Some(WriteFailed) && !done ==> Rest() == [] && err == NoEOF(sc.nc.fin)
      ensures CopiedAll(dst, old(dst.sent), old(from)) <==> !old(Loses(dst.room))
      ensures old(Loses(dst.room)) <==> err == Some(WriteFailed) && drained
    {
      hide Replying;
      ghost var was, at := dst.sent, from;
      assert CopiedAll(dst, was, at);
      if !drained {
        err := WriteBufferedTo(dst, was, at);
        if err == Some(EOF) {
          return None;
        }
        if err.Some? {
          return;
        }
      }
      err := CopyTo(dst, was, at);
    }

    method WriteBufferedTo(dst: NetConn, ghost was: Bytes, ghost at: nat) returns (err: Option<Error>)
      requires Valid() && tunnel && dst != sc.nc && at == from && dst.sent == was && !reading && !drained
      modifies `held, `drained, `reading, `from, sc`start, sc.inb, sc.inb.data, sc.outb, sc.outb.data
      modifies dst`sent, dst`room
      ensures Valid() && tunnel && !reading && CopiedAll(dst, was, at) && dst.room + |dst.sent| == old(dst.room) + |was|
      ensures err == Some(WriteFailed) <==> !done && old(dst.room) < |old(sc.inb.unread)|
      ensures err == Some(WriteFailed) ==> !drained
      ensures err.None? ==> drained && !done
      ensures err.Some? && err.value != WriteFailed ==>
                if done then err.value == Closed else Rest() == [] && err.value == sc.nc.fin
    {
      hide Wrote, Orderly;
      var b, ok;
      b, ok, err := TakeBuffered();
      if !ok {
        return;
      }
      var m, werr := dst.Write(b);
      Consumed(m);
      if werr.Some? {
        return werr;
      }
      b, ok, err := TakeBuffered();
    }

    method CopyTo(dst: NetConn, ghost was: Bytes, ghost at: nat) returns (err: Option<Error>)
      requires Valid() && tunnel && drained && dst != sc.nc && CopiedAll(dst, was, at) && !reading
      modifies `from, sc`start, sc.nc`pos, sc.nc`expired, dst`sent, dst`room
      ensures Valid() && tunnel && Copied(dst, was, at) && dst.room + |dst.sent| == old(dst.room + |dst.sent|)
      ensures CopiedAll(dst, was, at) <==> err != Some(WriteFailed)
      ensures err == Some(WriteFailed) <==> !done && old(dst.room) < |old(Rest())|
      ensures err != Some(WriteFailed) && !done ==> Rest() == [] && err == NoEOF(sc.nc.fin)
    {
      hide Replying;
      ghost var begun := from;
      while true
        invariant Valid() && tunnel && drained && !reading && CopiedAll(dst, was, at)
        invariant dst.room + |dst.sent| == old(dst.room + |dst.sent|)
        invariant begun <= from && dst.room == old(dst.room) - (from - begun)
        decreases |sc.nc.input| - from
      {
        ghost var mid := from;
        var b;
        b, err := ReadConn(COPY_SIZE);
        Slices(sc.nc.input, at, mid, from);
        var _, werr := dst.Write(b);
        if werr.Some? {
          return werr;
        }
        if err.Some? {
          return if err.value == EOF then None else err;
        }
      }
    }

    /** Any mix of calls, the handler's return among them. The handler is given what the client sent
        after the request, once and in order, unless a WriteTo breaks off; of final replies at most one
        is sent, and exactly one is attempted once the handler replied or returned. */
    method Run(ops: seq<Op>) returns (given: Bytes, broke: bool)
      requires Valid() && !reading && from == base && forall i :: 0 <= i < |ops| ==> ops[i].Sane()
      modifies this, sc, sc.inb, sc.inb.data, sc.outb, sc.outb.data, sc.nc
      ensures Valid() && base <= from <= |sc.nc.input| && given <= sc.nc.input[base..from]
      ensures !broke ==> given == sc.nc.input[base..from]
      ensures Orderly(log, bind, listening, replied) && Wrote(sc.written, sent0, socks4, log) && (done ==> replied)
      ensures if broke then exists i :: 0 <= i < |ops| && ops[i].WriteTo?
              else forall i :: 0 <= i < |ops| ==> (ops[i].Reply? ==> replied) && (ops[i].Return? ==> done)
    {
      hide Wrote, Orderly;
      given, broke := [], false;
      var i := 0;
      while i < |ops|
        invariant Valid() && !reading && 0 <= i <= |ops| && base <= from && given == sc.nc.input[base..from]
        invariant forall j :: 0 <= j < i ==> (ops[j].Reply? ==> replied) && (ops[j].Return? ==> done)
      {
        ghost var mid := from;
        var b;
        b, broke := Do(ops[i]);
        if broke {
          given := given + b;
          Slices(sc.nc.input, base, mid, from);
          return;
        }
        Slices(sc.nc.input, base, mid, from);
        given := given + b;
        i := i + 1;
      }
    }

    /** One call: the bytes it gives the handler, and whether a copy lost some. */
    method Do(op: Op) returns (b: Bytes, broke: bool)
      requires Valid() && op.Sane() && !reading
      modifies this, sc, sc.inb, sc.inb.data, sc.outb, sc.outb.data, sc.nc
      ensures Valid() && !reading && old(from) <= from && b <= sc.nc.input[old(from)..from]
      ensures !broke ==> b == sc.nc.input[old(from)..from]
      ensures broke <==> op.WriteTo? && old(tunnel && Loses(op.room))
      ensures (old(replied) || op.Reply? ==> replied) && (old(done) || op.Return? ==> done)
      ensures old(tunnel) ==> Did(op, b)
      ensures op.WriteTo? && old(tunnel && !done && |Rest()| <= op.room) ==> from == |sc.nc.input|
    {
      hide Wrote, Orderly, Placed, Replying, Copying, ZeroFrom;
      b, broke := [], false;
      if op.Early? {
        var _ := Early();
      } else if op.Peek? {
        var _, _ := Peek(op.n);
      } else if op.Watch? {
        var _ := Watch();
      } else if op.Listening? {
        var _ := ReplyListening(op.bound);
      } else if op.Reply? {
        var _ := Reply(op.rep, op.bound);
      } else if op.Return? {
        if !done {
          Finish(op.rep, op.halfCloses);
        }
      } else if tunnel {
        b, broke := DoTunnel(op);
      }
    }

    /** A call on the tunnel did what it is for, unless the connection is over. */
    ghost predicate Did(op: Op, b: Bytes)
      reads this, sc.nc
    {
      match op
      case Read(n) => |b| <= n && (n > 0 && b == [] && !done ==> from == |sc.nc.input|)
      case NetConn => handedOff && (!done ==> from == sc.nc.pos)
      case ReadAcross(n, _, _) => done && |b| <= n
      case WriteTo(room) => |b| <= room
      case _ => true
    }

    method DoTunnel(op: Op) returns (b: Bytes, broke: bool)
      requires Valid() && tunnel && !reading
      modifies this, sc, sc.inb, sc.inb.data, sc.outb, sc.outb.data, sc.nc
      ensures Valid() && !reading && old(from) <= from && b <= sc.nc.input[old(from)..from]
      ensures !broke ==> b == sc.nc.input[old(from)..from]
      ensures broke <==> op.WriteTo? && old(Loses(op.room))
      ensures replied && (old(done) ==> done) && Did(op, b)
      ensures op.WriteTo? && old(!done && |Rest()| <= op.room) ==> from == |sc.nc.input|
    {
      hide Wrote, Orderly, Placed, Replying, Copying, ZeroFrom;
      b, broke := [], false;
      if op.Read? {
        var err;
        b, err := Read(op.n);
      } else if op.NetConn? {
        b := TakeNetConn();
      } else if op.ReadAcross? {
        b := ReadAcross(op.n, op.rep, op.halfCloses);
      } else if op.WriteTo? {
        var dst := new NetConn([], EOF, op.room);
        var err := WriteTo(dst);
        b, broke := dst.sent, err == Some(WriteFailed) && drained;
      }
    }

    /** A read from another goroutine, under way while the handler returns: its bytes are its own, and
        the buffers go back when it is through. */
    method ReadAcross(limit: nat, rep: Byte, halfCloses: bool) returns (b: Bytes)
      requires Valid() && tunnel && !reading
      modifies this, sc, sc.inb, sc.inb.data, sc.outb, sc.outb.data, sc.nc
      ensures Valid() && tunnel && !reading && done && !held && Gave(b) && |b| <= limit
      ensures old(!done && !handedOff && sc.inb.unread != []) ==> b == old(sc.inb.unread) || |b| == limit
      ensures old(!done && !handedOff && sc.inb.unread != []) && !exposed ==>
                sc.inb.data[..] == Zeros(IN_SIZE) && sc.outb.data[..] == Zeros(OUT_SIZE)
    {
      hide Wrote, Orderly;
      var buf, ok, err := TakeBuffered();
      if !done {
        Finish(rep, halfCloses);
      }
      b := [];
      if ok {
        var n := if |buf| <= limit then |buf| else limit;
        Consumed(n);
        b := buf[..n];
      }
    }
  }

  /** A connection past its handshake, the client's bytes still to come. */
  method Requested(cfg: Config, req: Accepted, input: Bytes) returns (sc: ServerConn)
    ensures fresh(sc) && fresh(sc.nc) && fresh(sc.inb) && fresh(sc.inb.data) && fresh(sc.outb) && fresh(sc.outb.data)
    ensures sc.Valid() && sc.lastHi == 0 && sc.outb.queued == [] && sc.writeErr.None? && sc.req.Some?
    ensures sc.nc.input == input && sc.start == 0 && sc.inb.unread == [] && sc.nc.room == MAX_REPLY
  {
    var nc := new NetConn(input, EOF, MAX_REPLY);
    sc := new ServerConn(nc, cfg);
    sc.req := Some(req);
  }

  /** A tunnel whose client sends `input`. */
  method Tunnel(cfg: Config, req: Accepted, bound: Addr, input: Bytes) returns (s: Session)
    requires Canonical(bound)
    ensures fresh(s) && fresh(s.sc) && fresh(s.sc.nc) && fresh(s.sc.inb) && fresh(s.sc.inb.data)
    ensures fresh(s.sc.outb) && fresh(s.sc.outb.data)
    ensures s.Valid() && s.tunnel && !s.done && !s.drained && !s.reading
    ensures s.sc.nc.input == input && s.from == s.base == 0 && s.sc.inb.unread == []
  {
    hide Wrote, Orderly, ReplyBytes, Session.Placed, Session.Replying;
    var sc := Requested(cfg, req, input);
    s := new Session(sc);
    ReplyBytesLength(s.socks4, REPLY_SUCCEEDED, bound);
    var err := s.Reply(REPLY_SUCCEEDED, bound);
  }

  /** A loss: the client's one byte is taken off the connection for a destination that takes none. */
  method CopyLosesAByte(cfg: Config, req: Accepted, bound: Addr) returns (s: Session, dst: NetConn)
    requires Canonical(bound)
    ensures s.Valid() && s.sc.nc.input == [7] && s.base == 0 && s.from == 1 && s.Rest() == [] && dst.sent == []
  {
    hide Wrote, Orderly, Session.Placed, Session.Replying;
    s := Tunnel(cfg, req, bound, [7]);
    dst := new NetConn([], EOF, 0);
    var err := s.WriteTo(dst);
    assert s.sc.nc.input[0..0] == [];
  }

  /** A copy that ends at the end of the stream is no error. */
  function NoEOF(fin: Error): Option<Error> { if fin == EOF then None else Some(fin) }
}
