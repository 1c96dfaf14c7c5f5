/** The server's side of a connection until it is a tunnel (go/socks0/server/conn.go): one buffer
    that every byte of the client goes through. */
module ServerConn {
  import opened Wire
  import opened Framing
  import opened WireContract
  import opened Net
  import opened Buffers
  import opened ServerSpec

  class ServerConn {
    const nc: NetConn
    const cfg: Config
    const inb: InBuffer
    const outb: OutBuffer
    var readErr: Option<Error> // kept: the end of the stream, behind the unread input
    var writeErr: Option<Error> // sticky
    var outStage: Stage // to blame if a write fails
    var lastLo: nat // the last authentication message is inb.data[lastLo..lastHi]
    var lastHi: nat
    var linger: bool
    var req: Option<Accepted>

    ghost var start: nat // where in the client's stream the unread input starts
    ghost var written: Bytes // everything written, sent or queued
    ghost const cap: nat // how many bytes the connection takes

    /** The unread input is the last part of the stream read so far. */
    ghost predicate Input()
      reads `start, `lastLo, `lastHi, nc`pos, inb, inb.data
    {
      && nc.Valid() && inb.Valid() && lastLo <= lastHi <= inb.r
      && start + |inb.unread| == nc.pos && inb.unread == nc.input[start..nc.pos]
    }

    /** The output: nothing is lost or reordered before a write fails, and none fails while all
        output fits. */
    ghost predicate Output()
      reads `writeErr, `written, nc`sent, nc`room, outb, outb.data
    {
      && outb.Valid() && nc.room + |nc.sent| == cap
      && (writeErr.None? ==> nc.sent + outb.queued == written)
      && (writeErr.Some? ==> |written| > cap && writeErr.value == WriteFailed)
    }

    /** A stream error, or under a deadline a timeout. */
    ghost predicate ReadErrKnown(timed: bool)
      reads `readErr, nc`pos
    {
      readErr.Some? ==> (nc.pos == |nc.input| && readErr.value == nc.fin) || (timed && readErr.value == Timeout)
    }

    ghost predicate Valid()
      reads `start, `lastLo, `lastHi, `writeErr, `written, `readErr
      reads nc`pos, nc`sent, nc`room, inb, inb.data, outb, outb.data
    {
      Input() && Output() && ReadErrKnown(false) && inb.data != outb.data
    }

    /** The client's bytes not consumed yet, buffered or not. */
    ghost function Rest(): Bytes
      requires start <= |nc.input|
      reads `start
    {
      nc.input[start..]
    }

    constructor (nc: NetConn, cfg: Config)
      requires nc.Valid()
      ensures this.nc == nc && this.cfg == cfg
      ensures fresh(inb) && fresh(inb.data) && fresh(outb) && fresh(outb.data)
      ensures Valid() && start == nc.pos && inb.unread == outb.queued == [] && lastHi == 0
      ensures readErr.None? && writeErr.None? && !linger && req.None?
      ensures written == nc.sent && cap == nc.room + |nc.sent|
    {
      this.nc, this.cfg := nc, cfg;
      inb := new InBuffer();
      outb := new OutBuffer();
      lastLo, lastHi := 0, 0;
      readErr, writeErr, linger, req, outStage := None, None, false, None, Greeting;
      start, written, cap := nc.pos, nc.sent, nc.room + |nc.sent|;
    }

    // ------------------------------------------------------------ the buffers

    method Flush() returns (err: Option<Error>)
      requires Output()
      modifies `writeErr, outb`len, outb`queued, nc`sent, nc`room
      ensures Output() && err == writeErr && (old(writeErr).Some? ==> err == old(writeErr))
      ensures |outb.queued| <= |old(outb.queued)|
      ensures err.None? ==> outb.queued == []
    {
      if writeErr.Some? || outb.len == 0 {
        return writeErr;
      }
      err := outb.Send(nc);
      writeErr := err;
    }

    /** Reads until need bytes are unread. Queued output goes out before each read, so that no client
        waits for it; the stream's end, once seen, is kept behind the unread bytes. */
    method Fill(need: nat, timed: bool) returns (err: Option<Error>)
      requires Valid() && need <= IN_SIZE && lastHi == 0
      modifies `readErr, `writeErr, inb, inb.data, outb`len, outb`queued, nc`pos, nc`expired, nc`sent, nc`room
      ensures Input() && Output() && ReadErrKnown(timed) && nc.pos >= old(nc.pos)
      ensures nc.expired >= old(nc.expired) && (nc.expired == old(nc.expired) ==> ReadErrKnown(false))
      ensures |outb.queued| <= |old(outb.queued)| && (nc.pos > old(nc.pos) ==> outb.queued == [])
      ensures err.None? ==> |inb.unread| >= need && Valid()
      ensures err.Some? ==> |inb.unread| < need && (readErr == err || (writeErr == err && readErr.None?))
    {
      while inb.w - inb.r < need
        invariant Input() && Output() && ReadErrKnown(timed) && nc.pos >= old(nc.pos)
        invariant nc.expired >= old(nc.expired) && (nc.expired == old(nc.expired) ==> ReadErrKnown(false))
        invariant |outb.queued| <= |old(outb.queued)| && (nc.pos > old(nc.pos) ==> outb.queued == [])
        invariant |inb.unread| >= need ==> Valid()
        decreases |nc.input| - nc.pos, if readErr.Some? then 0 else 1
      {
        if readErr.Some? {
          return readErr;
        }
        err := FillOnce(need, timed);
        if err.Some? {
          return;
        }
      }
      err := None;
    }

    method FillOnce(need: nat, timed: bool) returns (err: Option<Error>)
      requires Input() && Output() && readErr.None? && |inb.unread| < need <= IN_SIZE && lastHi == 0
      requires inb.data != outb.data
      modifies `readErr, `writeErr, inb, inb.data, outb`len, outb`queued, nc`pos, nc`expired, nc`sent, nc`room
      ensures Input() && Output() && ReadErrKnown(timed) && nc.pos >= old(nc.pos)
      ensures nc.expired >= old(nc.expired) && (nc.expired == old(nc.expired) ==> ReadErrKnown(false))
      ensures |outb.queued| <= |old(outb.queued)| && (nc.pos > old(nc.pos) ==> outb.queued == [])
      ensures |inb.unread| >= need ==> Valid()
      ensures err.Some? ==> err == writeErr && readErr.None? && |inb.unread| < need
      ensures err.None? ==> nc.pos > old(nc.pos) || readErr.Some?
    {
      err := Flush();
      if err.Some? {
        return;
      }
      ReadOnce(need, timed);
    }

    /** A read may block; nothing that the client may be waiting for is kept back meanwhile. */
    method ReadOnce(need: nat, timed: bool)
      requires Input() && readErr.None? && |inb.unread| < need <= IN_SIZE && lastHi == 0 && outb.queued == []
      modifies `readErr, inb, inb.data, nc`pos, nc`expired
      ensures Input() && ReadErrKnown(timed) && start == old(start) && (nc.pos > old(nc.pos) || readErr.Some?)
      ensures nc.expired >= old(nc.expired) && (nc.expired == old(nc.expired) ==> ReadErrKnown(false))
      ensures nc.pos >= old(nc.pos)
      ensures |inb.unread| >= need ==> ReadErrKnown(false)
    {
      if inb.r + need > IN_SIZE {
        inb.Compact();
      }
      ghost var mid := nc.pos;
      readErr := inb.Read(nc, timed);
      Slices(nc.input, start, mid, nc.pos);
    }

    /** The next message, read on only as far as it needs. However the stream is cut, the result
        is the whole stream's; only a failed write, or a message over the limit, keeps it from being
        read. */
    method Next<T(!new)>(stage: Stage, limit: nat, parse: Parser<T>, ghost max: nat, ghost stream: Bytes)
      returns (res: Result<T>, n: nat)
      requires Valid() && Framed(parse, max) && stream == Rest() && lastHi == 0 && limit <= IN_SIZE
      modifies `readErr, `writeErr, `start, inb, inb.data, outb`len, outb`queued, nc`pos, nc`expired, nc`sent, nc`room
      ensures Valid() && nc.pos >= old(nc.pos)
      ensures |outb.queued| <= |old(outb.queued)| && (nc.pos > old(nc.pos) ==> outb.queued == [])
      ensures || res == MessageOutcome(parse, stream, stage, nc.fin)
              || (writeErr.Some? && res == Err(WriteFailed)) || (res == Err(TooLong) && limit < max)
      ensures res.Ok? ==> parse(stream) == Complete(res.value, n) && n <= inb.r && start == old(start) + n
      ensures res.Err? ==> start == old(start)
    {
      while true
        invariant Valid() && start == old(start) && nc.pos >= old(nc.pos)
        invariant |outb.queued| <= |old(outb.queued)| && (nc.pos > old(nc.pos) ==> outb.queued == [])
        decreases |nc.input| - nc.pos
      {
        var done, need;
        done, res, n, need := TryNext(stage, parse, max, stream);
        if done {
          return;
        }
        if need > limit {
          return Err(TooLong), 0;
        }
        var err := More(need);
        if err.Some? {
          assert nc.pos == |nc.input| ==> inb.unread == stream;
          return Err(StreamEnd(stage, err.value)), 0;
        }
      }
    }

    /** Takes the next message if the unread input decides it, else says how many bytes it needs. */
    method TryNext<T(!new)>(stage: Stage, parse: Parser<T>, ghost max: nat, ghost stream: Bytes)
      returns (done: bool, res: Result<T>, n: nat, need: nat)
      requires Valid() && Framed(parse, max) && stream == Rest()
      modifies `start, inb
      ensures Valid()
      ensures done ==>
                && res == MessageOutcome(parse, stream, stage, nc.fin)
                && (res.Ok? ==> parse(stream) == Complete(res.value, n) && n <= inb.r && start == old(start) + n)
                && (res.Err? ==> start == old(start))
      ensures !done ==>
                && start == old(start) && inb.unread == old(inb.unread) && |inb.unread| < need <= max
                && (inb.unread == stream ==> MessageOutcome(parse, stream, stage, nc.fin) == Err(StreamEnd(stage, nc.fin)))
    {
      var b := inb.Unread();
      assert b == stream[..|b|];
      var p := parse(b);
      if p.Incomplete? {
        NeedBounded(parse, max, b);
        return false, Err(EOF), 0, p.need;
      }
      DecidedEarly(parse, max, b, stream);
      if p.Malformed? {
        return true, Err(p.err), 0, 0;
      }
      Consume(p.n);
      return true, Ok(p.value), p.n, 0;
    }

    /** Reads on for a message of need bytes; an error only if not one byte came. */
    method More(need: nat) returns (err: Option<Error>)
      requires Valid() && |inb.unread| < need <= IN_SIZE && lastHi == 0
      modifies `readErr, `writeErr, inb, inb.data, outb`len, outb`queued, nc`pos, nc`expired, nc`sent, nc`room
      ensures Valid()
      ensures |outb.queued| <= |old(outb.queued)| && (nc.pos > old(nc.pos) ==> outb.queued == [])
      ensures if err.None? then nc.pos > old(nc.pos) else nc.pos == old(nc.pos)
      ensures err.Some? ==> start == old(start) && inb.unread == old(inb.unread)
      ensures err.Some? ==> (nc.pos == |nc.input| && err.value == nc.fin) || (writeErr.Some? && err.value == WriteFailed)
    {
      var before := inb.w - inb.r;
      err := Fill(need, false);
      if inb.w - inb.r > before {
        err := None;
      }
    }

    method Consume(n: nat)
      requires Valid() && n <= |inb.unread|
      modifies `start, inb
      ensures Valid() && n <= inb.r && start == old(start) + n
    {
      inb.Consume(n);
      start := start + n;
      assert nc.input[start..nc.pos] == nc.input[start - n..nc.pos][n..];
    }

    /** Queues a message; it is sent before the next read. */
    method Queue(msg: Bytes, stage: Stage)
      requires Valid() && |outb.queued| + |msg| <= OUT_SIZE
      modifies `outStage, `written, outb, outb.data
      ensures Valid() && |outb.queued| == |old(outb.queued)| + |msg|
      ensures written == old(written) + msg && outStage == stage
    {
      assert nc.sent + (outb.queued + msg) == nc.sent + outb.queued + msg;
      outb.Append(msg);
      written, outStage := written + msg, stage;
    }

    /** What was consumed there is gone. */
    ghost predicate Wiped(lo: nat, hi: nat)
      requires lo <= hi <= inb.data.Length
      reads inb.data
    {
      inb.data[lo..hi] == Zeros(hi - lo)
    }

    method ClearLastMsg()
      requires Valid()
      modifies `lastLo, `lastHi, inb.data
      ensures Valid() && lastHi == 0
      ensures inb.data[old(lastLo)..old(lastHi)] == Zeros(old(lastHi) - old(lastLo))
    {
      inb.Clear(lastLo, lastHi);
      lastLo, lastHi := 0, 0;
    }

    // -------------------------------------------------------- the negotiation

    /** A write failed: the negotiation stops, what was written is a part of what was due. */
    ghost predicate WriteBroke(fault: Option<Failure>, due: Bytes)
      reads `written, `writeErr
    {
      writeErr.Some? && fault.Some? && fault.value.err == WriteFailed && written <= due
    }

    /** From `from` in the stream, after `was` was written, the negotiation went as the whole-stream
        outcome o says, unless a write failed. */
    ghost predicate Went(o: Outcome, fault: Option<Failure>, was: Bytes, from: nat)
      reads `start, `written, `writeErr, `linger, `req
    {
      || WriteBroke(fault, was + o.out)
      || (&& written == was + o.out && (writeErr.None? ==> linger == o.refusal)
          && match o.verdict
             case Rejected(stage, e) => fault == Some(Failure(stage, e))
             case Admitted(rq, n) => fault.None? && req == Some(rq) && start == from + n)
    }

    lemma WentPrepend(out: Bytes, k: nat, o: Outcome, fault: Option<Failure>, was: Bytes, from: nat)
      requires Went(o, fault, was + out, from + k)
      ensures Went(Prepend(out, k, o), fault, was, from)
    {
      assert was + out + o.out == was + (out + o.out);
    }

    /** A refusal, sent at once. */
    method ReplyNow(socks4: bool, rep: Byte)
      requires Valid() && |outb.queued| + 10 <= OUT_SIZE && !IsSuccess(rep)
      modifies `outStage, `writeErr, `linger, `written, outb, outb.data, nc`sent, nc`room
      ensures Valid() && written == old(written) + ReplyBytes(socks4, rep, ZERO_ADDR)
      ensures writeErr.None? ==> linger
      ensures old(writeErr).Some? ==> writeErr == old(writeErr)
    {
      Queue(ReplyBytes(socks4, rep, ZERO_ADDR), if socks4 then Reply4 else Reply);
      var err := Flush();
      linger := err.None?;
    }

    method ReadRequest5(chosen: Byte, identity: Option<Bytes>, ghost stream: Bytes) returns (fault: Option<Failure>)
      requires Valid() && lastHi == 0 && |outb.queued| <= 4 && !linger && stream == Rest()
      modifies `readErr, `writeErr, `start, `outStage, `linger, `req, `written
      modifies inb, inb.data, outb, outb.data, nc`pos, nc`expired, nc`sent, nc`room
      ensures Valid() && lastHi == 0
      ensures Went(RequestOutcome(chosen, identity, stream, nc.fin), fault, old(written), old(start))
    {
      hide Framed, ParseRequest, ZeroFrom;
      RequestFramed();
      ghost var from := start;
      var res, n := Next(Request, MAX_REPLY, RequestParser(), MAX_REPLY, stream);
      if writeErr.None? || res != Err(WriteFailed) {
        RequestRead(chosen, identity, stream, nc.fin, res, n);
      } else {
        assert written <= written + RequestOutcome(chosen, identity, stream, nc.fin).out;
      }
      fault := OnRequestRead(chosen, identity, res, n, from);
    }

    method OnRequestRead(chosen: Byte, identity: Option<Bytes>, res: Result<RequestMsg>, n: nat, ghost from: nat)
      returns (fault: Option<Failure>)
      requires Valid() && lastHi == 0 && |outb.queued| <= 4 && !linger && (res.Ok? ==> start == from + n)
      modifies `outStage, `writeErr, `linger, `req, `written, outb, outb.data, nc`sent, nc`room
      ensures Valid()
      ensures Went(OnRequest(chosen, identity, res, n), fault, old(written), from)
      ensures old(writeErr).Some? ==> writeErr == old(writeErr)
    {
      if res.Ok? {
        req := Some(Accepted(false, res.value.cmd, res.value.addr, chosen, identity));
        return None;
      }
      if res.error.BadField? && res.error.field != VER {
        ReplyNow(false, REPLY_ATYP_NOT_SUPPORTED);
      }
      fault := Some(Failure(Request, res.error));
    }

    /** Method selection and authentication went as l says, unless a write failed. */
    ghost predicate WentLogin(l: Login, fault: Option<Failure>, chosen: Byte, identity: Option<Bytes>, was: Bytes, from: nat)
      reads `start, `written, `writeErr, `linger
    {
      || WriteBroke(fault, was + l.out)
      || (&& written == was + l.out
          && match l
             case Refused(stage, e, _, refusal) => fault == Some(Failure(stage, e)) && linger == refusal
             case LoggedIn(m, id, n, _) =>
               fault.None? && !linger && chosen == m && identity == id && start == from + n)
    }

    method Authenticate(m: Byte, ghost stream: Bytes) returns (fault: Option<Failure>, identity: Option<Bytes>)
      requires Valid() && lastHi == 0 && |outb.queued| <= 2 && !linger && stream == Rest()
      requires m == METHOD_NO_AUTH || m == METHOD_USER_PASS
      modifies `readErr, `writeErr, `start, `outStage, `linger, `written, `lastLo, `lastHi
      modifies inb, inb.data, outb, outb.data, nc`pos, nc`expired, nc`sent, nc`room
      ensures Valid() && lastHi == 0 && |outb.queued| <= 4
      ensures WentLogin(SubNegotiation(cfg, m, stream, nc.fin), fault, m, identity, old(written), old(start))
      ensures m == METHOD_USER_PASS && (fault.None? || start > old(start)) ==>
                old(start) <= start <= old(start) + inb.r && Wiped(inb.r - (start - old(start)), inb.r)
    {
      if m == METHOD_NO_AUTH {
        return None, None;
      }
      fault, identity := UserPassLogin(stream);
      ClearLastMsg();
    }

    /** UserPass.Authenticate: one message in, its verdict queued. */
    method UserPassLogin(ghost stream: Bytes) returns (fault: Option<Failure>, identity: Option<Bytes>)
      requires Valid() && lastHi == 0 && |outb.queued| <= 2 && !linger && stream == Rest()
      modifies `readErr, `writeErr, `start, `outStage, `linger, `written, `lastLo, `lastHi
      modifies inb, inb.data, outb, outb.data, nc`pos, nc`expired, nc`sent, nc`room
      ensures Valid() && |outb.queued| <= 4
      ensures fault.None? || start > old(start) ==>
                old(start) <= start && lastHi == inb.r && lastHi - lastLo == start - old(start)
      ensures WentLogin(SubNegotiation(cfg, METHOD_USER_PASS, stream, nc.fin),
                        fault, METHOD_USER_PASS, identity, old(written), old(start))
    {
      hide Framed, ParseUserPass;
      UserPassFramed();
      ghost var from := start;
      var res, n := Next(Auth, MAX_AUTH_MSG, UserPassParser(), MAX_USER_PASS, stream);
      if writeErr.None? || res != Err(WriteFailed) {
        CredentialsRead(cfg, stream, nc.fin, res, n);
      } else {
        assert written <= written + SubNegotiation(cfg, METHOD_USER_PASS, stream, nc.fin).out;
      }
      fault, identity := Identify(res, n, from);
    }

    method Identify(res: Result<Credentials>, n: nat, ghost from: nat)
      returns (fault: Option<Failure>, identity: Option<Bytes>)
      requires Valid() && lastHi == 0 && |outb.queued| <= 2 && !linger
      requires res.Ok? ==> start == from + n && n <= inb.r
      modifies `outStage, `linger, `written, `lastLo, `lastHi, outb, outb.data
      ensures Valid() && |outb.queued| <= 4
      ensures res.Ok? ==> lastHi == inb.r && lastHi - lastLo == n
      ensures res.Err? ==> fault.Some?
      ensures WentLogin(OnCredentials(cfg, res, n), fault, METHOD_USER_PASS, identity, old(written), from)
    {
      if res.Err? {
        return Some(Failure(UserPass, res.error)), None;
      }
      lastLo, lastHi := inb.r - n, inb.r;
      identity := cfg.login(res.value);
      linger := identity.None?;
      Queue(AppendUserPassStatus([], if identity.Some? then 0 else 1), UserPassStatus);
      fault := if identity.Some? then None else Some(Failure(UserPass, BadCredentials));
    }

    lemma WentAfterSelection(m: Byte, n: nat, l: Login, fault: Option<Failure>, identity: Option<Bytes>, was: Bytes, from: nat)
      requires WentLogin(l, fault, m, identity, was + AppendMethodSelection([], m), from + n)
      requires l.LoggedIn? ==> l.chosen == m
      ensures WentLogin(AfterSelection(m, n, l), fault, m, identity, was, from)
    {
      assert was + AppendMethodSelection([], m) + l.out == was + (AppendMethodSelection([], m) + l.out);
    }

    method Authenticate5(ghost stream: Bytes)
      returns (fault: Option<Failure>, chosen: Byte, identity: Option<Bytes>)
      requires Valid() && lastHi == 0 && |outb.queued| == 0 && !linger && stream == Rest() && cfg.Usable()
      modifies `readErr, `writeErr, `start, `outStage, `linger, `written, `lastLo, `lastHi
      modifies inb, inb.data, outb, outb.data, nc`pos, nc`expired, nc`sent, nc`room
      ensures Valid() && lastHi == 0 && |outb.queued| <= 4
      ensures WentLogin(AuthOutcome(cfg, stream, nc.fin), fault, chosen, identity, old(written), old(start))
    {
      hide Framed, ParseGreeting, Choose;
      GreetingFramed();
      ghost var from := start;
      var res, n := Next(Greeting, MAX_GREETING, GreetingParser(), MAX_GREETING, stream);
      if writeErr.None? || res != Err(WriteFailed) {
        GreetingRead(cfg, stream, nc.fin, res, n);
      } else {
        assert written <= written + AuthOutcome(cfg, stream, nc.fin).out;
      }
      if res.Err? {
        return Some(Failure(Greeting, res.error)), METHOD_NO_ACCEPTABLE, None;
      }
      fault, chosen, identity := Select(res.value, n, stream, from);
    }

    method Select(offered: Bytes, n: nat, ghost stream: Bytes, ghost from: nat)
      returns (fault: Option<Failure>, chosen: Byte, identity: Option<Bytes>)
      requires Valid() && lastHi == 0 && |outb.queued| == 0 && !linger && cfg.Usable()
      requires start == from + n && n <= |stream| && Rest() == stream[n..]
      modifies `readErr, `writeErr, `start, `outStage, `linger, `written, `lastLo, `lastHi
      modifies inb, inb.data, outb, outb.data, nc`pos, nc`expired, nc`sent, nc`room
      ensures Valid() && lastHi == 0 && |outb.queued| <= 4
      ensures WentLogin(OnGreeting(cfg, Ok(offered), n, stream, nc.fin), fault, chosen, identity, old(written), from)
    {
      hide Choose, SubNegotiation;
      var m := Choose(cfg.methods, offered);
      if m.None? {
        Queue(AppendMethodSelection([], METHOD_NO_ACCEPTABLE), MethodSelection);
        linger := true;
        return Some(Failure(Greeting, NoCommonMethod)), METHOD_NO_ACCEPTABLE, None;
      }
      ChosenServed(cfg.methods, offered);
      chosen := m.value;
      ghost var was := written;
      Queue(AppendMethodSelection([], chosen), MethodSelection);
      fault, identity := Authenticate(chosen, stream[n..]);
      SubNegotiationMethod(cfg, chosen, stream[n..], nc.fin);
      WentAfterSelection(chosen, n, SubNegotiation(cfg, chosen, stream[n..], nc.fin), fault, identity, was, from);
    }

    method Handshake5(ghost stream: Bytes) returns (fault: Option<Failure>)
      requires Valid() && lastHi == 0 && |outb.queued| == 0 && !linger && stream == Rest() && cfg.Usable()
      modifies `readErr, `writeErr, `start, `outStage, `linger, `req, `written, `lastLo, `lastHi
      modifies inb, inb.data, outb, outb.data, nc`pos, nc`expired, nc`sent, nc`room
      ensures Valid() && lastHi == 0
      ensures Went(Outcome5(cfg, stream, nc.fin), fault, old(written), old(start))
    {
      hide AuthOutcome, RequestOutcome;
      ghost var l, was, from := AuthOutcome(cfg, stream, nc.fin), written, start;
      var chosen, identity;
      fault, chosen, identity := Authenticate5(stream);
      if fault.Some? {
        assert was + l.out <= was + Outcome5(cfg, stream, nc.fin).out;
        return;
      }
      fault := ReadRequest5(chosen, identity, Drop(stream, l.n));
      WentPrepend(l.out, l.n, RequestOutcome(chosen, identity, Drop(stream, l.n), nc.fin), fault, was, from);
    }

    method Handshake4(ghost stream: Bytes) returns (fault: Option<Failure>)
      requires Valid() && lastHi == 0 && |outb.queued| == 0 && !linger && stream == Rest()
      modifies `readErr, `writeErr, `start, `outStage, `linger, `req, `written
      modifies inb, inb.data, outb, outb.data, nc`pos, nc`expired, nc`sent, nc`room
      ensures Valid() && lastHi == 0
      ensures Went(Outcome4(cfg, stream, nc.fin), fault, old(written), old(start))
    {
      hide Framed, ParseRequest4;
      Request4Framed();
      ghost var from := start;
      var res, n := Next(Request4, MAX_REQUEST4, Request4Parser(), MAX_REQUEST4, stream);
      if writeErr.None? || res != Err(WriteFailed) {
        Request4Read(cfg, stream, nc.fin, res, n);
      } else {
        assert written <= written + Outcome4(cfg, stream, nc.fin).out;
      }
      if res.Err? {
        return Some(Failure(Request4, res.error));
      }
      UserIDInside(stream);
      fault := Admit4(res.value, n, from);
    }

    method Admit4(m: Request4Msg, n: nat, ghost from: nat) returns (fault: Option<Failure>)
      requires Valid() && lastHi == 0 && |outb.queued| == 0 && !linger && start == from + n
      requires n <= inb.r && 8 + |m.userID| <= n
      modifies `outStage, `writeErr, `linger, `req, `written, inb.data, outb, outb.data, nc`sent, nc`room
      ensures Valid() && Wiped(inb.r - n + 8, inb.r - n + 8 + |m.userID|)
      ensures Went(OnRequest4(cfg, Ok(m), n), fault, old(written), from)
    {
      var who := Authorize4(cfg, m);
      if who.Err? {
        ReplyNow(true, REPLY4_REJECTED);
        fault := Some(Failure(Request4, who.error));
      } else {
        req := Some(Accepted(true, m.cmd, m.addr, who.value.0, who.value.1));
        fault := None;
      }
      inb.Clear(inb.r - n + 8, inb.r - n + 8 + |m.userID|);
    }

    method Negotiate(ghost stream: Bytes) returns (fault: Option<Failure>)
      requires Valid() && lastHi == 0 && |outb.queued| == 0 && !linger && stream == Rest() && cfg.Usable()
      modifies `readErr, `writeErr, `start, `outStage, `linger, `req, `written, `lastLo, `lastHi
      modifies inb, inb.data, outb, outb.data, nc`pos, nc`expired, nc`sent, nc`room
      ensures Valid() && lastHi == 0
      ensures Went(HandshakeOutcome(cfg, stream, nc.fin), fault, old(written), old(start))
    {
      hide Outcome5, Outcome4;
      var err := Fill(1, false);
      if err.Some? {
        assert nc.pos == |nc.input| ==> inb.unread == stream;
        return Some(Failure(Greeting, StreamEnd(Greeting, err.value)));
      }
      var v := inb.First();
      assert v == stream[0];
      if v == VERSION5 && cfg.v5 {
        fault := Handshake5(stream);
      } else if v == VERSION4 && cfg.v4 {
        fault := Handshake4(stream);
      } else {
        fault := Some(Failure(Greeting, BadField(Greeting, VER)));
      }
    }

    /** The whole handshake. However the client's bytes are cut into reads, the verdict, the replies
        and where the tunnel starts are those of the whole stream; the bytes after the request are
        all still to come. Only a failed write changes the outcome, and then to a failure. */
    method Handshake(ghost stream: Bytes) returns (fault: Option<Failure>)
      requires Valid() && lastHi == 0 && |outb.queued| == 0 && !linger && stream == Rest() && cfg.Usable()
      requires writeErr.None?
      modifies `readErr, `writeErr, `start, `outStage, `linger, `req, `written, `lastLo, `lastHi
      modifies inb, inb.data, outb, outb.data, nc`pos, nc`expired, nc`sent, nc`room
      ensures Valid() && lastHi == 0
      ensures var o := HandshakeOutcome(cfg, stream, nc.fin);
              && (fault.None? ==> Went(o, fault, old(written), old(start)))
              && (fault.None? || cap >= |old(written)| + |o.out| ==>
                    && Went(o, fault, old(written), old(start))
                    && writeErr.None? && nc.sent == old(nc.sent) + o.out && outb.queued == [])
    {
      hide HandshakeOutcome;
      ghost var o := HandshakeOutcome(cfg, stream, nc.fin);
      assert written == nc.sent + [] == nc.sent;
      fault := Negotiate(stream);
      if fault.None? {
        var _ := Flush();
      }
      if writeErr.Some? {
        fault := Some(Failure(outStage, writeErr.value));
      }
      if fault.Some? {
        var _ := Flush();
      }
      assert writeErr.None? ==> nc.sent + [] == nc.sent;
    }

    // ------------------------------------------------------ after the request

    /** Reads until need bytes are unread, under a deadline; a timeout loses nothing and is not kept. */
    method FillCtx(need: nat) returns (err: Option<Error>)
      requires Valid() && need <= IN_SIZE && lastHi == 0
      modifies `readErr, `writeErr, inb, inb.data, outb`len, outb`queued, nc`pos, nc`expired, nc`sent, nc`room
      ensures Valid() && nc.pos >= old(nc.pos) && |outb.queued| <= |old(outb.queued)|
      ensures if err.None? then |inb.unread| >= need else |inb.unread| < need
      ensures err.Some? ==>
                || (err.value == Timeout && nc.expired > old(nc.expired)) || err == writeErr
                || (nc.pos == |nc.input| && err.value == nc.fin)
    {
      err := Fill(need, true);
      if err == Some(Timeout) {
        readErr := None;
      }
    }

    /** Reads while the client has no business sending: its bytes stay unread, its end is kept. Stops
        when the buffer is full, the client is gone or the watch is called off. */
    method ReadUntilGone() returns (gone: bool)
      requires Valid() && lastHi == 0 && outb.queued == []
      modifies `readErr, inb, inb.data, nc`pos, nc`expired
      ensures Valid() && nc.pos >= old(nc.pos)
      ensures gone ==> readErr == Some(nc.fin) && nc.pos == |nc.input|
      ensures !gone ==> readErr == old(readErr)
      ensures !gone ==> nc.expired > old(nc.expired) || |inb.unread| == IN_SIZE || nc.fin == Timeout
    {
      while true
        invariant Valid() && nc.pos >= old(nc.pos) && readErr == old(readErr) && nc.expired >= old(nc.expired)
        decreases |nc.input| - nc.pos
      {
        if inb.w == IN_SIZE {
          if inb.r == 0 {
            return false;
          }
          inb.Compact();
        }
        var err := ReadBehind();
        if err.Some? {
          if err.value == Timeout {
            return false;
          }
          readErr := err;
          return true;
        }
      }
    }

    method ReadBehind() returns (err: Option<Error>)
      requires Input() && lastHi == 0 && inb.w < IN_SIZE && outb.queued == []
      modifies inb, inb.data, nc`pos, nc`expired
      ensures Input() && nc.pos >= old(nc.pos)
      ensures err.None? ==> nc.pos > old(nc.pos)
      ensures nc.expired >= old(nc.expired)
      ensures err.Some? ==> || (err.value == Timeout && nc.expired > old(nc.expired))
                            || (nc.pos == |nc.input| && err.value == nc.fin)
    {
      ghost var mid := nc.pos;
      err := inb.Read(nc, true);
      Slices(nc.input, start, mid, nc.pos);
    }

    /** A reply is written on its own, after the handshake's bytes. */
    method WriteReply(socks4: bool, rep: Byte, bound: Addr) returns (err: Option<Error>)
      requires Output() && outb.queued == [] && writeErr.None? && Canonical(bound)
      modifies `linger, `written, outb, outb.data, nc`sent, nc`room
      ensures Output() && outb.queued == [] && writeErr.None?
      ensures nc.sent <= old(nc.sent) + ReplyBytes(socks4, rep, bound)
      ensures err.None? ==> nc.sent == old(nc.sent) + ReplyBytes(socks4, rep, bound)
      ensures err.Some? ==> err.value == WriteFailed && old(nc.room) < |ReplyBytes(socks4, rep, bound)|
      ensures linger == (err.None? && !IsSuccess(rep))
    {
      hide ReplyBytes;
      ReplyBytesLength(socks4, rep, bound);
      outb.Append(ReplyBytes(socks4, rep, bound));
      err := outb.Send(nc);
      written := nc.sent;
      assert nc.sent + [] == nc.sent;
      linger := err.None? && !IsSuccess(rep);
    }
  }
}
