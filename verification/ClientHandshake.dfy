/** The client's handshake (go/socks0/handshake.go): what it writes, and how it reads the replies
    ahead without reading past them. */
module ClientHandshake {
  import opened Wire
  import opened Framing
  import opened WireContract
  import opened Net

  const MAX_REPLY_BYTES := 64 * 1024

  /** A checked configuration: one method is offered, plus no-auth if offerNoAuth. */
  datatype Config = Config(
    socks4: bool, sequential: bool, cmd: Byte, auth: Option<Credentials>, offerNoAuth: bool, userID: Bytes)
  {
    predicate Usable() {
      && (auth.Some? ==> |auth.value.user| <= 255 && |auth.value.pass| <= 255)
      && (offerNoAuth ==> sequential && !socks4 && auth.Some?)
      && (socks4 ==> auth.None? && (cmd == CMD_CONNECT || cmd == CMD_BIND))
    }

    function Offered(): Byte { if auth.Some? then METHOD_USER_PASS else METHOD_NO_AUTH }

    function AuthMin(): nat { if auth.Some? then 2 else 0 }

    function Version(): Byte { if socks4 then 0 else VERSION5 }

    function Success(): Byte { if socks4 then REPLY4_GRANTED else REPLY_SUCCEEDED }

    function ReplyStage(): Stage { if socks4 then Reply4 else Reply }

    predicate Accepts(m: Byte) { m == Offered() || (offerNoAuth && m == METHOD_NO_AUTH) }

    function GreetingMsg(): Bytes {
      AppendGreeting([], if offerNoAuth then [Offered(), METHOD_NO_AUTH] else [Offered()]).out
    }

    function AuthMsg(): Bytes {
      if auth.Some? then AppendUserPass([], auth.value).out else []
    }

    function RequestMsgFor(target: Addr): Bytes
      requires Canonical(target)
    {
      if socks4 then AppendRequest4([], cmd, target, userID).out
      else AppendRequest([], cmd, target).out
    }

    /** The whole handshake as sent at once. */
    function Pipelined(target: Addr): Bytes
      requires Canonical(target)
    {
      if socks4 then RequestMsgFor(target) else GreetingMsg() + AuthMsg() + RequestMsgFor(target)
    }

    /** The messages sent one by one, if the server selects m. */
    function OneByOne(target: Addr, m: Byte): Bytes
      requires Canonical(target)
    {
      GreetingMsg() + (if auth.Some? && m == Offered() then AuthMsg() else []) + RequestMsgFor(target)
    }

    /** With one method offered they are the pipelined bytes. */
    lemma SameBytes(target: Addr, m: Byte)
      requires Canonical(target) && Accepts(m) && !offerNoAuth && !socks4
      ensures OneByOne(target, m) == Pipelined(target)
    {
    }

    /** What goes out one by one to a proxy whose replies are s: each message once the one before has
        been answered. */
    function SentOn(target: Addr, s: Bytes, fin: Error): Bytes
      requires Canonical(target)
    {
      match MessageOutcome(SelectionParser(), s, MethodSelection, fin)
      case Err(_) => GreetingMsg()
      case Ok(m) => GreetingMsg() + (if Accepts(m) then SentAfter(target, m, s[2..], fin) else [])
    }

    function SentAfter(target: Addr, m: Byte, s: Bytes, fin: Error): Bytes
      requires Canonical(target)
    {
      if auth.None? || m != Offered() then RequestMsgFor(target)
      else AuthMsg() + (if MessageOutcome(AuthReplyParser(), s, UserPassStatus, fin).Ok? then RequestMsgFor(target) else [])
    }

    /** The first of the messages sent one by one that n bytes do not complete. */
    function Unsent(m: Byte, n: nat): Stage {
      if n < |GreetingMsg()| then Greeting
      else if auth.Some? && m == Offered() && n < |GreetingMsg()| + |AuthMsg()| then UserPass
      else Request
    }

    lemma GreetingCut(target: Addr, m: Byte, room: nat)
      requires Canonical(target) && room < |GreetingMsg()|
      ensures room < |OneByOne(target, m)| && OneByOne(target, m)[..room] == GreetingMsg()[..room]
      ensures Unsent(m, room) == Greeting
    {
      hide AppendGreeting, AppendRequest, AppendRequest4, AppendUserPass;
    }

    /** Cutting the rest is cutting the whole. */
    lemma RestCut(target: Addr, m: Byte, was: Bytes, room: nat)
      requires Canonical(target) && room >= |GreetingMsg()|
      ensures var a := if auth.Some? && m == Offered() then AuthMsg() else [];
              var rest, left := a + RequestMsgFor(target), room - |GreetingMsg()|;
              && |OneByOne(target, m)| == |GreetingMsg()| + |rest|
              && Unsent(m, room) == (if left < |a| then UserPass else Request)
              && (left < |rest| ==> was + GreetingMsg() + rest[..left] == was + OneByOne(target, m)[..room])
    {
      hide AppendGreeting, AppendRequest, AppendRequest4, AppendUserPass;
      var a := if auth.Some? && m == Offered() then AuthMsg() else [];
      var greeting, rest := GreetingMsg(), a + RequestMsgFor(target);
      assert OneByOne(target, m) == greeting + rest;
      var left := room - |greeting|;
      if left < |rest| {
        assert was + greeting + rest[..left] == was + (greeting + rest)[..room];
      }
    }

    /** No more than the pipelined bytes. */
    lemma OneByOneFits(target: Addr, m: Byte)
      requires Canonical(target) && !socks4
      ensures |OneByOne(target, m)| <= |Pipelined(target)|
    {
      hide AppendGreeting, AppendRequest, AppendUserPass;
    }

    lemma SentParts(target: Addr, s: Bytes, fin: Error, was: Bytes)
      requires Canonical(target)
      ensures match MessageOutcome(SelectionParser(), s, MethodSelection, fin)
              case Err(_) => was + SentOn(target, s, fin) == was + GreetingMsg()
              case Ok(m) =>
                was + SentOn(target, s, fin)
                == was + GreetingMsg() + (if Accepts(m) then SentAfter(target, m, s[2..], fin) else [])
    {
      hide SentAfter, GreetingMsg;
    }

    /** There is room for what follows the greeting if there is for the pipelined bytes. */
    lemma RoomAfter(target: Addr, m: Byte)
      requires Canonical(target) && !socks4
      ensures |GreetingMsg()| + |if auth.Some? && m == Offered() then AuthMsg() else []| + |RequestMsgFor(target)|
              <= |Pipelined(target)|
    {
      hide AppendGreeting, AppendRequest, AppendUserPass;
    }

    lemma ThenRequest(target: Addr, m: Byte, sent: Bytes, soFar: Bytes)
      requires Canonical(target)
      requires soFar == sent + GreetingMsg() + (if auth.Some? && m == Offered() then AuthMsg() else [])
      ensures soFar + RequestMsgFor(target) == sent + OneByOne(target, m)
    {
      hide AppendRequest, AppendRequest4, AppendUserPass;
    }

    predicate Encodable(target: Addr)
      requires Canonical(target)
    {
      if socks4 then Encodable4(target, userID) else target.IsValid()
    }
  }

  // ------------------------------------------------ what a reply stream means

  /** A non-zero status is a rejection. */
  function ParseAuthReply(b: Bytes): Parse<Byte> {
    match ParseUserPassStatus(b)
    case Complete(status, n) => if status == 0 then Complete(status, n) else Malformed(AuthRejected(status))
    case p => p
  }

  function AuthReplyParser(): Parser<Byte> { (b: Bytes) => ParseAuthReply(b) }

  lemma AuthReplyCompletable()
    ensures Completable(AuthReplyParser())
  {
    forall b | ParseAuthReply(b).Incomplete?
      ensures HasCompletion(AuthReplyParser(), b)
    {
      var c: Bytes := [USER_PASS_VERSION, 0];
      assert Extends(b, c) && ParseAuthReply(c).Complete?;
    }
  }

  lemma AuthReplyFramed()
    ensures Framed(AuthReplyParser(), 2)
  {
    AuthReplyCompletable();
  }

  function FinalReplyParser(cfg: Config): Parser<ReplyMsg> {
    if cfg.socks4 then Reply4Parser() else ReplyParser(cfg.cmd)
  }

  lemma FinalReplyFramed(cfg: Config)
    ensures Framed(FinalReplyParser(cfg), MAX_REPLY)
  {
    if cfg.socks4 {
      Reply4Framed();
      assert Sized(Reply4Parser(), MAX_REPLY);
    } else {
      ReplyFramed(cfg.cmd);
    }
  }

  datatype Outcome = Established(bound: Addr, n: nat) | Failed(stage: Stage, err: Error)

  function Shift(o: Outcome, k: nat): Outcome {
    if o.Established? then o.(n := o.n + k) else o
  }

  /** The reply at the start of a stream: a failure code counts as soon as it is seen. */
  function NextReplyOutcome(cfg: Config, s: Bytes, fin: Error): Outcome {
    var p := FinalReplyParser(cfg)(s);
    var seen := SeenReply(s, cfg.Version());
    if seen.Some? && seen.value != cfg.Success() then
      Failed(cfg.ReplyStage(), ReplyRefused(seen.value, if p.Complete? then p.value.bound else ZERO_ADDR))
    else
      match p
      case Complete(m, n) => Established(m.bound, n)
      case Malformed(e) => Failed(cfg.ReplyStage(), e)
      case Incomplete(_) => Failed(cfg.ReplyStage(), StreamEnd(cfg.ReplyStage(), fin))
  }

  /** A bound address the command cannot use. */
  function BoundError(cfg: Config, bound: Addr): Option<Error> {
    if (cfg.cmd == CMD_UDP_ASSOCIATE || cfg.cmd == CMD_BIND) && bound.port == 0 then
      Some(BadField(cfg.ReplyStage(), PORT))
    else if cfg.cmd == CMD_TOR_RESOLVE && !bound.HasIP() then Some(BadField(Reply, ATYP))
    else if cfg.cmd == CMD_TOR_RESOLVE_PTR && !bound.host.Name? then Some(BadField(Reply, ATYP))
    else None
  }

  function ReplyOutcome(cfg: Config, s: Bytes, fin: Error): Outcome {
    match NextReplyOutcome(cfg, s, fin)
    case Failed(stage, e) => Failed(stage, e)
    case Established(bound, n) =>
      if BoundError(cfg, bound).Some? then Failed(cfg.ReplyStage(), BoundError(cfg, bound).value)
      else Established(bound, n)
  }

  /** The replies after the selection of m: the auth reply, if m needs one, and the final one. */
  function AfterMethod(cfg: Config, m: Byte, s: Bytes, fin: Error): Outcome {
    if cfg.auth.Some? && m == cfg.Offered() then
      match MessageOutcome(AuthReplyParser(), s, UserPassStatus, fin)
      case Err(e) => Failed(UserPassStatus, e)
      case Ok(_) => Shift(ReplyOutcome(cfg, s[2..], fin), 2)
    else ReplyOutcome(cfg, s, fin)
  }

  /** What a server's whole byte stream, ending with fin, means to a client: one parse after the
      other, nothing read ahead. */
  function RepliesOutcome(cfg: Config, s: Bytes, fin: Error): Outcome {
    if cfg.socks4 then ReplyOutcome(cfg, s, fin)
    else
      match MessageOutcome(SelectionParser(), s, MethodSelection, fin)
      case Err(e) => Failed(MethodSelection, e)
      case Ok(m) =>
        if !cfg.Accepts(m) then Failed(MethodSelection, MethodRefused(m))
        else Shift(AfterMethod(cfg, m, s[2..], fin), 2)
  }

  /** The first message that does not go out in full if a write stops after n bytes. */
  function FirstUnsent(cfg: Config, target: Addr, n: nat): Stage {
    if cfg.socks4 then Request4
    else if n < |cfg.GreetingMsg()| then Greeting
    else if n < |cfg.GreetingMsg()| + |cfg.AuthMsg()| then UserPass
    else Request
  }

  // ------------------------------------------------------------- the machine

  class Handshake {
    const cfg: Config
    const target: Addr
    var out: Bytes
    var greetingEnd: nat
    var authEnd: nat
    var readStage: Stage
    var rbuf: array<Byte>
    var msgStart: nat
    var filled: nat
    var readErr: Option<Error>
    var selected: Byte
    var bound: Addr

    /** The bytes from msgStart to filled are the last ones read off c. */
    ghost predicate Ready(c: NetConn)
      reads this, rbuf, c
    {
      && c.Valid() && msgStart <= filled <= rbuf.Length
      && filled - msgStart <= c.pos
      && rbuf[msgStart..filled] == c.input[c.pos - (filled - msgStart)..c.pos]
      && (readErr.Some? ==> c.pos == |c.input| && readErr.value == c.fin)
    }

    /** Where in c's input the next message starts. */
    ghost function Start(c: NetConn): nat
      requires Ready(c)
      reads this, rbuf, c
    {
      c.pos - (filled - msgStart)
    }

    /** The handshake on c, from input position `from` on, ended as o says: if established, exactly
        the replies were read and nothing is left in the buffer. */
    ghost predicate Ended(o: Outcome, he: Option<Failure>, c: NetConn, from: nat)
      reads this, c
    {
      match o
      case Failed(stage, e) => he == Some(Failure(stage, e))
      case Established(b, n) => he.None? && bound == b && c.pos == from + n && filled == msgStart
    }

    /** setTarget and append5: lays out the messages to write and the buffer to read into. */
    constructor (cfg: Config, target: Addr)
      requires cfg.Usable() && Canonical(target) && cfg.Encodable(target)
      ensures this.cfg == cfg && this.target == target
      ensures fresh(rbuf) && msgStart == filled == 0 && readErr.None?
      ensures greetingEnd <= authEnd <= |out|
      ensures !cfg.sequential || cfg.socks4 ==> out == cfg.Pipelined(target) && WritesLaidOut()
      ensures !cfg.socks4 ==> out[..greetingEnd] == cfg.GreetingMsg() && out[authEnd..] == cfg.RequestMsgFor(target)
    {
      this.cfg, this.target := cfg, target;
      this.bound, this.selected := ZERO_ADDR, METHOD_NO_ACCEPTABLE;
      msgStart, filled, readErr := 0, 0, None;
      if cfg.socks4 {
        out, greetingEnd, authEnd := cfg.RequestMsgFor(target), 0, 0;
        readStage := Request4;
        rbuf := new Byte[8];
      } else {
        var greeting := cfg.GreetingMsg();
        var auth := if cfg.sequential then [] else cfg.AuthMsg();
        out := greeting + auth + cfg.RequestMsgFor(target);
        greetingEnd, authEnd := |greeting|, |greeting| + |auth|;
        readStage := MethodSelection;
        rbuf := new Byte[2 + cfg.AuthMin() + 22];
      }
    }

    /** Goes on until the message is decided or the stream is over. Each read asks for what the message
        lacks and `ahead` bytes more. */
    method ReadNext<T(!new)>(c: NetConn, stage: Stage, ahead: nat, parse: Parser<T>, ghost max: nat, ghost stream: Bytes)
      returns (res: Result<T>, seen: Bytes)
      requires Framed(parse, max) && Ready(c) && stream == c.input[Start(c)..]
      modifies this`readStage, this`rbuf, this`msgStart, this`filled, this`readErr, rbuf, c`pos
      ensures Ready(c) && (rbuf == old(rbuf) || fresh(rbuf)) && readStage == stage
      ensures seen <= stream
      ensures || (res == MessageOutcome(parse, stream, stage, c.fin) && (parse(seen).Incomplete? ==> seen == stream))
              || (res == Err(TooLong) && old(msgStart) + max + ahead > MAX_REPLY_BYTES)
      ensures res.Ok? ==>
                && parse(stream).Complete? && parse(stream).value == res.value
                && Start(c) == old(Start(c)) + parse(stream).n && msgStart == old(msgStart) + parse(stream).n
                && (c.pos == old(c.pos) || c.pos <= Start(c) + ahead)
    {
      readStage := stage;
      ghost var start, from, asked := Start(c), c.pos, 0;
      while true
        invariant Ready(c) && (rbuf == old(rbuf) || fresh(rbuf)) && msgStart == old(msgStart) && readStage == stage
        invariant Start(c) == start && c.pos >= from
        invariant c.pos == from || c.pos <= start + asked + ahead
        invariant parse(stream).Complete? ==> asked <= parse(stream).n
        decreases |c.input| - c.pos, if readErr.Some? then 0 else 1
      {
        var done, need;
        done, res, seen, need := TryNext(c, stage, parse, max, stream);
        if done {
          return;
        }
        var fail := Ask(c, stage, need + ahead);
        if fail.Some? {
          assert readErr.Some? ==> seen == stream;
          return Err(fail.value), seen;
        }
        asked := need;
      }
    }

    /** Takes the message if the buffered bytes decide it, else says how many it needs. */
    method TryNext<T(!new)>(c: NetConn, stage: Stage, parse: Parser<T>, ghost max: nat, ghost stream: Bytes)
      returns (done: bool, res: Result<T>, seen: Bytes, need: nat)
      requires Framed(parse, max) && Ready(c) && stream == c.input[Start(c)..]
      modifies this`msgStart
      ensures Ready(c) && seen == stream[..old(filled - msgStart)]
      ensures done ==>
                && res == MessageOutcome(parse, stream, stage, c.fin) && !parse(seen).Incomplete?
                && (res.Ok? ==> && parse(stream).Complete? && parse(stream).value == res.value
                                && msgStart == old(msgStart) + parse(stream).n
                                && Start(c) == old(Start(c)) + parse(stream).n)
      ensures !done ==>
                && msgStart == old(msgStart) && |seen| < need <= max
                && (parse(stream).Complete? ==> need <= parse(stream).n)
                && (seen == stream ==> MessageOutcome(parse, stream, stage, c.fin) == Err(StreamEnd(stage, c.fin)))
                && parse(seen).Incomplete?
    {
      var b := rbuf[msgStart..filled];
      assert b == stream[..|b|];
      var p := parse(b);
      if p.Incomplete? {
        NeedBounded(parse, max, b);
        NotPast(parse, max, b, stream);
        return false, Err(EOF), b, p.need;
      }
      DecidedEarly(parse, max, b, stream);
      if p.Malformed? {
        return true, Err(p.err), b, 0;
      }
      Skip(c, p.n);
      return true, Ok(p.value), b, 0;
    }

    /** Moves past the first n buffered bytes. */
    method Skip(c: NetConn, n: nat)
      requires Ready(c) && n <= filled - msgStart
      modifies this`msgStart
      ensures Ready(c) && msgStart == old(msgStart) + n && Start(c) == old(Start(c)) + n
    {
      ghost var b := rbuf[msgStart..filled];
      assert rbuf[msgStart + n..filled] == b[n..];
      msgStart := msgStart + n;
    }

    /** One read, unless the stream is over or the replies are too long. */
    method Ask(c: NetConn, stage: Stage, upTo: nat) returns (fail: Option<Error>)
      requires Ready(c) && filled - msgStart < upTo
      modifies this`rbuf, this`filled, this`readErr, rbuf, c`pos
      ensures Ready(c) && (rbuf == old(rbuf) || fresh(rbuf)) && Start(c) == old(Start(c))
      ensures old(c.pos) <= c.pos <= Start(c) + upTo
      ensures fail.None? ==> c.pos > old(c.pos) || (old(readErr).None? && readErr.Some?)
      ensures fail.Some? ==> c.pos == old(c.pos) && readErr == old(readErr)
      ensures fail.Some? ==> if readErr.Some? then fail.value == StreamEnd(stage, c.fin) && c.pos == |c.input|
                             else fail.value == TooLong && msgStart + upTo > MAX_REPLY_BYTES
    {
      if readErr.Some? {
        return Some(StreamEnd(stage, readErr.value));
      }
      if msgStart + upTo > MAX_REPLY_BYTES && msgStart + upTo > rbuf.Length {
        return Some(TooLong);
      }
      Fetch(c, upTo);
      fail := None;
    }

    /** One read, for at most `upTo` bytes from the message's start on. */
    method Fetch(c: NetConn, upTo: nat)
      requires Ready(c) && readErr.None? && filled - msgStart < upTo
      modifies this`rbuf, this`filled, this`readErr, rbuf, c`pos
      ensures Ready(c) && (rbuf == old(rbuf) || fresh(rbuf))
      ensures Start(c) == old(Start(c))
      ensures old(c.pos) <= c.pos <= Start(c) + upTo
      ensures c.pos == old(c.pos) ==> readErr.Some?
    {
      if msgStart + upTo > rbuf.Length {
        Tail(rbuf, msgStart, filled);
        Grow(msgStart + upTo);
        Tail(rbuf, msgStart, filled);
      }
      FetchInto(c, upTo);
    }

    method FetchInto(c: NetConn, upTo: nat)
      requires Ready(c) && readErr.None? && filled - msgStart < upTo && msgStart + upTo <= rbuf.Length
      modifies this`filled, this`readErr, rbuf, c`pos
      ensures Ready(c) && Start(c) == old(Start(c))
      ensures old(c.pos) <= c.pos <= Start(c) + upTo
      ensures c.pos == old(c.pos) ==> readErr.Some?
    {
      ghost var kept, start, mid := rbuf[..filled], c.pos - (filled - msgStart), c.pos;
      Tail(rbuf, msgStart, filled);
      var m, err := c.Read(rbuf, filled, msgStart + upTo);
      Joined(c.input, start, mid, c.pos, kept, msgStart);
      Tail(rbuf, msgStart, filled + m);
      filled, readErr := filled + m, err;
    }

    method NextReply(c: NetConn, ghost stream: Bytes) returns (res: Result<Addr>)
      requires Ready(c) && stream == c.input[Start(c)..] && msgStart + MAX_REPLY <= MAX_REPLY_BYTES
      modifies this`readStage, this`rbuf, this`msgStart, this`filled, this`readErr, rbuf, c`pos
      ensures Ready(c) && (rbuf == old(rbuf) || fresh(rbuf)) && readStage == cfg.ReplyStage()
      ensures match NextReplyOutcome(cfg, stream, c.fin)
              case Failed(_, e) => res == Err(e)
              case Established(bound, n) =>
                && res == Ok(bound) && Start(c) == old(Start(c)) + n
                && (c.pos == old(c.pos) || c.pos == Start(c))
    {
      FinalReplyFramed(cfg);
      var parse := FinalReplyParser(cfg);
      var msg, seen := ReadNext(c, cfg.ReplyStage(), 0, parse, MAX_REPLY, stream);
      SeenAgrees(cfg, seen, stream);
      var code := SeenReply(seen, cfg.Version());
      if code.Some? && code.value != cfg.Success() {
        return Err(ReplyRefused(code.value, if msg.Ok? then msg.value.bound else ZERO_ADDR));
      }
      res := if msg.Ok? then Ok(msg.value.bound) else Err(msg.error);
    }

    method ReadReply(c: NetConn, ghost stream: Bytes) returns (he: Option<Failure>)
      requires Ready(c) && stream == c.input[Start(c)..] && msgStart + MAX_REPLY <= MAX_REPLY_BYTES
      modifies this`readStage, this`rbuf, this`msgStart, this`filled, this`readErr, this`bound, rbuf, c`pos
      ensures Ready(c) && (rbuf == old(rbuf) || fresh(rbuf))
      ensures match ReplyOutcome(cfg, stream, c.fin)
              case Failed(stage, e) => he == Some(Failure(stage, e))
              case Established(b, n) =>
                && he.None? && bound == b && Start(c) == old(Start(c)) + n
                && (c.pos == old(c.pos) || c.pos == Start(c))
    {
      var res := NextReply(c, stream);
      if res.Err? {
        return Some(Failure(readStage, res.error));
      }
      var bad := BoundError(cfg, res.value);
      if bad.Some? {
        return Some(Failure(readStage, bad.value));
      }
      bound := res.value;
      he := None;
    }

    method ReadMethod(c: NetConn, ahead: nat, ghost stream: Bytes) returns (he: Option<Failure>)
      requires Ready(c) && stream == c.input[Start(c)..] && msgStart + 2 + ahead <= MAX_REPLY_BYTES
      modifies this`readStage, this`rbuf, this`msgStart, this`filled, this`readErr, this`selected, rbuf, c`pos
      ensures Ready(c) && (rbuf == old(rbuf) || fresh(rbuf))
      ensures match MessageOutcome(SelectionParser(), stream, MethodSelection, c.fin)
              case Err(e) => he == Some(Failure(MethodSelection, e))
              case Ok(m) =>
                && selected == m && Start(c) == old(Start(c)) + 2 && msgStart == old(msgStart) + 2
                && (c.pos == old(c.pos) || c.pos <= Start(c) + ahead)
                && he == if cfg.Accepts(m) then None else Some(Failure(MethodSelection, MethodRefused(m)))
    {
      MethodSelectionFramed();
      var m, _ := ReadNext(c, MethodSelection, ahead, SelectionParser(), 2, stream);
      if m.Err? {
        return Some(Failure(readStage, m.error));
      }
      selected := m.value;
      he := if cfg.Accepts(selected) then None else Some(Failure(readStage, MethodRefused(selected)));
    }

    method ReadAuthReply(c: NetConn, ghost stream: Bytes) returns (he: Option<Failure>)
      requires Ready(c) && stream == c.input[Start(c)..] && msgStart + 7 <= MAX_REPLY_BYTES
      modifies this`readStage, this`rbuf, this`msgStart, this`filled, this`readErr, rbuf, c`pos
      ensures Ready(c) && (rbuf == old(rbuf) || fresh(rbuf))
      ensures match MessageOutcome(AuthReplyParser(), stream, UserPassStatus, c.fin)
              case Err(e) => he == Some(Failure(UserPassStatus, e))
              case Ok(_) =>
                && he.None? && Start(c) == old(Start(c)) + 2 && msgStart == old(msgStart) + 2
                && (c.pos == old(c.pos) || c.pos <= Start(c) + 5)
    {
      AuthReplyFramed();
      var status, _ := ReadNext(c, UserPassStatus, 5, AuthReplyParser(), 2, stream);
      he := if status.Ok? then None else Some(Failure(readStage, status.error));
    }

    /** Reads the replies to a handshake sent at once, several in one read if they come together.
        The outcome is the whole stream's, however it is cut; a tunnel byte is never read. */
    method ReadReplies(c: NetConn) returns (he: Option<Failure>)
      requires Ready(c) && msgStart == filled == 0 && !cfg.offerNoAuth && cfg.Usable()
      modifies this`readStage, this`rbuf, this`msgStart, this`filled, this`readErr, this`bound, this`selected, rbuf, c`pos
      ensures Ready(c) && (rbuf == old(rbuf) || fresh(rbuf))
      ensures Ended(RepliesOutcome(cfg, old(c.Unread()), c.fin), he, c, old(c.pos))
    {
      ghost var from, stream := c.pos, c.Unread();
      if cfg.socks4 {
        he := ReadReply(c, stream);
        return;
      }
      he := ReadMethod(c, 5 + cfg.AuthMin(), stream);
      if he.Some? {
        return;
      }
      assert c.input[Start(c)..] == stream[2..];
      if cfg.auth.Some? {
        he := ReadAuthReply(c, stream[2..]);
        if he.Some? {
          return;
        }
        assert c.input[Start(c)..] == stream[4..];
        ReplyLength(cfg, stream[4..], c.fin);
        he := ReadReply(c, stream[4..]);
      } else {
        ReplyLength(cfg, stream[2..], c.fin);
        he := ReadReply(c, stream[2..]);
      }
    }

    /** BIND's second reply, after the first was read to its end. */
    method ReadSecondReply(c: NetConn) returns (res: Result<Addr>)
      requires Ready(c) && Start(c) == c.pos
      modifies this`readStage, this`rbuf, this`msgStart, this`filled, this`readErr, rbuf, c`pos
      ensures Ready(c)
      ensures match NextReplyOutcome(cfg, old(c.Unread()), c.fin)
              case Failed(_, e) => res == Err(e)
              case Established(peer, n) => res == Ok(peer) && c.pos == old(c.pos) + n && Start(c) == c.pos
    {
      msgStart, filled := 0, 0;
      res := NextReply(c, c.Unread());
    }

    /** The first message not written in full after n bytes of out. */
    function WriteStage(n: nat): Stage
      reads this
    {
      if cfg.socks4 then (if n < |out| then Request4 else Reply4)
      else if n < greetingEnd then Greeting
      else if n < authEnd then UserPass
      else Request
    }

    /** Zeroes the written credentials. */
    method Wipe()
      requires greetingEnd <= authEnd <= |out|
      modifies this`out
      ensures |out| == |old(out)| && out[greetingEnd..authEnd] == Zeros(authEnd - greetingEnd)
      ensures out[..greetingEnd] == old(out[..greetingEnd]) && out[authEnd..] == old(out[authEnd..])
    {
      out := out[..greetingEnd] + Zeros(authEnd - greetingEnd) + out[authEnd..];
    }

    /** Runs the handshake in either mode. With room for the writes the outcome is that of the whole
        reply stream, the same in both; an established one sent exactly the messages, read exactly
        the replies, and left nothing buffered. */
    method Run(c: NetConn) returns (he: Option<Failure>)
      requires Ready(c) && msgStart == filled == 0 && cfg.Usable()
      requires Canonical(target) && greetingEnd <= authEnd <= |out|
      requires !cfg.sequential || cfg.socks4 ==> out == cfg.Pipelined(target) && WritesLaidOut()
      requires !cfg.socks4 ==> out[..greetingEnd] == cfg.GreetingMsg() && out[authEnd..] == cfg.RequestMsgFor(target)
      modifies this, rbuf, c`pos, c`sent, c`room
      ensures Ready(c)
      ensures old(c.room) >= |cfg.Pipelined(target)| ==>
                && Ended(RepliesOutcome(cfg, old(c.Unread()), c.fin), he, c, old(c.pos))
                && (he.None? && !cfg.offerNoAuth ==> c.sent == old(c.sent) + cfg.Pipelined(target))
      ensures cfg.sequential && !cfg.socks4 ==>
                || Ended(RepliesOutcome(cfg, old(c.Unread()), c.fin), he, c, old(c.pos))
                || StoppedShort(he, c, old(c.sent), old(c.room))
      ensures cfg.sequential && !cfg.socks4 && old(c.room) >= |cfg.Pipelined(target)| ==>
                c.sent == old(c.sent) + cfg.SentOn(target, old(c.Unread()), c.fin)
      ensures (!cfg.sequential || cfg.socks4) && old(c.room) < |cfg.Pipelined(target)| ==>
                && he == Some(Failure(FirstUnsent(cfg, target, old(c.room)), WriteFailed))
                && c.sent == old(c.sent) + cfg.Pipelined(target)[..old(c.room)] && c.pos == old(c.pos)
      ensures !cfg.sequential || cfg.socks4 ==>
                greetingEnd <= authEnd <= |out| && out[greetingEnd..authEnd] == Zeros(authEnd - greetingEnd)
    {
      if cfg.sequential && !cfg.socks4 {
        he := RunSequential(c);
        cfg.OneByOneFits(target, selected);
        if he.None? && cfg.Accepts(selected) && !cfg.offerNoAuth {
          cfg.SameBytes(target, selected);
        }
        return;
      }
      var n, err := c.Write(out);
      Wipe();
      if err.Some? {
        return Some(Failure(WriteStage(n), err.value));
      }
      he := ReadReplies(c);
    }

    ghost predicate WritesLaidOut()
      requires Canonical(target)
      reads this
    {
      !cfg.socks4 ==> greetingEnd == |cfg.GreetingMsg()| && authEnd == greetingEnd + |cfg.AuthMsg()|
    }

    method RunSequential(c: NetConn) returns (he: Option<Failure>)
      requires Ready(c) && msgStart == filled == 0 && cfg.Usable() && !cfg.socks4
      requires Canonical(target) && greetingEnd <= authEnd <= |out|
      requires out[..greetingEnd] == cfg.GreetingMsg() && out[authEnd..] == cfg.RequestMsgFor(target)
      modifies this, rbuf, c`pos, c`sent, c`room
      ensures Ready(c)
      ensures || Ended(RepliesOutcome(cfg, old(c.Unread()), c.fin), he, c, old(c.pos))
              || StoppedShort(he, c, old(c.sent), old(c.room))
      ensures he.None? ==> cfg.Accepts(selected) && c.sent == old(c.sent) + cfg.OneByOne(target, selected)
      ensures old(c.room) >= |cfg.Pipelined(target)| ==>
                c.sent == old(c.sent) + cfg.SentOn(target, old(c.Unread()), c.fin)
    {
      hide AfterMethod, Config.GreetingMsg, Config.AuthMsg, Config.RequestMsgFor, Config.OneByOne, Config.Unsent;
      hide Config.Pipelined, Config.SentAfter, Config.SentOn, ParseMethodSelection;
      cfg.SentParts(target, c.Unread(), c.fin, c.sent);
      cfg.RoomAfter(target, selected);
      ghost var stream, sent, room := c.Unread(), c.sent, c.room;
      var _, err := c.Write(out[..greetingEnd]);
      if err.Some? {
        cfg.GreetingCut(target, selected, room);
        return Some(Failure(Greeting, err.value));
      }
      he := ReadMethod(c, 0, stream);
      if he.Some? {
        return;
      }
      assert c.Unread() == stream[2..];
      cfg.RoomAfter(target, selected);
      he := AfterSelection(c);
      cfg.RestCut(target, selected, sent, room);
      if he.None? {
        cfg.ThenRequest(target, selected, sent, sent + cfg.GreetingMsg() + AuthSent());
      }
    }

    /** A write ended after `room` bytes of what was due: the error of that message. */
    ghost predicate CutOff(he: Option<Failure>, c: NetConn, was: Bytes, due: Bytes, room: nat, stage: Stage)
      reads c`sent
    {
      room < |due| && c.sent == was + due[..room] && he == Some(Failure(stage, WriteFailed))
    }

    /** The messages sent one by one went out up to the first that did not in full. */
    ghost predicate StoppedShort(he: Option<Failure>, c: NetConn, was: Bytes, room: nat)
      requires Canonical(target)
      reads `selected, c`sent
    {
      CutOff(he, c, was, cfg.OneByOne(target, selected), room, cfg.Unsent(selected, room))
    }

    /** The auth request, if the selected method needs it. */
    ghost function AuthSent(): Bytes
      reads this
    {
      if cfg.auth.Some? && selected == cfg.Offered() then cfg.AuthMsg() else []
    }

    method AfterSelection(c: NetConn) returns (he: Option<Failure>)
      requires Ready(c) && Start(c) == c.pos && msgStart == 2 && cfg.Usable() && !cfg.socks4
      requires Canonical(target) && authEnd <= |out| && out[authEnd..] == cfg.RequestMsgFor(target)
      modifies this`readStage, this`rbuf, this`msgStart, this`filled, this`readErr, this`bound
      modifies rbuf, c`pos, c`sent, c`room
      ensures Ready(c)
      ensures || Ended(AfterMethod(cfg, selected, old(c.Unread()), c.fin), he, c, old(c.pos))
              || CutOff(he, c, old(c.sent), AuthSent() + cfg.RequestMsgFor(target), old(c.room),
                        if old(c.room) < |AuthSent()| then UserPass else Request)
      ensures he.None? ==> c.sent == old(c.sent) + AuthSent() + cfg.RequestMsgFor(target)
      ensures old(c.room) >= |AuthSent()| + |cfg.RequestMsgFor(target)| ==>
                c.sent == old(c.sent) + cfg.SentAfter(target, selected, old(c.Unread()), c.fin)
    {
      hide ReplyOutcome, ParseAuthReply, Config.RequestMsgFor, Config.AuthMsg;
      ghost var stream, sent, room := c.Unread(), c.sent, c.room;
      if cfg.auth.Some? && selected == cfg.Offered() {
        he := Authenticate(c);
        if he.Some? {
          CutEarlier(he, c, sent, AuthSent(), cfg.RequestMsgFor(target), room);
          return;
        }
        assert c.Unread() == stream[2..];
      }
      he := RequestAndReply(c);
      CutLater(he, c, sent, AuthSent(), cfg.RequestMsgFor(target), room);
    }

    lemma CutEarlier(he: Option<Failure>, c: NetConn, was: Bytes, a: Bytes, b: Bytes, room: nat)
      ensures CutOff(he, c, was, a, room, UserPass) ==>
                CutOff(he, c, was, a + b, room, if room < |a| then UserPass else Request)
    {
      if room < |a| {
        assert (a + b)[..room] == a[..room];
      }
    }

    lemma CutLater(he: Option<Failure>, c: NetConn, was: Bytes, a: Bytes, b: Bytes, room: nat)
      ensures room >= |a| && CutOff(he, c, was + a, b, room - |a|, Request) ==>
                CutOff(he, c, was, a + b, room, if room < |a| then UserPass else Request)
    {
      if |a| <= room < |a| + |b| {
        assert was + a + b[..room - |a|] == was + (a + b)[..room];
      }
    }

    method RequestAndReply(c: NetConn) returns (he: Option<Failure>)
      requires Ready(c) && Start(c) == c.pos && msgStart <= 4 && authEnd <= |out|
      modifies this`readStage, this`rbuf, this`msgStart, this`filled, this`readErr, this`bound
      modifies rbuf, c`pos, c`sent, c`room
      ensures Ready(c)
      ensures || (&& c.sent == old(c.sent) + old(out[authEnd..])
                  && Ended(ReplyOutcome(cfg, old(c.Unread()), c.fin), he, c, old(c.pos)))
              || CutOff(he, c, old(c.sent), old(out[authEnd..]), old(c.room), Request)
    {
      var _, err := c.Write(out[authEnd..]);
      if err.Some? {
        return Some(Failure(Request, err.value));
      }
      he := ReadReply(c, c.Unread());
    }

    /** The username/password sub-negotiation, one message each way, read past the read-ahead buffer. */
    method Authenticate(c: NetConn) returns (he: Option<Failure>)
      requires Ready(c) && Start(c) == c.pos && cfg.auth.Some? && cfg.Usable()
      modifies c`pos, c`sent, c`room
      ensures Ready(c) && Start(c) == c.pos
      ensures if old(c.room) < |cfg.AuthMsg()| then CutOff(he, c, old(c.sent), cfg.AuthMsg(), old(c.room), UserPass)
              else
                && c.sent == old(c.sent) + cfg.AuthMsg() && c.room == old(c.room) - |cfg.AuthMsg()|
                && match MessageOutcome(AuthReplyParser(), old(c.Unread()), UserPassStatus, c.fin)
                   case Err(e) => he == Some(Failure(UserPassStatus, e))
                   case Ok(_) => he.None? && c.pos == old(c.pos) + 2
    {
      var _, err := c.Write(cfg.AuthMsg());
      if err.Some? {
        return Some(Failure(UserPass, err.value));
      }
      he := ReadStatus(c);
    }

    method ReadStatus(c: NetConn) returns (he: Option<Failure>)
      requires c.Valid()
      modifies c`pos
      ensures c.Valid() && c.pos >= old(c.pos)
      ensures match MessageOutcome(AuthReplyParser(), old(c.Unread()), UserPassStatus, c.fin)
              case Err(e) => he == Some(Failure(UserPassStatus, e))
              case Ok(_) => he.None? && c.pos == old(c.pos) + 2
    {
      UserPassStatusFramed();
      ghost var s := c.Unread();
      var buf := new Byte[2];
      var status := ReadMessage(c, buf, UserPassStatus, StatusParser(), 2);
      StatusOutcome(s, c.fin, status);
      if status.Err? {
        return Some(Failure(UserPassStatus, status.error));
      }
      he := if status.value == 0 then None else Some(Failure(UserPassStatus, AuthRejected(status.value)));
    }

    /** A longer buffer with the same bytes. */
    method Grow(need: nat)
      requires filled <= rbuf.Length < need
      modifies this`rbuf
      ensures fresh(rbuf) && rbuf.Length == need && rbuf[..filled] == old(rbuf[..filled])
    {
      var longer := new Byte[need];
      forall i | 0 <= i < filled {
        longer[i] := rbuf[i];
      }
      rbuf := longer;
    }
  }

  /** The code seen when reading stops is the one in the whole stream. */
  lemma SeenAgrees(cfg: Config, seen: Bytes, stream: Bytes)
    requires seen <= stream
    requires FinalReplyParser(cfg)(seen).Incomplete? ==> seen == stream
    ensures SeenReply(seen, cfg.Version()) == SeenReply(stream, cfg.Version())
  {
    if |seen| <= 1 && |seen| < |stream| {
      assert !FinalReplyParser(cfg)(seen).Incomplete?;
      assert FinalReplyParser(cfg)(seen).Malformed?;
      assert seen[0] != cfg.Version();
    }
  }

  /** No reply is shorter than what is read ahead for it. */
  lemma ReplyLength(cfg: Config, s: Bytes, fin: Error)
    requires !cfg.socks4
    ensures ReplyOutcome(cfg, s, fin).Established? ==> ReplyOutcome(cfg, s, fin).n >= 8
  {
  }

  lemma StatusOutcome(s: Bytes, fin: Error, status: Result<Byte>)
    requires status == MessageOutcome(StatusParser(), s, UserPassStatus, fin)
    ensures MessageOutcome(AuthReplyParser(), s, UserPassStatus, fin)
            == if status.Ok? && status.value != 0 then Err(AuthRejected(status.value)) else status
    ensures status.Ok? ==> ParseUserPassStatus(s).Complete? && ParseUserPassStatus(s).n == 2
  {
  }

  lemma Tail(a: array<Byte>, lo: nat, hi: nat)
    requires lo <= hi <= a.Length
    ensures a[..hi][lo..] == a[lo..hi]
  {
  }

  lemma Joined(input: Bytes, start: nat, mid: nat, end: nat, kept: Bytes, k: nat)
    requires start <= mid <= end <= |input| && k <= |kept| && kept[k..] == input[start..mid]
    ensures (kept + input[mid..end])[k..] == input[start..end]
  {
    Slices(input, start, mid, end);
  }
}
