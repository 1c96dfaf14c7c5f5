/** What a client's whole byte stream means to the server: one parse after the other, with nothing
    buffered (go/socks0/server/conn.go). */
module ServerSpec {
  import opened Wire
  import opened Framing
  import opened Net

  /** Which versions and methods are served; who may log in and which SOCKS4 users may connect are
      left open. */
  datatype Config = Config(
    v4: bool, v5: bool, methods: seq<Byte>,
    login: Credentials -> Option<Bytes>,
    userID: Option<Bytes -> Option<Bytes>>,
    checks: bool, traced: bool) // login is a Check of the user's; the greeting is traced
  {
    predicate Usable() {
      forall i :: 0 <= i < |methods| ==> methods[i] == METHOD_NO_AUTH || methods[i] == METHOD_USER_PASS
    }

    /** Whether the handshake of an admitted client shows the user's code a piece of the buffer. */
    predicate Lends(req: Accepted) {
      if req.socks4 then userID.Some? else traced || (checks && req.chosen == METHOD_USER_PASS)
    }
  }

  datatype Accepted = Accepted(socks4: bool, cmd: Byte, addr: Addr, chosen: Byte, identity: Option<Bytes>)

  datatype Verdict =
    | Admitted(req: Accepted, n: nat)
    | Rejected(stage: Stage, err: Error)

  /** The verdict, the bytes sent up to it, and whether they end in a refusal. */
  datatype Outcome = Outcome(verdict: Verdict, out: Bytes, refusal: bool)

  /** The first method in order of preference that the client offers. */
  function Choose(methods: seq<Byte>, offered: Bytes): (m: Option<Byte>)
    ensures m.None? <==> forall i :: 0 <= i < |methods| ==> methods[i] !in offered
    ensures m.Some? ==> m.value in offered && exists i :: 0 <= i < |methods| && methods[i] == m.value
                                                && forall j :: 0 <= j < i ==> methods[j] !in offered
  {
    if methods == [] then None
    else if methods[0] in offered then
      assert methods[0] == methods[0];
      Some(methods[0])
    else
      var m := Choose(methods[1..], offered);
      assert forall i :: 0 < i < |methods| ==> methods[i] == methods[1..][i - 1];
      m
  }

  const ZERO_BOUND := Addr(V4([0, 0, 0, 0]), 0)

  /** The reply code as it goes out: SOCKS4 has four. */
  function CodeSent(socks4: bool, rep: Byte): Byte {
    if !socks4 then rep
    else if rep == REPLY_SUCCEEDED then REPLY4_GRANTED
    else if rep < REPLY4_GRANTED || rep > REPLY4_IDENT_MISMATCH then REPLY4_REJECTED
    else rep
  }

  /** The reply bytes: SOCKS4 has only IPv4 addresses; the zero address is 0.0.0.0:0. */
  function ReplyBytes(socks4: bool, rep: Byte, bound: Addr): Bytes
    requires Canonical(bound)
  {
    if socks4 then
      AppendReply4([], CodeSent(true, rep), if bound.host.V4? then bound else ZERO_ADDR).out
    else AppendReply([], rep, if bound.IsValid() then bound else ZERO_BOUND).out
  }

  predicate IsSuccess(rep: Byte) { rep == REPLY_SUCCEEDED || rep == REPLY4_GRANTED }

  lemma ReplyBytesLength(socks4: bool, rep: Byte, bound: Addr)
    requires Canonical(bound)
    ensures 8 <= |ReplyBytes(socks4, rep, bound)| <= MAX_REPLY
  {
  }

  function Prepend(out: Bytes, k: nat, o: Outcome): Outcome {
    Outcome(if o.verdict.Admitted? then Admitted(o.verdict.req, k + o.verdict.n) else o.verdict, out + o.out, o.refusal)
  }

  function ParsedLen<T>(p: Parser<T>, s: Bytes): nat {
    if p(s).Complete? then p(s).n else 0
  }

  function Drop(s: Bytes, k: nat): Bytes { if k <= |s| then s[k..] else [] }

  function RequestOutcome(chosen: Byte, identity: Option<Bytes>, s: Bytes, fin: Error): Outcome {
    OnRequest(chosen, identity, MessageOutcome(RequestParser(), s, Request, fin), ParsedLen(RequestParser(), s))
  }

  /** Only a request that fails in its address is answered. */
  function OnRequest(chosen: Byte, identity: Option<Bytes>, res: Result<RequestMsg>, n: nat): Outcome {
    match res
    case Ok(m) => Outcome(Admitted(Accepted(false, m.cmd, m.addr, chosen, identity), n), [], false)
    case Err(e) =>
      if e.BadField? && e.field != VER then
        Outcome(Rejected(Request, e), ReplyBytes(false, REPLY_ATYP_NOT_SUPPORTED, ZERO_ADDR), true)
      else Outcome(Rejected(Request, e), [], false)
  }

  /** What Next hands over is what the outcome is about. */
  lemma RequestRead(chosen: Byte, identity: Option<Bytes>, s: Bytes, fin: Error, res: Result<RequestMsg>, n: nat)
    requires res == MessageOutcome(RequestParser(), s, Request, fin)
    requires res.Ok? ==> RequestParser()(s) == Complete(res.value, n)
    ensures RequestOutcome(chosen, identity, s, fin) == OnRequest(chosen, identity, res, n)
  {
  }

  /** Method selection and authentication: who the client is, after how many bytes in and which
      bytes out, or why it is refused. */
  datatype Login =
    | LoggedIn(chosen: Byte, identity: Option<Bytes>, n: nat, out: Bytes)
    | Refused(stage: Stage, err: Error, out: Bytes, refusal: bool)

  function OnCredentials(cfg: Config, res: Result<Credentials>, n: nat): Login {
    match res
    case Err(e) => Refused(UserPass, e, [], false)
    case Ok(c) =>
      match cfg.login(c)
      case None => Refused(UserPass, BadCredentials, AppendUserPassStatus([], 1), true)
      case Some(id) => LoggedIn(METHOD_USER_PASS, Some(id), n, AppendUserPassStatus([], 0))
  }

  function SubNegotiation(cfg: Config, m: Byte, s: Bytes, fin: Error): Login {
    if m != METHOD_USER_PASS then LoggedIn(m, None, 0, [])
    else OnCredentials(cfg, MessageOutcome(UserPassParser(), s, Auth, fin), ParsedLen(UserPassParser(), s))
  }

  lemma SubNegotiationMethod(cfg: Config, m: Byte, s: Bytes, fin: Error)
    requires m == METHOD_NO_AUTH || m == METHOD_USER_PASS
    ensures var l := SubNegotiation(cfg, m, s, fin); l.LoggedIn? ==> l.chosen == m
  {
  }

  lemma CredentialsRead(cfg: Config, s: Bytes, fin: Error, res: Result<Credentials>, n: nat)
    requires res == MessageOutcome(UserPassParser(), s, Auth, fin)
    requires res.Ok? ==> UserPassParser()(s) == Complete(res.value, n)
    ensures SubNegotiation(cfg, METHOD_USER_PASS, s, fin) == OnCredentials(cfg, res, n)
  {
  }

  function AfterSelection(m: Byte, n: nat, l: Login): Login {
    match l
    case LoggedIn(chosen, id, k, out) => LoggedIn(chosen, id, n + k, AppendMethodSelection([], m) + out)
    case Refused(stage, e, out, refusal) => Refused(stage, e, AppendMethodSelection([], m) + out, refusal)
  }

  lemma ChosenServed(methods: seq<Byte>, offered: Bytes)
    ensures Choose(methods, offered).Some? ==> Choose(methods, offered).value in methods
  {
  }

  function OnGreeting(cfg: Config, res: Result<Bytes>, n: nat, s: Bytes, fin: Error): Login {
    match res
    case Err(e) => Refused(Greeting, e, [], false)
    case Ok(offered) =>
      match Choose(cfg.methods, offered)
      case None => Refused(Greeting, NoCommonMethod, AppendMethodSelection([], METHOD_NO_ACCEPTABLE), true)
      case Some(m) => AfterSelection(m, n, SubNegotiation(cfg, m, Drop(s, n), fin))
  }

  function AuthOutcome(cfg: Config, s: Bytes, fin: Error): Login {
    OnGreeting(cfg, MessageOutcome(GreetingParser(), s, Greeting, fin), ParsedLen(GreetingParser(), s), s, fin)
  }

  lemma GreetingRead(cfg: Config, s: Bytes, fin: Error, res: Result<Bytes>, n: nat)
    requires res == MessageOutcome(GreetingParser(), s, Greeting, fin)
    requires res.Ok? ==> GreetingParser()(s) == Complete(res.value, n)
    ensures AuthOutcome(cfg, s, fin) == OnGreeting(cfg, res, n, s, fin)
  {
  }

  function OnAuth(l: Login, s: Bytes, fin: Error): Outcome {
    match l
    case Refused(stage, e, out, refusal) => Outcome(Rejected(stage, e), out, refusal)
    case LoggedIn(m, id, n, out) => Prepend(out, n, RequestOutcome(m, id, Drop(s, n), fin))
  }

  function Outcome5(cfg: Config, s: Bytes, fin: Error): Outcome { OnAuth(AuthOutcome(cfg, s, fin), s, fin) }

  /** Who a SOCKS4 request is from, or why it is refused. */
  function Authorize4(cfg: Config, m: Request4Msg): Result<(Byte, Option<Bytes>)> {
    if m.cmd != CMD_CONNECT && m.cmd != CMD_BIND then Err(NotPermitted)
    else if cfg.userID.Some? then
      match cfg.userID.value(m.userID)
      case None => Err(BadCredentials)
      case Some(id) => Ok((METHOD_USER_PASS, Some(id)))
    else if METHOD_NO_AUTH in cfg.methods then Ok((METHOD_NO_AUTH, None))
    else Err(NotPermitted)
  }

  function Outcome4(cfg: Config, s: Bytes, fin: Error): Outcome {
    OnRequest4(cfg, MessageOutcome(Request4Parser(), s, Request4, fin), ParsedLen(Request4Parser(), s))
  }

  lemma Request4Read(cfg: Config, s: Bytes, fin: Error, res: Result<Request4Msg>, n: nat)
    requires res == MessageOutcome(Request4Parser(), s, Request4, fin)
    requires res.Ok? ==> Request4Parser()(s) == Complete(res.value, n)
    ensures Outcome4(cfg, s, fin) == OnRequest4(cfg, res, n)
  {
  }

  /** The user ID lies inside the request. */
  lemma UserIDInside(s: Bytes)
    requires ParseRequest4(s).Complete?
    ensures 8 + |ParseRequest4(s).value.userID| <= ParseRequest4(s).n
  {
  }

  function OnRequest4(cfg: Config, res: Result<Request4Msg>, n: nat): Outcome {
    match res
    case Err(e) => Outcome(Rejected(Request4, e), [], false)
    case Ok(m) =>
      match Authorize4(cfg, m)
      case Err(e) => Outcome(Rejected(Request4, e), ReplyBytes(true, REPLY4_REJECTED, ZERO_ADDR), true)
      case Ok((chosen, id)) => Outcome(Admitted(Accepted(true, m.cmd, m.addr, chosen, id), n), [], false)
  }

  function HandshakeOutcome(cfg: Config, s: Bytes, fin: Error): Outcome {
    if s == [] then Outcome(Rejected(Greeting, StreamEnd(Greeting, fin)), [], false)
    else if s[0] == VERSION5 && cfg.v5 then Outcome5(cfg, s, fin)
    else if s[0] == VERSION4 && cfg.v4 then Outcome4(cfg, s, fin)
    else Outcome(Rejected(Greeting, BadField(Greeting, VER)), [], false)
  }
}
