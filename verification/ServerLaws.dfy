/** What a server makes of a client, said of the client's whole stream: whom it admits and why it turns
    away the others, and the bytes either of them gets (go/socks0/server/conn.go and auth.go). */
module ServerLaws {
  import opened Wire
  import opened Framing
  import opened Net
  import opened Layout
  import opened ServerSpec
  import opened Buffers

  /** How a message that is not there in full ends. */
  lemma EndsInside<T>(p: Parser<T>, s: Bytes, stage: Stage, fin: Error)
    requires p(s).Incomplete?
    ensures MessageOutcome(p, s, stage, fin) == Err(if fin == EOF then Truncated(stage) else fin)
  {
  }

  /** The first byte is the version; nobody else is answered. */
  lemma Opens(cfg: Config, s: Bytes, fin: Error)
    ensures s == [] ==>
              HandshakeOutcome(cfg, s, fin)
              == Outcome(Rejected(Greeting, if fin == EOF then Truncated(Greeting) else fin), [], false)
    ensures s != [] && !(s[0] == 5 && cfg.v5) && !(s[0] == 4 && cfg.v4) ==>
              HandshakeOutcome(cfg, s, fin) == Outcome(Rejected(Greeting, BadField(Greeting, VER)), [], false)
  {
  }

  // ---------------------------------------------------------------- SOCKS4

  /** Who is admitted over SOCKS4: a CONNECT or BIND of a user whom UserID knows or, without UserID, of
      anybody if no authentication is configured. */
  predicate Welcome4(cfg: Config, m: Request4Msg) {
    && m.cmd in {1, 2}
    && if cfg.userID.Some? then cfg.userID.value(m.userID).Some? else 0 in cfg.methods
  }

  /** The whole of SOCKS4: the client is admitted if and only if its request is complete and welcome, as
      who UserID says it is; any other complete request gets 0x5B; nothing else is answered. */
  lemma Admits4(cfg: Config, s: Bytes, fin: Error)
    requires s != [] && s[0] == 4 && cfg.v4
    ensures var o, p := HandshakeOutcome(cfg, s, fin), ParseRequest4(s);
            && (o.verdict.Admitted? <==> p.Complete? && Welcome4(cfg, p.value))
            && match p
               case Complete(m, n) =>
                 if Welcome4(cfg, m) then
                   var (chosen, id) := if cfg.userID.Some? then (2, cfg.userID.value(m.userID)) else (0, None);
                   o == Outcome(Admitted(Accepted(true, m.cmd, m.addr, chosen, id), n), [], false)
                 else
                   && o.out == [0, 0x5B, 0, 0, 0, 0, 0, 0] && o.refusal && o.verdict.stage == Request4
                   && o.verdict.err == if m.cmd in {1, 2} && cfg.userID.Some? then BadCredentials else NotPermitted
               case Malformed(e) => o == Outcome(Rejected(Request4, e), [], false)
               case Incomplete(_) =>
                 o == Outcome(Rejected(Request4, if fin == EOF then Truncated(Request4) else fin), [], false)
  {
  }

  // ---------------------------------------------------------------- SOCKS5

  /** The request: taken as it is, or answered with 08 if its address is wrong. */
  lemma Requests5(chosen: Byte, id: Option<Bytes>, s: Bytes, fin: Error)
    ensures var o := RequestOutcome(chosen, id, s, fin);
            match ParseRequest(s)
            case Complete(m, n) => o == Outcome(Admitted(Accepted(false, m.cmd, m.addr, chosen, id), n), [], false)
            case Malformed(e) =>
              if s[0] == 5 then o == Outcome(Rejected(Request, e), [5, 8, 0, 1, 0, 0, 0, 0, 0, 0], true)
              else o == Outcome(Rejected(Request, e), [], false)
            case Incomplete(_) =>
              !fin.BadField? ==> // no error of a connection is
                o == Outcome(Rejected(Request, if fin == EOF then Truncated(Request) else fin), [], false)
  {
    Layout.RequestRead(s);
    assert ReplyBytes(false, 8, ZERO_ADDR) == [5, 8, 0, 1, 0, 0, 0, 0, 0, 0];
  }

  /** The sub-negotiation: none without authentication; else one message, answered with 0 or 1. */
  lemma LogsIn(cfg: Config, m: Byte, s: Bytes, fin: Error)
    ensures m != 2 ==> SubNegotiation(cfg, m, s, fin) == LoggedIn(m, None, 0, [])
    ensures var l := SubNegotiation(cfg, 2, s, fin);
            match ParseUserPass(s)
            case Complete(c, n) =>
              if cfg.login(c).Some? then l == LoggedIn(2, cfg.login(c), n, [1, 0])
              else l == Refused(UserPass, BadCredentials, [1, 1], true)
            case Malformed(e) => l == Refused(UserPass, e, [], false)
            case Incomplete(_) => l == Refused(UserPass, if fin == EOF then Truncated(Auth) else fin, [], false)
  {
  }

  /** The first configured method that is offered, and no other. */
  predicate Picks(methods: seq<Byte>, offered: Bytes, m: Byte) {
    exists i :: 0 <= i < |methods| && methods[i] == m && m in offered && forall j :: 0 <= j < i ==> methods[j] !in offered
  }

  /** Method selection, and what follows it. */
  lemma Greets5(cfg: Config, s: Bytes, fin: Error)
    ensures var l := AuthOutcome(cfg, s, fin);
            match ParseGreeting(s)
            case Malformed(e) => l == Refused(Greeting, e, [], false)
            case Incomplete(_) => l == Refused(Greeting, if fin == EOF then Truncated(Greeting) else fin, [], false)
            case Complete(offered, n) =>
              && ((forall m :: m in cfg.methods ==> m !in offered) ==> l == Refused(Greeting, NoCommonMethod, [5, 0xFF], true))
              && forall m: Byte :: Picks(cfg.methods, offered, m) ==>
                   n <= |s| && match SubNegotiation(cfg, m, s[n..], fin)
                               case LoggedIn(chosen, id, k, out) => l == LoggedIn(chosen, id, n + k, [5, m] + out)
                               case Refused(stage, e, out, refusal) => l == Refused(stage, e, [5, m] + out, refusal)
  {
    hide SubNegotiation;
    Layout.GreetingRead(s);
    if ParseGreeting(s).Complete? {
      var offered := ParseGreeting(s).value;
      forall m: Byte | Picks(cfg.methods, offered, m)
        ensures Choose(cfg.methods, offered) == Some(m)
      {
        PickedOnce(cfg.methods, offered, m);
      }
    }
  }

  lemma PickedOnce(methods: seq<Byte>, offered: Bytes, m: Byte)
    requires Picks(methods, offered, m)
    ensures Choose(methods, offered) == Some(m)
  {
    var c := Choose(methods, offered);
    var i :| 0 <= i < |methods| && methods[i] == m && m in offered && forall j :: 0 <= j < i ==> methods[j] !in offered;
    var k :| 0 <= k < |methods| && methods[k] == c.value && forall j :: 0 <= j < k ==> methods[j] !in offered;
    assert i == k;
  }

  /** The whole of SOCKS5: what the greeting and the sub-negotiation sent comes before what the request
      is answered, and lengths add up. */
  lemma Admits5(cfg: Config, s: Bytes, fin: Error)
    requires s != [] && s[0] == 5 && cfg.v5
    ensures var o := HandshakeOutcome(cfg, s, fin);
            match AuthOutcome(cfg, s, fin)
            case Refused(stage, e, out, refusal) => o == Outcome(Rejected(stage, e), out, refusal)
            case LoggedIn(m, id, n, out) =>
              && n <= |s|
              && var r := RequestOutcome(m, id, s[n..], fin);
              && o.out == out + r.out && o.refusal == r.refusal
              && match r.verdict
                 case Admitted(rq, k) => o.verdict == Admitted(rq, n + k) && n + k <= |s|
                 case Rejected(_, _) => o.verdict == r.verdict
  {
    hide SubNegotiation, RequestOutcome, AuthOutcome;
    Within5(cfg, s, fin);
    var l := AuthOutcome(cfg, s, fin);
    if l.LoggedIn? {
      RequestWithin(l.chosen, l.identity, s[l.n..], fin);
    }
  }

  lemma Within5(cfg: Config, s: Bytes, fin: Error)
    ensures var l := AuthOutcome(cfg, s, fin); l.LoggedIn? ==> l.n <= |s|
  {
    hide SubNegotiation, Choose;
    Layout.GreetingRead(s);
    var g := ParseGreeting(s);
    if g.Complete? && Choose(cfg.methods, g.value).Some? {
      LogsIn(cfg, Choose(cfg.methods, g.value).value, s[g.n..], fin);
      UserPassRead(s[g.n..]);
    }
  }

  lemma RequestWithin(chosen: Byte, id: Option<Bytes>, s: Bytes, fin: Error)
    ensures var o := RequestOutcome(chosen, id, s, fin); o.verdict.Admitted? ==> o.verdict.n <= |s|
  {
    hide ReplyBytes;
    Layout.RequestRead(s);
  }

  /** The buffers: each message and each reply fits, and so does what is sent with it. */
  lemma Sizes()
    ensures IN_SIZE == 2048 && MAX_AUTH_MSG == 1024 && OUT_SIZE == 2 + 1024 + 262 && LINGER_MAX == 65536
    ensures MAX_GREETING <= IN_SIZE && MAX_USER_PASS <= MAX_AUTH_MSG <= IN_SIZE && MAX_REQUEST4 <= IN_SIZE
  {
  }

  // --------------------------------------------------------------- replies

  /** A reply: its code, which SOCKS4 has four of, and its address, which it has only if it can. */
  lemma Replies(socks4: bool, rep: Byte, bound: Addr)
    requires Canonical(bound)
    ensures var m := ReplyBytes(socks4, rep, bound);
            if socks4 then
              && |m| == 8 && m[0] == 0
              && m[1] == (if rep == 0 || rep == 90 then 90 else if 91 <= rep <= 93 then rep else 91)
              && (if bound.host.V4? then m[4..8] == bound.host.ip && PortAt(m, 2, bound.port)
                  else m[2..] == [0, 0, 0, 0, 0, 0])
            else
              IsWritten([], Append(m, true), [5, rep, 0], if bound.IsValid() then bound else Addr(V4([0, 0, 0, 0]), 0))
  {
    if socks4 {
      Reply4Written([], CodeSent(true, rep), if bound.host.V4? then bound else ZERO_ADDR);
    } else {
      var shown := if bound.IsValid() then bound else Addr(V4([0, 0, 0, 0]), 0);
      Written([], rep, shown);
    }
  }

  /** When no code of the user's saw a piece of the input buffer. */
  lemma NothingLent(cfg: Config, req: Accepted)
    ensures !cfg.Lends(req) <==>
              if req.socks4 then cfg.userID.None? else !cfg.traced && (req.chosen == 2 ==> !cfg.checks)
  {
  }
}
