/** What a client makes of a server, said of the server's whole stream, and what it writes
    (go/socks0/handshake.go). */
module ClientLaws {
  import opened Wire
  import opened Framing
  import opened Net
  import opened Layout
  import opened ClientHandshake

  // --------------------------------------------------------------- writing

  /** What is offered: the credentials' method, and no authentication besides if asked for; without
      credentials that alone. */
  lemma Offers(cfg: Config)
    ensures cfg.Usable() ==>
              cfg.GreetingMsg() == if cfg.auth.None? then [5, 1, 0] else if cfg.offerNoAuth then [5, 2, 2, 0] else [5, 1, 2]
    ensures forall m: Byte :: cfg.Accepts(m) <==> m in cfg.GreetingMsg()[2..]
  {
  }

  /** The credentials and the request as they go out. */
  lemma Messages(cfg: Config, target: Addr)
    requires cfg.Usable() && Canonical(target) && cfg.Encodable(target)
    ensures cfg.auth.None? ==> cfg.AuthMsg() == []
    ensures cfg.auth.Some? ==>
              var c := cfg.auth.value; cfg.AuthMsg() == [1, |c.user|] + c.user + [|c.pass|] + c.pass
    ensures !cfg.socks4 ==> IsWritten([], Append(cfg.RequestMsgFor(target), true), [5, cfg.cmd, 0], target)
    ensures cfg.socks4 ==>
              var m := cfg.RequestMsgFor(target);
              && |m| >= 9 && m[0] == 4 && m[1] == cfg.cmd && PortAt(m, 2, target.port)
              && m[4..8] == (if target.host.V4? then target.host.ip else [0, 0, 0, 1])
              && m[8..] == cfg.userID + [0] + if target.host.Name? then target.host.name + [0] else []
  {
    if cfg.socks4 {
      Request4Written([], cfg.cmd, target, cfg.userID);
    } else {
      Written([], cfg.cmd, target);
    }
  }

  /** The message that a write of n bytes stops in. */
  lemma StopsIn(cfg: Config, target: Addr, n: nat)
    requires cfg.Usable() && !cfg.offerNoAuth && Canonical(target)
    ensures var auth := if cfg.auth.Some? then 3 + |cfg.auth.value.user| + |cfg.auth.value.pass| else 0;
            FirstUnsent(cfg, target, n) == if cfg.socks4 then Request4 else if n < 3 then Greeting
                                           else if n < 3 + auth then UserPass else Request
  {
  }

  /** What goes out one message at a time: the credentials once they are asked for, the request once the
      method is settled and, with credentials, their status is 0. */
  lemma Sends(cfg: Config, target: Addr, s: Bytes, fin: Error)
    requires Canonical(target)
    ensures cfg.SentOn(target, s, fin)
            == if |s| < 2 || s[0] != 5 || s[1] !in cfg.GreetingMsg()[2..] then cfg.GreetingMsg()
               else if cfg.auth.None? || s[1] != 2 then cfg.GreetingMsg() + cfg.RequestMsgFor(target)
               else if |s| >= 4 && s[2] == 1 && s[3] == 0 then cfg.GreetingMsg() + (cfg.AuthMsg() + cfg.RequestMsgFor(target))
               else cfg.GreetingMsg() + cfg.AuthMsg()
  {
    Offers(cfg);
    assert cfg.GreetingMsg() + [] == cfg.GreetingMsg() && cfg.AuthMsg() + [] == cfg.AuthMsg();
  }

  /** The message that n bytes sent so stop in, if the server selects m. */
  lemma StopsInOne(cfg: Config, m: Byte, n: nat)
    requires cfg.Usable()
    ensures var g := if cfg.offerNoAuth then 4 else 3;
            cfg.Unsent(m, n) == if n < g then Greeting
                                else if cfg.auth.Some? && m == 2 && n < g + 3 + |cfg.auth.value.user| + |cfg.auth.value.pass|
                                then UserPass
                                else Request
  {
  }

  /** Replies that fit 64 KiB are read; the handshake's own all do. */
  lemma RepliesFit()
    ensures MAX_REPLY_BYTES == 65536 && 2 + 2 + MAX_REPLY <= MAX_REPLY_BYTES
  {
  }

  // --------------------------------------------------------------- reading

  /** The method: one that was offered, or the end. */
  lemma Selected(cfg: Config, s: Bytes, fin: Error)
    requires !cfg.socks4
    ensures var o := RepliesOutcome(cfg, s, fin);
            if s != [] && s[0] != 5 then o == Failed(MethodSelection, BadField(MethodSelection, VER))
            else if |s| < 2 then o == Failed(MethodSelection, if fin == EOF then Truncated(MethodSelection) else fin)
            else if s[1] !in cfg.GreetingMsg()[2..] then o == Failed(MethodSelection, MethodRefused(s[1]))
            else
              match AfterMethod(cfg, s[1], s[2..], fin)
              case Established(bound, n) => o == Established(bound, n + 2)
              case Failed(stage, e) => o == Failed(stage, e)
  {
    hide AfterMethod;
    Offers(cfg);
  }

  /** The status: zero, or the end; without credentials there is none. */
  lemma Authenticated(cfg: Config, m: Byte, s: Bytes, fin: Error)
    ensures var o := AfterMethod(cfg, m, s, fin);
            if cfg.auth.None? || m != 2 then o == ReplyOutcome(cfg, s, fin)
            else if s != [] && s[0] != 1 then o == Failed(UserPassStatus, BadField(UserPassStatus, VER))
            else if |s| < 2 then o == Failed(UserPassStatus, if fin == EOF then Truncated(UserPassStatus) else fin)
            else if s[1] != 0 then o == Failed(UserPassStatus, AuthRejected(s[1]))
            else
              match ReplyOutcome(cfg, s[2..], fin)
              case Established(bound, n) => o == Established(bound, n + 2)
              case Failed(stage, e) => o == Failed(stage, e)
  {
    hide ReplyOutcome;
  }

  /** What a command needs of the address: the two that wait for packets or peers a port, Tor's lookups
      the answer they asked for, the rest nothing. */
  predicate UsableFor(cmd: Byte, bound: Addr) {
    && (cmd == 2 || cmd == 3 ==> bound.port != 0)
    && (cmd == 240 ==> bound.host.V4? || bound.host.V6?)
    && (cmd == 241 ==> bound.host.Name?)
  }

  /** What becomes of a success whose address the client's command cannot use, and of every other. */
  lemma Usable(cfg: Config, bound: Addr)
    ensures BoundError(cfg, bound)
            == if UsableFor(cfg.cmd, bound) then None
               else if cfg.cmd == 2 || cfg.cmd == 3 then Some(BadField(if cfg.socks4 then Reply4 else Reply, PORT))
               else Some(BadField(Reply, ATYP))
  {
  }

  /** A reply. Any code but success ends it as soon as it is there, with the address if that is there
      too; a success needs the rest. */
  lemma Replies(cfg: Config, s: Bytes, fin: Error)
    ensures var o, p := NextReplyOutcome(cfg, s, fin), if cfg.socks4 then ParseReply4(s) else ParseReply(s, cfg.cmd);
            var (stage, ver, granted) := if cfg.socks4 then (Reply4, 0, 90) else (Reply, 5, 0);
            if s != [] && s[0] != ver then o == Failed(stage, BadField(stage, VER))
            else if |s| >= 2 && s[1] != granted then
              o == Failed(stage, ReplyRefused(s[1], if p.Complete? then p.value.bound else ZERO_ADDR))
            else
              match p
              case Complete(m, n) => o == Established(m.bound, n)
              case Malformed(e) => o == Failed(stage, e)
              case Incomplete(_) => o == Failed(stage, if fin == EOF then Truncated(stage) else fin)
  {
  }

  /** The first reply, whose address has to be of use; the second's is taken as it is. */
  lemma FirstReplies(cfg: Config, s: Bytes, fin: Error)
    ensures var o := ReplyOutcome(cfg, s, fin);
            match NextReplyOutcome(cfg, s, fin)
            case Failed(stage, e) => o == Failed(stage, e)
            case Established(bound, n) =>
              if UsableFor(cfg.cmd, bound) then o == Established(bound, n)
              else o.Failed? && o.stage == (if cfg.socks4 then Reply4 else Reply) && Some(o.err) == BoundError(cfg, bound)
  {
    hide NextReplyOutcome;
  }
}
