/** Client and server together: what one writes is what the other reads. */
module EndToEnd {
  import opened Wire
  import opened Framing
  import opened WireContract
  import opened Net
  import opened RoundTrip
  import Client = ClientHandshake
  import opened ClientLaws
  import Spec = ServerSpec
  import ServerConn
  import Session

  /** The method the client offers, the identity the server gives it. */
  datatype Admission = Admitted(chosen: Byte, identity: Option<Bytes>) | Denied(o: Spec.Outcome)

  /** What the server makes of the client: its configuration against the client's. */
  function Admit(client: Client.Config, server: Spec.Config, target: Addr): Admission
    requires client.Usable() && !client.offerNoAuth && Canonical(target)
  {
    if client.socks4 then
      if !server.v4 then Denied(Spec.Outcome(Spec.Rejected(Greeting, BadField(Greeting, VER)), [], false))
      else
        var id := if server.userID.Some? then server.userID.value(client.userID) else None;
        if server.userID.None? && METHOD_NO_AUTH in server.methods then Admitted(METHOD_NO_AUTH, None)
        else if id.Some? then Admitted(METHOD_USER_PASS, id)
        else
          Denied(Spec.Outcome(Spec.Rejected(Request4, if server.userID.Some? then BadCredentials else NotPermitted),
                              [0, 0x5B, 0, 0, 0, 0, 0, 0], true))
    else if !server.v5 then Denied(Spec.Outcome(Spec.Rejected(Greeting, BadField(Greeting, VER)), [], false))
    else if client.Offered() !in server.methods then
      Denied(Spec.Outcome(Spec.Rejected(Greeting, NoCommonMethod), [VERSION5, METHOD_NO_ACCEPTABLE], true))
    else if client.auth.None? then Admitted(METHOD_NO_AUTH, None)
    else
      match server.login(client.auth.value)
      case None => Denied(Spec.Outcome(Spec.Rejected(UserPass, BadCredentials),
                                       [VERSION5, METHOD_USER_PASS, USER_PASS_VERSION, 1], true))
      case Some(id) => Admitted(METHOD_USER_PASS, Some(id))
  }

  /** What the server writes before the reply to an admitted client. */
  function Answers(client: Client.Config): Bytes {
    if client.socks4 then []
    else if client.auth.Some? then [VERSION5, METHOD_USER_PASS, USER_PASS_VERSION, 0]
    else [VERSION5, METHOD_NO_AUTH]
  }

  lemma ChooseOne(methods: seq<Byte>, m: Byte)
    ensures Spec.Choose(methods, [m]) == if m in methods then Some(m) else None
  {
  }

  /** The server, given the client's bytes and whatever follows them, takes exactly the client's
      command, address and credentials out of them, and leaves exactly what follows. */
  lemma ServerSees(client: Client.Config, server: Spec.Config, target: Addr, early: Bytes, fin: Error)
    requires client.Usable() && !client.offerNoAuth && Canonical(target) && client.Encodable(target)
    ensures Spec.HandshakeOutcome(server, client.Pipelined(target) + early, fin)
            == match Admit(client, server, target)
               case Denied(o) => o
               case Admitted(m, id) =>
                 var taken := Spec.Accepted(client.socks4, client.cmd, target, m, id);
                 Spec.Outcome(Spec.Admitted(taken, |client.Pipelined(target)|), Answers(client), false)
  {
    if client.socks4 {
      ServerSees4(client, server, target, early, fin);
    } else {
      ServerSees5(client, server, target, early, fin);
    }
  }

  lemma Rejected4()
    ensures Spec.ReplyBytes(true, REPLY4_REJECTED, ZERO_ADDR) == [0, 0x5B, 0, 0, 0, 0, 0, 0]
  {
  }

  lemma ServerSees4(client: Client.Config, server: Spec.Config, target: Addr, early: Bytes, fin: Error)
    requires client.Usable() && client.socks4 && Canonical(target) && client.Encodable(target)
    ensures var s := client.Pipelined(target) + early;
            Spec.HandshakeOutcome(server, s, fin)
            == match Admit(client, server, target)
               case Denied(o) => o
               case Admitted(m, id) =>
                 var taken := Spec.Accepted(true, client.cmd, target, m, id);
                 Spec.Outcome(Spec.Admitted(taken, |client.Pipelined(target)|), [], false)
  {
    hide ParseRequest4, AppendRequest4, Spec.ReplyBytes;
    Rejected4();
    var r := AppendRequest4([], client.cmd, target, client.userID);
    Request4RoundTrip([], client.cmd, target, client.userID, early);
    assert Added([], r) == r.out;
    StartsWith4(client.cmd, target, client.userID);
  }

  lemma StartsWith4(cmd: Byte, target: Addr, userID: Bytes)
    requires Canonical(target) && Encodable4(target, userID)
    ensures var out := AppendRequest4([], cmd, target, userID).out; out != [] && out[0] == VERSION4
  {
  }

  lemma SelectionSees(client: Client.Config, server: Spec.Config, rest: Bytes, fin: Error)
    requires !client.offerNoAuth
    ensures Spec.AuthOutcome(server, client.GreetingMsg() + rest, fin)
            == if client.Offered() !in server.methods
               then Spec.Refused(Greeting, NoCommonMethod, [VERSION5, METHOD_NO_ACCEPTABLE], true)
               else Spec.AfterSelection(client.Offered(), 3, Spec.SubNegotiation(server, client.Offered(), rest, fin))
  {
    hide Spec.SubNegotiation;
    var greeting, s := client.GreetingMsg(), client.GreetingMsg() + rest;
    GreetingRoundTrip([], [client.Offered()], rest);
    assert Added([], AppendGreeting([], [client.Offered()])) == greeting && |greeting| == 3;
    ChooseOne(server.methods, client.Offered());
    assert Spec.Drop(s, 3) == rest;
  }

  lemma LoginSees(client: Client.Config, server: Spec.Config, rest: Bytes, fin: Error)
    requires client.Usable() && client.auth.Some?
    ensures Spec.SubNegotiation(server, METHOD_USER_PASS, client.AuthMsg() + rest, fin)
            == Spec.OnCredentials(server, Ok(client.auth.value), |client.AuthMsg()|)
  {
    UserPassRoundTrip([], client.auth.value, rest);
    assert Added([], AppendUserPass([], client.auth.value)) == client.AuthMsg();
  }

  lemma RequestSees(client: Client.Config, target: Addr, m: Byte, id: Option<Bytes>, rest: Bytes, fin: Error)
    requires !client.socks4 && Canonical(target) && client.Encodable(target)
    ensures var req := client.RequestMsgFor(target);
            Spec.RequestOutcome(m, id, req + rest, fin)
            == Spec.Outcome(Spec.Admitted(Spec.Accepted(false, client.cmd, target, m, id), |req|), [], false)
  {
    RequestRoundTrip([], client.cmd, target, rest);
    assert Added([], AppendRequest([], client.cmd, target)) == client.RequestMsgFor(target);
  }

  /** Method selection and authentication on the client's bytes. */
  lemma AuthSees(client: Client.Config, server: Spec.Config, rest: Bytes, fin: Error)
    requires client.Usable() && !client.offerNoAuth && !client.socks4
    requires client.Offered() in server.methods
    ensures Spec.AuthOutcome(server, client.GreetingMsg() + (client.AuthMsg() + rest), fin)
            == Spec.AfterSelection(client.Offered(), 3,
                                   if client.auth.Some?
                                   then Spec.OnCredentials(server, Ok(client.auth.value), |client.AuthMsg()|)
                                   else Spec.LoggedIn(METHOD_NO_AUTH, None, 0, []))
  {
    hide Spec.AuthOutcome, Spec.SubNegotiation, Spec.AfterSelection, AppendUserPass, AppendGreeting;
    SelectionSees(client, server, client.AuthMsg() + rest, fin);
    if client.auth.Some? {
      LoginSees(client, server, rest, fin);
    } else {
      NoLogin(server, client.AuthMsg() + rest, fin);
    }
  }

  lemma LoggedInSees(client: Client.Config, target: Addr, m: Byte, id: Option<Bytes>, n: nat, out: Bytes,
                     s: Bytes, early: Bytes, fin: Error)
    requires !client.socks4 && Canonical(target) && client.Encodable(target)
    requires Spec.Drop(s, n) == client.RequestMsgFor(target) + early
    ensures Spec.OnAuth(Spec.LoggedIn(m, id, n, out), s, fin)
            == Spec.Outcome(Spec.Admitted(Spec.Accepted(false, client.cmd, target, m, id),
                                          n + |client.RequestMsgFor(target)|), out, false)
  {
    hide Spec.RequestOutcome, AppendRequest;
    RequestSees(client, target, m, id, early, fin);
    assert out + [] == out;
  }

  lemma Outcome5Sees(client: Client.Config, server: Spec.Config, target: Addr, early: Bytes, fin: Error)
    requires client.Usable() && !client.socks4 && !client.offerNoAuth && server.v5
    requires Canonical(target) && client.Encodable(target)
    ensures Spec.Outcome5(server, client.Pipelined(target) + early, fin)
            == match Admit(client, server, target)
               case Denied(o) => o
               case Admitted(m, id) =>
                 var taken := Spec.Accepted(false, client.cmd, target, m, id);
                 Spec.Outcome(Spec.Admitted(taken, |client.Pipelined(target)|), Answers(client), false)
  {
    hide Spec.AuthOutcome, Spec.OnAuth;
    hide Client.Config.Pipelined, Client.Config.GreetingMsg, Client.Config.AuthMsg, Client.Config.RequestMsgFor,
         Client.Config.Encodable, AppendMethodSelection, AppendUserPassStatus, Answers;
    var auth, req := client.AuthMsg(), client.RequestMsgFor(target);
    var s := client.Pipelined(target) + early;
    PipelinedParts(client, target, early);
    if client.Offered() in server.methods {
      AuthSees(client, server, req + early, fin);
      var id := GivenIdentity(client, server);
      var m := client.Offered();
      StatusBytes(client);
      LoggedInSees(client, target, m, id, 3 + |auth|, Answers(client), s, early, fin);
      if client.auth.Some? && id.None? {
        RefusedSees(server, Spec.AuthOutcome(server, s, fin), s, fin);
      }
    } else {
      SelectionSees(client, server, auth + (req + early), fin);
      RefusedSees(server, Spec.Refused(Greeting, NoCommonMethod, [VERSION5, METHOD_NO_ACCEPTABLE], true), s, fin);
    }
  }

  lemma StatusBytes(client: Client.Config)
    requires !client.socks4
    ensures var selection := AppendMethodSelection([], client.Offered());
            && selection + (if client.auth.Some? then AppendUserPassStatus([], 0) else []) == Answers(client)
            && selection + AppendUserPassStatus([], 1) == [VERSION5, client.Offered(), USER_PASS_VERSION, 1]
  {
  }

  lemma RefusedSees(server: Spec.Config, l: Spec.Login, s: Bytes, fin: Error)
    requires l.Refused?
    ensures Spec.OnAuth(l, s, fin) == Spec.Outcome(Spec.Rejected(l.stage, l.err), l.out, l.refusal)
  {
  }

  lemma PipelinedParts(client: Client.Config, target: Addr, early: Bytes)
    requires !client.socks4 && !client.offerNoAuth && Canonical(target) && client.Encodable(target)
    ensures var greeting, auth, req := client.GreetingMsg(), client.AuthMsg(), client.RequestMsgFor(target);
            var s := client.Pipelined(target) + early;
            && s == greeting + (auth + (req + early)) && |client.Pipelined(target)| == 3 + |auth| + |req|
            && Spec.Drop(s, 3 + |auth|) == req + early && (client.auth.None? ==> auth == [])
  {
    hide AppendRequest, AppendUserPass;
  }

  lemma ServerSees5(client: Client.Config, server: Spec.Config, target: Addr, early: Bytes, fin: Error)
    requires client.Usable() && !client.socks4 && !client.offerNoAuth && Canonical(target) && client.Encodable(target)
    ensures var s := client.Pipelined(target) + early;
            Spec.HandshakeOutcome(server, s, fin)
            == match Admit(client, server, target)
               case Denied(o) => o
               case Admitted(m, id) =>
                 var taken := Spec.Accepted(false, client.cmd, target, m, id);
                 Spec.Outcome(Spec.Admitted(taken, |client.Pipelined(target)|), Answers(client), false)
  {
    hide Spec.Outcome5, Spec.Outcome4, AppendRequest, AppendUserPass;
    assert (client.Pipelined(target) + early)[0] == VERSION5;
    if server.v5 {
      Outcome5Sees(client, server, target, early, fin);
    }
  }

  function GivenIdentity(client: Client.Config, server: Spec.Config): Option<Bytes> {
    if client.auth.Some? then server.login(client.auth.value) else None
  }

  lemma NoLogin(server: Spec.Config, s: Bytes, fin: Error)
    ensures Spec.SubNegotiation(server, METHOD_NO_AUTH, s, fin) == Spec.LoggedIn(METHOD_NO_AUTH, None, 0, [])
  {
  }

  // ---------------------------------------------------------- the other way

  /** The address as it goes out: SOCKS4 has only IPv4. */
  function BoundSent(socks4: bool, bound: Addr): Addr {
    if (socks4 && !bound.host.V4?) || !bound.IsValid() then Spec.ZERO_BOUND else bound
  }

  /** What a reply of n bytes says to the client. */
  function Reading(client: Client.Config, rep: Byte, bound: Addr, n: nat): Client.Outcome {
    var code, shown := Spec.CodeSent(client.socks4, rep), BoundSent(client.socks4, bound);
    if code != client.Success() then Client.Failed(client.ReplyStage(), ReplyRefused(code, shown))
    else Client.Established(shown, n)
  }

  /** What the first reply means to the client, which needs an address it can use. */
  function Reaction(client: Client.Config, rep: Byte, bound: Addr, n: nat): Client.Outcome {
    var r := Reading(client, rep, bound, n);
    if r.Established? && Client.BoundError(client, r.bound).Some? then
      Client.Failed(client.ReplyStage(), Client.BoundError(client, r.bound).value)
    else r
  }

  lemma SeenIn4(s: Bytes)
    requires ParseReply4(s).Complete?
    ensures SeenReply(s, 0) == Some(ParseReply4(s).value.rep)
  {
  }

  lemma ReplySeen4(client: Client.Config, rep: Byte, bound: Addr, tail: Bytes, fin: Error)
    requires Canonical(bound) && client.socks4
    ensures var reply := Spec.ReplyBytes(true, rep, bound);
            Client.NextReplyOutcome(client, reply + tail, fin) == Reading(client, rep, bound, |reply|)
  {
    hide ParseReply4, AppendReply4, SeenReply;
    var code := Spec.CodeSent(true, rep);
    var b := if bound.host.V4? then bound else ZERO_ADDR;
    Reply4RoundTrip([], code, b, tail);
    assert Added([], AppendReply4([], code, b)) == AppendReply4([], code, b).out == Spec.ReplyBytes(true, rep, bound);
    SeenIn4(Spec.ReplyBytes(true, rep, bound) + tail);
    Reply4Length(code, b);
  }

  lemma Reply4Length(code: Byte, b: Addr)
    requires Canonical(b) && (b.host.V4? || b.host.NoHost?)
    ensures |AppendReply4([], code, b).out| == 8
  {
  }

  lemma ReplySeen5(client: Client.Config, rep: Byte, bound: Addr, tail: Bytes, fin: Error)
    requires Canonical(bound) && !client.socks4
    ensures var reply := Spec.ReplyBytes(false, rep, bound);
            Client.NextReplyOutcome(client, reply + tail, fin) == Reading(client, rep, bound, |reply|)
  {
    hide ParseReply, AppendReply, SeenReply;
    var shown := BoundSent(false, bound);
    ReplyRoundTrip([], rep, shown, tail, client.cmd);
    assert Added([], AppendReply([], rep, shown)) == AppendReply([], rep, shown).out == Spec.ReplyBytes(false, rep, bound);
  }

  lemma NextReplySeen(client: Client.Config, rep: Byte, bound: Addr, tail: Bytes, fin: Error)
    requires Canonical(bound)
    ensures var reply := Spec.ReplyBytes(client.socks4, rep, bound);
            Client.NextReplyOutcome(client, reply + tail, fin) == Reading(client, rep, bound, |reply|)
  {
    if client.socks4 {
      ReplySeen4(client, rep, bound, tail, fin);
    } else {
      ReplySeen5(client, rep, bound, tail, fin);
    }
  }

  lemma ReplySeen(client: Client.Config, rep: Byte, bound: Addr, tail: Bytes, fin: Error)
    requires Canonical(bound)
    ensures var reply := Spec.ReplyBytes(client.socks4, rep, bound);
            Client.ReplyOutcome(client, reply + tail, fin) == Reaction(client, rep, bound, |reply|)
  {
    hide Client.NextReplyOutcome, Client.BoundError, Spec.ReplyBytes, Reading;
    NextReplySeen(client, rep, bound, tail, fin);
    ReadingFails(client, rep, bound, |Spec.ReplyBytes(client.socks4, rep, bound)|);
  }

  lemma ReadingFails(client: Client.Config, rep: Byte, bound: Addr, n: nat)
    ensures var r := Reading(client, rep, bound, n); r.Failed? ==> r.stage == client.ReplyStage()
  {
  }

  /** An admitted client reads the server's reply as it was meant, and not a byte of what follows. */
  lemma ClientSees(client: Client.Config, rep: Byte, bound: Addr, tail: Bytes, fin: Error)
    requires client.Usable() && !client.offerNoAuth && Canonical(bound)
    ensures var stream := Answers(client) + Spec.ReplyBytes(client.socks4, rep, bound);
            Client.RepliesOutcome(client, stream + tail, fin) == Reaction(client, rep, bound, |stream|)
  {
    hide Client.ReplyOutcome, Spec.ReplyBytes;
    var reply, answers := Spec.ReplyBytes(client.socks4, rep, bound), Answers(client);
    ReplySeen(client, rep, bound, tail, fin);
    var s := answers + reply + tail;
    assert s == answers + (reply + tail);
    if client.socks4 {
      assert s == reply + tail;
    } else if client.auth.Some? {
      assert s[2..][2..] == reply + tail;
    } else {
      assert s[2..] == reply + tail;
    }
  }

  lemma NothingSent(client: Client.Config, fin: Error)
    ensures var stage := if client.socks4 then Reply4 else MethodSelection;
            Client.RepliesOutcome(client, [], fin) == Client.Failed(stage, StreamEnd(stage, fin))
  {
  }

  lemma RejectionSent(client: Client.Config, fin: Error)
    requires client.socks4
    ensures Client.RepliesOutcome(client, Spec.ReplyBytes(true, REPLY4_REJECTED, ZERO_ADDR), fin)
            == Client.Failed(Reply4, ReplyRefused(REPLY4_REJECTED, Spec.ZERO_BOUND))
  {
    hide Client.ReplyOutcome, Spec.ReplyBytes;
    ReplySeen(client, REPLY4_REJECTED, ZERO_ADDR, [], fin);
    var sent := Spec.ReplyBytes(true, REPLY4_REJECTED, ZERO_ADDR);
    assert sent + [] == sent;
  }

  lemma SelectionSent(client: Client.Config, fin: Error)
    requires client.Usable() && !client.socks4
    ensures Client.RepliesOutcome(client, [VERSION5, METHOD_NO_ACCEPTABLE], fin)
            == Client.Failed(MethodSelection, MethodRefused(METHOD_NO_ACCEPTABLE))
    ensures client.auth.Some? && !client.offerNoAuth ==>
              Client.RepliesOutcome(client, [VERSION5, METHOD_USER_PASS, USER_PASS_VERSION, 1], fin)
              == Client.Failed(UserPassStatus, AuthRejected(1))
  {
    hide Client.ReplyOutcome;
  }

  /** Whether a first reply means to the client what it means to the server: a success must have a code
      that is one to the client, and an address that the client's command can use. */
  predicate Understood(client: Client.Config, rep: Byte, bound: Addr) {
    rep == REPLY_SUCCEEDED || rep == REPLY4_GRANTED ==>
      && (client.socks4 || rep != REPLY4_GRANTED)
      && UsableFor(client.cmd, BoundSent(client.socks4, bound))
  }

  /** The outcome of a first reply: refused with its code and address, refused for its address, or
      the handshake is done. */
  lemma Reacts(client: Client.Config, rep: Byte, bound: Addr, n: nat)
    ensures var stage := if client.socks4 then Reply4 else Reply;
            var shown := if (client.socks4 && !bound.host.V4?) || bound.host.NoHost? then Addr(V4([0, 0, 0, 0]), 0) else bound;
            && BoundSent(client.socks4, bound) == shown
            && match Reaction(client, rep, bound, n)
               case Established(b, k) =>
                 && b == shown && k == n && UsableFor(client.cmd, shown)
                 && (rep == REPLY_SUCCEEDED || (client.socks4 && rep == REPLY4_GRANTED))
               case Failed(at, e) =>
                 && at == stage
                 && if rep == REPLY_SUCCEEDED || (client.socks4 && rep == REPLY4_GRANTED)
                    then !UsableFor(client.cmd, shown)
                         && e == if client.cmd == 2 || client.cmd == 3 then BadField(stage, PORT) else BadField(Reply, ATYP)
                    else e.ReplyRefused? && e.bound == shown && (!client.socks4 ==> e.rep == rep)
  {
  }

  /** Server and client agree on whether a first reply is a success exactly if it is understood. */
  lemma AgreeOnSuccess(client: Client.Config, rep: Byte, bound: Addr, n: nat)
    ensures (Spec.IsSuccess(rep) <==> Reaction(client, rep, bound, n).Established?) <==> Understood(client, rep, bound)
  {
  }

  /** Two that are not: SOCKS4's success code to a SOCKS5 client, and to one that asked for BIND or UDP
      ASSOCIATE a success without an address. The server's tunnel is open, the client has failed. */
  lemma Misunderstood(client: Client.Config, bound: Addr, n: nat)
    ensures !client.socks4 ==>
              && Spec.IsSuccess(REPLY4_GRANTED)
              && Reaction(client, REPLY4_GRANTED, bound, n)
                 == Client.Failed(Reply, ReplyRefused(REPLY4_GRANTED, BoundSent(false, bound)))
    ensures client.cmd == CMD_BIND || client.cmd == CMD_UDP_ASSOCIATE ==>
              && Spec.IsSuccess(REPLY_SUCCEEDED)
              && Reaction(client, REPLY_SUCCEEDED, ZERO_ADDR, n)
                 == Client.Failed(client.ReplyStage(), BadField(client.ReplyStage(), PORT))
  {
  }

  /** How a client fails that the server turned away with err. */
  function Refusal(client: Client.Config, err: Error, fin: Error): Failure {
    match err
    case NoCommonMethod => Failure(MethodSelection, MethodRefused(METHOD_NO_ACCEPTABLE))
    case BadField(_, _) =>
      var stage := if client.socks4 then Reply4 else MethodSelection;
      Failure(stage, StreamEnd(stage, fin))
    case _ =>
      if client.socks4 then Failure(Reply4, ReplyRefused(REPLY4_REJECTED, Spec.ZERO_BOUND))
      else Failure(UserPassStatus, AuthRejected(1))
  }

  // -------------------------------------------------------------- both run

  lemma DeniedLength(client: Client.Config, server: Spec.Config, target: Addr)
    requires client.Usable() && !client.offerNoAuth && Canonical(target)
    ensures var a := Admit(client, server, target); a.Denied? ==> |a.o.out| <= 8 && a.o.verdict.Rejected?
  {
  }

  lemma AnswersLength(client: Client.Config)
    ensures |Answers(client)| <= 4
  {
  }

  /** The server on the client's bytes, cut into reads in any way. */
  method Accept(client: Client.Config, server: Spec.Config, target: Addr, early: Bytes, room: nat)
    returns (sc: ServerConn.ServerConn, fault: Option<Failure>)
    requires client.Usable() && !client.offerNoAuth && server.Usable() && room >= 8
    requires Canonical(target) && client.Encodable(target)
    ensures fresh(sc) && fresh(sc.nc) && fresh(sc.inb) && fresh(sc.inb.data) && fresh(sc.outb) && fresh(sc.outb.data)
    ensures sc.Valid() && sc.lastHi == 0 && sc.outb.queued == [] && sc.writeErr.None?
    ensures match Admit(client, server, target)
            case Denied(o) => fault == Some(Failure(o.verdict.stage, o.verdict.err)) && sc.nc.sent == o.out
            case Admitted(m, id) =>
              && fault.None? && sc.nc.sent == Answers(client) && sc.Rest() == early
              && sc.nc.room == room - |Answers(client)|
              && sc.req == Some(Spec.Accepted(client.socks4, client.cmd, target, m, id))
  {
    hide Admit, Answers, Spec.HandshakeOutcome, Client.Config.Pipelined, Client.Config.Encodable;
    var stream := client.Pipelined(target) + early;
    AnswersLength(client);
    ServerSees(client, server, target, early, EOF);
    DeniedLength(client, server, target);
    sc, fault := ServeBytes(server, stream, room, Spec.HandshakeOutcome(server, stream, EOF));
    assert stream[|client.Pipelined(target)|..] == early;
  }

  method ServeBytes(server: Spec.Config, stream: Bytes, room: nat, ghost o: Spec.Outcome)
    returns (sc: ServerConn.ServerConn, fault: Option<Failure>)
    requires server.Usable() && o == Spec.HandshakeOutcome(server, stream, EOF) && room >= |o.out|
    ensures fresh(sc) && fresh(sc.nc) && fresh(sc.inb) && fresh(sc.inb.data) && fresh(sc.outb) && fresh(sc.outb.data)
    ensures sc.Valid() && sc.lastHi == 0 && sc.outb.queued == [] && sc.writeErr.None?
    ensures sc.nc.sent == o.out && sc.nc.room == room - |o.out| && sc.nc.input == stream
    ensures match o.verdict
            case Rejected(stage, e) => fault == Some(Failure(stage, e))
            case Admitted(rq, n) => fault.None? && sc.req == Some(rq) && sc.start == n
  {
    hide Spec.HandshakeOutcome;
    var nc := new NetConn(stream, EOF, room);
    sc := new ServerConn.ServerConn(nc, server);
    fault := sc.Handshake(stream);
    assert [] + o.out == o.out;
  }

  /** The client on the server's bytes, cut into reads in any way. */
  method ReadAnswers(client: Client.Config, target: Addr, rep: Byte, bound: Addr, tail: Bytes, fin: ReadError)
    returns (c: NetConn, h: Client.Handshake, he: Option<Failure>, shown: Addr)
    requires client.Usable() && !client.offerNoAuth
    requires Canonical(target) && client.Encodable(target) && Canonical(bound)
    ensures c.Valid() && fresh(c) && fresh(h) && fresh(h.rbuf)
    ensures h.cfg == client && h.Ready(c) && (he.None? ==> h.Start(c) == c.pos) && c.fin == fin
    ensures match Reaction(client, rep, bound, 0)
            case Failed(stage, e) => he == Some(Failure(stage, e))
            case Established(b, _) => he.None? && shown == b && c.Unread() == tail
  {
    hide Spec.ReplyBytes, Client.RepliesOutcome, Client.Config.Encodable, Client.Config.Pipelined, Answers;
    var answers := Answers(client) + Spec.ReplyBytes(client.socks4, rep, bound);
    h := new Client.Handshake(client, target);
    c := new NetConn(answers + tail, fin, 0);
    ClientSees(client, rep, bound, tail, fin);
    he := h.ReadReplies(c);
    shown := h.bound;
    assert (answers + tail)[|answers|..] == tail;
  }

  /** Both machines for a client that is turned away: it learns what the server held against it. */
  method Refuse(client: Client.Config, server: Spec.Config, target: Addr, early: Bytes, fin: ReadError)
    returns (c: NetConn, fault: Option<Failure>, he: Option<Failure>)
    requires client.Usable() && !client.offerNoAuth && server.Usable()
    requires Canonical(target) && client.Encodable(target) && Admit(client, server, target).Denied?
    ensures c.Valid() && fresh(c)
    ensures var verdict := Admit(client, server, target).o.verdict;
            && fault == Some(Failure(verdict.stage, verdict.err))
            && he == Some(Refusal(client, verdict.err, fin))
  {
    hide Spec.ReplyBytes, Client.RepliesOutcome, Client.Config.Encodable, Client.Config.Pipelined, Answers;
    hide ServerConn.ServerConn.Valid;
    var sc;
    sc, fault := Accept(client, server, target, early, 8);
    c := new NetConn(sc.nc.sent, fin, 0);
    if client.socks4 {
      Rejected4();
      RejectionSent(client, fin);
    } else {
      SelectionSent(client, fin);
    }
    NothingSent(client, fin);
    var h := new Client.Handshake(client, target);
    he := h.ReadReplies(c);
  }

  /** BIND: the client reads the first reply, then the second, and not a byte of the tunnel. */
  method ReadBindAnswers(client: Client.Config, target: Addr, listening: Addr, rep: Byte, peer: Addr, tail: Bytes,
                         fin: ReadError)
    returns (c: NetConn, he: Option<Failure>, shown: Addr, res: Result<Addr>)
    requires client.Usable() && !client.offerNoAuth && client.cmd == CMD_BIND
    requires Canonical(target) && client.Encodable(target) && Canonical(listening) && Canonical(peer)
    ensures c.Valid()
    ensures BoundSent(client.socks4, listening).port != 0 ==> he.None? && shown == BoundSent(client.socks4, listening)
    ensures match Reaction(client, REPLY_SUCCEEDED, listening, 0)
            case Failed(stage, e) => he == Some(Failure(stage, e))
            case Established(b, _) =>
              && he.None? && shown == b
              && match Reading(client, rep, peer, 0)
                 case Failed(_, e) => res == Err(e)
                 case Established(p, _) => res == Ok(p) && c.Unread() == tail
  {
    hide Spec.ReplyBytes, Client.NextReplyOutcome, Client.Config.Encodable;
    var second := Spec.ReplyBytes(client.socks4, rep, peer);
    var h;
    c, h, he, shown := ReadAnswers(client, target, REPLY_SUCCEEDED, listening, second + tail, fin);
    res := Ok(shown);
    if he.None? {
      NextReplySeen(client, rep, peer, tail, fin);
      res := h.ReadSecondReply(c);
      assert (second + tail)[|second|..] == tail;
    }
  }

  /** The server's side of it: what the handler got, and what its one reply did. */
  method Answer(client: Client.Config, server: Spec.Config, target: Addr, early: Bytes, rep: Byte, bound: Addr)
    returns (s: Session.Session)
    requires client.Usable() && !client.offerNoAuth && server.Usable()
    requires Canonical(target) && client.Encodable(target) && Canonical(bound)
    requires Admit(client, server, target).Admitted?
    ensures s.Valid() && s.Rest() == early && (s.tunnel <==> Spec.IsSuccess(rep))
    ensures s.sc.nc.sent == Answers(client) + Spec.ReplyBytes(client.socks4, rep, bound)
    ensures var a := Admit(client, server, target);
            s.sc.req == Some(Spec.Accepted(client.socks4, client.cmd, target, a.chosen, a.identity))
  {
    hide Admit, Answers, Spec.ReplyBytes, Client.Config.Encodable, Client.Config.Pipelined;
    hide Session.Orderly, Session.Wrote, Session.Session.Placed, Session.Session.Replying;
    var sc, fault := Accept(client, server, target, early, 8 + MAX_REPLY);
    s := new Session.Session(sc);
    AnswersLength(client);
    Spec.ReplyBytesLength(client.socks4, rep, bound);
    var err := s.Reply(rep, bound);
  }

  /** A connection from both sides: what the handler got, what the client made of the handler's
      reply, and the bytes each side has left for the tunnel. */
  method Connect(client: Client.Config, server: Spec.Config, target: Addr, early: Bytes, rep: Byte, bound: Addr, tail: Bytes)
    returns (s: Session.Session, c: NetConn, he: Option<Failure>, shown: Addr)
    requires client.Usable() && !client.offerNoAuth && server.Usable()
    requires Canonical(target) && client.Encodable(target) && Canonical(bound)
    requires Admit(client, server, target).Admitted?
    ensures s.Valid() && s.Rest() == early && c.Valid()
    ensures s.sc.nc.sent == Answers(client) + Spec.ReplyBytes(client.socks4, rep, bound)
    ensures var a := Admit(client, server, target);
            s.sc.req == Some(Spec.Accepted(client.socks4, client.cmd, target, a.chosen, a.identity))
    ensures match Reaction(client, rep, bound, 0)
            case Failed(stage, e) => he == Some(Failure(stage, e))
            case Established(b, _) => he.None? && shown == b && c.Unread() == tail
    ensures s.tunnel <==> Spec.IsSuccess(rep)
    ensures (s.tunnel <==> he.None?) <==> Understood(client, rep, bound)
  {
    hide Admit, Reaction, Understood, Answers, Spec.ReplyBytes, Client.Config.Encodable, Session.Session.Valid;
    s := Answer(client, server, target, early, rep, bound);
    var h;
    c, h, he, shown := ReadAnswers(client, target, rep, bound, tail, EOF);
    AgreeOnSuccess(client, rep, bound, 0);
  }

  /** Whether BIND's two replies mean to the client what they mean to the server. It is the address in
      the first that counts, and the code in the second, whose address the client takes as it is. */
  predicate UnderstoodBind(client: Client.Config, listening: Addr, rep: Byte) {
    rep == REPLY_SUCCEEDED || rep == REPLY4_GRANTED ==>
      (client.socks4 || rep != REPLY4_GRANTED) && BoundSent(client.socks4, listening).port != 0
  }

  lemma AgreeOnBind(client: Client.Config, listening: Addr, rep: Byte, peer: Addr)
    requires client.Usable() && client.cmd == CMD_BIND
    ensures Reaction(client, REPLY_SUCCEEDED, listening, 0).Established? <==> BoundSent(client.socks4, listening).port != 0
    ensures (Spec.IsSuccess(rep)
             <==> Reaction(client, REPLY_SUCCEEDED, listening, 0).Established? && Reading(client, rep, peer, 0).Established?)
            <==> UnderstoodBind(client, listening, rep)
    ensures var r := Reading(client, rep, peer, 0); r.Established? ==> r.bound == BoundSent(client.socks4, peer)
  {
  }

  /** BIND from both sides: the handler says where it listens, then who came; both replies reach the
      client in turn. Both have a tunnel or neither exactly if the replies are understood. */
  method ConnectBind(client: Client.Config, server: Spec.Config, target: Addr, early: Bytes, listening: Addr, rep: Byte,
                     peer: Addr, tail: Bytes)
    returns (s: Session.Session, c: NetConn, he: Option<Failure>, shown: Addr, res: Result<Addr>)
    requires client.Usable() && !client.offerNoAuth && server.Usable() && client.cmd == CMD_BIND
    requires Canonical(target) && client.Encodable(target) && Canonical(listening) && Canonical(peer)
    requires Admit(client, server, target).Admitted?
    ensures s.Valid() && s.Rest() == early && c.Valid()
    ensures s.sc.nc.sent == Answers(client) + Spec.ReplyBytes(client.socks4, REPLY_SUCCEEDED, listening)
                            + Spec.ReplyBytes(client.socks4, rep, peer)
    ensures he.None? <==> BoundSent(client.socks4, listening).port != 0
    ensures he.None? ==> shown == BoundSent(client.socks4, listening)
    ensures he.None? && res.Ok? ==> res.value == BoundSent(client.socks4, peer) && c.Unread() == tail
    ensures s.tunnel <==> Spec.IsSuccess(rep)
    ensures (s.tunnel <==> he.None? && res.Ok?) <==> UnderstoodBind(client, listening, rep)
  {
    hide Admit, Reaction, Reading, UnderstoodBind, BoundSent, Answers;
    hide Spec.ReplyBytes, Spec.IsSuccess, Client.Config.Encodable, Client.Config.Pipelined;
    hide Session.Orderly, Session.Wrote, Session.Session.Placed, Session.Session.Replying;
    var sc, fault := Accept(client, server, target, early, 8 + 2 * MAX_REPLY);
    s := new Session.Session(sc);
    AnswersLength(client);
    Spec.ReplyBytesLength(client.socks4, REPLY_SUCCEEDED, listening);
    Spec.ReplyBytesLength(client.socks4, rep, peer);
    var first := s.ReplyListening(listening);
    var err := s.Reply(rep, peer);
    c, he, shown, res := ReadBindAnswers(client, target, listening, rep, peer, tail, EOF);
    AgreeOnBind(client, listening, rep, peer);
  }

  /** BIND answered with one reply instead of two: what the client takes for the second is the tunnel's
      first bytes, so that its error or its peer is whatever those say. */
  method ConnectBindOnce(client: Client.Config, server: Spec.Config, target: Addr, early: Bytes, rep: Byte, bound: Addr,
                         tail: Bytes)
    returns (s: Session.Session, c: NetConn, he: Option<Failure>, res: Result<Addr>)
    requires client.Usable() && !client.offerNoAuth && server.Usable() && client.cmd == CMD_BIND
    requires Canonical(target) && client.Encodable(target) && Canonical(bound)
    requires Admit(client, server, target).Admitted?
    ensures s.Valid() && c.Valid() && (s.tunnel <==> Spec.IsSuccess(rep))
    ensures (s.tunnel <==> he.None? && res.Ok?)
            <==> (Spec.IsSuccess(rep) ==>
                    Understood(client, rep, bound) && Client.NextReplyOutcome(client, tail, EOF).Established?)
    ensures tail == [] && Spec.IsSuccess(rep) && Understood(client, rep, bound) ==>
              s.tunnel && he.None? && res == Err(StreamEnd(client.ReplyStage(), EOF))
  {
    hide Admit, Reaction, Spec.ReplyBytes, Client.NextReplyOutcome, Client.BoundError, BoundSent;
    hide Client.Config.Encodable, Session.Session.Valid;
    s := Answer(client, server, target, early, rep, bound);
    var h, shown;
    c, h, he, shown := ReadAnswers(client, target, rep, bound, tail, EOF);
    AgreeOnSuccess(client, rep, bound, 0);
    res := Ok(shown);
    if he.None? {
      NothingFollows(client);
      res := h.ReadSecondReply(c);
    }
  }

  lemma NothingFollows(client: Client.Config)
    ensures Client.NextReplyOutcome(client, [], EOF)
            == Client.Failed(client.ReplyStage(), StreamEnd(client.ReplyStage(), EOF))
  {
  }

  // --------------------------------------------------------------- two modes

  lemma ReplyInEitherMode(cfg: Client.Config, sequential: bool, s: Bytes, fin: Error)
    ensures Client.ReplyOutcome(cfg.(sequential := sequential), s, fin) == Client.ReplyOutcome(cfg, s, fin)
  {
    hide ParseReply, ParseReply4, SeenReply;
    assert Client.FinalReplyParser(cfg.(sequential := sequential)) == Client.FinalReplyParser(cfg);
  }

  lemma ModeIrrelevant(cfg: Client.Config, sequential: bool, s: Bytes, fin: Error)
    ensures Client.RepliesOutcome(cfg.(sequential := sequential), s, fin) == Client.RepliesOutcome(cfg, s, fin)
  {
    hide Client.ReplyOutcome;
    ReplyInEitherMode(cfg, sequential, s, fin);
    if |s| >= 2 {
      ReplyInEitherMode(cfg, sequential, s[2..], fin);
      if |s| >= 4 {
        ReplyInEitherMode(cfg, sequential, s[2..][2..], fin);
      }
    }
  }

  /** The modes differ in timing only: on the same replies they end the same way, with the same
      error or the same address, and a handshake that succeeds wrote and read the same bytes. */
  method BothModes(cfg: Client.Config, target: Addr, replies: Bytes, fin: ReadError, room: nat)
    returns (a: NetConn, b: NetConn, ha: Client.Handshake, hb: Client.Handshake,
             ea: Option<Failure>, eb: Option<Failure>)
    requires cfg.Usable() && !cfg.sequential && !cfg.offerNoAuth && !cfg.socks4
    requires Canonical(target) && cfg.Encodable(target) && room >= |cfg.Pipelined(target)|
    ensures ea == eb
    ensures ea.None? ==> ha.bound == hb.bound && a.pos == b.pos && a.sent == b.sent == cfg.Pipelined(target)
  {
    hide Client.RepliesOutcome;
    var sequential := cfg.(sequential := true);
    a := new NetConn(replies, fin, room);
    b := new NetConn(replies, fin, room);
    ha := new Client.Handshake(cfg, target);
    hb := new Client.Handshake(sequential, target);
    assert sequential.Pipelined(target) == cfg.Pipelined(target);
    ModeIrrelevant(cfg, true, replies, fin);
    ea := ha.Run(a);
    eb := hb.Run(b);
    assert [] + cfg.Pipelined(target) == cfg.Pipelined(target);
  }

  /** A server connection from its first byte to the handler's return: of an admitted client's bytes
      the handler is given, once and in order, those after the request. */
  method Serve(nc: NetConn, server: Spec.Config, ops: seq<Session.Op>)
    returns (given: Bytes, broke: bool, fault: Option<Failure>, s: Session.Session?)
    requires nc.Valid() && nc.pos == 0 && nc.sent == [] && server.Usable()
    requires forall i :: 0 <= i < |ops| ==> ops[i].Sane()
    modifies nc
    ensures var o := Spec.HandshakeOutcome(server, nc.input, nc.fin);
            if s != null then
              && o.verdict.Admitted? && o.verdict.n <= |nc.input| && given <= nc.input[o.verdict.n..]
              && s.sc.nc == nc && s.Valid() && (!broke ==> nc.input[o.verdict.n..] == given + s.Rest())
              && Session.Orderly(s.log, s.bind, s.listening, s.replied) && (s.done ==> s.replied)
              && Session.Wrote(s.sc.written, o.out, s.socks4, s.log)
              && if broke then exists i :: 0 <= i < |ops| && ops[i].WriteTo?
                 else forall i :: 0 <= i < |ops| ==> (ops[i].Reply? ==> s.replied) && (ops[i].Return? ==> s.done)
            else given == [] && fault.Some? &&
                 (old(nc.room) >= |o.out| ==>
                    o.verdict == Spec.Rejected(fault.value.stage, fault.value.err) && nc.sent == o.out)
  {
    hide Spec.HandshakeOutcome, Session.Orderly, Session.Wrote;
    hide Session.Session.Valid, ServerConn.ServerConn.Valid;
    ghost var o := Spec.HandshakeOutcome(server, nc.input, nc.fin);
    given, broke, s := [], false, null;
    var sc := new ServerConn.ServerConn(nc, server);
    fault := sc.Handshake(nc.input);
    assert [] + o.out == o.out;
    if fault.Some? {
      return;
    }
    s := new Session.Session(sc);
    given, broke := s.Run(ops);
    Slices(nc.input, s.base, s.from, |nc.input|);
  }
}
