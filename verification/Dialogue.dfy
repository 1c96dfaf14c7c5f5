/** A client that sends one message at a time and a server, each waiting for the other: however their
    bytes arrive, neither ever waits for bytes that the other keeps back (go/socks0/handshake.go,
    runSequential, and go/socks0/server/conn.go, fill). */
module Dialogue {
  import opened Wire
  import opened Framing
  import opened WireContract
  import opened Net
  import opened RoundTrip
  import opened EndToEnd
  import Client = ClientHandshake
  import Spec = ServerSpec
  import ServerConn
  import Session

  // ------------------------------------------------- nothing is taken back

  /** A message that is not there in full is the only reason for a different outcome with more bytes. */
  lemma MessageGrows<T(!new)>(p: Parser<T>, max: nat, stage: Stage, s: Bytes, more: Bytes)
    requires Framed(p, max)
    ensures || p(s + more) == p(s)
            || (p(s).Incomplete? && MessageOutcome(p, s, stage, EOF) == Err(StreamEnd(stage, EOF)))
    ensures p(s).Complete? ==> p(s).n <= |s| && (s + more)[p(s).n..] == s[p(s).n..] + more
  {
    if !p(s).Incomplete? {
      TailIgnored(p, max, s, more);
    }
  }

  lemma RequestGrows(m: Byte, id: Option<Bytes>, s: Bytes, more: Bytes, fin: Error)
    ensures Spec.RequestOutcome(m, id, s, EOF).out <= Spec.RequestOutcome(m, id, s + more, fin).out
  {
    hide Framed, ParseRequest, Spec.ReplyBytes;
    RequestFramed();
    MessageGrows(RequestParser(), MAX_REPLY, Request, s, more);
  }

  /** With more bytes a login is the same, or goes on from where it waited. */
  ghost predicate GoesOn(l: Spec.Login, m: Spec.Login, s: Bytes) {
    if l.LoggedIn? then m == l && l.n <= |s| else m == l || l.out <= m.out
  }

  lemma SubNegotiationGrows(cfg: Spec.Config, m: Byte, s: Bytes, more: Bytes, fin: Error)
    ensures GoesOn(Spec.SubNegotiation(cfg, m, s, EOF), Spec.SubNegotiation(cfg, m, s + more, fin), s)
  {
    hide Framed, ParseUserPass;
    UserPassFramed();
    MessageGrows(UserPassParser(), MAX_USER_PASS, Auth, s, more);
  }

  lemma AuthGrows(cfg: Spec.Config, s: Bytes, more: Bytes, fin: Error)
    ensures GoesOn(Spec.AuthOutcome(cfg, s, EOF), Spec.AuthOutcome(cfg, s + more, fin), s)
  {
    hide Framed, ParseGreeting, Spec.SubNegotiation, Spec.Choose;
    GreetingFramed();
    MessageGrows(GreetingParser(), MAX_GREETING, Greeting, s, more);
    if ParseGreeting(s).Complete? {
      var n, chosen := ParseGreeting(s).n, Spec.Choose(cfg.methods, ParseGreeting(s).value);
      if chosen.Some? {
        SubNegotiationGrows(cfg, chosen.value, s[n..], more, fin);
      }
    }
  }

  /** What a server sends on a stream that ends is what it sends first on any stream that goes on. */
  lemma ServerGoesOn(cfg: Spec.Config, s: Bytes, more: Bytes, fin: Error)
    ensures Spec.HandshakeOutcome(cfg, s, EOF).out <= Spec.HandshakeOutcome(cfg, s + more, fin).out
  {
    hide Spec.AuthOutcome, Spec.RequestOutcome, Spec.Authorize4, Spec.ReplyBytes, Framed, ParseRequest4;
    if s != [] && s[0] == VERSION5 && cfg.v5 {
      AuthGrows(cfg, s, more, fin);
      var l := Spec.AuthOutcome(cfg, s, EOF);
      if l.LoggedIn? {
        RequestGrows(l.chosen, l.identity, s[l.n..], more, fin);
        assert (s + more)[l.n..] == s[l.n..] + more;
      }
    } else if s != [] && s[0] == VERSION4 && cfg.v4 {
      Request4Framed();
      MessageGrows(Request4Parser(), MAX_REQUEST4, Request4, s, more);
    }
  }

  lemma SentAfterGoesOn(cfg: Client.Config, target: Addr, m: Byte, s: Bytes, more: Bytes, fin: Error)
    requires Canonical(target)
    ensures cfg.SentAfter(target, m, s, EOF) <= cfg.SentAfter(target, m, s + more, fin)
  {
    hide Framed, Client.ParseAuthReply, Client.Config.AuthMsg, Client.Config.RequestMsgFor;
    Client.AuthReplyFramed();
    MessageGrows(Client.AuthReplyParser(), 2, UserPassStatus, s, more);
  }

  /** The same of a client. */
  lemma ClientGoesOn(cfg: Client.Config, target: Addr, s: Bytes, more: Bytes, fin: Error)
    requires Canonical(target)
    ensures cfg.SentOn(target, s, EOF) <= cfg.SentOn(target, s + more, fin)
  {
    hide Framed, Client.Config.GreetingMsg, Client.Config.SentAfter;
    MethodSelectionFramed();
    MessageGrows(SelectionParser(), 2, MethodSelection, s, more);
    if |s| >= 2 {
      assert (s + more)[2..] == s[2..] + more;
      SentAfterGoesOn(cfg, target, s[1], s[2..], more, fin);
    }
  }

  // ------------------------------------------------- what they settle on

  /** A client that sends its messages one at a time. */
  predicate Waits(client: Client.Config, target: Addr) {
    client.Usable() && client.sequential && !client.socks4 && Canonical(target) && client.Encodable(target)
  }

  function Offer(client: Client.Config): Bytes {
    if client.offerNoAuth then [client.Offered(), METHOD_NO_AUTH] else [client.Offered()]
  }

  /** What the server makes of a client that may offer two methods. */
  function Settle(client: Client.Config, server: Spec.Config): Admission {
    if !server.v5 then Denied(Spec.Outcome(Spec.Rejected(Greeting, BadField(Greeting, VER)), [], false))
    else
      match Spec.Choose(server.methods, Offer(client))
      case None => Denied(Spec.Outcome(Spec.Rejected(Greeting, NoCommonMethod), [VERSION5, METHOD_NO_ACCEPTABLE], true))
      case Some(m) =>
        if m == METHOD_NO_AUTH then Admitted(m, None)
        else
          match server.login(client.auth.value)
          case None => Denied(Spec.Outcome(Spec.Rejected(UserPass, BadCredentials),
                                           [VERSION5, METHOD_USER_PASS, USER_PASS_VERSION, 1], true))
          case Some(id) => Admitted(m, Some(id))
  }

  /** All the client hears before the reply. */
  function Hears(client: Client.Config, server: Spec.Config): Bytes {
    match Settle(client, server)
    case Denied(d) => d.out
    case Admitted(m, _) => if m == METHOD_NO_AUTH then [VERSION5, m] else [VERSION5, m, USER_PASS_VERSION, 0]
  }

  /** All it says. */
  function Says(client: Client.Config, server: Spec.Config, target: Addr): Bytes
    requires Canonical(target)
  {
    match Settle(client, server)
    case Admitted(m, _) => client.OneByOne(target, m)
    case Denied(d) => client.GreetingMsg() + (if d.verdict.err.BadCredentials? then client.AuthMsg() else [])
  }

  /** What the server makes of all that. */
  function Meets(client: Client.Config, server: Spec.Config, target: Addr): Spec.Outcome
    requires Canonical(target)
  {
    match Settle(client, server)
    case Denied(d) => d
    case Admitted(m, id) =>
      Spec.Outcome(Spec.Admitted(Spec.Accepted(false, client.cmd, target, m, id), |Says(client, server, target)|),
                   Hears(client, server), false)
  }

  /** With one method offered it is what the server makes of the whole handshake at once. */
  lemma OneMethod(client: Client.Config, server: Spec.Config, target: Addr)
    requires Waits(client, target) && !client.offerNoAuth
    ensures Settle(client, server) == Admit(client, server, target)
    ensures Settle(client, server).Admitted? ==> Says(client, server, target) == client.Pipelined(target)
  {
    ChooseOne(server.methods, client.Offered());
  }

  // ------------------------------------------------------------ one by one

  lemma GreetingIs(client: Client.Config)
    ensures client.GreetingMsg() == [VERSION5, |Offer(client)|] + Offer(client)
  {
  }

  lemma GreetingSees(client: Client.Config, server: Spec.Config, rest: Bytes, fin: Error)
    ensures Spec.AuthOutcome(server, client.GreetingMsg() + rest, fin)
            == match Spec.Choose(server.methods, Offer(client))
               case None => Spec.Refused(Greeting, NoCommonMethod, [VERSION5, METHOD_NO_ACCEPTABLE], true)
               case Some(m) =>
                 Spec.AfterSelection(m, |client.GreetingMsg()|, Spec.SubNegotiation(server, m, rest, fin))
  {
    hide Spec.SubNegotiation, Spec.Choose;
    var greeting := client.GreetingMsg();
    GreetingRoundTrip([], Offer(client), rest);
    assert Added([], AppendGreeting([], Offer(client))) == greeting;
    assert Spec.Drop(greeting + rest, |greeting|) == rest;
  }

  lemma NothingRead(server: Spec.Config, id: Option<Bytes>, m: Byte)
    ensures var l := Spec.SubNegotiation(server, METHOD_USER_PASS, [], EOF); l.Refused? && l.out == []
    ensures Spec.RequestOutcome(m, id, [], EOF).out == []
  {
  }

  /** A server that waits for the next message has sent its selection. */
  lemma GreetingServed(client: Client.Config, server: Spec.Config, target: Addr)
    requires Waits(client, target)
    ensures var o := Spec.HandshakeOutcome(server, client.GreetingMsg(), EOF);
            match Settle(client, server)
            case Denied(d) => if d.verdict.err.BadCredentials? then o.out == [VERSION5, METHOD_USER_PASS] else o == d
            case Admitted(m, _) => o.out == [VERSION5, m]
  {
    hide Spec.AuthOutcome, Spec.SubNegotiation, Spec.RequestOutcome, Client.Config.GreetingMsg;
    var s := client.GreetingMsg();
    assert s + [] == s;
    GreetingIs(client);
    GreetingSees(client, server, [], EOF);
    NoLogin(server, [], EOF);
    NothingRead(server, None, METHOD_NO_AUTH);
  }

  /** One that waits for the request has sent its verdict on the credentials. */
  lemma LoginServed(client: Client.Config, server: Spec.Config, target: Addr)
    requires Waits(client, target) && server.v5
    requires Spec.Choose(server.methods, Offer(client)) == Some(METHOD_USER_PASS)
    ensures var o := Spec.HandshakeOutcome(server, client.GreetingMsg() + client.AuthMsg(), EOF);
            match Settle(client, server)
            case Denied(d) => o == d
            case Admitted(_, _) => o.out == [VERSION5, METHOD_USER_PASS, USER_PASS_VERSION, 0]
  {
    hide Spec.AuthOutcome, Spec.RequestOutcome, Spec.SubNegotiation, Client.Config.GreetingMsg, Client.Config.AuthMsg;
    var s := client.GreetingMsg() + client.AuthMsg();
    GreetingIs(client);
    assert client.AuthMsg() + [] == client.AuthMsg();
    GreetingSees(client, server, client.AuthMsg(), EOF);
    LoginSees(client, server, [], EOF);
    assert Spec.Drop(s, |s|) == [];
    NothingRead(server, server.login(client.auth.value), METHOD_USER_PASS);
  }

  /** The server on all the client says. */
  lemma AllServed(client: Client.Config, server: Spec.Config, target: Addr)
    requires Waits(client, target)
    ensures Spec.HandshakeOutcome(server, Says(client, server, target), EOF) == Meets(client, server, target)
    ensures Meets(client, server, target).out == Hears(client, server)
  {
    hide Spec.AuthOutcome, Spec.RequestOutcome, Spec.SubNegotiation, Spec.OnAuth;
    hide Client.Config.GreetingMsg, Client.Config.AuthMsg, Client.Config.RequestMsgFor, Client.Config.Encodable;
    GreetingServed(client, server, target);
    match Settle(client, server)
    case Denied(d) =>
      if d.verdict.err.BadCredentials? {
        LoginServed(client, server, target);
      } else {
        assert client.GreetingMsg() + [] == client.GreetingMsg();
      }
    case Admitted(m, id) => RequestServed(client, server, target, m, id);
  }

  lemma LoggedInAs(client: Client.Config, server: Spec.Config, m: Byte, id: Option<Bytes>, rest: Bytes)
    requires client.Usable() && Settle(client, server) == Admitted(m, id)
    ensures var auth := if m == METHOD_NO_AUTH then [] else client.AuthMsg();
            Spec.AuthOutcome(server, client.GreetingMsg() + (auth + rest), EOF)
            == Spec.LoggedIn(m, id, |client.GreetingMsg()| + |auth|, Hears(client, server))
  {
    hide Spec.AuthOutcome, Spec.SubNegotiation, Client.Config.GreetingMsg, Client.Config.AuthMsg;
    var auth := if m == METHOD_NO_AUTH then [] else client.AuthMsg();
    GreetingSees(client, server, auth + rest, EOF);
    if m == METHOD_NO_AUTH {
      NoLogin(server, auth + rest, EOF);
    } else {
      LoginSees(client, server, rest, EOF);
      assert AppendMethodSelection([], m) + AppendUserPassStatus([], 0) == Hears(client, server);
    }
  }

  lemma RequestParts(client: Client.Config, target: Addr, m: Byte)
    requires Canonical(target) && client.Accepts(m)
    requires if m == METHOD_NO_AUTH then client.auth.None? || m != client.Offered() else client.auth.Some?
    ensures var greeting, req := client.GreetingMsg(), client.RequestMsgFor(target);
            var auth, s := if m == METHOD_NO_AUTH then [] else client.AuthMsg(), client.OneByOne(target, m);
            && s == greeting + (auth + req) && |s| == |greeting| + |auth| + |req| > 0 && s[0] == VERSION5
            && Spec.Drop(s, |greeting| + |auth|) == req + []
  {
    hide Client.Config.GreetingMsg, Client.Config.AuthMsg, Client.Config.RequestMsgFor;
    GreetingIs(client);
  }

  lemma RequestServed(client: Client.Config, server: Spec.Config, target: Addr, m: Byte, id: Option<Bytes>)
    requires Waits(client, target) && Settle(client, server) == Admitted(m, id)
    ensures Spec.HandshakeOutcome(server, client.OneByOne(target, m), EOF)
            == Spec.Outcome(Spec.Admitted(Spec.Accepted(false, client.cmd, target, m, id), |client.OneByOne(target, m)|),
                            Hears(client, server), false)
  {
    hide Spec.AuthOutcome, Spec.OnAuth, Hears, Spec.Choose, Client.Config.OneByOne;
    hide Client.Config.GreetingMsg, Client.Config.AuthMsg, Client.Config.RequestMsgFor, Client.Config.Encodable;
    Choosable(client, server);
    RequestParts(client, target, m);
    LoggedInAs(client, server, m, id, client.RequestMsgFor(target));
    var n := |client.GreetingMsg()| + |if m == METHOD_NO_AUTH then [] else client.AuthMsg()|;
    LoggedInSees(client, target, m, id, n, Hears(client, server), client.OneByOne(target, m), [], EOF);
  }

  /** The method chosen is one that was offered, and username/password is offered with credentials only. */
  lemma Choosable(client: Client.Config, server: Spec.Config)
    ensures match Spec.Choose(server.methods, Offer(client))
            case None => true
            case Some(m) => client.Accepts(m) && if m == METHOD_NO_AUTH then client.auth.None? || m != client.Offered()
                                                else m == client.Offered() == METHOD_USER_PASS && client.auth.Some?
  {
  }

  lemma SaidFirst(client: Client.Config, target: Addr)
    requires Waits(client, target)
    ensures client.SentOn(target, [], EOF) == client.GreetingMsg()
    ensures client.SentOn(target, [VERSION5, METHOD_NO_ACCEPTABLE], EOF) == client.GreetingMsg()
  {
    hide Client.Config.GreetingMsg;
    assert client.GreetingMsg() + [] == client.GreetingMsg();
  }

  /** After a selection the next message is due at once; after the credentials, with the status. */
  lemma SaidAfter(client: Client.Config, target: Addr, m: Byte, rest: Bytes, fin: Error)
    requires Waits(client, target) && m in Offer(client)
    ensures client.SentOn(target, [VERSION5, m] + rest, fin)
            == if m == METHOD_NO_AUTH then client.OneByOne(target, m)
               else if MessageOutcome(Client.AuthReplyParser(), rest, UserPassStatus, fin).Ok? then client.OneByOne(target, m)
               else client.GreetingMsg() + client.AuthMsg()
  {
    hide Client.Config.GreetingMsg, Client.Config.AuthMsg, Client.Config.RequestMsgFor, Client.ParseAuthReply;
    var s := [VERSION5, m] + rest;
    assert s[2..] == rest && ParseMethodSelection(s) == Complete(m, 2);
    assert client.AuthMsg() + [] == client.AuthMsg() && client.GreetingMsg() + [] == client.GreetingMsg();
    if m != METHOD_NO_AUTH {
      var greeting, auth, req := client.GreetingMsg(), client.AuthMsg(), client.RequestMsgFor(target);
      assert greeting + auth + req == greeting + (auth + req);
    }
  }

  lemma SaidNext(client: Client.Config, target: Addr, m: Byte)
    requires Waits(client, target) && m in Offer(client)
    ensures client.SentOn(target, [VERSION5, m], EOF)
            == if m == METHOD_NO_AUTH then client.OneByOne(target, m) else client.GreetingMsg() + client.AuthMsg()
  {
    hide Client.Config.SentOn, Client.Config.GreetingMsg, Client.Config.AuthMsg, Client.Config.OneByOne;
    SaidAfter(client, target, m, [], EOF);
    assert [VERSION5, m] + [] == [VERSION5, m];
  }

  lemma SaidLast(client: Client.Config, target: Addr, status: Byte, more: Bytes, fin: Error)
    requires Waits(client, target) && client.auth.Some?
    ensures client.SentOn(target, [VERSION5, METHOD_USER_PASS, USER_PASS_VERSION, status] + more, fin)
            == if status == 0 then client.OneByOne(target, METHOD_USER_PASS) else client.GreetingMsg() + client.AuthMsg()
  {
    hide Client.Config.SentOn, Client.Config.GreetingMsg, Client.Config.AuthMsg, Client.Config.OneByOne;
    var rest := [USER_PASS_VERSION, status] + more;
    assert [VERSION5, METHOD_USER_PASS] + rest == [VERSION5, METHOD_USER_PASS, USER_PASS_VERSION, status] + more;
    SaidAfter(client, target, METHOD_USER_PASS, rest, fin);
  }

  lemma Unchanged(status: Byte)
    ensures var s: Bytes := [VERSION5, METHOD_USER_PASS, USER_PASS_VERSION, status]; s + [] == s
  {
  }

  /** The client says all it says on all it hears. */
  lemma AllSaid(client: Client.Config, server: Spec.Config, target: Addr)
    requires Waits(client, target)
    ensures client.SentOn(target, Hears(client, server), EOF) == Says(client, server, target)
  {
    hide Client.Config.SentOn, Client.Config.GreetingMsg, Client.Config.AuthMsg, Client.Config.OneByOne;
    SaidFirst(client, target);
    assert client.GreetingMsg() + [] == client.GreetingMsg();
    match Spec.Choose(server.methods, Offer(client))
    case None =>
    case Some(m) =>
      SaidNext(client, target, m);
      if client.auth.Some? {
        SaidLast(client, target, 0, [], EOF);
        SaidLast(client, target, 1, [], EOF);
        Unchanged(0);
        Unchanged(1);
      }
  }

  /** And hears it all if each side goes twice. */
  lemma TwoTurns(client: Client.Config, server: Spec.Config, target: Addr)
    requires Waits(client, target)
    ensures var heard := Spec.HandshakeOutcome(server, client.GreetingMsg(), EOF).out;
            Spec.HandshakeOutcome(server, client.SentOn(target, heard, EOF), EOF).out == Hears(client, server)
  {
    hide Spec.HandshakeOutcome, Client.Config.SentOn, Client.Config.GreetingMsg, Client.Config.AuthMsg;
    hide Client.Config.OneByOne;
    GreetingServed(client, server, target);
    AllServed(client, server, target);
    SaidFirst(client, target);
    match Spec.Choose(server.methods, Offer(client))
    case None =>
    case Some(m) =>
      SaidNext(client, target, m);
      if server.v5 && m == METHOD_USER_PASS {
        LoginServed(client, server, target);
      }
  }

  // ------------------------------------------------------ the conversation

  /** What both have written, and how much of it has reached the other. */
  datatype Talk = Talk(said: Bytes, served: nat, answered: Bytes, heard: nat)

  /** The next n bytes arrive, however many; the side they reach writes what it can. */
  datatype Event = ToServer(n: nat) | ToClient(n: nat)

  predicate Arrives(k: Talk, e: Event) {
    match e
    case ToServer(n) => 0 < n <= |k.said| - k.served
    case ToClient(n) => 0 < n <= |k.answered| - k.heard
  }

  function Begin(client: Client.Config, target: Addr): Talk
    requires Canonical(target)
  {
    Talk(client.SentOn(target, [], EOF), 0, [], 0)
  }

  function On(client: Client.Config, server: Spec.Config, target: Addr, k: Talk, e: Event): Talk
    requires Canonical(target)
  {
    if !Arrives(k, e) then k
    else
      match e
      case ToServer(n) =>
        k.(served := k.served + n, answered := Spec.HandshakeOutcome(server, k.said[..k.served + n], EOF).out)
      case ToClient(n) =>
        k.(heard := k.heard + n, said := client.SentOn(target, k.answered[..k.heard + n], EOF))
  }

  function Run(client: Client.Config, server: Spec.Config, target: Addr, es: seq<Event>): Talk
    requires Canonical(target)
    decreases |es|
  {
    if es == [] then Begin(client, target)
    else On(client, server, target, Run(client, server, target, es[..|es| - 1]), es[|es| - 1])
  }

  /** Nothing is under way: both wait. */
  predicate Quiet(k: Talk) { k.served == |k.said| && k.heard == |k.answered| }

  ghost predicate Inv(client: Client.Config, server: Spec.Config, target: Addr, k: Talk)
    requires Canonical(target)
  {
    && k.served <= |k.said| && k.heard <= |k.answered|
    && k.said == client.SentOn(target, k.answered[..k.heard], EOF)
    && k.answered == Spec.HandshakeOutcome(server, k.said[..k.served], EOF).out
    && k.said <= Says(client, server, target) && k.answered <= Hears(client, server)
  }

  lemma ToServerKeeps(client: Client.Config, server: Spec.Config, target: Addr, k: Talk, n: nat)
    requires Waits(client, target) && Inv(client, server, target, k) && 0 < n <= |k.said| - k.served
    ensures Inv(client, server, target, On(client, server, target, k, ToServer(n)))
  {
    hide Spec.HandshakeOutcome, Client.Config.SentOn, Says, Hears;
    var all, now := Says(client, server, target), k.said[..k.served + n];
    AllServed(client, server, target);
    ServerGoesOn(server, k.said[..k.served], k.said[k.served..k.served + n], EOF);
    assert k.said[..k.served] + k.said[k.served..k.served + n] == now;
    ServerGoesOn(server, now, all[|now|..], EOF);
    assert now + all[|now|..] == all;
    assert On(client, server, target, k, ToServer(n)).answered[..k.heard] == k.answered[..k.heard];
  }

  lemma ToClientKeeps(client: Client.Config, server: Spec.Config, target: Addr, k: Talk, n: nat)
    requires Waits(client, target) && Inv(client, server, target, k) && 0 < n <= |k.answered| - k.heard
    ensures Inv(client, server, target, On(client, server, target, k, ToClient(n)))
  {
    hide Spec.HandshakeOutcome, Client.Config.SentOn, Says, Hears;
    var all, now := Hears(client, server), k.answered[..k.heard + n];
    AllSaid(client, server, target);
    ClientGoesOn(client, target, k.answered[..k.heard], k.answered[k.heard..k.heard + n], EOF);
    assert k.answered[..k.heard] + k.answered[k.heard..k.heard + n] == now;
    ClientGoesOn(client, target, now, all[|now|..], EOF);
    assert now + all[|now|..] == all;
    assert On(client, server, target, k, ToClient(n)).said[..k.served] == k.said[..k.served];
  }

  lemma BeginKeeps(client: Client.Config, server: Spec.Config, target: Addr)
    requires Waits(client, target)
    ensures Inv(client, server, target, Begin(client, target))
  {
    hide Client.Config.SentOn, Hears, Says;
    AllSaid(client, server, target);
    ClientGoesOn(client, target, [], Hears(client, server), EOF);
    assert [] + Hears(client, server) == Hears(client, server);
  }

  lemma {:induction false} Always(client: Client.Config, server: Spec.Config, target: Addr, es: seq<Event>)
    requires Waits(client, target)
    ensures Inv(client, server, target, Run(client, server, target, es))
    decreases |es|
  {
    if es == [] {
      BeginKeeps(client, server, target);
    } else {
      hide Inv, Begin;
      Always(client, server, target, es[..|es| - 1]);
      var k := Run(client, server, target, es[..|es| - 1]);
      match es[|es| - 1]
      case ToServer(n) =>
        if n > 0 && k.served + n <= |k.said| {
          ToServerKeeps(client, server, target, k, n);
        }
      case ToClient(n) =>
        if n > 0 && k.heard + n <= |k.answered| {
          ToClientKeeps(client, server, target, k, n);
        }
    }
  }

  /** Whatever was said and answered so far is the start of the one conversation they can have; and if
      both wait, it is all of it: nobody waits for bytes that the other keeps back. */
  lemma NoStandstill(client: Client.Config, server: Spec.Config, target: Addr, es: seq<Event>)
    requires Waits(client, target)
    ensures var k := Run(client, server, target, es);
            && k.said <= Says(client, server, target) && k.answered <= Hears(client, server)
            && k.served <= |k.said| && k.heard <= |k.answered|
            && (Quiet(k) <==> k.served == |Says(client, server, target)| && k.heard == |Hears(client, server)|)
            && (Quiet(k) ==> Spec.HandshakeOutcome(server, k.said[..k.served], EOF) == Meets(client, server, target))
  {
    hide Spec.HandshakeOutcome, Client.Config.SentOn, Says, Hears, Run;
    Always(client, server, target, es);
    var k := Run(client, server, target, es);
    if Quiet(k) {
      assert k.said[..k.served] == k.said && k.answered[..k.heard] == k.answered;
      QuietIsAll(client, server, target, k.said, k.answered);
      AllServed(client, server, target);
    }
  }

  /** Two streams that answer each other are the whole conversation. */
  lemma QuietIsAll(client: Client.Config, server: Spec.Config, target: Addr, x: Bytes, y: Bytes)
    requires Waits(client, target) && y <= Hears(client, server)
    requires x == client.SentOn(target, y, EOF) && y == Spec.HandshakeOutcome(server, x, EOF).out
    ensures x == Says(client, server, target) && y == Hears(client, server)
  {
    hide Spec.HandshakeOutcome, Client.Config.SentOn, Client.Config.GreetingMsg, Says, Hears;
    SaidFirst(client, target);
    TwoTurns(client, server, target);
    AllSaid(client, server, target);
    var x0 := client.GreetingMsg();
    ClientGoesOn(client, target, [], y, EOF);
    assert [] + y == y;
    var y0 := Spec.HandshakeOutcome(server, x0, EOF).out;
    ServerGoesOn(server, x0, x[|x0|..], EOF);
    assert x0 + x[|x0|..] == x;
    var x1 := client.SentOn(target, y0, EOF);
    ClientGoesOn(client, target, y0, y[|y0|..], EOF);
    assert y0 + y[|y0|..] == y;
    ServerGoesOn(server, x1, x[|x1|..], EOF);
    assert x1 + x[|x1|..] == x;
    var all := Hears(client, server);
    assert all <= y <= all && |all| == |y|;
    assert y == all[..|y|] == all;
  }

  /** What was said and has not arrived can, in any part and in either direction. */
  lemma Proceeds(client: Client.Config, server: Spec.Config, target: Addr, es: seq<Event>, n: nat)
    requires Waits(client, target) && n > 0
    ensures var k := Run(client, server, target, es);
            && (k.served + n <= |k.said| ==> Run(client, server, target, es + [ToServer(n)]).served == k.served + n)
            && (k.heard + n <= |k.answered| ==> Run(client, server, target, es + [ToClient(n)]).heard == k.heard + n)
  {
    hide Spec.HandshakeOutcome, Client.Config.SentOn;
    assert (es + [ToServer(n)])[..|es|] == es && (es + [ToClient(n)])[..|es|] == es;
  }

  /** And it gets there: no more arrivals than there are bytes. */
  lemma {:induction false} Ends(client: Client.Config, server: Spec.Config, target: Addr, es: seq<Event>)
    requires Waits(client, target)
    requires forall i :: 0 <= i < |es| ==> Arrives(Run(client, server, target, es[..i]), es[i])
    ensures var k := Run(client, server, target, es); |es| <= k.served + k.heard
    ensures |es| <= |Says(client, server, target)| + |Hears(client, server)|
    decreases |es|
  {
    hide Says, Hears, Spec.HandshakeOutcome, Client.Config.SentOn;
    NoStandstill(client, server, target, es);
    if es != [] {
      var less := es[..|es| - 1];
      forall i | 0 <= i < |less|
        ensures Arrives(Run(client, server, target, less[..i]), less[i])
      {
        assert less[..i] == es[..i];
      }
      Ends(client, server, target, less);
      assert Arrives(Run(client, server, target, es[..|less|]), es[|less|]);
      assert es[..|less|] == less;
    }
  }

  // -------------------------------------------------------- both machines

  /** The client on what has reached it. */
  method ClientSide(client: Client.Config, target: Addr, heard: Bytes) returns (c: NetConn, he: Option<Failure>)
    requires Waits(client, target)
    ensures fresh(c) && c.Valid() && c.input == heard && c.sent == client.SentOn(target, heard, EOF)
    ensures match Client.RepliesOutcome(client, heard, EOF)
            case Failed(stage, e) => he == Some(Failure(stage, e))
            case Established(_, n) => he.None? && c.pos == n
  {
    hide Client.RepliesOutcome, Client.Config.SentOn;
    c := new NetConn(heard, EOF, |client.Pipelined(target)|);
    var h := new Client.Handshake(client, target);
    he := h.Run(c);
    assert c.Valid() && [] + client.SentOn(target, heard, EOF) == client.SentOn(target, heard, EOF);
  }

  /** The server on what has reached it. */
  method ServerSide(server: Spec.Config, served: Bytes, room: nat) returns (sc: ServerConn.ServerConn, fault: Option<Failure>)
    requires server.Usable() && room >= |Spec.HandshakeOutcome(server, served, EOF).out|
    ensures fresh(sc) && fresh(sc.nc) && fresh(sc.inb) && fresh(sc.inb.data) && fresh(sc.outb) && fresh(sc.outb.data)
    ensures sc.Valid() && sc.lastHi == 0 && sc.outb.queued == [] && sc.writeErr.None? && sc.nc.input == served
    ensures var o := Spec.HandshakeOutcome(server, served, EOF);
            && sc.nc.sent == o.out && sc.nc.room == room - |o.out|
            && match o.verdict
               case Rejected(stage, e) => fault == Some(Failure(stage, e))
               case Admitted(rq, n) => fault.None? && sc.req == Some(rq) && sc.start == n
  {
    hide Spec.HandshakeOutcome;
    sc, fault := ServeBytes(server, served, room, Spec.HandshakeOutcome(server, served, EOF));
  }

  /** Both machines at any moment of any conversation, each on what has reached it: each has written
      what the other is due, and when both wait the server has taken the client's request or refused
      it. */
  method Moment(client: Client.Config, server: Spec.Config, target: Addr, es: seq<Event>)
    returns (c: NetConn, sc: ServerConn.ServerConn, fault: Option<Failure>)
    requires Waits(client, target) && server.Usable()
    ensures fresh(c) && fresh(sc) && c.Valid() && sc.Valid()
    ensures var k := Run(client, server, target, es);
            && k.heard <= |k.answered| && c.input == k.answered[..k.heard] && c.sent == k.said
            && k.served <= |k.said| && sc.nc.input == k.said[..k.served] && sc.nc.sent == k.answered
            && (Quiet(k) ==>
                  match Settle(client, server)
                  case Denied(o) => fault == Some(Failure(o.verdict.stage, o.verdict.err))
                  case Admitted(m, id) =>
                    fault.None? && sc.req == Some(Spec.Accepted(false, client.cmd, target, m, id)))
  {
    hide Spec.HandshakeOutcome, Client.Config.SentOn, Client.RepliesOutcome, Says, Hears, Run;
    var k := Run(client, server, target, es);
    NoStandstill(client, server, target, es);
    Always(client, server, target, es);
    var he;
    c, he := ClientSide(client, target, k.answered[..k.heard]);
    sc, fault := ServerSide(server, k.said[..k.served], |k.answered|);
  }

  /** It says no more on what follows. */
  lemma NoMoreSaid(client: Client.Config, server: Spec.Config, target: Addr, more: Bytes, fin: Error)
    requires Waits(client, target) && Settle(client, server).Admitted?
    ensures client.SentOn(target, Hears(client, server) + more, fin) == Says(client, server, target)
  {
    hide Client.Config.SentOn, Client.Config.OneByOne;
    Choosable(client, server);
    if Settle(client, server).chosen == METHOD_NO_AUTH {
      SaidAfter(client, target, METHOD_NO_AUTH, more, fin);
    } else {
      SaidLast(client, target, 0, more, fin);
    }
  }

  lemma AnsweredSees(client: Client.Config, server: Spec.Config, rep: Byte, bound: Addr, tail: Bytes, fin: Error)
    requires client.Usable() && !client.socks4 && Settle(client, server).Admitted? && Canonical(bound)
    ensures var stream := Hears(client, server) + Spec.ReplyBytes(false, rep, bound);
            Client.RepliesOutcome(client, stream + tail, fin) == Reaction(client, rep, bound, |stream|)
  {
    hide Client.ReplyOutcome, Spec.ReplyBytes, Spec.CodeSent, BoundSent, Client.BoundError, Client.ParseAuthReply;
    Choosable(client, server);
    var reply, answers := Spec.ReplyBytes(false, rep, bound), Hears(client, server);
    ReplySeen(client, rep, bound, tail, fin);
    var s := answers + reply + tail;
    assert s == answers + (reply + tail);
    if Settle(client, server).chosen == METHOD_NO_AUTH {
      assert s[2..] == reply + tail;
    } else {
      assert s[2..][2..] == reply + tail;
      assert Client.ParseAuthReply(s[2..]) == Complete(0, 2) by {
        StatusRead(s[2..]);
      }
    }
  }

  lemma StatusRead(s: Bytes)
    requires |s| >= 2 && s[0] == USER_PASS_VERSION && s[1] == 0
    ensures Client.ParseAuthReply(s) == Complete(0, 2)
  {
  }

  /** The server's side of the end: the handler's reply, nothing else being on the way. */
  method AnswerWaiting(client: Client.Config, server: Spec.Config, target: Addr, rep: Byte, bound: Addr)
    returns (s: Session.Session)
    requires Waits(client, target) && server.Usable() && Canonical(bound) && Settle(client, server).Admitted?
    ensures s.Valid() && s.Rest() == [] && s.sc.nc.input == Says(client, server, target)
    ensures s.sc.nc.sent == Hears(client, server) + Spec.ReplyBytes(false, rep, bound)
    ensures var a := Settle(client, server);
            s.sc.req == Some(Spec.Accepted(false, client.cmd, target, a.chosen, a.identity))
    ensures s.tunnel <==> Spec.IsSuccess(rep)
  {
    hide Spec.HandshakeOutcome, Says, Hears, Settle, Spec.ReplyBytes, Client.Config.Encodable;
    hide Session.Orderly, Session.Wrote, Session.Session.Placed, Session.Session.Replying;
    Spec.ReplyBytesLength(false, rep, bound);
    AllServed(client, server, target);
    var sc, fault := ServerSide(server, Says(client, server, target), |Hears(client, server)| + MAX_REPLY);
    s := new Session.Session(sc);
    var err := s.Reply(rep, bound);
  }

  /** The end of it for an admitted client, however many methods it offered: the handler's reply, and
      what both sides have then. */
  method ConnectWaiting(client: Client.Config, server: Spec.Config, target: Addr, rep: Byte, bound: Addr, tail: Bytes)
    returns (s: Session.Session, c: NetConn, he: Option<Failure>)
    requires Waits(client, target) && server.Usable() && Canonical(bound) && Settle(client, server).Admitted?
    ensures s.Valid() && s.Rest() == [] && c.Valid() && c.sent == s.sc.nc.input == Says(client, server, target)
    ensures c.input == s.sc.nc.sent + tail
    ensures var a := Settle(client, server);
            s.sc.req == Some(Spec.Accepted(false, client.cmd, target, a.chosen, a.identity))
    ensures match Reaction(client, rep, bound, 0)
            case Failed(stage, e) => he == Some(Failure(stage, e))
            case Established(_, _) => he.None? && c.Unread() == tail
    ensures (s.tunnel <==> he.None?) <==> Understood(client, rep, bound)
  {
    hide Client.RepliesOutcome, Client.Config.SentOn, Says, Hears, Settle, Session.Session.Valid;
    hide Understood, Spec.ReplyBytes, Spec.CodeSent, BoundSent, Client.BoundError, Spec.IsSuccess;
    s := AnswerWaiting(client, server, target, rep, bound);
    var hears, reply := Hears(client, server), Spec.ReplyBytes(false, rep, bound);
    NoMoreSaid(client, server, target, reply + tail, EOF);
    assert hears + reply + tail == hears + (reply + tail);
    AnsweredSees(client, server, rep, bound, tail, EOF);
    c, he := ClientSide(client, target, hears + reply + tail);
    assert (hears + reply + tail)[|hears + reply|..] == tail;
    AgreeOnSuccess(client, rep, bound, 0);
  }
}
