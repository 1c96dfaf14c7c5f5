/** Both goroutines of a UDP association at once (go/socks0/server/udp.go, up and down): what their
    steps keep in any order. */
module UdpRuns {
  import opened Wire
  import opened UdpSpec

  /** A client datagram that was let through: where to, and from where. */
  datatype Sent = Sent(dst: Addr, host: Host, port: Port)

  /** A target datagram passed on to the client's port, after `seen` client datagrams. */
  datatype Delivery = Delivery(from: Addr, port: Port, seen: nat)

  datatype Up = UpIdle | Judged(from: Port, port: Port)
  datatype Down = DownIdle | Got(from: Addr, port: Port) | Passing(from: Addr, port: Port)

  datatype Relay = Relay(
    t: Tables, clientPort: Port, up: Up, down: Down,
    sent: seq<Sent>, delivered: seq<Delivery>)

  datatype Event =
    | FromClient(host: Host, port: Port, p: Bytes, tooLarge: bool, now: int)
    | UpGoes
    | FromTarget(from: Addr)
    | DownGoes(tooLarge: bool)

  /** Before the goroutines start: `first` is the port the client asked for, 0 if it named none. */
  function Start(first: Port): Relay { Relay(NO_TABLES, first, UpIdle, DownIdle, [], []) }

  function On(env: Env, r: Relay, e: Event): Relay {
    match e
    case FromClient(host, port, p, tooLarge, now) =>
      if !r.up.UpIdle? || host != env.clientIP || (r.clientPort != 0 && port != r.clientPort) || tooLarge then r
      else
        var (t, v) := HeaderVerdict(env, r.t, p, now);
        if v.err.Some? then r.(t := t)
        else r.(t := t, up := Judged(port, r.clientPort), sent := r.sent + [Sent(v.dst, host, port)])
    case UpGoes =>
      if r.up.UpIdle? then r
      else r.(up := UpIdle, clientPort := if r.up.port == 0 then r.up.from else r.clientPort)
    case FromTarget(from) =>
      if r.down.DownIdle? then r.(down := Got(from, r.clientPort)) else r
    case DownGoes(tooLarge) =>
      match r.down
      case DownIdle => r
      case Got(from, port) =>
        r.(down := if port == 0 || !Solicited(env, r.t, from) || tooLarge then DownIdle else Passing(from, port))
      case Passing(from, port) =>
        r.(down := DownIdle, delivered := r.delivered + [Delivery(from, port, |r.sent|)])
  }

  function Run(env: Env, first: Port, es: seq<Event>): Relay
    decreases |es|
  {
    if es == [] then Start(first) else On(env, Run(env, first, es[..|es| - 1]), es[|es| - 1])
  }

  /** The client asked for it, as the filtering behaviour demands: for the weakest, with a datagram to
      anybody or with its port in the request. */
  predicate Asked(env: Env, first: Port, sent: seq<Sent>, from: Addr) {
    match env.filtering
    case EndpointIndependent => first != 0 || sent != []
    case AddressDependent => exists i :: 0 <= i < |sent| && sent[i].dst.host == from.host
    case AddressAndPortDependent => exists i :: 0 <= i < |sent| && sent[i].dst == from
  }

  /** The admitted targets are what the client sent to. */
  ghost predicate Mirrors(t: Tables, sent: seq<Sent>) {
    && (forall d :: d in t.targets && t.targets[d].None? ==> exists i :: 0 <= i < |sent| && sent[i].dst == d)
    && (forall i :: 0 <= i < |sent| ==> sent[i].dst in t.targets && t.targets[sent[i].dst].None?)
  }

  /** Once locked, the port is the source of every datagram let through; one asked for in the request
      is locked from the start. */
  ghost predicate Locked(first: Port, r: Relay) {
    && (forall i :: 0 <= i < |r.sent| ==>
          r.sent[i].port == 0 || r.sent[i].port == r.clientPort || (r.up.Judged? && r.sent[i].port == r.up.from))
    && (r.up.Judged? ==> r.up.port == r.clientPort && (r.clientPort != 0 ==> r.up.from == r.clientPort))
    && (first != 0 ==> r.clientPort == first && forall i :: 0 <= i < |r.sent| ==> r.sent[i].port == first)
    && (first == 0 && r.clientPort != 0 ==> exists i :: 0 <= i < |r.sent| && r.sent[i].port == r.clientPort)
    && (r.up.Judged? ==> exists i :: 0 <= i < |r.sent| && r.sent[i].port == r.up.from)
  }

  /** It went to the client's port, and the client had asked for it. */
  predicate Justified(env: Env, first: Port, r: Relay, d: Delivery) {
    d.port == r.clientPort != 0 && d.seen <= |r.sent| && Asked(env, first, r.sent[..d.seen], d.from)
  }

  ghost predicate Inv(env: Env, first: Port, r: Relay) {
    && Ok(env, r.t) && Mirrors(r.t, r.sent) && Locked(first, r)
    && (r.down.Got? && r.down.port != 0 ==> r.down.port == r.clientPort)
    && (r.down.Passing? ==> r.down.port == r.clientPort != 0 && Asked(env, first, r.sent, r.down.from))
    && forall i :: 0 <= i < |r.delivered| ==> Justified(env, first, r, r.delivered[i])
  }

  lemma SolicitedAsked(env: Env, first: Port, t: Tables, sent: seq<Sent>, from: Addr)
    requires Ok(env, t) && Mirrors(t, sent) && (first != 0 || sent != [])
    ensures Solicited(env, t, from) <==> Asked(env, first, sent, from)
  {
    if env.filtering.AddressDependent? && from.host in t.ips {
      var d :| d in t.targets && t.targets[d].None? && d.host == from.host;
      var i :| 0 <= i < |sent| && sent[i].dst == d;
      assert sent[i].dst.host == from.host;
    }
  }

  lemma AskedStill(env: Env, first: Port, sent: seq<Sent>, s: Sent, from: Addr)
    requires Asked(env, first, sent, from)
    ensures Asked(env, first, sent + [s], from)
  {
    var more := sent + [s];
    assert forall i :: 0 <= i < |sent| ==> more[i] == sent[i];
  }

  lemma ClientKeeps(env: Env, first: Port, r: Relay, e: Event)
    requires Inv(env, first, r) && e.FromClient?
    ensures Inv(env, first, On(env, r, e))
  {
    hide HeaderVerdict, Ok, Locked, Mirrors, Asked;
    var z := On(env, r, e);
    if z != r {
      HeaderKeeps(env, r.t, e.p, e.now);
      var (t, v) := HeaderVerdict(env, r.t, e.p, e.now);
      if v.err.Some? {
        MirrorsStill(r.t, t, r.sent);
        SameLock(first, r, z);
      } else {
        var s := Sent(v.dst, e.host, e.port);
        MirrorsMore(r.t, t, r.sent, s);
        LockPending(first, r, z, e.port, s);
        if r.down.Passing? {
          AskedStill(env, first, r.sent, s, r.down.from);
        }
        assert forall k :: 0 <= k <= |r.sent| ==> z.sent[..k] == r.sent[..k];
      }
    }
  }

  lemma SameLock(first: Port, r: Relay, z: Relay)
    requires Locked(first, r) && z == r.(t := z.t)
    ensures Locked(first, z)
  {
  }

  lemma LockPending(first: Port, r: Relay, z: Relay, port: Port, s: Sent)
    requires Locked(first, r) && r.up.UpIdle? && (r.clientPort != 0 ==> port == r.clientPort) && s.port == port
    requires z == r.(t := z.t, up := Judged(port, r.clientPort), sent := r.sent + [s])
    ensures Locked(first, z)
  {
    assert z.sent[|r.sent|] == s;
    assert forall i :: 0 <= i < |r.sent| ==> z.sent[i] == r.sent[i];
  }

  lemma UpKeeps(env: Env, first: Port, r: Relay)
    requires Inv(env, first, r)
    ensures Inv(env, first, On(env, r, UpGoes))
  {
    hide Ok, Mirrors, Asked;
  }

  lemma DownKeeps(env: Env, first: Port, r: Relay, e: Event)
    requires Inv(env, first, r) && (e.FromTarget? || e.DownGoes?)
    ensures Inv(env, first, On(env, r, e))
  {
    hide Ok, Mirrors, Asked, Solicited;
    var z := On(env, r, e);
    if e.DownGoes? && r.down.Got? && r.down.port != 0 {
      Sure(first, r);
      SolicitedAsked(env, first, r.t, r.sent, r.down.from);
    }
    assert r.sent[..|r.sent|] == r.sent;
    LockApart(first, r, z);
  }

  /** The client port is locked only by a datagram let through. */
  lemma Sure(first: Port, r: Relay)
    requires Locked(first, r) && r.clientPort != 0
    ensures first != 0 || r.sent != []
  {
  }

  lemma LockApart(first: Port, r: Relay, z: Relay)
    requires Locked(first, r) && z == r.(down := z.down, delivered := z.delivered)
    ensures Locked(first, z)
  {
  }

  lemma MirrorsStill(t: Tables, u: Tables, sent: seq<Sent>)
    requires Mirrors(t, sent)
    requires forall d :: d in t.targets ==> d in u.targets && u.targets[d] == t.targets[d]
    requires forall d :: d in u.targets && u.targets[d].None? ==> d in t.targets
    ensures Mirrors(u, sent)
  {
  }

  lemma MirrorsMore(t: Tables, u: Tables, sent: seq<Sent>, s: Sent)
    requires Mirrors(t, sent) && s.dst in u.targets && u.targets[s.dst].None?
    requires forall d :: d in t.targets ==> d in u.targets && u.targets[d] == t.targets[d]
    requires forall d :: d in u.targets && u.targets[d].None? && d !in t.targets ==> d == s.dst
    ensures Mirrors(u, sent + [s])
  {
    var more := sent + [s];
    assert more[|sent|] == s;
    forall d | d in u.targets && u.targets[d].None?
      ensures exists i :: 0 <= i < |more| && more[i].dst == d
    {
      if d in t.targets {
        var i :| 0 <= i < |sent| && sent[i].dst == d;
        assert more[i].dst == d;
      }
    }
  }

  lemma OnKeeps(env: Env, first: Port, r: Relay, e: Event)
    requires Inv(env, first, r)
    ensures Inv(env, first, On(env, r, e))
    ensures r.clientPort != 0 ==> On(env, r, e).clientPort == r.clientPort
    ensures r.sent <= On(env, r, e).sent && r.delivered <= On(env, r, e).delivered
  {
    hide HeaderVerdict, Inv;
    match e
    case FromClient(_, _, _, _, _) => ClientKeeps(env, first, r, e);
    case UpGoes =>
      UpKeeps(env, first, r);
      PortKept(env, first, r);
    case _ => DownKeeps(env, first, r, e);
  }

  lemma PortKept(env: Env, first: Port, r: Relay)
    requires Inv(env, first, r)
    ensures r.clientPort != 0 ==> On(env, r, UpGoes).clientPort == r.clientPort
  {
  }

  /** In every run, whether or not the client's port was known from the start: what is kept stays
      within MaxTargets, ips mirrors the admitted targets, and every target datagram that reached the
      client went to its one port and was asked for, as the filtering demands, before. */
  lemma {:induction false} Always(env: Env, first: Port, es: seq<Event>)
    ensures Inv(env, first, Run(env, first, es))
    decreases |es|
  {
    hide On, Inv;
    if es != [] {
      Always(env, first, es[..|es| - 1]);
      OnKeeps(env, first, Run(env, first, es[..|es| - 1]), es[|es| - 1]);
    } else {
      StartOk(env, first);
    }
  }

  lemma StartOk(env: Env, first: Port)
    ensures Inv(env, first, Start(first))
  {
  }

  lemma OnlySolicited(env: Env, first: Port, es: seq<Event>, i: nat)
    requires i < |Run(env, first, es).delivered|
    ensures var r := Run(env, first, es); Justified(env, first, r, r.delivered[i])
  {
    Always(env, first, es);
  }

  lemma Bounded(env: Env, first: Port, es: seq<Event>)
    ensures var t := Run(env, first, es).t;
            && |t.targets| + |t.names| <= env.maxTargets
            && IpsMirror(t.targets, t.ips)
  {
    Always(env, first, es);
  }

  /** What is not the client's, or too large, changes nothing. */
  lemma Ignored(env: Env, r: Relay, e: Event)
    requires e.FromClient?
    requires e.host != env.clientIP || (r.clientPort != 0 && e.port != r.clientPort) || e.tooLarge
    ensures On(env, r, e) == r
  {
  }

  /** Every datagram let through is one of the client's own, from the port it is noted with, and goes
      where that datagram's header says. */
  ghost predicate CameAs(env: Env, first: Port, es: seq<Event>, k: nat, s: Sent) {
    && k < |es| && es[k].FromClient? && es[k].host == s.host == env.clientIP && es[k].port == s.port && !es[k].tooLarge
    && var v := HeaderVerdict(env, Run(env, first, es[..k]).t, es[k].p, es[k].now).1;
    && v.err.None? && v.dst == s.dst
  }

  lemma {:induction false} OwnDatagrams(env: Env, first: Port, es: seq<Event>, i: nat)
    requires i < |Run(env, first, es).sent|
    ensures exists k: nat :: CameAs(env, first, es, k, Run(env, first, es).sent[i])
    decreases |es|
  {
    hide HeaderVerdict;
    var less := es[..|es| - 1];
    var r := Run(env, first, less);
    if i < |r.sent| {
      assert Run(env, first, es).sent[i] == r.sent[i];
      OwnDatagrams(env, first, less, i);
      var k: nat :| CameAs(env, first, less, k, r.sent[i]);
      assert es[..k] == less[..k];
      assert CameAs(env, first, es, k, r.sent[i]);
    } else {
      assert CameAs(env, first, es, |less|, Run(env, first, es).sent[i]);
    }
  }

  /** Strangers do nothing: whatever comes from other hosts, the association stays as it began, but for
      what targets send. */
  lemma {:induction false} Strangers(env: Env, first: Port, es: seq<Event>)
    requires forall i :: 0 <= i < |es| && es[i].FromClient? ==> es[i].host != env.clientIP
    ensures var r := Run(env, first, es); r.t == NO_TABLES && r.sent == [] && r.clientPort == first && r.up.UpIdle?
    decreases |es|
  {
    hide HeaderVerdict;
    if es != [] {
      Strangers(env, first, es[..|es| - 1]);
    }
  }

  /** Every other datagram of the client with a good verdict is let through, and the first locks the
      port. */
  lemma LetThrough(env: Env, r: Relay, e: Event)
    requires e.FromClient? && r.up.UpIdle? && e.host == env.clientIP && !e.tooLarge
    requires r.clientPort == 0 || e.port == r.clientPort
    ensures var (t, v) := HeaderVerdict(env, r.t, e.p, e.now); var z := On(env, On(env, r, e), UpGoes);
            z.t == t &&
            if v.err.Some? then z.sent == r.sent && z.clientPort == r.clientPort
            else z.sent == r.sent + [Sent(v.dst, e.host, e.port)] && z.clientPort == e.port
  {
    hide HeaderVerdict;
  }

  /** A target's datagram is passed on if and only if the client's port is known, the client asked for
      it, and it is not too large. */
  lemma PassedOn(env: Env, first: Port, es: seq<Event>, tooLarge: bool)
    requires Run(env, first, es).down.Got?
    ensures var r := Run(env, first, es); var d := On(env, r, DownGoes(tooLarge)).down;
            d == if r.down.port != 0 && Asked(env, first, r.sent, r.down.from) && !tooLarge
                 then Passing(r.down.from, r.down.port) else DownIdle
  {
    hide Asked, Solicited;
    Always(env, first, es);
    var r := Run(env, first, es);
    if r.down.port != 0 {
      Sure(first, r);
      SolicitedAsked(env, first, r.t, r.sent, r.down.from);
    }
  }

  /** What a client gains that names its port: no other port of its IP is ever listened to, and none is
      ever sent to. */
  lemma PresetPort(env: Env, first: Port, es: seq<Event>)
    requires first != 0
    ensures var r := Run(env, first, es);
            && r.clientPort == first
            && (forall i :: 0 <= i < |r.sent| ==> r.sent[i].port == first)
            && (forall i :: 0 <= i < |r.delivered| ==> r.delivered[i].port == first)
  {
    Always(env, first, es);
    var r := Run(env, first, es);
    forall i | 0 <= i < |r.delivered|
      ensures r.delivered[i].port == first
    {
      assert Justified(env, first, r, r.delivered[i]);
    }
  }

  /** One that does not is still listened to on one port only: all that was let through has the same
      source, but for datagrams from port 0, which lock nothing. */
  lemma OneSource(env: Env, first: Port, es: seq<Event>, i: nat, j: nat)
    requires var sent := Run(env, first, es).sent; i < |sent| && j < |sent| && sent[i].port != 0 && sent[j].port != 0
    ensures var sent := Run(env, first, es).sent; sent[i].port == sent[j].port
  {
    Always(env, first, es);
  }

  /** Datagrams come from IP addresses. */
  predicate FromIPs(es: seq<Event>) {
    forall i :: 0 <= i < |es| && es[i].FromTarget? ==> es[i].from.HasIP() && Canonical(es[i].from)
  }

  /** A target can reach a client that has sent nothing exactly if the client named its port and the
      filter asks for nothing. */
  lemma FirstWord(env: Env, first: Port)
    ensures (exists es :: FromIPs(es) && var r := Run(env, first, es); r.sent == [] && r.delivered != [])
            <==> env.filtering.EndpointIndependent? && first != 0
  {
    forall es | Run(env, first, es).sent == [] && Run(env, first, es).delivered != []
      ensures env.filtering.EndpointIndependent? && first != 0
    {
      OnlySolicited(env, first, es, 0);
    }
    if env.filtering.EndpointIndependent? && first != 0 {
      var es := Unasked(env, first);
    }
  }

  lemma Unasked(env: Env, first: Port) returns (es: seq<Event>)
    requires env.filtering.EndpointIndependent? && first != 0
    ensures FromIPs(es) && var r := Run(env, first, es); r.sent == [] && r.delivered != []
  {
    hide HeaderVerdict;
    var from := Addr(V4([192, 0, 2, 1]), 7);
    var a, b := FromTarget(from), DownGoes(false);
    RunSnoc(env, first, [], a);
    RunSnoc(env, first, [a], b);
    RunSnoc(env, first, [a, b], b);
    assert [] + [a] == [a] && [a] + [b] == [a, b];
    es := [a, b] + [b];
    assert Run(env, first, es).delivered == [Delivery(from, first, 0)];
  }

  lemma RunSnoc(env: Env, first: Port, es: seq<Event>, e: Event)
    ensures Run(env, first, es + [e]) == On(env, Run(env, first, es), e)
  {
    assert (es + [e])[..|es|] == es;
  }

  /** A locked client port stays. */
  lemma {:induction false} PortStays(env: Env, first: Port, es: seq<Event>, more: seq<Event>)
    requires Run(env, first, es).clientPort != 0
    ensures Run(env, first, es + more).clientPort == Run(env, first, es).clientPort
    decreases |more|
  {
    hide On, Inv;
    if more == [] {
      assert es + more == es;
    } else {
      var less := more[..|more| - 1];
      assert (es + more)[..|es + more| - 1] == es + less;
      PortStays(env, first, es, less);
      Always(env, first, es + less);
      OnKeeps(env, first, Run(env, first, es + less), more[|more| - 1]);
    }
  }
}
