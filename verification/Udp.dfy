/** A UDP association (go/socks0/server/udp.go): the relay's tables and caches, its framing, and one
    turn of each of its loops. */
module Udp {
  import opened Wire
  import opened Framing
  import opened WireContract
  import opened RoundTrip
  import Spec = UdpSpec
  import opened UdpSpec
  import Runs = UdpRuns

  /** Frames the payload at buf[HEADROOM..] where it lies: the header goes in front of it, and
      only headroom is written. */
  method Frame(buf: array<Byte>, from: Addr, n: nat) returns (start: nat)
    requires from.HasIP() && Canonical(from) && HEADROOM + n <= buf.Length
    modifies buf
    ensures start + UDPHeaderLen(from) == HEADROOM
    ensures buf[start..HEADROOM + n] == AppendUDPHeader([], 0, from).out + old(buf[HEADROOM..HEADROOM + n])
    ensures buf[..start] == old(buf[..start]) && buf[HEADROOM..] == old(buf[HEADROOM..])
    ensures ParseUDPHeader(buf[start..HEADROOM + n]) == Complete(UDPMsg(0, from), UDPHeaderLen(from))
  {
    hide ParseUDPHeader, AppendUDPHeader;
    var header := AppendUDPHeader([], 0, from).out;
    ghost var was := buf[..];
    UDPHeaderRoundTrip([], 0, from, was[HEADROOM..HEADROOM + n]);
    assert Added([], AppendUDPHeader([], 0, from)) == header;
    start := HEADROOM - |header|;
    Put(buf, start, header);
    Middle(was[..start], header, was[HEADROOM..], n);
    assert buf[start..HEADROOM + n] == buf[..][start..HEADROOM + n];
    assert was[HEADROOM..][..n] == was[HEADROOM..HEADROOM + n];
  }

  lemma Middle(a: Bytes, b: Bytes, c: Bytes, n: nat)
    requires n <= |c|
    ensures (a + b + c)[|a|..|a| + |b| + n] == b + c[..n]
    ensures (a + b + c)[..|a|] == a && (a + b + c)[|a| + |b|..] == c
  {
  }

  method Put(buf: array<Byte>, at: nat, b: Bytes)
    requires at + |b| <= buf.Length
    modifies buf
    ensures buf[..] == old(buf[..at]) + b + old(buf[at + |b|..])
  {
    forall i | 0 <= i < |b| {
      buf[at + i] := b[i];
    }
  }

  class Association {
    const env: Env
    var targets: map<Addr, Option<Why>>
    var ips: set<Host>
    var names: map<Bytes, Entry>
    var prev: Prev
    var clientPort: Port // 0 until locked
    ghost var clock: int // time does not go back

    ghost function View(): Tables
      reads this
    {
      Tables(targets, ips, names)
    }

    ghost predicate Valid()
      reads this
    {
      Ok(env, View()) && CacheOk(env, View(), prev, clock)
    }

    /** The relay of UdpRuns while neither loop is under way. */
    ghost function Relay(): Runs.Relay
      reads this
    {
      Runs.Start(clientPort).(t := View())
    }

    /** newAssociation, for a request to dst. */
    constructor (env: Env, dst: Addr)
      ensures Valid() && this.env == env && Relay() == Runs.Start(FirstPort(env, dst))
    {
      this.env := env;
      targets, ips, names, prev, clock := map[], {}, map[], NoPrev, 0;
      clientPort := FirstPort(env, dst);
    }

    /** One turn of up, on the first n bytes of buf: where the payload goes, if anywhere. The first
        datagram let through locks the client's port. */
    method Up(host: Host, port: Port, buf: array<Byte>, n: nat, now: int) returns (dst: Option<Addr>, payload: Bytes)
      requires Valid() && clock <= now && n <= buf.Length
      modifies `targets, `ips, `names, `prev, `clock, `clientPort
      ensures Valid()
      ensures var e := Runs.FromClient(host, port, buf[..n], n == buf.Length, now);
              var z := Runs.On(env, Runs.On(env, old(Relay()), e), Runs.UpGoes);
              && Relay() == z.(sent := [])
              && z.sent == if dst.Some? then [Runs.Sent(dst.value, host, port)] else []
      ensures host != env.clientIP || (old(clientPort) != 0 && port != old(clientPort)) || n == buf.Length ==>
                dst.None? && View() == old(View()) && clientPort == old(clientPort)
      ensures dst.Some? ==>
                && ParseUDPHeader(buf[..n]).Complete? && ParseUDPHeader(buf[..n]).n <= n
                && payload == buf[ParseUDPHeader(buf[..n]).n..n]
    {
      hide HeaderVerdict, ParseUDPHeader, Ok, CacheOk;
      dst, payload := None, [];
      if host != env.clientIP || (clientPort != 0 && port != clientPort) || n == buf.Length {
        return;
      }
      HeaderLength(View(), buf[..n], now);
      var v := Header(buf[..n], now);
      if v.err.Some? {
        return;
      }
      if clientPort == 0 {
        clientPort := port;
      }
      dst, payload := Some(v.dst), buf[v.n..n];
    }

    lemma HeaderLength(t: Tables, p: Bytes, now: int)
      ensures var v := HeaderVerdict(env, t, p, now).1;
              v.err.None? ==> ParseUDPHeader(p).Complete? && v.n == ParseUDPHeader(p).n <= |p|
    {
      UDPHeaderFramed();
      assert UDPHeaderParser()(p) == ParseUDPHeader(p);
    }

    /** One turn of down, on n bytes behind the headroom of buf: where in buf the datagram starts that
        goes to the client, and to which port, if it is let through. */
    method Down(buf: array<Byte>, from: Addr, n: nat) returns (port: Option<Port>, start: nat)
      requires from.HasIP() && Canonical(from) && HEADROOM + n <= buf.Length
      modifies buf
      ensures var tooLarge := HEADROOM + n == buf.Length;
              var got := Runs.On(env, Relay(), Runs.FromTarget(from));
              var z := Runs.On(env, Runs.On(env, got, Runs.DownGoes(tooLarge)), Runs.DownGoes(tooLarge));
              z == Relay().(delivered := if port.Some? then [Runs.Delivery(from, port.value, 0)] else [])
      ensures if port.None? then buf[..] == old(buf[..])
              else
                && start + UDPHeaderLen(from) == HEADROOM
                && buf[start..HEADROOM + n] == AppendUDPHeader([], 0, from).out + old(buf[HEADROOM..HEADROOM + n])
    {
      hide AppendUDPHeader, Spec.Solicited;
      port, start := None, HEADROOM;
      if clientPort == 0 {
        return;
      }
      var ok := Solicited(from);
      if !ok || HEADROOM + n == buf.Length {
        return;
      }
      port := Some(clientPort);
      start := Frame(buf, from, n);
    }

    predicate IsFull()
      reads this
    {
      |targets| + |names| >= env.maxTargets
    }

    method Lookup(name: Bytes, port: Port, now: int) returns (e: Option<Entry>)
      modifies `names
      ensures (View(), e) == Spec.Lookup(env, old(View()), name, port, now)
    {
      if name in names && now < names[name].exp {
        return Some(names[name]);
      }
      if name !in names && IsFull() {
        return None;
      }
      var entry := Resolve(env, name, port, now);
      names := names[name := entry];
      e := Some(entry);
    }

    method Admit(dst: Addr) returns (err: Option<Why>)
      modifies `targets, `ips
      ensures (View(), err) == Spec.Admit(env, old(View()), dst)
    {
      if dst in targets {
        return targets[dst];
      }
      if !dst.HasIP() {
        return Some(INVALID);
      }
      if IsFull() {
        return Some(TooManyTargets);
      }
      err := env.vet(dst);
      targets := targets[dst := err];
      if err.None? {
        ips := ips + {dst.host};
      }
    }

    method Judge(addr: Addr, now: int) returns (v: Verdict)
      modifies `targets, `ips, `names
      ensures (View(), v) == Spec.Judge(env, old(View()), addr, now)
    {
      hide Spec.Admit, Spec.Lookup;
      var dst, expires := addr, None;
      if addr.host.Name? {
        var e := Lookup(addr.host.name, addr.port, now);
        if e.None? {
          return Verdict(ZERO_ADDR, 0, Some(TooManyTargets), None);
        }
        if e.value.err.Some? {
          return Verdict(Addr(e.value.ip, addr.port), 0, e.value.err, Some(e.value.exp));
        }
        dst, expires := Addr(e.value.ip, addr.port), Some(e.value.exp);
      }
      var err := Admit(dst);
      v := Verdict(dst, 0, err, expires);
    }

    /** header: with the one-entry cache in front, every datagram is told what parsing and judging it
        would tell, and the tables end up the same. */
    method Header(p: Bytes, now: int) returns (v: Verdict)
      requires Valid() && clock <= now
      modifies `targets, `ips, `names, `prev, `clock
      ensures Valid() && clock == now
      ensures var (u, w) := HeaderVerdict(env, old(View()), p, now);
              View() == u && Told(v) == Told(w)
    {
      hide Spec.Judge, ParseUDPHeader, Ok;
      ghost var t, was := View(), clock;
      clock := now;
      HeaderKeeps(env, t, p, now);
      CacheSurvives(env, t, HeaderVerdict(env, t, p, now).0, prev, was, now);
      if prev.Prev? && prev.raw <= p && (prev.v.expires.Some? ==> now < prev.v.expires.value) {
        CacheHit(env, t, prev, p, was, now);
        return prev.v;
      }
      v := Miss(p, now);
    }

    method Miss(p: Bytes, now: int) returns (v: Verdict)
      requires Ok(env, View())
      modifies `targets, `ips, `names, `prev
      ensures (View(), v) == HeaderVerdict(env, old(View()), p, now)
      ensures prev == old(prev) || CacheOk(env, View(), prev, now)
      ensures var parsed := ParseUDPHeader(p);
              prev == if parsed.Complete? && parsed.value.frag == 0 && v.err != Some(TooManyTargets)
                      then Prev(p[..parsed.n], v) else old(prev)
    {
      hide Spec.Judge, ParseUDPHeader, Ok;
      var parsed := ParseUDPHeader(p);
      if !parsed.Complete? {
        return Verdict(ZERO_ADDR, 0, Some(BadHeader(if parsed.Malformed? then parsed.err else Truncated(UDPHeader))), None);
      }
      if parsed.value.frag != 0 {
        return Verdict(ZERO_ADDR, 0, Some(Fragment), None);
      }
      ghost var t := View();
      v := Judge(parsed.value.addr, now);
      v := v.(n := parsed.n);
      if v.err == Some(TooManyTargets) {
        return;
      }
      CacheFilled(env, t, p, now);
      prev := Prev(p[..v.n], v);
    }

    method Solicited(from: Addr) returns (ok: bool)
      ensures ok == Spec.Solicited(env, View(), from)
    {
      match env.filtering
      case EndpointIndependent => ok := true;
      case AddressDependent => ok := from.host in ips;
      case AddressAndPortDependent => ok := from in targets && targets[from].None?;
    }
  }
}
