/** Where a client datagram goes and why one is dropped, case by case (go/socks0/server/udp.go, header,
    judge, lookup, resolve and admit). */
module UdpLaws {
  import opened Wire
  import opened Layout
  import opened UdpSpec

  /** A name without an address to go to: what is reported is the first denial, unless the lookup failed
      for a reason that is not an answer about the name; without a denial it is the lookup's error, or
      that there is none. */
  lemma Unresolved(env: Env, name: Bytes, port: Port, now: int)
    ensures var a, e := env.resolve(name, now), Resolve(env, name, port, now);
            && e.exp == now + 60_000_000_000
            && ((forall i :: 0 <= i < |a.ips| ==> env.allow(Addr(a.ips[i], port)).Some?) ==>
                  && e.ip == NoHost
                  && e.err == if a.err.Some? && !(a.err.value.LookupFailed? && a.err.value.dns) then a.err
                              else if a.ips != [] then env.allow(Addr(a.ips[0], port))
                              else if a.err.Some? then a.err
                              else Some(NotFound))
  {
    FirstIsAllowed(env, env.resolve(name, now).ips, port);
  }

  /** A name that is known and not over is not asked for; a new one is, if there is room for it, and
      then kept for 60 s; one that is over is asked for again, room or not. */
  lemma Looks(env: Env, t: Tables, name: Bytes, port: Port, now: int)
    ensures var (u, e) := Lookup(env, t, name, port, now);
            && u.targets == t.targets && u.ips == t.ips
            && (name in t.names && now < t.names[name].exp ==> u == t && e == Some(t.names[name]))
            && (name !in t.names && |t.targets| + |t.names| >= env.maxTargets ==> u == t && e == None)
            && ((name in t.names && t.names[name].exp <= now)
                || (name !in t.names && |t.targets| + |t.names| < env.maxTargets) ==>
                  e == Some(Resolve(env, name, port, now)) && u.names == t.names[name := e.value])
  {
  }

  /** An IP:port is put to the filter once, and its answer kept, if there is room for it. */
  lemma Admits(env: Env, t: Tables, dst: Addr)
    ensures var (u, err) := Admit(env, t, dst);
            && u.names == t.names
            && (dst in t.targets ==> u == t && err == t.targets[dst])
            && (dst !in t.targets && !dst.HasIP() ==> u == t && err == Some(Denied(0)))
            && (dst !in t.targets && dst.HasIP() && |t.targets| + |t.names| >= env.maxTargets ==>
                  u == t && err == Some(TooManyTargets))
            && (dst !in t.targets && dst.HasIP() && |t.targets| + |t.names| < env.maxTargets ==>
                  && err == env.vet(dst) && u.targets == t.targets[dst := err]
                  && u.ips == if err.None? then t.ips + {dst.host} else t.ips)
  {
  }

  /** A datagram goes to the address its header names; a name, to the IP it stands for, at the port of
      the header. A fragment goes nowhere. */
  lemma Goes(env: Env, t: Tables, p: Bytes, now: int)
    ensures var (u, v) := HeaderVerdict(env, t, p, now);
            match ParseUDPHeader(p)
            case Incomplete(_) => u == t && v.err == Some(BadHeader(Truncated(UDPHeader)))
            case Malformed(e) => u == t && v.err == Some(BadHeader(e))
            case Complete(m, n) =>
              if p[2] != 0 then u == t && v.err == Some(Fragment)
              else
                && v.n == n
                && (v.err.None? && !m.addr.host.Name? ==> v.dst == m.addr)
                && (v.err.None? && m.addr.host.Name? ==>
                      && m.addr.host.name in u.names && now < u.names[m.addr.host.name].exp
                      && v.dst == Addr(u.names[m.addr.host.name].ip, m.addr.port)
                      && v.expires == Some(u.names[m.addr.host.name].exp))
  {
    UDPHeaderRead(p);
    if ParseUDPHeader(p).Complete? {
      var a := ParseUDPHeader(p).value.addr;
      if a.host.Name? {
        Unresolved(env, a.host.name, a.port, now);
      }
    }
  }

  /** Why a datagram with a good header is dropped: its name is new and there is no room, or stands for
      nothing, or its target is one that Admit turns away. */
  lemma Drops(env: Env, t: Tables, addr: Addr, now: int)
    ensures var v := Judge(env, t, addr, now).1;
            if !addr.host.Name? then v.err == Admit(env, t, addr).1 && v.expires.None?
            else
              var (u, e) := Lookup(env, t, addr.host.name, addr.port, now);
              if e.None? then v.err == Some(TooManyTargets) && v.expires.None?
              else
                v.expires == Some(e.value.exp)
                && v.err == if e.value.err.Some? then e.value.err else Admit(env, u, Addr(e.value.ip, addr.port)).1
  {
  }

  /** The headroom fits the longest header in front of a target's datagram, and no more. */
  lemma Headroom(a: Addr)
    requires a.HasIP()
    ensures UDPHeaderLen(a) == (if a.host.V6? then 22 else 10) && HEADROOM == 22
  {
  }

  /** The port a request names is the client's only if it comes with the client's own IP, or with none. */
  lemma Named(env: Env, dst: Addr)
    ensures FirstPort(env, dst) != 0 ==> FirstPort(env, dst) == dst.port
    ensures FirstPort(env, dst) != 0 <==>
              && dst.port != 0 && (dst.host.V4? || dst.host.V6?)
              && (dst.host == env.clientIP || forall i :: 0 <= i < |dst.host.ip| ==> dst.host.ip[i] == 0)
  {
  }
}
