/** Where a datagram of a UDP association may go (go/socks0/server/udp.go), and why a one-entry header
    cache in front changes nothing. */
module UdpSpec {
  import opened Wire
  import opened Framing
  import opened WireContract
  import opened RoundTrip

  const NAME_TTL := 60_000_000_000
  const HEADROOM := 3 + 1 + 16 + 2

  datatype Filtering = AddressAndPortDependent | AddressDependent | EndpointIndependent

  /** Why a datagram is dropped. */
  datatype Why =
    | WrongSource | TooLarge | Unsolicited | TooManyTargets | Fragment | NotFound
    | BadHeader(err: Error) | Denied(reason: nat) | LookupFailed(dns: bool, code: nat)

  datatype Entry = Entry(ip: Host, err: Option<Why>, exp: int)

  datatype Answer = Answer(ips: seq<Host>, err: Option<Why>)

  /** The filter, which is pure, and what the resolver would say when asked. */
  datatype Env = Env(
    maxTargets: nat, filtering: Filtering, clientIP: Host,
    allow: Addr -> Option<Why>, vet: Addr -> Option<Why>, resolve: (Bytes, int) -> Answer)

  /** What was ever asked for: IP:ports with the filter's answer, their IPs, and names. */
  datatype Tables = Tables(targets: map<Addr, Option<Why>>, ips: set<Host>, names: map<Bytes, Entry>)

  const NO_TABLES := Tables(map[], {}, map[])
  const INVALID := Denied(0)

  /** expires is set for a name. */
  datatype Verdict = Verdict(dst: Addr, n: nat, err: Option<Why>, expires: Option<int>)

  // ----------------------------------------------------- without the caches

  predicate Full(env: Env, t: Tables) { |t.targets| + |t.names| >= env.maxTargets }

  /** The first answer the filter allows, and its first denial before that. */
  function FirstAllowed(env: Env, ips: seq<Host>, port: Port): (Option<Host>, Option<Why>) {
    if ips == [] then (None, None)
    else
      var denial := env.allow(Addr(ips[0], port));
      if denial.None? then (Some(ips[0]), None)
      else (FirstAllowed(env, ips[1..], port).0, denial)
  }

  /** Without an address to go to: the resolver's failure, unless it is an answer about the name; else the
      filter's first denial; else that answer. */
  function Resolve(env: Env, name: Bytes, port: Port, now: int): Entry {
    var a := env.resolve(name, now);
    var (ip, denial) := FirstAllowed(env, a.ips, port);
    var exp := now + NAME_TTL;
    if ip.Some? then Entry(ip.value, None, exp)
    else if denial.Some? && (a.err.None? || (a.err.value.LookupFailed? && a.err.value.dns)) then Entry(NoHost, denial, exp)
    else if a.err.Some? then Entry(NoHost, a.err, exp)
    else Entry(NoHost, Some(NotFound), exp)
  }

  /** A name stands for the first of its addresses the filter allows; if there is none, for nothing. */
  lemma ResolvedAllowed(env: Env, name: Bytes, port: Port, now: int)
    ensures var e, ips := Resolve(env, name, port, now), env.resolve(name, now).ips;
            && e.exp == now + NAME_TTL
            && (e.err.None? <==> exists i :: 0 <= i < |ips| && env.allow(Addr(ips[i], port)).None?)
            && (e.err.None? ==> exists i :: 0 <= i < |ips| && ips[i] == e.ip && env.allow(Addr(ips[i], port)).None?
                                            && forall j :: 0 <= j < i ==> env.allow(Addr(ips[j], port)).Some?)
  {
    FirstIsAllowed(env, env.resolve(name, now).ips, port);
  }

  lemma {:induction false} FirstIsAllowed(env: Env, ips: seq<Host>, port: Port)
    ensures var (ip, denial) := FirstAllowed(env, ips, port);
            && (ip.None? <==> forall i :: 0 <= i < |ips| ==> env.allow(Addr(ips[i], port)).Some?)
            && (ip.Some? ==> exists i :: 0 <= i < |ips| && ips[i] == ip.value && env.allow(Addr(ips[i], port)).None?
                                         && forall j :: 0 <= j < i ==> env.allow(Addr(ips[j], port)).Some?)
            && (ip.None? && ips != [] ==> denial == env.allow(Addr(ips[0], port)))
  {
    if ips != [] && env.allow(Addr(ips[0], port)).Some? {
      FirstIsAllowed(env, ips[1..], port);
      var (ip, _) := FirstAllowed(env, ips[1..], port);
      assert forall i :: 0 < i < |ips| ==> ips[i] == ips[1..][i - 1];
      if ip.Some? {
        var i :| 0 <= i < |ips[1..]| && ips[1..][i] == ip.value && env.allow(Addr(ips[1..][i], port)).None?
                 && forall j :: 0 <= j < i ==> env.allow(Addr(ips[1..][j], port)).Some?;
        assert ips[i + 1] == ip.value;
      }
    }
  }

  function Lookup(env: Env, t: Tables, name: Bytes, port: Port, now: int): (Tables, Option<Entry>) {
    if name in t.names && now < t.names[name].exp then (t, Some(t.names[name]))
    else if name !in t.names && Full(env, t) then (t, None)
    else
      var e := Resolve(env, name, port, now);
      (t.(names := t.names[name := e]), Some(e))
  }

  function Admit(env: Env, t: Tables, dst: Addr): (Tables, Option<Why>) {
    if dst in t.targets then (t, t.targets[dst])
    else if !dst.HasIP() then (t, Some(INVALID))
    else if Full(env, t) then (t, Some(TooManyTargets))
    else
      var err := env.vet(dst);
      (Tables(t.targets[dst := err], if err.None? then t.ips + {dst.host} else t.ips, t.names), err)
  }

  function Judge(env: Env, t: Tables, addr: Addr, now: int): (Tables, Verdict) {
    if addr.host.Name? then
      var (u, e) := Lookup(env, t, addr.host.name, addr.port, now);
      if e.None? then (u, Verdict(ZERO_ADDR, 0, Some(TooManyTargets), None))
      else if e.value.err.Some? then (u, Verdict(Addr(e.value.ip, addr.port), 0, e.value.err, Some(e.value.exp)))
      else
        var dst := Addr(e.value.ip, addr.port);
        var (v, err) := Admit(env, u, dst);
        (v, Verdict(dst, 0, err, Some(e.value.exp)))
    else
      var (u, err) := Admit(env, t, addr);
      (u, Verdict(addr, 0, err, None))
  }

  /** Where a client datagram goes, every header parsed and judged. */
  function HeaderVerdict(env: Env, t: Tables, p: Bytes, now: int): (Tables, Verdict) {
    match ParseUDPHeader(p)
    case Incomplete(_) => (t, Verdict(ZERO_ADDR, 0, Some(BadHeader(Truncated(UDPHeader))), None))
    case Malformed(e) => (t, Verdict(ZERO_ADDR, 0, Some(BadHeader(e)), None))
    case Complete(m, n) =>
      if m.frag != 0 then (t, Verdict(ZERO_ADDR, 0, Some(Fragment), None))
      else
        var (u, v) := Judge(env, t, m.addr, now);
        (u, v.(n := n))
  }

  /** A datagram by its destination, header length and verdict. */
  function Told(v: Verdict): (Addr, nat, Option<Why>) { (v.dst, v.n, v.err) }

  /** Whether a datagram from `from` may reach the client (section 5 of RFC 4787). */
  predicate Solicited(env: Env, t: Tables, from: Addr) {
    match env.filtering
    case EndpointIndependent => true
    case AddressDependent => from.host in t.ips
    case AddressAndPortDependent => from in t.targets && t.targets[from].None?
  }

  predicate Unspecified(h: Host) {
    match h
    case V4(ip) => forall i :: 0 <= i < |ip| ==> ip[i] == 0
    case V6(ip) => forall i :: 0 <= i < |ip| ==> ip[i] == 0
    case _ => false
  }

  /** The client port that a request for an association to dst locks; 0 leaves that to the first
      datagram. */
  function FirstPort(env: Env, dst: Addr): Port {
    if dst.HasIP() && (dst.host == env.clientIP || Unspecified(dst.host)) then dst.port else 0
  }

  // ------------------------------------------------------------- invariants

  /** The bound, and that ips is exactly the IPs with an admitted port. */
  ghost predicate Ok(env: Env, t: Tables) {
    && |t.targets| + |t.names| <= env.maxTargets
    && (forall d :: d in t.targets ==> d.HasIP() && t.targets[d] == env.vet(d))
    && IpsMirror(t.targets, t.ips)
  }

  /** u knows everything t knew; a name is asked for again only once its entry is over. */
  ghost predicate Knows(t: Tables, u: Tables, now: int) {
    && (forall d :: d in t.targets ==> d in u.targets && u.targets[d] == t.targets[d])
    && t.ips <= u.ips
    && (forall m :: m in t.names ==> m in u.names && (now < t.names[m].exp ==> u.names[m] == t.names[m]))
  }

  /** ips is the IPs with an admitted port. */
  ghost predicate IpsMirror(targets: map<Addr, Option<Why>>, ips: set<Host>) {
    forall ip :: ip in ips <==> exists d :: d in targets && targets[d].None? && d.host == ip
  }

  lemma MirrorsOneMore(targets: map<Addr, Option<Why>>, ips: set<Host>, dst: Addr, err: Option<Why>)
    requires IpsMirror(targets, ips) && dst !in targets
    ensures IpsMirror(targets[dst := err], if err.None? then ips + {dst.host} else ips)
  {
    var more, now := targets[dst := err], if err.None? then ips + {dst.host} else ips;
    forall ip | ip in now
      ensures exists d :: d in more && more[d].None? && d.host == ip
    {
      if ip in ips {
        var d :| d in targets && targets[d].None? && d.host == ip;
        assert d in more && more[d] == targets[d];
      } else {
        assert dst in more;
      }
    }
  }

  lemma AdmitNew(env: Env, t: Tables, dst: Addr, now: int)
    requires Ok(env, t) && dst !in t.targets && dst.HasIP() && !Full(env, t)
    ensures Ok(env, Admit(env, t, dst).0) && Knows(t, Admit(env, t, dst).0, now)
  {
    hide IpsMirror;
    MirrorsOneMore(t.targets, t.ips, dst, env.vet(dst));
  }

  lemma AdmitKeeps(env: Env, t: Tables, dst: Addr, now: int)
    requires Ok(env, t)
    ensures var (u, err) := Admit(env, t, dst); Ok(env, u) && Knows(t, u, now)
    ensures var (u, err) := Admit(env, t, dst);
            && (err.None? ==> dst in u.targets && u.targets[dst].None? && dst.host in u.ips)
            && (forall d :: d in u.targets && u.targets[d].None? && d !in t.targets ==> d == dst && err.None?)
  {
    if dst !in t.targets && dst.HasIP() && !Full(env, t) {
      hide Ok, Knows;
      AdmitNew(env, t, dst, now);
    } else if dst in t.targets && t.targets[dst].None? {
      assert dst.host in t.ips;
    }
  }

  lemma ResolvedUntil(env: Env, name: Bytes, port: Port, now: int)
    ensures Resolve(env, name, port, now).exp == now + NAME_TTL
  {
  }

  lemma LookupKeeps(env: Env, t: Tables, name: Bytes, port: Port, now: int)
    requires Ok(env, t)
    ensures var (u, e) := Lookup(env, t, name, port, now);
            && Ok(env, u) && Knows(t, u, now) && u.targets == t.targets
            && (e.Some? ==> name in u.names && u.names[name] == e.value && now < e.value.exp)
  {
    hide Resolve, IpsMirror;
    ResolvedUntil(env, name, port, now);
    OneMoreName(t.names, name, Resolve(env, name, port, now));
  }

  lemma OneMoreName(names: map<Bytes, Entry>, name: Bytes, e: Entry)
    ensures |names[name := e]| == |names| + if name in names then 0 else 1
  {
    if name in names {
      assert names[name := e].Keys == names.Keys;
    } else {
      assert names[name := e].Keys == names.Keys + {name};
    }
  }

  ghost predicate AnyAllowed(env: Env, name: Bytes, port: Port, now: int) {
    var ips := env.resolve(name, now).ips;
    exists i :: 0 <= i < |ips| && env.allow(Addr(ips[i], port)).None?
  }

  /** Names are kept without the port they were asked for. So until the entry is over the answer for one
      port serves every other. As to denial it is the answer port q would get exactly if the filter
      allows an address at q just when it allowed one at p. */
  lemma NameForEveryPort(env: Env, t: Tables, name: Bytes, p: Port, q: Port, now: int, later: int)
    requires if name in t.names then t.names[name].exp <= now else !Full(env, t)
    requires now <= later < now + NAME_TTL
    ensures var u, kept := Lookup(env, t, name, p, now).0, Resolve(env, name, p, now);
            && Lookup(env, u, name, q, later) == (u, Some(kept))
            && (kept.err.Some? ==>
                  Judge(env, u, Addr(Name(name), q), later) == (u, Verdict(Addr(kept.ip, q), 0, kept.err, Some(kept.exp))))
            && (kept.err.None? <==> AnyAllowed(env, name, p, now))
            && ((kept.err.None? <==> Resolve(env, name, q, later).err.None?)
                <==> (AnyAllowed(env, name, p, now) <==> AnyAllowed(env, name, q, later)))
  {
    ResolvedAllowed(env, name, p, now);
    ResolvedAllowed(env, name, q, later);
  }

  /** A filter against mail: a name that was asked for at port 25 is denied at port 80 too. */
  lemma DeniedForAnotherPort() returns (env: Env, t: Tables)
    ensures var web := Addr(Name([97]), 80);
            && Judge(env, NO_TABLES, Addr(Name([97]), 25), 0) == (t, Verdict(Addr(NoHost, 25), 0, Some(Denied(1)), Some(NAME_TTL)))
            && Judge(env, t, web, 1).1.err == Some(Denied(1)) && Judge(env, NO_TABLES, web, 1).1.err == None
  {
    var allow := (a: Addr) => if a.port == 25 then Some(Denied(1)) else None;
    env := Env(1024, AddressAndPortDependent, V4([192, 0, 2, 9]), allow, allow,
               (name: Bytes, now: int) => Answer([V4([192, 0, 2, 1])], None));
    t := NO_TABLES.(names := map[[97] := Entry(NoHost, Some(Denied(1)), NAME_TTL)]);
    assert FirstAllowed(env, [V4([192, 0, 2, 1])], 80) == (Some(V4([192, 0, 2, 1])), None);
    assert FirstAllowed(env, [], 25) == (None, None);
  }

  lemma JudgeKeeps(env: Env, t: Tables, addr: Addr, now: int)
    requires Ok(env, t)
    ensures var (u, v) := Judge(env, t, addr, now);
            && Ok(env, u) && Knows(t, u, now)
            && (v.err.None? ==> v.dst in u.targets && u.targets[v.dst].None? && v.dst.host in u.ips)
            && (forall d :: d in u.targets && u.targets[d].None? && d !in t.targets ==> d == v.dst && v.err.None?)
  {
    hide Admit, Lookup, Ok;
    if addr.host.Name? {
      LookupKeeps(env, t, addr.host.name, addr.port, now);
      var (u, e) := Lookup(env, t, addr.host.name, addr.port, now);
      if e.Some? && e.value.err.None? {
        AdmitKeeps(env, u, Addr(e.value.ip, addr.port), now);
      }
    } else {
      AdmitKeeps(env, t, addr, now);
    }
  }

  lemma HeaderKeeps(env: Env, t: Tables, p: Bytes, now: int)
    requires Ok(env, t)
    ensures var (u, v) := HeaderVerdict(env, t, p, now);
            && Ok(env, u) && Knows(t, u, now)
            && (v.err.None? ==> v.n <= |p| && v.dst in u.targets && u.targets[v.dst].None? && v.dst.host in u.ips)
            && (forall d :: d in u.targets && u.targets[d].None? && d !in t.targets ==> d == v.dst && v.err.None?)
  {
    hide Judge, Ok;
    if ParseUDPHeader(p).Complete? {
      JudgeKeeps(env, t, ParseUDPHeader(p).value.addr, now);
    }
  }

  // ------------------------------------------------------- the header cache

  /** The last header with its verdict. */
  datatype Prev = NoPrev | Prev(raw: Bytes, v: Verdict)

  predicate Fresh(v: Verdict, now: int) { v.expires.Some? ==> now < v.expires.value }

  predicate Matches(prev: Prev, p: Bytes, now: int) { prev.Prev? && prev.raw <= p && Fresh(prev.v, now) }

  /** While it is fresh, judging the cached header again would change nothing and say the same. */
  ghost predicate CacheOk(env: Env, t: Tables, prev: Prev, clock: int) {
    prev.Prev? ==>
      && ParseUDPHeader(prev.raw).Complete? && ParseUDPHeader(prev.raw).n == |prev.raw| == prev.v.n
      && ParseUDPHeader(prev.raw).value.frag == 0 && prev.v.err != Some(TooManyTargets)
      && forall now :: clock <= now && Fresh(prev.v, now) ==>
           Judge(env, t, ParseUDPHeader(prev.raw).value.addr, now) == (t, prev.v.(n := 0))
  }

  /** A hit says what the whole way would. */
  lemma CacheHit(env: Env, t: Tables, prev: Prev, p: Bytes, clock: int, now: int)
    requires CacheOk(env, t, prev, clock) && clock <= now && Matches(prev, p, now)
    ensures HeaderVerdict(env, t, p, now) == (t, prev.v)
  {
    hide Judge, ParseUDPHeader;
    UDPHeaderFramed();
    DecidedParse(prev.raw, p);
  }

  lemma DecidedParse(b: Bytes, c: Bytes)
    requires b <= c && ParseUDPHeader(b).Complete?
    ensures ParseUDPHeader(c) == ParseUDPHeader(b)
  {
    AddrMessageStable(UDPHeader, false, b, c);
  }

  lemma AdmittedAgain(env: Env, t: Tables, dst: Addr)
    ensures var (u, err) := Admit(env, t, dst); err != Some(TooManyTargets) ==> Admit(env, u, dst) == (u, err)
  {
  }

  /** Asked again before it expires, the judgement is the same and changes nothing. */
  lemma JudgedAgain(env: Env, t: Tables, addr: Addr, now: int, later: int)
    requires Ok(env, t) && now <= later
    requires var (u, v) := Judge(env, t, addr, now); v.err != Some(TooManyTargets) && Fresh(v, later)
    ensures var (u, v) := Judge(env, t, addr, now); v.n == 0 && Judge(env, u, addr, later) == (u, v)
  {
    var (u, v) := Judge(env, t, addr, now);
    if addr.host.Name? {
      LookupKeeps(env, t, addr.host.name, addr.port, now);
      var (w, e) := Lookup(env, t, addr.host.name, addr.port, now);
      assert u.names == w.names;
      assert Lookup(env, u, addr.host.name, addr.port, later) == (u, e);
      if e.value.err.None? {
        AdmittedAgain(env, w, Addr(e.value.ip, addr.port));
        assert Judge(env, u, addr, later) == (u, v);
      } else {
        assert Judge(env, u, addr, later) == (u, v);
      }
    } else {
      AdmittedAgain(env, t, addr);
      assert Judge(env, u, addr, later) == (u, v);
    }
  }

  lemma AdmittedElsewhere(env: Env, t: Tables, u: Tables, dst: Addr, now: int)
    requires Ok(env, u) && Knows(t, u, now) && Admit(env, t, dst).0 == t && Admit(env, t, dst).1 != Some(TooManyTargets)
    ensures Admit(env, u, dst) == (u, Admit(env, t, dst).1)
  {
    var added := t.targets[dst := env.vet(dst)];
    assert dst in added;
  }

  /** What others do to the tables does not touch a fresh verdict. */
  lemma JudgedElsewhere(env: Env, t: Tables, u: Tables, addr: Addr, v: Verdict, now: int, later: int)
    requires Ok(env, u) && Knows(t, u, now) && now <= later && v.err != Some(TooManyTargets) && Fresh(v, later)
    requires Judge(env, t, addr, later) == (t, v)
    ensures Judge(env, u, addr, later) == (u, v)
  {
    if addr.host.Name? {
      var name := addr.host.name;
      var (w, e) := Lookup(env, t, name, addr.port, later);
      assert e.Some? && w.names == t.names && w.targets == t.targets && w.ips == t.ips;
      assert name in t.names && t.names[name] == e.value && later < e.value.exp;
      assert Lookup(env, u, name, addr.port, later) == (u, e);
      if e.value.err.None? {
        AdmittedElsewhere(env, t, u, Addr(e.value.ip, addr.port), now);
        assert Judge(env, u, addr, later) == (u, v);
      }
    } else {
      AdmittedElsewhere(env, t, u, addr, now);
      assert Judge(env, u, addr, later) == (u, v);
    }
  }

  lemma CacheFilled(env: Env, t: Tables, p: Bytes, now: int)
    requires Ok(env, t)
    requires var (u, v) := HeaderVerdict(env, t, p, now);
             ParseUDPHeader(p).Complete? && ParseUDPHeader(p).value.frag == 0 && v.err != Some(TooManyTargets)
    ensures var (u, v) := HeaderVerdict(env, t, p, now);
            v.n <= |p| && CacheOk(env, u, Prev(p[..v.n], v), now)
  {
    hide Judge, Ok;
    var (u, v) := HeaderVerdict(env, t, p, now);
    UDPHeaderFramed();
    OwnBytes(UDPHeaderParser(), MAX_REPLY, p);
    var addr := ParseUDPHeader(p).value.addr;
    forall later | now <= later && Fresh(v, later)
      ensures Judge(env, u, addr, later) == (u, v.(n := 0))
    {
      JudgedAgain(env, t, addr, now, later);
    }
  }

  lemma CacheSurvives(env: Env, t: Tables, u: Tables, prev: Prev, clock: int, now: int)
    requires CacheOk(env, t, prev, clock) && Ok(env, u) && Knows(t, u, now) && clock <= now
    ensures CacheOk(env, u, prev, now)
  {
    hide Judge, ParseUDPHeader;
    if prev.Prev? {
      var addr := ParseUDPHeader(prev.raw).value.addr;
      forall later | now <= later && Fresh(prev.v, later)
        ensures Judge(env, u, addr, later) == (u, prev.v.(n := 0))
      {
        JudgedElsewhere(env, t, u, addr, prev.v.(n := 0), now, later);
      }
    }
  }
}
