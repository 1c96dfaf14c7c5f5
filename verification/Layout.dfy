/** What every message looks like on the wire, byte by byte: what the parsers make of which bytes, and
    which bytes the encoders add (RFC 1928, RFC 1929, SOCKS4 and SOCKS4a). */
module Layout {
  import opened Wire

  /** The codes of the RFCs. */
  lemma Codes()
    ensures VERSION5 == 5 && VERSION4 == 4 && USER_PASS_VERSION == 1
    ensures METHOD_NO_AUTH == 0 && METHOD_USER_PASS == 2 && METHOD_NO_ACCEPTABLE == 255
    ensures CMD_CONNECT == 1 && CMD_BIND == 2 && CMD_UDP_ASSOCIATE == 3
    ensures CMD_TOR_RESOLVE == 240 && CMD_TOR_RESOLVE_PTR == 241
    ensures REPLY_SUCCEEDED == 0 && REPLY_GENERAL_FAILURE == 1 && REPLY_ATYP_NOT_SUPPORTED == 8
    ensures REPLY4_GRANTED == 90 && REPLY4_REJECTED == 91
    ensures MAX_GREETING == 257 && MAX_USER_PASS == 513 && MAX_REPLY == 262 && MAX_REQUEST4 == 520 && REPLY4_LEN == 8
  {
  }

  // ---------------------------------------------------------------- reading

  /** A byte as a number. */
  function At(b: Bytes, i: nat): int
    requires i < |b|
  {
    b[i]
  }

  /** The bytes b[at..at + 2], most significant first. */
  predicate PortAt(b: Bytes, at: nat, p: Port) { at + 2 <= |b| && p == 256 * At(b, at) + At(b, at + 1) }

  /** The address at b[3..n]: its type, itself and its port. */
  predicate AddrAt(b: Bytes, a: Addr, n: nat) {
    && 4 < n <= |b|
    && match a.host
       case V4(ip) =>
         || (b[3] == 1 && n == 10 && ip == b[4..8] && PortAt(b, 8, a.port))
         || (b[3] == 4 && n == 22 && Mapped(b[4..20]) && ip == b[16..20] && PortAt(b, 20, a.port))
       case V6(ip) => b[3] == 4 && n == 22 && ip == b[4..20] && !Mapped(ip) && PortAt(b, 20, a.port)
       case Name(name) => b[3] == 3 && b[4] > 0 && n == 7 + At(b, 4) && name == b[5..n - 2] && PortAt(b, n - 2, a.port)
       case NoHost => b[3] == 0 && n == 10 && a.port == 0
  }

  /** ::ffff:0:0/96. */
  predicate Mapped(ip: Bytes) {
    |ip| == 16 && forall i :: 0 <= i < 12 ==> ip[i] == if i < 10 then 0 else 255
  }

  /** An address message: complete with the address that is there, wrong in its type or in an empty
      name, or not there yet. */
  lemma AddrMessageRead(b: Bytes, stage: Stage, allowNoAddr: bool)
    ensures match ParseAddrMessage(b, stage, allowNoAddr)
            case Complete(a, n) => AddrAt(b, a, n) && (a.host.NoHost? ==> allowNoAddr)
            case Malformed(e) =>
              && |b| >= 4
              && ((e == BadField(stage, ATYP) && b[3] !in {1, 3, 4} && !(b[3] == 0 && allowNoAddr))
                  || (e == BadField(stage, ADDR) && b[3] == 3 && |b| >= 5 && b[4] == 0))
            case Incomplete(k) =>
              |b| < k == if |b| < 4 then 5 else if b[3] == 4 then 22 else if b[3] != 3 then 10
                         else if |b| < 5 then 5 else 7 + At(b, 4)
  {
    match ParseAddrMessage(b, stage, allowNoAddr)
    case Complete(a, n) =>
      if b[3] == ATYP_IPV6 {
        assert b[4..20][12..] == b[16..20];
      }
    case _ =>
  }

  /** VER CMD RSV and the address; the reserved byte may be anything. */
  lemma RequestRead(b: Bytes)
    ensures match ParseRequest(b)
            case Complete(m, n) => b[0] == 5 && m.cmd == b[1] && AddrAt(b, m.addr, n) && m.addr.IsValid()
            case Malformed(e) =>
              if b[0] != 5 then e == BadField(Request, VER)
              else |b| >= 4 && (e == if b[3] == 3 then BadField(Request, ADDR) else BadField(Request, ATYP))
            case Incomplete(_) => b != [] ==> b[0] == 5
  {
    AddrMessageRead(b, Request, false);
  }

  /** VER REP RSV and the address, which may be missing from an answer to a lookup only. */
  lemma ReplyRead(b: Bytes, cmd: Byte)
    ensures match ParseReply(b, cmd)
            case Complete(m, n) =>
              && b[0] == 5 && m.rep == b[1] && AddrAt(b, m.bound, n)
              && (m.bound.host.NoHost? ==> cmd == 240 || cmd == 241)
            case Malformed(e) =>
              if b[0] != 5 then e == BadField(Reply, VER)
              else
                && |b| >= 4 && (e == if b[3] == 3 then BadField(Reply, ADDR) else BadField(Reply, ATYP))
                && (b[3] == 0 ==> cmd != 240 && cmd != 241)
            case Incomplete(_) => b != [] ==> b[0] == 5
  {
    AddrMessageRead(b, Reply, AllowsNoAddr(cmd));
  }

  /** RSV RSV FRAG and the address. */
  lemma UDPHeaderRead(b: Bytes)
    ensures match ParseUDPHeader(b)
            case Complete(m, n) => m.frag == b[2] && AddrAt(b, m.addr, n) && m.addr.IsValid()
            case Malformed(e) =>
              |b| >= 4 && (e == if b[3] == 3 then BadField(UDPHeader, ADDR) else BadField(UDPHeader, ATYP))
            case Incomplete(_) => true
  {
    AddrMessageRead(b, UDPHeader, false);
  }

  /** VER NMETHODS METHODS. */
  lemma GreetingRead(b: Bytes)
    ensures match ParseGreeting(b)
            case Complete(methods, n) => |b| >= 3 && b[0] == 5 && b[1] > 0 && n == 2 + At(b, 1) <= |b| && methods == b[2..n]
            case Malformed(e) =>
              if b[0] != 5 then e == BadField(Greeting, VER) else |b| >= 2 && b[1] == 0 && e == BadField(Greeting, NMETHODS)
            case Incomplete(k) => (b != [] ==> b[0] == 5) && |b| < k == if |b| < 2 then 3 else 2 + At(b, 1)
  {
  }

  /** VER ULEN UNAME PLEN PASSWD; either may be empty. */
  lemma UserPassRead(b: Bytes)
    ensures match ParseUserPass(b)
            case Complete(c, n) =>
              && |b| >= 3 && b[0] == 1 && |c.user| == At(b, 1) && |b| > 2 + |c.user| && |c.pass| == At(b, 2 + |c.user|)
              && n == 3 + |c.user| + |c.pass| <= |b| && c.user == b[2..2 + |c.user|] && c.pass == b[3 + |c.user|..n]
            case Malformed(e) => b != [] && b[0] != 1 && e == BadField(UserPass, VER)
            case Incomplete(k) =>
              && (b != [] ==> b[0] == 1)
              && |b| < k == if |b| < 2 then 3 else if |b| <= 2 + At(b, 1) then 3 + At(b, 1)
                            else 3 + At(b, 1) + At(b, 2 + At(b, 1))
  {
  }

  /** Two bytes, the version first. */
  lemma ChoiceRead(b: Bytes)
    ensures match ParseMethodSelection(b)
            case Complete(m, n) => |b| >= 2 && b[0] == 5 && m == b[1] && n == 2
            case Malformed(e) => b != [] && b[0] != 5 && e == BadField(MethodSelection, VER)
            case Incomplete(k) => |b| < k == 2 && (b != [] ==> b[0] == 5)
    ensures match ParseUserPassStatus(b)
            case Complete(status, n) => |b| >= 2 && b[0] == 1 && status == b[1] && n == 2
            case Malformed(e) => b != [] && b[0] != 1 && e == BadField(UserPassStatus, VER)
            case Incomplete(k) => |b| < k == 2 && (b != [] ==> b[0] == 1)
  {
  }

  /** A zero-terminated text at b[at..]: what comes before the first zero byte. */
  predicate TextAt(b: Bytes, at: nat, text: Bytes) {
    at + |text| < |b| && text == b[at..at + |text|] && 0 !in text && b[at + |text|] == 0
  }

  /** VN CD PORT IP USERID NUL, and for 0.0.0.x a name and another NUL. */
  lemma Request4Read(b: Bytes)
    requires ParseRequest4(b).Complete?
    ensures var m, n := ParseRequest4(b).value, ParseRequest4(b).n;
            && |b| >= 9 && b[0] == 4 && m.cmd == b[1] && PortAt(b, 2, m.addr.port)
            && TextAt(b, 8, m.userID) && |m.userID| <= 255
            && if b[4] == 0 && b[5] == 0 && b[6] == 0 && b[7] != 0
               then m.addr.host.Name? && TextAt(b, 9 + |m.userID|, m.addr.host.name)
                    && 1 <= |m.addr.host.name| <= 255 && n == 10 + |m.userID| + |m.addr.host.name|
               else m.addr.host == V4(b[4..8]) && n == 9 + |m.userID|
  {
    var is4a := IsSocks4aIP(b[4..8]) && b[7] != 0;
    var id := CString(b, 8, USERID, 0, if is4a then 2 else 0);
    TextRead(b, 8, USERID, 0, if is4a then 2 else 0);
    if is4a {
      TextRead(b, id.n, ADDR, 1, 0);
    }
  }

  lemma TextRead(b: Bytes, at: nat, field: Field, minLen: nat, after: nat)
    requires at <= |b|
    ensures match CString(b, at, field, minLen, after)
            case Complete(text, n) => TextAt(b, at, text) && minLen <= |text| <= 255 && n == at + |text| + 1
            case Malformed(e) =>
              && e == BadField(Request4, field)
              && (forall text :: TextAt(b, at, text) ==> |text| < minLen || |text| > 255)
              && (0 in b[at..] || |b| - at > 255)
            case Incomplete(k) =>
              0 !in b[at..] && |b| - at <= 255 && k == 1 + after + if minLen > |b| - at then at + minLen else |b|
  {
    forall text | TextAt(b, at, text)
      ensures IndexNul(b[at..]) == |text|
    {
      TextEnds(b, at, text);
    }
    var i := IndexNul(b[at..]);
    if i >= 0 {
      assert b[at..at + i] == b[at..][..i];
    }
  }

  lemma TextEnds(b: Bytes, at: nat, text: Bytes)
    requires at <= |b| && TextAt(b, at, text)
    ensures IndexNul(b[at..]) == |text|
  {
    var s := b[at..];
    assert s[|text|] == 0 && forall j :: 0 <= j < |text| ==> s[j] == text[j];
  }

  /** When a SOCKS4 request is wrong: in its version, or in a text that is too long or, for a name,
      empty. */
  lemma Request4Wrong(b: Bytes)
    ensures match ParseRequest4(b)
            case Malformed(e) =>
              if b[0] != 4 then e == BadField(Request4, VER)
              else |b| >= 8 && e in {BadField(Request4, USERID), BadField(Request4, ADDR)}
            case _ => b != [] ==> b[0] == 4
    ensures ParseRequest4(b) == Malformed(BadField(Request4, USERID)) ==>
              |b| > 8 && forall id :: TextAt(b, 8, id) ==> |id| > 255
    ensures b == [] || b[0] == 4 ==> |b| < 8 ==> ParseRequest4(b) == Incomplete(9)
  {
    if |b| >= 8 && b[0] == 4 {
      var is4a := IsSocks4aIP(b[4..8]) && b[7] != 0;
      TextRead(b, 8, USERID, 0, if is4a then 2 else 0);
    }
  }

  /** VN CD PORT IP. */
  lemma Reply4Read(b: Bytes)
    ensures match ParseReply4(b)
            case Complete(m, n) =>
              |b| >= 8 && b[0] == 0 && m.rep == b[1] && PortAt(b, 2, m.bound.port) && m.bound.host == V4(b[4..8]) && n == 8
            case Malformed(e) => b != [] && b[0] != 0 && e == BadField(Reply4, VER)
            case Incomplete(k) => |b| < k == 8 && (b != [] ==> b[0] == 0)
  {
  }

  // ---------------------------------------------------------------- writing

  lemma HostWritten(h: Host)
    requires !h.NoHost? && Canonical(Addr(h, 0))
    ensures h.V6? ==> !Mapped(h.ip)
    ensures HostBytes(h) == match h
                            case V4(ip) => [1] + ip
                            case V6(ip) => [4] + ip
                            case Name(name) => [3, |name|] + name
  {
  }

  predicate IsWritten(dst: Bytes, r: Append, header: Bytes, a: Addr) {
    && r.ok && dst <= r.out
    && var m := r.out[|dst|..];
    && |m| > 4 && m[..3] == header && AddrAt(m, a, |m|) && (a.host.V4? ==> m[3] == 1)
  }

  /** The header, the address and the port, most significant byte first: the very bytes that are read
      as that address. */
  lemma AddrMessageWritten(dst: Bytes, header: Bytes, a: Addr)
    requires |header| == 3 && Canonical(a) && a.IsValid()
    ensures IsWritten(dst, AppendAddrMessage(dst, header, a), header, a)
  {
    var m := AppendAddrMessage(dst, header, a).out[|dst|..];
    assert m == header + HostBytes(a.host) + PortBytes(a.port);
    MessageIs(m, header, a);
  }

  lemma MessageIs(m: Bytes, header: Bytes, a: Addr)
    requires |header| == 3 && Canonical(a) && a.IsValid() && m == header + HostBytes(a.host) + PortBytes(a.port)
    ensures |m| > 4 && m[..3] == header && AddrAt(m, a, |m|) && (a.host.V4? ==> m[3] == 1)
  {
    hide Mapped;
    var pb := PortBytes(a.port);
    HostWritten(a.host);
    PortIn(m, header + HostBytes(a.host), a.port);
    match a.host
    case V4(ip) => Inside(m, header + [1], ip, pb);
    case V6(ip) => Inside(m, header + [4], ip, pb);
    case Name(name) => Inside(m, header + [3, |name|], name, pb);
  }

  lemma PortIn(m: Bytes, before: Bytes, p: Port)
    requires m == before + PortBytes(p)
    ensures PortAt(m, |before|, p)
  {
  }

  lemma Inside(m: Bytes, a: Bytes, b: Bytes, c: Bytes)
    requires m == a + b + c
    ensures m[..|a|] == a && m[|a|..|a| + |b|] == b
    ensures forall i :: 0 <= i < |a| ==> m[i] == a[i]
  {
  }

  lemma Written(dst: Bytes, code: Byte, a: Addr)
    requires Canonical(a) && a.IsValid()
    ensures IsWritten(dst, AppendRequest(dst, code, a), [5, code, 0], a)
    ensures IsWritten(dst, AppendReply(dst, code, a), [5, code, 0], a)
    ensures IsWritten(dst, AppendUDPHeader(dst, code, a), [0, 0, code], a)
  {
    AddrMessageWritten(dst, [VERSION5, code, 0], a);
    AddrMessageWritten(dst, [0, 0, code], a);
  }

  lemma GreetingWritten(dst: Bytes, methods: Bytes)
    ensures 1 <= |methods| <= 255 ==> AppendGreeting(dst, methods).out == dst + [5, |methods|] + methods
  {
  }

  lemma UserPassWritten(dst: Bytes, c: Credentials)
    ensures |c.user| <= 255 && |c.pass| <= 255 ==>
              AppendUserPass(dst, c).out == dst + [1, |c.user|] + c.user + [|c.pass|] + c.pass
  {
  }

  lemma ChoiceWritten(dst: Bytes, x: Byte)
    ensures AppendMethodSelection(dst, x) == dst + [5, x] && AppendUserPassStatus(dst, x) == dst + [1, x]
  {
  }

  /** SOCKS4a puts 0.0.0.1 where the IP is, and the name at the end. */
  lemma Request4Written(dst: Bytes, cmd: Byte, a: Addr, userID: Bytes)
    requires Canonical(a)
    ensures var r := AppendRequest4(dst, cmd, a, userID);
            && (r.ok <==> ((a.host.V4? && !(a.host.ip[0] == a.host.ip[1] == a.host.ip[2] == 0))
                           || (a.host.Name? && 0 !in a.host.name)) && |userID| <= 255 && 0 !in userID)
            && (!r.ok ==> r.out == dst)
            && (r.ok ==>
                  && dst <= r.out
                  && var m := r.out[|dst|..];
                  && |m| >= 9 && m[0] == 4 && m[1] == cmd && PortAt(m, 2, a.port)
                  && m[4..8] == (if a.host.V4? then a.host.ip else [0, 0, 0, 1])
                  && m[8..] == userID + [0] + if a.host.Name? then a.host.name + [0] else [])
  {
    var r := AppendRequest4(dst, cmd, a, userID);
    if r.ok {
      var m := r.out[|dst|..];
      var ip := if a.host.V4? then a.host.ip else [0, 0, 0, 1];
      var rest := userID + [0] + if a.host.Name? then a.host.name + [0] else [];
      assert m == [4, cmd] + PortBytes(a.port) + ip + rest;
      assert m[4..8] == ip && m[8..] == rest;
    }
  }

  /** A SOCKS4 reply has an IPv4 address or 0.0.0.0, and nothing else. */
  lemma Reply4Written(dst: Bytes, rep: Byte, bound: Addr)
    requires Canonical(bound)
    ensures var r := AppendReply4(dst, rep, bound);
            && (r.ok <==> !bound.host.Name? && !bound.host.V6?)
            && (!r.ok ==> r.out == dst)
            && (r.ok ==>
                  && dst <= r.out && |r.out| == |dst| + 8
                  && var m := r.out[|dst|..];
                  && m[0] == 0 && m[1] == rep && PortAt(m, 2, bound.port)
                  && m[4..8] == if bound.host.V4? then bound.host.ip else [0, 0, 0, 0])
  {
    var r := AppendReply4(dst, rep, bound);
    if r.ok {
      var ip := if bound.host.V4? then bound.host.ip else [0, 0, 0, 0];
      var m := r.out[|dst|..];
      assert m == [0, rep] + PortBytes(bound.port) + ip;
      assert m[4..8] == ip;
    }
  }
}
