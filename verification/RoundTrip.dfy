/** Encoding then parsing gives the value back, whatever follows it; parsing then encoding gives
    the message back in its canonical form. */
module RoundTrip {
  import opened Wire

  /** The message an append added to dst. */
  function Added(dst: Bytes, r: Append): Bytes
    requires dst <= r.out
  {
    r.out[|dst|..]
  }

  lemma GreetingRoundTrip(dst: Bytes, methods: Bytes, tail: Bytes)
    ensures var r := AppendGreeting(dst, methods);
            && dst <= r.out
            && (r.ok <==> 1 <= |methods| <= 255)
            && (!r.ok ==> r.out == dst)
            && (r.ok ==> ParseGreeting(Added(dst, r) + tail) == Complete(methods, |r.out| - |dst|))
  {
    var r := AppendGreeting(dst, methods);
    if r.ok {
      var m := Added(dst, r) + tail;
      assert m == [VERSION5, |methods|] + methods + tail;
      assert m[2..2 + |methods|] == methods;
    }
  }

  lemma UserPassRoundTrip(dst: Bytes, c: Credentials, tail: Bytes)
    ensures var r := AppendUserPass(dst, c);
            && dst <= r.out
            && (r.ok <==> |c.user| <= 255 && |c.pass| <= 255)
            && (!r.ok ==> r.out == dst)
            && (r.ok ==> |Added(dst, r)| == 3 + |c.user| + |c.pass|)
            && (r.ok ==> ParseUserPass(Added(dst, r) + tail) == Complete(c, |r.out| - |dst|))
  {
    var r := AppendUserPass(dst, c);
    if r.ok {
      var m := Added(dst, r) + tail;
      assert m == [USER_PASS_VERSION, |c.user|] + c.user + [|c.pass|] + c.pass + tail;
      assert m[2..2 + |c.user|] == c.user;
      assert m[2 + |c.user|] == |c.pass|;
      assert m[3 + |c.user|..3 + |c.user| + |c.pass|] == c.pass;
    }
  }

  lemma SelectionRoundTrip(dst: Bytes, m: Byte, tail: Bytes)
    ensures ParseMethodSelection(AppendMethodSelection(dst, m)[|dst|..] + tail) == Complete(m, 2)
    ensures ParseUserPassStatus(AppendUserPassStatus(dst, m)[|dst|..] + tail) == Complete(m, 2)
  {
  }

  lemma PortRoundTrip(p: Port)
    ensures PortOf(PortBytes(p)[0], PortBytes(p)[1]) == p
  {
  }

  /** What an address message looks like is all its parser needs. */
  lemma AddrMessageParses(m: Bytes, h: Host, port: Port, stage: Stage, allowNoAddr: bool)
    requires !h.NoHost? && Canonical(Addr(h, port))
    requires 3 + |HostBytes(h)| + 2 <= |m|
    requires m[3..3 + |HostBytes(h)|] == HostBytes(h)
    requires PortOf(m[3 + |HostBytes(h)|], m[4 + |HostBytes(h)|]) == port
    ensures ParseAddrMessage(m, stage, allowNoAddr) == Complete(Addr(h, port), 3 + |HostBytes(h)| + 2)
  {
    var hb := HostBytes(h);
    assert forall i :: 0 <= i < |hb| ==> m[3 + i] == hb[i];
    assert m[3] == hb[0] && m[4] == hb[1];
    match h
    case Name(name) => assert m[5..3 + |hb|] == name;
    case V4(ip) => assert m[4..8] == ip;
    case V6(ip) => assert m[4..20] == ip;
  }

  lemma AddrMessageRoundTrip(dst: Bytes, header: Bytes, a: Addr, tail: Bytes, stage: Stage, allowNoAddr: bool)
    requires |header| == 3 && Canonical(a)
    ensures var r := AppendAddrMessage(dst, header, a);
            && dst <= r.out
            && (r.ok <==> a.IsValid())
            && (!r.ok ==> r.out == dst)
            && |Added(dst, r)| == UDPHeaderLen(a)
            && (r.ok ==> 8 <= UDPHeaderLen(a) <= MAX_REPLY)
            && (r.ok ==> Added(dst, r)[..3] == header)
            && (r.ok ==>
                  ParseAddrMessage(Added(dst, r) + tail, stage, allowNoAddr) == Complete(a, UDPHeaderLen(a)))
  {
    var r := AppendAddrMessage(dst, header, a);
    if r.ok {
      var hb, pb := HostBytes(a.host), PortBytes(a.port);
      assert Added(dst, r) == header + hb + pb;
      var m := header + hb + pb + tail;
      assert m[3..3 + |hb|] == hb;
      assert m[3 + |hb|] == pb[0] && m[4 + |hb|] == pb[1];
      PortRoundTrip(a.port);
      AddrMessageParses(m, a.host, a.port, stage, allowNoAddr);
    }
  }

  lemma RequestRoundTrip(dst: Bytes, cmd: Byte, a: Addr, tail: Bytes)
    requires Canonical(a)
    ensures var r := AppendRequest(dst, cmd, a);
            && dst <= r.out
            && (r.ok <==> a.IsValid())
            && (!r.ok ==> r.out == dst)
            && |Added(dst, r)| == UDPHeaderLen(a)
            && (r.ok ==> ParseRequest(Added(dst, r) + tail) == Complete(RequestMsg(cmd, a), UDPHeaderLen(a)))
  {
    AddrMessageRoundTrip(dst, [VERSION5, cmd, 0], a, tail, Request, false);
    var m := Added(dst, AppendRequest(dst, cmd, a));
    if a.IsValid() {
      assert m[0] == m[..3][0] && m[1] == m[..3][1];
    }
  }

  lemma ReplyRoundTrip(dst: Bytes, rep: Byte, bound: Addr, tail: Bytes, cmd: Byte)
    requires Canonical(bound)
    ensures var r := AppendReply(dst, rep, bound);
            && dst <= r.out
            && (r.ok <==> bound.IsValid())
            && (!r.ok ==> r.out == dst)
            && (r.ok ==> |Added(dst, r)| == UDPHeaderLen(bound) && 8 <= |Added(dst, r)|)
            && (r.ok ==> ParseReply(Added(dst, r) + tail, cmd)
                         == Complete(ReplyMsg(rep, bound), UDPHeaderLen(bound)))
            && (r.ok ==> SeenReply(Added(dst, r) + tail, VERSION5) == Some(rep))
  {
    AddrMessageRoundTrip(dst, [VERSION5, rep, 0], bound, tail, Reply, AllowsNoAddr(cmd));
    var m := Added(dst, AppendReply(dst, rep, bound));
    if bound.IsValid() {
      assert m[0] == m[..3][0] && m[1] == m[..3][1];
    }
  }

  lemma UDPHeaderRoundTrip(dst: Bytes, frag: Byte, a: Addr, tail: Bytes)
    requires Canonical(a)
    ensures var r := AppendUDPHeader(dst, frag, a);
            && dst <= r.out
            && (r.ok <==> a.IsValid())
            && (!r.ok ==> r.out == dst)
            && |Added(dst, r)| == UDPHeaderLen(a)
            && (r.ok ==> ParseUDPHeader(Added(dst, r) + tail) == Complete(UDPMsg(frag, a), UDPHeaderLen(a)))
  {
    AddrMessageRoundTrip(dst, [0, 0, frag], a, tail, UDPHeader, false);
    var m := Added(dst, AppendUDPHeader(dst, frag, a));
    if a.IsValid() {
      assert m[2] == m[..3][2];
    }
  }

  /** A zero-free field up to 255 bytes is read back from where it starts. */
  lemma CStringParses(m: Bytes, start: nat, text: Bytes, rest: Bytes, field: Field, minLen: nat, after: nat)
    requires start <= |m| && m[start..] == text + [0] + rest
    requires 0 !in text && minLen <= |text| <= 255
    ensures CString(m, start, field, minLen, after) == Complete(text, start + |text| + 1)
    ensures m[start + |text| + 1..] == rest
  {
    var s := m[start..];
    assert s[|text|] == 0 && forall j :: 0 <= j < |text| ==> s[j] == text[j];
    assert IndexNul(s) == |text|;
    assert m[start..start + |text|] == s[..|text|] == text;
    assert m[start + |text| + 1..] == s[|text| + 1..] == rest;
  }

  lemma Fixed4(m: Bytes, ver: Byte, code: Byte, port: Port, ip: Bytes, rest: Bytes)
    requires |ip| == 4 && m == [ver, code] + PortBytes(port) + ip + rest
    ensures |m| >= 8 && m[0] == ver && m[1] == code && PortOf(m[2], m[3]) == port
    ensures m[4..8] == ip && m[7] == ip[3] && m[8..] == rest
  {
    PortRoundTrip(port);
    assert m[2] == PortBytes(port)[0] && m[3] == PortBytes(port)[1];
  }

  lemma Request4RoundTrip(dst: Bytes, cmd: Byte, a: Addr, userID: Bytes, tail: Bytes)
    requires Canonical(a)
    ensures var r := AppendRequest4(dst, cmd, a, userID);
            && dst <= r.out
            && (r.ok <==> Encodable4(a, userID))
            && (!r.ok ==> r.out == dst)
            && (r.ok ==> ParseRequest4(Added(dst, r) + tail)
                         == Complete(Request4Msg(cmd, a, userID), |r.out| - |dst|))
  {
    var r := AppendRequest4(dst, cmd, a, userID);
    if r.ok {
      var ip := if a.host.V4? then a.host.ip else [0, 0, 0, 1];
      var name := if a.host.Name? then a.host.name + [0] else [];
      var m := Added(dst, r) + tail;
      assert m == [VERSION4, cmd] + PortBytes(a.port) + ip + (userID + [0] + (name + tail));
      Request4Parses(m, cmd, a, userID, ip, name + tail, tail);
    }
  }

  lemma Request4Parses(m: Bytes, cmd: Byte, a: Addr, userID: Bytes, ip: Bytes, rest: Bytes, tail: Bytes)
    requires Canonical(a) && Encodable4(a, userID)
    requires ip == if a.host.V4? then a.host.ip else [0, 0, 0, 1]
    requires m == [VERSION4, cmd] + PortBytes(a.port) + ip + (userID + [0] + rest)
    requires a.host.Name? ==> rest == a.host.name + [0] + tail
    ensures ParseRequest4(m)
            == Complete(Request4Msg(cmd, a, userID),
                        9 + |userID| + if a.host.Name? then |a.host.name| + 1 else 0)
  {
    Fixed4(m, VERSION4, cmd, a.port, ip, userID + [0] + rest);
    CStringParses(m, 8, userID, rest, USERID, 0, if a.host.Name? then 2 else 0);
    if a.host.Name? {
      CStringParses(m, 9 + |userID|, a.host.name, tail, ADDR, 1, 0);
    }
  }

  lemma Reply4RoundTrip(dst: Bytes, rep: Byte, bound: Addr, tail: Bytes)
    requires Canonical(bound)
    ensures var r := AppendReply4(dst, rep, bound);
            && dst <= r.out
            && (r.ok <==> bound.host.V4? || bound.host.NoHost?)
            && (!r.ok ==> r.out == dst)
            && (r.ok ==> ParseReply4(Added(dst, r) + tail)
                         == Complete(ReplyMsg(rep, if bound.host.V4? then bound else Addr(V4([0, 0, 0, 0]), 0)), 8))
  {
    var r := AppendReply4(dst, rep, bound);
    if r.ok {
      var ip := if bound.host.V4? then bound.host.ip else [0, 0, 0, 0];
      var m := Added(dst, r) + tail;
      assert m == [0, rep] + PortBytes(bound.port) + ip + tail;
      Fixed4(m, 0, rep, bound.port, ip, tail);
    }
  }

  // ------------------------------------------------------- the other direction

  /** Every parsed address is unmapped and fits the wire again. */
  lemma ParsedAddrCanonical(b: Bytes, stage: Stage, allowNoAddr: bool)
    requires ParseAddrMessage(b, stage, allowNoAddr).Complete?
    ensures Canonical(ParseAddrMessage(b, stage, allowNoAddr).value)
    ensures !allowNoAddr ==> ParseAddrMessage(b, stage, allowNoAddr).value.IsValid()
  {
  }

  lemma ParsedRequest4Canonical(b: Bytes)
    requires ParseRequest4(b).Complete?
    ensures Canonical(ParseRequest4(b).value.addr) && ParseRequest4(b).value.addr.IsValid()
    ensures |ParseRequest4(b).value.userID| <= 255
  {
  }

  lemma PortBytesBack(hi: Byte, lo: Byte)
    ensures PortBytes(PortOf(hi, lo)) == [hi, lo]
  {
  }

  /** A parsed request can be sent on: it encodes to a message that parses to the same request, no
      longer than the original, and equal to it but for the reserved byte and a mapped IPv6. */
  lemma RequestReencodes(b: Bytes)
    requires ParseRequest(b).Complete?
    ensures var v, n := ParseRequest(b).value, ParseRequest(b).n;
            && Canonical(v.addr)
            && var r := AppendRequest([], v.cmd, v.addr);
            && r.ok
            && ParseRequest(r.out) == Complete(v, |r.out|)
            && |r.out| <= n
            && (b[2] == 0 && !(b[3] == ATYP_IPV6 && Is4In6(b[4..20])) ==> r.out == b[..n])
  {
    var v, n := ParseRequest(b).value, ParseRequest(b).n;
    ParsedAddrCanonical(b, Request, false);
    var r := AppendRequest([], v.cmd, v.addr);
    RequestRoundTrip([], v.cmd, v.addr, []);
    assert Added([], r) + [] == r.out;
    if b[2] == 0 && !(b[3] == ATYP_IPV6 && Is4In6(b[4..20])) {
      SameBytes(b);
    }
  }

  lemma SameBytes(b: Bytes)
    requires ParseRequest(b).Complete? && b[2] == 0 && !(b[3] == ATYP_IPV6 && Is4In6(b[4..20]))
    requires Canonical(ParseRequest(b).value.addr)
    ensures var v, n := ParseRequest(b).value, ParseRequest(b).n;
            AppendRequest([], v.cmd, v.addr).out == b[..n]
  {
    var v, n := ParseRequest(b).value, ParseRequest(b).n;
    PortBytesBack(b[n - 2], b[n - 1]);
    assert b[..n] == [VERSION5, v.cmd, 0] + b[3..n - 2] + [b[n - 2], b[n - 1]];
    match v.addr.host
    case V4(ip) => assert b[3..8] == [ATYP_IPV4] + ip;
    case V6(ip) => assert b[3..20] == [ATYP_IPV6] + ip;
    case Name(name) => assert b[3..n - 2] == [ATYP_DOMAIN, |name|] + name;
  }
}
