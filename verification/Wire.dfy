/** The SOCKS codec: message values, parsers and encoders (go/socks0/wire).

    A parser looks at the bytes present and answers in one of three ways: a complete
    message and its length, the length it needs to see next, or an error. */
module Wire {
  type Byte = x: int | 0 <= x < 0x100
  type Bytes = seq<Byte>
  type Port = x: int | 0 <= x < 0x1_0000

  const VERSION5: Byte := 5
  const VERSION4: Byte := 4
  const USER_PASS_VERSION: Byte := 1

  const METHOD_NO_AUTH: Byte := 0
  const METHOD_USER_PASS: Byte := 2
  const METHOD_NO_ACCEPTABLE: Byte := 0xFF

  const CMD_CONNECT: Byte := 1
  const CMD_BIND: Byte := 2
  const CMD_UDP_ASSOCIATE: Byte := 3
  const CMD_TOR_RESOLVE: Byte := 0xF0
  const CMD_TOR_RESOLVE_PTR: Byte := 0xF1

  const ATYP_IPV4: Byte := 1
  const ATYP_DOMAIN: Byte := 3
  const ATYP_IPV6: Byte := 4

  const REPLY_SUCCEEDED: Byte := 0
  const REPLY_GENERAL_FAILURE: Byte := 1
  const REPLY_ATYP_NOT_SUPPORTED: Byte := 8
  const REPLY4_GRANTED: Byte := 0x5A
  const REPLY4_REJECTED: Byte := 0x5B
  const REPLY4_IDENT_MISMATCH: Byte := 0x5D

  // The longest message of each kind.
  const MAX_GREETING := 2 + 255
  const MAX_USER_PASS := 3 + 255 + 255
  const MAX_REPLY := 4 + 1 + 255 + 2
  const MAX_REQUEST4 := 8 + 256 + 256
  const REPLY4_LEN := 8

  /** Which message an error is about. */
  datatype Stage =
    | Greeting | MethodSelection | UserPass | UserPassStatus | Request | Reply
    | UDPHeader | Request4 | Reply4 | Auth

  datatype Field = VER | NMETHODS | ATYP | ADDR | PORT | USERID

  /** The host part of an address: at most one of an IP and a name. */
  datatype Host = NoHost | V4(ip: Bytes) | V6(ip: Bytes) | Name(name: Bytes)

  datatype Addr = Addr(host: Host, port: Port) {
    predicate IsValid() { !host.NoHost? }

    predicate HasIP() { host.V4? || host.V6? }
  }

  const ZERO_ADDR := Addr(NoHost, 0)

  /** The errors a handshake can end with, without their texts. */
  datatype Error =
    | BadField(stage: Stage, field: Field)
    | Truncated(stage: Stage)
    | EOF | Timeout | DeadlineExceeded | Reset | Closed | Canceled | WriteFailed
    | MethodRefused(selected: Byte)
    | AuthRejected(status: Byte)
    | ReplyRefused(rep: Byte, bound: Addr)
    | NoCommonMethod
    | BadCredentials
    | NotPermitted
    | TooLong
    | BufferFull
    | AlreadyReplied
    | NotBind

  /** A read never fails with the error of a write. */
  type ReadError = e: Error | e != WriteFailed witness EOF

  /** A handshake's error, and the message it is about. */
  datatype Failure = Failure(stage: Stage, err: Error)

  datatype Option<+T> = None | Some(value: T)

  datatype Parse<+T> =
    | Complete(value: T, n: nat)
    | Incomplete(need: nat)
    | Malformed(err: Error)

  datatype Credentials = Credentials(user: Bytes, pass: Bytes)
  datatype RequestMsg = RequestMsg(cmd: Byte, addr: Addr)
  datatype Request4Msg = Request4Msg(cmd: Byte, addr: Addr, userID: Bytes)
  datatype ReplyMsg = ReplyMsg(rep: Byte, bound: Addr)
  datatype UDPMsg = UDPMsg(frag: Byte, addr: Addr)

  // ---------------------------------------------------------------- addresses

  /** Whether ip is an IPv4 address written as IPv6 (::ffff:a.b.c.d). */
  predicate Is4In6(ip: Bytes)
    requires |ip| == 16
  {
    (forall i :: 0 <= i < 10 ==> ip[i] == 0) && ip[10] == 0xFF && ip[11] == 0xFF
  }

  function Unmap(ip: Bytes): Host
    requires |ip| == 16
  {
    if Is4In6(ip) then V4(ip[12..]) else V6(ip)
  }

  /** What every Addr outside the package satisfies: an IP is unmapped, a name fits the wire. */
  predicate Canonical(a: Addr) {
    match a.host
    case NoHost => a.port == 0
    case V4(ip) => |ip| == 4
    case V6(ip) => |ip| == 16 && !Is4In6(ip)
    case Name(name) => 1 <= |name| <= 255
  }

  function PortOf(hi: Byte, lo: Byte): Port { 256 * hi + lo }

  function PortBytes(p: Port): Bytes { [p / 256, p % 256] }

  function WireLen(a: Addr): nat {
    match a.host
    case Name(name) => 1 + 1 + |name| + 2
    case V4(_) => 1 + 4 + 2
    case _ => 1 + 16 + 2
  }

  function UDPHeaderLen(a: Addr): nat {
    if a.IsValid() then 3 + WireLen(a) else 0
  }

  // ------------------------------------------------------------------ parsers

  predicate BadVersion(b: Bytes, want: Byte) { b != [] && b[0] != want }

  function ParseGreeting(b: Bytes): Parse<Bytes> {
    if BadVersion(b, VERSION5) then Malformed(BadField(Greeting, VER))
    else if |b| < 2 then Incomplete(3)
    else if b[1] == 0 then Malformed(BadField(Greeting, NMETHODS))
    else
      var n := 2 + b[1] as int;
      if |b| < n then Incomplete(n) else Complete(b[2..n], n)
  }

  function ParseUserPass(b: Bytes): Parse<Credentials> {
    if BadVersion(b, USER_PASS_VERSION) then Malformed(BadField(UserPass, VER))
    else if |b| < 2 then Incomplete(3)
    else
      var plenAt := 2 + b[1] as int;
      if |b| <= plenAt then Incomplete(plenAt + 1)
      else
        var n := plenAt + 1 + b[plenAt];
        if |b| < n then Incomplete(n)
        else Complete(Credentials(b[2..plenAt], b[plenAt + 1..n]), n)
  }

  function ParseMethodSelection(b: Bytes): Parse<Byte> {
    if BadVersion(b, VERSION5) then Malformed(BadField(MethodSelection, VER))
    else if |b| < 2 then Incomplete(2)
    else Complete(b[1], 2)
  }

  function ParseUserPassStatus(b: Bytes): Parse<Byte> {
    if BadVersion(b, USER_PASS_VERSION) then Malformed(BadField(UserPassStatus, VER))
    else if |b| < 2 then Incomplete(2)
    else Complete(b[1], 2)
  }

  function ParseRequest(b: Bytes): Parse<RequestMsg> {
    if BadVersion(b, VERSION5) then Malformed(BadField(Request, VER))
    else
      match ParseAddrMessage(b, Request, false)
      case Complete(addr, n) => Complete(RequestMsg(b[1], addr), n)
      case Incomplete(n) => Incomplete(n)
      case Malformed(e) => Malformed(e)
  }

  /** A zero address type (Tor's failed lookup) is the zero address, for the lookup commands only. */
  predicate AllowsNoAddr(cmd: Byte) { cmd == CMD_TOR_RESOLVE || cmd == CMD_TOR_RESOLVE_PTR }

  function ParseReply(b: Bytes, cmd: Byte): Parse<ReplyMsg> {
    if BadVersion(b, VERSION5) then Malformed(BadField(Reply, VER))
    else
      match ParseAddrMessage(b, Reply, AllowsNoAddr(cmd))
      case Complete(bound, n) => Complete(ReplyMsg(b[1], bound), n)
      case Incomplete(n) => Incomplete(n)
      case Malformed(e) => Malformed(e)
  }

  function ParseReply4(b: Bytes): Parse<ReplyMsg> {
    if BadVersion(b, 0) then Malformed(BadField(Reply4, VER))
    else if |b| < REPLY4_LEN then Incomplete(REPLY4_LEN)
    else Complete(ReplyMsg(b[1], Addr(V4(b[4..8]), PortOf(b[2], b[3]))), REPLY4_LEN)
  }

  /** The reply code, known as soon as a good version and the code are there, even on an error. */
  function SeenReply(b: Bytes, ver: Byte): Option<Byte> {
    if |b| > 1 && b[0] == ver then Some(b[1]) else None
  }

  function ParseUDPHeader(b: Bytes): Parse<UDPMsg> {
    match ParseAddrMessage(b, UDPHeader, false)
    case Complete(addr, n) => Complete(UDPMsg(b[2], addr), n)
    case Incomplete(n) => Incomplete(n)
    case Malformed(e) => Malformed(e)
  }

  /** The length of an address message by its first five bytes; 0 means the type is unknown. */
  function AddrMessageLen(t: Byte, domainLen: Byte, allowNoAddr: bool): nat {
    if t == ATYP_IPV4 || (t == 0 && allowNoAddr) then 3 + 1 + 4 + 2
    else if t == ATYP_IPV6 then 3 + 1 + 16 + 2
    else if t == ATYP_DOMAIN then 3 + 1 + 1 + domainLen + 2
    else 0
  }

  function ParseAddrMessage(b: Bytes, stage: Stage, allowNoAddr: bool): (p: Parse<Addr>)
    ensures p.Complete? ==> 4 < p.n <= |b|
  {
    if |b| < 4 then Incomplete(5)
    else if b[3] != ATYP_DOMAIN && AddrMessageLen(b[3], 0, allowNoAddr) == 0 then
      Malformed(BadField(stage, ATYP))
    else if b[3] == ATYP_DOMAIN && |b| < 5 then Incomplete(5)
    else if b[3] == ATYP_DOMAIN && b[4] == 0 then Malformed(BadField(stage, ADDR))
    else
      var n := AddrMessageLen(b[3], if b[3] == ATYP_DOMAIN then b[4] else 0, allowNoAddr);
      if |b| < n then Incomplete(n)
      else
        var port := PortOf(b[n - 2], b[n - 1]);
        if b[3] == ATYP_IPV4 then Complete(Addr(V4(b[4..8]), port), n)
        else if b[3] == ATYP_IPV6 then Complete(Addr(Unmap(b[4..20]), port), n)
        else if b[3] == ATYP_DOMAIN then Complete(Addr(Name(b[5..n - 2]), port), n)
        else Complete(ZERO_ADDR, n)
  }

  /** The index of the first zero byte, -1 if there is none. */
  function IndexNul(s: Bytes): (i: int)
    ensures -1 <= i < |s|
    ensures i >= 0 ==> s[i] == 0 && forall j :: 0 <= j < i ==> s[j] != 0
    ensures i < 0 ==> forall j :: 0 <= j < |s| ==> s[j] != 0
  {
    if s == [] then -1
    else if s[0] == 0 then 0
    else
      var i := IndexNul(s[1..]);
      assert forall j :: 0 < j < |s| ==> s[j] == s[1..][j - 1];
      if i < 0 then -1 else i + 1
  }

  /** A zero-terminated field at start, followed by at least `after` bytes of the message. */
  function CString(b: Bytes, start: nat, field: Field, minLen: nat, after: nat): (p: Parse<Bytes>)
    requires start <= |b|
    ensures p.Complete? ==> start < p.n <= |b| && p.n - start <= 256
  {
    var i := IndexNul(b[start..]);
    if i > 255 || (i < 0 && |b| - start > 255) || 0 <= i < minLen then
      Malformed(BadField(Request4, field))
    else if i < 0 then
      var lacking := if minLen > |b| - start then minLen - (|b| - start) else 0;
      Incomplete(|b| + lacking + 1 + after)
    else Complete(b[start..start + i], start + i + 1)
  }

  predicate IsSocks4aIP(ip: Bytes)
    requires |ip| == 4
  {
    ip[0] == 0 && ip[1] == 0 && ip[2] == 0
  }

  function ParseRequest4(b: Bytes): Parse<Request4Msg> {
    if BadVersion(b, VERSION4) then Malformed(BadField(Request4, VER))
    else if |b| < 8 then Incomplete(9)
    else
      var is4a := IsSocks4aIP(b[4..8]) && b[7] != 0;
      match CString(b, 8, USERID, 0, if is4a then 2 else 0)
      case Incomplete(n) => Incomplete(n)
      case Malformed(e) => Malformed(e)
      case Complete(userID, n) =>
        var port := PortOf(b[2], b[3]);
        if !is4a then Complete(Request4Msg(b[1], Addr(V4(b[4..8]), port), userID), n)
        else
          match CString(b, n, ADDR, 1, 0)
          case Incomplete(m) => Incomplete(m)
          case Malformed(e) => Malformed(e)
          case Complete(name, m) => Complete(Request4Msg(b[1], Addr(Name(name), port), userID), m)
  }

  // Parsers as values.

  type Parser<T> = Bytes -> Parse<T>

  function GreetingParser(): Parser<Bytes> { (b: Bytes) => ParseGreeting(b) }
  function UserPassParser(): Parser<Credentials> { (b: Bytes) => ParseUserPass(b) }
  function SelectionParser(): Parser<Byte> { (b: Bytes) => ParseMethodSelection(b) }
  function StatusParser(): Parser<Byte> { (b: Bytes) => ParseUserPassStatus(b) }
  function RequestParser(): Parser<RequestMsg> { (b: Bytes) => ParseRequest(b) }
  function Reply4Parser(): Parser<ReplyMsg> { (b: Bytes) => ParseReply4(b) }
  function UDPHeaderParser(): Parser<UDPMsg> { (b: Bytes) => ParseUDPHeader(b) }
  function Request4Parser(): Parser<Request4Msg> { (b: Bytes) => ParseRequest4(b) }
  function ReplyParser(cmd: Byte): Parser<ReplyMsg> { (b: Bytes) => ParseReply(b, cmd) }

  // ----------------------------------------------------------------- encoders

  /** An append: on a failure the bytes are those given. */
  datatype Append = Append(out: Bytes, ok: bool)

  function AppendGreeting(dst: Bytes, methods: Bytes): Append {
    if 1 <= |methods| <= 255 then Append(dst + [VERSION5, |methods|] + methods, true)
    else Append(dst, false)
  }

  function AppendUserPass(dst: Bytes, c: Credentials): Append {
    if |c.user| > 255 || |c.pass| > 255 then Append(dst, false)
    else Append(dst + [USER_PASS_VERSION, |c.user|] + c.user + [|c.pass|] + c.pass, true)
  }

  function AppendMethodSelection(dst: Bytes, m: Byte): Bytes { dst + [VERSION5, m] }

  function AppendUserPassStatus(dst: Bytes, status: Byte): Bytes { dst + [USER_PASS_VERSION, status] }

  function HostBytes(h: Host): Bytes
    requires !h.NoHost? && (h.Name? ==> |h.name| <= 255)
  {
    match h
    case Name(name) => [ATYP_DOMAIN, |name|] + name
    case V4(ip) => [ATYP_IPV4] + ip
    case V6(ip) => [ATYP_IPV6] + ip
  }

  /** ATYP, ADDR and PORT. */
  function AppendAddr(dst: Bytes, a: Addr): Bytes
    requires a.IsValid() && Canonical(a)
  {
    dst + HostBytes(a.host) + PortBytes(a.port)
  }

  function AppendAddrMessage(dst: Bytes, header: Bytes, a: Addr): Append
    requires |header| == 3 && Canonical(a)
  {
    if a.IsValid() then Append(AppendAddr(dst + header, a), true) else Append(dst, false)
  }

  function AppendRequest(dst: Bytes, cmd: Byte, a: Addr): Append
    requires Canonical(a)
  {
    AppendAddrMessage(dst, [VERSION5, cmd, 0], a)
  }

  function AppendReply(dst: Bytes, rep: Byte, bound: Addr): Append
    requires Canonical(bound)
  {
    AppendAddrMessage(dst, [VERSION5, rep, 0], bound)
  }

  function AppendUDPHeader(dst: Bytes, frag: Byte, a: Addr): Append
    requires Canonical(a)
  {
    AppendAddrMessage(dst, [0, 0, frag], a)
  }

  predicate Encodable4(a: Addr, userID: Bytes)
    requires Canonical(a)
  {
    && a.IsValid() && !a.host.V6?
    && (a.host.V4? ==> !IsSocks4aIP(a.host.ip))
    && |userID| <= 255 && 0 !in userID
    && (a.host.Name? ==> 0 !in a.host.name)
  }

  function AppendRequest4(dst: Bytes, cmd: Byte, a: Addr, userID: Bytes): Append
    requires Canonical(a)
  {
    if !Encodable4(a, userID) then Append(dst, false)
    else
      var ip := if a.host.V4? then a.host.ip else [0, 0, 0, 1];
      var fixed := dst + [VERSION4, cmd] + PortBytes(a.port) + ip + userID + [0];
      Append(if a.host.Name? then fixed + a.host.name + [0] else fixed, true)
  }

  function AppendReply4(dst: Bytes, rep: Byte, bound: Addr): Append
    requires Canonical(bound)
  {
    if bound.host.Name? || bound.host.V6? then Append(dst, false)
    else
      var ip := if bound.host.V4? then bound.host.ip else [0, 0, 0, 0];
      Append(dst + [0, rep] + PortBytes(bound.port) + ip, true)
  }
}
