/** The contract every parser keeps (go/socks0/wire/doc.go), and what follows from it alone. */
module Framing {
  import opened Wire

  /** The contract of a parser whose messages have at most max bytes:
      a decided answer does not change when bytes are appended; a complete message has 1 to max
      bytes, all present; an incomplete one asks for more than is there, never for more than a
      valid message that starts so has, and there is such a message. */
  ghost predicate Framed<T(!new)>(p: Parser<T>, max: nat) {
    Stable(p) && Sized(p, max) && Modest(p) && Completable(p)
  }

  ghost predicate Extends(b: Bytes, c: Bytes) { b <= c }

  ghost predicate Stable<T(!new)>(p: Parser<T>) {
    forall b, c {:trigger Extends(b, c)} :: Extends(b, c) && !p(b).Incomplete? ==> p(c) == p(b)
  }

  ghost predicate Sized<T(!new)>(p: Parser<T>, max: nat) {
    && (forall b :: p(b).Complete? ==> 0 < p(b).n <= |b| && p(b).n <= max)
    && (forall b :: p(b).Incomplete? ==> |b| < p(b).need)
  }

  ghost predicate Modest<T(!new)>(p: Parser<T>) {
    forall b, c {:trigger Extends(b, c)} ::
      Extends(b, c) && p(b).Incomplete? && p(c).Complete? ==> p(b).need <= p(c).n
  }

  ghost predicate Completable<T(!new)>(p: Parser<T>) {
    forall b {:trigger HasCompletion(p, b)} :: p(b).Incomplete? ==> HasCompletion(p, b)
  }

  ghost predicate HasCompletion<T(!new)>(p: Parser<T>, b: Bytes) {
    exists c :: Extends(b, c) && p(c).Complete?
  }

  /** Every strict prefix of a message is incomplete and asks for no more than the message. */
  lemma PrefixIncomplete<T(!new)>(p: Parser<T>, max: nat, m: Bytes, b: Bytes)
    requires Framed(p, max) && p(m).Complete? && b <= m && |b| < p(m).n
    ensures p(b).Incomplete? && |b| < p(b).need <= p(m).n
  {
    assert Extends(b, m);
  }

  /** A message is decided by its own bytes: nothing after it is looked at. */
  lemma OwnBytes<T(!new)>(p: Parser<T>, max: nat, m: Bytes)
    requires Framed(p, max) && p(m).Complete?
    ensures p(m[..p(m).n]) == p(m)
  {
    assert Extends(m[..p(m).n], m);
  }

  /** No answer ever asks for more than the longest message. */
  lemma NeedBounded<T(!new)>(p: Parser<T>, max: nat, b: Bytes)
    requires Framed(p, max) && p(b).Incomplete?
    ensures |b| < p(b).need <= max
  {
    assert HasCompletion(p, b);
  }

  /** An answer is an error exactly if no message starts so: no error waits for more bytes. */
  lemma MalformedExactly<T(!new)>(p: Parser<T>, max: nat, b: Bytes)
    requires Framed(p, max)
    ensures p(b).Malformed? <==> !HasCompletion(p, b)
  {
    if HasCompletion(p, b) {
      var c :| Extends(b, c) && p(c).Complete?;
      assert p(b).Malformed? ==> p(c) == p(b);
    } else {
      assert Extends(b, b);
    }
  }

  /** Bytes after a message do not change it. */
  lemma TailIgnored<T(!new)>(p: Parser<T>, max: nat, m: Bytes, tail: Bytes)
    requires Framed(p, max) && !p(m).Incomplete?
    ensures p(m + tail) == p(m)
  {
    assert Extends(m, m + tail);
  }
}

/** Each parser keeps the contract. */
module WireContract {
  import opened Wire
  import opened Framing

  function Zeros(k: nat): (z: Bytes)
    ensures |z| == k
  {
    seq(k, _ => 0)
  }

  lemma GreetingParserStable()
    ensures Stable(GreetingParser())
  {
    forall b, c: Bytes | Extends(b, c) && ParseGreeting(b).Complete?
      ensures ParseGreeting(c) == ParseGreeting(b)
    {
      assert b[2..2 + b[1] as int] == c[2..2 + b[1] as int];
    }
  }

  lemma GreetingParserCompletable()
    ensures Completable(GreetingParser())
  {
    forall b | ParseGreeting(b).Incomplete?
      ensures HasCompletion(GreetingParser(), b)
    {
      var c := if |b| < 2 then [VERSION5, 1, 0] else b + Zeros(2 + b[1] as int - |b|);
      assert Extends(b, c) && ParseGreeting(c).Complete?;
    }
  }

  lemma GreetingFramed()
    ensures Framed(GreetingParser(), MAX_GREETING)
  {
    GreetingParserStable();
    GreetingParserCompletable();
  }

  lemma UserPassParserStable()
    ensures Stable(UserPassParser())
  {
    forall b, c: Bytes | Extends(b, c) && ParseUserPass(b).Complete?
      ensures ParseUserPass(c) == ParseUserPass(b)
    {
      var plenAt := 2 + b[1] as int;
      var n := plenAt + 1 + b[plenAt];
      assert b[2..plenAt] == c[2..plenAt];
      assert b[plenAt + 1..n] == c[plenAt + 1..n];
    }
  }

  lemma UserPassParserCompletable()
    ensures Completable(UserPassParser())
  {
    forall b | ParseUserPass(b).Incomplete?
      ensures HasCompletion(UserPassParser(), b)
    {
      var h := if |b| < 2 then [USER_PASS_VERSION, 0] else b;
      var plenAt := 2 + h[1] as int;
      var c := if |h| <= plenAt then h + Zeros(plenAt + 1 - |h|)
               else h + Zeros(plenAt + 1 + h[plenAt] - |h|);
      assert Extends(b, c) && ParseUserPass(c).Complete?;
    }
  }

  lemma UserPassParserModest()
    ensures Modest(UserPassParser())
  {
  }

  lemma UserPassFramed()
    ensures Framed(UserPassParser(), MAX_USER_PASS)
  {
    UserPassParserModest();
    UserPassParserStable();
    UserPassParserCompletable();
  }

  lemma MethodSelectionParserCompletable()
    ensures Completable(SelectionParser())
  {
    forall b | ParseMethodSelection(b).Incomplete?
      ensures HasCompletion(SelectionParser(), b)
    {
      var c: Bytes := [VERSION5, 0];
      assert Extends(b, c) && ParseMethodSelection(c).Complete?;
    }
  }

  lemma MethodSelectionFramed()
    ensures Framed(SelectionParser(), 2)
  {
    MethodSelectionParserCompletable();
  }

  lemma UserPassStatusParserCompletable()
    ensures Completable(StatusParser())
  {
    forall b | ParseUserPassStatus(b).Incomplete?
      ensures HasCompletion(StatusParser(), b)
    {
      var c: Bytes := [USER_PASS_VERSION, 0];
      assert Extends(b, c) && ParseUserPassStatus(c).Complete?;
    }
  }

  lemma UserPassStatusFramed()
    ensures Framed(StatusParser(), 2)
  {
    UserPassStatusParserCompletable();
  }

  lemma Reply4ParserStable()
    ensures Stable(Reply4Parser())
  {
    forall b, c: Bytes | Extends(b, c) && ParseReply4(b).Complete?
      ensures ParseReply4(c) == ParseReply4(b)
    {
      assert b[4..8] == c[4..8];
    }
  }

  lemma Reply4ParserCompletable()
    ensures Completable(Reply4Parser())
  {
    forall b | ParseReply4(b).Incomplete?
      ensures HasCompletion(Reply4Parser(), b)
    {
      var c := b + Zeros(8 - |b|);
      assert Extends(b, c) && ParseReply4(c).Complete?;
    }
  }

  lemma Reply4Framed()
    ensures Framed(Reply4Parser(), REPLY4_LEN)
  {
    Reply4ParserStable();
    Reply4ParserCompletable();
  }

  // The messages with an address share one parser.

  lemma AddrMessageStable(stage: Stage, allowNoAddr: bool, b: Bytes, c: Bytes)
    requires b <= c && !ParseAddrMessage(b, stage, allowNoAddr).Incomplete?
    ensures ParseAddrMessage(c, stage, allowNoAddr) == ParseAddrMessage(b, stage, allowNoAddr)
  {
    if ParseAddrMessage(b, stage, allowNoAddr).Complete? {
      var n := ParseAddrMessage(b, stage, allowNoAddr).n;
      assert b[..n] == c[..n];
      if b[3] == ATYP_IPV4 {
        assert b[4..8] == c[4..8];
      } else if b[3] == ATYP_IPV6 {
        assert b[4..20] == c[4..20];
      } else if b[3] == ATYP_DOMAIN {
        assert b[5..n - 2] == c[5..n - 2];
      }
    }
  }

  /** An address message that starts with b, or with first if b is empty. */
  function AddrCompletion(b: Bytes, first: Byte, allowNoAddr: bool): (c: Bytes)
    requires |b| >= 4 ==> b[3] == ATYP_DOMAIN || AddrMessageLen(b[3], 0, allowNoAddr) != 0
    ensures b <= c && c != [] && (b == [] ==> c[0] == first)
  {
    if b == [] then [first, 0, 0, ATYP_IPV4] + Zeros(6)
    else if |b| < 4 then b + Zeros(3 - |b|) + [ATYP_IPV4] + Zeros(6)
    else if |b| == 4 && b[3] == ATYP_DOMAIN then b + [1] + Zeros(3)
    else
      var n := AddrMessageLen(b[3], if b[3] == ATYP_DOMAIN then b[4] else 0, allowNoAddr);
      b + Zeros(if |b| < n then n - |b| else 0)
  }

  lemma AddrCompletes(stage: Stage, allowNoAddr: bool, b: Bytes, first: Byte)
    requires ParseAddrMessage(b, stage, allowNoAddr).Incomplete?
    ensures ParseAddrMessage(AddrCompletion(b, first, allowNoAddr), stage, allowNoAddr).Complete?
  {
    var c := AddrCompletion(b, first, allowNoAddr);
    if |b| < 4 {
      assert c[3] == ATYP_IPV4;
    }
  }

  lemma RequestParserStable()
    ensures Stable(RequestParser())
  {
    forall b, c: Bytes | Extends(b, c) && !ParseRequest(b).Incomplete?
      ensures ParseRequest(c) == ParseRequest(b)
    {
      if !BadVersion(b, VERSION5) {
        AddrMessageStable(Request, false, b, c);
      }
    }
  }

  lemma RequestParserCompletable()
    ensures Completable(RequestParser())
  {
    forall b | ParseRequest(b).Incomplete?
      ensures HasCompletion(RequestParser(), b)
    {
      AddrCompletes(Request, false, b, VERSION5);
      var c := AddrCompletion(b, VERSION5, false);
      assert Extends(b, c) && ParseRequest(c).Complete?;
    }
  }

  lemma RequestParserModest()
    ensures Modest(RequestParser())
  {
  }

  lemma RequestFramed()
    ensures Framed(RequestParser(), MAX_REPLY)
  {
    RequestParserModest();
    RequestParserStable();
    RequestParserCompletable();
  }

  lemma ReplyParserStable(cmd: Byte)
    ensures Stable(ReplyParser(cmd))
  {
    var allow, p := AllowsNoAddr(cmd), ReplyParser(cmd);
    forall b, c: Bytes | Extends(b, c) && !p(b).Incomplete?
      ensures p(c) == p(b)
    {
      if !BadVersion(b, VERSION5) {
        AddrMessageStable(Reply, allow, b, c);
      }
    }
  }

  lemma ReplyParserCompletable(cmd: Byte)
    ensures Completable(ReplyParser(cmd))
  {
    var allow, p := AllowsNoAddr(cmd), ReplyParser(cmd);
    forall b | p(b).Incomplete?
      ensures HasCompletion(p, b)
    {
      AddrCompletes(Reply, allow, b, VERSION5);
      var c := AddrCompletion(b, VERSION5, allow);
      assert Extends(b, c) && p(c).Complete?;
    }
  }

  lemma ReplyParserModest(cmd: Byte)
    ensures Modest(ReplyParser(cmd))
  {
  }

  lemma ReplyFramed(cmd: Byte)
    ensures Framed(ReplyParser(cmd), MAX_REPLY)
  {
    ReplyParserModest(cmd);
    ReplyParserStable(cmd);
    ReplyParserCompletable(cmd);
  }

  lemma UDPHeaderParserStable()
    ensures Stable(UDPHeaderParser())
  {
    forall b, c: Bytes | Extends(b, c) && !ParseUDPHeader(b).Incomplete?
      ensures ParseUDPHeader(c) == ParseUDPHeader(b)
    {
      AddrMessageStable(UDPHeader, false, b, c);
    }
  }

  lemma UDPHeaderParserCompletable()
    ensures Completable(UDPHeaderParser())
  {
    forall b | ParseUDPHeader(b).Incomplete?
      ensures HasCompletion(UDPHeaderParser(), b)
    {
      AddrCompletes(UDPHeader, false, b, 0);
      var c := AddrCompletion(b, 0, false);
      assert Extends(b, c) && ParseUDPHeader(c).Complete?;
    }
  }

  lemma UDPHeaderParserModest()
    ensures Modest(UDPHeaderParser())
  {
  }

  lemma UDPHeaderFramed()
    ensures Framed(UDPHeaderParser(), MAX_REPLY)
  {
    UDPHeaderParserModest();
    UDPHeaderParserStable();
    UDPHeaderParserCompletable();
  }

  // SOCKS4: two zero-terminated fields.

  lemma NulStable(b: Bytes, c: Bytes, start: nat)
    requires b <= c && start <= |b|
    ensures IndexNul(b[start..]) >= 0 ==> IndexNul(c[start..]) == IndexNul(b[start..])
    ensures IndexNul(b[start..]) < 0 ==> IndexNul(c[start..]) < 0 || IndexNul(c[start..]) >= |b| - start
  {
    var s, t := b[start..], c[start..];
    assert forall j :: 0 <= j < |s| ==> s[j] == t[j];
  }

  lemma CStringStable(b: Bytes, c: Bytes, start: nat, field: Field, minLen: nat, after: nat)
    requires b <= c && start <= |b|
    requires !CString(b, start, field, minLen, after).Incomplete?
    ensures CString(c, start, field, minLen, after) == CString(b, start, field, minLen, after)
  {
    NulStable(b, c, start);
    var i := IndexNul(b[start..]);
    if i >= 0 {
      assert b[start..start + i] == c[start..start + i];
    }
  }

  lemma CStringNeed(b: Bytes, c: Bytes, start: nat, field: Field, minLen: nat, after: nat)
    requires b <= c && start <= |b|
    requires CString(b, start, field, minLen, after).Incomplete?
    requires CString(c, start, field, minLen, after).Complete?
    ensures CString(b, start, field, minLen, after).need <= CString(c, start, field, minLen, after).n + after
  {
    NulStable(b, c, start);
  }

  /** A field without its zero byte becomes complete with it. */
  lemma CStringEnds(b: Bytes, start: nat, field: Field, minLen: nat, after: nat, tail: Bytes)
    requires start <= |b| && CString(b, start, field, minLen, after).Incomplete?
    requires |b| - start >= minLen
    ensures CString(b + [0] + tail, start, field, minLen, after).Complete?
    ensures CString(b + [0] + tail, start, field, minLen, after).n == |b| + 1
  {
    var c := b + [0] + tail;
    NulStable(b, c, start);
    assert c[start..][|b| - start] == 0;
  }

  lemma Request4Stable(b: Bytes, c: Bytes)
    requires b <= c && !ParseRequest4(b).Incomplete?
    ensures ParseRequest4(c) == ParseRequest4(b)
  {
    if |b| >= 8 && !BadVersion(b, VERSION4) {
      assert b[4..8] == c[4..8];
      var is4a := IsSocks4aIP(b[4..8]) && b[7] != 0;
      CStringStable(b, c, 8, USERID, 0, if is4a then 2 else 0);
      var uid := CString(b, 8, USERID, 0, if is4a then 2 else 0);
      if is4a && uid.Complete? {
        CStringStable(b, c, uid.n, ADDR, 1, 0);
      }
    }
  }

  lemma Request4Need(b: Bytes, c: Bytes)
    requires b <= c && ParseRequest4(b).Incomplete? && ParseRequest4(c).Complete?
    ensures |b| < ParseRequest4(b).need <= ParseRequest4(c).n
  {
    if |b| >= 8 {
      assert b[4..8] == c[4..8];
      var is4a := IsSocks4aIP(b[4..8]) && b[7] != 0;
      var after := if is4a then 2 else 0;
      var uid := CString(b, 8, USERID, 0, after);
      if uid.Incomplete? {
        CStringNeed(b, c, 8, USERID, 0, after);
      } else {
        CStringStable(b, c, 8, USERID, 0, after);
        CStringNeed(b, c, uid.n, ADDR, 1, 0);
      }
    }
  }

  lemma Request4Completes(b: Bytes) returns (c: Bytes)
    requires ParseRequest4(b).Incomplete?
    ensures b <= c && ParseRequest4(c).Complete?
  {
    if |b| < 8 {
      c := if b == [] then [VERSION4] + Zeros(8) else b + Zeros(9 - |b|);
      assert IndexNul(c[8..]) == 0;
    } else {
      var is4a := IsSocks4aIP(b[4..8]) && b[7] != 0;
      var after := if is4a then 2 else 0;
      var uid := CString(b, 8, USERID, 0, after);
      if uid.Incomplete? {
        c := b + [0] + if is4a then [1, 0] else [];
        CStringEnds(b, 8, USERID, 0, after, if is4a then [1, 0] else []);
        assert c[4..8] == b[4..8];
        if is4a {
          assert c[|b| + 1..] == [1, 0];
          assert IndexNul(c[|b| + 1..]) == 1;
        }
      } else {
        c := if |b| == uid.n then b + [1, 0] else b + [0];
        assert c[4..8] == b[4..8];
        CStringStable(b, c, 8, USERID, 0, after);
        if |b| == uid.n {
          assert c[uid.n..] == [1, 0];
          assert IndexNul(c[uid.n..]) == 1;
        } else {
          CStringEnds(b, uid.n, ADDR, 1, 0, []);
          assert b + [0] + [] == c;
        }
      }
    }
  }

  lemma Request4ParserStable()
    ensures Stable(Request4Parser())
  {
    forall b, c: Bytes | Extends(b, c) && !ParseRequest4(b).Incomplete?
      ensures ParseRequest4(c) == ParseRequest4(b)
    {
      Request4Stable(b, c);
    }
  }

  lemma Request4ParserModest()
    ensures Modest(Request4Parser())
  {
    forall b, c: Bytes | Extends(b, c) && ParseRequest4(b).Incomplete? && ParseRequest4(c).Complete?
      ensures ParseRequest4(b).need <= ParseRequest4(c).n
    {
      Request4Need(b, c);
    }
  }

  lemma Request4ParserCompletable()
    ensures Completable(Request4Parser())
  {
    forall b | ParseRequest4(b).Incomplete?
      ensures HasCompletion(Request4Parser(), b)
    {
      var c := Request4Completes(b);
      assert Extends(b, c) && Request4Parser()(c).Complete?;
    }
  }

  lemma Request4ParserSized()
    ensures Sized(Request4Parser(), MAX_REQUEST4)
  {
    hide IndexNul;
  }

  lemma Request4Framed()
    ensures Framed(Request4Parser(), MAX_REQUEST4)
  {
    hide ParseRequest4, Sized, Stable, Modest, Completable;
    Request4ParserSized();
    Request4ParserStable();
    Request4ParserModest();
    Request4ParserCompletable();
  }
}
