/** A connection as a byte stream: the bytes the peer sends, cut into reads in any way, then the
    error they end with; and the bytes it takes before writes fail. */
module Net {
  import opened Wire
  import opened Framing

  datatype Result<+T> = Ok(value: T) | Err(error: Error)

  class NetConn {
    const input: Bytes
    const fin: ReadError
    var pos: nat
    var sent: Bytes
    var room: nat
    ghost var expired: nat // how often a deadline passed

    ghost predicate Valid() reads `pos { pos <= |input| }

    ghost function Unread(): Bytes
      requires Valid()
      reads `pos
    {
      input[pos..]
    }

    constructor (input: Bytes, fin: ReadError, room: nat)
      ensures Valid() && this.input == input && this.fin == fin && this.room == room
      ensures pos == 0 && sent == [] && Unread() == input && expired == 0
    {
      this.input, this.fin, this.room := input, fin, room;
      pos, sent, expired := 0, [], 0;
    }

    /** Reads at least one byte into a[lo..hi] or returns an error; the last bytes may come with the
        stream's end. */
    method Read(a: array<Byte>, lo: nat, hi: nat) returns (n: nat, err: Option<Error>)
      requires Valid() && lo < hi <= a.Length
      modifies this`pos, a
      ensures Valid() && pos == old(pos) + n && n <= hi - lo
      ensures a[..lo + n] == old(a[..lo]) + input[old(pos)..pos]
      ensures a[lo + n..] == old(a[lo + n..])
      ensures err.None? ==> n > 0
      ensures err.Some? ==> pos == |input| && err.value == fin
    {
      if pos == |input| {
        return 0, Some(fin);
      }
      var left := |input| - pos;
      n :| 0 < n <= left && n <= hi - lo;
      forall i | lo <= i < lo + n {
        a[i] := input[pos + i - lo];
      }
      pos := pos + n;
      var atEnd: bool := *;
      err := if pos == |input| && atEnd then Some(fin) else None;
    }

    /** Read under a deadline, which may pass first: then nothing is lost. */
    method ReadTimed(a: array<Byte>, lo: nat, hi: nat) returns (n: nat, err: Option<Error>)
      requires Valid() && lo < hi <= a.Length
      modifies `pos, `expired, a
      ensures Valid() && pos == old(pos) + n && n <= hi - lo && expired >= old(expired)
      ensures a[..lo + n] == old(a[..lo]) + input[old(pos)..pos]
      ensures a[lo + n..] == old(a[lo + n..])
      ensures err.None? ==> n > 0
      ensures err.Some? ==> || (pos == |input| && err.value == fin)
                            || (n == 0 && err.value == Timeout && expired > old(expired))
    {
      var late: bool := *;
      if late {
        expired := expired + 1;
        return 0, Some(Timeout);
      }
      n, err := Read(a, lo, hi);
    }

    /** Reads a[lo..hi] in full, or what is left and the error the stream ends with. */
    method ReadFull(a: array<Byte>, lo: nat, hi: nat) returns (n: nat, err: Option<Error>)
      requires Valid() && lo <= hi <= a.Length
      modifies this`pos, a
      ensures Valid() && pos == old(pos) + n && n <= hi - lo
      ensures a[..lo + n] == old(a[..lo]) + input[old(pos)..pos]
      ensures err.None? <==> n == hi - lo
      ensures err.Some? ==> pos == |input| && err.value == fin
    {
      n, err := 0, None;
      ghost var kept, from := a[..lo], pos;
      while n < hi - lo
        invariant n <= hi - lo && Valid() && pos == from + n
        invariant a[..lo + n] == kept + input[from..pos]
      {
        ghost var mid := pos;
        var m, e := Read(a, lo + n, hi);
        Slices(input, from, mid, pos);
        n := n + m;
        if e.Some? && n < hi - lo {
          err := e;
          break;
        }
      }
    }

    method Write(b: Bytes) returns (n: nat, err: Option<Error>)
      modifies this`sent, this`room
      ensures n <= |b| && sent == old(sent) + b[..n] && (n == |b| ==> sent == old(sent) + b)
      ensures n == (if |b| <= old(room) then |b| else old(room)) && room == old(room) - n
      ensures err == if n == |b| then None else Some(WriteFailed)
    {
      n := if |b| <= room then |b| else room;
      sent, room := sent + b[..n], room - n;
      err := if n == |b| then None else Some(WriteFailed);
    }
  }

  lemma Slices(s: Bytes, a: nat, b: nat, c: nat)
    requires a <= b <= c <= |s|
    ensures s[a..c] == s[a..b] + s[b..c]
  {
  }

  /** The error of a stream that ends mid-message. */
  function StreamEnd(stage: Stage, fin: Error): Error {
    if fin.EOF? then Truncated(stage) else fin
  }

  /** What reading one message off a whole stream comes to. */
  function MessageOutcome<T>(p: Parser<T>, stream: Bytes, stage: Stage, fin: Error): Result<T> {
    match p(stream)
    case Complete(v, _) => Ok(v)
    case Malformed(e) => Err(e)
    case Incomplete(_) => Err(StreamEnd(stage, fin))
  }

  /** What is asked for is not past the message that comes. */
  lemma NotPast<T(!new)>(p: Parser<T>, max: nat, b: Bytes, stream: Bytes)
    requires Framed(p, max) && b <= stream && p(b).Incomplete?
    ensures p(stream).Complete? ==> p(b).need <= p(stream).n <= |stream|
  {
    assert Extends(b, stream);
  }

  /** Any answer but "incomplete" is the whole stream's. */
  lemma DecidedEarly<T(!new)>(p: Parser<T>, max: nat, b: Bytes, stream: Bytes)
    requires Framed(p, max) && b <= stream && !p(b).Incomplete?
    ensures p(stream) == p(b)
  {
    assert Extends(b, stream);
  }

  /** Reads exactly one message into a fixed buffer (go/socks0/wire/read.go): however the stream is
      cut, the outcome is the whole stream's, and on success no byte after the message is read. */
  method ReadMessage<T(!new)>(c: NetConn, buf: array<Byte>, stage: Stage, parse: Parser<T>, ghost max: nat)
    returns (res: Result<T>)
    requires Framed(parse, max) && max <= buf.Length && c.Valid()
    modifies c`pos, buf
    ensures c.Valid() && c.pos >= old(c.pos)
    ensures res == MessageOutcome(parse, old(c.Unread()), stage, c.fin)
    ensures res.Ok? ==> c.pos == old(c.pos) + parse(old(c.Unread())).n
  {
    var have := 0;
    ghost var from := c.pos;
    ghost var stream := c.Unread();
    while true
      invariant have <= buf.Length && c.Valid() && c.pos == from + have
      invariant buf[..have] == c.input[from..c.pos]
      invariant parse(stream).Complete? ==> have <= parse(stream).n
      decreases buf.Length - have
    {
      var b := buf[..have];
      var p := parse(b);
      assert b == stream[..have];
      if !p.Incomplete? {
        DecidedEarly(parse, max, b, stream);
        if p.Complete? {
          return Ok(p.value);
        }
        return Err(p.err);
      }
      NeedBounded(parse, max, b);
      NotPast(parse, max, b, stream);
      ghost var mid := c.pos;
      var got, err := c.ReadFull(buf, have, p.need);
      Slices(c.input, from, mid, c.pos);
      if err.Some? {
        assert c.input[from..c.pos] == stream;
        return ReadFailure(buf[..have + got], err.value, stage, parse);
      }
      have := p.need;
    }
  }

  /** The error of a read that failed with these bytes of a message there. */
  function ReadFailure<T>(partial: Bytes, err: Error, stage: Stage, parse: Parser<T>): Result<T> {
    match parse(partial)
    case Complete(v, _) => Ok(v)
    case Malformed(e) => Err(e)
    case Incomplete(_) => Err(StreamEnd(stage, err))
  }
}
