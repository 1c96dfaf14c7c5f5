/** The pooled buffers of a server connection (go/socks0/server/conn.go, type buffers). Only bytes
    below a high-water mark are ever non-zero, so clearing up to it leaves a buffer all zero. */
module Buffers {
  import opened Wire
  import opened Net
  import opened WireContract

  const IN_SIZE := 2048
  const MAX_AUTH_MSG := 1024
  const LINGER_MAX := 64 * 1024
  const OUT_SIZE := 2 + MAX_AUTH_MSG + MAX_REPLY

  ghost predicate ZeroFrom(s: Bytes, from: nat) { forall i :: from <= i < |s| ==> s[i] == 0 }

  /** What follows w in a buffer that is written to there. */
  lemma Received(was: Bytes, now: Bytes, got: Bytes, r: nat, w: nat, used: nat)
    requires r <= w <= used <= |was| == |now| && w + |got| <= |now|
    requires now[..w + |got|] == was[..w] + got && now[w + |got|..] == was[w + |got|..]
    requires ZeroFrom(was, used)
    ensures now[r..w + |got|] == was[r..w] + got
    ensures ZeroFrom(now, if used < w + |got| then w + |got| else used)
  {
    var end := w + |got|;
    assert now[r..end] == now[..end][r..];
    forall i | end <= i < |now| && used <= i
      ensures now[i] == 0
    {
      assert now[i] == now[end..][i - end] == was[end..][i - end];
    }
  }

  /** What the client sent and nobody consumed yet: data[r..w]. */
  class InBuffer {
    const data: array<Byte>
    var used: nat
    var r: nat
    var w: nat
    ghost var unread: Bytes

    ghost predicate Valid()
      reads this, data
    {
      && data.Length == IN_SIZE && r <= w <= used <= IN_SIZE
      && unread == data[r..w] && |unread| == w - r && ZeroFrom(data[..], used)
    }

    constructor ()
      ensures Valid() && fresh(data) && r == w == 0 && unread == []
    {
      data := new Byte[IN_SIZE](_ => 0);
      used, r, w, unread := 0, 0, 0, [];
    }

    method Unread() returns (b: Bytes)
      requires Valid()
      ensures b == unread
    {
      b := data[r..w];
    }

    /** The first k unread bytes, or all. */
    method Head(k: nat) returns (b: Bytes)
      requires Valid()
      ensures b == if |unread| <= k then unread else unread[..k]
    {
      var end := if w - r <= k then w else r + k;
      b := data[r..end];
      assert b == unread[..end - r];
    }

    method First() returns (b: Byte)
      requires Valid() && unread != []
      ensures b == unread[0]
    {
      b := data[r];
    }

    /** One read into what is free behind the unread input: never an empty slice. */
    method Read(nc: NetConn, timed: bool) returns (err: Option<Error>)
      requires Valid() && w < IN_SIZE && nc.Valid()
      modifies this, data, nc`pos, nc`expired
      ensures Valid() && nc.Valid() && nc.pos >= old(nc.pos) && r == old(r)
      ensures unread == old(unread) + nc.input[old(nc.pos)..nc.pos]
      ensures err.Some? ==>
                || (nc.pos == |nc.input| && err.value == nc.fin)
                || (timed && err.value == Timeout && nc.pos == old(nc.pos) && nc.expired > old(nc.expired))
      ensures nc.expired >= old(nc.expired) && (!timed ==> nc.expired == old(nc.expired))
      ensures err.None? ==> nc.pos > old(nc.pos)
    {
      hide ZeroFrom;
      ghost var was, mid := data[..], nc.pos;
      var n, e;
      if timed {
        n, e := nc.ReadTimed(data, w, IN_SIZE);
      } else {
        n, e := nc.Read(data, w, IN_SIZE);
      }
      Received(was, data[..], nc.input[mid..nc.pos], r, w, used);
      unread := unread + nc.input[mid..nc.pos];
      w, err := w + n, e;
      used := if used < w then w else used;
    }

    /** Moves the unread input to the front. */
    method Compact()
      requires Valid()
      modifies this, data
      ensures Valid() && r == 0 && unread == old(unread)
    {
      forall i | 0 <= i < w - r {
        data[i] := data[r + i];
      }
      assert data[..w - r] == unread;
      r, w := 0, w - r;
    }

    method Consume(n: nat)
      requires Valid() && n <= |unread|
      modifies this
      ensures Valid() && r == old(r) + n && unread == old(unread)[n..]
    {
      r, unread := r + n, unread[n..];
    }

    /** Zeroes consumed input. */
    method Clear(lo: nat, hi: nat)
      requires Valid() && lo <= hi <= r
      modifies data
      ensures Valid() && data[lo..hi] == Zeros(hi - lo)
    {
      forall i | lo <= i < hi {
        data[i] := 0;
      }
      assert data[r..w] == unread;
    }

    /** Drops the client's further bytes: about LINGER_MAX of them, if they do not end or the time is
        not up before. */
    method Drain(nc: NetConn)
      requires Valid() && nc.Valid()
      modifies this, data, nc`pos, nc`expired
      ensures Valid() && nc.Valid() && old(nc.pos) <= nc.pos < old(nc.pos) + LINGER_MAX + IN_SIZE
      ensures nc.pos >= old(nc.pos) + LINGER_MAX || nc.pos == |nc.input| || nc.expired > old(nc.expired)
    {
      var n := 0;
      while n < LINGER_MAX
        invariant Valid() && nc.Valid() && nc.pos == old(nc.pos) + n && n < LINGER_MAX + IN_SIZE
        invariant nc.expired >= old(nc.expired)
      {
        r, w, unread := 0, 0, [];
        var err := Read(nc, true);
        n := n + w;
        if err.Some? {
          return;
        }
      }
    }

    /** What the pool gets back. */
    method PutBack()
      requires Valid()
      modifies this, data
      ensures Valid() && unread == [] && used == 0 && data[..] == Zeros(IN_SIZE)
    {
      forall i | 0 <= i < used {
        data[i] := 0;
      }
      used, r, w, unread := 0, 0, 0, [];
    }
  }

  /** Messages queued for one write: data[..len]. */
  class OutBuffer {
    const data: array<Byte>
    var used: nat
    var len: nat
    ghost var queued: Bytes

    ghost predicate Valid()
      reads this, data
    {
      && data.Length == OUT_SIZE && len <= used <= OUT_SIZE
      && queued == data[..len] && |queued| == len && ZeroFrom(data[..], used)
    }

    constructor ()
      ensures Valid() && fresh(data) && queued == []
    {
      data := new Byte[OUT_SIZE](_ => 0);
      used, len, queued := 0, 0, [];
    }

    method Append(msg: Bytes)
      requires Valid() && len + |msg| <= OUT_SIZE
      modifies this, data
      ensures Valid() && queued == old(queued) + msg
    {
      forall i | 0 <= i < |msg| {
        data[len + i] := msg[i];
      }
      assert data[..len + |msg|] == queued + msg;
      len, queued := len + |msg|, queued + msg;
      used := if used < len then len else used;
    }

    method Send(nc: NetConn) returns (err: Option<Error>)
      requires Valid()
      modifies this`len, this`queued, nc`sent, nc`room
      ensures Valid() && queued == [] && nc.sent <= old(nc.sent) + old(queued)
      ensures nc.room + |nc.sent| == old(nc.room + |nc.sent|)
      ensures err.None? ==> nc.sent == old(nc.sent) + old(queued)
      ensures err.Some? ==> err.value == WriteFailed && old(nc.room) < |old(queued)|
    {
      var n, e := nc.Write(data[..len]);
      assert data[..len] == queued;
      len, queued, err := 0, [], e;
    }

    method PutBack()
      requires Valid()
      modifies this, data
      ensures Valid() && queued == [] && used == 0 && data[..] == Zeros(OUT_SIZE)
    {
      forall i | 0 <= i < used {
        data[i] := 0;
      }
      used, len, queued := 0, 0, [];
    }
  }
}
