/** From received bytes to dispatched packets (main/mqtt_broker.c:1215-1304, 1537-1568): the
    reference framing of a whole stream, and why chunking and the buffer do not show. */
module Framing {
  import opened Bytes
  import opened Wire
  import opened WireLaws

  type Packet = seq<byte>

  const CONNECT: byte := 0x10
  const DISCONNECT: byte := 0xE0

  /** Why reading stopped: a malformed length, a first packet that is not CONNECT, a handler or
      a DISCONNECT that ended the connection, or a full buffer. */
  datatype Status = Open | BadFrame | NoConnect | Ended | Full

  /** What a connection has seen: the packets dispatched and, while open, the bytes left over. */
  datatype Conn = Conn(packets: seq<Packet>, rest: seq<byte>, status: Status)

  /** The effect of everything the handlers do is in `alive`: given all packets dispatched so
      far, whether the connection is still up. */
  type Handlers = seq<Packet> -> bool

  function Frames(packets: seq<Packet>, stream: seq<byte>, alive: Handlers): Conn
    decreases |stream|
  {
    match FrameOf(stream)
    case Incomplete => Conn(packets, stream, Open)
    case Bad => Conn(packets, [], BadFrame)
    case Whole(n) =>
      FrameGrows(stream, []);
      var p := stream[..n];
      if packets == [] && PacketType(p[0]) != CONNECT then Conn(packets, [], NoConnect)
      else if PacketType(p[0]) == DISCONNECT || !alive(packets + [p]) then Conn(packets + [p], [], Ended)
      else Frames(packets + [p], stream[n..], alive)
  }

  /** One packet, or the reason there is none. */
  lemma FramesStep(packets: seq<Packet>, stream: seq<byte>, alive: Handlers)
    ensures match FrameOf(stream)
            case Incomplete => Frames(packets, stream, alive) == Conn(packets, stream, Open)
            case Bad => Frames(packets, stream, alive) == Conn(packets, [], BadFrame)
            case Whole(n) =>
              && 2 <= n <= |stream|
              && var p := stream[..n];
                 Frames(packets, stream, alive) ==
                 if packets == [] && PacketType(p[0]) != CONNECT then Conn(packets, [], NoConnect)
                 else if PacketType(p[0]) == DISCONNECT || !alive(packets + [p]) then Conn(packets + [p], [], Ended)
                 else Frames(packets + [p], stream[n..], alive)
  {
    if FrameOf(stream).Whole? { FrameGrows(stream, []); }
  }

  /** Bytes that arrive on a connection are framed after what was left over. */
  function Continue(c: Conn, more: seq<byte>, alive: Handlers): Conn {
    if c.status == Open then Frames(c.packets, c.rest + more, alive) else c
  }

  /** Cutting a stream in two changes nothing. */
  lemma {:induction false} FramesSplit(packets: seq<Packet>, a: seq<byte>, b: seq<byte>, alive: Handlers)
    ensures Frames(packets, a + b, alive) == Continue(Frames(packets, a, alive), b, alive)
    decreases |a|
  {
    if !FrameOf(a).Incomplete? {
      FrameGrows(a, b);
      if FrameOf(a).Whole? {
        var n := FrameOf(a).len;
        assert (a + b)[..n] == a[..n] && (a + b)[n..] == a[n..] + b;
        FramesSplit(packets + [a[..n]], a[n..], b, alive);
      }
    }
  }

  function Flatten(chunks: seq<seq<byte>>): seq<byte> {
    if chunks == [] then [] else chunks[0] + Flatten(chunks[1..])
  }

  function Receive(c: Conn, chunks: seq<seq<byte>>, alive: Handlers): Conn
    decreases |chunks|
  {
    if chunks == [] then c else Receive(Continue(c, chunks[0], alive), chunks[1..], alive)
  }

  lemma ContinueTwice(c: Conn, a: seq<byte>, b: seq<byte>, alive: Handlers)
    ensures Continue(Continue(c, a, alive), b, alive) == Continue(c, a + b, alive)
  {
    FramesSplit(c.packets, c.rest + a, b, alive);
    hide Frames;
    assert c.rest + a + b == c.rest + (a + b);
  }

  lemma ContinueNothing(c: Conn, alive: Handlers)
    requires c.status == Open ==> FrameOf(c.rest).Incomplete?
    ensures Continue(c, [], alive) == c
  {
    assert c.rest + [] == c.rest;
  }

  lemma {:induction false} ReceiveIsContinue(c: Conn, chunks: seq<seq<byte>>, alive: Handlers)
    requires c.status == Open ==> FrameOf(c.rest).Incomplete?
    ensures Receive(c, chunks, alive) == Continue(c, Flatten(chunks), alive)
    decreases |chunks|
  {
    if chunks == [] {
      ContinueNothing(c, alive);
    } else {
      ContinueTwice(c, chunks[0], Flatten(chunks[1..]), alive);
      FramesLeavesIncomplete(c.packets, c.rest + chunks[0], alive);
      ReceiveIsContinue(Continue(c, chunks[0], alive), chunks[1..], alive);
    }
  }

  lemma {:induction false} FramesLeavesIncomplete(packets: seq<Packet>, stream: seq<byte>, alive: Handlers)
    ensures Frames(packets, stream, alive).status == Open ==> FrameOf(Frames(packets, stream, alive).rest).Incomplete?
    decreases |stream|
  {
    if FrameOf(stream).Whole? {
      FrameGrows(stream, []);
      var n := FrameOf(stream).len;
      FramesLeavesIncomplete(packets + [stream[..n]], stream[n..], alive);
    }
  }

  /** However a stream is cut into chunks, the packets dispatched, the bytes left over and the
      outcome are those of framing the whole stream. */
  lemma ChunkingIsInvisible(chunks: seq<seq<byte>>, alive: Handlers)
    ensures Receive(Conn([], [], Open), chunks, alive) == Frames([], Flatten(chunks), alive)
  {
    ReceiveIsContinue(Conn([], [], Open), chunks, alive);
    assert [] + Flatten(chunks) == Flatten(chunks);
  }

  /** How a connection that had seen some packets stands after this much of the stream: `tail` is what came after the
      packets dispatched since. */
  ghost predicate Stands(packets: seq<Packet>, tail: seq<byte>, alive: Handlers, c: Conn) {
    && packets <= c.packets && (forall p | p in c.packets[|packets|..] :: |p| >= 2)
    && (packets == [] && c.packets != [] ==> c.packets[0] != [] && c.packets[0][0] / 16 == 1)
    && (forall k | |packets| <= k < |c.packets| - 1 :: GoesOn(c.packets, k, alive))
    && match c.status
       case Open =>
         && tail == c.rest && FrameOf(tail).Incomplete?
         && (|c.packets| > |packets| ==> GoesOn(c.packets, |c.packets| - 1, alive))
       case BadFrame => FrameOf(tail).Bad? && (|c.packets| > |packets| ==> GoesOn(c.packets, |c.packets| - 1, alive))
       case NoConnect => c.packets == [] && FrameOf(tail).Whole? && tail != [] && tail[0] / 16 != 1
       case Ended => |c.packets| > |packets| && !GoesOn(c.packets, |c.packets| - 1, alive)
       case Full => false
  }

  /** The connection outlives the k-th packet: it is no DISCONNECT, and the handlers leave the connection up. */
  ghost predicate GoesOn(packets: seq<Packet>, k: nat, alive: Handlers)
    requires k < |packets|
  {
    packets[k] != [] && packets[k][0] / 16 != 14 && alive(packets[..k + 1])
  }

  /** A connection is read until a malformed length, a first packet that is not CONNECT, or a packet that ends it;
      short of these, until the bytes left over are no whole packet. */
  lemma {:induction false} OutcomeMeaning(packets: seq<Packet>, stream: seq<byte>, alive: Handlers)
    returns (tail: seq<byte>)
    ensures var c := Frames(packets, stream, alive);
            Stands(packets, tail, alive, c) && Flatten(c.packets[|packets|..]) + tail == stream
    decreases |stream|
  {
    FramesStep(packets, stream, alive);
    hide Frames, FrameOf, Stands, GoesOn, Flatten;
    tail := stream;
    if FrameOf(stream).Whole? {
      var n := FrameOf(stream).len;
      var p, rest := stream[..n], stream[n..];
      var all := packets + [p];
      assert stream == p + rest;
      if packets == [] && PacketType(p[0]) != CONNECT {
        StandsAtOnce(packets, stream, alive, Conn(packets, [], NoConnect));
      } else if PacketType(p[0]) == DISCONNECT || !alive(all) {
        EndsWith(packets, p, rest, alive);
        tail := rest;
      } else {
        tail := OutcomeMeaning(all, rest, alive);
        StandsLonger(packets, p, rest, tail, alive, Frames(all, rest, alive));
      }
    } else {
      StandsAtOnce(packets, stream, alive, Frames(packets, stream, alive));
    }
  }

  lemma StandsAtOnce(packets: seq<Packet>, stream: seq<byte>, alive: Handlers, c: Conn)
    requires || (c == Conn(packets, stream, Open) && FrameOf(stream).Incomplete?)
             || (c == Conn(packets, [], BadFrame) && FrameOf(stream).Bad?)
             || (c == Conn([], [], NoConnect) && packets == [] && FrameOf(stream).Whole? && stream != []
                 && stream[0] / 16 != 1)
    requires packets == c.packets
    ensures Stands(packets, stream, alive, c) && Flatten(c.packets[|packets|..]) + stream == stream
  {
    hide FrameOf;
    assert c.packets[|packets|..] == [] && [] + stream == stream;
  }

  lemma EndsWith(packets: seq<Packet>, p: Packet, rest: seq<byte>, alive: Handlers)
    requires |p| >= 2 && (packets == [] ==> p[0] / 16 == 1) && (p[0] / 16 == 14 || !alive(packets + [p]))
    ensures var c := Conn(packets + [p], [], Ended);
            Stands(packets, rest, alive, c) && Flatten(c.packets[|packets|..]) + rest == p + rest
  {
    var all := packets + [p];
    assert all[..|packets| + 1] == all && all[|packets|..] == [p];
    assert Flatten([p]) == p + Flatten([]) == p;
  }

  lemma StandsLonger(packets: seq<Packet>, p: Packet, rest: seq<byte>, tail: seq<byte>, alive: Handlers, c: Conn)
    requires Stands(packets + [p], tail, alive, c) && Flatten(c.packets[|packets| + 1..]) + tail == rest
    requires |p| >= 2 && (packets == [] ==> p[0] / 16 == 1) && p[0] / 16 != 14 && alive(packets + [p])
    ensures Stands(packets, tail, alive, c) && Flatten(c.packets[|packets|..]) + tail == p + rest
  {
    var all := packets + [p];
    hide FrameOf;
    assert c.packets[|packets|] == p && c.packets[..|packets| + 1] == all;
    assert GoesOn(c.packets, |packets|, alive);
    assert c.packets[|packets|..] == [p] + c.packets[|all|..];
    FlattenCons(p, c.packets[|all|..], tail);
  }

  /** After some packets: the ones dispatched since are whole, and while the connection is open they and the bytes left
      over are exactly the stream. */
  ghost predicate Kept(packets: seq<Packet>, stream: seq<byte>, c: Conn) {
    && packets <= c.packets
    && (forall p | p in c.packets[|packets|..] :: FrameOf(p) == Whole(|p|))
    && (c.status == Open ==> Flatten(c.packets[|packets|..]) + c.rest == stream)
  }

  lemma KeptOneMore(packets: seq<Packet>, p: Packet, stream: seq<byte>, c: Conn)
    requires Kept(packets + [p], stream, c) && FrameOf(p) == Whole(|p|)
    ensures Kept(packets, p + stream, c)
  {
    hide FrameOf;
    var later := c.packets[|packets + [p]|..];
    assert c.packets[|packets|..] == [p] + later;
    FlattenCons(p, later, c.rest);
  }

  lemma KeptAtEnd(packets: seq<Packet>, last: seq<Packet>, stream: seq<byte>, c: Conn)
    requires forall p | p in last :: FrameOf(p) == Whole(|p|)
    requires c.status == Open ==> c == Conn(packets, stream, Open)
    requires c.packets == packets || c.packets == packets + last
    ensures Kept(packets, stream, c)
  {
    hide FrameOf;
    if c.packets == packets {
      assert c.packets[|packets|..] == [] && [] + stream == stream;
    } else {
      assert c.packets[|packets|..] == last;
    }
  }

  /** Framing loses nothing. */
  lemma {:induction false} NothingLost(packets: seq<Packet>, stream: seq<byte>, alive: Handlers)
    ensures Kept(packets, stream, Frames(packets, stream, alive))
    decreases |stream|
  {
    FramesStep(packets, stream, alive);
    var c := Frames(packets, stream, alive);
    if FrameOf(stream).Whole? {
      FrameIsOwnFrame(stream);
      var n := FrameOf(stream).len;
      var p, tail := stream[..n], stream[n..];
      NothingLost(packets + [p], tail, alive);
      assert stream == p + tail;
      hide Frames, FrameOf, Kept;
      if c == Frames(packets + [p], tail, alive) {
        KeptOneMore(packets, p, tail, c);
      } else {
        KeptAtEnd(packets, [p], stream, c);
      }
    } else {
      hide Frames, FrameOf, Kept;
      KeptAtEnd(packets, [], stream, c);
    }
  }

  lemma FlattenCons(p: Packet, later: seq<Packet>, rest: seq<byte>)
    ensures Flatten([p] + later) + rest == p + (Flatten(later) + rest)
  {
    assert ([p] + later)[1..] == later;
  }

  // ---------- the buffer ----------

  /** The length a packet announces, once its header is there. */
  function Announced(b: seq<byte>): Option<nat> {
    if |b| < 2 then None
    else
      match DecodeLength(b[1..])
      case Length(v, n) => Some(1 + n + v)
      case _ => None
  }

  lemma {:induction false} FourBytesDecide(b: seq<byte>, room: nat)
    requires |b| > room
    ensures !DecodeIn(b, room).NeedMore?
  {
    if room > 0 && b[0] >= 0x80 { FourBytesDecide(b[1..], room - 1); }
  }

  /** A buffer of six bytes or more fills up without a whole packet exactly when the packet in
      it announces more than the buffer holds. */
  lemma FullMeansTooLong(b: seq<byte>)
    requires |b| >= 6
    ensures FrameOf(b).Incomplete? <==> Announced(b).Some? && Announced(b).value > |b|
  {
    FourBytesDecide(b[1..], 4);
  }

  lemma AnnouncedGrows(b: seq<byte>, more: seq<byte>)
    requires Announced(b).Some?
    ensures Announced(b + more) == Announced(b)
  {
    assert (b + more)[1..] == b[1..] + more;
    DecodeGrows(b[1..], more, 4);
  }

  /** One readable event: a full buffer ends the connection, otherwise at most the free space
      is read. `offered` is what the socket has. */
  function Feed(c: Conn, offered: seq<byte>, size: nat, alive: Handlers): Conn
    requires |c.rest| <= size
  {
    if c.status != Open then c
    else if |c.rest| == size then Conn(c.packets, [], Full)
    else Continue(c, offered[..Min(|offered|, size - |c.rest|)], alive)
  }

  lemma {:induction false} RestFits(packets: seq<Packet>, stream: seq<byte>, alive: Handlers)
    ensures |Frames(packets, stream, alive).rest| <= |stream|
    decreases |stream|
  {
    if FrameOf(stream).Whole? {
      FrameGrows(stream, []);
      RestFits(packets + [stream[..FrameOf(stream).len]], stream[FrameOf(stream).len..], alive);
    }
  }

  lemma FeedFits(c: Conn, offered: seq<byte>, size: nat, alive: Handlers)
    requires |c.rest| <= size
    ensures |Feed(c, offered, size, alive).rest| <= size
  {
    if c.status == Open && |c.rest| < size {
      RestFits(c.packets, c.rest + offered[..Min(|offered|, size - |c.rest|)], alive);
    }
  }

  /** Feeding a stream in reads of at most `sizes[i]` bytes, until reads or stream run out or
      the connection ends, with the number of bytes read. */
  function FeedAll(c: Conn, stream: seq<byte>, sizes: seq<nat>, size: nat, alive: Handlers): (r: (Conn, nat))
    requires |c.rest| <= size
    ensures r.1 <= |stream|
    decreases |sizes|
  {
    if sizes == [] || stream == [] || c.status != Open then (c, 0)
    else
      var offered := stream[..Min(sizes[0], |stream|)];
      var taken := Min(|offered|, size - |c.rest|);
      FeedFits(c, offered, size, alive);
      var (end, later) := FeedAll(Feed(c, offered, size, alive), stream[taken..], sizes[1..], size, alive);
      (end, taken + later)
  }

  /** Every packet that framing the stream comes to, and the one it ends in, announces at most
      `size` bytes. */
  ghost predicate AllFit(packets: seq<Packet>, stream: seq<byte>, size: nat, alive: Handlers)
    decreases |stream|
  {
    && (Announced(stream).Some? ==> Announced(stream).value <= size)
    && (FrameOf(stream).Whole? ==>
          var n := FrameOf(stream).len;
          FrameGrows(stream, []);
          AllFit(packets + [stream[..n]], stream[n..], size, alive))
  }

  lemma {:induction false} FitRemains(packets: seq<Packet>, a: seq<byte>, b: seq<byte>, size: nat, alive: Handlers)
    requires AllFit(packets, a + b, size, alive)
    requires Frames(packets, a, alive).status == Open
    ensures AllFit(Frames(packets, a, alive).packets, Frames(packets, a, alive).rest + b, size, alive)
    decreases |a|
  {
    if FrameOf(a).Whole? {
      FrameGrows(a, b);
      var n := FrameOf(a).len;
      assert (a + b)[..n] == a[..n] && (a + b)[n..] == a[n..] + b;
      FitRemains(packets + [a[..n]], a[n..], b, size, alive);
    }
  }

  /** Open with a packet still to come, and every packet of `stream` fits. */
  ghost predicate Roomy(c: Conn, stream: seq<byte>, size: nat, alive: Handlers) {
    && |c.rest| <= size && c.status != Full
    && (c.status == Open ==> FrameOf(c.rest).Incomplete? && AllFit(c.packets, c.rest + stream, size, alive))
  }

  lemma FeedStep(c: Conn, stream: seq<byte>, first: nat, size: nat, alive: Handlers)
    requires size >= 6 && Roomy(c, stream, size, alive) && c.status == Open && stream != []
    ensures var offered := stream[..Min(first, |stream|)];
            var taken := Min(|offered|, size - |c.rest|);
            && Feed(c, offered, size, alive) == Continue(c, stream[..taken], alive)
            && Roomy(Continue(c, stream[..taken], alive), stream[taken..], size, alive)
  {
    if |c.rest| == size {
      FullMeansTooLong(c.rest);
      AnnouncedGrows(c.rest, stream);
    }
    var offered := stream[..Min(first, |stream|)];
    var taken := Min(|offered|, size - |c.rest|);
    var a := c.rest + stream[..taken];
    assert a + stream[taken..] == c.rest + stream && offered[..taken] == stream[..taken];
    FeedFits(c, offered, size, alive);
    FramesLeavesIncomplete(c.packets, a, alive);
    NeverFullByFraming(c.packets, a, alive);
    if Frames(c.packets, a, alive).status == Open { FitRemains(c.packets, a, stream[taken..], size, alive); }
  }

  lemma TakeMore(s: seq<byte>, i: nat, j: nat)
    requires i + j <= |s|
    ensures s[..i + j] == s[..i] + s[i..][..j]
  {}

  /** A stream whose packets fit the buffer never meets the full-buffer disconnect, however it
      is read, and the outcome is that of framing what was read. */
  lemma {:induction false} FittingStreamNeverFills(c: Conn, stream: seq<byte>, sizes: seq<nat>, size: nat,
                                                   alive: Handlers)
    requires size >= 6 && Roomy(c, stream, size, alive)
    ensures var (end, read) := FeedAll(c, stream, sizes, size, alive);
            end.status != Full && end == Continue(c, stream[..read], alive)
    decreases |sizes|, 0
  {
    hide AllFit, Frames, FrameOf;
    if sizes == [] || stream == [] || c.status != Open {
      ContinueNothing(c, alive);
      assert stream[..0] == [];
    } else {
      FeedStep(c, stream, sizes[0], size, alive);
      var taken := Min(Min(sizes[0], |stream|), size - |c.rest|);
      var c' := Continue(c, stream[..taken], alive);
      assert |c'.rest| <= size && |c.rest| <= size;
      hide Roomy, Feed, Continue, FeedAll;
      FeedAllStep(c, c', stream, sizes, size, alive);
      var later := FittingStreamGoesOn(c, c', stream, taken, sizes[1..], size, alive);
    }
  }

  lemma FeedAllStep(c: Conn, c': Conn, stream: seq<byte>, sizes: seq<nat>, size: nat, alive: Handlers)
    requires |c.rest| <= size && sizes != [] && stream != [] && c.status == Open && |c'.rest| <= size
    requires c' == Feed(c, stream[..Min(sizes[0], |stream|)], size, alive)
    ensures var taken := Min(Min(sizes[0], |stream|), size - |c.rest|);
            var (end, later) := FeedAll(c', stream[taken..], sizes[1..], size, alive);
            FeedAll(c, stream, sizes, size, alive) == (end, taken + later)
  {
    hide Feed;
  }

  lemma {:induction false} FittingStreamGoesOn(c: Conn, c': Conn, stream: seq<byte>, taken: nat, sizes: seq<nat>,
                                               size: nat, alive: Handlers)
    returns (later: nat)
    requires size >= 6 && taken <= |stream| && c' == Continue(c, stream[..taken], alive)
    requires Roomy(c', stream[taken..], size, alive)
    ensures later == FeedAll(c', stream[taken..], sizes, size, alive).1
    ensures var end := FeedAll(c', stream[taken..], sizes, size, alive).0;
            end.status != Full && end == Continue(c, stream[..taken + later], alive)
    decreases |sizes|, 1
  {
    hide Continue, FeedAll;
    var b := stream[taken..];
    FittingStreamNeverFills(c', b, sizes, size, alive);
    later := FeedAll(c', b, sizes, size, alive).1;
    TakeMore(stream, taken, later);
    ContinueTwice(c, stream[..taken], b[..later], alive);
  }

  lemma {:induction false} NeverFullByFraming(packets: seq<Packet>, stream: seq<byte>, alive: Handlers)
    ensures Frames(packets, stream, alive).status != Full
    decreases |stream|
  {
    if FrameOf(stream).Whole? {
      FrameGrows(stream, []);
      NeverFullByFraming(packets + [stream[..FrameOf(stream).len]], stream[FrameOf(stream).len..], alive);
    }
  }
}

/** The receive buffer of one client. */
module RecvBuffer {
  import opened Bytes
  import opened Wire
  import opened WireLaws
  import opened Framing

  lemma NothingLeft(b: seq<byte>)
    requires b == []
    ensures FrameOf(b).Incomplete?
  {}

  class Connection {
    const buf: array<byte>
    const alive: Handlers
    var len: nat
    var packets: seq<Packet>
    var status: Status

    ghost predicate Valid()
      reads this, buf
    {
      && 6 <= buf.Length && len <= buf.Length
      && (status != Open ==> len == 0)
      && FrameOf(buf[..len]).Incomplete?
    }

    ghost function Abs(): Conn
      reads this, buf
      requires len <= buf.Length
    {
      Conn(packets, buf[..len], status)
    }

    constructor (size: nat, alive: Handlers)
      requires size >= 6
      ensures Valid() && fresh(buf) && buf.Length == size && this.alive == alive
      ensures Abs() == Conn([], [], Open)
    {
      buf := new byte[size];
      this.alive := alive;
      len, packets, status := 0, [], Open;
    }

    /** client_disconnect, as far as the buffer goes. */
    method Close(why: Status)
      requires why != Open
      modifies this
      ensures len == 0 && status == why && packets == old(packets)
    {
      len, status := 0, why;
    }

    /** process_client_data: dispatch every whole packet, then move the rest to the front. */
    method Process()
      requires 6 <= buf.Length && len <= buf.Length && status == Open
      modifies this, buf
      ensures Valid() && Abs() == Frames(old(packets), old(buf[..len]), alive)
    {
      hide PacketType, Frames, FrameOf;
      while len > 0
        invariant len <= buf.Length && status == Open
        invariant Frames(packets, buf[..len], alive) == Frames(old(packets), old(buf[..len]), alive)
        decreases len
      {
        ghost var stream := buf[..len];
        FramesStep(packets, stream, alive);
        var rc, n := PacketLength(buf, len);
        if rc == 1 { break; }
        if rc < 0 {
          Close(BadFrame);
          NothingLeft(buf[..len]);
          return;
        }
        var p := buf[..n];
        assert p == stream[..n];
        if packets == [] && PacketType(buf[0]) != CONNECT {
          Close(NoConnect);
          NothingLeft(buf[..len]);
          return;
        }
        packets := packets + [p];
        if PacketType(buf[0]) == DISCONNECT || !alive(packets) {
          Close(Ended);
          NothingLeft(buf[..len]);
          return;
        }
        Remove(n);
      }
      if len == 0 {
        NothingLeft(buf[..len]);
        FramesStep(packets, buf[..len], alive);
      }
    }

    /** The end of its loop: the bytes after the packet move to the front. */
    method Remove(n: nat)
      requires n <= len <= buf.Length
      modifies `len, buf
      ensures len == old(len) - n && buf[..len] == old(buf[..len])[n..]
    {
      if n < len {
        forall i | 0 <= i < len - n { buf[i] := buf[n + i]; }
      }
      len := len - n;
    }

    /** The readable event of the main loop. */
    method OnReadable(offered: seq<byte>) returns (taken: nat)
      requires Valid() && status == Open
      modifies this, buf
      ensures Valid() && Abs() == Feed(old(Abs()), offered, buf.Length, alive)
      ensures taken == Min(|offered|, buf.Length - old(len))
      ensures status == Full ==> Announced(old(buf[..len])).Some? && Announced(old(buf[..len])).value > buf.Length
    {
      hide Frames, FrameOf, Announced;
      var space := buf.Length - len;
      taken := Min(|offered|, space);
      NeverFullByFraming(packets, buf[..len] + offered[..taken], alive);
      if space == 0 {
        FullMeansTooLong(buf[..len]);
        Close(Full);
        NothingLeft(buf[..len]);
        return;
      }
      ghost var was := buf[..len];
      forall i | 0 <= i < taken { buf[len + i] := offered[i]; }
      len := len + taken;
      assert buf[..len] == was + offered[..taken];
      Process();
    }
  }
}
