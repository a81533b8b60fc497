/**
 From the client's send loop to the server's handlers: structs are encoded, sent
 in however many pieces the client's socket takes, received in however many
 pieces the server's socket gives, reassembled and decoded.
 */
module EndToEnd {
  import opened Bytes
  import opened Framing
  import opened Packets
  import opened Receiver

  /**
   DummyClient, connected: the bytes its socket has taken so far, in order, and what the
   calls of send() answer, the first call first; when these run out the connection is gone.
   */
  class DummyClient {
    const answers: seq<int>
    var calls: nat
    var wire: Buffer

    constructor (answers: seq<int>)
      ensures this.answers == answers && calls == 0 && wire == []
    {
      this.answers, calls, wire := answers, 0, [];
    }

    function Answer(call: nat): int {
      if call < |answers| then answers[call] else -1
    }

    /** send(): takes as many of the bytes data[at..] as it answers, or fails and takes nothing. */
    method Send(data: Buffer, at: nat) returns (sent: int)
      requires at < |data|
      modifies this
      ensures calls == old(calls) + 1
      ensures sent == if Answer(old(calls)) > |data| - at then |data| - at else Answer(old(calls))
      ensures wire == if sent > 0 then old(wire) + data[at..at + sent] else old(wire)
    {
      sent := Answer(calls);
      calls := calls + 1;
      if sent > |data| - at {
        sent := |data| - at;
      }
      if sent > 0 {
        wire := wire + data[at..at + sent];
      }
    }

    /**
     On success exactly the packet has entered the stream; on failure, some proper prefix
     of it, and it was the last call of send() that failed.
     */
    method SendPacket(data: Buffer) returns (ok: bool)
      modifies this
      ensures ok ==> wire == old(wire) + data
      ensures !ok ==> exists k :: 0 <= k < |data| && wire == old(wire) + data[..k]
      ensures old(calls) <= calls
      ensures !ok ==> old(calls) < calls && Answer(calls - 1) <= 0
    {
      var at := 0;
      while at < |data|
        invariant at <= |data| && wire == old(wire) + data[..at]
        invariant old(calls) <= calls
      {
        var sent := Send(data, at);
        if sent <= 0 {
          return false;
        }
        Thirds(data, at, at + sent);
        at := at + sent;
      }
      assert data[..at] == data;
      return true;
    }
  }

  function EncodeAll(ps: seq<Packet>): (frames: seq<Buffer>)
    ensures |frames| == |ps|
  {
    if ps == [] then [] else [Encode(ps[0])] + EncodeAll(ps[1..])
  }

  /** What the handlers see of a list of frames. */
  function HandleAll(frames: seq<Buffer>): (ds: seq<Dispatch>)
    ensures |ds| == |frames|
  {
    if frames == [] then [] else [Handle(frames[0])] + HandleAll(frames[1..])
  }

  function DeliverAll(ps: seq<Packet>): (ds: seq<Dispatch>)
    ensures |ds| == |ps|
  {
    if ps == [] then [] else [Delivered(ps[0])] + DeliverAll(ps[1..])
  }

  /** The bytes a client that sends these structs puts on the wire. */
  function Stream(ps: seq<Packet>): Buffer {
    Concat(EncodeAll(ps))
  }

  /** Structs are encoded one by one. */
  lemma {:induction false} EncodedOneByOne(ps: seq<Packet>, i: nat)
    requires i < |ps|
    ensures EncodeAll(ps)[i] == Encode(ps[i])
  {
    ConsAt(Encode(ps[0]), EncodeAll(ps[1..]), i);
    if i > 0 {
      EncodedOneByOne(ps[1..], i - 1);
    }
  }

  /** And delivered one by one. */
  lemma {:induction false} DeliveredOneByOne(ps: seq<Packet>, i: nat)
    requires i < |ps|
    ensures DeliverAll(ps)[i] == Delivered(ps[i])
  {
    ConsAt(Delivered(ps[0]), DeliverAll(ps[1..]), i);
    if i > 0 {
      DeliveredOneByOne(ps[1..], i - 1);
    }
  }

  /** Frames are dispatched one by one. */
  lemma {:induction false} HandledOneByOne(frames: seq<Buffer>, i: nat)
    requires i < |frames|
    ensures HandleAll(frames)[i] == Handle(frames[i])
  {
    ConsAt(Handle(frames[0]), HandleAll(frames[1..]), i);
    if i > 0 {
      HandledOneByOne(frames[1..], i - 1);
    }
  }

  lemma {:induction false} HandleEncodeAll(ps: seq<Packet>)
    ensures HandleAll(EncodeAll(ps)) == DeliverAll(ps)
  {
    if ps != [] {
      HandleEncode(ps[0], []);
      assert Encode(ps[0]) + [] == Encode(ps[0]);
      assert EncodeAll(ps)[1..] == EncodeAll(ps[1..]);
      HandleEncodeAll(ps[1..]);
    }
  }

  /** A struct at the head of the stream is one frame of exactly its bytes. */
  lemma EncodedFrame(p: Packet, tail: Buffer)
    ensures LookAt(Encode(p) + tail) == Frame(|Encode(p)|)
  {
    EncodedHeader(p, tail);
  }

  lemma {:induction false} StreamParses(ps: seq<Packet>)
    ensures WellFormed(Stream(ps))
    ensures Frames(Stream(ps)) == EncodeAll(ps) && Rest(Stream(ps)) == []
  {
    if ps != [] {
      var head, tail := Encode(ps[0]), Stream(ps[1..]);
      assert EncodeAll(ps)[1..] == EncodeAll(ps[1..]);
      assert Stream(ps) == head + tail;
      EncodedFrame(ps[0], tail);
      assert Stream(ps)[..|head|] == head && Stream(ps)[|head|..] == tail;
      StreamParses(ps[1..]);
    }
  }

  lemma {:induction false} EncodeAllAppend(ps: seq<Packet>, p: Packet)
    ensures EncodeAll(ps + [p]) == EncodeAll(ps) + [Encode(p)]
  {
    if ps == [] {
      assert [] + [p] == [p] && [p][1..] == [];
    } else {
      AppendTail(ps, [p]);
      EncodeAllAppend(ps[1..], p);
      Assoc([Encode(ps[0])], EncodeAll(ps[1..]), [Encode(p)]);
    }
  }

  lemma {:induction false} StreamAppend(ps: seq<Packet>, p: Packet)
    ensures Stream(ps + [p]) == Stream(ps) + Encode(p)
  {
    EncodeAllAppend(ps, p);
    ConcatAppend(EncodeAll(ps), [Encode(p)]);
    ConcatOne(Encode(p));
  }

  // ---------------------------------------------------------------------
  // Sending
  // ---------------------------------------------------------------------

  /** What is on the wire after n structs have gone out and, unless ok, a piece of the next one. */
  ghost predicate Sent(ps: seq<Packet>, n: nat, ok: bool, wire: Buffer) {
    && n <= |ps|
    && (ok ==> n == |ps| && wire == Stream(ps))
    && (!ok ==> n < |ps| && exists k :: 0 <= k < |Encode(ps[n])| && wire == Stream(ps[..n]) + Encode(ps[n])[..k])
  }

  method SendNext(client: DummyClient, ps: seq<Packet>, n: nat) returns (ok: bool)
    requires n < |ps| && client.wire == Stream(ps[..n])
    modifies client
    ensures old(client.calls) <= client.calls
    ensures ok ==> client.wire == Stream(ps[..n + 1])
    ensures !ok ==> Sent(ps, n, false, client.wire)
    ensures !ok ==> old(client.calls) < client.calls && client.Answer(client.calls - 1) <= 0
  {
    StreamAppend(ps[..n], ps[n]);
    InitLast(ps[..n + 1]);
    assert ps[..n + 1][..n] == ps[..n];
    ok := client.SendPacket(Encode(ps[n]));
  }

  /**
   The client sends one struct after the other, in whatever pieces send() takes, up to the
   first failure, which is the answer of the last call.
   */
  method SendAll(client: DummyClient, ps: seq<Packet>) returns (n: nat, ok: bool, last: nat)
    requires client.wire == []
    modifies client
    ensures Sent(ps, n, ok, client.wire)
    ensures !ok ==> old(client.calls) <= last && client.Answer(last) <= 0
  {
    n, last := 0, 0;
    while n < |ps|
      invariant n <= |ps| && client.wire == Stream(ps[..n])
      invariant old(client.calls) <= client.calls
    {
      ok := SendNext(client, ps, n);
      if !ok {
        last := client.calls - 1;
        return;
      }
      n := n + 1;
    }
    assert ps[..n] == ps;
    ok := true;
  }

  // ---------------------------------------------------------------------
  // Round trips
  // ---------------------------------------------------------------------

  /** A proper prefix of an encoded struct is no frame yet. */
  lemma CutFrame(p: Packet, k: nat)
    requires k < |Encode(p)|
    ensures LookAt(Encode(p)[..k]).Wait?
  {
    EncodedHeader(p, []);
    assert Encode(p) + [] == Encode(p);
    if k >= Framing.HEADER_SIZE {
      assert Encode(p)[..k][0..2] == Encode(p)[0..2];
    }
  }

  /** A stream that ends inside a struct is well-formed, and its last piece is what the parser leaves. */
  lemma {:induction false} CutStreamParses(ps: seq<Packet>, p: Packet, k: nat)
    requires k < |Encode(p)|
    ensures var wire := Stream(ps) + Encode(p)[..k];
            WellFormed(wire) && Frames(wire) == EncodeAll(ps) && Rest(wire) == Encode(p)[..k]
  {
    var cut := Encode(p)[..k];
    StreamParses(ps);
    CutFrame(p, k);
    ParseSplit(Stream(ps), cut);
    assert [] + cut == cut;
    StreamParses(ps + [p]);
    StreamAppend(ps, p);
    CutAgain(Stream(ps), Encode(p), k);
    WellFormedSplit(Stream(ps) + cut, Encode(p)[k..]);
  }

  lemma CutAgain(a: Buffer, b: Buffer, k: nat)
    requires k <= |b|
    ensures (a + b[..k]) + b[k..] == a + b
  {
    assert b[..k] + b[k..] == b;
  }

  lemma {:induction false} SentParses(ps: seq<Packet>, n: nat, ok: bool, wire: Buffer)
    requires Sent(ps, n, ok, wire)
    ensures WellFormed(wire) && Frames(wire) == EncodeAll(ps[..n])
    ensures if ok then Rest(wire) == [] else |Rest(wire)| < |Encode(ps[n])| && Rest(wire) <= Encode(ps[n])
  {
    if ok {
      assert ps[..n] == ps;
      StreamParses(ps);
    } else {
      var k :| 0 <= k < |Encode(ps[n])| && wire == Stream(ps[..n]) + Encode(ps[n])[..k];
      CutStreamParses(ps[..n], ps[n], k);
    }
  }

  /**
   The round trip: whatever structs are sent, in whatever pieces, and however the
   stream is cut into receives of at most 8192 bytes, the handlers run on exactly the
   structs that went out, in order; what is left in the ring is nothing, or the piece
   of the struct during which the client failed.
   */
  lemma {:induction false} RoundTrip(ps: seq<Packet>, n: nat, ok: bool, wire: Buffer, chunks: seq<Buffer>)
    requires Sent(ps, n, ok, wire)
    requires Concat(chunks) == wire
    requires forall c :: c in chunks ==> |c| <= 8192
    ensures var rx := ReceiveAll(EmptyRx, chunks);
            && HandleAll(rx.handled) == DeliverAll(ps[..n])
            && if ok then n == |ps| && rx.buffer == []
               else n < |ps| && |rx.buffer| < |Encode(ps[n])| && rx.buffer <= Encode(ps[n])
  {
    SentParses(ps, n, ok, wire);
    assert [] + Concat(chunks) == wire;
    WellFormedNeverOverflows(EmptyRx, chunks);
    HandleEncodeAll(ps[..n]);
  }

  /**
   While the server has not received all of the stream yet, the handlers have run on
   the first few of the structs.
   */
  lemma {:induction false} PartialRoundTrip(ps: seq<Packet>, chunks: seq<Buffer>, missing: Buffer)
    requires Concat(chunks) + missing == Stream(ps)
    requires forall c :: c in chunks ==> |c| <= 8192
    ensures HandleAll(ReceiveAll(EmptyRx, chunks).handled) <= DeliverAll(ps)
  {
    var got := Concat(chunks);
    StreamParses(ps);
    WellFormedSplit(got, missing);
    assert [] + got == got;
    WellFormedNeverOverflows(EmptyRx, chunks);
    ParseSplit(got, missing);
    HandleEncodeAll(ps);
    HandleAppend(Frames(got), Frames(Rest(got) + missing));
  }

  lemma {:induction false} HandleAppend(a: seq<Buffer>, b: seq<Buffer>)
    ensures HandleAll(a + b) == HandleAll(a) + HandleAll(b)
  {
    if a == [] {
      assert a + b == b;
    } else {
      assert (a + b)[0] == a[0] && (a + b)[1..] == a[1..] + b;
      HandleAppend(a[1..], b);
    }
  }

  /** A receive completion: the kernel has put a chunk into the receive buffer, a worker picks it up. */
  method ReceiveChunk(session: SessionReceiver, chunk: Buffer)
    requires session.Valid() && |chunk| <= RECV_SIZE
    modifies session, session.m_recvBuffer, session.m_ringBuffer, session.m_ringBuffer.m_buffer
    ensures session.Valid() && session.View() == Receive(old(session.View()), chunk)
  {
    forall i | 0 <= i < |chunk| {
      session.m_recvBuffer[i] := chunk[i];
    }
    assert session.m_recvBuffer[..|chunk|] == chunk;
    assert session.View() == old(session.View());
    session.OnRecvCompleted(|chunk|);
  }

  /** The next receive of wire, of any length the kernel likes. */
  method ReceiveNext(session: SessionReceiver, wire: Buffer, at: nat) returns (next: nat)
    requires session.Valid() && at < |wire|
    requires WellFormed(wire) && CaughtUp(session.View(), wire[..at])
    modifies session, session.m_recvBuffer, session.m_ringBuffer, session.m_ringBuffer.m_buffer
    ensures session.Valid() && at < next <= |wire|
    ensures CaughtUp(session.View(), wire[..next])
  {
    var n: int := *;
    if n <= 0 || n > RECV_SIZE || at + n > |wire| {
      n := 1;
    }
    var chunk := wire[at..at + n];
    Thirds(wire, at, at + n);
    KeepsUp(session.View(), wire[..at], chunk, wire[at + n..]);
    ReceiveChunk(session, chunk);
    next := at + n;
  }

  /**
   The same on the objects: the kernel fills the receive buffer with the next bytes
   of the stream, a worker runs OnRecvCompleted, and so on until the stream ends.
   */
  method Serve(session: SessionReceiver, wire: Buffer, ghost ps: seq<Packet>, ghost n: nat, ghost sent: bool)
    requires session.Valid() && session.View() == EmptyRx
    requires Sent(ps, n, sent, wire)
    modifies session, session.m_recvBuffer, session.m_ringBuffer, session.m_ringBuffer.m_buffer
    ensures session.Valid() && CaughtUp(session.View(), wire)
    ensures HandleAll(session.handled) == DeliverAll(ps[..n])
    ensures if sent then n == |ps| && session.m_ringBuffer.Contents() == []
            else n < |ps| && |session.m_ringBuffer.Contents()| < |Encode(ps[n])|
                 && session.m_ringBuffer.Contents() <= Encode(ps[n])
  {
    SentParses(ps, n, sent, wire);
    ReceiveStream(session, wire);
    CaughtUpArrived(ps, n, sent, wire, session.View());
  }

  method ReceiveStream(session: SessionReceiver, wire: Buffer)
    requires session.Valid() && session.View() == EmptyRx && WellFormed(wire)
    modifies session, session.m_recvBuffer, session.m_ringBuffer, session.m_ringBuffer.m_buffer
    ensures session.Valid() && CaughtUp(session.View(), wire)
  {
    var at := 0;
    while at < |wire|
      invariant at <= |wire| && session.Valid()
      invariant CaughtUp(session.View(), wire[..at])
    {
      at := ReceiveNext(session, wire, at);
    }
    assert wire[..at] == wire;
  }

  lemma CaughtUpArrived(ps: seq<Packet>, n: nat, ok: bool, wire: Buffer, rx: Rx)
    requires Sent(ps, n, ok, wire) && CaughtUp(rx, wire)
    ensures HandleAll(rx.handled) == DeliverAll(ps[..n])
    ensures if ok then n == |ps| && rx.buffer == []
            else n < |ps| && |rx.buffer| < |Encode(ps[n])| && rx.buffer <= Encode(ps[n])
  {
    SentParses(ps, n, ok, wire);
    HandleEncodeAll(ps[..n]);
  }

  /**
   From end to end: a client sends structs over a new connection in whatever pieces its
   socket takes, the server receives them in whatever pieces its socket gives, and the
   handlers run on the structs that were sent completely, which are all of them unless
   send() fails.
   */
  method SendAndServe(client: DummyClient, session: SessionReceiver, ps: seq<Packet>)
    returns (n: nat, ok: bool, last: nat)
    requires client.wire == [] && session.Valid() && session.View() == EmptyRx
    modifies client, session, session.m_recvBuffer, session.m_ringBuffer, session.m_ringBuffer.m_buffer
    ensures session.Valid() && n <= |ps|
    ensures HandleAll(session.handled) == DeliverAll(ps[..n])
    ensures if ok then n == |ps| && session.m_ringBuffer.Contents() == []
            else n < |ps| && |session.m_ringBuffer.Contents()| < |Encode(ps[n])|
                 && session.m_ringBuffer.Contents() <= Encode(ps[n])
    ensures !ok ==> old(client.calls) <= last && client.Answer(last) <= 0
  {
    n, ok, last := SendAll(client, ps);
    Serve(session, client.wire, ps, n, ok);
  }

  /** The session has received s and handled every frame in it that is complete. */
  ghost predicate CaughtUp(rx: Rx, s: Buffer) {
    rx == Rx(Rest(s), Frames(s), s)
  }

  /** One step of WellFormedNeverOverflows. */
  lemma KeepsUp(rx: Rx, s: Buffer, chunk: Buffer, more: Buffer)
    requires CaughtUp(rx, s)
    requires WellFormed(s + chunk + more) && |chunk| <= RECV_SIZE
    ensures CaughtUp(Receive(rx, chunk), s + chunk)
  {
    WellFormedSplit(s + chunk, more);
    ConcatOne(chunk);
    WellFormedNeverOverflows(rx, [chunk]);
    assert ReceiveAll(rx, [chunk]) == Receive(rx, chunk);
  }
}
