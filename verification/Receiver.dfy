/**
 The receiving half of Session: the buffer the kernel fills, the ring, and the
 drain loop that hands complete packets to the packet handler. The sending half
 is in SendProtocol; no method touches both.
 */
module Receiver {
  import opened Bytes
  import opened Framing
  import opened Ring
  import Packets

  class SessionReceiver {
    const m_recvBuffer: array<byte>
    const m_ringBuffer: RingBuffer
    /** The packets PacketHandler::Handle has been called with, oldest first. */
    var handled: seq<Buffer>
    /** All bytes the ring has accepted. */
    ghost var accepted: Buffer

    ghost predicate Valid()
      reads this, m_ringBuffer, m_ringBuffer.m_buffer
    {
      && m_recvBuffer.Length == RECV_SIZE
      && m_recvBuffer != m_ringBuffer.m_buffer
      && m_ringBuffer.Valid()
      && Agrees(View())
    }

    ghost function View(): Rx
      requires m_ringBuffer.Valid()
      reads this, m_ringBuffer, m_ringBuffer.m_buffer
    {
      Rx(m_ringBuffer.Contents(), handled, accepted)
    }

    constructor ()
      ensures Valid() && View() == EmptyRx
      ensures fresh(m_recvBuffer) && fresh(m_ringBuffer) && fresh(m_ringBuffer.m_buffer)
    {
      m_recvBuffer := new byte[RECV_SIZE](_ => 0);
      m_ringBuffer := new RingBuffer();
      handled, accepted := [], [];
    }

    /** One receive completion, for the first bytes of the receive buffer. */
    method OnRecvCompleted(bytes: nat)
      requires Valid() && bytes <= RECV_SIZE
      modifies this, m_ringBuffer, m_ringBuffer.m_buffer
      ensures Valid()
      ensures View() == Receive(old(View()), m_recvBuffer[..bytes])
      ensures var before := old(m_ringBuffer.Contents());
              if |before| + bytes > 16384 then
                m_ringBuffer.Contents() == before && handled == old(handled)
              else
                && old(handled) <= handled
                && handled + Frames(m_ringBuffer.Contents()) == old(handled) + Frames(before + m_recvBuffer[..bytes])
      ensures m_recvBuffer[..] == old(m_recvBuffer[..])
    {
      ghost var chunk := m_recvBuffer[..bytes];
      ReceiveAgrees(View(), chunk);
      ReceiveByBytes(View(), chunk);
      var ok := m_ringBuffer.Write(m_recvBuffer, bytes);
      if !ok {
        return;
      }
      accepted := accepted + chunk;
      DrainRing();
    }

    method NextPacket() returns (packet: Option<Buffer>, ghost left: Buffer)
      requires m_ringBuffer.Valid()
      modifies m_ringBuffer`m_readPos, m_ringBuffer`m_dataSize
      ensures m_ringBuffer.Valid() && left == m_ringBuffer.Contents()
      ensures Assembled(old(m_ringBuffer.Contents()), packet, left)
    {
      ghost var before := m_ringBuffer.Contents();
      packet := m_ringBuffer.TryAssemblePacket();
      left := m_ringBuffer.Contents();
      AssembledAt(before, packet, left);
    }

    /** `while (auto pkt = m_ringBuffer.TryAssemblePacket()) Handle(pkt)` */
    method DrainRing()
      requires m_ringBuffer.Valid()
      modifies this`handled, m_ringBuffer`m_readPos, m_ringBuffer`m_dataSize
      ensures m_ringBuffer.Valid()
      ensures var (fs, left) := Drain(old(m_ringBuffer.Contents()));
              handled == old(handled) + fs && m_ringBuffer.Contents() == left
    {
      ghost var all := m_ringBuffer.Contents();
      ghost var done: seq<Buffer> := [];
      ghost var before := all;
      var pkt, left := NextPacket();
      DrainStarts(all);
      while pkt.Some?
        invariant m_ringBuffer.Valid() && left == m_ringBuffer.Contents()
        invariant handled == old(handled) + done
        invariant Assembled(before, pkt, left) && DrainsFrom(all, done, before)
        decreases |before|
      {
        DrainOn(all, done, before, pkt.value, left);
        Assoc(old(handled), done, [pkt.value]);
        handled := handled + [pkt.value];
        done := done + [pkt.value];
        before := left;
        pkt, left := NextPacket();
      }
      DrainEnds(all, done, before, left);
    }
  }

  /** A drain of all that has handled these packets has come to s. */
  ghost predicate DrainsFrom(all: Buffer, done: seq<Buffer>, s: Buffer) {
    Drain(all) == (done + Drain(s).0, Drain(s).1)
  }

  lemma DrainStarts(all: Buffer)
    ensures DrainsFrom(all, [], all)
  {
    assert [] + Drain(all).0 == Drain(all).0;
  }

  /** The packet and the bytes left behind are those the parser's first look demands. */
  ghost predicate Assembled(s: Buffer, packet: Option<Buffer>, left: Buffer) {
    match LookAt(s)
    case Wait => packet == None && left == s
    case BadHeader => packet == None && left == s[HEADER_SIZE..]
    case Frame(n) => packet == Some(s[..n]) && left == s[n..]
  }

  lemma AssembledAt(s: Buffer, packet: Option<Buffer>, left: Buffer)
    requires if |s| < 4 then packet == None && left == s
             else
               var n := s[0] as int + 256 * s[1] as int;
               if n < 4 || n > 512 then packet == None && left == s[4..]
               else if n > |s| then packet == None && left == s
               else packet == Some(s[..n]) && left == s[n..]
    ensures Assembled(s, packet, left)
  {
    if |s| >= 4 {
      LookAtBytes(s, s[0] as int + 256 * s[1] as int);
    } else {
      LookAtBytes(s, 0);
    }
  }

  /** A drain that has handled some packets goes on with the next one. */
  lemma DrainOn(all: Buffer, done: seq<Buffer>, s: Buffer, packet: Buffer, left: Buffer)
    requires Assembled(s, Some(packet), left) && DrainsFrom(all, done, s)
    ensures DrainsFrom(all, done + [packet], left) && |left| < |s|
  {
    Assoc(done, [packet], Drain(left).0);
  }

  lemma DrainEnds(all: Buffer, done: seq<Buffer>, s: Buffer, left: Buffer)
    requires Assembled(s, None, left) && DrainsFrom(all, done, s)
    ensures Drain(all) == (done, left)
  {
    var none: seq<Buffer> := [];
    assert done + none == done;
  }
}
