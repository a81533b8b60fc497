/**
 The byte stream as a list of frames: a reference parser that sees the whole
 stream at once, and the drain loop of the server, which sees it in chunks and
 gives up its round after one bad header.
 */
module Framing {
  import opened Bytes
  import Packets

  const HEADER_SIZE := Packets.HEADER_SIZE
  const MAX_PACKET_SIZE := 512
  const BUFFER_SIZE := 16384
  const RECV_SIZE := 8192

  /** What the first bytes of a stream say. */
  datatype Look = Wait | BadHeader | Frame(size: nat)

  function LookAt(s: Buffer): (l: Look)
    ensures l.Frame? ==> HEADER_SIZE <= l.size <= |s| && l.size <= MAX_PACKET_SIZE
    ensures l.BadHeader? ==> HEADER_SIZE <= |s|
  {
    if |s| < HEADER_SIZE then Wait
    else
      var n := Packets.SizeOf(s);
      if n < HEADER_SIZE || n > MAX_PACKET_SIZE then BadHeader
      else if |s| < n then Wait
      else Frame(n)
  }

  /** The decision in figures: the size is the first two bytes, and 4 to 512 is what it may be. */
  lemma LookAtBytes(s: Buffer, m: nat)
    ensures |s| < 4 ==> LookAt(s) == Wait
    ensures |s| >= 4 ==>
      var n := s[0] as int + 256 * s[1] as int;
      && (LookAt(s) == BadHeader <==> n < 4 || n > 512)
      && (LookAt(s) == Frame(m) <==> m == n && 4 <= n <= 512 && n <= |s|)
      && (LookAt(s) == Wait <==> 4 <= n <= 512 && n > |s|)
  {
    if |s| >= 4 {
      Packets.HeaderBytes(s);
    }
  }

  // ---------------------------------------------------------------------
  // The reference parser: skip four bytes on a bad size, never stop early
  // ---------------------------------------------------------------------

  ghost function Frames(s: Buffer): seq<Buffer> {
    match LookAt(s)
    case Wait => []
    case BadHeader => Frames(s[HEADER_SIZE..])
    case Frame(n) => [s[..n]] + Frames(s[n..])
  }

  /** The bytes the reference parser leaves: the beginning of a frame that is not complete. */
  ghost function Rest(s: Buffer): (r: Buffer)
    ensures LookAt(r).Wait? && |r| < MAX_PACKET_SIZE
  {
    match LookAt(s)
    case Wait => s
    case BadHeader => Rest(s[HEADER_SIZE..])
    case Frame(n) => Rest(s[n..])
  }

  /** More bytes never change a decision that has been made. */
  lemma LookAtPrefix(a: Buffer, b: Buffer)
    requires !LookAt(a).Wait?
    ensures LookAt(a + b) == LookAt(a)
  {
    assert (a + b)[0..2] == a[0..2];
  }

  /** Parsing a stream in two parts, carrying the rest over, is parsing it whole. */
  lemma {:induction false} ParseSplit(a: Buffer, b: Buffer)
    ensures Frames(a + b) == Frames(a) + Frames(Rest(a) + b)
    ensures Rest(a + b) == Rest(Rest(a) + b)
    decreases |a|
  {
    match LookAt(a)
    case Wait =>
    case BadHeader =>
      LookAtPrefix(a, b);
      assert (a + b)[HEADER_SIZE..] == a[HEADER_SIZE..] + b;
      ParseSplit(a[HEADER_SIZE..], b);
    case Frame(n) =>
      LookAtPrefix(a, b);
      assert (a + b)[..n] == a[..n] && (a + b)[n..] == a[n..] + b;
      ParseSplit(a[n..], b);
  }

  // ---------------------------------------------------------------------
  // The drain loop of one receive completion
  // ---------------------------------------------------------------------

  /** The packets handled by `while (auto pkt = TryAssemblePacket())` and the bytes left behind. */
  function Drain(s: Buffer): (r: (seq<Buffer>, Buffer)) {
    match LookAt(s)
    case Wait => ([], s)
    case BadHeader => ([], s[HEADER_SIZE..])
    case Frame(n) =>
      var (fs, left) := Drain(s[n..]);
      ([s[..n]] + fs, left)
  }

  /** A drain may stop early, but what it handled and what is left together still parse as the input did. */
  lemma {:induction false} DrainAgrees(s: Buffer)
    ensures Frames(s) == Drain(s).0 + Frames(Drain(s).1)
    ensures Rest(s) == Rest(Drain(s).1)
    decreases |s|
  {
    match LookAt(s)
    case Wait =>
    case BadHeader =>
    case Frame(n) =>
      DrainAgrees(s[n..]);
      assert Frames(s) == ([s[..n]] + Drain(s[n..]).0) + Frames(Drain(s).1);
  }

  // ---------------------------------------------------------------------
  // A receiving session, on values
  // ---------------------------------------------------------------------

  /** Buffered bytes, packets handled so far, and all bytes the ring has accepted so far. */
  datatype Rx = Rx(buffer: Buffer, handled: seq<Buffer>, accepted: Buffer)

  const EmptyRx := Rx([], [], [])

  /** The guard of the overflow branch of OnRecvCompleted. */
  predicate Overflows(rx: Rx, chunk: Buffer) {
    |rx.buffer| + |chunk| > BUFFER_SIZE
  }

  function Receive(rx: Rx, chunk: Buffer): Rx {
    if Overflows(rx, chunk) then rx
    else
      var (fs, left) := Drain(rx.buffer + chunk);
      Rx(left, rx.handled + fs, rx.accepted + chunk)
  }

  /**
   What one receive does, told without the drain loop: nothing if there is no space for all
   of it in 16384 bytes; else frames are only moved from the buffer to the handlers.
   */
  lemma {:induction false} ReceiveByBytes(rx: Rx, chunk: Buffer)
    ensures |rx.buffer| + |chunk| > 16384 ==> Receive(rx, chunk) == rx
    ensures |rx.buffer| + |chunk| <= 16384 ==>
              var next := Receive(rx, chunk);
              && next.accepted == rx.accepted + chunk && rx.handled <= next.handled
              && next.handled + Frames(next.buffer) == rx.handled + Frames(rx.buffer + chunk)
  {
    if |rx.buffer| + |chunk| <= 16384 {
      var s := rx.buffer + chunk;
      DrainAgrees(s);
      Assoc(rx.handled, Drain(s).0, Frames(Drain(s).1));
    }
  }

  function ReceiveAll(rx: Rx, chunks: seq<Buffer>): Rx
    decreases |chunks|
  {
    if chunks == [] then rx else ReceiveAll(Receive(rx, chunks[0]), chunks[1..])
  }

  /** Each chunk finds space when it arrives. */
  predicate FindSpace(rx: Rx, chunks: seq<Buffer>)
    decreases |chunks|
  {
    chunks != [] ==> !Overflows(rx, chunks[0]) && FindSpace(Receive(rx, chunks[0]), chunks[1..])
  }

  /** Handled packets, then those still buffered, are the packets of the accepted bytes. */
  ghost predicate Agrees(rx: Rx) {
    && rx.handled + Frames(rx.buffer) == Frames(rx.accepted)
    && Rest(rx.buffer) == Rest(rx.accepted)
  }

  lemma {:induction false} ReceiveAgrees(rx: Rx, chunk: Buffer)
    requires Agrees(rx)
    ensures Agrees(Receive(rx, chunk))
  {
    if !Overflows(rx, chunk) {
      DrainAgrees(rx.buffer + chunk);
      ParseSplit(rx.buffer, chunk);
      ParseSplit(rx.accepted, chunk);
      Regroup(rx.handled, Frames(rx.buffer), Frames(Rest(rx.accepted) + chunk),
              Drain(rx.buffer + chunk).0, Frames(Drain(rx.buffer + chunk).1));
    }
  }

  /** Concatenation may be regrouped around a middle that is cut in two ways. */
  lemma Regroup(done: seq<Buffer>, rest: seq<Buffer>, more: seq<Buffer>, now: seq<Buffer>, later: seq<Buffer>)
    requires rest + more == now + later
    ensures (done + now) + later == (done + rest) + more
  {
    assert (done + now) + later == done + (now + later);
    assert (done + rest) + more == done + (rest + more);
  }

  /**
   For every stream, malformed headers included, and every way of cutting it into
   chunks, chunking delays packets but never changes, loses, repeats or reorders one.
   */
  lemma {:induction false} ChunkingAgrees(rx: Rx, chunks: seq<Buffer>)
    requires Agrees(rx)
    ensures Agrees(ReceiveAll(rx, chunks))
    decreases |chunks|
  {
    if chunks != [] {
      ReceiveAgrees(rx, chunks[0]);
      ChunkingAgrees(Receive(rx, chunks[0]), chunks[1..]);
    }
  }

  /** From a new session: the reference parser is the yardstick for the packets of any run. */
  lemma {:induction false} AnyChunking(chunks: seq<Buffer>)
    ensures var rx := ReceiveAll(EmptyRx, chunks);
            && rx.handled + Frames(rx.buffer) == Frames(rx.accepted)
            && rx.handled <= Frames(rx.accepted)
  {
    ChunkingAgrees(EmptyRx, chunks);
  }

  /** Two sessions that accepted the same bytes differ only in how far they have got. */
  lemma {:induction false} ChunkingsDifferByLag(chunks: seq<Buffer>, others: seq<Buffer>)
    requires ReceiveAll(EmptyRx, chunks).accepted == ReceiveAll(EmptyRx, others).accepted
    ensures var a, b := ReceiveAll(EmptyRx, chunks), ReceiveAll(EmptyRx, others);
            && (a.handled <= b.handled || b.handled <= a.handled)
            && a.handled + Frames(a.buffer) == b.handled + Frames(b.buffer)
  {
    AnyChunking(chunks);
    AnyChunking(others);
    var a, b := ReceiveAll(EmptyRx, chunks), ReceiveAll(EmptyRx, others);
    var all := Frames(a.accepted);
    assert a.handled == all[..|a.handled|] && b.handled == all[..|b.handled|];
  }

  // ---------------------------------------------------------------------
  // Streams whose headers all declare a size in 4..512
  // ---------------------------------------------------------------------

  ghost predicate WellFormed(s: Buffer) {
    match LookAt(s)
    case Wait => true
    case BadHeader => false
    case Frame(n) => WellFormed(s[n..])
  }

  /** At most one bad header, and nothing complete behind it. */
  ghost predicate EndsOnFirstBadHeader(s: Buffer) {
    match LookAt(s)
    case Wait => true
    case BadHeader => LookAt(s[HEADER_SIZE..]).Wait?
    case Frame(n) => EndsOnFirstBadHeader(s[n..])
  }

  lemma RestShrinks(s: Buffer)
    ensures |Rest(s)| <= |s|
    ensures Rest(s) == s <==> LookAt(s).Wait?
  {
    match LookAt(s)
    case Wait =>
    case BadHeader => RestShrinks(s[HEADER_SIZE..]);
    case Frame(n) => RestShrinks(s[n..]);
  }

  /** One round of the loop keeps up with the reference parser exactly on these inputs. */
  lemma {:induction false} DrainKeepsUp(s: Buffer)
    ensures Drain(s) == (Frames(s), Rest(s)) <==> EndsOnFirstBadHeader(s)
    ensures WellFormed(s) ==> EndsOnFirstBadHeader(s)
    decreases |s|
  {
    match LookAt(s)
    case Wait =>
    case BadHeader => RestShrinks(s[HEADER_SIZE..]);
    case Frame(n) =>
      DrainKeepsUp(s[n..]);
      assert Frames(s)[1..] == Frames(s[n..]) && Drain(s).0[1..] == Drain(s[n..]).0;
  }

  lemma {:induction false} WellFormedSplit(a: Buffer, b: Buffer)
    requires WellFormed(a + b)
    ensures WellFormed(a) && WellFormed(Rest(a) + b)
    decreases |a|
  {
    match LookAt(a)
    case Wait =>
    case BadHeader => LookAtPrefix(a, b);
    case Frame(n) =>
      LookAtPrefix(a, b);
      assert (a + b)[n..] == a[n..] + b;
      WellFormedSplit(a[n..], b);
  }

  /** The round in which each chunk arrives meets at most one bad header, with nothing complete behind it. */
  ghost predicate EachRoundKeepsUp(before: Buffer, chunks: seq<Buffer>)
    decreases |chunks|
  {
    chunks != [] ==>
      EndsOnFirstBadHeader(Rest(before) + chunks[0]) && EachRoundKeepsUp(before + chunks[0], chunks[1..])
  }

  /**
   As long as every round keeps up, and malformed headers are no more than that, no
   chunk of at most 8192 bytes overflows the ring, at most 511 bytes stay behind, and
   every frame that is complete has been handled.
   */
  lemma {:induction false} KeepingUpNeverOverflows(rx: Rx, chunks: seq<Buffer>)
    requires rx.handled == Frames(rx.accepted) && rx.buffer == Rest(rx.accepted)
    requires EachRoundKeepsUp(rx.accepted, chunks)
    requires forall c :: c in chunks ==> |c| <= 8192
    ensures var end := ReceiveAll(rx, chunks);
            && end.accepted == rx.accepted + Concat(chunks)
            && end.handled == Frames(end.accepted)
            && end.buffer == Rest(end.accepted)
            && |end.buffer| <= 511
    ensures FindSpace(rx, chunks)
    decreases |chunks|
  {
    if chunks == [] {
      assert rx.accepted + Concat(chunks) == rx.accepted;
    } else {
      var c, more := chunks[0], chunks[1..];
      var next := Receive(rx, c);
      ParseSplit(rx.accepted, c);
      DrainKeepsUp(rx.buffer + c);
      KeepingUpNeverOverflows(next, more);
      Assoc(rx.accepted, c, Concat(more));
    }
  }

  lemma {:induction false} WellFormedKeepsUp(before: Buffer, chunks: seq<Buffer>)
    requires WellFormed(before + Concat(chunks))
    ensures EachRoundKeepsUp(before, chunks)
    decreases |chunks|
  {
    if chunks != [] {
      var c, more := chunks[0], chunks[1..];
      Assoc(before, c, Concat(more));
      WellFormedSplit(before + c, Concat(more));
      WellFormedSplit(before, c);
      DrainKeepsUp(Rest(before) + c);
      WellFormedKeepsUp(before + c, more);
    }
  }

  /**
   On a well-formed stream this is so however it is cut into chunks of at most 8192
   bytes.
   */
  lemma {:induction false} WellFormedNeverOverflows(rx: Rx, chunks: seq<Buffer>)
    requires rx.handled == Frames(rx.accepted) && rx.buffer == Rest(rx.accepted)
    requires WellFormed(rx.accepted + Concat(chunks))
    requires forall c :: c in chunks ==> |c| <= 8192
    ensures var end := ReceiveAll(rx, chunks);
            && end.accepted == rx.accepted + Concat(chunks)
            && end.handled == Frames(end.accepted)
            && end.buffer == Rest(end.accepted)
            && |end.buffer| <= 511
    ensures FindSpace(rx, chunks)
  {
    WellFormedKeepsUp(rx.accepted, chunks);
    KeepingUpNeverOverflows(rx, chunks);
  }

  // ---------------------------------------------------------------------
  // A malformed stream may overflow
  // ---------------------------------------------------------------------

  function Zeros(n: nat): (s: Buffer)
    ensures |s| == n
  {
    seq(n, _ => 0)
  }

  lemma ZeroHeader(n: nat)
    requires n >= HEADER_SIZE
    ensures Drain(Zeros(n)) == ([], Zeros(n - HEADER_SIZE))
  {
    Widths();
    assert Zeros(n)[0..2] == ToLE(0, 2);
    FromToLE(0, 2);
    assert Zeros(n)[HEADER_SIZE..] == Zeros(n - HEADER_SIZE);
  }

  /**
   A header that declares 0 bytes ends the round after four bytes, so the third of
   three full receives of zeros finds no space. Which streams can overflow is the
   theorem of module Overflow.
   */
  lemma MalformedOverflow()
    ensures var rx := ReceiveAll(EmptyRx, [Zeros(RECV_SIZE), Zeros(RECV_SIZE)]);
            && |rx.buffer| == BUFFER_SIZE - 8
            && Overflows(rx, Zeros(RECV_SIZE))
  {
    var one := Receive(EmptyRx, Zeros(RECV_SIZE));
    assert [] + Zeros(RECV_SIZE) == Zeros(RECV_SIZE);
    ZeroHeader(RECV_SIZE);
    assert one.buffer == Zeros(RECV_SIZE - 4);
    assert one.buffer + Zeros(RECV_SIZE) == Zeros(BUFFER_SIZE - 4);
    ZeroHeader(BUFFER_SIZE - 4);
    var two := Receive(one, Zeros(RECV_SIZE));
    var chunks := [Zeros(RECV_SIZE), Zeros(RECV_SIZE)];
    assert chunks[1..] == [Zeros(RECV_SIZE)];
    assert [Zeros(RECV_SIZE)][1..] == [];
    assert ReceiveAll(EmptyRx, chunks) == ReceiveAll(two, []);
  }
}
