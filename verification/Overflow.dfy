/**
 Which streams can overflow the ring. After a bad header a session lags behind, and how
 far depends on how the stream was cut. The theorem at the end leaves one way of cutting
 to look at for each length: full receives, with the short one first.
 */
module Overflow {
  import opened Bytes
  import opened Framing

  // ---------------------------------------------------------------------
  // The drain loop as a position in the stream
  // ---------------------------------------------------------------------

  /** Where the loop gets that starts at position p when s[..e] has arrived. */
  ghost function Drained(s: Buffer, p: nat, e: nat): (q: nat)
    requires p <= e <= |s|
    ensures p <= q <= e
    decreases e - p
  {
    match LookAt(s[p..e])
    case Wait => p
    case BadHeader => p + HEADER_SIZE
    case Frame(n) => Drained(s, p + n, e)
  }

  lemma {:induction false} DrainedLeft(s: Buffer, p: nat, e: nat)
    requires p <= e <= |s|
    ensures Drain(s[p..e]).1 == s[Drained(s, p, e)..e]
    decreases e - p
  {
    match LookAt(s[p..e])
    case Wait =>
    case BadHeader => Drop(s, p, HEADER_SIZE, e);
    case Frame(n) =>
      Drop(s, p, n, e);
      DrainedLeft(s, p + n, e);
  }

  /** Where the item ends that the reference parser finds at p; p if it finds none. */
  ghost function Next(s: Buffer, p: nat): (q: nat)
    requires p <= |s|
    ensures p <= q <= |s|
  {
    match LookAt(s[p..])
    case Wait => p
    case BadHeader => p + HEADER_SIZE
    case Frame(n) => p + n
  }

  /** The reference parser, started at p, comes to begin a frame or a header at q. */
  ghost predicate Passes(s: Buffer, p: nat, q: nat)
    requires p <= |s|
    decreases |s| - p
  {
    p == q || (Next(s, p) > p && Passes(s, Next(s, p), q))
  }

  lemma {:induction false} PassesForward(s: Buffer, p: nat, q: nat)
    requires p <= |s| && Passes(s, p, q)
    ensures p <= q <= |s|
    decreases |s| - p
  {
    if p != q {
      PassesForward(s, Next(s, p), q);
    }
  }

  lemma {:induction false} PassesTransitive(s: Buffer, p: nat, q: nat, r: nat)
    requires p <= |s| && q <= |s| && Passes(s, p, q) && Passes(s, q, r)
    ensures Passes(s, p, r)
    decreases |s| - p
  {
    if p != q {
      PassesTransitive(s, Next(s, p), q, r);
    }
  }

  /** What the first bytes say does not change when more of the stream arrives. */
  lemma LookFurther(s: Buffer, p: nat, e: nat, f: nat)
    requires p <= e <= f <= |s| && !LookAt(s[p..e]).Wait?
    ensures LookAt(s[p..f]) == LookAt(s[p..e])
  {
    LookAtPrefix(s[p..e], s[e..f]);
    Cut(s, p, e, f);
  }

  /** What the drain loop takes off first is what the reference parser takes. */
  lemma NextTaken(s: Buffer, p: nat, e: nat)
    requires p <= e <= |s| && !LookAt(s[p..e]).Wait?
    ensures p < Next(s, p) <= e
    ensures Drained(s, p, e) == if LookAt(s[p..e]).Frame? then Drained(s, Next(s, p), e) else Next(s, p)
  {
    LookFurther(s, p, e, |s|);
    assert s[p..|s|] == s[p..];
  }

  lemma {:induction false} PassesDrained(s: Buffer, p: nat, e: nat)
    requires p <= e <= |s|
    ensures Passes(s, p, Drained(s, p, e))
    decreases e - p
  {
    if !LookAt(s[p..e]).Wait? {
      NextTaken(s, p, e);
      if LookAt(s[p..e]).Frame? {
        PassesDrained(s, Next(s, p), e);
      }
    }
  }

  /** Who is ahead and has received more stays ahead, wherever the bad headers lie. */
  lemma {:induction false} DrainedMonotone(s: Buffer, p: nat, q: nat, e: nat, f: nat)
    requires p <= e <= f <= |s| && q <= f && Passes(s, p, q)
    ensures Passes(s, Drained(s, p, e), Drained(s, q, f))
    decreases e - p
  {
    if LookAt(s[p..e]).Wait? {
      PassesDrained(s, q, f);
      PassesTransitive(s, p, q, Drained(s, q, f));
    } else {
      NextTaken(s, p, e);
      LookFurther(s, p, e, f);
      NextTaken(s, p, f);
      if LookAt(s[p..e]).Frame? {
        DrainedMonotone(s, Next(s, p), if p == q then Next(s, p) else q, e, f);
      } else if p != q {
        PassesDrained(s, q, f);
        PassesTransitive(s, Next(s, p), q, Drained(s, q, f));
      }
    }
  }

  // ---------------------------------------------------------------------
  // Sessions that have received a part of the stream
  // ---------------------------------------------------------------------

  function Total(chunks: seq<Buffer>): nat {
    if chunks == [] then 0 else Total(chunks[..|chunks| - 1]) + |chunks[|chunks| - 1]|
  }

  /** The chunks make up a beginning of s. */
  ghost predicate Begins(s: Buffer, chunks: seq<Buffer>)
    decreases |chunks|
  {
    chunks != [] ==>
      var init, last := chunks[..|chunks| - 1], chunks[|chunks| - 1];
      Begins(s, init) && Total(chunks) <= |s| && last == s[Total(init)..Total(chunks)]
  }

  lemma {:induction false} BeginsConcat(s: Buffer, chunks: seq<Buffer>)
    ensures Total(chunks) == |Concat(chunks)|
    ensures Begins(s, chunks) <==> Concat(chunks) <= s
    decreases |chunks|
  {
    if chunks != [] {
      var init, last := chunks[..|chunks| - 1], chunks[|chunks| - 1];
      BeginsConcat(s, init);
      ConcatLast(chunks);
      PrefixAppend(Concat(init), last, s);
    }
  }

  lemma PrefixAppend(a: Buffer, b: Buffer, s: Buffer)
    ensures a + b <= s <==> a <= s && |a| + |b| <= |s| && b == s[|a|..|a| + |b|]
  {
    Parted(a, b);
    if |a| + |b| <= |s| {
      Thirds(s, |a|, |a| + |b|);
    }
  }

  /** How many bytes of s the rounds for these chunks have taken, if all of them found space. */
  ghost function Position(s: Buffer, chunks: seq<Buffer>): (p: nat)
    requires Begins(s, chunks)
    ensures p <= Total(chunks) <= |s|
    decreases |chunks|
  {
    if chunks == [] then 0
    else
      Drained(s, Position(s, chunks[..|chunks| - 1]), Total(chunks))
  }

  predicate NoOverflow(chunks: seq<Buffer>) {
    FindSpace(EmptyRx, chunks)
  }

  predicate Receives(chunks: seq<Buffer>) {
    forall c :: c in chunks ==> |c| <= 8192
  }

  /** What a list of chunks does, and its last chunk. */
  lemma {:induction false} ReceiveLast(rx: Rx, chunks: seq<Buffer>)
    requires chunks != []
    ensures var (init, last) := (chunks[..|chunks| - 1], chunks[|chunks| - 1]);
            && ReceiveAll(rx, chunks) == Receive(ReceiveAll(rx, init), last)
            && (FindSpace(rx, chunks) <==> FindSpace(rx, init) && !Overflows(ReceiveAll(rx, init), last))
    decreases |chunks|
  {
    if |chunks| > 1 {
      assert chunks[..|chunks| - 1][1..] == chunks[1..][..|chunks| - 2];
      ReceiveLast(Receive(rx, chunks[0]), chunks[1..]);
    } else {
      ReceiveOne(rx, chunks[0]);
      assert chunks == [chunks[0]];
    }
  }

  lemma ReceiveOne(rx: Rx, chunk: Buffer)
    ensures ReceiveAll(rx, [chunk]) == Receive(rx, chunk)
    ensures FindSpace(rx, [chunk]) <==> !Overflows(rx, chunk)
  {
    var none: seq<Buffer> := [];
    assert [chunk][1..] == none;
  }

  lemma {:induction false} BufferAtPosition(s: Buffer, chunks: seq<Buffer>)
    requires Begins(s, chunks) && NoOverflow(chunks)
    ensures ReceiveAll(EmptyRx, chunks).buffer == s[Position(s, chunks)..Total(chunks)]
    decreases |chunks|
  {
    if chunks != [] {
      var init := chunks[..|chunks| - 1];
      ReceiveLast(EmptyRx, chunks);
      BufferAtPosition(s, init);
      Arrive(s, ReceiveAll(EmptyRx, init), Position(s, init), Total(init), chunks[|chunks| - 1]);
    }
  }

  /** One chunk of the stream that finds space. */
  lemma Arrive(s: Buffer, rx: Rx, p: nat, d: nat, chunk: Buffer)
    requires p <= d && d + |chunk| <= |s| && chunk == s[d..d + |chunk|]
    requires rx.buffer == s[p..d] && !Overflows(rx, chunk)
    ensures Receive(rx, chunk).buffer == s[Drained(s, p, d + |chunk|)..d + |chunk|]
  {
    var e := d + |chunk|;
    Cut(s, p, d, e);
    DrainedLeft(s, p, e);
  }

  /** No chunk overflows, told by the positions alone. */
  ghost predicate Fit(s: Buffer, chunks: seq<Buffer>)
    requires Begins(s, chunks)
    decreases |chunks|
  {
    chunks != [] ==>
      var init := chunks[..|chunks| - 1];
      Fit(s, init) && Total(chunks) - Position(s, init) <= BUFFER_SIZE
  }

  lemma {:induction false} NoOverflowFits(s: Buffer, chunks: seq<Buffer>)
    requires Begins(s, chunks)
    ensures NoOverflow(chunks) <==> Fit(s, chunks)
    decreases |chunks|
  {
    if chunks != [] {
      var init := chunks[..|chunks| - 1];
      ReceiveLast(EmptyRx, chunks);
      NoOverflowFits(s, init);
      if NoOverflow(init) {
        BufferAtPosition(s, init);
      }
    }
  }

  lemma ReceivesLast(chunks: seq<Buffer>)
    requires chunks != [] && Receives(chunks)
    ensures Receives(chunks[..|chunks| - 1]) && |chunks[|chunks| - 1]| <= RECV_SIZE
  {
    assert chunks[|chunks| - 1] in chunks;
    forall c | c in chunks[..|chunks| - 1]
      ensures c in chunks
    {
    }
  }

  /** The first n bytes in full receives, a short one first if need be. */
  ghost function FullReceives(s: Buffer, n: nat): (chunks: seq<Buffer>)
    requires n <= |s|
  {
    if n == 0 then []
    else if n <= RECV_SIZE then [s[..n]]
    else FullReceives(s, n - RECV_SIZE) + [s[n - RECV_SIZE..n]]
  }

  lemma FullReceivesLast(s: Buffer, n: nat)
    requires RECV_SIZE < n <= |s|
    ensures var (full, before) := (FullReceives(s, n), FullReceives(s, n - RECV_SIZE));
            && full != [] && full[..|full| - 1] == before && full[|full| - 1] == s[n - RECV_SIZE..n]
  {
  }

  lemma {:induction false} FullReceivesBegin(s: Buffer, n: nat)
    requires n <= |s|
    ensures Begins(s, FullReceives(s, n)) && Total(FullReceives(s, n)) == n && Receives(FullReceives(s, n))
  {
    if n > RECV_SIZE {
      FullReceivesBegin(s, n - RECV_SIZE);
      FullReceivesLast(s, n);
      BeginsAppend(s, FullReceives(s, n - RECV_SIZE), n);
    } else if n > 0 {
      var none: seq<Buffer> := [];
      assert [s[..n]][..0] == none;
    }
  }

  lemma BeginsAppend(s: Buffer, before: seq<Buffer>, n: nat)
    requires RECV_SIZE < n <= |s| && Begins(s, before) && Total(before) == n - RECV_SIZE && Receives(before)
    ensures var full := before + [s[n - RECV_SIZE..n]];
            Begins(s, full) && Total(full) == n && Receives(full)
  {
    var full := before + [s[n - RECV_SIZE..n]];
    assert full[..|full| - 1] == before;
    ReceivesAppend(before, s[n - RECV_SIZE..n]);
  }

  lemma ReceivesAppend(chunks: seq<Buffer>, chunk: Buffer)
    requires Receives(chunks) && |chunk| <= RECV_SIZE
    ensures Receives(chunks + [chunk])
  {
  }

  lemma {:induction false} PassesPosition(s: Buffer, chunks: seq<Buffer>)
    requires Begins(s, chunks)
    ensures Passes(s, 0, Position(s, chunks))
    decreases |chunks|
  {
    if chunks != [] {
      var init := chunks[..|chunks| - 1];
      PassesPosition(s, init);
      PassesDrained(s, Position(s, init), Total(chunks));
      PassesTransitive(s, 0, Position(s, init), Position(s, chunks));
    }
  }

  /** No way to receive at least n bytes takes less of the stream than n bytes in full receives. */
  lemma {:induction false} FullReceivesLag(s: Buffer, n: nat, chunks: seq<Buffer>)
    requires Begins(s, chunks) && Receives(chunks) && n <= Total(chunks)
    requires Begins(s, FullReceives(s, n))
    ensures Passes(s, Position(s, FullReceives(s, n)), Position(s, chunks))
    decreases |chunks|
  {
    var full := FullReceives(s, n);
    if n == 0 {
      PassesPosition(s, chunks);
    } else {
      var init := chunks[..|chunks| - 1];
      ReceivesLast(chunks);
      var m := if n <= RECV_SIZE then 0 else n - RECV_SIZE;
      if m > 0 {
        FullReceivesLast(s, n);
      }
      FullReceivesBegin(s, m);
      FullReceivesBegin(s, n);
      FullReceivesLag(s, m, init);
      DrainedMonotone(s, Position(s, FullReceives(s, m)), Position(s, init), n, Total(chunks));
    }
  }

  lemma {:induction false} NoSlower(s: Buffer, n: nat, chunks: seq<Buffer>)
    requires Begins(s, chunks) && Receives(chunks) && n <= Total(chunks)
    requires Begins(s, FullReceives(s, n))
    ensures Position(s, FullReceives(s, n)) <= Position(s, chunks)
  {
    FullReceivesBegin(s, n);
    FullReceivesLag(s, n, chunks);
    PassesForward(s, Position(s, FullReceives(s, n)), Position(s, chunks));
  }

  lemma FitBound(s: Buffer, chunks: seq<Buffer>, init: seq<Buffer>)
    requires Begins(s, chunks) && chunks != [] && init == chunks[..|chunks| - 1] && Begins(s, init)
    ensures Fit(s, chunks) ==> Total(chunks) - Position(s, init) <= BUFFER_SIZE
  {
  }

  /** The receive that finds no space would find none after full receives either. */
  lemma {:induction false} FullReceivesTooBig(s: Buffer, chunks: seq<Buffer>, n: nat)
    requires Begins(s, chunks) && Receives(chunks) && RECV_SIZE < n <= |s|
    requires n <= Total(chunks) + RECV_SIZE && n - Position(s, chunks) > BUFFER_SIZE
    requires Begins(s, FullReceives(s, n))
    ensures !Fit(s, FullReceives(s, n))
  {
    var full, before := FullReceives(s, n), FullReceives(s, n - RECV_SIZE);
    assert Total(full) == n && Begins(s, before) by {
      FullReceivesBegin(s, n);
      FullReceivesBegin(s, n - RECV_SIZE);
    }
    assert Position(s, before) <= Position(s, chunks) by {
      NoSlower(s, n - RECV_SIZE, chunks);
    }
    assert full != [] && before == full[..|full| - 1] by {
      FullReceivesLast(s, n);
    }
    FitBound(s, full, before);
  }

  lemma {:induction false} FullReceivesOverflow(s: Buffer, chunks: seq<Buffer>) returns (n: nat)
    requires Begins(s, chunks) && Receives(chunks) && !Fit(s, chunks)
    ensures n <= |s| && Begins(s, FullReceives(s, n)) && !Fit(s, FullReceives(s, n))
    decreases |chunks|
  {
    var init := chunks[..|chunks| - 1];
    ReceivesLast(chunks);
    if Fit(s, init) {
      n := Total(chunks);
      FullReceivesBegin(s, n);
      FullReceivesTooBig(s, init, n);
    } else {
      n := FullReceivesOverflow(s, init);
    }
  }

  /**
   A stream, malformed or not, is received without overflow however it is cut into
   receives of at most 8192 bytes, if and only if it is when each of its beginnings
   arrives in full receives.
   */
  lemma {:induction false} OverflowDecided(s: Buffer)
    ensures (forall chunks: seq<Buffer> :: Concat(chunks) <= s && Receives(chunks) ==> NoOverflow(chunks))
       <==> (forall n: nat :: n <= |s| ==> NoOverflow(FullReceives(s, n)))
  {
    if forall n: nat :: n <= |s| ==> NoOverflow(FullReceives(s, n)) {
      forall chunks: seq<Buffer> | Concat(chunks) <= s && Receives(chunks)
        ensures NoOverflow(chunks)
      {
        BeginsConcat(s, chunks);
        NoOverflowFits(s, chunks);
        if !Fit(s, chunks) {
          var n := FullReceivesOverflow(s, chunks);
          NoOverflowFits(s, FullReceives(s, n));
        }
      }
    } else {
      var n: nat :| n <= |s| && !NoOverflow(FullReceives(s, n));
      FullReceivesBegin(s, n);
      BeginsConcat(s, FullReceives(s, n));
    }
  }
}
