/**
 The sending half of Session as a transition system.

 A session has one send queue, one mutex and one atomic flag. Any number of
 threads run PostSend, and the worker that picks up a send completion runs
 SendCompleted. A step is one lock region that touches nothing else shared, or one
 access to the flag; RegisterSend is cut where it stores the flag inside its lock
 region, because PostSend exchanges the flag without the lock.

 Threads carry no data of their own once they have pushed, so the state counts how
 many of them stand at each program point; the number of threads is unbounded.
 */
module SendProtocol {
  import opened Bytes

  /** How many threads stand at each point of PostSend, RegisterSend and SendCompleted. */
  datatype Threads = Threads(
    pushed: nat,      // PostSend has pushed and is about to exchange the flag
    entering: nat,    // about to lock in RegisterSend
    sawEmpty: nat,    // holds the lock, found the queue empty, about to clear the flag
    sawFront: nat,    // holds the lock, about to call WSASend on the front
    sendFailed: nat,  // holds the lock, WSASend failed, about to clear the flag
    leaving: nat,     // holds the lock, about to release it
    completing: nat   // a worker has dequeued a send completion and is about to pop
  )

  const Nobody := Threads(0, 0, 0, 0, 0, 0, 0)

  /** The overlapped send: none, one outstanding, or one that completed with zero bytes. */
  datatype Socket = Quiet | InFlight | Parked

  datatype State = State(
    queue: seq<Buffer>,        // m_sendQueue
    isSending: bool,           // m_isSending
    locked: bool,              // m_sendLock
    wsaBuf: Buffer,            // what m_sendOverlapped.wsa_buf points at
    socket: Socket,
    threads: Threads,
    posted: seq<Buffer>,       // every buffer pushed, in lock order
    transmitted: seq<Buffer>,  // every buffer WSASend has accepted
    completed: seq<Buffer>,    // every buffer popped
    lastAttemptFailed: bool,   // the latest WSASend failed synchronously
    broken: bool               // popped an empty queue, or sent while a send was outstanding
  )

  const Fresh := State([], false, false, [], Quiet, Nobody, [], [], [], false, false)

  datatype Action =
    | Push(data: Buffer) | Exchange | Lock | ClearEmpty | Transmit(ok: bool) | ClearFailed | Unlock
    | Arrive | ArriveZero | Pop

  predicate Enabled(s: State, a: Action) {
    match a
    case Push(_) => !s.locked
    case Exchange => s.threads.pushed > 0
    case Lock => s.threads.entering > 0 && !s.locked
    case ClearEmpty => s.threads.sawEmpty > 0
    case Transmit(_) => s.threads.sawFront > 0
    case ClearFailed => s.threads.sendFailed > 0
    case Unlock => s.threads.leaving > 0
    case Arrive => s.socket == InFlight
    case ArriveZero => s.socket == InFlight
    case Pop => s.threads.completing > 0 && !s.locked
  }

  function Apply(s: State, a: Action): State
    requires Enabled(s, a)
  {
    var t := s.threads;
    match a
    case Push(data) =>
      s.(queue := s.queue + [data], posted := s.posted + [data], threads := t.(pushed := t.pushed + 1))
    case Exchange =>
      if s.isSending then s.(threads := t.(pushed := t.pushed - 1))
      else s.(isSending := true, threads := t.(pushed := t.pushed - 1, entering := t.entering + 1))
    case Lock =>
      if s.queue == [] then
        s.(locked := true, threads := t.(entering := t.entering - 1, sawEmpty := t.sawEmpty + 1))
      else
        s.(locked := true, threads := t.(entering := t.entering - 1, sawFront := t.sawFront + 1))
    case ClearEmpty =>
      s.(isSending := false, threads := t.(sawEmpty := t.sawEmpty - 1, leaving := t.leaving + 1))
    case Transmit(ok) =>
      if s.queue == [] || s.socket != Quiet then s.(broken := true)
      else if ok then
        s.(wsaBuf := s.queue[0], socket := InFlight, transmitted := s.transmitted + [s.queue[0]],
           lastAttemptFailed := false, threads := t.(sawFront := t.sawFront - 1, leaving := t.leaving + 1))
      else
        s.(wsaBuf := s.queue[0], lastAttemptFailed := true,
           threads := t.(sawFront := t.sawFront - 1, sendFailed := t.sendFailed + 1))
    case ClearFailed =>
      s.(isSending := false, threads := t.(sendFailed := t.sendFailed - 1, leaving := t.leaving + 1))
    case Unlock =>
      s.(locked := false, threads := t.(leaving := t.leaving - 1))
    case Arrive =>
      s.(socket := Quiet, threads := t.(completing := t.completing + 1))
    case ArriveZero =>
      s.(socket := Parked)
    case Pop =>
      if s.queue == [] then s.(broken := true)
      else s.(queue := s.queue[1..], completed := s.completed + [s.queue[0]],
              threads := t.(completing := t.completing - 1, entering := t.entering + 1))
  }

  /** A run is a list of steps, each enabled where the ones before it lead. */
  predicate Legal(s: State, run: seq<Action>)
    decreases |run|, 0
  {
    run == [] || (Legal(s, run[..|run| - 1]) && Enabled(Run(s, run[..|run| - 1]), run[|run| - 1]))
  }

  function Run(s: State, run: seq<Action>): State
    requires Legal(s, run)
    decreases |run|, 1
  {
    if run == [] then s else Apply(Run(s, run[..|run| - 1]), run[|run| - 1])
  }

  // ---------------------------------------------------------------------
  // The send token
  // ---------------------------------------------------------------------

  /** How many threads or socket operations own the right to send. */
  function Tokens(s: State): nat {
    s.threads.entering + s.threads.sawEmpty + s.threads.sawFront + s.threads.sendFailed
    + s.threads.completing + (if s.socket == Quiet then 0 else 1)
  }

  function LockHolders(s: State): nat {
    s.threads.sawEmpty + s.threads.sawFront + s.threads.sendFailed + s.threads.leaving
  }

  /** The front buffer belongs to the kernel or to a worker that is about to pop it. */
  predicate FrontIsOut(s: State) {
    s.socket != Quiet || s.threads.completing > 0
  }

  ghost predicate Inv(s: State) {
    && !s.broken
    && Tokens(s) == (if s.isSending then 1 else 0)
    && LockHolders(s) == (if s.locked then 1 else 0)
    && (s.threads.sawEmpty > 0 ==> s.queue == [])
    && (s.threads.sawFront > 0 || s.threads.sendFailed > 0 ==> s.queue != [])
    && (s.threads.sendFailed > 0 ==> s.lastAttemptFailed)
    && (FrontIsOut(s) ==> s.queue != [] && s.wsaBuf == s.queue[0])
    && s.completed + s.queue == s.posted
    && s.transmitted == s.completed + (if FrontIsOut(s) then [s.wsaBuf] else [])
    && (s.queue != [] ==> s.isSending || s.threads.pushed > 0 || s.lastAttemptFailed)
    && (s.lastAttemptFailed ==> s.queue != [] && !FrontIsOut(s))
  }

  lemma StepKeepsInv(s: State, a: Action)
    requires Inv(s) && Enabled(s, a)
    ensures Inv(Apply(s, a))
  {
    var t := Apply(s, a);
    match a
    case Push(data) => assert t.completed + t.queue == (s.completed + s.queue) + [data];
    case Pop => assert t.completed + t.queue == s.completed + s.queue;
    case Exchange =>
    case Lock =>
    case ClearEmpty =>
    case Transmit(ok) =>
    case ClearFailed =>
    case Unlock =>
    case Arrive =>
    case ArriveZero =>
  }

  lemma {:induction false} RunKeepsInv(s: State, run: seq<Action>)
    requires Inv(s) && Legal(s, run)
    ensures Inv(Run(s, run))
    decreases |run|
  {
    if run != [] {
      var before := run[..|run| - 1];
      RunKeepsInv(s, before);
      StepKeepsInv(Run(s, before), run[|run| - 1]);
    }
  }

  /** The states of all interleavings, of any length and any number of threads. */
  ghost predicate Reachable(s: State) {
    exists run :: Legal(Fresh, run) && Run(Fresh, run) == s
  }

  lemma FreshInv(s: State)
    requires s.queue == s.posted == s.transmitted == s.completed == []
    requires s.threads == Nobody && s.socket == Quiet
    requires !s.isSending && !s.locked && !s.lastAttemptFailed && !s.broken
    ensures Inv(s)
  {
  }

  lemma {:induction false} ReachableInv(s: State)
    requires Reachable(s)
    ensures Inv(s)
  {
    var run :| Legal(Fresh, run) && Run(Fresh, run) == s;
    FreshInv(Fresh);
    RunKeepsInv(Fresh, run);
  }

  /**
   In every interleaving the flag is set exactly when one token exists, so at most
   one WSASend is outstanding, nothing pops an empty queue, and the buffer the kernel
   reads is the front of the queue.
   */
  lemma {:induction false} OneToken(s: State)
    requires Reachable(s)
    ensures Tokens(s) == (if s.isSending then 1 else 0)
    ensures LockHolders(s) == (if s.locked then 1 else 0)
    ensures !s.broken
    ensures FrontIsOut(s) ==> s.queue != [] && s.wsaBuf == s.queue[0]
  {
    ReachableInv(s);
  }

  /**
   Buffers are completed in the order of the posts, none is lost or repeated, and each
   is handed to WSASend successfully once, in that order, whatever attempts fail.
   */
  lemma {:induction false} Fifo(s: State)
    requires Reachable(s)
    ensures s.completed + s.queue == s.posted
    ensures s.completed <= s.transmitted <= s.posted
    ensures |s.transmitted| <= |s.completed| + 1
  {
    ReachableInv(s);
    if FrontIsOut(s) {
      assert s.posted[..|s.transmitted|] == s.completed + [s.queue[0]];
    }
  }

  // ---------------------------------------------------------------------
  // Lost wakeups
  // ---------------------------------------------------------------------

  /** No thread is inside the send code and no send is outstanding or parked. */
  predicate Quiescent(s: State) {
    s.threads == Nobody && s.socket == Quiet
  }

  /**
   A waiting buffer has someone who will look after it, unless the latest WSASend
   failed synchronously; once everything is at rest, that failure is exactly what a
   non-empty queue means.
   */
  lemma {:induction false} NoLostWakeup(s: State)
    requires Reachable(s)
    ensures s.queue != [] && !s.lastAttemptFailed ==> Tokens(s) == 1 || s.threads.pushed > 0
    ensures Quiescent(s) ==> (s.queue == [] <==> !s.lastAttemptFailed)
  {
    ReachableInv(s);
  }

  /** The failure case exists: one post, one synchronous error, and the buffer stays behind. */
  lemma FailureStrands(data: Buffer)
    ensures var run := [Push(data), Exchange, Lock, Transmit(false), ClearFailed, Unlock];
            Legal(Fresh, run) && Quiescent(Run(Fresh, run)) && Run(Fresh, run).queue == [data]
  {
    var r0: seq<Action> := [];
    Extend(Fresh, r0, Push(data));
    var r1 := r0 + [Push(data)];
    Extend(Fresh, r1, Exchange);
    var r2 := r1 + [Exchange];
    Extend(Fresh, r2, Lock);
    var r3 := r2 + [Lock];
    Extend(Fresh, r3, Transmit(false));
    var r4 := r3 + [Transmit(false)];
    Extend(Fresh, r4, ClearFailed);
    var r5 := r4 + [ClearFailed];
    Extend(Fresh, r5, Unlock);
    assert r5 + [Unlock] == [Push(data), Exchange, Lock, Transmit(false), ClearFailed, Unlock];
  }

  /** The other case too: one post, and the peer goes away before it is sent. */
  lemma ZeroBytesStrand(data: Buffer)
    ensures var run := [Push(data), Exchange, Lock, Transmit(true), ArriveZero, Unlock];
            Legal(Fresh, run) && Run(Fresh, run).socket == Parked && AtRest(Run(Fresh, run))
            && Run(Fresh, run).queue == [data] && Run(Fresh, run).completed == []
  {
    var r0: seq<Action> := [];
    Extend(Fresh, r0, Push(data));
    var r1 := r0 + [Push(data)];
    Extend(Fresh, r1, Exchange);
    var r2 := r1 + [Exchange];
    Extend(Fresh, r2, Lock);
    var r3 := r2 + [Lock];
    Extend(Fresh, r3, Transmit(true));
    var r4 := r3 + [Transmit(true)];
    Extend(Fresh, r4, ArriveZero);
    var r5 := r4 + [ArriveZero];
    Extend(Fresh, r5, Unlock);
    assert r5 + [Unlock] == [Push(data), Exchange, Lock, Transmit(true), ArriveZero, Unlock];
  }

  lemma Extend(s: State, run: seq<Action>, a: Action)
    requires Legal(s, run) && Enabled(Run(s, run), a)
    ensures Legal(s, run + [a]) && Run(s, run + [a]) == Apply(Run(s, run), a)
  {
    assert (run + [a])[..|run|] == run;
  }

  // ---------------------------------------------------------------------
  // Delivery
  // ---------------------------------------------------------------------

  /** Every step but a new post makes this smaller. */
  function Measure(s: State): nat {
    var t := s.threads;
    6 * |s.queue| + 6 * t.pushed + 5 * t.entering + 4 * t.sawFront + 2 * t.sawEmpty + 2 * t.sendFailed
    + t.leaving + t.completing + (if s.socket == InFlight then 2 else 0)
  }

  lemma StepShrinks(s: State, a: Action)
    requires Inv(s) && Enabled(s, a) && !a.Push?
    ensures Measure(Apply(s, a)) < Measure(s)
  {
  }

  predicate NoPosts(run: seq<Action>) {
    forall a :: a in run ==> !a.Push?
  }

  /** Without new posts a session runs out of steps. */
  lemma {:induction false} RunsAreBounded(s: State, run: seq<Action>)
    requires Inv(s) && Legal(s, run) && NoPosts(run)
    ensures |run| + Measure(Run(s, run)) <= Measure(s)
    decreases |run|
  {
    if run != [] {
      var before, last := run[..|run| - 1], run[|run| - 1];
      assert last in run;
      RunsAreBounded(s, before);
      RunKeepsInv(s, before);
      StepShrinks(Run(s, before), last);
    }
  }

  /** No thread is ever stuck: until all is at rest or parked, some step other than a post can be taken. */
  lemma Progress(s: State) returns (a: Action)
    requires Inv(s) && !Quiescent(s) && !(s.socket == Parked && s.threads == Nobody)
    ensures Enabled(s, a) && !a.Push?
  {
    if s.socket == InFlight {
      return Arrive;
    }
    if s.threads.pushed > 0 {
      a := Exchange;
    } else if s.locked {
      if s.threads.sawEmpty > 0 {
        a := ClearEmpty;
      } else if s.threads.sawFront > 0 {
        a := Transmit(true);
      } else if s.threads.sendFailed > 0 {
        a := ClearFailed;
      } else {
        a := Unlock;
      }
    } else if s.threads.entering > 0 {
      a := Lock;
    } else {
      a := Pop;
    }
  }

  /**
   Every run without further posts is finite, and where it can go no further all
   buffers posted have been completed, in order, exactly if the connection is not gone
   (parked) and the latest WSASend did not fail.
   */
  lemma {:induction false} EventuallyDelivered(s: State, run: seq<Action>)
    requires Reachable(s) && Legal(s, run) && NoPosts(run)
    ensures |run| <= Measure(s)
    ensures AtRest(Run(s, run)) ==>
      var end := Run(s, run);
      end.completed == end.posted <==> end.socket != Parked && !end.lastAttemptFailed
  {
    ReachableInv(s);
    RunsAreBounded(s, run);
    RunKeepsInv(s, run);
    var end := Run(s, run);
    if AtRest(end) && end.socket != Parked && !Quiescent(end) {
      var a := Progress(end);
    }
  }

  /** Nothing can happen any more, except that a new post arrives. */
  ghost predicate AtRest(s: State) {
    forall a :: Enabled(s, a) ==> a.Push?
  }

  /** After a zero-byte completion nothing is ever handed to WSASend again. */
  lemma {:induction false} ParkedForever(s: State, run: seq<Action>)
    requires Inv(s) && s.socket == Parked && Legal(s, run)
    ensures Run(s, run).socket == Parked
    ensures Run(s, run).transmitted == s.transmitted && Run(s, run).completed == s.completed
    decreases |run|
  {
    if run != [] {
      ParkedForever(s, run[..|run| - 1]);
      RunKeepsInv(s, run[..|run| - 1]);
    }
  }
}
