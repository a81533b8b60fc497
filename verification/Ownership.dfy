/**
 Who may touch a session, and who keeps it alive: accept slots, the session table, the
 overlapped operations of each session and the workers that run their completions, as a
 transition system.

 A step is one completion dequeued by a worker, one call into the kernel, or one lock
 region of the session table. Any number of workers run, each inside at most one
 completion; the state counts, for each session, how many of them stand where. Each of
 them has a shared_ptr to its session.
 */
module Ownership {
  import opened Bytes

  type Sid = nat

  const PENDING_ACCEPTS := 256

  // ---------------------------------------------------------------------
  // One session
  // ---------------------------------------------------------------------

  /** How many threads and kernel operations stand where, and who has a shared_ptr to the session. */
  datatype Session = Session(
    born: nat,                  // constructed, about to be added to the table
    listed: nat,                // in the table, about to post its first receive
    pendingRecv: nat,           // overlapped receives outstanding
    handling: nat,              // workers inside OnRecvCompleted
    rearming: nat,              // workers about to call PostRecv again
    sending: nat,               // workers inside SendCompleted
    closing: nat,               // workers about to call RemoveSession
    pendingSend: bool,          // an overlapped send is outstanding (never two: SendProtocol.OneToken)
    recvKeepAlive: Option<Sid>, // m_recvOverlapped.keepAlive
    sendKeepAlive: Option<Sid>, // m_sendOverlapped.keepAlive
    inTable: bool,              // in SessionManager::m_sessions
    inRooms: nat,               // rooms that hold it
    added: bool,                // AddSession has been called with it
    removed: bool,              // RemoveSession has been called with it
    alive: bool,                // constructed and not destroyed
    destroyed: bool,            // the destructor has run
    stray: bool                 // a completion of it found no session, or another one, in keepAlive
  )

  const Unborn := Session(0, 0, 0, 0, 0, 0, 0, false, None, None, false, 0, false, false, false, false, false)

  datatype Deed =
    | Birth                  // make_shared<Session>
    | Add                    // AddSession
    | FirstRecv(ok: bool)    // PostRecv by the acceptor
    | RecvArrives            // a worker dequeues a receive completed with data
    | RecvZero               // a worker dequeues a receive completed with zero bytes
    | EnterRoom              // a handler puts the session into a room
    | LeaveRoom              // a room lets go of it, or ceases to exist
    | Handled                // OnRecvCompleted returns
    | Throws                 // OnRecvCompleted throws; the worker logs and goes on
    | Rearm(ok: bool)        // PostRecv by the worker
    | SendStarts(ok: bool)   // RegisterSend, by way of the table, of a room or of SendCompleted, calls WSASend
    | SendEnds               // a send completes with data, and a worker enters SendCompleted
    | SendDone               // SendCompleted returns
    | SendZero               // a send completes with zero bytes
    | Remove                 // RemoveSession
    | Destroy                // the last shared_ptr has gone

  /** How many shared_ptr to the session there are. */
  function Refs(s: Session, id: Sid): nat {
    s.born + s.listed + s.handling + s.rearming + s.sending + s.closing
    + (if s.inTable then 1 else 0) + s.inRooms
    + (if s.recvKeepAlive == Some(id) then 1 else 0) + (if s.sendKeepAlive == Some(id) then 1 else 0)
  }

  predicate CanDo(s: Session, id: Sid, d: Deed) {
    match d
    case Birth => true
    case Add => s.born > 0
    case FirstRecv(_) => s.listed > 0
    case RecvArrives => s.pendingRecv > 0
    case RecvZero => s.pendingRecv > 0
    case EnterRoom => s.handling > 0
    case LeaveRoom => s.inRooms > 0
    case Handled => s.handling > 0
    case Throws => s.handling > 0
    case Rearm(_) => s.rearming > 0
    case SendStarts(_) => (s.inTable || s.inRooms > 0 || s.sending > 0) && !s.pendingSend
    case SendEnds => s.pendingSend
    case SendDone => s.sending > 0
    case SendZero => s.pendingSend
    case Remove => s.closing > 0
    case Destroy => s.alive && Refs(s, id) == 0
  }

  /** PostRecv: the overlapped keeps its session alive whether or not WSARecv accepts it. */
  function PostRecv(s: Session, id: Sid, ok: bool): Session {
    s.(recvKeepAlive := Some(id), pendingRecv := if ok then s.pendingRecv + 1 else s.pendingRecv)
  }

  /** A completion finds its session through keepAlive, which must still be there. */
  predicate Finds(s: Session, keepAlive: Option<Sid>, id: Sid) {
    s.alive && keepAlive == Some(id)
  }

  function Do(s: Session, id: Sid, d: Deed): Session
    requires CanDo(s, id, d)
  {
    match d
    case Birth => s.(born := s.born + 1, alive := true)
    case Add => s.(born := s.born - 1, listed := s.listed + 1, inTable := true, added := true)
    case FirstRecv(ok) => PostRecv(s.(listed := s.listed - 1), id, ok)
    case RecvArrives =>
      if Finds(s, s.recvKeepAlive, id) then s.(pendingRecv := s.pendingRecv - 1, handling := s.handling + 1)
      else s.(pendingRecv := s.pendingRecv - 1, stray := true)
    case RecvZero =>
      if Finds(s, s.recvKeepAlive, id) then s.(pendingRecv := s.pendingRecv - 1, closing := s.closing + 1)
      else s.(pendingRecv := s.pendingRecv - 1, stray := true)
    case EnterRoom => s.(inRooms := s.inRooms + 1)
    case LeaveRoom => s.(inRooms := s.inRooms - 1)
    case Handled => s.(handling := s.handling - 1, rearming := s.rearming + 1)
    case Throws => s.(handling := s.handling - 1)
    case Rearm(ok) => PostRecv(s.(rearming := s.rearming - 1), id, ok)
    case SendStarts(ok) => s.(pendingSend := ok, sendKeepAlive := Some(id))
    case SendEnds =>
      if Finds(s, s.sendKeepAlive, id) then s.(pendingSend := false, sending := s.sending + 1)
      else s.(pendingSend := false, stray := true)
    case SendDone => s.(sending := s.sending - 1)
    case SendZero =>
      if Finds(s, s.sendKeepAlive, id) then s.(pendingSend := false, closing := s.closing + 1)
      else s.(pendingSend := false, stray := true)
    case Remove => s.(closing := s.closing - 1, inTable := false, removed := true)
    case Destroy => s.(alive := false, destroyed := true, recvKeepAlive := None, sendKeepAlive := None)
  }

  /** The outstanding receives of a session, and the threads that may touch its receive side. */
  function Owners(s: Session): nat {
    s.pendingRecv + s.handling + s.rearming + s.born + s.listed
  }

  predicate SessionInv(s: Session, id: Sid) {
    && Owners(s) <= 1
    && (s.born > 0 ==> !s.added)
    && (s.listed + s.pendingRecv + s.handling + s.rearming > 0 ==> s.added)
    && (s.closing + s.sending + s.inRooms > 0 || s.pendingSend || s.removed || s.inTable ==> s.added)
    && (s.pendingRecv > 0 ==> s.recvKeepAlive == Some(id))
    && (s.pendingSend ==> s.sendKeepAlive == Some(id))
    && (s.inTable ==> !s.removed)
    && (s.born > 0 || s.added || s.recvKeepAlive.Some? || s.sendKeepAlive.Some? ==> s.alive)
    && (s.alive && s.born == 0 && s.listed == 0 ==> s.recvKeepAlive == Some(id))
    && !s.destroyed && !s.stray
  }

  /** The deeds of the acceptor and of the receive side. */
  predicate Receives(d: Deed) {
    d.Birth? || d.Add? || d.FirstRecv? || d.RecvArrives? || d.RecvZero? || d.Handled? || d.Throws? || d.Rearm?
  }

  lemma ReceivingKeepsInv(s: Session, id: Sid, d: Deed)
    requires SessionInv(s, id) && CanDo(s, id, d) && Receives(d)
    requires d.Birth? ==> s == Unborn
    ensures SessionInv(Do(s, id, d), id)
  {
    match d
    case Birth =>
    case Add =>
    case FirstRecv(_) =>
    case RecvArrives =>
    case RecvZero =>
    case Handled =>
    case Throws =>
    case Rearm(_) =>
  }

  lemma OtherKeepsInv(s: Session, id: Sid, d: Deed)
    requires SessionInv(s, id) && CanDo(s, id, d) && !Receives(d)
    ensures SessionInv(Do(s, id, d), id)
  {
    match d
    case EnterRoom =>
    case LeaveRoom =>
    case SendStarts(_) =>
    case SendEnds =>
    case SendDone =>
    case SendZero =>
    case Remove =>
    case Destroy =>
  }

  lemma DeedKeepsMarks(s: Session, id: Sid, d: Deed)
    requires SessionInv(s, id) && CanDo(s, id, d)
    ensures s.removed ==> Do(s, id, d).removed
    ensures s.recvKeepAlive == Some(id) ==> Do(s, id, d).recvKeepAlive == Some(id)
  {
  }

  lemma DeedKeepsInv(s: Session, id: Sid, d: Deed)
    requires SessionInv(s, id) && CanDo(s, id, d)
    requires d.Birth? ==> s == Unborn
    ensures SessionInv(Do(s, id, d), id)
    ensures s.removed ==> Do(s, id, d).removed
    ensures s.recvKeepAlive == Some(id) ==> Do(s, id, d).recvKeepAlive == Some(id)
  {
    DeedKeepsMarks(s, id, d);
    if Receives(d) {
      ReceivingKeepsInv(s, id, d);
    } else {
      OtherKeepsInv(s, id, d);
    }
  }

  /** Which deeds create a shared_ptr, which give one up, and which hand one on: the receive side. */
  lemma ReceivingRefs(s: Session, id: Sid, d: Deed)
    requires SessionInv(s, id) && CanDo(s, id, d) && Receives(d)
    ensures var before, after := Refs(s, id), Refs(Do(s, id, d), id);
            && (d.Birth? || d.RecvArrives? || d.RecvZero? ==> after == before + 1)
            && (d.Handled? ==> after == before)
            && (d.Throws? ==> after == before - 1)
            && (d.Add? ==> after == before + (if s.inTable then 0 else 1))
            && (d.FirstRecv? || d.Rearm? ==> after == before - 1 + (if s.recvKeepAlive == Some(id) then 0 else 1))
  {
    match d
    case Birth =>
    case Add =>
    case FirstRecv(_) =>
    case RecvArrives =>
    case RecvZero =>
    case Handled =>
    case Throws =>
    case Rearm(_) =>
  }

  /** And the others. */
  lemma OtherRefs(s: Session, id: Sid, d: Deed)
    requires SessionInv(s, id) && CanDo(s, id, d) && !Receives(d)
    ensures var before, after := Refs(s, id), Refs(Do(s, id, d), id);
            && (d.EnterRoom? || d.SendEnds? || d.SendZero? ==> after == before + 1)
            && (d.LeaveRoom? || d.SendDone? ==> after == before - 1)
            && (d.SendStarts? ==> after == before + (if s.sendKeepAlive == Some(id) then 0 else 1))
            && (d.Remove? ==> after == before - 1 - (if s.inTable then 1 else 0))
            && (d.Destroy? ==> after == before == 0)
  {
    match d
    case EnterRoom =>
    case LeaveRoom =>
    case SendStarts(_) =>
    case SendEnds =>
    case SendDone =>
    case SendZero =>
    case Remove =>
    case Destroy =>
  }

  // ---------------------------------------------------------------------
  // Sessions that nobody listens to
  // ---------------------------------------------------------------------

  /** If the session is in the table, somebody will receive for it, or remove it. */
  predicate Attended(s: Session) {
    s.inTable ==> Owners(s) + s.closing > 0
  }

  /** WSARecv fails, or a handler throws. */
  predicate Abandons(s: Session, d: Deed) {
    (d == FirstRecv(false) || d == Rearm(false) || d == Throws) && s.inTable && s.closing == 0
  }

  /**
   A session in the table is left without anybody to receive for it or to remove it by
   exactly these deeds, and only a send that completes with zero bytes helps.
   */
  lemma AttendedStep(s: Session, id: Sid, d: Deed)
    requires SessionInv(s, id) && CanDo(s, id, d) && !d.Birth?
    ensures Attended(Do(s, id, d)) <==> if Attended(s) then !Abandons(s, d) else d == SendZero
  {
    match d
    case Add =>
    case FirstRecv(_) =>
    case RecvArrives =>
    case RecvZero =>
    case EnterRoom =>
    case LeaveRoom =>
    case Handled =>
    case Throws =>
    case Rearm(_) =>
    case SendStarts(_) =>
    case SendEnds =>
    case SendDone =>
    case SendZero =>
    case Remove =>
    case Destroy =>
  }

  /** Once nobody receives, nobody ever will. */
  lemma DeafStep(s: Session, id: Sid, d: Deed)
    requires SessionInv(s, id) && CanDo(s, id, d) && !d.Birth? && s.added && Owners(s) == 0
    ensures Do(s, id, d).added && Owners(Do(s, id, d)) == 0
  {
  }

  // ---------------------------------------------------------------------
  // The whole server
  // ---------------------------------------------------------------------

  datatype Net = Net(
    toPost: nat,          // accepts Init has still to post
    pendingAccepts: nat,  // AcceptEx calls outstanding
    accepting: nat,       // workers inside OnAcceptCompleted, session not yet constructed
    refilling: nat,       // workers inside OnAcceptCompleted, next accept not yet posted
    lostAccepts: nat,     // accept slots given up after an error
    lastId: nat,          // GSessionIdAllocator
    sessions: map<Sid, Session>
  )

  const Start := Net(PENDING_ACCEPTS, 0, 0, 0, 0, 0, map[])

  function Get(sessions: map<Sid, Session>, id: Sid): Session {
    if id in sessions then sessions[id] else Unborn
  }

  /** The keys of SessionManager::m_sessions. */
  function Table(sessions: map<Sid, Session>): set<Sid> {
    set id | id in sessions && sessions[id].inTable
  }

  lemma TableUpdate(sessions: map<Sid, Session>, id: Sid, s: Session)
    ensures Table(sessions[id := s]) == if s.inTable then Table(sessions) + {id} else Table(sessions) - {id}
    ensures s.inTable == Get(sessions, id).inTable ==> Table(sessions[id := s]) == Table(sessions)
  {
  }

  /** Only AddSession and RemoveSession touch the table. */
  function TableAfter(table: set<Sid>, id: Sid, d: Deed): set<Sid> {
    match d
    case Add => table + {id}
    case Remove => table - {id}
    case _ => table
  }

  lemma DeedInTable(s: Session, id: Sid, d: Deed)
    requires CanDo(s, id, d)
    ensures Do(s, id, d).inTable == match d
                                    case Add => true
                                    case Remove => false
                                    case _ => s.inTable
  {
  }

  lemma TableStep(sessions: map<Sid, Session>, id: Sid, d: Deed)
    requires CanDo(Get(sessions, id), id, d)
    ensures Table(sessions[id := Do(Get(sessions, id), id, d)]) == TableAfter(Table(sessions), id, d)
  {
    DeedInTable(Get(sessions, id), id, d);
    TableUpdate(sessions, id, Do(Get(sessions, id), id, d));
  }

  datatype Action =
    | PrePost(ok: bool)       // one turn of the loop in Init
    | AcceptArrives           // a worker dequeues an accept completion
    | Construct               // a session with the next id
    | Refill(ok: bool)        // RegisterAccept by the acceptor
    | At(id: Sid, deed: Deed)

  predicate Enabled(n: Net, a: Action) {
    match a
    case PrePost(_) => n.toPost > 0
    case AcceptArrives => n.pendingAccepts > 0
    case Construct => n.accepting > 0
    case Refill(_) => n.refilling > 0
    case At(id, d) => !d.Birth? && CanDo(Get(n.sessions, id), id, d)
  }

  function Put(n: Net, id: Sid, d: Deed): Net
    requires CanDo(Get(n.sessions, id), id, d)
  {
    n.(sessions := n.sessions[id := Do(Get(n.sessions, id), id, d)])
  }

  function Apply(n: Net, a: Action): Net
    requires Enabled(n, a)
  {
    match a
    case PrePost(ok) =>
      if ok then n.(toPost := n.toPost - 1, pendingAccepts := n.pendingAccepts + 1)
      else n.(toPost := n.toPost - 1, lostAccepts := n.lostAccepts + 1)
    case AcceptArrives => n.(pendingAccepts := n.pendingAccepts - 1, accepting := n.accepting + 1)
    case Construct =>
      Put(n, n.lastId + 1, Birth).(accepting := n.accepting - 1, refilling := n.refilling + 1, lastId := n.lastId + 1)
    case Refill(ok) =>
      if ok then n.(refilling := n.refilling - 1, pendingAccepts := n.pendingAccepts + 1)
      else n.(refilling := n.refilling - 1, lostAccepts := n.lostAccepts + 1)
    case At(id, d) => Put(n, id, d)
  }

  predicate Legal(n: Net, run: seq<Action>)
    decreases |run|, 0
  {
    run == [] || (Legal(n, run[..|run| - 1]) && Enabled(Run(n, run[..|run| - 1]), run[|run| - 1]))
  }

  function Run(n: Net, run: seq<Action>): Net
    requires Legal(n, run)
    decreases |run|, 1
  {
    if run == [] then n else Apply(Run(n, run[..|run| - 1]), run[|run| - 1])
  }

  function AcceptSlots(n: Net): nat {
    n.toPost + n.pendingAccepts + n.accepting + n.refilling + n.lostAccepts
  }

  ghost predicate Inv(n: Net) {
    && AcceptSlots(n) == PENDING_ACCEPTS
    && AllInv(n.sessions)
    && NoneAbove(n.sessions, n.lastId)
  }

  ghost predicate AllInv(sessions: map<Sid, Session>) {
    forall id: Sid {:trigger SessionInv(Get(sessions, id), id)} :: SessionInv(Get(sessions, id), id)
  }

  ghost predicate NoneAbove(sessions: map<Sid, Session>, lastId: nat) {
    forall id: Sid :: id > lastId ==> Get(sessions, id) == Unborn
  }

  /** What a deed of one session does to each session: nothing, unless it is that one. */
  lemma DeedAt(n: Net, it: Sid, d: Deed, id: Sid)
    requires CanDo(Get(n.sessions, it), it, d)
    ensures Get(Put(n, it, d).sessions, id) == if id == it then Do(Get(n.sessions, it), it, d) else Get(n.sessions, id)
  {
  }

  lemma DeedKeepsAll(n: Net, it: Sid, d: Deed)
    requires CanDo(Get(n.sessions, it), it, d) && AllInv(n.sessions)
    requires d.Birth? ==> Get(n.sessions, it) == Unborn
    ensures AllInv(Put(n, it, d).sessions)
  {
    var m := Put(n, it, d);
    forall id: Sid
      ensures SessionInv(Get(m.sessions, id), id)
    {
      assert SessionInv(Get(n.sessions, id), id);
      DeedAt(n, it, d, id);
      if id == it {
        DeedKeepsInv(Get(n.sessions, it), it, d);
      }
    }
  }

  lemma DeedKeepsNoneAbove(n: Net, it: Sid, d: Deed, m: Net)
    requires CanDo(Get(n.sessions, it), it, d) && m == Put(n, it, d)
    requires NoneAbove(n.sessions, n.lastId)
    ensures NoneAbove(m.sessions, if d.Birth? && it > n.lastId then it else n.lastId)
  {
    var bound := if d.Birth? && it > n.lastId then it else n.lastId;
    forall id: Sid | id > bound
      ensures Get(m.sessions, id) == Unborn
    {
      assert Get(n.sessions, id) == Unborn;
      assert id != it;
      DeedAt(n, it, d, id);
    }
  }

  lemma ConstructKeepsAll(n: Net)
    requires AllInv(n.sessions) && Get(n.sessions, n.lastId + 1) == Unborn && n.accepting > 0
    ensures AllInv(Apply(n, Construct).sessions)
  {
    DeedKeepsAll(n, n.lastId + 1, Birth);
    assert Apply(n, Construct).sessions == Put(n, n.lastId + 1, Birth).sessions;
  }

  lemma StepKeepsAll(n: Net, a: Action)
    requires AllInv(n.sessions) && Get(n.sessions, n.lastId + 1) == Unborn && Enabled(n, a)
    ensures AllInv(Apply(n, a).sessions)
  {
    match a
    case At(id, d) => DeedKeepsAll(n, id, d);
    case Construct => ConstructKeepsAll(n);
    case PrePost(_) =>
    case AcceptArrives =>
    case Refill(_) =>
  }

  lemma StepKeepsNoneAbove(n: Net, a: Action)
    requires NoneAbove(n.sessions, n.lastId) && Enabled(n, a)
    ensures NoneAbove(Apply(n, a).sessions, Apply(n, a).lastId)
  {
    match a
    case At(id, d) => DeedKeepsNoneAbove(n, id, d, Put(n, id, d));
    case Construct => DeedKeepsNoneAbove(n, n.lastId + 1, Birth, Put(n, n.lastId + 1, Birth));
    case PrePost(_) =>
    case AcceptArrives =>
    case Refill(_) =>
  }

  lemma StepKeepsSlots(n: Net, a: Action)
    requires Enabled(n, a)
    ensures AcceptSlots(Apply(n, a)) == AcceptSlots(n)
  {
  }

  lemma StepKeepsInv(n: Net, a: Action)
    requires Inv(n) && Enabled(n, a)
    ensures Inv(Apply(n, a))
  {
    StepKeepsSlots(n, a);
    assert Get(n.sessions, n.lastId + 1) == Unborn;
    StepKeepsAll(n, a);
    StepKeepsNoneAbove(n, a);
  }

  /** Once true of a session, true for ever. */
  lemma StepKeepsMarks(n: Net, a: Action, id: Sid)
    requires Inv(n) && Enabled(n, a)
    ensures Get(n.sessions, id).removed ==> Get(Apply(n, a).sessions, id).removed
    ensures Get(n.sessions, id).recvKeepAlive == Some(id) ==> Get(Apply(n, a).sessions, id).recvKeepAlive == Some(id)
  {
    assert SessionInv(Get(n.sessions, id), id);
    if a.At? {
      DeedAt(n, a.id, a.deed, id);
      if id == a.id {
        DeedKeepsInv(Get(n.sessions, id), id, a.deed);
      }
    } else if a.Construct? {
      assert Get(n.sessions, n.lastId + 1) == Unborn;
      DeedAt(n, n.lastId + 1, Birth, id);
    }
  }

  lemma {:induction false} RunKeepsInv(n: Net, run: seq<Action>)
    requires Inv(n) && Legal(n, run)
    ensures Inv(Run(n, run))
    decreases |run|
  {
    if run != [] {
      RunKeepsInv(n, run[..|run| - 1]);
      StepKeepsInv(Run(n, run[..|run| - 1]), run[|run| - 1]);
    }
  }

  // ---------------------------------------------------------------------
  // Theorems
  // ---------------------------------------------------------------------

  /** The states of all interleavings, of any length and any number of workers. */
  ghost predicate Reachable(n: Net) {
    exists run :: Legal(Start, run) && Run(Start, run) == n
  }

  lemma StartInv()
    ensures Inv(Start)
  {
  }

  lemma {:induction false} ReachableInv(n: Net)
    requires Reachable(n)
    ensures Inv(n)
  {
    var run :| Legal(Start, run) && Run(Start, run) == n;
    StartInv();
    RunKeepsInv(Start, run);
  }

  /**
   In every run a session has at most one receive outstanding or in progress, so its
   receive buffer and its ring are touched by one thread at a time, without a lock.
   */
  lemma {:induction false} OneReceiver(n: Net, id: Sid)
    requires Reachable(n)
    ensures Owners(Get(n.sessions, id)) <= 1
  {
    ReachableInv(n);
    assert SessionInv(Get(n.sessions, id), id);
  }

  /**
   An overlapped operation holds on to its own session while it is outstanding: the
   session is not destroyed, and the completion runs on it.
   */
  lemma {:induction false} AliveWhilePending(n: Net, id: Sid)
    requires Reachable(n)
    ensures var s := Get(n.sessions, id);
            && (s.pendingRecv > 0 || s.pendingSend ==> s.alive && Refs(s, id) > 0)
            && (s.pendingRecv > 0 ==> s.recvKeepAlive == Some(id))
            && (s.pendingSend ==> s.sendKeepAlive == Some(id))
            && !s.stray
  {
    ReachableInv(n);
    assert SessionInv(Get(n.sessions, id), id);
  }

  /**
   But it never lets go again. In no run is a session ever destroyed: every session that
   was constructed is referred to at all times, and once it has posted a receive it refers
   to itself for ever.
   */
  lemma {:induction false} NeverDestroyed(n: Net, run: seq<Action>, id: Sid)
    requires Reachable(n) && Legal(n, run)
    ensures !Get(n.sessions, id).destroyed && !Enabled(n, At(id, Destroy))
    ensures Get(n.sessions, id).alive ==> Refs(Get(n.sessions, id), id) > 0
    ensures Get(n.sessions, id).recvKeepAlive == Some(id) ==>
              Get(Run(n, run).sessions, id).alive && Get(Run(n, run).sessions, id).recvKeepAlive == Some(id)
  {
    ReachableInv(n);
    assert SessionInv(Get(n.sessions, id), id);
    if Get(n.sessions, id).recvKeepAlive == Some(id) {
      KeptForever(n, run, id);
      RunKeepsInv(n, run);
      assert SessionInv(Get(Run(n, run).sessions, id), id);
    }
  }

  lemma {:induction false} KeptForever(n: Net, run: seq<Action>, id: Sid)
    requires Inv(n) && Legal(n, run) && Get(n.sessions, id).recvKeepAlive == Some(id)
    ensures Get(Run(n, run).sessions, id).recvKeepAlive == Some(id)
    decreases |run|
  {
    if run != [] {
      var before := run[..|run| - 1];
      KeptForever(n, before, id);
      RunKeepsInv(n, before);
      StepKeepsMarks(Run(n, before), run[|run| - 1], id);
    }
  }

  /** A session of a peer that has gone: nobody knows it, nothing is outstanding, and it is still there. */
  predicate Leaked(s: Session, id: Sid) {
    && s.alive && s.removed && !s.inTable && s.inRooms == 0
    && Owners(s) == 0 && s.sending == 0 && s.closing == 0 && !s.pendingSend
    && Refs(s, id) == 1
  }

  lemma {:induction false} FirstSession() returns (run: seq<Action>)
    ensures Legal(Start, run) && Get(Run(Start, run).sessions, 1) == Unborn.(born := 1, alive := true)
  {
    run := [];
    run := Extended(run, PrePost(true));
    run := Extended(run, AcceptArrives);
    run := Extended(run, Construct);
  }

  lemma {:induction false} ExtendedAt(run: seq<Action>, id: Sid, d: Deed) returns (longer: seq<Action>)
    requires Legal(Start, run) && !d.Birth? && CanDo(Get(Run(Start, run).sessions, id), id, d)
    ensures Legal(Start, longer)
    ensures Get(Run(Start, longer).sessions, id) == Do(Get(Run(Start, run).sessions, id), id, d)
  {
    longer := Extended(run, At(id, d));
    DeedAt(Run(Start, run), id, d, id);
  }

  /** That is how a connection ends which sends nothing and is closed. */
  lemma {:induction false} ClosedConnectionLeaks() returns (run: seq<Action>)
    ensures Legal(Start, run) && Leaked(Get(Run(Start, run).sessions, 1), 1)
  {
    run := FirstSession();
    var s := Unborn.(alive := true);
    var inTable := s.(inTable := true, added := true);
    run := ExtendedAt(run, 1, Add);
    assert Get(Run(Start, run).sessions, 1) == inTable.(listed := 1);
    run := ExtendedAt(run, 1, FirstRecv(true));
    assert Get(Run(Start, run).sessions, 1) == inTable.(pendingRecv := 1, recvKeepAlive := Some(1));
    run := ExtendedAt(run, 1, RecvZero);
    assert Get(Run(Start, run).sessions, 1) == inTable.(closing := 1, recvKeepAlive := Some(1));
    run := ExtendedAt(run, 1, Remove);
    assert Get(Run(Start, run).sessions, 1) == s.(added := true, removed := true, recvKeepAlive := Some(1));
  }

  lemma Extended(run: seq<Action>, a: Action) returns (longer: seq<Action>)
    requires Legal(Start, run) && Enabled(Run(Start, run), a)
    ensures Legal(Start, longer) && Run(Start, longer) == Apply(Run(Start, run), a)
  {
    longer := run + [a];
    assert longer[..|longer| - 1] == run;
  }

  /** Accept slots are neither created nor lost, except by the errors that give one up. */
  lemma {:induction false} AcceptSlotsConserved(n: Net)
    requires Reachable(n)
    ensures n.toPost + n.pendingAccepts + n.accepting + n.refilling + n.lostAccepts == 256
    ensures n.pendingAccepts <= 256 - n.lostAccepts
  {
    ReachableInv(n);
  }

  lemma {:induction false} RemovedForever(n: Net, run: seq<Action>, id: Sid)
    requires Inv(n) && Legal(n, run) && Get(n.sessions, id).removed
    ensures Get(Run(n, run).sessions, id).removed
    decreases |run|
  {
    if run != [] {
      var before := run[..|run| - 1];
      RemovedForever(n, before, id);
      RunKeepsInv(n, before);
      StepKeepsMarks(Run(n, before), run[|run| - 1], id);
    }
  }

  /** A session is added before it is removed, is never added twice, and once removed never comes back. */
  lemma {:induction false} TableDiscipline(n: Net, run: seq<Action>, id: Sid)
    requires Reachable(n) && Legal(n, run)
    ensures Get(n.sessions, id).removed ==> Get(n.sessions, id).added
    ensures Get(n.sessions, id).added ==> !Enabled(n, At(id, Add))
    ensures Get(n.sessions, id).removed ==> !Get(Run(n, run).sessions, id).inTable
  {
    ReachableInv(n);
    assert SessionInv(Get(n.sessions, id), id);
    if Get(n.sessions, id).removed {
      RemovedForever(n, run, id);
      RunKeepsInv(n, run);
      assert SessionInv(Get(Run(n, run).sessions, id), id);
    }
  }

  /** Whether a run contains a send of this session that completes with zero bytes. */
  predicate SendFindsPeerGone(run: seq<Action>, id: Sid) {
    At(id, SendZero) in run
  }

  /**
   A session that nobody receives for any more stays so in every run: nothing its peer
   sends is ever read. If nobody is about to remove it either, it stays in the table until
   a send to it completes with zero bytes.
   */
  lemma {:induction false} DeafForever(n: Net, run: seq<Action>, id: Sid)
    requires Inv(n) && Legal(n, run) && Get(n.sessions, id).added && Owners(Get(n.sessions, id)) == 0
    ensures var s, t := Get(n.sessions, id), Get(Run(n, run).sessions, id);
            && t.added && Owners(t) == 0
            && (!Attended(s) && !SendFindsPeerGone(run, id) ==> !Attended(t))
    decreases |run|
  {
    if run != [] {
      var before, a := run[..|run| - 1], run[|run| - 1];
      assert a in run && forall b :: b in before ==> b in run;
      DeafForever(n, before, id);
      RunKeepsInv(n, before);
      DeafNetStep(Run(n, before), a, id);
    }
  }

  lemma DeafNetStep(n: Net, a: Action, id: Sid)
    requires Inv(n) && Enabled(n, a) && Get(n.sessions, id).added && Owners(Get(n.sessions, id)) == 0
    ensures var s, t := Get(n.sessions, id), Get(Apply(n, a).sessions, id);
            && t.added && Owners(t) == 0
            && (!Attended(s) && a != At(id, SendZero) ==> !Attended(t))
  {
    assert SessionInv(Get(n.sessions, id), id);
    if a.At? {
      DeedAt(n, a.id, a.deed, id);
      if id == a.id {
        DeafStep(Get(n.sessions, id), id, a.deed);
        AttendedStep(Get(n.sessions, id), id, a.deed);
      }
    } else if a.Construct? {
      assert Get(n.sessions, n.lastId + 1) == Unborn;
      DeedAt(n, n.lastId + 1, Birth, id);
    }
  }

  /** A handler that throws is enough: the connection stays open, in the table, and is never read again. */
  lemma {:induction false} ThrowingHandlerAbandons() returns (run: seq<Action>)
    ensures Legal(Start, run)
    ensures var s := Get(Run(Start, run).sessions, 1);
            s.added && Owners(s) == 0 && !s.pendingSend && !Attended(s)
  {
    run := FirstSession();
    var inTable := Unborn.(alive := true, inTable := true, added := true);
    run := ExtendedAt(run, 1, Add);
    assert Get(Run(Start, run).sessions, 1) == inTable.(listed := 1);
    run := ExtendedAt(run, 1, FirstRecv(true));
    var known := inTable.(recvKeepAlive := Some(1));
    assert Get(Run(Start, run).sessions, 1) == known.(pendingRecv := 1);
    run := ExtendedAt(run, 1, RecvArrives);
    assert Get(Run(Start, run).sessions, 1) == known.(handling := 1);
    run := ExtendedAt(run, 1, Throws);
    assert Get(Run(Start, run).sessions, 1) == known;
  }

  // ---------------------------------------------------------------------
  // Acceptor, SessionManager and the worker's dispatch as an object
  // ---------------------------------------------------------------------

  /** The deeds of a worker that has dequeued a receive with data. */
  lemma HandlingRound(s: Session, id: Sid, ok: bool)
    requires SessionInv(s, id) && s.pendingRecv > 0
    ensures s.pendingRecv == 1 && s.handling == s.rearming == 0
    ensures var handling, rearming := s.(pendingRecv := 0, handling := 1), s.(pendingRecv := 0, rearming := 1);
            && Do(s, id, RecvArrives) == handling
            && Do(handling, id, Handled) == rearming
            && Do(handling, id, Throws) == s.(pendingRecv := 0)
            && Do(rearming, id, Rearm(ok)) == s.(pendingRecv := if ok then 1 else 0)
  {
  }

  lemma OneMore(taken: seq<bool>, i: nat)
    requires i < |taken|
    ensures multiset(taken[..i + 1])[true] == multiset(taken[..i])[true] + (if taken[i] then 1 else 0)
  {
    assert taken[..i + 1] == taken[..i] + [taken[i]];
  }

  class IoServer {
    var m_sessions: set<Sid>  // the keys of SessionManager::m_sessions
    var m_idAllocator: nat
    var m_pendingAccepts: nat
    ghost var net: Net

    ghost predicate Valid()
      reads this
    {
      && m_sessions == Table(net.sessions)
      && net.lastId == m_idAllocator && net.pendingAccepts == m_pendingAccepts
      && Inv(net)
    }

    constructor ()
      ensures Valid() && net == Start
    {
      m_sessions, m_idAllocator, m_pendingAccepts := {}, 0, 0;
      net := Start;
    }

    ghost method Take(a: Action)
      requires Inv(net) && Enabled(net, a)
      modifies this`net
      ensures net == Apply(old(net), a) && Inv(net)
    {
      StepKeepsInv(net, a);
      net := Apply(net, a);
    }

    ghost method TakeAt(id: Sid, d: Deed)
      requires Inv(net) && Enabled(net, At(id, d))
      modifies this`net
      ensures net == Put(old(net), id, d) && Inv(net)
      ensures Table(net.sessions) == TableAfter(Table(old(net.sessions)), id, d)
    {
      TableStep(net.sessions, id, d);
      Take(At(id, d));
    }

    /** Posts 256 accepts; those that Windows does not take are gone. */
    method Init(taken: seq<bool>)
      requires Valid() && net == Start && |taken| == 256
      modifies this
      ensures Valid() && m_pendingAccepts == multiset(taken)[true]
      ensures net == Start.(toPost := 0, pendingAccepts := m_pendingAccepts, lostAccepts := 256 - m_pendingAccepts)
    {
      for i := 0 to PENDING_ACCEPTS
        invariant Valid() && m_pendingAccepts == multiset(taken[..i])[true] <= i
        invariant net == Start.(toPost := PENDING_ACCEPTS - i, pendingAccepts := m_pendingAccepts,
                                lostAccepts := i - m_pendingAccepts)
      {
        OneMore(taken, i);
        if taken[i] {
          m_pendingAccepts := m_pendingAccepts + 1;
        }
        Take(PrePost(taken[i]));
      }
      assert taken[..256] == taken;
    }

    /** RegisterAccept, after a session has been started; an error gives the slot up. */
    method RegisterAccept(ok: bool)
      requires Valid() && net.refilling > 0
      modifies this
      ensures Valid() && m_sessions == old(m_sessions) && m_idAllocator == old(m_idAllocator)
      ensures m_pendingAccepts == old(m_pendingAccepts) + (if ok then 1 else 0)
      ensures net == Apply(old(net), Refill(ok))
    {
      if ok {
        m_pendingAccepts := m_pendingAccepts + 1;
      }
      Take(Refill(ok));
    }

    /** make_shared<Session> for a completed accept: an id never used before. */
    method NewSession() returns (id: Sid)
      requires Valid() && m_pendingAccepts > 0
      modifies this
      ensures Valid() && m_sessions == old(m_sessions)
      ensures Get(old(net.sessions), id) == Unborn && id == old(m_idAllocator) + 1
      ensures net == old(net).(pendingAccepts := old(net.pendingAccepts) - 1, refilling := old(net.refilling) + 1,
                               lastId := id, sessions := net.sessions)
      ensures net.sessions == old(net.sessions)[id := Unborn.(born := 1, alive := true)]
    {
      id := m_idAllocator + 1;
      m_idAllocator := id;
      m_pendingAccepts := m_pendingAccepts - 1;
      Take(AcceptArrives);
      TableUpdate(net.sessions, id, Unborn.(born := 1, alive := true));
      Take(Construct);
    }

    /** AddSession, then the first PostRecv. */
    method StartSession(id: Sid, recvOk: bool)
      requires Valid() && Get(net.sessions, id) == Unborn.(born := 1, alive := true)
      modifies this
      ensures Valid() && m_sessions == old(m_sessions) + {id}
      ensures m_idAllocator == old(m_idAllocator) && m_pendingAccepts == old(m_pendingAccepts)
      ensures net == old(net).(sessions := net.sessions)
      ensures net.sessions == old(net.sessions)[id := Get(net.sessions, id)]
      ensures Get(net.sessions, id) == Unborn.(alive := true, inTable := true, added := true,
                                               recvKeepAlive := Some(id), pendingRecv := if recvOk then 1 else 0)
    {
      TakeAt(id, Add);
      m_sessions := m_sessions + {id};
      TakeAt(id, FirstRecv(recvOk));
    }

    /**
     Runs the completion of one accept: a new session enters the table and posts its first
     receive, and the accept is posted again; what WSARecv and AcceptEx answer is given.
     */
    method OnAcceptCompleted(recvOk: bool, acceptOk: bool) returns (id: Sid)
      requires Valid() && m_pendingAccepts > 0
      modifies this
      ensures Valid()
      ensures m_sessions == old(m_sessions) + {id} && id == old(m_idAllocator) + 1
      ensures Get(old(net.sessions), id) == Unborn
      ensures net.sessions == old(net.sessions)[id := Get(net.sessions, id)]
      ensures Get(net.sessions, id) == Unborn.(alive := true, inTable := true, added := true,
                                               recvKeepAlive := Some(id), pendingRecv := if recvOk then 1 else 0)
      ensures m_pendingAccepts == old(m_pendingAccepts) - (if acceptOk then 0 else 1)
    {
      id := NewSession();
      StartSession(id, recvOk);
      RegisterAccept(acceptOk);
    }

    /**
     Runs the completion of a receive. Without data the peer has gone, and the session
     leaves the table. With data the next receive is posted, unless a handler throws; what
     WSARecv answers is given.
     */
    method OnRecv(id: Sid, bytesTransferred: nat, throws: bool, recvOk: bool)
      requires Valid() && Get(net.sessions, id).pendingRecv > 0
      modifies this
      ensures Valid()
      ensures m_sessions == if bytesTransferred == 0 then old(m_sessions) - {id} else old(m_sessions)
      ensures net.sessions == old(net.sessions)[id := Get(net.sessions, id)]
      ensures Get(net.sessions, id).handling == Get(net.sessions, id).rearming == 0
      ensures bytesTransferred == 0 ==>
                Get(net.sessions, id)
                == old(Get(net.sessions, id)).(pendingRecv := 0, inTable := false, removed := true)
      ensures bytesTransferred > 0 ==>
                Get(net.sessions, id)
                == old(Get(net.sessions, id)).(pendingRecv := if !throws && recvOk then 1 else 0)
    {
      ghost var s := Get(net.sessions, id);
      assert SessionInv(s, id);
      if bytesTransferred == 0 {
        TakeAt(id, RecvZero);
        Close(id);
      } else {
        HandleAndRearm(id, throws, recvOk);
      }
    }

    /** RemoveSession by a worker that has seen zero bytes. */
    method Close(id: Sid)
      requires Valid() && Get(net.sessions, id).closing > 0
      modifies this
      ensures Valid() && m_sessions == old(m_sessions) - {id}
      ensures net == Put(old(net), id, Remove)
    {
      TakeAt(id, Remove);
      m_sessions := m_sessions - {id};
    }

    /** OnRecvCompleted, then PostRecv, unless a handler throws. */
    method HandleAndRearm(id: Sid, throws: bool, recvOk: bool)
      requires Valid() && Get(net.sessions, id).pendingRecv > 0
      modifies this
      ensures Valid() && m_sessions == old(m_sessions)
      ensures net.sessions == old(net.sessions)[id := Get(net.sessions, id)]
      ensures Get(net.sessions, id) == old(Get(net.sessions, id)).(pendingRecv := if !throws && recvOk then 1 else 0)
    {
      ghost var s := Get(net.sessions, id);
      assert SessionInv(s, id);
      HandlingRound(s, id, recvOk);
      HandleData(id, throws);
      if !throws {
        TakeAt(id, Rearm(recvOk));
      }
    }

    /** What the worker does with the data, handlers included. */
    method HandleData(id: Sid, throws: bool)
      requires Valid() && Get(net.sessions, id).pendingRecv > 0
      modifies this
      ensures Valid() && m_sessions == old(m_sessions)
      ensures net.sessions == old(net.sessions)[id := Get(net.sessions, id)]
      ensures Get(net.sessions, id)
           == old(Get(net.sessions, id)).(pendingRecv := 0, rearming := if throws then 0 else 1)
    {
      ghost var s := Get(net.sessions, id);
      assert SessionInv(s, id);
      HandlingRound(s, id, true);
      TakeAt(id, RecvArrives);
      TakeAt(id, if throws then Throws else Handled);
    }

    /**
     Runs the completion of a send; SendCompleted may start the next one, also when the
     session has been removed. Next is what WSASend answers, or none if nothing is queued.
     */
    method OnSend(id: Sid, bytesTransferred: nat, next: Option<bool>)
      requires Valid() && Get(net.sessions, id).pendingSend
      modifies this
      ensures Valid()
      ensures m_sessions == if bytesTransferred == 0 then old(m_sessions) - {id} else old(m_sessions)
      ensures net.sessions == old(net.sessions)[id := Get(net.sessions, id)]
      ensures bytesTransferred == 0 ==>
                Get(net.sessions, id)
                == old(Get(net.sessions, id)).(pendingSend := false, inTable := false, removed := true)
      ensures bytesTransferred > 0 ==>
                Get(net.sessions, id) == old(Get(net.sessions, id)).(pendingSend := next == Some(true))
    {
      assert SessionInv(Get(net.sessions, id), id);
      if bytesTransferred == 0 {
        TakeAt(id, SendZero);
        Close(id);
        return;
      }
      TakeAt(id, SendEnds);
      SendCompleted(id, next);
    }

    /** What Session::SendCompleted means for the life of the session. */
    method SendCompleted(id: Sid, next: Option<bool>)
      requires Valid() && Get(net.sessions, id).sending > 0 && !Get(net.sessions, id).pendingSend
      requires Get(net.sessions, id).sendKeepAlive == Some(id)
      modifies this
      ensures Valid() && m_sessions == old(m_sessions)
      ensures net.sessions == old(net.sessions)[id := Get(net.sessions, id)]
      ensures Get(net.sessions, id)
           == old(Get(net.sessions, id)).(sending := old(Get(net.sessions, id).sending) - 1,
                                          pendingSend := next == Some(true))
    {
      if next.Some? {
        TakeAt(id, SendStarts(next.value));
      }
      TakeAt(id, SendDone);
    }
  }
}
