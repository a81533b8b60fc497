/**
 Rooms and the room manager: capacity, registration under the right id, the
 double-checked GetOrCreateRoom, which looks a room up under the shared lock and, if it
 is missing, looks again under the exclusive lock before it creates one, and how
 sessions come to be in rooms that no lookup finds.
 */
module Rooms {
  import opened Bytes
  import opened Packets

  const MAX_PLAYERS := 4

  type Sid = nat

  // ---------------------------------------------------------------------
  // The manager and its rooms under any number of threads
  // ---------------------------------------------------------------------

  type Ref = nat

  /** A room object: its id and the sessions in it. */
  datatype RoomState = RoomState(id: u32, members: set<Sid>)

  /** What GetOrCreateRoom has done for one map id since that id was last destroyed or overwritten. */
  datatype Epoch = Epoch(answers: set<Ref>, made: nat)

  /** The threads inside OnEnterRoom and OnLeaveRoom, by what they are about to do. */
  datatype Handlers = Handlers(
    missed: map<u32, nat>,      // GetOrCreateRoom, between its two lock regions, by map id
    entering: multiset<Ref>,    // Enter the room they got
    turnedAway: nat,            // CreateRoom, because that room was full
    placing: multiset<Ref>,     // Enter the room they created
    leaving: multiset<Ref>,     // Leave the room they found
    counting: multiset<Ref>,    // look at its player count
    dropping: multiset<u32>     // DestroyRoom, because the count was zero
  )

  datatype State = State(
    rooms: map<u32, Ref>,      // m_rooms
    objects: seq<RoomState>,   // every room ever created
    nextId: u32,               // m_roomIdAllocator
    threads: Handlers,
    epochs: map<u32, Epoch>
  )

  const Nobody := Handlers(map[], multiset{}, 0, multiset{}, multiset{}, multiset{}, multiset{})

  const Empty := State(map[], [], 0, Nobody, map[])

  datatype Action =
    | LookUp(mapId: u32)             // OnEnterRoom: first region of GetOrCreateRoom
    | LookAgain(mapId: u32)          // its second region
    | Enter(room: Ref, sid: Sid)
    | Create                         // CreateRoom
    | Place(room: Ref, sid: Sid)     // Enter again; the answer is not looked at
    | Find(mapId: u32)               // OnLeaveRoom: GetRoom
    | Leave(room: Ref, sid: Sid)
    | Count(room: Ref)               // GetPlayerCount
    | Destroy(id: u32)

  function Missed(s: State, mapId: u32): nat {
    if mapId in s.threads.missed then s.threads.missed[mapId] else 0
  }

  function EpochOf(s: State, mapId: u32): Epoch {
    if mapId in s.epochs then s.epochs[mapId] else Epoch({}, 0)
  }

  predicate Enabled(s: State, a: Action) {
    match a
    case LookUp(_) => true
    case LookAgain(mapId) => Missed(s, mapId) > 0
    case Enter(r, _) => r < |s.objects| && r in s.threads.entering
    case Create => s.threads.turnedAway > 0
    case Place(r, _) => r < |s.objects| && r in s.threads.placing
    case Find(_) => true
    case Leave(r, _) => r < |s.objects| && r in s.threads.leaving
    case Count(r) => r < |s.objects| && r in s.threads.counting
    case Destroy(id) => id in s.threads.dropping
  }

  /** The thread has its room. */
  function Answer(s: State, mapId: u32): State
    requires mapId in s.rooms
  {
    var e, t := EpochOf(s, mapId), s.threads;
    s.(epochs := s.epochs[mapId := e.(answers := e.answers + {s.rooms[mapId]})],
       threads := t.(entering := t.entering + multiset{s.rooms[mapId]}))
  }

  /** make_shared<Room> registered under id. */
  function Register(s: State, id: u32, epoch: Epoch): State {
    s.(rooms := s.rooms[id := |s.objects|], objects := s.objects + [RoomState(id, {})], epochs := s.epochs[id := epoch])
  }

  function Admit(o: RoomState, sid: Sid): RoomState {
    if |o.members| >= MAX_PLAYERS then o else o.(members := o.members + {sid})
  }

  function Apply(s: State, a: Action): State
    requires Enabled(s, a)
  {
    var t := s.threads;
    match a
    case LookUp(mapId) =>
      if mapId in s.rooms then Answer(s, mapId)
      else s.(threads := t.(missed := t.missed[mapId := Missed(s, mapId) + 1]))
    case LookAgain(mapId) =>
      var u := s.(threads := t.(missed := t.missed[mapId := Missed(s, mapId) - 1]));
      if mapId in s.rooms then Answer(u, mapId)
      else
        var e := EpochOf(s, mapId);
        Register(u, mapId, Epoch(e.answers + {|s.objects|}, e.made + 1))
        .(threads := u.threads.(entering := t.entering + multiset{|s.objects|}))
    case Enter(r, sid) =>
      var u := t.(entering := t.entering - multiset{r});
      if |s.objects[r].members| >= MAX_PLAYERS then s.(threads := u.(turnedAway := t.turnedAway + 1))
      else s.(objects := s.objects[r := Admit(s.objects[r], sid)], threads := u)
    case Create =>
      Register(s, s.nextId, Epoch({}, 0))
      .(nextId := (s.nextId + 1) % 0x1_0000_0000,
        threads := t.(turnedAway := t.turnedAway - 1, placing := t.placing + multiset{|s.objects|}))
    case Place(r, sid) =>
      s.(objects := s.objects[r := Admit(s.objects[r], sid)], threads := t.(placing := t.placing - multiset{r}))
    case Find(mapId) =>
      if mapId in s.rooms then s.(threads := t.(leaving := t.leaving + multiset{s.rooms[mapId]})) else s
    case Leave(r, sid) =>
      var o := s.objects[r];
      s.(objects := s.objects[r := o.(members := o.members - {sid})],
         threads := t.(leaving := t.leaving - multiset{r}, counting := t.counting + multiset{r}))
    case Count(r) =>
      var u := t.(counting := t.counting - multiset{r});
      s.(threads := if s.objects[r].members == {} then u.(dropping := t.dropping + multiset{s.objects[r].id}) else u)
    case Destroy(id) =>
      s.(rooms := s.rooms - {id}, epochs := s.epochs - {id}, threads := t.(dropping := t.dropping - multiset{id}))
  }

  predicate Legal(s: State, run: seq<Action>)
    decreases |run|, 0
  {
    run == [] || (Legal(s, run[..|run| - 1]) && Enabled(Run(s, run[..|run| - 1]), run[|run| - 1]))
  }

  function Run(s: State, run: seq<Action>): State
    requires Legal(s, run)
    decreases |run|, 1
  {
    if run == [] then s else Apply(Run(s, run[..|run| - 1]), run[|run| - 1])
  }

  // ---------------------------------------------------------------------
  // Invariant
  // ---------------------------------------------------------------------

  ghost predicate RoomsInv(s: State) {
    && (forall r :: 0 <= r < |s.objects| ==> |s.objects[r].members| <= MAX_PLAYERS)
    && (forall id :: id in s.rooms ==> s.rooms[id] < |s.objects| && s.objects[s.rooms[id]].id == id)
  }

  /** All answers are the one registered room, which at most one call has made. */
  ghost predicate EpochInv(s: State, mapId: u32) {
    var e := EpochOf(s, mapId);
    && e.made <= 1
    && (e.made == 1 || e.answers != {} ==> mapId in s.rooms)
    && (mapId in s.rooms ==> e.answers <= {s.rooms[mapId]})
  }

  ghost predicate Inv(s: State) {
    RoomsInv(s) && HandsInv(s) && forall m {:trigger EpochInv(s, m)} :: EpochInv(s, m)
  }

  /** Threads that may still change who is in the room. */
  function Hands(s: State, r: Ref): nat {
    s.threads.entering[r] + s.threads.placing[r] + s.threads.leaving[r]
  }

  /** Nobody has a room that has not been created. */
  ghost predicate HandsInv(s: State) {
    forall r: Ref {:trigger Hands(s, r)} :: r >= |s.objects| ==> Hands(s, r) == 0
  }

  lemma AdmitFits(o: RoomState, sid: Sid)
    requires |o.members| <= MAX_PLAYERS
    ensures |Admit(o, sid).members| <= MAX_PLAYERS && Admit(o, sid).id == o.id
  {
    assert sid in o.members ==> o.members + {sid} == o.members;
  }

  lemma {:induction false} Smaller(a: set<Sid>, b: set<Sid>)
    requires a <= b
    ensures |a| <= |b|
  {
    assert b == a + (b - a);
    assert a !! b - a;
  }

  lemma StepKeepsRooms(s: State, a: Action)
    requires RoomsInv(s) && Enabled(s, a)
    ensures RoomsInv(Apply(s, a))
  {
    match a
    case LookUp(_) =>
    case LookAgain(_) =>
    case Enter(r, sid) => AdmitFits(s.objects[r], sid);
    case Create =>
    case Place(r, sid) => AdmitFits(s.objects[r], sid);
    case Find(_) =>
    case Leave(r, sid) => Smaller(s.objects[r].members - {sid}, s.objects[r].members);
    case Count(_) =>
    case Destroy(_) =>
  }

  lemma StepKeepsEpoch(s: State, a: Action, m: u32)
    requires EpochInv(s, m) && Enabled(s, a)
    ensures EpochInv(Apply(s, a), m)
  {
    match a
    case LookUp(_) =>
    case LookAgain(_) =>
    case Enter(_, _) =>
    case Create =>
    case Place(_, _) =>
    case Find(_) =>
    case Leave(_, _) =>
    case Count(_) =>
    case Destroy(_) =>
  }

  lemma StepKeepsHands(s: State, a: Action, r: Ref)
    requires RoomsInv(s) && Enabled(s, a) && r >= |Apply(s, a).objects| && Hands(s, r) == 0
    ensures Hands(Apply(s, a), r) == 0
  {
    match a
    case LookUp(_) =>
    case LookAgain(_) =>
    case Enter(_, _) =>
    case Create =>
    case Place(_, _) =>
    case Find(_) =>
    case Leave(_, _) =>
    case Count(_) =>
    case Destroy(_) =>
  }

  lemma StepKeepsObjects(s: State, a: Action)
    requires Enabled(s, a)
    ensures |s.objects| <= |Apply(s, a).objects|
  {
  }

  lemma StepKeepsInv(s: State, a: Action)
    requires Inv(s) && Enabled(s, a)
    ensures Inv(Apply(s, a))
  {
    StepKeepsRooms(s, a);
    StepKeepsObjects(s, a);
    forall r: Ref | r >= |Apply(s, a).objects|
      ensures Hands(Apply(s, a), r) == 0
    {
      StepKeepsHands(s, a, r);
    }
    forall m: u32
      ensures EpochInv(Apply(s, a), m)
    {
      assert EpochInv(s, m);
      StepKeepsEpoch(s, a, m);
    }
  }

  lemma {:induction false} RunKeepsInv(s: State, run: seq<Action>)
    requires Inv(s) && Legal(s, run)
    ensures Inv(Run(s, run))
    decreases |run|
  {
    if run != [] {
      RunKeepsInv(s, run[..|run| - 1]);
      StepKeepsInv(Run(s, run[..|run| - 1]), run[|run| - 1]);
    }
  }

  ghost predicate Reachable(s: State) {
    exists run :: Legal(Empty, run) && Run(Empty, run) == s
  }

  lemma {:induction false} ReachableInv(s: State)
    requires Reachable(s)
    ensures Inv(s)
  {
    var run :| Legal(Empty, run) && Run(Empty, run) == s;
    RunKeepsInv(Empty, run);
  }

  /** Every room ever created holds at most four sessions, and is registered, if at all, under its own id. */
  lemma {:induction false} Capacity(s: State, r: Ref, id: u32)
    requires Reachable(s)
    ensures r < |s.objects| ==> |s.objects[r].members| <= 4
    ensures id in s.rooms ==> s.rooms[id] < |s.objects| && s.objects[s.rooms[id]].id == id
  {
    ReachableInv(s);
  }

  /**
   Until a map id is destroyed or overwritten, all calls of GetOrCreateRoom for it,
   however they interleave, answer with one room, and at most one of them has made it.
   */
  lemma {:induction false} OneRoomPerMap(s: State, mapId: u32, r: Ref, q: Ref)
    requires Reachable(s)
    requires r in EpochOf(s, mapId).answers && q in EpochOf(s, mapId).answers
    ensures r == q && mapId in s.rooms && s.rooms[mapId] == r && EpochOf(s, mapId).made <= 1
  {
    ReachableInv(s);
    assert EpochInv(s, mapId);
  }

  // ---------------------------------------------------------------------
  // What the steps do, told room by room
  // ---------------------------------------------------------------------

  /** A lookup of OnEnterRoom ends with the map's room, or goes on to the second one, which always ends with it. */
  lemma LookUpAnswers(s: State, mapId: u32)
    requires RoomsInv(s)
    ensures var t := Apply(s, LookUp(mapId));
            && t.rooms == s.rooms && t.objects == s.objects
            && (mapId in s.rooms ==> t.threads.entering[s.rooms[mapId]] == s.threads.entering[s.rooms[mapId]] + 1)
            && (mapId !in s.rooms ==> t.threads.entering == s.threads.entering && Enabled(t, LookAgain(mapId)))
    ensures Enabled(s, LookAgain(mapId)) ==>
              var t := Apply(s, LookAgain(mapId));
              && mapId in t.rooms && t.threads.entering[t.rooms[mapId]] == s.threads.entering[t.rooms[mapId]] + 1
              && (mapId in s.rooms ==> t.rooms == s.rooms && t.objects == s.objects)
              && (mapId !in s.rooms ==>
                    t.rooms == s.rooms[mapId := |s.objects|] && t.objects == s.objects + [RoomState(mapId, {})])
  {
  }

  /** Enter admits the session, or sends its thread on to CreateRoom, exactly by the four that may be inside. */
  lemma EnterStep(s: State, r: Ref, sid: Sid)
    requires RoomsInv(s) && Enabled(s, Enter(r, sid))
    ensures var t := Apply(s, Enter(r, sid));
            && t.rooms == s.rooms && |t.objects| == |s.objects|
            && (forall q :: 0 <= q < |s.objects| && q != r ==> t.objects[q] == s.objects[q])
            && t.objects[r].id == s.objects[r].id
            && t.threads.entering[r] == s.threads.entering[r] - 1
            && if |s.objects[r].members| < 4 then
                 && (forall other: Sid ::
                       other in t.objects[r].members <==> other == sid || other in s.objects[r].members)
                 && t.threads.turnedAway == s.threads.turnedAway
               else t.objects[r] == s.objects[r] && t.threads.turnedAway == s.threads.turnedAway + 1
  {
  }

  /** CreateRoom registers a new empty room under the next id, for a thread that was turned away. */
  lemma CreateStep(s: State)
    requires Enabled(s, Create)
    ensures var (t, r) := (Apply(s, Create), |s.objects|);
            && t.rooms == s.rooms[s.nextId := r] && t.objects == s.objects + [RoomState(s.nextId, {})]
            && t.nextId == (if s.nextId == 0xffff_ffff then 0 else s.nextId + 1)
            && t.threads.turnedAway == s.threads.turnedAway - 1 && Enabled(t, Place(r, 0))
  {
  }

  /** GetRoom finds the registered room, or there is nothing to leave. */
  lemma FindStep(s: State, mapId: u32)
    ensures var t := Apply(s, Find(mapId));
            && t.rooms == s.rooms && t.objects == s.objects
            && (mapId in s.rooms ==> t.threads.leaving[s.rooms[mapId]] == s.threads.leaving[s.rooms[mapId]] + 1)
            && (mapId !in s.rooms ==> t == s)
  {
  }

  /** Leave takes this session out of this room, whoever else is inside, and its thread goes on to count. */
  lemma LeaveStep(s: State, r: Ref, sid: Sid)
    requires RoomsInv(s) && Enabled(s, Leave(r, sid))
    ensures var t := Apply(s, Leave(r, sid));
            && t.rooms == s.rooms && |t.objects| == |s.objects|
            && (forall q :: 0 <= q < |s.objects| && q != r ==> t.objects[q] == s.objects[q])
            && t.objects[r].id == s.objects[r].id
            && (forall other: Sid ::
                  other in t.objects[r].members <==> other != sid && other in s.objects[r].members)
            && t.threads.leaving[r] == s.threads.leaving[r] - 1 && Enabled(t, Count(r))
  {
  }

  /** Counting changes no room, and leads to DestroyRoom of this room's id exactly if nobody is inside. */
  lemma CountStep(s: State, r: Ref, id: u32)
    requires RoomsInv(s) && Enabled(s, Count(r))
    ensures var t := Apply(s, Count(r));
            && t.rooms == s.rooms && t.objects == s.objects
            && t.threads.counting[r] == s.threads.counting[r] - 1
            && t.threads.dropping[id] == s.threads.dropping[id]
                 + (if id == s.objects[r].id && forall sid: Sid :: sid !in s.objects[r].members then 1 else 0)
  {
    assert (forall sid: Sid :: sid !in s.objects[r].members) <==> s.objects[r].members == {};
  }

  /** DestroyRoom takes this id out of the table, and only that. */
  lemma DestroyStep(s: State, id: u32)
    requires Enabled(s, Destroy(id))
    ensures var t := Apply(s, Destroy(id));
            && t.objects == s.objects && id !in t.rooms
            && forall other :: other in s.rooms && other != id ==> other in t.rooms && t.rooms[other] == s.rooms[other]
  {
  }

  // ---------------------------------------------------------------------
  // Rooms that no lookup finds
  // ---------------------------------------------------------------------

  predicate Registered(s: State, r: Ref) {
    r < |s.objects| && s.objects[r].id in s.rooms && s.rooms[s.objects[r].id] == r
  }

  /** Sessions are in the room, and no lookup finds it. */
  predicate Lost(s: State, r: Ref) {
    r < |s.objects| && !Registered(s, r) && s.objects[r].members != {}
  }

  lemma StepStaysUnregistered(s: State, a: Action, r: Ref)
    requires RoomsInv(s) && Enabled(s, a) && r < |s.objects| && !Registered(s, r)
    ensures r < |Apply(s, a).objects| && !Registered(Apply(s, a), r)
  {
  }

  lemma StepStaysAlone(s: State, a: Action, r: Ref)
    requires RoomsInv(s) && Enabled(s, a) && r < |s.objects| && !Registered(s, r) && Hands(s, r) == 0
    ensures Hands(Apply(s, a), r) == 0 && r < |Apply(s, a).objects| && Apply(s, a).objects[r] == s.objects[r]
  {
    match a
    case LookUp(_) =>
    case LookAgain(_) =>
    case Enter(q, _) => assert q != r;
    case Create =>
    case Place(q, _) => assert q != r;
    case Find(_) =>
    case Leave(q, _) => assert q != r;
    case Count(_) =>
    case Destroy(_) =>
  }

  /**
   A room that has lost its place in m_rooms never gets it back: no lookup answers it in
   any run. Once the last thread that has it is done, nobody enters or leaves any more,
   so a session that is in it then cannot leave it, nor be found in it.
   */
  lemma {:induction false} GoneForever(s: State, run: seq<Action>, r: Ref)
    requires Inv(s) && Legal(s, run) && r < |s.objects| && !Registered(s, r)
    ensures var t := Run(s, run);
            && r < |t.objects| && !Registered(t, r)
            && (Hands(s, r) == 0 ==> Hands(t, r) == 0 && t.objects[r] == s.objects[r])
    decreases |run|
  {
    if run != [] {
      var before := run[..|run| - 1];
      GoneForever(s, before, r);
      RunKeepsInv(s, before);
      StepStaysUnregistered(Run(s, before), run[|run| - 1], r);
      if Hands(s, r) == 0 {
        StepStaysAlone(Run(s, before), run[|run| - 1], r);
      }
    }
  }

  /** The step leaves sessions behind in a room that no lookup finds. */
  predicate LosesRoom(s: State, a: Action, r: Ref)
    requires r < |s.objects|
  {
    match a
    case Destroy(id) =>     // somebody came in after the count
      Registered(s, r) && s.objects[r].id == id && s.objects[r].members != {}
    case Create =>          // the next id is the id of a map that has a room
      Registered(s, r) && s.objects[r].id == s.nextId && s.objects[r].members != {}
    case Enter(q, _) =>     // the room was destroyed or displaced after the lookup
      q == r && !Registered(s, r)
    case Place(q, _) => q == r && !Registered(s, r)
    case _ => false
  }

  /** These steps lose sessions, and no others. */
  lemma StepLoses(s: State, a: Action, r: Ref)
    requires RoomsInv(s) && Enabled(s, a) && r < |s.objects| && !Lost(s, r)
    ensures Lost(Apply(s, a), r) <==> LosesRoom(s, a, r)
  {
    if a.Enter? || a.Place? {
      assert s.objects[r].members == {} ==> |s.objects[r].members| == 0;
    }
  }

  /** Rooms with this id are not entered. */
  ghost predicate NobodyEnters(s: State, run: seq<Action>, id: u32)
    requires Legal(s, run)
    decreases |run|
  {
    run != [] ==>
      var before, a := run[..|run| - 1], run[|run| - 1];
      && NobodyEnters(s, before, id)
      && (a.Enter? || a.Place? ==> Run(s, before).objects[a.room].id != id)
  }

  predicate EmptyUnder(s: State, id: u32) {
    id in s.rooms ==> s.rooms[id] < |s.objects| && s.objects[s.rooms[id]].members == {}
  }

  /**
   If at the time of the count the room under the id is empty, DestroyRoom loses nobody,
   whatever other threads do in between, unless one enters a room with that id.
   */
  lemma {:induction false} CountedRoomStaysEmpty(s: State, run: seq<Action>, id: u32)
    requires Inv(s) && Legal(s, run) && EmptyUnder(s, id) && NobodyEnters(s, run, id)
    ensures EmptyUnder(Run(s, run), id)
    decreases |run|
  {
    if run != [] {
      var before, a := run[..|run| - 1], run[|run| - 1];
      CountedRoomStaysEmpty(s, before, id);
      RunKeepsInv(s, before);
      StepStaysEmpty(Run(s, before), a, id);
    }
  }

  lemma StepStaysEmpty(s: State, a: Action, id: u32)
    requires RoomsInv(s) && Enabled(s, a) && EmptyUnder(s, id)
    requires a.Enter? || a.Place? ==> s.objects[a.room].id != id
    ensures EmptyUnder(Apply(s, a), id)
  {
  }

  /**
   CreateRoom leaves the registered rooms in place exactly if its next id is not a map id
   in use. Otherwise the map's room is gone for good with whoever is in it, and lookups
   for that map answer with the overflow room.
   */
  lemma {:induction false} CreateDisplaces(s: State, run: seq<Action>)
    requires Reachable(s) && Enabled(s, Create) && Legal(Apply(s, Create), run)
    ensures var t := Apply(s, Create);
            && ((forall id :: id in s.rooms ==> t.rooms[id] == s.rooms[id]) <==> s.nextId !in s.rooms)
            && t.rooms[s.nextId] == |s.objects|
            && (s.nextId in s.rooms ==>
                  && Registered(s, s.rooms[s.nextId])
                  && (s.objects[s.rooms[s.nextId]].members != {} ==> Lost(t, s.rooms[s.nextId]))
                  && !Registered(Run(t, run), s.rooms[s.nextId]))
  {
    ReachableInv(s);
    StepKeepsInv(s, Create);
    if s.nextId in s.rooms {
      GoneForever(Apply(s, Create), run, s.rooms[s.nextId]);
    }
  }

  // ---------------------------------------------------------------------
  // Sessions in no room
  // ---------------------------------------------------------------------

  /** The second Enter of OnEnterRoom: a session is in no room if that one is full, too. */
  lemma PlaceAdmits(s: State, r: Ref, sid: Sid)
    requires RoomsInv(s) && Enabled(s, Place(r, sid))
    ensures sid in Apply(s, Place(r, sid)).objects[r].members
            <==> |s.objects[r].members| < 4 || sid in s.objects[r].members
    ensures var t := Apply(s, Place(r, sid));
            && t.rooms == s.rooms && |t.objects| == |s.objects| && t.objects[r].id == s.objects[r].id
            && (forall q :: 0 <= q < |s.objects| && q != r ==> t.objects[q] == s.objects[q])
            && (forall other: Sid :: other != sid ==>
                  (other in t.objects[r].members <==> other in s.objects[r].members))
  {
  }

  /** No lookup for this id answers during the run, and the thread that created the room r is not done. */
  predicate Undisturbed(run: seq<Action>, r: Ref, id: u32) {
    forall a :: a in run ==> a != LookUp(id) && a != LookAgain(id) && !(a.Place? && a.room == r)
  }

  /** The room is empty, and nobody but the thread that created it is about to enter it. */
  predicate Open(s: State, r: Ref, id: u32) {
    && r < |s.objects| && s.objects[r] == RoomState(id, {})
    && s.threads.entering[r] == 0 && r in s.threads.placing
  }

  lemma StepStaysOpen(s: State, a: Action, r: Ref, id: u32)
    requires RoomsInv(s) && Enabled(s, a) && Open(s, r, id)
    requires a != LookUp(id) && a != LookAgain(id) && !(a.Place? && a.room == r)
    ensures Open(Apply(s, a), r, id)
  {
    match a
    case LookUp(_) =>
    case LookAgain(_) =>
    case Enter(_, _) =>
    case Create =>
    case Place(_, _) =>
    case Find(_) =>
    case Leave(_, _) =>
    case Count(_) =>
    case Destroy(_) =>
  }

  lemma {:induction false} StaysOpen(s: State, run: seq<Action>, r: Ref, id: u32)
    requires Inv(s) && Legal(s, run) && Open(s, r, id) && Undisturbed(run, r, id)
    ensures Open(Run(s, run), r, id)
    decreases |run|
  {
    if run != [] {
      var before, a := run[..|run| - 1], run[|run| - 1];
      assert a in run && forall b :: b in before ==> b in run;
      StaysOpen(s, before, r, id);
      RunKeepsInv(s, before);
      StepStaysOpen(Run(s, before), a, r, id);
    }
  }

  /**
   A session that was turned away gets a place in the room created for it, whatever other
   handlers do in between, unless they look up the id of that room.
   */
  lemma {:induction false} NewRoomAdmits(s: State, run: seq<Action>, sid: Sid)
    requires Inv(s) && Enabled(s, Create) && Legal(Apply(s, Create), run)
    requires Undisturbed(run, |s.objects|, s.nextId)
    ensures var (t, r) := (Run(Apply(s, Create), run), |s.objects|);
            && Enabled(t, Place(r, sid))
            && Apply(t, Place(r, sid)).objects[r].members == {sid}
  {
    var created, r := Apply(s, Create), |s.objects|;
    assert Hands(s, r) == 0;
    StepKeepsInv(s, Create);
    StaysOpen(created, run, r, s.nextId);
    assert {} + {sid} == {sid};
  }

  // ---------------------------------------------------------------------
  // Both ways of losing sessions happen
  // ---------------------------------------------------------------------

  /** The state, but for what GetOrCreateRoom has answered. */
  predicate Looks(s: State, rooms: map<u32, Ref>, objects: seq<RoomState>, threads: Handlers) {
    s.rooms == rooms && s.objects == objects && s.threads == threads
  }

  const Idle := Nobody.(missed := map[0 := 0])

  /** Nobody is inside a handler, and map 0 has the only room there is. */
  predicate OneRoom(s: State, members: set<Sid>) {
    Looks(s, map[0 := 0], [RoomState(0, members)], Idle) && s.nextId == 0
  }

  lemma Extended(run: seq<Action>, a: Action) returns (longer: seq<Action>)
    requires Legal(Empty, run) && Enabled(Run(Empty, run), a)
    ensures Legal(Empty, longer) && Run(Empty, longer) == Apply(Run(Empty, run), a)
  {
    longer := run + [a];
    assert longer[..|longer| - 1] == run;
  }

  lemma LookUpKnown(s: State, members: set<Sid>, threads: Handlers)
    requires Looks(s, map[0 := 0], [RoomState(0, members)], threads) && threads.entering == multiset{}
    ensures var t := Apply(s, LookUp(0));
            && Looks(t, map[0 := 0], [RoomState(0, members)], threads.(entering := multiset{0}))
            && t.nextId == s.nextId
  {
    assert multiset{} + multiset{0} == multiset{0};
  }

  lemma EnterKnown(s: State, members: set<Sid>, threads: Handlers, sid: Sid)
    requires Looks(s, map[0 := 0], [RoomState(0, members)], threads) && threads.entering == multiset{0}
    requires |members| < MAX_PLAYERS
    ensures Enabled(s, Enter(0, sid))
    ensures var t := Apply(s, Enter(0, sid));
            && Looks(t, map[0 := 0], [RoomState(0, members + {sid})], threads.(entering := multiset{}))
            && t.nextId == s.nextId
  {
    assert multiset{0} - multiset{0} == multiset{};
  }

  lemma MakeFirst(s: State)
    requires Looks(s, map[], [], Nobody.(missed := map[0 := 1])) && s.nextId == 0
    ensures Enabled(s, LookAgain(0))
    ensures var t := Apply(s, LookAgain(0));
            Looks(t, map[0 := 0], [RoomState(0, {})], Idle.(entering := multiset{0})) && t.nextId == 0
  {
    assert multiset{} + multiset{0} == multiset{0};
  }

  lemma {:induction false} FirstEnters(sid: Sid) returns (run: seq<Action>)
    ensures Legal(Empty, run) && OneRoom(Run(Empty, run), {sid})
  {
    run := [];
    run := Extended(run, LookUp(0));
    MakeFirst(Run(Empty, run));
    run := Extended(run, LookAgain(0));
    EnterKnown(Run(Empty, run), {}, Idle.(entering := multiset{0}), sid);
    run := Extended(run, Enter(0, sid));
    assert {} + {sid} == {sid};
  }

  lemma {:induction false} OneMoreEnters(run: seq<Action>, members: set<Sid>, sid: Sid) returns (longer: seq<Action>)
    requires Legal(Empty, run) && OneRoom(Run(Empty, run), members) && |members| < MAX_PLAYERS
    ensures Legal(Empty, longer) && OneRoom(Run(Empty, longer), members + {sid})
  {
    LookUpKnown(Run(Empty, run), members, Idle);
    longer := Extended(run, LookUp(0));
    EnterKnown(Run(Empty, longer), members, Idle.(entering := multiset{0}), sid);
    longer := Extended(longer, Enter(0, sid));
  }

  lemma {:induction false} FourEnter() returns (run: seq<Action>)
    ensures Legal(Empty, run) && OneRoom(Run(Empty, run), {1, 2, 3, 4})
  {
    run := FirstEnters(1);
    run := OneMoreEnters(run, {1}, 2);
    assert {1} + {2} == {1, 2};
    run := OneMoreEnters(run, {1, 2}, 3);
    assert {1, 2} + {3} == {1, 2, 3};
    run := OneMoreEnters(run, {1, 2, 3}, 4);
    assert {1, 2, 3} + {4} == {1, 2, 3, 4};
  }

  lemma TurnAway(s: State, members: set<Sid>, sid: Sid)
    requires Looks(s, map[0 := 0], [RoomState(0, members)], Idle.(entering := multiset{0})) && s.nextId == 0
    requires |members| == MAX_PLAYERS
    ensures Enabled(s, Enter(0, sid))
    ensures var t := Apply(s, Enter(0, sid));
            Looks(t, map[0 := 0], [RoomState(0, members)], Idle.(turnedAway := 1)) && t.nextId == 0
  {
    assert multiset{0} - multiset{0} == multiset{};
  }

  /** The handler that was turned away displaces the room that was full. */
  lemma DisplaceFull(s: State, members: set<Sid>)
    requires Looks(s, map[0 := 0], [RoomState(0, members)], Idle.(turnedAway := 1)) && s.nextId == 0
    ensures Enabled(s, Create)
    ensures Looks(Apply(s, Create), map[0 := 1], [RoomState(0, members), RoomState(0, {})],
                  Idle.(placing := multiset{1}))
  {
    assert multiset{} + multiset{1} == multiset{1};
  }

  lemma PlaceNew(s: State, members: set<Sid>, sid: Sid)
    requires Looks(s, map[0 := 1], [RoomState(0, members), RoomState(0, {})], Idle.(placing := multiset{1}))
    ensures Enabled(s, Place(1, sid))
    ensures Looks(Apply(s, Place(1, sid)), map[0 := 1], [RoomState(0, members), RoomState(0, {sid})], Idle)
  {
    assert multiset{1} - multiset{1} == multiset{};
    assert {} + {sid} == {sid};
  }

  lemma {:induction false} FifthTurnedAway() returns (run: seq<Action>)
    ensures Legal(Empty, run) && Run(Empty, run).nextId == 0
    ensures Looks(Run(Empty, run), map[0 := 0], [RoomState(0, {1, 2, 3, 4})], Idle.(turnedAway := 1))
  {
    run := FourEnter();
    LookUpKnown(Run(Empty, run), {1, 2, 3, 4}, Idle);
    run := Extended(run, LookUp(0));
    TurnAway(Run(Empty, run), {1, 2, 3, 4}, 5);
    run := Extended(run, Enter(0, 5));
  }

  /** Four sessions enter map 0, and the fifth displaces their room: overflow ids start at 0, too. */
  lemma {:induction false} FifthDisplaces() returns (run: seq<Action>)
    ensures Legal(Empty, run)
    ensures var s := Run(Empty, run);
            && s.rooms == map[0 := 1] && s.objects == [RoomState(0, {1, 2, 3, 4}), RoomState(0, {5})]
            && Lost(s, 0) && Hands(s, 0) == 0
  {
    run := FifthTurnedAway();
    DisplaceFull(Run(Empty, run), {1, 2, 3, 4});
    run := Extended(run, Create);
    PlaceNew(Run(Empty, run), {1, 2, 3, 4}, 5);
    run := Extended(run, Place(1, 5));
  }

  /** The room of the first four is displaced, and the handler of the fifth has not entered the new one. */
  predicate FifthWaits(s: State, members: set<Sid>) {
    Looks(s, map[0 := 1], [RoomState(0, {1, 2, 3, 4}), RoomState(0, members)], Idle.(placing := multiset{1}))
  }

  lemma JoinNew(s: State, members: set<Sid>, sid: Sid)
    requires FifthWaits(s, members) && |members| < MAX_PLAYERS
    ensures var t := Apply(s, LookUp(0));
            Enabled(t, Enter(1, sid)) && FifthWaits(Apply(t, Enter(1, sid)), members + {sid})
  {
    var t := Apply(s, LookUp(0));
    assert multiset{} + multiset{1} == multiset{1};
    assert t.threads == Idle.(placing := multiset{1}, entering := multiset{1});
    assert multiset{1} - multiset{1} == multiset{};
  }

  lemma {:induction false} OneMoreJoins(run: seq<Action>, members: set<Sid>, sid: Sid) returns (longer: seq<Action>)
    requires Legal(Empty, run) && FifthWaits(Run(Empty, run), members) && |members| < MAX_PLAYERS
    ensures Legal(Empty, longer) && FifthWaits(Run(Empty, longer), members + {sid})
  {
    JoinNew(Run(Empty, run), members, sid);
    longer := Extended(run, LookUp(0));
    longer := Extended(longer, Enter(1, sid));
  }

  lemma {:induction false} OthersJoin() returns (run: seq<Action>)
    ensures Legal(Empty, run) && FifthWaits(Run(Empty, run), {6, 7, 8, 9})
  {
    run := FifthTurnedAway();
    DisplaceFull(Run(Empty, run), {1, 2, 3, 4});
    run := Extended(run, Create);
    run := OneMoreJoins(run, {}, 6);
    assert {} + {6} == {6};
    run := OneMoreJoins(run, {6}, 7);
    assert {6} + {7} == {6, 7};
    run := OneMoreJoins(run, {6, 7}, 8);
    assert {6, 7} + {8} == {6, 7, 8};
    run := OneMoreJoins(run, {6, 7, 8}, 9);
    assert {6, 7, 8} + {9} == {6, 7, 8, 9};
  }

  lemma PlaceFull(s: State, sid: Sid)
    requires FifthWaits(s, {6, 7, 8, 9})
    ensures Enabled(s, Place(1, sid))
    ensures Looks(Apply(s, Place(1, sid)), map[0 := 1], [RoomState(0, {1, 2, 3, 4}), RoomState(0, {6, 7, 8, 9})], Idle)
  {
    assert multiset{1} - multiset{1} == multiset{};
  }

  /** Four others look up map 0 in between and fill the new room, and the fifth session ends up in no room. */
  lemma {:induction false} FifthIsNowhere() returns (run: seq<Action>)
    ensures Legal(Empty, run + [Place(1, 5)])
    ensures Looks(Run(Empty, run + [Place(1, 5)]), map[0 := 1],
                  [RoomState(0, {1, 2, 3, 4}), RoomState(0, {6, 7, 8, 9})], Idle)
  {
    run := OthersJoin();
    PlaceFull(Run(Empty, run), 5);
    assert (run + [Place(1, 5)])[..|run|] == run;
  }

  /** One session leaves, and its handler finds the room empty. */
  lemma {:induction false} LastLeaves(s: State, sid: Sid)
    requires OneRoom(s, {sid})
    ensures var a, b := Find(0), Leave(0, sid);
            Enabled(Apply(s, a), b) && Enabled(Apply(Apply(s, a), b), Count(0))
            && Looks(Apply(Apply(Apply(s, a), b), Count(0)), map[0 := 0], [RoomState(0, {})],
                     Idle.(dropping := multiset{0}))
  {
    var t := Apply(s, Find(0));
    assert multiset{} + multiset{0} == multiset{0};
    assert Looks(t, map[0 := 0], [RoomState(0, {sid})], Idle.(leaving := multiset{0}));
    var u := Apply(t, Leave(0, sid));
    assert multiset{0} - multiset{0} == multiset{};
    assert {sid} - {sid} == {};
    assert Looks(u, map[0 := 0], [RoomState(0, {})], Idle.(counting := multiset{0}));
  }

  lemma {:induction false} CountedEmpty() returns (run: seq<Action>)
    ensures Legal(Empty, run)
    ensures Looks(Run(Empty, run), map[0 := 0], [RoomState(0, {})], Idle.(dropping := multiset{0}))
  {
    run := FirstEnters(1);
    LastLeaves(Run(Empty, run), 1);
    run := Extended(run, Find(0));
    run := Extended(run, Leave(0, 1));
    run := Extended(run, Count(0));
  }

  lemma {:induction false} EntersLate(s: State)
    requires Looks(s, map[0 := 0], [RoomState(0, {2})], Idle.(dropping := multiset{0}))
    ensures Enabled(s, Destroy(0))
    ensures var t := Apply(s, Destroy(0));
            t.rooms == map[] && t.objects == [RoomState(0, {2})] && Lost(t, 0) && Hands(t, 0) == 0
  {
  }

  /** The last session leaves and finds the room empty, another one enters, and the room is destroyed. */
  lemma {:induction false} LateEntryIsLost() returns (run: seq<Action>)
    ensures Legal(Empty, run)
    ensures var s := Run(Empty, run);
            s.rooms == map[] && s.objects == [RoomState(0, {2})] && Lost(s, 0) && Hands(s, 0) == 0
  {
    run := CountedEmpty();
    var dropping := Idle.(dropping := multiset{0});
    LookUpKnown(Run(Empty, run), {}, dropping);
    run := Extended(run, LookUp(0));
    EnterKnown(Run(Empty, run), {}, dropping.(entering := multiset{0}), 2);
    run := Extended(run, Enter(0, 2));
    assert {} + {2} == {2};
    EntersLate(Run(Empty, run));
    run := Extended(run, Destroy(0));
  }

  // ---------------------------------------------------------------------
  // Room, RoomManager and the two room handlers as objects
  // ---------------------------------------------------------------------

  class Room {
    const m_roomId: u32
    var m_sessions: set<Sid>

    constructor (roomId: u32)
      ensures m_roomId == roomId && m_sessions == {}
    {
      m_roomId, m_sessions := roomId, {};
    }

    /** Full means full, also for a session that is already inside. */
    method Enter(sid: Sid) returns (ok: bool)
      requires |m_sessions| <= MAX_PLAYERS
      modifies this
      ensures ok <==> |old(m_sessions)| < 4
      ensures m_sessions == if ok then old(m_sessions) + {sid} else old(m_sessions)
      ensures |m_sessions| <= MAX_PLAYERS
    {
      if |m_sessions| >= MAX_PLAYERS {
        return false;
      }
      m_sessions := m_sessions + {sid};
      return true;
    }

    method Leave(sid: Sid)
      requires |m_sessions| <= MAX_PLAYERS
      modifies this
      ensures m_sessions == old(m_sessions) - {sid} && |m_sessions| <= MAX_PLAYERS
    {
      Smaller(m_sessions - {sid}, m_sessions);
      m_sessions := m_sessions - {sid};
    }
  }

  class RoomManager {
    var m_rooms: map<u32, Room>
    var m_roomIdAllocator: u32

    ghost predicate Valid()
      reads this, m_rooms.Values
    {
      forall id :: id in m_rooms ==> m_rooms[id].m_roomId == id && |m_rooms[id].m_sessions| <= MAX_PLAYERS
    }

    constructor ()
      ensures Valid() && m_rooms == map[] && m_roomIdAllocator == 0
    {
      m_rooms, m_roomIdAllocator := map[], 0;
    }

    /** A new room under the next id; a room that was registered there loses its place. */
    method CreateRoom() returns (room: Room)
      requires Valid()
      modifies this
      ensures Valid() && fresh(room) && room.m_sessions == {} && room.m_roomId == old(m_roomIdAllocator)
      ensures m_rooms == old(m_rooms)[old(m_roomIdAllocator) := room]
      ensures m_roomIdAllocator == (old(m_roomIdAllocator) + 1) % 0x1_0000_0000
    {
      var roomId := m_roomIdAllocator;
      m_roomIdAllocator := (m_roomIdAllocator + 1) % 0x1_0000_0000;
      room := new Room(roomId);
      m_rooms := m_rooms[roomId := room];
    }

    method DestroyRoom(roomId: u32)
      requires Valid()
      modifies this`m_rooms
      ensures Valid() && m_rooms == old(m_rooms) - {roomId}
    {
      m_rooms := m_rooms - {roomId};
    }

    method GetRoom(roomId: u32) returns (room: Room?)
      ensures room == if roomId in m_rooms then m_rooms[roomId] else null
    {
      room := if roomId in m_rooms then m_rooms[roomId] else null;
    }

    /** The second lock region of GetOrCreateRoom: the map may have got its room in between. */
    method LookAgainOrCreate(mapId: u32) returns (room: Room)
      requires Valid()
      modifies this`m_rooms
      ensures Valid() && mapId in m_rooms && room == m_rooms[mapId]
      ensures mapId in old(m_rooms) ==> m_rooms == old(m_rooms)
      ensures mapId !in old(m_rooms) ==> fresh(room) && room.m_sessions == {} && m_rooms == old(m_rooms)[mapId := room]
    {
      if mapId in m_rooms {
        return m_rooms[mapId];
      }
      room := new Room(mapId);
      m_rooms := m_rooms[mapId := room];
    }

    /** The room registered for a map, made on the spot if there is none. */
    method GetOrCreateRoom(mapId: u32) returns (room: Room)
      requires Valid()
      modifies this`m_rooms
      ensures Valid() && mapId in m_rooms && room == m_rooms[mapId]
      ensures mapId in old(m_rooms) ==> m_rooms == old(m_rooms)
      ensures mapId !in old(m_rooms) ==> fresh(room) && room.m_sessions == {} && m_rooms == old(m_rooms)[mapId := room]
    {
      var found := GetRoom(mapId);
      if found != null {
        return found;
      }
      room := LookAgainOrCreate(mapId);
    }

    /** PacketHandler::OnEnterRoom: the room of the map if it has space, else a new one. */
    method OnEnterRoom(sid: Sid, mapId: u32) returns (room: Room)
      requires Valid()
      modifies this, m_rooms.Values
      ensures Valid() && room.m_roomId in m_rooms && m_rooms[room.m_roomId] == room && sid in room.m_sessions
      ensures mapId in old(m_rooms) && |old(m_rooms[mapId].m_sessions)| < 4 ==>
                room == old(m_rooms)[mapId] && m_rooms == old(m_rooms)
                && room.m_sessions == old(m_rooms[mapId].m_sessions) + {sid}
      ensures mapId in old(m_rooms) && |old(m_rooms[mapId].m_sessions)| == 4 ==>
                fresh(room) && room.m_sessions == {sid} && room.m_roomId == old(m_roomIdAllocator)
      ensures mapId !in old(m_rooms) ==> fresh(room) && room.m_sessions == {sid} && room.m_roomId == mapId
      ensures forall id :: id in old(m_rooms) && old(m_rooms)[id] != room ==>
                old(m_rooms)[id].m_sessions == old(m_rooms[id].m_sessions)
      ensures forall id :: id in old(m_rooms) && id != room.m_roomId ==>
                id in m_rooms && m_rooms[id] == old(m_rooms)[id]
    {
      room := GetOrCreateRoom(mapId);
      var ok := room.Enter(sid);
      if !ok {
        room := CreateRoom();
        ok := room.Enter(sid);
      }
    }

    /** PacketHandler::OnLeaveRoom: looks at the room of the map only, and drops it when it is empty. */
    method OnLeaveRoom(sid: Sid, mapId: u32)
      requires Valid()
      modifies this`m_rooms, m_rooms.Values
      ensures Valid()
      ensures mapId !in old(m_rooms) ==> m_rooms == old(m_rooms)
      ensures mapId in old(m_rooms) ==>
                && old(m_rooms)[mapId].m_sessions == old(m_rooms[mapId].m_sessions) - {sid}
                && m_rooms == if old(m_rooms[mapId].m_sessions) <= {sid} then old(m_rooms) - {mapId} else old(m_rooms)
      ensures forall id :: id in old(m_rooms) && id != mapId ==>
                old(m_rooms)[id].m_sessions == old(m_rooms[id].m_sessions)
    {
      var room := GetRoom(mapId);
      if room == null {
        return;
      }
      room.Leave(sid);
      if |room.m_sessions| == 0 {
        DestroyRoom(room.m_roomId);
      }
    }
  }
}
