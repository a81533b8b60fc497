/** A character's stats as the game server caches them and as MySQL keeps them. */
module CharacterStats {
  import opened Packets

  type Stat = p: Packet | p.CharacterStat? witness CharacterStat(0, 0, 0, 0, 0, 0, 0, 0)

  /** The columns UPDATE sets. */
  datatype Row = Row(level: u32, hpMax: u32, hp: u32, mpMax: u32, mp: u32, isAlive: u8, lastMapId: u32)

  function RowOf(s: Stat): Row {
    Row(s.level, s.hpMax, s.hp, s.mpMax, s.mp, s.isAlive, s.lastMapId)
  }
}

/**
 The write-behind cache as a transition system: game workers store character stats
 in Redis and mark them dirty, one flusher thread pops all marks, then reads each
 value, then writes each row of MySQL. A step is one call of RedisManager (all under
 its lock) or one UPDATE, so stores can fall between any two steps of a flush.

 MySQL holds the rows it was created with: the server only runs UPDATE on
 character_stat, and an UPDATE of a missing row succeeds without effect.
 */
module WriteBehind {
  import opened Bytes
  import opened CharacterStats
  import opened Packets

  /**
   The flusher thread: between flushes, about to read todo[0], or about to write a
   struct it has read. Version 0 stands for a struct that was never stored.
   */
  datatype Flusher =
    | Idle
    | Working(todo: seq<u64>)
    | Holding(stat: Stat, version: nat, todo: seq<u64>)

  datatype State = State(
    cache: map<u64, Stat>,         // character:stat:<id>
    dirty: set<u64>,               // dirty_characters
    rows: map<u64, Row>,           // character_stat
    flusher: Flusher,
    history: map<u64, seq<Stat>>,  // every value stored for an id; its n-th has version n
    flushed: map<u64, nat>         // the version of the row of an id, if a flush wrote it last and it has one
  )

  /**
   What Redis makes of SET followed by SADD. Without a reply to SET no SADD is sent,
   whether or not the value has been stored; the reply to SADD is not looked at.
   */
  datatype Reply = Refused | StoredUnanswered | Stored | StoredUnmarked

  /**
   What GET comes back with: the value of the key or nil, no reply at all, or an error.
   GetCharacterStat does not look for errors: it copies the text of the error over the
   struct, whose bytes then read as some stat.
   */
  datatype Got = Answer | NoReply | ErrorText(stat: Stat)

  datatype Action =
    | Set(stat: Stat, reply: Reply)          // OnCharacterStat
    | Forget(id: u64)                        // the key expires or is deleted
    | Pop(ids: seq<u64>, cleared: bool)      // SMEMBERS lists the marks; DEL clears them, or fails unnoticed
    | PopFails                               // SMEMBERS fails, the flush has nothing to do
    | Read(got: Got)
    | Write(ok: bool)                        // UpdateCharacterStat
    | Finish

  function History(s: State, id: u64): seq<Stat> {
    if id in s.history then s.history[id] else []
  }

  function Version(s: State, id: u64): nat {
    |History(s, id)|
  }

  function Todo(s: State): seq<u64> {
    if s.flusher.Idle? then [] else s.flusher.todo
  }

  ghost predicate Lists(ids: seq<u64>, marks: set<u64>) {
    && (forall id :: id in ids <==> id in marks)
    && (forall i, j :: 0 <= i < j < |ids| ==> ids[i] != ids[j])
  }

  ghost predicate Enabled(s: State, a: Action) {
    match a
    case Set(_, _) => true
    case Forget(_) => true
    case Pop(ids, _) => s.flusher.Idle? && Lists(ids, s.dirty)
    case PopFails => s.flusher.Idle?
    case Read(_) => s.flusher.Working? && s.flusher.todo != []
    case Write(_) => s.flusher.Holding?
    case Finish => s.flusher.Working? && s.flusher.todo == []
  }

  ghost function Apply(s: State, a: Action): State
    requires Enabled(s, a)
  {
    match a
    case Set(stat, reply) =>
      var id := stat.characterId;
      if reply == Refused then s
      else s.(cache := s.cache[id := stat], history := s.history[id := History(s, id) + [stat]],
              dirty := if reply == Stored then s.dirty + {id} else s.dirty)
    case Forget(id) => s.(cache := s.cache - {id})
    case Pop(ids, cleared) => s.(flusher := Working(ids), dirty := if cleared then {} else s.dirty)
    case PopFails => s.(flusher := Working([]))
    case Read(got) =>
      var id, todo := s.flusher.todo[0], s.flusher.todo[1..];
      if got.ErrorText? then s.(flusher := Holding(got.stat, 0, todo))
      else if got.Answer? && id in s.cache then s.(flusher := Holding(s.cache[id], Version(s, id), todo))
      else s.(flusher := Working(todo))
    case Write(ok) =>
      var id := s.flusher.stat.characterId;
      var t := s.(flusher := Working(s.flusher.todo));
      if ok && id in s.rows then
        t.(rows := s.rows[id := RowOf(s.flusher.stat)],
           flushed := if s.flusher.version == 0 then s.flushed - {id} else s.flushed[id := s.flusher.version])
      else t
    case Finish => s.(flusher := Idle)
  }

  ghost predicate Legal(s: State, run: seq<Action>)
    decreases |run|, 0
  {
    run == [] || (Legal(s, run[..|run| - 1]) && Enabled(Run(s, run[..|run| - 1]), run[|run| - 1]))
  }

  ghost function Run(s: State, run: seq<Action>): State
    requires Legal(s, run)
    decreases |run|, 1
  {
    if run == [] then s else Apply(Run(s, run[..|run| - 1]), run[|run| - 1])
  }

  // ---------------------------------------------------------------------
  // Versions
  // ---------------------------------------------------------------------

  predicate AllOf(h: seq<Stat>, id: u64) {
    forall i :: 0 <= i < |h| ==> h[i].characterId == id
  }

  /** Where values have versions, they were stored for the same id, and a row is not ahead of the flusher. */
  ghost predicate IdInv(s: State, id: u64) {
    var h := History(s, id);
    && AllOf(h, id)
    && (id in s.cache ==> h != [] && s.cache[id] == h[|h| - 1])
    && (id in s.flushed ==> 1 <= s.flushed[id] <= |h| && id in s.rows && s.rows[id] == RowOf(h[s.flushed[id] - 1]))
    && (HeldVersion(s, id) > 0 ==>
          && HeldVersion(s, id) <= |h| && s.flusher.stat == h[HeldVersion(s, id) - 1]
          && (id in s.flushed ==> s.flushed[id] <= HeldVersion(s, id)))
  }

  /** The version of id the flusher is about to write, 0 if it is not about to write one. */
  function HeldVersion(s: State, id: u64): nat {
    if s.flusher.Holding? && s.flusher.stat.characterId == id then s.flusher.version else 0
  }

  ghost predicate Inv(s: State) {
    forall id {:trigger IdInv(s, id)} :: IdInv(s, id)
  }

  lemma SetKeepsIdInv(s: State, stat: Stat, reply: Reply, id: u64)
    requires IdInv(s, id)
    ensures IdInv(Apply(s, Set(stat, reply)), id)
  {
  }

  lemma ReadKeepsIdInv(s: State, got: Got, id: u64)
    requires Enabled(s, Read(got)) && IdInv(s, id) && IdInv(s, s.flusher.todo[0])
    ensures IdInv(Apply(s, Read(got)), id)
  {
  }

  lemma WriteKeepsIdInv(s: State, ok: bool, id: u64)
    requires Enabled(s, Write(ok)) && IdInv(s, id)
    ensures IdInv(Apply(s, Write(ok)), id)
  {
  }

  lemma StepKeepsIdInv(s: State, a: Action, id: u64)
    requires Enabled(s, a) && IdInv(s, id)
    requires a.Read? ==> IdInv(s, s.flusher.todo[0])
    ensures IdInv(Apply(s, a), id)
  {
    match a
    case Set(stat, reply) => SetKeepsIdInv(s, stat, reply, id);
    case Forget(_) =>
    case Pop(_, _) =>
    case PopFails =>
    case Read(got) => ReadKeepsIdInv(s, got, id);
    case Write(ok) => WriteKeepsIdInv(s, ok, id);
    case Finish =>
  }

  lemma StepKeepsInv(s: State, a: Action)
    requires Inv(s) && Enabled(s, a)
    ensures Inv(Apply(s, a))
  {
    if a.Read? {
      assert IdInv(s, s.flusher.todo[0]);
    }
    forall id
      ensures IdInv(Apply(s, a), id)
    {
      assert IdInv(s, id);
      StepKeepsIdInv(s, a, id);
    }
  }

  lemma {:induction false} RunKeepsInv(s: State, run: seq<Action>)
    requires Inv(s) && Legal(s, run)
    ensures Inv(Run(s, run))
    decreases |run|
  {
    if run != [] {
      RunKeepsInv(s, run[..|run| - 1]);
      StepKeepsInv(Run(s, run[..|run| - 1]), run[|run| - 1]);
    }
  }

  /**
   A server that has just started: Redis and MySQL hold whatever an earlier life left
   there, under the right keys; the cached values count as version 1.
   */
  ghost predicate Initial(s: State) {
    && s.flusher == Idle && s.flushed == map[]
    && (forall id :: id in s.cache ==> s.cache[id].characterId == id)
    && s.history.Keys == s.cache.Keys
    && (forall id :: id in s.cache ==> s.history[id] == [s.cache[id]])
  }

  lemma InitialInv(s: State)
    requires Initial(s)
    ensures Inv(s)
  {
    forall id
      ensures IdInv(s, id)
    {
      if id in s.cache {
        assert s.history[id] == [s.cache[id]];
      }
    }
  }

  ghost predicate Reachable(s: State) {
    exists start, run :: Initial(start) && Leads(start, run, s)
  }

  ghost predicate Leads(start: State, run: seq<Action>, end: State) {
    Legal(start, run) && Run(start, run) == end
  }

  lemma {:induction false} ReachableInv(s: State)
    requires Reachable(s)
    ensures Inv(s)
  {
    var start, run :| Initial(start) && Leads(start, run, s);
    InitialInv(start);
    RunKeepsInv(start, run);
  }

  /** The flusher overwrites the row of id with the text of an error. */
  ghost predicate WritesError(s: State, a: Action, id: u64)
    requires Enabled(s, a)
  {
    a == Write(true) && s.flusher.version == 0 && s.flusher.stat.characterId == id
  }

  ghost predicate NoErrorWritten(s: State, run: seq<Action>, id: u64)
    requires Legal(s, run)
    decreases |run|
  {
    run != [] ==>
      NoErrorWritten(s, run[..|run| - 1], id) && !WritesError(Run(s, run[..|run| - 1]), run[|run| - 1], id)
  }

  /**
   A row never goes back to an older version, whatever the setters and the flusher do in
   between, and holds a value that was stored for its id, unless the text of an error is
   written over it.
   */
  lemma {:induction false} RowsNeverGoBack(s: State, run: seq<Action>, id: u64)
    requires Reachable(s) && Legal(s, run) && id in s.flushed && NoErrorWritten(s, run, id)
    ensures var t := Run(s, run);
            && id in t.flushed && s.flushed[id] <= t.flushed[id] && 1 <= t.flushed[id] <= Version(t, id)
            && id in t.rows && t.rows[id] == RowOf(History(t, id)[t.flushed[id] - 1])
            && History(t, id)[t.flushed[id] - 1].characterId == id
  {
    ReachableInv(s);
    FlushedGrows(s, run, id);
    RunKeepsInv(s, run);
    assert IdInv(Run(s, run), id);
  }

  /** Exactly that step takes the version of a row away. */
  lemma FlushedStep(s: State, a: Action, id: u64)
    requires IdInv(s, id) && Enabled(s, a) && id in s.flushed
    ensures var t := Apply(s, a);
            id in t.flushed && s.flushed[id] <= t.flushed[id] <==> !WritesError(s, a, id)
  {
  }

  lemma {:induction false} FlushedGrows(s: State, run: seq<Action>, id: u64)
    requires Inv(s) && Legal(s, run) && id in s.flushed && NoErrorWritten(s, run, id)
    ensures id in Run(s, run).flushed && s.flushed[id] <= Run(s, run).flushed[id]
    decreases |run|
  {
    if run != [] {
      var before := run[..|run| - 1];
      FlushedGrows(s, before, id);
      RunKeepsInv(s, before);
      assert IdInv(Run(s, before), id);
      FlushedStep(Run(s, before), run[|run| - 1], id);
    }
  }

  /** The other case exists: an error reply to GET ends up in a row, as a value nobody has stored. */
  lemma ErrorReachesRow(s: State, id: u64, stat: Stat)
    requires Initial(s) && s.dirty == {id} && stat.characterId in s.rows
    ensures var run := [Pop([id], true), Read(ErrorText(stat)), Write(true)];
            Legal(s, run) &&
            var t := Run(s, run);
            t.rows == s.rows[stat.characterId := RowOf(stat)] && t.history == s.history
  {
    var r0: seq<Action> := [];
    Extend(s, r0, Pop([id], true));
    var r1 := r0 + [Pop([id], true)];
    Extend(s, r1, Read(ErrorText(stat)));
    var r2 := r1 + [Read(ErrorText(stat))];
    Extend(s, r2, Write(true));
    assert r2 + [Write(true)] == [Pop([id], true), Read(ErrorText(stat)), Write(true)];
  }

  // ---------------------------------------------------------------------
  // Agreement
  // ---------------------------------------------------------------------

  /** The row of id holds the value stored last for id. */
  predicate InSync(s: State, id: u64) {
    && History(s, id) != [] && id in s.rows
    && s.rows[id] == RowOf(History(s, id)[|History(s, id)| - 1])
  }

  /** Someone will still bring the row of id up to date, or it is. */
  predicate Covered(s: State, id: u64) {
    || History(s, id) == []
    || InSync(s, id)
    || id in s.dirty
    || id in Todo(s)
    || (HeldVersion(s, id) == Version(s, id) && id in s.rows)
  }

  /** A new value without a mark. */
  predicate StoredOnly(reply: Reply) {
    reply == StoredUnmarked || reply == StoredUnanswered
  }

  /** The step drops the last chance of the newest value of id to reach its row. */
  ghost predicate LosesUpdate(s: State, a: Action, id: u64)
    requires Enabled(s, a)
  {
    match a
    case Set(stat, reply) =>  // SADD failed, or was not sent
      && StoredOnly(reply) && stat.characterId == id && id !in s.dirty && id !in Todo(s)
      && !(id in s.rows && s.rows[id] == RowOf(stat))
    case Read(got) =>         // GET failed, the key is gone, or there is no row to write
      && Version(s, id) > 0
      && s.flusher.todo[0] == id && id !in s.dirty && id !in s.flusher.todo[1..] && !InSync(s, id)
      && (!got.Answer? || id !in s.cache || id !in s.rows)
    case Write(ok) =>         // the UPDATE failed, or wrote an outdated value or an error
      && Version(s, id) > 0
      && s.flusher.stat.characterId == id && id !in s.dirty && id !in s.flusher.todo
      && (if ok && id in s.rows then RowOf(s.flusher.stat) != RowOf(History(s, id)[Version(s, id) - 1])
          else !InSync(s, id))
    case _ => false
  }

  /** The step gives the newest value of id a chance again that it did not have. */
  ghost predicate Recovers(s: State, a: Action, id: u64)
    requires Enabled(s, a)
  {
    match a
    case Set(stat, reply) =>  // the next value is marked, or is what the row happens to hold
      && stat.characterId == id
      && (reply == Stored || (StoredOnly(reply) && id in s.rows && s.rows[id] == RowOf(stat)))
    case Write(ok) =>         // an outdated value with the same columns
      && ok && Version(s, id) > 0 && s.flusher.stat.characterId == id && id in s.rows
      && RowOf(s.flusher.stat) == RowOf(History(s, id)[Version(s, id) - 1])
    case _ => false
  }

  lemma SetCoverage(s: State, stat: Stat, reply: Reply, id: u64)
    requires IdInv(s, id)
    ensures var a := Set(stat, reply);
            Covered(Apply(s, a), id) <==> if Covered(s, id) then !LosesUpdate(s, a, id) else Recovers(s, a, id)
  {
  }

  lemma PopCoverage(s: State, ids: seq<u64>, cleared: bool, id: u64)
    requires Enabled(s, Pop(ids, cleared))
    ensures Covered(Apply(s, Pop(ids, cleared)), id) <==> Covered(s, id)
  {
    assert id in s.dirty <==> id in ids;
  }

  lemma ReadCoverage(s: State, got: Got, id: u64)
    requires IdInv(s, id) && Enabled(s, Read(got)) && Version(s, id) > 0
    requires IdInv(s, s.flusher.todo[0])
    ensures Covered(Apply(s, Read(got)), id) <==> Covered(s, id) && !LosesUpdate(s, Read(got), id)
  {
    HeadTail(s.flusher.todo);
    assert id in s.flusher.todo <==> id == s.flusher.todo[0] || id in s.flusher.todo[1..];
  }

  lemma WriteCoverage(s: State, ok: bool, id: u64)
    requires IdInv(s, id) && Enabled(s, Write(ok)) && Version(s, id) > 0
    ensures Covered(Apply(s, Write(ok)), id) <==>
              if Covered(s, id) then !LosesUpdate(s, Write(ok), id) else Recovers(s, Write(ok), id)
  {
  }

  /**
   An update is lost by exactly these steps, and by no interleaving of the others; one
   that has been lost gets another chance by exactly the steps that recover.
   */
  lemma StepCoverage(s: State, a: Action, id: u64)
    requires Inv(s) && Enabled(s, a)
    ensures Covered(Apply(s, a), id) <==> if Covered(s, id) then !LosesUpdate(s, a, id) else Recovers(s, a, id)
  {
    assert IdInv(s, id);
    match a
    case Read(got) =>
      assert IdInv(s, s.flusher.todo[0]);
      if Version(s, id) > 0 {
        ReadCoverage(s, got, id);
      }
    case Write(ok) =>
      if Version(s, id) > 0 {
        WriteCoverage(s, ok, id);
      }
    case Pop(ids, cleared) => PopCoverage(s, ids, cleared, id);
    case Set(stat, reply) => SetCoverage(s, stat, reply, id);
    case Forget(_) =>
    case PopFails =>
    case Finish =>
  }

  /**
   So whenever an update is out of everybody's sight, one of these steps has lost it, and
   nothing since has recovered it.
   */
  lemma {:induction false} LossExplained(s: State, run: seq<Action>, id: u64) returns (k: nat)
    requires Inv(s) && Legal(s, run) && Covered(s, id) && !Covered(Run(s, run), id)
    ensures k < |run| && Legal(s, run[..k]) && Enabled(Run(s, run[..k]), run[k])
    ensures Covered(Run(s, run[..k]), id) && LosesUpdate(Run(s, run[..k]), run[k], id)
    ensures forall i :: k < i <= |run| ==> Legal(s, run[..i]) && !Covered(Run(s, run[..i]), id)
    decreases |run|
  {
    var before := run[..|run| - 1];
    RunKeepsInv(s, before);
    assert run[..|run|] == run;
    if Covered(Run(s, before), id) {
      k := |run| - 1;
      StepCoverage(Run(s, before), run[k], id);
    } else {
      k := LossExplained(s, before, id);
      forall i | 0 <= i < |run|
        ensures before[..i] == run[..i]
      {
      }
    }
  }

  /** Reads and writes for id work, and its cached value stays. */
  ghost predicate Undisturbed(s: State, a: Action, id: u64)
    requires Enabled(s, a)
  {
    match a
    case Forget(other) => other != id
    case Read(got) => (s.flusher.todo[0] == id ==> got.Answer?) && (got.ErrorText? ==> got.stat.characterId != id)
    case Write(ok) => s.flusher.stat.characterId == id ==> ok
    case _ => true
  }

  /** And every value stored for it is marked. */
  ghost predicate Harmless(s: State, a: Action, id: u64)
    requires Enabled(s, a)
  {
    Undisturbed(s, a, id) && (a.Set? && a.stat.characterId == id ==> !StoredOnly(a.reply))
  }

  ghost predicate AllHarmless(s: State, run: seq<Action>, id: u64)
    requires Legal(s, run)
    decreases |run|
  {
    run != [] ==>
      AllHarmless(s, run[..|run| - 1], id) && Harmless(Run(s, run[..|run| - 1]), run[|run| - 1], id)
  }

  predicate Settled(s: State, id: u64) {
    && id in s.rows && Covered(s, id)
    && (History(s, id) != [] ==> id in s.cache)
    && (0 < HeldVersion(s, id) < Version(s, id) ==> id in s.dirty)
    && (s.flusher.Holding? && s.flusher.stat.characterId == id ==> s.flusher.version > 0)
  }

  lemma HarmlessStep(s: State, a: Action, id: u64)
    requires Inv(s) && Enabled(s, a) && Settled(s, id) && Harmless(s, a, id)
    ensures Settled(Apply(s, a), id)
  {
    assert IdInv(s, id);
    if a.Read? {
      assert IdInv(s, s.flusher.todo[0]);
    }
    StepCoverage(s, a, id);
  }

  /**
   Agreement: over all interleavings of setters and flushes without these faults, a
   cached value that differs from its row is marked dirty, popped but not yet read, or
   held by the flusher in its current version. What fails for other ids does not matter.
   */
  lemma {:induction false} Agreement(s: State, run: seq<Action>, id: u64)
    requires Inv(s) && Legal(s, run) && Settled(s, id) && AllHarmless(s, run, id)
    ensures Settled(Run(s, run), id)
    ensures var t := Run(s, run);
            id in t.cache && t.rows[id] != RowOf(t.cache[id]) ==>
              || id in t.dirty
              || id in Todo(t)
              || (t.flusher.Holding? && HeldVersion(t, id) == Version(t, id) && t.flusher.stat == t.cache[id])
    decreases |run|
  {
    RunKeepsInv(s, run);
    assert IdInv(Run(s, run), id);
    if run != [] {
      var before := run[..|run| - 1];
      Agreement(s, before, id);
      RunKeepsInv(s, before);
      HarmlessStep(Run(s, before), run[|run| - 1], id);
    }
  }

  /** So between flushes a row that is not marked is up to date. */
  lemma {:induction false} QuietMeansEqual(s: State, run: seq<Action>, id: u64)
    requires Inv(s) && Legal(s, run) && Settled(s, id) && AllHarmless(s, run, id)
    ensures var t := Run(s, run);
            t.flusher.Idle? && id !in t.dirty && id in t.cache ==>
              id in t.rows && t.rows[id] == RowOf(t.cache[id])
  {
    Agreement(s, run, id);
    RunKeepsInv(s, run);
    assert IdInv(Run(s, run), id);
  }

  // ---------------------------------------------------------------------
  // What one flush achieves
  // ---------------------------------------------------------------------

  ghost predicate AllUndisturbed(s: State, run: seq<Action>, id: u64)
    requires Legal(s, run)
    decreases |run|
  {
    run != [] ==>
      AllUndisturbed(s, run[..|run| - 1], id) && Undisturbed(Run(s, run[..|run| - 1]), run[|run| - 1], id)
  }

  /** Version v of id, or a newer one, is going to be read, is about to be written, or has been written. */
  predicate OnItsWay(s: State, id: u64, v: nat) {
    && id in s.rows && id in s.cache && v <= Version(s, id)
    && (id in Todo(s) || HeldVersion(s, id) >= v || (id in s.flushed && s.flushed[id] >= v))
    && (s.flusher.Holding? && s.flusher.stat.characterId == id ==> s.flusher.version > 0)
  }

  lemma OnItsWayStep(s: State, a: Action, id: u64, v: nat)
    requires Inv(s) && Enabled(s, a) && Undisturbed(s, a, id) && v > 0 && OnItsWay(s, id, v)
    ensures OnItsWay(Apply(s, a), id, v)
  {
    assert IdInv(s, id);
    if a.Read? {
      assert IdInv(s, s.flusher.todo[0]);
      HeadTail(s.flusher.todo);
      assert id in s.flusher.todo <==> id == s.flusher.todo[0] || id in s.flusher.todo[1..];
    }
  }

  lemma {:induction false} StaysOnItsWay(s: State, run: seq<Action>, id: u64, v: nat)
    requires Inv(s) && Legal(s, run) && AllUndisturbed(s, run, id) && v > 0 && OnItsWay(s, id, v)
    ensures OnItsWay(Run(s, run), id, v)
    decreases |run|
  {
    if run != [] {
      var before := run[..|run| - 1];
      StaysOnItsWay(s, before, id, v);
      RunKeepsInv(s, before);
      OnItsWayStep(Run(s, before), run[|run| - 1], id, v);
    }
  }

  /**
   A flush writes what it has popped, or something newer, whatever is stored meanwhile:
   if id is marked, cached and has a row when the flush begins, and its GET and UPDATE
   work, then its row holds that version or a later one once the flusher is idle again.
   */
  lemma {:induction false} FlushDelivers(s: State, ids: seq<u64>, cleared: bool, run: seq<Action>, id: u64)
    requires Inv(s) && Enabled(s, Pop(ids, cleared)) && id in s.dirty && id in s.cache && id in s.rows
    requires Legal(Apply(s, Pop(ids, cleared)), run) && AllUndisturbed(Apply(s, Pop(ids, cleared)), run, id)
    ensures var t := Run(Apply(s, Pop(ids, cleared)), run);
            t.flusher.Idle? ==>
              && id in t.flushed && 0 < Version(s, id) <= t.flushed[id] <= Version(t, id)
              && id in t.rows && t.rows[id] == RowOf(History(t, id)[t.flushed[id] - 1])
  {
    assert IdInv(s, id);
    var popped := Apply(s, Pop(ids, cleared));
    StepKeepsInv(s, Pop(ids, cleared));
    StaysOnItsWay(popped, run, id, Version(s, id));
    RunKeepsInv(popped, run);
    assert IdInv(Run(popped, run), id);
  }

  /** A failed UPDATE is not retried: the mark is gone, and the row keeps the old value. */
  lemma FailedUpdateIsLost(s: State, stat: Stat)
    requires Initial(s) && s.dirty == {} && stat.characterId in s.rows
    requires s.rows[stat.characterId] != RowOf(stat)
    ensures var run := [Set(stat, Stored), Pop([stat.characterId], true), Read(Answer), Write(false), Finish];
            Legal(s, run) &&
            var t := Run(s, run);
               && t.flusher == Idle && t.dirty == {}
               && stat.characterId in t.cache && stat.characterId in t.rows
               && t.rows[stat.characterId] != RowOf(t.cache[stat.characterId])
  {
    var id := stat.characterId;
    var r0: seq<Action> := [];
    Extend(s, r0, Set(stat, Stored));
    var r1 := r0 + [Set(stat, Stored)];
    Extend(s, r1, Pop([id], true));
    var r2 := r1 + [Pop([id], true)];
    Extend(s, r2, Read(Answer));
    var r3 := r2 + [Read(Answer)];
    Extend(s, r3, Write(false));
    var r4 := r3 + [Write(false)];
    Extend(s, r4, Finish);
    assert r4 + [Finish] == [Set(stat, Stored), Pop([id], true), Read(Answer), Write(false), Finish];
  }

  /** Nor is a GET without a reply, although key and row are there. */
  lemma LostReplyIsLost(s: State, stat: Stat)
    requires Initial(s) && s.dirty == {} && stat.characterId in s.rows
    requires s.rows[stat.characterId] != RowOf(stat)
    ensures var run := [Set(stat, Stored), Pop([stat.characterId], true), Read(NoReply), Finish];
            Legal(s, run) &&
            var t := Run(s, run);
               && t.flusher == Idle && t.dirty == {}
               && stat.characterId in t.cache && stat.characterId in t.rows
               && t.rows[stat.characterId] != RowOf(t.cache[stat.characterId])
  {
    var id := stat.characterId;
    var r0: seq<Action> := [];
    Extend(s, r0, Set(stat, Stored));
    var r1 := r0 + [Set(stat, Stored)];
    Extend(s, r1, Pop([id], true));
    var r2 := r1 + [Pop([id], true)];
    Extend(s, r2, Read(NoReply));
    var r3 := r2 + [Read(NoReply)];
    Extend(s, r3, Finish);
    assert r3 + [Finish] == [Set(stat, Stored), Pop([id], true), Read(NoReply), Finish];
  }

  lemma Extend(s: State, run: seq<Action>, a: Action)
    requires Legal(s, run) && Enabled(Run(s, run), a)
    ensures Legal(s, run + [a]) && Run(s, run + [a]) == Apply(Run(s, run), a)
  {
    assert (run + [a])[..|run|] == run;
  }

  lemma RunOne(s: State, a: Action)
    requires Enabled(s, a)
    ensures Leads(s, [a], Apply(s, a))
  {
    Extend(s, [], a);
    assert [] + [a] == [a];
  }

  lemma {:induction false} RunAppend(s: State, run: seq<Action>, more: seq<Action>)
    requires Legal(s, run) && Legal(Run(s, run), more)
    ensures Leads(s, run + more, Run(Run(s, run), more))
    decreases |more|
  {
    if more == [] {
      assert run + more == run;
    } else {
      var most, last := more[..|more| - 1], more[|more| - 1];
      RunAppend(s, run, most);
      Extend(s, run + most, last);
      assert (run + most) + [last] == run + more;
    }
  }
}
