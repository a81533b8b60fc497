/**
 RedisManager on the keys and bytes Redis really holds, and SyncWorker::FlushAll on
 top of it. Ids become decimal strings and stats become the 37 bytes of their struct;
 the contracts are about ids and stats again, because both conversions can be undone.
 What Redis and MySQL answer are parameters. A store and a flush take the steps of
 WriteBehind, so its theorems are about these objects.
 */
module Cache {
  import opened Bytes
  import opened CharacterStats
  import opened Packets
  import opened DbPool
  import WriteBehind

  // ---------------------------------------------------------------------
  // std::to_string and std::stoull
  // ---------------------------------------------------------------------

  function ToString(n: nat): (s: string) {
    if n < 10 then [Digit(n)] else ToString(n / 10) + [Digit(n % 10)]
  }

  function Digit(d: nat): char
    requires d < 10
  {
    ('0' as int + d) as char
  }

  function StoUll(s: string): int {
    if s == "" then 0 else 10 * StoUll(s[..|s| - 1]) + (s[|s| - 1] as int - '0' as int)
  }

  lemma {:induction false} StoUllToString(n: nat)
    ensures StoUll(ToString(n)) == n
  {
    if n < 10 {
      assert ToString(n)[..0] == "";
    } else {
      StoUllToString(n / 10);
      assert ToString(n)[..|ToString(n)| - 1] == ToString(n / 10);
    }
  }

  function Pow10(i: nat): (p: nat)
    ensures p > 0
  {
    if i == 0 then 1 else 10 * Pow10(i - 1)
  }

  /** Decimal digits, the most significant first. */
  lemma {:induction false} ToStringDigits(n: nat, i: nat)
    requires i < |ToString(n)|
    ensures ToString(n)[|ToString(n)| - 1 - i] as int == '0' as int + n / Pow10(i) % 10
  {
    if n >= 10 {
      InitLast(ToString(n));
      if i > 0 {
        ToStringDigits(n / 10, i - 1);
        DivTwice(n, 10, Pow10(i - 1));
      }
    }
  }

  lemma {:induction false} NoLeadingZero(n: nat)
    ensures |ToString(n)| > 0 && (n > 0 ==> ToString(n)[0] != '0')
  {
    if n >= 10 {
      NoLeadingZero(n / 10);
    }
  }

  lemma ToStringExample()
    ensures ToString(0) == "0" && ToString(120) == "120"
  {
    assert ToString(1) == "1";
    assert ToString(12) == "12";
  }

  /** How an id is written in the set dirty_characters. */
  function Name(id: u64): string {
    ToString(id)
  }

  function StatKey(id: u64): string {
    "character:stat:" + ToString(id)
  }

  /** Different characters never share a key. */
  lemma {:induction false} StatKeyInjective(id: u64, other: u64)
    requires StatKey(id) == StatKey(other)
    ensures id == other
  {
    var n := |"character:stat:"|;
    assert StatKey(id)[n..] == ToString(id) && StatKey(other)[n..] == ToString(other);
    StoUllToString(id);
    StoUllToString(other);
  }

  // ---------------------------------------------------------------------
  // The stored struct
  // ---------------------------------------------------------------------

  /** memcpy of the reply into a PKT_CharacterStat. */
  function StatOf(bytes: Buffer): Stat
    requires |bytes| >= StructSize(CHARACTER_STAT)
  {
    StructOf(1003, bytes)
  }

  function Stored(stat: Stat): Buffer {
    Encode(stat)
  }

  lemma {:induction false} StoredStat(stat: Stat)
    ensures |Stored(stat)| == StructSize(CHARACTER_STAT) && StatOf(Stored(stat)) == stat
  {
    StructReadsBack(stat);
  }

  // ---------------------------------------------------------------------
  // RedisManager
  // ---------------------------------------------------------------------

  /**
   What memcpy copies over the struct when the reply is an error: its text and, if that
   is shorter than the struct, whatever lies behind it in memory.
   */
  type ErrorBytes = t: Buffer | |t| >= 37 witness seq(37, _ => 0)

  /** How GET is answered: by the value or nil, not at all, or with an error. */
  datatype GetReply = Answered | NoReply | Error(text: ErrorBytes)

  lemma ErrorIsLongEnough(text: ErrorBytes)
    ensures |text| >= StructSize(CHARACTER_STAT)
  {
    StructSizes();
  }

  lemma ErrorBytesStay(text: ErrorBytes)
    requires |text| >= StructSize(CHARACTER_STAT)
    ensures |Encode(StatOf(text))| == 37 && Encode(StatOf(text))[4..] == text[4..37]
  {
    StructSizes();
    CastKeepsBytes(1003, text);
  }

  ghost function GotOf(reply: GetReply): WriteBehind.Got {
    match reply
    case Answered => WriteBehind.Answer
    case NoReply => WriteBehind.NoReply
    case Error(text) =>
      ErrorIsLongEnough(text);
      WriteBehind.ErrorText(StatOf(text))
  }

  ghost predicate Injective(key: u64 -> string) {
    forall id, other :: key(id) == key(other) ==> id == other
  }

  lemma StatKeysInjective()
    ensures Injective(StatKey)
  {
    forall id, other | StatKey(id) == StatKey(other)
      ensures id == other
    {
      StatKeyInjective(id, other);
    }
  }

  /** The keys of Redis hold exactly the values of a map of ids, each under its key and encoded. */
  ghost predicate Represents<V>(key: u64 -> string, code: V -> Buffer,
                                store: map<string, Buffer>, values: map<u64, V>) {
    && (forall k :: k in store ==> exists id :: id in values && k == key(id))
    && (forall id :: id in values ==> key(id) in store && store[key(id)] == code(values[id]))
  }

  lemma OwnerOf<V>(key: u64 -> string, code: V -> Buffer, store: map<string, Buffer>, values: map<u64, V>, k: string)
    returns (id: u64)
    requires Represents(key, code, store, values) && k in store
    ensures id in values && k == key(id)
  {
    id :| id in values && k == key(id);
  }

  lemma RepresentsSet<V>(key: u64 -> string, code: V -> Buffer, store: map<string, Buffer>, values: map<u64, V>,
                         id: u64, v: V)
    requires Injective(key) && Represents(key, code, store, values)
    ensures Represents(key, code, store[key(id) := code(v)], values[id := v])
  {
    var store', values' := store[key(id) := code(v)], values[id := v];
    forall k | k in store'
      ensures exists other :: other in values' && k == key(other)
    {
      if k == key(id) {
        assert id in values';
      } else {
        var other :| other in values && k == key(other);
        assert other in values';
      }
    }
  }

  lemma RepresentsDel<V>(key: u64 -> string, code: V -> Buffer, store: map<string, Buffer>, values: map<u64, V>,
                         id: u64)
    requires Injective(key) && Represents(key, code, store, values)
    ensures Represents(key, code, store - {key(id)}, values - {id})
  {
    forall k | k in store - {key(id)}
      ensures exists other :: other in values - {id} && k == key(other)
    {
      var other :| other in values && k == key(other);
      assert other in values - {id};
    }
  }

  /** The members of the set dirty_characters. */
  ghost predicate Marks(name: u64 -> string, members: set<string>, dirty: set<u64>) {
    && (forall m :: m in members ==> exists id :: id in dirty && m == name(id))
    && (forall id :: id in dirty ==> name(id) in members)
  }

  lemma MarksAdd(name: u64 -> string, members: set<string>, dirty: set<u64>, id: u64)
    requires Marks(name, members, dirty)
    ensures Marks(name, members + {name(id)}, dirty + {id})
  {
    forall m | m in members + {name(id)}
      ensures exists other :: other in dirty + {id} && m == name(other)
    {
      if m in members {
        var other :| other in dirty && m == name(other);
        assert other in dirty + {id};
      } else {
        assert id in dirty + {id};
      }
    }
  }

  lemma IdOfMark(name: u64 -> string, members: set<string>, dirty: set<u64>, m: string) returns (id: u64)
    requires Marks(name, members, dirty) && m in members
    ensures id in dirty && m == name(id)
  {
    id :| id in dirty && m == name(id);
  }

  class RedisManager {
    var store: map<string, Buffer>  // the stat keys of Redis
    var members: set<string>        // the set dirty_characters
    ghost var cache: map<u64, Stat>
    ghost var dirty: set<u64>

    ghost predicate Valid()
      reads this
    {
      Represents(StatKey, Stored, store, cache) && Marks(Name, members, dirty)
    }

    constructor ()
      ensures Valid() && cache == map[] && dirty == {}
    {
      store, members, cache, dirty := map[], {}, map[], {};
    }

    /** SET and SADD under one lock; false whenever SET is not answered, true also when only the SADD failed. */
    method SetCharacterStat(id: u64, stat: Stat, reply: WriteBehind.Reply) returns (ok: bool)
      requires Valid()
      modifies this
      ensures Valid() && (ok <==> reply.Stored? || reply.StoredUnmarked?)
      ensures cache == if reply.Refused? then old(cache) else old(cache)[id := stat]
      ensures dirty == if reply.Stored? then old(dirty) + {id} else old(dirty)
      ensures store == if reply.Refused? then old(store)
                       else old(store)["character:stat:" + ToString(id) := Encode(stat)]
      ensures members == if reply.Stored? then old(members) + {ToString(id)} else old(members)
    {
      if reply.Refused? {
        return false;
      }
      StatKeysInjective();
      RepresentsSet(StatKey, Stored, store, cache, id, stat);
      store := store[StatKey(id) := Stored(stat)];
      cache := cache[id := stat];
      if reply.StoredUnanswered? {
        return false;
      }
      if reply.Stored? {
        Mark(id);
      }
      ok := true;
    }

    /** SADD */
    method Mark(id: u64)
      requires Valid()
      modifies this`members, this`dirty
      ensures Valid() && dirty == old(dirty) + {id} && members == old(members) + {ToString(id)}
    {
      MarksAdd(Name, members, dirty, id);
      members := members + {Name(id)};
      dirty := dirty + {id};
    }

    /** An error reply is taken for a value, and its text for the bytes of a struct. */
    method GetCharacterStat(id: u64, reply: GetReply) returns (found: bool, stat: Stat)
      requires Valid()
      ensures found <==> reply.Error? || (reply.Answered? && id in cache)
      ensures found && reply.Answered? ==> stat == cache[id]
      ensures reply.Error? ==> GotOf(reply) == WriteBehind.ErrorText(stat)
      ensures reply.Error? ==> |Encode(stat)| == 37 && Encode(stat)[4..] == reply.text[4..37]
    {
      stat := CharacterStat(0, 0, 0, 0, 0, 0, 0, 0);
      found := reply.Error? || (reply.Answered? && StatKey(id) in store);
      if reply.Error? {
        ErrorIsLongEnough(reply.text);
        ErrorBytesStay(reply.text);
        stat := StatOf(reply.text);
      } else if found {
        ghost var owner := OwnerOf(StatKey, Stored, store, cache, StatKey(id));
        StatKeyInjective(id, owner);
        StoredStat(cache[id]);
        stat := StatOf(store[StatKey(id)]);
      } else if id in cache {
        assert StatKey(id) in store;
      }
    }

    /** DEL, which answers true whether or not it worked. */
    method DeleteCharacterStat(id: u64, worked: bool) returns (ok: bool)
      requires Valid()
      modifies this`store, this`cache
      ensures Valid() && ok
      ensures cache == if worked then old(cache) - {id} else old(cache)
      ensures store == if worked then old(store) - {"character:stat:" + ToString(id)} else old(store)
    {
      if worked {
        StatKeysInjective();
        RepresentsDel(StatKey, Stored, store, cache, id);
        store := store - {StatKey(id)};
        cache := cache - {id};
      }
      ok := true;
    }

    /** SMEMBERS: every member once, in any order. */
    method Members() returns (reply: seq<string>)
      ensures forall m :: m in reply <==> m in members
      ensures forall i, j :: 0 <= i < j < |reply| ==> reply[i] != reply[j]
    {
      reply := [];
      var rest := members;
      while rest != {}
        invariant rest <= members
        invariant forall m :: m in reply <==> m in members && m !in rest
        invariant forall i, j :: 0 <= i < j < |reply| ==> reply[i] != reply[j]
        decreases rest
      {
        var m :| m in rest;
        reply := reply + [m];
        rest := rest - {m};
      }
    }

    /** Lists the marked ids and clears the marks, unless SMEMBERS fails, or DEL does. */
    method PopDirtyIds(listed: bool, cleared: bool) returns (ids: seq<u64>)
      requires Valid()
      modifies this`members, this`dirty
      ensures Valid()
      ensures if listed then WriteBehind.Lists(ids, old(dirty)) else ids == []
      ensures listed ==> (forall id :: id in ids <==> id in old(dirty))
                         && forall i, j :: 0 <= i < j < |ids| ==> ids[i] != ids[j]
      ensures dirty == if listed && cleared then {} else old(dirty)
    {
      if !listed {
        return [];
      }
      var reply := Members();
      ids := ParseIds(reply, members, dirty);
      if cleared {
        members := {};
        dirty := {};
      }
    }
  }

  /** stoull on every member of a reply that lists marks. */
  method ParseIds(reply: seq<string>, ghost members: set<string>, ghost dirty: set<u64>) returns (ids: seq<u64>)
    requires Marks(Name, members, dirty) && forall m :: m in reply <==> m in members
    requires forall i, j :: 0 <= i < j < |reply| ==> reply[i] != reply[j]
    ensures WriteBehind.Lists(ids, dirty)
  {
    ids := [];
    for i := 0 to |reply|
      invariant |ids| == i
      invariant forall k :: 0 <= k < i ==> ids[k] in dirty && Name(ids[k]) == reply[k]
    {
      assert reply[i] in members;
      ghost var id := ParseMark(members, dirty, reply[i]);
      ids := ids + [StoUll(reply[i])];
    }
    NamesList(reply, members, ids, dirty);
  }

  lemma ParseMark(members: set<string>, dirty: set<u64>, m: string) returns (id: u64)
    requires Marks(Name, members, dirty) && m in members
    ensures StoUll(m) == id && id in dirty && Name(id) == m
  {
    id := IdOfMark(Name, members, dirty, m);
    StoUllToString(id);
  }

  lemma NamesList(reply: seq<string>, members: set<string>, ids: seq<u64>, dirty: set<u64>)
    requires Marks(Name, members, dirty) && forall m :: m in reply <==> m in members
    requires forall i, j :: 0 <= i < j < |reply| ==> reply[i] != reply[j]
    requires |ids| == |reply| && forall k :: 0 <= k < |ids| ==> ids[k] in dirty && Name(ids[k]) == reply[k]
    ensures WriteBehind.Lists(ids, dirty)
  {
    forall id | id in dirty
      ensures id in ids
    {
      assert Name(id) in members;
      var k :| 0 <= k < |reply| && reply[k] == Name(id);
      NameInjective(ids[k], id);
    }
  }

  lemma {:induction false} NameInjective(id: u64, other: u64)
    requires Name(id) == Name(other)
    ensures id == other
  {
    StoUllToString(id);
    StoUllToString(other);
  }

  // ---------------------------------------------------------------------
  // SyncWorker
  // ---------------------------------------------------------------------

  /** The table after the cached values of these ids have been written. */
  ghost function Flushed(rows: map<u64, Row>, cache: map<u64, Stat>, ids: set<u64>): map<u64, Row> {
    map id | id in rows :: if id in ids && id in cache then RowOf(cache[id]) else rows[id]
  }

  ghost function Elements(ids: seq<u64>): set<u64> {
    set id | id in ids
  }

  /** What Redis and MySQL answer during one flush. */
  datatype Answers = Answers(listed: bool, cleared: bool, gets: u64 -> GetReply, updates: u64 -> Outcome) {
    /** No GET of these ids is answered with an error. */
    ghost predicate NoErrors(ids: set<u64>) {
      forall id :: id in ids ==> !gets(id).Error?
    }

    /** GET yields something that can be written, for which there must be a connection. */
    ghost predicate Yields(id: u64, cache: map<u64, Stat>, connected: bool) {
      (gets(id).Error? || (gets(id).Answered? && id in cache)) && connected
    }

    /** The ids whose UPDATE is executed. */
    ghost function Written(ids: set<u64>, cache: map<u64, Stat>, connected: bool): set<u64> {
      set id | id in ids && Yields(id, cache, connected) && Ran(updates(id))
    }

    ghost predicate Counts(id: u64, cache: map<u64, Stat>, connected: bool) {
      Yields(id, cache, connected) && updates(id).Executed?
    }

    /** The ids whose UPDATE is executed and answered. */
    ghost function Counted(ids: set<u64>, cache: map<u64, Stat>, connected: bool): set<u64> {
      set id | id in ids && Counts(id, cache, connected)
    }
  }

  /** The column values and the number that a flush leaves, told without the functions above. */
  lemma FlushedColumns(before: map<u64, Row>, cache: map<u64, Stat>, marked: set<u64>, answers: Answers,
                       connected: bool)
    ensures var rows := Flushed(before, cache, answers.Written(marked, cache, connected));
            && rows.Keys == before.Keys
            && forall id :: id in rows ==>
                 if id in marked && id in cache && connected && (answers.gets(id).Answered? || answers.gets(id).Error?)
                    && (answers.updates(id).Executed? || answers.updates(id).ExecutedUnanswered?) then
                   && rows[id].level == cache[id].level && rows[id].hpMax == cache[id].hpMax
                   && rows[id].hp == cache[id].hp && rows[id].mpMax == cache[id].mpMax && rows[id].mp == cache[id].mp
                   && rows[id].isAlive == cache[id].isAlive && rows[id].lastMapId == cache[id].lastMapId
                 else rows[id] == before[id]
    ensures answers.Counted(marked, cache, connected)
         == set id | id in marked && (answers.gets(id).Error? || (answers.gets(id).Answered? && id in cache))
                     && connected && answers.updates(id).Executed?
  {
  }

  class SyncWorker {
    const redis: RedisManager
    const db: DBManager
    /** The system these objects and the setters are part of. */
    ghost var st: WriteBehind.State

    ghost predicate Valid()
      reads this, redis, db
    {
      && redis.Valid() && db.Valid()
      && st.cache == redis.cache && st.dirty == redis.dirty && st.rows == db.rows
      && WriteBehind.Inv(st)
    }

    constructor (redis: RedisManager, db: DBManager, ghost start: WriteBehind.State)
      requires redis.Valid() && db.Valid()
      requires start.cache == redis.cache && start.dirty == redis.dirty && start.rows == db.rows
      requires WriteBehind.Initial(start)
      ensures this.redis == redis && this.db == db && Valid() && st == start
    {
      this.redis, this.db, st := redis, db, start;
      WriteBehind.InitialInv(start);
    }

    /** The system after a step whose effect on Redis and MySQL has just been made. */
    ghost method Take(a: WriteBehind.Action)
      requires WriteBehind.Inv(st) && WriteBehind.Enabled(st, a)
      modifies this`st
      ensures st == WriteBehind.Apply(old(st), a) && WriteBehind.Inv(st)
    {
      WriteBehind.StepKeepsInv(st, a);
      st := WriteBehind.Apply(st, a);
    }

    /** PacketHandler::OnCharacterStat, from whichever thread. */
    method OnCharacterStat(stat: Stat, reply: WriteBehind.Reply)
      requires Valid()
      modifies this, redis
      ensures Valid() && st == WriteBehind.Apply(old(st), WriteBehind.Set(stat, reply))
    {
      var ok := redis.SetCharacterStat(stat.characterId, stat, reply);
      Take(WriteBehind.Set(stat, reply));
    }

    method ReadOne(id: u64, reply: GetReply) returns (found: bool, stat: Stat)
      requires Valid() && st.flusher.Working? && st.flusher.todo != [] && st.flusher.todo[0] == id
      modifies this`st
      ensures Valid() && st == WriteBehind.Apply(old(st), WriteBehind.Read(GotOf(reply)))
      ensures found <==> st.flusher.Holding?
      ensures found <==> reply.Error? || (reply.Answered? && id in redis.cache)
      ensures found ==> stat == st.flusher.stat
    {
      found, stat := redis.GetCharacterStat(id, reply);
      Take(WriteBehind.Read(GotOf(reply)));
    }

    method WriteOne(stat: Stat, outcome: Outcome) returns (ok: bool)
      requires Valid() && st.flusher.Holding? && stat == st.flusher.stat
      modifies this`st, db
      ensures Valid() && db.pool == old(db.pool)
      ensures ok <==> db.m_connectionPool != [] && outcome.Executed?
      ensures st == WriteBehind.Apply(old(st), WriteBehind.Write(db.m_connectionPool != [] && Ran(outcome)))
    {
      WriteEffect(st, db.m_connectionPool != [] && Ran(outcome));
      ok := db.UpdateCharacterStat(stat, outcome);
      Take(WriteBehind.Write(db.m_connectionPool != [] && Ran(outcome)));
    }

    /** The key of a character expires, or is deleted. */
    method Expire(id: u64)
      requires Valid()
      modifies this`st, redis`store, redis`cache
      ensures Valid() && st == WriteBehind.Apply(old(st), WriteBehind.Forget(id))
      ensures redis.cache == old(redis.cache) - {id}
    {
      var ok := redis.DeleteCharacterStat(id, true);
      Take(WriteBehind.Forget(id));
    }

    /** Reads one id and writes its row: one step of WriteBehind, or two. */
    method FlushOne(id: u64, reply: GetReply, outcome: Outcome) returns (ok: bool)
      requires Valid() && st.flusher.Working? && st.flusher.todo != [] && st.flusher.todo[0] == id
      modifies this, db
      ensures Valid() && db.pool == old(db.pool)
      ensures st == AfterOne(old(st), GotOf(reply), db.m_connectionPool != [] && Ran(outcome))
      ensures ok <==> (reply.Error? || (reply.Answered? && id in redis.cache))
                      && db.m_connectionPool != [] && outcome.Executed?
    {
      var found, stat := ReadOne(id, reply);
      ok := false;
      if found {
        ok := WriteOne(stat, outcome);
      }
    }

    /**
     One flush with nobody storing meanwhile is a run of WriteBehind. The count is the
     number of marked ids whose GET and UPDATE work, rows that do not exist included; if
     no GET is answered with an error, the rows of the ids whose UPDATE is executed become
     their cached values, and all other rows stay.
     */
    method FlushAll(answers: Answers) returns (successCount: nat, ghost run: seq<WriteBehind.Action>)
      requires Valid() && st.flusher.Idle?
      modifies this, redis`members, redis`dirty, db
      ensures Valid() && st.flusher.Idle? && WriteBehind.Leads(old(st), run, st)
      ensures db.pool == old(db.pool)
      ensures redis.dirty == if answers.listed && answers.cleared then {} else old(redis.dirty)
      ensures var marked := if answers.listed then old(redis.dirty) else {};
              var connected := db.m_connectionPool != [];
              successCount
              == |set id | id in marked
                           && (answers.gets(id).Error? || (answers.gets(id).Answered? && id in redis.cache))
                           && connected && answers.updates(id).Executed?|
      ensures var marked := if answers.listed then old(redis.dirty) else {};
              (forall id :: id in marked ==> !answers.gets(id).Error?) ==>
                && db.rows.Keys == old(db.rows).Keys
                && forall id :: id in db.rows ==>
                     if id in marked && id in redis.cache && db.m_connectionPool != [] && answers.gets(id).Answered?
                        && (answers.updates(id).Executed? || answers.updates(id).ExecutedUnanswered?) then
                       && db.rows[id].level == redis.cache[id].level && db.rows[id].hpMax == redis.cache[id].hpMax
                       && db.rows[id].hp == redis.cache[id].hp && db.rows[id].mpMax == redis.cache[id].mpMax
                       && db.rows[id].mp == redis.cache[id].mp && db.rows[id].isAlive == redis.cache[id].isAlive
                       && db.rows[id].lastMapId == redis.cache[id].lastMapId
                     else db.rows[id] == old(db.rows)[id]
    {
      ghost var marked := if answers.listed then redis.dirty else {};
      FlushedColumns(db.rows, redis.cache, marked, answers, db.m_connectionPool != []);
      ghost var start := st;
      var ids, pop := PopIds(answers);
      ghost var popped := st;
      successCount := FlushIds(ids, answers);
      run := FlushRun(start, pop, popped, ids, answers, db.m_connectionPool != []);
      Take(WriteBehind.Finish);
    }

    method PopIds(answers: Answers) returns (ids: seq<u64>, ghost pop: WriteBehind.Action)
      requires Valid() && st.flusher.Idle?
      modifies this`st, redis`members, redis`dirty
      ensures Valid() && WriteBehind.Enabled(old(st), pop) && st == WriteBehind.Apply(old(st), pop)
      ensures st.flusher == WriteBehind.Working(ids) && st.rows == old(st.rows)
      ensures redis.dirty == if answers.listed && answers.cleared then {} else old(redis.dirty)
      ensures Elements(ids) == if answers.listed then old(redis.dirty) else {}
      ensures forall i, j :: 0 <= i < j < |ids| ==> ids[i] != ids[j]
    {
      ids := redis.PopDirtyIds(answers.listed, answers.cleared);
      pop := if answers.listed then WriteBehind.Pop(ids, answers.cleared) else WriteBehind.PopFails;
      Take(pop);
    }

    /** The loop of FlushAll. */
    method FlushIds(ids: seq<u64>, answers: Answers) returns (successCount: nat)
      requires Valid() && st.flusher == WriteBehind.Working(ids)
      requires forall i, j :: 0 <= i < j < |ids| ==> ids[i] != ids[j]
      modifies this, db
      ensures Valid() && db.pool == old(db.pool)
      ensures st == AfterAll(old(st), ids, answers, db.m_connectionPool != [])
      ensures successCount == |answers.Counted(Elements(ids), redis.cache, db.m_connectionPool != [])|
    {
      ghost var connected := db.m_connectionPool != [];
      successCount := 0;
      assert ids[0..] == ids;
      for i := 0 to |ids|
        invariant Valid() && st.flusher == WriteBehind.Working(ids[i..]) && db.pool == old(db.pool)
        invariant AfterAll(st, ids[i..], answers, connected) == AfterAll(old(st), ids, answers, connected)
        invariant successCount + |answers.Counted(Elements(ids[i..]), redis.cache, connected)|
               == |answers.Counted(Elements(ids), redis.cache, connected)|
      {
        TailAt(ids, i);
        CountOne(ids[i..], answers, redis.cache, connected);
        var ok := FlushOne(ids[i], answers.gets(ids[i]), answers.updates(ids[i]));
        if ok {
          successCount := successCount + 1;
        }
      }
    }
  }

  lemma WriteEffect(s: WriteBehind.State, ok: bool)
    requires s.flusher.Holding?
    ensures var t := WriteBehind.Apply(s, WriteBehind.Write(ok));
            && t.cache == s.cache && t.dirty == s.dirty
            && t.rows == if ok then Updated(s.rows, s.flusher.stat) else s.rows
  {
  }

  /** The system after the flusher has dealt with one id. */
  ghost function AfterOne(s: WriteBehind.State, got: WriteBehind.Got, written: bool): (t: WriteBehind.State)
    requires s.flusher.Working? && s.flusher.todo != []
    ensures t.flusher == WriteBehind.Working(s.flusher.todo[1..]) && t.cache == s.cache
  {
    var t := WriteBehind.Apply(s, WriteBehind.Read(got));
    if t.flusher.Holding? then WriteBehind.Apply(t, WriteBehind.Write(written)) else t
  }

  /** The system after the flusher has dealt with all ids. */
  ghost function AfterAll(s: WriteBehind.State, ids: seq<u64>, answers: Answers, connected: bool)
    : (t: WriteBehind.State)
    requires s.flusher == WriteBehind.Working(ids)
    ensures t.flusher == WriteBehind.Working([]) && t.cache == s.cache
    decreases |ids|
  {
    if ids == [] then s
    else
      var written := connected && Ran(answers.updates(ids[0]));
      AfterAll(AfterOne(s, GotOf(answers.gets(ids[0])), written), ids[1..], answers, connected)
  }

  /** Each step of a flush is one or two steps of WriteBehind. */
  lemma {:induction false} OneRun(s: WriteBehind.State, got: WriteBehind.Got, written: bool)
    returns (run: seq<WriteBehind.Action>)
    requires WriteBehind.Enabled(s, WriteBehind.Read(got))
    ensures WriteBehind.Leads(s, run, AfterOne(s, got, written))
  {
    run := [WriteBehind.Read(got)];
    WriteBehind.RunOne(s, WriteBehind.Read(got));
    if WriteBehind.Run(s, run).flusher.Holding? {
      WriteBehind.Extend(s, run, WriteBehind.Write(written));
      run := run + [WriteBehind.Write(written)];
    }
  }

  /** What it does to the rows, if GET was not answered with an error. */
  lemma OneFlushed(s: WriteBehind.State, got: WriteBehind.Got, written: bool)
    requires WriteBehind.Inv(s) && WriteBehind.Enabled(s, WriteBehind.Read(got)) && !got.ErrorText?
    ensures AfterOne(s, got, written).rows
         == Flushed(s.rows, s.cache, if got.Answer? && written then {s.flusher.todo[0]} else {})
  {
    assert WriteBehind.IdInv(s, s.flusher.todo[0]);
  }

  lemma {:induction false} AllRun(s: WriteBehind.State, ids: seq<u64>, answers: Answers, connected: bool)
    returns (run: seq<WriteBehind.Action>)
    requires s.flusher == WriteBehind.Working(ids)
    ensures WriteBehind.Leads(s, run, AfterAll(s, ids, answers, connected))
    decreases |ids|
  {
    run := [];
    if ids != [] {
      var got, written := GotOf(answers.gets(ids[0])), connected && Ran(answers.updates(ids[0]));
      run := OneRun(s, got, written);
      var more := AllRun(AfterOne(s, got, written), ids[1..], answers, connected);
      WriteBehind.RunAppend(s, run, more);
      run := run + more;
    }
  }

  lemma {:induction false} AllFlushed(s: WriteBehind.State, ids: seq<u64>, answers: Answers, connected: bool)
    requires WriteBehind.Inv(s) && s.flusher == WriteBehind.Working(ids) && answers.NoErrors(Elements(ids))
    ensures AfterAll(s, ids, answers, connected).rows
         == Flushed(s.rows, s.cache, answers.Written(Elements(ids), s.cache, connected))
    decreases |ids|
  {
    if ids != [] {
      var id, more := ids[0], ids[1..];
      var got, written := GotOf(answers.gets(id)), connected && Ran(answers.updates(id));
      var first := if got.Answer? && written then {id} else {};
      var others := answers.Written(Elements(more), s.cache, connected);
      ElementsSplit(ids);
      assert id in Elements(ids);
      OneFlushed(s, got, written);
      OneKeepsInv(s, got, written);
      AllFlushed(AfterOne(s, got, written), more, answers, connected);
      FlushedTwice(s.rows, s.cache, first, others);
      SameFlushed(s.rows, s.cache, first + others, answers.Written(Elements(ids), s.cache, connected));
    }
  }

  lemma ElementsSplit(ids: seq<u64>)
    requires ids != []
    ensures Elements(ids) == {ids[0]} + Elements(ids[1..])
  {
    HeadTail(ids);
  }

  lemma OneKeepsInv(s: WriteBehind.State, got: WriteBehind.Got, written: bool)
    requires WriteBehind.Inv(s) && WriteBehind.Enabled(s, WriteBehind.Read(got))
    ensures WriteBehind.Inv(AfterOne(s, got, written))
  {
    WriteBehind.StepKeepsInv(s, WriteBehind.Read(got));
    var t := WriteBehind.Apply(s, WriteBehind.Read(got));
    if t.flusher.Holding? {
      WriteBehind.StepKeepsInv(t, WriteBehind.Write(written));
    }
  }

  lemma FlushedTwice(rows: map<u64, Row>, cache: map<u64, Stat>, a: set<u64>, b: set<u64>)
    ensures Flushed(Flushed(rows, cache, a), cache, b) == Flushed(rows, cache, a + b)
  {
  }

  /** Ids that are not cached do not matter. */
  lemma SameFlushed(rows: map<u64, Row>, cache: map<u64, Stat>, a: set<u64>, b: set<u64>)
    requires forall id :: id in cache ==> (id in a <==> id in b)
    ensures Flushed(rows, cache, a) == Flushed(rows, cache, b)
  {
  }

  lemma CountOne(ids: seq<u64>, answers: Answers, cache: map<u64, Stat>, connected: bool)
    requires ids != [] && ids[0] !in ids[1..]
    ensures |answers.Counted(Elements(ids), cache, connected)|
         == |answers.Counted(Elements(ids[1..]), cache, connected)|
            + (if answers.Counts(ids[0], cache, connected) then 1 else 0)
  {
    ElementsSplit(ids);
    assert ids[0] !in Elements(ids[1..]);
    CountNew(Elements(ids[1..]), ids[0], answers, cache, connected);
  }

  lemma CountNew(ids: set<u64>, id: u64, answers: Answers, cache: map<u64, Stat>, connected: bool)
    requires id !in ids
    ensures |answers.Counted({id} + ids, cache, connected)|
         == |answers.Counted(ids, cache, connected)| + (if answers.Counts(id, cache, connected) then 1 else 0)
  {
    var rest := answers.Counted(ids, cache, connected);
    if answers.Counts(id, cache, connected) {
      assert answers.Counted({id} + ids, cache, connected) == rest + {id};
    } else {
      assert answers.Counted({id} + ids, cache, connected) == rest;
    }
  }

  lemma TailAt(ids: seq<u64>, i: nat)
    requires i < |ids| && forall i, j :: 0 <= i < j < |ids| ==> ids[i] != ids[j]
    ensures ids[i..] != [] && ids[i..][0] == ids[i] && ids[i..][1..] == ids[i + 1..]
    ensures ids[i] !in ids[i + 1..]
  {
  }

  /** A whole flush as a run, and its effect on the rows. */
  lemma {:induction false} FlushRun(start: WriteBehind.State, pop: WriteBehind.Action, popped: WriteBehind.State,
                                    ids: seq<u64>, answers: Answers, connected: bool)
    returns (run: seq<WriteBehind.Action>)
    requires WriteBehind.Inv(popped) && WriteBehind.Enabled(start, pop) && popped == WriteBehind.Apply(start, pop)
    requires popped.flusher == WriteBehind.Working(ids)
    ensures var t := AfterAll(popped, ids, answers, connected);
            && WriteBehind.Leads(start, run, WriteBehind.Apply(t, WriteBehind.Finish))
            && (answers.NoErrors(Elements(ids)) ==>
                  t.rows == Flushed(popped.rows, popped.cache, answers.Written(Elements(ids), popped.cache, connected)))
  {
    var more := AllRun(popped, ids, answers, connected);
    WriteBehind.RunOne(start, pop);
    WriteBehind.RunAppend(start, [pop], more);
    WriteBehind.Extend(start, [pop] + more, WriteBehind.Finish);
    run := [pop] + more + [WriteBehind.Finish];
    if answers.NoErrors(Elements(ids)) {
      AllFlushed(popped, ids, answers, connected);
    }
  }
}
