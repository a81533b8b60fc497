/**
 The MySQL connection pool: a vector of open connections under a lock, from which
 every query method borrows one and to which it gives it back.
 */
module DbPool {
  import opened Bytes
  import opened CharacterStats
  import opened Packets

  /** A MYSQL* handle. */
  type Conn = nat

  const CONNECTION_POOL_SIZE := 10

  // ---------------------------------------------------------------------
  // The pool under any number of concurrent callers
  // ---------------------------------------------------------------------

  /** Connections in the pool, those borrowed by callers, and all that Init has opened. */
  datatype Pool = Pool(idle: seq<Conn>, held: multiset<Conn>, connected: seq<Conn>)

  /** One lock region: Init opens a new connection, GetConnection takes the last, ReturnConnection appends. */
  datatype Action = Open(conn: Conn) | Get | Return(conn: Conn)

  predicate Enabled(p: Pool, a: Action) {
    match a
    case Open(c) => c !in p.connected && |p.connected| < CONNECTION_POOL_SIZE
    case Get => p.idle != []
    case Return(c) => c in p.held
  }

  function Apply(p: Pool, a: Action): Pool
    requires Enabled(p, a)
  {
    match a
    case Open(c) => p.(idle := p.idle + [c], connected := p.connected + [c])
    case Get => p.(idle := p.idle[..|p.idle| - 1], held := p.held + multiset{p.idle[|p.idle| - 1]})
    case Return(c) => p.(idle := p.idle + [c], held := p.held - multiset{c})
  }

  predicate Legal(p: Pool, run: seq<Action>)
    decreases |run|, 0
  {
    run == [] || (Legal(p, run[..|run| - 1]) && Enabled(Run(p, run[..|run| - 1]), run[|run| - 1]))
  }

  function Run(p: Pool, run: seq<Action>): Pool
    requires Legal(p, run)
    decreases |run|, 1
  {
    if run == [] then p else Apply(Run(p, run[..|run| - 1]), run[|run| - 1])
  }

  ghost predicate NoneTwice(m: multiset<Conn>) {
    forall c :: m[c] <= 1
  }

  ghost predicate Inv(p: Pool) {
    && multiset(p.idle) + p.held == multiset(p.connected)
    && NoneTwice(multiset(p.connected))
    && |p.connected| <= CONNECTION_POOL_SIZE
  }

  lemma OpenKeepsInv(p: Pool, c: Conn)
    requires Inv(p) && Enabled(p, Open(c))
    ensures Inv(Apply(p, Open(c)))
  {
    assert multiset(p.connected + [c]) == multiset(p.connected) + multiset{c};
    assert multiset(p.idle + [c]) == multiset(p.idle) + multiset{c};
    assert c !in multiset(p.connected);
  }

  lemma GetKeepsInv(p: Pool)
    requires Inv(p) && Enabled(p, Get)
    ensures Inv(Apply(p, Get))
  {
    InitLast(p.idle);
    assert multiset(p.idle) == multiset(p.idle[..|p.idle| - 1]) + multiset{p.idle[|p.idle| - 1]};
  }

  lemma ReturnKeepsInv(p: Pool, c: Conn)
    requires Inv(p) && Enabled(p, Return(c))
    ensures Inv(Apply(p, Return(c)))
  {
    assert multiset(p.idle + [c]) == multiset(p.idle) + multiset{c};
  }

  lemma StepKeepsInv(p: Pool, a: Action)
    requires Inv(p) && Enabled(p, a)
    ensures Inv(Apply(p, a))
  {
    match a
    case Open(c) => OpenKeepsInv(p, c);
    case Get => GetKeepsInv(p);
    case Return(c) => ReturnKeepsInv(p, c);
  }

  /** Borrowing and giving back restores the pool. */
  lemma GetReturn(p: Pool)
    requires p.idle != []
    ensures var c := p.idle[|p.idle| - 1];
            Enabled(Apply(p, Get), Return(c)) && Apply(Apply(p, Get), Return(c)) == p
  {
    var c := p.idle[|p.idle| - 1];
    assert p.idle[..|p.idle| - 1] + [c] == p.idle;
    assert p.held + multiset{c} - multiset{c} == p.held;
  }

  /**
   In every interleaving of callers, pool and borrowed connections together are exactly
   those Init opened: none is lost, none is in two hands, none is idle while in use.
   */
  lemma {:induction false} Conservation(run: seq<Action>)
    requires Legal(Pool([], multiset{}, []), run)
    ensures var p := Run(Pool([], multiset{}, []), run);
            && Inv(p)
            && |p.idle| + |p.held| == |p.connected| <= 10
            && (forall c :: p.held[c] <= 1 && (c in p.held ==> c !in p.idle))
            && (forall i, j :: 0 <= i < j < |p.idle| ==> p.idle[i] != p.idle[j])
    decreases |run|
  {
    var start := Pool([], multiset{}, []);
    if run != [] {
      Conservation(run[..|run| - 1]);
      StepKeepsInv(Run(start, run[..|run| - 1]), run[|run| - 1]);
    }
    Disjoint(Run(start, run));
  }

  lemma Disjoint(p: Pool)
    requires Inv(p)
    ensures |p.idle| + |p.held| == |p.connected|
    ensures forall c :: p.held[c] <= 1 && (c in p.held ==> c !in p.idle)
    ensures forall i, j :: 0 <= i < j < |p.idle| ==> p.idle[i] != p.idle[j]
  {
    assert |multiset(p.idle) + p.held| == |multiset(p.connected)|;
    forall c
      ensures p.held[c] <= 1 && (c in p.held ==> c !in p.idle)
    {
      HeldOnce(p, c);
    }
    forall i, j | 0 <= i < j < |p.idle|
      ensures p.idle[i] != p.idle[j]
    {
      IdleOnce(p, i, j);
    }
  }

  lemma HeldOnce(p: Pool, c: Conn)
    requires Inv(p)
    ensures p.held[c] <= 1 && (c in p.held ==> c !in p.idle)
  {
    assert (multiset(p.idle) + p.held)[c] <= 1;
    assert c in p.idle <==> c in multiset(p.idle);
  }

  lemma IdleOnce(p: Pool, i: nat, j: nat)
    requires Inv(p) && i < j < |p.idle|
    ensures p.idle[i] != p.idle[j]
  {
    if p.idle[i] == p.idle[j] {
      TwoPlaces(p.idle, i, j);
    }
    assert multiset(p.idle)[p.idle[i]] <= multiset(p.connected)[p.idle[i]] <= 1;
  }

  lemma TwoPlaces(q: seq<Conn>, i: nat, j: nat)
    requires i < j < |q| && q[i] == q[j]
    ensures multiset(q)[q[i]] >= 2
  {
    Thirds(q, 0, j);
    assert q[i] in q[..j] && q[i] in q[j..];
    assert multiset(q) == multiset(q[..j]) + multiset(q[j..]);
  }

  // ---------------------------------------------------------------------
  // DBManager as an object
  // ---------------------------------------------------------------------

  /** How far a prepared statement gets; the server may execute it and the answer get lost. */
  datatype Outcome = InitFails | PrepareFails | ExecuteFails | ExecutedUnanswered | StoreFails | Executed

  predicate Ran(outcome: Outcome) {
    outcome.ExecutedUnanswered? || outcome.Executed?
  }

  /** One call of mysql_stmt_fetch; a truncated row counts as a row. */
  datatype Fetch = Fetched(row: nat) | NoData | FetchError

  /** The rows a fetch loop collects: those before the first NoData or error. */
  function RowsBeforeEnd(fetches: seq<Fetch>): seq<nat> {
    if fetches == [] || !fetches[0].Fetched? then [] else [fetches[0].row] + RowsBeforeEnd(fetches[1..])
  }

  /** These are the rows before the first fetch that yields none. */
  lemma {:induction false} RowsInOrder(fetches: seq<Fetch>, i: nat)
    ensures var list := RowsBeforeEnd(fetches);
            && |list| <= |fetches|
            && (i < |list| ==> fetches[i] == Fetched(list[i]))
            && (|list| < |fetches| ==> !fetches[|list|].Fetched?)
  {
    if fetches != [] && fetches[0].Fetched? {
      RowsInOrder(fetches[1..], if i > 0 then i - 1 else 0);
    }
  }

  lemma RowsListed(fetches: seq<Fetch>)
    ensures var list := RowsBeforeEnd(fetches);
            && |list| <= |fetches|
            && (forall i :: 0 <= i < |list| ==> fetches[i] == Fetched(list[i]))
            && (|list| < |fetches| ==> !fetches[|list|].Fetched?)
  {
    RowsInOrder(fetches, 0);
    forall i | 0 <= i < |RowsBeforeEnd(fetches)|
      ensures fetches[i] == Fetched(RowsBeforeEnd(fetches)[i])
    {
      RowsInOrder(fetches, i);
    }
  }

  /** The fetch loop: until there is no more data, or an error. */
  method CollectRows(fetches: seq<Fetch>) returns (list: seq<nat>)
    ensures list == RowsBeforeEnd(fetches)
  {
    list := [];
    var i := 0;
    assert fetches[0..] == fetches;
    while i < |fetches| && fetches[i].Fetched?
      invariant i <= |fetches|
      invariant list + RowsBeforeEnd(fetches[i..]) == RowsBeforeEnd(fetches)
    {
      RestAt(fetches, i);
      Assoc(list, [fetches[i].row], RowsBeforeEnd(fetches[i + 1..]));
      list := list + [fetches[i].row];
      i := i + 1;
    }
  }

  /** What MySQL makes of the UPDATE: a row that does not exist stays missing. */
  function Updated(rows: map<u64, Row>, stat: Stat): map<u64, Row> {
    if stat.characterId in rows then rows[stat.characterId := RowOf(stat)] else rows
  }

  /** Which columns of which row that changes, and to what. */
  lemma UpdatedColumns(rows: map<u64, Row>, stat: Stat)
    ensures Updated(rows, stat).Keys == rows.Keys
    ensures forall id :: id in rows && id != stat.characterId ==> Updated(rows, stat)[id] == rows[id]
    ensures stat.characterId !in rows ==> Updated(rows, stat) == rows
    ensures stat.characterId in rows ==>
              var row := Updated(rows, stat)[stat.characterId];
              && row.level == stat.level && row.hpMax == stat.hpMax && row.hp == stat.hp
              && row.mpMax == stat.mpMax && row.mp == stat.mp
              && row.isAlive == stat.isAlive && row.lastMapId == stat.lastMapId
  {
  }

  class DBManager {
    var m_connectionPool: seq<Conn>
    /** The table character_stat. */
    var rows: map<u64, Row>
    /** The pool as the transition system sees it, with the connections other callers hold. */
    ghost var pool: Pool

    ghost predicate Valid()
      reads this
    {
      pool.idle == m_connectionPool && Inv(pool)
    }

    constructor (table: map<u64, Row>)
      ensures Valid() && pool == Pool([], multiset{}, []) && rows == table
    {
      m_connectionPool, rows := [], table;
      pool := Pool([], multiset{}, []);
    }

    /** Opens ten connections, or stops at the first that fails. */
    method Init(working: nat)
      requires Valid() && pool == Pool([], multiset{}, [])
      modifies this
      ensures Valid() && pool.held == multiset{} && pool.connected == m_connectionPool
      ensures |m_connectionPool| == if working < 10 then working else 10
      ensures rows == old(rows)
    {
      for i := 0 to CONNECTION_POOL_SIZE
        invariant Valid() && pool.held == multiset{} && pool.connected == m_connectionPool
        invariant |m_connectionPool| == i <= working
        invariant forall c :: c in m_connectionPool ==> c < i
        invariant rows == old(rows)
      {
        if i == working {
          return;
        }
        m_connectionPool := m_connectionPool + [i];
        StepKeepsInv(pool, Open(i));
        pool := Apply(pool, Open(i));
      }
    }

    /** The last idle connection, or none when there is still none after five seconds. */
    method GetConnection() returns (conn: Option<Conn>)
      requires Valid()
      modifies this`m_connectionPool, this`pool
      ensures Valid()
      ensures conn.None? <==> old(m_connectionPool) == []
      ensures conn.None? ==> pool == old(pool)
      ensures conn.Some? ==> old(m_connectionPool) == m_connectionPool + [conn.value]
      ensures conn.Some? ==> pool == Apply(old(pool), Get) && Enabled(pool, Return(conn.value))
      ensures conn.Some? ==> Apply(pool, Return(conn.value)) == old(pool)
    {
      if m_connectionPool == [] {
        return None;
      }
      conn := Some(m_connectionPool[|m_connectionPool| - 1]);
      m_connectionPool := m_connectionPool[..|m_connectionPool| - 1];
      GetReturn(pool);
      StepKeepsInv(pool, Get);
      pool := Apply(pool, Get);
    }

    method ReturnConnection(conn: Conn)
      requires Valid() && conn in pool.held
      modifies this`m_connectionPool, this`pool
      ensures Valid() && m_connectionPool == old(m_connectionPool) + [conn]
      ensures pool == Apply(old(pool), Return(conn))
    {
      m_connectionPool := m_connectionPool + [conn];
      StepKeepsInv(pool, Return(conn));
      pool := Apply(pool, Return(conn));
    }

    /** UPDATE character_stat: writes the row if there is one; true says only that it was executed. */
    method UpdateCharacterStat(stat: Stat, outcome: Outcome) returns (ok: bool)
      requires Valid()
      modifies this`m_connectionPool, this`pool, this`rows
      ensures Valid() && pool == old(pool)
      ensures ok <==> old(m_connectionPool) != [] && outcome.Executed?
      ensures rows == if old(m_connectionPool) != [] && Ran(outcome) then Updated(old(rows), stat) else old(rows)
      ensures rows.Keys == old(rows).Keys
      ensures forall id :: id in rows && id != stat.characterId ==> rows[id] == old(rows)[id]
      ensures old(m_connectionPool) != [] && (outcome.Executed? || outcome.ExecutedUnanswered?)
              && stat.characterId in old(rows) ==>
                var row := rows[stat.characterId];
                && row.level == stat.level && row.hpMax == stat.hpMax && row.hp == stat.hp
                && row.mpMax == stat.mpMax && row.mp == stat.mp
                && row.isAlive == stat.isAlive && row.lastMapId == stat.lastMapId
      ensures old(m_connectionPool) == [] || !(outcome.Executed? || outcome.ExecutedUnanswered?)
              || stat.characterId !in old(rows) ==>
                rows == old(rows)
    {
      UpdatedColumns(rows, stat);
      var conn := GetConnection();
      if conn.None? {
        return false;
      }
      if outcome.InitFails? || outcome.PrepareFails? {
        ReturnConnection(conn.value);
        return false;
      }
      ok := RunUpdate(stat, outcome);
      ReturnConnection(conn.value);
    }

    /** mysql_stmt_execute */
    method RunUpdate(stat: Stat, outcome: Outcome) returns (ok: bool)
      modifies this`rows
      ensures ok <==> outcome.Executed?
      ensures rows == if Ran(outcome) then Updated(old(rows), stat) else old(rows)
    {
      if Ran(outcome) {
        rows := Updated(rows, stat);
      }
      ok := outcome.Executed?;
    }

    /** InsertCharacter, InsertInventory, InsertAuction and UpdateAuctionStatus take this path. */
    method ExecuteStatement(outcome: Outcome) returns (ok: bool)
      requires Valid()
      modifies this`m_connectionPool, this`pool
      ensures Valid() && pool == old(pool)
      ensures ok <==> old(m_connectionPool) != [] && outcome.Executed?
    {
      var conn := GetConnection();
      if conn.None? {
        return false;
      }
      if outcome.InitFails? || outcome.PrepareFails? {
        ReturnConnection(conn.value);
        return false;
      }
      ok := outcome.Executed?;
      ReturnConnection(conn.value);
    }

    /** SelectCharacter and SelectAuction. */
    method SelectOne(outcome: Outcome, fetch: Fetch) returns (row: Option<nat>)
      requires Valid()
      modifies this`m_connectionPool, this`pool
      ensures Valid() && pool == old(pool)
      ensures row.Some? <==> old(m_connectionPool) != [] && outcome.Executed? && fetch.Fetched?
      ensures row.Some? ==> row.value == fetch.row
    {
      var conn := GetConnection();
      if conn.None? {
        return None;
      }
      if outcome.InitFails? || outcome.PrepareFails? {
        ReturnConnection(conn.value);
        return None;
      }
      if !outcome.Executed? {
        ReturnConnection(conn.value);
        return None;
      }
      if !fetch.Fetched? {
        ReturnConnection(conn.value);
        return None;
      }
      row := Some(fetch.row);
      ReturnConnection(conn.value);
    }

    /** SelectInventory: an error in the middle of the result ends the list but not the success. */
    method SelectAll(outcome: Outcome, fetches: seq<Fetch>) returns (ok: bool, list: seq<nat>)
      requires Valid()
      modifies this`m_connectionPool, this`pool
      ensures Valid() && pool == old(pool)
      ensures ok <==> old(m_connectionPool) != [] && outcome.Executed?
      ensures list == if ok then RowsBeforeEnd(fetches) else []
      ensures |list| <= |fetches|
      ensures forall i :: 0 <= i < |list| ==> fetches[i] == Fetched(list[i])
      ensures ok && |list| < |fetches| ==> !fetches[|list|].Fetched?
    {
      list := [];
      var conn := GetConnection();
      if conn.None? {
        return false, [];
      }
      if outcome.InitFails? || outcome.PrepareFails? {
        ReturnConnection(conn.value);
        return false, [];
      }
      if !outcome.Executed? {
        ReturnConnection(conn.value);
        return false, [];
      }
      list := CollectRows(fetches);
      RowsListed(fetches);
      ReturnConnection(conn.value);
      ok := true;
    }
  }
}
