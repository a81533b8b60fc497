/**
 AsyncLogger: producers push lines and errors under a lock, one thread takes them off
 again, writes the lines and passes errors on, at most one a minute, to the language
 model. The empty string is what the loop uses for "nothing taken".
 */
module Logger {
  import opened Bytes

  /** The logger thread: waiting for work, holding what it took in one round, or gone. */
  datatype Loop = Waiting | Holding(logMsg: string, aiMsg: string) | Exited

  datatype State = State(
    logQueue: seq<string>,
    aiQueue: seq<string>,
    running: bool,
    loop: Loop,
    logged: seq<string>,     // every line pushed, in lock order
    errors: seq<string>,     // every error pushed, in lock order
    written: seq<string>,    // every line written
    passedOn: seq<string>,   // every error handed to SendToAI
    late: seq<string>        // the lines pushed after the thread had gone
  )

  const Started := State([], [], true, Waiting, [], [], [], [], [])

  /** A line carries its timestamp, so it is never empty; an error message may be. */
  datatype Action = Log(line: string) | LogError(line: string, message: string) | Shutdown | Take | Emit

  predicate Enabled(s: State, a: Action) {
    match a
    case Log(line) => line != ""
    case LogError(line, _) => line != ""
    case Shutdown => true
    case Take => s.loop.Waiting? && (s.logQueue != [] || s.aiQueue != [] || !s.running)
    case Emit => s.loop.Holding?
  }

  function Push(s: State, line: string): State {
    s.(logQueue := s.logQueue + [line], logged := s.logged + [line],
       late := if s.loop.Exited? then s.late + [line] else s.late)
  }

  function Head(q: seq<string>): string {
    if q == [] then "" else q[0]
  }

  function Tail(q: seq<string>): seq<string> {
    if q == [] then [] else q[1..]
  }

  /** Adds a message unless there is none. */
  function Append(q: seq<string>, message: string): seq<string> {
    if message == "" then q else q + [message]
  }

  function Apply(s: State, a: Action): State
    requires Enabled(s, a)
  {
    match a
    case Log(line) => Push(s, line)
    case LogError(line, message) =>
      Push(s, line).(aiQueue := s.aiQueue + [message], errors := s.errors + [message])
    case Shutdown => s.(running := false)
    case Take =>
      if !s.running && s.logQueue == [] && s.aiQueue == [] then s.(loop := Exited)
      else
        s.(loop := Holding(Head(s.logQueue), Head(s.aiQueue)),
           logQueue := Tail(s.logQueue), aiQueue := Tail(s.aiQueue))
    case Emit =>
      s.(loop := Waiting, written := Append(s.written, s.loop.logMsg), passedOn := Append(s.passedOn, s.loop.aiMsg))
  }

  predicate Legal(s: State, run: seq<Action>)
    decreases |run|, 0
  {
    run == [] || (Legal(s, run[..|run| - 1]) && Enabled(Run(s, run[..|run| - 1]), run[|run| - 1]))
  }

  function Run(s: State, run: seq<Action>): State
    requires Legal(s, run)
    decreases |run|, 1
  {
    if run == [] then s else Apply(Run(s, run[..|run| - 1]), run[|run| - 1])
  }

  // ---------------------------------------------------------------------
  // Conservation
  // ---------------------------------------------------------------------

  function InHandLog(s: State): string {
    if s.loop.Holding? then s.loop.logMsg else ""
  }

  function InHandAi(s: State): string {
    if s.loop.Holding? then s.loop.aiMsg else ""
  }

  function NonEmpty(q: seq<string>): seq<string> {
    if q == [] then [] else (if q[0] == "" then [] else [q[0]]) + NonEmpty(q[1..])
  }

  lemma {:induction false} NonEmptyAppend(q: seq<string>, message: string)
    ensures NonEmpty(q + [message]) == Append(NonEmpty(q), message)
  {
    if q == [] {
      assert [message][1..] == [];
    } else {
      assert (q + [message])[0] == q[0] && (q + [message])[1..] == q[1..] + [message];
      NonEmptyAppend(q[1..], message);
    }
  }

  ghost predicate Inv(s: State) {
    && Append(s.written, InHandLog(s)) + s.logQueue == s.logged
    && (forall line :: line in s.logQueue ==> line != "")
    && Append(s.passedOn, InHandAi(s)) + NonEmpty(s.aiQueue) == NonEmpty(s.errors)
    && (s.loop.Exited? ==> s.logQueue == s.late && !s.running)
    && (!s.loop.Exited? ==> s.late == [])
  }

  lemma StepKeepsInv(s: State, a: Action)
    requires Inv(s) && Enabled(s, a)
    ensures Inv(Apply(s, a))
  {
    match a
    case Log(line) => PushKeepsLines(s, line);
    case LogError(line, message) =>
      PushKeepsLines(s, line);
      ErrorKeepsErrors(Push(s, line), message);
    case Shutdown =>
    case Take =>
      TakeKeepsLines(s);
      TakeKeepsErrors(s);
    case Emit => EmitKeepsInv(s);
  }

  lemma EmitKeepsInv(s: State)
    requires Inv(s) && Enabled(s, Emit)
    ensures Inv(Apply(s, Emit))
  {
  }

  lemma TakeKeepsErrors(s: State)
    requires Inv(s) && Enabled(s, Take)
    ensures var t := Apply(s, Take);
            Append(t.passedOn, InHandAi(t)) + NonEmpty(t.aiQueue) == NonEmpty(t.errors)
  {
    if s.aiQueue != [] {
      var first := if s.aiQueue[0] == "" then [] else [s.aiQueue[0]];
      Assoc(s.passedOn, first, NonEmpty(s.aiQueue[1..]));
      assert Append(s.passedOn, s.aiQueue[0]) == s.passedOn + first;
    }
  }

  lemma PushKeepsLines(s: State, line: string)
    requires Inv(s) && line != ""
    ensures Inv(Push(s, line))
  {
    var before := Append(s.written, InHandLog(s));
    assert before + (s.logQueue + [line]) == (before + s.logQueue) + [line];
  }

  lemma ErrorKeepsErrors(s: State, message: string)
    requires Inv(s)
    ensures Inv(s.(aiQueue := s.aiQueue + [message], errors := s.errors + [message]))
  {
    NonEmptyAppend(s.aiQueue, message);
    NonEmptyAppend(s.errors, message);
    var before := Append(s.passedOn, InHandAi(s));
    assert before + (NonEmpty(s.aiQueue) + [message]) == (before + NonEmpty(s.aiQueue)) + [message];
  }

  lemma TakeKeepsLines(s: State)
    requires Inv(s) && Enabled(s, Take)
    ensures var t := Apply(s, Take);
            && Append(t.written, InHandLog(t)) + t.logQueue == t.logged
            && (forall line :: line in t.logQueue ==> line != "")
  {
    var t := Apply(s, Take);
    if s.logQueue != [] {
      assert s.logQueue[0] in s.logQueue;
      assert s.written + s.logQueue == (s.written + [s.logQueue[0]]) + s.logQueue[1..];
      forall line | line in t.logQueue
        ensures line != ""
      {
        assert line in s.logQueue;
      }
      assert t.logQueue == s.logQueue[1..] && Append(t.written, InHandLog(t)) == s.written + [s.logQueue[0]];
    } else {
      assert Append(t.written, InHandLog(t)) + t.logQueue == s.written + s.logQueue;
    }
  }

  lemma {:induction false} RunKeepsInv(s: State, run: seq<Action>)
    requires Inv(s) && Legal(s, run)
    ensures Inv(Run(s, run))
    decreases |run|
  {
    if run != [] {
      RunKeepsInv(s, run[..|run| - 1]);
      StepKeepsInv(Run(s, run[..|run| - 1]), run[|run| - 1]);
    }
  }

  ghost predicate Reachable(s: State) {
    exists run :: Legal(Started, run) && Run(Started, run) == s
  }

  lemma {:induction false} ReachableInv(s: State)
    requires Reachable(s)
    ensures Inv(s)
  {
    var run :| Legal(Started, run) && Run(Started, run) == s;
    RunKeepsInv(Started, run);
  }

  /**
   In every interleaving the lines are written in the order they were pushed, none lost
   or repeated, and likewise the errors passed on, except empty ones; when the thread
   has gone, only what was logged after that is unwritten.
   */
  lemma {:induction false} LinesConserved(s: State)
    requires Reachable(s)
    ensures Append(s.written, InHandLog(s)) + s.logQueue == s.logged
    ensures Append(s.passedOn, InHandAi(s)) + NonEmpty(s.aiQueue) == NonEmpty(s.errors)
    ensures s.loop.Exited? ==> s.written + s.late == s.logged
  {
    ReachableInv(s);
  }

  // ---------------------------------------------------------------------
  // Shutdown
  // ---------------------------------------------------------------------

  function Measure(s: State): nat {
    2 * (|s.logQueue| + |s.aiQueue|) + (match s.loop case Waiting => 1 case Holding(_, _) => 2 case Exited => 0)
  }

  predicate OnlyLoop(run: seq<Action>) {
    forall a :: a in run ==> a.Take? || a.Emit?
  }

  /** Without producers the two queues shrink in every round. */
  lemma {:induction false} LoopIsBounded(s: State, run: seq<Action>)
    requires Legal(s, run) && OnlyLoop(run)
    ensures |run| + Measure(Run(s, run)) <= Measure(s) && Run(s, run).running == s.running
    decreases |run|
  {
    if run != [] {
      assert run[|run| - 1] in run;
      LoopIsBounded(s, run[..|run| - 1]);
    }
  }

  /** After Shutdown the thread writes everything that is queued and then exits. */
  lemma {:induction false} DrainsAndExits(s: State, run: seq<Action>)
    requires Reachable(s) && !s.running && !s.loop.Exited?
    requires Legal(s, run) && OnlyLoop(run)
    requires !Enabled(Run(s, run), Take) && !Enabled(Run(s, run), Emit)
    ensures |run| <= Measure(s)
    ensures var end := Run(s, run);
            end.loop.Exited? && end.written == s.logged && end.passedOn == NonEmpty(s.errors)
  {
    ReachableInv(s);
    LoopIsBounded(s, run);
    RunKeepsInv(s, run);
    NothingLoggedByLoop(s, run);
  }

  lemma {:induction false} NothingLoggedByLoop(s: State, run: seq<Action>)
    requires Legal(s, run) && OnlyLoop(run) && !s.loop.Exited? && s.late == []
    ensures var end := Run(s, run);
            end.logged == s.logged && end.errors == s.errors && end.late == []
            && (end.loop.Exited? ==> end.aiQueue == [])
    decreases |run|
  {
    if run != [] {
      assert run[|run| - 1] in run;
      NothingLoggedByLoop(s, run[..|run| - 1]);
    }
  }

  // ---------------------------------------------------------------------
  // The limit on calls of the language model
  // ---------------------------------------------------------------------

  const SECOND := 1_000_000_000
  const COOLDOWN := 60

  /** duration_cast<seconds>, which rounds toward zero. */
  function WholeSeconds(ns: int): int {
    if ns >= 0 then ns / SECOND else -((-ns) / SECOND)
  }

  /** The times at which SendToAI goes through, for calls at these times after a last dispatch. */
  function Dispatches(last: int, calls: seq<int>): seq<int>
    decreases |calls|
  {
    if calls == [] then []
    else if WholeSeconds(calls[0] - last) < COOLDOWN then Dispatches(last, calls[1..])
    else [calls[0]] + Dispatches(calls[0], calls[1..])
  }

  /** Between two dispatches lie at least as many minutes as there are steps from one to the other. */
  lemma {:induction false} DispatchesAreSpaced(last: int, calls: seq<int>, i: nat, j: nat)
    requires i <= j < |Dispatches(last, calls)|
    ensures var d := Dispatches(last, calls);
            d[j] - d[i] >= (j - i) * 60_000_000_000 && d[i] - last >= (i + 1) * 60_000_000_000
    decreases |calls|
  {
    if WholeSeconds(calls[0] - last) < COOLDOWN {
      DispatchesAreSpaced(last, calls[1..], i, j);
    } else {
      var d, rest := Dispatches(last, calls), Dispatches(calls[0], calls[1..]);
      assert d[1..] == rest;
      if i > 0 {
        DispatchesAreSpaced(calls[0], calls[1..], i - 1, j - 1);
      } else if j > 0 {
        DispatchesAreSpaced(calls[0], calls[1..], j - 1, j - 1);
      }
    }
  }

  /** Any window of so many seconds sees at most one dispatch a minute, and one more. */
  lemma {:induction false} RateBound(last: int, calls: seq<int>, i: nat, j: nat, from: int, seconds: nat)
    requires i <= j < |Dispatches(last, calls)|
    requires from <= Dispatches(last, calls)[i] && Dispatches(last, calls)[j] <= from + seconds * 1_000_000_000
    ensures j - i + 1 <= seconds / 60 + 1
  {
    DispatchesAreSpaced(last, calls, i, j);
    var n := j - i;
    assert n * 60_000_000_000 <= seconds * 1_000_000_000;
    assert n * 60 <= seconds;
  }

  // ---------------------------------------------------------------------
  // AsyncLogger as an object
  // ---------------------------------------------------------------------

  /** `if (!queue.empty()) queue.pop()` */
  method PopFront(q: seq<string>) returns (r: seq<string>)
    ensures r == Tail(q)
    ensures q != [] ==> [q[0]] + r == q
    ensures q == [] ==> r == []
  {
    r := q;
    if q != [] {
      r := q[1..];
    }
  }

  lemma TakeEffect(s: State)
    requires Enabled(s, Take)
    ensures var t := Apply(s, Take);
            && t.logQueue == Tail(s.logQueue) && t.aiQueue == Tail(s.aiQueue)
            && t.running == s.running && t.written == s.written && t.passedOn == s.passedOn
            && t.loop == if s.running || s.logQueue != [] || s.aiQueue != []
                         then Holding(Head(s.logQueue), Head(s.aiQueue)) else Exited
  {
  }

  class AsyncLogger {
    var m_logQueue: seq<string>
    var m_aiQueue: seq<string>
    var m_isRunning: bool
    var m_configured: bool          // endpoint and webhook are both set
    var m_lastAiSendTime: int       // nanoseconds of the steady clock
    var logFile: seq<string>        // the lines written
    var asked: seq<string>          // the errors SendToAI has been called with
    ghost var st: State
    ghost var calls: seq<int>       // the clock at every call of SendToAI with a configuration
    ghost var dispatched: seq<int>  // the clock at every request sent

    ghost predicate Valid()
      reads this
    {
      && st.logQueue == m_logQueue && st.aiQueue == m_aiQueue && st.running == m_isRunning
      && st.written == logFile && st.passedOn == asked
      && Inv(st)
      && dispatched == Dispatches(0, calls)
      && m_lastAiSendTime == (if dispatched == [] then 0 else dispatched[|dispatched| - 1])
    }

    constructor ()
      ensures Valid() && st == Started && calls == dispatched == [] && !m_configured && m_lastAiSendTime == 0
      ensures m_logQueue == m_aiQueue == logFile == asked == [] && m_isRunning
    {
      m_logQueue, m_aiQueue, m_isRunning, m_configured, m_lastAiSendTime := [], [], true, false, 0;
      logFile, asked := [], [];
      st, calls, dispatched := Started, [], [];
    }

    method Configure(complete: bool)
      requires Valid()
      modifies this`m_configured
      ensures Valid() && m_configured == complete
    {
      m_configured := complete;
    }

    method Log(stamp: string, message: string)
      requires Valid() && stamp != ""
      modifies this`m_logQueue, this`st
      ensures Valid() && st == Apply(old(st), Action.Log(stamp + message))
      ensures m_logQueue == old(m_logQueue) + [stamp + message]
    {
      m_logQueue := m_logQueue + [stamp + message];
      StepKeepsInv(st, Action.Log(stamp + message));
      st := Apply(st, Action.Log(stamp + message));
    }

    method LogError(stamp: string, message: string)
      requires Valid() && stamp != ""
      modifies this`m_logQueue, this`m_aiQueue, this`st
      ensures Valid() && st == Apply(old(st), Action.LogError(stamp + "[ERROR] " + message, message))
      ensures m_logQueue == old(m_logQueue) + [stamp + "[ERROR] " + message]
      ensures m_aiQueue == old(m_aiQueue) + [message]
    {
      var line := stamp + "[ERROR] " + message;
      m_logQueue := m_logQueue + [line];
      m_aiQueue := m_aiQueue + [message];
      StepKeepsInv(st, Action.LogError(line, message));
      st := Apply(st, Action.LogError(line, message));
    }

    /** The destructor, up to the join. */
    method Stop()
      requires Valid()
      modifies this`m_isRunning, this`st
      ensures Valid() && st == Apply(old(st), Shutdown) && !m_isRunning
    {
      m_isRunning := false;
      StepKeepsInv(st, Shutdown);
      st := Apply(st, Shutdown);
    }

    /** The lock region of the loop: false is the `break`, and an empty message stands for none. */
    method TakeOff() returns (more: bool, logMsg: string, aiMsg: string)
      requires Valid() && Enabled(st, Take)
      modifies this`m_logQueue, this`m_aiQueue, this`st
      ensures Valid() && st == Apply(old(st), Take)
      ensures more <==> m_isRunning || old(m_logQueue) != [] || old(m_aiQueue) != []
      ensures if more then st.loop == Holding(logMsg, aiMsg) else st.loop.Exited?
      ensures logMsg == Head(old(m_logQueue)) && aiMsg == Head(old(m_aiQueue))
      ensures m_logQueue == Tail(old(m_logQueue)) && m_aiQueue == Tail(old(m_aiQueue))
    {
      more := m_isRunning || m_logQueue != [] || m_aiQueue != [];
      TakeEffect(st);
      StepKeepsInv(st, Take);
      st := Apply(st, Take);
      logMsg, aiMsg := Head(m_logQueue), Head(m_aiQueue);
      m_logQueue := PopFront(m_logQueue);
      m_aiQueue := PopFront(m_aiQueue);
    }

    /** What the loop does with what it has taken. */
    method WriteOut(logMsg: string, aiMsg: string, now: int)
      requires Valid() && st.loop == Holding(logMsg, aiMsg)
      modifies this`logFile, this`asked, this`st, this`m_lastAiSendTime, this`calls, this`dispatched
      ensures Valid() && st == Apply(old(st), Emit)
      ensures logFile == old(logFile) + (if logMsg == "" then [] else [logMsg])
      ensures asked == old(asked) + (if aiMsg == "" then [] else [aiMsg])
      ensures if aiMsg != "" && m_configured && now - old(m_lastAiSendTime) >= 60_000_000_000 then
                m_lastAiSendTime == now && dispatched == old(dispatched) + [now]
              else m_lastAiSendTime == old(m_lastAiSendTime) && dispatched == old(dispatched)
    {
      StepKeepsInv(st, Emit);
      st := Apply(st, Emit);
      if logMsg != "" {
        logFile := logFile + [logMsg];
      }
      if aiMsg != "" {
        asked := asked + [aiMsg];
        var sent := SendToAI(now);
      }
    }

    /**
     One round of the loop: it takes the oldest line and the oldest error, if there are
     any, writes the one and passes the other on unless it is empty.
     */
    method Round(now: int) returns (more: bool)
      requires Valid() && Enabled(st, Take)
      modifies this
      ensures Valid() && m_isRunning == old(m_isRunning) && m_configured == old(m_configured)
      ensures more <==> old(m_isRunning) || old(m_logQueue) != [] || old(m_aiQueue) != []
      ensures if old(m_logQueue) == [] then m_logQueue == [] && logFile == old(logFile)
              else m_logQueue == old(m_logQueue)[1..] && logFile == old(logFile) + [old(m_logQueue)[0]]
      ensures if old(m_aiQueue) == [] then m_aiQueue == [] && asked == old(asked)
              else m_aiQueue == old(m_aiQueue)[1..]
                   && asked == old(asked) + (if old(m_aiQueue)[0] == "" then [] else [old(m_aiQueue)[0]])
      ensures more ==> Apply(old(st), Take).loop.Holding? && st == Apply(Apply(old(st), Take), Emit)
      ensures !more ==> st == Apply(old(st), Take) && st.loop.Exited?
      ensures Measure(st) < old(Measure(st))
    {
      ghost var lines := m_logQueue;
      assert lines != [] ==> lines[0] in lines;
      var logMsg, aiMsg;
      more, logMsg, aiMsg := TakeOff();
      if more {
        WriteOut(logMsg, aiMsg, now);
      }
    }

    /** The rest of ProcessLoop once Stop has been called and nobody logs any more. */
    method DrainLoop(clock: nat -> int)
      requires Valid() && !m_isRunning && st.loop.Waiting?
      modifies this
      ensures Valid() && st.loop.Exited? && m_logQueue == [] && m_aiQueue == []
      ensures logFile == old(st.logged) && asked == NonEmpty(old(st.errors))
      ensures logFile == old(logFile) + old(m_logQueue) && asked == old(asked) + NonEmpty(old(m_aiQueue))
    {
      var more, i := true, 0;
      while more
        invariant Valid() && st.logged == old(st.logged) && st.errors == old(st.errors)
        invariant !m_isRunning && st.late == []
        invariant if more then st.loop.Waiting? else st.loop.Exited? && st.aiQueue == []
        decreases Measure(st)
      {
        more := Round(clock(i));
        i := i + 1;
      }
    }

    /** Sends a request unless the last one is less than sixty whole seconds ago. */
    method SendToAI(now: int) returns (sent: bool)
      requires Valid()
      modifies this`m_lastAiSendTime, this`calls, this`dispatched
      ensures Valid()
      ensures sent <==> m_configured && now - old(m_lastAiSendTime) >= 60_000_000_000
      ensures m_lastAiSendTime == if sent then now else old(m_lastAiSendTime)
      ensures dispatched == if sent then old(dispatched) + [now] else old(dispatched)
      ensures calls == if m_configured then old(calls) + [now] else old(calls)
    {
      if !m_configured {
        return false;
      }
      DispatchesSnoc(0, calls, now);
      calls := calls + [now];
      if WholeSeconds(now - m_lastAiSendTime) < COOLDOWN {
        return false;
      }
      m_lastAiSendTime := now;
      dispatched := dispatched + [now];
      return true;
    }
  }

  lemma {:induction false} DispatchesSnoc(last: int, calls: seq<int>, now: int)
    ensures var d := Dispatches(last, calls);
            var latest := if d == [] then last else d[|d| - 1];
            Dispatches(last, calls + [now])
            == if WholeSeconds(now - latest) < COOLDOWN then d else d + [now]
    decreases |calls|
  {
    if calls == [] {
      assert ([] + [now])[1..] == [];
    } else {
      assert (calls + [now])[0] == calls[0] && (calls + [now])[1..] == calls[1..] + [now];
      if WholeSeconds(calls[0] - last) < COOLDOWN {
        DispatchesSnoc(last, calls[1..], now);
      } else {
        DispatchesSnoc(calls[0], calls[1..], now);
      }
    }
  }
}
