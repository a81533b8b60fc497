/**
 The life of the flusher thread: SyncLoop tests the running flag, waits, tests it
 again, flushes; Stop clears the flag from another thread at any moment.
 */
module SyncLoop {

  datatype Phase =
    | Testing    // about to evaluate `while (m_isRunning)`
    | Waiting    // in wait_for, up to the test after it
    | Deciding   // past that test, about to call FlushAll
    | Flushing   // inside FlushAll
    | Exited

  datatype State = State(
    phase: Phase,
    running: bool,
    last: bool,          // the coming flush is the one before `break`
    stoppedIn: Phase,    // where the loop stood when Stop was called
    flushesAfter: nat    // flushes begun after Stop
  )

  const Started := State(Testing, true, false, Testing, 0)

  datatype Action = Stop | Test | Wake | BeginFlush | EndFlush

  predicate Enabled(s: State, a: Action) {
    match a
    case Stop => s.running
    case Test => s.phase == Testing
    case Wake => s.phase == Waiting
    case BeginFlush => s.phase == Deciding
    case EndFlush => s.phase == Flushing
  }

  function Apply(s: State, a: Action): State
    requires Enabled(s, a)
  {
    match a
    case Stop => s.(running := false, stoppedIn := s.phase)
    case Test => s.(phase := if s.running then Waiting else Exited)
    case Wake => s.(phase := Deciding, last := !s.running)
    case BeginFlush => s.(phase := Flushing, flushesAfter := if s.running then 0 else s.flushesAfter + 1)
    case EndFlush => s.(phase := if s.last then Exited else Testing)
  }

  predicate Legal(s: State, run: seq<Action>)
    decreases |run|, 0
  {
    run == [] || (Legal(s, run[..|run| - 1]) && Enabled(Run(s, run[..|run| - 1]), run[|run| - 1]))
  }

  function Run(s: State, run: seq<Action>): State
    requires Legal(s, run)
    decreases |run|, 1
  {
    if run == [] then s else Apply(Run(s, run[..|run| - 1]), run[|run| - 1])
  }

  predicate Inv(s: State) {
    && (s.running ==> s.phase != Exited && s.flushesAfter == 0 && !s.last)
    && (!s.running ==> s.stoppedIn != Exited)
    && (!s.running && (s.stoppedIn == Testing || s.stoppedIn == Flushing) ==>
          s.flushesAfter == 0 && !s.last && (s.phase == s.stoppedIn || s.phase == Testing || s.phase == Exited))
    && (!s.running && (s.stoppedIn == Waiting || s.stoppedIn == Deciding) ==>
          && (s.phase == Waiting ==> s.stoppedIn == Waiting)
          && s.flushesAfter == (if s.phase == Waiting || s.phase == Deciding then 0 else 1)
          && (s.phase == Deciding || s.phase == Flushing ==> s.last == (s.stoppedIn == Waiting)))
  }

  /**
   When the thread has gone, exactly one flush has begun after Stop if Stop came while
   the loop was waiting or about to flush, and none if it came during a flush or before
   the loop test.
   */
  lemma {:induction false} FinalFlush(run: seq<Action>)
    requires Legal(Started, run)
    ensures var s := Run(Started, run);
            && Inv(s)
            && (s.phase == Exited ==>
                  && !s.running
                  && (s.flushesAfter == 1 <==> s.stoppedIn == Waiting || s.stoppedIn == Deciding)
                  && (s.flushesAfter == 0 <==> s.stoppedIn == Flushing || s.stoppedIn == Testing))
    decreases |run|
  {
    if run != [] {
      FinalFlush(run[..|run| - 1]);
    }
  }

  /** As long as Stop is not called, every round of the loop flushes, and there is a next one. */
  lemma EveryRoundFlushes(s: State)
    requires Inv(s) && s.running && s.phase == Testing
    ensures var waiting := Apply(s, Test);
            && Enabled(waiting, Wake)
            && var deciding := Apply(waiting, Wake);
               Enabled(deciding, BeginFlush) &&
               var flushing := Apply(deciding, BeginFlush);
               Enabled(flushing, EndFlush) && Apply(flushing, EndFlush) == s
  {
  }

  /** A run in which Stop comes during a flush, so that what is marked after its pop stays in Redis. */
  lemma StopDuringFlush()
    ensures var run := [Test, Wake, BeginFlush, Stop, EndFlush, Test];
            Legal(Started, run) &&
            var s := Run(Started, run);
            s.phase == Exited && s.stoppedIn == Flushing && s.flushesAfter == 0
  {
    var r0: seq<Action> := [];
    Extend(Started, r0, Test);
    var r1 := r0 + [Test];
    Extend(Started, r1, Wake);
    var r2 := r1 + [Wake];
    Extend(Started, r2, BeginFlush);
    var r3 := r2 + [BeginFlush];
    Extend(Started, r3, Stop);
    var r4 := r3 + [Stop];
    Extend(Started, r4, EndFlush);
    var r5 := r4 + [EndFlush];
    Extend(Started, r5, Test);
    assert r5 + [Test] == [Test, Wake, BeginFlush, Stop, EndFlush, Test];
  }

  lemma Extend(s: State, run: seq<Action>, a: Action)
    requires Legal(s, run) && Enabled(Run(s, run), a)
    ensures Legal(s, run + [a]) && Run(s, run + [a]) == Apply(Run(s, run), a)
  {
    assert (run + [a])[..|run|] == run;
  }
}
