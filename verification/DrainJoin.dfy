/** What a join reports when both readers have ended, and a run in which it reports success. */
module DrainJoin {
  import opened Drain
  import opened DrainClosing

  /** Both threads have ended; only the controller can still move. */
  predicate BothGone(s: State) {
    && s.TwoStreams() && s.phase.Serving?
    && s.streams[0].reader.Gone? && s.streams[0].done
    && s.streams[1].reader.Gone? && s.streams[1].done
  }

  /** The controller has `n` more of its tasks behind it. */
  ghost predicate Worked(s: State, n: nat, t: State)
    decreases n
  {
    if n == 0 then s == t
    else s.TwoStreams() && s.tasks != [] && Enabled(s, OK) && Worked(Do(s, OK), n - 1, t)
  }

  /** While a join runs on ended readers the controller's next task is the only step there is. */
  lemma OnlyWorks(s: State, step: Step, n: nat)
    requires BothGone(s) && AtJoin(s, n) && Enabled(s, step)
    ensures step.Work? && Do(s, step) == Do(s, OK)
  {
  }

  lemma {:induction false} WorkedRuns(steps: seq<Step>, s: State, n: nat, t: State)
    requires Run(steps, s) && Worked(s, n, t)
    ensures Run(steps + seq(n, _ => OK), t)
    decreases n
  {
    hide Run, Do, Enabled;
    if n == 0 {
      assert steps + seq(n, _ => OK) == steps;
    } else {
      OneMore(steps, s, OK);
      WorkedRuns(steps + [OK], Do(s, OK), n - 1, t);
      assert steps + [OK] + seq(n - 1, _ => OK) == steps + seq(n, _ => OK);
    }
  }

  lemma {:induction false} WorkedTwice(s: State, n: nat, t: State, m: nat, u: State)
    requires Worked(s, n, t) && Worked(t, m, u)
    ensures Worked(s, n + m, u)
    decreases n
  {
    hide Do, Enabled;
    if n > 0 {
      WorkedTwice(Do(s, OK), n - 1, t, m, u);
    }
  }

  /** A pipe whose reader is done is closed in two steps. */
  lemma CloseOne(s: State, i: Index, rest: seq<Task>) returns (t: State)
    requires BothGone(s) && s.tasks == [CloseIfDone(i)] + rest
    ensures Worked(s, 2, t)
    ensures t == s.(tasks := rest, streams := s.streams[i := s.streams[i].(open := false)], log := s.log + [Closed(i)])
  {
    assert s.tasks[1..] == rest;
    var u := s.(tasks := [ClosePipe(i)] + rest);
    assert Do(s, OK) == u;
    assert u.tasks[1..] == rest;
    t := Do(u, OK);
    assert Worked(t, 0, t);
    assert Worked(u, 1, t) by {
      hide Do;
    }
    hide Do;
  }

  predicate Clean(t: Stream) {
    t.eof && !t.error
  }

  /** The four checks and the report. */
  lemma ChecksReport(s: State) returns (t: State)
    requires BothGone(s) && !s.problems
    requires s.tasks == [CheckAlive(0), CheckAlive(1), Judge(0), Judge(1), Report]
    ensures Worked(s, 5, t)
    ensures t.TwoStreams() && t.tasks == [] && t.log == s.log + [Joined(Clean(s.streams[0]) && Clean(s.streams[1]))]
  {
    var s1 := s.(tasks := [CheckAlive(1), Judge(0), Judge(1), Report]);
    var s2 := s.(tasks := [Judge(0), Judge(1), Report]);
    var s3 := s.(tasks := [Judge(1), Report], problems := !Clean(s.streams[0]));
    var s4 := s.(tasks := [Report], problems := !Clean(s.streams[0]) || !Clean(s.streams[1]));
    OneTask(s, s1);
    OneTask(s1, s2);
    OneTask(s2, s3);
    OneTask(s3, s4);
    t := Do(s4, OK);
    OneTask(s4, t);
    WorkedTwice(s, 1, s1, 1, s2);
    WorkedTwice(s, 2, s2, 1, s3);
    WorkedTwice(s, 3, s3, 1, s4);
    WorkedTwice(s, 4, s4, 1, t);
  }

  lemma OneTask(s: State, t: State)
    requires s.TwoStreams() && s.tasks != [] && Enabled(s, OK) && Do(s, OK) == t
    ensures Worked(s, 1, t)
  {
    assert Worked(t, 0, t);
  }

  lemma ClosesBoth(s: State) returns (t: State)
    requires BothGone(s) && s.tasks == JOIN_READERS
    ensures Worked(s, 4, t) && BothGone(t) && t.problems == s.problems
    ensures t.tasks == [CheckAlive(0), CheckAlive(1), Judge(0), Judge(1), Report]
    ensures t.log == s.log + [Closed(0), Closed(1)]
    ensures Clean(t.streams[0]) == Clean(s.streams[0]) && Clean(t.streams[1]) == Clean(s.streams[1])
  {
    hide Worked, Do, Enabled;
    var u := CloseOne(s, 0, JOIN_READERS[1..]);
    t := CloseOne(u, 1, JOIN_READERS[2..]);
    WorkedTwice(s, 2, u, 2, t);
  }

  /** A join called once both readers have ended closes both pipes, and reports success exactly if both
      streams were read to their end without error. */
  lemma JoinReports(steps: seq<Step>, s: State) returns (t: State)
    requires Run(steps, s) && s.TwoStreams() && s.phase.Serving? && s.tasks == []
    requires s.streams[0].reader.Gone? && s.streams[1].reader.Gone?
    ensures Run(steps + [CallJoin] + seq(9, _ => OK), t) && t.TwoStreams() && t.tasks == []
    ensures t.log == s.log + [Closed(0), Closed(1),
                              Joined(s.streams[0].eof && !s.streams[0].error && s.streams[1].eof && !s.streams[1].error)]
  {
    GoneIsDone(steps, s);
    var s0 := s.(tasks := JOIN_READERS, problems := false);
    CallsJoin(steps, s);
    hide Run, Worked, Do, Enabled;
    var s4 := ClosesBoth(s0);
    t := ChecksReport(s4);
    WorkedTwice(s0, 4, s4, 5, t);
    WorkedRuns(steps + [CallJoin], s0, 9, t);
  }

  lemma CallsJoin(steps: seq<Step>, s: State)
    requires Run(steps, s) && s.TwoStreams() && s.phase.Serving? && s.tasks == []
    ensures Run(steps + [CallJoin], s.(tasks := JOIN_READERS, problems := false))
  {
    hide Run;
    Next(steps, s, CallJoin, s.(tasks := JOIN_READERS, problems := false));
  }

  lemma GoneIsDone(steps: seq<Step>, s: State)
    requires Run(steps, s) && s.TwoStreams() && s.streams[0].reader.Gone? && s.streams[1].reader.Gone?
    ensures s.streams[0].done && s.streams[1].done
  {
    RunKeepsInv(steps, s);
    hide TasksOk, LogOk, JoinOk, Run;
  }

  // ---- a run in which a join succeeds ----

  const ENDED := Stream(Gone, true, true, true, false, true)

  function During(a: Stream, b: Stream, phase: Phase, tasks: seq<Task>, log: seq<Event>): State {
    State([a, b], false, phase, tasks, false, log)
  }

  /** A reader that has begun finds its stream at the end. */
  lemma ReaderEnds(steps: seq<Step>, s: State, i: Index) returns (more: seq<Step>)
    requires Run(steps, s) && s.TwoStreams() && s.streams[i] == BEGUN && !s.stop
    ensures Run(more, With(s, i, ENDED).(log := s.log + [Read(i)]))
  {
    hide Run;
    var s1 := With(s, i, BEGUN.(reader := AtRead));
    var s2 := With(s1, i, BEGUN.(reader := AtEnd, eof := true)).(log := s.log + [Read(i)]);
    var s3 := With(s2, i, BEGUN.(reader := Exiting, eof := true, done := true));
    var s4 := With(s3, i, ENDED);
    Next(steps, s, TestStop(i), s1);
    more := steps + [TestStop(i)];
    Next(more, s1, ReadPipe(i, Eof), s2);
    more := more + [ReadPipe(i, Eof)];
    Next(more, s2, Publish(i), s3);
    more := more + [Publish(i)];
    Next(more, s3, Exit(i), s4);
    more := more + [Exit(i)];
    assert s4.streams == s.streams[i := ENDED];
  }

  /** The constructor starts both threads, and each begins. */
  lemma BothBegin() returns (steps: seq<Step>)
    ensures Run(steps, During(BEGUN, BEGUN, Serving, [], []))
  {
    hide Run;
    RunsNothing();
    steps := [];
    Next(steps, START, OK, During(FRESH, FRESH, Building, CONSTRUCTOR[1..], []));
    steps := steps + [OK];
    assert CONSTRUCTOR[1..][1..] == [StartThread(0), StartThread(1)];
    Next(steps, During(FRESH, FRESH, Building, CONSTRUCTOR[1..], []), OK,
         During(FRESH, FRESH, Building, [StartThread(0), StartThread(1)], []));
    steps := steps + [OK];
    steps := FirstBegins(steps);
    steps := SecondBegins(steps);
  }

  lemma FirstBegins(before: seq<Step>) returns (steps: seq<Step>)
    requires Run(before, During(FRESH, FRESH, Building, [StartThread(0), StartThread(1)], []))
    ensures Run(steps, During(BEGUN, FRESH, Building, [StartThread(1)], []))
  {
    hide Run;
    var s0 := During(FRESH, FRESH, Building, [StartThread(0), StartThread(1)], []);
    var s1 := During(LAUNCHED, FRESH, Building, [AwaitStart(0), StartThread(1)], []);
    var s2 := During(BEGUN, FRESH, Building, [AwaitStart(0), StartThread(1)], []);
    assert s0.tasks[1..] == [StartThread(1)];
    Next(before, s0, OK, s1);
    Next(before + [OK], s1, Begin(0), s2);
    assert s2.tasks[1..] == [StartThread(1)];
    Next(before + [OK] + [Begin(0)], s2, OK, During(BEGUN, FRESH, Building, [StartThread(1)], []));
    steps := before + [OK] + [Begin(0)] + [OK];
  }

  lemma SecondBegins(before: seq<Step>) returns (steps: seq<Step>)
    requires Run(before, During(BEGUN, FRESH, Building, [StartThread(1)], []))
    ensures Run(steps, During(BEGUN, BEGUN, Serving, [], []))
  {
    hide Run;
    var s0 := During(BEGUN, FRESH, Building, [StartThread(1)], []);
    var s1 := During(BEGUN, LAUNCHED, Building, [AwaitStart(1)], []);
    var s2 := During(BEGUN, BEGUN, Building, [AwaitStart(1)], []);
    Next(before, s0, OK, s1);
    Next(before + [OK], s1, Begin(1), s2);
    Next(before + [OK] + [Begin(1)], s2, OK, During(BEGUN, BEGUN, Serving, [], []));
    steps := before + [OK] + [Begin(1)] + [OK];
  }

  /** Both streams end at once, and the join reports success. */
  lemma JoinSucceeds() returns (steps: seq<Step>, s: State)
    ensures Run(steps, s) && s.TwoStreams() && s.tasks == []
    ensures s.log == [Read(0), Read(1), Closed(0), Closed(1), Joined(true)]
  {
    hide Run;
    steps := BothBegin();
    steps := ReaderEnds(steps, During(BEGUN, BEGUN, Serving, [], []), 0);
    assert With(During(BEGUN, BEGUN, Serving, [], []), 0, ENDED).(log := [] + [Read(0)])
        == During(ENDED, BEGUN, Serving, [], [Read(0)]);
    steps := ReaderEnds(steps, During(ENDED, BEGUN, Serving, [], [Read(0)]), 1);
    assert With(During(ENDED, BEGUN, Serving, [], [Read(0)]), 1, ENDED).(log := [Read(0)] + [Read(1)])
        == During(ENDED, ENDED, Serving, [], [Read(0), Read(1)]);
    s := JoinReports(steps, During(ENDED, ENDED, Serving, [], [Read(0), Read(1)]));
    steps := steps + [CallJoin] + seq(9, _ => OK);
  }
}
