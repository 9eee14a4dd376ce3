/** When a pipe may be closed: a served capture closes it only after its reader has published `done`; a
    constructor that raises has one corner in which it does not wait for that. */
module DrainClosing {
  import opened Drain

  /** A thread for the stream has run or may still run. */
  predicate Alive(t: Stream) {
    !t.done && !t.reader.Unstarted?
  }

  /** Nothing is closed while the constructor is building. A served capture closes only what is done. A
      close that waits behind another task is of a stream that was never started. */
  ghost predicate ClosesOk(s: State)
    requires s.TwoStreams()
  {
    && (s.phase.Building? ==> forall i: Index :: s.streams[i].open)
    && (s.phase.Serving? ==>
          && (forall i: Index :: !s.streams[i].open ==> s.streams[i].done)
          && (forall k :: 0 <= k < |s.tasks| ==> !s.tasks[k].CloseIfUnidentified?)
          && (forall k :: 0 <= k < |s.tasks| && s.tasks[k].ClosePipe? ==> s.streams[s.tasks[k].i].done))
    && (forall k :: 1 <= k < |s.tasks| && s.tasks[k].ClosePipe? ==> s.streams[s.tasks[k].i].reader.Unstarted?)
  }

  /** A reader step touches one stream, starts none, and takes no `done` back. */
  lemma ReaderStepMoves(s: State, step: Step)
    requires s.TwoStreams() && Enabled(s, step) && ReaderStep(step)
    ensures var t := Do(s, step);
            && t.TwoStreams() && t.tasks == s.tasks && t.phase == s.phase && t.stop == s.stop
            && forall i: Index ::
                 && t.streams[i].open == s.streams[i].open
                 && (s.streams[i].done ==> t.streams[i].done)
                 && (s.streams[i].reader.Unstarted? <==> t.streams[i].reader.Unstarted?)
  {
    forall i: Index ensures var a, b := s.streams[i], Do(s, step).streams[i];
                            b.open == a.open && (a.done ==> b.done) && (a.reader.Unstarted? <==> b.reader.Unstarted?)
    {
      StreamMoves(s, step, i);
    }
    HarmlessStays(s, step, 0);
    hide Do, Enabled, Harmless, Ended;
  }

  lemma StreamMoves(s: State, step: Step, i: Index)
    requires s.TwoStreams() && Enabled(s, step) && ReaderStep(step)
    ensures var a, b := s.streams[i], Do(s, step).streams[i];
            b.open == a.open && (a.done ==> b.done) && (a.reader.Unstarted? <==> b.reader.Unstarted?)
  {
    assert Do(s, step) == Reads(s, step);
    hide Do, Works;
    if step.i != i {
      assert Reads(s, step).streams[i] == s.streams[i];
    } else {
      assert Reads(s, step).streams[i].done == (s.streams[i].done || step.Publish?);
    }
  }

  lemma ReaderKeepsCloses(s: State, step: Step)
    requires s.TwoStreams() && ClosesOk(s) && Enabled(s, step) && ReaderStep(step)
    ensures Do(s, step).TwoStreams() && ClosesOk(Do(s, step))
  {
    ReaderStepMoves(s, step);
    hide Do, Enabled;
  }

  lemma BuildKeepsCloses(s: State, fails: bool, launched: bool)
    requires Inv(s) && ClosesOk(s) && Enabled(s, Work(fails, launched)) && s.phase.Building?
    ensures var t := Works(s, fails, launched); t.TwoStreams() && ClosesOk(t)
  {
    BuildStep(s, fails, launched);
    BuildTasksStart(s);
    var t := Works(s, fails, launched);
    if t.phase.Building? {
      BuildTasksStart(t);
    }
    hide Works, Enabled, BuildOk, Inv;
  }

  lemma ServeKeepsCloses(s: State, fails: bool, launched: bool)
    requires Inv(s) && ClosesOk(s) && Enabled(s, Work(fails, launched)) && !s.phase.Building?
    ensures var t := Works(s, fails, launched); t.TwoStreams() && ClosesOk(t)
  {
    ServeStep(s, fails, launched);
    CloseScheduled(s, fails, launched);
    var t, task := Works(s, fails, launched), s.tasks[0];
    hide Works, Enabled, Inv, Harmless, ClosesOk;
    ClosesAfter(s, t, task);
  }

  lemma ClosesAfter(s: State, t: State, task: Task)
    requires s.TwoStreams() && t.TwoStreams() && ClosesOk(s) && t.phase == s.phase && !s.phase.Building?
    requires s.tasks != [] && task == s.tasks[0]
    requires t.streams == (if task.ClosePipe? then s.streams[task.i := s.streams[task.i].(open := false)] else s.streams)
    requires t.tasks == s.tasks[1..]
             || ((task.CloseIfDone? || task.CloseIfUnidentified?) && t.tasks == [ClosePipe(task.i)] + s.tasks[1..]
                 && (task.CloseIfDone? ==> s.streams[task.i].done))
    ensures ClosesOk(t)
  {
    var rest := s.tasks[1..];
    assert forall k :: 0 <= k < |rest| ==> rest[k] == s.tasks[k + 1];
    if t.tasks != rest {
      assert forall k :: 1 <= k < |t.tasks| ==> t.tasks[k] == s.tasks[k];
    }
  }

  /** A close newly scheduled is of a stream that is done, or unidentified. */
  lemma CloseScheduled(s: State, fails: bool, launched: bool)
    requires Inv(s) && Enabled(s, Work(fails, launched)) && !s.phase.Building?
    ensures var t, task := Works(s, fails, launched), s.tasks[0];
            t.tasks != s.tasks[1..] ==>
              && (task.CloseIfDone? ==> s.streams[task.i].done)
              && (task.CloseIfUnidentified? ==> !s.streams[task.i].identified)
  {
    hide LogOk, JoinOk, StreamsOk, Harmless;
    assert Starting(s.tasks[0]) <==> s.phase.Building?;
  }

  lemma CallKeepsCloses(s: State, step: Step)
    requires s.TwoStreams() && ClosesOk(s) && Enabled(s, step) && (step.CallClose? || step.CallJoin?)
    ensures Do(s, step).TwoStreams() && ClosesOk(Do(s, step))
  {
  }

  lemma StepKeepsCloses(s: State, step: Step)
    requires Inv(s) && ClosesOk(s) && Enabled(s, step)
    ensures Do(s, step).TwoStreams() && ClosesOk(Do(s, step))
  {
    InvIsTwo(s);
    hide Inv, ClosesOk;
    if step.Work? {
      assert Do(s, step) == Works(s, step.fails, step.launched);
      if s.phase.Building? {
        BuildKeepsCloses(s, step.fails, step.launched);
      } else {
        ServeKeepsCloses(s, step.fails, step.launched);
      }
    } else if step.CallClose? || step.CallJoin? {
      CallKeepsCloses(s, step);
    } else {
      ReaderKeepsCloses(s, step);
    }
  }

  lemma InvIsTwo(s: State)
    requires Inv(s)
    ensures s.TwoStreams()
  {
  }

  lemma {:induction false} RunKeepsCloses(steps: seq<Step>, s: State)
    requires Run(steps, s)
    ensures s.TwoStreams() && ClosesOk(s)
    decreases |steps|
  {
    hide Inv, Enabled, Do, ClosesOk;
    if steps == [] {
      StartClosesOk();
    } else {
      var last := steps[|steps| - 1];
      var before: State :|
        before.TwoStreams() && Run(steps[..|steps| - 1], before) && Enabled(before, last) && s == Do(before, last);
      RunKeepsCloses(steps[..|steps| - 1], before);
      RunKeepsInv(steps[..|steps| - 1], before);
      StepKeepsCloses(before, last);
    }
  }

  lemma StartClosesOk()
    ensures ClosesOk(START)
  {
  }

  /** In every run, once the constructor has returned, a pipe is closed only after its reader is done. */
  lemma ServedPipesAreDone(steps: seq<Step>, s: State, i: Index)
    requires Run(steps, s) && s.TwoStreams() && s.phase.Serving? && !s.streams[i].open
    ensures s.streams[i].done
  {
    RunKeepsCloses(steps, s);
  }

  // ---- the corner ----

  /** After `n` of the steps the raising constructor, with the stop flag set, was about to look whether
      stream `i` has an identified thread, and its thread had been launched and had not run yet. */
  ghost predicate FoundLaunched(steps: seq<Step>, n: nat, i: Index)
    requires n <= |steps|
  {
    exists u: State ::
      && u.TwoStreams() && Run(steps[..n], u) && u.phase.Raising? && u.stop
      && u.tasks != [] && u.tasks[0] == CloseIfUnidentified(i) && u.streams[i].reader.Launched?
  }

  lemma FoundEarlier(steps: seq<Step>, m: nat, n: nat, i: Index)
    requires n <= m <= |steps| && FoundLaunched(steps[..m], n, i)
    ensures FoundLaunched(steps, n, i)
  {
    assert steps[..m][..n] == steps[..n];
  }

  /** The close of a stream whose thread may still run was scheduled when that thread was found launched. */
  lemma {:induction false} AboutToClose(steps: seq<Step>, s: State, i: Index) returns (n: nat)
    requires Run(steps, s) && s.TwoStreams()
    requires s.tasks != [] && s.tasks[0] == ClosePipe(i) && Alive(s.streams[i])
    ensures n <= |steps| && FoundLaunched(steps, n, i)
    decreases |steps|
  {
    hide Inv, Enabled, Do, ClosesOk, FoundLaunched;
    n := 0;
    if steps != [] {
      var last, m := steps[|steps| - 1], |steps| - 1;
      var before: State :|
        before.TwoStreams() && Run(steps[..m], before) && Enabled(before, last) && s == Do(before, last);
      RunKeepsInv(steps[..m], before);
      RunKeepsCloses(steps[..m], before);
      if ReaderStep(last) {
        ReaderStepMoves(before, last);
        n := AboutToClose(steps[..m], before, i);
        FoundEarlier(steps, m, n, i);
      } else {
        n := m;
        ScheduledNow(before, last, i);
        FoundNow(steps, before, i);
      }
    }
  }

  lemma FoundNow(steps: seq<Step>, u: State, i: Index)
    requires steps != [] && u.TwoStreams() && Run(steps[..|steps| - 1], u) && u.phase.Raising? && u.stop
    requires u.tasks != [] && u.tasks[0] == CloseIfUnidentified(i) && u.streams[i].reader.Launched?
    ensures FoundLaunched(steps, |steps| - 1, i)
  {
  }

  /** A step of the controller that puts such a close in front. */
  lemma ScheduledNow(s: State, step: Step, i: Index)
    requires Inv(s) && ClosesOk(s) && Enabled(s, step) && !ReaderStep(step)
    requires var t := Do(s, step); t.TwoStreams() && t.tasks != [] && t.tasks[0] == ClosePipe(i) && Alive(t.streams[i])
    ensures s.phase.Raising? && s.stop && s.tasks != [] && s.tasks[0] == CloseIfUnidentified(i)
    ensures s.streams[i].reader.Launched?
  {
    var t := Do(s, step);
    if step.Work? {
      assert t == Works(s, step.fails, step.launched);
      if s.phase.Building? {
        BuildStep(s, step.fails, step.launched);
        if t.phase.Building? {
          BuildTasksStart(t);
        }
      } else {
        ServeStep(s, step.fails, step.launched);
        CloseScheduled(s, step.fails, step.launched);
        assert StreamOk(s, i);
        hide Works, Harmless, LogOk, JoinOk, BuildOk, Do, Enabled;
      }
    }
  }

  /** In every run, a pipe is closed although its reader was started and is not done only in a constructor
      that raises, which has set the stop flag and then found the thread launched but not yet running. */
  lemma {:induction false} ClosedWhileAlive(steps: seq<Step>, s: State, i: Index) returns (n: nat)
    requires Run(steps, s) && s.TwoStreams() && !s.streams[i].open && Alive(s.streams[i])
    ensures n <= |steps| && FoundLaunched(steps, n, i)
    ensures s.phase.Raising? && s.stop
    decreases |steps|
  {
    n := 0;
    hide Inv, Enabled, Do, ClosesOk, FoundLaunched, Alive;
    RunKeepsInv(steps, s);
    RunKeepsCloses(steps, s);
    CornerState(s, i);
    if steps == [] {
      NothingClosed();
    } else {
      var last, m := steps[|steps| - 1], |steps| - 1;
      var before: State :|
        before.TwoStreams() && Run(steps[..m], before) && Enabled(before, last) && s == Do(before, last);
      RunKeepsInv(steps[..m], before);
      RunKeepsCloses(steps[..m], before);
      ClosedSince(before, last, i);
      hide Run;
      if !before.streams[i].open {
        n := ClosedWhileAlive(steps[..m], before, i);
      } else {
        n := AboutToClose(steps[..m], before, i);
      }
      FoundEarlier(steps, m, n, i);
    }
  }

  lemma NothingClosed()
    ensures forall i: Index :: START.streams[i].open
  {
  }

  lemma CornerState(s: State, i: Index)
    requires Inv(s) && ClosesOk(s) && !s.streams[i].open && Alive(s.streams[i])
    ensures s.phase.Raising? && s.stop
  {
    ClosedIsHarmless(s, i);
    hide TasksOk, LogOk, JoinOk;
    assert StreamOk(s, i);
  }

  /** A stream that is closed was so before, or its close was the task in front; and it was alive if it is. */
  lemma ClosedSince(s: State, step: Step, i: Index)
    requires Inv(s) && ClosesOk(s) && Enabled(s, step)
    requires var t := Do(s, step); t.TwoStreams() && !t.streams[i].open && Alive(t.streams[i])
    ensures s.TwoStreams() && Alive(s.streams[i])
    ensures !s.streams[i].open || (s.tasks != [] && s.tasks[0] == ClosePipe(i))
  {
    if ReaderStep(step) {
      ReaderStepMoves(s, step);
    } else if step.Work? {
      assert Do(s, step) == Works(s, step.fails, step.launched);
      hide Do;
      if s.phase.Building? {
        BuildStep(s, step.fails, step.launched);
      } else {
        ServeStep(s, step.fails, step.launched);
      }
      hide Works, Enabled, Inv;
    }
  }

  /** And whenever it finds a thread so, the pipe may be closed while the thread is alive: nothing but the
      two next tasks is needed. */
  lemma LaunchedMayBeClosed(steps: seq<Step>, u: State, i: Index) returns (s: State)
    requires Run(steps, u) && u.TwoStreams() && u.phase.Raising?
    requires u.tasks != [] && u.tasks[0] == CloseIfUnidentified(i) && u.streams[i].reader.Launched?
    ensures s.TwoStreams() && Run(steps + [Work(false, false)] + [Work(false, false)], s)
    ensures !s.streams[i].open && Alive(s.streams[i])
  {
    hide Run, Do, Enabled;
    RunKeepsInv(steps, u);
    UnidentifiedStep(u, i);
    var step := Work(false, false);
    var t := Do(u, step);
    OneMore(steps, u, step);
    CloseStep(t, i);
    s := Do(t, step);
    OneMore(steps + [step], t, step);
  }

  lemma UnidentifiedStep(u: State, i: Index)
    requires Inv(u) && u.phase.Raising? && u.tasks != [] && u.tasks[0] == CloseIfUnidentified(i)
    requires u.streams[i].reader.Launched?
    ensures u.TwoStreams() && Enabled(u, Work(false, false))
    ensures var t := Do(u, Work(false, false));
            t.TwoStreams() && t.tasks != [] && t.tasks[0] == ClosePipe(i) && t.streams == u.streams && t.phase.Raising?
            && Alive(t.streams[i])
  {
    hide TasksOk, LogOk, JoinOk, Harmless;
    assert StreamOk(u, i);
  }

  lemma CloseStep(t: State, i: Index)
    requires t.TwoStreams() && t.tasks != [] && t.tasks[0] == ClosePipe(i) && t.phase.Raising? && Alive(t.streams[i])
    ensures Enabled(t, Work(false, false))
    ensures var s := Do(t, Work(false, false)); s.TwoStreams() && !s.streams[i].open && Alive(s.streams[i])
  {
  }

  lemma OneMore(steps: seq<Step>, s: State, step: Step)
    requires s.TwoStreams() && Run(steps, s) && Enabled(s, step)
    ensures Run(steps + [step], Do(s, step))
  {
    hide Do, Enabled;
    var all := steps + [step];
    assert all[..|all| - 1] == steps && all[|all| - 1] == step;
    assert s.TwoStreams() && Run(all[..|all| - 1], s) && Enabled(s, all[|all| - 1]);
  }

  // ---- a run that gets there ----

  const OK := Work(false, false)
  const LAUNCHED := FRESH.(reader := Launched)
  const BEGUN := LAUNCHED.(reader := AtTest, identified := true)

  function Corner(first: Stream, tasks: seq<Task>): State {
    State([first, FRESH], true, Raising, tasks, false, [])
  }

  lemma Next(steps: seq<Step>, s: State, step: Step, t: State)
    requires s.TwoStreams() && Run(steps, s) && Enabled(s, step) && Do(s, step) == t
    ensures Run(steps + [step], t)
  {
    OneMore(steps, s, step);
  }

  lemma FirstSteps() returns (steps: seq<Step>)
    ensures Run(steps, State([LAUNCHED, FRESH], false, Raising, UNWIND, false, []))
  {
    hide Run;
    RunsNothing();
    var s1, s2 := START.(tasks := CONSTRUCTOR[1..]), START.(tasks := CONSTRUCTOR[2..]);
    assert CONSTRUCTOR[1..][1..] == CONSTRUCTOR[2..] && CONSTRUCTOR[2..] == [StartThread(0), StartThread(1)];
    Next([], START, OK, s1);
    Next([] + [OK], s1, OK, s2);
    var s3 := State([LAUNCHED, FRESH], false, Raising, UNWIND, false, []);
    assert START.streams[0 := LAUNCHED] == [LAUNCHED, FRESH];
    Next([] + [OK] + [OK], s2, Work(true, true), s3);
    steps := [] + [OK] + [OK] + [Work(true, true)];
  }

  lemma RunsNothing()
    ensures Run([], START)
  {
  }

  /** Up to the check of the first stream. */
  lemma MiddleSteps(steps0: seq<Step>) returns (steps: seq<Step>)
    requires Run(steps0, State([LAUNCHED, FRESH], false, Raising, UNWIND, false, []))
    ensures Run(steps, Corner(LAUNCHED, UNWIND[3..]))
  {
    hide Run;
    assert UNWIND[1..][1..] == UNWIND[2..] && UNWIND[2..][1..] == UNWIND[3..];
    Next(steps0, State([LAUNCHED, FRESH], false, Raising, UNWIND, false, []), OK, Corner(LAUNCHED, UNWIND[1..]));
    Next(steps0 + [OK], Corner(LAUNCHED, UNWIND[1..]), OK, Corner(LAUNCHED, UNWIND[2..]));
    Next(steps0 + [OK] + [OK], Corner(LAUNCHED, UNWIND[2..]), OK, Corner(LAUNCHED, UNWIND[3..]));
    steps := steps0 + [OK] + [OK] + [OK];
  }

  /** The start of the first thread raises after the launch; the unwinding finds the thread unidentified;
      it begins; and its pipe is closed while it is about to test the stop flag. */
  lemma CornerRun() returns (steps: seq<Step>, s: State)
    ensures Run(steps, s) && s.TwoStreams()
    ensures !s.streams[0].open && !s.streams[0].done && s.streams[0].reader.AtTest? && s.streams[0].identified
  {
    hide Run;
    steps := FirstSteps();
    steps := MiddleSteps(steps);
    var closing := [ClosePipe(0)] + UNWIND[4..];
    assert UNWIND[3..][1..] == UNWIND[4..] && closing[1..] == UNWIND[4..];
    Next(steps, Corner(LAUNCHED, UNWIND[3..]), OK, Corner(LAUNCHED, closing));
    assert [LAUNCHED, FRESH][0 := BEGUN] == [BEGUN, FRESH];
    Next(steps + [OK], Corner(LAUNCHED, closing), Begin(0), Corner(BEGUN, closing));
    s := Do(Corner(BEGUN, closing), OK);
    Next(steps + [OK] + [Begin(0)], Corner(BEGUN, closing), OK, s);
    steps := steps + [OK] + [Begin(0)] + [OK];
  }
}
