/** Two reader threads and the thread that starts, stops and closes: every interleaving of their
    steps, with failing starts, failing reads and bounded joins. */
module Drain {

  type Index = i: nat | i < 2

  /** Where a reader thread is in `_drain_stream`. */
  datatype Reader =
    | Unstarted
    | Launched      // created, has not run yet
    | AtTest        // about to test the stop flag
    | AtRead        // found it clear, about to read
    | AtWait        // nothing to read, waiting
    | AtEnd         // about to publish `done`
    | Exiting       // `done` is set, the thread still alive
    | Gone

  datatype Stream = Stream(reader: Reader, identified: bool, done: bool, eof: bool, error: bool, open: bool)

  /** What the controlling thread still has to do in its current call. */
  datatype Task =
    | Configure(i: Index)
    | StartThread(i: Index)
    | AwaitStart(i: Index)
    | SetStop
    | CloseIfDone(i: Index)
    | CloseIfUnidentified(i: Index)
    | ClosePipe(i: Index)
    | CheckAlive(i: Index)
    | Judge(i: Index)
    | Report

  /** Building: in the constructor. Raising: in one of its error paths. Serving: it has returned. */
  datatype Phase = Building | Raising | Serving

  datatype Event = Read(i: Index) | Closed(i: Index) | Joined(success: bool)

  datatype State = State(
    streams: seq<Stream>, stop: bool, phase: Phase, tasks: seq<Task>,
    problems: bool, log: seq<Event>)
  {
    predicate TwoStreams() {
      |streams| == 2
    }
  }

  const FRESH := Stream(Unstarted, false, false, false, false, true)
  const CONSTRUCTOR := [Configure(0), Configure(1), StartThread(0), StartThread(1)]
  const UNWIND := [SetStop, CloseIfDone(0), CloseIfDone(1), CloseIfUnidentified(0), CloseIfUnidentified(1)]
  const CLOSE_STREAMS := [SetStop, CloseIfDone(0), CloseIfDone(1)]
  const JOIN_READERS := [CloseIfDone(0), CloseIfDone(1), CheckAlive(0), CheckAlive(1), Judge(0), Judge(1), Report]
  const START := State([FRESH, FRESH], false, Building, CONSTRUCTOR, false, [])

  datatype ReadResult = Eof | Nothing | Chunk | Raises

  datatype Step =
    | Begin(i: Index)                     // the launched thread starts running
    | TestStop(i: Index)
    | ReadPipe(i: Index, result: ReadResult)
    | Wait(i: Index, woken: bool)
    | Publish(i: Index)
    | Exit(i: Index)
    | Work(fails: bool, launched: bool)   // the controller's next task
    | CallClose
    | CallJoin

  predicate Enabled(s: State, step: Step)
    requires s.TwoStreams()
  {
    match step
    case Begin(i) => s.streams[i].reader.Launched?
    case TestStop(i) => s.streams[i].reader.AtTest?
    case ReadPipe(i, _) => s.streams[i].reader.AtRead?
    case Wait(i, woken) => s.streams[i].reader.AtWait? && (woken ==> s.stop)
    case Publish(i) => s.streams[i].reader.AtEnd?
    case Exit(i) => s.streams[i].reader.Exiting?
    case Work(fails, _) => s.tasks != [] && (s.tasks[0].AwaitStart? && !fails ==> s.streams[s.tasks[0].i].identified)
    case CallClose => s.phase.Serving? && s.tasks == []
    case CallJoin => s.phase.Serving? && s.tasks == []
  }

  function With(s: State, i: Index, t: Stream): State
    requires s.TwoStreams()
  {
    s.(streams := s.streams[i := t])
  }

  /** One step of a reader. */
  function Reads(s: State, step: Step): State
    requires s.TwoStreams() && Enabled(s, step)
    requires !step.Work? && !step.CallClose? && !step.CallJoin?
  {
    var i := step.i;
    var t := s.streams[i];
    match step
    case Begin(_) => With(s, i, t.(reader := AtTest, identified := true))
    case TestStop(_) => With(s, i, t.(reader := if s.stop then AtEnd else AtRead))
    case ReadPipe(_, result) =>
      With(s.(log := s.log + [Read(i)]), i,
           match result
           case Eof => t.(reader := AtEnd, eof := true)
           case Nothing => t.(reader := AtWait)
           case Chunk => t.(reader := AtTest)
           case Raises => t.(reader := AtEnd, error := true))
    case Wait(_, woken) => With(s, i, t.(reader := if woken then AtEnd else AtTest))
    case Publish(_) => With(s, i, t.(reader := Exiting, done := true))
    case Exit(_) => With(s, i, t.(reader := Gone))
  }

  /** The constructor's last task has been done. */
  function Finish(s: State, rest: seq<Task>): State {
    s.(tasks := rest, phase := if s.phase.Building? && rest == [] then Serving else s.phase)
  }

  /** One task of the controller. */
  function Works(s: State, fails: bool, launched: bool): State
    requires s.TwoStreams() && Enabled(s, Work(fails, launched))
  {
    var task, rest := s.tasks[0], s.tasks[1..];
    match task
    case Configure(_) =>
      if fails then s.(phase := Raising, tasks := [ClosePipe(0), ClosePipe(1)]) else Finish(s, rest)
    case StartThread(i) =>
      var t := if fails && !launched then s else With(s, i, s.streams[i].(reader := Launched));
      if fails then t.(phase := Raising, tasks := UNWIND) else Finish(t, [AwaitStart(i)] + rest)
    case AwaitStart(_) =>
      if fails then s.(phase := Raising, tasks := UNWIND) else Finish(s, rest)
    case SetStop => Finish(s.(stop := true), rest)
    case CloseIfDone(i) => Finish(s, if s.streams[i].done then [ClosePipe(i)] + rest else rest)
    case CloseIfUnidentified(i) => Finish(s, if s.streams[i].identified then rest else [ClosePipe(i)] + rest)
    case ClosePipe(i) =>
      Finish(With(s.(log := s.log + [Closed(i)]), i, s.streams[i].(open := false)), rest)
    case CheckAlive(i) =>
      Finish(s.(problems := s.problems || !s.streams[i].reader.Gone?), rest)
    case Judge(i) =>
      var t := s.streams[i];
      Finish(s.(problems := s.problems || t.error || (t.reader.Gone? && !t.eof)), rest)
    case Report => Finish(s.(log := s.log + [Joined(!s.problems)]), rest)
  }

  function Do(s: State, step: Step): State
    requires s.TwoStreams() && Enabled(s, step)
  {
    match step
    case Work(fails, launched) => Works(s, fails, launched)
    case CallClose => s.(tasks := CLOSE_STREAMS)
    case CallJoin => s.(tasks := JOIN_READERS, problems := false)
    case _ => Reads(s, step)
  }

  ghost predicate Run(steps: seq<Step>, s: State) {
    if steps == [] then s == START
    else
      var last := steps[|steps| - 1];
      exists before: State ::
        before.TwoStreams() && Run(steps[..|steps| - 1], before) && Enabled(before, last) && s == Do(before, last)
  }

  // ---- safety ----

  /** The reader will never read again: it is done, it was never launched and never will be, or it
      cannot pass its next test of the stop flag. */
  predicate Harmless(s: State, i: Index)
    requires s.TwoStreams()
  {
    var r := s.streams[i].reader;
    || r.Exiting? || r.Gone?
    || (r.Unstarted? && !s.phase.Building?)
    || (s.stop && (r.Launched? || r.AtTest? || r.AtEnd?))
  }

  predicate Starting(t: Task) {
    t.Configure? || t.StartThread? || t.AwaitStart?
  }

  /** How far the constructor is: a thread still to be started has not been started. */
  predicate BuildOk(s: State)
    requires s.TwoStreams()
  {
    || (s.tasks in {CONSTRUCTOR, CONSTRUCTOR[1..], CONSTRUCTOR[2..]}
        && s.streams[0].reader.Unstarted? && s.streams[1].reader.Unstarted?)
    || (s.tasks in {[AwaitStart(0), StartThread(1)], [StartThread(1)]} && s.streams[1].reader.Unstarted?)
    || s.tasks == [AwaitStart(1)]
  }

  /** The tasks that may follow each other in a call. */
  ghost predicate TasksOk(s: State)
    requires s.TwoStreams()
  {
    && (forall k :: 0 <= k < |s.tasks| ==> (Starting(s.tasks[k]) <==> s.phase.Building?))
    && (s.phase.Building? ==> BuildOk(s))
    && (forall k :: 0 <= k < |s.tasks| && s.tasks[k].ClosePipe? ==> Harmless(s, s.tasks[k].i))
    && (forall k :: 0 <= k < |s.tasks| && s.tasks[k].CloseIfUnidentified? ==> s.stop || s.tasks[0].SetStop?)
  }

  predicate StreamOk(s: State, i: Index)
    requires s.TwoStreams()
  {
    var t := s.streams[i];
    && (t.done <==> t.reader.Exiting? || t.reader.Gone?)
    && (!t.open ==> Harmless(s, i))
    && (t.identified <==> !t.reader.Unstarted? && !t.reader.Launched?)
  }

  predicate StreamsOk(s: State)
    requires s.TwoStreams()
  {
    StreamOk(s, 0) && StreamOk(s, 1)
  }

  /** No pipe is read after it is closed. */
  ghost predicate LogOk(s: State)
    requires s.TwoStreams()
  {
    && (forall k :: 0 <= k < |s.log| && s.log[k].Closed? ==> !s.streams[s.log[k].i].open)
    && (forall j, k :: 0 <= j < k < |s.log| && s.log[j].Closed? ==> s.log[k] != Read(s.log[j].i))
  }

  /** The join has `n` of its tasks behind it, perhaps with a pipe it has yet to close in front. */
  predicate AtJoin(s: State, n: nat) {
    n < |JOIN_READERS|
    && (s.tasks == JOIN_READERS[n..] || (1 <= n <= 2 && s.tasks == [ClosePipe(n - 1)] + JOIN_READERS[n..]))
  }

  predicate Ended(t: Stream) {
    t.reader.Gone? && t.eof && !t.error
  }

  /** What the tasks behind it have established, unless a problem was noted. */
  predicate Checked(s: State, n: nat)
    requires s.TwoStreams()
  {
    && (n > 2 ==> s.streams[0].reader.Gone?)
    && (n > 3 ==> s.streams[1].reader.Gone?)
    && (n > 4 ==> Ended(s.streams[0]))
    && (n > 5 ==> Ended(s.streams[1]))
  }

  ghost predicate JoinOk(s: State)
    requires s.TwoStreams()
  {
    && (Report in s.tasks ==> exists n :: AtJoin(s, n) && (s.problems || Checked(s, n)))
    && (Joined(true) in s.log ==> Ended(s.streams[0]) && Ended(s.streams[1]))
  }

  ghost predicate Inv(s: State) {
    s.TwoStreams() && TasksOk(s) && StreamsOk(s) && LogOk(s) && JoinOk(s)
  }

  // ---- reader steps ----

  predicate ReaderStep(step: Step) {
    !step.Work? && !step.CallClose? && !step.CallJoin?
  }

  lemma HarmlessStays(s: State, step: Step, i: Index)
    requires s.TwoStreams() && Enabled(s, step) && ReaderStep(step)
    ensures Harmless(s, i) ==> Harmless(Do(s, step), i)
    ensures Ended(s.streams[i]) ==> Ended(Do(s, step).streams[i])
    ensures s.streams[i].reader.Gone? ==> Do(s, step).streams[i].reader.Gone?
    ensures Do(s, step).streams[i].open == s.streams[i].open
    ensures s.streams[i].reader.Unstarted? ==> Do(s, step).streams[i].reader.Unstarted?
    ensures Do(s, step).tasks == s.tasks && Do(s, step).phase == s.phase && Do(s, step).stop == s.stop
    ensures Do(s, step).problems == s.problems
  {
  }

  lemma ReaderKeepsInv(s: State, step: Step)
    requires Inv(s) && Enabled(s, step) && ReaderStep(step)
    ensures Inv(Do(s, step))
  {
    var t := Do(s, step);
    HarmlessStays(s, step, 0);
    HarmlessStays(s, step, 1);
    assert StreamsOk(t) by { ReaderKeepsStreams(s, step); }
    hide Enabled, Do, Harmless, Ended;
    assert TasksOk(t);
    ReaderKeepsLog(s, step);
    assert Report in t.tasks ==> exists n :: AtJoin(t, n) && (t.problems || Checked(t, n)) by {
      if Report in t.tasks {
        var n :| AtJoin(s, n) && (s.problems || Checked(s, n));
        assert AtJoin(t, n) && (t.problems || Checked(t, n));
      }
    }
  }

  lemma ReaderKeepsStreams(s: State, step: Step)
    requires Inv(s) && Enabled(s, step) && ReaderStep(step)
    ensures StreamsOk(Do(s, step))
  {
    ReaderKeepsStream(s, step, 0);
    ReaderKeepsStream(s, step, 1);
  }

  lemma ReaderKeepsStream(s: State, step: Step, i: Index)
    requires s.TwoStreams() && StreamOk(s, i) && Enabled(s, step) && ReaderStep(step)
    ensures StreamOk(Do(s, step), i)
  {
    HarmlessStays(s, step, i);
    hide Harmless;
    if step.i != i {
      assert Do(s, step).streams[i] == s.streams[i];
    }
  }

  lemma ReaderKeepsLog(s: State, step: Step)
    requires Inv(s) && Enabled(s, step) && ReaderStep(step)
    ensures LogOk(Do(s, step))
    ensures Joined(true) in Do(s, step).log ==> Joined(true) in s.log
  {
    hide TasksOk, JoinOk;
  }

  // ---- controller steps ----

  /** The constructor goes on, fails over to unwinding, or is finished. */
  lemma BuildStep(s: State, fails: bool, launched: bool)
    requires s.TwoStreams() && Enabled(s, Work(fails, launched)) && s.phase.Building? && BuildOk(s)
    ensures var t := Works(s, fails, launched);
            && t.TwoStreams() && t.stop == s.stop && t.log == s.log
            && (t.phase.Building? ==> BuildOk(t))
            && (t.phase.Serving? ==> t.tasks == [])
            && (t.phase.Raising? ==>
                  t.tasks == UNWIND
                  || (t.tasks == [ClosePipe(0), ClosePipe(1)]
                      && t.streams[0].reader.Unstarted? && t.streams[1].reader.Unstarted?))
            && forall i: Index :: t.streams[i] == s.streams[i]
                                  || (s.streams[i].reader.Unstarted? && t.streams[i] == s.streams[i].(reader := Launched))
  {
    var rest := s.tasks[1..];
    assert CONSTRUCTOR[2..] == [StartThread(0), StartThread(1)];
    assert CONSTRUCTOR[1..][1..] == CONSTRUCTOR[2..];
    if s.tasks[0] == StartThread(0) {
      assert rest == [StartThread(1)];
      assert [AwaitStart(0)] + rest == [AwaitStart(0), StartThread(1)];
    } else if s.tasks[0] == StartThread(1) {
      assert rest == [];
      assert [AwaitStart(1)] + rest == [AwaitStart(1)];
    } else if s.tasks[0] == AwaitStart(0) {
      assert rest == [StartThread(1)];
    } else if s.tasks[0] == AwaitStart(1) {
      assert rest == [];
    }
  }

  lemma BuildKeepsInv(s: State, fails: bool, launched: bool)
    requires Inv(s) && Enabled(s, Work(fails, launched)) && s.phase.Building?
    ensures Inv(Works(s, fails, launched))
  {
    BuildStep(s, fails, launched);
    hide BuildOk, Works, Enabled;
    var t := Works(s, fails, launched);
    BuiltTasks(s, t);
    BuiltStreams(s, t);
    hide TasksOk, StreamsOk, Harmless, Ended;
    assert LogOk(t);
    assert JoinOk(t);
  }

  lemma BuiltTasks(s: State, t: State)
    requires s.TwoStreams() && t.TwoStreams() && TasksOk(s)
    requires t.phase.Building? ==> BuildOk(t)
    requires t.phase.Serving? ==> t.tasks == []
    requires t.phase.Raising? ==>
               t.tasks == UNWIND
               || (t.tasks == [ClosePipe(0), ClosePipe(1)]
                   && t.streams[0].reader.Unstarted? && t.streams[1].reader.Unstarted?)
    ensures TasksOk(t)
    ensures Report !in t.tasks
  {
    if t.phase.Building? {
      BuildTasksStart(t);
    }
  }

  lemma BuildTasksStart(t: State)
    requires t.TwoStreams() && BuildOk(t)
    ensures forall k :: 0 <= k < |t.tasks| ==> Starting(t.tasks[k])
  {
  }

  lemma BuiltStreams(s: State, t: State)
    requires s.TwoStreams() && t.TwoStreams() && StreamsOk(s) && s.phase.Building? && t.stop == s.stop
    requires forall i: Index :: t.streams[i] == s.streams[i]
                                || (s.streams[i].reader.Unstarted? && t.streams[i] == s.streams[i].(reader := Launched))
    ensures StreamsOk(t)
    ensures forall i: Index :: t.streams[i].open == s.streams[i].open
    ensures forall i: Index :: Ended(s.streams[i]) ==> Ended(t.streams[i])
  {
  }

  // ---- after the constructor ----

  lemma CloseKeepsStreams(s: State, t: State, stop: bool, closed: set<Index>)
    requires s.TwoStreams() && t.TwoStreams() && StreamsOk(s) && !s.phase.Building?
    requires t.phase == s.phase && t.stop == (s.stop || stop)
    requires forall i: Index ::
               if i in closed then Harmless(s, i) && t.streams[i] == s.streams[i].(open := false)
               else t.streams[i] == s.streams[i]
    ensures StreamsOk(t)
    ensures forall i: Index :: Harmless(s, i) ==> Harmless(t, i)
    ensures forall i: Index :: Ended(s.streams[i]) ==> Ended(t.streams[i])
  {
  }

  /** A task behind the constructor changes the stop flag, closes one pipe, or touches no stream. */
  lemma ServeStep(s: State, fails: bool, launched: bool)
    requires Inv(s) && Enabled(s, Work(fails, launched)) && !s.phase.Building?
    ensures var t, task, rest := Works(s, fails, launched), s.tasks[0], s.tasks[1..];
            && t.TwoStreams() && t.phase == s.phase && !Starting(task)
            && t.stop == (s.stop || task.SetStop?)
            && t.streams == (if task.ClosePipe? then s.streams[task.i := s.streams[task.i].(open := false)] else s.streams)
            && t.log == s.log + (if task.ClosePipe? then [Closed(task.i)]
                                 else if task.Report? then [Joined(!s.problems)] else [])
            && (task.ClosePipe? ==> Harmless(s, task.i))
            && (t.tasks == rest
                || ((task.CloseIfDone? || task.CloseIfUnidentified?)
                    && t.tasks == [ClosePipe(task.i)] + rest && Harmless(t, task.i)))
  {
    hide LogOk, JoinOk;
    var task := s.tasks[0];
    assert Starting(task) <==> s.phase.Building?;
  }

  lemma ServeKeepsTasks(s: State, fails: bool, launched: bool)
    requires Inv(s) && Enabled(s, Work(fails, launched)) && !s.phase.Building?
    ensures var t := Works(s, fails, launched); t.TwoStreams() && StreamsOk(t) && TasksOk(t)
    ensures var t := Works(s, fails, launched); forall i: Index :: Ended(s.streams[i]) ==> Ended(t.streams[i])
  {
    ServeStep(s, fails, launched);
    hide Works, Enabled, LogOk, JoinOk;
    var t, task, rest := Works(s, fails, launched), s.tasks[0], s.tasks[1..];
    CloseKeepsStreams(s, t, task.SetStop?, if task.ClosePipe? then {task.i} else {});
    hide Harmless, StreamsOk, Ended;
    assert forall k :: 0 <= k < |rest| ==> rest[k] == s.tasks[k + 1];
    if t.tasks == rest {
      assert TasksOk(t);
    } else {
      assert forall k :: 1 <= k < |t.tasks| ==> t.tasks[k] == s.tasks[k];
      assert TasksOk(t);
    }
  }

  lemma ServeKeepsLog(s: State, fails: bool, launched: bool)
    requires Inv(s) && Enabled(s, Work(fails, launched)) && !s.phase.Building?
    ensures var t := Works(s, fails, launched); t.TwoStreams() && LogOk(t)
  {
    ServeStep(s, fails, launched);
    hide Works, Enabled, TasksOk, StreamsOk, JoinOk;
  }

  /** One task further in a join: what it establishes is noted, or a problem is. */
  ghost predicate Noted(s: State, t: State, n: nat)
    requires n < |JOIN_READERS|
  {
    && t.TwoStreams() && t.streams == s.streams
    && (t.problems || Checked(t, n + 1))
    && (t.tasks == JOIN_READERS[n + 1..] || (n < 2 && t.tasks == [ClosePipe(n)] + JOIN_READERS[n + 1..]))
  }

  lemma NextTask(s: State, n: nat)
    requires n < |JOIN_READERS| && s.tasks == JOIN_READERS[n..]
    ensures s.tasks != [] && s.tasks[0] == JOIN_READERS[n] && s.tasks[1..] == JOIN_READERS[n + 1..]
  {
  }

  lemma CloseTask(s: State, fails: bool, launched: bool, n: nat)
    requires s.TwoStreams() && !s.phase.Building? && n < 2
    requires s.tasks == JOIN_READERS[n..] && (s.problems || Checked(s, n))
    ensures s.tasks != [] && s.tasks[0] == CloseIfDone(n)
    ensures Enabled(s, Work(fails, launched)) && Noted(s, Works(s, fails, launched), n)
  {
    NextTask(s, n);
    assert s.tasks[0] == CloseIfDone(n);
    hide Ended;
  }

  lemma AliveTask(s: State, fails: bool, launched: bool, n: nat)
    requires s.TwoStreams() && !s.phase.Building? && 2 <= n < 4
    requires s.tasks == JOIN_READERS[n..] && (s.problems || Checked(s, n))
    ensures s.tasks != [] && s.tasks[0] == CheckAlive(n - 2)
    ensures Enabled(s, Work(fails, launched)) && Noted(s, Works(s, fails, launched), n)
  {
    NextTask(s, n);
    assert s.tasks[0] == CheckAlive(n - 2);
    hide Ended;
  }

  lemma JudgeTask(s: State, fails: bool, launched: bool, n: nat)
    requires s.TwoStreams() && !s.phase.Building? && 4 <= n < 6
    requires s.tasks == JOIN_READERS[n..] && (s.problems || Checked(s, n))
    ensures s.tasks != [] && s.tasks[0] == Judge(n - 4)
    ensures Enabled(s, Work(fails, launched)) && Noted(s, Works(s, fails, launched), n)
  {
    NextTask(s, n);
    assert s.tasks[0] == Judge(n - 4);
  }

  lemma ReportTask(s: State, fails: bool, launched: bool)
    requires s.TwoStreams() && !s.phase.Building?
    requires s.tasks == JOIN_READERS[6..] && (s.problems || Checked(s, 6))
    ensures s.tasks != [] && s.tasks[0] == Report
    ensures Enabled(s, Work(fails, launched)) && Noted(s, Works(s, fails, launched), 6)
  {
    NextTask(s, 6);
    hide Ended;
  }

  lemma CloseChecks(s: State, fails: bool, launched: bool, n: nat)
    requires s.TwoStreams() && !s.phase.Building? && 1 <= n <= 2
    requires s.tasks == [ClosePipe(n - 1)] + JOIN_READERS[n..] && (s.problems || Checked(s, n))
    ensures Enabled(s, Work(fails, launched))
    ensures var t := Works(s, fails, launched);
            && t.TwoStreams() && (t.problems || Checked(t, n))
            && t.tasks == JOIN_READERS[n..]
            && !s.tasks[0].Report?
  {
    assert s.tasks[1..] == JOIN_READERS[n..];
  }

  lemma ServeKeepsJoin(s: State, fails: bool, launched: bool)
    requires Inv(s) && Enabled(s, Work(fails, launched)) && !s.phase.Building?
    ensures var t := Works(s, fails, launched); t.TwoStreams() && JoinOk(t)
  {
    ServeStep(s, fails, launched);
    ServeKeepsTasks(s, fails, launched);
    hide Works, Enabled, TasksOk, StreamsOk, LogOk, Ended, Checked, AtJoin;
    var t := Works(s, fails, launched);
    if Report in s.tasks {
      var n :| AtJoin(s, n) && (s.problems || Checked(s, n));
      JoinMoves(s, fails, launched, n);
    } else {
      assert Report !in s.tasks[1..];
      assert s.tasks[0] in s.tasks;
    }
  }

  lemma JoinMoves(s: State, fails: bool, launched: bool, n: nat)
    requires s.TwoStreams() && !s.phase.Building? && Enabled(s, Work(fails, launched))
    requires AtJoin(s, n) && (s.problems || Checked(s, n))
    ensures var t := Works(s, fails, launched);
            && t.TwoStreams()
            && (Report in t.tasks ==> exists m :: AtJoin(t, m) && (t.problems || Checked(t, m)))
            && (s.tasks[0].Report? && !s.problems ==> Ended(s.streams[0]) && Ended(s.streams[1]))
  {
    var t := Works(s, fails, launched);
    if s.tasks == JOIN_READERS[n..] {
      if n < 2 {
        CloseTask(s, fails, launched, n);
      } else if n < 4 {
        AliveTask(s, fails, launched, n);
      } else if n < 6 {
        JudgeTask(s, fails, launched, n);
      } else {
        ReportTask(s, fails, launched);
      }
      hide Works, Ended, Checked, Enabled;
      if n + 1 < |JOIN_READERS| {
        assert AtJoin(t, n + 1);
      } else {
        LastCheck(s);
      }
    } else {
      CloseChecks(s, fails, launched, n);
      hide Works, Ended, Checked;
      assert AtJoin(t, n);
      NotReport(n);
    }
  }

  lemma LastCheck(s: State)
    requires s.TwoStreams() && (s.problems || Checked(s, 6))
    ensures !s.problems ==> Ended(s.streams[0]) && Ended(s.streams[1])
  {
  }

  lemma NotReport(n: nat)
    requires 1 <= n <= 2
    ensures ClosePipe(n - 1) != Report
  {
  }

  // ---- runs ----

  lemma CallKeepsInv(s: State, step: Step)
    requires Inv(s) && Enabled(s, step) && (step.CallClose? || step.CallJoin?)
    ensures Inv(Do(s, step))
  {
    var t := Do(s, step);
    assert t.streams == s.streams && t.stop == s.stop && t.log == s.log && t.phase == s.phase;
    assert forall i: Index :: Harmless(s, i) == Harmless(t, i);
    hide Harmless, Ended;
    assert TasksOk(t);
    assert StreamsOk(t) && LogOk(t);
    if step.CallJoin? {
      assert JOIN_READERS[0..] == JOIN_READERS;
      assert AtJoin(t, 0) && Checked(t, 0);
    } else {
      assert Report !in t.tasks;
    }
  }

  lemma StepKeepsInv(s: State, step: Step)
    requires Inv(s) && Enabled(s, step)
    ensures Inv(Do(s, step))
  {
    if step.Work? {
      assert Do(s, step) == Works(s, step.fails, step.launched);
      if s.phase.Building? {
        BuildKeepsInv(s, step.fails, step.launched);
      } else {
        ServeKeepsTasks(s, step.fails, step.launched);
        ServeKeepsLog(s, step.fails, step.launched);
        ServeKeepsJoin(s, step.fails, step.launched);
      }
    } else if step.CallClose? || step.CallJoin? {
      CallKeepsInv(s, step);
    } else {
      ReaderKeepsInv(s, step);
    }
  }

  lemma StartHolds()
    ensures Inv(START)
  {
    BuildTasksStart(START);
    assert forall k :: 0 <= k < |START.tasks| ==> !START.tasks[k].ClosePipe? && !START.tasks[k].CloseIfUnidentified?;
    assert Report !in START.tasks;
  }

  lemma {:induction false} RunKeepsInv(steps: seq<Step>, s: State)
    requires Run(steps, s)
    ensures Inv(s)
    decreases |steps|
  {
    hide Inv, Enabled, Do;
    if steps == [] {
      StartHolds();
    } else {
      var last := steps[|steps| - 1];
      var before: State :|
        before.TwoStreams() && Run(steps[..|steps| - 1], before) && Enabled(before, last) && s == Do(before, last);
      RunKeepsInv(steps[..|steps| - 1], before);
      StepKeepsInv(before, last);
    }
  }

  /** In every run: a pipe that has been closed is never read again, a pipe is closed only when its
      reader will never read again (whether it is done, see module DrainClosing), and `join_readers` has reported success only if both streams were
      read to their end without error. */
  lemma DrainSafety(steps: seq<Step>, s: State)
    requires Run(steps, s)
    ensures s.TwoStreams()
    ensures forall j, k :: 0 <= j < k < |s.log| && s.log[j].Closed? ==> s.log[k] != Read(s.log[j].i)
    ensures forall i: Index :: !s.streams[i].open ==> Harmless(s, i) && !s.streams[i].reader.AtRead?
    ensures Joined(true) in s.log ==> forall i: Index :: s.streams[i].eof && !s.streams[i].error
  {
    RunKeepsInv(steps, s);
    ClosedIsUnread(s);
    hide Inv, Run, Harmless;
    forall i: Index | !s.streams[i].open ensures Harmless(s, i) && !s.streams[i].reader.AtRead? {
      ClosedIsHarmless(s, i);
    }
    forall i: Index | Joined(true) in s.log ensures s.streams[i].eof && !s.streams[i].error {
      SuccessIsEof(s, i);
    }
  }

  lemma ClosedIsUnread(s: State)
    requires Inv(s)
    ensures s.TwoStreams()
    ensures forall j, k :: 0 <= j < k < |s.log| && s.log[j].Closed? ==> s.log[k] != Read(s.log[j].i)
  {
    hide TasksOk, StreamsOk, JoinOk;
  }

  lemma ClosedIsHarmless(s: State, i: Index)
    requires Inv(s) && !s.streams[i].open
    ensures Harmless(s, i) && !s.streams[i].reader.AtRead?
  {
    hide TasksOk, LogOk, JoinOk;
    assert StreamOk(s, i);
  }

  lemma SuccessIsEof(s: State, i: Index)
    requires Inv(s) && Joined(true) in s.log
    ensures s.streams[i].eof && !s.streams[i].error
  {
    hide TasksOk, LogOk, StreamsOk, AtJoin, Checked;
  }
}
