/** Runs of the approval protocol that show what is possible. */
module ApprovalRuns {
  import opened Results
  import opened Approval
  import opened ApprovalProtocol
  import opened ApprovalSafety
  import Order

  lemma RunStep(steps: seq<Step>, s: State, step: Step, t: State)
    requires Run(steps, s) && Enabled(s, step)
    requires var next := Do(s, step);
             && next.store == t.store && next.lock == t.lock && next.control == t.control
             && next.issued == t.issued && next.log == t.log
    ensures Run(steps + [step], t)
  {
    hide Do, Enabled;
    var all := steps + [step];
    assert all[..|all| - 1] == steps;
    assert Run(all[..|all| - 1], s) && Enabled(s, all[|all| - 1]) && t == Do(s, all[|all| - 1]);
  }

  /** A waiting process takes a free lock, loads the store and computes its change. */
  lemma GoesToWriting(steps0: seq<Step>, s: State, p: Pid, w: Work, now: int) returns (steps: seq<Step>)
    requires Run(steps0, s) && s.lock.None? && ControlOf(s, p) == Waiting(w)
    ensures Run(steps, State(s.store, Some(p), s.control[p := Writing(w, now, s.store)], s.issued,
                             s.log + if w.Decision? then [Sampled(p, now)] else []))
  {
    hide Run;
    var locked := s.(lock := Some(p), control := s.control[p := Locked(w)]);
    RunStep(steps0, s, Acquire(p), locked);
    var loaded := locked.(control := s.control[p := Loaded(w, s.store)]);
    RunStep(steps0 + [Acquire(p)], locked, Load(p), loaded);
    var writing := loaded.(control := s.control[p := Writing(w, now, s.store)],
                           log := s.log + if w.Decision? then [Sampled(p, now)] else []);
    RunStep(steps0 + [Acquire(p)] + [Load(p)], loaded, Compute(p, now), writing);
    steps := steps0 + [Acquire(p)] + [Load(p)] + [Compute(p, now)];
  }

  /** ... and publishes it and releases the lock. */
  lemma Completes(steps0: seq<Step>, s: State, p: Pid, w: Work, now: int) returns (steps: seq<Step>, t: State)
    requires Run(steps0, s) && s.lock.None? && ControlOf(s, p) == Waiting(w)
    ensures Run(steps, t) && t.lock.None? && t.issued == s.issued
    ensures t.store == Outcome(w, s.store, now)
    ensures t.log == s.log + (if w.Decision? then [Sampled(p, now)] else []) + Events(p, w, s.store, now)
                     + Answered(p, Told(w, s.store, now))
    ensures ControlOf(t, p) == (if Winner(w, s.store, now).Some? then Won(Winner(w, s.store, now).value, Via(w)) else Idle)
    ensures forall q: Pid :: q != p ==> ControlOf(t, q) == ControlOf(s, q)
  {
    hide Run, Outcome, Events, Winner, Told;
    var won := Winner(w, s.store, now);
    steps := GoesToWriting(steps0, s, p, w, now);
    var writing := State(s.store, Some(p), s.control[p := Writing(w, now, s.store)], s.issued,
                         s.log + if w.Decision? then [Sampled(p, now)] else []);
    var published := State(Outcome(w, s.store, now), Some(p), writing.control[p := Finished(won, Via(w), Told(w, s.store, now))], s.issued,
                           writing.log + Events(p, w, s.store, now));
    RunStep(steps, writing, Publish(p), published);
    t := published.(lock := None, control := published.control[p := if won.Some? then Won(won.value, Via(w)) else Idle],
                    log := published.log + Answered(p, Told(w, s.store, now)));
    RunStep(steps + [Publish(p)], published, Release(p), t);
    steps := steps + [Publish(p)] + [Release(p)];
  }

  /** Process 0 creates a request that expires at 10. */
  lemma CreatedByZero(r: Request) returns (steps: seq<Step>, s: State)
    requires r == NewRequest("r", Snapshot(Shell, "a", 0), 0, 10)
    ensures Run(steps, s) && s.lock.None? && s.store == map["r" := r]
    ensures ControlOf(s, 1) == Idle && ControlOf(s, 2) == Idle && ControlOf(s, 3) == Idle
    ensures s.log == [Created(0, "r", r.snapshot, 10)]
  {
    hide Run, CreateError;
    SmallStore(r);
    StartRuns();
    var waiting := State(map[], None, map[0 := Waiting(Creation(r))], {"r"}, []);
    RunStep([], START, StartCreate(0, r), waiting);
    steps, s := Completes([] + [StartCreate(0, r)], waiting, 0, Creation(r), 0);
  }

  /** Runs do execute: process 1 approves at 5, and process 2 resumes the request at 6. */
  lemma ExecutionHappens() returns (steps: seq<Step>, s: State)
    ensures Run(steps, s) && Monotone(s.log)
    ensures Executed(2, "r", Snapshot(Shell, "a", 0), Shell) in s.log
  {
    hide Run, Monotone;
    var r := NewRequest("r", Snapshot(Shell, "a", 0), 0, 10);
    steps, s := CreatedByZero(r);
    var approve := Decision(Approve, "r");
    RunStep(steps, s, StartDecision(1, Approve, "r"), Goto(s, 1, Waiting(approve)));
    var approved := Settle(r, Approved, 5);
    steps, s := Completes(steps + [StartDecision(1, Approve, "r")], Goto(s, 1, Waiting(approve)), 1, approve, 5);
    assert s.store == map["r" := approved];
    steps, s := Resumes(steps, s, approved);
  }

  lemma Resumes(steps0: seq<Step>, s0: State, r: Request) returns (steps: seq<Step>, s: State)
    requires r == Settle(NewRequest("r", Snapshot(Shell, "a", 0), 0, 10), Approved, 5)
    requires Run(steps0, s0) && s0.store == map["r" := r] && s0.lock.None? && ControlOf(s0, 2) == Idle
    requires s0.log == [Created(0, "r", r.snapshot, 10), Sampled(1, 5), Changed(1, "r", Approved, 5)]
    ensures Run(steps, s) && Monotone(s.log)
    ensures Executed(2, "r", Snapshot(Shell, "a", 0), Shell) in s.log
  {
    hide Run;
    var won := Settle(r, Consumed, 6);
    steps, s := Wins(steps0, s0, r);
    var e := Executed(2, "r", r.snapshot, Shell);
    RunStep(steps, s, Execute(2), Goto(s.(log := s.log + [e]), 2, Idle));
    steps, s := steps + [Execute(2)], Goto(s.(log := s.log + [e]), 2, Idle);
    hide Goto, Do, Enabled;
    assert s.log == [Created(0, "r", r.snapshot, 10), Sampled(1, 5), Changed(1, "r", Approved, 5),
                     Sampled(2, 6), Sampled(2, 6), Changed(2, "r", Consumed, 6), e];
  }

  /** Process 2 finds the request approved and consumes it. */
  lemma Wins(steps0: seq<Step>, s0: State, r: Request) returns (steps: seq<Step>, s: State)
    requires r == Settle(NewRequest("r", Snapshot(Shell, "a", 0), 0, 10), Approved, 5)
    requires Run(steps0, s0) && s0.store == map["r" := r] && s0.lock.None? && ControlOf(s0, 2) == Idle
    ensures Run(steps, s) && ControlOf(s, 2) == Won(Settle(r, Consumed, 6), Some(Shell))
    ensures s.log == s0.log + [Sampled(2, 6), Sampled(2, 6), Changed(2, "r", Consumed, 6)]
  {
    hide Run;
    var waiting;
    steps, waiting := Looks(steps0, s0, r);
    var consume := Decision(Consume, "r", Some(Shell));
    steps, s := Completes(steps, waiting, 2, consume, 6);
    hide Goto, Do, Enabled;
    assert Told(consume, waiting.store, 6) == None;
  }

  lemma Looks(steps0: seq<Step>, s0: State, r: Request) returns (steps: seq<Step>, s: State)
    requires r == Settle(NewRequest("r", Snapshot(Shell, "a", 0), 0, 10), Approved, 5)
    requires Run(steps0, s0) && s0.store == map["r" := r] && s0.lock.None? && ControlOf(s0, 2) == Idle
    ensures Run(steps, s) && s.store == s0.store && s.lock.None? && s.log == s0.log + [Sampled(2, 6)]
    ensures ControlOf(s, 2) == Waiting(Decision(Consume, "r", Some(Shell))) && ControlOf(s, 3) == ControlOf(s0, 3)
  {
    hide Run;
    var start := StartRead(2, "r", 6, Resuming(Shell));
    var reading := Goto(s0.(log := s0.log + [Sampled(2, 6)]), 2, Reading("r", 6, Resuming(Shell)));
    RunStep(steps0, s0, start, reading);
    s := Goto(reading, 2, Waiting(Decision(Consume, "r", Some(Shell))));
    RunStep(steps0 + [start], reading, Look(2), s);
    steps := steps0 + [start] + [Look(2)];
  }

  /** What `get_request` returns need not be what is stored: process 2 consumes at 9; process 3 looks at 10,
      before that is published, and takes the lock after it; it returns the request as expired, and
      process 2 executes it. */
  lemma ExecutionAfterReturn() returns (steps: seq<Step>, s: State)
    ensures Run(steps, s) && Monotone(s.log)
    ensures exists i, j :: 0 <= i < j < |s.log| && s.log[i] == Returned(3, "r")
                           && s.log[j] == Executed(2, "r", Snapshot(Shell, "a", 0), Shell)
  {
    hide Run;
    var r := NewRequest("r", Snapshot(Shell, "a", 0), 0, 10);
    steps, s := CreatedByZero(r);
    var approve := Decision(Approve, "r");
    RunStep(steps, s, StartDecision(1, Approve, "r"), Goto(s, 1, Waiting(approve)));
    var approved := Settle(r, Approved, 5);
    steps, s := Completes(steps + [StartDecision(1, Approve, "r")], Goto(s, 1, Waiting(approve)), 1, approve, 5);
    assert s.store == map["r" := approved];
    steps, s := Overtakes(steps, s, approved);
  }

  lemma Overtakes(steps0: seq<Step>, s0: State, r: Request) returns (steps: seq<Step>, s: State)
    requires r == Settle(NewRequest("r", Snapshot(Shell, "a", 0), 0, 10), Approved, 5)
    requires Run(steps0, s0) && s0.store == map["r" := r] && s0.lock.None?
    requires ControlOf(s0, 2) == Idle && ControlOf(s0, 3) == Idle
    requires s0.log == [Created(0, "r", r.snapshot, 10), Sampled(1, 5), Changed(1, "r", Approved, 5)]
    ensures Run(steps, s) && Monotone(s.log)
    ensures exists i, j :: 0 <= i < j < |s.log| && s.log[i] == Returned(3, "r")
                           && s.log[j] == Executed(2, "r", Snapshot(Shell, "a", 0), Shell)
  {
    hide Run;
    var won := Settle(r, Consumed, 9);
    steps, s := LooksInBetween(steps0, s0, r);
    var expire := Decision(Expire, "r");
    steps, s := Completes(steps, s, 3, expire, 11);
    var e := Executed(2, "r", r.snapshot, Shell);
    var end := Goto(s.(log := s.log + [e]), 2, Idle);
    RunStep(steps, s, Execute(2), end);
    steps, s := steps + [Execute(2)], end;
    hide Do, Goto, Enabled, ControlOf;
    assert s.log == [Created(0, "r", r.snapshot, 10), Sampled(1, 5), Changed(1, "r", Approved, 5), Sampled(2, 6),
                     Sampled(2, 9), Sampled(3, 10), Changed(2, "r", Consumed, 9), Sampled(3, 11), Returned(3, "r"), e];
    assert s.log[8] == Returned(3, "r") && s.log[9] == e;
  }

  /** Process 2 is about to write its consumption when process 3 looks. */
  lemma LooksInBetween(steps0: seq<Step>, s0: State, r: Request) returns (steps: seq<Step>, s: State)
    requires r == Settle(NewRequest("r", Snapshot(Shell, "a", 0), 0, 10), Approved, 5)
    requires Run(steps0, s0) && s0.store == map["r" := r] && s0.lock.None?
    requires ControlOf(s0, 2) == Idle && ControlOf(s0, 3) == Idle
    ensures Run(steps, s) && s.lock.None? && s.store == map["r" := Settle(r, Consumed, 9)]
    ensures ControlOf(s, 3) == Waiting(Decision(Expire, "r"))
    ensures ControlOf(s, 2) == Won(Settle(r, Consumed, 9), Some(Shell))
    ensures s.log == s0.log + [Sampled(2, 6), Sampled(2, 9), Sampled(3, 10), Changed(2, "r", Consumed, 9)]
  {
    hide Run;
    var consume := Decision(Consume, "r", Some(Shell));
    var waiting;
    steps, waiting := Looks(steps0, s0, r);
    steps := GoesToWriting(steps, waiting, 2, consume, 9);
    var writing := State(s0.store, Some(2), waiting.control[2 := Writing(consume, 9, s0.store)], waiting.issued,
                         waiting.log + [Sampled(2, 9)]);
    var looking;
    steps, looking := ThirdLooks(steps, writing, r);
    steps, s := Consumes(steps, looking, r);
  }

  lemma ThirdLooks(steps0: seq<Step>, s0: State, r: Request) returns (steps: seq<Step>, s: State)
    requires r == Settle(NewRequest("r", Snapshot(Shell, "a", 0), 0, 10), Approved, 5)
    requires Run(steps0, s0) && s0.store == map["r" := r] && ControlOf(s0, 3) == Idle
    ensures Run(steps, s) && s.store == s0.store && s.lock == s0.lock && s.log == s0.log + [Sampled(3, 10)]
    ensures ControlOf(s, 3) == Waiting(Decision(Expire, "r")) && ControlOf(s, 2) == ControlOf(s0, 2)
  {
    hide Run;
    var start := StartRead(3, "r", 10, Getting);
    var reading := Goto(s0.(log := s0.log + [Sampled(3, 10)]), 3, Reading("r", 10, Getting));
    RunStep(steps0, s0, start, reading);
    s := Goto(reading, 3, Waiting(Decision(Expire, "r")));
    RunStep(steps0 + [start], reading, Look(3), s);
    steps := steps0 + [start] + [Look(3)];
  }

  lemma Consumes(steps0: seq<Step>, s0: State, r: Request) returns (steps: seq<Step>, s: State)
    requires r == Settle(NewRequest("r", Snapshot(Shell, "a", 0), 0, 10), Approved, 5)
    requires Run(steps0, s0) && s0.store == map["r" := r]
    requires ControlOf(s0, 2) == Writing(Decision(Consume, "r", Some(Shell)), 9, s0.store)
    ensures Run(steps, s) && s.lock.None? && s.store == map["r" := Settle(r, Consumed, 9)]
    ensures ControlOf(s, 2) == Won(Settle(r, Consumed, 9), Some(Shell)) && ControlOf(s, 3) == ControlOf(s0, 3)
    ensures s.log == s0.log + [Changed(2, "r", Consumed, 9)]
  {
    hide Run;
    var published := Do(s0, Publish(2));
    RunStep(steps0, s0, Publish(2), published);
    assert published.store == map["r" := Settle(r, Consumed, 9)];
    assert ControlOf(published, 2) == Finished(Some(Settle(r, Consumed, 9)), Some(Shell), None);
    s := Do(published, Release(2));
    RunStep(steps0 + [Publish(2)], published, Release(2), s);
    steps := steps0 + [Publish(2)] + [Release(2)];
    assert s.log == s0.log + [Changed(2, "r", Consumed, 9)] + [];
  }

  /** What an observer shows is not final: process 1 reads the clock at 9, process 2 shows the request
      as expired at 10 and is done, and process 1 then writes its approval. */
  lemma ApprovalAfterShown() returns (steps: seq<Step>, s: State)
    ensures Run(steps, s) && Monotone(s.log)
    ensures exists i, j :: 0 <= i < j < |s.log| && s.log[i] == Shown(2, "r", 10)
                           && s.log[j] == Changed(1, "r", Approved, 9)
    ensures ControlOf(s, 2) == Idle
  {
    hide Run;
    var r := NewRequest("r", Snapshot(Shell, "a", 0), 0, 10);
    var w := Decision(Approve, "r");
    steps, s := CreatedByZero(r);
    var waiting := Goto(s, 1, Waiting(w));
    RunStep(steps, s, StartDecision(1, Approve, "r"), waiting);
    steps := GoesToWriting(steps + [StartDecision(1, Approve, "r")], waiting, 1, w, 9);
    s := State(s.store, Some(1), waiting.control[1 := Writing(w, 9, s.store)], s.issued, s.log + [Sampled(1, 9)]);
    steps, s := ShownThenPublished(steps, s, r);
  }

  lemma ShownThenPublished(steps0: seq<Step>, s0: State, r: Request) returns (steps: seq<Step>, s: State)
    requires r == NewRequest("r", Snapshot(Shell, "a", 0), 0, 10)
    requires Run(steps0, s0) && s0.store == map["r" := r]
    requires ControlOf(s0, 1) == Writing(Decision(Approve, "r"), 9, s0.store) && ControlOf(s0, 2) == Idle
    requires s0.log == [Created(0, "r", r.snapshot, 10), Sampled(1, 9)]
    ensures Run(steps, s) && Monotone(s.log) && ControlOf(s, 2) == Idle
    ensures exists i, j :: 0 <= i < j < |s.log| && s.log[i] == Shown(2, "r", 10)
                           && s.log[j] == Changed(1, "r", Approved, 9)
  {
    hide Run;
    var shown;
    steps, shown := Observes(steps0, s0, r);
    var e := Changed(1, "r", Approved, 9);
    s := Do(shown, Publish(1));
    RunStep(steps, shown, Publish(1), s);
    steps := steps + [Publish(1)];
    assert s.log == shown.log + [e];
    assert ControlOf(s, 2) == ControlOf(shown, 2);
    hide Do, Goto, Enabled, ControlOf;
    assert s.log == [Created(0, "r", r.snapshot, 10), Sampled(1, 9), Sampled(2, 10), Shown(2, "r", 10), e];
    assert s.log[3] == Shown(2, "r", 10) && s.log[4] == e;
  }

  /** Process 2 looks at 10, shows the expiry and is done. */
  lemma Observes(steps0: seq<Step>, s0: State, r: Request) returns (steps: seq<Step>, s: State)
    requires r == NewRequest("r", Snapshot(Shell, "a", 0), 0, 10)
    requires Run(steps0, s0) && s0.store == map["r" := r] && ControlOf(s0, 2) == Idle
    ensures Run(steps, s) && s.store == s0.store && ControlOf(s, 2) == Idle && ControlOf(s, 1) == ControlOf(s0, 1)
    ensures s.log == s0.log + [Sampled(2, 10), Shown(2, "r", 10)]
  {
    hide Run;
    var start := StartRead(2, "r", 10, Observing);
    var reading := Goto(s0.(log := s0.log + [Sampled(2, 10)]), 2, Reading("r", 10, Observing));
    RunStep(steps0, s0, start, reading);
    s := Goto(reading.(log := reading.log + [Shown(2, "r", 10)]), 2, Idle);
    RunStep(steps0 + [start], reading, Look(2), s);
    steps := steps0 + [start] + [Look(2)];
  }

  lemma StartRuns()
    ensures Run([], START)
  {
  }

  lemma SmallStore(r: Request)
    requires r.snapshot.bytes == 0 && r.status == Pending && r.decidedAt == None
    ensures CreateError(map[], r).None?
  {
    var m := Weights(map[][r.id := r], false);
    Order.SumRemove(m, r.id);
    assert m - {r.id} == map[];
    Order.SumEmpty();
  }
}
