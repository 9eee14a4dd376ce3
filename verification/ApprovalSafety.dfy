/** What every run of the approval protocol keeps. */
module ApprovalSafety {
  import opened Results
  import opened Approval
  import opened ApprovalProtocol
  import Order

  // ---- reading the phases backwards ----

  ghost predicate CreatedBefore(log: seq<Event>, n: nat, id: Id, snapshot: Snapshot, expiresAt: int)
    requires n <= |log|
  {
    exists h :: 0 <= h < n && log[h] == Created(log[h].who, id, snapshot, expiresAt)
  }

  ghost predicate ApprovedBefore(log: seq<Event>, n: nat, id: Id, snapshot: Snapshot, expiresAt: int)
    requires n <= |log|
  {
    exists i :: 0 <= i < n && log[i].Changed? && log[i].id == id && log[i].status == Approved
                && log[i].at < expiresAt && CreatedBefore(log, i, id, snapshot, expiresAt)
  }

  ghost predicate ConsumedBefore(log: seq<Event>, n: nat, id: Id, snapshot: Snapshot, expiresAt: int, p: Pid)
    requires n <= |log|
  {
    exists j :: 0 <= j < n && log[j].Changed? && log[j].who == p && log[j].id == id && log[j].status == Consumed
                && log[j].at < expiresAt && ApprovedBefore(log, j, id, snapshot, expiresAt)
  }

  lemma PhaseAt(log: seq<Event>, n: nat, id: Id)
    requires n < |log|
    ensures PhaseOf(log[..n + 1], id) == Advance(PhaseOf(log[..n], id), log[n], id)
  {
    assert log[..n + 1] == log[..n] + [log[n]];
    PhaseSnoc(log[..n], log[n]);
  }

  lemma {:induction false} BadStays(log: seq<Event>, m: nat, n: nat, id: Id)
    requires m <= n <= |log|
    ensures PhaseOf(log[..m], id).Bad? ==> PhaseOf(log[..n], id).Bad?
    ensures PhaseOf(log[..m], id).Done? && !PhaseOf(log[..n], id).Bad? ==> PhaseOf(log[..n], id).Done?
    decreases n
  {
    hide PhaseOf;
    if m < n {
      BadStays(log, m, n - 1, id);
      PhaseAt(log, n - 1, id);
    }
  }

  /** The phase after the first `n` events says which events are among them, and in which order. */
  lemma {:induction false} History(log: seq<Event>, n: nat, id: Id)
    requires n <= |log| && !PhaseOf(log[..n], id).Bad?
    ensures var ph := PhaseOf(log[..n], id);
            && (ph.Undecided? || ph.Denied? || ph.Lapsed? ==> CreatedBefore(log, n, id, ph.snapshot, ph.expiresAt))
            && (ph.Granted? ==> ApprovedBefore(log, n, id, ph.snapshot, ph.expiresAt))
            && (ph.Taken? ==> ConsumedBefore(log, n, id, ph.snapshot, ph.expiresAt, ph.who))
    decreases n
  {
    hide PhaseOf;
    if n == 0 {
      NothingYet(id);
      assert log[..0] == [];
    } else {
      PhaseAt(log, n - 1, id);
      BadStays(log, n - 1, n, id);
      History(log, n - 1, id);
      HistoryStep(log, n - 1, id);
    }
  }

  lemma NothingYet(id: Id)
    ensures PhaseOf([], id) == Unborn
  {
  }

  lemma Later(log: seq<Event>, n: nat, id: Id, snapshot: Snapshot, expiresAt: int, p: Pid)
    requires n < |log|
    ensures CreatedBefore(log, n, id, snapshot, expiresAt) ==> CreatedBefore(log, n + 1, id, snapshot, expiresAt)
    ensures ApprovedBefore(log, n, id, snapshot, expiresAt) ==>
              ApprovedBefore(log, n + 1, id, snapshot, expiresAt) && CreatedBefore(log, n + 1, id, snapshot, expiresAt)
    ensures ConsumedBefore(log, n, id, snapshot, expiresAt, p) ==> ConsumedBefore(log, n + 1, id, snapshot, expiresAt, p)
  {
  }

  lemma HistoryStep(log: seq<Event>, n: nat, id: Id)
    requires n < |log|
    requires var ph := PhaseOf(log[..n], id);
             && (ph.Undecided? || ph.Denied? || ph.Lapsed? ==> CreatedBefore(log, n, id, ph.snapshot, ph.expiresAt))
             && (ph.Granted? ==> ApprovedBefore(log, n, id, ph.snapshot, ph.expiresAt))
             && (ph.Taken? ==> ConsumedBefore(log, n, id, ph.snapshot, ph.expiresAt, ph.who))
    requires PhaseOf(log[..n + 1], id) == Advance(PhaseOf(log[..n], id), log[n], id)
    ensures var ph := PhaseOf(log[..n + 1], id);
            && (ph.Undecided? || ph.Denied? || ph.Lapsed? ==> CreatedBefore(log, n + 1, id, ph.snapshot, ph.expiresAt))
            && (ph.Granted? ==> ApprovedBefore(log, n + 1, id, ph.snapshot, ph.expiresAt))
            && (ph.Taken? ==> ConsumedBefore(log, n + 1, id, ph.snapshot, ph.expiresAt, ph.who))
  {
    hide PhaseOf, CreatedBefore, ApprovedBefore, ConsumedBefore;
    var ph, e := PhaseOf(log[..n], id), log[n];
    var next := PhaseOf(log[..n + 1], id);
    if !ph.Unborn? && !ph.Bad? {
      Later(log, n, id, ph.snapshot, ph.expiresAt, if ph.Taken? then ph.who else 0);
    }
    if next != ph && !next.Bad? {
      Witness(log, n, id, if next.Undecided? then next else ph);
    }
  }

  /** The new event itself is the witness of the new phase. */
  lemma Witness(log: seq<Event>, n: nat, id: Id, ph: Phase)
    requires n < |log| && !log[n].Sampled? && log[n].id == id && !ph.Unborn? && !ph.Bad?
    ensures log[n] == Created(log[n].who, id, ph.snapshot, ph.expiresAt) ==>
              CreatedBefore(log, n + 1, id, ph.snapshot, ph.expiresAt)
    ensures log[n].Changed? && log[n].status == Approved && log[n].at < ph.expiresAt
            && CreatedBefore(log, n, id, ph.snapshot, ph.expiresAt) ==>
              ApprovedBefore(log, n + 1, id, ph.snapshot, ph.expiresAt)
    ensures log[n].Changed? && log[n].status == Consumed && log[n].at < ph.expiresAt
            && ApprovedBefore(log, n, id, ph.snapshot, ph.expiresAt) ==>
              ConsumedBefore(log, n + 1, id, ph.snapshot, ph.expiresAt, log[n].who)
  {
  }

  // ---- at most once ----

  /** In every run, whatever is executed was consumed before by the same process, in time, after an
      approval in time, of a request created with exactly the executed snapshot; and nothing is
      executed twice. */
  lemma ExecutedOnce(steps: seq<Step>, s: State, k: nat)
    requires Run(steps, s)
    requires k < |s.log| && s.log[k].Executed?
    ensures exists expiresAt ::
              ConsumedBefore(s.log, k, s.log[k].id, s.log[k].snapshot, expiresAt, s.log[k].who)
    ensures s.log[k].via == s.log[k].snapshot.kind
    ensures forall m :: 0 <= m < |s.log| && m != k && s.log[m].Executed? ==> s.log[m].id != s.log[k].id
  {
    hide Inv, PhaseOf, Run;
    RunKeepsInv(steps, s);
    var log, id := s.log, s.log[k].id;
    NeverBad(s, k, id);
    NeverBad(s, k + 1, id);
    PhaseAt(log, k, id);
    History(log, k, id);
    var ph := PhaseOf(log[..k], id);
    assert ConsumedBefore(log, k, id, log[k].snapshot, ph.expiresAt, log[k].who);
    forall m | 0 <= m < |log| && m != k && log[m].Executed? ensures log[m].id != id {
      if log[m].id == id {
        PhaseAt(log, m, id);
        NeverBad(s, m, id);
        NeverBad(s, m + 1, id);
        BadStays(log, if k < m then k + 1 else m + 1, if k < m then m else k, id);
      }
    }
  }

  lemma NeverBad(s: State, n: nat, id: Id)
    requires Inv(s) && n <= |s.log|
    ensures !PhaseOf(s.log[..n], id).Bad?
  {
    hide Matches;
    BadStays(s.log, n, |s.log|, id);
    assert s.log[..|s.log|] == s.log;
  }

  // ---- clocks ----

  ghost predicate SampledBefore(log: seq<Event>, n: nat, p: Pid, at: int)
    requires n <= |log|
  {
    exists k :: 0 <= k < n && log[k] == Sampled(p, at)
  }

  /** The time a process works with, if it has read the clock. */
  function TimeOf(c: Control): Option<int> {
    if c.Reading? then Some(c.now)
    else if c.Writing? && c.work.Decision? then Some(c.now)
    else if WorkOf(c).Some? && WorkOf(c).value.Pruning? then Some(WorkOf(c).value.now)
    else None
  }

  /** Every time in the log, and every time a process works with, was read from the clock before. */
  ghost predicate ClocksRead(s: State) {
    && (forall j :: 0 <= j < |s.log| && (s.log[j].Changed? || s.log[j].Shown?) ==>
          SampledBefore(s.log, j, s.log[j].who, s.log[j].at))
    && (forall p: Pid :: TimeOf(ControlOf(s, p)).Some? ==>
          SampledBefore(s.log, |s.log|, p, TimeOf(ControlOf(s, p)).value))
  }

  lemma SampledStays(log: seq<Event>, more: seq<Event>, n: nat, p: Pid, at: int)
    requires n <= |log| && SampledBefore(log, n, p, at)
    ensures SampledBefore(log + more, n, p, at) && SampledBefore(log + more, |log + more|, p, at)
  {
    var k :| 0 <= k < n && log[k] == Sampled(p, at);
    assert (log + more)[k] == Sampled(p, at);
  }

  /** A step adds at most one event, and a time it brings in has just been read. */
  lemma ClocksStep(s: State, t: State, p: Pid, events: seq<Event>)
    requires ClocksRead(s) && |events| <= 1
    requires t.log == s.log + events
    requires forall q: Pid :: q != p ==> ControlOf(t, q) == ControlOf(s, q)
    requires events != [] && (events[0].Changed? || events[0].Shown?) ==>
               SampledBefore(s.log, |s.log|, events[0].who, events[0].at)
    requires var time := TimeOf(ControlOf(t, p));
             time.Some? ==> events == [Sampled(p, time.value)] || time == TimeOf(ControlOf(s, p))
    ensures ClocksRead(t)
  {
    hide ControlOf, SampledBefore, TimeOf;
    forall j | 0 <= j < |t.log| && (t.log[j].Changed? || t.log[j].Shown?)
      ensures SampledBefore(t.log, j, t.log[j].who, t.log[j].at)
    {
      if j < |s.log| {
        SampledStays(s.log, events, j, s.log[j].who, s.log[j].at);
      } else {
        SampledStays(s.log, events, j, t.log[j].who, t.log[j].at);
      }
    }
    forall q: Pid | TimeOf(ControlOf(t, q)).Some?
      ensures SampledBefore(t.log, |t.log|, q, TimeOf(ControlOf(t, q)).value)
    {
      var at := TimeOf(ControlOf(t, q)).value;
      if TimeOf(ControlOf(t, q)) == TimeOf(ControlOf(s, q)) {
        SampledStays(s.log, events, |s.log|, q, at);
      } else {
        JustSampled(t.log, q, at);
      }
    }
  }

  lemma JustSampled(log: seq<Event>, p: Pid, at: int)
    requires log != [] && log[|log| - 1] == Sampled(p, at)
    ensures SampledBefore(log, |log|, p, at)
  {
  }

  /** The events a step adds to the log. */
  function Added(s: State, step: Step): seq<Event>
    requires Enabled(s, step)
    ensures Do(s, step).log == s.log + Added(s, step)
    ensures |Added(s, step)| <= 1
  {
    var p, c := step.p, ControlOf(s, step.p);
    match step
    case StartPrune(_, _, now) => [Sampled(p, now)]
    case StartRead(_, _, now, _) => [Sampled(p, now)]
    case Look(_) =>
      if c.id !in s.store then []
      else if c.why.Observing? then
        if EffectiveStatus(s.store[c.id], c.now) == Expired then [Shown(p, c.id, c.now)] else []
      else if !PastExpiry(s.store[c.id], c.now) && s.store[c.id].status == Expired then [Returned(p, c.id)] else []
    case Compute(_, now) => if c.work.Decision? then [Sampled(p, now)] else []
    case Publish(_) => Events(p, c.work, c.copy, c.now)
    case Release(_) => Answered(p, c.told)
    case Execute(_) => [Executed(p, c.request.id, c.request.snapshot, c.via.value)]
    case _ => []
  }

  lemma {:induction false} RunReadsClocks(steps: seq<Step>, s: State)
    requires Run(steps, s)
    ensures ClocksRead(s)
    decreases |steps|
  {
    hide ClocksRead, Do, Enabled;
    if steps == [] {
      NoClocks();
    } else {
      var last := steps[|steps| - 1];
      var before :| Run(steps[..|steps| - 1], before) && Enabled(before, last) && s == Do(before, last);
      RunReadsClocks(steps[..|steps| - 1], before);
      StepReadsClocks(before, last);
    }
  }

  lemma NoClocks()
    ensures ClocksRead(START)
  {
  }

  lemma OthersKeepControl(s: State, step: Step)
    requires Enabled(s, step)
    ensures forall q: Pid :: q != step.p ==> ControlOf(Do(s, step), q) == ControlOf(s, q)
    ensures var time := TimeOf(ControlOf(Do(s, step), step.p));
            time.Some? ==> Added(s, step) == [Sampled(step.p, time.value)] || time == TimeOf(ControlOf(s, step.p))
  {
    hide Events, Outcome, Winner, Told, EffectiveStatus, PastExpiry;
  }

  lemma StepReadsClocks(s: State, step: Step)
    requires ClocksRead(s) && Enabled(s, step)
    ensures ClocksRead(Do(s, step))
  {
    hide Do, SampledBefore;
    OthersKeepControl(s, step);
    ClocksStep(s, Do(s, step), step.p, Added(s, step));
  }

  /** The clock never goes back between two times it is read. */
  ghost predicate Monotone(log: seq<Event>) {
    forall a, b :: 0 <= a < b < |log| && log[a].Sampled? && log[b].Sampled? ==> log[a].at <= log[b].at
  }

  lemma {:induction false} ExpiryFixed(log: seq<Event>, m: nat, n: nat, id: Id)
    requires m <= n <= |log| && !PhaseOf(log[..n], id).Bad? && !PhaseOf(log[..m], id).Unborn?
    ensures !PhaseOf(log[..m], id).Bad? && !PhaseOf(log[..n], id).Unborn?
    ensures PhaseOf(log[..n], id).expiresAt == PhaseOf(log[..m], id).expiresAt
    ensures PhaseOf(log[..m], id).Lapsed? ==> PhaseOf(log[..n], id).Lapsed?
    decreases n
  {
    hide PhaseOf;
    BadStays(log, m, n, id);
    if m < n {
      BadStays(log, n - 1, n, id);
      ExpiryFixed(log, m, n - 1, id);
      PhaseAt(log, n - 1, id);
    }
  }

  predicate IsDecision(e: Event) {
    e.Changed? && (e.status == Approved || e.status == Rejected || e.status == Consumed)
  }

  /** Once an observer has shown a request as expired, a decision on it can still be written only by a
      process that read an earlier time, and on a clock that never goes back read it first. */
  lemma DecisionAfterShown(steps: seq<Step>, s: State, i: nat, j: nat)
    requires Run(steps, s)
    requires i < j < |s.log|
    requires s.log[i].Shown? && IsDecision(s.log[j]) && s.log[j].id == s.log[i].id
    ensures s.log[j].at < s.log[i].at
    ensures Monotone(s.log) ==>
              exists k, m :: 0 <= k < m < i
                             && s.log[k] == Sampled(s.log[j].who, s.log[j].at)
                             && s.log[m] == Sampled(s.log[i].who, s.log[i].at)
  {
    hide Inv, PhaseOf, Run, ClocksRead;
    RunKeepsInv(steps, s);
    RunReadsClocks(steps, s);
    var log, id := s.log, s.log[i].id;
    NeverBad(s, i, id);
    NeverBad(s, i + 1, id);
    NeverBad(s, j, id);
    NeverBad(s, j + 1, id);
    PhaseAt(log, i, id);
    PhaseAt(log, j, id);
    ExpiryFixed(log, i, j, id);
    if Monotone(log) {
      BothSampled(s, i, j);
      var m :| 0 <= m < i && log[m] == Sampled(log[i].who, log[i].at);
      var k :| 0 <= k < j && log[k] == Sampled(log[j].who, log[j].at);
      assert k < m;
    }
  }

  lemma BothSampled(s: State, i: nat, j: nat)
    requires ClocksRead(s) && i < j < |s.log| && s.log[i].Shown? && s.log[j].Changed?
    ensures SampledBefore(s.log, i, s.log[i].who, s.log[i].at)
    ensures SampledBefore(s.log, j, s.log[j].who, s.log[j].at)
  {
    hide SampledBefore;
  }

  // ---- the store over a run ----

  /** What one step of any process can do to the store: create a pending request, move requests along
      the lifecycle, or, if it prunes, drop requests that are eligible at the pruner's time. */
  ghost predicate Evolves(a: Store, b: Store, pruning: Option<Work>) {
    && (forall id :: id in a && id in b && b[id] != a[id] ==>
          Edge(a[id].status, b[id].status)
          && b[id] == Settle(a[id], b[id].status, if b[id].decidedAt.Some? then b[id].decidedAt.value else 0)
          && TimelyRecord(b[id]))
    && (forall id :: id in b && id !in a ==> b[id].status == Pending && b[id].decidedAt == None)
    && (forall id :: id in a && id !in b ==>
          pruning.Some? && pruning.value.Pruning? && Eligible(a[id], pruning.value.cutoff, pruning.value.now))
  }

  /** The work a step publishes. */
  function PublishedWork(s: State, step: Step): Option<Work>
    requires Enabled(s, step)
  {
    if step.Publish? then Some(ControlOf(s, step.p).work) else None
  }

  /** Only a publication changes the store, and it works on the store as it is. */
  lemma StoreStep(s: State, step: Step)
    requires Inv(s) && Enabled(s, step)
    ensures !step.Publish? ==> Do(s, step).store == s.store
    ensures step.Publish? ==>
              var c := ControlOf(s, step.p);
              && c.Writing?
              && Do(s, step).store == Outcome(c.work, s.store, c.now)
              && (c.work.Creation? ==> c.work.request.status == Pending && c.work.request.decidedAt == None)
  {
    hide StoreTold, PrizesTaken, LockHeld, Outcome, Events, Winner;
    var c := ControlOf(s, step.p);
    if step.Publish? && c.work.Creation? {
      assert Creating(c) && NewOf(c) == c.work.request;
    }
  }

  lemma DecisionEvolves(store: Store, id: Id, d: Decision, now: int, work: Work)
    ensures Evolves(store, Decide(store, id, d, now), Some(work))
  {
    DecideMovesOneEdge(store, id, d, now);
    hide Decide, Succeeds, Edge, TimelyRecord, Eligible;
  }

  lemma CreationEvolves(store: Store, r: Request, now: int)
    requires r.status == Pending && r.decidedAt == None
    ensures Evolves(store, Outcome(Creation(r), store, now), Some(Creation(r)))
  {
    assert CreateError(store, r).None? ==> r.id !in store;
    hide CreateError, Eligible;
  }

  lemma PruningEvolves(store: Store, cutoff: int, now: int)
    ensures Evolves(store, Retained(store, cutoff, now), Some(Pruning(cutoff, now)))
  {
    hide Eligible;
  }

  lemma StepEvolves(s: State, step: Step)
    requires Inv(s) && Enabled(s, step)
    ensures Evolves(s.store, Do(s, step).store, PublishedWork(s, step))
  {
    StoreStep(s, step);
    var c := ControlOf(s, step.p);
    if !step.Publish? {
      assert Do(s, step).store == s.store && PublishedWork(s, step) == None;
      SameEvolves(s.store);
    } else {
      assert PublishedWork(s, step) == Some(c.work);
      hide Inv, Enabled, Do, Evolves, PublishedWork;
      if c.work.Decision? {
        DecisionEvolves(s.store, c.work.id, c.work.d, c.now, c.work);
      } else if c.work.Creation? {
        CreationEvolves(s.store, c.work.request, c.now);
      } else {
        PruningEvolves(s.store, c.work.cutoff, c.work.now);
      }
    }
  }

  lemma SameEvolves(store: Store)
    ensures Evolves(store, store, None)
  {
    hide Eligible;
  }

  /** What is eligible at one time no decision can change from then on. */
  lemma EligibleIsOver(store: Store, id: Id, cutoff: int, now: int)
    requires id in store && Eligible(store[id], cutoff, now)
    ensures forall d, at :: at >= now ==> !Succeeds(store, id, d, at)
  {
  }

  /** In every run, what a step drops was dropped by a pruner for whom it was eligible, at a time that
      the pruner had read from the clock; and no decision could have succeeded on it at that time or
      later. On a clock that never goes back that is any decision whose reading of the clock, before
      or after the removal, does not come before the pruner's. */
  lemma DroppedForGood(steps: seq<Step>, s: State, step: Step, id: Id) returns (k: nat)
    requires Run(steps, s) && Enabled(s, step)
    requires id in s.store && id !in Do(s, step).store
    ensures var c := ControlOf(s, step.p);
            && step.Publish? && c.work.Pruning? && Eligible(s.store[id], c.work.cutoff, c.work.now)
            && k < |s.log| && s.log[k] == Sampled(step.p, c.work.now)
            && forall d, at :: at >= c.work.now ==> !Succeeds(s.store, id, d, at)
    ensures Monotone(s.log) ==>
              forall m, d :: k <= m < |s.log| && s.log[m].Sampled? ==> !Succeeds(s.store, id, d, s.log[m].at)
    ensures forall q: Pid, at, d :: Monotone(s.log + [Sampled(q, at)]) ==> !Succeeds(s.store, id, d, at)
  {
    RunKeepsInv(steps, s);
    RunReadsClocks(steps, s);
    hide Inv, Run, Eligible, Succeeds, ClocksRead;
    k := DroppedByPruner(s, step, id);
    hide Do, Enabled, ControlOf;
    var now := ControlOf(s, step.p).work.now;
    EligibleIsOver(s.store, id, ControlOf(s, step.p).work.cutoff, now);
    forall q: Pid, at, d | Monotone(s.log + [Sampled(q, at)]) ensures !Succeeds(s.store, id, d, at) {
      var more := s.log + [Sampled(q, at)];
      assert more[k] == s.log[k] && more[|s.log|] == Sampled(q, at);
    }
  }

  lemma DroppedByPruner(s: State, step: Step, id: Id) returns (k: nat)
    requires Inv(s) && ClocksRead(s) && Enabled(s, step)
    requires id in s.store && id !in Do(s, step).store
    ensures var c := ControlOf(s, step.p);
            && step.Publish? && c.work.Pruning? && Eligible(s.store[id], c.work.cutoff, c.work.now)
            && k < |s.log| && s.log[k] == Sampled(step.p, c.work.now)
  {
    StepEvolves(s, step);
    hide Inv, Do, Eligible;
    var c := ControlOf(s, step.p);
    assert TimeOf(c) == Some(c.work.now);
    k :| k < |s.log| && s.log[k] == Sampled(step.p, c.work.now);
  }

  ghost predicate AllTimely(store: Store) {
    forall id :: id in store ==> TimelyRecord(store[id])
  }

  lemma StepKeepsStore(s: State, step: Step)
    requires Inv(s) && Enabled(s, step)
    requires Sound(s.store) && AllTimely(s.store)
    ensures Sound(Do(s, step).store) && AllTimely(Do(s, step).store)
  {
    StoreStep(s, step);
    StepEvolves(s, step);
    hide Inv, Enabled, Do, Sound, CreateError, Evolves;
    if step.Publish? {
      var c := ControlOf(s, step.p);
      match c.work {
        case Decision(d, id, _) => DecideKeepsSound(s.store, id, d, c.now);
        case Creation(r) =>
          if CreateError(s.store, r).None? {
            CreateKeepsSound(s.store, r);
          }
        case Pruning(cutoff, now) => PruneKeepsSound(s.store, cutoff, now);
      }
    }
  }

  /** In every run: each decided request was decided before its expiry, there are at most 10,000
      records, and the store is never larger than what the program is willing to read back. */
  lemma {:induction false} RunKeepsStore(steps: seq<Step>, s: State)
    requires Run(steps, s)
    ensures AllTimely(s.store)
    ensures Sound(s.store)
    ensures StoreBytes(s.store) < MAX_APPROVAL_STORE_READ_BYTES
    decreases |steps|
  {
    hide Do, Enabled, Sound, AllTimely, Inv, StoreBytes;
    if steps == [] {
      EmptyStore();
    } else {
      var last := steps[|steps| - 1];
      var before :| Run(steps[..|steps| - 1], before) && Enabled(before, last) && s == Do(before, last);
      RunKeepsStore(steps[..|steps| - 1], before);
      RunKeepsInv(steps[..|steps| - 1], before);
      StepKeepsStore(before, last);
    }
    SoundIsReadable(s.store);
  }

  lemma EmptyStore()
    ensures Sound(map[]) && AllTimely(map[])
  {
    assert Weights(map[], true) == map[];
    Order.SumEmpty();
  }
}
