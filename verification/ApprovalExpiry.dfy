/** On a clock that never goes back an expiry is never written down before its time. */
module ApprovalExpiry {
  import opened Results
  import opened Approval
  import opened ApprovalProtocol
  import opened ApprovalSafety
  import opened ApprovalReports

  /** Some process has read a time at or behind `at`. */
  ghost predicate Passed(log: seq<Event>, at: int) {
    exists k :: 0 <= k < |log| && log[k].Sampled? && log[k].at >= at
  }

  /** Every expiry written down was due; and whoever is writing one down knows that it is. */
  ghost predicate ExpiriesDue(s: State) {
    && (forall id :: id in s.store && s.store[id].status == Expired ==>
          s.store[id].decidedAt.Some? && s.store[id].decidedAt.value >= s.store[id].expiresAt)
    && (forall p: Pid, id :: Expires(ControlOf(s, p), id) && id in s.store ==>
          && Passed(s.log, s.store[id].expiresAt)
          && (ControlOf(s, p).Writing? ==> ControlOf(s, p).now >= s.store[id].expiresAt))
  }

  lemma PassedStays(a: seq<Event>, b: seq<Event>, at: int)
    requires a <= b && Passed(a, at)
    ensures Passed(b, at)
  {
    var k :| 0 <= k < |a| && a[k].Sampled? && a[k].at >= at;
    assert b[k] == a[k];
  }

  /** A request stored before and after a step expires when it did. */
  lemma ExpiryStays(s: State, step: Step, id: Id)
    requires Inv(s) && Enabled(s, step) && id in s.store && id in Do(s, step).store
    ensures Do(s, step).store[id].expiresAt == s.store[id].expiresAt
  {
    StepEvolves(s, step);
    hide Inv, Do, Enabled, Eligible;
  }

  /** Whoever goes on to write, or to write down, an expiry. */
  lemma WriterKnows(s: State, step: Step, p: Pid, id: Id)
    requires Inv(s) && ClocksRead(s) && Enabled(s, step) && ExpiriesDue(s) && Monotone(Do(s, step).log)
    requires Expires(ControlOf(Do(s, step), p), id) && id in s.store
    ensures Passed(Do(s, step).log, s.store[id].expiresAt)
    ensures ControlOf(Do(s, step), p).Writing? ==> ControlOf(Do(s, step), p).now >= s.store[id].expiresAt
  {
    var t, at := Do(s, step), s.store[id].expiresAt;
    assert t.log == s.log + Added(s, step);
    if Expires(ControlOf(s, p), id) {
      PassedStays(s.log, t.log, at);
      WritesNow(s, step, p, id);
      if ControlOf(t, p).Writing? && ControlOf(s, p) != ControlOf(t, p) {
        var k :| 0 <= k < |s.log| && s.log[k].Sampled? && s.log[k].at >= at;
        LaterIsNotEarlier(s.log, k, Added(s, step)[0]);
      }
    } else {
      NewlyExpires(s, step, p, id);
      assert TimeOf(ControlOf(s, p)) == Some(ControlOf(s, p).now);
      var k :| 0 <= k < |s.log| && s.log[k] == Sampled(p, ControlOf(s, p).now);
      assert Passed(s.log, at);
      PassedStays(s.log, t.log, at);
    }
  }

  lemma WritesNow(s: State, step: Step, p: Pid, id: Id)
    requires Inv(s) && Enabled(s, step) && Expires(ControlOf(s, p), id) && Expires(ControlOf(Do(s, step), p), id)
    ensures var c := ControlOf(Do(s, step), p);
            c.Writing? && ControlOf(s, p) != c ==> Added(s, step) == [Sampled(p, c.now)]
  {
    OthersKeepControl(s, step);
    hide Inv, Outcome, Events, Winner, Told, Answered, EffectiveStatus, Looked;
    if step.Look? {
      assert !Expires(ControlOf(s, step.p), id);
    }
  }

  lemma NewStep(s: State, step: Step, p: Pid, id: Id)
    requires Inv(s) && Enabled(s, step) && Expires(ControlOf(Do(s, step), p), id) && id in Do(s, step).store
    requires forall q: Pid, k :: Expires(ControlOf(s, q), k) ==> !PhaseOf(s.log, k).Unborn?
    ensures id in s.store
  {
    ExpiresSince(s, step, p, id);
    if id !in s.store {
      NotRecreated(s, step, id);
    }
  }

  /** What a publication stores as expired was so before, or is due. */
  lemma PublishedIsDue(s: State, p: Pid, id: Id)
    requires Inv(s) && Enabled(s, Publish(p)) && ExpiriesDue(s)
    requires id in Do(s, Publish(p)).store && Do(s, Publish(p)).store[id].status == Expired
    ensures var r := Do(s, Publish(p)).store[id]; r.decidedAt.Some? && r.decidedAt.value >= r.expiresAt
  {
    StoreStep(s, Publish(p));
    var c := ControlOf(s, p);
    assert c.work.Decision? && c.work.d == Expire ==> Expires(c, c.work.id);
    hide Inv, Do, Eligible, CreateError;
  }

  lemma StepKeepsDue(s: State, step: Step)
    requires Inv(s) && ClocksRead(s) && TellsOver(s) && Enabled(s, step) && ExpiriesDue(s) && Monotone(Do(s, step).log)
    ensures ExpiriesDue(Do(s, step))
  {
    var t := Do(s, step);
    forall id | id in t.store && t.store[id].status == Expired
      ensures t.store[id].decidedAt.Some? && t.store[id].decidedAt.value >= t.store[id].expiresAt
    {
      if step.Publish? {
        PublishedIsDue(s, step.p, id);
      } else {
        StoreStep(s, step);
      }
    }
    forall p: Pid, id | Expires(ControlOf(t, p), id) && id in t.store
      ensures Passed(t.log, t.store[id].expiresAt)
      ensures ControlOf(t, p).Writing? ==> ControlOf(t, p).now >= t.store[id].expiresAt
    {
      NewStep(s, step, p, id);
      ExpiryStays(s, step, id);
      WriterKnows(s, step, p, id);
    }
  }

  /** In every run on a clock that never goes back, every request stored as expired was written down at or
      behind its expiry. */
  lemma {:induction false} RunKeepsDue(steps: seq<Step>, s: State)
    requires Run(steps, s) && Monotone(s.log)
    ensures ExpiriesDue(s)
    decreases |steps|
  {
    hide ExpiriesDue, Do, Enabled, Inv, ClocksRead, TellsOver, Monotone;
    if steps == [] {
      NothingDue();
    } else {
      var last, m := steps[|steps| - 1], |steps| - 1;
      var before :| Run(steps[..m], before) && Enabled(before, last) && s == Do(before, last);
      assert s.log == before.log + Added(before, last);
      MonotonePrefix(before.log, Added(before, last));
      RunKeepsDue(steps[..m], before);
      RunKeepsInv(steps[..m], before);
      RunReadsClocks(steps[..m], before);
      RunTellsOver(steps[..m], before);
      StepKeepsDue(before, last);
    }
  }

  lemma NothingDue()
    ensures ExpiriesDue(START)
  {
  }
}
