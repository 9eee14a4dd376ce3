/** What it is worth when a process learns that a request has expired. If the call had the lock or found
    the expiry written down, no decision follows, though one may have come in between. If it merely
    looked, a decision follows exactly if a writer is poised. */
module ApprovalReports {
  import opened Results
  import opened Approval
  import opened ApprovalProtocol
  import opened ApprovalSafety

  // ---- returned by a call that had the lock ----

  /** The request has been created, and what is stored of it, if anything, no decision changes. */
  ghost predicate Over(s: State, id: Id) {
    && !PhaseOf(s.log, id).Unborn?
    && (id in s.store ==> !IsLive(s.store[id].status))
  }

  predicate Expires(c: Control, id: Id) {
    WorkOf(c).Some? && WorkOf(c).value.Decision? && WorkOf(c).value.d == Expire && WorkOf(c).value.id == id
  }

  /** Whoever writes an expiry down has seen the request; and what has been told is over. */
  ghost predicate TellsOver(s: State) {
    && (forall p: Pid, id :: Expires(ControlOf(s, p), id) ==> !PhaseOf(s.log, id).Unborn?)
    && (forall p: Pid :: ControlOf(s, p).Finished? && ControlOf(s, p).told.Some? ==>
          Over(s, ControlOf(s, p).told.value))
    && (forall i :: 0 <= i < |s.log| && s.log[i].Returned? ==> Over(s, s.log[i].id))
    && (forall i, j :: 0 <= i < j < |s.log| && s.log[i].Returned? && s.log[j].Changed? ==> s.log[j].id != s.log[i].id)
  }

  /** A request once created stays so in the history. */
  lemma BornStays(s: State, step: Step, id: Id)
    requires Inv(s) && Enabled(s, step)
    ensures !PhaseOf(s.log, id).Unborn? ==> !PhaseOf(Do(s, step).log, id).Unborn?
  {
    var events := Added(s, step);
    assert Do(s, step).log == s.log + events;
    hide Inv, Enabled, Do, Added;
    if events == [] {
      assert s.log + events == s.log;
    } else {
      assert events == [events[0]];
      PhaseSnoc(s.log, events[0]);
    }
  }

  lemma OverStays(s: State, step: Step, id: Id)
    requires Inv(s) && Enabled(s, step) && Over(s, id)
    ensures Over(Do(s, step), id)
    ensures forall e :: e in Added(s, step) && e.Changed? ==> e.id != id
  {
    BornStays(s, step, id);
    NotRecreated(s, step, id);
    StepEvolves(s, step);
    if step.Publish? {
      OverIsNotChanged(s, step.p, id);
    } else {
      NothingChanged(s, step);
    }
    hide Inv, Do, Added, PhaseOf, Settle, TimelyRecord, Eligible;
  }

  lemma OverIsNotChanged(s: State, p: Pid, id: Id)
    requires Inv(s) && Enabled(s, Publish(p)) && (id in s.store ==> !IsLive(s.store[id].status))
    ensures forall e :: e in Added(s, Publish(p)) && e.Changed? ==> e.id != id
  {
    assert ControlOf(s, p).copy == s.store;
    hide Inv, Do;
  }

  lemma NothingChanged(s: State, step: Step)
    requires Enabled(s, step) && !step.Publish?
    ensures forall e :: e in Added(s, step) ==> !e.Changed?
  {
    hide Do;
  }

  /** Ids are not issued twice. */
  lemma NotRecreated(s: State, step: Step, id: Id)
    requires Inv(s) && Enabled(s, step) && !PhaseOf(s.log, id).Unborn?
    ensures id in Do(s, step).store ==> id in s.store
  {
    StoreStep(s, step);
    if step.Publish? {
      var c := ControlOf(s, step.p);
      if c.work.Creation? {
        assert Creating(c) && NewOf(c) == c.work.request;
      }
      hide PhaseOf, CreateError, Eligible, Do;
    }
  }

  lemma StoredIsBorn(s: State, id: Id)
    requires Inv(s) && id in s.store
    ensures !PhaseOf(s.log, id).Unborn?
  {
    hide PhaseOf;
  }

  /** After its publication a locked call that ends in "expired" has a request before it that is over:
      expired, or, if it had only looked for itself before, perhaps settled otherwise meanwhile. */
  lemma ToldIsOver(s: State, p: Pid)
    requires Inv(s) && Enabled(s, Publish(p))
    requires forall id :: Expires(ControlOf(s, p), id) ==> !PhaseOf(s.log, id).Unborn?
    ensures var told := Told(ControlOf(s, p).work, s.store, ControlOf(s, p).now);
            told.Some? ==> Over(Do(s, Publish(p)), told.value)
  {
    var c := ControlOf(s, p);
    StoreStep(s, Publish(p));
    if Told(c.work, s.store, c.now).Some? {
      var id := c.work.id;
      assert Expires(c, id) <==> c.work.d == Expire;
      if id in s.store {
        StoredIsBorn(s, id);
      }
      BornStays(s, Publish(p), id);
      hide PhaseOf, Inv, Do;
    }
  }

  /** A process about to write an expiry down was so before, or has just seen the request. */
  lemma ExpiresSince(s: State, step: Step, p: Pid, id: Id)
    requires Inv(s) && Enabled(s, step) && Expires(ControlOf(Do(s, step), p), id)
    ensures Expires(ControlOf(s, p), id) || id in s.store
  {
    hide Inv, Outcome, Events, Winner, Told, Answered, EffectiveStatus;
    OthersKeepControl(s, step);
  }

  /** A process that has something to tell had it before, or has just published. */
  lemma ToldSince(s: State, step: Step, p: Pid)
    requires Inv(s) && Enabled(s, step)
    ensures var c := ControlOf(Do(s, step), p);
            c.Finished? && c.told.Some? ==>
              || ControlOf(s, p) == c
              || (step == Publish(p) && c.told == Told(ControlOf(s, p).work, s.store, ControlOf(s, p).now))
  {
    OthersKeepControl(s, step);
    if step.Publish? {
      assert ControlOf(s, step.p).copy == s.store;
    }
    hide Inv, Outcome, Events, Winner, Told, Answered, EffectiveStatus, PastExpiry;
  }

  /** What is returned has been told under the lock, or is written down. */
  lemma ReturnedSince(s: State, step: Step, e: Event)
    requires Inv(s) && Enabled(s, step) && e in Added(s, step) && e.Returned?
    requires TellsOver(s)
    ensures Over(s, e.id)
  {
    if step.Look? {
      StoredIsBorn(s, e.id);
    } else {
      assert step.Release?;
    }
  }

  lemma StepTellsOver(s: State, step: Step)
    requires Inv(s) && Enabled(s, step) && TellsOver(s)
    ensures TellsOver(Do(s, step))
  {
    var t, events := Do(s, step), Added(s, step);
    forall p: Pid, id | Expires(ControlOf(t, p), id) ensures !PhaseOf(t.log, id).Unborn? {
      ExpiresSince(s, step, p, id);
      if id in s.store {
        StoredIsBorn(s, id);
      }
      BornStays(s, step, id);
    }
    forall p: Pid | ControlOf(t, p).Finished? && ControlOf(t, p).told.Some?
      ensures Over(t, ControlOf(t, p).told.value)
    {
      ToldSince(s, step, p);
      if ControlOf(s, p) == ControlOf(t, p) {
        OverStays(s, step, ControlOf(t, p).told.value);
      } else {
        ToldIsOver(s, p);
      }
    }
    ReturnsOver(s, step);
  }

  lemma ReturnsOver(s: State, step: Step)
    requires Inv(s) && Enabled(s, step) && TellsOver(s)
    ensures var log := Do(s, step).log;
            && (forall i :: 0 <= i < |log| && log[i].Returned? ==> Over(Do(s, step), log[i].id))
            && (forall i, j :: 0 <= i < j < |log| && log[i].Returned? && log[j].Changed? ==> log[j].id != log[i].id)
  {
    var t, events := Do(s, step), Added(s, step);
    assert t.log == s.log + events && |events| <= 1;
    forall i | 0 <= i < |t.log| && t.log[i].Returned?
      ensures Over(t, t.log[i].id)
      ensures i < |s.log| ==> forall e :: e in events && e.Changed? ==> e.id != t.log[i].id
    {
      if i < |s.log| {
        assert s.log[i] == t.log[i];
      } else {
        assert t.log[i] == events[0];
        ReturnedSince(s, step, events[0]);
      }
      OverStays(s, step, t.log[i].id);
    }
    hide Do, Over, Inv, Enabled, Added;
    forall i, j | 0 <= i < j < |t.log| && t.log[i].Returned? && t.log[j].Changed?
      ensures t.log[j].id != t.log[i].id
    {
      assert t.log[i] == s.log[i];
      if j < |s.log| {
        assert t.log[j] == s.log[j];
      } else {
        assert t.log[j] == events[0] && events[0] in events;
      }
    }
  }

  lemma {:induction false} RunTellsOver(steps: seq<Step>, s: State)
    requires Run(steps, s)
    ensures TellsOver(s)
    decreases |steps|
  {
    hide TellsOver, Do, Enabled, Inv;
    if steps == [] {
      StartTellsOver();
    } else {
      var last := steps[|steps| - 1];
      var before :| Run(steps[..|steps| - 1], before) && Enabled(before, last) && s == Do(before, last);
      RunTellsOver(steps[..|steps| - 1], before);
      RunKeepsInv(steps[..|steps| - 1], before);
      StepTellsOver(before, last);
    }
  }

  lemma StartTellsOver()
    ensures TellsOver(START)
  {
  }

  /** Once a call has returned telling that a request is expired, no change of the request's status is
      ever written again, by whatever clock. */
  lemma ReturnIsFinal(steps: seq<Step>, s: State, i: nat, j: nat)
    requires Run(steps, s)
    requires i < j < |s.log| && s.log[i].Returned? && s.log[j].Changed?
    ensures s.log[j].id != s.log[i].id
  {
    hide Run, Over;
    RunTellsOver(steps, s);
  }

  /** An execution of what a call has returned as expired was won before that call returned. */
  lemma ExecutedAfterReturn(steps: seq<Step>, s: State, i: nat, k: nat) returns (j: nat)
    requires Run(steps, s)
    requires i < k < |s.log| && s.log[i].Returned? && s.log[k].Executed? && s.log[k].id == s.log[i].id
    ensures j < i && s.log[j].Changed? && s.log[j].status == Consumed
    ensures s.log[j].id == s.log[i].id && s.log[j].who == s.log[k].who
  {
    ExecutedOnce(steps, s, k);
    var expiresAt :| ConsumedBefore(s.log, k, s.log[k].id, s.log[k].snapshot, expiresAt, s.log[k].who);
    hide Run;
    j :| j < k && s.log[j].Changed? && s.log[j].who == s.log[k].who && s.log[j].id == s.log[k].id
         && s.log[j].status == Consumed;
    if i < j {
      ReturnIsFinal(steps, s, i, j);
    }
  }

  // ---- is it the stored status? ----

  /** The request was rejected or consumed within this part of the log. */
  ghost predicate SettledWithin(log: seq<Event>, from: nat, n: nat, id: Id)
    requires n <= |log|
  {
    exists j :: from <= j < n && log[j].Changed? && log[j].id == id
                && (log[j].status == Rejected || log[j].status == Consumed)
  }

  /** The phase says whether the request was rejected or consumed. */
  lemma {:induction false} PhaseTellsSettled(log: seq<Event>, n: nat, id: Id)
    requires n <= |log| && !PhaseOf(log[..n], id).Bad?
    ensures var ph := PhaseOf(log[..n], id);
            SettledWithin(log, 0, n, id) <==> ph.Denied? || ph.Taken? || ph.Done?
    decreases n
  {
    hide PhaseOf;
    if n == 0 {
      NothingYet(id);
      assert log[..0] == [];
    } else {
      PhaseAt(log, n - 1, id);
      BadStays(log, n - 1, n, id);
      PhaseTellsSettled(log, n - 1, id);
      SettledOnward(log, n - 1, id);
    }
  }

  lemma SettledOnward(log: seq<Event>, n: nat, id: Id)
    requires n < |log|
    ensures SettledWithin(log, 0, n + 1, id) <==>
            SettledWithin(log, 0, n, id)
            || (log[n].Changed? && log[n].id == id && (log[n].status == Rejected || log[n].status == Consumed))
  {
  }

  /** A stored request that is over is expired exactly if it was neither rejected nor consumed. */
  lemma OverIsExpired(s: State, id: Id)
    requires Inv(s) && id in s.store
    ensures !IsLive(s.store[id].status) ==>
              (s.store[id].status == Expired <==> !SettledWithin(s.log, 0, |s.log|, id))
    ensures IsLive(s.store[id].status) ==> !SettledWithin(s.log, 0, |s.log|, id)
  {
    assert s.log[..|s.log|] == s.log;
    NeverBad(s, |s.log|, id);
    PhaseTellsSettled(s.log, |s.log|, id);
    hide PhaseOf, SettledWithin;
  }

  /** After `n` of the steps process `p` looked, in state `u`, at a live request past its expiry. */
  ghost predicate LookedExpired(steps: seq<Step>, n: nat, u: State, s: State, p: Pid, id: Id) {
    && n < |steps| && Run(steps[..n], u) && Reaches(u, steps[n..], s)
    && steps[n] == Look(p) && ControlOf(u, p).Reading? && ControlOf(u, p).id == id
    && id in u.store && PastExpiry(u.store[id], ControlOf(u, p).now)
  }

  lemma ReachesMore(from: State, steps: seq<Step>, n: nat, before: State, s: State)
    requires n <= |steps| - 1
    requires Reaches(from, steps[..|steps| - 1][n..], before)
    requires Enabled(before, steps[|steps| - 1]) && s == Do(before, steps[|steps| - 1])
    ensures Reaches(from, steps[n..], s)
  {
    hide Enabled, Do;
    var tail := steps[n..];
    assert tail[..|tail| - 1] == steps[..|steps| - 1][n..] && tail[|tail| - 1] == steps[|steps| - 1];
  }

  /** Whoever is writing an expiry down has looked. */
  lemma {:induction false} HasLooked(steps: seq<Step>, s: State, p: Pid, id: Id) returns (n: nat, u: State)
    requires Run(steps, s) && Expires(ControlOf(s, p), id)
    ensures LookedExpired(steps, n, u, s, p, id)
    decreases |steps|
  {
    hide Enabled, Do, Inv, PhaseOf;
    n, u := 0, s;
    if steps != [] {
      var last, m := steps[|steps| - 1], |steps| - 1;
      var before :| Run(steps[..m], before) && Enabled(before, last) && s == Do(before, last);
      RunKeepsInv(steps[..m], before);
      if Expires(ControlOf(before, p), id) {
        n, u := HasLooked(steps[..m], before, p, id);
        hide Expires;
        ReachesMore(u, steps, n, before, s);
        assert steps[..m][..n] == steps[..n];
      } else {
        n, u := m, before;
        NewlyExpires(before, last, p, id);
        ReachesNone(before);
        assert steps[..m][m..] == [];
        ReachesMore(u, steps, m, before, s);
      }
    }
  }

  lemma ReachesNone(s: State)
    ensures Reaches(s, [], s)
  {
  }

  lemma NewlyExpires(s: State, step: Step, p: Pid, id: Id)
    requires Inv(s) && Enabled(s, step) && Expires(ControlOf(Do(s, step), p), id) && !Expires(ControlOf(s, p), id)
    ensures step == Look(p) && ControlOf(s, p).Reading? && ControlOf(s, p).id == id
    ensures id in s.store && PastExpiry(s.store[id], ControlOf(s, p).now)
  {
    hide Inv, Outcome, Events, Winner, Told, Answered, EffectiveStatus;
    OthersKeepControl(s, step);
  }

  // ---- shown by an observer ----

  /** The process has read the clock and computed a change, and will write a decision if it goes on. */
  ghost predicate Poised(s: State, p: Pid, id: Id) {
    var c := ControlOf(s, p);
    c.Writing? && c.work.Decision? && c.work.id == id && c.work.d != Expire && Succeeds(s.store, id, c.work.d, c.now)
  }

  /** The request is past its expiry at the time `at`, and nobody is poised to decide on it. */
  ghost predicate Sealed(s: State, id: Id, at: int) {
    && !PhaseOf(s.log, id).Unborn?
    && (id in s.store && IsLive(s.store[id].status) ==>
          s.store[id].expiresAt <= at && forall p: Pid :: !Poised(s, p, id))
  }

  /** Some continuation on a clock that never goes back writes a decision. */
  ghost predicate CanBeDecided(s: State, id: Id) {
    exists more, t, j :: Reaches(s, more, t) && Monotone(t.log) && DecidedAt(t.log, |s.log|, j, id)
  }

  predicate DecidedAt(log: seq<Event>, from: nat, j: int, id: Id) {
    from <= j < |log| && IsDecision(log[j]) && log[j].id == id
  }

  /** Whoever becomes poised has just read the clock. */
  lemma PoisedSince(s: State, step: Step, p: Pid, id: Id)
    requires Inv(s) && Enabled(s, step) && !step.Publish? && Poised(Do(s, step), p, id) && !Poised(s, p, id)
    ensures Added(s, step) == [Sampled(p, ControlOf(Do(s, step), p).now)]
    ensures id in s.store && (ControlOf(Do(s, step), p).now < s.store[id].expiresAt || !IsLive(s.store[id].status))
  {
    StoreStep(s, step);
    OthersKeepControl(s, step);
    hide Inv, Outcome, Events, Winner, Told, Answered, EffectiveStatus, Looked;
    var c := ControlOf(Do(s, step), p);
    if step.Look? {
      LookDoesNotWrite(s, p);
    }
    assert TimeOf(c) == Some(c.now);
  }

  lemma LookDoesNotWrite(s: State, p: Pid)
    requires Enabled(s, Look(p))
    ensures !ControlOf(Do(s, Look(p)), p).Writing?
  {
  }

  lemma LaterIsNotEarlier(log: seq<Event>, k: nat, e: Event)
    requires k < |log| && log[k].Sampled? && e.Sampled? && Monotone(log + [e])
    ensures log[k].at <= e.at
  {
    assert (log + [e])[k] == log[k] && (log + [e])[|log|] == e;
  }

  lemma NobodyWrites(s: State, p: Pid)
    requires Inv(s) && Enabled(s, Publish(p))
    ensures forall q: Pid :: !ControlOf(Do(s, Publish(p)), q).Writing?
  {
    OthersKeepControl(s, Publish(p));
    hide CopiesCurrent, StoreTold, CreationsFresh, PrizesTaken, Outcome, Events, Winner, Told;
    forall q: Pid ensures !ControlOf(Do(s, Publish(p)), q).Writing? {
      assert InSection(ControlOf(s, p));
      assert q != p ==> !InSection(ControlOf(s, q));
    }
  }

  lemma UnpoisedEvent(s: State, p: Pid, id: Id, at: int)
    requires Inv(s) && Enabled(s, Publish(p)) && Sealed(s, id, at)
    ensures forall e :: e in Added(s, Publish(p)) && IsDecision(e) ==> e.id != id
  {
    assert ControlOf(s, p).copy == s.store;
    assert !Poised(s, p, id) || !(id in s.store && IsLive(s.store[id].status));
    hide Inv, Do, PhaseOf;
  }

  /** What a process publishes if nobody is poised: no decision. */
  lemma UnpoisedPublishes(s: State, p: Pid, id: Id, at: int)
    requires Inv(s) && Enabled(s, Publish(p)) && Sealed(s, id, at)
    ensures Sealed(Do(s, Publish(p)), id, at)
    ensures forall e :: e in Added(s, Publish(p)) && IsDecision(e) ==> e.id != id
  {
    NobodyWrites(s, p);
    UnpoisedEvent(s, p, id, at);
    StepEvolves(s, Publish(p));
    BornStays(s, Publish(p), id);
    NotRecreated(s, Publish(p), id);
    hide PhaseOf, Inv, Do, Added, Eligible, TimelyRecord, Enabled, Succeeds, PublishedWork;
  }

  lemma SealedStays(s: State, step: Step, id: Id, k: nat)
    requires Inv(s) && Enabled(s, step) && Monotone(Do(s, step).log)
    requires k < |s.log| && s.log[k].Sampled? && Sealed(s, id, s.log[k].at)
    ensures Sealed(Do(s, step), id, s.log[k].at)
    ensures forall e :: e in Added(s, step) && IsDecision(e) ==> e.id != id
  {
    var t, at := Do(s, step), s.log[k].at;
    if step.Publish? {
      UnpoisedPublishes(s, step.p, id, at);
    } else {
      StoreStep(s, step);
      BornStays(s, step, id);
      NothingChanged(s, step);
      if id in s.store && IsLive(s.store[id].status) {
        forall p: Pid ensures !Poised(t, p, id) {
          if Poised(t, p, id) {
            PoisedSince(s, step, p, id);
            LaterIsNotEarlier(s.log, k, Added(s, step)[0]);
          }
        }
      }
      hide PhaseOf, Inv, Do, Poised;
    }
  }

  lemma {:induction false} SealedForGood(steps: seq<Step>, s: State, more: seq<Step>, t: State, id: Id, k: nat)
    requires Run(steps, s) && Reaches(s, more, t) && Monotone(t.log)
    requires k < |s.log| && s.log[k].Sampled? && Sealed(s, id, s.log[k].at)
    ensures Inv(t) && s.log <= t.log && Sealed(t, id, s.log[k].at)
    ensures forall j :: !DecidedAt(t.log, |s.log|, j, id)
    decreases |more|
  {
    hide Inv, Enabled, Do, Sealed, Monotone;
    if more == [] {
      RunKeepsInv(steps, s);
    } else {
      var last := more[|more| - 1];
      var before :| Reaches(s, more[..|more| - 1], before) && Enabled(before, last) && t == Do(before, last);
      assert t.log == before.log + Added(before, last);
      MonotonePrefix(before.log, Added(before, last));
      SealedForGood(steps, s, more[..|more| - 1], before, id, k);
      assert before.log[k] == s.log[k];
      SealedStays(before, last, id, k);
      StepKeepsInv(before, last);
      forall j ensures !DecidedAt(t.log, |s.log|, j, id) {
        assert !DecidedAt(before.log, |s.log|, j, id);
        if |before.log| <= j < |t.log| {
          assert t.log[j] in Added(before, last);
        }
      }
    }
  }

  lemma MonotonePrefix(a: seq<Event>, b: seq<Event>)
    requires Monotone(a + b)
    ensures Monotone(a)
  {
    assert forall i :: 0 <= i < |a| ==> a[i] == (a + b)[i];
  }

  /** Right after an observer has shown a request as expired, on a clock that never goes back, a decision
      on it can still be written exactly when some process is poised to write one. */
  lemma ShownIsFinalUnlessPoised(steps: seq<Step>, s: State, p: Pid, id: Id, at: int)
    requires Run(steps, s)
    requires s.log != [] && s.log[|s.log| - 1] == Shown(p, id, at)
    ensures CanBeDecided(s, id) <==> Monotone(s.log) && exists q: Pid :: Poised(s, q, id)
  {
    RunKeepsInv(steps, s);
    hide Inv, Run;
    if Monotone(s.log) && exists q: Pid :: Poised(s, q, id) {
      var q: Pid :| Poised(s, q, id);
      PoisedDecides(s, q, id);
    }
    if CanBeDecided(s, id) {
      var more, t, j :| Reaches(s, more, t) && Monotone(t.log) && DecidedAt(t.log, |s.log|, j, id);
      ReachesExtends(s, more, t);
      MonotonePrefix(s.log, t.log[|s.log|..]);
      if forall q: Pid :: !Poised(s, q, id) {
        var k := ShownSeals(steps, s, p, id, at);
        SealedForGood(steps, s, more, t, id, k);
        assert false;
      }
    }
  }

  lemma OneStep(s: State, step: Step)
    requires Enabled(s, step)
    ensures Reaches(s, [step], Do(s, step))
  {
    hide Enabled, Do;
    var steps := [step];
    assert steps[..|steps| - 1] == [] && Reaches(s, [], s);
    assert Reaches(s, steps[..|steps| - 1], s) && Enabled(s, steps[|steps| - 1]);
  }

  lemma PoisedDecides(s: State, q: Pid, id: Id)
    requires Inv(s) && Monotone(s.log) && Poised(s, q, id)
    ensures CanBeDecided(s, id)
  {
    var c, t := ControlOf(s, q), Do(s, Publish(q));
    assert c.copy == s.store;
    var e := Changed(q, id, Target(c.work.d), c.now);
    assert t.log == s.log + [e];
    OneStep(s, Publish(q));
    hide Inv, Do, Enabled, Reaches;
    assert Monotone(t.log);
    assert DecidedAt(t.log, |s.log|, |s.log|, id);
  }

  lemma {:induction false} ReachesExtends(s: State, more: seq<Step>, t: State)
    requires Reaches(s, more, t)
    ensures s.log <= t.log
    decreases |more|
  {
    hide Enabled, Do;
    if more != [] {
      var last := more[|more| - 1];
      var before :| Reaches(s, more[..|more| - 1], before) && Enabled(before, last) && t == Do(before, last);
      ReachesExtends(s, more[..|more| - 1], before);
      assert t.log == before.log + Added(before, last);
    }
  }

  lemma ShownSeals(steps: seq<Step>, s: State, p: Pid, id: Id, at: int) returns (k: nat)
    requires Run(steps, s)
    requires s.log != [] && s.log[|s.log| - 1] == Shown(p, id, at)
    requires forall q: Pid :: !Poised(s, q, id)
    ensures k < |s.log| && s.log[k] == Sampled(p, at) && Sealed(s, id, at)
  {
    RunKeepsInv(steps, s);
    RunReadsClocks(steps, s);
    var n := |s.log| - 1;
    assert SampledBefore(s.log, n, p, at);
    k :| k < n && s.log[k] == Sampled(p, at);
    assert s.log[..n + 1] == s.log;
    NeverBad(s, n + 1, id);
    PhaseAt(s.log, n, id);
    hide PhaseOf, Run, Poised, ClocksRead;
  }

  /** So what an observer shows while nobody holds the lock is final. */
  lemma ShownWithLockFree(steps: seq<Step>, s: State, p: Pid, id: Id, at: int)
    requires Run(steps, s) && s.lock.None?
    requires s.log != [] && s.log[|s.log| - 1] == Shown(p, id, at)
    ensures !CanBeDecided(s, id)
  {
    RunKeepsInv(steps, s);
    ShownIsFinalUnlessPoised(steps, s, p, id, at);
    hide Run, CanBeDecided;
    forall q: Pid ensures !Poised(s, q, id) {
      assert InSection(ControlOf(s, q)) ==> s.lock == Some(q);
    }
  }

  // ---- a returned expiry and what is stored ----

  /** What `get_request` returns as expired, having looked in state `u` and written in state `s`, is stored
      as expired exactly if it was neither rejected nor consumed after the look; or it is stored no more. */
  lemma ReturnedIsStored(steps: seq<Step>, s: State, p: Pid, id: Id) returns (n: nat, u: State)
    requires Run(steps, s) && Enabled(s, Publish(p)) && Expires(ControlOf(s, p), id)
    ensures LookedExpired(steps, n, u, s, p, id) && u.log <= s.log
    ensures var t := Do(s, Publish(p));
            id in t.store ==>
              (t.store[id].status == Expired <==> !SettledWithin(s.log, |u.log|, |s.log|, id))
    ensures u.lock.None? && Monotone(s.log) ==> !SettledWithin(s.log, |u.log|, |s.log|, id)
  {
    n, u := HasLooked(steps, s, p, id);
    RunKeepsInv(steps, s);
    RunKeepsInv(steps[..n], u);
    ReachesExtends(u, steps[n..], s);
    OverIsExpired(u, id);
    SettledSince(u.log, s.log, id);
    ExpiryPublished(s, p, id);
    if u.lock.None? && Monotone(s.log) {
      LookedWithLockFree(steps[..n], u, steps[n..], s, p, id);
    }
  }

  /** Nothing settled before is settled since, or not at all. */
  lemma SettledSince(a: seq<Event>, b: seq<Event>, id: Id)
    requires a <= b && !SettledWithin(a, 0, |a|, id)
    ensures SettledWithin(b, 0, |b|, id) <==> SettledWithin(b, |a|, |b|, id)
  {
    assert forall j :: 0 <= j < |a| ==> a[j] == b[j];
  }

  lemma ExpiryPublished(s: State, p: Pid, id: Id)
    requires Inv(s) && Enabled(s, Publish(p)) && Expires(ControlOf(s, p), id)
    ensures var t := Do(s, Publish(p));
            id in t.store ==>
              (t.store[id].status == Expired <==> !SettledWithin(s.log, 0, |s.log|, id))
  {
    var c := ControlOf(s, p);
    assert c.copy == s.store;
    if id in s.store {
      OverIsExpired(s, id);
    }
    hide Inv, SettledWithin;
  }

  lemma LookedWithLockFree(steps: seq<Step>, u: State, more: seq<Step>, s: State, p: Pid, id: Id)
    requires Run(steps, u) && Reaches(u, more, s) && u.log <= s.log && u.lock.None? && Monotone(s.log)
    requires ControlOf(u, p).Reading? && id in u.store && PastExpiry(u.store[id], ControlOf(u, p).now)
    ensures !SettledWithin(s.log, |u.log|, |s.log|, id)
  {
    hide Run, Reaches, Inv, Sealed, Monotone, PastExpiry;
    var k := LookSeals(steps, u, p, id);
    SealedForGood(steps, u, more, s, id, k);
    hide ControlOf;
    NothingSettled(s.log, |u.log|, id);
  }

  lemma NothingSettled(log: seq<Event>, from: nat, id: Id)
    requires from <= |log| && forall j :: !DecidedAt(log, from, j, id)
    ensures !SettledWithin(log, from, |log|, id)
  {
    forall j | from <= j < |log|
      ensures !(log[j].Changed? && log[j].id == id && (log[j].status == Rejected || log[j].status == Consumed))
    {
      assert !DecidedAt(log, from, j, id);
    }
  }

  /** A look at an expired request while nobody holds the lock. */
  lemma LookSeals(steps: seq<Step>, u: State, p: Pid, id: Id) returns (k: nat)
    requires Run(steps, u) && u.lock.None? && ControlOf(u, p).Reading?
    requires id in u.store && PastExpiry(u.store[id], ControlOf(u, p).now)
    ensures k < |u.log| && u.log[k].Sampled? && Sealed(u, id, u.log[k].at)
  {
    RunKeepsInv(steps, u);
    RunReadsClocks(steps, u);
    StoredIsBorn(u, id);
    var at := ControlOf(u, p).now;
    assert TimeOf(ControlOf(u, p)) == Some(at);
    assert SampledBefore(u.log, |u.log|, p, at);
    k :| k < |u.log| && u.log[k] == Sampled(p, at);
    forall q: Pid ensures !Poised(u, q, id) {
      assert InSection(ControlOf(u, q)) ==> u.lock == Some(q);
    }
    hide Run, Inv, ClocksRead, Poised, PhaseOf;
  }
}
