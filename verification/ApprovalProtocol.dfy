/** Any number of processes over one approval store, step by step: unlocked reads, a lock around
    read-modify-write, a clock read inside the lock, publications that fail, and crashes. */
module ApprovalProtocol {
  import opened Results
  import opened Approval

  type Pid = nat

  /** What a process wants to do under the lock. A creator and a pruner read the clock beforehand. */
  datatype Work =
    | Decision(d: Approval.Decision, id: Id, via: Option<Kind> := None)   // `via`: to execute as this kind
    | Creation(request: Request)
    | Pruning(cutoff: int, now: int)

  /** Why a process reads: to show the status, to fetch the request, or to execute it as this kind. */
  datatype Purpose = Observing | Getting | Resuming(kind: Kind)

  datatype Control =
    | Idle
    | Reading(id: Id, now: int, why: Purpose)              // clock read, store not yet
    | Waiting(work: Work)                                  // for the lock
    | Locked(work: Work)
    | Loaded(work: Work, copy: Store)                      // has read the store
    | Writing(work: Work, now: int, copy: Store)           // clock read, change computed
    | Finished(won: Option<Request>, via: Option<Kind>, told: Option<Id>)   // to release the lock
    | Won(request: Request, via: Option<Kind>)             // consumed it, may execute
    | Dead

  /** What happened, oldest first. `Sampled`: a clock was read. `Changed`: a change of status has been
      persisted. `Shown`: an observer has shown a request as expired. `Returned`: a call that had the
      lock, or found the expiry written down, has returned telling so. */
  datatype Event =
    | Created(who: Pid, id: Id, snapshot: Snapshot, expiresAt: int)
    | Sampled(who: Pid, at: int)
    | Changed(who: Pid, id: Id, status: Status, at: int)
    | Shown(who: Pid, id: Id, at: int)
    | Returned(who: Pid, id: Id)
    | Executed(who: Pid, id: Id, snapshot: Snapshot, via: Kind)

  datatype State = State(
    store: Store, lock: Option<Pid>, control: map<Pid, Control>, issued: set<Id>, log: seq<Event>)

  function ControlOf(s: State, p: Pid): Control {
    if p in s.control then s.control[p] else Idle
  }

  predicate InSection(c: Control) {
    c.Locked? || c.Loaded? || c.Writing? || c.Finished?
  }

  /** The store a locked process publishes. */
  function Outcome(work: Work, copy: Store, now: int): Store {
    match work
    case Decision(d, id, _) => Decide(copy, id, d, now)
    case Creation(r) => if CreateError(copy, r).None? then copy[r.id := r] else copy
    case Pruning(cutoff, at) => Retained(copy, cutoff, at)
  }

  /** The events one publication amounts to. */
  function Events(p: Pid, work: Work, copy: Store, now: int): seq<Event> {
    match work
    case Decision(d, id, _) =>
      if id in copy && Decided(copy[id], d, now).Some?
      then [Changed(p, id, Decided(copy[id], d, now).value.status, now)] else []
    case Creation(r) => if CreateError(copy, r).None? then [Created(p, r.id, r.snapshot, r.expiresAt)] else []
    case Pruning(_, _) => []
  }

  function Winner(work: Work, copy: Store, now: int): Option<Request> {
    if work.Decision? && work.d == Consume && Succeeds(copy, work.id, Consume, now)
    then Some(Settle(copy[work.id], Consumed, now)) else None
  }

  /** The request a locked call ends by calling expired: the expired one it found or left, or the one
      its unlocked look had found past its expiry. */
  function Told(work: Work, copy: Store, now: int): Option<Id> {
    if work.Decision? then
      var next := Decide(copy, work.id, work.d, now);
      if work.d == Expire || (work.id in next && next[work.id].status == Expired) then Some(work.id) else None
    else None
  }

  datatype Step =
    | StartCreate(p: Pid, request: Request)
    | StartPrune(p: Pid, cutoff: int, now: int)          // reads the clock
    | StartDecision(p: Pid, d: Approval.Decision, id: Id)
    | StartRead(p: Pid, id: Id, now: int, why: Purpose)  // reads the clock
    | Look(p: Pid)                     // the unlocked read
    | Acquire(p: Pid)
    | Load(p: Pid)
    | Compute(p: Pid, now: int)        // reads the clock
    | Publish(p: Pid)
    | Fail(p: Pid)                     // an error anywhere in the locked section
    | Release(p: Pid)
    | Execute(p: Pid)
    | Refuse(p: Pid)                   // a check after consumption fails
    | Crash(p: Pid)

  predicate Enabled(s: State, step: Step) {
    var c := ControlOf(s, step.p);
    match step
    case StartCreate(_, r) => c.Idle? && r.id !in s.issued && r.status == Pending && r.decidedAt == None
    case StartPrune(_, _, _) => c.Idle?
    case StartDecision(_, d, _) => c.Idle? && (d == Approve || d == Reject)
    case StartRead(_, _, _, _) => c.Idle?
    case Look(_) => c.Reading?
    case Acquire(_) => c.Waiting? && s.lock.None?
    case Load(_) => c.Locked?
    case Compute(_, _) => c.Loaded?
    case Publish(_) => c.Writing?
    case Fail(_) => c.Locked? || c.Loaded? || c.Writing?
    case Release(_) => c.Finished?
    case Execute(_) => c.Won? && c.via == Some(c.request.snapshot.kind)
    case Refuse(_) => c.Won?
    case Crash(_) => true
  }

  function Via(work: Work): Option<Kind> {
    if work.Decision? then work.via else None
  }

  function Answered(p: Pid, told: Option<Id>): seq<Event> {
    if told.Some? then [Returned(p, told.value)] else []
  }

  function Goto(s: State, p: Pid, c: Control): State {
    s.(control := s.control[p := c])
  }

  /** The shell path checks the kind before it consumes; the file paths consume first. */
  predicate GoesOn(r: Request, why: Purpose) {
    why.Resuming? && r.status == Approved && (why.kind == Shell ==> r.snapshot.kind == Shell)
  }

  /** The unlocked read. An observer shows what it sees and is done. Any other reader returns an expiry
      that is written down, goes on to write one down that is not, or, on the way to execution, goes
      on to consume a request it found approved. */
  function Looked(s: State, p: Pid, c: Control): State
    requires c.Reading?
  {
    if c.id !in s.store then Goto(s, p, Idle)
    else
      var r := s.store[c.id];
      if c.why.Observing? then
        Goto(if EffectiveStatus(r, c.now) == Expired then s.(log := s.log + [Shown(p, c.id, c.now)]) else s, p, Idle)
      else if PastExpiry(r, c.now) then Goto(s, p, Waiting(Decision(Expire, c.id)))
      else if r.status == Expired then Goto(s.(log := s.log + [Returned(p, c.id)]), p, Idle)
      else if GoesOn(r, c.why) then Goto(s, p, Waiting(Decision(Consume, c.id, Some(c.why.kind))))
      else Goto(s, p, Idle)
  }

  function Do(s: State, step: Step): State
    requires Enabled(s, step)
  {
    var p, c := step.p, ControlOf(s, step.p);
    match step
    case StartCreate(_, r) => Goto(s.(issued := s.issued + {r.id}), p, Waiting(Creation(r)))
    case StartPrune(_, cutoff, now) => Goto(s.(log := s.log + [Sampled(p, now)]), p, Waiting(Pruning(cutoff, now)))
    case StartDecision(_, d, id) => Goto(s, p, Waiting(Decision(d, id)))
    case StartRead(_, id, now, why) => Goto(s.(log := s.log + [Sampled(p, now)]), p, Reading(id, now, why))
    case Look(_) => Looked(s, p, c)
    case Acquire(_) => Goto(s.(lock := Some(p)), p, Locked(c.work))
    case Load(_) => Goto(s, p, Loaded(c.work, s.store))
    case Compute(_, now) =>
      Goto(if c.work.Decision? then s.(log := s.log + [Sampled(p, now)]) else s,
           p, Writing(c.work, now, c.copy))
    case Publish(_) =>
      Goto(s.(store := Outcome(c.work, c.copy, c.now), log := s.log + Events(p, c.work, c.copy, c.now)),
           p, Finished(Winner(c.work, c.copy, c.now), Via(c.work), Told(c.work, c.copy, c.now)))
    case Fail(_) => Goto(s, p, Finished(None, None, None))
    case Release(_) =>
      Goto(s.(lock := None, log := s.log + Answered(p, c.told)),
           p, if c.won.Some? then Won(c.won.value, c.via) else Idle)
    case Execute(_) =>
      Goto(s.(log := s.log + [Executed(p, c.request.id, c.request.snapshot, c.via.value)]), p, Idle)
    case Refuse(_) => Goto(s, p, Idle)
    case Crash(_) => Goto(if s.lock == Some(p) then s.(lock := None) else s, p, Dead)
  }

  const START := State(map[], None, map[], {}, [])

  /** `steps` can be taken one after the other from `from`, and lead to `s`. */
  ghost predicate Reaches(from: State, steps: seq<Step>, s: State) {
    if steps == [] then s == from
    else
      var last := steps[|steps| - 1];
      exists before :: Reaches(from, steps[..|steps| - 1], before) && Enabled(before, last) && s == Do(before, last)
  }

  ghost predicate Run(steps: seq<Step>, s: State) {
    Reaches(START, steps, s)
  }

  // ---- the lifecycle of one request, as the log tells it ----

  datatype Phase =
    | Unborn
    | Undecided(snapshot: Snapshot, expiresAt: int)
    | Granted(snapshot: Snapshot, expiresAt: int)
    | Denied(snapshot: Snapshot, expiresAt: int)
    | Lapsed(snapshot: Snapshot, expiresAt: int)
    | Taken(snapshot: Snapshot, expiresAt: int, who: Pid)
    | Done(snapshot: Snapshot, expiresAt: int, who: Pid)
    | Bad

  /** How an event moves a request on; whatever must never happen leads to `Bad`, for good. */
  function Advance(ph: Phase, e: Event, id: Id): Phase {
    if e.Sampled? || e.Returned? || e.id != id || ph.Bad? then ph
    else
      match e
      case Created(_, _, snapshot, expiresAt) => if ph.Unborn? then Undecided(snapshot, expiresAt) else Bad
      case Shown(_, _, at) => if ph.Lapsed? || ((ph.Undecided? || ph.Granted?) && at >= ph.expiresAt) then ph else Bad
      case Executed(who, _, snapshot, via) =>
        if ph.Taken? && ph.snapshot == snapshot && ph.who == who && via == snapshot.kind
        then Done(snapshot, ph.expiresAt, who) else Bad
      case Changed(who, _, status, at) =>
        match status
        case Approved => if ph.Undecided? && at < ph.expiresAt then Granted(ph.snapshot, ph.expiresAt) else Bad
        case Rejected => if ph.Undecided? && at < ph.expiresAt then Denied(ph.snapshot, ph.expiresAt) else Bad
        case Consumed => if ph.Granted? && at < ph.expiresAt then Taken(ph.snapshot, ph.expiresAt, who) else Bad
        case Expired => if ph.Undecided? || ph.Granted? then Lapsed(ph.snapshot, ph.expiresAt) else Bad
        case Pending => Bad
  }

  function PhaseOf(log: seq<Event>, id: Id): Phase {
    if log == [] then Unborn else Advance(PhaseOf(log[..|log| - 1], id), log[|log| - 1], id)
  }

  /** The stored request is where the log says it is. */
  predicate Matches(r: Request, ph: Phase) {
    && !ph.Unborn? && !ph.Bad?
    && ph.snapshot == r.snapshot
    && ph.expiresAt == r.expiresAt
    && match r.status
       case Pending => ph.Undecided?
       case Approved => ph.Granted?
       case Rejected => ph.Denied?
       case Expired => ph.Lapsed?
       case Consumed => ph.Taken? || ph.Done?
  }

  // ---- the invariant ----

  ghost predicate LockHeld(s: State) {
    forall p: Pid :: InSection(ControlOf(s, p)) ==> s.lock == Some(p)
  }

  /** Whoever has loaded the store and holds the lock still has what is on disk. */
  ghost predicate CopiesCurrent(s: State) {
    forall p: Pid :: ControlOf(s, p).Loaded? || ControlOf(s, p).Writing? ==> ControlOf(s, p).copy == s.store
  }

  ghost predicate StoreTold(s: State) {
    && (forall id :: id in s.store ==>
          id in s.issued && s.store[id].id == id && Matches(s.store[id], PhaseOf(s.log, id)))
    && (forall id :: !PhaseOf(s.log, id).Bad?)
    && (forall id :: id !in s.issued ==> PhaseOf(s.log, id).Unborn?)
  }

  function WorkOf(c: Control): Option<Work> {
    match c
    case Waiting(w) => Some(w)
    case Locked(w) => Some(w)
    case Loaded(w, _) => Some(w)
    case Writing(w, _, _) => Some(w)
    case _ => None
  }

  predicate Creating(c: Control) {
    WorkOf(c).Some? && WorkOf(c).value.Creation?
  }

  function NewOf(c: Control): Request
    requires Creating(c)
  {
    WorkOf(c).value.request
  }

  ghost predicate CreationsFresh(s: State) {
    && (forall p: Pid :: Creating(ControlOf(s, p)) ==>
          var r := NewOf(ControlOf(s, p));
          && r.id in s.issued && r.id !in s.store && PhaseOf(s.log, r.id).Unborn?
          && r.status == Pending && r.decidedAt == None)
    && (forall p: Pid, q: Pid :: p != q && Creating(ControlOf(s, p)) && Creating(ControlOf(s, q)) ==>
          NewOf(ControlOf(s, p)).id != NewOf(ControlOf(s, q)).id)
  }

  function Prize(c: Control): Option<Request> {
    match c
    case Finished(won, _, _) => won
    case Won(r, _) => Some(r)
    case _ => None
  }

  ghost predicate PrizesTaken(s: State) {
    forall p: Pid :: Prize(ControlOf(s, p)).Some? ==>
      var r := Prize(ControlOf(s, p)).value;
      PhaseOf(s.log, r.id) == Taken(r.snapshot, r.expiresAt, p)
  }

  ghost predicate Inv(s: State) {
    LockHeld(s) && CopiesCurrent(s) && StoreTold(s) && CreationsFresh(s) && PrizesTaken(s)
  }

  lemma PhaseSnoc(log: seq<Event>, e: Event)
    ensures forall id :: PhaseOf(log + [e], id) == Advance(PhaseOf(log, id), e, id)
  {
    assert (log + [e])[..|log|] == log;
  }

  lemma ControlAfter(s: State, p: Pid, c: Control)
    ensures forall q: Pid :: ControlOf(Goto(s, p, c), q) == if q == p then c else ControlOf(s, q)
  {
  }

  /** A step that leaves store, lock and log alone, and the process without a claim. */
  lemma QuietStep(s: State, p: Pid, c: Control, issued: set<Id>)
    requires Inv(s) && s.issued <= issued
    requires InSection(c) ==> s.lock == Some(p)
    requires Prize(c).Some? ==> Prize(ControlOf(s, p)) == Prize(c)
    requires c.Loaded? || c.Writing? ==> c.copy == s.store
    requires Creating(c) ==> Creating(ControlOf(s, p)) && NewOf(c) == NewOf(ControlOf(s, p))
    ensures Inv(Goto(s.(issued := issued), p, c))
  {
    hide Matches, PhaseOf;
    ControlAfter(s.(issued := issued), p, c);
    var t := Goto(s.(issued := issued), p, c);
    assert LockHeld(t);
    assert CopiesCurrent(t);
    assert StoreTold(t);
    forall q: Pid | Creating(ControlOf(t, q))
      ensures Creating(ControlOf(s, q)) && NewOf(ControlOf(t, q)) == NewOf(ControlOf(s, q))
    {
    }
    assert CreationsFresh(t);
    forall q: Pid | Prize(ControlOf(t, q)).Some?
      ensures Prize(ControlOf(s, q)) == Prize(ControlOf(t, q))
    {
    }
    assert PrizesTaken(t);
  }

  /** An event that moves no request on. */
  lemma NoteEvent(s: State, e: Event)
    requires Inv(s)
    requires forall id :: Advance(PhaseOf(s.log, id), e, id) == PhaseOf(s.log, id)
    ensures Inv(s.(log := s.log + [e]))
    ensures forall p: Pid :: ControlOf(s.(log := s.log + [e]), p) == ControlOf(s, p)
  {
    hide Matches;
    PhaseSnoc(s.log, e);
    var t := s.(log := s.log + [e]);
    assert forall id :: PhaseOf(t.log, id) == PhaseOf(s.log, id);
    assert forall p: Pid :: ControlOf(t, p) == ControlOf(s, p);
    hide PhaseOf;
    assert CreationsFresh(t);
    assert PrizesTaken(t);
  }

  lemma LockChanges(s: State, p: Pid, lock: Option<Pid>, c: Control)
    requires Inv(s)
    requires forall q: Pid :: q != p && InSection(ControlOf(s, q)) ==> lock == Some(q)
    requires InSection(c) ==> lock == Some(p)
    requires Prize(c).Some? ==> Prize(ControlOf(s, p)) == Prize(c)
    requires !c.Loaded? && !c.Writing?
    requires Creating(c) ==> Creating(ControlOf(s, p)) && NewOf(c) == NewOf(ControlOf(s, p))
    ensures Inv(Goto(s.(lock := lock), p, c))
  {
    hide Matches, PhaseOf;
    var t := Goto(s.(lock := lock), p, c);
    ControlAfter(s.(lock := lock), p, c);
    assert forall q: Pid :: ControlOf(s.(lock := lock), q) == ControlOf(s, q);
    forall q: Pid | Creating(ControlOf(t, q))
      ensures Creating(ControlOf(s, q)) && NewOf(ControlOf(t, q)) == NewOf(ControlOf(s, q))
    {
    }
    forall q: Pid | Prize(ControlOf(t, q)).Some?
      ensures Prize(ControlOf(s, q)) == Prize(ControlOf(t, q))
    {
    }
  }

  lemma StartCreateStep(s: State, p: Pid, r: Request)
    requires Inv(s) && Enabled(s, StartCreate(p, r))
    ensures Inv(Do(s, StartCreate(p, r)))
  {
    hide Matches, PhaseOf;
    var t := Do(s, StartCreate(p, r));
    ControlAfter(s.(issued := s.issued + {r.id}), p, Waiting(Creation(r)));
    assert forall q: Pid :: ControlOf(s.(issued := s.issued + {r.id}), q) == ControlOf(s, q);
    forall q: Pid | Creating(ControlOf(t, q)) && q != p
      ensures Creating(ControlOf(s, q)) && NewOf(ControlOf(t, q)) == NewOf(ControlOf(s, q))
    {
    }
    forall q: Pid | Prize(ControlOf(t, q)).Some?
      ensures Prize(ControlOf(s, q)) == Prize(ControlOf(t, q))
    {
    }
  }

  lemma LookStep(s: State, p: Pid)
    requires Inv(s) && Enabled(s, Look(p))
    ensures Inv(Do(s, Look(p)))
  {
    hide PhaseOf;
    var c := ControlOf(s, p);
    if c.id !in s.store {
      QuietStep(s, p, Idle, s.issued);
    } else {
      var r := s.store[c.id];
      if c.why.Observing? && EffectiveStatus(r, c.now) == Expired {
        NoteEvent(s, Shown(p, c.id, c.now));
        LookQuiet(s.(log := s.log + [Shown(p, c.id, c.now)]), p, Idle);
      } else if !c.why.Observing? && !PastExpiry(r, c.now) && r.status == Expired {
        NoteEvent(s, Returned(p, c.id));
        LookQuiet(s.(log := s.log + [Returned(p, c.id)]), p, Idle);
      } else {
        LookQuiet(s, p, if c.why.Observing? then Idle
                        else if PastExpiry(r, c.now) then Waiting(Decision(Expire, c.id))
                        else if GoesOn(r, c.why) then Waiting(Decision(Consume, c.id, Some(c.why.kind)))
                        else Idle);
      }
    }
  }

  lemma LookQuiet(s: State, p: Pid, c: Control)
    requires Inv(s)
    requires c.Idle? || (c.Waiting? && c.work.Decision?)
    ensures Inv(Goto(s, p, c))
  {
    hide Inv;
    QuietStep(s, p, c, s.issued);
  }

  lemma ComputeStep(s: State, p: Pid, now: int)
    requires Inv(s) && Enabled(s, Compute(p, now))
    ensures Inv(Do(s, Compute(p, now)))
  {
    hide PhaseOf;
    var c := ControlOf(s, p);
    var t := s;
    if c.work.Decision? {
      NoteEvent(s, Sampled(p, now));
      t := s.(log := s.log + [Sampled(p, now)]);
    }
    QuietStep(t, p, Writing(c.work, now, c.copy), t.issued);
  }

  lemma ExecuteStep(s: State, p: Pid)
    requires Inv(s) && Enabled(s, Execute(p))
    ensures Inv(Do(s, Execute(p)))
  {
    var r := ControlOf(s, p).request;
    var e := Executed(p, r.id, r.snapshot, r.snapshot.kind);
    assert Prize(ControlOf(s, p)) == Some(r);
    PhaseSnoc(s.log, e);
    hide PhaseOf;
    var t := Do(s, Execute(p));
    ControlAfter(s.(log := s.log + [e]), p, Idle);
    assert forall q: Pid :: ControlOf(s.(log := s.log + [e]), q) == ControlOf(s, q);
    assert StoreTold(t);
    assert CreationsFresh(t);
    forall q: Pid | Prize(ControlOf(t, q)).Some?
      ensures Prize(ControlOf(s, q)) == Prize(ControlOf(t, q)) && Prize(ControlOf(t, q)).value.id != r.id
    {
    }
  }

  /** What a publication leaves: a new store and at most one event, both about one request. */
  ghost predicate Touches(s: State, p: Pid, store: Store, log: seq<Event>, won: Option<Request>, id: Id) {
    && (forall k :: k in store && k != id ==> k in s.store && store[k] == s.store[k])
    && (forall k :: k != id ==> PhaseOf(log, k) == PhaseOf(s.log, k))
    && (id in store ==> id in s.issued && store[id].id == id && Matches(store[id], PhaseOf(log, id)))
    && !PhaseOf(log, id).Bad? && (id !in s.issued ==> PhaseOf(log, id).Unborn?)
    && (won.Some? ==> won.value.id == id && PhaseOf(log, id) == Taken(won.value.snapshot, won.value.expiresAt, p))
    && (PhaseOf(log, id) != PhaseOf(s.log, id) || (id in store && id !in s.store) ==> NotCreating(s, p, id))
    && (PhaseOf(log, id) != PhaseOf(s.log, id) ==>
          forall q: Pid :: Prize(ControlOf(s, q)).Some? ==> Prize(ControlOf(s, q)).value.id != id)
  }

  ghost predicate NotCreating(s: State, p: Pid, id: Id) {
    forall q: Pid :: q != p && Creating(ControlOf(s, q)) ==> NewOf(ControlOf(s, q)).id != id
  }

  function Publishing(s: State, p: Pid, store: Store, log: seq<Event>, won: Option<Request>, via: Option<Kind>,
                      told: Option<Id>): State {
    Goto(s.(store := store, log := log), p, Finished(won, via, told))
  }

  lemma PublishingControl(s: State, p: Pid, store: Store, log: seq<Event>, won: Option<Request>, via: Option<Kind>,
                         told: Option<Id>)
    ensures var t := Publishing(s, p, store, log, won, via, told);
            && ControlOf(t, p) == Finished(won, via, told)
            && t.store == store && t.log == log && t.issued == s.issued && t.lock == s.lock
            && forall q: Pid :: q != p ==> ControlOf(t, q) == ControlOf(s, q)
  {
  }

  lemma PublishingLock(s: State, p: Pid, t: State)
    requires Inv(s) && ControlOf(s, p).Writing? && t.lock == s.lock && ControlOf(t, p).Finished?
    requires forall q: Pid :: q != p ==> ControlOf(t, q) == ControlOf(s, q)
    ensures LockHeld(t) && CopiesCurrent(t)
  {
    hide StoreTold, CreationsFresh, PrizesTaken;
    assert InSection(ControlOf(s, p));
  }

  lemma PublishingStore(s: State, p: Pid, t: State, won: Option<Request>, id: Id)
    requires StoreTold(s) && Touches(s, p, t.store, t.log, won, id) && t.issued == s.issued
    ensures StoreTold(t)
  {
    hide Matches, PhaseOf, NotCreating;
  }

  lemma PublishingCreations(s: State, p: Pid, t: State, won: Option<Request>, id: Id)
    requires CreationsFresh(s) && Touches(s, p, t.store, t.log, won, id) && t.issued == s.issued
    requires ControlOf(t, p).Finished?
    requires forall q: Pid :: q != p ==> ControlOf(t, q) == ControlOf(s, q)
    ensures CreationsFresh(t)
  {
    hide Matches, PhaseOf;
    forall q: Pid | Creating(ControlOf(t, q))
      ensures q != p && Creating(ControlOf(s, q)) && NewOf(ControlOf(t, q)) == NewOf(ControlOf(s, q))
    {
    }
  }

  lemma PublishingPrizes(s: State, p: Pid, t: State, won: Option<Request>, via: Option<Kind>, told: Option<Id>, id: Id)
    requires PrizesTaken(s) && Touches(s, p, t.store, t.log, won, id) && ControlOf(t, p) == Finished(won, via, told)
    requires forall q: Pid :: q != p ==> ControlOf(t, q) == ControlOf(s, q)
    ensures PrizesTaken(t)
  {
    hide Matches, PhaseOf, NotCreating;
    forall q: Pid | q != p && Prize(ControlOf(t, q)).Some?
      ensures Prize(ControlOf(s, q)) == Prize(ControlOf(t, q))
    {
    }
  }

  lemma Published(s: State, p: Pid, store: Store, log: seq<Event>, won: Option<Request>, via: Option<Kind>,
                  told: Option<Id>, id: Id)
    requires Inv(s) && ControlOf(s, p).Writing? && Touches(s, p, store, log, won, id)
    ensures Inv(Goto(s.(store := store, log := log), p, Finished(won, via, told)))
  {
    var t := Publishing(s, p, store, log, won, via, told);
    PublishingControl(s, p, store, log, won, via, told);
    hide Touches;
    PublishingLock(s, p, t);
    hide LockHeld, CopiesCurrent;
    PublishingStore(s, p, t, won, id);
    PublishingCreations(s, p, t, won, id);
    PublishingPrizes(s, p, t, won, via, told, id);
  }

  /** A decision moves the log's account of its request as it moves the request. */
  lemma DecisionTold(s: State, p: Pid, work: Work, now: int)
    requires StoreTold(s) && work.Decision? && work.id in s.store
    requires Decided(s.store[work.id], work.d, now).Some?
    ensures var id, next := work.id, Decided(s.store[work.id], work.d, now).value;
            var log := s.log + [Changed(p, id, next.status, now)];
            && (PhaseOf(s.log, id).Undecided? || PhaseOf(s.log, id).Granted?)
            && next.id == id && Matches(next, PhaseOf(log, id)) && !PhaseOf(log, id).Bad?
            && forall won | Winner(work, s.store, now) == Some(won) ::
                 won.id == id && PhaseOf(log, id) == Taken(won.snapshot, won.expiresAt, p)
  {
    var id := work.id;
    PhaseSnoc(s.log, Changed(p, id, Decided(s.store[id], work.d, now).value.status, now));
    hide PhaseOf;
    assert Matches(s.store[id], PhaseOf(s.log, id));
  }

  lemma PublishDecision(s: State, p: Pid)
    requires Inv(s) && Enabled(s, Publish(p)) && ControlOf(s, p).work.Decision?
    ensures Inv(Do(s, Publish(p)))
  {
    hide PhaseOf, Matches;
    var c := ControlOf(s, p);
    assert c.copy == s.store;
    var id, d, now := c.work.id, c.work.d, c.now;
    var store := Decide(s.store, id, d, now);
    if id in s.store && Decided(s.store[id], d, now).Some? {
      var e := Changed(p, id, Decided(s.store[id], d, now).value.status, now);
      PhaseSnoc(s.log, e);
      DecisionTold(s, p, c.work, now);
      NoPrizeUnlessTaken(s, id);
      hide Decided;
      Published(s, p, store, s.log + [e], Winner(c.work, s.store, now), c.work.via, Told(c.work, s.store, now), id);
    } else {
      assert s.log + [] == s.log;
      Published(s, p, store, s.log, None, c.work.via, Told(c.work, s.store, now), id);
    }
  }

  lemma NoPrizeUnlessTaken(s: State, id: Id)
    requires Inv(s) && !PhaseOf(s.log, id).Taken?
    ensures forall q: Pid :: Prize(ControlOf(s, q)).Some? ==> Prize(ControlOf(s, q)).value.id != id
  {
    hide Matches, PhaseOf;
  }

  lemma PublishCreation(s: State, p: Pid)
    requires Inv(s) && Enabled(s, Publish(p)) && ControlOf(s, p).work.Creation?
    ensures Inv(Do(s, Publish(p)))
  {
    hide PhaseOf, CreateError;
    var c := ControlOf(s, p);
    var r := c.work.request;
    assert Creating(c) && NewOf(c) == r;
    if CreateError(s.store, r).None? {
      var e := Created(p, r.id, r.snapshot, r.expiresAt);
      PhaseSnoc(s.log, e);
      NoPrizeUnlessTaken(s, r.id);
      Published(s, p, s.store[r.id := r], s.log + [e], None, None, None, r.id);
    } else {
      assert s.log + [] == s.log;
      Published(s, p, s.store, s.log, None, None, None, r.id);
    }
  }

  lemma PublishPruning(s: State, p: Pid)
    requires Inv(s) && Enabled(s, Publish(p)) && ControlOf(s, p).work.Pruning?
    ensures Inv(Do(s, Publish(p)))
  {
    hide PhaseOf, Eligible;
    var c := ControlOf(s, p);
    var id := "";
    assert s.log + [] == s.log;
    Published(s, p, Retained(s.store, c.work.cutoff, c.work.now), s.log, None, None, None, id);
  }

  lemma ReleaseStep(s: State, p: Pid)
    requires Inv(s) && Enabled(s, Release(p))
    ensures Inv(Do(s, Release(p)))
  {
    hide PhaseOf, Matches;
    var c := ControlOf(s, p);
    var t := s;
    if c.told.Some? {
      NoteEvent(s, Returned(p, c.told.value));
      t := s.(log := s.log + [Returned(p, c.told.value)]);
    } else {
      assert s.log + [] == s.log;
    }
    assert InSection(c);
    LockChanges(t, p, None, if c.won.Some? then Won(c.won.value, c.via) else Idle);
  }

  lemma StepKeepsInv(s: State, step: Step)
    requires Inv(s) && Enabled(s, step)
    ensures Inv(Do(s, step))
  {
    var p, c := step.p, ControlOf(s, step.p);
    match step {
      case StartCreate(_, r) => StartCreateStep(s, p, r);
      case StartPrune(_, cutoff, now) =>
        NoteEvent(s, Sampled(p, now));
        QuietStep(s.(log := s.log + [Sampled(p, now)]), p, Waiting(Pruning(cutoff, now)), s.issued);
      case StartDecision(_, d, id) => QuietStep(s, p, Waiting(Decision(d, id)), s.issued);
      case StartRead(_, id, now, why) =>
        NoteEvent(s, Sampled(p, now));
        QuietStep(s.(log := s.log + [Sampled(p, now)]), p, Reading(id, now, why), s.issued);
      case Look(_) => LookStep(s, p);
      case Acquire(_) => LockChanges(s, p, Some(p), Locked(c.work));
      case Load(_) => QuietStep(s, p, Loaded(c.work, s.store), s.issued);
      case Compute(_, now) => ComputeStep(s, p, now);
      case Publish(_) =>
        match c.work {
          case Decision(_, _, _) => PublishDecision(s, p);
          case Creation(_) => PublishCreation(s, p);
          case Pruning(_, _) => PublishPruning(s, p);
        }
      case Fail(_) => QuietStep(s, p, Finished(None, None, None), s.issued);
      case Release(_) => ReleaseStep(s, p);
      case Execute(_) => ExecuteStep(s, p);
      case Refuse(_) => QuietStep(s, p, Idle, s.issued);
      case Crash(_) => LockChanges(s, p, if s.lock == Some(p) then None else s.lock, Dead);
    }
  }

  lemma {:induction false} RunKeepsInv(steps: seq<Step>, s: State)
    requires Run(steps, s)
    ensures Inv(s)
    decreases |steps|
  {
    hide Inv, Enabled, Do;
    if steps == [] {
      StartHolds();
    } else {
      var last := steps[|steps| - 1];
      var before :| Run(steps[..|steps| - 1], before) && Enabled(before, last) && s == Do(before, last);
      RunKeepsInv(steps[..|steps| - 1], before);
      StepKeepsInv(before, last);
    }
  }

  lemma StartHolds()
    ensures Inv(START)
  {
  }
}
