/** The approval store: what each locked operation does to the persisted requests. */
module Approval {
  import opened Results
  import Order

  type Id = string

  datatype Status = Pending | Approved | Rejected | Expired | Consumed

  datatype Kind = Shell | FileWrite | FilePatch

  /** Everything fixed at creation: the exact action that approved execution replays. `bytes` is the
      length of its JSON text. */
  datatype Snapshot = Snapshot(kind: Kind, action: string, bytes: nat)

  datatype Request = Request(
    id: Id, snapshot: Snapshot, status: Status, createdAt: int, expiresAt: int, decidedAt: Option<int>)

  type Store = map<Id, Request>

  datatype StoreError = DuplicateId | TooManyRecords | TooManyBytes | Unreadable | NotPersisted

  const MAX_APPROVAL_RECORDS := 10_000
  const MAX_APPROVAL_STORE_BYTES := 16 * 1024 * 1024
  const MAX_APPROVAL_STORE_READ_BYTES := 64 * 1024 * 1024

  predicate IsLive(s: Status) { s == Pending || s == Approved }

  predicate PastExpiry(r: Request, now: int) {
    IsLive(r.status) && now >= r.expiresAt
  }

  /** The status a reader shows: a live request past its expiry already counts as expired. */
  function EffectiveStatus(r: Request, now: int): Status {
    if PastExpiry(r, now) then Expired else r.status
  }

  function Settle(r: Request, s: Status, now: int): Request {
    r.(status := s, decidedAt := Some(now))
  }

  // ---- decisions ----

  datatype Decision = Approve | Reject | Consume | Expire

  function Allowed(d: Decision): set<Status> {
    match d
    case Approve => {Pending}
    case Reject => {Pending}
    case Consume => {Approved}
    case Expire => {Pending, Approved}
  }

  function Target(d: Decision): Status {
    match d
    case Approve => Approved
    case Reject => Rejected
    case Consume => Consumed
    case Expire => Expired
  }

  /** The request a decision leaves, if it changes the request at all. */
  function Decided(r: Request, d: Decision, now: int): Option<Request> {
    if PastExpiry(r, now) then Some(Settle(r, Expired, now))
    else if r.status in Allowed(d) then Some(Settle(r, Target(d), now))
    else None
  }

  function Decide(store: Store, id: Id, d: Decision, now: int): Store {
    if id in store && Decided(store[id], d, now).Some?
    then store[id := Decided(store[id], d, now).value]
    else store
  }

  /** What the caller of a decision is told: the request as it now stands, and whether it changed. */
  function Answer(store: Store, id: Id, d: Decision, now: int): (Option<Request>, bool) {
    if id !in store then (None, false)
    else
      match Decided(store[id], d, now)
      case Some(r) => (Some(r), true)
      case None => (Some(store[id]), false)
  }

  predicate Succeeds(store: Store, id: Id, d: Decision, now: int) {
    id in store && !PastExpiry(store[id], now) && store[id].status in Allowed(d)
  }

  /** The edges of the lifecycle. */
  predicate Edge(a: Status, b: Status) {
    || (a == Pending && (b == Approved || b == Rejected || b == Expired))
    || (a == Approved && (b == Consumed || b == Expired))
  }

  /** Decided before its expiry, unless the decision is the expiry. */
  predicate TimelyRecord(r: Request) {
    (r.status == Approved || r.status == Rejected || r.status == Consumed)
    ==> r.decidedAt.Some? && r.decidedAt.value < r.expiresAt
  }

  /** A decision either changes nothing or moves one request along one edge of the lifecycle, keeps
      everything else of it and every other request, and is timely. */
  lemma DecideMovesOneEdge(store: Store, id: Id, d: Decision, now: int)
    ensures Decide(store, id, d, now).Keys == store.Keys
    ensures forall k :: k in store && k != id ==> Decide(store, id, d, now)[k] == store[k]
    ensures var next := Decide(store, id, d, now);
            next != store ==>
              && id in store
              && Edge(store[id].status, next[id].status)
              && next[id] == Settle(store[id], next[id].status, now)
              && TimelyRecord(next[id])
    ensures Succeeds(store, id, d, now) ==>
              Decide(store, id, d, now)[id] == Settle(store[id], Target(d), now) != store[id]
  {
  }

  /** Before its expiry a pending request can be approved and can be rejected, an approved one can be
      consumed, and no other request can. */
  lemma DecisionsInTime(store: Store, id: Id, now: int)
    requires id in store && now < store[id].expiresAt
    ensures var r := store[id];
            && (r.status == Pending ==>
                  && Answer(store, id, Approve, now) == (Some(r.(status := Approved, decidedAt := Some(now))), true)
                  && Decide(store, id, Approve, now) == store[id := r.(status := Approved, decidedAt := Some(now))]
                  && Answer(store, id, Reject, now) == (Some(r.(status := Rejected, decidedAt := Some(now))), true)
                  && Decide(store, id, Reject, now) == store[id := r.(status := Rejected, decidedAt := Some(now))])
            && (r.status == Approved ==>
                  && Answer(store, id, Consume, now) == (Some(r.(status := Consumed, decidedAt := Some(now))), true)
                  && Decide(store, id, Consume, now) == store[id := r.(status := Consumed, decidedAt := Some(now))])
            && (Succeeds(store, id, Approve, now) <==> r.status == Pending)
            && (Succeeds(store, id, Reject, now) <==> r.status == Pending)
            && (Succeeds(store, id, Consume, now) <==> r.status == Approved)
  {
  }

  /** From its expiry on no decision succeeds: the first records the expiry of a live request. */
  lemma DecisionsTooLate(store: Store, id: Id, d: Decision, now: int)
    requires id in store && now >= store[id].expiresAt
    ensures !Succeeds(store, id, d, now)
    ensures var r := store[id];
            if r.status == Pending || r.status == Approved
            then Decide(store, id, d, now) == store[id := r.(status := Expired, decidedAt := Some(now))]
            else Decide(store, id, d, now) == store && Answer(store, id, d, now) == (Some(r), false)
  {
  }

  // ---- creation ----

  /** `"status"` and `"decided_at"` in the JSON text; the timestamp shows microseconds if any. */
  function StatusBytes(s: Status): nat {
    match s
    case Pending => 7
    case Expired => 7
    case Approved => 8
    case Rejected => 8
    case Consumed => 8
  }

  function TimeBytes(t: Option<int>): nat {
    match t
    case None => 4
    case Some(micros) => if micros % 1_000_000 == 0 then 22 else 29
  }

  function RecordBytes(r: Request): nat {
    r.snapshot.bytes + StatusBytes(r.status) + TimeBytes(r.decidedAt)
  }

  const ENVELOPE_BYTES := 41

  function Weights(store: Store, pending: bool): map<string, nat> {
    map id | id in store :: if pending then PendingBytes(store[id]) else RecordBytes(store[id])
  }

  /** The size of the record as it was created, before any decision. */
  function PendingBytes(r: Request): nat {
    r.snapshot.bytes + StatusBytes(Pending) + TimeBytes(None)
  }

  function StoreBytes(store: Store): nat {
    ENVELOPE_BYTES + Order.Sum(Weights(store, false))
  }

  function NewRequest(id: Id, snapshot: Snapshot, now: int, ttl: int): Request {
    Request(id, snapshot, Pending, now, now + ttl, None)
  }

  function CreateError(store: Store, r: Request): Option<StoreError> {
    if r.id in store then Some(DuplicateId)
    else if |store| + 1 > MAX_APPROVAL_RECORDS then Some(TooManyRecords)
    else if StoreBytes(store[r.id := r]) > MAX_APPROVAL_STORE_BYTES then Some(TooManyBytes)
    else None
  }

  /** A new id is accepted exactly while the number and the size of the records allow it; which limit is
      named when several are exceeded. */
  lemma CreationIsExact(store: Store, id: Id, snapshot: Snapshot, now: int, ttl: int)
    ensures var r := NewRequest(id, snapshot, now, ttl);
            var error := CreateError(store, r);
            && (error == Some(DuplicateId) <==> id in store)
            && (error == Some(TooManyRecords) <==> id !in store && |store| >= 10_000)
            && (error == Some(TooManyBytes) <==>
                  id !in store && |store| < 10_000 && StoreBytes(store) + snapshot.bytes + 11 > 16_777_216)
            && (error.None? <==>
                  id !in store && |store| < 10_000 && StoreBytes(store) + snapshot.bytes + 11 <= 16_777_216)
  {
    var r := NewRequest(id, snapshot, now, ttl);
    if id !in store {
      var weights := Weights(store[id := r], false);
      Order.SumRemove(weights, id);
      assert weights - {id} == Weights(store, false);
    }
  }

  /** A created request is pending, and can be decided, until its time to live is over. */
  lemma CreatedLives(store: Store, id: Id, snapshot: Snapshot, now: int, ttl: int, later: int)
    ensures var next := store[id := NewRequest(id, snapshot, now, ttl)];
            && next[id].snapshot == snapshot && next[id].createdAt == now
            && (Succeeds(next, id, Approve, later) <==> later < now + ttl)
            && (Succeeds(next, id, Reject, later) <==> later < now + ttl)
            && EffectiveStatus(next[id], later) == if later < now + ttl then Pending else Expired
  {
  }

  // ---- pruning ----

  const DAY := 86_400_000_000
  const EARLIEST := -62_135_596_800_000_000

  /** The terminal status a request has in effect, and the time its age counts from. */
  function PruneTimestamp(r: Request, now: int): Option<(Status, int)> {
    match r.status
    case Rejected => if r.decidedAt.None? then None else Some((Rejected, r.decidedAt.value))
    case Consumed => if r.decidedAt.None? then None else Some((Consumed, r.decidedAt.value))
    case Expired => Some((Expired, if r.decidedAt.Some? then r.decidedAt.value else r.expiresAt))
    case _ => if PastExpiry(r, now) then Some((Expired, r.expiresAt)) else None
  }

  predicate Eligible(r: Request, cutoff: int, now: int) {
    var t := PruneTimestamp(r, now);
    t.Some? && t.value.1 <= cutoff
  }

  function EligibleIds(store: Store, cutoff: int, now: int): set<Id> {
    set id | id in store && Eligible(store[id], cutoff, now)
  }

  /** The eligible requests whose effective status is `s`. */
  function EligibleAs(store: Store, cutoff: int, now: int, s: Status): set<Id> {
    set id | id in store && Eligible(store[id], cutoff, now) && EffectiveStatus(store[id], now) == s
  }

  function Retained(store: Store, cutoff: int, now: int): Store {
    map id | id in store && !Eligible(store[id], cutoff, now) :: store[id]
  }

  datatype PruneResult = PruneResult(
    changed: bool, cutoff: int, total: nat, eligible: nat, retained: nat,
    rejected: nat, expired: nat, consumed: nat)

  /** What a prune reports about a store, whether it only plans or applies. */
  function PruneReport(store: Store, cutoff: int, now: int, apply: bool): PruneResult {
    var ids := EligibleIds(store, cutoff, now);
    PruneResult(apply && ids != {}, cutoff, |store|, |ids|, |Retained(store, cutoff, now)|,
                |EligibleAs(store, cutoff, now, Rejected)|,
                |EligibleAs(store, cutoff, now, Expired)|,
                |EligibleAs(store, cutoff, now, Consumed)|)
  }

  /** Exactly the effectively terminal requests aged past the cutoff go. A request that could still
      be approved or consumed stays, as does a decided one that carries no time of decision. */
  lemma PruneIsExact(store: Store, id: Id, cutoff: int, now: int)
    requires id in store
    ensures var r := store[id];
            id !in Retained(store, cutoff, now)
            <==> !IsLive(EffectiveStatus(r, now))
                 && (if r.decidedAt.Some? && !IsLive(r.status) then r.decidedAt.value <= cutoff
                     else EffectiveStatus(r, now) == Expired && r.expiresAt <= cutoff)
    ensures id in Retained(store, cutoff, now) ==> Retained(store, cutoff, now)[id] == store[id]
    ensures forall d :: Succeeds(store, id, d, now) ==> id in Retained(store, cutoff, now)
  {
  }

  lemma PruneCounts(store: Store, cutoff: int, now: int, apply: bool)
    ensures var r := PruneReport(store, cutoff, now, apply);
            && r.eligible + r.retained == r.total
            && r.rejected + r.expired + r.consumed == r.eligible
  {
    RetainedSize(store, cutoff, now);
    ClassesApart(store, cutoff, now);
    hide EligibleIds, EligibleAs, Retained;
    SizeOfThree(EligibleIds(store, cutoff, now), EligibleAs(store, cutoff, now, Rejected),
                EligibleAs(store, cutoff, now, Expired), EligibleAs(store, cutoff, now, Consumed));
  }

  lemma ClassesApart(store: Store, cutoff: int, now: int)
    ensures var rejected, expired, consumed := EligibleAs(store, cutoff, now, Rejected),
              EligibleAs(store, cutoff, now, Expired), EligibleAs(store, cutoff, now, Consumed);
            EligibleIds(store, cutoff, now) == rejected + expired + consumed
            && rejected !! expired && rejected !! consumed && expired !! consumed
  {
  }

  /** Each counter by itself, in terms of what is stored. */
  lemma PruneCounters(store: Store, cutoff: int, now: int, apply: bool)
    ensures var r := PruneReport(store, cutoff, now, apply);
            && r.total == |store| && r.cutoff == cutoff
            && r.rejected == |set id | id in store && store[id].status == Rejected
                                       && store[id].decidedAt.Some? && store[id].decidedAt.value <= cutoff|
            && r.consumed == |set id | id in store && store[id].status == Consumed
                                       && store[id].decidedAt.Some? && store[id].decidedAt.value <= cutoff|
            && r.expired == |set id | id in store && ExpiredBy(store[id], cutoff, now)|
            && (r.changed <==> apply && r.eligible > 0)
  {
    assert EligibleAs(store, cutoff, now, Rejected)
        == set id | id in store && store[id].status == Rejected
                    && store[id].decidedAt.Some? && store[id].decidedAt.value <= cutoff;
    assert EligibleAs(store, cutoff, now, Consumed)
        == set id | id in store && store[id].status == Consumed
                    && store[id].decidedAt.Some? && store[id].decidedAt.value <= cutoff;
    assert EligibleAs(store, cutoff, now, Expired) == set id | id in store && ExpiredBy(store[id], cutoff, now);
  }

  /** Recorded as expired with a time up to the cutoff, or live and past an expiry up to the cutoff. */
  predicate ExpiredBy(r: Request, cutoff: int, now: int) {
    || (r.status == Expired && r.decidedAt.Some? && r.decidedAt.value <= cutoff)
    || (r.status == Expired && r.decidedAt.None? && r.expiresAt <= cutoff)
    || ((r.status == Pending || r.status == Approved) && r.expiresAt <= now && r.expiresAt <= cutoff)
  }

  lemma SizeOfThree(all: set<Id>, a: set<Id>, b: set<Id>, c: set<Id>)
    requires all == a + b + c && a !! b && a !! c && b !! c
    ensures |all| == |a| + |b| + |c|
  {
    assert |a + b| == |a| + |b|;
  }

  lemma RetainedSize(store: Store, cutoff: int, now: int)
    ensures Retained(store, cutoff, now).Keys == store.Keys - EligibleIds(store, cutoff, now)
    ensures |Retained(store, cutoff, now)| + |EligibleIds(store, cutoff, now)| == |store|
  {
    hide Eligible;
    var ids := EligibleIds(store, cutoff, now);
    assert Retained(store, cutoff, now).Keys == store.Keys - ids;
    assert store.Keys == ids + (store.Keys - ids);
    assert |ids + (store.Keys - ids)| == |ids| + |store.Keys - ids|;
  }

  /** Pruning twice at one time is pruning once, and what is left is never reported again. */
  lemma PruneAgain(store: Store, cutoff: int, now: int)
    ensures var kept := Retained(store, cutoff, now);
            && Retained(kept, cutoff, now) == kept
            && EligibleIds(kept, cutoff, now) == {}
            && !PruneReport(kept, cutoff, now, true).changed
  {
  }

  /** Writing down a lazy expiry never makes a request prunable that was not, exactly when the expiry
      was written down no earlier than the request expired (a clock set back between the unlocked
      look and the locked write breaks this). */
  lemma LazyExpiryKeepsAge(r: Request, at: int)
    requires IsLive(r.status)
    ensures (forall cutoff, now | now >= at && now >= r.expiresAt ::
               Eligible(Settle(r, Expired, at), cutoff, now) ==> Eligible(r, cutoff, now))
            <==> at >= r.expiresAt
  {
    if at < r.expiresAt {
      var now := r.expiresAt;
      assert Eligible(Settle(r, Expired, at), at, now) && !Eligible(r, at, now);
    }
  }

  // ---- sizes ----

  /** The most a decision can add to the text of a record. */
  const GROWTH := 26

  predicate Sound(store: Store) {
    && |store| <= MAX_APPROVAL_RECORDS
    && ENVELOPE_BYTES + Order.Sum(Weights(store, true)) <= MAX_APPROVAL_STORE_BYTES
  }

  /** No store the program can write is larger than it is willing to read. */
  lemma SoundIsReadable(store: Store)
    requires Sound(store)
    ensures StoreBytes(store) <= MAX_APPROVAL_STORE_BYTES + GROWTH * |store| < MAX_APPROVAL_STORE_READ_BYTES
  {
    Order.SumBound(Weights(store, false), Weights(store, true), GROWTH);
    assert Weights(store, false).Keys == store.Keys;
  }

  lemma CreateKeepsSound(store: Store, r: Request)
    requires Sound(store) && CreateError(store, r).None?
    ensures Sound(store[r.id := r])
  {
    var next := store[r.id := r];
    Order.SumBound(Weights(next, true), Weights(next, false), 0);
  }

  lemma DecideKeepsSound(store: Store, id: Id, d: Decision, now: int)
    requires Sound(store)
    ensures Sound(Decide(store, id, d, now))
  {
    var next := Decide(store, id, d, now);
    assert |next.Keys| == |store.Keys|;
    assert Weights(next, true) == Weights(store, true);
  }

  lemma {:induction false} SumOfPart(m: map<string, nat>, ids: set<Id>)
    ensures Order.Sum(m - ids) <= Order.Sum(m)
    decreases |ids|
  {
    if ids == {} {
      assert m - ids == m;
    } else {
      var id :| id in ids;
      SumOfPart(m, ids - {id});
      var rest := m - (ids - {id});
      assert rest - {id} == m - ids;
      if id in rest {
        Order.SumRemove(rest, id);
      } else {
        assert rest - {id} == rest;
      }
    }
  }

  lemma PruneKeepsSound(store: Store, cutoff: int, now: int)
    requires Sound(store)
    ensures Sound(Retained(store, cutoff, now))
  {
    var ids := EligibleIds(store, cutoff, now);
    RetainedSize(store, cutoff, now);
    SumOfPart(Weights(store, true), ids);
    RetainedWeights(store, cutoff, now);
    hide Retained, EligibleIds, Weights;
  }

  lemma RetainedWeights(store: Store, cutoff: int, now: int)
    ensures Weights(Retained(store, cutoff, now), true) == Weights(store, true) - EligibleIds(store, cutoff, now)
  {
    hide Eligible, PendingBytes;
  }
}
