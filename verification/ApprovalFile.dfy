/** The persisted store as an object: each method is one call of the program's approval API, made
    by one process while no other holds the lock. `Io` says whether the store could be read and
    whether its publication succeeded; publication is all or nothing (module Publication). */
module ApprovalFile {
  import opened Results
  import opened Approval

  datatype Io = Io(readable: bool, persists: bool)

  datatype CallError = Store(error: StoreError) | UnknownRequest | RequestExpired | WrongStatus(status: Status)
                     | NegativeDays | TooManyDays

  class File {
    var requests: Approval.Store

    constructor ()
      ensures requests == map[]
    {
      requests := map[];
    }

    /** The locked read-modify-write behind every decision. */
    method ApplyDecision(id: Id, d: Decision, now: int, io: Io)
      returns (r: Result<(Option<Request>, bool), StoreError>)
      modifies this
      ensures !io.readable ==> r == Err(Unreadable) && requests == old(requests)
      ensures io.readable ==>
                var (request, changed) := Answer(old(requests), id, d, now);
                if changed && !io.persists
                then r == Err(NotPersisted) && requests == old(requests)
                else r == Ok((request, changed)) && requests == Decide(old(requests), id, d, now)
    {
      if !io.readable {
        return Err(Unreadable);
      }
      var store := requests;
      if id !in store {
        return Ok((None, false));
      }
      var request := store[id];
      if PastExpiry(request, now) {
        request := request.(status := Expired, decidedAt := Some(now));
      } else if request.status !in Allowed(d) {
        return Ok((Some(request), false));
      } else {
        request := request.(status := Target(d), decidedAt := Some(now));
      }
      store := store[id := request];
      if !io.persists {
        return Err(NotPersisted);
      }
      requests := store;
      return Ok((Some(request), true));
    }

    /** Persists a new pending request, unless its id is taken or a capacity limit is exceeded. */
    method CreateRequest(id: Id, snapshot: Snapshot, ttl: int, now: int, io: Io)
      returns (r: Result<Request, StoreError>)
      modifies this
      ensures var request := NewRequest(id, snapshot, now, ttl);
              var error := if !io.readable then Some(Unreadable)
                           else if CreateError(old(requests), request).Some? then CreateError(old(requests), request)
                           else if !io.persists then Some(NotPersisted)
                           else None;
              if error.Some? then r == Err(error.value) && requests == old(requests)
              else r == Ok(request) && requests == old(requests)[id := request]
    {
      var request := Request(id, snapshot, Pending, now, now + ttl, None);
      if !io.readable {
        return Err(Unreadable);
      }
      var store := requests;
      if request.id in store {
        return Err(DuplicateId);
      }
      if |store| + 1 > MAX_APPROVAL_RECORDS {
        return Err(TooManyRecords);
      }
      store := store[request.id := request];
      if StoreBytes(store) > MAX_APPROVAL_STORE_BYTES {
        return Err(TooManyBytes);
      }
      if !io.persists {
        return Err(NotPersisted);
      }
      requests := store;
      return Ok(request);
    }

    /** Looks without the lock; a live request past its expiry is shown as expired, and its expiry is
        written down with a clock read again under the lock. */
    method GetRequest(id: Id, now: int, lockedNow: int, io: Io)
      returns (r: Result<Option<Request>, StoreError>)
      modifies this
      ensures !io.readable ==> r == Err(Unreadable) && requests == old(requests)
      ensures io.readable && (id !in old(requests) || !PastExpiry(old(requests)[id], now)) ==>
                requests == old(requests)
                && r == Ok(if id in old(requests) then Some(old(requests)[id]) else None)
      ensures io.readable && id in old(requests) && PastExpiry(old(requests)[id], now) ==>
                if io.persists
                then requests == old(requests)[id := Settle(old(requests)[id], Expired, lockedNow)]
                     && r == Ok(Some(old(requests)[id].(status := Expired)))
                else requests == old(requests) && r == Err(NotPersisted)
    {
      if !io.readable {
        return Err(Unreadable);
      }
      if id !in requests {
        return Ok(None);
      }
      var request := requests[id];
      if PastExpiry(request, now) {
        var marked := ApplyDecision(id, Expire, lockedNow, io);
        if marked.Err? {
          return Err(marked.error);
        }
        return Ok(Some(request.(status := Expired)));
      }
      return Ok(Some(request));
    }

    /** Shows the status in effect and writes nothing. */
    method ObserveRequest(id: Id, now: int, io: Io) returns (r: Result<Option<Request>, StoreError>)
      ensures !io.readable ==> r == Err(Unreadable)
      ensures io.readable ==>
                r == Ok(if id in requests
                        then Some(requests[id].(status := EffectiveStatus(requests[id], now)))
                        else None)
    {
      if !io.readable {
        return Err(Unreadable);
      }
      if id !in requests {
        return Ok(None);
      }
      var request := requests[id];
      if PastExpiry(request, now) {
        return Ok(Some(request.(status := Expired)));
      }
      return Ok(Some(request));
    }

    /** `approve_request` and `reject_request`: succeed exactly for a pending request before its
        expiry, and otherwise say why not. */
    method ApproveOrReject(id: Id, d: Decision, now: int, io: Io) returns (r: Result<Request, CallError>)
      requires d == Approve || d == Reject
      modifies this
      ensures r.Ok? <==> io.readable && io.persists && Succeeds(old(requests), id, d, now)
      ensures r.Ok? ==>
                r.value == Settle(old(requests)[id], Target(d), now)
                && requests == old(requests)[id := r.value]
      ensures r.Err? ==>
                requests == old(requests)
                || (id in old(requests) && PastExpiry(old(requests)[id], now)
                    && r.error == RequestExpired
                    && requests == old(requests)[id := Settle(old(requests)[id], Expired, now)])
    {
      var applied := ApplyDecision(id, d, now, io);
      if applied.Err? {
        return Err(Store(applied.error));
      }
      var (request, changed) := applied.value;
      if request.None? {
        return Err(UnknownRequest);
      }
      if request.value.status == Expired {
        return Err(RequestExpired);
      }
      if !changed || request.value.status != Target(d) {
        return Err(WrongStatus(request.value.status));
      }
      return Ok(request.value);
    }

    /** Single use: the one way from APPROVED to execution. */
    method ConsumeRequest(id: Id, now: int, io: Io) returns (r: Result<Option<Request>, StoreError>)
      modifies this
      ensures r.Ok? && r.value.Some? <==> io.readable && io.persists && Succeeds(old(requests), id, Consume, now)
      ensures r.Ok? && r.value.Some? ==>
                r.value.value == Settle(old(requests)[id], Consumed, now)
                && requests == old(requests)[id := r.value.value]
                && !Succeeds(requests, id, Consume, now)
      ensures !(r.Ok? && r.value.Some?) ==>
                requests == old(requests)
                || (id in old(requests) && PastExpiry(old(requests)[id], now)
                    && requests == old(requests)[id := Settle(old(requests)[id], Expired, now)])
    {
      var applied := ApplyDecision(id, Consume, now, io);
      if applied.Err? {
        return Err(applied.error);
      }
      var (request, changed) := applied.value;
      if request.Some? && changed && request.value.status == Consumed {
        return Ok(request);
      }
      return Ok(None);
    }

    /** Plans, and with `apply` carries out, the removal of old terminal requests. */
    method PruneRequests(olderThanDays: int, apply: bool, now: int, io: Io)
      returns (r: Result<PruneResult, CallError>)
      modifies this
      ensures var cutoff := now - olderThanDays * DAY;
              var report := PruneReport(old(requests), cutoff, now, apply);
              var error := if olderThanDays < 0 then Some(NegativeDays)
                           else if cutoff < EARLIEST then Some(TooManyDays)
                           else if !io.readable then Some(Store(Unreadable))
                           else if report.changed && !io.persists then Some(Store(NotPersisted))
                           else None;
              && (error.Some? ==> r == Err(error.value) && requests == old(requests))
              && (error.None? ==> r == Ok(report)
                                  && requests == if apply then Retained(old(requests), cutoff, now) else old(requests))
    {
      hide PruneTimestamp;
      if olderThanDays < 0 {
        return Err(NegativeDays);
      }
      var cutoff := now - olderThanDays * DAY;
      if cutoff < EARLIEST {
        return Err(TooManyDays);
      }
      if !io.readable {
        return Err(Store(Unreadable));
      }
      var eligible, rejected, expired, consumed := PrunePlan(requests, cutoff, now);
      RetainedSize(requests, cutoff, now);
      var changed := apply && eligible != {};
      var result := PruneResult(changed, cutoff, |requests|, |eligible|, |requests| - |eligible|,
                                rejected, expired, consumed);
      if changed {
        if !io.persists {
          return Err(Store(NotPersisted));
        }
        requests := map id | id in requests && id !in eligible :: requests[id];
      } else if apply {
        assert Retained(requests, cutoff, now) == requests;
      }
      return Ok(result);
    }
  }

  /** `_approval_prune_plan`: one pass over the store with a counter per terminal status. */
  method PrunePlan(store: Approval.Store, cutoff: int, now: int)
    returns (eligible: set<Id>, rejected: nat, expired: nat, consumed: nat)
    ensures eligible == EligibleIds(store, cutoff, now)
    ensures rejected == |EligibleAs(store, cutoff, now, Rejected)|
    ensures expired == |EligibleAs(store, cutoff, now, Expired)|
    ensures consumed == |EligibleAs(store, cutoff, now, Consumed)|
  {
    hide PruneTimestamp, Eligible, EffectiveStatus, EligibleIds, EligibleAs, Tally;
    ghost var all := EligibleIds(store, cutoff, now);
    ghost var asRejected := EligibleAs(store, cutoff, now, Rejected);
    ghost var asExpired := EligibleAs(store, cutoff, now, Expired);
    ghost var asConsumed := EligibleAs(store, cutoff, now, Consumed);
    eligible, rejected, expired, consumed := {}, 0, 0, 0;
    var rest := store.Keys;
    WithinStore(store, cutoff, now);
    while rest != {}
      invariant rest <= store.Keys
      invariant eligible == all - rest
      invariant Tally(rejected, asRejected, rest)
      invariant Tally(expired, asExpired, rest)
      invariant Tally(consumed, asConsumed, rest)
      decreases |rest|
    {
      var id :| id in rest;
      var terminal := PruneTimestamp(store[id], now);
      Membership(store, id, cutoff, now);
      Visit(rejected, asRejected, rest, id);
      Visit(expired, asExpired, rest, id);
      Visit(consumed, asConsumed, rest, id);
      if terminal.Some? && terminal.value.1 <= cutoff {
        eligible := eligible + {id};
        if terminal.value.0 == Rejected {
          rejected := rejected + 1;
        } else if terminal.value.0 == Consumed {
          consumed := consumed + 1;
        } else {
          expired := expired + 1;
        }
      }
      rest := rest - {id};
    }
    Done(rejected, asRejected);
    Done(expired, asExpired);
    Done(consumed, asConsumed);
  }

  /** `n` members of `part` have been visited; `rest` is still to come. */
  ghost predicate Tally(n: nat, part: set<Id>, rest: set<Id>) {
    n == |part - rest|
  }

  lemma WithinStore(store: Approval.Store, cutoff: int, now: int)
    ensures EligibleIds(store, cutoff, now) - store.Keys == {}
    ensures forall s :: Tally(0, EligibleAs(store, cutoff, now, s), store.Keys)
  {
    forall s ensures Tally(0, EligibleAs(store, cutoff, now, s), store.Keys) {
      assert EligibleAs(store, cutoff, now, s) - store.Keys == {};
    }
  }

  lemma Membership(store: Approval.Store, id: Id, cutoff: int, now: int)
    requires id in store
    ensures var t := PruneTimestamp(store[id], now);
            var aged := t.Some? && t.value.1 <= cutoff;
            && (id in EligibleIds(store, cutoff, now) <==> aged)
            && (forall s :: id in EligibleAs(store, cutoff, now, s) <==> aged && t.value.0 == s)
            && (t.Some? ==> t.value.0 in {Rejected, Expired, Consumed})
  {
    TerminalStatus(store[id], now);
  }

  lemma TerminalStatus(r: Request, now: int)
    ensures var t := PruneTimestamp(r, now);
            t.Some? ==> t.value.0 == EffectiveStatus(r, now) && t.value.0 in {Rejected, Expired, Consumed}
  {
  }

  lemma Visit(n: nat, part: set<Id>, rest: set<Id>, id: Id)
    requires id in rest && Tally(n, part, rest)
    ensures Tally(if id in part then n + 1 else n, part, rest - {id})
  {
    if id in part {
      assert part - (rest - {id}) == (part - rest) + {id};
    } else {
      assert part - (rest - {id}) == part - rest;
    }
  }

  lemma Done(n: nat, part: set<Id>)
    requires Tally(n, part, {})
    ensures n == |part|
  {
    assert part - {} == part;
  }
}
