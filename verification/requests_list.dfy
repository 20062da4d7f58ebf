/**
 The relational-backend request list: who is offered Accept/Reject, and the handler that
 responds. The handler issues up to four calls in order: the status update, the pool_in
 insert, the read of the group's `total_pooled`, and the write of `total_pooled + amount`.
 A status-update or insert error is thrown (the list is not refreshed and the parent is not
 notified); a failed read or balance write goes unnoticed.
 */
module RequestsList {
  import opened Common
  import opened Ledger

  datatype Decision = Accept | Reject

  function StatusFor(d: Decision): RequestStatus {
    match d
    case Accept => Accepted
    case Reject => Rejected
  }

  /** Accept/Reject are rendered only on the current member's own pending requests. */
  predicate CanRespond(r: PaymentRequest, currentMemberId: MemberId)
    // Only the addressed member is offered the buttons: no other member id, no payer-addressed request ...
    ensures CanRespond(r, currentMemberId) ==>
      r.addressee.Member? && forall other :: other != currentMemberId ==> r.addressee != Member(other)
    // ... and only while it is pending: an accepted or rejected request offers them to nobody.
    ensures r.status != Pending ==> !CanRespond(r, currentMemberId)
  {
    r.addressee == Member(currentMemberId) && r.status == Pending
  }

  const AcceptedNote: string := "Payment request accepted"

  /** The pool_in entry an acceptance books. */
  function PoolInFor(groupId: GroupId, currentMemberId: MemberId, amount: real): Transaction {
    Transaction(groupId, currentMemberId, PoolIn, amount, AcceptedNote, None, None)
  }

  /** `update(...).eq('id', id)`: a missing id matches no row, which is not an error. */
  function MarkResponded(reqs: seq<PaymentRequest>, id: int, status: RequestStatus, now: Timestamp): seq<PaymentRequest> {
    if 0 <= id < |reqs| then reqs[id := reqs[id].(status := status, respondedAt := Some(now))] else reqs
  }

  /**
   `handleResponse(requestId, status, amount)`. It does not look at the request's current
   status: the pending check exists only in what is rendered.
   */
  function HandleResponse(s: Store, groupId: GroupId, currentMemberId: MemberId, requestId: int,
                          decision: Decision, amount: real, now: Timestamp, faults: set<Step>): (a: Attempt)
    // A failed status update stops everything.
    ensures StatusWrite in faults ==> a == Attempt(s, Some(WriteFailed))
    // The parent is notified exactly when neither thrown error occurred.
    ensures a.failure.None? <==> StatusWrite !in faults && (decision == Reject || TxInsert !in faults)
    // Once the status update succeeded, the addressed request carries the decision and the time.
    ensures |a.store.requests| == |s.requests|
    ensures StatusWrite !in faults && 0 <= requestId < |s.requests| ==>
      a.store.requests[requestId] == s.requests[requestId].(status := StatusFor(decision), respondedAt := Some(now))
    ensures forall j :: 0 <= j < |s.requests| && j != requestId ==> a.store.requests[j] == s.requests[j]
    // At most one transaction is appended: the pool_in of an acceptance whose insert succeeded.
    ensures a.store.transactions ==
      if decision == Accept && StatusWrite !in faults && TxInsert !in faults
      then s.transactions + [PoolInFor(groupId, currentMemberId, amount)]
      else s.transactions
    // Only the request's group can change, and only by the amount, and only if every step succeeded.
    ensures a.store.groups.Keys == s.groups.Keys
    ensures forall gid :: gid in s.groups && gid != groupId ==> a.store.groups[gid] == s.groups[gid]
    ensures groupId in s.groups ==>
      a.store.groups[groupId].totalPooled ==
        s.groups[groupId].totalPooled + (if decision == Accept && AllSucceed(faults) then amount else 0.0)
    ensures groupId in s.groups ==>
      a.store.groups[groupId] == s.groups[groupId].(totalPooled := a.store.groups[groupId].totalPooled)
  {
    if StatusWrite in faults then Attempt(s, Some(WriteFailed))
    else
      var s1 := s.(requests := MarkResponded(s.requests, requestId, StatusFor(decision), now));
      if decision == Reject then Attempt(s1, None)
      else if TxInsert in faults then Attempt(s1, Some(WriteFailed))
      else
        var s2 := s1.(transactions := s1.transactions + [PoolInFor(groupId, currentMemberId, amount)]);
        if GroupRead in faults || groupId !in s2.groups then Attempt(s2, None)
        else if GroupWrite in faults then Attempt(s2, None)
        else
          var g := s2.groups[groupId];
          Attempt(s2.(groups := s2.groups[groupId := g.(totalPooled := g.totalPooled + amount)]), None)
  }

  /** When every step succeeds, any response keeps `totalPooled` equal to the derived balance. */
  lemma ResponseKeepsConsistent(s: Store, groupId: GroupId, currentMemberId: MemberId, requestId: int,
                                decision: Decision, amount: real, now: Timestamp)
    requires Consistent(s)
    ensures Consistent(HandleResponse(s, groupId, currentMemberId, requestId, decision, amount, now, {}).store)
  {
    var a := HandleResponse(s, groupId, currentMemberId, requestId, decision, amount, now, {});
    if decision == Accept {
      var t := PoolInFor(groupId, currentMemberId, amount);
      forall gid | gid in a.store.groups
        ensures a.store.groups[gid].totalPooled == DerivedBalance(a.store.transactions, gid)
      {
        DerivedBalanceAppend(s.transactions, t, gid);
      }
    }
  }

  /** A response from the addressed member to a pending request of this group, with every step succeeding, keeps both invariants. */
  lemma GuardedResponseKeepsBooks(s: Store, groupId: GroupId, currentMemberId: MemberId, requestId: nat,
                                  decision: Decision, now: Timestamp)
    requires Consistent(s) && Backed(s)
    requires requestId < |s.requests|
    requires CanRespond(s.requests[requestId], currentMemberId) && s.requests[requestId].groupId == groupId
    ensures var a := HandleResponse(s, groupId, currentMemberId, requestId, decision, s.requests[requestId].amount, now, {});
      a.failure.None? && Consistent(a.store) && Backed(a.store)
  {
    var r := s.requests[requestId];
    var a := HandleResponse(s, groupId, currentMemberId, requestId, decision, r.amount, now, {});
    ResponseKeepsConsistent(s, groupId, currentMemberId, requestId, decision, r.amount, now);
    var r' := r.(status := StatusFor(decision), respondedAt := Some(now));
    assert a.store.requests == s.requests[requestId := r'];
    forall gid
      ensures SumAccepted(a.store.requests, gid) == SumKind(a.store.transactions, gid, PoolIn)
    {
      SumAcceptedUpdate(s.requests, requestId, r', gid);
      if decision == Accept {
        SumKindAppend(s.transactions, PoolInFor(groupId, currentMemberId, r.amount), gid, PoolIn);
      }
    }
  }

  /** A lost read or write of `total_pooled` after the pool_in was stored leaves the group inconsistent. */
  lemma LostBalanceUpdateBreaksConsistency(s: Store, groupId: GroupId, currentMemberId: MemberId, requestId: int,
                                           amount: real, now: Timestamp, faults: set<Step>)
    requires Consistent(s)
    requires groupId in s.groups && amount != 0.0
    requires StatusWrite !in faults && TxInsert !in faults
    requires GroupRead in faults || GroupWrite in faults
    ensures !Consistent(HandleResponse(s, groupId, currentMemberId, requestId, Accept, amount, now, faults).store)
  {
    var t := PoolInFor(groupId, currentMemberId, amount);
    DerivedBalanceAppend(s.transactions, t, groupId);
  }

  /** A failed pool_in insert leaves the request accepted with no transaction behind it. */
  lemma FailedInsertStrandsAcceptance(s: Store, groupId: GroupId, currentMemberId: MemberId, requestId: nat,
                                      now: Timestamp, faults: set<Step>)
    requires Consistent(s) && Backed(s)
    requires requestId < |s.requests|
    requires CanRespond(s.requests[requestId], currentMemberId) && s.requests[requestId].groupId == groupId
    requires s.requests[requestId].amount != 0.0
    requires StatusWrite !in faults && TxInsert in faults
    ensures var a := HandleResponse(s, groupId, currentMemberId, requestId, Accept, s.requests[requestId].amount, now, faults);
      a.failure.Some? && Consistent(a.store) && !Backed(a.store)
  {
    var r := s.requests[requestId];
    var a := HandleResponse(s, groupId, currentMemberId, requestId, Accept, r.amount, now, faults);
    var r' := r.(status := Accepted, respondedAt := Some(now));
    assert a.store.requests == s.requests[requestId := r'];
    SumAcceptedUpdate(s.requests, requestId, r', groupId);
    assert SumAccepted(s.requests, groupId) == SumKind(s.transactions, groupId, PoolIn);
  }

  /**
   Responding again to a request that was already accepted, as the handler allows, books the
   amount twice (accept) or un-backs it (reject).
   */
  lemma RepeatedResponseBreaksBacking(s: Store, groupId: GroupId, currentMemberId: MemberId, requestId: nat,
                                      decision: Decision, now: Timestamp)
    requires Backed(s)
    requires requestId < |s.requests|
    requires s.requests[requestId].status == Accepted && s.requests[requestId].groupId == groupId
    requires s.requests[requestId].amount != 0.0
    ensures !Backed(HandleResponse(s, groupId, currentMemberId, requestId, decision, s.requests[requestId].amount, now, {}).store)
  {
    var r := s.requests[requestId];
    var a := HandleResponse(s, groupId, currentMemberId, requestId, decision, r.amount, now, {});
    var r' := r.(status := StatusFor(decision), respondedAt := Some(now));
    assert a.store.requests == s.requests[requestId := r'];
    SumAcceptedUpdate(s.requests, requestId, r', groupId);
    if decision == Accept {
      SumKindAppend(s.transactions, PoolInFor(groupId, currentMemberId, r.amount), groupId, PoolIn);
    }
    assert SumAccepted(s.requests, groupId) == SumKind(s.transactions, groupId, PoolIn);
  }
}
