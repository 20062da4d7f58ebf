/**
 The document-store payment service: thin wrappers that each issue one or two writes.
 Every write may fail (`writeOk == false` or a `Step` in `faults`); a failed write throws to
 the caller, and the writes already made stay made.
 */
module PaymentService {
  import opened Common
  import opened Ledger
  import Upi

  /** The effect of a handler that, on success, only added request `r`. */
  predicate AddsRequest(s: Store, a: Attempt, r: PaymentRequest) {
    && a.failure.None?
    && a.store.groups == s.groups
    && a.store.transactions == s.transactions
    && |a.store.requests| == |s.requests| + 1
    && a.store.requests[..|s.requests|] == s.requests
    && a.store.requests[|s.requests|] == r
  }

  /** `sendPaymentRequest`: one pending request from one user to another. */
  function SendPaymentRequest(s: Store, groupId: GroupId, fromUserId: string, toUserId: string,
                              amount: real, now: Timestamp, writeOk: bool): (a: Attempt)
    ensures !writeOk ==> a == Attempt(s, Some(WriteFailed))
    ensures writeOk ==> (exists r :: AddsRequest(s, a, r) && r.status == Pending && r.amount == amount
                                     && r.groupId == groupId && r.addressee == Users(fromUserId, toUserId)
                                     && r.respondedAt == None)
  {
    if !writeOk then Attempt(s, Some(WriteFailed))
    else
      var r := PaymentRequest(groupId, Users(fromUserId, toUserId), amount, Pending, now, None);
      var a := Attempt(s.(requests := s.requests + [r]), None);
      assert AddsRequest(s, a, r);
      a
  }

  /** Storing a new pending request disturbs neither bookkeeping invariant. */
  lemma PendingRequestKeepsBooks(s: Store, a: Attempt, r: PaymentRequest)
    requires Consistent(s) && Backed(s)
    requires AddsRequest(s, a, r) && r.status == Pending
    ensures Consistent(a.store) && Backed(a.store)
  {
    assert a.store.requests == s.requests + [r];
    forall gid
      ensures SumAccepted(a.store.requests, gid) == SumKind(a.store.transactions, gid, PoolIn)
    {
      SumAcceptedAppend(s.requests, r, gid);
    }
  }

  /** Status-only update of one request, as `updateDoc` does it: a missing id is `NotFound`. */
  function SetStatus(s: Store, id: int, status: RequestStatus, now: Timestamp, writeOk: bool): (a: Attempt)
    ensures a.store.groups == s.groups && a.store.transactions == s.transactions
    ensures |a.store.requests| == |s.requests|
    ensures a.failure.None? <==> 0 <= id < |s.requests| && writeOk
    ensures !(0 <= id < |s.requests|) ==> a == Attempt(s, Some(NotFound))
    ensures a.failure.Some? ==> a.store == s
    ensures a.failure.None? ==>
      && a.store.requests[id] == s.requests[id].(status := status, respondedAt := Some(now))
      && forall j :: 0 <= j < |s.requests| && j != id ==> a.store.requests[j] == s.requests[j]
  {
    if !(0 <= id < |s.requests|) then Attempt(s, Some(NotFound))
    else if !writeOk then Attempt(s, Some(WriteFailed))
    else Attempt(s.(requests := s.requests[id := s.requests[id].(status := status, respondedAt := Some(now))]), None)
  }

  /** `acceptPaymentRequest`: marks the request accepted whatever its current status; no transaction, no balance change. */
  function AcceptPaymentRequest(s: Store, id: int, now: Timestamp, writeOk: bool): (a: Attempt)
    ensures a.store.groups == s.groups && a.store.transactions == s.transactions
    ensures |a.store.requests| == |s.requests|
    ensures a.failure.None? <==> 0 <= id < |s.requests| && writeOk
    ensures a.failure.None? ==> a.store.requests[id].status == Accepted && a.store.requests[id].respondedAt == Some(now)
    // Only those two fields of that one request change, and a failed call changes nothing.
    ensures a.failure.None? ==>
      a.store.requests == s.requests[id := s.requests[id].(status := Accepted, respondedAt := Some(now))]
    ensures a.failure.Some? ==> a.store == s
  {
    SetStatus(s, id, Accepted, now, writeOk)
  }

  /** `rejectPaymentRequest`: marks the request rejected whatever its current status; no transaction, no balance change. */
  function RejectPaymentRequest(s: Store, id: int, now: Timestamp, writeOk: bool): (a: Attempt)
    ensures a.store.groups == s.groups && a.store.transactions == s.transactions
    ensures |a.store.requests| == |s.requests|
    ensures a.failure.None? <==> 0 <= id < |s.requests| && writeOk
    ensures a.failure.None? ==> a.store.requests[id].status == Rejected && a.store.requests[id].respondedAt == Some(now)
    // Only those two fields of that one request change, and a failed call changes nothing.
    ensures a.failure.None? ==>
      a.store.requests == s.requests[id := s.requests[id].(status := Rejected, respondedAt := Some(now))]
    ensures a.failure.Some? ==> a.store == s
  {
    SetStatus(s, id, Rejected, now, writeOk)
  }

  /** Accepting a pending request through the status-only path leaves an accepted request that no pool_in backs. */
  lemma StatusOnlyAcceptStrandsRequest(s: Store, id: nat, now: Timestamp)
    requires Backed(s)
    requires id < |s.requests| && s.requests[id].status == Pending && s.requests[id].amount != 0.0
    ensures Consistent(s) ==> Consistent(AcceptPaymentRequest(s, id, now, true).store)
    ensures !Backed(AcceptPaymentRequest(s, id, now, true).store)
  {
    var a := AcceptPaymentRequest(s, id, now, true);
    var gid := s.requests[id].groupId;
    assert a.store.requests == s.requests[id := a.store.requests[id]];
    SumAcceptedUpdate(s.requests, id, a.store.requests[id], gid);
    assert SumAccepted(s.requests, gid) == SumKind(s.transactions, gid, PoolIn);
  }

  /** Rejecting a pending request keeps both bookkeeping invariants. */
  lemma RejectPendingKeepsBooks(s: Store, id: nat, now: Timestamp, writeOk: bool)
    requires Consistent(s) && Backed(s)
    requires id < |s.requests| && s.requests[id].status == Pending
    ensures Consistent(RejectPaymentRequest(s, id, now, writeOk).store)
    ensures Backed(RejectPaymentRequest(s, id, now, writeOk).store)
  {
    var a := RejectPaymentRequest(s, id, now, writeOk);
    if a.failure.None? {
      assert a.store.requests == s.requests[id := a.store.requests[id]];
      forall gid
        ensures SumAccepted(a.store.requests, gid) == SumKind(a.store.transactions, gid, PoolIn)
      {
        SumAcceptedUpdate(s.requests, id, a.store.requests[id], gid);
      }
    }
  }

  /** `addTransaction`: appends one ledger entry and nothing else. */
  function AddTransaction(s: Store, t: Transaction, writeOk: bool): (a: Attempt)
    ensures a.store.groups == s.groups && a.store.requests == s.requests
    ensures writeOk ==> a.failure.None? && a.store.transactions == s.transactions + [t]
    ensures !writeOk ==> a == Attempt(s, Some(WriteFailed))
  {
    if writeOk then Attempt(s.(transactions := s.transactions + [t]), None) else Attempt(s, Some(WriteFailed))
  }

  /**
   `addTransaction` books an entry without moving `totalPooled`, so the books stay consistent
   exactly when the entry changes no stored balance: its group does not exist or its amount is 0.
   */
  lemma AddTransactionKeepsConsistentIff(s: Store, t: Transaction)
    requires Consistent(s)
    ensures Consistent(AddTransaction(s, t, true).store) <==> t.groupId !in s.groups || t.amount == 0.0
  {
    var s' := AddTransaction(s, t, true).store;
    if t.groupId in s.groups && t.amount != 0.0 {
      UnbalancedAppendBreaksConsistency(s, t);
    } else {
      forall gid | gid in s'.groups
        ensures s'.groups[gid].totalPooled == DerivedBalance(s'.transactions, gid)
      {
        DerivedBalanceAppend(s.transactions, t, gid);
      }
    }
  }

  /** The ledger entry `payMerchant` books. */
  function MerchantTransaction(groupId: GroupId, amount: real, merchantName: string, clock: string): Transaction {
    Transaction(groupId, "system", PaymentOut, amount, "Payment to " + merchantName, Some(merchantName), Some("UPI_" + clock))
  }

  /**
   `payMerchant`: books a payment_out, then decrements the group's `totalPooled` by the amount.
   There is no balance check, the merchant's UPI id is not recorded, and the decrement is
   issued only once the transaction has been stored.
   */
  function PayMerchant(s: Store, groupId: GroupId, merchantUpiId: string, amount: real,
                       merchantName: string, clock: string, faults: set<Step>): (a: Attempt)
    ensures a.store.requests == s.requests
    ensures TxInsert in faults ==> a == Attempt(s, Some(WriteFailed))
    ensures TxInsert !in faults ==>
      && |a.store.transactions| == |s.transactions| + 1
      && a.store.transactions[..|s.transactions|] == s.transactions
      && var t := a.store.transactions[|s.transactions|];
         t.groupId == groupId && t.actor == "system" && t.kind == PaymentOut && t.amount == amount
         && t.description == "Payment to " + merchantName
    ensures a.failure.None? <==> TxInsert !in faults && GroupWrite !in faults && groupId in s.groups
    ensures a.failure.None? ==>
              a.store.groups == s.groups[groupId := s.groups[groupId].(totalPooled := s.groups[groupId].totalPooled - amount)]
    ensures a.failure.Some? ==> a.store.groups == s.groups
  {
    var t := MerchantTransaction(groupId, amount, merchantName, clock);
    if TxInsert in faults then Attempt(s, Some(WriteFailed))
    else
      var s1 := s.(transactions := s.transactions + [t]);
      if groupId !in s.groups then Attempt(s1, Some(NotFound))
      else if GroupWrite in faults then Attempt(s1, Some(WriteFailed))
      else Attempt(Post(s, t), None)
  }

  /** When both writes succeed, a merchant payment keeps the store consistent and backed. */
  lemma PayMerchantKeepsBooks(s: Store, groupId: GroupId, merchantUpiId: string, amount: real,
                              merchantName: string, clock: string)
    requires Consistent(s) && Backed(s)
    ensures Consistent(PayMerchant(s, groupId, merchantUpiId, amount, merchantName, clock, {}).store)
    ensures Backed(PayMerchant(s, groupId, merchantUpiId, amount, merchantName, clock, {}).store)
  {
    var t := MerchantTransaction(groupId, amount, merchantName, clock);
    var a := PayMerchant(s, groupId, merchantUpiId, amount, merchantName, clock, {});
    assert a.store.transactions == s.transactions + [t];
    if groupId in s.groups {
      assert a.store == Post(s, t);
      PostKeepsConsistent(s, t);
    } else {
      forall gid | gid in a.store.groups
        ensures a.store.groups[gid].totalPooled == DerivedBalance(a.store.transactions, gid)
      {
        DerivedBalanceAppend(s.transactions, t, gid);
      }
    }
    forall gid
      ensures SumAccepted(a.store.requests, gid) == SumKind(a.store.transactions, gid, PoolIn)
    {
      SumKindAppend(s.transactions, t, gid, PoolIn);
    }
  }

  /** A lost balance write after the transaction was stored leaves the group inconsistent. */
  lemma PayMerchantLostDecrementBreaksConsistency(s: Store, groupId: GroupId, merchantUpiId: string,
                                                  amount: real, merchantName: string, clock: string)
    requires Consistent(s)
    requires groupId in s.groups && amount != 0.0
    ensures !Consistent(PayMerchant(s, groupId, merchantUpiId, amount, merchantName, clock, {GroupWrite}).store)
  {
    var t := MerchantTransaction(groupId, amount, merchantName, clock);
    UnbalancedAppendBreaksConsistency(s, t);
  }

  /** `sendUPIRequest`'s result: the stored request and, when the write succeeded, the collect link. */
  datatype Sent = Sent(attempt: Attempt, url: Option<string>)

  /** `sendUPIRequest`: builds the collect link, stores one pending request, then returns the link. */
  function SendUpiRequest(s: Store, groupId: GroupId, memberUpiId: string, amount: real, description: string,
                          now: Timestamp, render: real -> string, writeOk: bool): (r: Sent)
    ensures r.url.Some? <==> writeOk
    ensures !writeOk ==> r.attempt == Attempt(s, Some(WriteFailed))
    ensures writeOk ==> r.url.value == Upi.CollectUrl(memberUpiId, render(amount), description)
    ensures writeOk ==> (exists q :: AddsRequest(s, r.attempt, q) && q.status == Pending && q.amount == amount
                                     && q.groupId == groupId && q.addressee == Payer(None, memberUpiId, description))
  {
    var url := Upi.CollectUrl(memberUpiId, render(amount), description);
    if !writeOk then Sent(Attempt(s, Some(WriteFailed)), None)
    else
      var q := PaymentRequest(groupId, Payer(None, memberUpiId, description), amount, Pending, now, None);
      var a := Attempt(s.(requests := s.requests + [q]), None);
      assert AddsRequest(s, a, q);
      Sent(a, Some(url))
  }
}
