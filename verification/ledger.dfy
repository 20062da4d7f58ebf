/**
 The group pool ledger: groups with a stored `totalPooled`, payment requests and the
 append-only transaction log, held in one abstract store shared by both backends.

 Two bookkeeping invariants are stated here:
 - `Consistent`: every group's stored `totalPooled` equals the pool_in amounts of its
   transactions minus the payment_out amounts;
 - `Backed`: for every group, the amounts of its accepted requests equal its pool_in amounts,
   so that no request is accepted without a transaction and no transaction is booked twice.
 */
module Ledger {
  import opened Common

  type GroupId = string
  type MemberId = string

  /** A member's role inside a group: 'admin' or 'member'. */
  datatype Role = Admin | Participant

  datatype GroupStatus = Active | Closed

  datatype Group = Group(
    id: GroupId,
    name: string,
    description: string,
    totalPooled: real,
    status: GroupStatus,
    createdBy: string)

  datatype TxKind = PoolIn | PaymentOut

  /** A ledger entry. `actor` is the member id (pool_in) or the user id ('system' for payment_out). */
  datatype Transaction = Transaction(
    groupId: GroupId,
    actor: string,
    kind: TxKind,
    amount: real,
    description: string,
    merchantName: Option<string>,
    reference: Option<string>)

  datatype RequestStatus = Pending | Accepted | Rejected | Expired

  /** Whom a request is addressed to; the three writers of requests store different fields. */
  datatype Addressee =
    | Member(memberId: MemberId)                                    // payment_requests.member_id
    | Users(fromUserId: string, toUserId: string)                   // sendPaymentRequest
    | Payer(memberName: Option<string>, memberUpiId: string, note: string)  // UPI collect requests

  datatype PaymentRequest = PaymentRequest(
    groupId: GroupId,
    addressee: Addressee,
    amount: real,
    status: RequestStatus,
    requestedAt: Timestamp,
    respondedAt: Option<Timestamp>)

  /** The abstract backend. A request's id is its index in `requests`. */
  datatype Store = Store(
    groups: map<GroupId, Group>,
    requests: seq<PaymentRequest>,
    transactions: seq<Transaction>)

  /** The backend calls a handler issues, each of which may fail independently. */
  datatype Step = StatusWrite | TxInsert | GroupRead | GroupWrite

  /** No backend call fails. */
  predicate AllSucceed(faults: set<Step>) {
    StatusWrite !in faults && TxInsert !in faults && GroupRead !in faults && GroupWrite !in faults
  }

  /** The store after a handler ran, and the failure that stopped it, if one did. */
  datatype Attempt = Attempt(store: Store, failure: Option<Error>)

  /** What transaction `t` adds to the `kind` total of group `gid`. */
  function Contribution(t: Transaction, gid: GroupId, kind: TxKind): real {
    if t.groupId == gid && t.kind == kind then t.amount else 0.0
  }

  /** Sum of the amounts of the `kind` transactions of group `gid`. */
  function SumKind(txs: seq<Transaction>, gid: GroupId, kind: TxKind): real {
    if |txs| == 0 then 0.0 else Contribution(txs[0], gid, kind) + SumKind(txs[1..], gid, kind)
  }

  /** The balance a group's log implies: pool_in amounts minus payment_out amounts. */
  function DerivedBalance(txs: seq<Transaction>, gid: GroupId): real {
    SumKind(txs, gid, PoolIn) - SumKind(txs, gid, PaymentOut)
  }

  /** Signed effect of one transaction on group `gid`'s balance. */
  function Delta(t: Transaction, gid: GroupId): real {
    if t.groupId != gid then 0.0 else if t.kind == PoolIn then t.amount else -t.amount
  }

  predicate Consistent(s: Store) {
    forall gid :: gid in s.groups ==> s.groups[gid].totalPooled == DerivedBalance(s.transactions, gid)
  }

  /** What request `r` adds to the accepted total of group `gid`. */
  function AcceptedAmount(r: PaymentRequest, gid: GroupId): real {
    if r.groupId == gid && r.status == Accepted then r.amount else 0.0
  }

  function SumAccepted(reqs: seq<PaymentRequest>, gid: GroupId): real {
    if |reqs| == 0 then 0.0 else AcceptedAmount(reqs[0], gid) + SumAccepted(reqs[1..], gid)
  }

  ghost predicate Backed(s: Store) {
    forall gid :: SumAccepted(s.requests, gid) == SumKind(s.transactions, gid, PoolIn)
  }

  /** Appending a transaction adds its contribution to exactly its own kind and group. */
  lemma {:induction false} SumKindAppend(txs: seq<Transaction>, t: Transaction, gid: GroupId, kind: TxKind)
    ensures SumKind(txs + [t], gid, kind) == SumKind(txs, gid, kind) + Contribution(t, gid, kind)
  {
    if |txs| == 0 {
      assert txs + [t] == [t];
    } else {
      assert (txs + [t])[1..] == txs[1..] + [t];
      SumKindAppend(txs[1..], t, gid, kind);
    }
  }

  /** Appending a transaction moves the derived balance of its group by its signed amount, and no other group's. */
  lemma DerivedBalanceAppend(txs: seq<Transaction>, t: Transaction, gid: GroupId)
    ensures DerivedBalance(txs + [t], gid) == DerivedBalance(txs, gid) + Delta(t, gid)
  {
    SumKindAppend(txs, t, gid, PoolIn);
    SumKindAppend(txs, t, gid, PaymentOut);
  }

  /** A log holding no transaction of `gid` implies a zero balance for it. */
  lemma {:induction false} NoTransactionsZeroBalance(txs: seq<Transaction>, gid: GroupId)
    requires forall i :: 0 <= i < |txs| ==> txs[i].groupId != gid
    ensures SumKind(txs, gid, PoolIn) == 0.0 && SumKind(txs, gid, PaymentOut) == 0.0
  {
    if |txs| > 0 {
      NoTransactionsZeroBalance(txs[1..], gid);
    }
  }

  /** Changing one request moves the accepted total by the difference of the two versions' contributions. */
  lemma {:induction false} SumAcceptedUpdate(reqs: seq<PaymentRequest>, i: nat, r: PaymentRequest, gid: GroupId)
    requires i < |reqs|
    ensures SumAccepted(reqs[i := r], gid) == SumAccepted(reqs, gid) - AcceptedAmount(reqs[i], gid) + AcceptedAmount(r, gid)
  {
    if i > 0 {
      assert reqs[i := r][1..] == reqs[1..][i - 1 := r];
      SumAcceptedUpdate(reqs[1..], i - 1, r, gid);
    }
  }

  /** Appending a request adds its contribution to the accepted total. */
  lemma {:induction false} SumAcceptedAppend(reqs: seq<PaymentRequest>, r: PaymentRequest, gid: GroupId)
    ensures SumAccepted(reqs + [r], gid) == SumAccepted(reqs, gid) + AcceptedAmount(r, gid)
  {
    if |reqs| == 0 {
      assert reqs + [r] == [r];
    } else {
      assert (reqs + [r])[1..] == reqs[1..] + [r];
      SumAcceptedAppend(reqs[1..], r, gid);
    }
  }

  /** Appends `t` to the log and moves the stored balance of its group (when that group exists) by `t`'s signed amount. */
  function Post(s: Store, t: Transaction): Store {
    var s1 := s.(transactions := s.transactions + [t]);
    if t.groupId in s.groups then
      var g := s.groups[t.groupId];
      s1.(groups := s.groups[t.groupId := g.(totalPooled := g.totalPooled + Delta(t, t.groupId))])
    else s1
  }

  /** Booking a transaction together with its balance change keeps every group consistent. */
  lemma PostKeepsConsistent(s: Store, t: Transaction)
    requires Consistent(s)
    ensures Consistent(Post(s, t))
  {
    forall gid | gid in Post(s, t).groups
      ensures Post(s, t).groups[gid].totalPooled == DerivedBalance(Post(s, t).transactions, gid)
    {
      DerivedBalanceAppend(s.transactions, t, gid);
    }
  }

  /** Appending `t` to the log without the matching balance change leaves its group inconsistent. */
  lemma UnbalancedAppendBreaksConsistency(s: Store, t: Transaction)
    requires Consistent(s)
    requires t.groupId in s.groups && t.amount != 0.0
    ensures !Consistent(s.(transactions := s.transactions + [t]))
  {
    DerivedBalanceAppend(s.transactions, t, t.groupId);
  }

  /**
   A freshly created group. The insert sets only the name, description and creator; the
   balance 0 and the active status are the groups table's column defaults, assumed here.
   */
  function NewGroup(id: GroupId, name: string, description: string, createdBy: string): Group {
    Group(id, name, description, 0.0, Active, createdBy)
  }

  /** Registering a new group whose id no transaction mentions keeps the store consistent. */
  lemma NewGroupKeepsConsistent(s: Store, id: GroupId, name: string, description: string, createdBy: string)
    requires Consistent(s)
    requires forall i :: 0 <= i < |s.transactions| ==> s.transactions[i].groupId != id
    ensures Consistent(s.(groups := s.groups[id := NewGroup(id, name, description, createdBy)]))
  {
    NoTransactionsZeroBalance(s.transactions, id);
  }
}
