/**
 The personal P2P ledger: money a user received from members or used for expenses, recorded
 by hand. The dashboard shows the totals of the two kinds and their difference, and its form
 adds one record at a time.
 */
module P2PDashboard {
  import opened Common

  datatype P2PKind = Received | Used

  /** A stored record. `None` stands for JavaScript's `null` (and for an absent signed-in user). */
  datatype P2PRecord = P2PRecord(userId: Option<string>, groupId: Option<string>, kind: P2PKind, amount: real,
                                 description: string, fromMember: Option<string>, forExpense: Option<string>,
                                 createdAt: Timestamp)

  function Sum(txs: seq<P2PRecord>): (total: real)
    ensures (forall i :: 0 <= i < |txs| ==> txs[i].amount >= 0.0) ==> total >= 0.0
  {
    if |txs| == 0 then 0.0 else txs[0].amount + Sum(txs[1..])
  }

  /** The records of one kind, in their order. */
  function OfKind(txs: seq<P2PRecord>, kind: P2PKind): (r: seq<P2PRecord>)
    ensures |r| <= |txs|
    ensures forall i :: 0 <= i < |r| ==> r[i].kind == kind && r[i] in txs
    ensures forall t :: t in txs && t.kind == kind ==> t in r
  {
    if |txs| == 0 then []
    else if txs[0].kind == kind then [txs[0]] + OfKind(txs[1..], kind)
    else OfKind(txs[1..], kind)
  }

  /** `totalReceived`: filter to `received`, then add up the amounts. */
  function TotalReceived(txs: seq<P2PRecord>): (total: real)
    // Only `received` records count: with none there is nothing received.
    ensures (forall i :: 0 <= i < |txs| ==> txs[i].kind != Received) ==> total == 0.0
    ensures (forall i :: 0 <= i < |txs| ==> txs[i].amount >= 0.0) ==> total >= 0.0
  {
    Sum(OfKind(txs, Received))
  }

  /** `totalUsed`: filter to `used`, then add up the amounts. */
  function TotalUsed(txs: seq<P2PRecord>): (total: real)
    // Only `used` records count: with none nothing was used.
    ensures (forall i :: 0 <= i < |txs| ==> txs[i].kind != Used) ==> total == 0.0
    ensures (forall i :: 0 <= i < |txs| ==> txs[i].amount >= 0.0) ==> total >= 0.0
  {
    Sum(OfKind(txs, Used))
  }

  /** `balance`: with non-negative amounts it lies between minus the amount used and the amount received. */
  function Balance(txs: seq<P2PRecord>): (b: real)
    ensures (forall i :: 0 <= i < |txs| ==> txs[i].kind == Received) ==> b == TotalReceived(txs) && TotalUsed(txs) == 0.0
    ensures (forall i :: 0 <= i < |txs| ==> txs[i].kind == Used) ==> b == -TotalUsed(txs) && TotalReceived(txs) == 0.0
    ensures (forall i :: 0 <= i < |txs| ==> txs[i].amount >= 0.0) ==> -TotalUsed(txs) <= b <= TotalReceived(txs)
  {
    TotalReceived(txs) - TotalUsed(txs)
  }

  /** What one record does to the balance. */
  function Signed(t: P2PRecord): real {
    match t.kind
    case Received => t.amount
    case Used => -t.amount
  }

  /** Reference definition of the balance: one pass over the records, adding each signed amount. */
  function SignedSum(txs: seq<P2PRecord>): real {
    if |txs| == 0 then 0.0 else SignedSum(txs[..|txs| - 1]) + Signed(txs[|txs| - 1])
  }

  lemma {:induction false} SignedSumAppend(a: seq<P2PRecord>, b: seq<P2PRecord>)
    ensures SignedSum(a + b) == SignedSum(a) + SignedSum(b)
  {
    if |b| == 0 {
      assert a + b == a;
    } else {
      var init := b[..|b| - 1];
      assert (a + b)[..|a + b| - 1] == a + init;
      SignedSumAppend(a, init);
    }
  }

  lemma SignedSumCons(txs: seq<P2PRecord>)
    requires |txs| > 0
    ensures SignedSum(txs) == Signed(txs[0]) + SignedSum(txs[1..])
  {
    assert txs == [txs[0]] + txs[1..];
    SignedSumAppend([txs[0]], txs[1..]);
    assert SignedSum([txs[0]]) == Signed(txs[0]) by {
      assert [txs[0]][..0] == [];
    }
  }

  lemma BalanceCons(txs: seq<P2PRecord>)
    requires |txs| > 0
    ensures Balance(txs) == Signed(txs[0]) + Balance(txs[1..])
  {
    if txs[0].kind == Received {
      assert OfKind(txs, Received) == [txs[0]] + OfKind(txs[1..], Received);
      assert OfKind(txs, Used) == OfKind(txs[1..], Used);
    } else {
      assert OfKind(txs, Used) == [txs[0]] + OfKind(txs[1..], Used);
      assert OfKind(txs, Received) == OfKind(txs[1..], Received);
    }
  }

  /** The two filtered folds subtract to the one-pass signed sum. */
  lemma {:induction false} BalanceIsSignedSum(txs: seq<P2PRecord>)
    ensures Balance(txs) == SignedSum(txs)
  {
    if |txs| > 0 {
      BalanceIsSignedSum(txs[1..]);
      BalanceCons(txs);
      SignedSumCons(txs);
    }
  }

  /** Each record is counted in exactly one of the totals: together they are the sum of all amounts, and the filtered lists partition the records. */
  lemma {:induction false} TotalsPartition(txs: seq<P2PRecord>)
    ensures TotalReceived(txs) + TotalUsed(txs) == Sum(txs)
    ensures |OfKind(txs, Received)| + |OfKind(txs, Used)| == |txs|
  {
    if |txs| > 0 {
      TotalsPartition(txs[1..]);
    }
  }

  /** A new record, wherever the newest-first ordering places it, moves the balance by its signed amount. */
  lemma InsertMovesBalance(before: seq<P2PRecord>, after: seq<P2PRecord>, t: P2PRecord)
    ensures Balance(before + [t] + after) == Balance(before + after) + Signed(t)
    ensures t.kind == Received ==> TotalReceived(before + [t] + after) == TotalReceived(before + after) + t.amount
    ensures t.kind == Received ==> TotalUsed(before + [t] + after) == TotalUsed(before + after)
    ensures t.kind == Used ==> TotalUsed(before + [t] + after) == TotalUsed(before + after) + t.amount
    ensures t.kind == Used ==> TotalReceived(before + [t] + after) == TotalReceived(before + after)
  {
    BalanceIsSignedSum(before + [t] + after);
    BalanceIsSignedSum(before + after);
    SignedSumAppend(before + [t], after);
    SignedSumAppend(before, [t]);
    SignedSumAppend(before, after);
    assert SignedSum([t]) == Signed(t) by {
      assert [t][..0] == [];
    }
    OfKindSplice(before, t, after, Received);
    OfKindSplice(before, t, after, Used);
  }

  lemma {:induction false} OfKindAppend(a: seq<P2PRecord>, b: seq<P2PRecord>, kind: P2PKind)
    ensures OfKind(a + b, kind) == OfKind(a, kind) + OfKind(b, kind)
  {
    if |a| > 0 {
      assert (a + b)[1..] == a[1..] + b;
      OfKindAppend(a[1..], b, kind);
    } else {
      assert a + b == b;
    }
  }

  lemma {:induction false} SumAppend(a: seq<P2PRecord>, b: seq<P2PRecord>)
    ensures Sum(a + b) == Sum(a) + Sum(b)
  {
    if |a| > 0 {
      assert (a + b)[1..] == a[1..] + b;
      SumAppend(a[1..], b);
    } else {
      assert a + b == b;
    }
  }

  lemma OfKindSplice(before: seq<P2PRecord>, t: P2PRecord, after: seq<P2PRecord>, kind: P2PKind)
    ensures Sum(OfKind(before + [t] + after, kind)) ==
      Sum(OfKind(before + after, kind)) + (if t.kind == kind then t.amount else 0.0)
  {
    OfKindAppend(before + [t], after, kind);
    OfKindAppend(before, [t], kind);
    OfKindAppend(before, after, kind);
    var fb, ft, fa := OfKind(before, kind), OfKind([t], kind), OfKind(after, kind);
    SumAppend(fb + ft, fa);
    SumAppend(fb, ft);
    SumAppend(fb, fa);
  }

  /** The add form's fields, as typed. */
  datatype Form = Form(amount: string, description: string, fromMember: string, forExpense: string)

  const BlankForm := Form("", "", "", "")

  /** `groupId || null`: an absent or empty group id is stored as null. */
  function StoredGroupId(groupId: Option<string>): (g: Option<string>)
    ensures g.None? <==> groupId.None? || groupId.value == ""
    ensures g.Some? ==> g == groupId
  {
    if groupId.Some? && Filled(groupId.value) then groupId else None
  }

  /** The record `handleAddTransaction` stores; `amount` is what `parseFloat` made of the amount field. */
  function ShapeRecord(user: Option<string>, groupId: Option<string>, kind: P2PKind, form: Form,
                       amount: real, now: Timestamp): (r: P2PRecord)
    ensures r.userId == user && r.kind == kind && r.amount == amount && r.description == form.description
    ensures r.groupId == StoredGroupId(groupId)
    ensures r.fromMember.Some? <==> kind == Received
    ensures r.forExpense.Some? <==> kind == Used
    ensures r.fromMember.Some? ==> r.fromMember.value == form.fromMember
    ensures r.forExpense.Some? ==> r.forExpense.value == form.forExpense
  {
    P2PRecord(user, StoredGroupId(groupId), kind, amount, form.description,
              if kind == Received then Some(form.fromMember) else None,
              if kind == Used then Some(form.forExpense) else None,
              now)
  }

  const FillRequired: string := "Please fill required fields"
  const Added: string := "Transaction added successfully!"
  const AddFailed: string := "Failed to add transaction"

  /** The stored records, the form afterwards, whether the form is still open, and the alert shown. */
  datatype AddRun = AddRun(records: seq<P2PRecord>, form: Form, formOpen: bool, alert: string)

  /**
   `handleAddTransaction`, on an open form; `writeOk` is whether `addDoc` succeeded. Without a
   signed-in user the record's `userId` is `undefined`, which the document store refuses, so
   that write fails whatever `writeOk` says.
   */
  function HandleAddTransaction(records: seq<P2PRecord>, user: Option<string>, groupId: Option<string>, kind: P2PKind,
                                form: Form, amount: real, now: Timestamp, writeOk: bool): (r: AddRun)
    // A missing amount or description: nothing stored, the form stays as typed.
    ensures !Filled(form.amount) || !Filled(form.description) ==> r == AddRun(records, form, true, FillRequired)
    // A failed or refused write: nothing stored, the form stays as typed.
    ensures Filled(form.amount) && Filled(form.description) && (!writeOk || user.None?) ==>
      r == AddRun(records, form, true, AddFailed)
    // Success: exactly the shaped record is appended, and the form is cleared and closed.
    ensures r.records != records <==> Filled(form.amount) && Filled(form.description) && writeOk && user.Some?
    ensures r.records != records ==>
      r == AddRun(records + [ShapeRecord(user, groupId, kind, form, amount, now)], BlankForm, false, Added)
    // Every stored record belongs to a signed-in user.
    ensures r.records != records ==> r.records[|records|].userId.Some?
  {
    if !Filled(form.amount) || !Filled(form.description) then AddRun(records, form, true, FillRequired)
    else if !writeOk || user.None? then AddRun(records, form, true, AddFailed)
    else
      var rec := ShapeRecord(user, groupId, kind, form, amount, now);
      assert |records + [rec]| != |records|;
      AddRun(records + [rec], BlankForm, false, Added)
  }

  /** `loadTransactions`' query: the signed-in user's records, restricted to the group when one is given. */
  predicate Listed(t: P2PRecord, user: string, groupId: Option<string>) {
    t.userId == Some(user) && (StoredGroupId(groupId).Some? ==> t.groupId == StoredGroupId(groupId))
  }

  function Visible(records: seq<P2PRecord>, user: string, groupId: Option<string>): (v: seq<P2PRecord>)
    ensures forall i :: 0 <= i < |v| ==> Listed(v[i], user, groupId) && v[i] in records
    ensures forall t :: t in records && Listed(t, user, groupId) ==> t in v
  {
    if |records| == 0 then []
    else if Listed(records[0], user, groupId) then [records[0]] + Visible(records[1..], user, groupId)
    else Visible(records[1..], user, groupId)
  }

  lemma {:induction false} VisibleAppend(records: seq<P2PRecord>, t: P2PRecord, user: string, groupId: Option<string>)
    ensures Visible(records + [t], user, groupId) ==
      Visible(records, user, groupId) + (if Listed(t, user, groupId) then [t] else [])
  {
    if |records| == 0 {
      assert records + [t] == [t];
    } else {
      assert (records + [t])[1..] == records[1..] + [t];
      VisibleAppend(records[1..], t, user, groupId);
    }
  }

  /**
   A successful add by a signed-in user shows up on the same dashboard: the record is listed,
   and the displayed balance moves by its signed amount.
   */
  lemma AddedRecordMovesBalance(records: seq<P2PRecord>, user: string, groupId: Option<string>, kind: P2PKind,
                                form: Form, amount: real, now: Timestamp)
    requires Filled(form.amount) && Filled(form.description)
    ensures var r := HandleAddTransaction(records, Some(user), groupId, kind, form, amount, now, true);
      && Visible(r.records, user, groupId) ==
           Visible(records, user, groupId) + [ShapeRecord(Some(user), groupId, kind, form, amount, now)]
      && Balance(Visible(r.records, user, groupId)) ==
           Balance(Visible(records, user, groupId)) + (if kind == Received then amount else -amount)
  {
    var t := ShapeRecord(Some(user), groupId, kind, form, amount, now);
    VisibleAppend(records, t, user, groupId);
    var v := Visible(records, user, groupId);
    InsertMovesBalance(v, [], t);
    assert v + [t] + [] == v + [t];
    assert v + [] == v;
  }
}
