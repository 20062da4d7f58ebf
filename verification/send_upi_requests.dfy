/**
 The equal-split fan-out: a total is divided evenly among the listed members, one pending
 request per member is stored, and a collect link per member is opened on Android. The
 writes are issued one after the other; the first one that fails ends the loop with the
 requests before it already stored, an alert, and no completion callback.
 */
module SendUpiRequests {
  import opened Common
  import opened Ledger
  import Upi
  import Percent

  datatype PaymentMode = P2P | Escrow

  /** A member as the fan-out sees it: a display name and a UPI address. */
  datatype UpiMember = UpiMember(name: string, upiId: string)

  /**
   `amountPerPerson`, from the total's text and what `parseFloat` made of it: zero while no
   total is typed; `None` for the non-finite quotient of a division by zero members.
   */
  function AmountPerPerson(totalText: string, total: real, n: nat): (per: Option<real>)
    ensures per.None? <==> Filled(totalText) && n == 0
    ensures !Filled(totalText) ==> per == Some(0.0)
    ensures Filled(totalText) && n > 0 ==> per.Some? && per.value * (n as real) == total
  {
    if !Filled(totalText) then Some(0.0)
    else if n == 0 then None
    else Some(total / (n as real))
  }

  /** The handler's own guard; it does not look at `validateAmount`. */
  predicate Proceeds(totalText: string, description: string, n: nat) {
    Filled(totalText) && Filled(description) && n > 0
  }

  /** The send button is enabled only when the handler would proceed and the amount is valid. */
  predicate SendEnabled(loading: bool, totalText: string, description: string, n: nat, valid: bool)
    ensures SendEnabled(loading, totalText, description, n, valid) ==> Proceeds(totalText, description, n) && valid && !loading
  {
    !loading && Filled(totalText) && Filled(description) && n > 0 && valid
  }

  /** The escrow link pays the group's virtual account; the P2P link pays the member. */
  function PayeeFor(mode: PaymentMode, groupId: GroupId, m: UpiMember): (payee: string)
    // In escrow mode every member's link pays the group's account, whoever the member is;
    // in P2P mode it pays the member.
    ensures mode == Escrow ==> payee == Upi.EscrowPayee(groupId) && payee[8..|payee| - 9] == groupId
    ensures mode == P2P ==> payee == m.upiId
  {
    match mode
    case Escrow => Upi.EscrowPayee(groupId)
    case P2P => m.upiId
  }

  /** The request stored for one member. */
  function RequestFor(groupId: GroupId, m: UpiMember, per: real, description: string, now: Timestamp): PaymentRequest {
    PaymentRequest(groupId, Payer(Some(m.name), m.upiId, description), per, Pending, now, None)
  }

  /** The collect link opened for one member. */
  function LinkFor(mode: PaymentMode, groupId: GroupId, m: UpiMember, per: real, description: string,
                   render: real -> string): string {
    Upi.CollectUrl(PayeeFor(mode, groupId, m), render(per), description)
  }

  function RequestsFor(groupId: GroupId, ms: seq<UpiMember>, per: real, description: string, now: Timestamp): (reqs: seq<PaymentRequest>)
    ensures |reqs| == |ms|
    ensures forall i :: 0 <= i < |ms| ==> reqs[i] == RequestFor(groupId, ms[i], per, description, now)
  {
    if |ms| == 0 then []
    else RequestsFor(groupId, ms[..|ms| - 1], per, description, now) + [RequestFor(groupId, ms[|ms| - 1], per, description, now)]
  }

  function LinksFor(mode: PaymentMode, groupId: GroupId, ms: seq<UpiMember>, per: real, description: string,
                    render: real -> string): (links: seq<string>)
    ensures |links| == |ms|
    ensures forall i :: 0 <= i < |ms| ==> links[i] == LinkFor(mode, groupId, ms[i], per, description, render)
  {
    if |ms| == 0 then []
    else LinksFor(mode, groupId, ms[..|ms| - 1], per, description, render) + [LinkFor(mode, groupId, ms[|ms| - 1], per, description, render)]
  }

  /** How many requests get stored when the write for member `failAt` (if any) fails. */
  function StoredCount(failAt: Option<nat>, n: nat): (k: nat)
    ensures k <= n
    ensures k == n <==> failAt.None? || failAt.value >= n
  {
    if failAt.Some? && failAt.value < n then failAt.value else n
  }

  /** The outcome of one press of the send button. */
  datatype FanOut = FanOut(store: Store, launched: seq<string>, completed: bool, alerted: bool)

  /** Total amount requested by a list of requests. */
  function Requested(reqs: seq<PaymentRequest>): real {
    if |reqs| == 0 then 0.0 else reqs[0].amount + Requested(reqs[1..])
  }

  lemma {:induction false} RequestedAppend(reqs: seq<PaymentRequest>, r: PaymentRequest)
    ensures Requested(reqs + [r]) == Requested(reqs) + r.amount
  {
    if |reqs| == 0 {
      assert reqs + [r] == [r];
    } else {
      assert (reqs + [r])[1..] == reqs[1..] + [r];
      RequestedAppend(reqs[1..], r);
    }
  }

  /** Equal shares add up to the number of shares times the share. */
  lemma {:induction false} RequestsForTotal(groupId: GroupId, ms: seq<UpiMember>, per: real, description: string, now: Timestamp)
    ensures Requested(RequestsFor(groupId, ms, per, description, now)) == (|ms| as real) * per
  {
    if |ms| > 0 {
      var init := ms[..|ms| - 1];
      var last := RequestFor(groupId, ms[|ms| - 1], per, description, now);
      assert RequestsFor(groupId, ms, per, description, now) == RequestsFor(groupId, init, per, description, now) + [last];
      RequestsForTotal(groupId, init, per, description, now);
      RequestedAppend(RequestsFor(groupId, init, per, description, now), last);
      OneMoreShare(|init|, per);
    }
  }

  lemma OneMoreShare(n: nat, per: real)
    ensures (n as real) * per + per == ((n + 1) as real) * per
  {
  }

  /** A completed fan-out requests exactly the typed total, spread over every member. */
  lemma SharesAddUpToTotal(groupId: GroupId, members: seq<UpiMember>, total: real, description: string, now: Timestamp)
    requires |members| > 0
    ensures Requested(RequestsFor(groupId, members, total / (|members| as real), description, now)) == total
  {
    RequestsForTotal(groupId, members, total / (|members| as real), description, now);
  }

  /** Appending pending requests changes no group's accepted total. */
  lemma {:induction false} PendingRequestsKeepAccepted(reqs: seq<PaymentRequest>, groupId: GroupId, ms: seq<UpiMember>,
                                                       per: real, description: string, now: Timestamp, gid: GroupId)
    ensures SumAccepted(reqs + RequestsFor(groupId, ms, per, description, now), gid) == SumAccepted(reqs, gid)
  {
    if |ms| > 0 {
      var init := ms[..|ms| - 1];
      var prefix := reqs + RequestsFor(groupId, init, per, description, now);
      var last := RequestFor(groupId, ms[|ms| - 1], per, description, now);
      assert RequestsFor(groupId, ms, per, description, now) == RequestsFor(groupId, init, per, description, now) + [last];
      assert reqs + RequestsFor(groupId, ms, per, description, now) == prefix + [last];
      SumAcceptedAppend(prefix, last, gid);
      PendingRequestsKeepAccepted(reqs, groupId, init, per, description, now, gid);
      assert AcceptedAmount(last, gid) == 0.0;
    } else {
      assert reqs + RequestsFor(groupId, ms, per, description, now) == reqs;
    }
  }

  /**
   The loop of `sendUPIRequests`: one request write per member, in order, each followed on
   Android by its link, until the write for member `failAt` fails.
   */
  method IssueWrites(requests: seq<PaymentRequest>, groupId: GroupId, members: seq<UpiMember>, mode: PaymentMode,
                     per: real, description: string, now: Timestamp, render: real -> string, android: bool,
                     failAt: Option<nat>) returns (reqs: seq<PaymentRequest>, launched: seq<string>, i: nat)
    ensures i == StoredCount(failAt, |members|)
    ensures reqs == requests + RequestsFor(groupId, members[..i], per, description, now)
    ensures launched == (if android then LinksFor(mode, groupId, members[..i], per, description, render) else [])
  {
    var added: seq<PaymentRequest> := [];
    launched := [];
    i := 0;
    while i < |members| && failAt != Some(i)
      invariant 0 <= i <= |members|
      invariant failAt.Some? ==> i <= failAt.value
      invariant added == RequestsFor(groupId, members[..i], per, description, now)
      invariant android ==> launched == LinksFor(mode, groupId, members[..i], per, description, render)
      invariant !android ==> launched == []
    {
      StepRequests(groupId, members, i, per, description, now);
      added := added + [RequestFor(groupId, members[i], per, description, now)];
      if android {
        StepLinks(mode, groupId, members, i, per, description, render);
        launched := launched + [LinkFor(mode, groupId, members[i], per, description, render)];
      }
      i := i + 1;
    }
    reqs := requests + added;
  }

  /**
   `sendUPIRequests`. `failAt` names the member whose request write fails, if any; `android`
   is the user-agent test that decides whether links are opened.
   */
  method SendRequests(s: Store, groupId: GroupId, members: seq<UpiMember>, mode: PaymentMode,
                      totalText: string, total: real, description: string, now: Timestamp,
                      render: real -> string, android: bool, failAt: Option<nat>) returns (r: FanOut)
    // A missing total, description or member list: nothing happens.
    ensures !Proceeds(totalText, description, |members|) ==> r == FanOut(s, [], false, false)
    // Otherwise the members before the failing write get their request and, on Android, their link, in order.
    ensures Proceeds(totalText, description, |members|) ==>
      var per := total / (|members| as real);
      var stored := members[..StoredCount(failAt, |members|)];
      && r.store == s.(requests := s.requests + RequestsFor(groupId, stored, per, description, now))
      && r.launched == (if android then LinksFor(mode, groupId, stored, per, description, render) else [])
    // The callback runs exactly when every write succeeded; otherwise the user is alerted.
    ensures r.completed <==> Proceeds(totalText, description, |members|) && (failAt.None? || failAt.value >= |members|)
    ensures r.alerted <==> Proceeds(totalText, description, |members|) && !r.completed
    // Only pending requests are added, so the books stay as they were.
    ensures Consistent(s) && Backed(s) ==> Consistent(r.store) && Backed(r.store)
  {
    if !Proceeds(totalText, description, |members|) {
      return FanOut(s, [], false, false);
    }
    var per := total / (|members| as real);
    var reqs, launched, i := IssueWrites(s.requests, groupId, members, mode, per, description, now, render, android, failAt);
    var completed := i == |members|;
    r := FanOut(s.(requests := reqs), launched, completed, !completed);
    PendingRequestsKeepBooks(s, groupId, members[..i], per, description, now);
  }

  lemma StepRequests(groupId: GroupId, ms: seq<UpiMember>, i: nat, per: real, description: string, now: Timestamp)
    requires i < |ms|
    ensures RequestsFor(groupId, ms[..i + 1], per, description, now) ==
      RequestsFor(groupId, ms[..i], per, description, now) + [RequestFor(groupId, ms[i], per, description, now)]
  {
    assert ms[..i + 1][..i] == ms[..i];
  }

  lemma StepLinks(mode: PaymentMode, groupId: GroupId, ms: seq<UpiMember>, i: nat, per: real, description: string,
                  render: real -> string)
    requires i < |ms|
    ensures LinksFor(mode, groupId, ms[..i + 1], per, description, render) ==
      LinksFor(mode, groupId, ms[..i], per, description, render) + [LinkFor(mode, groupId, ms[i], per, description, render)]
  {
    assert ms[..i + 1][..i] == ms[..i];
  }

  /** Storing pending requests keeps both invariants of the books. */
  lemma PendingRequestsKeepBooks(s: Store, groupId: GroupId, ms: seq<UpiMember>, per: real, description: string, now: Timestamp)
    ensures Consistent(s) && Backed(s) ==>
      var s' := s.(requests := s.requests + RequestsFor(groupId, ms, per, description, now));
      Consistent(s') && Backed(s')
  {
    var s' := s.(requests := s.requests + RequestsFor(groupId, ms, per, description, now));
    if Consistent(s) && Backed(s) {
      forall gid
        ensures SumAccepted(s'.requests, gid) == SumKind(s'.transactions, gid, PoolIn)
      {
        PendingRequestsKeepAccepted(s.requests, groupId, ms, per, description, now, gid);
      }
    }
  }

  /**
   A link whose payee and rendered amount hold no `&` reads back as the payee, `PoolPay`, the
   amount, the encoded note and mode `02`; the note decodes back to the description.
   */
  lemma LinkReadsBack(mode: PaymentMode, groupId: GroupId, m: UpiMember, per: real, description: string,
                      render: real -> string)
    requires '&' !in PayeeFor(mode, groupId, m) && '&' !in render(per)
    ensures Upi.Query(LinkFor(mode, groupId, m, per, description, render)) ==
      Some([("pa", PayeeFor(mode, groupId, m)), ("pn", "PoolPay"), ("am", render(per)),
            ("tn", Percent.Encode(description)), ("mode", "02")])
    ensures Percent.Decode(Percent.Encode(description)) == Some(description)
  {
    Upi.CollectUrlQuery(PayeeFor(mode, groupId, m), render(per), description);
  }
}
