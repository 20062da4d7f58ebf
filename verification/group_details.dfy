/**
 The group page's role derivation: which member row is the signed-in user's, whether that
 user is an admin, and the values handed to the request form, the request list and the
 payment panel.
 */
module GroupDetails {
  import opened Common
  import opened Ledger
  import CreateGroup
  import RequestsList

  /** A `group_members` row as loaded. */
  datatype MemberRow = MemberRow(id: MemberId, userId: string, displayName: string, upiId: string, role: Role)

  /** `membersData.find((m) => m.user_id === user?.id)`; without a signed-in user nothing matches. */
  function CurrentMember(members: seq<MemberRow>, user: Option<string>): (c: Option<MemberRow>)
    ensures c.None? <==> user.None? || forall j :: 0 <= j < |members| ==> members[j].userId != user.value
    ensures c.Some? ==> exists i :: 0 <= i < |members| && members[i] == c.value && Some(members[i].userId) == user
                                   && forall j :: 0 <= j < i ==> members[j].userId != user.value
  {
    if user.None? || |members| == 0 then None
    else if members[0].userId == user.value then Some(members[0])
    else
      var c := CurrentMember(members[1..], user);
      if c.Some? then
        ghost var i :| 0 <= i < |members[1..]| && members[1..][i] == c.value && Some(members[1..][i].userId) == user
                       && forall j :: 0 <= j < i ==> members[1..][j].userId != user.value;
        assert members[i + 1] == c.value;
        c
      else c
  }

  /**
   `currentMember?.role === 'admin'`: the user's first row, if any, is an admin row. A later
   admin row of the same user does not count.
   */
  predicate IsAdmin(members: seq<MemberRow>, user: Option<string>)
    ensures IsAdmin(members, user) <==>
      user.Some? && exists i :: 0 <= i < |members| && members[i].userId == user.value && members[i].role == Admin
                              && forall j :: 0 <= j < i ==> members[j].userId != user.value
  {
    var current := CurrentMember(members, user);
    FirstMatchIsCurrent(members, user);
    current.Some? && current.value.role == Admin
  }

  /** What the page hands to its children. */
  datatype Panels = Panels(showsRequestForm: bool, requestsMemberId: MemberId, availableBalance: real)

  /** The request form only for admins; the list gets the member id or `''`; the payment panel gets the stored balance. */
  function DerivePanels(g: Group, members: seq<MemberRow>, user: Option<string>): (p: Panels)
    ensures p.showsRequestForm <==> IsAdmin(members, user)
    ensures CurrentMember(members, user).None? ==> p.requestsMemberId == ""
    ensures CurrentMember(members, user).Some? ==> p.requestsMemberId == CurrentMember(members, user).value.id
    ensures p.availableBalance == g.totalPooled
  {
    var current := CurrentMember(members, user);
    Panels(IsAdmin(members, user), if current.Some? then current.value.id else "", g.totalPooled)
  }

  /** Any first row of the user is the one the lookup returns. */
  lemma {:induction false} FirstMatchIsCurrent(members: seq<MemberRow>, user: Option<string>)
    ensures forall i :: (0 <= i < |members| && Some(members[i].userId) == user
                         && (forall j :: 0 <= j < i ==> members[j].userId != user.value))
                        ==> CurrentMember(members, user) == Some(members[i])
  {
    if user.Some? && |members| > 0 && members[0].userId != user.value {
      FirstMatchIsCurrent(members[1..], user);
      forall i | 0 <= i < |members| && Some(members[i].userId) == user
                 && (forall j :: 0 <= j < i ==> members[j].userId != user.value)
        ensures CurrentMember(members, user) == Some(members[i])
      {
        assert i > 0;
        assert members[1..][i - 1] == members[i];
        assert forall j :: 0 <= j < i - 1 ==> members[1..][j].userId != user.value by {
          forall j | 0 <= j < i - 1 ensures members[1..][j].userId != user.value {
            assert members[1..][j] == members[j + 1];
          }
        }
      }
    }
  }

  /**
   A signed-in user with no member row in the group is offered no Accept/Reject on any
   request addressed to a member (member ids are never empty).
   */
  lemma OutsiderCannotRespond(g: Group, members: seq<MemberRow>, user: Option<string>, reqs: seq<PaymentRequest>)
    requires CurrentMember(members, user).None?
    requires forall k :: 0 <= k < |reqs| && reqs[k].addressee.Member? ==> reqs[k].addressee.memberId != ""
    ensures forall k :: 0 <= k < |reqs| ==> !RequestsList.CanRespond(reqs[k], DerivePanels(g, members, user).requestsMemberId)
  {
  }

  /** The rows the database holds after the inserts, with the ids it assigned, in insert order. */
  function Materialize(inserts: seq<CreateGroup.MemberInsert>, ids: seq<MemberId>): (ms: seq<MemberRow>)
    requires |ids| == |inserts|
    ensures |ms| == |inserts|
    ensures forall i :: 0 <= i < |ms| ==>
      ms[i] == MemberRow(ids[i], inserts[i].userId, inserts[i].displayName, inserts[i].upiId, inserts[i].role)
  {
    if |inserts| == 0 then []
    else [MemberRow(ids[0], inserts[0].userId, inserts[0].displayName, inserts[0].upiId, inserts[0].role)]
         + Materialize(inserts[1..], ids[1..])
  }

  /** Read back in insert order, the creator's first row is the admin row, so the creator gets the request form. */
  lemma CreatorIsAdmin(g: Group, u: CreateGroup.AuthUser, rows: seq<CreateGroup.FormRow>, ids: seq<MemberId>)
    requires |ids| == |CreateGroup.MemberInserts(g.id, u, rows)|
    ensures var members := Materialize(CreateGroup.MemberInserts(g.id, u, rows), ids);
      && CurrentMember(members, Some(u.id)) == Some(members[0])
      && IsAdmin(members, Some(u.id))
      && DerivePanels(g, members, Some(u.id)) == Panels(true, ids[0], g.totalPooled)
  {
  }

  /**
   Every inserted row carries the creator's user id, so no other signed-in user, invited or
   not, is ever the current member of the new group.
   */
  lemma InviteesAreNotMembers(g: Group, u: CreateGroup.AuthUser, rows: seq<CreateGroup.FormRow>, ids: seq<MemberId>,
                              other: string)
    requires |ids| == |CreateGroup.MemberInserts(g.id, u, rows)|
    requires other != u.id
    ensures var members := Materialize(CreateGroup.MemberInserts(g.id, u, rows), ids);
      && CurrentMember(members, Some(other)).None?
      && !DerivePanels(g, members, Some(other)).showsRequestForm
      && DerivePanels(g, members, Some(other)).requestsMemberId == ""
  {
  }

  /**
   The lookup depends on the order rows come back in: when an invited row is read before the
   admin row, the creator matches the invited row and loses the request form.
   */
  lemma CreatorRoleDependsOnOrder(g: Group, u: CreateGroup.AuthUser, rows: seq<CreateGroup.FormRow>, ids: seq<MemberId>)
    requires |ids| == |CreateGroup.MemberInserts(g.id, u, rows)|
    requires |CreateGroup.CompleteRows(rows)| > 0
    ensures var members := Materialize(CreateGroup.MemberInserts(g.id, u, rows), ids);
      && !IsAdmin([members[1], members[0]] + members[2..], Some(u.id))
      && !DerivePanels(g, [members[1], members[0]] + members[2..], Some(u.id)).showsRequestForm
  {
    var members := Materialize(CreateGroup.MemberInserts(g.id, u, rows), ids);
    var reordered := [members[1], members[0]] + members[2..];
    assert reordered[0] == members[1];
  }
}
