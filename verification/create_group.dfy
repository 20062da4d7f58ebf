/**
 The create-group form: an editable list of member rows, and the submit handler that inserts
 the group and then one member row for the creator (as admin) plus one per complete form row.
 */
module CreateGroup {
  import opened Common
  import opened Ledger

  /** One row of the member list in the form. */
  datatype FormRow = FormRow(email: string, upiId: string, displayName: string)

  datatype Field = Email | UpiId | DisplayName

  const Blank: FormRow := FormRow("", "", "")

  /** The form opens with one blank row. */
  const InitialRows: seq<FormRow> := [Blank]

  /** `addMember`: one more blank row at the end. */
  function AddMember(rows: seq<FormRow>): (r: seq<FormRow>)
    ensures |r| == |rows| + 1 && r[..|rows|] == rows && r[|rows|] == Blank
  {
    rows + [Blank]
  }

  /** `removeMember(index)`: `filter((_, i) => i !== index)`, written as a walk over the rows. */
  function RemoveMember(rows: seq<FormRow>, index: int): (r: seq<FormRow>)
    ensures 0 <= index < |rows| ==> r == rows[..index] + rows[index + 1..]
    ensures !(0 <= index < |rows|) ==> r == rows
  {
    if |rows| == 0 then []
    else if index == 0 then RemoveMember(rows[1..], index - 1)
    else [rows[0]] + RemoveMember(rows[1..], index - 1)
  }

  /** Removing the row just added gives the rows back. */
  lemma RemoveUndoesAdd(rows: seq<FormRow>)
    ensures RemoveMember(AddMember(rows), |rows|) == rows
  {
    assert AddMember(rows)[..|rows|] == rows;
  }

  /** The remove button is shown only while there is more than one row. */
  predicate CanRemove(rows: seq<FormRow>) {
    |rows| > 1
  }

  /** Removal through the button never empties the form, and removes exactly one row. */
  lemma OfferedRemovalKeepsARow(rows: seq<FormRow>, index: nat)
    requires CanRemove(rows) && index < |rows|
    ensures |RemoveMember(rows, index)| == |rows| - 1 >= 1
  {
  }

  function SetField(m: FormRow, field: Field, value: string): FormRow {
    match field
    case Email => m.(email := value)
    case UpiId => m.(upiId := value)
    case DisplayName => m.(displayName := value)
  }

  /** What `updateMember` reads back from a row. */
  function GetField(m: FormRow, field: Field): string {
    match field
    case Email => m.email
    case UpiId => m.upiId
    case DisplayName => m.displayName
  }

  /**
   `updateMember(index, field, value)`; `None` for an index with no row, where assigning into
   `undefined` throws.
   */
  function UpdateMember(rows: seq<FormRow>, index: int, field: Field, value: string): (r: Option<seq<FormRow>>)
    ensures r.Some? <==> 0 <= index < |rows|
    ensures r.Some? ==> |r.value| == |rows|
    ensures r.Some? ==> GetField(r.value[index], field) == value
    ensures r.Some? ==> forall f :: f != field ==> GetField(r.value[index], f) == GetField(rows[index], f)
    ensures r.Some? ==> forall j :: 0 <= j < |rows| && j != index ==> r.value[j] == rows[j]
  {
    if 0 <= index < |rows| then Some(rows[index := SetField(rows[index], field, value)]) else None
  }

  /** `m.email && m.upiId && m.displayName`. */
  predicate Complete(m: FormRow) {
    Filled(m.email) && Filled(m.upiId) && Filled(m.displayName)
  }

  /** The complete rows, in form order. */
  function CompleteRows(rows: seq<FormRow>): (r: seq<FormRow>)
    ensures |r| <= |rows|
    ensures forall i :: 0 <= i < |r| ==> Complete(r[i]) && r[i] in rows
    ensures forall m :: m in rows && Complete(m) ==> m in r
  {
    if |rows| == 0 then []
    else if Complete(rows[0]) then [rows[0]] + CompleteRows(rows[1..])
    else CompleteRows(rows[1..])
  }

  lemma {:induction false} CompleteRowsAppend(a: seq<FormRow>, b: seq<FormRow>)
    ensures CompleteRows(a + b) == CompleteRows(a) + CompleteRows(b)
  {
    if |a| == 0 {
      assert a + b == b;
    } else {
      assert (a + b)[1..] == a[1..] + b;
      CompleteRowsAppend(a[1..], b);
    }
  }

  /** Adding a blank row changes nothing that gets inserted. */
  lemma BlankRowIsIgnored(rows: seq<FormRow>)
    ensures CompleteRows(AddMember(rows)) == CompleteRows(rows)
  {
    CompleteRowsAppend(rows, [Blank]);
  }

  lemma CompleteRowsSplice(a: seq<FormRow>, x: FormRow, b: seq<FormRow>)
    ensures CompleteRows(a + [x] + b) == CompleteRows(a) + (if Complete(x) then [x] else []) + CompleteRows(b)
  {
    CompleteRowsAppend(a + [x], b);
    CompleteRowsAppend(a, [x]);
    assert CompleteRows([x]) == (if Complete(x) then [x] else []) by {
      assert [x][1..] == [];
    }
  }

  lemma SplitAt(rows: seq<FormRow>, index: nat)
    requires index < |rows|
    ensures rows == rows[..index] + [rows[index]] + rows[index + 1..]
  {
  }

  /** Removing a row drops exactly its invite, if it had one; removing an incomplete row changes nothing that gets inserted. */
  lemma RemovalAndCompleteRows(rows: seq<FormRow>, index: nat)
    requires index < |rows|
    ensures CompleteRows(rows) ==
      CompleteRows(rows[..index]) + (if Complete(rows[index]) then [rows[index]] else []) + CompleteRows(rows[index + 1..])
    ensures CompleteRows(RemoveMember(rows, index)) == CompleteRows(rows[..index]) + CompleteRows(rows[index + 1..])
    ensures !Complete(rows[index]) ==> CompleteRows(RemoveMember(rows, index)) == CompleteRows(rows)
  {
    var a, x, b := rows[..index], rows[index], rows[index + 1..];
    SplitAt(rows, index);
    CompleteRowsSplice(a, x, b);
    assert RemoveMember(rows, index) == a + b;
    CompleteRowsAppend(a, b);
  }

  /** A `group_members` row to insert. */
  datatype MemberInsert = MemberInsert(groupId: GroupId, userId: string, upiId: string, displayName: string, role: Role)

  /** The signed-in user as the form sees it. */
  datatype AuthUser = AuthUser(id: string, email: Option<string>, metaDisplayName: Option<string>)

  /** `user_metadata.display_name || email || 'You'`. */
  function CreatorDisplayName(u: AuthUser): (name: string)
    ensures Filled(name)
    ensures u.metaDisplayName.Some? && Filled(u.metaDisplayName.value) ==> name == u.metaDisplayName.value
    ensures (u.metaDisplayName.None? || !Filled(u.metaDisplayName.value)) && u.email.Some? && Filled(u.email.value) ==>
      name == u.email.value
    ensures (u.metaDisplayName.None? || !Filled(u.metaDisplayName.value)) && (u.email.None? || !Filled(u.email.value)) ==>
      name == "You"
  {
    if u.metaDisplayName.Some? && Filled(u.metaDisplayName.value) then u.metaDisplayName.value
    else if u.email.Some? && Filled(u.email.value) then u.email.value
    else "You"
  }

  function AdminInsert(groupId: GroupId, u: AuthUser): MemberInsert {
    MemberInsert(groupId, u.id, "", CreatorDisplayName(u), Admin)
  }

  /** An invited row; it carries the creator's user id, since the form has no user id for it. */
  function InviteInsert(groupId: GroupId, u: AuthUser, m: FormRow): MemberInsert {
    MemberInsert(groupId, u.id, m.upiId, m.displayName, Participant)
  }

  function Invites(groupId: GroupId, u: AuthUser, rows: seq<FormRow>): (r: seq<MemberInsert>)
    ensures |r| == |rows|
    ensures forall i :: 0 <= i < |rows| ==> r[i] == InviteInsert(groupId, u, rows[i])
  {
    if |rows| == 0 then [] else [InviteInsert(groupId, u, rows[0])] + Invites(groupId, u, rows[1..])
  }

  /** `memberInserts`: the creator as admin, then every complete row, in order, as a member. */
  function MemberInserts(groupId: GroupId, u: AuthUser, rows: seq<FormRow>): (r: seq<MemberInsert>)
    ensures |r| == 1 + |CompleteRows(rows)|
    ensures r[0] == MemberInsert(groupId, u.id, "", CreatorDisplayName(u), Admin)
    ensures forall i :: 1 <= i < |r| ==>
      && r[i].role == Participant
      && r[i].upiId == CompleteRows(rows)[i - 1].upiId
      && r[i].displayName == CompleteRows(rows)[i - 1].displayName
    ensures forall i :: 0 <= i < |r| ==> r[i].groupId == groupId && r[i].userId == u.id
  {
    [AdminInsert(groupId, u)] + Invites(groupId, u, CompleteRows(rows))
  }

  /** Exactly one admin row is inserted, and it is the first. */
  lemma OneAdminFirst(groupId: GroupId, u: AuthUser, rows: seq<FormRow>)
    ensures var r := MemberInserts(groupId, u, rows);
      forall i :: 0 <= i < |r| ==> (r[i].role == Admin <==> i == 0)
  {
  }

  /** The form's complete rows are exactly the invited ones: each shows up with its UPI id and name. */
  lemma InvitedIffComplete(groupId: GroupId, u: AuthUser, rows: seq<FormRow>, m: FormRow)
    requires m in rows
    ensures Complete(m) ==> InviteInsert(groupId, u, m) in MemberInserts(groupId, u, rows)[1..]
    ensures (forall k :: 0 <= k < |rows| && Complete(rows[k]) ==> (rows[k].upiId, rows[k].displayName) != (m.upiId, m.displayName))
            ==> InviteInsert(groupId, u, m) !in MemberInserts(groupId, u, rows)[1..]
  {
    var c := CompleteRows(rows);
    var r := MemberInserts(groupId, u, rows);
    if Complete(m) {
      var i :| 0 <= i < |c| && c[i] == m;
      assert r[1..][i] == InviteInsert(groupId, u, m);
    }
    if InviteInsert(groupId, u, m) in r[1..] {
      var i :| 0 <= i < |r[1..]| && r[1..][i] == InviteInsert(groupId, u, m);
      assert c[i] in rows && Complete(c[i]);
      var k :| 0 <= k < |rows| && rows[k] == c[i];
      assert (rows[k].upiId, rows[k].displayName) == (m.upiId, m.displayName);
    }
  }

  /** What a submit leaves behind: the group row, the member rows, and whether the modal closed or shows an error. */
  datatype SubmitRun = SubmitRun(group: Option<Group>, members: seq<MemberInsert>, closed: bool, error: bool)

  /**
   `handleSubmit`. With no signed-in user, `user!.id` throws before anything is written.
   `newGroupId` is the id the database gives the group; `groupOk` and `membersOk` are the outcomes of the two inserts.
   */
  function HandleSubmit(user: Option<AuthUser>, groupName: string, description: string, rows: seq<FormRow>,
                        newGroupId: GroupId, groupOk: bool, membersOk: bool): (r: SubmitRun)
    ensures r.closed <==> !r.error
    ensures r.closed <==> user.Some? && groupOk && membersOk
    ensures r.group.Some? <==> user.Some? && groupOk
    ensures r.group.Some? ==> r.group.value == NewGroup(newGroupId, groupName, description, user.value.id)
    // Member rows are written only after the group row, and only all together.
    ensures r.members != [] ==> r.group.Some? && membersOk
    ensures r.closed ==> r.members == MemberInserts(newGroupId, user.value, rows)
    ensures !r.closed ==> r.members == []
  {
    if user.None? || !groupOk then SubmitRun(None, [], false, true)
    else
      var g := NewGroup(newGroupId, groupName, description, user.value.id);
      if !membersOk then SubmitRun(Some(g), [], false, true)
      else SubmitRun(Some(g), MemberInserts(newGroupId, user.value, rows), true, false)
  }
}
