/** The new-group dialog of components/chat/CreateGroupModal.tsx: the members offered,
    the member checkboxes, and the submit that checks the name and the selection before
    it asks the store for the group. */
module CreateGroupModal {
  import opened Common
  import opened Records
  import opened DataService

  const NameRequired := "Group name is required."
  const MemberRequired := "You must select at least one other member."

  function IdIsNot(id: string): User -> bool {
    (u: User) => u.id != id
  }

  /** `allUsers.filter(u => u.id !== currentUser.id)`: everyone but the current user, in
      order. */
  function MemberOptions(allUsers: seq<User>, currentUserId: string): (r: seq<User>)
    ensures forall u :: u in r <==> u in allUsers && u.id != currentUserId
    ensures forall u: User :: u.id != currentUserId ==> multiset(r)[u] == multiset(allUsers)[u]
  {
    var r := Filter(allUsers, IdIsNot(currentUserId));
    assert forall u: User :: u.id != currentUserId ==> multiset(r)[u] == multiset(allUsers)[u] by {
      forall u: User | u.id != currentUserId ensures multiset(r)[u] == multiset(allUsers)[u] {
        FilterCount(allUsers, IdIsNot(currentUserId), u);
      }
    }
    r
  }

  /** The dialog's state: the name box, the ticked members (a `Set`, kept as a list
      without repeats in insertion order) and the error shown. */
  datatype GroupForm = GroupForm(groupName: string, selected: seq<string>, error: string)

  /** `handleMemberToggle` on a member offered: the member's tick flips, the others stay,
      and the current user, never offered, never gets selected. */
  lemma MemberToggleOffered(selected: seq<string>, allUsers: seq<User>, currentUserId: string, u: User)
    requires currentUserId !in selected
    requires u in MemberOptions(allUsers, currentUserId)
    ensures NoDuplicates(Toggle(selected, u.id))
    ensures u.id in Toggle(selected, u.id) <==> u.id !in selected
    ensures currentUserId !in Toggle(selected, u.id)
  {
    ToggleFlips(selected, u.id);
  }

  /** What `handleSubmit` hands to `createGroup`: the name as typed, the ticked members
      and the creator. */
  datatype GroupRequest = GroupRequest(groupName: string, memberIds: seq<string>, creatorId: string)

  /** `handleSubmit`: the request and the dialog afterwards. The error is cleared first;
      a blank name is refused before an empty selection; on success the name and the
      selection are reset. */
  function Submit(f: GroupForm, creatorId: string): (r: (Option<GroupRequest>, GroupForm))
    ensures Blank(f.groupName) ==> r == (None, f.(error := NameRequired))
    ensures !Blank(f.groupName) && |f.selected| == 0 ==> r == (None, f.(error := MemberRequired))
    ensures r.0.Some? <==> !Blank(f.groupName) && |f.selected| > 0
    ensures r.0.Some? ==>
      r.0.value == GroupRequest(f.groupName, f.selected, creatorId) && r.1 == GroupForm("", [], "")
  {
    if Blank(f.groupName) then (None, f.(error := NameRequired))
    else if |f.selected| < 1 then (None, f.(error := MemberRequired))
    else (Some(GroupRequest(f.groupName, f.selected, creatorId)), GroupForm("", [], ""))
  }

  /** A group created from the dialog has its creator first and every ticked member, each
      once: at least two people, as the selection never holds the creator. */
  lemma CreatedGroupHasMembers(f: GroupForm, creatorId: string)
    requires NoDuplicates(f.selected) && creatorId !in f.selected
    requires Submit(f, creatorId).0.Some?
    ensures var p := GroupParticipants(creatorId, Submit(f, creatorId).0.value.memberIds);
      p == [creatorId] + f.selected && |p| >= 2
  {
    var all := [creatorId] + f.selected;
    assert NoDuplicates(all) by {
      forall i, j | 0 <= i < j < |all| ensures all[i] != all[j] {
        if i == 0 {
          assert all[j] in f.selected;
        }
      }
    }
    DistinctOfDistinct(all);
  }
}
