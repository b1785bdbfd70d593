/** The conversation list of components/chat/ChatSidebar.tsx: how each conversation is
    titled, who may start a group, and the users tab. Avatar initials are the sidebar's own
    copy of `getInitials` as written, `AvatarInitials.InitialsAsWritten` with a literal `"$"`
    between the two letters; `AvatarInitials.Initials` is the rule that copy was meant to
    follow. */
module ChatSidebar {
  import opened Common
  import opened Records
  import opened AvatarInitials
  import opened CreateGroupModal

  /** The title and the avatar text of a conversation row. */
  datatype Display = Display(name: string, initials: string)

  function IsNotUser(userId: string): string -> bool {
    (id: string) => id != userId
  }

  /** `conv.participantIds.find(id => id !== currentUser.id)`: the first participant who is
      not the current user. */
  function OtherParticipant(participantIds: seq<string>, currentUserId: string): (r: Option<string>)
    ensures r.None? <==> forall id :: id in participantIds ==> id == currentUserId
    ensures r.Some? ==>
      exists i :: 0 <= i < |participantIds| && participantIds[i] == r.value &&
        r.value != currentUserId && forall k :: 0 <= k < i ==> participantIds[k] == currentUserId
  {
    var i := FindIndex(participantIds, IsNotUser(currentUserId));
    if i < 0 then None
    else
      assert participantIds[i] in participantIds && participantIds[i] != currentUserId;
      Some(participantIds[i])
  }

  /** `users.find(u => u.id === otherUserId)`: the first user listed with the id; an
      `undefined` id matches nobody. */
  function FindUser(users: seq<User>, userId: Option<string>): (r: Option<User>)
    ensures r.Some? ==> userId.Some?
    ensures r.Some? ==>
      exists i :: 0 <= i < |users| && users[i] == r.value &&
        r.value.id == userId.value && forall k :: 0 <= k < i ==> users[k].id != userId.value
    ensures r.None? <==> userId.None? || forall u :: u in users ==> u.id != userId.value
  {
    if userId.None? then None
    else
      var i := FindIndex(users, (u: User) => u.id == userId.value);
      if i < 0 then None else Some(users[i])
  }

  /** The sidebar's `getInitials("?")`: a one-character name is its own avatar text. */
  lemma QuestionMarkInitials()
    ensures InitialsAsWritten("?", "$") == "?"
  {
    SplitNoSep("?", ' ');
    assert Upper("?") == "?";
  }

  /** `getConversationDisplay` */
  function ConversationDisplay(conv: Conversation, users: seq<User>, currentUserId: string): (d: Display)
    ensures conv.kind == Group ==>
      (d.name == (if Truthy(conv.name) then conv.name.value else "Group Chat") &&
       d.initials == [UpperChar(if Truthy(conv.name) then conv.name.value[0] else 'G')])
    ensures conv.kind == Direct ==>
      var other := OtherParticipant(conv.participantIds, currentUserId);
      (other.None? || forall u :: u in users ==> u.id != other.value) ==> d == Display("Unknown User", "?")
    ensures conv.kind == Direct && d.name != "Unknown User" ==>
      d.initials == InitialsAsWritten(d.name, "$") &&
      exists u :: u in users && Some(u.id) == OtherParticipant(conv.participantIds, currentUserId) && u.name == d.name
  {
    if conv.kind == Group then
      var title := if Truthy(conv.name) then conv.name.value else "G";
      Display(if Truthy(conv.name) then conv.name.value else "Group Chat", Upper(title[..1]))
    else
      var other := FindUser(users, OtherParticipant(conv.participantIds, currentUserId));
      var name := if other.Some? && other.value.name != "" then other.value.name else "";
      QuestionMarkInitials();
      Display(if name != "" then name else "Unknown User", InitialsAsWritten(if name != "" then name else "?", "$"))
  }

  /** A direct conversation between the current user and someone listed is titled with
      that person's name, whichever order the two participants are stored in. */
  lemma DirectShowsPartner(me: string, other: User, users: seq<User>, id: string, first: bool)
    requires other.id != me && other.name != "" && "Unknown User" != other.name
    requires forall u :: u in users && u.id == other.id ==> u == other
    requires other in users
    ensures var conv := Conversation(id, Direct, if first then [other.id, me] else [me, other.id], None, None, None);
      ConversationDisplay(conv, users, me).name == other.name
  {
    var ids := if first then [other.id, me] else [me, other.id];
    assert OtherParticipant(ids, me) == Some(other.id) by {
      if !first {
        assert !IsNotUser(me)(ids[0]) && IsNotUser(me)(ids[1]);
      }
    }
  }

  /** `canCreateGroup`: administrators and managers. */
  predicate CanCreateGroup(role: Role) {
    role == Admin || role == Manager
  }

  /** Employees and HR cannot start a group from the sidebar. */
  lemma GroupCreators(role: Role)
    ensures CanCreateGroup(role) <==> role !in {Employee, HR}
  {
  }

  /** The users tab: everyone but the current user, in order, each with the sidebar's
      avatar text. */
  function UsersTab(users: seq<User>, currentUserId: string): (r: seq<(User, string)>)
    ensures |r| == |MemberOptions(users, currentUserId)|
    ensures forall k :: 0 <= k < |r| ==> r[k].0.id != currentUserId && r[k].0 in users
    ensures forall u :: u in users && u.id != currentUserId ==> exists k :: 0 <= k < |r| && r[k].0 == u
    ensures forall k :: 0 <= k < |r| ==> r[k].1 == InitialsAsWritten(r[k].0.name, "$")
  {
    var listed := MemberOptions(users, currentUserId);
    var r := seq(|listed|, k requires 0 <= k < |listed| => (listed[k], InitialsAsWritten(listed[k].name, "$")));
    assert forall u :: u in users && u.id != currentUserId ==> exists k :: 0 <= k < |r| && r[k].0 == u by {
      forall u | u in users && u.id != currentUserId ensures exists k :: 0 <= k < |r| && r[k].0 == u {
        var k :| 0 <= k < |listed| && listed[k] == u;
        assert r[k].0 == u;
      }
    }
    r
  }
}
