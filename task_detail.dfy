/** The task page of components/tasks/TaskDetail.tsx: who may edit the task or change its
    status, the activity feed, and the handlers that add a note and set or clear the
    dependency that holds a task. Each handler returns the partial update it hands to the
    store (`None` when it returns early); `MergeTask` applied to the task gives the record
    the store then holds. */
module TaskDetail {
  import opened Common
  import opened Records

  // ---------------------------------------------------------------------------
  // Permissions
  // ---------------------------------------------------------------------------

  /** `currentUser?.id` */
  function UserId(currentUser: Option<User>): Option<string> {
    if currentUser.Some? then Some(currentUser.value.id) else None
  }

  /** `project?.managerId` */
  function ManagerId(project: Option<Project>): Option<string> {
    if project.Some? then Some(project.value.managerId) else None
  }

  /** `task?.assigneeId` */
  function AssigneeId(task: Option<Task>): Option<string> {
    if task.Some? then task.value.assigneeId else None
  }

  /** `canEdit`: optional chaining compares `undefined` with `undefined` as equal. */
  predicate CanEdit(currentUser: Option<User>, project: Option<Project>) {
    (currentUser.Some? && currentUser.value.role == Admin) || UserId(currentUser) == ManagerId(project)
  }

  /** `canUpdateStatus` */
  predicate CanUpdateStatus(currentUser: Option<User>, project: Option<Project>, task: Option<Task>) {
    CanEdit(currentUser, project) || UserId(currentUser) == AssigneeId(task)
  }

  /** For a signed-in user: editing is for admins and the project's manager; changing the
      status is also for the task's assignee; whoever may edit may change the status. */
  lemma PermissionsOfSignedInUser(u: User, project: Option<Project>, task: Option<Task>)
    ensures CanEdit(Some(u), project) <==> u.role == Admin || (project.Some? && project.value.managerId == u.id)
    ensures CanUpdateStatus(Some(u), project, task) <==>
      CanEdit(Some(u), project) || (task.Some? && task.value.assigneeId == Some(u.id))
  {
  }

  /** The status selector is disabled for users who may not change the status and while
      the task is on hold. */
  predicate StatusLocked(canUpdateStatus: bool, t: Task) {
    !canUpdateStatus || t.status == TaskStatus.OnHold
  }

  /** A task that waits on a dependency cannot have its status changed from this page. */
  lemma DependencyLocksStatus(canUpdateStatus: bool, t: Task)
    requires HoldConsistent(t) && t.dependency.Some?
    ensures StatusLocked(canUpdateStatus, t)
  {
  }

  // ---------------------------------------------------------------------------
  // Activity feed
  // ---------------------------------------------------------------------------

  /** `ActivityItem`: a note or a dependency log. */
  datatype ActivityItem = NoteItem(note: Note) | LogItem(log: DependencyLog) {
    function Time(): int {
      match this
      case NoteItem(n) => n.timestamp
      case LogItem(l) => l.timestamp
    }
  }

  predicate SortedByTime(s: seq<ActivityItem>) {
    forall i, j :: 0 <= i < j < |s| ==> s[i].Time() <= s[j].Time()
  }

  /** Places `x` after every item of `s` that is not later than it. */
  function InsertByTime(x: ActivityItem, s: seq<ActivityItem>): (r: seq<ActivityItem>)
    ensures multiset(r) == multiset(s) + multiset{x}
    ensures forall y :: y in r ==> y == x || y in s
  {
    if |s| == 0 then [x]
    else if x.Time() < s[0].Time() then [x] + s
    else
      assert s == [s[0]] + s[1..];
      [s[0]] + InsertByTime(x, s[1..])
  }

  lemma {:induction false} InsertSorted(x: ActivityItem, s: seq<ActivityItem>)
    requires SortedByTime(s)
    ensures SortedByTime(InsertByTime(x, s))
  {
    if |s| > 0 && x.Time() >= s[0].Time() {
      var rest := InsertByTime(x, s[1..]);
      InsertSorted(x, s[1..]);
      forall k | 0 <= k < |rest| ensures s[0].Time() <= rest[k].Time() {
        var y := rest[k];
        assert y in rest;
        if y != x {
          var j :| 0 <= j < |s[1..]| && s[1..][j] == y;
          assert s[j + 1] == y;
        }
      }
    }
  }

  /** The stable ascending sort by time, one insertion at a time. */
  function SortByTime(s: seq<ActivityItem>): (r: seq<ActivityItem>)
    ensures SortedByTime(r)
    ensures multiset(r) == multiset(s)
  {
    if |s| == 0 then []
    else
      assert s == s[..|s| - 1] + [s[|s| - 1]];
      InsertSorted(s[|s| - 1], SortByTime(s[..|s| - 1]));
      InsertByTime(s[|s| - 1], SortByTime(s[..|s| - 1]))
  }

  function NoteItems(notes: seq<Note>): (r: seq<ActivityItem>)
    ensures |r| == |notes| && forall k :: 0 <= k < |r| ==> r[k] == NoteItem(notes[k])
  {
    seq(|notes|, k requires 0 <= k < |notes| => NoteItem(notes[k]))
  }

  function LogItems(logs: seq<DependencyLog>): (r: seq<ActivityItem>)
    ensures |r| == |logs| && forall k :: 0 <= k < |r| ==> r[k] == LogItem(logs[k])
  {
    seq(|logs|, k requires 0 <= k < |logs| => LogItem(logs[k]))
  }

  /** `activityFeed` */
  function ActivityFeed(task: Option<Task>): seq<ActivityItem> {
    if task.None? then []
    else SortByTime(NoteItems(task.value.NoteList()) + LogItems(task.value.LogList()))
  }

  /** The feed holds each note and each dependency log of the task exactly as often as the
      task does, nothing else, in ascending order of time. */
  lemma ActivityFeedExact(t: Task)
    ensures SortedByTime(ActivityFeed(Some(t)))
    ensures multiset(ActivityFeed(Some(t))) == multiset(NoteItems(t.NoteList()) + LogItems(t.LogList()))
    ensures |ActivityFeed(Some(t))| == |t.NoteList()| + |t.LogList()|
  {
    var all := NoteItems(t.NoteList()) + LogItems(t.LogList());
    assert |multiset(ActivityFeed(Some(t)))| == |multiset(all)|;
  }

  // ---------------------------------------------------------------------------
  // Handlers
  // ---------------------------------------------------------------------------

  /** `handleUpdateTask`: the update is sent only when the page has a task id. */
  function UpdateRequest(taskId: Option<string>, updates: TaskPatch): (r: Option<TaskPatch>)
    ensures r.Some? <==> Truthy(taskId)
    ensures r.Some? ==> r.value == updates
  {
    if Truthy(taskId) then Some(updates) else None
  }

  /** `handleAddNote`: the update sent, and the note box afterwards. */
  function AddNote(taskId: Option<string>, task: Option<Task>, currentUser: Option<User>,
                   newNote: string, noteId: string, now: int): (r: (Option<TaskPatch>, string))
    ensures Blank(newNote) || currentUser.None? || task.None? ==> r == (None, newNote)
    ensures !(Blank(newNote) || currentUser.None? || task.None?) ==>
      (r.1 == "" &&
       r.0 == UpdateRequest(taskId, NoTaskChange.(notes := Some(Some(
         task.value.NoteList() + [Note(noteId, currentUser.value.id, Trim(newNote), now)])))))
  {
    if Blank(newNote) || currentUser.None? || task.None? then (None, newNote)
    else
      var note := Note(noteId, currentUser.value.id, Trim(newNote), now);
      (UpdateRequest(taskId, NoTaskChange.(notes := Some(Some(task.value.NoteList() + [note])))), "")
  }

  /** An added note comes last, holds the trimmed text, which is not empty, and is by the
      current user; the earlier notes and every other field stay as they were. */
  lemma AddNoteEffect(taskId: string, t: Task, u: User, newNote: string, noteId: string, now: int)
    requires taskId != "" && !Blank(newNote)
    ensures AddNote(Some(taskId), Some(t), Some(u), newNote, noteId, now).0.Some?
    ensures var t' := MergeTask(t, AddNote(Some(taskId), Some(t), Some(u), newNote, noteId, now).0.value);
      |t'.NoteList()| == |t.NoteList()| + 1 &&
      t'.NoteList()[..|t.NoteList()|] == t.NoteList() &&
      t'.NoteList()[|t.NoteList()|] == Note(noteId, u.id, Trim(newNote), now) &&
      Trim(newNote) != "" &&
      t' == t.(notes := Some(t.NoteList() + [Note(noteId, u.id, Trim(newNote), now)]))
  {
  }

  /** The log entry `handleSetDependency` records. */
  function SetLog(authorId: string, dependencyUserId: string, reason: string, now: int): DependencyLog {
    DependencyLog(authorId, LogAction.Set, Some(reason), Some(dependencyUserId), now)
  }

  /** `handleSetDependency`: refused without a chosen user, a reason that is not blank and
      a signed-in user; the reason is stored as typed. */
  function SetDependency(taskId: Option<string>, task: Option<Task>, currentUser: Option<User>,
                         dependencyUserId: string, reason: string, now: int): (r: Option<TaskPatch>)
    ensures dependencyUserId == "" || Blank(reason) || currentUser.None? ==> r.None?
    ensures r.Some? <==> dependencyUserId != "" && !Blank(reason) && currentUser.Some? && Truthy(taskId)
    ensures r.Some? ==>
      r.value.dependency == Some(Some(Dependency(dependencyUserId, reason))) &&
      r.value.status == Some(TaskStatus.OnHold) &&
      r.value.dependencyLogs == Some(Some(
        (if task.Some? then task.value.LogList() else []) + [SetLog(currentUser.value.id, dependencyUserId, reason, now)]))
  {
    if dependencyUserId == "" || Blank(reason) || currentUser.None? then None
    else
      var log := SetLog(currentUser.value.id, dependencyUserId, reason, now);
      var logs := (if task.Some? then task.value.LogList() else []) + [log];
      UpdateRequest(taskId, NoTaskChange.(
        dependency := Some(Some(Dependency(dependencyUserId, reason))),
        dependencyLogs := Some(Some(logs)),
        status := Some(TaskStatus.OnHold)))
  }

  /** The log entry `handleClearDependency` records: no reason and no user. */
  function ClearLog(authorId: string, now: int): DependencyLog {
    DependencyLog(authorId, LogAction.Cleared, None, None, now)
  }

  /** `handleClearDependency`: only after the user confirms, and only when signed in. */
  function ClearDependency(taskId: Option<string>, task: Option<Task>, currentUser: Option<User>,
                           confirmed: bool, now: int): (r: Option<TaskPatch>)
    ensures r.Some? <==> confirmed && currentUser.Some? && Truthy(taskId)
    ensures r.Some? ==>
      r.value.dependency == Some(None) && r.value.status == Some(TaskStatus.ToDo) &&
      r.value.dependencyLogs == Some(Some(
        (if task.Some? then task.value.LogList() else []) + [ClearLog(currentUser.value.id, now)]))
  {
    if confirmed && currentUser.Some? then
      var logs := (if task.Some? then task.value.LogList() else []) + [ClearLog(currentUser.value.id, now)];
      UpdateRequest(taskId, NoTaskChange.(
        dependency := Some(None), dependencyLogs := Some(Some(logs)), status := Some(TaskStatus.ToDo)))
    else None
  }

  /** Setting a dependency puts the task on hold, records one 'set' entry after the
      earlier ones, and leaves every other field alone. */
  lemma SetDependencyEffect(taskId: string, t: Task, u: User, dependencyUserId: string, reason: string, now: int)
    requires taskId != "" && dependencyUserId != "" && !Blank(reason)
    ensures SetDependency(Some(taskId), Some(t), Some(u), dependencyUserId, reason, now).Some?
    ensures var t' := MergeTask(t, SetDependency(Some(taskId), Some(t), Some(u), dependencyUserId, reason, now).value);
      HoldConsistent(t') && t'.status == TaskStatus.OnHold &&
      t'.LogList() == t.LogList() + [SetLog(u.id, dependencyUserId, reason, now)] &&
      t' == t.(dependency := Some(Dependency(dependencyUserId, reason)),
               dependencyLogs := Some(t.LogList() + [SetLog(u.id, dependencyUserId, reason, now)]),
               status := TaskStatus.OnHold)
  {
  }

  /** Clearing a dependency returns the task to To-Do, records one 'cleared' entry after
      the earlier ones, and leaves every other field alone. */
  lemma ClearDependencyEffect(taskId: string, t: Task, u: User, now: int)
    requires taskId != ""
    ensures ClearDependency(Some(taskId), Some(t), Some(u), true, now).Some?
    ensures var t' := MergeTask(t, ClearDependency(Some(taskId), Some(t), Some(u), true, now).value);
      HoldConsistent(t') && t'.status == TaskStatus.ToDo && t'.dependency.None? &&
      t'.LogList() == t.LogList() + [ClearLog(u.id, now)] &&
      t' == t.(dependency := None, dependencyLogs := Some(t.LogList() + [ClearLog(u.id, now)]),
               status := TaskStatus.ToDo)
  {
  }

  /** Setting and then clearing a dependency leaves the task in To-Do with no dependency
      and with the two entries, 'set' then 'cleared', after the earlier log. */
  lemma SetThenClear(taskId: string, t: Task, u: User, dependencyUserId: string, reason: string, now1: int, now2: int)
    requires taskId != "" && dependencyUserId != "" && !Blank(reason)
    ensures var t1 := MergeTask(t, SetDependency(Some(taskId), Some(t), Some(u), dependencyUserId, reason, now1).value);
      var t2 := MergeTask(t1, ClearDependency(Some(taskId), Some(t1), Some(u), true, now2).value);
      t2.status == TaskStatus.ToDo && t2.dependency.None? &&
      t2.LogList() == t.LogList() + [SetLog(u.id, dependencyUserId, reason, now1), ClearLog(u.id, now2)]
  {
    SetDependencyEffect(taskId, t, u, dependencyUserId, reason, now1);
    var t1 := MergeTask(t, SetDependency(Some(taskId), Some(t), Some(u), dependencyUserId, reason, now1).value);
    ClearDependencyEffect(taskId, t1, u, now2);
  }
}
