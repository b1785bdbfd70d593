/** The project page of components/projects/ProjectDetail.tsx: the board that groups the
    project's tasks by status, the milestone status update, the new-task form and who may
    see the page. */
module ProjectDetail {
  import opened Common
  import opened Records

  // ---------------------------------------------------------------------------
  // tasksByStatus
  // ---------------------------------------------------------------------------

  /** `tasks.reduce(...)` into `Record<TaskStatus, Task[]>`: a status is a key only once a
      task with it was seen, and each task is pushed onto its status's list. */
  function GroupByStatus(tasks: seq<Task>): map<TaskStatus, seq<Task>> {
    if |tasks| == 0 then map[]
    else
      var acc := GroupByStatus(tasks[..|tasks| - 1]);
      var t := tasks[|tasks| - 1];
      acc[t.status := (if t.status in acc then acc[t.status] else []) + [t]]
  }

  /** The list the board shows for a status: `tasksByStatus[status] || []`. */
  function Bucket(groups: map<TaskStatus, seq<Task>>, status: TaskStatus): seq<Task> {
    if status in groups then groups[status] else []
  }

  function StatusIs(status: TaskStatus): Task -> bool {
    (t: Task) => t.status == status
  }

  function WithStatus(tasks: seq<Task>, status: TaskStatus): seq<Task> {
    Filter(tasks, StatusIs(status))
  }

  /** Adding a task to the board appends it to its own status's list only. */
  lemma GroupByStatusStep(tasks: seq<Task>, status: TaskStatus)
    requires |tasks| > 0
    ensures var t := tasks[|tasks| - 1];
      var before := Bucket(GroupByStatus(tasks[..|tasks| - 1]), status);
      Bucket(GroupByStatus(tasks), status) == if t.status == status then before + [t] else before
  {
  }

  /** Each status's list holds exactly the tasks with that status, in the order of the
      input. */
  lemma {:induction false} GroupByStatusExact(tasks: seq<Task>, status: TaskStatus)
    ensures Bucket(GroupByStatus(tasks), status) == WithStatus(tasks, status)
  {
    if |tasks| > 0 {
      var init := tasks[..|tasks| - 1];
      var t := tasks[|tasks| - 1];
      GroupByStatusExact(init, status);
      GroupByStatusStep(tasks, status);
      assert tasks == init + [t];
      FilterConcat(init, [t], StatusIs(status));
      assert Filter([t], StatusIs(status)) == if t.status == status then [t] else [];
    }
  }

  /** A status is a key of the board exactly when some task has it. */
  lemma {:induction false} GroupByStatusKeys(tasks: seq<Task>, status: TaskStatus)
    ensures status in GroupByStatus(tasks) <==> exists t :: t in tasks && t.status == status
  {
    if |tasks| > 0 {
      var init := tasks[..|tasks| - 1];
      GroupByStatusKeys(init, status);
      assert tasks == init + [tasks[|tasks| - 1]];
    }
  }

  /** Every task lands in exactly one of the four lists, so their sizes add up to the
      number of tasks. */
  lemma {:induction false} GroupByStatusSizes(tasks: seq<Task>)
    ensures var g := GroupByStatus(tasks);
      |Bucket(g, TaskStatus.ToDo)| + |Bucket(g, TaskStatus.InProgress)| +
      |Bucket(g, TaskStatus.OnHold)| + |Bucket(g, TaskStatus.Completed)| == |tasks|
  {
    if |tasks| > 0 {
      GroupByStatusSizes(tasks[..|tasks| - 1]);
      GroupByStatusStep(tasks, TaskStatus.ToDo);
      GroupByStatusStep(tasks, TaskStatus.InProgress);
      GroupByStatusStep(tasks, TaskStatus.OnHold);
      GroupByStatusStep(tasks, TaskStatus.Completed);
    }
  }

  // ---------------------------------------------------------------------------
  // Milestones
  // ---------------------------------------------------------------------------

  /** `project.roadmap.map(ms => ms.id === milestoneId ? { ...ms, status: newStatus } : ms)` */
  function SetMilestoneStatus(roadmap: seq<Milestone>, milestoneId: string, newStatus: MilestoneStatus): (r: seq<Milestone>)
    ensures |r| == |roadmap|
    ensures forall k :: 0 <= k < |r| && roadmap[k].id != milestoneId ==> r[k] == roadmap[k]
    ensures forall k :: 0 <= k < |r| && roadmap[k].id == milestoneId ==>
      r[k].status == newStatus && r[k] == roadmap[k].(status := newStatus)
  {
    seq(|roadmap|, k requires 0 <= k < |roadmap| =>
      if roadmap[k].id == milestoneId then roadmap[k].(status := newStatus) else roadmap[k])
  }

  /** `handleUpdateMilestoneStatus`: the project id and update sent, nothing without a
      loaded project that has a roadmap. */
  function UpdateMilestoneRequest(project: Option<Project>, milestoneId: string, newStatus: MilestoneStatus)
    : (r: Option<(string, ProjectPatch)>)
    ensures r.Some? <==> project.Some? && project.value.roadmap.Some?
    ensures r.Some? ==>
      (r.value.0 == project.value.id &&
       r.value.1 == NoProjectChange.(roadmap := Some(Some(SetMilestoneStatus(project.value.roadmap.value, milestoneId, newStatus)))))
  {
    if project.None? || project.value.roadmap.None? then None
    else Some((project.value.id, NoProjectChange.(roadmap := Some(Some(
      SetMilestoneStatus(project.value.roadmap.value, milestoneId, newStatus))))))
  }

  /** Updating a milestone's status twice keeps only the second status, and setting the
      status it already has changes nothing. */
  lemma MilestoneStatusLastWins(roadmap: seq<Milestone>, milestoneId: string, s1: MilestoneStatus, s2: MilestoneStatus)
    ensures SetMilestoneStatus(SetMilestoneStatus(roadmap, milestoneId, s1), milestoneId, s2) ==
            SetMilestoneStatus(roadmap, milestoneId, s2)
    ensures (forall k :: 0 <= k < |roadmap| && roadmap[k].id == milestoneId ==> roadmap[k].status == s1) ==>
            SetMilestoneStatus(roadmap, milestoneId, s1) == roadmap
  {
  }

  // ---------------------------------------------------------------------------
  // New task form
  // ---------------------------------------------------------------------------

  datatype TaskForm = TaskForm(
    name: string, description: string, dueDate: string, assigneeId: Option<string>,
    priority: Priority, estimatedTime: string)

  /** `handleCloseModal`: the form as it opens, preselecting the first assignable employee. */
  function ClearedForm(assignable: seq<User>): (f: TaskForm)
    ensures f.name == "" && f.description == "" && f.dueDate == "" && f.estimatedTime == ""
    ensures f.priority == Medium
    ensures f.assigneeId == if |assignable| > 0 then Some(assignable[0].id) else None
  {
    TaskForm("", "", "", if |assignable| > 0 then Some(assignable[0].id) else None, Medium, "")
  }

  /** `newTaskEstTime ? parseInt(newTaskEstTime, 10) : undefined` */
  function EstimatedHours(text: string): (r: Option<JsInt>)
    ensures text == "" <==> r.None?
  {
    if text == "" then None else Some(ParseInt(text, true))
  }

  /** `handleCreateTask`: the task handed to `createTask` (its id is the store's) and the
      form afterwards; a blank name or a missing project id sends nothing. */
  function CreateTask(projectId: Option<string>, form: TaskForm, assignable: seq<User>): (r: (Option<Task>, TaskForm))
    ensures r.0.None? <==> Blank(form.name) || !Truthy(projectId)
    ensures r.0.None? ==> r.1 == form
    ensures r.0.Some? ==> r.1 == ClearedForm(assignable)
    ensures r.0.Some? ==> var t := r.0.value;
      t.status == TaskStatus.ToDo && t.projectId == projectId.value && t.name == form.name &&
      t.description == Some(form.description) && t.dueDate == Some(form.dueDate) &&
      t.assigneeId == form.assigneeId && t.priority == Some(form.priority) &&
      t.estimatedTime == EstimatedHours(form.estimatedTime) &&
      t.notes.None? && t.dependency.None? && t.dependencyLogs.None?
  {
    if Blank(form.name) || !Truthy(projectId) then (None, form)
    else
      var t := Task("", form.name, Some(form.description), Some(form.dueDate), projectId.value,
                    form.assigneeId, TaskStatus.ToDo, Some(form.priority), None,
                    EstimatedHours(form.estimatedTime), None, None);
      (Some(t), ClearedForm(assignable))
  }

  /** A task created from the board starts outside any hold. */
  lemma CreatedTaskHoldConsistent(projectId: Option<string>, form: TaskForm, assignable: seq<User>)
    ensures var r := CreateTask(projectId, form, assignable);
      r.0.Some? ==> HoldConsistent(r.0.value) && r.0.value.status != TaskStatus.OnHold
  {
  }

  /** An estimate typed as a number is stored as that number. */
  lemma EstimatedHoursOfNumber(n: int)
    ensures EstimatedHours(IntToString(n)) == Some(Int(n))
  {
    ParseIntToString(n);
  }

  // ---------------------------------------------------------------------------
  // Access
  // ---------------------------------------------------------------------------

  /** `isAuthorized` */
  predicate IsAuthorized(user: Option<User>, project: Project) {
    (user.Some? && user.value.role == Admin) ||
    (user.Some? && user.value.role == Manager && user.value.id == project.managerId)
  }

  /** Admins see every project; a manager sees exactly the projects they manage; nobody
      else sees any. */
  lemma AuthorizedUsers(u: User, project: Project)
    ensures u.role == Admin ==> IsAuthorized(Some(u), project)
    ensures u.role == Manager ==> (IsAuthorized(Some(u), project) <==> u.id == project.managerId)
    ensures (u.role == Employee || u.role == HR) ==> !IsAuthorized(Some(u), project)
    ensures !IsAuthorized(None, project)
  {
  }
}
