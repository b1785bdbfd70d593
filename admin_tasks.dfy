/** The administrator's task page of components/tasks/AdminTasks.tsx: the four-way filter,
    the edit form with its department preselection and project choices, and the submit
    that creates or updates a task. */
module AdminTasks {
  import opened Common
  import opened Records
  import opened ProjectDetail

  const TitleAndProjectRequired := "Task Title and Project are required."

  // ---------------------------------------------------------------------------
  // filteredTasks
  // ---------------------------------------------------------------------------

  /** The search box and the project, assignee and status selects. */
  datatype AdminFilter = AdminFilter(
    searchTerm: string, project: Choice<string>, assignee: Choice<string>, status: Choice<TaskStatus>)

  /** `task.assigneeId === assigneeFilter`: an unassigned task matches only 'all'. */
  predicate AssigneeMatch(f: AdminFilter, t: Task) {
    f.assignee.All? || t.assigneeId == Some(f.assignee.choice)
  }

  predicate Shows(f: AdminFilter, t: Task) {
    (ContainsIgnoringCase(t.name, f.searchTerm) || ContainsIgnoringCase(t.description.GetOr(""), f.searchTerm)) &&
    f.project.Admits(t.projectId) && AssigneeMatch(f, t) && f.status.Admits(t.status)
  }

  /** `filteredTasks`: a task shows exactly when its name or description holds the search
      term, ignoring case, and each select admits it, in the order of the list. */
  function FilteredTasks(allTasks: seq<Task>, f: AdminFilter): (r: seq<Task>)
    ensures forall t :: t in r <==>
      (t in allTasks &&
       (ContainsIgnoringCase(t.name, f.searchTerm) || ContainsIgnoringCase(t.description.GetOr(""), f.searchTerm)) &&
       f.project.Admits(t.projectId) &&
       (f.assignee.All? || t.assigneeId == Some(f.assignee.choice)) &&
       f.status.Admits(t.status))
  {
    Filter(allTasks, (t: Task) => Shows(f, t))
  }

  /** With an empty search and every select on 'all', the whole list shows, in order. */
  lemma UnfilteredShowsAll(allTasks: seq<Task>)
    ensures FilteredTasks(allTasks, AdminFilter("", All, All, All)) == allTasks
  {
    forall t: Task ensures Shows(AdminFilter("", All, All, All), t) {
      EmptySearchMatches(t.name);
    }
    FilterAll(allTasks, (t: Task) => Shows(AdminFilter("", All, All, All), t));
  }

  // ---------------------------------------------------------------------------
  // The form
  // ---------------------------------------------------------------------------

  datatype AdminTaskForm = AdminTaskForm(
    name: string, description: string, dueDate: string, assigneeId: Option<string>,
    departmentId: string, projectId: string, status: TaskStatus, priority: Priority,
    estimatedTime: string, editing: Option<Task>)

  /** `resetForm` */
  const EmptyForm := AdminTaskForm("", "", "", None, "", "", TaskStatus.ToDo, Medium, "", None)

  function InDepartment(departmentId: string): Project -> bool {
    (p: Project) => departmentId in p.departmentIds
  }

  /** `availableProjects`: nothing until a department is chosen, then the projects of
      that department in order. */
  function AvailableProjects(allProjects: seq<Project>, departmentId: string): (r: seq<Project>)
    ensures departmentId == "" ==> r == []
    ensures departmentId != "" ==> forall p :: p in r <==> p in allProjects && departmentId in p.departmentIds
  {
    if departmentId == "" then [] else Filter(allProjects, InDepartment(departmentId))
  }

  /** `allProjects.find(p => p.id === task.projectId)`: the first project with the id. */
  function FindProject(allProjects: seq<Project>, projectId: string): (r: Option<Project>)
    ensures r.Some? ==>
      exists i :: 0 <= i < |allProjects| && allProjects[i] == r.value &&
        r.value.id == projectId && forall k :: 0 <= k < i ==> allProjects[k].id != projectId
    ensures r.None? <==> forall p :: p in allProjects ==> p.id != projectId
  {
    var i := FindIndex(allProjects, (p: Project) => p.id == projectId);
    if i < 0 then None
    else
      assert allProjects[i] in allProjects;
      Some(allProjects[i])
  }

  /** The department `handleOpenEditModal` preselects: the first one of the task's
      project, or `''` when the project is unknown or has none. */
  function EditDepartment(allProjects: seq<Project>, projectId: string): (d: string)
    ensures var p := FindProject(allProjects, projectId);
      d == (if p.Some? && |p.value.departmentIds| > 0 then p.value.departmentIds[0] else "")
  {
    var p := FindProject(allProjects, projectId);
    if p.Some? && |p.value.departmentIds| > 0 then p.value.departmentIds[0] else ""
  }

  /** After the preselection the project select offers the task's own project, unless
      that project's first department id is empty. */
  lemma EditOffersOwnProject(allProjects: seq<Project>, t: Task)
    requires var p := FindProject(allProjects, t.projectId);
      p.Some? && |p.value.departmentIds| > 0 && p.value.departmentIds[0] != ""
    ensures FindProject(allProjects, t.projectId).value in AvailableProjects(allProjects, EditDepartment(allProjects, t.projectId))
  {
  }

  /** `task.estimatedTime?.toString() || ''` */
  function EstimateText(e: Option<JsInt>): (r: string)
    ensures e.None? <==> r == ""
  {
    match e
    case None => ""
    case Some(Int(n)) => IntToString(n)
    case Some(NaN) => "NaN"
  }

  /** `handleOpenEditModal`: the task's values in the form. */
  function OpenEdit(allProjects: seq<Project>, t: Task): (f: AdminTaskForm)
    ensures f.editing == Some(t) && f.name == t.name && f.projectId == t.projectId
    ensures f.description == t.description.GetOr("") && f.dueDate == t.dueDate.GetOr("")
    ensures f.assigneeId == t.assigneeId && f.status == t.status && f.priority == t.priority.GetOr(Medium)
    ensures f.departmentId == EditDepartment(allProjects, t.projectId)
    ensures f.estimatedTime == EstimateText(t.estimatedTime)
  {
    AdminTaskForm(t.name, t.description.GetOr(""), t.dueDate.GetOr(""), t.assigneeId,
                  EditDepartment(allProjects, t.projectId), t.projectId, t.status,
                  t.priority.GetOr(Medium), EstimateText(t.estimatedTime), Some(t))
  }

  /** What `handleSubmit` asks of the store. */
  datatype TaskRequest =
    | Update(taskId: string, updates: TaskPatch)
    | Create(draft: Task)
    | Refused(message: string)

  /** `taskData`, laid over the edited task or made into a new task. */
  function TaskData(f: AdminTaskForm): TaskPatch {
    NoTaskChange.(name := Some(f.name), description := Some(Some(f.description)),
      dueDate := Some(Some(f.dueDate)), projectId := Some(f.projectId),
      assigneeId := Some(f.assigneeId), status := Some(f.status),
      priority := Some(Some(f.priority)), estimatedTime := Some(EstimatedHours(f.estimatedTime)))
  }

  /** `handleSubmit`: a blank title or no project is refused with nothing sent; otherwise
      the edited task is updated with every form field, or a new task is created from
      them (its id is the store's). */
  function Submit(f: AdminTaskForm): (r: TaskRequest)
    ensures r.Refused? <==> Blank(f.name) || f.projectId == ""
    ensures r.Refused? ==> r.message == TitleAndProjectRequired
    ensures r.Update? <==> !Blank(f.name) && f.projectId != "" && f.editing.Some?
    ensures r.Update? ==> r.taskId == f.editing.value.id && r.updates == TaskData(f)
    ensures r.Create? ==>
      (r.draft.name == f.name && r.draft.description == Some(f.description) &&
       r.draft.dueDate == Some(f.dueDate) && r.draft.projectId == f.projectId &&
       r.draft.assigneeId == f.assigneeId && r.draft.status == f.status &&
       r.draft.priority == Some(f.priority) && r.draft.estimatedTime == EstimatedHours(f.estimatedTime) &&
       r.draft.notes.None? && r.draft.dependency.None? && r.draft.dependencyLogs.None?)
  {
    if Blank(f.name) || f.projectId == "" then Refused(TitleAndProjectRequired)
    else if f.editing.Some? then Update(f.editing.value.id, TaskData(f))
    else Create(MergeTask(Task("", "", None, None, "", None, TaskStatus.ToDo, None, None, None, None, None), TaskData(f)))
  }

  /** Every field the form holds reaches the task, notes and dependency aside, which an
      update keeps. */
  lemma SubmitSetsFields(f: AdminTaskForm, t: Task)
    requires f.editing == Some(t) && !Blank(f.name) && f.projectId != ""
    ensures var u := MergeTask(t, Submit(f).updates);
      u.id == t.id && u.name == f.name && u.description == Some(f.description) &&
      u.dueDate == Some(f.dueDate) && u.projectId == f.projectId && u.assigneeId == f.assigneeId &&
      u.status == f.status && u.priority == Some(f.priority) &&
      u.estimatedTime == EstimatedHours(f.estimatedTime) &&
      u.notes == t.notes && u.dependency == t.dependency && u.dependencyLogs == t.dependencyLogs
  {
  }

  /** Opening a task and saving it unchanged gives back the same task, when it already
      has a description, a due date, a priority and a whole-number estimate or none. */
  lemma EditRoundTrip(allProjects: seq<Project>, t: Task)
    requires !Blank(t.name) && t.projectId != ""
    requires t.description.Some? && t.dueDate.Some? && t.priority.Some?
    requires t.estimatedTime.None? || t.estimatedTime.value.Int?
    ensures MergeTask(t, Submit(OpenEdit(allProjects, t)).updates) == t
  {
    if t.estimatedTime.Some? {
      EstimatedHoursOfNumber(t.estimatedTime.value.value);
    }
  }

  /** Unlike the employee page, this form sets any status, so it can take a task that
      waits on a dependency off hold: the dependency stays while the status changes. */
  lemma EditCanLiftHold(t: Task, f: AdminTaskForm)
    requires t.dependency.Some? && t.status == TaskStatus.OnHold && HoldConsistent(t)
    requires f.editing == Some(t) && !Blank(f.name) && f.projectId != "" && f.status == TaskStatus.ToDo
    ensures !HoldConsistent(MergeTask(t, Submit(f).updates))
  {
  }

  /** The page is for administrators only. */
  predicate PageAllowed(user: Option<User>) {
    user.Some? && user.value.role == Admin
  }
}
