/** An employee's own task list, components/tasks/EmployeeTasks.tsx: the status change
    with the rule that keeps a task with a dependency on hold, the search and filter
    selects, and the project choices of the filter. */
module EmployeeTasks {
  import opened Common
  import opened Records

  /** `allTasks.find(t => t.id === taskId)`: the first task with the id. */
  function FindTask(tasks: seq<Task>, taskId: string): (r: Option<Task>)
    ensures r.None? <==> forall t :: t in tasks ==> t.id != taskId
    ensures r.Some? ==>
      exists i :: 0 <= i < |tasks| && tasks[i] == r.value &&
        r.value.id == taskId && forall k :: 0 <= k < i ==> tasks[k].id != taskId
  {
    var i := FindIndex(tasks, (t: Task) => t.id == taskId);
    if i < 0 then None else Some(tasks[i])
  }

  /** The task the page knows is on hold because of a dependency. */
  predicate HeldByDependency(task: Option<Task>) {
    task.Some? && task.value.status == TaskStatus.OnHold && task.value.dependency.Some?
  }

  /** `handleStatusChange`: the update sent to the store, or `None` when the change would
      take a task with a dependency off hold. */
  function StatusChange(allTasks: seq<Task>, taskId: string, newStatus: TaskStatus): (r: Option<TaskPatch>)
    ensures r.None? <==> HeldByDependency(FindTask(allTasks, taskId)) && newStatus != TaskStatus.OnHold
    ensures r.Some? ==> r.value == NoTaskChange.(status := Some(newStatus))
  {
    if HeldByDependency(FindTask(allTasks, taskId)) && newStatus != TaskStatus.OnHold then None
    else Some(NoTaskChange.(status := Some(newStatus)))
  }

  /** A status change from this page never breaks the rule that a task with a dependency
      is on hold; an allowed change sets exactly the new status. */
  lemma StatusChangeKeepsHold(allTasks: seq<Task>, t: Task, newStatus: TaskStatus)
    requires HoldConsistent(t) && FindTask(allTasks, t.id) == Some(t)
    ensures var r := StatusChange(allTasks, t.id, newStatus);
      r.Some? ==> HoldConsistent(MergeTask(t, r.value)) && MergeTask(t, r.value) == t.(status := newStatus)
    ensures t.dependency.Some? ==> (StatusChange(allTasks, t.id, newStatus).Some? <==> newStatus == TaskStatus.OnHold)
  {
  }

  /** The search box and the two selects of the list. */
  datatype TaskFilter = TaskFilter(searchTerm: string, project: Choice<string>, status: Choice<TaskStatus>)

  predicate Shows(f: TaskFilter, t: Task) {
    ContainsIgnoringCase(t.name, f.searchTerm) && f.project.Admits(t.projectId) && f.status.Admits(t.status)
  }

  /** `filteredTasks` */
  function FilteredTasks(allTasks: seq<Task>, f: TaskFilter): (r: seq<Task>)
    ensures forall t :: t in r <==>
      (t in allTasks && ContainsIgnoringCase(t.name, f.searchTerm) &&
       f.project.Admits(t.projectId) && f.status.Admits(t.status))
  {
    Filter(allTasks, (t: Task) => Shows(f, t))
  }

  /** With an empty search and both selects on 'all', the whole list shows, in order. */
  lemma UnfilteredShowsAll(allTasks: seq<Task>)
    ensures FilteredTasks(allTasks, TaskFilter("", All, All)) == allTasks
  {
    forall t: Task ensures Shows(TaskFilter("", All, All), t) {
      EmptySearchMatches(t.name);
    }
    FilterAll(allTasks, (t: Task) => Shows(TaskFilter("", All, All), t));
  }

  /** `allTasks.map(t => t.projectId)` */
  function ProjectIds(tasks: seq<Task>): (r: seq<string>)
    ensures |r| == |tasks| && forall k :: 0 <= k < |r| ==> r[k] == tasks[k].projectId
  {
    seq(|tasks|, k requires 0 <= k < |tasks| => tasks[k].projectId)
  }

  /** `uniqueProjectIds`: every project of the tasks, once each. */
  function UniqueProjectIds(tasks: seq<Task>): (r: seq<string>)
    ensures NoDuplicates(r)
    ensures forall p :: p in r <==> exists t :: t in tasks && t.projectId == p
  {
    var ids := ProjectIds(tasks);
    assert forall p :: p in ids <==> exists t :: t in tasks && t.projectId == p by {
      forall p ensures p in ids <==> exists t :: t in tasks && t.projectId == p {
        if exists t :: t in tasks && t.projectId == p {
          var t :| t in tasks && t.projectId == p;
          var k :| 0 <= k < |tasks| && tasks[k] == t;
          assert ids[k] == p;
        }
      }
    }
    Distinct(ids)
  }

  /** The page is for employees only. */
  predicate PageAllowed(user: Option<User>) {
    user.Some? && user.value.role == Employee
  }
}
