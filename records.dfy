/** The entities of the application (types.ts) and the `{ ...record, ...updates }` merge
    that every update of the record store and of the credential table performs.

    A `Partial<T>` update is a patch with one `Option` per field: `None` means the key is
    absent from the update object and the field is kept. For a field that is itself
    optional the patch holds `Option<Option<U>>`, because `{ key: undefined }` (which is
    `Some(None)`) overwrites the field while an absent key does not. */
module Records {
  import opened Common

  datatype Role = Admin | Manager | Employee | HR

  datatype TaskStatus = ToDo | InProgress | OnHold | Completed

  datatype MilestoneStatus = Pending | InProgress | Completed

  datatype OnboardingStatus = PendingReview | InProgress | Completed

  datatype StepStatus = Pending | Completed

  datatype Priority = Low | Medium | High

  datatype Company = Company(id: string, name: string, ownerId: string, createdAt: string)

  datatype Department = Department(id: string, name: string, companyId: string)

  datatype Milestone = Milestone(
    id: string, name: string, description: string,
    startDate: string, endDate: string, status: MilestoneStatus)

  datatype Project = Project(
    id: string, name: string, description: Option<string>, managerId: string,
    departmentIds: seq<string>, deadline: Option<string>, priority: Option<Priority>,
    estimatedTime: Option<JsInt>, companyId: string, roadmap: Option<seq<Milestone>>)

  /** The person a task is waiting for, and why. */
  datatype Dependency = Dependency(userId: string, reason: string)

  /** Times (`timestamp`, `completedAt`) are the milliseconds `new Date(iso).getTime()`
      gives for the ISO string the source stores. */
  datatype Note = Note(id: string, authorId: string, content: string, timestamp: int)

  datatype LogAction = Set | Cleared

  datatype DependencyLog = DependencyLog(
    authorId: string, action: LogAction, reason: Option<string>,
    dependencyOnUserId: Option<string>, timestamp: int)

  datatype Task = Task(
    id: string, name: string, description: Option<string>, dueDate: Option<string>,
    projectId: string, assigneeId: Option<string>, status: TaskStatus,
    priority: Option<Priority>, notes: Option<seq<Note>>, estimatedTime: Option<JsInt>,
    dependency: Option<Dependency>, dependencyLogs: Option<seq<DependencyLog>>)
  {
    /** `task.notes || []` */
    function NoteList(): seq<Note> {
      notes.GetOr([])
    }

    /** `task.dependencyLogs || []` */
    function LogList(): seq<DependencyLog> {
      dependencyLogs.GetOr([])
    }
  }

  /** `Partial<Task>` */
  datatype TaskPatch = TaskPatch(
    id: Option<string>, name: Option<string>, description: Option<Option<string>>,
    dueDate: Option<Option<string>>, projectId: Option<string>,
    assigneeId: Option<Option<string>>, status: Option<TaskStatus>,
    priority: Option<Option<Priority>>, notes: Option<Option<seq<Note>>>,
    estimatedTime: Option<Option<JsInt>>, dependency: Option<Option<Dependency>>,
    dependencyLogs: Option<Option<seq<DependencyLog>>>)

  /** `{}` as a `Partial<Task>` */
  const NoTaskChange := TaskPatch(None, None, None, None, None, None, None, None, None, None, None, None)

  /** `{ ...task, ...updates }` */
  function MergeTask(t: Task, u: TaskPatch): Task {
    Task(
      u.id.GetOr(t.id), u.name.GetOr(t.name), u.description.GetOr(t.description),
      u.dueDate.GetOr(t.dueDate), u.projectId.GetOr(t.projectId),
      u.assigneeId.GetOr(t.assigneeId), u.status.GetOr(t.status), u.priority.GetOr(t.priority),
      u.notes.GetOr(t.notes), u.estimatedTime.GetOr(t.estimatedTime),
      u.dependency.GetOr(t.dependency), u.dependencyLogs.GetOr(t.dependencyLogs))
  }

  /** The invariant the design states for tasks: a task with a dependency is on hold.
      Only the call sites that set a dependency keep it; nothing in the store checks it. */
  predicate HoldConsistent(t: Task) {
    t.dependency.Some? ==> t.status == TaskStatus.OnHold
  }

  /** `Partial<Project>` */
  datatype ProjectPatch = ProjectPatch(
    id: Option<string>, name: Option<string>, description: Option<Option<string>>,
    managerId: Option<string>, departmentIds: Option<seq<string>>,
    deadline: Option<Option<string>>, priority: Option<Option<Priority>>,
    estimatedTime: Option<Option<JsInt>>, companyId: Option<string>,
    roadmap: Option<Option<seq<Milestone>>>)

  const NoProjectChange := ProjectPatch(None, None, None, None, None, None, None, None, None, None)

  /** `{ ...project, ...updates }` */
  function MergeProject(p: Project, u: ProjectPatch): Project {
    Project(
      u.id.GetOr(p.id), u.name.GetOr(p.name), u.description.GetOr(p.description),
      u.managerId.GetOr(p.managerId), u.departmentIds.GetOr(p.departmentIds),
      u.deadline.GetOr(p.deadline), u.priority.GetOr(p.priority),
      u.estimatedTime.GetOr(p.estimatedTime), u.companyId.GetOr(p.companyId),
      u.roadmap.GetOr(p.roadmap))
  }

  datatype ConversationKind = Direct | Group

  datatype ChatMessage = ChatMessage(
    id: string, conversationId: string, senderId: string, text: string, timestamp: int)

  datatype Conversation = Conversation(
    id: string, kind: ConversationKind, participantIds: seq<string>,
    name: Option<string>, adminIds: Option<seq<string>>, lastMessage: Option<ChatMessage>)

  datatype OnboardingStep = OnboardingStep(
    id: string, name: string, status: StepStatus,
    completedBy: Option<string>, completedAt: Option<int>)

  /** A value of the intake form: text inputs, the declaration checkbox, the graduation
      year and the language list. */
  datatype FieldValue = Text(text: string) | Flag(flag: bool) | Number(number: int) | List(items: seq<string>)

  /** The intake form's fields by input name (`email`, `fullName`, ..., `declaration`,
      `languagesKnown`); the form writes them as `[name]: value`. */
  type ApplicantForm = map<string, FieldValue>

  datatype OnboardingSubmission = OnboardingSubmission(
    id: string, submissionDate: string, status: OnboardingStatus,
    steps: Option<seq<OnboardingStep>>, applicant: ApplicantForm)

  /** `Partial<OnboardingSubmission>`; `applicant` holds the intake fields the update sets. */
  datatype SubmissionPatch = SubmissionPatch(
    id: Option<string>, submissionDate: Option<string>, status: Option<OnboardingStatus>,
    steps: Option<Option<seq<OnboardingStep>>>, applicant: ApplicantForm)

  /** `{ ...submission, ...updates }` */
  function MergeSubmission(s: OnboardingSubmission, u: SubmissionPatch): OnboardingSubmission {
    OnboardingSubmission(
      u.id.GetOr(s.id), u.submissionDate.GetOr(s.submissionDate), u.status.GetOr(s.status),
      u.steps.GetOr(s.steps), s.applicant + u.applicant)
  }

  datatype Presence = Active | Busy | Offline

  datatype Workload = Light | Normal | Heavy

  datatype UserStats = UserStats(
    completedTasks: int, inProgressTasks: int, efficiency: int, totalHours: int,
    workload: Workload)

  datatype Education = Education(id: string, degree: string, institution: string, yearOfCompletion: int)

  datatype User = User(
    id: string, name: string, email: string, role: Role,
    companyId: Option<string>, managerId: Option<string>, departmentIds: Option<seq<string>>,
    jobTitle: Option<string>, status: Option<Presence>, joinedDate: Option<string>,
    skills: Option<seq<string>>, stats: Option<UserStats>,
    education: Option<seq<Education>>, rating: Option<real>)

  /** `Partial<User>` */
  datatype UserPatch = UserPatch(
    id: Option<string>, name: Option<string>, email: Option<string>, role: Option<Role>,
    companyId: Option<Option<string>>, managerId: Option<Option<string>>,
    departmentIds: Option<Option<seq<string>>>, jobTitle: Option<Option<string>>,
    status: Option<Option<Presence>>, joinedDate: Option<Option<string>>,
    skills: Option<Option<seq<string>>>, stats: Option<Option<UserStats>>,
    education: Option<Option<seq<Education>>>, rating: Option<Option<real>>)

  const NoUserChange := UserPatch(None, None, None, None, None, None, None, None, None, None, None, None, None, None)

  /** `{ ...user, ...updates }` */
  function MergeUser(v: User, u: UserPatch): User {
    User(
      u.id.GetOr(v.id), u.name.GetOr(v.name), u.email.GetOr(v.email), u.role.GetOr(v.role),
      u.companyId.GetOr(v.companyId), u.managerId.GetOr(v.managerId),
      u.departmentIds.GetOr(v.departmentIds), u.jobTitle.GetOr(v.jobTitle),
      u.status.GetOr(v.status), u.joinedDate.GetOr(v.joinedDate), u.skills.GetOr(v.skills),
      u.stats.GetOr(v.stats), u.education.GetOr(v.education), u.rating.GetOr(v.rating))
  }
}
