/** The in-memory record store of services/dataService.ts: module-level arrays of
    companies, departments, projects, tasks, chat conversations and messages, onboarding
    submissions, and the attendance register. Creates put the new record in front
    (`unshift`), updates replace the first record with the id by the merged record, the
    task delete reassigns the table to a filtered copy, and a sent message is appended.

    Ids and times, which the source takes from `Date.now()` and `new Date()`, are
    parameters. */
module DataService {
  import opened Common
  import opened Records

  /** `DEFAULT_ONBOARDING_STEPS`: the onboarding checklist, in order. */
  const DefaultOnboardingSteps: seq<string> := [
    "Review Application",
    "Verify Documents",
    "Background Check",
    "Send Offer Letter",
    "Prepare Welcome Kit",
    "Assign Manager & Team",
    "Setup IT Accounts"
  ]

  /** One key of `ATTENDANCE_DATA`: a "YYYY-MM-DD" date and the ids of the users present. */
  datatype AttendanceDay = AttendanceDay(date: string, present: seq<string>)

  function TaskIndex(tasks: seq<Task>, id: string): int {
    FindIndex(tasks, (t: Task) => t.id == id)
  }

  function ProjectIndex(projects: seq<Project>, id: string): int {
    FindIndex(projects, (p: Project) => p.id == id)
  }

  function SubmissionIndex(submissions: seq<OnboardingSubmission>, id: string): int {
    FindIndex(submissions, (s: OnboardingSubmission) => s.id == id)
  }

  function ConversationIndex(conversations: seq<Conversation>, id: string): int {
    FindIndex(conversations, (c: Conversation) => c.id == id)
  }

  /** `TASKS.filter(t => t.id !== taskId)` */
  function WithoutTask(tasks: seq<Task>, id: string): seq<Task> {
    Filter(tasks, (t: Task) => t.id != id)
  }

  /** Deleting a task removes every task with that id, keeps every other task as often as
      it occurred, and changes nothing when no task has the id. */
  lemma WithoutTaskExact(tasks: seq<Task>, id: string)
    ensures forall t :: t in WithoutTask(tasks, id) <==> t in tasks && t.id != id
    ensures forall t: Task :: t.id != id ==> multiset(WithoutTask(tasks, id))[t] == multiset(tasks)[t]
    ensures (forall k :: 0 <= k < |tasks| ==> tasks[k].id != id) ==> WithoutTask(tasks, id) == tasks
  {
    var p := (t: Task) => t.id != id;
    forall t: Task | t.id != id ensures multiset(WithoutTask(tasks, id))[t] == multiset(tasks)[t] {
      FilterCount(tasks, p, t);
    }
    if forall k :: 0 <= k < |tasks| ==> tasks[k].id != id {
      FilterAll(tasks, p);
    }
  }

  /** `(t.assigneeId && ...) || !t.assigneeId`: an absent or empty assignee id is falsy. */
  predicate Unassigned(t: Task) {
    t.assigneeId.None? || t.assigneeId.value == ""
  }

  /** The conversation `getOrCreateDirectConversation` looks for. */
  predicate IsDirectBetween(c: Conversation, userId1: string, userId2: string) {
    c.kind == Direct && |c.participantIds| == 2 &&
    userId1 in c.participantIds && userId2 in c.participantIds
  }

  function DirectIndex(conversations: seq<Conversation>, userId1: string, userId2: string): int {
    FindIndex(conversations, (c: Conversation) => IsDirectBetween(c, userId1, userId2))
  }

  /** The conversation a first `getOrCreateDirectConversation` creates. */
  function NewDirect(id: string, userId1: string, userId2: string): Conversation {
    Conversation(id, Direct, [userId1, userId2], None, None, None)
  }

  /** A second `getOrCreateDirectConversation` for the same pair, in either order, finds
      the conversation the first one created: it is the first record of the table. */
  lemma DirectConversationReused(conversations: seq<Conversation>, id: string, userId1: string, userId2: string)
    ensures DirectIndex([NewDirect(id, userId1, userId2)] + conversations, userId1, userId2) == 0
    ensures DirectIndex([NewDirect(id, userId1, userId2)] + conversations, userId2, userId1) == 0
  {
    var c := NewDirect(id, userId1, userId2);
    assert c.participantIds[0] == userId1 && c.participantIds[1] == userId2;
    assert ([c] + conversations)[0] == c;
  }

  /** The participants of a new group: `[...new Set([creatorId, ...memberIds])]`. */
  function GroupParticipants(creatorId: string, memberIds: seq<string>): seq<string> {
    Distinct([creatorId] + memberIds)
  }

  /** A new group lists its creator first, then every member, each participant once,
      and nobody else. */
  lemma GroupParticipantsExact(creatorId: string, memberIds: seq<string>)
    ensures var p := GroupParticipants(creatorId, memberIds);
      |p| > 0 && p[0] == creatorId && NoDuplicates(p) &&
      (forall m :: m in memberIds ==> m in p) &&
      (forall x :: x in p ==> x == creatorId || x in memberIds)
  {
    DistinctHead([creatorId] + memberIds);
  }

  /** `` `${year}-${(month + 1).toString().padStart(2, '0')}` `` */
  function MonthPrefix(year: int, month: int): string {
    IntToString(year) + "-" + PadStart2(IntToString(month + 1))
  }

  /** The dates, in key order, that start with `prefix` and list `userId` as present. */
  function PresentDates(days: seq<AttendanceDay>, userId: string, prefix: string): seq<string> {
    if |days| == 0 then []
    else
      var before := PresentDates(days[..|days| - 1], userId, prefix);
      var last := days[|days| - 1];
      if StartsWith(last.date, prefix) && userId in last.present then before + [last.date] else before
  }

  /** A date is reported exactly when some day of the register has that date, the date
      starts with the month prefix and the user is listed as present on it. */
  lemma {:induction false} PresentDatesExact(days: seq<AttendanceDay>, userId: string, prefix: string, d: string)
    ensures d in PresentDates(days, userId, prefix) <==>
      exists k :: 0 <= k < |days| && days[k].date == d && StartsWith(d, prefix) && userId in days[k].present
  {
    if |days| > 0 {
      var init := days[..|days| - 1];
      PresentDatesExact(init, userId, prefix, d);
      assert forall k :: 0 <= k < |init| ==> init[k] == days[k];
      if exists k :: 0 <= k < |days| && days[k].date == d && StartsWith(d, prefix) && userId in days[k].present {
        var k :| 0 <= k < |days| && days[k].date == d && StartsWith(d, prefix) && userId in days[k].present;
        if k < |init| {
          assert init[k] == days[k];
        }
      }
    }
  }

  class DataStore {
    var companies: seq<Company>
    var departments: seq<Department>
    var projects: seq<Project>
    var tasks: seq<Task>
    var conversations: seq<Conversation>
    var messages: seq<ChatMessage>
    var submissions: seq<OnboardingSubmission>
    var attendance: seq<AttendanceDay>

    /** The store with its seed tables. */
    constructor (companies: seq<Company>, departments: seq<Department>, projects: seq<Project>,
                 tasks: seq<Task>, conversations: seq<Conversation>, messages: seq<ChatMessage>,
                 submissions: seq<OnboardingSubmission>, attendance: seq<AttendanceDay>)
      ensures this.companies == companies && this.departments == departments
      ensures this.projects == projects && this.tasks == tasks
      ensures this.conversations == conversations && this.messages == messages
      ensures this.submissions == submissions && this.attendance == attendance
    {
      this.companies := companies;
      this.departments := departments;
      this.projects := projects;
      this.tasks := tasks;
      this.conversations := conversations;
      this.messages := messages;
      this.submissions := submissions;
      this.attendance := attendance;
    }

    /** `createCompany` */
    method CreateCompany(id: string, name: string, ownerId: string, createdAt: string) returns (c: Company)
      modifies this`companies
      ensures c.id == id && c.name == name && c.ownerId == ownerId && c.createdAt == createdAt
      ensures companies == [c] + old(companies)
    {
      c := Company(id, name, ownerId, createdAt);
      companies := [c] + companies;
    }

    /** `createDepartment` */
    method CreateDepartment(id: string, name: string, companyId: string) returns (d: Department)
      modifies this`departments
      ensures d.id == id && d.name == name && d.companyId == companyId
      ensures departments == [d] + old(departments)
    {
      d := Department(id, name, companyId);
      departments := [d] + departments;
    }

    /** `createProject`: copies the listed fields of the form; the new project has no roadmap. */
    method CreateProject(id: string, name: string, description: string, managerId: string,
                         departmentIds: seq<string>, deadline: Option<string>,
                         priority: Option<Priority>, estimatedTime: Option<JsInt>,
                         companyId: string) returns (p: Project)
      modifies this`projects
      ensures p == Project(id, name, Some(description), managerId, departmentIds, deadline,
                           priority, estimatedTime, companyId, None)
      ensures projects == [p] + old(projects)
    {
      p := Project(id, name, Some(description), managerId, departmentIds, deadline,
                   priority, estimatedTime, companyId, None);
      projects := [p] + projects;
    }

    /** `updateProject` */
    method UpdateProject(projectId: string, updates: ProjectPatch) returns (r: Option<Project>)
      modifies this`projects
      ensures var i := ProjectIndex(old(projects), projectId);
        if i < 0 then r == None && projects == old(projects)
        else r == Some(MergeProject(old(projects)[i], updates)) && projects == old(projects)[i := r.value]
    {
      var i := ProjectIndex(projects, projectId);
      if i > -1 {
        projects := projects[i := MergeProject(projects[i], updates)];
        r := Some(projects[i]);
      } else {
        r := None;
      }
    }

    /** `createTask`: the draft's fields under a fresh id. */
    method CreateTask(id: string, draft: Task) returns (t: Task)
      modifies this`tasks
      ensures t == draft.(id := id)
      ensures tasks == [t] + old(tasks)
    {
      t := draft.(id := id);
      tasks := [t] + tasks;
    }

    /** `updateTask` */
    method UpdateTask(taskId: string, updates: TaskPatch) returns (r: Option<Task>)
      modifies this`tasks
      ensures var i := TaskIndex(old(tasks), taskId);
        if i < 0 then r == None && tasks == old(tasks)
        else r == Some(MergeTask(old(tasks)[i], updates)) && tasks == old(tasks)[i := r.value]
    {
      var i := TaskIndex(tasks, taskId);
      if i > -1 {
        tasks := tasks[i := MergeTask(tasks[i], updates)];
        r := Some(tasks[i]);
      } else {
        r := None;
      }
    }

    /** `deleteTask` */
    method DeleteTask(taskId: string)
      modifies this`tasks
      ensures tasks == WithoutTask(old(tasks), taskId)
    {
      tasks := WithoutTask(tasks, taskId);
    }

    /** `getTasksByTeam`: the unassigned tasks and those assigned to a team member. */
    function GetTasksByTeam(teamMemberIds: seq<string>): (r: seq<Task>)
      reads this
      ensures forall t :: t in r <==> t in tasks && (Unassigned(t) || t.assigneeId.value in teamMemberIds)
    {
      Filter(tasks, (t: Task) => Unassigned(t) || t.assigneeId.value in teamMemberIds)
    }

    /** `getAttendanceForUserByMonth`: the loop over the register's keys; `month` counts
        from 0 as in `Date.prototype.getMonth`. */
    method GetAttendanceForUserByMonth(userId: string, year: int, month: int) returns (presentDates: seq<string>)
      ensures presentDates == PresentDates(attendance, userId, MonthPrefix(year, month))
    {
      var monthString := PadStart2(IntToString(month + 1));
      var prefix := IntToString(year) + "-" + monthString;
      presentDates := [];
      var i := 0;
      while i < |attendance|
        invariant 0 <= i <= |attendance|
        invariant presentDates == PresentDates(attendance[..i], userId, prefix)
      {
        var day := attendance[i];
        assert attendance[..i + 1][..i] == attendance[..i];
        if StartsWith(day.date, prefix) {
          if userId in day.present {
            presentDates := presentDates + [day.date];
          }
        }
        i := i + 1;
      }
      assert attendance[..i] == attendance;
    }

    /** `sendMessage`: appends the message and makes it the conversation's last message. */
    method SendMessage(id: string, conversationId: string, senderId: string, text: string, timestamp: int)
      returns (m: ChatMessage)
      modifies this`messages, this`conversations
      ensures m == ChatMessage(id, conversationId, senderId, text, timestamp)
      ensures messages == old(messages) + [m]
      ensures var i := ConversationIndex(old(conversations), conversationId);
        if i < 0 then conversations == old(conversations)
        else conversations == old(conversations)[i := old(conversations)[i].(lastMessage := Some(m))]
    {
      m := ChatMessage(id, conversationId, senderId, text, timestamp);
      messages := messages + [m];
      var i := ConversationIndex(conversations, conversationId);
      if i > -1 {
        conversations := conversations[i := conversations[i].(lastMessage := Some(m))];
      }
    }

    /** `createGroup` */
    method CreateGroup(id: string, groupName: string, memberIds: seq<string>, creatorId: string)
      returns (g: Conversation)
      modifies this`conversations
      ensures g == Conversation(id, Group, GroupParticipants(creatorId, memberIds),
                                Some(groupName), Some([creatorId]), None)
      ensures conversations == [g] + old(conversations)
    {
      g := Conversation(id, Group, GroupParticipants(creatorId, memberIds), Some(groupName), Some([creatorId]), None);
      conversations := [g] + conversations;
    }

    /** `getOrCreateDirectConversation` */
    method GetOrCreateDirectConversation(id: string, userId1: string, userId2: string)
      returns (c: Conversation)
      modifies this`conversations
      ensures IsDirectBetween(c, userId1, userId2)
      ensures var i := DirectIndex(old(conversations), userId1, userId2);
        if i >= 0 then c == old(conversations)[i] && conversations == old(conversations)
        else c == NewDirect(id, userId1, userId2) && conversations == [c] + old(conversations)
    {
      var i := DirectIndex(conversations, userId1, userId2);
      if i >= 0 {
        c := conversations[i];
      } else {
        c := NewDirect(id, userId1, userId2);
        conversations := [c] + conversations;
      }
    }

    /** `createOnboardingSubmission`: a new submission awaits review and has no checklist. */
    method CreateOnboardingSubmission(id: string, submissionDate: string, data: ApplicantForm)
      returns (s: OnboardingSubmission)
      modifies this`submissions
      ensures s.status == PendingReview && s.steps == None
      ensures s.id == id && s.submissionDate == submissionDate && s.applicant == data
      ensures submissions == [s] + old(submissions)
    {
      s := OnboardingSubmission(id, submissionDate, PendingReview, None, data);
      submissions := [s] + submissions;
    }

    /** `updateOnboardingSubmission` */
    method UpdateOnboardingSubmission(submissionId: string, updates: SubmissionPatch)
      returns (r: Option<OnboardingSubmission>)
      modifies this`submissions
      ensures var i := SubmissionIndex(old(submissions), submissionId);
        if i < 0 then r == None && submissions == old(submissions)
        else r == Some(MergeSubmission(old(submissions)[i], updates)) &&
             submissions == old(submissions)[i := r.value]
    {
      var i := SubmissionIndex(submissions, submissionId);
      if i > -1 {
        submissions := submissions[i := MergeSubmission(submissions[i], updates)];
        r := Some(submissions[i]);
      } else {
        r := None;
      }
    }
  }
}
