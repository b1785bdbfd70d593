# Workspace core: record store, accounts and component rules

This project models the logic core of a company-workspace web application. Companies,
departments, projects, tasks, chat conversations and onboarding submissions live in an
in-memory record store. Users and their passwords live in an account table. A handful of
page components carry the lifecycle rules, the filters and the form validation of the
application. The model is written in Dafny, and each of its contracts is proved.

Modules, one per source file:

- `Common`: the JavaScript behaviour the code leans on. This covers `trim` with the JavaScript
  whitespace set, ASCII case mapping, `includes`, `split`/`join`, `parseInt`, `filter`,
  `findIndex`, and de-duplication through a `Set` in insertion order. It also holds
  `Option`/`Result`, and `Choice`, the `'all'`-or-a-value selects.
- `Records`: the entities of `types.ts`. Each `Partial<T>` update is a patch datatype with one
  optional value per field, and the `Merge*` functions lay a patch over a record as the
  object spread `{...old, ...updates}` does.
- `DataService`: `services/dataService.ts`. The module-level arrays are the fields of the
  class `DataStore`. Creates, updates, deletes and `sendMessage` are methods that reassign
  those fields. The getters are functions that read them.
- `AuthService`: `services/authService.ts`. The class `AuthStore` holds the user list, the
  email-to-password map and the signed-in user. Browser storage is not modelled; these three
  fields stand in for it.
- `SubmissionDetail`, `TaskDetail`, `EmployeeTasks`, `ProjectDetail`, `RoadmapBuilder`,
  `EducationSection`, `OnboardingForm`, `UserManagement`, `CreateGroupModal`, `ChatSidebar`
  and `AdminTasks`: the components. Each event handler is a function. It takes the state the
  component has loaded and the user's input, and returns the request it hands to a service,
  together with the component's next state. The one handler that changes an object in place,
  the education editor, is a class.
- `AvatarInitials`: the avatar-initials rule of the user page and the chat sidebar, in the
  form the code has it (the sidebar's copy puts a `$` between the letters) and in the
  corrected form. The sidebar's displays use the form the code has.

Ids, timestamps (milliseconds as `int`) and the current year are parameters. The page
guards (`PageAllowed`, `IsAuthorized`, `CanEdit`, `CanStart`, `CanCreateGroup`) are
predicates. The lemmas below state who passes them.

## Model

| member | source | states |
|---|---|---|
| DataService.DataStore.CreateCompany | services/dataService.ts:212-221 | The new company carries the given fields and is put in front of the table |
| DataService.DataStore.CreateDepartment | services/dataService.ts:232-240 | The new department carries the given fields and is put in front of the table |
| DataService.DataStore.CreateProject | services/dataService.ts:280-294 | The new project copies the form's fields, has no roadmap, and is put in front of the table |
| DataService.DataStore.UpdateProject | services/dataService.ts:296-303 | An unknown id returns nothing and leaves the table as it was; otherwise the first project with that id is replaced by the patch merged over it, every other index stays, and the merged project is returned |
| DataService.DataStore.CreateTask | services/dataService.ts:305-312 | The new task is the draft with the store's id, put in front of the table |
| DataService.DataStore.UpdateTask | services/dataService.ts:314-321 | The first task with the id gets the patch merged over it and nothing else changes; an unknown id returns nothing and leaves the table as it was |
| DataService.DataStore.DeleteTask | services/dataService.ts:323-325 | The table becomes the tasks whose id differs, in their order |
| DataService.WithoutTaskExact | services/dataService.ts:323-325 | Deleting drops exactly the tasks with that id, keeps every other task as often as before, and changes nothing when the id is absent |
| DataService.DataStore.GetTasksByTeam | services/dataService.ts:267-270 | A task is returned exactly when it is unassigned or its assignee is in the team |
| DataService.DataStore.GetAttendanceForUserByMonth | services/dataService.ts:332-343 | The dates collected are those of the records for the month (prefix `YYYY-MM`, month counted from zero) that list the user |
| DataService.PresentDatesExact | services/dataService.ts:332-343 | A date is returned exactly when some record has that date, starts with the month prefix and lists the user |
| DataService.DataStore.SendMessage | services/dataService.ts:360-375 | Exactly one message is appended to the log; the conversation with that id, if any, gets it as its last message and no other conversation changes |
| DataService.DataStore.CreateGroup | services/dataService.ts:377-387 | The new group has the creator as its only admin, the de-duplicated participant list and the given name, and is put in front of the table |
| DataService.GroupParticipantsExact | services/dataService.ts:377-387 | A group's participants start with the creator, hold each member, hold nobody else, and hold no one twice |
| DataService.DataStore.GetOrCreateDirectConversation | services/dataService.ts:389-408 | The first existing two-person direct conversation between the users is returned unchanged; otherwise a new one `[u1, u2]` is put in front |
| DataService.DirectConversationReused | services/dataService.ts:389-408 | After a direct conversation is created, asking again for the same pair, in either order, finds it |
| DataService.DataStore.CreateOnboardingSubmission | services/dataService.ts:419-428 | A new submission is pending review with no steps, holds the applicant's form, and is put in front of the table |
| DataService.DataStore.UpdateOnboardingSubmission | services/dataService.ts:430-436 | The first submission with the id gets the patch merged over it, nothing else changes, and an unknown id returns nothing |
| AuthService.UserWithEmail | services/authService.ts:192-194 | Finds a user with the email exactly when one exists, and it is the first such user in the list |
| AuthService.NewAccount | services/authService.ts:196-224 | A registered account copies the credentials and starts with the title `New Employee`, status `Active`, no skills and zeroed statistics |
| AuthService.Authenticate | services/authService.ts:272-285 | Sign-in succeeds exactly when a user has the email and the stored password for it matches, and yields the first such user |
| AuthService.RegisterEnablesLogin | services/authService.ts:189-225 | After a registration with a fresh email, signing in with that email and password yields the new account |
| AuthService.PasswordChangeSwitchesLogin | services/authService.ts:227-237 | After a password change the new password signs in and the old one no longer does |
| AuthService.DroppedPasswordBlocksLogin | services/authService.ts:259-269 | Once an email's password entry is removed, no password signs in with it |
| AuthService.AuthStore.Register | services/authService.ts:189-225 | A taken email is refused and nothing changes; otherwise the account is appended, its password stored and the account signed in |
| AuthService.AuthStore.UpdatePassword | services/authService.ts:227-237 | A wrong current password is refused first, a new password shorter than six is refused next, and only then is that one entry overwritten |
| AuthService.AuthStore.UpdateUser | services/authService.ts:239-257 | The first user with the id gets the patch merged over it and the others stay; the signed-in record is rewritten only when its id matches; an unknown id returns nothing and changes nothing |
| AuthService.AuthStore.DeleteUser | services/authService.ts:259-269 | Every user with the id is removed and the others are kept in order; the password entry goes only when such a user existed |
| AuthService.AuthStore.Login | services/authService.ts:272-285 | Succeeds exactly when `Authenticate` does and then signs that user in; a failure changes nothing |
| AuthService.AuthStore.Logout | services/authService.ts:287-289 | Clears the signed-in user and nothing else |
| AuthService.AuthStore.GetTeamMembers | services/authService.ts:305-308 | Exactly the employees whose manager is the given one |
| AuthService.AuthStore.GetManagers | services/authService.ts:310-312 | Exactly the users with the manager role |
| SubmissionDetail.DefaultStepsShape | services/dataService.ts:164-172 | The default checklist has seven pending steps `step-1` to `step-7`, named in the fixed order, with distinct ids |
| SubmissionDetail.StartRequest | components/onboarding/SubmissionDetail.tsx:39-53 | A start is sent only for a loaded submission with an id, and it sets the status in progress with the seven default steps |
| SubmissionDetail.StartEstablishes | components/onboarding/SubmissionDetail.tsx:39-53 | Starting keeps the submission's identity and applicant and puts it in the lifecycle invariant |
| SubmissionDetail.CompleteStep | components/onboarding/SubmissionDetail.tsx:58-65 | Only the steps with the id become completed, by this user at this time; the count and every other step stay |
| SubmissionDetail.UpdateStepRequest | components/onboarding/SubmissionDetail.tsx:55-75 | Nothing is sent when the submission, its steps, the user or the id is missing; otherwise the updated steps and their derived status |
| SubmissionDetail.CreatedInLifecycle | services/dataService.ts:419-428 | A newly created submission satisfies the lifecycle invariant |
| SubmissionDetail.StepUpdatePreserves | components/onboarding/SubmissionDetail.tsx:67-72 | A step update keeps the invariant: the status is completed exactly when every step is completed, and in progress otherwise |
| SubmissionDetail.CompletedIsTerminal | components/onboarding/SubmissionDetail.tsx:67-72 | Once completed, a submission stays completed whatever step is updated |
| SubmissionDetail.RecompletionRewrites | components/onboarding/SubmissionDetail.tsx:59-64 | Completing a step again records the new user and time |
| SubmissionDetail.GatesFollowLifecycle | components/onboarding/SubmissionDetail.tsx:77-79 | Start is offered exactly before any steps exist, and step updates exactly while some step is open |
| TaskDetail.PermissionsOfSignedInUser | components/tasks/TaskDetail.tsx:80-88 | Editing is for an administrator or the project's manager; status changes also for the assignee |
| TaskDetail.DependencyLocksStatus | components/tasks/TaskDetail.tsx:275 | A task waiting on a dependency has its status selector locked |
| TaskDetail.InsertByTime | components/tasks/TaskDetail.tsx:103 | Inserting an activity item adds exactly that item |
| TaskDetail.InsertSorted | components/tasks/TaskDetail.tsx:103 | Inserting into a time-sorted feed keeps it sorted |
| TaskDetail.SortByTime | components/tasks/TaskDetail.tsx:103 | The sort returns a time-ordered permutation of its input |
| TaskDetail.ActivityFeedExact | components/tasks/TaskDetail.tsx:90-104 | The feed is a permutation of the notes and the dependency logs, sorted by time ascending |
| TaskDetail.UpdateRequest | components/tasks/TaskDetail.tsx:107-111 | An update is sent as given exactly when the task id is present |
| TaskDetail.AddNote | components/tasks/TaskDetail.tsx:113-126 | A blank note, or no user or task, sends nothing and keeps the box; otherwise the trimmed note by the user is appended and the box is cleared |
| TaskDetail.AddNoteEffect | components/tasks/TaskDetail.tsx:113-126 | After the merge the task has its earlier notes followed by exactly the new one, and nothing else changes |
| TaskDetail.SetDependency | components/tasks/TaskDetail.tsx:128-152 | Refused when the person is empty, the reason blank or no user is signed in; otherwise it sets the dependency, puts the task on hold and appends one `set` log |
| TaskDetail.SetDependencyEffect | components/tasks/TaskDetail.tsx:134-149 | The merged task waits on the person for the reason as typed, is on hold, and keeps its earlier logs in order before the new `set` entry; every other field stays |
| TaskDetail.ClearDependency | components/tasks/TaskDetail.tsx:154-166 | Sent only when confirmed with a user and an id; it clears the dependency, sets the status to do, and appends one `cleared` log with no reason or person |
| TaskDetail.ClearDependencyEffect | components/tasks/TaskDetail.tsx:154-166 | The merged task has no dependency, is to do, and keeps its earlier logs before the new one |
| TaskDetail.SetThenClear | components/tasks/TaskDetail.tsx:128-166 | Setting then clearing a dependency leaves no dependency, status to do, and two more logs, `set` then `cleared` |
| EmployeeTasks.FindTask | components/tasks/EmployeeTasks.tsx:49 | Finds a task with the id exactly when one exists, and it is the first such task in the list |
| EmployeeTasks.StatusChange | components/tasks/EmployeeTasks.tsx:48-57 | A held task with a dependency cannot be moved off hold; in every other case the status becomes the new one |
| EmployeeTasks.StatusChangeKeepsHold | components/tasks/EmployeeTasks.tsx:48-57 | A task that waits on a dependency stays on hold through any employee status change |
| EmployeeTasks.FilteredTasks | components/tasks/EmployeeTasks.tsx:59-66 | A task shows exactly when its name holds the search term ignoring case and the project and status selects admit it |
| EmployeeTasks.UnfilteredShowsAll | components/tasks/EmployeeTasks.tsx:59-66 | With an empty search and both selects on all, every task shows, in order |
| EmployeeTasks.UniqueProjectIds | components/tasks/EmployeeTasks.tsx:68 | Holds each project id of the tasks exactly once, and nothing else |
| ProjectDetail.GroupByStatusExact | components/projects/ProjectDetail.tsx:74-82 | Each status's bucket holds exactly the tasks with that status, in input order |
| ProjectDetail.GroupByStatusKeys | components/projects/ProjectDetail.tsx:74-82 | A bucket exists exactly for the statuses some task has |
| ProjectDetail.GroupByStatusSizes | components/projects/ProjectDetail.tsx:74-82 | The bucket sizes add up to the number of tasks |
| ProjectDetail.SetMilestoneStatus | components/projects/ProjectDetail.tsx:125-132 | Only the milestones with the id get the new status; length, order and every other field stay |
| ProjectDetail.UpdateMilestoneRequest | components/projects/ProjectDetail.tsx:125-132 | Nothing is sent without a project and a roadmap; otherwise the roadmap with the status changed |
| ProjectDetail.MilestoneStatusLastWins | components/projects/ProjectDetail.tsx:125-132 | Of two status updates to a milestone the later wins, and setting the status it already has changes nothing |
| ProjectDetail.ClearedForm | components/projects/ProjectDetail.tsx:85-97 | The cleared task form is empty, at medium priority, with the first assignable user chosen |
| ProjectDetail.EstimatedHours | components/projects/ProjectDetail.tsx:111 | An empty estimate gives no estimate, any other text its `parseInt` value |
| ProjectDetail.EstimatedHoursOfNumber | components/projects/ProjectDetail.tsx:111 | The decimal text of a whole number parses back to that number |
| ProjectDetail.CreateTask | components/projects/ProjectDetail.tsx:99-116 | A blank name or no project creates nothing and keeps the form; otherwise a to-do task of this project with the form's fields, and the form is cleared |
| ProjectDetail.CreatedTaskHoldConsistent | components/projects/ProjectDetail.tsx:99-116 | A task created here never waits on a dependency |
| ProjectDetail.AuthorizedUsers | components/projects/ProjectDetail.tsx:160 | Administrators pass, managers pass exactly for their own project, everyone else and no user fail |
| RoadmapBuilder.Open | components/projects/RoadmapBuilderModal.tsx:18-22 | Opening loads the project's roadmap, or an empty list |
| RoadmapBuilder.AddMilestone | components/projects/RoadmapBuilderModal.tsx:24-34 | Appends one pending `New Milestone` with no description after the existing ones |
| RoadmapBuilder.RemoveMilestone | components/projects/RoadmapBuilderModal.tsx:36-38 | Exactly the milestones with another id remain |
| RoadmapBuilder.RemoveUndoesAdd | components/projects/RoadmapBuilderModal.tsx:24-38 | Removing a milestone just added, with an unused id, gives back the list |
| RoadmapBuilder.RemoveKeepsOthers | components/projects/RoadmapBuilderModal.tsx:36-38 | Every milestone with another id keeps its number of occurrences |
| RoadmapBuilder.ChangeMilestone | components/projects/RoadmapBuilderModal.tsx:40-42 | Only the milestones with the id are edited; ids, length and the others stay |
| RoadmapBuilder.EditChangesOneField | components/projects/RoadmapBuilderModal.tsx:40-42 | An edit sets the one field named and leaves every other field |
| RoadmapBuilder.FormatDateForInput | components/projects/RoadmapBuilderModal.tsx:48 | The result is the longest prefix before the first `T`, and empty for an empty date |
| RoadmapBuilder.FormatDateOfIso | components/projects/RoadmapBuilderModal.tsx:48 | An ISO timestamp gives its date part, and a bare date is kept |
| EducationSection.AddSkill | components/profile/sections/EducationSection.tsx:43-48 | The trimmed skill is appended and the box cleared only when it is non-blank and new; otherwise nothing changes |
| EducationSection.AddSkillKeepsList | components/profile/sections/EducationSection.tsx:43-48 | A list without repeats or empty skills keeps both properties, and grows by one exactly when the box is cleared |
| EducationSection.RemoveSkill | components/profile/sections/EducationSection.tsx:50-52 | Every occurrence of the skill goes and every other skill stays |
| EducationSection.RemoveUndoesAddSkill | components/profile/sections/EducationSection.tsx:43-52 | Removing a skill just added gives back the list |
| EducationSection.YearValueOfNumber | components/profile/sections/EducationSection.tsx:30-31 | The year field stores the number typed, and 0 for an empty box |
| EducationSection.Edited | components/profile/sections/EducationSection.tsx:27-33 | An edit changes the one field named, the year through `parseInt` or 0, and keeps the id |
| EducationSection.EducationEntry.constructor | components/profile/sections/EducationSection.tsx:35-38 | A new entry holds the given value |
| EducationSection.EducationEntry.Assign | components/profile/sections/EducationSection.tsx:31 | Writes the edit into the entry object in place |
| EducationSection.Values | components/profile/sections/EducationSection.tsx:14-16 | The values of the entries, one per entry |
| EducationSection.ValuesSnoc | components/profile/sections/EducationSection.tsx:14-16 | The values of a list with one more entry end with that entry's value |
| EducationSection.RemoveStep | components/profile/sections/EducationSection.tsx:39-41 | One step of the removal loop keeps the kept values equal to the filter of those seen |
| EducationSection.EducationEditor.constructor | components/profile/sections/EducationSection.tsx:14-16 | The editor starts from the saved education and skills with an empty skill box |
| EducationSection.EducationEditor.Cancel | components/profile/sections/EducationSection.tsx:22-25 | Cancel puts back the saved education and skill lists |
| EducationSection.EducationEditor.AddSkillToList | components/profile/sections/EducationSection.tsx:43-48 | The editor's skills and box follow `AddSkill` |
| EducationSection.EducationEditor.RemoveSkillFromList | components/profile/sections/EducationSection.tsx:50-52 | The editor's skills follow `RemoveSkill` |
| EducationSection.EducationEditor.AddEducation | components/profile/sections/EducationSection.tsx:35-38 | One new entry with an empty degree and institution and the current year is appended, the others kept |
| EducationSection.EducationEditor.RemoveEducation | components/profile/sections/EducationSection.tsx:39-41 | The entries left are exactly those with another id, in order |
| EducationSection.EducationEditor.ChangeEducationAsWritten | components/profile/sections/EducationSection.tsx:27-33 | As written: the list keeps the same entry objects and the edited one is changed in place |
| EducationSection.EducationEditor.ChangeEducation | components/profile/sections/EducationSection.tsx:27-33 | Corrected: the edited position gets a fresh entry with the edit applied, and every other entry stays |
| EducationSection.CancelKeepsEditAsWritten | components/profile/sections/EducationSection.tsx:22-33 | As written: an edit to the degree survives Cancel, because the saved record shares the entry |
| EducationSection.EditThenCancel | components/profile/sections/EducationSection.tsx:18-52 | Corrected: after any run of copying edits, added and removed entries and skill changes, Cancel restores the saved education values and skills, and Save then sends exactly those |
| OnboardingForm.InitialForm | components/onboarding/OnboardingForm.tsx:11-33 | The form starts with every field, gender `Male`, next year's graduation, the declaration unticked, no languages, and every other field empty |
| OnboardingForm.Change | components/onboarding/OnboardingForm.tsx:37-45 | Only the declaration checkbox stores a flag, every other input its text; the other fields stay |
| OnboardingForm.FileChange | components/onboarding/OnboardingForm.tsx:47-49 | Stores the chosen file's name, or empty text without a file; the other fields stay |
| OnboardingForm.ParseLanguages | components/onboarding/OnboardingForm.tsx:95-98 | Every language parsed is non-empty, trimmed and free of commas |
| OnboardingForm.ParseJoin | components/onboarding/OnboardingForm.tsx:95-98 | A list of languages shown in the box parses back to the same list |
| OnboardingForm.ParseLanguagesStable | components/onboarding/OnboardingForm.tsx:95-98 | Re-parsing the box's displayed text changes nothing |
| OnboardingForm.LanguagesChange | components/onboarding/OnboardingForm.tsx:95-98 | The languages field holds the parsed list and the other fields stay |
| OnboardingForm.Submit | components/onboarding/OnboardingForm.tsx:51-64 | A submission is sent exactly when the declaration is ticked, and then the error is cleared and the form marked submitted; otherwise the declaration error is shown |
| OnboardingForm.DeclarationGatesSubmit | components/onboarding/OnboardingForm.tsx:51-64 | The untouched form cannot be sent, and a form whose declaration box was last set unticked cannot either |
| OnboardingForm.TypingKeepsDeclaration | components/onboarding/OnboardingForm.tsx:37-45 | Typing in any other field leaves the declaration as it was |
| AvatarInitials.InitialsOfTwoWords | components/users/UserManagement.tsx:14-18 | As written, two words give their first letters, upper-cased, around the separator |
| AvatarInitials.InitialsOfOneWord | components/users/UserManagement.tsx:14-18 | As written, one word gives its first two characters upper-cased |
| AvatarInitials.LeadingSpaceAsWritten | components/users/UserManagement.tsx:14-18 | As written, a leading space makes the initials `UNDEFINEDA` |
| AvatarInitials.DollarAsWritten | components/chat/ChatSidebar.tsx:15-19 | As written, the sidebar shows `J$D` for `John Doe` |
| AvatarInitials.Words | components/users/UserManagement.tsx:15 | The words of a name are non-empty, hold no space and take their characters from the name |
| AvatarInitials.Initials | components/users/UserManagement.tsx:14-18 | Corrected: at most two upper-cased characters of the name, never a space, and with several words the first letters of the first and last word |
| AvatarInitials.InitialsAgree | components/users/UserManagement.tsx:14-18 | For a name with single spaces between words and none at its ends, the code's rule and the corrected one agree |
| UserManagement.FilteredUsers | components/users/UserManagement.tsx:193-199 | A user shows exactly when the name or email holds the search term ignoring case and the role select admits them |
| UserManagement.UnfilteredShowsAll | components/users/UserManagement.tsx:193-199 | With an empty search and the role select on all, every user shows, in order |
| UserManagement.DepartmentToggle | components/users/UserManagement.tsx:243-253 | The department's tick flips, every other department stays, and the list has no repeats |
| UserManagement.DepartmentToggleTwice | components/users/UserManagement.tsx:243-253 | Ticking twice restores the selection, and the same list when it had no repeats |
| UserManagement.ResetForm | components/users/UserManagement.tsx:201-211 | The empty employee form preselects the first manager and the first company |
| UserManagement.OpenEdit | components/users/UserManagement.tsx:218-229 | Editing loads the user's values with an empty password box |
| UserManagement.SubmitRequest | components/users/UserManagement.tsx:255-288 | An edit sends name, role, departments, company, manager and rating only; an add without a password is refused; otherwise the account is registered with the form's credentials |
| UserManagement.ManagerOnlyForEmployees | components/users/UserManagement.tsx:264-280 | The manager goes out only for an employee and is cleared for any other role |
| UserManagement.EditKeepsSignIn | components/users/UserManagement.tsx:259-266 | An edit never changes the user's id or email |
| UserManagement.EditRoundTrip | components/users/UserManagement.tsx:218-266 | Opening a user and saving without changes gives back the same user |
| UserManagement.SubmitNewUser | components/users/UserManagement.tsx:268-285 | Adding a user through `register` signs the new account in, replacing the administrator's session. It fails exactly when the email is taken, and then the account table and the session stay as they were |
| CreateGroupModal.MemberOptions | components/chat/CreateGroupModal.tsx:63 | Everyone but the current user is offered, each as often as listed |
| CreateGroupModal.MemberToggleOffered | components/chat/CreateGroupModal.tsx:21-29 | Toggling an offered member flips that tick, keeps the selection free of repeats, and never selects the current user |
| CreateGroupModal.Submit | components/chat/CreateGroupModal.tsx:31-47 | A blank name gives the name error, then an empty selection the member error; otherwise the untrimmed name, the selection and the creator are sent and the dialog reset |
| CreateGroupModal.CreatedGroupHasMembers | components/chat/CreateGroupModal.tsx:43-46 | A group made from the dialog lists the creator and then the ticked members, at least two people |
| ChatSidebar.OtherParticipant | components/chat/ChatSidebar.tsx:29 | Finds a participant other than the current user exactly when there is one, and it is the first such participant |
| ChatSidebar.FindUser | components/chat/ChatSidebar.tsx:30 | Finds a user with the id exactly when the id is given and some user has it, and it is the first such user in the list |
| ChatSidebar.ConversationDisplay | components/chat/ChatSidebar.tsx:25-32 | A group shows its name or `Group Chat`, with its first letter or `G`. A direct conversation shows the name of the listed user who is the first other participant, with the sidebar's `$` initials of that name; with no other participant, or one who is not listed, it shows `Unknown User` and `?` |
| ChatSidebar.DirectShowsPartner | components/chat/ChatSidebar.tsx:29-31 | A direct conversation with a listed person is titled with their name in either participant order |
| ChatSidebar.GroupCreators | components/chat/ChatSidebar.tsx:34 | Only administrators and managers may start a group |
| ChatSidebar.UsersTab | components/chat/ChatSidebar.tsx:67 | The users tab lists every user but the current one, and nobody else, each with the sidebar's `$` initials of their name |
| AdminTasks.FilteredTasks | components/tasks/AdminTasks.tsx:156-164 | A task shows exactly when its name or description holds the search term ignoring case and the project, assignee and status selects admit it |
| AdminTasks.UnfilteredShowsAll | components/tasks/AdminTasks.tsx:156-164 | With an empty search and every select on all, every task shows, in order |
| AdminTasks.AvailableProjects | components/tasks/AdminTasks.tsx:166-169 | No department offers no project; a department offers exactly its projects |
| AdminTasks.FindProject | components/tasks/AdminTasks.tsx:98 | Finds a project with the id exactly when one exists, and it is the first such project in the list |
| AdminTasks.EditDepartment | components/tasks/AdminTasks.tsx:98-103 | Editing preselects the first department of the task's project, or none |
| AdminTasks.EditOffersOwnProject | components/tasks/AdminTasks.tsx:90-109 | After the preselection the task's own project is among those offered |
| AdminTasks.EstimateText | components/tasks/AdminTasks.tsx:107 | The estimate box is empty exactly when the task has no estimate |
| AdminTasks.OpenEdit | components/tasks/AdminTasks.tsx:90-109 | Editing loads the task's values, with the preselected department |
| AdminTasks.Submit | components/tasks/AdminTasks.tsx:116-142 | A blank title or no project is refused; otherwise the edited task is updated, or a new task created, with every form field |
| AdminTasks.SubmitSetsFields | components/tasks/AdminTasks.tsx:116-142 | An update sets every form field on the task and keeps its id, notes and dependency |
| AdminTasks.EditRoundTrip | components/tasks/AdminTasks.tsx:90-142 | Opening a task and saving without changes gives back the same task |
| AdminTasks.EditCanLiftHold | components/tasks/AdminTasks.tsx:116-142 | This page can move a task off hold while it still waits on a dependency |

## Left out

- Rendering, styling, routing, layout, modals and `alert`. A `window.confirm` answer is the `confirmed` parameter of `TaskDetail.ClearDependency`.
- Browser storage and JSON serialisation in the account service. The users, the password map and the signed-in user are fields of `AuthStore` instead.
- Clocks and id sources (`Date.now()`, `new Date().toISOString()`). Ids and times are parameters, so the model does not assume them unique, just as the code does not ensure it.
- Timestamps are whole milliseconds. Date formatting and parsing, and the date arithmetic for a new milestone's dates, are left out.
- Case folding covers ASCII letters only, and string lengths count characters rather than UTF-16 code units.
- A select's `'all'` is the `All` choice. A real project, assignee or status literally named `all` would also match everything in the code; the model does not capture that.
- The `try`/`catch` around the service calls in the components is not modelled. Once the handlers' own checks pass, only one of these calls can fail: adding a user with a taken email on the users page, where `register` throws. The page then shows the message in an `alert` and neither reloads nor closes the dialog. `UserManagement.SubmitNewUser` returns the error and leaves the account table as it was; the alert and the open dialog are not modelled.
- Fields of `types.ts` that no modelled operation reads or decides on are not part of the records: a task's `category` and `tags`, and a user's `personalDetails`, `contactNumber`, `address`, `familyMembers`, `compensation` and `documents`. The record merges treat them like any other field, so leaving them out changes no contract.
- The user rating is a `real`. The percentage and progress figures of other pages are floating point and not part of this model.
- The `useEffect` loaders, the context wrappers and `getUserById`-style lookups are not modelled as separate members. They are the `find`-first helpers of the modules above.
- The components' page guards (`PageAllowed`) are predicates without a lemma of their own: the page is for administrators, HR, employees or administrators and HR, as each module says.
- EducationSection.Values: states the number of values only. The value of each entry is stated through `ValuesSnoc` and the methods that use it.
- The submitted-state screen of the onboarding form is not rendered. Only the `submitted` flag is modelled.

## Findings

| source | as written | input that shows it | evidently intended | confidence | as-written member | corrected member |
|---|---|---|---|---|---|---|
| components/users/UserManagement.tsx:14-18 | The name is split on each single space, so an empty piece makes `names[0][0]` undefined, which prints as `undefined` | `" Ann"` gives `UNDEFINEDA` | The first letters of the first and last words | not executed | AvatarInitials.LeadingSpaceAsWritten | AvatarInitials.Initials |
| components/chat/ChatSidebar.tsx:17 | The sidebar's copy of the rule puts a literal `$` between the two letters | `"John Doe"` gives `J$D` | `JD`, as on the user page | not executed | AvatarInitials.DollarAsWritten | AvatarInitials.Initials |
| components/profile/sections/EducationSection.tsx:27-33 | The array is copied but the entry is changed in place, and that entry is shared with the saved profile | Change the degree `BSc` to `MSc`, then Cancel: the degree stays `MSc` | Cancel restores the saved entry | not executed | EducationSection.CancelKeepsEditAsWritten | EducationSection.EditThenCancel |
