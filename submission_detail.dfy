/** The onboarding checklist of components/onboarding/SubmissionDetail.tsx. HR starts the
    process on a submission awaiting review, which attaches the seven default steps, all
    pending; each step is then ticked off, and the submission is completed exactly when
    every step is. Each handler sends one update record to the store; `Started` and
    `StepUpdated` are the submission the store then holds. */
module SubmissionDetail {
  import opened Common
  import opened Records
  import DataService

  /** `` `step-${index + 1}` `` */
  function StepId(index: nat): string {
    "step-" + NatToString(index + 1)
  }

  /** `DEFAULT_ONBOARDING_STEPS.map((name, index) => ...)` */
  function DefaultSteps(): seq<OnboardingStep> {
    seq(|DataService.DefaultOnboardingSteps|,
        i requires 0 <= i < |DataService.DefaultOnboardingSteps| =>
          OnboardingStep(StepId(i), DataService.DefaultOnboardingSteps[i], StepStatus.Pending, None, None))
  }

  /** The default checklist has seven steps with the ids "step-1" to "step-7", all
      different, named after the default steps in order, none of them completed. */
  lemma DefaultStepsShape()
    ensures |DefaultSteps()| == 7
    ensures forall i :: 0 <= i < 7 ==>
      DefaultSteps()[i].id == StepId(i) &&
      DefaultSteps()[i].name == DataService.DefaultOnboardingSteps[i] &&
      DefaultSteps()[i].status == StepStatus.Pending &&
      DefaultSteps()[i].completedBy.None? && DefaultSteps()[i].completedAt.None?
    ensures forall i, j :: 0 <= i < j < 7 ==> DefaultSteps()[i].id != DefaultSteps()[j].id
  {
    forall i, j | 0 <= i < j < 7 ensures DefaultSteps()[i].id != DefaultSteps()[j].id {
      if DefaultSteps()[i].id == DefaultSteps()[j].id {
        assert StepId(i)[5..] == NatToString(i + 1);
        assert StepId(j)[5..] == NatToString(j + 1);
        NatToStringInjective(i + 1, j + 1);
      }
    }
  }

  predicate AllCompleted(steps: seq<OnboardingStep>) {
    forall k :: 0 <= k < |steps| ==> steps[k].status == StepStatus.Completed
  }

  /** The update `handleStartOnboarding` sends. */
  const StartPatch := SubmissionPatch(None, None, Some(OnboardingStatus.InProgress), Some(Some(DefaultSteps())), map[])

  /** `handleStartOnboarding`: nothing is sent without a loaded submission and an id. */
  function StartRequest(submission: Option<OnboardingSubmission>, submissionId: Option<string>): (r: Option<SubmissionPatch>)
    ensures r.Some? <==> submission.Some? && Truthy(submissionId)
    ensures r.Some? ==> r.value.status == Some(OnboardingStatus.InProgress) && r.value.steps == Some(Some(DefaultSteps()))
  {
    if submission.None? || !Truthy(submissionId) then None else Some(StartPatch)
  }

  /** The submission once the start request is applied. */
  function Started(s: OnboardingSubmission): OnboardingSubmission {
    MergeSubmission(s, StartPatch)
  }

  /** `submission.steps.map(...)`: the step with the id is completed by the user at `now`. */
  function CompleteStep(steps: seq<OnboardingStep>, stepId: string, userId: string, now: int): (r: seq<OnboardingStep>)
    ensures |r| == |steps|
    ensures forall k :: 0 <= k < |r| && steps[k].id != stepId ==> r[k] == steps[k]
    ensures forall k :: 0 <= k < |r| && steps[k].id == stepId ==>
      r[k].id == stepId && r[k].name == steps[k].name && r[k].status == StepStatus.Completed &&
      r[k].completedBy == Some(userId) && r[k].completedAt == Some(now)
  {
    seq(|steps|, k requires 0 <= k < |steps| =>
      if steps[k].id == stepId
      then steps[k].(status := StepStatus.Completed, completedBy := Some(userId), completedAt := Some(now))
      else steps[k])
  }

  /** The update `handleUpdateStep` sends for the current steps. */
  function UpdateStepPatch(steps: seq<OnboardingStep>, stepId: string, userId: string, now: int): SubmissionPatch {
    var newSteps := CompleteStep(steps, stepId, userId, now);
    SubmissionPatch(None, None,
      Some(if AllCompleted(newSteps) then OnboardingStatus.Completed else OnboardingStatus.InProgress),
      Some(Some(newSteps)), map[])
  }

  /** `handleUpdateStep`: nothing is sent without a submission, its steps, a signed-in user
      and an id. */
  function UpdateStepRequest(submission: Option<OnboardingSubmission>, submissionId: Option<string>,
                             user: Option<User>, stepId: string, now: int): (r: Option<SubmissionPatch>)
    ensures r.Some? <==> submission.Some? && submission.value.steps.Some? && user.Some? && Truthy(submissionId)
    ensures r.Some? ==> r == Some(UpdateStepPatch(submission.value.steps.value, stepId, user.value.id, now))
  {
    if submission.None? || submission.value.steps.None? || user.None? || !Truthy(submissionId) then None
    else Some(UpdateStepPatch(submission.value.steps.value, stepId, user.value.id, now))
  }

  /** The submission once a step update is applied. */
  function StepUpdated(s: OnboardingSubmission, stepId: string, userId: string, now: int): OnboardingSubmission
    requires s.steps.Some?
  {
    MergeSubmission(s, UpdateStepPatch(s.steps.value, stepId, userId, now))
  }

  /** The lifecycle of a submission: awaiting review without a checklist, or under way with
      the seven-step checklist and completed exactly when every step is. */
  predicate Lifecycle(s: OnboardingSubmission) {
    (s.status == OnboardingStatus.PendingReview && s.steps.None?) ||
    (s.status != OnboardingStatus.PendingReview && s.steps.Some? && |s.steps.value| == 7 &&
     (s.status == OnboardingStatus.Completed <==> AllCompleted(s.steps.value)))
  }

  /** A new submission starts the lifecycle. */
  lemma CreatedInLifecycle(id: string, submissionDate: string, data: ApplicantForm)
    ensures Lifecycle(OnboardingSubmission(id, submissionDate, PendingReview, None, data))
  {
  }

  /** Starting puts the submission under way with a fresh checklist, keeping the
      applicant's data. */
  lemma StartEstablishes(s: OnboardingSubmission)
    ensures Started(s).status == OnboardingStatus.InProgress
    ensures Started(s).steps == Some(DefaultSteps())
    ensures Started(s).id == s.id && Started(s).applicant == s.applicant
    ensures Lifecycle(Started(s))
  {
    DefaultStepsShape();
    assert DefaultSteps()[0].status != StepStatus.Completed;
  }

  /** A step update keeps the lifecycle: the checklist keeps its length and the status is
      Completed exactly when every step is. */
  lemma StepUpdatePreserves(s: OnboardingSubmission, stepId: string, userId: string, now: int)
    requires Lifecycle(s) && s.steps.Some?
    ensures var t := StepUpdated(s, stepId, userId, now);
      Lifecycle(t) && |t.steps.value| == |s.steps.value| &&
      (t.status == OnboardingStatus.Completed <==> AllCompleted(t.steps.value))
  {
  }

  /** Once completed, a submission stays completed under any further step update. */
  lemma CompletedIsTerminal(s: OnboardingSubmission, stepId: string, userId: string, now: int)
    requires Lifecycle(s) && s.status == OnboardingStatus.Completed
    ensures StepUpdated(s, stepId, userId, now).status == OnboardingStatus.Completed
  {
    var r := CompleteStep(s.steps.value, stepId, userId, now);
    assert forall k :: 0 <= k < |r| ==> r[k].status == StepStatus.Completed by {
      forall k | 0 <= k < |r| ensures r[k].status == StepStatus.Completed {
        assert s.steps.value[k].status == StepStatus.Completed;
      }
    }
  }

  /** Ticking off a step that is already completed records the new completer and time
      instead of keeping the first ones. */
  lemma RecompletionRewrites(s: OnboardingSubmission, k: nat, userId: string, now: int)
    requires s.steps.Some? && k < |s.steps.value|
    requires s.steps.value[k].status == StepStatus.Completed
    ensures var t := StepUpdated(s, s.steps.value[k].id, userId, now);
      t.steps.value[k].completedBy == Some(userId) && t.steps.value[k].completedAt == Some(now)
  {
  }

  /** The start button shows only while the submission awaits review. */
  predicate CanStart(s: OnboardingSubmission) {
    s.status == OnboardingStatus.PendingReview
  }

  /** The checklist accepts updates until the submission is completed. */
  predicate CanUpdate(s: OnboardingSubmission) {
    s.status != OnboardingStatus.Completed
  }

  /** The page is for HR only. */
  predicate PageAllowed(user: Option<User>) {
    user.Some? && user.value.role == HR
  }

  /** Within the lifecycle, the start button shows exactly when there is no checklist yet,
      and the checklist takes updates exactly while some step is still pending. */
  lemma GatesFollowLifecycle(s: OnboardingSubmission)
    requires Lifecycle(s)
    ensures CanStart(s) <==> s.steps.None?
    ensures s.steps.Some? ==> (CanUpdate(s) <==> !AllCompleted(s.steps.value))
  {
  }
}
