/** The post state machine and the edit lock (`packages/core/src/post-status.ts`). */
module PostLifecycle {
  import opened Wrappers
  import opened Permissions

  datatype PostStatus =
    | Idea | Draft | InternalReview | ClientReview | ChangesRequested | Approved | Scheduled
    | Publishing | Published | PartiallyPublished | Failed | Canceled

  datatype Actor = Human | System

  datatype Rule = Rule(from: PostStatus, to: PostStatus, permission: Option<Permission>, actor: Actor, voidsApprovals: bool)

  function HumanRule(from: PostStatus, to: PostStatus, p: Permission): Option<Rule> {
    Some(Rule(from, to, Some(p), Human, false))
  }

  function Reopening(from: PostStatus): Option<Rule> {
    Some(Rule(from, Draft, Some(PostUpdate), Human, true))
  }

  function SystemRule(from: PostStatus, to: PostStatus): Option<Rule> {
    Some(Rule(from, to, None, System, false))
  }

  /** The transition table. */
  function FindTransition(from: PostStatus, to: PostStatus): Option<Rule> {
    match from
    case Idea =>
      if to == Draft then HumanRule(from, to, PostUpdate) else Cancellation(from, to)
    case Draft =>
      if to == InternalReview then HumanRule(from, to, PostSubmitInternalReview) else Cancellation(from, to)
    case InternalReview =>
      if to == ChangesRequested then HumanRule(from, to, PostRequestChanges)
      else if to == ClientReview then HumanRule(from, to, PostSubmitClientReview)
      else if to == Approved then HumanRule(from, to, PostApproveInternal)
      else Cancellation(from, to)
    case ClientReview =>
      if to == ChangesRequested then HumanRule(from, to, PostRequestChanges)
      else if to == Approved then HumanRule(from, to, PostApproveClient)
      else Cancellation(from, to)
    case ChangesRequested =>
      if to == Draft then HumanRule(from, to, PostUpdate) else Cancellation(from, to)
    case Approved =>
      if to == Scheduled then HumanRule(from, to, PostSchedule)
      else if to == Draft then Reopening(from)
      else Cancellation(from, to)
    case Scheduled =>
      if to == Draft then Reopening(from)
      else if to == Publishing then SystemRule(from, to)
      else Cancellation(from, to)
    case Publishing =>
      if to == Published || to == PartiallyPublished || to == Failed then SystemRule(from, to) else None
    case Failed =>
      if to == Scheduled then HumanRule(from, to, PostRetryFailed) else Cancellation(from, to)
    case PartiallyPublished =>
      if to == Scheduled then HumanRule(from, to, PostRetryFailed) else Cancellation(from, to)
    case Published => None
    case Canceled => None
  }

  function Cancellation(from: PostStatus, to: PostStatus): Option<Rule> {
    if to == Canceled then HumanRule(from, to, PostCancelScheduled) else None
  }

  predicate SystemWritten(s: PostStatus) {
    s == Publishing || s == Published || s == PartiallyPublished || s == Failed
  }

  predicate Terminal(s: PostStatus) {
    s == Published || s == Canceled
  }

  predicate EditLocked(s: PostStatus) {
    s == Approved || s == Scheduled || s == Publishing || s == Published || s == PartiallyPublished || s == Canceled
  }

  datatype TransitionError = NoSuchTransition | SystemOnly

  function AssertTransition(from: PostStatus, to: PostStatus, actor: Actor): Result<Rule, TransitionError> {
    match FindTransition(from, to)
    case None => Err(NoSuchTransition)
    case Some(rule) => if rule.actor == System && actor != System then Err(SystemOnly) else Ok(rule)
  }

  // ---------------------------------------------------------------- the table against the lists beside it

  /** A system-written status is entered by the system only, and the system enters nothing else. */
  lemma SystemWritesExactly(from: PostStatus, to: PostStatus)
    requires FindTransition(from, to).Some?
    ensures
      var rule := FindTransition(from, to).value;
      && rule.from == from && rule.to == to
      && (rule.actor == System <==> SystemWritten(to))
      && (rule.actor == System <==> rule.permission.None?)
  {
  }

  /** What the worker may write, besides what people may: into publishing from the schedule, and out of it. */
  lemma WorkerEdges(from: PostStatus, to: PostStatus)
    ensures AssertTransition(from, to, System).Ok? <==>
      || AssertTransition(from, to, Human).Ok?
      || (from == Scheduled && to == Publishing)
      || (from == Publishing && (to == Published || to == PartiallyPublished || to == Failed))
    ensures AssertTransition(from, to, Human).Ok? ==> !SystemWritten(from) || from == PartiallyPublished || from == Failed
  {
  }

  /** The terminal statuses are exactly those with no way out. */
  lemma TerminalIffNoExit(from: PostStatus)
    ensures Terminal(from) <==> forall to :: FindTransition(from, to).None?
  {
    if !Terminal(from) {
      assert FindTransition(from, Canceled).Some? || FindTransition(from, Published).Some?;
    }
  }

  /** Approvals are voided exactly when a post leaves the edit lock, but for a publish that failed. */
  lemma VoidsIffUnlocks(from: PostStatus, to: PostStatus)
    requires FindTransition(from, to).Some?
    ensures FindTransition(from, to).value.voidsApprovals <==>
      EditLocked(from) && !EditLocked(to) && !(from == Publishing && to == Failed)
  {
  }

  // ---------------------------------------------------------------- approval

  /** Statuses reached only through an approval that still stands. */
  predicate PastApproval(s: PostStatus) {
    s == Approved || s == Scheduled || SystemWritten(s)
  }

  /** Past approval is entered by approval only, and left only by a cancellation or a reopening. */
  lemma ApprovalGuards(from: PostStatus, to: PostStatus, actor: Actor)
    requires AssertTransition(from, to, actor).Ok?
    ensures from != Canceled
    ensures PastApproval(to) && to != Approved ==> PastApproval(from)
    ensures AssertTransition(from, to, actor).value.voidsApprovals <==> PastApproval(from) && !PastApproval(to) && to != Canceled
  {
  }
}
