/** What an AI agent may do for a user (`packages/rbac/src/agent.ts`). */
module Agent {
  import opened Wrappers
  import opened Permissions
  import opened PostLifecycle

  datatype AgentScope = ReadScope | ContentScope | WorkflowScope | EngagementScope

  datatype Channel = Mcp | Copilot

  datatype Delegation = Delegation(channel: Channel, grantId: Option<string>, scopes: seq<AgentScope>, confirmedActionId: Option<string>)

  datatype AgentRefusal = OutsideAgentScope | AgentConfirmationRequired

  /** An identifier that is there, and not the empty string. */
  predicate Present(id: Option<string>) {
    id.Some? && id.value != ""
  }

  predicate ScopeGrants(scope: AgentScope, p: Permission) {
    match scope
    case ReadScope =>
      p in {OrgRead, WorkspaceRead, BrandRead, BrandVoiceRead, SocialAccountRead, PostRead, TaskRead,
            CommentReadInternal, MediaRead, AnalyticsRead, ReportExport, AiViewUsage}
    case ContentScope =>
      p in {PostCreate, PostUpdate, PostSubmitInternalReview, TaskCreate, TaskUpdate, CommentCreate,
            CommentResolve, MediaUpload, MediaUpdate, ReportGenerate, AiGenerate}
    case WorkflowScope =>
      p in {PostSubmitClientReview, PostApproveInternal, PostRequestChanges, PostSchedule, PostReschedule,
            PostPublishNow, PostCancelScheduled, PostRetryFailed}
    case EngagementScope => p in {MessageRead, CommentReadPublic, MessageReply, CommentReply}
  }

  predicate AgentScopeCovers(d: Delegation, p: Permission) {
    exists scope :: scope in d.scopes && ScopeGrants(scope, p)
  }

  predicate RequiresConfirmation(p: Permission) {
    p in {PostSubmitClientReview, PostApproveInternal, PostRequestChanges, PostSchedule, PostReschedule,
          PostPublishNow, PostCancelScheduled, PostRetryFailed}
  }

  function AgentDenial(d: Delegation, p: Permission): Option<AgentRefusal> {
    if !AgentScopeCovers(d, p) then Some(OutsideAgentScope)
    else if RequiresConfirmation(p) && !Present(d.confirmedActionId) then Some(AgentConfirmationRequired)
    else None
  }

  /** The status changes an agent may make without a confirmation. */
  predicate DirectTransition(from: PostStatus, to: PostStatus) {
    || (from == Idea && to == Draft)
    || (from == Draft && to == InternalReview)
    || (from == ChangesRequested && to == Draft)
  }

  /** What each scope alone lets an agent do; the workflow scope only what its user confirmed. */
  lemma ScopesGive(channel: Channel, grantId: Option<string>, confirmed: Option<string>, p: Permission)
    ensures AgentDenial(Delegation(channel, grantId, [ReadScope], confirmed), p).None? <==>
      p in {OrgRead, WorkspaceRead, BrandRead, BrandVoiceRead, SocialAccountRead, PostRead, TaskRead, CommentReadInternal,
            MediaRead, AnalyticsRead, ReportExport, AiViewUsage}
    ensures AgentDenial(Delegation(channel, grantId, [ContentScope], confirmed), p).None? <==>
      p in {PostCreate, PostUpdate, PostSubmitInternalReview, TaskCreate, TaskUpdate, CommentCreate, CommentResolve,
            MediaUpload, MediaUpdate, ReportGenerate, AiGenerate}
    ensures AgentDenial(Delegation(channel, grantId, [WorkflowScope], confirmed), p).None? <==>
      confirmed.Some? && confirmed.value != "" &&
      p in {PostSubmitClientReview, PostApproveInternal, PostRequestChanges, PostSchedule, PostReschedule, PostPublishNow,
            PostCancelScheduled, PostRetryFailed}
    ensures AgentDenial(Delegation(channel, grantId, [EngagementScope], confirmed), p).None? <==>
      p in {MessageRead, CommentReadPublic, MessageReply, CommentReply}
  {
    hide AgentDenial, ScopeGrants, RequiresConfirmation;
    OneScope(channel, grantId, ReadScope, confirmed, p);
    OneScope(channel, grantId, ContentScope, confirmed, p);
    OneScope(channel, grantId, WorkflowScope, confirmed, p);
    OneScope(channel, grantId, EngagementScope, confirmed, p);
    Listed(p);
  }

  lemma OneScope(channel: Channel, grantId: Option<string>, scope: AgentScope, confirmed: Option<string>, p: Permission)
    ensures AgentDenial(Delegation(channel, grantId, [scope], confirmed), p).None? <==>
      ScopeGrants(scope, p) && (RequiresConfirmation(p) ==> Present(confirmed))
  {
    hide ScopeGrants, RequiresConfirmation;
    assert scope in [scope];
  }

  lemma Listed(p: Permission)
    ensures ScopeGrants(ReadScope, p) <==>
      p in {OrgRead, WorkspaceRead, BrandRead, BrandVoiceRead, SocialAccountRead, PostRead, TaskRead, CommentReadInternal,
            MediaRead, AnalyticsRead, ReportExport, AiViewUsage}
    ensures ScopeGrants(ContentScope, p) <==>
      p in {PostCreate, PostUpdate, PostSubmitInternalReview, TaskCreate, TaskUpdate, CommentCreate, CommentResolve,
            MediaUpload, MediaUpdate, ReportGenerate, AiGenerate}
    ensures ScopeGrants(WorkflowScope, p) <==>
      p in {PostSubmitClientReview, PostApproveInternal, PostRequestChanges, PostSchedule, PostReschedule, PostPublishNow,
            PostCancelScheduled, PostRetryFailed}
    ensures ScopeGrants(EngagementScope, p) <==> p in {MessageRead, CommentReadPublic, MessageReply, CommentReply}
    ensures RequiresConfirmation(p) <==> ScopeGrants(WorkflowScope, p)
    ensures RequiresConfirmation(p) ==> !ScopeGrants(ReadScope, p) && !ScopeGrants(ContentScope, p) && !ScopeGrants(EngagementScope, p)
  {
  }

  /** More scopes cover what one of them does, and a permission that none covers is refused to every agent. */
  lemma ScopesAddUp(d: Delegation, p: Permission)
    ensures AgentDenial(d, p).None? <==>
      exists scope :: scope in d.scopes && AgentDenial(Delegation(d.channel, d.grantId, [scope], d.confirmedActionId), p).None?
  {
    hide ScopeGrants, RequiresConfirmation;
    forall scope | scope in d.scopes
      ensures AgentScopeCovers(Delegation(d.channel, d.grantId, [scope], d.confirmedActionId), p) <==> ScopeGrants(scope, p)
    {
      OneScope(d.channel, d.grantId, scope, d.confirmedActionId, p);
    }
  }

  /** The status changes that need no confirmation: towards review, and nothing else. */
  lemma DirectIsTowardsReview(from: PostStatus, to: PostStatus)
    ensures DirectTransition(from, to) <==>
      FindTransition(from, to).Some? && (to == Draft || to == InternalReview) && !FindTransition(from, to).value.voidsApprovals
  {
  }

  /** `e` has every scope of `d`, and its confirmation if `d` had one. */
  predicate AtLeast(e: Delegation, d: Delegation) {
    && (forall scope :: scope in d.scopes ==> scope in e.scopes)
    && (Present(d.confirmedActionId) ==> Present(e.confirmedActionId))
  }

  lemma {:induction false} MoreNeverDenies(d: Delegation, e: Delegation, p: Permission)
    requires AtLeast(e, d) && AgentDenial(d, p).None?
    ensures AgentDenial(e, p).None?
  {
    var scope :| scope in d.scopes && ScopeGrants(scope, p);
    assert scope in e.scopes;
  }
}
