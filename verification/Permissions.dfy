/** The permission catalogue (`packages/rbac/src/permissions.ts`). */
module Permissions {
  datatype Permission =
    | OrgRead | OrgUpdate | OrgDelete | OrgTransferOwnership | OrgSuspend
    | MemberInvite | MemberList | MemberUpdateRole | MemberRemove | AuditRead
    | WorkspaceCreate | WorkspaceRead | WorkspaceUpdate | WorkspaceDelete | WorkspaceManageMembers
    | BrandCreate | BrandRead | BrandUpdate | BrandDelete | BrandVoiceRead | BrandVoiceUpdate
    | SocialAccountConnect | SocialAccountRead | SocialAccountReconnect | SocialAccountDisconnect
    | SocialCredentialReadPlaintext
    | PostCreate | PostRead | PostUpdate | PostDelete | PostAssign
    | TaskCreate | TaskRead | TaskUpdate | TaskDelete
    | PostSubmitInternalReview | PostApproveInternal | PostSubmitClientReview | PostApproveClient | PostRequestChanges
    | PostSchedule | PostReschedule | PostPublishNow | PostCancelScheduled | PostRetryFailed | PostDeletePublishedRemote
    | CommentCreate | CommentReadInternal | CommentResolve | CommentReadPublic | CommentReply
    | MessageRead | MessageReply | MessageReplyAi | AiAssistantManage
    | MediaUpload | MediaRead | MediaUpdate | MediaDelete
    | AnalyticsRead | ReportGenerate | ReportExport | AiGenerate | AiViewUsage
    | BillingRead | BillingManage
    | AdminViewJobs | AdminRetryJob | AdminViewSystemLogs | AdminImpersonate

  /** Operating the platform itself, rather than acting inside an organization. */
  predicate PlatformOnly(p: Permission) {
    p.OrgSuspend? || p.AdminViewJobs? || p.AdminRetryJob? || p.AdminViewSystemLogs? || p.AdminImpersonate?
  }

  /** What no principal may ever hold. */
  predicate Ungrantable(p: Permission) {
    p.SocialCredentialReadPlaintext?
  }
}
