/** The authorization decision (`packages/rbac/src/policy.ts`), for any role matrix. */
module Policy {
  import opened Wrappers
  import opened Permissions
  import opened PostLifecycle
  import opened Agent

  datatype Role = Owner | Admin | AccountManager | ContentCreator | OrgApprover | Client

  datatype WorkspaceRole = Manager | Contributor | Approver | ClientViewer | ClientApprover

  datatype MembershipStatus = Invited | Active | Suspended

  datatype GrantScope = OrgScope | WorkspaceScope | BrandScope | OwnScope

  datatype Grant = Grant(scope: GrantScope, statuses: Option<set<PostStatus>>, requiresEditable: bool, requiresApprovalRight: bool)

  type Matrix = (Role, Permission) -> Option<Grant>

  datatype WorkspaceGrant = WorkspaceGrant(workspaceId: string, role: WorkspaceRole)

  datatype BrandGrant = BrandGrant(brandId: string, canApprove: bool)

  datatype User = User(userId: string, isPlatformAdmin: bool, organizationRole: Role, membership: MembershipStatus,
                       workspaces: seq<WorkspaceGrant>, brands: seq<BrandGrant>, delegation: Option<Delegation>)

  datatype Principal = UserPrincipal(user: User) | SystemPrincipal(capabilities: set<Permission>)

  datatype Intent = EditIntent | TransitionIntent

  datatype Resource = Resource(workspaceId: Option<string>, brandId: Option<string>, createdById: Option<string>,
                               requiresClientApproval: Option<bool>, status: Option<PostStatus>, intent: Intent)

  datatype DenialReason =
    | NoGrant | UngrantableByAnyone | NotPlatformAdmin | MembershipInactive | OutsideWorkspace | OutsideBrand | NotOwner
    | StatusNotPermitted | EditLockedStatus | NoApprovalRight | MissingScopeInformation
    | RefusedToAgent(refusal: AgentRefusal) | AgentNotPermitted

  datatype Decision = AllowedBy(grant: Grant) | AllowedPlatform | AllowedSystem | Denied(reason: DenialReason)

  predicate Allowed(d: Decision) {
    !d.Denied?
  }

  predicate PlatformAdminGrant(p: Permission) {
    p in {OrgSuspend, AdminViewJobs, AdminRetryJob, AdminViewSystemLogs}
  }

  function DecidePlatform(isPlatformAdmin: bool, p: Permission): Decision {
    if Ungrantable(p) then Denied(UngrantableByAnyone)
    else if isPlatformAdmin && PlatformAdminGrant(p) then AllowedPlatform
    else Denied(NotPlatformAdmin)
  }

  /** The role a member has in a workspace; none for someone who is not a member. */
  function RoleIn(workspaces: seq<WorkspaceGrant>, id: string): Option<WorkspaceRole>
    decreases |workspaces|
  {
    if workspaces == [] then None
    else if workspaces[0].workspaceId == id then Some(workspaces[0].role)
    else RoleIn(workspaces[1..], id)
  }

  function AssignmentTo(brands: seq<BrandGrant>, id: string): Option<BrandGrant>
    decreases |brands|
  {
    if brands == [] then None
    else if brands[0].brandId == id then Some(brands[0])
    else AssignmentTo(brands[1..], id)
  }

  predicate OrgWide(u: User) {
    u.organizationRole == Owner || u.organizationRole == Admin
  }

  predicate MemberOf(u: User, r: Resource) {
    Present(r.workspaceId) && RoleIn(u.workspaces, r.workspaceId.value).Some?
  }

  predicate Approves(role: Option<WorkspaceRole>) {
    role == Some(Approver) || role == Some(Manager) || role == Some(ClientApprover)
  }

  /** Whether the grant reaches this resource. */
  function DecideScope(grant: Grant, u: User, r: Resource): Decision {
    match grant.scope
    case OrgScope => AllowedBy(grant)
    case WorkspaceScope =>
      if OrgWide(u) then AllowedBy(grant)
      else if !Present(r.workspaceId) then Denied(MissingScopeInformation)
      else if MemberOf(u, r) then AllowedBy(grant)
      else Denied(OutsideWorkspace)
    case BrandScope =>
      if OrgWide(u) then AllowedBy(grant)
      else if !Present(r.brandId) then Denied(MissingScopeInformation)
      else
        var assignment := AssignmentTo(u.brands, r.brandId.value);
        if assignment.Some? then
          if grant.requiresApprovalRight && !assignment.value.canApprove then Denied(NoApprovalRight) else AllowedBy(grant)
        else if !Present(r.workspaceId) then Denied(MissingScopeInformation)
        else if !MemberOf(u, r) then Denied(OutsideBrand)
        else if grant.requiresApprovalRight && !Approves(RoleIn(u.workspaces, r.workspaceId.value)) then Denied(NoApprovalRight)
        else AllowedBy(grant)
    case OwnScope =>
      if !Present(r.createdById) then Denied(MissingScopeInformation)
      else if r.createdById.value != u.userId then Denied(NotOwner)
      else if Present(r.workspaceId) && !OrgWide(u) && !MemberOf(u, r) then Denied(OutsideWorkspace)
      else AllowedBy(grant)
  }

  /** The user's own grants, once an agent's gate is passed. */
  function DecideMember(m: Matrix, u: User, p: Permission, r: Resource): Decision {
    if u.membership != Active then Denied(MembershipInactive)
    else match m(u.organizationRole, p)
      case None => Denied(NoGrant)
      case Some(grant) =>
        if grant.statuses.Some? && r.status.Some? && r.status.value !in grant.statuses.value then Denied(StatusNotPermitted)
        else if grant.requiresEditable && r.intent != TransitionIntent && r.status.Some? && EditLocked(r.status.value) then
          Denied(EditLockedStatus)
        else DecideScope(grant, u, r)
  }

  function DecideUser(m: Matrix, u: User, p: Permission, r: Resource): Decision {
    if u.delegation.Some? && PlatformOnly(p) then Denied(AgentNotPermitted)
    else if u.delegation.Some? && AgentDenial(u.delegation.value, p).Some? then
      Denied(RefusedToAgent(AgentDenial(u.delegation.value, p).value))
    else if PlatformOnly(p) then DecidePlatform(u.isPlatformAdmin, p)
    else DecideMember(m, u, p, r)
  }

  function Decide(m: Matrix, principal: Principal, p: Permission, r: Resource): Decision {
    if Ungrantable(p) then Denied(UngrantableByAnyone)
    else match principal
      case SystemPrincipal(capabilities) => if p in capabilities then AllowedSystem else Denied(NoGrant)
      case UserPrincipal(u) => DecideUser(m, u, p, r)
  }

  predicate Can(m: Matrix, principal: Principal, p: Permission, r: Resource) {
    Allowed(Decide(m, principal, p, r))
  }

  predicate CanSomewhere(m: Matrix, principal: Principal, p: Permission) {
    !Ungrantable(p) &&
    match principal
    case SystemPrincipal(capabilities) => p in capabilities
    case UserPrincipal(u) =>
      && !PlatformOnly(p)
      && (u.delegation.Some? ==> AgentScopeCovers(u.delegation.value, p))
      && u.membership == Active
      && m(u.organizationRole, p).Some?
  }

  // ---------------------------------------------------------------- an agent is its user, narrowed

  /** The same user with no agent in between. */
  function InPerson(u: User): User {
    u.(delegation := None)
  }

  function Through(u: User, d: Delegation): User {
    u.(delegation := Some(d))
  }

  /** Through an agent, a user may do what they may do in person and the delegation covers: no more, and no less. */
  lemma {:induction false} DelegationNarrowsExactly(m: Matrix, u: User, d: Delegation, p: Permission, r: Resource)
    ensures Can(m, UserPrincipal(Through(u, d)), p, r) <==>
      && Can(m, UserPrincipal(InPerson(u)), p, r) && !PlatformOnly(p)
      && AgentScopeCovers(d, p) && (RequiresConfirmation(p) ==> Present(d.confirmedActionId))
    ensures Can(m, UserPrincipal(Through(u, d)), p, r) ==>
      Decide(m, UserPrincipal(Through(u, d)), p, r) == Decide(m, UserPrincipal(InPerson(u)), p, r)
  {
    hide RoleIn, AssignmentTo, AgentScopeCovers, RequiresConfirmation;
    SameGrants(m, Through(u, d), InPerson(u), p, r);
  }

  /** The user's grants never look at the delegation. */
  lemma SameGrants(m: Matrix, u: User, v: User, p: Permission, r: Resource)
    requires InPerson(u) == InPerson(v)
    ensures DecideMember(m, u, p, r) == DecideMember(m, v, p, r)
  {
  }

  /** Another scope, or a confirmation, only ever adds. */
  lemma {:induction false} MoreDelegationOnlyAdds(m: Matrix, u: User, d: Delegation, e: Delegation, p: Permission, r: Resource)
    requires AtLeast(e, d) && Can(m, UserPrincipal(Through(u, d)), p, r)
    ensures Can(m, UserPrincipal(Through(u, e)), p, r)
  {
    hide AgentDenial, AtLeast, DecideMember;
    MoreNeverDenies(d, e, p);
    SameGrants(m, Through(u, d), Through(u, e), p, r);
  }

  /** What may be done to some resource may be done somewhere, but for the platform's own permissions. */
  lemma {:induction false} CanIsSomewhere(m: Matrix, principal: Principal, p: Permission, r: Resource)
    requires Can(m, principal, p, r)
    ensures CanSomewhere(m, principal, p) <==> principal.SystemPrincipal? || !PlatformOnly(p)
  {
    hide DecideScope, ScopeGrants, RequiresConfirmation;
  }

  /** Navigation offers a person what their role grants anywhere, and through an agent what its scopes cover of that. */
  lemma SomewhereIs(m: Matrix, u: User, d: Delegation, p: Permission)
    ensures CanSomewhere(m, UserPrincipal(InPerson(u)), p) <==>
      p != SocialCredentialReadPlaintext && !PlatformOnly(p) && u.membership == Active && m(u.organizationRole, p).Some?
    ensures CanSomewhere(m, UserPrincipal(Through(u, d)), p) <==>
      CanSomewhere(m, UserPrincipal(InPerson(u)), p) && exists scope :: scope in d.scopes && ScopeGrants(scope, p)
  {
    hide ScopeGrants;
  }

  // ---------------------------------------------------------------- what every decision respects

  /** The platform flag opens the platform's own operations but impersonation, in person only, and nothing inside an organization. */
  lemma PlatformFlagOpens(m: Matrix, u: User, p: Permission, r: Resource)
    ensures PlatformOnly(p) ==>
      (Can(m, UserPrincipal(u), p, r) <==> u.isPlatformAdmin && u.delegation.None? && !p.AdminImpersonate?)
    ensures !PlatformOnly(p) ==>
      Decide(m, UserPrincipal(u), p, r) == Decide(m, UserPrincipal(u.(isPlatformAdmin := !u.isPlatformAdmin)), p, r)
  {
    hide AgentDenial, DecideMember;
    FlagUnused(m, u, p, r);
  }

  lemma FlagUnused(m: Matrix, u: User, p: Permission, r: Resource)
    ensures DecideMember(m, u, p, r) == DecideMember(m, u.(isPlatformAdmin := !u.isPlatformAdmin), p, r)
  {
  }

  /**
    Whatever the matrix: an inactive member holds nothing, locked content is not edited under a grant that
    needs it editable, a grant confined to statuses stays in them, and nobody but an owner or administrator
    acts in a workspace, or on a brand unassigned to them, without being a member there.
   */
  lemma AllowedRespects(m: Matrix, u: User, p: Permission, r: Resource)
    requires Can(m, UserPrincipal(u), p, r) && !PlatformOnly(p)
    ensures u.membership == Active && m(u.organizationRole, p).Some?
    ensures
      var grant := m(u.organizationRole, p).value;
      && (grant.requiresEditable && r.intent == EditIntent && r.status.Some? ==> !EditLocked(r.status.value))
      && (grant.statuses.Some? && r.status.Some? ==> r.status.value in grant.statuses.value)
      && (grant.scope == OwnScope ==> r.createdById == Some(u.userId))
      && (grant.scope != OrgScope && !OrgWide(u) && Present(r.workspaceId) ==>
            MemberOf(u, r) || (grant.scope == BrandScope && Present(r.brandId) && AssignmentTo(u.brands, r.brandId.value).Some?))
      && (grant.scope == BrandScope && grant.requiresApprovalRight && !OrgWide(u) && Present(r.brandId) ==>
            match AssignmentTo(u.brands, r.brandId.value)
            case Some(assignment) => assignment.canApprove
            case None => MemberOf(u, r) && Approves(RoleIn(u.workspaces, r.workspaceId.value)))
  {
    hide AgentDenial, RoleIn, AssignmentTo;
  }

  /** Where a grant reaches: everywhere; the member's workspaces; an assigned brand, or one in their workspaces; their own posts there. */
  predicate Reaches(scope: GrantScope, needsApproval: bool, u: User, r: Resource) {
    var wide := u.organizationRole == Owner || u.organizationRole == Admin;
    var role := if Present(r.workspaceId) then RoleIn(u.workspaces, r.workspaceId.value) else None;
    var assignment := if Present(r.brandId) then AssignmentTo(u.brands, r.brandId.value) else None;
    match scope
    case OrgScope => true
    case WorkspaceScope => wide || role.Some?
    case BrandScope =>
      || wide
      || (assignment.Some? && (needsApproval ==> assignment.value.canApprove))
      || (Present(r.brandId) && assignment.None? && role.Some? &&
          (needsApproval ==> role.value == Manager || role.value == Approver || role.value == ClientApprover))
    case OwnScope => Present(r.createdById) && r.createdById.value == u.userId && (Present(r.workspaceId) ==> wide || role.Some?)
  }

  /** In person a user holds a permission exactly when they are an active member whose role's grant admits the status and reaches the resource. */
  lemma {:induction false} MayExactly(m: Matrix, u: User, p: Permission, r: Resource)
    requires u.delegation.None? && !PlatformOnly(p)
    ensures Can(m, UserPrincipal(u), p, r) <==>
      && p != SocialCredentialReadPlaintext && u.membership == Active
      && m(u.organizationRole, p).Some?
      && var grant := m(u.organizationRole, p).value;
      && (grant.statuses.Some? && r.status.Some? ==> r.status.value in grant.statuses.value)
      && (grant.requiresEditable && r.intent == EditIntent && r.status.Some? ==> !EditLocked(r.status.value))
      && Reaches(grant.scope, grant.requiresApprovalRight, u, r)
  {
    hide DecideScope, Reaches, EditLocked;
    if u.membership == Active && m(u.organizationRole, p).Some? {
      ScopeReaches(m(u.organizationRole, p).value, u, r);
    }
  }

  lemma ScopeReaches(grant: Grant, u: User, r: Resource)
    ensures Allowed(DecideScope(grant, u, r)) <==> Reaches(grant.scope, grant.requiresApprovalRight, u, r)
  {
    hide RoleIn, AssignmentTo;
  }

  /** A service holds what it was given, but what nobody may hold. */
  lemma ServiceMay(m: Matrix, capabilities: set<Permission>, p: Permission, r: Resource)
    ensures Can(m, SystemPrincipal(capabilities), p, r) <==> p in capabilities && p != SocialCredentialReadPlaintext
  {
  }

  /** Roles and assignments are looked up by id, the first one counting. */
  lemma {:induction false} FirstCounts(workspaces: seq<WorkspaceGrant>, brands: seq<BrandGrant>, id: string, i: nat)
    ensures i < |workspaces| && workspaces[i].workspaceId == id && (forall j :: 0 <= j < i ==> workspaces[j].workspaceId != id) ==>
      RoleIn(workspaces, id) == Some(workspaces[i].role)
    ensures i < |brands| && brands[i].brandId == id && (forall j :: 0 <= j < i ==> brands[j].brandId != id) ==>
      AssignmentTo(brands, id) == Some(brands[i])
    ensures RoleIn(workspaces, id).None? <==> forall j :: 0 <= j < |workspaces| ==> workspaces[j].workspaceId != id
    ensures AssignmentTo(brands, id).None? <==> forall j :: 0 <= j < |brands| ==> brands[j].brandId != id
    decreases i + |workspaces| + |brands|
  {
    if workspaces != [] { FirstCounts(workspaces[1..], [], id, if i > 0 then i - 1 else 0); }
    if brands != [] { FirstCounts([], brands[1..], id, if i > 0 then i - 1 else 0); }
  }

  /** A refusal inside an organization names what failed, in this order. */
  lemma RefusalsTell(m: Matrix, u: User, p: Permission, r: Resource)
    requires u.delegation.None? && !PlatformOnly(p) && p != SocialCredentialReadPlaintext
    ensures
      var d, grant := Decide(m, UserPrincipal(u), p, r), m(u.organizationRole, p);
      && (d == Denied(MembershipInactive) <==> u.membership != Active)
      && (d == Denied(NoGrant) <==> u.membership == Active && grant.None?)
      && (d == Denied(StatusNotPermitted) <==>
            u.membership == Active && grant.Some? && grant.value.statuses.Some? && r.status.Some? && r.status.value !in grant.value.statuses.value)
      && (d == Denied(EditLockedStatus) ==> r.status.Some? && EditLocked(r.status.value) && r.intent == EditIntent)
      && (d == Denied(MissingScopeInformation) ==> !Present(r.workspaceId) || !Present(r.brandId) || !Present(r.createdById))
      && (d == Denied(NotOwner) ==> grant.value.scope == OwnScope && Present(r.createdById) && r.createdById.value != u.userId)
      && (d == Denied(OutsideWorkspace) ==> grant.value.scope != BrandScope && Present(r.workspaceId) && RoleIn(u.workspaces, r.workspaceId.value).None?)
      && (d == Denied(OutsideBrand) ==> grant.value.scope == BrandScope && Present(r.workspaceId) && RoleIn(u.workspaces, r.workspaceId.value).None?)
      && (d == Denied(NoApprovalRight) ==> grant.value.scope == BrandScope && grant.value.requiresApprovalRight)
      && (d.AllowedBy? ==> grant == Some(d.grant))
  {
    hide RoleIn, AssignmentTo;
  }

  // ---------------------------------------------------------------- brand assignments

  function Assigned(u: User, b: BrandGrant): User {
    u.(brands := [b] + u.brands)
  }

  /**
    Assigning a user to a brand takes nothing they did not have if and only if the assignment is
    refused the right the grant asks for, or the user already reached the brand through its workspace.
   */
  lemma {:induction false} AssignmentNarrowsIff(grant: Grant, u: User, r: Resource, canApprove: bool)
    requires grant.scope == BrandScope && !OrgWide(u) && Present(r.brandId) && AssignmentTo(u.brands, r.brandId.value).None?
    ensures
      (Allowed(DecideScope(grant, Assigned(u, BrandGrant(r.brandId.value, canApprove)), r)) ==> Allowed(DecideScope(grant, u, r))) <==>
      || (grant.requiresApprovalRight && !canApprove)
      || (MemberOf(u, r) && (grant.requiresApprovalRight ==> Approves(RoleIn(u.workspaces, r.workspaceId.value))))
  {
    hide RoleIn;
  }

  /** An assignment that widens: a user outside the workspace reads a post of its brand. */
  lemma AssignmentCanWiden(m: Matrix, u: User)
    requires m(u.organizationRole, PostRead) == Some(Grant(BrandScope, None, false, false))
    requires u.membership == Active && !OrgWide(u) && u.workspaces == [] && u.brands == [] && u.delegation.None?
    ensures
      var r := Resource(Some("workspace"), Some("brand"), None, None, None, EditIntent);
      && !Can(m, UserPrincipal(u), PostRead, r)
      && Can(m, UserPrincipal(Assigned(u, BrandGrant("brand", false))), PostRead, r)
  {
    assert Present(Some("workspace")) && Present(Some("brand"));
  }
}
