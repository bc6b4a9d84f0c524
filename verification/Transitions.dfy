/** Status changes put to the policy (`packages/rbac/src/transitions.ts`), and runs of them. */
module Transitions {
  import opened Wrappers
  import opened Permissions
  import opened PostLifecycle
  import opened Agent
  import opened Policy
  import P = PostRuns

  datatype Refusal = ByMachine(error: TransitionError) | UnknownPermission | Forbidden(reason: DenialReason)

  function AsTransition(r: Resource, from: PostStatus): Resource {
    r.(status := Some(from), intent := TransitionIntent)
  }

  /** The two moves an author may make on their own post where no client approves. */
  predicate AuthorMove(from: PostStatus, to: PostStatus) {
    (from == InternalReview && to == Approved) || (from == Approved && to == Scheduled)
  }

  predicate AuthorMayFinish(m: Matrix, principal: Principal, from: PostStatus, to: PostStatus, r: Resource) {
    && r.requiresClientApproval == Some(false)
    && AuthorMove(from, to)
    && principal.UserPrincipal?
    && Present(r.createdById) && r.createdById.value == principal.user.userId
    && Can(m, principal, PostSubmitInternalReview, AsTransition(r, from))
  }

  function AgentGate(principal: Principal, from: PostStatus, to: PostStatus, p: Permission): Option<AgentRefusal> {
    if principal.SystemPrincipal? || principal.user.delegation.None? then None
    else
      var d := principal.user.delegation.value;
      match AgentDenial(d, p)
      case Some(refusal) => Some(refusal)
      case None =>
        if DirectTransition(from, to) || Present(d.confirmedActionId) then None else Some(AgentConfirmationRequired)
  }

  function AssertTransitionAllowed(m: Matrix, principal: Principal, from: PostStatus, to: PostStatus, r: Resource): Result<Rule, Refusal> {
    match AssertTransition(from, to, Human)
    case Err(e) => Err(ByMachine(e))
    case Ok(rule) =>
      if rule.permission.None? then Err(UnknownPermission)
      else match AgentGate(principal, from, to, rule.permission.value)
        case Some(refusal) => Err(Forbidden(RefusedToAgent(refusal)))
        case None =>
          if AuthorMayFinish(m, principal, from, to, r) then Ok(rule)
          else match Decide(m, principal, rule.permission.value, AsTransition(r, from))
            case Denied(reason) => Err(Forbidden(reason))
            case _ => Ok(rule)
  }

  predicate MayMove(m: Matrix, principal: Principal, from: PostStatus, to: PostStatus, r: Resource) {
    AssertTransitionAllowed(m, principal, from, to, r).Ok?
  }

  /** The table and the catalogue never drift apart: the error for it is unreachable. */
  lemma PermissionAlwaysKnown(m: Matrix, principal: Principal, from: PostStatus, to: PostStatus, r: Resource)
    ensures AssertTransitionAllowed(m, principal, from, to, r) != Err(UnknownPermission)
  {
    hide Decide, AuthorMayFinish;
  }

  predicate Unconfirmed(principal: Principal) {
    principal.UserPrincipal? && principal.user.delegation.Some? && !Present(principal.user.delegation.value.confirmedActionId)
  }

  /**
    Through an agent, a status change is allowed exactly when its user could make it, the agent's gate
    lets it by, and either the user holds the permission or the author's shortcut is within scope too.
   */
  lemma {:induction false} AgentMovesExactly(m: Matrix, u: User, d: Delegation, from: PostStatus, to: PostStatus, r: Resource)
    requires AssertTransition(from, to, Human).Ok?
    ensures
      var p := AssertTransition(from, to, Human).value.permission;
      p.Some? &&
      (MayMove(m, UserPrincipal(Through(u, d)), from, to, r) <==>
        && MayMove(m, UserPrincipal(InPerson(u)), from, to, r)
        && AgentGate(UserPrincipal(Through(u, d)), from, to, p.value).None?
        && (Can(m, UserPrincipal(InPerson(u)), p.value, AsTransition(r, from)) || AgentScopeCovers(d, PostSubmitInternalReview)))
  {
    hide Decide, AgentScopeCovers, FindTransition, DirectTransition;
    SystemWritesExactly(from, to);
    var p := AssertTransition(from, to, Human).value.permission.value;
    PlatformNotCovered(d, p);
    DelegationNarrowsExactly(m, u, d, p, AsTransition(r, from));
    DelegationNarrowsExactly(m, u, d, PostSubmitInternalReview, AsTransition(r, from));
    SubmitNeedsNoConfirmation();
  }

  /** The agent's gate: a scope covers the permission, and outside three moves towards review its user confirmed the action. */
  lemma GateIs(u: User, d: Delegation, from: PostStatus, to: PostStatus, p: Permission)
    ensures AgentGate(UserPrincipal(InPerson(u)), from, to, p).None?
    ensures AgentGate(UserPrincipal(Through(u, d)), from, to, p).None? <==>
      && AgentDenial(d, p).None?
      && (Present(d.confirmedActionId) || (from == Idea && to == Draft) || (from == Draft && to == InternalReview) ||
          (from == ChangesRequested && to == Draft))
  {
    hide AgentDenial;
  }

  lemma PlatformNotCovered(d: Delegation, p: Permission)
    ensures AgentScopeCovers(d, p) ==> !PlatformOnly(p)
  {
  }

  lemma SubmitNeedsNoConfirmation()
    ensures !RequiresConfirmation(PostSubmitInternalReview) && !PlatformOnly(PostSubmitInternalReview)
  {
  }

  /** Unconfirmed, an agent moves work only towards review, whatever its scopes and whoever wrote the post. */
  lemma UnconfirmedMovesAreDirect(m: Matrix, principal: Principal, from: PostStatus, to: PostStatus, r: Resource)
    requires Unconfirmed(principal) && MayMove(m, principal, from, to, r)
    ensures DirectTransition(from, to) && !EditLocked(from) && (to == Draft || to == InternalReview)
  {
    hide Decide, AuthorMayFinish, AgentDenial;
  }

  lemma {:induction false} MoreDelegationOnlyAddsMoves(m: Matrix, u: User, d: Delegation, e: Delegation,
                                                       from: PostStatus, to: PostStatus, r: Resource)
    requires AtLeast(e, d) && MayMove(m, UserPrincipal(Through(u, d)), from, to, r)
    ensures MayMove(m, UserPrincipal(Through(u, e)), from, to, r)
  {
    hide Can, AgentGate, AuthorMayFinish, AssertTransition, AtLeast;
    var p := AssertTransition(from, to, Human).value.permission.value;
    MoreOpensGate(u, d, e, from, to, p);
    MoreMayFinish(m, u, d, e, from, to, r);
    if Can(m, UserPrincipal(Through(u, d)), p, AsTransition(r, from)) {
      MoreDelegationOnlyAdds(m, u, d, e, p, AsTransition(r, from));
    }
    MovesBy(m, UserPrincipal(Through(u, d)), from, to, r);
    MovesBy(m, UserPrincipal(Through(u, e)), from, to, r);
  }

  lemma MovesBy(m: Matrix, principal: Principal, from: PostStatus, to: PostStatus, r: Resource)
    ensures MayMove(m, principal, from, to, r) <==>
      && AssertTransition(from, to, Human).Ok?
      && AssertTransition(from, to, Human).value.permission.Some?
      && var p := AssertTransition(from, to, Human).value.permission.value;
      && AgentGate(principal, from, to, p).None?
      && (AuthorMayFinish(m, principal, from, to, r) || Can(m, principal, p, AsTransition(r, from)))
  {
    hide Decide, AgentGate, AuthorMayFinish, AssertTransition;
  }

  /** The author of a post may finish it where no client approves, while they may still submit it. */
  predicate MayFinishOwn(m: Matrix, principal: Principal, from: PostStatus, r: Resource) {
    && principal.UserPrincipal? && r.requiresClientApproval == Some(false)
    && principal.user.userId != "" && r.createdById == Some(principal.user.userId)
    && Can(m, principal, PostSubmitInternalReview, r.(status := Some(from), intent := TransitionIntent))
  }

  /**
    Every move there is for a person, and what it takes in person: each status can be entered from the statuses
    named, under the permission named, and no other way.
   */
  lemma {:induction false} MovesNeed(m: Matrix, principal: Principal, from: PostStatus, to: PostStatus, r: Resource)
    requires principal.UserPrincipal? ==> principal.user.delegation.None?
    ensures
      var held := (p: Permission) => Can(m, principal, p, r.(status := Some(from), intent := TransitionIntent));
      MayMove(m, principal, from, to, r) <==>
        || (to == Draft && (from == Idea || from == ChangesRequested || from == Approved || from == Scheduled) && held(PostUpdate))
        || (to == InternalReview && from == Draft && held(PostSubmitInternalReview))
        || (to == ClientReview && from == InternalReview && held(PostSubmitClientReview))
        || (to == ChangesRequested && (from == InternalReview || from == ClientReview) && held(PostRequestChanges))
        || (to == Approved && from == InternalReview && (held(PostApproveInternal) || MayFinishOwn(m, principal, from, r)))
        || (to == Approved && from == ClientReview && held(PostApproveClient))
        || (to == Scheduled && from == Approved && (held(PostSchedule) || MayFinishOwn(m, principal, from, r)))
        || (to == Scheduled && (from == Failed || from == PartiallyPublished) && held(PostRetryFailed))
        || (to == Canceled && from != Publishing && from != Published && from != Canceled && held(PostCancelScheduled))
  {
    hide Can, AgentDenial;
    MovesBy(m, principal, from, to, r);
    Edges(from, to);
    assert AuthorMayFinish(m, principal, from, to, r) <==> AuthorMove(from, to) && MayFinishOwn(m, principal, from, r);
    hide FindTransition, AssertTransition, AuthorMayFinish, MayMove;
  }

  lemma Edges(from: PostStatus, to: PostStatus)
    ensures
      var permission := if AssertTransition(from, to, Human).Ok? then AssertTransition(from, to, Human).value.permission else None;
      permission ==
        if to == Draft && (from == Idea || from == ChangesRequested || from == Approved || from == Scheduled) then Some(PostUpdate)
        else if to == InternalReview && from == Draft then Some(PostSubmitInternalReview)
        else if to == ClientReview && from == InternalReview then Some(PostSubmitClientReview)
        else if to == ChangesRequested && (from == InternalReview || from == ClientReview) then Some(PostRequestChanges)
        else if to == Approved && from == InternalReview then Some(PostApproveInternal)
        else if to == Approved && from == ClientReview then Some(PostApproveClient)
        else if to == Scheduled && from == Approved then Some(PostSchedule)
        else if to == Scheduled && (from == Failed || from == PartiallyPublished) then Some(PostRetryFailed)
        else if to == Canceled && from != Publishing && from != Published && from != Canceled then Some(PostCancelScheduled)
        else None
  {
  }

  lemma MoreOpensGate(u: User, d: Delegation, e: Delegation, from: PostStatus, to: PostStatus, p: Permission)
    requires AtLeast(e, d) && AgentGate(UserPrincipal(Through(u, d)), from, to, p).None?
    ensures AgentGate(UserPrincipal(Through(u, e)), from, to, p).None?
  {
    hide AgentDenial, DirectTransition;
    MoreNeverDenies(d, e, p);
  }

  lemma MoreMayFinish(m: Matrix, u: User, d: Delegation, e: Delegation, from: PostStatus, to: PostStatus, r: Resource)
    requires AtLeast(e, d)
    ensures AuthorMayFinish(m, UserPrincipal(Through(u, d)), from, to, r) ==>
      AuthorMayFinish(m, UserPrincipal(Through(u, e)), from, to, r)
  {
    hide Can, AtLeast, AsTransition;
    if Can(m, UserPrincipal(Through(u, d)), PostSubmitInternalReview, AsTransition(r, from)) {
      MoreDelegationOnlyAdds(m, u, d, e, PostSubmitInternalReview, AsTransition(r, from));
    }
  }

  /**
    The author's shortcut opens only two moves, on their own post, where no client approves, and only
    while they may still put work into review there; an agent gains nothing by it.
   */
  lemma {:induction false} ShortcutOpensOnly(m: Matrix, principal: Principal, from: PostStatus, to: PostStatus, r: Resource)
    requires MayMove(m, principal, from, to, r)
    requires !Can(m, principal, AssertTransition(from, to, Human).value.permission.value, AsTransition(r, from))
    ensures principal.UserPrincipal? && !Unconfirmed(principal)
    ensures AuthorMove(from, to) && r.createdById == Some(principal.user.userId) && r.requiresClientApproval == Some(false)
    ensures Can(m, principal, PostSubmitInternalReview, AsTransition(r, from))
  {
    hide Decide, AgentDenial;
  }

  // ---------------------------------------------------------------- whole runs

  /** What someone asks for and is allowed, a write of what was allowed before, or a status change by the publishing worker. */
  datatype Act =
    | Ask(who: Principal, request: P.Request, r: Resource)
    | Land(request: P.Request)
    | Work(to: PostStatus)

  function StepOf(a: Act): P.Step {
    match a
    case Ask(_, request, _) => P.Check(request)
    case Land(request) => P.Write(request)
    case Work(to) => P.WorkerMove(to)
  }

  predicate Permitted(m: Matrix, s: P.State, a: Act) {
    match a
    case Ask(who, Move(from, to), r) => from == s.post.status && MayMove(m, who, from, to, r)
    case Ask(who, Edit(_), r) =>
      !EditLocked(s.post.status) && Can(m, who, PostUpdate, r.(status := Some(s.post.status), intent := EditIntent))
    case Land(request) => request in s.allowed
    case Work(to) => P.Enabled(s, P.WorkerMove(to))
  }

  lemma PermittedIsEnabled(m: Matrix, s: P.State, a: Act)
    requires Permitted(m, s, a)
    ensures P.Enabled(s, StepOf(a))
  {
    hide Decide, AuthorMayFinish, AgentGate;
  }

  function NextPermitted(m: Matrix, s: P.State, a: Act): P.State
    requires Permitted(m, s, a)
  {
    PermittedIsEnabled(m, s, a);
    P.Next(s, StepOf(a))
  }

  predicate Acts(m: Matrix, s: P.State, acts: seq<Act>)
    decreases |acts|
  {
    acts == [] || (Permitted(m, s, acts[0]) && Acts(m, NextPermitted(m, s, acts[0]), acts[1..]))
  }

  function Reached(m: Matrix, s: P.State, acts: seq<Act>): P.State
    requires Acts(m, s, acts)
    decreases |acts|
  {
    if acts == [] then s else Reached(m, NextPermitted(m, s, acts[0]), acts[1..])
  }

  /** Every agent set aside for its user. */
  function WithoutAgent(who: Principal): Principal {
    match who
    case UserPrincipal(u) => UserPrincipal(InPerson(u))
    case SystemPrincipal(_) => who
  }

  function ActWithoutAgent(a: Act): Act {
    match a
    case Ask(who, request, r) => Ask(WithoutAgent(who), request, r)
    case Land(_) => a
    case Work(_) => a
  }

  function WithoutAgents(acts: seq<Act>): seq<Act>
    decreases |acts|
  {
    if acts == [] then [] else [ActWithoutAgent(acts[0])] + WithoutAgents(acts[1..])
  }

  function Steps(acts: seq<Act>): seq<P.Step> {
    if acts == [] then [] else [StepOf(acts[0])] + Steps(acts[1..])
  }

  /** What people and agents do is a run of the post's own state machine. */
  lemma {:induction false} ActsAreRuns(m: Matrix, s: P.State, acts: seq<Act>)
    requires Acts(m, s, acts)
    ensures P.Runs(s, Steps(acts)) && P.After(s, Steps(acts)) == Reached(m, s, acts)
    decreases |acts|
  {
    hide Permitted, P.Enabled, P.Next;
    if acts != [] {
      PermittedIsEnabled(m, s, acts[0]);
      ActsAreRuns(m, NextPermitted(m, s, acts[0]), acts[1..]);
      assert Steps(acts)[1..] == Steps(acts[1..]);
    }
  }

  /** The same acts, asked for by the same users in person. */
  lemma {:induction false} NoAgentsLeft(acts: seq<Act>, i: nat)
    requires i < |acts|
    ensures |WithoutAgents(acts)| == |acts|
    ensures
      var a, b := acts[i], WithoutAgents(acts)[i];
      && StepOf(b) == StepOf(a) && (b.Ask? <==> a.Ask?)
      && (a.Ask? ==> b.r == a.r && (b.who.UserPrincipal? <==> a.who.UserPrincipal?))
      && (a.Ask? && a.who.UserPrincipal? ==> b.who.user == a.who.user.(delegation := None))
      && (a.Ask? && a.who.SystemPrincipal? ==> b.who == a.who)
    decreases |acts|
  {
    if |acts| > 1 {
      NoAgentsLeft(acts[1..], if i > 0 then i - 1 else 0);
    }
  }

  /** Whatever people achieve through agents they could have done themselves, step for step, however the writes come. */
  lemma {:induction false} AgentRunsAreTheirUsers(m: Matrix, s: P.State, acts: seq<Act>)
    requires Acts(m, s, acts)
    ensures Acts(m, s, WithoutAgents(acts)) && Reached(m, s, WithoutAgents(acts)) == Reached(m, s, acts)
    decreases |acts|
  {
    hide NextPermitted, Permitted, ActWithoutAgent;
    if acts != [] {
      StepWithoutAgent(m, s, acts[0]);
      AgentRunsAreTheirUsers(m, NextPermitted(m, s, acts[0]), acts[1..]);
      assert WithoutAgents(acts)[1..] == WithoutAgents(acts[1..]);
    }
  }

  lemma StepWithoutAgent(m: Matrix, s: P.State, a: Act)
    requires Permitted(m, s, a)
    ensures Permitted(m, s, ActWithoutAgent(a)) && NextPermitted(m, s, ActWithoutAgent(a)) == NextPermitted(m, s, a)
  {
    hide Decide, AssertTransitionAllowed, AssertTransition, P.Next, P.Enabled;
    if a.Ask? && a.who.UserPrincipal? {
      var u := a.who.user;
      if u.delegation.None? {
        assert InPerson(u) == u;
      } else {
        assert Through(u, u.delegation.value) == u;
        if a.request.Move? {
          MovesAreLegal(m, a.who, a.request.from, a.request.to, a.r);
          AgentMovesExactly(m, u, u.delegation.value, a.request.from, a.request.to, a.r);
        } else {
          DelegationNarrowsExactly(m, u, u.delegation.value, PostUpdate, a.r.(status := Some(s.post.status), intent := EditIntent));
        }
      }
    }
  }

  lemma MovesAreLegal(m: Matrix, principal: Principal, from: PostStatus, to: PostStatus, r: Resource)
    requires MayMove(m, principal, from, to, r)
    ensures AssertTransition(from, to, Human).Ok?
  {
    hide Decide, AuthorMayFinish, AgentGate;
  }

  predicate ByUnconfirmedAgent(a: Act) {
    a.Land? || (a.Ask? && Unconfirmed(a.who))
  }

  /** Only edits and direct moves are on their way, and nothing to a locked post. */
  ghost predicate OnlyDirect(s: P.State) {
    && (forall r :: r in s.allowed && r.Move? ==> DirectTransition(r.from, r.to))
    && (s.allowed != multiset{} ==> !EditLocked(s.post.status))
  }

  /** What an unconfirmed agent asks for leaves a locked post alone, and moves an open one only towards review. */
  lemma {:induction false} UnconfirmedStep(m: Matrix, s: P.State, a: Act)
    requires Permitted(m, s, a) && ByUnconfirmedAgent(a) && OnlyDirect(s)
    ensures !EditLocked(s.post.status)
    ensures
      var t := NextPermitted(m, s, a);
      && OnlyDirect(t)
      && (t.post.status == s.post.status || t.post.status == Draft || t.post.status == InternalReview)
      && t.post.approvalStands == s.post.approvalStands
  {
    hide Decide, AuthorMayFinish, AgentDenial, MayMove, P.Written, AssertTransition;
    if a.Ask? && a.request.Move? {
      UnconfirmedMovesAreDirect(m, a.who, a.request.from, a.request.to, a.r);
    }
    if a.Land? { DirectWrite(s, a.request); }
  }

  lemma DirectWrite(s: P.State, r: P.Request)
    requires r.Move? ==> DirectTransition(r.from, r.to)
    ensures
      var t := P.Written(s, r);
      && (t.post.status == s.post.status || t.post.status == Draft || t.post.status == InternalReview)
      && t.post.approvalStands == s.post.approvalStands
  {
  }

  /** Left to unconfirmed agents a post gets no further than internal review, and a locked one is never touched. */
  lemma {:induction false} UnconfirmedRun(m: Matrix, s: P.State, acts: seq<Act>)
    requires Acts(m, s, acts) && OnlyDirect(s) && forall a :: a in acts ==> !a.Work? && (a.Ask? ==> Unconfirmed(a.who))
    ensures
      var t := Reached(m, s, acts);
      && (t.post.status == s.post.status || t.post.status == Draft || t.post.status == InternalReview)
      && t.post.approvalStands == s.post.approvalStands
      && (EditLocked(s.post.status) ==> acts == [])
    decreases |acts|
  {
    hide Permitted, NextPermitted, OnlyDirect;
    if acts != [] {
      assert acts[0] in acts;
      UnconfirmedStep(m, s, acts[0]);
      UnconfirmedRun(m, NextPermitted(m, s, acts[0]), acts[1..]);
    }
  }
}
