/**
  Runs of moves and edits of one post. A person's move is checked in one transaction and written in a
  later one, and an edit is read and written in one that holds no lock
  (`apps/web/src/features/posts/service.ts`): neither write looks at the status again. The worker's moves
  (`apps/worker/src/publishing/rollup.ts`) are guarded on the status they were decided for.
 */
module PostRuns {
  import opened Wrappers
  import opened PostLifecycle

  datatype Post = Post(status: PostStatus, content: string, approvalStands: bool)

  /** What a person asks for: a move, with the status it is checked in, or an edit. */
  datatype Request = Move(from: PostStatus, to: PostStatus) | Edit(content: string)

  /**
    The post and the requests that were allowed and are not yet written (`allowed`); beside them, the
    content it had when it last became approved, and the last edit written since while it was `Failed`.
   */
  datatype State = State(post: Post, allowed: multiset<Request>, approved: Option<string>, failedEdit: Option<string>)

  datatype Step = Check(request: Request) | Write(request: Request) | WorkerMove(to: PostStatus)

  predicate Legal(r: Request) {
    r.Move? ==> AssertTransition(r.from, r.to, Human).Ok?
  }

  predicate Allowed(status: PostStatus, r: Request) {
    match r
    case Move(from, _) => from == status && Legal(r)
    case Edit(_) => !EditLocked(status)
  }

  predicate Enabled(s: State, step: Step) {
    match step
    case Check(r) => Allowed(s.post.status, r)
    case Write(r) => r in s.allowed
    case WorkerMove(to) => (SystemWritten(to) || to == Canceled) && AssertTransition(s.post.status, to, System).Ok?
  }

  predicate Voids(from: PostStatus, to: PostStatus) {
    FindTransition(from, to).Some? && FindTransition(from, to).value.voidsApprovals
  }

  /** The write, into whatever the post has become. */
  function Written(s: State, r: Request): State {
    match r
    case Move(from, to) =>
      var post := Post(to, s.post.content, (s.post.approvalStands || to == Approved) && !Voids(from, to));
      if to == Approved then s.(post := post, approved := Some(s.post.content), failedEdit := None) else s.(post := post)
    case Edit(content) =>
      s.(post := s.post.(content := content), failedEdit := if s.post.status == Failed then Some(content) else s.failedEdit)
  }

  function Next(s: State, step: Step): State
    requires Enabled(s, step)
  {
    match step
    case Check(r) => s.(allowed := s.allowed + multiset{r})
    case Write(r) => Written(s, r).(allowed := s.allowed - multiset{r})
    case WorkerMove(to) => s.(post := s.post.(status := to))
  }

  predicate Runs(s: State, steps: seq<Step>)
    decreases |steps|
  {
    steps == [] || (Enabled(s, steps[0]) && Runs(Next(s, steps[0]), steps[1..]))
  }

  function After(s: State, steps: seq<Step>): State
    requires Runs(s, steps)
    decreases |steps|
  {
    if steps == [] then s else After(Next(s, steps[0]), steps[1..])
  }

  /** A post just created. */
  predicate Fresh(s: State) {
    (s.post.status == Idea || s.post.status == Draft) && !s.post.approvalStands && s.allowed == multiset{} &&
    s.approved.None? && s.failedEdit.None?
  }

  /** The worker takes a scheduled post into publishing, settles one that is publishing, and may cancel what a person may. */
  lemma WorkerMovesAre(s: State, to: PostStatus)
    ensures Enabled(s, WorkerMove(to)) <==>
      || (s.post.status == Scheduled && to == Publishing)
      || (s.post.status == Publishing && (to == Published || to == PartiallyPublished || to == Failed))
      || (to == Canceled && s.post.status != Publishing && s.post.status != Published && s.post.status != Canceled)
  {
  }

  /** Ideas and drafts are created, unapproved, with nothing on its way. */
  lemma CreatedIsFresh(content: string)
    ensures Fresh(State(Post(Idea, content, false), multiset{}, None, None))
    ensures Fresh(State(Post(Draft, content, false), multiset{}, None, None))
  {
  }

  // ---------------------------------------------------------------- what was approved

  /** Content with a standing approval is what was approved or the last edit made in `Failed`, and approvals stand past approval. */
  predicate Keeps(s: State) {
    && (s.post.approvalStands ==>
          && s.approved.Some?
          && s.post.content == (if s.failedEdit.Some? then s.failedEdit.value else s.approved.value))
    && (s.post.status != Canceled ==> (s.post.approvalStands <==> PastApproval(s.post.status)))
  }

  ghost predicate AllLegal(s: State) {
    forall r :: r in s.allowed ==> Legal(r)
  }

  /** What a write must find: a schedule a standing approval, and what would change under a standing approval none. */
  predicate WritesWell(p: Post, r: Request) {
    match r
    case Edit(content) => p.approvalStands && p.status != Failed ==> content == p.content
    case Move(from, to) =>
      if to == Approved || to == Canceled then true
      else if to == Scheduled then p.approvalStands
      else p.approvalStands ==> Voids(from, to)
  }

  /** The exact condition, for one write. */
  lemma {:induction false} WriteKeepsIff(s: State, r: Request)
    requires Keeps(s) && Legal(r)
    ensures Keeps(Written(s, r)) <==> WritesWell(s.post, r)
  {
    if r.Move? { SystemWritesExactly(r.from, r.to); }
  }

  lemma WorkerKeeps(s: State, to: PostStatus)
    requires Keeps(s) && Enabled(s, WorkerMove(to))
    ensures Keeps(Next(s, WorkerMove(to)))
  {
  }

  predicate StepWritesWell(s: State, step: Step) {
    step.Write? ==> WritesWell(s.post, step.request)
  }

  predicate AllWriteWell(s: State, steps: seq<Step>)
    requires Runs(s, steps)
    decreases |steps|
  {
    steps == [] || (StepWritesWell(s, steps[0]) && AllWriteWell(Next(s, steps[0]), steps[1..]))
  }

  predicate KeepsThroughout(s: State, steps: seq<Step>)
    requires Runs(s, steps)
    decreases |steps|
  {
    Keeps(s) && (steps == [] || KeepsThroughout(Next(s, steps[0]), steps[1..]))
  }

  lemma {:induction false} StepKeepsIff(s: State, step: Step)
    requires Keeps(s) && AllLegal(s) && Enabled(s, step)
    ensures AllLegal(Next(s, step))
    ensures Keeps(Next(s, step)) <==> StepWritesWell(s, step)
  {
    hide FindTransition, AssertTransition, Voids, WritesWell, Keeps, Written;
    match step
    case Check(_) => KeepsReadsNoRequest(s, Next(s, step));
    case Write(r) =>
      WriteKeepsIff(s, r);
      KeepsReadsNoRequest(Written(s, r), Next(s, step));
    case WorkerMove(to) => WorkerKeeps(s, to);
  }

  lemma KeepsReadsNoRequest(s: State, t: State)
    requires s.(allowed := t.allowed) == t
    ensures Keeps(s) <==> Keeps(t)
  {
  }

  /**
    In any interleaving of checks, writes and the worker's moves, a post holds at every moment what was
    approved or the last edit made in `Failed` whenever its approval stands, and it stands exactly past
    approval, if and only if every write finds what it must.
   */
  lemma {:induction false} RunKeepsIff(s: State, steps: seq<Step>)
    requires Keeps(s) && AllLegal(s) && Runs(s, steps)
    ensures KeepsThroughout(s, steps) <==> AllWriteWell(s, steps)
    ensures AllWriteWell(s, steps) ==> Keeps(After(s, steps))
    decreases |steps|
  {
    hide Next, Enabled, Keeps, StepWritesWell, AllLegal;
    if steps != [] {
      StepKeepsIff(s, steps[0]);
      if Keeps(Next(s, steps[0])) {
        RunKeepsIff(Next(s, steps[0]), steps[1..]);
      } else {
        assert !KeepsThroughout(Next(s, steps[0]), steps[1..]);
      }
    }
  }

  /** Then nothing enters publishing unapproved, and it goes out as approved if and only if no later edit in `Failed` changed it. */
  lemma {:induction false} PublishesWhatWasApproved(s: State, steps: seq<Step>)
    requires Fresh(s) && Runs(s, steps) && AllWriteWell(s, steps) && After(s, steps).post.status == Publishing
    ensures
      var t := After(s, steps);
      && t.post.approvalStands && t.approved.Some?
      && (t.post.content == t.approved.value <==> t.failedEdit.None? || t.failedEdit == t.approved)
  {
    hide Runs, After, AllWriteWell, KeepsThroughout;
    RunKeepsIff(s, steps);
  }

  /** A write that finds a status in which it would be allowed again finds what it must. */
  lemma {:induction false} AllowedWritesWell(s: State, r: Request)
    requires Keeps(s) && Allowed(s.post.status, r)
    ensures WritesWell(s.post, r)
  {
    hide AssertTransition;
    if r.Move? {
      ApprovalGuards(r.from, r.to, Human);
      LegalHasRule(r.from, r.to);
    }
  }

  lemma LegalHasRule(from: PostStatus, to: PostStatus)
    requires AssertTransition(from, to, Human).Ok?
    ensures FindTransition(from, to).Some? && AssertTransition(from, to, Human).value == FindTransition(from, to).value
    ensures from != Canceled && to != from
    ensures to == Scheduled ==> PastApproval(from)
    ensures PastApproval(to) ==> to == Approved || to == Scheduled
  {
  }

  /** Every write finds the post in a status in which it would be allowed again, as if it were guarded on it. */
  predicate AllGuarded(s: State, steps: seq<Step>)
    requires Runs(s, steps)
    decreases |steps|
  {
    steps == [] ||
    ((steps[0].Write? ==> Allowed(s.post.status, steps[0].request)) && AllGuarded(Next(s, steps[0]), steps[1..]))
  }

  /** So guarding the writes on the status that was checked would be enough, for every run. */
  lemma {:induction false} GuardedRunsKeep(s: State, steps: seq<Step>)
    requires Keeps(s) && AllLegal(s) && Runs(s, steps) && AllGuarded(s, steps)
    ensures AllWriteWell(s, steps) && KeepsThroughout(s, steps)
    decreases |steps|
  {
    hide Next, Enabled, Keeps, WritesWell, AllLegal, Allowed;
    if steps != [] {
      if steps[0].Write? { AllowedWritesWell(s, steps[0].request); }
      StepKeepsIff(s, steps[0]);
      GuardedRunsKeep(Next(s, steps[0]), steps[1..]);
    }
  }

  // ---------------------------------------------------------------- finality

  /** Neither status nor content nor approval changes, at any moment of the run. */
  predicate NeverChanges(s: State, steps: seq<Step>)
    requires Runs(s, steps)
    decreases |steps|
  {
    steps == [] || (Next(s, steps[0]).post == s.post && NeverChanges(Next(s, steps[0]), steps[1..]))
  }

  /** A write that puts down what is there. */
  predicate Repeats(p: Post, r: Request) {
    match r
    case Move(_, to) => to == p.status
    case Edit(content) => content == p.content
  }

  lemma {:induction false} TerminalStep(s: State, step: Step)
    requires Terminal(s.post.status) && AllLegal(s) && Enabled(s, step)
    ensures step.Write? && step.request in s.allowed
    ensures Next(s, step).post == s.post <==> Repeats(s.post, step.request)
    ensures AllLegal(Next(s, step))
  {
    hide AllLegal, PastApproval;
    assert step.Write? && step.request.Move? ==> Legal(step.request) by { AllowedIsLegal(s, step); }
    if step.Write? && step.request.Move? { LegalHasRule(step.request.from, step.request.to); }
    StillLegal(s, step);
  }

  lemma AllowedIsLegal(s: State, step: Step)
    requires AllLegal(s) && Enabled(s, step) && step.Write?
    ensures Legal(step.request)
  {
    hide Legal;
  }

  lemma StillLegal(s: State, step: Step)
    requires AllLegal(s) && Enabled(s, step)
    ensures AllLegal(Next(s, step))
  {
    hide Written, AssertTransition;
  }

  /**
    A published or canceled post allows nothing new, and never changes if and only if no request allowed
    before writes anything different.
   */
  lemma {:induction false} TerminalIsFinalIff(s: State, steps: seq<Step>)
    requires Terminal(s.post.status) && AllLegal(s) && Runs(s, steps)
    ensures NeverChanges(s, steps) <==> forall step :: step in steps ==> step.Write? && Repeats(s.post, step.request)
    ensures s.allowed == multiset{} ==> steps == []
    decreases |steps|
  {
    hide Enabled, AllLegal, Terminal, Repeats;
    if steps != [] {
      var t := Next(s, steps[0]);
      TerminalStep(s, steps[0]);
      assert steps[0] in steps;
      if t.post == s.post {
        TerminalIsFinalIff(t, steps[1..]);
        assert forall step :: step in steps <==> step == steps[0] || step in steps[1..];
      }
    }
  }

  // ---------------------------------------------------------------- runs

  lemma RunsJoin(s: State, a: seq<Step>, b: seq<Step>)
    requires Runs(s, a) && Runs(After(s, a), b)
    ensures Runs(s, a + b) && After(s, a + b) == After(After(s, a), b)
    decreases |a|
  {
    hide Enabled, Next;
    if a == [] {
      assert a + b == b;
    } else {
      RunsJoin(Next(s, a[0]), a[1..], b);
      assert (a + b)[1..] == a[1..] + b;
    }
  }

  lemma RunsOne(s: State, step: Step)
    requires Enabled(s, step)
    ensures Runs(s, [step]) && After(s, [step]) == Next(s, step)
  {
    hide Enabled, Next;
  }

  lemma ReadsNoRequest(s: State, t: State, r: Request)
    requires t == s.(allowed := t.allowed)
    ensures Written(s, r).allowed == s.allowed && Written(t, r) == Written(s, r).(allowed := t.allowed)
  {
    hide Voids;
  }

  /** Checked and written at once. */
  function AtOnce(r: Request): seq<Step> {
    [Check(r), Write(r)]
  }

  lemma AtOnceRuns(s: State, r: Request)
    requires Allowed(s.post.status, r)
    ensures Runs(s, AtOnce(r)) && After(s, AtOnce(r)) == Written(s, r)
  {
    hide Allowed, Written, Runs, After, Legal;
    RunsOne(s, Check(r));
    var t := Next(s, Check(r));
    ReadsNoRequest(s, t, r);
    RunsOne(t, Write(r));
    RunsJoin(s, [Check(r)], [Write(r)]);
    assert [Check(r)] + [Write(r)] == AtOnce(r);
    assert t.allowed - multiset{r} == s.allowed;
  }

  function Approval(): seq<Step> {
    AtOnce(Move(Draft, InternalReview)) + AtOnce(Move(InternalReview, Approved))
  }

  lemma ApprovalRuns(s: State)
    requires s.post.status == Draft
    ensures Runs(s, Approval())
    ensures After(s, Approval()) == State(Post(Approved, s.post.content, true), s.allowed, Some(s.post.content), None)
  {
    hide Runs, After;
    AtOnceRuns(s, Move(Draft, InternalReview));
    AtOnceRuns(Written(s, Move(Draft, InternalReview)), Move(InternalReview, Approved));
    RunsJoin(s, AtOnce(Move(Draft, InternalReview)), AtOnce(Move(InternalReview, Approved)));
  }

  /** A run in which content nobody approved goes out, every write at once: it was edited after a failed publish. */
  lemma FailedEditGoesOutUnapproved(content: string, edited: string)
    ensures
      var s := State(Post(Draft, content, false), multiset{}, None, None);
      var run := Approval() + AtOnce(Move(Approved, Scheduled)) + [WorkerMove(Publishing)] + [WorkerMove(Failed)] +
                 AtOnce(Edit(edited)) + AtOnce(Move(Failed, Scheduled)) + [WorkerMove(Publishing)];
      && Runs(s, run)
      && After(s, run) == State(Post(Publishing, edited, true), multiset{}, Some(content), Some(edited))
  {
    hide Runs, After, AtOnce, Approval;
    var s := State(Post(Draft, content, false), multiset{}, None, None);
    ApprovalRuns(s);
    var s1 := After(s, Approval());
    AtOnceRuns(s1, Move(Approved, Scheduled));
    RunsJoin(s, Approval(), AtOnce(Move(Approved, Scheduled)));
    var r1 := Approval() + AtOnce(Move(Approved, Scheduled));
    RunsOne(After(s, r1), WorkerMove(Publishing));
    RunsJoin(s, r1, [WorkerMove(Publishing)]);
    var r2 := r1 + [WorkerMove(Publishing)];
    RunsOne(After(s, r2), WorkerMove(Failed));
    RunsJoin(s, r2, [WorkerMove(Failed)]);
    var r3 := r2 + [WorkerMove(Failed)];
    AtOnceRuns(After(s, r3), Edit(edited));
    RunsJoin(s, r3, AtOnce(Edit(edited)));
    var r4 := r3 + AtOnce(Edit(edited));
    AtOnceRuns(After(s, r4), Move(Failed, Scheduled));
    RunsJoin(s, r4, AtOnce(Move(Failed, Scheduled)));
    var r5 := r4 + AtOnce(Move(Failed, Scheduled));
    RunsOne(After(s, r5), WorkerMove(Publishing));
    RunsJoin(s, r5, [WorkerMove(Publishing)]);
  }

  /**
    And one in which it goes out with no approval standing and no edit in `Failed`: the schedule was
    checked while approved, and written after a reopening and an edit.
   */
  lemma LateScheduleGoesOutUnapproved(content: string, edited: string)
    ensures
      var s := State(Post(Draft, content, false), multiset{}, None, None);
      var run := Approval() + [Check(Move(Approved, Scheduled))] + AtOnce(Move(Approved, Draft)) + AtOnce(Edit(edited)) +
                 [Write(Move(Approved, Scheduled))] + [WorkerMove(Publishing)];
      && Runs(s, run)
      && After(s, run) == State(Post(Publishing, edited, false), multiset{}, Some(content), None)
  {
    hide Runs, After, AtOnce, Approval;
    var s := State(Post(Draft, content, false), multiset{}, None, None);
    ApprovalRuns(s);
    RunsOne(After(s, Approval()), Check(Move(Approved, Scheduled)));
    RunsJoin(s, Approval(), [Check(Move(Approved, Scheduled))]);
    var r1 := Approval() + [Check(Move(Approved, Scheduled))];
    AtOnceRuns(After(s, r1), Move(Approved, Draft));
    RunsJoin(s, r1, AtOnce(Move(Approved, Draft)));
    var r2 := r1 + AtOnce(Move(Approved, Draft));
    AtOnceRuns(After(s, r2), Edit(edited));
    RunsJoin(s, r2, AtOnce(Edit(edited)));
    var r3 := r2 + AtOnce(Edit(edited));
    RunsOne(After(s, r3), Write(Move(Approved, Scheduled)));
    RunsJoin(s, r3, [Write(Move(Approved, Scheduled))]);
    var r4 := r3 + [Write(Move(Approved, Scheduled))];
    RunsOne(After(s, r4), WorkerMove(Publishing));
    RunsJoin(s, r4, [WorkerMove(Publishing)]);
  }

  /** A cancellation, or a return to draft, checked while scheduled takes a published post out of its final status. */
  lemma LateMoveUnpublishes(s: State, to: PostStatus)
    requires s.post.status == Scheduled && (to == Canceled || to == Draft)
    ensures
      var before := [Check(Move(Scheduled, to))] + [WorkerMove(Publishing)] + [WorkerMove(Published)];
      && Runs(s, before) && After(s, before).post.status == Published
      && Runs(s, before + [Write(Move(Scheduled, to))]) && After(s, before + [Write(Move(Scheduled, to))]).post.status == to
  {
    hide Runs, After;
    RunsOne(s, Check(Move(Scheduled, to)));
    RunsOne(After(s, [Check(Move(Scheduled, to))]), WorkerMove(Publishing));
    RunsJoin(s, [Check(Move(Scheduled, to))], [WorkerMove(Publishing)]);
    var r1 := [Check(Move(Scheduled, to))] + [WorkerMove(Publishing)];
    RunsOne(After(s, r1), WorkerMove(Published));
    RunsJoin(s, r1, [WorkerMove(Published)]);
    var r2 := r1 + [WorkerMove(Published)];
    RunsOne(After(s, r2), Write(Move(Scheduled, to)));
    RunsJoin(s, r2, [Write(Move(Scheduled, to))]);
  }
}
