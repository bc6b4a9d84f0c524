/**
  Every way a post's variants change status, as steps of one state machine: the worker's claims and
  outcomes (`apps/worker/src/publishing/claim.ts`, `engine.ts`, `rollup.ts`) and what people do from
  `apps/web/src/features/scheduling/service.ts`, `publishing/service.ts`, `publishing/resolve.ts`
  and `posts/service.ts`. The worker's writes carry their condition and are one step each; a roll-up reads
  and later writes; and a person's request is checked, and lands later without being checked again. A
  claim is held by knowing its token.
 */
module PublishingRuns {
  import opened Wrappers
  import opened PostLifecycle
  import opened Publishing

  /** One account's share of a post; one that is not `present` has been deleted. */
  datatype Variant = Variant(account: string, present: bool, status: VariantStatus, token: Option<string>, claimedAt: Option<int>)

  /** What a person finds out about a parked variant. */
  datatype Resolution = ConfirmPublished | ConfirmNot | Abandon

  /** What a person asks for. `Reach` is the share of one variant in a send or a reschedule, read first and written later. */
  datatype Request =
    | Send
    | Reschedule
    | Unschedule
    | CancelPost
    | Move(to: PostStatus)
    | RetryFailed
    | RetryJob(v: nat)
    | Reach(v: nat)
    | Resolve(v: nat, resolution: Resolution)
    | AddAccount(account: string)
    | RemoveAccount(v: nat)

  datatype Recorded =
    | Attempt(variant: nat, outcome: Outcome, round: nat)
    | Decision(variant: nat, resolution: Resolution, round: nat)

  /** What a roll-up reads, and how often people had changed variants by then. */
  datatype Read = Read(post: PostStatus, statuses: seq<VariantStatus>, stirs: nat)

  /**
    Beside the stored state, the requests and roll-ups on their way (`asked`, `rollUps`), and history: outcomes
    and decisions written (`log`), claim tokens ever drawn (`used`), how often a person released variants
    again (`rounds`), how often one changed variants at all (`stirs`), and the read that settled the post.
   */
  datatype State = State(
    post: PostStatus,
    variants: seq<Variant>,
    queued: set<nat>,
    asked: multiset<Request>,
    rollUps: multiset<Read>,
    log: seq<Recorded>,
    used: set<string>,
    rounds: nat,
    stirs: nat,
    settled: Option<Read>)

  datatype Step =
    | Enqueue(v: nat)
    | Claim(v: nat, token: string, now: int)
    | TakeOver(v: nat, token: string, seen: int, now: int)
    | Release(v: nat, token: string)
    | Finish(v: nat, token: string, outcome: Outcome)
    | MarkPublishing
    | ReadRollUp
    | WriteRollUp(read: Read)
    | Check(request: Request)
    | Land(request: Request)

  predicate Has(variants: seq<Variant>, which: set<VariantStatus>) {
    exists i :: 0 <= i < |variants| && variants[i].present && variants[i].status in which
  }

  predicate Is(s: State, v: nat, which: set<VariantStatus>) {
    v < |s.variants| && s.variants[v].present && s.variants[v].status in which
  }

  predicate Free(variants: seq<Variant>, account: string) {
    forall i :: 0 <= i < |variants| && variants[i].present ==> variants[i].account != account
  }

  /** The check a request passes. */
  predicate Allowed(s: State, r: Request) {
    match r
    case Send => AssertTransition(s.post, Scheduled, Human).Ok?
    case Reschedule => s.post == Scheduled && !Has(s.variants, {VPublishing, VPublished})
    case Unschedule => AssertTransition(s.post, Draft, Human).Ok?
    case CancelPost => AssertTransition(s.post, Canceled, Human).Ok?
    case Move(to) => to != Canceled && AssertTransition(s.post, to, Human).Ok?
    case RetryFailed => s.post == Failed || s.post == PartiallyPublished
    case RetryJob(v) => Is(s, v, {VDraft, VScheduled, VFailed, VCanceled}) && v in s.queued
    case Reach(v) => Is(s, v, {VDraft, VScheduled, VFailed})
    case Resolve(v, _) => Is(s, v, {VNeedsReview})
    case AddAccount(account) => !EditLocked(s.post) && Free(s.variants, account)
    case RemoveAccount(v) => !EditLocked(s.post) && v < |s.variants| && s.variants[v].present && s.variants[v].status != VPublished
  }

  /** What its write needs or is rolled back: somewhere to send to, its row, one row for each account. */
  predicate Applies(s: State, r: Request) {
    match r
    case Send => Has(s.variants, {VDraft, VScheduled, VFailed})
    case RetryJob(v) => v < |s.variants| && s.variants[v].present
    case Reach(v) => v < |s.variants| && s.variants[v].present
    case Resolve(v, _) => v < |s.variants| && s.variants[v].present
    case AddAccount(account) => Free(s.variants, account)
    case RemoveAccount(v) => v < |s.variants| && s.variants[v].present
    case _ => true
  }

  predicate Enabled(s: State, step: Step) {
    match step
    case Enqueue(v) => Is(s, v, {VScheduled})
    case Claim(v, token, _) => Is(s, v, {VScheduled}) && v in s.queued && token !in s.used
    case TakeOver(v, token, seen, now) =>
      Is(s, v, {VPublishing}) && s.variants[v].claimedAt == Some(seen) && now - seen > CLAIM_TTL_MS && token !in s.used
    case Release(v, _) => v < |s.variants|
    case Finish(v, _, _) => v < |s.variants|
    case MarkPublishing => s.post == Scheduled
    case ReadRollUp => true
    case WriteRollUp(read) => read in s.rollUps
    case Check(r) => Allowed(s, r)
    case Land(r) => r in s.asked && Applies(s, r)
  }

  function Given(v: Variant, status: VariantStatus): Variant {
    v.(status := status, token := None, claimedAt := None)
  }

  function Taken(v: Variant, token: string, now: int): Variant {
    v.(status := VPublishing, token := Some(token), claimedAt := Some(now))
  }

  /** A variant goes to another status if it is in one of these. */
  function Switched(which: set<VariantStatus>, to: VariantStatus): Variant -> Variant {
    (v: Variant) => if v.present && v.status in which then v.(status := to) else v
  }

  function Sent(): Variant -> Variant {
    (v: Variant) => if v.present && PublishableStatus(v.status) then v.(status := VScheduled) else v
  }

  function Each(variants: seq<Variant>, f: Variant -> Variant): (r: seq<Variant>)
    ensures |r| == |variants| && forall i :: 0 <= i < |r| ==> r[i] == f(variants[i])
  {
    seq(|variants|, i requires 0 <= i < |variants| => f(variants[i]))
  }

  /** The statuses a roll-up reads. */
  function Statuses(variants: seq<Variant>): seq<VariantStatus>
    decreases |variants|
  {
    if variants == [] then []
    else
      var last := variants[|variants| - 1];
      Statuses(variants[..|variants| - 1]) + if last.present then [last.status] else []
  }

  function RolledUp(variants: seq<Variant>): Option<PostStatus> {
    PostStatusFor(SummaryOf(Statuses(variants)))
  }

  /** The status a read settles the post in, if the post is still in the status read. */
  function Target(read: Read): Option<PostStatus> {
    PostStatusFor(SummaryOf(read.statuses))
  }

  predicate Settles(s: State, read: Read) {
    && Target(read).Some? && Target(read).value != read.post
    && AssertTransition(read.post, Target(read).value, System).Ok?
    && s.post == read.post
  }

  function ResolvedStatus(r: Resolution): VariantStatus {
    match r
    case ConfirmPublished => VPublished
    case ConfirmNot => VScheduled
    case Abandon => VFailed
  }

  /** Requests that change a variant, whatever it is. */
  predicate Stirs(r: Request) {
    !(r.Reschedule? || r.Unschedule? || r.CancelPost? || r.Move?)
  }

  /** The write of a request, into whatever the post and its variants have become. */
  function Written(s: State, r: Request): State
    requires Applies(s, r)
  {
    var t := if Stirs(r) then s.(stirs := s.stirs + 1) else s;
    match r
    case Send => t.(post := Scheduled, variants := Each(s.variants, Sent()), rounds := s.rounds + 1)
    case Reschedule => t.(variants := Each(s.variants, Switched({VDraft, VScheduled}, VScheduled)))
    case Unschedule => t.(post := Draft, variants := Each(s.variants, Switched({VScheduled}, VDraft)))
    case CancelPost => t.(post := Canceled, variants := Each(s.variants, Switched({VDraft, VScheduled}, VCanceled)))
    case Move(to) => t.(post := to)
    case RetryFailed => t.(variants := Each(s.variants, Switched({VFailed}, VScheduled)), rounds := s.rounds + 1)
    case RetryJob(v) => t.(variants := s.variants[v := s.variants[v].(status := VScheduled)], rounds := s.rounds + 1)
    case Reach(v) => t.(variants := s.variants[v := s.variants[v].(status := VScheduled)], rounds := s.rounds + 1)
    case Resolve(v, resolution) =>
      t.(variants := s.variants[v := s.variants[v].(status := ResolvedStatus(resolution))],
         log := s.log + [Decision(v, resolution, s.rounds + 1)], rounds := s.rounds + 1)
    case AddAccount(account) => t.(variants := s.variants + [Variant(account, true, VDraft, None, None)])
    case RemoveAccount(v) => t.(variants := s.variants[v := Given(s.variants[v], s.variants[v].status).(present := false)])
  }

  function Next(s: State, step: Step): State
    requires Enabled(s, step)
  {
    match step
    case Enqueue(v) => s.(queued := s.queued + {v})
    case Claim(v, token, now) =>
      s.(variants := s.variants[v := Taken(s.variants[v], token, now)], used := s.used + {token})
    case TakeOver(v, token, _, now) =>
      s.(variants := s.variants[v := Taken(s.variants[v], token, now)], used := s.used + {token})
    case Release(v, token) =>
      if s.variants[v].token == Some(token) then s.(variants := s.variants[v := Given(s.variants[v], VScheduled)]) else s
    case Finish(v, token, outcome) =>
      if s.variants[v].token == Some(token) then
        s.(variants := s.variants[v := Given(s.variants[v], VariantStatusFor(outcome))],
           log := s.log + [Attempt(v, outcome, s.rounds)])
      else s
    case MarkPublishing => s.(post := PostStatus.Publishing)
    case ReadRollUp => s.(rollUps := s.rollUps + multiset{Read(s.post, Statuses(s.variants), s.stirs)})
    case WriteRollUp(read) =>
      var t := s.(rollUps := s.rollUps - multiset{read});
      if Settles(s, read) then t.(post := Target(read).value, settled := Some(read)) else t
    case Check(r) => s.(asked := s.asked + multiset{r})
    case Land(r) => Written(s, r).(asked := s.asked - multiset{r})
  }

  /** When a request about the whole post passes its check, written out. */
  lemma PostChecksAre(s: State, account: string)
    ensures Allowed(s, Send) <==> s.post == Approved || s.post == Failed || s.post == PartiallyPublished
    ensures Allowed(s, Unschedule) <==> s.post == Idea || s.post == ChangesRequested || s.post == Approved || s.post == Scheduled
    ensures Allowed(s, CancelPost) <==> s.post != PostStatus.Publishing && s.post != Published && s.post != Canceled
    ensures Allowed(s, RetryFailed) <==> s.post == Failed || s.post == PartiallyPublished
    ensures forall to :: Allowed(s, Move(to)) <==> to != Canceled && AssertTransition(s.post, to, Human).Ok?
    ensures Allowed(s, AddAccount(account)) <==> !EditLocked(s.post) && Free(s.variants, account)
  {
    hide Free, Has;
  }

  /** A reschedule is checked against every variant. */
  lemma RescheduleCheckIs(s: State)
    ensures Allowed(s, Reschedule) <==>
      s.post == Scheduled &&
      (forall i :: 0 <= i < |s.variants| && s.variants[i].present ==> s.variants[i].status !in {VPublishing, VPublished})
  {
  }

  /** When a request about one variant passes its check. */
  lemma VariantChecksAre(s: State, v: nat, resolution: Resolution)
    requires v < |s.variants| && s.variants[v].present
    ensures
      var status := s.variants[v].status;
      && (Allowed(s, RetryJob(v)) <==> v in s.queued && status != VPublishing && status != VPublished && status != VNeedsReview)
      && (Allowed(s, Reach(v)) <==> status == VDraft || status == VScheduled || status == VFailed)
      && (Allowed(s, Resolve(v, resolution)) <==> status == VNeedsReview)
      && (Allowed(s, RemoveAccount(v)) <==> !EditLocked(s.post) && status != VPublished)
  {
    hide EditLocked;
  }

  /** A send finds some account to send to, or is rolled back. */
  lemma SendNeeds(s: State)
    ensures Applies(s, Send) <==>
      exists i :: 0 <= i < |s.variants| && s.variants[i].present && PublishableStatus(s.variants[i].status)
  {
  }

  /** Under the token it holds a worker gives its variant back or settles it, and under any other nothing; the post it takes into publishing. */
  lemma {:induction false} WorkerStepsAre(s: State, v: nat, token: string, outcome: Outcome)
    requires v < |s.variants|
    ensures
      var held := s.variants[v].token == Some(token);
      && Next(s, Release(v, token)) ==
           (if held then s.(variants := s.variants[v := s.variants[v].(status := VScheduled, token := None, claimedAt := None)]) else s)
      && (!held ==> Next(s, Finish(v, token, outcome)) == s)
      && (held ==> Next(s, Finish(v, token, outcome)).log == s.log + [Attempt(v, outcome, s.rounds)])
    ensures s.post == Scheduled ==> Next(s, MarkPublishing) == s.(post := PostStatus.Publishing)
  {
    hide Statuses;
  }

  /** A roll-up is written once for each time it was read, and moves the post only out of the status that was read. */
  lemma {:induction false} RollUpSteps(s: State, read: Read)
    requires read in s.rollUps
    ensures
      var t := Next(s, WriteRollUp(read));
      && t.rollUps + multiset{read} == s.rollUps && t.variants == s.variants && t.log == s.log
      && (t.post != s.post ==> s.post == read.post && Some(t.post) == Target(read) && t.settled == Some(read))
      && (read.post == PostStatus.Publishing && s.post == read.post && Target(read).Some? && Target(read) != Some(Canceled) ==>
            Some(t.post) == Target(read))
    ensures Next(s, ReadRollUp) == s.(rollUps := s.rollUps + multiset{Read(s.post, Statuses(s.variants), s.stirs)})
  {
    hide Statuses, SummaryOf, Allowed, Applies, Written, Is, Target, Settles;
    SettlesFromPublishing(s, read);
    var t := Next(s, WriteRollUp(read));
    assert t.rollUps + multiset{read} == s.rollUps;
  }

  lemma SettlesFromPublishing(s: State, read: Read)
    ensures Settles(s, read) ==> s.post == read.post && Target(read).Some?
    ensures read.post == PostStatus.Publishing && s.post == read.post && Target(read).Some? && Target(read) != Some(Canceled) ==> Settles(s, read)
  {
    hide SummaryOf;
  }

  /** The status that a request gives a variant which is there, whatever that is. */
  function Sets(r: Request, v: nat, status: VariantStatus): VariantStatus {
    match r
    case Send => if status == VDraft || status == VFailed then VScheduled else status
    case Reschedule => if status == VDraft then VScheduled else status
    case Unschedule => if status == VScheduled then VDraft else status
    case CancelPost => if status == VDraft || status == VScheduled then VCanceled else status
    case RetryFailed => if status == VFailed then VScheduled else status
    case RetryJob(u) => if u == v then VScheduled else status
    case Reach(u) => if u == v then VScheduled else status
    case Resolve(u, resolution) =>
      if u != v then status
      else if resolution.ConfirmPublished? then VPublished else if resolution.ConfirmNot? then VScheduled else VFailed
    case _ => status
  }

  /** What each request does to the post, to every variant and to nothing else. */
  lemma {:induction false} WritesAre(s: State, r: Request, v: nat)
    requires Applies(s, r) && v < |s.variants|
    ensures
      var t, old_ := Written(s, r), s.variants[v];
      && t.post == (if r.Send? then Scheduled else if r.Unschedule? then Draft else if r.CancelPost? then Canceled
                    else if r.Move? then r.to else s.post)
      && |t.variants| == |s.variants| + (if r.AddAccount? then 1 else 0)
      && t.variants[v] ==
           (if r == RemoveAccount(v) then old_.(present := false, token := None, claimedAt := None)
            else if old_.present then old_.(status := Sets(r, v, old_.status)) else old_)
      && (r.AddAccount? ==> t.variants[|s.variants|] == Variant(r.account, true, VDraft, None, None))
      && t.used == s.used && t.queued == s.queued && t.rollUps == s.rollUps && t.settled == s.settled && t.asked == s.asked
      && t.log == s.log + (if r.Resolve? then [Decision(r.v, r.resolution, s.rounds + 1)] else [])
  {
    hide Has;
    assert s.log + [] == s.log;
  }

  predicate Runs(s: State, steps: seq<Step>)
    decreases |steps|
  {
    steps == [] || (Enabled(s, steps[0]) && Runs(Next(s, steps[0]), steps[1..]))
  }

  function After(s: State, steps: seq<Step>): State
    requires Runs(s, steps)
    decreases |steps|
  {
    if steps == [] then s else After(Next(s, steps[0]), steps[1..])
  }

  /** A post just written, its accounts different from one another and nothing attempted. */
  ghost predicate Init(s: State) {
    && (s.post == Idea || s.post == Draft) && s.queued == {} && s.asked == multiset{} && s.rollUps == multiset{}
    && s.log == [] && s.used == {} && s.rounds == 0 && s.stirs == 0 && s.settled.None?
    && (forall i :: 0 <= i < |s.variants| ==> s.variants[i] == Variant(s.variants[i].account, true, VDraft, None, None))
    && (forall i, j :: 0 <= i < j < |s.variants| ==> s.variants[i].account != s.variants[j].account)
  }

  function Drafts(accounts: seq<string>): seq<Variant> {
    seq(|accounts|, i requires 0 <= i < |accounts| => Variant(accounts[i], true, VDraft, None, None))
  }

  /** Every idea and every draft, for any different accounts, starts a run. */
  lemma CreatedStartsRun(post: PostStatus, accounts: seq<string>)
    requires post == Idea || post == Draft
    requires forall i, j :: 0 <= i < j < |accounts| ==> accounts[i] != accounts[j]
    ensures Init(State(post, Drafts(accounts), {}, multiset{}, multiset{}, [], {}, 0, 0, None))
  {
  }

  // ---------------------------------------------------------------- the log

  /** An outcome or a decision that says the post is out. */
  predicate Publishes(e: Recorded) {
    (e.Attempt? && e.outcome.PublishedAs?) || (e.Decision? && e.resolution.ConfirmPublished?)
  }

  /** An outcome nobody knows: it waits for a person. */
  predicate Parks(e: Recorded) {
    e.Attempt? && (e.outcome.Ambiguous? || e.outcome.Inconclusive?)
  }

  predicate Fails(e: Recorded) {
    (e.Attempt? && e.outcome.FailedWith?) || (e.Decision? && e.resolution.Abandon?)
  }

  /** Every entry is one of four kinds: it publishes, parks, fails, or leaves its variant to be tried again. */
  lemma EntriesAre(v: nat, outcome: Outcome, resolution: Resolution, round: nat)
    ensures Publishes(Attempt(v, outcome, round)) <==> VariantStatusFor(outcome) == VPublished
    ensures Parks(Attempt(v, outcome, round)) <==> VariantStatusFor(outcome) == VNeedsReview
    ensures Fails(Attempt(v, outcome, round)) <==> VariantStatusFor(outcome) == VFailed
    ensures Publishes(Decision(v, resolution, round)) <==> ResolvedStatus(resolution) == VPublished
    ensures Fails(Decision(v, resolution, round)) <==> ResolvedStatus(resolution) == VFailed
    ensures !Parks(Decision(v, resolution, round))
  {
  }

  function Last(log: seq<Recorded>, v: nat): Option<Recorded>
    decreases |log|
  {
    if log == [] then None
    else if log[|log| - 1].variant == v then Some(log[|log| - 1])
    else Last(log[..|log| - 1], v)
  }

  /** `e` may come after `before` for the same variant. */
  predicate Follows(before: Option<Recorded>, e: Recorded) {
    && (before.Some? ==> !Publishes(before.value))
    && (e.Decision? <==> before.Some? && Parks(before.value))
    && (before.Some? ==> before.value.round <= e.round && (Fails(before.value) ==> before.value.round < e.round))
  }

  ghost predicate Orderly(log: seq<Recorded>)
    decreases |log|
  {
    log == [] ||
    (Orderly(log[..|log| - 1]) && Follows(Last(log[..|log| - 1], log[|log| - 1].variant), log[|log| - 1]))
  }

  // ---------------------------------------------------------------- the invariant

  /** A claim is held exactly while its variant is publishing, and no two variants share one. */
  ghost predicate ClaimsAgree(variants: seq<Variant>, used: set<string>) {
    && (forall i :: 0 <= i < |variants| ==>
          && (variants[i].token.Some? <==> variants[i].present && variants[i].status == VPublishing)
          && (variants[i].token.Some? ==> variants[i].token.value in used))
    && (forall i, j :: 0 <= i < j < |variants| && variants[i].token.Some? ==> variants[i].token != variants[j].token)
  }

  ghost predicate AccountsDiffer(variants: seq<Variant>) {
    forall i, j :: 0 <= i < j < |variants| && variants[i].present && variants[j].present ==>
      variants[i].account != variants[j].account
  }

  /** What one variant's last entry says of its status. */
  predicate Fits(v: Variant, last: Option<Recorded>, rounds: nat) {
    && (last.Some? && Publishes(last.value) <==> v.present && v.status == VPublished)
    && (v.present ==> (last.Some? && Parks(last.value) <==> v.status == VNeedsReview))
    && (last.Some? ==> last.value.round <= rounds)
    && (v.present && last.Some? && Fails(last.value) && last.value.round == rounds ==> v.status == VFailed)
  }

  ghost predicate LogFits(variants: seq<Variant>, log: seq<Recorded>, rounds: nat) {
    && (forall k :: 0 <= k < |log| ==> log[k].variant < |variants|)
    && (forall v: nat :: v < |variants| ==> Fits(variants[v], Last(log, v), rounds))
  }

  ghost predicate Inv(s: State) {
    ClaimsAgree(s.variants, s.used) && AccountsDiffer(s.variants) && LogFits(s.variants, s.log, s.rounds) && Orderly(s.log)
  }

  /** What a write must find: the variant it reaches out of every worker's hands, and not settled since. */
  predicate LandsWell(s: State, r: Request) {
    match r
    case RetryJob(v) => Is(s, v, {VDraft, VScheduled, VFailed, VCanceled})
    case Reach(v) => Is(s, v, {VDraft, VScheduled, VFailed, VCanceled})
    case Resolve(v, _) => Is(s, v, {VNeedsReview})
    case RemoveAccount(v) => !Is(s, v, {VPublished})
    case _ => true
  }

  predicate StepLandsWell(s: State, step: Step) {
    step.Land? ==> LandsWell(s, step.request)
  }

  /** A write that finds what its check would pass again lands well; so do writes made at once. */
  lemma AllowedLandsWell(s: State, r: Request)
    requires Allowed(s, r)
    ensures LandsWell(s, r)
    ensures r.Send? || Applies(s, r)
  {
    hide AssertTransition, Has;
  }

  /** Requests that treat every variant alike, and never one that is publishing. */
  predicate Sweeps(r: Request) {
    r.Send? || r.Reschedule? || r.Unschedule? || r.CancelPost? || r.RetryFailed?
  }

  lemma {:induction false} SweepKeepsClaims(s: State, r: Request)
    requires ClaimsAgree(s.variants, s.used) && Applies(s, r) && Sweeps(r)
    ensures ClaimsAgree(Written(s, r).variants, Written(s, r).used)
  {
    hide Applies;
    var t := Written(s, r);
    forall i | 0 <= i < |s.variants|
      ensures t.variants[i].token == s.variants[i].token && t.variants[i].present == s.variants[i].present
      ensures t.variants[i].status == VPublishing <==> s.variants[i].status == VPublishing
    {
    }
  }

  lemma {:induction false} WrittenKeepsClaims(s: State, r: Request)
    requires ClaimsAgree(s.variants, s.used) && Applies(s, r) && LandsWell(s, r)
    ensures ClaimsAgree(Written(s, r).variants, Written(s, r).used)
  {
    hide Has;
    if Sweeps(r) {
      SweepKeepsClaims(s, r);
    }
  }

  lemma {:induction false} ClaimsKept(s: State, step: Step)
    requires ClaimsAgree(s.variants, s.used) && Enabled(s, step) && StepLandsWell(s, step)
    ensures ClaimsAgree(Next(s, step).variants, Next(s, step).used)
  {
    hide Statuses, Settles, Allowed, Applies, LandsWell, Written;
    if step.Land? {
      WrittenKeepsClaims(s, step.request);
    }
  }

  lemma {:induction false} WrittenKeepsAccounts(s: State, r: Request)
    requires AccountsDiffer(s.variants) && Applies(s, r)
    ensures AccountsDiffer(Written(s, r).variants)
  {
    hide Has;
  }

  lemma {:induction false} AccountsKept(s: State, step: Step)
    requires AccountsDiffer(s.variants) && Enabled(s, step)
    ensures AccountsDiffer(Next(s, step).variants)
  {
    hide Statuses, Settles, Allowed, Applies, Written;
    if step.Land? { WrittenKeepsAccounts(s, step.request); }
  }

  lemma LastGrows(log: seq<Recorded>, e: Recorded, v: nat)
    ensures Last(log + [e], v) == if e.variant == v then Some(e) else Last(log, v)
  {
    assert (log + [e])[..|log|] == log;
  }

  lemma {:induction false} NoneYet(log: seq<Recorded>, v: nat)
    requires forall k :: 0 <= k < |log| ==> log[k].variant < v
    ensures Last(log, v).None?
    decreases |log|
  {
    if log != [] { NoneYet(log[..|log| - 1], v); }
  }

  lemma OrderlyGrows(log: seq<Recorded>, e: Recorded)
    requires Orderly(log) && Follows(Last(log, e.variant), e)
    ensures Orderly(log + [e])
  {
    assert (log + [e])[..|log|] == log;
  }

  /** What one more entry for variant `v` leaves in step with the log. */
  lemma {:induction false} EntryKeeps(s: State, e: Recorded, w: Variant, rounds: nat)
    requires LogFits(s.variants, s.log, s.rounds) && Orderly(s.log) && s.rounds <= rounds && e.variant < |s.variants|
    requires Follows(Last(s.log, e.variant), e) && Fits(w, Some(e), rounds) && (s.rounds < rounds ==> e.Decision?)
    ensures LogFits(s.variants[e.variant := w], s.log + [e], rounds) && Orderly(s.log + [e])
  {
    hide Last, Orderly, Follows;
    var variants, log := s.variants[e.variant := w], s.log + [e];
    OrderlyGrows(s.log, e);
    forall v: nat | v < |variants| ensures Fits(variants[v], Last(log, v), rounds) {
      LastGrows(s.log, e, v);
      assert Fits(s.variants[v], Last(s.log, v), s.rounds);
    }
  }

  lemma {:induction false} FinishKeeps(s: State, step: Step)
    requires Inv(s) && Enabled(s, step) && step.Finish? && s.variants[step.v].token == Some(step.token)
    ensures LogFits(Next(s, step).variants, Next(s, step).log, Next(s, step).rounds) && Orderly(Next(s, step).log)
  {
    hide Statuses, Last, Orderly, LogFits;
    var t := Next(s, step);
    assert Fits(s.variants[step.v], Last(s.log, step.v), s.rounds) by { FitsAt(s, step.v); }
    EntryKeeps(s, Attempt(step.v, step.outcome, s.rounds), t.variants[step.v], s.rounds);
  }

  lemma FitsAt(s: State, v: nat)
    requires LogFits(s.variants, s.log, s.rounds) && v < |s.variants|
    ensures Fits(s.variants[v], Last(s.log, v), s.rounds)
  {
    hide Last, Fits;
  }

  lemma {:induction false} DecisionKeeps(s: State, r: Request)
    requires Inv(s) && r.Resolve? && LandsWell(s, r)
    ensures LogFits(Written(s, r).variants, Written(s, r).log, Written(s, r).rounds) && Orderly(Written(s, r).log)
  {
    hide Last, Orderly, LogFits;
    FitsAt(s, r.v);
    EntryKeeps(s, Decision(r.v, r.resolution, s.rounds + 1), Written(s, r).variants[r.v], s.rounds + 1);
  }

  lemma {:induction false} QuietWriteFits(s: State, r: Request, v: nat)
    requires LogFits(s.variants, s.log, s.rounds) && Applies(s, r) && LandsWell(s, r) && !r.Resolve? && v < |Written(s, r).variants|
    ensures Fits(Written(s, r).variants[v], Last(s.log, v), Written(s, r).rounds)
  {
    hide Last, Has;
    if v < |s.variants| {
      FitsAt(s, v);
    } else {
      NoneYet(s.log, v);
    }
  }

  lemma {:induction false} WrittenFits(s: State, r: Request)
    requires Inv(s) && Applies(s, r) && LandsWell(s, r)
    ensures LogFits(Written(s, r).variants, Written(s, r).log, Written(s, r).rounds) && Orderly(Written(s, r).log)
  {
    hide Last, Orderly, Fits, Applies, LandsWell, LogFits;
    if r.Resolve? {
      DecisionKeeps(s, r);
    } else {
      assert LogFits(Written(s, r).variants, Written(s, r).log, Written(s, r).rounds) by { QuietWriteKeeps(s, r); }
    }
  }

  lemma {:induction false} QuietWriteKeeps(s: State, r: Request)
    requires LogFits(s.variants, s.log, s.rounds) && Applies(s, r) && LandsWell(s, r) && !r.Resolve?
    ensures LogFits(Written(s, r).variants, Written(s, r).log, Written(s, r).rounds) && Written(s, r).log == s.log
  {
    hide Last, Fits, Has, LandsWell;
    var t := Written(s, r);
    assert t.log == s.log && |s.variants| <= |t.variants|;
    forall v: nat | v < |t.variants| ensures Fits(t.variants[v], Last(t.log, v), t.rounds) {
      QuietWriteFits(s, r, v);
    }
  }

  lemma {:induction false} WorkerStepFits(s: State, step: Step)
    requires Inv(s) && Enabled(s, step) && !step.Land?
    ensures LogFits(Next(s, step).variants, Next(s, step).log, Next(s, step).rounds) && Orderly(Next(s, step).log)
  {
    hide Statuses, Settles, Last, Orderly, Allowed;
    var t := Next(s, step);
    if step.Finish? && s.variants[step.v].token == Some(step.token) {
      FinishKeeps(s, step);
    } else {
      forall v: nat | v < |t.variants| ensures Fits(t.variants[v], Last(t.log, v), t.rounds) {
        FitsAt(s, v);
      }
    }
  }

  lemma {:induction false} LogKept(s: State, step: Step)
    requires Inv(s) && Enabled(s, step) && StepLandsWell(s, step)
    ensures LogFits(Next(s, step).variants, Next(s, step).log, Next(s, step).rounds) && Orderly(Next(s, step).log)
  {
    hide Last, Orderly, Fits, Inv, Applies, LandsWell, Written, Allowed;
    if step.Land? {
      WrittenFits(s, step.request);
    } else {
      WorkerStepFits(s, step);
    }
  }

  /** And no other landing keeps the invariant. */
  lemma {:induction false} LandsBadly(s: State, r: Request)
    requires Inv(s) && Applies(s, r) && !LandsWell(s, r)
    ensures !Inv(Written(s, r))
  {
    hide Last, Orderly, AccountsDiffer;
    var t := Written(s, r);
    FitsAt(s, r.v);
    if r.Resolve? {
      assert !Orderly(t.log) by { Disorder(s.log, Decision(r.v, r.resolution, s.rounds + 1)); }
    } else {
      assert t.log == s.log;
      assert LogFits(t.variants, t.log, t.rounds) ==> Fits(t.variants[r.v], Last(s.log, r.v), t.rounds);
    }
  }

  lemma Disorder(log: seq<Recorded>, e: Recorded)
    requires !Follows(Last(log, e.variant), e)
    ensures !Orderly(log + [e])
  {
    assert (log + [e])[..|log|] == log;
  }

  /** The exact condition, for every step. */
  lemma {:induction false} StepKeepsIff(s: State, step: Step)
    requires Inv(s) && Enabled(s, step)
    ensures Inv(Next(s, step)) <==> StepLandsWell(s, step)
  {
    hide ClaimsAgree, AccountsDiffer, LogFits, Orderly, Written, Applies, LandsWell, Allowed, Settles, Statuses;
    if StepLandsWell(s, step) {
      ClaimsKept(s, step);
      AccountsKept(s, step);
      LogKept(s, step);
    } else {
      LandsBadly(s, step.request);
      InvReadsNoRequest(Written(s, step.request), Next(s, step));
    }
  }

  lemma InvReadsNoRequest(s: State, t: State)
    requires t == s.(asked := t.asked)
    ensures Inv(s) <==> Inv(t)
  {
    hide ClaimsAgree, AccountsDiffer, Orderly, Fits, Last;
  }

  predicate AllLandWell(s: State, steps: seq<Step>)
    requires Runs(s, steps)
    decreases |steps|
  {
    steps == [] || (StepLandsWell(s, steps[0]) && AllLandWell(Next(s, steps[0]), steps[1..]))
  }

  ghost predicate InvThroughout(s: State, steps: seq<Step>)
    requires Runs(s, steps)
    decreases |steps|
  {
    Inv(s) && (steps == [] || InvThroughout(Next(s, steps[0]), steps[1..]))
  }

  /** In any interleaving the invariant holds at every moment if and only if every write lands well. */
  lemma {:induction false} RunKeepsIff(s: State, steps: seq<Step>)
    requires Inv(s) && Runs(s, steps)
    ensures InvThroughout(s, steps) <==> AllLandWell(s, steps)
    ensures AllLandWell(s, steps) ==> Inv(After(s, steps))
    decreases |steps|
  {
    hide Inv, Next, Enabled, StepLandsWell;
    if steps != [] {
      StepKeepsIff(s, steps[0]);
      if Inv(Next(s, steps[0])) {
        RunKeepsIff(Next(s, steps[0]), steps[1..]);
      } else {
        assert !InvThroughout(Next(s, steps[0]), steps[1..]);
      }
    }
  }

  // ---------------------------------------------------------------- what an orderly log says

  lemma {:induction false} LastIndex(log: seq<Recorded>, v: nat, j: nat) returns (i: nat)
    requires j < |log| && log[j].variant == v
    ensures j <= i < |log| && log[i].variant == v && Last(log, v) == Some(log[i])
    ensures forall m :: i < m < |log| ==> log[m].variant != v
    decreases |log|
  {
    i := |log| - 1;
    if log[i].variant != v { i := LastIndex(log[..i], v, j); }
  }

  ghost predicate DecidedBetween(log: seq<Recorded>, j: nat, k: nat)
    requires j < k < |log|
  {
    exists m :: j < m <= k && log[m].variant == log[j].variant && log[m].Decision?
  }

  /** What may come after an entry, for the same variant. */
  lemma {:induction false} AfterEntry(log: seq<Recorded>, j: nat, k: nat)
    requires Orderly(log) && j < k < |log| && log[j].variant == log[k].variant
    ensures !Publishes(log[j])
    ensures log[j].round <= log[k].round && (Fails(log[j]) ==> log[j].round < log[k].round)
    ensures Parks(log[j]) ==> DecidedBetween(log, j, k)
    decreases |log|
  {
    var before := log[..|log| - 1];
    if k < |log| - 1 {
      AfterEntry(before, j, k);
      if Parks(log[j]) {
        var m :| j < m <= k && before[m].variant == before[j].variant && before[m].Decision?;
        assert log[m] == before[m];
      }
    } else {
      var i := LastIndex(before, log[k].variant, j);
      assert before[i] == log[i] && before[j] == log[j];
      if j < i {
        AfterEntry(before, j, i);
        if Parks(log[j]) {
          var m :| j < m <= i && before[m].variant == before[j].variant && before[m].Decision?;
          assert log[m] == before[m];
        }
      }
    }
  }

  // ---------------------------------------------------------------- whole runs

  lemma InitHolds(s: State)
    requires Init(s)
    ensures Inv(s)
  {
  }

  ghost predicate Said(log: seq<Recorded>, v: nat) {
    exists k :: 0 <= k < |log| && log[k].variant == v && Publishes(log[k])
  }

  lemma {:induction false} PublishedMeansSaid(s: State, v: nat)
    requires Inv(s) && v < |s.variants|
    ensures s.variants[v].present && s.variants[v].status == VPublished <==> Said(s.log, v)
  {
    hide ClaimsAgree, AccountsDiffer, Last, Orderly;
    assert Fits(s.variants[v], Last(s.log, v), s.rounds);
    if Said(s.log, v) {
      var k :| 0 <= k < |s.log| && s.log[k].variant == v && Publishes(s.log[k]);
      var i := LastIndex(s.log, v, k);
      if k < i { AfterEntry(s.log, k, i); }
    } else if Last(s.log, v).Some? {
      var _ := SomeLast(s.log, v);
    }
  }

  lemma {:induction false} SomeLast(log: seq<Recorded>, v: nat) returns (k: nat)
    requires Last(log, v).Some?
    ensures k < |log| && log[k] == Last(log, v).value && log[k].variant == v
    decreases |log|
  {
    k := |log| - 1;
    if log[k].variant != v { k := SomeLast(log[..k], v); }
  }

  /** No account is recorded published twice, whichever of its variants it was through. */
  lemma {:induction false} AccountPublishedOnce(s: State, j: nat, k: nat)
    requires Inv(s) && j < k < |s.log| && Publishes(s.log[j]) && Publishes(s.log[k])
    ensures s.log[j].variant < |s.variants| && s.log[k].variant < |s.variants|
    ensures s.variants[s.log[j].variant].account != s.variants[s.log[k].variant].account
  {
    hide ClaimsAgree, Orderly, Fits, Last;
    if s.log[j].variant == s.log[k].variant { AfterEntry(s.log, j, k); }
    PublishedMeansSaid(s, s.log[j].variant);
    PublishedMeansSaid(s, s.log[k].variant);
  }

  /**
    No account is recorded published twice; nothing more is recorded for a variant once it is published, nor
    once it is parked until a person decides, nor once it has failed until a person releases variants again;
    and a variant reads published exactly when an outcome or a decision says so.
   */
  ghost predicate Safe(t: State) {
    && (forall k :: 0 <= k < |t.log| ==> t.log[k].variant < |t.variants|)
    && (forall j, k :: 0 <= j < k < |t.log| && Publishes(t.log[j]) && Publishes(t.log[k]) ==>
          t.variants[t.log[j].variant].account != t.variants[t.log[k].variant].account)
    && (forall j, k :: 0 <= j < k < |t.log| && t.log[j].variant == t.log[k].variant ==>
          && !Publishes(t.log[j])
          && (Parks(t.log[j]) ==> DecidedBetween(t.log, j, k))
          && (Fails(t.log[j]) ==> t.log[j].round < t.log[k].round))
    && (forall v: nat :: v < |t.variants| ==>
          (t.variants[v].present && t.variants[v].status == VPublished <==> Said(t.log, v)))
  }

  lemma {:induction false} InvIsSafe(t: State)
    requires Inv(t)
    ensures Safe(t)
  {
    hide ClaimsAgree, AccountsDiffer, Orderly, Fits, DecidedBetween, Publishes, Parks, Fails, Said;
    forall j, k | 0 <= j < k < |t.log| && Publishes(t.log[j]) && Publishes(t.log[k])
      ensures t.variants[t.log[j].variant].account != t.variants[t.log[k].variant].account
    {
      AccountPublishedOnce(t, j, k);
    }
    forall j, k | 0 <= j < k < |t.log| && t.log[j].variant == t.log[k].variant
      ensures !Publishes(t.log[j]) && (Parks(t.log[j]) ==> DecidedBetween(t.log, j, k))
      ensures Fails(t.log[j]) ==> t.log[j].round < t.log[k].round
    {
      AfterEntry(t.log, j, k);
    }
    forall v: nat | v < |t.variants|
      ensures t.variants[v].present && t.variants[v].status == VPublished <==> Said(t.log, v)
    {
      PublishedMeansSaid(t, v);
    }
  }

  /** Whatever workers and people do, in whatever order checks, reads and writes come, if every write lands well. */
  lemma {:induction false} RunsAreSafe(s: State, steps: seq<Step>)
    requires Init(s) && Runs(s, steps) && AllLandWell(s, steps)
    ensures Safe(After(s, steps))
  {
    hide Inv, Runs, After, Init, Safe, AllLandWell;
    InitHolds(s);
    RunKeepsIff(s, steps);
    InvIsSafe(After(s, steps));
  }

  /** Every write finds what its check would pass again, as if it were guarded on it. */
  predicate AllGuarded(s: State, steps: seq<Step>)
    requires Runs(s, steps)
    decreases |steps|
  {
    steps == [] || ((steps[0].Land? ==> Allowed(s, steps[0].request)) && AllGuarded(Next(s, steps[0]), steps[1..]))
  }

  lemma {:induction false} GuardedLandWell(s: State, steps: seq<Step>)
    requires Runs(s, steps) && AllGuarded(s, steps)
    ensures AllLandWell(s, steps)
    decreases |steps|
  {
    hide Next, Enabled, Allowed, LandsWell;
    if steps != [] {
      if steps[0].Land? { AllowedLandsWell(s, steps[0].request); }
      GuardedLandWell(Next(s, steps[0]), steps[1..]);
    }
  }

  /** So guarding every write on what was checked would be enough. */
  lemma {:induction false} GuardedRunsAreSafe(s: State, steps: seq<Step>)
    requires Init(s) && Runs(s, steps) && AllGuarded(s, steps)
    ensures Safe(After(s, steps))
  {
    hide Runs, After, Init, Safe, AllLandWell;
    GuardedLandWell(s, steps);
    RunsAreSafe(s, steps);
  }

  /** Sending a post reaches exactly the variants not canceled, not in an attempt, and neither published nor parked by their last entry. */
  lemma {:induction false} SendReaches(s: State, v: nat)
    requires Inv(s) && v < |s.variants| && s.variants[v].present && Applies(s, Send)
    ensures
      var last := Last(s.log, v);
      Written(s, Send).variants[v].status == VScheduled <==>
        && s.variants[v].status != VCanceled && s.variants[v].token.None?
        && !(last.Some? && (Publishes(last.value) || Parks(last.value)))
    ensures Written(s, Send).variants[v].status != VScheduled ==> Written(s, Send).variants[v] == s.variants[v]
  {
    hide Last, Orderly, AccountsDiffer, Has;
    FitsAt(s, v);
  }

  // ---------------------------------------------------------------- building runs

  lemma RunsOne(s: State, step: Step)
    requires Enabled(s, step)
    ensures Runs(s, [step]) && After(s, [step]) == Next(s, step)
  {
    hide Enabled, Next;
  }

  lemma {:induction false} RunsJoin(s: State, a: seq<Step>, b: seq<Step>)
    requires Runs(s, a) && Runs(After(s, a), b)
    ensures Runs(s, a + b) && After(s, a + b) == After(After(s, a), b)
    decreases |a|
  {
    hide Enabled, Next;
    if a == [] {
      assert a + b == b;
    } else {
      RunsJoin(Next(s, a[0]), a[1..], b);
      assert (a + b)[1..] == a[1..] + b;
    }
  }

  lemma CheckRuns(s: State, r: Request)
    requires Allowed(s, r)
    ensures Runs(s, [Check(r)]) && After(s, [Check(r)]) == s.(asked := s.asked + multiset{r})
  {
    hide Allowed, Runs, After, Applies, Written, Settles, Statuses, Is;
    RunsOne(s, Check(r));
  }

  lemma LandRuns(s: State, r: Request)
    requires r in s.asked && Applies(s, r)
    ensures Runs(s, [Land(r)]) && After(s, [Land(r)]) == Written(s, r).(asked := s.asked - multiset{r})
  {
    hide Applies, Written, Runs, After, Allowed, Settles, Statuses, Is;
    RunsOne(s, Land(r));
  }

  lemma ReadsNoRequest(s: State, t: State, r: Request)
    requires t == s.(asked := t.asked)
    ensures Applies(t, r) <==> Applies(s, r)
    ensures Applies(s, r) ==> Written(s, r).asked == s.asked && Written(t, r) == Written(s, r).(asked := t.asked)
  {
  }

  /** Checked and written with nothing in between. */
  function AtOnce(r: Request): seq<Step> {
    [Check(r), Land(r)]
  }

  lemma AtOnceRuns(s: State, r: Request)
    requires Allowed(s, r) && Applies(s, r)
    ensures Runs(s, AtOnce(r)) && After(s, AtOnce(r)) == Written(s, r)
  {
    hide Allowed, Applies, Written;
    RunsOne(s, Check(r));
    var t := Next(s, Check(r));
    ReadsNoRequest(s, t, r);
    RunsOne(t, Land(r));
    RunsJoin(s, [Check(r)], [Land(r)]);
    assert t.asked - multiset{r} == s.asked;
  }

  /** One attempt at a scheduled variant, and its outcome. */
  function Attempted(v: nat, token: string, now: int, outcome: Outcome): seq<Step> {
    [Enqueue(v)] + [Claim(v, token, now)] + [Finish(v, token, outcome)]
  }

  lemma {:induction false} AttemptRuns(s: State, v: nat, token: string, now: int, outcome: Outcome)
    requires Is(s, v, {VScheduled}) && token !in s.used
    ensures Runs(s, Attempted(v, token, now, outcome))
    ensures After(s, Attempted(v, token, now, outcome)) ==
      s.(queued := s.queued + {v}, used := s.used + {token}, log := s.log + [Attempt(v, outcome, s.rounds)],
         variants := s.variants[v := Given(s.variants[v], VariantStatusFor(outcome))])
  {
    hide Runs, After, Statuses, Written, Allowed, Applies, Settles;
    RunsOne(s, Enqueue(v));
    var s1 := Next(s, Enqueue(v));
    RunsOne(s1, Claim(v, token, now));
    RunsJoin(s, [Enqueue(v)], [Claim(v, token, now)]);
    var s2 := Next(s1, Claim(v, token, now));
    RunsOne(s2, Finish(v, token, outcome));
    RunsJoin(s, [Enqueue(v)] + [Claim(v, token, now)], [Finish(v, token, outcome)]);
    assert Next(s2, Finish(v, token, outcome)).variants == s.variants[v := Given(s.variants[v], VariantStatusFor(outcome))];
  }

  /** A claim may be taken over by another worker once more than fifteen minutes have passed since it was made, and not before. */
  lemma TakenOverAfter(s: State, v: nat, token: string, at: int, other: string, now: int)
    requires Enabled(s, Claim(v, token, at)) && other !in s.used && other != token
    ensures
      var t := Next(s, Claim(v, token, at));
      && t.variants[v].token == Some(token) && t.variants[v].status == VPublishing
      && (Enabled(t, TakeOver(v, other, at, now)) <==> now - at > 900_000)
      && (Enabled(t, TakeOver(v, other, at, now)) ==> Next(t, TakeOver(v, other, at, now)).variants[v].token == Some(other))
  {
  }

  /** An attempt whose outcome may be tried again leaves its variant to be claimed with nobody deciding; no other does. */
  lemma {:induction false} ClaimableAgainIff(s: State, v: nat, token: string, outcome: Outcome, again: string, now: int)
    requires v < |s.variants| && s.variants[v].present && s.variants[v].token == Some(token) && v in s.queued && again !in s.used
    ensures Enabled(Next(s, Finish(v, token, outcome)), Claim(v, again, now)) <==> outcome.Retryable?
    ensures
      var t := Next(s, Finish(v, token, outcome));
      && (t.variants[v].status == VPublished <==> outcome.PublishedAs?)
      && (t.variants[v].status == VFailed <==> outcome.FailedWith?)
      && (t.variants[v].status == VNeedsReview <==> outcome.Ambiguous? || outcome.Inconclusive?)
  {
  }

  /**
    Deleting and adding an account again forgets that its outcome is unknown: on an unlocked post a parked
    variant comes back as a draft, and sending a failed post attempts it with nobody having decided.
   */
  lemma {:induction false} ReaddedAccountIsFresh(s: State, v: nat)
    requires Inv(s) && s.post == Failed && Is(s, v, {VNeedsReview})
    ensures
      var steps := AtOnce(RemoveAccount(v)) + AtOnce(AddAccount(s.variants[v].account)) + AtOnce(Send);
      && Runs(s, steps)
      && var t := After(s, steps);
      && |t.variants| == |s.variants| + 1
      && t.variants[|s.variants|] == Variant(s.variants[v].account, true, VScheduled, None, None)
      && t.log == s.log
  {
    hide ClaimsAgree, LogFits, Orderly, Runs, After, AtOnce, Sent, Each;
    var account := s.variants[v].account;
    AtOnceRuns(s, RemoveAccount(v));
    var s1 := Written(s, RemoveAccount(v));
    AddsBack(s, v);
    AtOnceRuns(s1, AddAccount(account));
    RunsJoin(s, AtOnce(RemoveAccount(v)), AtOnce(AddAccount(account)));
    var s2 := Written(s1, AddAccount(account));
    SendsDraft(s2, |s.variants|);
    AtOnceRuns(s2, Send);
    RunsJoin(s, AtOnce(RemoveAccount(v)) + AtOnce(AddAccount(account)), AtOnce(Send));
  }

  lemma AddsBack(s: State, v: nat)
    requires AccountsDiffer(s.variants) && v < |s.variants| && s.variants[v].present
    ensures Applies(s, RemoveAccount(v)) && Free(Written(s, RemoveAccount(v)).variants, s.variants[v].account)
  {
  }

  lemma SendsDraft(s: State, v: nat)
    requires Is(s, v, {VDraft})
    ensures Applies(s, Send)
    ensures
      var t := Written(s, Send);
      t.log == s.log && |t.variants| == |s.variants| && t.variants[v] == s.variants[v].(status := VScheduled)
  {
  }

  // ---------------------------------------------------------------- what stays published

  predicate StaysIn(a: seq<Variant>, b: seq<Variant>) {
    && |a| <= |b|
    && forall i :: 0 <= i < |a| && a[i].present && a[i].status == VPublished ==> b[i].present && b[i].status == VPublished
  }

  lemma {:induction false} PublishedCount(a: seq<Variant>, b: seq<Variant>)
    requires StaysIn(a, b)
    ensures Count(Statuses(a), {VPublished}) <= Count(Statuses(b), {VPublished})
    decreases |b|
  {
    hide Count, Statuses;
    if b != [] {
      CountLast(b);
      if |a| < |b| {
        PublishedCount(a, b[..|b| - 1]);
      } else {
        CountLast(a);
        PublishedCount(a[..|a| - 1], b[..|b| - 1]);
      }
    }
  }

  lemma CountLast(variants: seq<Variant>)
    requires variants != []
    ensures
      var last := variants[|variants| - 1];
      Count(Statuses(variants), {VPublished}) ==
        Count(Statuses(variants[..|variants| - 1]), {VPublished}) + if last.present && last.status == VPublished then 1 else 0
  {
    var last, before := variants[|variants| - 1], Statuses(variants[..|variants| - 1]);
    if last.present {
      assert Statuses(variants)[..|before|] == before;
    } else {
      assert Statuses(variants) == before;
    }
  }

  /** A write that takes nothing published away: it finds its variant unpublished, or confirms that it is published. */
  predicate TakesNothing(s: State, r: Request) {
    match r
    case RetryJob(v) => !Is(s, v, {VPublished})
    case Reach(v) => !Is(s, v, {VPublished})
    case Resolve(v, resolution) => resolution.ConfirmPublished? || !Is(s, v, {VPublished})
    case RemoveAccount(v) => !Is(s, v, {VPublished})
    case _ => true
  }

  lemma {:induction false} WrittenStaysInIff(s: State, r: Request)
    requires Applies(s, r)
    ensures StaysIn(s.variants, Written(s, r).variants) <==> TakesNothing(s, r)
  {
    hide Has;
    if !TakesNothing(s, r) {
      assert s.variants[r.v].present && s.variants[r.v].status == VPublished;
    }
  }

  /** The exact condition under which a step leaves published variants published. */
  lemma {:induction false} StepStaysInIff(s: State, step: Step)
    requires ClaimsAgree(s.variants, s.used) && Enabled(s, step)
    ensures StaysIn(s.variants, Next(s, step).variants) <==> (step.Land? ==> TakesNothing(s, step.request))
  {
    hide Statuses, Settles, Allowed, Applies, Written, TakesNothing;
    if step.Land? { WrittenStaysInIff(s, step.request); }
  }

  lemma LandsWellTakesNothing(s: State, r: Request)
    requires LandsWell(s, r)
    ensures TakesNothing(s, r)
  {
  }

  lemma {:induction false} RunStaysIn(s: State, steps: seq<Step>)
    requires Inv(s) && Runs(s, steps) && AllLandWell(s, steps)
    ensures StaysIn(s.variants, After(s, steps).variants)
    decreases |steps|
  {
    hide ClaimsAgree, AccountsDiffer, LogFits, Orderly, Next, Enabled, LandsWell, TakesNothing;
    if steps != [] {
      StepKeepsIff(s, steps[0]);
      StepStaysInIff(s, steps[0]);
      if steps[0].Land? { LandsWellTakesNothing(s, steps[0].request); }
      RunStaysIn(Next(s, steps[0]), steps[1..]);
    }
  }

  /** What has been published stays published and is never deleted, so the published count never falls. */
  lemma {:induction false} PublishedNeverFalls(s: State, steps: seq<Step>)
    requires Inv(s) && Runs(s, steps) && AllLandWell(s, steps)
    ensures StaysIn(s.variants, After(s, steps).variants)
    ensures SummaryOf(Statuses(s.variants)).published <= SummaryOf(Statuses(After(s, steps).variants)).published
  {
    RunStaysIn(s, steps);
    PublishedCount(s.variants, After(s, steps).variants);
  }

  // ---------------------------------------------------------------- lost claims

  predicate HeldByNone(s: State, token: string) {
    token in s.used && forall i :: 0 <= i < |s.variants| ==> s.variants[i].token != Some(token)
  }

  lemma WrittenHeldByNone(s: State, token: string, r: Request)
    requires HeldByNone(s, token) && Applies(s, r)
    ensures HeldByNone(Written(s, r), token)
  {
    hide Has;
  }

  lemma StepHeldByNone(s: State, token: string, step: Step)
    requires HeldByNone(s, token) && Enabled(s, step)
    ensures HeldByNone(Next(s, step), token)
  {
    hide Statuses, Settles, Allowed, Applies, Written;
    if step.Land? { WrittenHeldByNone(s, token, step.request); }
  }

  lemma {:induction false} RunHeldByNone(s: State, token: string, steps: seq<Step>)
    requires HeldByNone(s, token) && Runs(s, steps)
    ensures HeldByNone(After(s, steps), token)
    decreases |steps|
  {
    hide HeldByNone, Next, Enabled;
    if steps != [] {
      StepHeldByNone(s, token, steps[0]);
      RunHeldByNone(Next(s, steps[0]), token, steps[1..]);
    }
  }

  /** Neither releasing nor finishing under this token changes anything. */
  ghost predicate CanWriteNothing(s: State, token: string) {
    && (forall v: nat, outcome :: v < |s.variants| ==> Next(s, Finish(v, token, outcome)) == s)
    && (forall v: nat :: v < |s.variants| ==> Next(s, Release(v, token)) == s)
  }

  lemma HeldByNoneWritesNothing(s: State, token: string)
    requires HeldByNone(s, token)
    ensures CanWriteNothing(s, token)
  {
  }

  function Losing(step: Step): nat
    requires step.TakeOver? || (step.Land? && step.request.RemoveAccount?)
  {
    if step.TakeOver? then step.v else step.request.v
  }

  /** The claim of a variant is lost when another worker takes it over, or when its account is removed. */
  predicate Loses(s: State, step: Step) {
    && Enabled(s, step) && (step.TakeOver? || (step.Land? && step.request.RemoveAccount?))
    && s.variants[Losing(step)].token.Some?
  }

  lemma LossFrees(s: State, step: Step)
    requires ClaimsAgree(s.variants, s.used) && Loses(s, step)
    ensures HeldByNone(Next(s, step), s.variants[Losing(step)].token.value)
  {
    hide Allowed;
    if step.Land? {
      ClaimFreed(s, step.request);
    }
  }

  lemma ClaimFreed(s: State, r: Request)
    requires ClaimsAgree(s.variants, s.used) && r.RemoveAccount? && Applies(s, r) && s.variants[r.v].token.Some?
    ensures HeldByNone(Written(s, r), s.variants[r.v].token.value)
  {
  }

  /** Once a claim is lost, its worker can write nothing more, in any run that follows, however its writes land. */
  lemma {:induction false} LostClaimIsDead(s: State, loss: Step, steps: seq<Step>)
    requires Inv(s) && Loses(s, loss) && Runs(Next(s, loss), steps)
    ensures CanWriteNothing(After(Next(s, loss), steps), s.variants[Losing(loss)].token.value)
  {
    hide Runs, After, Next, HeldByNone, CanWriteNothing, AccountsDiffer, LogFits, Orderly;
    var lost := s.variants[Losing(loss)].token.value;
    LossFrees(s, loss);
    RunHeldByNone(Next(s, loss), lost, steps);
    HeldByNoneWritesNothing(After(Next(s, loss), steps), lost);
  }
}
