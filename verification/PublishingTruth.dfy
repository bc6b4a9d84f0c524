/**
  When a settled post says what its variants say (`apps/worker/src/publishing/rollup.ts`, which reads the
  variants and later writes the post, guarded on the post's own status alone, against the retries of
  `apps/web/src/features/publishing/service.ts`, which leave the post where it is).
 */
module PublishingTruth {
  import opened Wrappers
  import opened PostLifecycle
  import opened Publishing
  import opened PublishingRuns

  predicate PostSettled(p: PostStatus) {
    p == Published || p == PartiallyPublished || p == Failed
  }

  predicate Agrees(s: State) {
    RolledUp(s.variants) == Some(s.post)
  }

  lemma {:induction false} StatusesMember(variants: seq<Variant>, which: set<VariantStatus>)
    ensures Has(variants, which) <==> exists st :: st in Statuses(variants) && st in which
    decreases |variants|
  {
    if variants != [] {
      var before, last := variants[..|variants| - 1], variants[|variants| - 1];
      StatusesMember(before, which);
      if Has(before, which) {
        var i :| 0 <= i < |before| && before[i].present && before[i].status in which;
        assert variants[i] == before[i];
      }
      if Has(variants, which) && !(last.present && last.status in which) {
        var i :| 0 <= i < |variants| && variants[i].present && variants[i].status in which;
        assert before[i] == variants[i];
      }
      if last.present {
        assert Statuses(variants)[|Statuses(before)|] == last.status;
      }
    }
  }

  lemma One(variants: seq<Variant>, st: VariantStatus)
    ensures Has(variants, {st}) <==> st in Statuses(variants)
  {
    StatusesMember(variants, {st});
  }

  /** The roll-up read off the variants that are there. */
  lemma {:induction false} RolledUpMeans(variants: seq<Variant>)
    ensures
      var r := RolledUp(variants);
      && (r.None? <==> Has(variants, PENDING))
      && (r == Some(Published) <==> Has(variants, {VPublished}) && !Has(variants, PENDING + {VFailed, VNeedsReview}))
      && (r == Some(Failed) <==> Has(variants, {VFailed}) && !Has(variants, PENDING + {VPublished, VNeedsReview}))
      && (r == Some(PartiallyPublished) <==>
            !Has(variants, PENDING) && (Has(variants, {VNeedsReview}) || (Has(variants, {VPublished}) && Has(variants, {VFailed}))))
      && (r == Some(Canceled) <==> !Has(variants, COUNTED))
      && (r.Some? ==> PostSettled(r.value) || r.value == Canceled)
  {
    hide Has, SummaryOf, Statuses;
    var statuses := Statuses(variants);
    RollUpMeans(statuses);
    One(variants, VPublished);
    One(variants, VFailed);
    One(variants, VNeedsReview);
    StatusesMember(variants, PENDING);
    StatusesMember(variants, PENDING + {VFailed, VNeedsReview});
    StatusesMember(variants, PENDING + {VPublished, VNeedsReview});
    StatusesMember(variants, COUNTED);
  }

  // ---------------------------------------------------------------- what settled the post

  /** What was read is what the variants say still, if it would settle the post, unless a person has changed one since. */
  predicate Stands(s: State, read: Read) {
    && read.stirs <= s.stirs
    && (Target(read).Some? && read.stirs == s.stirs ==> Statuses(s.variants) == read.statuses)
  }

  /** Nobody may ask for a status that only the worker writes. */
  ghost predicate PeopleAsk(asked: multiset<Request>) {
    forall r :: r in asked && r.Move? ==> !SystemWritten(r.to)
  }

  /** A settled post says what was read when it settled, and every roll-up read, written or not yet, stands. */
  ghost predicate SettledTruly(s: State) {
    && (PostSettled(s.post) ==> s.settled.Some? && Target(s.settled.value) == Some(s.post))
    && (s.settled.Some? ==> Stands(s, s.settled.value))
    && (forall read :: read in s.rollUps ==> Stands(s, read))
    && PeopleAsk(s.asked)
  }

  /** Steps by which a person changes a variant. */
  predicate Stirring(step: Step) {
    step.Land? && Stirs(step.request)
  }

  lemma {:induction false} NothingInFlight(variants: seq<Variant>)
    requires RolledUp(variants).Some?
    ensures forall i :: 0 <= i < |variants| && variants[i].present ==> !InFlight(variants[i].status)
  {
    hide RolledUp, COUNTED;
    RolledUpMeans(variants);
  }

  lemma {:induction false} QuietWritten(s: State, r: Request)
    requires Applies(s, r) && !Stirs(r) && ClaimsAgree(s.variants, s.used)
    requires forall i :: 0 <= i < |s.variants| && s.variants[i].present ==> !InFlight(s.variants[i].status)
    ensures Written(s, r).variants == s.variants && Written(s, r).stirs == s.stirs
  {
    hide Has;
    var t := Written(s, r);
    forall i | 0 <= i < |s.variants| ensures t.variants[i] == s.variants[i] {
    }
  }

  /** Variants that would settle a post change only if a person changes them. */
  lemma {:induction false} QuietStands(s: State, step: Step)
    requires ClaimsAgree(s.variants, s.used) && RolledUp(s.variants).Some? && Enabled(s, step) && !Stirring(step)
    ensures Next(s, step).variants == s.variants && Next(s, step).stirs == s.stirs
  {
    hide RolledUp, Statuses, Settles, Allowed, Applies, Written, COUNTED;
    NothingInFlight(s.variants);
    if step.Land? { QuietWritten(s, step.request); }
  }

  lemma {:induction false} StandsKept(s: State, step: Step, read: Read)
    requires ClaimsAgree(s.variants, s.used) && Stands(s, read) && Enabled(s, step)
    ensures Stands(Next(s, step), read)
  {
    hide Statuses, SummaryOf, PostStatusFor, ClaimsAgree, Settles, Allowed, Applies;
    if !Stirring(step) && Target(read).Some? && read.stirs == s.stirs {
      QuietStands(s, step);
    }
  }

  lemma {:induction false} PeopleAskStill(s: State, step: Step)
    requires PeopleAsk(s.asked) && Enabled(s, step)
    ensures PeopleAsk(Next(s, step).asked)
  {
    hide Statuses, Settles, Applies;
    if step.Check? && step.request.Move? { SystemWritesExactly(s.post, step.request.to); }
  }

  /** The status a step leaves a post settled in is the one it had, or the one a roll-up read. */
  lemma {:induction false} SettlesOnlyByRollUp(s: State, step: Step)
    requires PeopleAsk(s.asked) && Enabled(s, step) && PostSettled(Next(s, step).post)
    ensures
      || (Next(s, step).post == s.post && Next(s, step).settled == s.settled)
      || (step.WriteRollUp? && Next(s, step).settled == Some(step.read) && Target(step.read) == Some(Next(s, step).post))
  {
    hide Statuses, Allowed, Applies, SummaryOf, AssertTransition;
  }

  lemma {:induction false} SettledKept(s: State, step: Step)
    requires ClaimsAgree(s.variants, s.used) && SettledTruly(s) && Enabled(s, step)
    ensures SettledTruly(Next(s, step))
  {
    hide Stands, Target, ClaimsAgree, Enabled, PeopleAsk;
    var t := Next(s, step);
    PeopleAskStill(s, step);
    if PostSettled(t.post) { SettlesOnlyByRollUp(s, step); }
    SettledGrows(s, step);
    if t.settled.Some? { StandsKept(s, step, t.settled.value); }
    forall read | read in t.rollUps ensures Stands(t, read) {
      if read in s.rollUps { StandsKept(s, step, read); } else { ReadStands(s, step, read); }
    }
  }

  lemma WrittenAside(s: State, r: Request)
    requires Applies(s, r)
    ensures Written(s, r).settled == s.settled && Written(s, r).rollUps == s.rollUps
  {
    hide Applies;
  }

  lemma SettledGrows(s: State, step: Step)
    requires Enabled(s, step)
    ensures Next(s, step).settled == s.settled || (step.WriteRollUp? && step.read in s.rollUps && Next(s, step).settled == Some(step.read))
  {
    hide Statuses, Allowed, Applies, Settles, Written;
    if step.Land? { WrittenAside(s, step.request); }
  }

  lemma ReadStands(s: State, step: Step, read: Read)
    requires Enabled(s, step) && read in Next(s, step).rollUps && read !in s.rollUps
    ensures Stands(Next(s, step), read)
  {
    hide Statuses, Allowed, Applies, Settles, Target, Written, Is;
    if step.Land? { WrittenAside(s, step.request); }
  }

  lemma {:induction false} RunSettles(s: State, steps: seq<Step>)
    requires Inv(s) && SettledTruly(s) && Runs(s, steps) && AllLandWell(s, steps)
    ensures Inv(After(s, steps)) && SettledTruly(After(s, steps))
    decreases |steps|
  {
    hide ClaimsAgree, AccountsDiffer, LogFits, Orderly, Next, Enabled, SettledTruly, LandsWell;
    if steps != [] {
      StepKeepsIff(s, steps[0]);
      SettledKept(s, steps[0]);
      RunSettles(Next(s, steps[0]), steps[1..]);
    }
  }

  /**
    Over every run whose writes land well, a settled post is what the roll-up read that settled it, and until
    a person retries, sends, decides, adds or removes one of its variants after that read, it is what they
    make it now.
   */
  lemma {:induction false} SettledPostsTellTruth(s: State, steps: seq<Step>)
    requires Init(s) && Runs(s, steps) && AllLandWell(s, steps)
    ensures
      var t := After(s, steps);
      PostSettled(t.post) ==>
        && t.settled.Some? && Target(t.settled.value) == Some(t.post)
        && (t.settled.value.stirs == t.stirs ==> Agrees(t))
        && (Agrees(t) <==> RolledUp(t.variants) == Target(t.settled.value))
  {
    hide Statuses, SummaryOf, PostStatusFor, ClaimsAgree, AccountsDiffer, LogFits, Orderly, Runs, After, AllLandWell;
    InitHolds(s);
    RunSettles(s, steps);
  }

  /** A roll-up read in one state and written in another: what it settles agrees if and only if the variants roll up to the same still. */
  lemma {:induction false} LateRollUpAgreesIff(s: State, steps: seq<Step>)
    requires Inv(s) && SettledTruly(s) && Runs(Next(s, ReadRollUp), steps) && AllLandWell(Next(s, ReadRollUp), steps)
    requires
      var read := Read(s.post, Statuses(s.variants), s.stirs);
      read in After(Next(s, ReadRollUp), steps).rollUps && Settles(After(Next(s, ReadRollUp), steps), read)
    ensures
      var t := After(Next(s, ReadRollUp), steps);
      var u := Next(t, WriteRollUp(Read(s.post, Statuses(s.variants), s.stirs)));
      && RolledUp(s.variants) == Some(u.post)
      && (Agrees(u) <==> RolledUp(t.variants) == RolledUp(s.variants))
      && (t.stirs == s.stirs ==> Agrees(u))
  {
    hide Statuses, SummaryOf, PostStatusFor, ClaimsAgree, AccountsDiffer, LogFits, Orderly, Runs, After, AllLandWell, AssertTransition;
    StepKeepsIff(s, ReadRollUp);
    SettledKept(s, ReadRollUp);
    RunSettles(Next(s, ReadRollUp), steps);
    assert Stands(After(Next(s, ReadRollUp), steps), Read(s.post, Statuses(s.variants), s.stirs));
  }

  /**
    The retry that comes in between: the roll-up reads only failures, one of them is released, and the post is
    settled failed with an account about to be attempted.
   */
  lemma {:induction false} LateRollUpSettlesWrongly(s: State, v: nat)
    requires s.post == PostStatus.Publishing && RolledUp(s.variants) == Some(Failed) && Is(s, v, {VFailed}) && v in s.queued
    ensures
      var read := Read(s.post, Statuses(s.variants), s.stirs);
      var run := [ReadRollUp] + AtOnce(RetryJob(v)) + [WriteRollUp(read)];
      && Runs(s, run) && AllLandWell(s, run)
      && After(s, run).post == Failed && RolledUp(After(s, run).variants).None?
  {
    hide Runs, After, AllLandWell, Statuses, SummaryOf, PostStatusFor, AtOnce, Written;
    var read := Read(s.post, Statuses(s.variants), s.stirs);
    RunsOne(s, ReadRollUp);
    WellOne(s, ReadRollUp);
    var s1 := Next(s, ReadRollUp);
    AtOnceRuns(s1, RetryJob(v));
    AtOnceWell(s1, RetryJob(v));
    RunsJoin(s, [ReadRollUp], AtOnce(RetryJob(v)));
    WellJoin(s, [ReadRollUp], AtOnce(RetryJob(v)));
    var r1 := [ReadRollUp] + AtOnce(RetryJob(v));
    var s2 := Written(s1, RetryJob(v));
    ReleasedOne(s1, v);
    RunsOne(s2, WriteRollUp(read));
    WellOne(s2, WriteRollUp(read));
    RunsJoin(s, r1, [WriteRollUp(read)]);
    WellJoin(s, r1, [WriteRollUp(read)]);
  }

  lemma ReleasedOne(s: State, v: nat)
    requires v < |s.variants| && s.variants[v].present
    ensures
      var t := Written(s, RetryJob(v));
      t.post == s.post && t.rollUps == s.rollUps && t.used == s.used && RolledUp(t.variants).None?
  {
    hide RolledUp, Statuses;
    var t := Written(s, RetryJob(v));
    assert t.variants[v].present && InFlight(t.variants[v].status);
    RolledUpMeans(t.variants);
  }

  lemma WellOne(s: State, step: Step)
    requires Enabled(s, step) && StepLandsWell(s, step)
    ensures Runs(s, [step]) && AllLandWell(s, [step])
  {
    hide Enabled, Next, StepLandsWell;
  }

  lemma {:induction false} WellJoin(s: State, a: seq<Step>, b: seq<Step>)
    requires Runs(s, a) && Runs(After(s, a), b) && AllLandWell(s, a) && AllLandWell(After(s, a), b)
    ensures Runs(s, a + b) && AllLandWell(s, a + b)
    decreases |a|
  {
    hide Enabled, Next, StepLandsWell;
    RunsJoin(s, a, b);
    if a == [] {
      assert a + b == b;
    } else {
      WellJoin(Next(s, a[0]), a[1..], b);
      assert (a + b)[1..] == a[1..] + b;
    }
  }

  lemma AtOnceWell(s: State, r: Request)
    requires Allowed(s, r) && Applies(s, r)
    ensures Runs(s, AtOnce(r)) && AllLandWell(s, AtOnce(r))
  {
    hide Allowed, Applies, Written, Runs, After, Settles, Statuses, Is, LandsWell, AllLandWell;
    CheckRuns(s, r);
    WellOne(s, Check(r));
    var t := Next(s, Check(r));
    ReadsNoRequest(s, t, r);
    AllowedLandsWell(s, r);
    LandsReadsNoRequest(s, t, r);
    WellOne(t, Land(r));
    WellJoin(s, [Check(r)], [Land(r)]);
    assert [Check(r)] + [Land(r)] == AtOnce(r);
  }

  lemma LandsReadsNoRequest(s: State, t: State, r: Request)
    requires t == s.(asked := t.asked)
    ensures LandsWell(s, r) <==> LandsWell(t, r)
  {
  }

  // ---------------------------------------------------------------- what a step does to the roll-up

  predicate OtherHas(s: State, v: nat, which: set<VariantStatus>) {
    exists i :: 0 <= i < |s.variants| && i != v && s.variants[i].present && s.variants[i].status in which
  }

  /**
    When a step leaves the roll-up of settled variants as it is: it releases nothing for another attempt and
    adds no account; after a removal the others roll up to the same; after a parked variant is confirmed,
    another is parked or has failed; after one is abandoned, another is parked or published.
   */
  predicate LeavesRollUp(s: State, r: Request, target: PostStatus) {
    match r
    case Send => false
    case RetryFailed => !Has(s.variants, {VFailed})
    case RetryJob(_) => false
    case Reach(_) => false
    case AddAccount(_) => false
    case RemoveAccount(v) =>
      if target == Failed then OtherHas(s, v, {VFailed})
      else if target == PartiallyPublished then OtherHas(s, v, {VNeedsReview}) || (OtherHas(s, v, {VPublished}) && OtherHas(s, v, {VFailed}))
      else true
    case Resolve(v, resolution) =>
      (match resolution
       case ConfirmPublished => OtherHas(s, v, {VFailed, VNeedsReview})
       case ConfirmNot => false
       case Abandon => OtherHas(s, v, {VPublished, VNeedsReview}))
    case _ => true
  }

  /** Requests that put some variant back in flight. */
  lemma {:induction false} ReleasedIsPending(s: State, r: Request)
    requires Applies(s, r) && RolledUp(s.variants).Some?
    requires
      || r.Send? || (r.RetryFailed? && Has(s.variants, {VFailed})) || r.RetryJob? || r.Reach? || r.AddAccount?
      || (r.Resolve? && r.resolution.ConfirmNot?)
    ensures RolledUp(Written(s, r).variants).None?
  {
    hide RolledUp, Statuses;
    var t := Written(s, r);
    RolledUpMeans(s.variants);
    var i :=
      if r.Send? then var k :| 0 <= k < |s.variants| && s.variants[k].present && s.variants[k].status in {VDraft, VScheduled, VFailed}; k
      else if r.RetryFailed? then var k :| 0 <= k < |s.variants| && s.variants[k].present && s.variants[k].status in {VFailed}; k
      else if r.AddAccount? then |s.variants|
      else r.v;
    assert t.variants[i].present && InFlight(t.variants[i].status);
    RolledUpMeans(t.variants);
  }

  lemma {:induction false} OneChanged(s: State, v: nat, w: Variant, which: set<VariantStatus>)
    requires v < |s.variants|
    ensures Has(s.variants[v := w], which) <==> (w.present && w.status in which) || OtherHas(s, v, which)
  {
    var changed := s.variants[v := w];
    if w.present && w.status in which {
      assert changed[v].present && changed[v].status in which;
    }
    if OtherHas(s, v, which) {
      var i :| 0 <= i < |s.variants| && i != v && s.variants[i].present && s.variants[i].status in which;
      assert changed[i] == s.variants[i];
    }
  }

  /** What the variants roll up to, from one and the others. */
  lemma {:induction false} SplitOff(s: State, v: nat, w: Variant, which: set<VariantStatus>, more: set<VariantStatus>)
    requires v < |s.variants| && forall st :: st in which ==> st in more
    ensures Has(s.variants, which) <==> (s.variants[v].present && s.variants[v].status in which) || OtherHas(s, v, which)
    ensures Has(s.variants[v := w], which) <==> (w.present && w.status in which) || OtherHas(s, v, which)
    ensures OtherHas(s, v, which) ==> OtherHas(s, v, more)
  {
    hide Has;
    OneChanged(s, v, s.variants[v], which);
    assert s.variants[v := s.variants[v]] == s.variants;
    OneChanged(s, v, w, which);
  }

  lemma {:induction false} RemovalLeavesIff(s: State, r: Request, target: PostStatus)
    requires RolledUp(s.variants) == Some(target) && PostSettled(target)
    requires Applies(s, r) && r.RemoveAccount? && LandsWell(s, r)
    ensures RolledUp(Written(s, r).variants) == Some(target) <==> LeavesRollUp(s, r, target)
  {
    hide RolledUp, Statuses, Has, OtherHas;
    var v, w := r.v, Written(s, r).variants[r.v];
    RolledUpMeans(s.variants);
    RolledUpMeans(Written(s, r).variants);
    SplitOff(s, v, w, PENDING, PENDING);
    SplitOff(s, v, w, {VPublished}, COUNTED);
    SplitOff(s, v, w, {VFailed}, COUNTED);
    SplitOff(s, v, w, {VNeedsReview}, COUNTED);
    SplitOff(s, v, w, PENDING + {VFailed, VNeedsReview}, COUNTED);
    SplitOff(s, v, w, PENDING + {VPublished, VNeedsReview}, COUNTED);
    SplitOff(s, v, w, COUNTED, COUNTED);
  }

  lemma {:induction false} ResolutionLeavesIff(s: State, r: Request, target: PostStatus)
    requires RolledUp(s.variants) == Some(target) && PostSettled(target)
    requires Applies(s, r) && r.Resolve? && !r.resolution.ConfirmNot? && LandsWell(s, r)
    ensures RolledUp(Written(s, r).variants) == Some(target) <==> LeavesRollUp(s, r, target)
  {
    hide RolledUp, Statuses, Has, OtherHas;
    var v, w := r.v, Written(s, r).variants[r.v];
    assert Has(s.variants, {VNeedsReview}) by { IsHas(s, v, {VNeedsReview}); }
    ParkedIsPartial(s, target);
    RolledUpMeans(Written(s, r).variants);
    SplitOff(s, v, w, PENDING, PENDING);
    OneChanged(s, v, w, {VNeedsReview});
    OneChanged(s, v, w, {VPublished});
    OneChanged(s, v, w, {VFailed});
    OthersEither(s, v, VFailed, VNeedsReview);
    OthersEither(s, v, VPublished, VNeedsReview);
  }

  lemma IsHas(s: State, v: nat, which: set<VariantStatus>)
    requires Is(s, v, which)
    ensures Has(s.variants, which)
  {
  }

  lemma ParkedIsPartial(s: State, target: PostStatus)
    requires RolledUp(s.variants) == Some(target) && PostSettled(target) && Has(s.variants, {VNeedsReview})
    ensures target == PartiallyPublished && !Has(s.variants, PENDING)
  {
    hide RolledUp, Statuses;
    var i :| 0 <= i < |s.variants| && s.variants[i].present && s.variants[i].status in {VNeedsReview};
    RolledUpMeans(s.variants);
    assert s.variants[i].status in PENDING + {VFailed, VNeedsReview} && s.variants[i].status in PENDING + {VPublished, VNeedsReview};
  }

  lemma OthersEither(s: State, v: nat, a: VariantStatus, b: VariantStatus)
    ensures OtherHas(s, v, {a, b}) <==> OtherHas(s, v, {a}) || OtherHas(s, v, {b})
  {
  }

  lemma {:induction false} NothingFailed(s: State)
    requires !Has(s.variants, {VFailed})
    ensures Written(s, RetryFailed).variants == s.variants
  {
    var t := Written(s, RetryFailed);
    forall i | 0 <= i < |s.variants| ensures t.variants[i] == s.variants[i] {
      assert s.variants[i].present ==> s.variants[i].status !in {VFailed};
    }
  }

  /** The exact condition, for every step, whatever the post's own status: between a roll-up's read and its write too. */
  lemma {:induction false} RollUpAfterIff(s: State, step: Step, target: PostStatus)
    requires Inv(s) && RolledUp(s.variants) == Some(target) && PostSettled(target)
    requires Enabled(s, step) && StepLandsWell(s, step)
    ensures RolledUp(Next(s, step).variants) == Some(target) <==> (Stirring(step) ==> LeavesRollUp(s, step.request, target))
  {
    hide RolledUp, Statuses, AccountsDiffer, LogFits, Orderly, Has, OtherHas, ClaimsAgree, Written, Applies, LandsWell, Allowed;
    if !Stirring(step) {
      QuietStands(s, step);
    } else {
      var r := step.request;
      match r
      case RemoveAccount(_) => RemovalLeavesIff(s, r, target);
      case Resolve(_, resolution) =>
        if resolution.ConfirmNot? { ReleasedIsPending(s, r); } else { ResolutionLeavesIff(s, r, target); }
      case RetryFailed => if Has(s.variants, {VFailed}) { ReleasedIsPending(s, r); } else { NothingFailed(s); }
      case _ => ReleasedIsPending(s, r);
    }
  }

  /** So from agreement, a step that leaves the post settled leaves it agreeing exactly then. */
  lemma {:induction false} AgreesAfterIff(s: State, step: Step)
    requires Inv(s) && PeopleAsk(s.asked) && PostSettled(s.post) && Agrees(s)
    requires Enabled(s, step) && StepLandsWell(s, step) && PostSettled(Next(s, step).post)
    ensures Agrees(Next(s, step)) <==> (Stirring(step) ==> LeavesRollUp(s, step.request, s.post))
  {
    hide RolledUp, ClaimsAgree, AccountsDiffer, LogFits, Orderly, LeavesRollUp, LandsWell, Allowed, Applies;
    RollUpAfterIff(s, step, s.post);
    SettledIsFixed(s, step);
  }

  // ---------------------------------------------------------------- and nothing puts it right

  lemma SettledIsFixed(s: State, step: Step)
    requires PeopleAsk(s.asked) && PostSettled(s.post) && Enabled(s, step) && PostSettled(Next(s, step).post)
    ensures Next(s, step).post == s.post
  {
    hide Statuses, Allowed, Applies, Settles, Target;
    if step.WriteRollUp? && Settles(s, step.read) { SettledUnsettled(s, step.read); }
  }

  lemma SettledUnsettled(s: State, read: Read)
    requires PostSettled(s.post) && Settles(s, read)
    ensures Target(read) == Some(Canceled)
  {
    hide SummaryOf;
  }

  /** Steps that move a settled post: sending it, moving it, canceling it. */
  predicate MovesPost(step: Step) {
    step.Land? && (step.request.Send? || step.request.Unschedule? || step.request.CancelPost? || step.request.Move?)
  }

  lemma SettledStepStays(s: State, step: Step)
    requires (PostSettled(s.post) || s.post == Canceled) && Enabled(s, step) && !MovesPost(step)
    ensures Next(s, step).post == s.post || Next(s, step).post == Canceled
  {
    hide Statuses, Allowed, Applies, Settles, Target;
    if step.WriteRollUp? && Settles(s, step.read) && PostSettled(s.post) { SettledUnsettled(s, step.read); }
    if step.WriteRollUp? && s.post == Canceled { CanceledStays(s, step.read); }
  }

  lemma CanceledStays(s: State, read: Read)
    requires s.post == Canceled
    ensures !Settles(s, read)
  {
  }

  /** No roll-up turns one settled status into another: until a person moves the post it stays, or ends canceled. */
  lemma {:induction false} SettledStays(s: State, steps: seq<Step>)
    requires (PostSettled(s.post) || s.post == Canceled) && Runs(s, steps) && forall step :: step in steps ==> !MovesPost(step)
    ensures After(s, steps).post == s.post || After(s, steps).post == Canceled
    decreases |steps|
  {
    hide Next, Enabled;
    if steps != [] {
      assert steps[0] in steps;
      SettledStepStays(s, steps[0]);
      SettledStays(Next(s, steps[0]), steps[1..]);
    }
  }

  /** The roll-up that would be read now. */
  function ReadNow(s: State): Read {
    Read(s.post, Statuses(s.variants), s.stirs)
  }

  /**
    A partly published post whose one failed account is retried and published: every account is out, the
    roll-up says published, and the post reads partly published, since no roll-up may write it.
   */
  lemma {:induction false} RetriedPostStaysPartial(s: State, v: nat, token: string, now: int, id: string)
    requires s.post == PartiallyPublished && Is(s, v, {VFailed}) && token !in s.used
    requires !OtherHas(s, v, PENDING + {VFailed, VNeedsReview})
    ensures
      var steps := AtOnce(RetryFailed) + Attempted(v, token, now, PublishedAs(id));
      && Runs(s, steps)
      && var t := After(s, steps);
      && t.post == PartiallyPublished && Target(ReadNow(t)) == Some(Published) && !Settles(t, ReadNow(t))
  {
    hide Runs, After, Statuses, SummaryOf, PostStatusFor, OtherHas, Attempted, AtOnce, Written, Allowed;
    assert Allowed(s, RetryFailed) by { Retryable(s); }
    AtOnceRuns(s, RetryFailed);
    RetryReleases(s, v);
    var s1 := Written(s, RetryFailed);
    AttemptRuns(s1, v, token, now, PublishedAs(id));
    RunsJoin(s, AtOnce(RetryFailed), Attempted(v, token, now, PublishedAs(id)));
    LastOneOut(s1, v, Given(s1.variants[v], VPublished));
  }

  lemma Retryable(s: State)
    requires s.post == PartiallyPublished
    ensures Allowed(s, RetryFailed)
  {
  }

  lemma RetryReleases(s: State, v: nat)
    requires Is(s, v, {VFailed}) && !OtherHas(s, v, PENDING + {VFailed, VNeedsReview})
    ensures
      var t := Written(s, RetryFailed);
      && t.post == s.post && t.used == s.used && Is(t, v, {VScheduled})
      && !OtherHas(t, v, PENDING + {VFailed, VNeedsReview})
  {
    var t := Written(s, RetryFailed);
    forall i | 0 <= i < |t.variants| && i != v && t.variants[i].present
      ensures t.variants[i].status !in PENDING + {VFailed, VNeedsReview}
    {
      assert s.variants[i].status !in PENDING + {VFailed, VNeedsReview};
    }
  }

  lemma {:induction false} LastOneOut(s: State, v: nat, w: Variant)
    requires v < |s.variants| && w.present && w.status == VPublished && !OtherHas(s, v, PENDING + {VFailed, VNeedsReview})
    ensures RolledUp(s.variants[v := w]) == Some(Published)
  {
    hide RolledUp, Has, OtherHas;
    OneChanged(s, v, w, PENDING + {VFailed, VNeedsReview});
    OneChanged(s, v, w, {VPublished});
    RolledUpMeans(s.variants[v := w]);
  }

  /**
    Retrying one account by its job asks nothing of the post: it is allowed for any account that was ever
    queued, canceled ones too, unless it is in an attempt or its last entry published or parked it.
   */
  lemma {:induction false} RetryJobReaches(s: State, v: nat, post: PostStatus)
    requires Inv(s)
    ensures Allowed(s.(post := post), RetryJob(v)) <==>
      && v < |s.variants| && s.variants[v].present && v in s.queued && s.variants[v].token.None?
      && !(Last(s.log, v).Some? && (Publishes(Last(s.log, v).value) || Parks(Last(s.log, v).value)))
  {
    hide Last, Orderly, AccountsDiffer;
    if v < |s.variants| {
      FitsAt(s, v);
    }
  }

  /** So an account of a canceled post goes out, and the post reads canceled for good. */
  lemma {:induction false} CanceledPostPublishes(s: State, v: nat, token: string, now: int, id: string)
    requires s.post == Canceled && Is(s, v, {VCanceled}) && v in s.queued && token !in s.used
    ensures
      var steps := AtOnce(RetryJob(v)) + Attempted(v, token, now, PublishedAs(id));
      && Runs(s, steps)
      && var t := After(s, steps);
      && |t.variants| == |s.variants| && t.variants[v].status == VPublished && t.post == Canceled && !Settles(t, ReadNow(t))
  {
    hide Runs, After, Statuses, AtOnce, Attempted, SummaryOf;
    AtOnceRuns(s, RetryJob(v));
    var s1 := Written(s, RetryJob(v));
    AttemptRuns(s1, v, token, now, PublishedAs(id));
    RunsJoin(s, AtOnce(RetryJob(v)), Attempted(v, token, now, PublishedAs(id)));
  }
}
