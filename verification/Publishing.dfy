/**
  Attempts on a post's variants and their roll-up to the post (`packages/core/src/publishing.ts`),
  with the token-guarded claim (`apps/worker/src/publishing/claim.ts`) and the guarded post
  moves around it (`apps/worker/src/publishing/rollup.ts`).
 */
module Publishing {
  import opened Wrappers
  import opened PostLifecycle

  datatype VariantStatus = VDraft | VScheduled | VPublishing | VPublished | VFailed | VCanceled | VNeedsReview

  datatype Outcome = PublishedAs(externalPostId: string) | Retryable(code: string) | FailedWith(code: string)
                   | Ambiguous(code: string) | Inconclusive(reason: string)

  const CLAIM_TTL_MS := 15 * 60 * 1000

  function VariantStatusFor(o: Outcome): VariantStatus {
    match o
    case PublishedAs(_) => VPublished
    case Retryable(_) => VScheduled
    case FailedWith(_) => VFailed
    case Ambiguous(_) => VNeedsReview
    case Inconclusive(_) => VNeedsReview
  }

  /** Variants a retry touches. */
  predicate RetryableStatus(s: VariantStatus) {
    s == VFailed
  }

  /** Variants that go out when a post is published or scheduled. */
  predicate PublishableStatus(s: VariantStatus) {
    s == VDraft || s == VScheduled || RetryableStatus(s)
  }

  // ---------------------------------------------------------------- the roll-up

  datatype Summary = Summary(published: int, failed: int, needsReview: int, pending: int, total: int)

  function Count(statuses: seq<VariantStatus>, which: set<VariantStatus>): nat
    decreases |statuses|
  {
    if statuses == [] then 0
    else Count(statuses[..|statuses| - 1], which) + if statuses[|statuses| - 1] in which then 1 else 0
  }

  const PENDING := {VDraft, VScheduled, VPublishing}
  const COUNTED := PENDING + {VPublished, VFailed, VNeedsReview}

  function SummaryOf(statuses: seq<VariantStatus>): Summary {
    Summary(Count(statuses, {VPublished}), Count(statuses, {VFailed}), Count(statuses, {VNeedsReview}),
            Count(statuses, PENDING), Count(statuses, COUNTED))
  }

  method SummariseVariants(statuses: seq<VariantStatus>) returns (s: Summary)
    ensures s == SummaryOf(statuses)
    ensures s.published + s.failed + s.needsReview + s.pending == s.total
  {
    s := Summary(0, 0, 0, 0, |statuses|);
    for i := 0 to |statuses|
      invariant s.(total := 0) == SummaryOf(statuses[..i]).(total := 0)
      invariant s.total == Count(statuses[..i], COUNTED) + (|statuses| - i)
      invariant s.published + s.failed + s.needsReview + s.pending == Count(statuses[..i], COUNTED)
    {
      assert statuses[..i + 1][..i] == statuses[..i];
      match statuses[i]
      case VPublished => s := s.(published := s.published + 1);
      case VFailed => s := s.(failed := s.failed + 1);
      case VNeedsReview => s := s.(needsReview := s.needsReview + 1);
      case VCanceled => s := s.(total := s.total - 1);
      case _ => s := s.(pending := s.pending + 1);
    }
    assert statuses[..|statuses|] == statuses;
  }

  /** The post status a set of variant outcomes implies, once nothing is in flight. */
  function PostStatusFor(s: Summary): Option<PostStatus> {
    if s.pending > 0 then None
    else if s.total == 0 then Some(Canceled)
    else if s.published == s.total then Some(Published)
    else if s.published == 0 && s.needsReview == 0 then Some(Failed)
    else Some(PartiallyPublished)
  }

  predicate InFlight(s: VariantStatus) {
    s in PENDING
  }

  lemma {:induction false} CountZero(statuses: seq<VariantStatus>, which: set<VariantStatus>)
    ensures Count(statuses, which) == 0 <==> forall s :: s in statuses ==> s !in which
    decreases |statuses|
  {
    if statuses != [] {
      var rest := statuses[..|statuses| - 1];
      CountZero(rest, which);
      assert statuses == rest + [statuses[|statuses| - 1]];
    }
  }

  lemma {:induction false} CountSum(statuses: seq<VariantStatus>)
    ensures
      var s := SummaryOf(statuses);
      s.published + s.failed + s.needsReview + s.pending == s.total
    decreases |statuses|
  {
    if statuses != [] { CountSum(statuses[..|statuses| - 1]); }
  }

  /** The roll-up read off the variants themselves. */
  lemma {:induction false} RollUpMeans(statuses: seq<VariantStatus>)
    ensures
      var r := PostStatusFor(SummaryOf(statuses));
      && (r.None? <==> exists s :: s in statuses && InFlight(s))
      && (r == Some(Canceled) <==> forall s :: s in statuses ==> s == VCanceled)
      && (r == Some(Published) <==> VPublished in statuses && forall s :: s in statuses ==> s == VPublished || s == VCanceled)
      && (r == Some(Failed) <==> VFailed in statuses && forall s :: s in statuses ==> s == VFailed || s == VCanceled)
      && (r == Some(PartiallyPublished) <==>
            && (forall s :: s in statuses ==> !InFlight(s))
            && (VNeedsReview in statuses || (VPublished in statuses && VFailed in statuses)))
  {
    CountSum(statuses);
    CountZero(statuses, {VPublished});
    CountZero(statuses, {VFailed});
    CountZero(statuses, {VNeedsReview});
    CountZero(statuses, PENDING);
  }

  /** A settled roll-up may be written from publishing if and only if some variant was not canceled. */
  lemma {:induction false} SettledRollUpLegalIff(statuses: seq<VariantStatus>)
    requires PostStatusFor(SummaryOf(statuses)).Some?
    ensures AssertTransition(PostStatus.Publishing, PostStatusFor(SummaryOf(statuses)).value, System).Ok? <==>
      exists s :: s in statuses && s != VCanceled
  {
    RollUpMeans(statuses);
  }
}
