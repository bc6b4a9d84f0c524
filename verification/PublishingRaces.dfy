/**
  What three unguarded writes do when a worker or another person comes between their read and them: a
  release (`retryPublishingJob` and `publishNow` of `apps/web/src/features/publishing/service.ts`,
  `applySchedule` of `apps/web/src/features/scheduling/service.ts`), the removal of an account
  (`syncVariants` of `apps/web/src/features/posts/service.ts`) and a decision
  (`apps/web/src/features/publishing/resolve.ts`). Each is a run of the state machine.
 */
module PublishingRaces {
  import opened PostLifecycle
  import opened Publishing
  import opened PublishingRuns

  /**
    Read while the variant is scheduled, written after a worker has published it: the variant is attempted
    again, and recorded published a second time.
   */
  lemma {:induction false} LateReleasePublishesTwice(s: State, v: nat, r: Request, first: string, second: string, now: int,
                                                     id: string, again: string)
    requires Is(s, v, {VScheduled}) && (r == Reach(v) || (r == RetryJob(v) && v in s.queued))
    requires first !in s.used && second !in s.used && first != second
    ensures
      var run := [Check(r)] + Attempted(v, first, now, PublishedAs(id)) + [Land(r)] + Attempted(v, second, now, PublishedAs(again));
      && Runs(s, run)
      && After(s, run).log == s.log + [Attempt(v, PublishedAs(id), s.rounds), Attempt(v, PublishedAs(again), s.rounds + 1)]
  {
    hide Runs, After, Attempted;
    CheckRuns(s, r);
    var s1 := After(s, [Check(r)]);
    AttemptRuns(s1, v, first, now, PublishedAs(id));
    RunsJoin(s, [Check(r)], Attempted(v, first, now, PublishedAs(id)));
    var r1 := [Check(r)] + Attempted(v, first, now, PublishedAs(id));
    LandRuns(After(s, r1), r);
    RunsJoin(s, r1, [Land(r)]);
    var r2 := r1 + [Land(r)];
    AttemptRuns(After(s, r2), v, second, now, PublishedAs(again));
    RunsJoin(s, r2, Attempted(v, second, now, PublishedAs(again)));
  }

  /**
    Read on a failed post while the variant is scheduled for another attempt, written after that attempt has
    published it: the record is deleted, and the account, added again and sent, is published a second time.
   */
  lemma {:induction false} LateRemovalPublishesTwice(s: State, v: nat, first: string, second: string, now: int,
                                                     id: string, again: string)
    requires Inv(s) && s.post == Failed && Is(s, v, {VScheduled})
    requires first !in s.used && second !in s.used && first != second
    ensures
      var n := |s.variants|;
      var account := s.variants[v].account;
      var run := [Check(RemoveAccount(v))] + Attempted(v, first, now, PublishedAs(id)) + [Land(RemoveAccount(v))] +
                 AtOnce(AddAccount(account)) + AtOnce(Send) + Attempted(n, second, now, PublishedAs(again));
      && Runs(s, run)
      && var t := After(s, run);
      && t.log == s.log + [Attempt(v, PublishedAs(id), s.rounds), Attempt(n, PublishedAs(again), s.rounds + 1)]
      && |t.variants| == n + 1 && t.variants[v].account == t.variants[n].account
      && !t.variants[v].present && Is(t, n, {VPublished})
  {
    hide Runs, After, Attempted, AtOnce, ClaimsAgree, AccountsDiffer, LogFits, Orderly;
    var account := s.variants[v].account;
    var r1 := RemovedLate(s, v, first, now, id);
    var s1 := After(s, r1);
    AtOnceRuns(s1, AddAccount(account));
    RunsJoin(s, r1, AtOnce(AddAccount(account)));
    var s2 := Written(s1, AddAccount(account));
    SendsDraft(s2, |s.variants|);
    SendKeepsAway(s2, v);
    AtOnceRuns(s2, Send);
    var r2 := r1 + AtOnce(AddAccount(account));
    RunsJoin(s, r2, AtOnce(Send));
    AttemptRuns(Written(s2, Send), |s.variants|, second, now, PublishedAs(again));
    RunsJoin(s, r2 + AtOnce(Send), Attempted(|s.variants|, second, now, PublishedAs(again)));
  }

  lemma SendKeepsAway(s: State, v: nat)
    requires v < |s.variants| && !s.variants[v].present && Applies(s, Send)
    ensures
      var t := Written(s, Send);
      && !t.variants[v].present && t.variants[v].account == s.variants[v].account
      && t.used == s.used && t.rounds == s.rounds + 1
  {
    hide Has;
  }

  lemma {:induction false} RemovedLate(s: State, v: nat, token: string, now: int, id: string) returns (run: seq<Step>)
    requires Inv(s) && s.post == Failed && Is(s, v, {VScheduled}) && token !in s.used
    ensures run == [Check(RemoveAccount(v))] + Attempted(v, token, now, PublishedAs(id)) + [Land(RemoveAccount(v))]
    ensures Runs(s, run)
    ensures
      var t := After(s, run);
      && t.post == Failed && t.log == s.log + [Attempt(v, PublishedAs(id), s.rounds)] && t.rounds == s.rounds
      && t.used == s.used + {token} && |t.variants| == |s.variants|
      && t.variants[v].account == s.variants[v].account && !t.variants[v].present
      && Free(t.variants, s.variants[v].account)
  {
    hide Runs, After, Attempted, ClaimsAgree, LogFits, Orderly;
    CheckRuns(s, RemoveAccount(v));
    AttemptRuns(After(s, [Check(RemoveAccount(v))]), v, token, now, PublishedAs(id));
    RunsJoin(s, [Check(RemoveAccount(v))], Attempted(v, token, now, PublishedAs(id)));
    var r1 := [Check(RemoveAccount(v))] + Attempted(v, token, now, PublishedAs(id));
    LandRuns(After(s, r1), RemoveAccount(v));
    RunsJoin(s, r1, [Land(RemoveAccount(v))]);
    run := r1 + [Land(RemoveAccount(v))];
  }

  /**
    Two people decide on one parked variant. One confirms that it published, the other, who read it before,
    that it did not: it is attempted again after it was recorded published.
   */
  lemma {:induction false} LateDecisionPublishesTwice(s: State, v: nat, token: string, now: int, id: string)
    requires Is(s, v, {VNeedsReview}) && token !in s.used
    ensures
      var run := [Check(Resolve(v, ConfirmNot))] + AtOnce(Resolve(v, ConfirmPublished)) + [Land(Resolve(v, ConfirmNot))] +
                 Attempted(v, token, now, PublishedAs(id));
      && Runs(s, run)
      && After(s, run).log ==
        s.log + [Decision(v, ConfirmPublished, s.rounds + 1), Decision(v, ConfirmNot, s.rounds + 2),
                 Attempt(v, PublishedAs(id), s.rounds + 2)]
  {
    hide Runs, After, Attempted, AtOnce;
    CheckRuns(s, Resolve(v, ConfirmNot));
    var r1 := [Check(Resolve(v, ConfirmNot))];
    AtOnceRuns(After(s, r1), Resolve(v, ConfirmPublished));
    RunsJoin(s, r1, AtOnce(Resolve(v, ConfirmPublished)));
    var r2 := r1 + AtOnce(Resolve(v, ConfirmPublished));
    LandRuns(After(s, r2), Resolve(v, ConfirmNot));
    RunsJoin(s, r2, [Land(Resolve(v, ConfirmNot))]);
    var r3 := r2 + [Land(Resolve(v, ConfirmNot))];
    AttemptRuns(After(s, r3), v, token, now, PublishedAs(id));
    RunsJoin(s, r3, Attempted(v, token, now, PublishedAs(id)));
  }
}
