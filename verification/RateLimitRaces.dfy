/**
  A usage report reads the stored count and writes it in a second command (`applyProviderUsage` of
  `packages/queue/src/rate-limit.ts`), so takes may fall in between, and the write does not look again.
 */
module RateLimitRaces {
  import opened Wrappers
  import opened RateLimit

  /** A take or a report made at once, or the write at `now` of a report that was decided on before, at `at`. */
  datatype LateEvent = AtOnce(event: Event) | Late(ceiling: real, at: int, now: int)

  function TimeOf(ev: LateEvent): int {
    match ev
    case AtOnce(event) => event.at
    case Late(_, _, now) => now
  }

  function Written(e: Option<Entry>, ceiling: real, at: int, now: int): Option<Entry> {
    var stored := Visible(e, now);
    Some(Entry(ceiling, at, if stored.Some? then stored.value.expiresAt else None))
  }

  function LateStep(c: BucketConfig, e: Option<Entry>, ev: LateEvent): Option<Entry>
    requires c.Valid()
  {
    match ev
    case AtOnce(event) => Step(c, e, event)
    case Late(ceiling, at, now) => Written(e, ceiling, at, now)
  }

  function LateGranted(c: BucketConfig, e: Option<Entry>, ev: LateEvent): real
    requires c.Valid()
  {
    match ev
    case AtOnce(event) => Granted(c, e, event)
    case Late(_, _, _) => 0.0
  }

  /** What a late write adds to what a take would find. */
  function Restored(c: BucketConfig, e: Option<Entry>, ev: LateEvent): real
    requires c.Valid()
  {
    match ev
    case AtOnce(_) => 0.0
    case Late(ceiling, at, now) => RMax(0.0, Available(c, Written(e, ceiling, at, now), now) - Available(c, e, now))
  }

  ghost predicate Ordered(events: seq<LateEvent>, clock: int) {
    events == [] ||
    (clock <= TimeOf(events[0]) && (events[0].Late? ==> events[0].at <= events[0].now) && Ordered(events[1..], TimeOf(events[0])))
  }

  function LateGrantedIn(c: BucketConfig, e: Option<Entry>, events: seq<LateEvent>, s: int, t: int): real
    requires c.Valid()
    decreases events
  {
    if events == [] then 0.0 else
      var ev := events[0];
      (if s <= TimeOf(ev) <= t then LateGranted(c, e, ev) else 0.0) + LateGrantedIn(c, LateStep(c, e, ev), events[1..], s, t)
  }

  function RestoredIn(c: BucketConfig, e: Option<Entry>, events: seq<LateEvent>, s: int, t: int): (r: real)
    requires c.Valid()
    ensures r >= 0.0
    decreases events
  {
    if events == [] then 0.0 else
      var ev := events[0];
      (if s <= TimeOf(ev) <= t then Restored(c, e, ev) else 0.0) + RestoredIn(c, LateStep(c, e, ev), events[1..], s, t)
  }

  /** The ideal bucket is given what a late write restores. */
  function LateIdeal(c: BucketConfig, e: Option<Entry>, v: Ideal, ev: LateEvent): Ideal
    requires c.Valid()
  {
    match ev
    case AtOnce(event) => IdealStep(c, v, GrantOf(c, e, event), event.at)
    case Late(_, _, now) => Ideal(RMin(c.capacity, IdealAvailable(c, v, now) + Restored(c, e, ev)), now)
  }

  lemma LateKeepsBelow(c: BucketConfig, e: Option<Entry>, v: Ideal, clock: int, ev: LateEvent)
    requires c.Valid() && Below(c, e, v, clock) && ev.Late? && clock <= ev.now && ev.at <= ev.now
    ensures Below(c, LateStep(c, e, ev), LateIdeal(c, e, v, ev), ev.now)
  {
    BelowLater(c, e, v, clock, ev.now);
    var stored := Visible(e, ev.now);
    if stored.Some? && stored.value.expiresAt.Some? {
      EarnedAdds(c, ev.now - v.at, stored.value.expiresAt.value - ev.now);
    }
  }

  /** Each event is paid for by the ideal bucket and what is restored. */
  lemma EventIsPaid(c: BucketConfig, e: Option<Entry>, v: Ideal, clock: int, ev: LateEvent)
    requires c.Valid() && Below(c, e, v, clock) && clock <= TimeOf(ev) && (ev.Late? ==> ev.at <= ev.now)
    ensures Below(c, LateStep(c, e, ev), LateIdeal(c, e, v, ev), TimeOf(ev))
    ensures
      LateGranted(c, e, ev) + IdealAvailable(c, LateIdeal(c, e, v, ev), TimeOf(ev)) <=
        IdealAvailable(c, v, TimeOf(ev)) + Restored(c, e, ev)
  {
    hide Below, Step, Written, Available, Granted, GrantOf;
    match ev
    case AtOnce(event) =>
      StepKeepsBelow(c, e, v, clock, event);
      GrantIsPaid(c, e, v, clock, event);
    case Late(_, _, _) =>
      LateKeepsBelow(c, e, v, clock, ev);
  }

  lemma {:induction false} NothingLater(c: BucketConfig, e: Option<Entry>, events: seq<LateEvent>, clock: int, s: int, t: int)
    requires c.Valid() && Ordered(events, clock) && t < clock
    ensures LateGrantedIn(c, e, events, s, t) == 0.0
    decreases events
  {
    if events != [] {
      NothingLater(c, LateStep(c, e, events[0]), events[1..], TimeOf(events[0]), s, t);
    }
  }

  lemma {:induction false} LateBoundFrom(c: BucketConfig, e: Option<Entry>, v: Ideal, clock: int, events: seq<LateEvent>, s: int, t: int)
    requires c.Valid() && Below(c, e, v, clock) && Ordered(events, clock) && s <= t
    ensures clock <= s ==> LateGrantedIn(c, e, events, s, t) <= c.capacity + Earned(c, t - s) + RestoredIn(c, e, events, s, t)
    ensures s <= clock <= t ==>
      LateGrantedIn(c, e, events, s, t) <= IdealAvailable(c, v, clock) + Earned(c, t - clock) + RestoredIn(c, e, events, s, t)
    decreases events
  {
    hide Below, LateStep, LateIdeal, LateGranted, IdealAvailable, Earned, Restored;
    NonNegative(c, v, clock, e);
    if events != [] {
      var ev := events[0];
      var n := TimeOf(ev);
      if n > t {
        NothingLater(c, e, events, n, s, t);
      } else {
        BelowLater(c, e, v, clock, n);
        EventIsPaid(c, e, v, clock, ev);
        LateBoundFrom(c, LateStep(c, e, ev), LateIdeal(c, e, v, ev), n, events[1..], s, t);
        AtMostFull(c, v, n);
        if s <= n {
          if clock <= s {
            EarnedAdds(c, n - s, t - n);
          } else {
            EarnedAdds(c, n - clock, t - n);
          }
        }
      }
    }
  }

  /**
    With late reports too, the cost granted in any window is at most a full bucket, what the window refills,
    and what the late writes of the window restored.
   */
  lemma LateWindowBound(c: BucketConfig, events: seq<LateEvent>, clock: int, s: int, t: int)
    requires c.Valid() && Ordered(events, clock) && s <= t
    ensures LateGrantedIn(c, None, events, s, t) <= c.capacity + Earned(c, t - s) + RestoredIn(c, None, events, s, t)
  {
    hide LateGrantedIn, RestoredIn, Ordered;
    LateBoundFrom(c, None, Ideal(c.capacity, clock), clock, events, s, t);
    if t < clock {
      NothingLater(c, None, events, clock, s, t);
    } else if s < clock {
      EarnedGrows(c, t - clock, t - s);
    }
  }

  /** Only late writes restore anything, so without them the bound is that of a full bucket and its refill. */
  lemma {:induction false} NothingLate(c: BucketConfig, e: Option<Entry>, events: seq<LateEvent>, s: int, t: int)
    requires c.Valid() && forall i :: 0 <= i < |events| ==> events[i].AtOnce?
    ensures RestoredIn(c, e, events, s, t) == 0.0
    decreases events
  {
    hide LateStep;
    if events != [] {
      NothingLate(c, LateStep(c, e, events[0]), events[1..], s, t);
    }
  }

  /** A late write leaves its ceiling as of the time it was decided at, and the key's expiry as it is when written. */
  lemma LateLeaves(c: BucketConfig, e: Option<Entry>, ceiling: real, at: int, now: int)
    requires c.Valid() && at <= now
    ensures Available(c, LateStep(c, e, Late(ceiling, at, now)), now) == RMin(c.capacity, ceiling + Earned(c, now - at))
    ensures
      var left := LateStep(c, e, Late(ceiling, at, now));
      left.Some? && (Visible(e, now).Some? ==> left.value.expiresAt == Visible(e, now).value.expiresAt)
      && (Visible(e, now).None? ==> left.value.expiresAt.None?)
  {
    hide Earned;
  }

  /** A report written at once restores nothing, so it is the late writes alone that the bound of a full bucket and its refill fails for. */
  lemma AtOnceRestoresNothing(c: BucketConfig, e: Option<Entry>, usage: real, now: int)
    requires c.Valid() && UsageCeiling(c, usage).Some?
    requires NarrowEntry(c, e, usage, now) != e
    ensures NarrowEntry(c, e, usage, now) == Written(e, UsageCeiling(c, usage).value, now, now)
    ensures (Visible(e, now).Some? ==> Visible(e, now).value.updatedAt <= now) ==>
      Restored(c, e, Late(UsageCeiling(c, usage).value, now, now)) == 0.0
  {
  }

  /**
    And it does fail: a report of three quarters used is read from a full bucket, a take empties it, and the
    write gives half of it back, all in one instant.
   */
  lemma LateReportGrantsMore(c: BucketConfig, now: int)
    requires c.Valid() && UsageCeiling(c, 0.75).value > 0.0
    ensures
      var ceiling := UsageCeiling(c, 0.75).value;
      var events := [AtOnce(Take(c.capacity, now)), Late(ceiling, now, now), AtOnce(Take(ceiling, now))];
      && NarrowEntry(c, None, 0.75, now) == Written(None, ceiling, now, now)
      && Ordered(events, now)
      && LateGrantedIn(c, None, events, now, now) == c.capacity + ceiling
      && RestoredIn(c, None, events, now, now) == ceiling
  {
    var ceiling := UsageCeiling(c, 0.75).value;
    hide LateStep, LateGranted, UsageCeiling, Written, NarrowEntry, Step;
    GivesBack(c, now);
    var first, late, again := AtOnce(Take(c.capacity, now)), Late(ceiling, now, now), AtOnce(Take(ceiling, now));
    var e1 := LateStep(c, None, first);
    var e2 := LateStep(c, e1, late);
    var e3 := LateStep(c, e2, again);
    hide Restored;
    GrantedCons(c, e2, again, [], now, now);
    assert [again] + [] == [again];
    GrantedCons(c, e1, late, [again], now, now);
    assert [late] + [again] == [late, again];
    GrantedCons(c, None, first, [late, again], now, now);
    assert [first] + [late, again] == [first, late, again];
  }

  lemma GrantedCons(c: BucketConfig, e: Option<Entry>, ev: LateEvent, rest: seq<LateEvent>, s: int, t: int)
    requires c.Valid() && s <= TimeOf(ev) <= t && Ordered(rest, TimeOf(ev)) && (ev.Late? ==> ev.at <= ev.now)
    ensures RestoredIn(c, e, [ev] + rest, s, t) == Restored(c, e, ev) + RestoredIn(c, LateStep(c, e, ev), rest, s, t)
    ensures LateGrantedIn(c, e, [ev] + rest, s, t) == LateGranted(c, e, ev) + LateGrantedIn(c, LateStep(c, e, ev), rest, s, t)
    ensures Ordered([ev] + rest, TimeOf(ev))
  {
    hide LateStep, LateGranted, Restored;
    assert ([ev] + rest)[1..] == rest;
  }

  lemma GivesBack(c: BucketConfig, now: int)
    requires c.Valid() && UsageCeiling(c, 0.75).value > 0.0
    ensures
      var ceiling := UsageCeiling(c, 0.75).value;
      var first, late, again := AtOnce(Take(c.capacity, now)), Late(ceiling, now, now), AtOnce(Take(ceiling, now));
      var e1 := LateStep(c, None, first);
      var e2 := LateStep(c, e1, late);
      && NarrowEntry(c, None, 0.75, now) == Written(None, ceiling, now, now)
      && Restored(c, None, first) == 0.0 && Restored(c, e1, late) == ceiling && Restored(c, e2, again) == 0.0
      && LateGranted(c, None, first) == c.capacity && LateGranted(c, e1, late) == 0.0 && LateGranted(c, e2, again) == ceiling
  {
    var ceiling := UsageCeiling(c, 0.75).value;
    assert c.TtlMs() > 0;
    var e1 := Step(c, None, Take(c.capacity, now));
    assert e1 == Some(Entry(0.0, now, Some(now + c.TtlMs())));
    assert Written(e1, ceiling, now, now) == Some(Entry(ceiling, now, Some(now + c.TtlMs())));
    assert AllowedFraction(0.75) == 0.5 && c.capacity * 0.5 <= c.capacity;
  }
}
