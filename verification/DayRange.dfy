/** Day boundaries in a zone (`zonedDayRange` of `packages/core/src/timezone.ts`). */
module DayRange {
  import opened Helpers
  import opened Calendar
  import opened Timezone

  /** Midnight that starts day number `d`. */
  function Midnight(d: int): (w: WallClock)
    ensures ValidWall(w) && SecondsOf(w) == DAY * d
  {
    WallClock(CivilFromDay(d), 0, 0, 0)
  }

  function DayStart(d: int, z: Zone): int {
    Resolve(Midnight(d), z)
  }

  /** The day after a date is computed by `Date.UTC` on `day + 1`, which carries over month and year ends. */
  function ZonedDayRange(d: Date, z: Zone): (int, int) {
    var next := CivilFromDay(MakeDay(Date(d.year, d.month, d.day + 1)));
    (Resolve(WallClock(d, 0, 0, 0), z), Resolve(WallClock(next, 0, 0, 0), z))
  }

  predicate OnDay(t: int, d: int, z: Zone) {
    ToWallClock(t, z).date == CivilFromDay(d)
  }

  lemma OnDayIffSeconds(t: int, d: int, z: Zone)
    ensures OnDay(t, d, z) <==> LocalSeconds(t, z) / DAY == d
  {
    hide FieldsOf, CivilFromDay, MakeDay, ValidDate, LocalSeconds, SecondsOf;
    if LocalSeconds(t, z) / DAY == d {
      DateUnique(ToWallClock(t, z).date, CivilFromDay(d));
    }
  }

  lemma RangeOfDay(d: Date, z: Zone)
    requires ValidDate(d)
    ensures ZonedDayRange(d, z) == (DayStart(MakeDay(d), z), DayStart(MakeDay(d) + 1, z))
  {
    hide Resolve, CivilFromDay, MakeDay, ValidDate;
    DateUnique(d, CivilFromDay(MakeDay(d)));
    DaysCarry(d, 1);
  }

  lemma OffsetWasProbed(w: WallClock, z: Zone)
    ensures Naive(w) - Resolve(w, z) in ProbeOffsets(Naive(w), z)
  {
    hide ToWallClock, SecondsOf, Naive, ProbeOffsets, OccurrencesOf, OffsetAt;
    var found := OccurrencesOf(w, z);
    assert found != [] ==> found[0] in found;
  }

  lemma SomeProbe(n: int, o: int, z: Zone) returns (p: int)
    requires o in ProbeOffsets(n, z)
    ensures o == OffsetAt(p, z)
  {
    hide OffsetAt, ProbeOffsets;
    p := if o == OffsetAt(n - 1000 * DAY, z) then n - 1000 * DAY
         else if o == OffsetAt(n, z) then n else n + 1000 * DAY;
  }

  lemma SomeOffset(w: WallClock, z: Zone) returns (p: int)
    ensures Resolve(w, z) == Naive(w) - OffsetAt(p, z)
  {
    hide Resolve, OffsetAt, Naive, ProbeOffsets;
    OffsetWasProbed(w, z);
    p := SomeProbe(Naive(w), Naive(w) - Resolve(w, z), z);
  }

  /**
    Ranges tile time: each ends where the next day's starts, across month and year ends, and none runs
    backwards in a zone whose offsets differ by at most a day.
   */
  lemma DayRangesTile(d: Date, z: Zone)
    requires ValidDate(d)
    ensures ZonedDayRange(d, z).1 == ZonedDayRange(CivilFromDay(MakeDay(d) + 1), z).0
    ensures SpreadWithinDay(z) ==> ZonedDayRange(d, z).0 <= ZonedDayRange(d, z).1
  {
    hide Resolve, CivilFromDay, MakeDay, ZonedDayRange, ValidDate, SpreadWithinDay;
    var n := MakeDay(d);
    RangeOfDay(d, z);
    RangeOfDay(CivilFromDay(n + 1), z);
    StartsInOrder(n, z);
  }

  lemma StartsInOrder(d: int, z: Zone)
    ensures SpreadWithinDay(z) ==> DayStart(d, z) <= DayStart(d + 1, z)
  {
    hide Resolve, CivilFromDay, Midnight, SecondsOf, OffsetAt;
    var s := SomeOffset(Midnight(d), z);
    var t := SomeOffset(Midnight(d + 1), z);
    assert SpreadWithinDay(z) ==> z(t / 1000) - z(s / 1000) <= DAY;
  }

  // ---------------------------------------------------------------- when a range is its day

  /** The local readings a transition skips or repeats. */
  ghost predicate StaysInDay(z: Zone, k: int) {
    (Min(k + z(k - 1), k + z(k))) / DAY == (Max(k + z(k - 1), k + z(k)) - 1) / DAY
  }

  ghost predicate TransitionsStayInDay(z: Zone) {
    forall k :: Transition(z, k) ==> StaysInDay(z, k)
  }

  /** What `Resolve` returns for a valid wall time, in terms of the one transition within a day of it. */
  function ResolvedSecond(n: int, k: int, before: int, after: int): int {
    if n - before >= k && n - after >= k then n - after else n - before
  }

  lemma ResolveShape(w: WallClock, z: Zone) returns (k: int, before: int, after: int)
    requires Bounded(z) && Spaced(z) && ValidWall(w)
    ensures StepAt(z, SecondsOf(w) - DAY, k, before, after)
    ensures before == z(k - 1) && after == z(k)
    ensures Resolve(w, z) == 1000 * ResolvedSecond(SecondsOf(w), k, before, after)
  {
    hide SecondsOf, OccurrencesOf, ValidWall, Spaced, Bounded;
    k, before, after := OccurrencesShape(w, z);
    var n := SecondsOf(w);
    assert (1000 * n - 1000 * DAY) / 1000 == n - DAY;
  }

  lemma DayStartSecond(d: int, z: Zone) returns (r: int)
    requires Bounded(z) && Spaced(z) && TransitionsStayInDay(z)
    ensures DayStart(d, z) == 1000 * r
    ensures forall s :: r <= s <==> DAY * d <= s + z(s)
  {
    hide SecondsOf, Resolve, ValidWall, Spaced, Midnight, StaysInDay, ResolvedSecond;
    var k, before, after := ResolveShape(Midnight(d), z);
    r := ResolvedSecond(DAY * d, k, before, after);
    forall s ensures r <= s <==> DAY * d <= s + z(s) {
      SplitSecond(d, s, z, k, before, after);
    }
  }

  /** Before the instant a day starts the wall reads earlier than its midnight, and from then on not. */
  lemma MidnightSplits(d: int, t: int, z: Zone)
    requires Bounded(z) && Spaced(z) && TransitionsStayInDay(z)
    ensures DayStart(d, z) <= t <==> DAY * d <= LocalSeconds(t, z)
  {
    hide Spaced, Bounded, TransitionsStayInDay, DayStart;
    var r := DayStartSecond(d, z);
    assert r <= t / 1000 <==> DAY * d <= t / 1000 + z(t / 1000);
    ThousandsOrder(r, t);
  }

  lemma ThousandsOrder(r: int, t: int)
    ensures 1000 * r <= t <==> r <= t / 1000
  {
  }

  lemma DayEdge(d: int, lo: int, hi: int)
    requires lo <= DAY * d < hi && lo / DAY == (hi - 1) / DAY
    ensures lo == DAY * d
  {
  }

  lemma SplitSecond(d: int, s: int, z: Zone, k: int, before: int, after: int)
    requires Bounded(z) && StepAt(z, DAY * d - DAY, k, before, after)
    requires before == z(k - 1) && after == z(k)
    requires Transition(z, k) ==> StaysInDay(z, k)
    ensures ResolvedSecond(DAY * d, k, before, after) <= s <==> DAY * d <= s + z(s)
  {
    var n := DAY * d;
    assert -DAY < z(s) < DAY && -DAY < z(k - 1) < DAY && -DAY < z(k) < DAY;
    var lo, hi := Min(k + before, k + after), Max(k + before, k + after);
    if before != after && lo <= n < hi {
      DayEdge(d, lo, hi);
    }
  }

  /** Every range holds exactly the instants the wall dates on its day. */
  ghost predicate RangesAreDays(z: Zone) {
    forall d, t :: DayStart(d, z) <= t < DayStart(d + 1, z) <==> OnDay(t, d, z)
  }

  lemma DayBetween(d: int, n: int)
    ensures DAY * d <= n < DAY * (d + 1) <==> n / DAY == d
  {
  }

  lemma RangeIsDay(d: int, t: int, z: Zone)
    requires Bounded(z) && Spaced(z) && TransitionsStayInDay(z)
    ensures DayStart(d, z) <= t < DayStart(d + 1, z) <==> OnDay(t, d, z)
  {
    hide Spaced, Bounded, TransitionsStayInDay, DayStart, OnDay, LocalSeconds;
    MidnightSplits(d, t, z);
    MidnightSplits(d + 1, t, z);
    OnDayIffSeconds(t, d, z);
    DayBetween(d, LocalSeconds(t, z));
  }

  /** A midnight strictly inside the readings a transition skips or repeats starts its day with the old offset. */
  lemma CrossedMidnight(z: Zone, k: int, d: int)
    requires Bounded(z) && Spaced(z) && Transition(z, k)
    requires Min(k + z(k - 1), k + z(k)) < DAY * d < Max(k + z(k - 1), k + z(k))
    ensures DayStart(d, z) == 1000 * (DAY * d - z(k - 1))
  {
    hide SecondsOf, Resolve, ValidWall, Spaced, Midnight;
    var k', before, after := ResolveShape(Midnight(d), z);
    assert -DAY < z(k - 1) < DAY && -DAY < z(k) < DAY;
    SameStep(DAY * d, z, k, k', before, after);
  }

  lemma SameStep(n: int, z: Zone, k: int, k': int, before: int, after: int)
    requires StepAt(z, n - DAY, k', before, after) && Transition(z, k) && n - DAY < k <= n + DAY
    ensures k == k' && before == z(k - 1) && after == z(k)
  {
  }

  lemma FirstAndLastMidnight(lo: int, hi: int)
    requires lo < hi && lo / DAY != (hi - 1) / DAY
    ensures lo < DAY * (lo / DAY + 1) < hi && DAY * (lo / DAY + 1) <= lo + DAY
    ensures lo < DAY * ((hi - 1) / DAY) < hi && hi <= DAY * ((hi - 1) / DAY) + DAY
  {
  }

  lemma OnDayAt(s: int, d: int, z: Zone)
    ensures OnDay(1000 * s, d, z) <==> DAY * d <= s + z(s) < DAY * (d + 1)
  {
    hide OnDay;
    OnDayIffSeconds(1000 * s, d, z);
    assert 1000 * s / 1000 == s;
    DayBetween(d, s + z(s));
  }

  lemma RangeAt(d: int, s: int, z: Zone)
    requires RangesAreDays(z)
    ensures DayStart(d, z) <= 1000 * s < DayStart(d + 1, z) <==> DAY * d <= s + z(s) < DAY * (d + 1)
  {
    hide DayStart, OnDay;
    OnDayAt(s, d, z);
    assert DayStart(d, z) <= 1000 * s < DayStart(d + 1, z) <==> OnDay(1000 * s, d, z);
  }

  /** A transition whose skipped or repeated readings cross a midnight puts an instant outside its day's range. */
  lemma CrossingBreaksRange(z: Zone, k: int)
    requires Bounded(z) && Spaced(z) && Transition(z, k) && !StaysInDay(z, k)
    ensures !RangesAreDays(z)
  {
    hide Spaced, DayStart, RangesAreDays;
    if RangesAreDays(z) {
      var b, a := z(k - 1), z(k);
      var lo, hi := Min(k + b, k + a), Max(k + b, k + a);
      assert -DAY < a < DAY && -DAY < b < DAY;
      FirstAndLastMidnight(lo, hi);
      var d := if a > b then (hi - 1) / DAY else lo / DAY + 1;
      CrossedMidnight(z, k, d);
      assert d - 1 + 1 == d;
      RangeAt(d, k, z);
      RangeAt(d - 1, k, z);
      RangeAt(d - 1, k - 1, z);
    }
  }

  /** `zonedDayRange` is the day exactly in the zones whose every transition skips or repeats readings of one day only. */
  lemma DayRangeExact(z: Zone)
    requires Bounded(z) && Spaced(z)
    ensures RangesAreDays(z) <==> TransitionsStayInDay(z)
  {
    hide Spaced, Bounded, StaysInDay, Transition, OnDay, DayStart;
    if TransitionsStayInDay(z) {
      forall d, t ensures DayStart(d, z) <= t < DayStart(d + 1, z) <==> OnDay(t, d, z) {
        RangeIsDay(d, t, z);
      }
    } else {
      var k :| Transition(z, k) && !StaysInDay(z, k);
      CrossingBreaksRange(z, k);
    }
  }
}
