/** Recurring queue slots (`packages/core/src/scheduling.ts`). */
module Scheduling {
  import opened Wrappers
  import opened Calendar
  import opened Timezone
  import opened DayRange

  datatype QueueSlot = QueueSlot(dayOfWeek: int, localTime: string, zone: Zone)

  datatype SlotError = InvalidLocalTime | InvalidDayOfWeek | Unresolved | NoSlots

  // ---------------------------------------------------------------- "HH:MM"

  function Digit(c: char): (d: Option<int>)
    ensures d.Some? ==> 0 <= d.value <= 9
  {
    if '0' <= c <= '9' then Some(c as int - '0' as int) else None
  }

  function TwoDigits(a: char, b: char): Option<int> {
    match (Digit(a), Digit(b))
    case (Some(x), Some(y)) => Some(10 * x + y)
    case _ => None
  }

  function ParseLocalTime(value: string): Result<(int, int), SlotError> {
    if |value| != 5 || value[2] != ':' then Err(InvalidLocalTime) else
      match (TwoDigits(value[0], value[1]), TwoDigits(value[3], value[4]))
      case (Some(h), Some(m)) => if h > 23 || m > 59 then Err(InvalidLocalTime) else Ok((h, m))
      case _ => Err(InvalidLocalTime)
  }

  function RenderLocalTime(h: int, m: int): string
    requires 0 <= h < 100 && 0 <= m < 100
  {
    ['0' + (h / 10) as char, '0' + (h % 10) as char, ':', '0' + (m / 10) as char, '0' + (m % 10) as char]
  }

  /** Every time of day has exactly one accepted spelling. */
  lemma LocalTimeSpelling(value: string, h: int, m: int)
    ensures ParseLocalTime(value) == Ok((h, m)) <==> 0 <= h < 24 && 0 <= m < 60 && value == RenderLocalTime(h, m)
  {
    if ParseLocalTime(value) == Ok((h, m)) {
      TwoDigitsSpelling(value[0], value[1]);
      TwoDigitsSpelling(value[3], value[4]);
      assert value == [value[0], value[1], value[2], value[3], value[4]];
    }
    if 0 <= h < 24 && 0 <= m < 60 && value == RenderLocalTime(h, m) {
      assert TwoDigits(value[0], value[1]) == Some(h);
      assert TwoDigits(value[3], value[4]) == Some(m);
    }
  }

  lemma TwoDigitsSpelling(a: char, b: char)
    requires TwoDigits(a, b).Some?
    ensures var n := TwoDigits(a, b).value;
      0 <= n < 100 && a == '0' + (n / 10) as char && b == '0' + (n % 10) as char
  {
    var x, y := Digit(a).value, Digit(b).value;
    assert (10 * x + y) / 10 == x && (10 * x + y) % 10 == y;
  }

  // ---------------------------------------------------------------- the next slot

  predicate ValidTime(h: int, m: int) {
    0 <= h < 24 && 0 <= m < 60
  }

  function SlotWall(d: int, h: int, m: int): (w: WallClock)
    ensures ValidTime(h, m) ==> ValidWall(w) && SecondsOf(w) == DAY * d + 3600 * h + 60 * m
  {
    hide CivilFromDay, MakeDay, ValidDate;
    WallClock(CivilFromDay(d), h, m, 0)
  }

  /** The instant a slot resolves to on day number `d`. */
  function Candidate(d: int, h: int, m: int, z: Zone): int {
    Resolve(SlotWall(d, h, m), z)
  }

  function LocalDay(t: int, z: Zone): int {
    LocalSeconds(t, z) / DAY
  }

  /** Of the `left` days from `d` on, the first of the weekday whose candidate is after `after`. */
  function Search(d: int, left: nat, weekday: int, h: int, m: int, z: Zone, after: int): Option<int>
    decreases left
  {
    hide Candidate, Weekday;
    if left == 0 then None
    else if Weekday(d) == weekday && Candidate(d, h, m, z) > after then Some(Candidate(d, h, m, z))
    else Search(d + 1, left - 1, weekday, h, m, z, after)
  }

  function NextSlot(slot: QueueSlot, after: int): Result<int, SlotError> {
    var time := ParseLocalTime(slot.localTime);
    if time.Err? then Err(time.error)
    else if !(0 <= slot.dayOfWeek <= 6) then Err(InvalidDayOfWeek)
    else
      match Search(LocalDay(after, slot.zone), 9, slot.dayOfWeek, time.value.0, time.value.1, slot.zone, after)
      case Some(t) => Ok(t)
      case None => Err(Unresolved)
  }

  method NextQueueSlot(slot: QueueSlot, after: int) returns (r: Result<int, SlotError>)
    ensures r == NextSlot(slot, after)
  {
    hide Candidate, MakeDay, ValidWall, SecondsOf, FieldsOf, ParseLocalTime, LocalSeconds;
    var z := slot.zone;
    var time := ParseLocalTime(slot.localTime);
    if time.Err? {
      return Err(time.error);
    }
    if !(0 <= slot.dayOfWeek <= 6) {
      return Err(InvalidDayOfWeek);
    }
    var (h, m) := time.value;
    var start := ToWallClock(after, z).date;
    ghost var d := LocalDay(after, z);
    var offset := 0;
    while offset <= 8
      invariant 0 <= offset <= 9
      invariant Search(d, 9, slot.dayOfWeek, h, m, z, after) == Search(d + offset, 9 - offset, slot.dayOfWeek, h, m, z, after)
    {
      var day := MakeDay(Date(start.year, start.month, start.day + offset));
      DaysCarry(start, offset);
      if Weekday(day) == slot.dayOfWeek {
        var candidate := Candidate(day, h, m, z);
        if candidate > after {
          return Ok(candidate);
        }
      }
      offset := offset + 1;
    }
    r := Err(Unresolved);
  }

  lemma {:induction false} SearchExact(d: int, left: nat, weekday: int, h: int, m: int, z: Zone, after: int) returns (found: int)
    ensures
      match Search(d, left, weekday, h, m, z, after)
      case Some(t) => d <= found < d + left && Weekday(found) == weekday && t == Candidate(found, h, m, z) > after
      case None => found == d + left
    ensures forall e :: d <= e < found && Weekday(e) == weekday ==> Candidate(e, h, m, z) <= after
    decreases left
  {
    hide Candidate, Weekday;
    if left == 0 || (Weekday(d) == weekday && Candidate(d, h, m, z) > after) {
      found := d;
    } else {
      found := SearchExact(d + 1, left - 1, weekday, h, m, z, after);
    }
  }

  /** The days of a week in order from `d` hold each weekday once. */
  lemma WeekHasDay(d: int, weekday: int) returns (e: int)
    requires 0 <= weekday <= 6
    ensures d <= e < d + 7 && Weekday(e) == weekday
  {
    e := d + (weekday - Weekday(d)) % 7;
  }

  // ---------------------------------------------------------------- it always finds one

  lemma LaterDayIsAfter(d: int, h: int, m: int, z: Zone, after: int)
    requires ValidTime(h, m) && SpreadWithinDay(z) && d >= LocalDay(after, z) + 2
    ensures Candidate(d, h, m, z) > after
  {
    hide Resolve, SlotWall, SecondsOf, ValidWall, OffsetAt;
    var p := SomeOffset(SlotWall(d, h, m), z);
    var s, o := after / 1000, z(p / 1000);
    assert o - z(s) <= DAY;
    DayBetween(LocalDay(after, z), s + z(s));
    assert DAY * d >= DAY * (LocalDay(after, z) + 1) + DAY;
  }

  /** The final throw is unreachable: a valid slot always has a next instant, strictly after `after`. */
  lemma NextSlotAlwaysFound(slot: QueueSlot, after: int)
    requires SpreadWithinDay(slot.zone)
    ensures NextSlot(slot, after).Ok? <==> ParseLocalTime(slot.localTime).Ok? && 0 <= slot.dayOfWeek <= 6
    ensures NextSlot(slot, after).Ok? ==> NextSlot(slot, after).value > after
  {
    hide Candidate, SpreadWithinDay, Weekday, Search, LocalDay, ParseLocalTime;
    if ParseLocalTime(slot.localTime).Ok? && 0 <= slot.dayOfWeek <= 6 {
      var (h, m) := ParseLocalTime(slot.localTime).value;
      LocalTimeSpelling(slot.localTime, h, m);
      var d := LocalDay(after, slot.zone);
      var found := SearchExact(d, 9, slot.dayOfWeek, h, m, slot.zone, after);
      var e := WeekHasDay(d + 2, slot.dayOfWeek);
      LaterDayIsAfter(e, h, m, slot.zone, after);
    }
  }

  // ---------------------------------------------------------------- it is the least one

  /** `t` is the least resolved occurrence of the weekday and time strictly after `after`. */
  ghost predicate IsLeastAfter(t: int, weekday: int, h: int, m: int, z: Zone, after: int) {
    && t > after
    && (exists d :: Weekday(d) == weekday && t == Candidate(d, h, m, z))
    && (forall d :: Weekday(d) == weekday && Candidate(d, h, m, z) > after ==> t <= Candidate(d, h, m, z))
  }

  predicate ValidSlot(slot: QueueSlot) {
    ParseLocalTime(slot.localTime).Ok? && 0 <= slot.dayOfWeek <= 6
  }

  ghost predicate FindsLeast(slot: QueueSlot, after: int)
    requires ValidSlot(slot)
  {
    var (h, m) := ParseLocalTime(slot.localTime).value;
    NextSlot(slot, after).Ok? && IsLeastAfter(NextSlot(slot, after).value, slot.dayOfWeek, h, m, slot.zone, after)
  }

  /** A wall time of whole minutes whose shifted reading is preceded by readings of a later day. */
  ghost predicate PassesMidnight(n: int, z: Zone, k: int) {
    && Transition(z, k) && InGap(n, z, k) && n > k + z(k - 1) && n % 60 == 0
    && (n + z(k) - z(k - 1) - 1) / DAY != n / DAY
  }

  /** No gap is so long that a shifted time lands after midnight. */
  ghost predicate ShiftsStayInDay(z: Zone) {
    forall n, k :: !PassesMidnight(n, z, k)
  }

  /** A transition back that repeats the whole of local day `l`, and some of the days around it. */
  ghost predicate RepeatsWholeDay(z: Zone, k: int, l: int) {
    Transition(z, k) && k + z(k) < DAY * l && DAY * (l + 1) < k + z(k - 1)
  }

  ghost predicate NoDayRepeated(z: Zone) {
    forall k, l :: !RepeatsWholeDay(z, k, l)
  }

  lemma CandidateShape(d: int, h: int, m: int, z: Zone) returns (n: int, k: int, before: int, after: int)
    requires Bounded(z) && Spaced(z) && ValidTime(h, m)
    ensures n == DAY * d + 3600 * h + 60 * m && StepAt(z, n - DAY, k, before, after)
    ensures before == z(k - 1) && after == z(k)
    ensures Candidate(d, h, m, z) == 1000 * ResolvedSecond(n, k, before, after)
  {
    hide Bounded, Spaced, Resolve, SlotWall, SecondsOf, ValidWall, StepAt, ResolvedSecond;
    n := SecondsOf(SlotWall(d, h, m));
    k, before, after := ResolveShape(SlotWall(d, h, m), z);
  }

  lemma TimeOfDay(d: int, s: int)
    requires 0 <= s < DAY
    ensures (DAY * d + s) / DAY == d && (s % 60 == 0 ==> (DAY * d + s) % 60 == 0)
  {
  }

  /** Of two days a week or more apart, the earlier's instant comes first. */
  lemma CandidatesOrdered(d: int, e: int, h: int, m: int, z: Zone)
    requires Bounded(z) && Spaced(z) && ValidTime(h, m) && d + 7 <= e
    ensures Candidate(d, h, m, z) < Candidate(e, h, m, z)
  {
    hide Spaced, Candidate;
    var n, k, before, after := CandidateShape(d, h, m, z);
    var n', k', before', after' := CandidateShape(e, h, m, z);
    assert -DAY < z(k - 1) < DAY && -DAY < z(k) < DAY && -DAY < z(k' - 1) < DAY && -DAY < z(k') < DAY;
  }

  /** A second that reads a later day than `n` lies after what `n` resolves to, unless the shift passed midnight. */
  lemma ResolvedBeforeLaterDay(d: int, n: int, z: Zone, k: int, before: int, after: int, s: int)
    requires Bounded(z) && StepAt(z, n - DAY, k, before, after) && before == z(k - 1) && after == z(k)
    requires DAY * d <= n < DAY * (d + 1) && n % 60 == 0 && ShiftsStayInDay(z)
    requires DAY * (d + 1) <= s + z(s)
    ensures ResolvedSecond(n, k, before, after) <= s
  {
    var c := ResolvedSecond(n, k, before, after);
    assert -DAY < z(k - 1) < DAY && -DAY < z(k) < DAY && -DAY < z(s) < DAY;
    assert !PassesMidnight(n, z, k);
    DayBetween(d, n);
    DayBetween(d, n + after - before - 1);
  }

  lemma EarlierDayResolvedBefore(d: int, h: int, m: int, z: Zone, t: int)
    requires Bounded(z) && Spaced(z) && ValidTime(h, m) && ShiftsStayInDay(z) && d < LocalDay(t, z)
    ensures Candidate(d, h, m, z) <= t
  {
    hide Bounded, Spaced, Candidate, ShiftsStayInDay, ResolvedSecond, StepAt;
    var n, k, before, after := CandidateShape(d, h, m, z);
    var s := t / 1000;
    TimeOfDay(d, 3600 * h + 60 * m);
    DayBetween(LocalDay(t, z), s + z(s));
    assert DAY * (d + 1) <= DAY * LocalDay(t, z);
    ResolvedBeforeLaterDay(d, n, z, k, before, after, s);
    ThousandsOrder(ResolvedSecond(n, k, before, after), t);
  }

  /** A second that reads a day or more before the midnight of `n` lies before what `n` resolves to, unless a whole day is repeated. */
  lemma ResolvedAfterEarlierDay(l: int, n: int, z: Zone, k: int, before: int, after: int, s: int)
    requires Bounded(z) && StepAt(z, n - DAY, k, before, after) && before == z(k - 1) && after == z(k)
    requires DAY * (l + 1) <= n && s + z(s) < DAY * l && !RepeatsWholeDay(z, k, l)
    ensures s < ResolvedSecond(n, k, before, after)
  {
    assert -DAY < z(k - 1) < DAY && -DAY < z(k) < DAY && -DAY < z(s) < DAY;
  }

  lemma LaterDayResolvesLater(d: int, h: int, m: int, z: Zone, t: int)
    requires Bounded(z) && Spaced(z) && ValidTime(h, m) && NoDayRepeated(z) && d >= LocalDay(t, z) + 2
    ensures Candidate(d, h, m, z) > t
  {
    hide Bounded, Spaced, Candidate, ResolvedSecond, StepAt, RepeatsWholeDay;
    var n, k, before, after := CandidateShape(d, h, m, z);
    var s, l := t / 1000, LocalDay(t, z) + 1;
    DayBetween(LocalDay(t, z), s + z(s));
    assert DAY * (l + 1) <= DAY * d;
    ResolvedAfterEarlierDay(l, n, z, k, before, after, s);
    ThousandsOrder(ResolvedSecond(n, k, before, after), t);
  }

  lemma SameWeekday(d: int, e: int)
    requires Weekday(d) == Weekday(e) && d < e
    ensures d + 7 <= e
  {
  }

  /** What the search finds: of the nine days from the local day of `after` on, the first matching one still to come. */
  lemma NextSlotDay(slot: QueueSlot, h: int, m: int, after: int) returns (found: int)
    requires ValidSlot(slot) && ParseLocalTime(slot.localTime).value == (h, m)
    ensures
      match NextSlot(slot, after)
      case Ok(t) =>
        && Weekday(found) == slot.dayOfWeek && LocalDay(after, slot.zone) <= found < LocalDay(after, slot.zone) + 9
        && t == Candidate(found, h, m, slot.zone) > after
      case Err(_) => found == LocalDay(after, slot.zone) + 9
    ensures forall e :: LocalDay(after, slot.zone) <= e < found && Weekday(e) == slot.dayOfWeek ==> Candidate(e, h, m, slot.zone) <= after
  {
    hide Candidate, Weekday, Search, LocalDay, ParseLocalTime;
    found := SearchExact(LocalDay(after, slot.zone), 9, slot.dayOfWeek, h, m, slot.zone, after);
  }

  /**
    What is found is the slot's time on a date that falls on the slot's weekday by the civil calendar, and it
    reads so on the wall wherever any instant does.
   */
  lemma SlotFallsOnWeekday(slot: QueueSlot, after: int) returns (w: WallClock)
    requires NextSlot(slot, after).Ok?
    ensures ValidWall(w) && Zeller(w.date) == slot.dayOfWeek && w.second == 0
    ensures 0 <= w.hour < 24 && 0 <= w.minute < 60 && slot.localTime == RenderLocalTime(w.hour, w.minute)
    ensures NextSlot(slot, after) == Ok(Resolve(w, slot.zone))
    ensures Bounded(slot.zone) && Spaced(slot.zone) && (exists t :: Reads(t, w, slot.zone)) ==>
      ToWallClock(NextSlot(slot, after).value, slot.zone) == w
  {
    hide Bounded, Spaced, Weekday, Zeller, MakeDay, SecondsOf, ToWallClock, RenderLocalTime, Resolve, Search, LocalDay;
    var (h, m) := ParseLocalTime(slot.localTime).value;
    LocalTimeSpelling(slot.localTime, h, m);
    var found := NextSlotDay(slot, h, m, after);
    hide NextSlot, ParseLocalTime;
    w := SlotWall(found, h, m);
    WeekdayIsZeller(w.date);
    if Bounded(slot.zone) && Spaced(slot.zone) && exists t :: Reads(t, w, slot.zone) {
      var t :| Reads(t, w, slot.zone);
      ResolvedReads(w, slot.zone, t);
    }
  }

  lemma ResolvedReads(w: WallClock, z: Zone, t: int)
    requires Bounded(z) && Spaced(z) && Reads(t, w, z)
    ensures ToWallClock(Resolve(w, z), z) == w
  {
    hide Bounded, Spaced, ToWallClock, ZonedTimeToUtc;
    PicksEarliestOrLatest(w, z, SHIFT_FORWARD, EARLIER, t);
  }

  /** Why a slot fails: its time is no time, then its weekday none, then its search. */
  lemma SlotErrors(slot: QueueSlot, after: int)
    ensures NextSlot(slot, after) == Err(InvalidLocalTime) <==>
      !exists h, m :: 0 <= h < 24 && 0 <= m < 60 && slot.localTime == RenderLocalTime(h, m)
    ensures NextSlot(slot, after) == Err(InvalidDayOfWeek) <==>
      ParseLocalTime(slot.localTime).Ok? && (slot.dayOfWeek < 0 || slot.dayOfWeek > 6)
    ensures NextSlot(slot, after) != Err(NoSlots) && EarliestSlot([], after) == Err(NoSlots)
  {
    hide Search, LocalDay;
    if ParseLocalTime(slot.localTime).Ok? {
      var (h, m) := ParseLocalTime(slot.localTime).value;
      LocalTimeSpelling(slot.localTime, h, m);
    }
    if h, m :| 0 <= h < 24 && 0 <= m < 60 && slot.localTime == RenderLocalTime(h, m) {
      LocalTimeSpelling(slot.localTime, h, m);
    }
  }

  /** Where no transition repeats a whole day, the search finds some day. */
  lemma SomeDayFound(slot: QueueSlot, after: int)
    requires Bounded(slot.zone) && Spaced(slot.zone) && NoDayRepeated(slot.zone) && ValidSlot(slot)
    ensures NextSlot(slot, after).Ok?
  {
    hide Bounded, Spaced, NoDayRepeated, Candidate, Weekday, NextSlot, LocalDay, ParseLocalTime;
    var (h, m) := ParseLocalTime(slot.localTime).value;
    LocalTimeSpelling(slot.localTime, h, m);
    var found := NextSlotDay(slot, h, m, after);
    var e := WeekHasDay(LocalDay(after, slot.zone) + 2, slot.dayOfWeek);
    LaterDayResolvesLater(e, h, m, slot.zone, after);
  }

  /** Where also no shift passes midnight, the next slot is the least resolved occurrence after `after`. */
  lemma NextSlotIsLeast(slot: QueueSlot, after: int)
    requires Bounded(slot.zone) && Spaced(slot.zone) && ValidSlot(slot)
    requires ShiftsStayInDay(slot.zone) && NoDayRepeated(slot.zone)
    ensures FindsLeast(slot, after)
  {
    hide Bounded, Spaced, NoDayRepeated, Candidate, Weekday, NextSlot, LocalDay, ParseLocalTime, ShiftsStayInDay;
    var (h, m) := ParseLocalTime(slot.localTime).value;
    LocalTimeSpelling(slot.localTime, h, m);
    var z := slot.zone;
    SomeDayFound(slot, after);
    var found := NextSlotDay(slot, h, m, after);
    forall e | Weekday(e) == slot.dayOfWeek && Candidate(e, h, m, z) > after
      ensures Candidate(found, h, m, z) <= Candidate(e, h, m, z)
    {
      if e < LocalDay(after, z) {
        EarlierDayResolvedBefore(e, h, m, z, after);
      } else if found < e {
        SameWeekday(found, e);
        CandidatesOrdered(found, e, h, m, z);
      }
    }
  }

  lemma TimeOfMinutes(n: int) returns (h: int, m: int)
    requires n % 60 == 0
    ensures ValidTime(h, m) && n == DAY * (n / DAY) + 3600 * h + 60 * m
  {
    var k := n / 60 - 1440 * (n / DAY);
    assert 0 <= k < 1440 && n == DAY * (n / DAY) + 60 * k;
    h, m := k / 60, k % 60;
  }

  lemma LeastIsAtMost(t: int, weekday: int, h: int, m: int, z: Zone, after: int, d: int)
    requires Weekday(d) == weekday && Candidate(d, h, m, z) > after
    ensures IsLeastAfter(t, weekday, h, m, z, after) ==> t <= Candidate(d, h, m, z)
  {
    hide Candidate, Weekday;
  }

  lemma DayGrows(n: int, p: int)
    requires n <= p && n / DAY != p / DAY
    ensures n / DAY < p / DAY
  {
  }

  /** The instant before a shifted one reads a later day. */
  lemma ShiftedInstant(n: int, d: int, h: int, m: int, z: Zone, k: int) returns (after: int)
    requires Bounded(z) && Spaced(z) && PassesMidnight(n, z, k) && ValidTime(h, m) && n == DAY * d + 3600 * h + 60 * m
    ensures after < Candidate(d, h, m, z) && d < LocalDay(after, z)
  {
    hide Spaced, Candidate;
    assert -DAY < z(k - 1) < DAY && -DAY < z(k) < DAY;
    var n', k', before, late := CandidateShape(d, h, m, z);
    SameStep(n, z, k, k', before, late);
    var c := n - z(k - 1);
    assert Candidate(d, h, m, z) == 1000 * c;
    after := 1000 * c - 1;
    assert after / 1000 == c - 1 && LocalSeconds(after, z) == n + z(k) - z(k - 1) - 1;
    TimeOfDay(d, 3600 * h + 60 * m);
    DayGrows(n, n + z(k) - z(k - 1) - 1);
  }

  /** Where a shift passes midnight, a slot asked for on the later day is not the least one. */
  lemma PassedMidnightIsMissed(n: int, z: Zone, k: int) returns (slot: QueueSlot, after: int)
    requires Bounded(z) && Spaced(z) && PassesMidnight(n, z, k)
    ensures slot.zone == z && ValidSlot(slot) && !FindsLeast(slot, after)
  {
    hide Bounded, Spaced, Candidate, Weekday, NextSlot, ParseLocalTime, IsLeastAfter, LocalDay;
    var d := n / DAY;
    var h, m := TimeOfMinutes(n);
    LocalTimeSpelling(RenderLocalTime(h, m), h, m);
    slot := QueueSlot(Weekday(d), RenderLocalTime(h, m), z);
    after := ShiftedInstant(n, d, h, m, z, k);
    var found := NextSlotDay(slot, h, m, after);
    if NextSlot(slot, after).Ok? {
      SameWeekday(d, found);
      CandidatesOrdered(d, found, h, m, z);
      LeastIsAtMost(Candidate(found, h, m, z), slot.dayOfWeek, h, m, z, after, d);
    }
  }

  /** Midnight after the repeated day comes first before the transition; from the second reading of the day before, it is past. */
  lemma RepeatedInstant(z: Zone, k: int, l: int) returns (after: int)
    requires Bounded(z) && Spaced(z) && RepeatsWholeDay(z, k, l)
    ensures LocalDay(after, z) == l - 1 && Candidate(l + 1, 0, 0, z) <= after
  {
    hide Spaced, Candidate;
    assert -DAY < z(k - 1) < DAY && -DAY < z(k) < DAY;
    var n, k', before, late := CandidateShape(l + 1, 0, 0, z);
    SameStep(n, z, k, k', before, late);
    var s := DAY * l - 1 - z(k);
    assert z(s) == z(k);
    after := 1000 * s;
    assert after / 1000 == s && LocalSeconds(after, z) == DAY * l - 1;
    DayBetween(l - 1, DAY * l - 1);
    assert Candidate(l + 1, 0, 0, z) == 1000 * (n - before);
  }

  /** Where a whole day is repeated, some slot is not found at all. */
  lemma RepeatedDayIsNotFound(z: Zone, k: int, l: int) returns (slot: QueueSlot, after: int)
    requires Bounded(z) && Spaced(z) && RepeatsWholeDay(z, k, l)
    ensures slot.zone == z && ValidSlot(slot) && NextSlot(slot, after) == Err(Unresolved) && !FindsLeast(slot, after)
  {
    hide Bounded, Spaced, Candidate, ParseLocalTime, LocalDay, RepeatsWholeDay, Search;
    LocalTimeSpelling(RenderLocalTime(0, 0), 0, 0);
    slot := QueueSlot(Weekday(l + 1), RenderLocalTime(0, 0), z);
    after := RepeatedInstant(z, k, l);
    var found := NextSlotDay(slot, 0, 0, after);
    if NextSlot(slot, after).Ok? {
      if found < l + 1 { SameWeekday(found, l + 1); }
      if l + 1 < found { SameWeekday(l + 1, found); }
    }
  }

  /** The final throw is unreachable exactly in the zones where no transition repeats a whole local day. */
  lemma NextSlotFoundIff(z: Zone)
    requires Bounded(z) && Spaced(z)
    ensures NoDayRepeated(z) <==> forall slot: QueueSlot, after :: slot.zone == z && ValidSlot(slot) ==> NextSlot(slot, after).Ok?
  {
    hide Bounded, Spaced, NextSlot, ValidSlot, RepeatsWholeDay;
    if NoDayRepeated(z) {
      forall slot: QueueSlot, after | slot.zone == z && ValidSlot(slot) ensures NextSlot(slot, after).Ok? {
        SomeDayFound(slot, after);
      }
    } else {
      var k, l :| RepeatsWholeDay(z, k, l);
      var slot, after := RepeatedDayIsNotFound(z, k, l);
    }
  }

  /**
    `nextQueueSlot` gives the least resolved occurrence strictly after `after`, for every slot and instant,
    exactly in the zones where no shifted time passes midnight and no transition repeats a whole local day.
   */
  lemma NextSlotLeastIff(z: Zone)
    requires Bounded(z) && Spaced(z)
    ensures ShiftsStayInDay(z) && NoDayRepeated(z) <==>
      forall slot: QueueSlot, after :: slot.zone == z && ValidSlot(slot) ==> FindsLeast(slot, after)
  {
    hide Bounded, Spaced, NextSlot, IsLeastAfter, ValidSlot, PassesMidnight, RepeatsWholeDay;
    if !ShiftsStayInDay(z) {
      var n, k :| PassesMidnight(n, z, k);
      var slot, after := PassedMidnightIsMissed(n, z, k);
    } else if !NoDayRepeated(z) {
      var k, l :| RepeatsWholeDay(z, k, l);
      var slot, after := RepeatedDayIsNotFound(z, k, l);
    } else {
      forall slot: QueueSlot, after | slot.zone == z && ValidSlot(slot) ensures FindsLeast(slot, after) {
        NextSlotIsLeast(slot, after);
      }
    }
  }

  // ---------------------------------------------------------------- repeating it

  /** The instants of `count` successive slots from `after`. */
  ghost function Upcoming(slot: QueueSlot, after: int, count: nat): seq<int>
    decreases count
  {
    hide NextSlot;
    if count == 0 then [] else
      match NextSlot(slot, after)
      case Ok(t) => [t] + Upcoming(slot, t, count - 1)
      case Err(_) => []
  }

  /** From one slot's instant, the next is the one a week of days later. */
  lemma NextSlotAfterSlot(slot: QueueSlot, h: int, m: int, d: int)
    requires Bounded(slot.zone) && Spaced(slot.zone) && ValidSlot(slot)
    requires ShiftsStayInDay(slot.zone) && NoDayRepeated(slot.zone)
    requires ParseLocalTime(slot.localTime).value == (h, m) && Weekday(d) == slot.dayOfWeek
    ensures NextSlot(slot, Candidate(d, h, m, slot.zone)) == Ok(Candidate(d + 7, h, m, slot.zone))
  {
    hide Bounded, Spaced, NoDayRepeated, Candidate, NextSlot, LocalDay, ParseLocalTime, ShiftsStayInDay;
    LocalTimeSpelling(slot.localTime, h, m);
    var z := slot.zone;
    var after := Candidate(d, h, m, z);
    SomeDayFound(slot, after);
    var found := NextSlotDay(slot, h, m, after);
    CandidatesOrdered(d, d + 7, h, m, z);
    if found < d {
      SameWeekday(found, d);
      CandidatesOrdered(found, d, h, m, z);
    } else if d + 7 < found {
      if d + 7 < LocalDay(after, z) {
        EarlierDayResolvedBefore(d + 7, h, m, z, after);
      }
    } else {
      assert found != d;
      SameWeekday(d, found);
    }
  }

  /** Repeated from `after`, the slot visits the instant of every matching day from the first on, each once and in order. */
  lemma {:induction false} UpcomingVisitsEveryWeek(slot: QueueSlot, h: int, m: int, after: int, d: int, count: nat)
    requires Bounded(slot.zone) && Spaced(slot.zone) && ValidSlot(slot)
    requires ShiftsStayInDay(slot.zone) && NoDayRepeated(slot.zone)
    requires ParseLocalTime(slot.localTime).value == (h, m) && Weekday(d) == slot.dayOfWeek
    requires NextSlot(slot, after) == Ok(Candidate(d, h, m, slot.zone))
    ensures |Upcoming(slot, after, count)| == count
    ensures forall i :: 0 <= i < count ==> Upcoming(slot, after, count)[i] == Candidate(d + 7 * i, h, m, slot.zone)
    decreases count
  {
    hide Bounded, Spaced, NoDayRepeated, Candidate, NextSlot, ParseLocalTime, ShiftsStayInDay;
    if count > 0 {
      var t := Candidate(d, h, m, slot.zone);
      NextSlotAfterSlot(slot, h, m, d);
      UpcomingVisitsEveryWeek(slot, h, m, t, d + 7, count - 1);
      forall i | 0 <= i < count ensures Upcoming(slot, after, count)[i] == Candidate(d + 7 * i, h, m, slot.zone) {
        if i > 0 {
          assert Upcoming(slot, after, count)[i] == Upcoming(slot, t, count - 1)[i - 1];
          assert d + 7 + 7 * (i - 1) == d + 7 * i;
        }
      }
    }
  }

  // ---------------------------------------------------------------- the earliest of several

  function EarliestFrom(slots: seq<QueueSlot>, after: int): Result<int, SlotError>
    requires slots != []
  {
    var first := NextSlot(slots[0], after);
    if |slots| == 1 || first.Err? then first else
      match EarliestFrom(slots[1..], after)
      case Ok(t) => Ok(if t < first.value then t else first.value)
      case Err(e) => Err(e)
  }

  function EarliestSlot(slots: seq<QueueSlot>, after: int): Result<int, SlotError> {
    if slots == [] then Err(NoSlots) else EarliestFrom(slots, after)
  }

  /** The earliest slot is a member's next instant and no member's is sooner; it fails exactly when a member does. */
  lemma {:induction false} EarliestSlotExact(slots: seq<QueueSlot>, after: int)
    requires slots != []
    ensures EarliestSlot(slots, after).Ok? <==> forall s :: s in slots ==> NextSlot(s, after).Ok?
    ensures EarliestSlot(slots, after).Ok? ==>
      var t := EarliestSlot(slots, after).value;
      (exists s :: s in slots && NextSlot(s, after) == Ok(t)) && forall s :: s in slots ==> t <= NextSlot(s, after).value
  {
    hide NextSlot;
    assert slots == [slots[0]] + slots[1..];
    if |slots| > 1 {
      EarliestSlotExact(slots[1..], after);
    }
  }

  // ---------------------------------------------------------------- a zone that skips a whole day

  /** Apia crossed the date line at the end of 29 December 2011: ten hours behind UTC, then fourteen ahead. */
  const CROSSING := 1_325_239_200

  function Apia(): Zone {
    s => if s < CROSSING then -36_000 else 50_400
  }

  /** One second from Thursday's last to Saturday's first. */
  lemma ApiaCrosses()
    ensures ToWallClock(1000 * CROSSING - 1, Apia()) == WallClock(Date(2011, 12, 29), 23, 59, 59)
    ensures ToWallClock(1000 * CROSSING, Apia()) == WallClock(Date(2011, 12, 31), 0, 0, 0)
  {
    Thursday();
    Saturday();
    hide ToWallClock, SecondsOf, ValidWall;
    ReadsAs(1000 * CROSSING - 1, CROSSING - 1, WallClock(Date(2011, 12, 29), 23, 59, 59), Apia());
    ReadsAs(1000 * CROSSING, CROSSING, WallClock(Date(2011, 12, 31), 0, 0, 0), Apia());
  }

  lemma ReadsAs(t: int, s: int, w: WallClock, z: Zone)
    requires t / 1000 == s && ValidWall(w) && SecondsOf(w) == s + z(s)
    ensures ToWallClock(t, z) == w
  {
    hide FieldsOf, SecondsOf, ValidWall;
    FieldsInverse(w, s + z(s));
  }

  lemma Thursday()
    ensures
      var w := WallClock(Date(2011, 12, 29), 23, 59, 59);
      ValidWall(w) && SecondsOf(w) == CROSSING - 1 - 36_000
  {
    assert MakeDay(Date(2011, 12, 29)) == 15_337;
  }

  lemma Saturday()
    ensures
      var w := WallClock(Date(2011, 12, 31), 0, 0, 0);
      ValidWall(w) && SecondsOf(w) == CROSSING + 50_400
  {
    assert MakeDay(Date(2011, 12, 31)) == 15_339;
  }

  lemma ApiaIsSpaced()
    ensures Bounded(Apia()) && Spaced(Apia()) && NoDayRepeated(Apia())
  {
    var z := Apia();
    forall lo ensures OneStepFrom(z, lo) {
      var k := if CROSSING <= lo then lo + 1 else if CROSSING > lo + 2 * DAY then lo + 2 * DAY else CROSSING;
      assert StepAt(z, lo, k, z(lo), z(lo + 2 * DAY));
    }
  }

  /** In Apia a slot of the skipped Friday is resolved to Saturday, but asking on Saturday morning misses it. */
  lemma ApiaMissesFriday() returns (slot: QueueSlot, after: int)
    ensures slot.zone == Apia() && ValidSlot(slot) && !FindsLeast(slot, after)
  {
    hide Bounded, Spaced, FindsLeast, ValidSlot;
    ApiaIsSpaced();
    var n := 15_338 * DAY + 9 * 3600;
    assert PassesMidnight(n, Apia(), CROSSING);
    slot, after := PassedMidnightIsMissed(n, Apia(), CROSSING);
  }
}
