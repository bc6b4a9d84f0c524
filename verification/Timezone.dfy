/**
  Wall clocks and instants (`packages/core/src/timezone.ts`).

  A zone is a function from whole seconds since the epoch to the offset from UTC in
  whole seconds; instants are milliseconds, as in the source. Nothing is assumed of a
  zone unless a lemma says so.
 */
module Timezone {
  import opened Wrappers
  import opened Calendar

  type Zone = int -> int

  datatype NonexistentTimePolicy = REJECT | SHIFT_FORWARD
  datatype AmbiguousTimePolicy = EARLIER | LATER
  datatype ZonedConversion = ZonedConversion(instant: int, shifted: bool, ambiguous: bool)
  datatype ZoneError = NonexistentTime

  // ---------------------------------------------------------------- assumptions on zones

  /** Every offset is under a day in size. */
  ghost predicate Bounded(z: Zone) {
    forall s :: -DAY < z(s) < DAY
  }

  /** No two offsets differ by more than a day. */
  ghost predicate SpreadWithinDay(z: Zone) {
    forall s, t :: z(s) - z(t) <= DAY
  }

  /** Through the 48 hours from `lo`, the offset is `before` until second `k` and `after` from then on. */
  ghost predicate StepAt(z: Zone, lo: int, k: int, before: int, after: int) {
    && lo < k <= lo + 2 * DAY
    && (forall s :: lo <= s < k ==> z(s) == before)
    && (forall s :: k <= s <= lo + 2 * DAY ==> z(s) == after)
  }

  ghost predicate OneStepFrom(z: Zone, lo: int) {
    exists k, before, after :: StepAt(z, lo, k, before, after)
  }

  /** Every window of 48 hours holds at most one transition. */
  ghost predicate Spaced(z: Zone) {
    forall lo :: OneStepFrom(z, lo)
  }

  predicate Transition(z: Zone, k: int) {
    z(k - 1) != z(k)
  }

  // ---------------------------------------------------------------- reading a clock

  /** Seconds on the wall at an instant: whole seconds are all a formatter gives. */
  function LocalSeconds(t: int, z: Zone): int {
    t / 1000 + z(t / 1000)
  }

  function ToWallClock(t: int, z: Zone): WallClock {
    FieldsOf(LocalSeconds(t, z))
  }

  /** The offset in milliseconds, recovered by reading the wall fields back as UTC. */
  function OffsetAt(t: int, z: Zone): (r: int)
    ensures r == 1000 * z(t / 1000)
  {
    1000 * SecondsOf(ToWallClock(t, z)) - t / 1000 * 1000
  }

  // ---------------------------------------------------------------- occurrences

  /** `[...new Set(s)]`: first occurrences, in order. */
  function Distinct(s: seq<int>): (r: seq<int>)
    ensures forall x :: x in r <==> x in s
    ensures forall i, j :: 0 <= i < j < |r| ==> r[i] != r[j]
  {
    if s == [] then [] else
      var r := Distinct(s[..|s| - 1]);
      var last := s[|s| - 1];
      assert s == s[..|s| - 1] + [last];
      if last in r then r else r + [last]
  }

  ghost predicate Increasing(s: seq<int>) {
    forall i, j :: 0 <= i < j < |s| ==> s[i] < s[j]
  }

  function Insert(x: int, s: seq<int>): (r: seq<int>)
    requires Increasing(s) && x !in s
    ensures Increasing(r) && forall y :: y in r <==> y == x || y in s
  {
    if s == [] || x < s[0] then [x] + s else
      var r := Insert(x, s[1..]);
      assert forall i :: 0 <= i < |r| ==> s[0] < r[i] by {
        forall i | 0 <= i < |r| ensures s[0] < r[i] {
          assert r[i] in r;
        }
      }
      [s[0]] + r
  }

  function Sorted(s: seq<int>): (r: seq<int>)
    requires forall i, j :: 0 <= i < j < |s| ==> s[i] != s[j]
    ensures Increasing(r) && forall y :: y in r <==> y in s
  {
    if s == [] then [] else Insert(s[0], Sorted(s[1..]))
  }

  /** `offsets.map((o) => naive - o).filter(keep)`. */
  function Candidates(naive: int, offsets: seq<int>, keep: int -> bool): (r: seq<int>)
    ensures forall t :: t in r <==> naive - t in offsets && keep(t)
  {
    if offsets == [] then [] else
      var t, rest := naive - offsets[0], Candidates(naive, offsets[1..], keep);
      assert forall o :: o in offsets <==> o == offsets[0] || o in offsets[1..];
      if keep(t) then [t] + rest else rest
  }

  /** Milliseconds of the wall fields read as UTC. */
  function Naive(w: WallClock): (r: int)
    ensures r % 1000 == 0
  {
    1000 * SecondsOf(w)
  }

  /** The offsets in force a day before, at, and a day after the wall fields read as UTC. */
  function ProbeOffsets(naive: int, z: Zone): (r: seq<int>)
    ensures forall o :: o in r <==>
      o == OffsetAt(naive - 1000 * DAY, z) || o == OffsetAt(naive, z) || o == OffsetAt(naive + 1000 * DAY, z)
  {
    hide OffsetAt;
    var a, b, c := OffsetAt(naive - 1000 * DAY, z), OffsetAt(naive, z), OffsetAt(naive + 1000 * DAY, z);
    assert forall o :: o in [a, b, c] <==> o == a || o == b || o == c;
    Distinct([a, b, c])
  }

  function OccurrencesOf(w: WallClock, z: Zone): (r: seq<int>)
    ensures Increasing(r)
    ensures forall t :: t in r <==> Naive(w) - t in ProbeOffsets(Naive(w), z) && ToWallClock(t, z) == w
  {
    hide Naive, ProbeOffsets, ToWallClock;
    Sorted(Distinct(Candidates(Naive(w), ProbeOffsets(Naive(w), z), t => ToWallClock(t, z) == w)))
  }

  // ---------------------------------------------------------------- conversion

  function ZonedTimeToUtc(w: WallClock, z: Zone, nonexistent: NonexistentTimePolicy, ambiguous: AmbiguousTimePolicy)
    : Result<ZonedConversion, ZoneError>
  {
    var found := OccurrencesOf(w, z);
    if |found| == 1 then Ok(ZonedConversion(found[0], false, false))
    else if |found| > 1 then
      Ok(ZonedConversion(if ambiguous == EARLIER then found[0] else found[|found| - 1], false, true))
    else if nonexistent == REJECT then Err(NonexistentTime)
    else Ok(ZonedConversion(Naive(w) - OffsetAt(Naive(w) - 1000 * DAY, z), true, false))
  }

  /** The conversion a recurring slot and a day boundary use; it never rejects. */
  function Resolve(w: WallClock, z: Zone): int {
    ZonedTimeToUtc(w, z, SHIFT_FORWARD, EARLIER).value.instant
  }

  // ---------------------------------------------------------------- what conversion means

  /** An instant of whole seconds that the zone reads as this wall time. */
  predicate Reads(t: int, w: WallClock, z: Zone) {
    t % 1000 == 0 && ToWallClock(t, z) == w
  }

  lemma ReadsIffSeconds(t: int, w: WallClock, z: Zone)
    requires t % 1000 == 0
    ensures Reads(t, w, z) <==> ValidWall(w) && LocalSeconds(t, z) == SecondsOf(w)
  {
    hide FieldsOf, SecondsOf, ValidWall;
    FieldsInverse(w, LocalSeconds(t, z));
  }

  /** The one transition there may be within a day of a wall reading. */
  lemma StepAround(n: int, z: Zone) returns (k: int, before: int, after: int)
    requires Spaced(z)
    ensures StepAt(z, n - DAY, k, before, after)
    ensures before != after ==> Transition(z, k)
  {
    assert OneStepFrom(z, n - DAY);
    k, before, after :| StepAt(z, n - DAY, k, before, after);
  }

  lemma ProbesAre(n: int, z: Zone, o: int)
    ensures o in ProbeOffsets(1000 * n, z) <==> o == 1000 * z(n - DAY) || o == 1000 * z(n) || o == 1000 * z(n + DAY)
  {
    hide OffsetAt;
    assert 1000 * n - 1000 * DAY == 1000 * (n - DAY) && 1000 * n + 1000 * DAY == 1000 * (n + DAY);
  }

  /** At a second that reads as `n`, the offset is one of those a day either side of `n`. */
  lemma OffsetIsProbed(n: int, s: int, z: Zone)
    requires Bounded(z) && Spaced(z) && s + z(s) == n
    ensures z(s) == z(n - DAY) || z(s) == z(n + DAY)
  {
    assert -DAY < z(s) < DAY;
    var k, before, after := StepAround(n, z);
  }

  /** `occurrencesOf` finds every instant that reads as the wall time, and nothing else. */
  lemma OccurrencesExact(w: WallClock, z: Zone, t: int)
    requires Bounded(z) && Spaced(z)
    ensures t in OccurrencesOf(w, z) <==> Reads(t, w, z)
  {
    hide ToWallClock, OffsetAt, SecondsOf, OccurrencesOf, ProbeOffsets, Bounded, Spaced;
    var n := SecondsOf(w);
    ProbesAre(n, z, Naive(w) - t);
    if Reads(t, w, z) {
      ReadsIffSeconds(t, w, z);
      OffsetIsProbed(n, t / 1000, z);
    }
  }

  lemma IncreasingIs(s: seq<int>, t: seq<int>)
    requires Increasing(s) && Increasing(t) && forall x :: x in s <==> x in t
    ensures s == t
  {
    assert |s| > 0 ==> s[0] in s;
    assert |t| > 0 ==> t[0] in t;
    if s != [] && t != [] {
      assert s[0] in s && s[0] in t && t[0] in t && t[0] in s;
      assert s[0] == t[0];
      Rest(s);
      Rest(t);
      IncreasingIs(s[1..], t[1..]);
    }
  }

  lemma Rest(s: seq<int>)
    requires Increasing(s) && s != []
    ensures Increasing(s[1..]) && forall x :: x in s[1..] <==> x in s && x != s[0]
  {
    assert s == [s[0]] + s[1..];
    assert forall i :: 0 <= i < |s| - 1 ==> s[1..][i] == s[i + 1] && s[0] < s[i + 1];
  }

  /** The readings of `n`: at most one before the transition and one from it on. */
  function Readings(n: int, k: int, before: int, after: int): (r: seq<int>)
    ensures Increasing(r)
  {
    (if n - before < k then [1000 * (n - before)] else []) + (if n - after >= k then [1000 * (n - after)] else [])
  }

  lemma ReadingsExact(n: int, z: Zone, k: int, before: int, after: int, t: int)
    requires Bounded(z) && StepAt(z, n - DAY, k, before, after)
    ensures t in Readings(n, k, before, after) <==> t % 1000 == 0 && LocalSeconds(t, z) == n
  {
    assert before == z(k - 1) && after == z(k);
    var s := t / 1000;
    assert -DAY < z(s) < DAY;
    if t == 1000 * (n - before) && n - before < k {
      assert s == n - before;
    }
    if t == 1000 * (n - after) && n - after >= k {
      assert s == n - after;
    }
  }

  lemma OccurrenceIsReading(w: WallClock, z: Zone, k: int, before: int, after: int, t: int)
    requires Bounded(z) && Spaced(z) && ValidWall(w) && StepAt(z, SecondsOf(w) - DAY, k, before, after)
    ensures t in OccurrencesOf(w, z) <==> t in Readings(SecondsOf(w), k, before, after)
  {
    hide SecondsOf, OccurrencesOf, Bounded, Spaced, LocalSeconds, StepAt, Readings, ToWallClock, Naive;
    OccurrencesExact(w, z, t);
    ReadingsExact(SecondsOf(w), z, k, before, after, t);
    if t % 1000 == 0 {
      ReadsIffSeconds(t, w, z);
    }
  }

  lemma OccurrencesShape(w: WallClock, z: Zone) returns (k: int, before: int, after: int)
    requires Bounded(z) && Spaced(z) && ValidWall(w)
    ensures StepAt(z, SecondsOf(w) - DAY, k, before, after)
    ensures OccurrencesOf(w, z) == Readings(SecondsOf(w), k, before, after)
  {
    hide SecondsOf, OccurrencesOf, Bounded, Spaced, StepAt, Naive, ProbeOffsets;
    k, before, after := StepAround(SecondsOf(w), z);
    var r := Readings(SecondsOf(w), k, before, after);
    forall t ensures t in OccurrencesOf(w, z) <==> t in r {
      OccurrenceIsReading(w, z, k, before, after, t);
    }
    IncreasingIs(OccurrencesOf(w, z), r);
  }

  lemma AtMostTwo(w: WallClock, z: Zone, t: int)
    requires Bounded(z) && Spaced(z) && Reads(t, w, z)
    ensures 1 <= |OccurrencesOf(w, z)| <= 2
  {
    hide OccurrencesOf, Bounded, Spaced, SecondsOf, StepAt, LocalSeconds, ToWallClock;
    ReadsIffSeconds(t, w, z);
    OccurrencesExact(w, z, t);
    var k, before, after := OccurrencesShape(w, z);
  }

  // ---------------------------------------------------------------- main results on conversion

  /** A conversion is rejected exactly when no instant reads as the wall time. */
  lemma RejectsIffNoReading(w: WallClock, z: Zone, ambiguous: AmbiguousTimePolicy)
    requires Bounded(z) && Spaced(z)
    ensures ZonedTimeToUtc(w, z, REJECT, ambiguous).Err? <==> forall t :: !Reads(t, w, z)
  {
    hide SecondsOf, ToWallClock, OffsetAt, Naive, ProbeOffsets, OccurrencesOf, Reads, Bounded, Spaced;
    var found := OccurrencesOf(w, z);
    forall t ensures t in found <==> Reads(t, w, z) {
      OccurrencesExact(w, z, t);
    }
    if found != [] {
      assert found[0] in found;
    }
  }

  /** Where some instant reads as the wall time, the policies pick the first and the last that do. */
  lemma PicksEarliestOrLatest(w: WallClock, z: Zone, nonexistent: NonexistentTimePolicy, ambiguous: AmbiguousTimePolicy, t: int)
    requires Bounded(z) && Spaced(z) && Reads(t, w, z)
    ensures
      var r := ZonedTimeToUtc(w, z, nonexistent, ambiguous);
      && r.Ok? && !r.value.shifted && Reads(r.value.instant, w, z)
      && (ambiguous == EARLIER ==> r.value.instant <= t)
      && (ambiguous == LATER ==> r.value.instant >= t)
  {
    hide SecondsOf, ToWallClock, OffsetAt, Naive, ProbeOffsets, OccurrencesOf, Reads, Bounded, Spaced;
    var found := OccurrencesOf(w, z);
    AtMostTwo(w, z, t);
    OccurrencesExact(w, z, t);
    assert found[0] in found && found[|found| - 1] in found;
    OccurrencesExact(w, z, found[0]);
    OccurrencesExact(w, z, found[|found| - 1]);
    var i :| 0 <= i < |found| && found[i] == t;
  }

  /** A conversion is ambiguous exactly when two instants read as the wall time; there are never three. */
  lemma AmbiguousIffTwoReadings(w: WallClock, z: Zone, nonexistent: NonexistentTimePolicy, ambiguous: AmbiguousTimePolicy)
    requires Bounded(z) && Spaced(z)
    requires ZonedTimeToUtc(w, z, nonexistent, ambiguous).Ok?
    ensures ZonedTimeToUtc(w, z, nonexistent, ambiguous).value.ambiguous
       <==> exists t, u :: t < u && Reads(t, w, z) && Reads(u, w, z)
    ensures forall t, u, v :: Reads(t, w, z) && Reads(u, w, z) && Reads(v, w, z) ==> t == u || u == v || t == v
  {
    hide SecondsOf, ToWallClock, OffsetAt, Naive, ProbeOffsets, OccurrencesOf, Reads, Bounded, Spaced;
    var found := OccurrencesOf(w, z);
    forall t ensures t in found <==> Reads(t, w, z) {
      OccurrencesExact(w, z, t);
    }
    if found != [] {
      AtMostTwo(w, z, found[0]);
    }
    if |found| == 2 {
      assert Reads(found[0], w, z) && Reads(found[1], w, z);
    }
  }

  /** Reading a clock and converting back gives the instant again, under one of the two policies. */
  lemma InstantRoundTrip(t: int, z: Zone, nonexistent: NonexistentTimePolicy)
    requires Bounded(z) && Spaced(z) && t % 1000 == 0
    ensures
      var early := ZonedTimeToUtc(ToWallClock(t, z), z, nonexistent, EARLIER);
      var late := ZonedTimeToUtc(ToWallClock(t, z), z, nonexistent, LATER);
      early.Ok? && late.Ok? && (t == early.value.instant || t == late.value.instant)
  {
    hide SecondsOf, ToWallClock, ZonedTimeToUtc, Bounded, Spaced;
    var w := ToWallClock(t, z);
    var early, late := ZonedTimeToUtc(w, z, nonexistent, EARLIER), ZonedTimeToUtc(w, z, nonexistent, LATER);
    assert Reads(t, w, z);
    PicksEarliestOrLatest(w, z, nonexistent, EARLIER, t);
    PicksEarliestOrLatest(w, z, nonexistent, LATER, t);
    AmbiguousIffTwoReadings(w, z, nonexistent, EARLIER);
    assert Reads(early.value.instant, w, z) && Reads(late.value.instant, w, z);
  }

  /** The two conditions that put a wall time in the gap of a forward transition. */
  predicate InGap(n: int, z: Zone, k: int) {
    k + z(k - 1) <= n < k + z(k)
  }

  /**
    A valid wall time without a reading lies in the gap of a forward transition; SHIFT_FORWARD then
    returns an instant at or after the transition that reads as the request plus the gap's length. It
    is the transition itself only when the request is the start of the gap.
   */
  lemma ShiftForward(w: WallClock, z: Zone, ambiguous: AmbiguousTimePolicy) returns (k: int)
    requires Bounded(z) && Spaced(z) && ValidWall(w)
    requires forall t :: !Reads(t, w, z)
    ensures Transition(z, k) && InGap(SecondsOf(w), z, k)
    ensures
      var r := ZonedTimeToUtc(w, z, SHIFT_FORWARD, ambiguous);
      && r.Ok? && r.value.shifted && !r.value.ambiguous
      && r.value.instant >= 1000 * k
      && LocalSeconds(r.value.instant, z) == SecondsOf(w) + z(k) - z(k - 1)
      && (r.value.instant == 1000 * k <==> SecondsOf(w) == k + z(k - 1))
  {
    hide SecondsOf, OccurrencesOf, Reads, ToWallClock;
    var n := SecondsOf(w);
    var before, after;
    k, before, after := OccurrencesShape(w, z);
    if OccurrencesOf(w, z) != [] {
      OccurrencesExact(w, z, OccurrencesOf(w, z)[0]);
    }
    GapShape(n, z, k, before, after);
    assert (1000 * n - 1000 * DAY) / 1000 == n - DAY;
  }

  lemma GapShape(n: int, z: Zone, k: int, before: int, after: int)
    requires Bounded(z) && StepAt(z, n - DAY, k, before, after) && Readings(n, k, before, after) == []
    ensures before == z(k - 1) && after == z(k) && InGap(n, z, k) && z(n - before) == after
  {
    assert before == z(k - 1) && after == z(k);
    assert -DAY < z(k - 1) < DAY && -DAY < z(k) < DAY;
  }

  function HourGap(): Zone {
    s => if s < 0 then 0 else 3600
  }

  lemma UnreadHasNoOccurrence(n: int, z: Zone)
    requires forall t :: LocalSeconds(t, z) != n
    ensures OccurrencesOf(FieldsOf(n), z) == []
  {
    hide FieldsOf, SecondsOf, OffsetAt, ProbeOffsets, OccurrencesOf, LocalSeconds, Naive;
    var found := OccurrencesOf(FieldsOf(n), z);
    if found != [] {
      assert found[0] in found;
      FieldsInverse(FieldsOf(n), LocalSeconds(found[0], z));
    }
  }

  lemma Shifts(n: int, z: Zone, ambiguous: AmbiguousTimePolicy)
    requires OccurrencesOf(FieldsOf(n), z) == []
    ensures ZonedTimeToUtc(FieldsOf(n), z, SHIFT_FORWARD, ambiguous) ==
      Ok(ZonedConversion(1000 * n - OffsetAt(1000 * n - 1000 * DAY, z), true, false))
  {
    hide OccurrencesOf, OffsetAt, FieldsOf, SecondsOf;
  }

  lemma HourGapSkips(n: int)
    requires 0 < n < 3600
    ensures OccurrencesOf(FieldsOf(n), HourGap()) == []
  {
    hide FieldsOf, SecondsOf, OccurrencesOf;
    UnreadHasNoOccurrence(n, HourGap());
  }

  lemma HourGapOffset(n: int)
    requires n < 3600
    ensures OffsetAt(1000 * n - 1000 * DAY, HourGap()) == 0
  {
    hide OffsetAt;
    assert (1000 * n - 1000 * DAY) / 1000 == n - DAY;
  }

  lemma LocalAt(n: int, z: Zone)
    ensures LocalSeconds(1000 * n, z) == n + z(n)
  {
  }

  lemma HourGapReads(n: int)
    requires 0 <= n
    ensures ToWallClock(1000 * n, HourGap()) == FieldsOf(n + 3600)
  {
    hide FieldsOf, SecondsOf, MakeDay, ValidWall, LocalSeconds;
    assert LocalSeconds(1000 * n, HourGap()) == n + 3600 by { LocalAt(n, HourGap()); }
  }

  /** SHIFT_FORWARD passes the transition: with an hour's gap from 00:00 on, 00:30 gives 01:30 and not 01:00. */
  lemma ShiftPassesTransition(n: int)
    requires 0 < n < 3600
    ensures Transition(HourGap(), 0)
    ensures ZonedTimeToUtc(FieldsOf(n), HourGap(), SHIFT_FORWARD, EARLIER) == Ok(ZonedConversion(1000 * n, true, false))
    ensures ToWallClock(1000 * n, HourGap()) == FieldsOf(n + 3600)
  {
    hide FieldsOf, SecondsOf, OffsetAt, OccurrencesOf, ZonedTimeToUtc, ToWallClock, LocalSeconds;
    HourGapSkips(n);
    Shifts(n, HourGap(), EARLIER);
    HourGapOffset(n);
    HourGapReads(n);
  }
}
