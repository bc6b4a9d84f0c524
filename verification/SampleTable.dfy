/** The time-to-sample table and the frame rates read from it (`readTimeToSample` and `applyTrack` of `packages/storage/src/probe.ts`). */
module SampleTable {
  import opened Wrappers
  import opened Bytes

  datatype Figures = Samples(count: int, totalDelta: int, minDelta: int, deltas: int)

  type Samples = s: Figures | s.count > 0 && s.totalDelta > 0 && s.minDelta > 0 witness Samples(1, 1, 1, 1)

  datatype Rates = Rates(frameRate: real, peakFrameRate: real, variableFrameRate: bool)

  /** `count` frames held for `delta` ticks each. */
  datatype Run = Run(count: nat, delta: nat)

  /** What the loop has gathered; no minimum yet stands for infinity. */
  datatype Tally = Tally(count: int, totalDelta: int, minDelta: Option<int>, seen: set<int>)

  function RunAt(b: seq<Byte>, o: nat): Run
    requires o + 8 <= |b|
  {
    Run(U32(b, o), U32(b, o + 4))
  }

  function RunsAt(b: seq<Byte>, o: nat, n: nat): (r: seq<Run>)
    requires o + 8 * n <= |b|
    ensures |r| == n
  {
    if n == 0 then [] else RunsAt(b, o, n - 1) + [RunAt(b, o + 8 * (n - 1))]
  }

  function AddRun(t: Tally, r: Run): Tally {
    if r.delta == 0 || r.count == 0 then t else
      Tally(t.count + r.count, t.totalDelta + r.count * r.delta,
            Some(if t.minDelta.Some? && t.minDelta.value < r.delta then t.minDelta.value else r.delta),
            t.seen + {r.delta})
  }

  function TallyOf(runs: seq<Run>): (t: Tally)
    ensures t.count >= 0 && t.totalDelta >= 0 && (t.count > 0 <==> t.totalDelta > 0)
    ensures t.minDelta.Some? ==> t.minDelta.value > 0
  {
    if runs == [] then Tally(0, 0, None, {}) else AddRun(TallyOf(runs[..|runs| - 1]), runs[|runs| - 1])
  }

  function Summary(runs: seq<Run>): Option<Samples> {
    var t := TallyOf(runs);
    if t.count == 0 || t.minDelta.None? then None
    else Some(Samples(t.count, t.totalDelta, t.minDelta.value, |t.seen|))
  }

  /** The runs a box holds: never more than it declares, nor than fit before `end`. */
  function TableRuns(b: seq<Byte>, boxStart: nat, end: nat): seq<Run>
    requires boxStart + 16 <= end <= |b|
  {
    var declared, room := U32(b, boxStart + 12), (end - (boxStart + 16)) / 8;
    RunsAt(b, boxStart + 16, if declared < room then declared else room)
  }

  function TimeToSample(b: seq<Byte>, boxStart: nat, end: nat): Option<Samples>
    requires end <= |b|
  {
    if boxStart + 16 > end then None else Summary(TableRuns(b, boxStart, end))
  }

  lemma NoRuns(b: seq<Byte>, o: nat)
    requires o <= |b|
    ensures TallyOf(RunsAt(b, o, 0)) == Tally(0, 0, None, {})
  {
  }

  lemma TallyStep(b: seq<Byte>, o: nat, i: nat, t: Tally)
    requires o + 8 * i + 8 <= |b| && t == TallyOf(RunsAt(b, o, i))
    ensures
      var count, delta := U32(b, o + 8 * i), U32(b, o + 8 * i + 4);
      TallyOf(RunsAt(b, o, i + 1)) ==
        if delta == 0 || count == 0 then t
        else Tally(t.count + count, t.totalDelta + count * delta,
                   Some(if t.minDelta.Some? && t.minDelta.value < delta then t.minDelta.value else delta), t.seen + {delta})
  {
    hide U32;
    assert RunsAt(b, o, i + 1)[..i] == RunsAt(b, o, i);
  }

  lemma SummaryIs(b: seq<Byte>, boxStart: nat, end: nat, t: Tally)
    requires boxStart + 16 <= end <= |b|
    requires
      var declared, room := U32(b, boxStart + 12), (end - (boxStart + 16)) / 8;
      t == TallyOf(RunsAt(b, boxStart + 16, if declared < room then declared else room))
    ensures Summary(TableRuns(b, boxStart, end)) ==
      if t.count == 0 || t.minDelta.None? then None else Some(Samples(t.count, t.totalDelta, t.minDelta.value, |t.seen|))
  {
    hide TallyOf, RunsAt, U32;
  }

  method ReadTimeToSample(b: seq<Byte>, boxStart: nat, end: nat) returns (r: Option<Samples>)
    requires end <= |b|
    ensures r == TimeToSample(b, boxStart, end)
  {
    hide U32, RunsAt, TallyOf, TableRuns, Summary;
    var offset := boxStart + 16;
    if offset > end {
      return None;
    }
    NoRuns(b, offset);
    var declared := U32(b, boxStart + 12);
    var room := (end - offset) / 8;
    var entries := if declared < room then declared else room;
    var count, totalDelta := 0, 0;
    var minDelta: Option<int> := None;
    var seen: set<int> := {};
    for i := 0 to entries
      invariant offset == boxStart + 16 + 8 * i
      invariant Tally(count, totalDelta, minDelta, seen) == TallyOf(RunsAt(b, boxStart + 16, i))
    {
      var sampleCount, sampleDelta := U32(b, offset), U32(b, offset + 4);
      offset := offset + 8;
      TallyStep(b, boxStart + 16, i, Tally(count, totalDelta, minDelta, seen));
      if sampleDelta == 0 || sampleCount == 0 {
        continue;
      }
      count := count + sampleCount;
      totalDelta := totalDelta + sampleCount * sampleDelta;
      minDelta := Some(if minDelta.Some? && minDelta.value < sampleDelta then minDelta.value else sampleDelta);
      seen := seen + {sampleDelta};
    }
    SummaryIs(b, boxStart, end, Tally(count, totalDelta, minDelta, seen));
    if count == 0 || minDelta.None? {
      return None;
    }
    r := Some(Samples(count, totalDelta, minDelta.value, |seen|));
  }

  // ---------------------------------------------------------------- the table frame by frame

  function Repeat(x: int, n: nat): (r: seq<int>)
    ensures |r| == n && forall i :: 0 <= i < n ==> r[i] == x
  {
    seq(n, _ => x)
  }

  /** The gap after every frame, in order; a zero gap is no frame. */
  function Gaps(runs: seq<Run>): seq<int>
  {
    if runs == [] then [] else
      var r := runs[|runs| - 1];
      Gaps(runs[..|runs| - 1]) + if r.delta == 0 then [] else Repeat(r.delta, r.count)
  }

  function Sum(s: seq<int>): int {
    if s == [] then 0 else Sum(s[..|s| - 1]) + s[|s| - 1]
  }

  lemma SumAppend(s: seq<int>, x: int)
    ensures Sum(s + [x]) == Sum(s) + x
  {
    assert (s + [x])[..|s|] == s;
  }

  lemma OneMore(n: int, x: int)
    ensures n * x == (n - 1) * x + x
  {
  }

  lemma {:induction false} SumRepeat(s: seq<int>, x: int, n: nat)
    ensures Sum(s + Repeat(x, n)) == Sum(s) + n * x
    decreases n
  {
    hide Sum;
    if n == 0 {
      assert s + Repeat(x, n) == s;
    } else {
      SumRepeat(s, x, n - 1);
      SumAppend(s + Repeat(x, n - 1), x);
      assert s + Repeat(x, n) == s + Repeat(x, n - 1) + [x];
      OneMore(n, x);
    }
  }

  /** `m` is the least element. */
  ghost predicate IsMin(m: int, s: seq<int>) {
    m in s && forall i :: 0 <= i < |s| ==> m <= s[i]
  }

  lemma {:induction false} TallyMeansGaps(runs: seq<Run>)
    ensures var t, gaps := TallyOf(runs), Gaps(runs);
      && t.count == |gaps| && t.totalDelta == Sum(gaps)
      && (if t.minDelta.None? then gaps == [] else IsMin(t.minDelta.value, gaps))
      && (forall x :: x in t.seen <==> x in gaps)
      && (forall i :: 0 <= i < |gaps| ==> gaps[i] > 0)
    decreases runs
  {
    if runs != [] {
      var rest, r := runs[..|runs| - 1], runs[|runs| - 1];
      TallyMeansGaps(rest);
      if r.delta != 0 && r.count != 0 {
        var prior, added := Gaps(rest), Repeat(r.delta, r.count);
        SumRepeat(prior, r.delta, r.count);
        assert added[0] in added;
        assert forall x :: x in prior + added <==> x in prior || x in added;
      } else {
        assert Gaps(runs) == Gaps(rest);
      }
    }
  }

  lemma Elements(values: set<int>, s: seq<int>)
    requires forall x :: x in values <==> x in s
    ensures values == set x | x in s
  {
    var elements := set x | x in s;
    assert forall x :: x in elements ==> x in values;
    assert forall x :: x in values ==> x in elements;
    assert elements <= values && values <= elements;
  }

  /** Count, total, minimum and number of distinct gaps are those of the table written out frame by frame. */
  lemma SummaryMeansGaps(runs: seq<Run>)
    ensures Summary(runs).None? <==> Gaps(runs) == []
    ensures Summary(runs).Some? ==>
      var s, gaps := Summary(runs).value, Gaps(runs);
      && s.count == |gaps| && s.totalDelta == Sum(gaps) && IsMin(s.minDelta, gaps)
      && s.deltas == |set x | x in gaps|
  {
    TallyMeansGaps(runs);
    Elements(TallyOf(runs).seen, Gaps(runs));
  }

  // ---------------------------------------------------------------- rates

  /** Rounded to hundredths, halves up. */
  function Round2(x: real): real {
    (x * 100.0 + 0.5).Floor as real / 100.0
  }

  function TrackRates(timescale: Option<int>, samples: Option<Samples>): Option<Rates>
  {
    if timescale.None? || timescale.value <= 0 || samples.None? then None else
      var s := samples.value;
      var average := s.totalDelta as real / s.count as real;
      Positive(s.totalDelta as real, s.count as real);
      Some(Rates(Round2(timescale.value as real / average), Round2(timescale.value as real / s.minDelta as real), s.deltas > 1))
  }

  lemma Positive(a: real, b: real)
    requires a > 0.0 && b > 0.0
    ensures a / b > 0.0
  {
    var q := a / b;
    assert q * b == a;
    assert q <= 0.0 ==> q * b <= 0.0;
  }

  lemma {:induction false} SumAtLeast(s: seq<int>, m: int)
    requires forall i :: 0 <= i < |s| ==> m <= s[i]
    ensures m * |s| <= Sum(s)
    ensures m * |s| == Sum(s) <==> forall i :: 0 <= i < |s| ==> s[i] == m
    decreases s
  {
    if s != [] {
      var rest := s[..|s| - 1];
      SumAtLeast(rest, m);
      assert m * |s| == m * |rest| + m;
      assert s == rest + [s[|s| - 1]];
      assert (forall i :: 0 <= i < |s| ==> s[i] == m) <==> s[|s| - 1] == m && forall i :: 0 <= i < |rest| ==> rest[i] == m;
    }
  }

  /** More than one distinct gap is two frames that are held differently. */
  lemma DistinctGaps(s: seq<int>, m: int)
    requires IsMin(m, s)
    ensures |set x | x in s| == 1 <==> forall i :: 0 <= i < |s| ==> s[i] == m
    ensures |set x | x in s| >= 1
  {
    var values := set x | x in s;
    assert {m} <= values;
    SubsetSize({m}, values);
    assert (forall i :: 0 <= i < |s| ==> s[i] == m) ==> values == {m};
    if |values| == 1 {
      SameSize({m}, values);
      forall i | 0 <= i < |s| ensures s[i] == m {
        assert s[i] in values;
      }
    }
  }

  lemma SubsetSize(a: set<int>, b: set<int>)
    requires a <= b
    ensures |a| <= |b|
  {
    assert |b| == |a| + |b - a| by { assert b == a + (b - a); }
  }

  lemma SameSize(a: set<int>, b: set<int>)
    requires a <= b && |a| == |b|
    ensures a == b
  {
    assert b == a + (b - a);
    assert |b| == |a| + |b - a|;
  }

  lemma QuotientOrder(t: real, a: real, b: real)
    requires t > 0.0 && 0.0 < a <= b
    ensures t / b <= t / a
  {
    var p, q := t / a, t / b;
    assert p * a == t && q * b == t;
    Positive(t, a);
    assert p * (b - a) >= 0.0;
    assert (p - q) * b == p * b - t;
    assert p - q < 0.0 ==> (p - q) * b < 0.0;
  }

  lemma RoundOrder(x: real, y: real)
    requires x <= y
    ensures Round2(x) <= Round2(y)
  {
    FloorOrder(x * 100.0 + 0.5, y * 100.0 + 0.5);
    HundredthsOrder((x * 100.0 + 0.5).Floor, (y * 100.0 + 0.5).Floor);
  }

  lemma FloorOrder(x: real, y: real)
    requires x <= y
    ensures x.Floor <= y.Floor
  {
  }

  lemma HundredthsOrder(a: int, b: int)
    requires a <= b
    ensures a as real / 100.0 <= b as real / 100.0
  {
  }

  /**
    The peak rate is never below the average one, the two are equal on a table whose gaps are all the same,
    and a rate is called variable exactly when two frames are held differently.
   */
  lemma PeakBoundsAverage(timescale: int, runs: seq<Run>)
    requires timescale > 0 && Gaps(runs) != []
    ensures Summary(runs).Some?
    ensures
      var rates := TrackRates(Some(timescale), Summary(runs)).value;
      && rates.frameRate <= rates.peakFrameRate
      && (!rates.variableFrameRate ==> rates.frameRate == rates.peakFrameRate)
      && (rates.variableFrameRate <==> exists i, j :: 0 <= i < j < |Gaps(runs)| && Gaps(runs)[i] != Gaps(runs)[j])
  {
    hide Gaps, Summary, Sum, Round2;
    SummaryMeansGaps(runs);
    var s, gaps := Summary(runs).value, Gaps(runs);
    SumAtLeast(gaps, s.minDelta);
    DistinctGaps(gaps, s.minDelta);
    AverageAtLeastMin(s.totalDelta, s.count, s.minDelta);
    var average := s.totalDelta as real / s.count as real;
    QuotientOrder(timescale as real, s.minDelta as real, average);
    RoundOrder(timescale as real / average, timescale as real / s.minDelta as real);
    if s.deltas > 1 {
      var i :| 0 <= i < |gaps| && gaps[i] != s.minDelta;
      var j :| 0 <= j < |gaps| && gaps[j] == s.minDelta;
      var lo, hi := if i < j then i else j, if i < j then j else i;
      assert 0 <= lo < hi < |gaps| && gaps[lo] != gaps[hi];
    }
  }

  lemma AverageAtLeastMin(total: int, count: int, m: int)
    requires count > 0 && m > 0 && m * count <= total
    ensures m as real <= total as real / count as real
    ensures m * count == total ==> m as real == total as real / count as real
  {
    var q, n := total as real / count as real, count as real;
    assert q * n == total as real;
    assert (m * count) as real == m as real * n;
    assert (q - m as real) * n == q * n - m as real * n;
    assert q < m as real ==> (q - m as real) * n < 0.0;
    assert q > m as real ==> (q - m as real) * n > 0.0;
  }

  /** `rate` is `num / den` to the nearest hundredth, halves up. */
  predicate Hundredths(rate: real, num: int, den: int) {
    var n := (rate * 100.0).Floor;
    rate * 100.0 == n as real && (2 * n - 1) * den <= 200 * num < (2 * n + 1) * den
  }

  lemma Round2Is(x: real, num: int, den: int)
    requires den > 0 && x * den as real == num as real
    ensures Hundredths(Round2(x), num, den)
  {
    var n := (x * 100.0 + 0.5).Floor;
    FloorBounds(x, n);
    BoundsAt(x, 2 * n - 1, 2 * n + 1, num, den);
    AreHundredths(Round2(x), n, num, den);
  }

  lemma FloorBounds(x: real, n: int)
    requires n == (x * 100.0 + 0.5).Floor
    ensures Round2(x) == n as real / 100.0 && (2 * n - 1) as real <= 200.0 * x < (2 * n + 1) as real
  {
  }

  lemma BoundsAt(x: real, lo: int, hi: int, num: int, den: int)
    requires den > 0 && x * den as real == num as real && lo as real <= 200.0 * x < hi as real
    ensures lo * den <= 200 * num < hi * den
  {
    var d := den as real;
    Bracket(x, lo as real, hi as real, d);
    Numerator(x, num, d);
    RealProduct(lo, den);
    RealProduct(hi, den);
    FromReals(lo * den, 200 * num, hi * den, lo as real * d, 200.0 * x * d, hi as real * d);
  }

  lemma AreHundredths(rate: real, n: int, num: int, den: int)
    requires rate == n as real / 100.0 && (2 * n - 1) * den <= 200 * num < (2 * n + 1) * den
    ensures Hundredths(rate, num, den)
  {
    Hundred(n);
  }

  lemma Numerator(x: real, num: int, d: real)
    requires x * d == num as real
    ensures 200.0 * x * d == (200 * num) as real
  {
    assert 200.0 * x * d == 200.0 * (x * d);
  }

  lemma Hundred(n: int)
    ensures n as real / 100.0 * 100.0 == n as real && (n as real / 100.0 * 100.0).Floor == n
  {
  }

  lemma Bracket(x: real, lo: real, hi: real, d: real)
    requires d > 0.0 && lo <= 200.0 * x < hi
    ensures lo * d <= 200.0 * x * d < hi * d
  {
    var mid := 200.0 * x;
    Times(mid - lo, hi - mid, d);
    assert (mid - lo) * d == mid * d - lo * d && (hi - mid) * d == hi * d - mid * d;
  }

  lemma RealProduct(a: int, b: int)
    ensures (a * b) as real == a as real * b as real
  {
  }

  lemma FromReals(a: int, b: int, c: int, low: real, mid: real, high: real)
    requires a as real == low && b as real == mid && c as real == high && low <= mid < high
    ensures a <= b < c
  {
  }

  lemma Times(low: real, high: real, d: real)
    requires low >= 0.0 && high > 0.0 && d > 0.0
    ensures low * d >= 0.0 && high * d > 0.0
  {
  }

  lemma AverageRate(timescale: int, total: int, count: int)
    requires total > 0 && count > 0
    ensures total as real / count as real > 0.0
    ensures timescale as real / (total as real / count as real) * total as real == (timescale * count) as real
  {
    var t, n, q := total as real, count as real, total as real / count as real;
    Positive(t, n);
    var x := timescale as real / q;
    assert q * n == t && x * q == timescale as real;
    assert x * t == x * q * n;
  }

  /**
    From the frames' gaps alone: the average rate is the timescale times the frames over all they last, the peak
    rate the timescale over the shortest gap, and the rate is variable exactly when two gaps differ.
   */
  lemma RatesAre(timescale: int, runs: seq<Run>, m: int)
    requires timescale > 0 && IsMin(m, Gaps(runs))
    ensures TrackRates(Some(timescale), Summary(runs)).Some?
    ensures
      var rates, gaps := TrackRates(Some(timescale), Summary(runs)).value, Gaps(runs);
      && Hundredths(rates.frameRate, timescale * |gaps|, Sum(gaps))
      && Hundredths(rates.peakFrameRate, timescale, m)
      && (rates.variableFrameRate <==> exists i, j :: 0 <= i < j < |gaps| && gaps[i] != gaps[j])
  {
    hide Gaps, Summary, Sum, Round2, Hundredths;
    SummaryMeansGaps(runs);
    PeakBoundsAverage(timescale, runs);
    var s := Summary(runs).value;
    assert s.minDelta == m;
    AverageRate(timescale, s.totalDelta, s.count);
    Round2Is(timescale as real / (s.totalDelta as real / s.count as real), timescale * s.count, s.totalDelta);
    Round2Is(timescale as real / m as real, timescale, m);
  }

  /** A track without a timescale or a frame has no rates. */
  lemma NoRates(timescale: Option<int>, runs: seq<Run>)
    ensures TrackRates(timescale, Summary(runs)).None? <==> timescale.None? || timescale.value <= 0 || Gaps(runs) == []
    ensures TrackRates(timescale, None).None?
  {
    hide Gaps, Summary, Round2;
    SummaryMeansGaps(runs);
  }
}
