/** What the MP4 probe reports, read off the box tree with the nesting and the walking order gone. */
module Mp4Meaning {
  import opened Wrappers
  import opened SampleTable
  import opened Mp4
  import opened Mp4Tree

  // ---------------------------------------------------------------- first and last of a list

  function Or<T>(a: Option<T>, b: Option<T>): Option<T> {
    if a.Some? then a else b
  }

  /** The value of the last element that has one. */
  function Last<T, U>(s: seq<T>, f: T -> Option<U>): Option<U> {
    if s == [] then None else Or(f(s[|s| - 1]), Last(s[..|s| - 1], f))
  }

  /** The value of the first element that has one. */
  function First<T, U>(s: seq<T>, f: T -> Option<U>): Option<U> {
    if s == [] then None else Or(f(s[0]), First(s[1..], f))
  }

  lemma {:induction false} LastOfBoth<T, U>(s: seq<T>, t: seq<T>, f: T -> Option<U>)
    ensures Last(s + t, f) == Or(Last(t, f), Last(s, f))
    decreases t
  {
    if t == [] {
      assert s + t == s;
    } else {
      assert (s + t)[..|s + t| - 1] == s + t[..|t| - 1];
      LastOfBoth(s, t[..|t| - 1], f);
    }
  }

  lemma {:induction false} FirstOfBoth<T, U>(s: seq<T>, t: seq<T>, f: T -> Option<U>)
    ensures First(s + t, f) == Or(First(s, f), First(t, f))
    decreases s
  {
    if s == [] {
      assert s + t == t;
    } else {
      assert (s + t)[1..] == s[1..] + t;
      FirstOfBoth(s[1..], t, f);
    }
  }

  /** If one element alone has a value, it is the last one's. */
  lemma {:induction false} LastIsOnly<T, U>(s: seq<T>, f: T -> Option<U>, i: nat)
    requires i < |s| && f(s[i]).Some? && forall j :: 0 <= j < |s| && j != i ==> f(s[j]).None? || f(s[j]) == f(s[i])
    ensures Last(s, f) == f(s[i])
    decreases s
  {
    var rest := s[..|s| - 1];
    if i < |s| - 1 && f(s[|s| - 1]).None? {
      assert forall j :: 0 <= j < |rest| ==> rest[j] == s[j];
      LastIsOnly(rest, f, i);
    }
  }

  // ---------------------------------------------------------------- the leaves of a tree

  /** Every leaf in document order, whatever it is nested in. */
  function LeavesOf(box: Box): seq<Box> {
    match box
    case Group(_, children) => Leaves(children)
    case TrackBox(children) => Leaves(children)
    case _ => [box]
  }

  function Leaves(boxes: seq<Box>): seq<Box> {
    if boxes == [] then [] else LeavesOf(boxes[0]) + Leaves(boxes[1..])
  }

  /** The leaves of each track, track by track. */
  function TracksOf(box: Box): seq<seq<Box>> {
    match box
    case Group(_, children) => Tracks(children)
    case TrackBox(children) => [Leaves(children)]
    case _ => []
  }

  function Tracks(boxes: seq<Box>): seq<seq<Box>> {
    if boxes == [] then [] else TracksOf(boxes[0]) + Tracks(boxes[1..])
  }

  // ---------------------------------------------------------------- what a leaf or a track tells

  function DurationIn(box: Box): Option<int> {
    if box.MovieHeader? && box.timescale > 0 then Some(RoundDiv(1000 * box.duration, box.timescale)) else None
  }

  function SizeIn(box: Box): Option<(int, int)> {
    if box.TrackHeader? && box.width > 0 && box.height > 0
    then Some((RoundDiv(box.width, 65_536), RoundDiv(box.height, 65_536))) else None
  }

  function HandlerIn(box: Box): Option<int> {
    if box.Handler? then Some(box.handler) else None
  }

  function TimescaleIn(box: Box): Option<int> {
    if box.MediaHeader? then Some(box.timescale) else None
  }

  function TableIn(box: Box): Option<Option<Samples>> {
    if box.TimeTable? then Some(Summary(box.runs)) else None
  }

  /** The track that `before` becomes when it has read these leaves. */
  function TrackAfter(before: Track, leaves: seq<Box>): Track {
    Track(
      if Last(leaves, HandlerIn).Some? then Last(leaves, HandlerIn).value == Code("vide") else before.isVideo,
      Or(Last(leaves, TimescaleIn), before.timescale),
      if Last(leaves, TableIn).Some? then Last(leaves, TableIn).value else before.samples)
  }

  /** A track's rates: none unless it is a video track with a timescale and a usable table. */
  function RatesIn(leaves: seq<Box>): Option<Rates> {
    var track := TrackAfter(NEW_TRACK, leaves);
    if track.isVideo then TrackRates(track.timescale, track.samples) else None
  }

  /** `after` is what these leaves and tracks make of `before`. */
  ghost predicate Follows(before: State, leaves: seq<Box>, tracks: seq<seq<Box>>, after: State) {
    && after.result.durationMs == Or(Last(leaves, DurationIn), before.result.durationMs)
    && after.result.size == Or(before.result.size, First(leaves, SizeIn))
    && after.result.rates == Or(Last(tracks, RatesIn), before.result.rates)
    && (before.track.Some? ==> after.track == Some(TrackAfter(before.track.value, leaves)))
  }

  lemma FollowsChains(a: State, l: seq<Box>, s: seq<seq<Box>>, b: State, m: seq<Box>, t: seq<seq<Box>>, c: State)
    requires Follows(a, l, s, b) && Follows(b, m, t, c)
    ensures Follows(a, l + m, s + t, c)
  {
    hide Last, First;
    LastOfBoth(l, m, DurationIn);
    FirstOfBoth(l, m, SizeIn);
    LastOfBoth(s, t, RatesIn);
    LastOfBoth(l, m, HandlerIn);
    LastOfBoth(l, m, TimescaleIn);
    LastOfBoth(l, m, TableIn);
  }

  lemma LeafFollows(box: Box, st: State)
    requires Leaf(box)
    ensures Follows(st, [box], [], EvalLeaf(box, st))
  {
    hide RoundDiv, Summary, TrackRates, Last, First;
    One(box, DurationIn);
    One(box, SizeIn);
    One(box, HandlerIn);
    One(box, TimescaleIn);
    One(box, TableIn);
    NoneLast(RatesIn);
  }

  lemma One<T, U>(x: T, f: T -> Option<U>)
    ensures Last([x], f) == f(x) && First([x], f) == f(x)
  {
    assert [x][..0] == [] && [x][1..] == [];
  }

  lemma NoneLast<T, U>(f: T -> Option<U>)
    ensures Last([], f) == Option.None
  {
  }

  lemma {:induction false} NoTracksInTrack(boxes: seq<Box>, depth: nat)
    requires AllBoxesValid(boxes, depth, true)
    ensures Tracks(boxes) == []
    decreases boxes
  {
    hide BoxBytes;
    if boxes != [] {
      var box := boxes[0];
      assert Valid(box, depth, true);
      if box.Group? {
        assert AllValid(box.children, depth + 1, true);
        NoTracksInTrack(box.children, depth + 1);
      }
      NoTracksInTrack(boxes[1..], depth);
    }
  }

  lemma {:induction false} EvalFollows(box: Box, depth: nat, inTrack: bool, st: State)
    requires Valid(box, depth, inTrack) && inTrack == st.track.Some?
    ensures Follows(st, LeavesOf(box), TracksOf(box), Eval(box, st))
    decreases box
  {
    hide BoxBytes, Follows, EvalLeaf;
    match box
    case Group(_, children) =>
      EvalAllFollows(children, depth + 1, inTrack, st);
    case TrackBox(children) =>
      var inside := st.(track := Some(NEW_TRACK));
      EvalAllFollows(children, depth + 1, true, inside);
      NoTracksInTrack(children, depth + 1);
      TrackCloses(st, children, EvalAll(children, inside));
    case _ =>
      LeafFollows(box, st);
  }

  lemma TrackCloses(st: State, children: seq<Box>, inner: State)
    requires st.track.None? && Follows(st.(track := Some(NEW_TRACK)), Leaves(children), [], inner)
    ensures inner.track.Some?
    ensures Follows(st, Leaves(children), [Leaves(children)], State(ApplyTrack(inner.result, inner.track.value), None))
  {
    hide TrackRates, Leaves;
    var tracks := [Leaves(children)];
    assert tracks[..0] == [] && Last(tracks, RatesIn) == RatesIn(Leaves(children));
  }

  lemma {:induction false} EvalAllFollows(boxes: seq<Box>, depth: nat, inTrack: bool, st: State)
    requires AllBoxesValid(boxes, depth, inTrack) && inTrack == st.track.Some?
    ensures Follows(st, Leaves(boxes), Tracks(boxes), EvalAll(boxes, st))
    decreases boxes
  {
    hide Valid, Eval, LeavesOf, TracksOf;
    if boxes != [] {
      var box, rest := boxes[0], boxes[1..];
      hide Follows;
      var mid := Eval(box, st);
      EvalFollows(box, depth, inTrack, st);
      EvalKeepsTrack(box, depth, inTrack, st);
      EvalAllFollows(rest, depth, inTrack, mid);
      FollowsChains(st, LeavesOf(box), TracksOf(box), mid, Leaves(rest), Tracks(rest), EvalAll(rest, mid));
    }
  }

  // ---------------------------------------------------------------- main results

  /**
    Serialised and probed, a movie reports the duration of its last usable movie header, the first track
    header's size that is not zero, and the rates of its last usable video track.
   */
  lemma ProbeReadsMovie(boxes: seq<Box>)
    requires AllValid(boxes, 0, false) && Last(Leaves(boxes), DurationIn).Some?
    ensures ProbeBytes(BoxesBytes(boxes)) ==
      Some(Probe(First(Leaves(boxes), SizeIn), Last(Leaves(boxes), DurationIn), Last(Tracks(boxes), RatesIn)))
  {
    hide Valid, BoxesBytes, EvalAll, Walk, FindFrom, Leaves, Tracks, Last, First;
    var b := BoxesBytes(boxes);
    WalkReadsBoxes(b, 0, |b|, 0, 0, boxes, false, START);
    EvalAllFollows(boxes, 0, false, START);
  }

  /** Track `i` is a video track: its last handler says so, and its last header and table are these. */
  ghost predicate VideoTrack(leaves: seq<Box>, timescale: int, runs: seq<Run>) {
    && Last(leaves, HandlerIn) == Some(Code("vide"))
    && Last(leaves, TimescaleIn) == Some(timescale)
    && Last(leaves, TableIn) == Some(Summary(runs))
  }

  /** Durations and sizes are the nearest whole milliseconds and pixels. */
  lemma NumbersAre(box: Box)
    ensures DurationIn(box).Some? <==> box.MovieHeader? && box.timescale > 0
    ensures DurationIn(box).Some? ==> Nearest(DurationIn(box).value, 1000 * box.duration, box.timescale)
    ensures SizeIn(box).Some? <==> box.TrackHeader? && box.width > 0 && box.height > 0
    ensures SizeIn(box).Some? ==> Nearest(SizeIn(box).value.0, box.width, 65_536) && Nearest(SizeIn(box).value.1, box.height, 65_536)
  {
    hide RoundDiv, Nearest;
    if box.MovieHeader? && box.timescale > 0 { RoundDivIsNearest(1000 * box.duration, box.timescale); }
    if box.TrackHeader? {
      RoundDivIsNearest(box.width, 65_536);
      RoundDivIsNearest(box.height, 65_536);
    }
  }

  /**
    With one movie header and one video track the probe reports that header's duration, and that track's
    rates from the gaps of its own table, never another track's.
   */
  lemma OneVideoTrack(boxes: seq<Box>, h: nat, i: nat, timescale: int, runs: seq<Run>, m: int)
    requires AllValid(boxes, 0, false)
    requires h < |Leaves(boxes)| && DurationIn(Leaves(boxes)[h]).Some?
    requires forall j :: 0 <= j < |Leaves(boxes)| && j != h ==> !Leaves(boxes)[j].MovieHeader?
    requires i < |Tracks(boxes)| && VideoTrack(Tracks(boxes)[i], timescale, runs) && timescale > 0 && IsMin(m, Gaps(runs))
    requires forall j :: 0 <= j < |Tracks(boxes)| && j != i ==> Last(Tracks(boxes)[j], HandlerIn) != Some(Code("vide"))
    ensures
      var r, header, gaps := ProbeBytes(BoxesBytes(boxes)), Leaves(boxes)[h], Gaps(runs);
      && r.Some? && r.value.durationMs.Some? && r.value.rates.Some?
      && Nearest(r.value.durationMs.value, 1000 * header.duration, header.timescale)
      && r.value.rates == TrackRates(Some(timescale), Summary(runs))
      && Hundredths(r.value.rates.value.frameRate, timescale * |gaps|, Sum(gaps))
      && Hundredths(r.value.rates.value.peakFrameRate, timescale, m)
      && (r.value.rates.value.variableFrameRate <==> exists i, j :: 0 <= i < j < |gaps| && gaps[i] != gaps[j])
      && r.value.size == First(Leaves(boxes), SizeIn)
  {
    hide AllValid, BoxesBytes, ProbeBytes, Leaves, Tracks, Last, First, Summary, Gaps, TrackRates, RoundDiv, Hundredths, Nearest, Sum, Code;
    RatesAre(timescale, runs, m);
    var tracks := Tracks(boxes);
    assert RatesIn(tracks[i]) == TrackRates(Some(timescale), Summary(runs));
    LastIsOnly(tracks, RatesIn, i);
    LastIsOnly(Leaves(boxes), DurationIn, h);
    NumbersAre(Leaves(boxes)[h]);
    ProbeReadsMovie(boxes);
  }

  /** The size is that of the first track header whose own is not zero. */
  lemma {:induction false} FirstSize(leaves: seq<Box>, s: nat)
    requires s < |leaves| && SizeIn(leaves[s]).Some? && forall j :: 0 <= j < s ==> SizeIn(leaves[j]).None?
    ensures First(leaves, SizeIn) == SizeIn(leaves[s])
    decreases s
  {
    if s > 0 {
      FirstSize(leaves[1..], s - 1);
    }
  }
}
