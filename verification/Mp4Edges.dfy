/** What the MP4 probe makes of files that are not whole: tail slices, boxes open at the end, headers and tables cut off. */
module Mp4Edges {
  import opened Wrappers
  import opened Bytes
  import opened SampleTable
  import opened Mp4
  import opened Mp4Tree
  import opened Mp4Meaning

  // ---------------------------------------------------------------- tail slices

  lemma {:induction false} WalkKeepsNoTrack(b: seq<Byte>, o: nat, end: nat, depth: nat, seen: nat, st: State)
    requires end <= |b| && st.track.None? && Walk(b, o, end, depth, seen, st).Some?
    ensures Walk(b, o, end, depth, seen, st).value.track.None?
    decreases MAX_DEPTH + 1 - depth, MAX_BOXES - seen
  {
    hide U32, VisitMovieHeader, VisitTrackHeader, ApplyTrack, Container;
    if depth <= MAX_DEPTH && o + 8 <= end && seen < MAX_BOXES {
      var size, t := U32(b, o), U32(b, o + 4);
      var boxEnd := BoxEnd(size, o, end);
      if !(1 < size < 8) {
        var inner := if boxEnd < end then boxEnd else end;
        if t != TRAK && Container(t) {
          WalkKeepsNoTrack(b, o + 8, inner, depth + 1, 0, st);
        }
        if t != TRAK && !Container(t) { LeafKeepsNoTrack(b, t, o, boxEnd, end, st); }
        var next :=
          if t == TRAK then
            match Walk(b, o + 8, inner, depth + 1, 0, st.(track := Some(NEW_TRACK)))
            case Some(s) => CloseTrack(s)
            case None => None
          else if Container(t) then Walk(b, o + 8, inner, depth + 1, 0, st)
          else VisitLeaf(b, t, o, boxEnd, end, st);
        if boxEnd > o {
          WalkKeepsNoTrack(b, boxEnd, end, depth, seen + 1, next.value);
        }
      }
    }
  }

  lemma LeafKeepsNoTrack(b: seq<Byte>, t: int, o: nat, boxEnd: nat, end: nat, st: State)
    requires end <= |b| && st.track.None? && VisitLeaf(b, t, o, boxEnd, end, st).Some?
    ensures VisitLeaf(b, t, o, boxEnd, end, st).value.track.None?
  {
    hide U32, U64, SetDuration, SetSize;
  }

  /**
    A slice in which the walk from its first byte met no usable movie header, and whose first plausible `moov`
    starts boxes that run to the end: they are read from there, duration and rates over what the first walk
    took for boxes, the size only where that had none.
   */
  lemma TailReadsMovie(b: seq<Byte>, o: nat, boxes: seq<Box>, first: State)
    requires Walk(b, 0, |b|, 0, 0, START) == Some(first) && first.result.durationMs.None?
    requires FindFrom(b, Code("moov"), 0) == Some(o) && At(b, o, BoxesBytes(boxes)) && o + |BoxesBytes(boxes)| == |b|
    requires AllValid(boxes, 0, false)
    ensures ProbeBytes(b) ==
      Some(Probe(Or(first.result.size, First(Leaves(boxes), SizeIn)), Last(Leaves(boxes), DurationIn),
                 Or(Last(Tracks(boxes), RatesIn), first.result.rates)))
  {
    hide Valid, BoxesBytes, EvalAll, Walk, FindFrom, Leaves, Tracks, Last, First, Code;
    Codes();
    WalkKeepsNoTrack(b, 0, |b|, 0, 0, START);
    WalkReadsBoxes(b, o, |b|, 0, 0, boxes, false, first);
    EvalAllFollows(boxes, 0, false, first);
  }

  /** Without a plausible `moov` the first walk stands. */
  lemma NoMovie(b: seq<Byte>, first: State)
    requires Walk(b, 0, |b|, 0, 0, START) == Some(first) && first.result.durationMs.None?
    requires forall o :: !Plausible(b, Code("moov"), o)
    ensures ProbeBytes(b) == Some(first.result)
  {
    hide Walk, Plausible, Code;
    Codes();
  }

  // ---------------------------------------------------------------- sizes that are no sizes

  /** A last box of size 0 or 1 holds everything to the end of its level. */
  lemma OpenBoxRead(b: seq<Byte>, o: nat, end: nat, depth: nat, seen: nat, size: int, kind: int, children: seq<Box>, inTrack: bool, st: State)
    requires (size == 0 || size == 1) && Grouping(kind) && depth < 6 && seen < 1000
    requires At(b, o, Encode32(size) + (Encode32(kind) + BoxesBytes(children))) && end == o + 8 + |BoxesBytes(children)| <= |b|
    requires AllBoxesValid(children, depth + 1, inTrack) && |children| <= 1000 && inTrack == st.track.Some?
    ensures Walk(b, o, end, depth, seen, st) == Some(EvalAll(children, st))
  {
    hide U32, Encode32, BoxesBytes, EvalAll, Valid, VisitLeaf, Code, Grouping, CloseTrack, Container;
    Codes();
    var body := BoxesBytes(children);
    SplitAt(b, o, Encode32(size), Encode32(kind) + body);
    SplitAt(b, o + 4, Encode32(kind), body);
    Within(b, o, Encode32(size));
    assert 0 <= kind < 0x1_0000_0000 && kind != TRAK by { ContainersAre(); }
    Within(b, o + 4, Encode32(kind));
    WalkReadsBoxes(b, o + 8, end, depth + 1, 0, children, inTrack, st);
  }

  /** A size of 2 to 7 ends its level, as do the end itself, a seventh level and a thousand boxes. */
  lemma WalkStops(b: seq<Byte>, o: nat, end: nat, depth: nat, seen: nat, st: State)
    requires end <= |b|
    requires depth > 6 || seen >= 1000 || o + 8 > end || 2 <= U32(b, o) <= 7
    ensures Walk(b, o, end, depth, seen, st) == Some(st)
  {
    hide U32;
  }

  // ---------------------------------------------------------------- headers cut off

  /** A header whose level ends before its fields do is passed over. */
  lemma ShortHeadersIgnored(b: seq<Byte>, o: nat, boxEnd: nat, end: nat, st: State)
    requires end <= |b|
    ensures end < o + 24 ==> VisitLeaf(b, Code("hdlr"), o, boxEnd, end, st) == Some(st)
    ensures end < o + 24 ==> VisitLeaf(b, Code("mdhd"), o, boxEnd, end, st) == Some(st)
    ensures end < o + 32 ==> VisitLeaf(b, Code("mvhd"), o, boxEnd, end, st) == Some(st)
    ensures end < o + 92 ==> VisitLeaf(b, Code("tkhd"), o, boxEnd, end, st) == Some(st)
    ensures o + 8 < end < o + 104 && b[o + 8] == 1 ==> VisitLeaf(b, Code("tkhd"), o, boxEnd, end, st) == Some(st)
  {
    hide U32, U64, Code;
    Codes();
  }

  /** A version 1 header that is long enough for version 0 raises when the buffer ends inside its wide fields. */
  lemma CutOffRaises(b: seq<Byte>, o: nat, boxEnd: nat, end: nat, st: State)
    requires end <= |b| && o + 8 < |b| && b[o + 8] == 1
    ensures o + 24 <= end && st.track.Some? ==> (VisitLeaf(b, Code("mdhd"), o, boxEnd, end, st).None? <==> |b| < o + 32)
    ensures o + 32 <= end ==> (VisitLeaf(b, Code("mvhd"), o, boxEnd, end, st).None? <==> |b| < o + 40)
  {
    hide U32, U64, Code;
    Codes();
  }

  /** Outside a track, what only tracks have is passed over. */
  lemma TrackBoxesNeedTracks(b: seq<Byte>, o: nat, boxEnd: nat, end: nat, st: State)
    requires end <= |b| && st.track.None?
    ensures VisitLeaf(b, Code("hdlr"), o, boxEnd, end, st) == Some(st) && VisitLeaf(b, Code("mdhd"), o, boxEnd, end, st) == Some(st)
    ensures VisitLeaf(b, Code("stts"), o, boxEnd, end, st) == Some(st)
  {
    hide U32, U64, Code;
    Codes();
  }

  /** A table cut off after `k` whole runs is read as those runs. */
  lemma CutTableRead(b: seq<Byte>, o: nat, lead: seq<Byte>, runs: seq<Run>, k: nat, end: nat)
    requires |lead| == 4 && Is32(|runs|) && RunsFit(runs) && k < |runs|
    requires At(b, o + 8, lead + (Encode32(|runs|) + RunBytes(runs[..k]))) && o + 16 + 8 * k <= end < o + 24 + 8 * k && end <= |b|
    ensures TimeToSample(b, o, end) == Summary(runs[..k])
  {
    hide U32, Encode32, Summary;
    var n := Encode32(|runs|);
    SplitAt(b, o + 8, lead, n + RunBytes(runs[..k]));
    SplitAt(b, o + 12, n, RunBytes(runs[..k]));
    Within(b, o + 12, n);
    RunsRead(b, o + 16, runs[..k]);
  }
}
