/** Box trees, their bytes, and what the walk makes of them. */
module Mp4Tree {
  import opened Wrappers
  import opened Bytes
  import opened SampleTable
  import opened Mp4

  /** A `lead` starts with the version byte and runs up to the first field that is read. */
  datatype Box =
    | Group(kind: int, children: seq<Box>)
    | TrackBox(children: seq<Box>)
    | MovieHeader(lead: seq<Byte>, timescale: int, duration: int, rest: seq<Byte>)
    | TrackHeader(lead: seq<Byte>, width: int, height: int, rest: seq<Byte>)
    | MediaHeader(lead: seq<Byte>, timescale: int, rest: seq<Byte>)
    | Handler(lead: seq<Byte>, handler: int, rest: seq<Byte>)
    | TimeTable(lead: seq<Byte>, runs: seq<Run>)
    | Other(kind: int, payload: seq<Byte>)

  predicate Is32(n: int) {
    0 <= n < 0x1_0000_0000
  }

  predicate LeadFits(lead: seq<Byte>, narrow: int, wide: int) {
    |lead| > 0 && |lead| == if lead[0] == 1 then wide else narrow
  }

  predicate RunsFit(runs: seq<Run>) {
    forall i :: 0 <= i < |runs| ==> Is32(runs[i].count) && Is32(runs[i].delta)
  }

  /** A box type: four characters, read as one number. */
  function Code(s: string): int
    requires |s| == 4
  {
    0x100_0000 * (s[0] as int) + 0x1_0000 * (s[1] as int) + 0x100 * (s[2] as int) + s[3] as int
  }

  /** The boxes that hold boxes, besides a track. */
  predicate Grouping(t: int) {
    t == Code("moov") || t == Code("mdia") || t == Code("minf") || t == Code("stbl")
  }

  /** A type that is not read. */
  predicate Unread(t: int) {
    && Is32(t) && !Grouping(t) && t != Code("trak") && t != Code("hdlr") && t != Code("mdhd") && t != Code("stts")
    && t != Code("mvhd") && t != Code("tkhd")
  }

  /** The numbers that the walk compares types with. */
  lemma Codes()
    ensures Code("moov") == MOOV && Code("trak") == TRAK && Code("mvhd") == MVHD && Code("tkhd") == TKHD && Code("mdhd") == MDHD
    ensures Code("hdlr") == HDLR && Code("stts") == STTS && Code("vide") == VIDE
    ensures forall t :: Grouping(t) <==> Container(t)
  {
    assert 'a' as int == 97 && 'b' as int == 98 && 'c' as int == 99 && 'd' as int == 100 && 'e' as int == 101 && 'f' as int == 102;
    assert 'h' as int == 104 && 'i' as int == 105 && 'k' as int == 107 && 'l' as int == 108 && 'm' as int == 109 && 'n' as int == 110;
    assert 'o' as int == 111 && 'r' as int == 114 && 's' as int == 115 && 't' as int == 116 && 'v' as int == 118;
  }

  predicate Leaf(box: Box) {
    !box.Group? && !box.TrackBox?
  }

  predicate LeafValid(box: Box)
    requires Leaf(box)
  {
    match box
    case MovieHeader(lead, ts, d, rest) =>
      LeadFits(lead, 12, 20) && Is32(ts) && |rest| >= 4 &&
      (if lead[0] == 1 then 0 <= d < 0x1_0000_0000 * 0x1_0000_0000 else Is32(d))
    case TrackHeader(lead, w, h, rest) => LeadFits(lead, 76, 88) && Is32(w) && Is32(h)
    case MediaHeader(lead, ts, rest) => LeadFits(lead, 12, 20) && Is32(ts)
    case Handler(lead, handler, rest) => |lead| == 8 && Is32(handler) && |rest| >= 4
    case TimeTable(lead, runs) => |lead| == 4 && Is32(|runs|) && RunsFit(runs)
    case Other(kind, payload) => Unread(kind)
  }

  function Kind(box: Box): int {
    match box
    case Group(kind, _) => kind
    case TrackBox(_) => Code("trak")
    case MovieHeader(_, _, _, _) => Code("mvhd")
    case TrackHeader(_, _, _, _) => Code("tkhd")
    case MediaHeader(_, _, _) => Code("mdhd")
    case Handler(_, _, _) => Code("hdlr")
    case TimeTable(_, _) => Code("stts")
    case Other(kind, _) => kind
  }

  function RunBytes(runs: seq<Run>): (r: seq<Byte>)
    ensures |r| == 8 * |runs|
  {
    if runs == [] then [] else
      var last := runs[|runs| - 1];
      RunBytes(runs[..|runs| - 1]) + (Encode32(last.count) + Encode32(last.delta))
  }

  function Payload(box: Box): seq<Byte>
    decreases box, 0
  {
    match box
    case Group(_, children) => BoxesBytes(children)
    case TrackBox(children) => BoxesBytes(children)
    case MovieHeader(lead, ts, d, rest) =>
      lead + (Encode32(ts) + ((if lead != [] && lead[0] == 1 then Encode64(d) else Encode32(d)) + rest))
    case TrackHeader(lead, w, h, rest) => lead + (Encode32(w) + (Encode32(h) + rest))
    case MediaHeader(lead, ts, rest) => lead + (Encode32(ts) + rest)
    case Handler(lead, handler, rest) => lead + (Encode32(handler) + rest)
    case TimeTable(lead, runs) => lead + (Encode32(|runs|) + RunBytes(runs))
    case Other(kind, payload) => payload
  }

  function BoxBytes(box: Box): (r: seq<Byte>)
    ensures |r| >= 8
    decreases box, 1
  {
    var payload := Payload(box);
    Encode32(8 + |payload|) + (Encode32(Kind(box)) + payload)
  }

  function BoxesBytes(boxes: seq<Box>): seq<Byte> {
    if boxes == [] then [] else BoxBytes(boxes[0]) + BoxesBytes(boxes[1..])
  }

  /** Sizes fit 32 bits, levels hold at most a thousand boxes, nothing lies too deep, and no track holds a track. */
  predicate Valid(box: Box, depth: nat, inTrack: bool) {
    && Is32(|BoxBytes(box)|)
    && match box
       case Group(kind, children) => Grouping(kind) && AllValid(children, depth + 1, inTrack)
       case TrackBox(children) => !inTrack && AllValid(children, depth + 1, true)
       case _ => LeafValid(box)
  }

  predicate AllValid(boxes: seq<Box>, depth: nat, inTrack: bool) {
    depth <= 6 && |boxes| <= 1000 && forall i :: 0 <= i < |boxes| ==> Valid(boxes[i], depth, inTrack)
  }

  // ---------------------------------------------------------------- meaning of a tree

  /** What one leaf adds: duration and size to the result, the rest to the track it stands in. */
  function EvalLeaf(box: Box, st: State): State
    requires Leaf(box)
  {
    match box
    case MovieHeader(_, ts, d, _) => st.(result := SetDuration(st.result, ts, d))
    case TrackHeader(_, w, h, _) => st.(result := SetSize(st.result, w, h))
    case MediaHeader(_, ts, _) => if st.track.None? then st else st.(track := Some(st.track.value.(timescale := Some(ts))))
    case Handler(_, handler, _) =>
      if st.track.None? then st else st.(track := Some(st.track.value.(isVideo := handler == Code("vide"))))
    case TimeTable(_, runs) => if st.track.None? then st else st.(track := Some(st.track.value.(samples := Summary(runs))))
    case Other(_, _) => st
  }

  function Eval(box: Box, st: State): State {
    match box
    case Group(_, children) => EvalAll(children, st)
    case TrackBox(children) =>
      var inner := EvalAll(children, st.(track := Some(NEW_TRACK)));
      State(if inner.track.Some? then ApplyTrack(inner.result, inner.track.value) else inner.result, None)
    case _ => EvalLeaf(box, st)
  }

  function EvalAll(boxes: seq<Box>, st: State): State {
    if boxes == [] then st else EvalAll(boxes[1..], Eval(boxes[0], st))
  }

  lemma {:induction false} EvalKeepsTrack(box: Box, depth: nat, inTrack: bool, st: State)
    requires Valid(box, depth, inTrack) && inTrack == st.track.Some?
    ensures Eval(box, st).track.Some? == inTrack
    decreases box
  {
    hide BoxBytes;
    match box
    case Group(_, children) => AllKeepTrack(children, depth + 1, inTrack, st);
    case TrackBox(_) =>
    case _ =>
  }

  lemma {:induction false} AllKeepTrack(boxes: seq<Box>, depth: nat, inTrack: bool, st: State)
    requires AllBoxesValid(boxes, depth, inTrack) && inTrack == st.track.Some?
    ensures EvalAll(boxes, st).track.Some? == inTrack
    decreases boxes
  {
    hide Valid, Eval;
    if boxes != [] {
      EvalKeepsTrack(boxes[0], depth, inTrack, st);
      AllKeepTrack(boxes[1..], depth, inTrack, Eval(boxes[0], st));
    }
  }

  predicate AllBoxesValid(boxes: seq<Box>, depth: nat, inTrack: bool) {
    forall i :: 0 <= i < |boxes| ==> Valid(boxes[i], depth, inTrack)
  }

  // ---------------------------------------------------------------- the walk reads what was written

  lemma {:induction false} RunsRead(b: seq<Byte>, o: nat, runs: seq<Run>)
    requires RunsFit(runs) && At(b, o, RunBytes(runs))
    ensures RunsAt(b, o, |runs|) == runs
    decreases runs
  {
    hide U32, Encode32;
    if runs != [] {
      var rest, last := runs[..|runs| - 1], runs[|runs| - 1];
      var c, d := Encode32(last.count), Encode32(last.delta);
      SplitAt(b, o, RunBytes(rest), c + d);
      SplitAt(b, o + 8 * |rest|, c, d);
      Within(b, o + 8 * |rest|, c);
      Within(b, o + 8 * |rest| + 4, d);
      RunsRead(b, o, rest);
    }
  }

  /** The header of a serialised box: its size, its type, and its payload eight bytes in. */
  lemma HeaderRead(b: seq<Byte>, o: nat, box: Box)
    requires At(b, o, BoxBytes(box)) && Is32(|BoxBytes(box)|) && Is32(Kind(box))
    ensures o + 8 <= |b| && U32(b, o) == |BoxBytes(box)| && U32(b, o + 4) == Kind(box)
    ensures At(b, o + 8, Payload(box)) && |BoxBytes(box)| == 8 + |Payload(box)|
  {
    hide U32, Encode32, Payload;
    var payload := Payload(box);
    var size, kind := Encode32(8 + |payload|), Encode32(Kind(box));
    SplitAt(b, o, size, kind + payload);
    SplitAt(b, o + 4, kind, payload);
    Within(b, o, size);
    Within(b, o + 4, kind);
  }

  /** What a leaf's read needs: its payload stands eight bytes in and ends by `end`. */
  ghost predicate Placed(b: seq<Byte>, o: nat, box: Box, end: nat) {
    At(b, o + 8, Payload(box)) && o + 8 + |Payload(box)| <= end <= |b|
  }

  lemma MovieHeaderRead(b: seq<Byte>, o: nat, box: Box, end: nat, st: State)
    requires box.MovieHeader? && LeafValid(box) && Placed(b, o, box, end)
    ensures VisitMovieHeader(b, o, end, st) == Some(EvalLeaf(box, st))
  {
    hide U32, U64, Encode32, Encode64, SetDuration, Payload;
    PayloadStarts(box);
    Index(b, o + 8, Payload(box), 0);
    if box.lead[0] == 1 {
      WideMovieHeader(b, o + 8, box);
    } else {
      NarrowMovieHeader(b, o + 8, box);
    }
  }

  lemma PayloadStarts(box: Box)
    requires box.MovieHeader? && box.lead != []
    ensures |Payload(box)| >= |box.lead| + |box.rest| + (if box.lead[0] == 1 then 12 else 8)
    ensures Payload(box)[0] == box.lead[0]
  {
    hide Encode32, Encode64, U32, U64;
  }

  lemma WideMovieHeader(b: seq<Byte>, p: nat, box: Box)
    requires box.MovieHeader? && LeafValid(box) && box.lead[0] == 1 && At(b, p, Payload(box))
    ensures p + 32 <= |b| && U32(b, p + 20) == box.timescale && U64(b, p + 24) == box.duration
  {
    hide U32, U64, Encode32, Encode64;
    var ts, d := Encode32(box.timescale), Encode64(box.duration);
    SplitAt(b, p, box.lead, ts + (d + box.rest));
    SplitAt(b, p + 20, ts, d + box.rest);
    SplitAt(b, p + 24, d, box.rest);
    Within(b, p + 20, ts);
    Within64(b, p + 24, d);
  }

  lemma NarrowMovieHeader(b: seq<Byte>, p: nat, box: Box)
    requires box.MovieHeader? && LeafValid(box) && box.lead[0] != 1 && At(b, p, Payload(box))
    ensures p + 24 <= |b| && U32(b, p + 12) == box.timescale && U32(b, p + 16) == box.duration
  {
    hide U32, Encode32;
    var ts, d := Encode32(box.timescale), Encode32(box.duration);
    SplitAt(b, p, box.lead, ts + (d + box.rest));
    SplitAt(b, p + 12, ts, d + box.rest);
    SplitAt(b, p + 16, d, box.rest);
    Within(b, p + 12, ts);
    Within(b, p + 16, d);
  }

  lemma Within64(b: seq<Byte>, o: nat, part: seq<Byte>)
    requires At(b, o, part) && |part| == 8
    ensures U64(b, o) == U64(part, 0)
  {
    hide U32;
    assert part == part[..4] + part[4..];
    SplitAt(b, o, part[..4], part[4..]);
    Within(b, o, part[..4]);
    Within(b, o + 4, part[4..]);
    Within(part, 0, part[..4]);
    Within(part, 4, part[4..]);
  }

  lemma TrackHeaderRead(b: seq<Byte>, o: nat, box: Box, end: nat, st: State)
    requires box.TrackHeader? && LeafValid(box) && Placed(b, o, box, end)
    ensures VisitTrackHeader(b, o, end, st) == EvalLeaf(box, st)
  {
    hide U32, Encode32, SetSize, Payload;
    TrackFields(b, o + 8, box);
  }

  lemma TrackFields(b: seq<Byte>, p: nat, box: Box)
    requires box.TrackHeader? && LeafValid(box) && At(b, p, Payload(box))
    ensures
      var n := |box.lead|;
      && |Payload(box)| >= n + 8 && p + n + 8 <= |b| && b[p] == box.lead[0]
      && U32(b, p + n) == box.width && U32(b, p + n + 4) == box.height
  {
    hide U32, Encode32;
    var lead, w, h := box.lead, Encode32(box.width), Encode32(box.height);
    SplitAt(b, p, lead, w + (h + box.rest));
    SplitAt(b, p + |lead|, w, h + box.rest);
    SplitAt(b, p + |lead| + 4, h, box.rest);
    Index(b, p, lead, 0);
    Within(b, p + |lead|, w);
    Within(b, p + |lead| + 4, h);
  }

  lemma MediaHeaderRead(b: seq<Byte>, o: nat, box: Box, end: nat, st: State)
    requires box.MediaHeader? && LeafValid(box) && Placed(b, o, box, end) && st.track.Some?
    ensures VisitMediaHeader(b, o, end, st) == Some(EvalLeaf(box, st))
  {
    hide U32, Encode32;
    var p, lead, ts := o + 8, box.lead, Encode32(box.timescale);
    SplitAt(b, p, lead, ts + box.rest);
    SplitAt(b, p + |lead|, ts, box.rest);
    Index(b, p, lead, 0);
    Within(b, p + |lead|, ts);
  }

  lemma HandlerRead(b: seq<Byte>, o: nat, box: Box, end: nat, st: State)
    requires box.Handler? && LeafValid(box) && Placed(b, o, box, end) && st.track.Some?
    ensures VisitHandler(b, o, end, st) == EvalLeaf(box, st)
  {
    hide U32, Encode32;
    var p, lead, handler := o + 8, box.lead, Encode32(box.handler);
    SplitAt(b, p, lead, handler + box.rest);
    SplitAt(b, p + 8, handler, box.rest);
    Within(b, p + 8, handler);
    Codes();
  }

  lemma TimeTableRead(b: seq<Byte>, o: nat, box: Box, end: nat)
    requires box.TimeTable? && LeafValid(box) && Placed(b, o, box, end)
    ensures TimeToSample(b, o, o + 8 + |Payload(box)|) == Summary(box.runs)
  {
    hide U32, Encode32, Summary;
    var p, n := o + 8, Encode32(|box.runs|);
    SplitAt(b, p, box.lead, n + RunBytes(box.runs));
    SplitAt(b, p + 4, n, RunBytes(box.runs));
    Within(b, p + 4, n);
    RunsRead(b, p + 8, box.runs);
  }

  /** A leaf is read back field by field, inside any box that ends no sooner. */
  lemma LeafRead(b: seq<Byte>, o: nat, box: Box, end: nat, st: State)
    requires Leaf(box) && LeafValid(box) && Placed(b, o, box, end)
    ensures VisitLeaf(b, Kind(box), o, o + 8 + |Payload(box)|, end, st) == Some(EvalLeaf(box, st))
  {
    hide Code;
    Codes();
    hide Payload, VisitMovieHeader, VisitTrackHeader, VisitMediaHeader, VisitHandler, TimeToSample, Summary, SetSize, SetDuration;
    match box
    case MovieHeader(_, _, _, _) => MovieHeaderRead(b, o, box, end, st);
    case TrackHeader(_, _, _, _) => TrackHeaderRead(b, o, box, end, st);
    case MediaHeader(_, _, _) => if st.track.Some? { MediaHeaderRead(b, o, box, end, st); }
    case Handler(_, _, _) => if st.track.Some? { HandlerRead(b, o, box, end, st); }
    case TimeTable(_, _) => TimeTableRead(b, o, box, end);
    case Other(_, _) =>
  }

  lemma KindFits(box: Box, depth: nat, inTrack: bool)
    requires Valid(box, depth, inTrack)
    ensures Is32(Kind(box)) && (box.TrackBox? <==> Kind(box) == TRAK) && (box.Group? <==> Container(Kind(box)))
    ensures Leaf(box) ==> LeafValid(box)
  {
    hide BoxBytes, AllValid, Code, Grouping, Container;
    Codes();
    assert forall t {:trigger Container(t)} :: Container(t) ==> t != TRAK && t != MVHD && t != TKHD && t != MDHD && t != HDLR && t != STTS && Is32(t) by {
      ContainersAre();
    }
  }

  lemma ContainersAre()
    ensures forall t {:trigger Container(t)} :: Container(t) ==> t != TRAK && t != MVHD && t != TKHD && t != MDHD && t != HDLR && t != STTS && Is32(t)
  {
  }

  lemma WalkReadsLeaf(b: seq<Byte>, o: nat, end: nat, depth: nat, seen: nat, box: Box, inTrack: bool, st: State)
    requires At(b, o, BoxBytes(box)) && o + |BoxBytes(box)| <= end <= |b|
    requires depth <= MAX_DEPTH && Valid(box, depth, inTrack) && seen < MAX_BOXES && Leaf(box)
    ensures Walk(b, o, end, depth, seen, st) == Walk(b, o + |BoxBytes(box)|, end, depth, seen + 1, Eval(box, st))
  {
    hide U32, BoxBytes, VisitLeaf, EvalLeaf, LeafValid, EvalAll, Kind, Payload, Container, CloseTrack;
    KindFits(box, depth, inTrack);
    HeaderRead(b, o, box);
    LeafRead(b, o, box, end, st);
  }

  lemma {:induction false} WalkReadsBox(b: seq<Byte>, o: nat, end: nat, depth: nat, seen: nat, box: Box, inTrack: bool, st: State)
    requires At(b, o, BoxBytes(box)) && o + |BoxBytes(box)| <= end <= |b|
    requires depth <= MAX_DEPTH && Valid(box, depth, inTrack) && seen < MAX_BOXES && inTrack == st.track.Some?
    ensures Walk(b, o, end, depth, seen, st) == Walk(b, o + |BoxBytes(box)|, end, depth, seen + 1, Eval(box, st))
    decreases box
  {
    hide U32, BoxBytes, VisitLeaf, EvalLeaf, LeafValid, EvalAll, ApplyTrack;
    KindFits(box, depth, inTrack);
    HeaderRead(b, o, box);
    var next := o + |BoxBytes(box)|;
    match box
    case Group(_, children) =>
      WalkReadsBoxes(b, o + 8, next, depth + 1, 0, children, inTrack, st);
    case TrackBox(children) =>
      var inside := st.(track := Some(NEW_TRACK));
      WalkReadsBoxes(b, o + 8, next, depth + 1, 0, children, true, inside);
      AllKeepTrack(children, depth + 1, true, inside);
    case _ =>
      WalkReadsLeaf(b, o, end, depth, seen, box, inTrack, st);
  }

  /** The walk over serialised boxes is the evaluation of the tree. */
  lemma {:induction false} WalkReadsBoxes(b: seq<Byte>, o: nat, end: nat, depth: nat, seen: nat, boxes: seq<Box>, inTrack: bool, st: State)
    requires end <= |b| && At(b, o, BoxesBytes(boxes)) && end == o + |BoxesBytes(boxes)|
    requires depth <= MAX_DEPTH && AllBoxesValid(boxes, depth, inTrack) && seen + |boxes| <= MAX_BOXES
    requires inTrack == st.track.Some?
    ensures Walk(b, o, end, depth, seen, st) == Some(EvalAll(boxes, st))
    decreases boxes
  {
    hide U32, BoxBytes, Valid, Eval;
    if boxes != [] {
      var box := boxes[0];
      SplitAt(b, o, BoxBytes(box), BoxesBytes(boxes[1..]));
      var next := o + |BoxBytes(box)|;
      EvalKeepsTrack(box, depth, inTrack, st);
      WalkReadsBox(b, o, end, depth, seen, box, inTrack, st);
      WalkReadsBoxes(b, next, end, depth, seen + 1, boxes[1..], inTrack, Eval(box, st));
    }
  }
}
