/**
  The ISO base media box walk (`probeMp4` of `packages/storage/src/probe.ts`), after ISO/IEC 14496-12,
  sections 4.2 and 8.6.1.2. A read past the buffer, or of a track that is no longer there, raises in the
  source and makes `probeMedia` answer incomplete; here it is None.
 */
module Mp4 {
  import opened Helpers
  import opened Wrappers
  import opened Bytes
  import opened SampleTable

  // Box types as the number their four ASCII characters spell.
  const MOOV := 0x6d6f6f76
  const TRAK := 0x7472616b
  const MDIA := 0x6d646961
  const MINF := 0x6d696e66
  const STBL := 0x7374626c
  const HDLR := 0x68646c72
  const MDHD := 0x6d646864
  const STTS := 0x73747473
  const MVHD := 0x6d766864
  const TKHD := 0x746b6864
  const VIDE := 0x76696465

  const MAX_DEPTH := 6
  const MAX_BOXES := 1000

  datatype Track = Track(isVideo: bool, timescale: Option<int>, samples: Option<Samples>)

  datatype Probe = Probe(size: Option<(int, int)>, durationMs: Option<int>, rates: Option<Rates>)

  /** The probe's closure variables: what is found so far and the track being walked. */
  datatype State = State(result: Probe, track: Option<Track>)

  const START := State(Probe(None, None, None), None)

  const NEW_TRACK := Track(false, None, None)

  predicate Container(t: int) {
    t == MOOV || t == MDIA || t == MINF || t == STBL
  }

  /** The nearest whole number to `n / d`, halves up. */
  function RoundDiv(n: int, d: int): int
    requires d > 0
  {
    (2 * n + d) / (2 * d)
  }

  /** `r` is the nearest whole number to `n / d`, halves up. */
  predicate Nearest(r: int, n: int, d: int) {
    (2 * r - 1) * d <= 2 * n < (2 * r + 1) * d
  }

  lemma RoundDivIsNearest(n: int, d: int)
    requires d > 0
    ensures Nearest(RoundDiv(n, d), n, d)
  {
    var r := RoundDiv(n, d);
    QuotientIs(2 * n + d, 2 * d);
    assert r * (2 * d) == 2 * r * d;
    assert (2 * r - 1) * d == 2 * r * d - d && (2 * r + 1) * d == 2 * r * d + d;
  }

  lemma QuotientIs(a: int, b: int)
    requires b > 0
    ensures a / b * b <= a < a / b * b + b
  {
    assert a == a / b * b + a % b;
  }

  function SetDuration(p: Probe, timescale: int, duration: int): Probe {
    if timescale > 0 then p.(durationMs := Some(RoundDiv(1000 * duration, timescale))) else p
  }

  /** Sizes are 16.16 fixed point; a zero one is a sound track's. */
  function SetSize(p: Probe, width: int, height: int): Probe {
    if p.size.None? && width > 0 && height > 0 then p.(size := Some((RoundDiv(width, 65_536), RoundDiv(height, 65_536)))) else p
  }

  /** Fold a finished track's numbers into the result, if it is a video track that has them. */
  function ApplyTrack(p: Probe, track: Track): Probe {
    var rates := TrackRates(track.timescale, track.samples);
    if track.isVideo && rates.Some? then p.(rates := rates) else p
  }

  // ---------------------------------------------------------------- one box

  function VisitHandler(b: seq<Byte>, o: nat, end: nat, st: State): State
    requires end <= |b| && st.track.Some?
  {
    if o + 24 <= end then st.(track := Some(st.track.value.(isVideo := U32(b, o + 16) == VIDE))) else st
  }

  function VisitMediaHeader(b: seq<Byte>, o: nat, end: nat, st: State): Option<State>
    requires end <= |b| && st.track.Some?
  {
    if o + 24 > end then Some(st)
    else if b[o + 8] != 1 then Some(st.(track := Some(st.track.value.(timescale := Some(U32(b, o + 20))))))
    else if o + 32 > |b| then None
    else Some(st.(track := Some(st.track.value.(timescale := Some(U32(b, o + 28))))))
  }

  function VisitMovieHeader(b: seq<Byte>, o: nat, end: nat, st: State): Option<State>
    requires end <= |b|
  {
    if o + 32 > end then Some(st)
    else if b[o + 8] != 1 then Some(st.(result := SetDuration(st.result, U32(b, o + 20), U32(b, o + 24))))
    else if o + 40 > |b| then None
    else Some(st.(result := SetDuration(st.result, U32(b, o + 28), U64(b, o + 32))))
  }

  function VisitTrackHeader(b: seq<Byte>, o: nat, end: nat, st: State): State
    requires end <= |b|
  {
    if o + 92 > end then st else
      var base := o + if b[o + 8] == 1 then 96 else 84;
      if base + 8 > end then st else st.(result := SetSize(st.result, U32(b, base), U32(b, base + 4)))
  }

  /** A box without children; types that are not read, or not read here, leave the state alone. */
  function VisitLeaf(b: seq<Byte>, t: int, o: nat, boxEnd: nat, end: nat, st: State): Option<State>
    requires end <= |b|
  {
    if t == HDLR && st.track.Some? then Some(VisitHandler(b, o, end, st))
    else if t == MDHD && st.track.Some? then VisitMediaHeader(b, o, end, st)
    else if t == STTS && st.track.Some? then
      Some(st.(track := Some(st.track.value.(samples := TimeToSample(b, o, Min(boxEnd, end))))))
    else if t == MVHD then VisitMovieHeader(b, o, end, st)
    else if t == TKHD then Some(VisitTrackHeader(b, o, end, st))
    else Some(st)
  }

  /** What follows the children of a track; a nested track has already cleared the one around it. */
  function CloseTrack(st: State): Option<State> {
    match st.track
    case None => None
    case Some(track) => Some(State(ApplyTrack(st.result, track), None))
  }

  /** The end a box's size field gives it: 0 is "to the end" and 1 announces a 64-bit size. */
  function BoxEnd(size: int, o: nat, end: nat): nat
    requires size >= 0
  {
    if size == 0 || size == 1 then end else o + size
  }

  /** The walk over siblings from `o` on, `seen` of which are done. */
  function Walk(b: seq<Byte>, o: nat, end: nat, depth: nat, seen: nat, st: State): Option<State>
    requires end <= |b|
    decreases MAX_DEPTH + 1 - depth, MAX_BOXES - seen
  {
    hide U32, VisitLeaf, CloseTrack;
    if depth > MAX_DEPTH || o + 8 > end || seen >= MAX_BOXES then Some(st) else
      var size, t := U32(b, o), U32(b, o + 4);
      var boxEnd := BoxEnd(size, o, end);
      if 1 < size < 8 then Some(st) else
        var next :=
          if t == TRAK then
            match Walk(b, o + 8, Min(boxEnd, end), depth + 1, 0, st.(track := Some(NEW_TRACK)))
            case Some(inner) => CloseTrack(inner)
            case None => None
          else if Container(t) then Walk(b, o + 8, Min(boxEnd, end), depth + 1, 0, st)
          else VisitLeaf(b, t, o, boxEnd, end, st);
        if next.None? || boxEnd <= o then next else Walk(b, boxEnd, end, depth, seen + 1, next.value)
  }

  // ---------------------------------------------------------------- re-synchronising

  /** The type stands four bytes into its box, and the size before it is possible. */
  predicate Plausible(b: seq<Byte>, t: int, o: nat) {
    o + 8 <= |b| && U32(b, o + 4) == t && (U32(b, o) <= 1 || U32(b, o) >= 8)
  }

  function FindFrom(b: seq<Byte>, t: int, o: nat): (r: Option<nat>)
    ensures r.Some? ==> o <= r.value && Plausible(b, t, r.value) && forall i :: o <= i < r.value ==> !Plausible(b, t, i)
    ensures r.None? ==> forall i :: o <= i ==> !Plausible(b, t, i)
    decreases |b| - o
  {
    hide U32;
    if o + 8 > |b| then None else if Plausible(b, t, o) then Some(o) else FindFrom(b, t, o + 1)
  }

  method FindBoxStart(b: seq<Byte>, t: int) returns (r: Option<nat>)
    ensures r == FindFrom(b, t, 0)
  {
    hide U32;
    var i := 4;
    while i + 4 <= |b|
      invariant 4 <= i
      invariant FindFrom(b, t, 0) == FindFrom(b, t, i - 4)
      decreases |b| - i
    {
      if U32(b, i) == t {
        var size := U32(b, i - 4);
        if size == 0 || size == 1 || size >= 8 {
          return Some(i - 4);
        }
      }
      i := i + 1;
    }
    r := None;
  }

  function ProbeBytes(b: seq<Byte>): Option<Probe> {
    match Walk(b, 0, |b|, 0, 0, START)
    case None => None
    case Some(st) =>
      if st.result.durationMs.Some? then Some(st.result) else
        match FindFrom(b, MOOV, 0)
        case None => Some(st.result)
        case Some(o) =>
          match Walk(b, o, |b|, 0, 0, st)
          case None => None
          case Some(late) => Some(late.result)
  }

  // ---------------------------------------------------------------- the walk in place

  class Walker {
    var result: Probe
    var track: Option<Track>

    constructor ()
      ensures State(result, track) == START
    {
      result, track := START.result, START.track;
    }

    /** Walks one level in place; false when the source would raise. */
    method WalkBoxes(b: seq<Byte>, start: nat, end: nat, depth: nat) returns (ok: bool)
      requires end <= |b|
      modifies this
      ensures ok <==> Walk(b, start, end, depth, 0, old(State(result, track))).Some?
      ensures ok ==> State(result, track) == Walk(b, start, end, depth, 0, old(State(result, track))).value
      decreases MAX_DEPTH + 1 - depth
    {
      hide U32, VisitLeaf, CloseTrack;
      if depth > MAX_DEPTH {
        return true;
      }
      ghost var entry := State(result, track);
      var offset, iterations := start, 0;
      while offset + 8 <= end && iterations < MAX_BOXES
        invariant 0 <= offset && 0 <= iterations <= MAX_BOXES
        invariant Walk(b, start, end, depth, 0, entry) == Walk(b, offset, end, depth, iterations, State(result, track))
        decreases MAX_BOXES - iterations
      {
        var size, t := U32(b, offset), U32(b, offset + 4);
        var boxEnd := BoxEnd(size, offset, end);
        if size != 0 && size != 1 && size < 8 {
          return true;
        }
        if t == TRAK {
          track := Some(NEW_TRACK);
          var inner := WalkBoxes(b, offset + 8, Min(boxEnd, end), depth + 1);
          if !inner {
            return false;
          }
          var closed := CloseTrack(State(result, track));
          if closed.None? {
            return false;
          }
          result, track := closed.value.result, closed.value.track;
        } else if Container(t) {
          var inner := WalkBoxes(b, offset + 8, Min(boxEnd, end), depth + 1);
          if !inner {
            return false;
          }
        } else {
          var next := VisitLeaf(b, t, offset, boxEnd, end, State(result, track));
          if next.None? {
            return false;
          }
          result, track := next.value.result, next.value.track;
        }
        if boxEnd <= offset {
          return true;
        }
        offset := boxEnd;
        iterations := iterations + 1;
      }
      ok := true;
    }
  }

  /** None is a raised read: the caller reports the media incomplete. */
  method ProbeMp4(b: seq<Byte>) returns (r: Option<Probe>)
    ensures r == ProbeBytes(b)
  {
    hide Walk, FindFrom;
    var walker := new Walker();
    var ok := walker.WalkBoxes(b, 0, |b|, 0);
    if !ok {
      return None;
    }
    if walker.result.durationMs.None? {
      var moov := FindBoxStart(b, MOOV);
      if moov.Some? {
        ok := walker.WalkBoxes(b, moov.value, |b|, 0);
        if !ok {
          return None;
        }
      }
    }
    r := Some(walker.result);
  }
}
