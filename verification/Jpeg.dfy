/** The JPEG segment walk (`probeJpeg` of `packages/storage/src/probe.ts`), after ITU-T T.81, section B.1.1. */
module Jpeg {
  import opened Wrappers
  import opened Bytes

  datatype Size = Size(width: int, height: int)

  predicate Standalone(marker: int) {
    marker == 0xd8 || marker == 0x01 || 0xd0 <= marker <= 0xd7
  }

  predicate FrameMarker(marker: int) {
    0xc0 <= marker <= 0xcf && marker != 0xc4 && marker != 0xc8 && marker != 0xcc
  }

  /** The walk from `offset` on; None is an incomplete probe. */
  function Scan(b: seq<Byte>, offset: nat): Option<Size>
    decreases |b| - offset
  {
    if offset + 9 >= |b| then None
    else if b[offset] != 0xff then Scan(b, offset + 1)
    else if Standalone(b[offset + 1]) then Scan(b, offset + 2)
    else if FrameMarker(b[offset + 1]) then Some(Size(U16(b, offset + 7), U16(b, offset + 5)))
    else if U16(b, offset + 2) < 2 then None
    else Scan(b, offset + 2 + U16(b, offset + 2))
  }

  method ProbeJpeg(b: seq<Byte>) returns (r: Option<Size>)
    ensures r == Scan(b, 2)
  {
    var offset := 2;
    while offset + 9 < |b|
      invariant 2 <= offset
      invariant Scan(b, 2) == Scan(b, offset)
      decreases |b| - offset
    {
      if b[offset] != 0xff {
        offset := offset + 1;
        continue;
      }
      var marker := b[offset + 1];
      if Standalone(marker) {
        offset := offset + 2;
        continue;
      }
      var length := U16(b, offset + 2);
      if FrameMarker(marker) {
        return Some(Size(U16(b, offset + 7), U16(b, offset + 5)));
      }
      if length < 2 {
        return None;
      }
      offset := offset + 2 + length;
    }
    r := None;
  }

  // ---------------------------------------------------------------- files

  /** T.81, table B.1: TEM, the restart markers and the start of image carry no length. */
  predicate WithoutLength(m: int) {
    m in {0x01, 0xd0, 0xd1, 0xd2, 0xd3, 0xd4, 0xd5, 0xd6, 0xd7, 0xd8}
  }

  /** SOF0 to SOF3, SOF5 to SOF7, SOF9 to SOF11, SOF13 to SOF15. */
  predicate StartOfFrame(m: int) {
    m in {0xc0, 0xc1, 0xc2, 0xc3, 0xc5, 0xc6, 0xc7, 0xc9, 0xca, 0xcb, 0xcd, 0xce, 0xcf}
  }

  lemma Markers(m: int)
    ensures (Standalone(m) <==> WithoutLength(m)) && (FrameMarker(m) <==> StartOfFrame(m))
  {
  }

  /** A segment whose length does not even count itself ends the probe. */
  lemma ShortLengthStops(b: seq<Byte>, o: nat)
    requires o + 9 < |b| && b[o] == 0xff && !WithoutLength(b[o + 1]) && !StartOfFrame(b[o + 1])
    requires b[o + 2] == 0 && b[o + 3] < 2
    ensures Scan(b, o) == None
  {
    Markers(b[o + 1]);
  }

  /** What may stand between the start of image and the frame header. */
  datatype Item =
    | Mark(marker: Byte)
    | Segment(marker: Byte, payload: seq<Byte>)
    | Junk(value: Byte)
  {
    predicate Valid() {
      match this
      case Mark(m) => WithoutLength(m)
      case Segment(m, p) => !WithoutLength(m) && !StartOfFrame(m) && |p| + 2 < 0x1_0000
      case Junk(v) => v != 0xff
    }

    function Bytes(): seq<Byte>
      requires Valid()
    {
      match this
      case Mark(m) => [0xff, m]
      case Segment(m, p) => [0xff, m] + Encode16(|p| + 2) + p
      case Junk(v) => [v]
    }
  }

  datatype Frame = Frame(marker: Byte, length: int, precision: Byte, size: Size) {
    predicate Valid() {
      StartOfFrame(marker) && 0 <= length < 0x1_0000 && 0 <= size.width < 0x1_0000 && 0 <= size.height < 0x1_0000
    }

    function Bytes(): (r: seq<Byte>)
      requires Valid()
      ensures |r| == 9
    {
      [0xff, marker] + Encode16(length) + [precision] + Encode16(size.height) + Encode16(size.width)
    }
  }

  predicate AllValid(items: seq<Item>) {
    forall i :: i in items ==> i.Valid()
  }

  function ItemBytes(items: seq<Item>): seq<Byte>
    requires AllValid(items)
  {
    if items == [] then [] else items[0].Bytes() + ItemBytes(items[1..])
  }

  lemma SkipsItem(b: seq<Byte>, o: nat, item: Item)
    requires item.Valid() && At(b, o, item.Bytes()) && o + |item.Bytes()| + 9 < |b|
    ensures Scan(b, o) == Scan(b, o + |item.Bytes()|)
  {
    hide U16, Encode16;
    var s := item.Bytes();
    Index(b, o, s, 0);
    match item
    case Mark(m) =>
      Index(b, o, s, 1);
    case Junk(v) =>
    case Segment(m, p) =>
      assert s == [0xff, m] + (Encode16(|p| + 2) + p);
      SplitAt(b, o, [0xff, m], Encode16(|p| + 2) + p);
      SplitAt(b, o + 2, Encode16(|p| + 2), p);
      Within(b, o + 2, Encode16(|p| + 2));
      Index(b, o, s, 1);
  }

  lemma {:induction false} SkipsItems(b: seq<Byte>, o: nat, items: seq<Item>)
    requires AllValid(items) && At(b, o, ItemBytes(items)) && o + |ItemBytes(items)| + 9 < |b|
    ensures Scan(b, o) == Scan(b, o + |ItemBytes(items)|)
    decreases items
  {
    hide Scan, At, Item.Bytes;
    if items != [] {
      SplitAt(b, o, items[0].Bytes(), ItemBytes(items[1..]));
      SkipsItem(b, o, items[0]);
      SkipsItems(b, o + |items[0].Bytes()|, items[1..]);
    }
  }

  lemma ReadsFrame(b: seq<Byte>, o: nat, frame: Frame)
    requires frame.Valid() && At(b, o, frame.Bytes()) && o + 9 < |b|
    ensures Scan(b, o) == Some(frame.size)
  {
    hide U16, Encode16;
    var head := [0xff, frame.marker] + Encode16(frame.length) + [frame.precision];
    var h, w := Encode16(frame.size.height), Encode16(frame.size.width);
    assert frame.Bytes() == head + (h + w);
    SplitAt(b, o, head, h + w);
    SplitAt(b, o + 5, h, w);
    Within(b, o + 5, h);
    Within(b, o + 7, w);
    assert b[o..o + 5][0] == head[0] && b[o..o + 5][1] == head[1];
  }

  /**
    The probe inverts the serialiser: whatever segments stand before it, and whatever bytes they carry, the
    size found is the frame header's own.
   */
  lemma ProbeInvertsFile(items: seq<Item>, frame: Frame, data: seq<Byte>)
    requires AllValid(items) && frame.Valid() && data != []
    ensures Scan([0xff, 0xd8] + ItemBytes(items) + frame.Bytes() + data, 2) == Some(frame.size)
  {
    hide Scan;
    var b := [0xff, 0xd8] + ItemBytes(items) + frame.Bytes() + data;
    var o := 2 + |ItemBytes(items)|;
    assert At(b, 2, ItemBytes(items)) && At(b, o, frame.Bytes());
    SkipsItems(b, 2, items);
    ReadsFrame(b, o, frame);
  }

  // ---------------------------------------------------------------- fill bytes

  /** T.81 lets any marker be preceded by fill bytes. */
  function Fill(n: nat): (r: seq<Byte>)
    ensures |r| == n && forall i :: 0 <= i < n ==> r[i] == 0xff
  {
    if n == 0 then [] else [0xff] + Fill(n - 1)
  }

  /** An item with the fill bytes before its marker. */
  datatype Filled = Filled(fill: nat, item: Item) {
    predicate Valid() {
      item.Valid() && (fill > 0 ==> !item.Junk? && item.marker >= 0xc0)
    }

    function Bytes(): seq<Byte>
      requires Valid()
    {
      Fill(fill) + item.Bytes()
    }
  }

  predicate AllFilledValid(items: seq<Filled>) {
    forall i :: i in items ==> i.Valid()
  }

  function FilledBytes(items: seq<Filled>): seq<Byte>
    requires AllFilledValid(items)
  {
    if items == [] then [] else items[0].Bytes() + FilledBytes(items[1..])
  }

  predicate NoFill(items: seq<Filled>) {
    forall i :: i in items ==> i.fill == 0
  }

  /** Where the walk goes from the first of `fill` fill bytes before `marker`, `next` the byte after it. */
  function Landing(o: nat, fill: nat, marker: Byte, next: Byte): nat {
    if fill == 1 then o + 2 + 0x100 * marker + next
    else if fill == 2 then o + 2 + 0x100 * 0xff + marker
    else o + 2 + 0x100 * 0xff + 0xff
  }

  /** A filled marker is read as a segment: the walk jumps by two bytes that are none of its length, and misses what it jumps over. */
  lemma FillJumps(b: seq<Byte>, o: nat, fill: nat, marker: Byte, next: Byte)
    requires fill > 0 && marker > 0 && At(b, o, Fill(fill) + [0xff, marker, next]) && o + 9 < |b|
    ensures Scan(b, o) == Scan(b, Landing(o, fill, marker, next))
  {
    var s := Fill(fill) + [0xff, marker, next];
    Index(b, o, s, 0);
    Index(b, o, s, 1);
    Index(b, o, s, 2);
    if fill < 3 { Index(b, o, s, 3); } else { Index(b, o, s, 3); }
  }

  lemma FillLoses(b: seq<Byte>, o: nat, fill: nat, marker: Byte, next: Byte)
    requires fill > 0 && marker >= 0xc0 && At(b, o, Fill(fill) + [0xff, marker, next])
    requires 2 <= o && |b| <= 0xc00d
    ensures Scan(b, o) == None
  {
    hide Scan;
    if o + 9 < |b| {
      FillJumps(b, o, fill, marker, next);
    }
    ShortScan(b, o);
    ShortScan(b, Landing(o, fill, marker, next));
  }

  lemma ShortScan(b: seq<Byte>, o: nat)
    ensures o + 9 >= |b| ==> Scan(b, o) == None
  {
  }

  lemma FrameStarts(frame: Frame)
    requires frame.Valid()
    ensures |frame.Bytes()| == 9 && frame.Bytes()[0] == 0xff && frame.Bytes()[1] == frame.marker && frame.marker >= 0xc0
  {
    hide Encode16;
  }

  lemma ItemStarts(item: Item)
    requires item.Valid() && !item.Junk?
    ensures |item.Bytes()| >= 2 && item.Bytes()[0] == 0xff && item.Bytes()[1] == item.marker
  {
    hide Encode16;
  }

  /** Anything filled that starts with a marker is lost, and the walk with it. */
  lemma FilledPartLoses(b: seq<Byte>, o: nat, fill: nat, part: seq<Byte>)
    requires fill > 0 && |part| >= 2 && part[0] == 0xff && part[1] >= 0xc0
    requires At(b, o, Fill(fill) + part) && o + fill + |part| < |b|
    requires 2 <= o && |b| <= 0xc00d
    ensures Scan(b, o) == None
  {
    hide Scan;
    var next := b[o + fill + 2];
    SplitAt(b, o, Fill(fill), part);
    Index(b, o + fill, part, 0);
    Index(b, o + fill, part, 1);
    assert b[o..o + fill + 3] == Fill(fill) + [0xff, part[1], next];
    FillLoses(b, o, fill, part[1], next);
  }

  lemma {:induction false} FilledScan(b: seq<Byte>, o: nat, items: seq<Filled>, fill: nat, frame: Frame)
    requires AllFilledValid(items) && frame.Valid() && At(b, o, FilledBytes(items) + (Fill(fill) + frame.Bytes()))
    requires 2 <= o && o + |FilledBytes(items)| + fill + 9 < |b| <= 0xc00d
    ensures Scan(b, o) == if NoFill(items) && fill == 0 then Some(frame.size) else None
    decreases items
  {
    hide Scan, Fill, At, Item.Bytes, Frame.Bytes;
    FrameStarts(frame);
    var tail := Fill(fill) + frame.Bytes();
    if items == [] {
      assert FilledBytes(items) + tail == tail;
      if fill > 0 {
        FilledPartLoses(b, o, fill, frame.Bytes());
      } else {
        assert tail == frame.Bytes();
        ReadsFrame(b, o, frame);
      }
    } else {
      var first, rest := items[0], items[1..];
      assert FilledBytes(items) + tail == first.Bytes() + (FilledBytes(rest) + tail);
      SplitAt(b, o, first.Bytes(), FilledBytes(rest) + tail);
      if first.fill > 0 {
        ItemStarts(first.item);
        FilledPartLoses(b, o, first.fill, first.item.Bytes());
      } else {
        assert first.Bytes() == first.item.Bytes();
        SkipsItem(b, o, first.item);
        FilledScan(b, o + |first.Bytes()|, rest, fill, frame);
        assert items == [first] + rest;
      }
    }
  }

  /**
    A file of up to 0xc00d bytes (48 KiB), filled anywhere before markers of 0xc0 or above, yields its frame header's
    size exactly when there is no fill byte at all; otherwise it yields nothing.
   */
  lemma FilledFileReadIff(items: seq<Filled>, fill: nat, frame: Frame, data: seq<Byte>)
    requires AllFilledValid(items) && frame.Valid() && data != []
    requires 2 + |FilledBytes(items)| + fill + 9 + |data| <= 0xc00d
    ensures
      var r := Scan([0xff, 0xd8] + FilledBytes(items) + Fill(fill) + frame.Bytes() + data, 2);
      && (r == Some(frame.size) <==> NoFill(items) && fill == 0)
      && (r == None <==> !(NoFill(items) && fill == 0))
  {
    hide Scan, Fill, FilledBytes, NoFill, AllFilledValid, At, Encode16;
    var start: seq<Byte> := [0xff, 0xd8];
    Regroup(start, FilledBytes(items), Fill(fill), frame.Bytes(), data);
    FilledScan(start + FilledBytes(items) + Fill(fill) + frame.Bytes() + data, 2, items, fill, frame);
  }

  lemma Regroup(a: seq<Byte>, b: seq<Byte>, c: seq<Byte>, d: seq<Byte>, e: seq<Byte>)
    ensures At(a + b + c + d + e, |a|, b + (c + d))
  {
    assert a + b + c + d + e == a + (b + (c + d)) + e;
  }

  /** In a file of any length the first filled marker decides: what is read is what the walk reads from its landing on. */
  lemma FirstFillDecides(items: seq<Item>, fill: nat, marker: Byte, rest: seq<Byte>)
    requires AllValid(items) && fill > 0 && marker > 0 && |rest| >= 7
    ensures
      var b := [0xff, 0xd8] + ItemBytes(items) + Fill(fill) + [0xff, marker] + rest;
      Scan(b, 2) == Scan(b, Landing(2 + |ItemBytes(items)|, fill, marker, rest[0]))
  {
    hide Scan;
    var b := [0xff, 0xd8] + ItemBytes(items) + Fill(fill) + [0xff, marker] + rest;
    var o := 2 + |ItemBytes(items)|;
    assert At(b, 2, ItemBytes(items));
    assert b[o..o + fill + 3] == Fill(fill) + [0xff, marker, rest[0]];
    SkipsItems(b, 2, items);
    FillJumps(b, o, fill, marker, rest[0]);
  }
}
