/** Big-endian fields, as a `DataView` reads them. */
module Bytes {

  type Byte = b: int | 0 <= b < 256

  function U16(b: seq<Byte>, o: nat): (r: int)
    requires o + 2 <= |b|
    ensures 0 <= r < 0x1_0000
  {
    var hi: int, lo: int := b[o], b[o + 1];
    256 * hi + lo
  }

  function U32(b: seq<Byte>, o: nat): (r: int)
    requires o + 4 <= |b|
    ensures 0 <= r < 0x1_0000_0000
  {
    0x1_0000 * U16(b, o) + U16(b, o + 2)
  }

  function U64(b: seq<Byte>, o: nat): int
    requires o + 8 <= |b|
  {
    0x1_0000_0000 * U32(b, o) + U32(b, o + 4)
  }

  /** The low 16 bits of `n`. */
  function Encode16(n: int): (r: seq<Byte>)
    ensures |r| == 2 && (0 <= n < 0x1_0000 ==> U16(r, 0) == n)
  {
    [n / 256 % 256, n % 256]
  }

  function Encode32(n: int): (r: seq<Byte>)
    ensures |r| == 4 && (0 <= n < 0x1_0000_0000 ==> U32(r, 0) == n)
  {
    hide Encode16, U16;
    var hi, lo := Encode16(n / 0x1_0000), Encode16(n % 0x1_0000);
    Within(hi + lo, 0, hi);
    Within(hi + lo, 2, lo);
    hi + lo
  }

  function Encode64(n: int): (r: seq<Byte>)
    ensures |r| == 8 && (0 <= n < 0x1_0000_0000 * 0x1_0000_0000 ==> U64(r, 0) == n)
  {
    hide Encode32, U32;
    var hi, lo := Encode32(n / 0x1_0000_0000), Encode32(n % 0x1_0000_0000);
    Within(hi + lo, 0, hi);
    Within(hi + lo, 4, lo);
    hi + lo
  }

  /** `part` stands in `b` at offset `o`. */
  ghost predicate At(b: seq<Byte>, o: nat, part: seq<Byte>) {
    o + |part| <= |b| && b[o..o + |part|] == part
  }

  lemma Within(b: seq<Byte>, o: nat, part: seq<Byte>)
    requires At(b, o, part)
    ensures |part| >= 2 ==> U16(b, o) == U16(part, 0)
    ensures |part| >= 4 ==> U32(b, o) == U32(part, 0)
  {
    forall i | 0 <= i < |part| ensures part[i] == b[o + i] {
      Index(b, o, part, i);
    }
  }

  lemma Index(b: seq<Byte>, o: nat, part: seq<Byte>, i: nat)
    requires At(b, o, part) && i < |part|
    ensures b[o + i] == part[i]
  {
    assert b[o..o + |part|][i] == b[o + i];
  }

  /** Parts of a part stand where they should. */
  lemma SplitAt(b: seq<Byte>, o: nat, p: seq<Byte>, q: seq<Byte>)
    requires At(b, o, p + q)
    ensures At(b, o, p) && At(b, o + |p|, q)
  {
    var s := b[o..o + |p + q|];
    assert s[..|p|] == p && s[|p|..] == q;
    assert s[..|p|] == b[o..o + |p|];
    assert s[|p|..] == b[o + |p|..o + |p| + |q|];
  }
}
