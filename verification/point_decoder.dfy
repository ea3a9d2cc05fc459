/**
 * The browser's point-stream decoder (frontend/main.js): each 16-byte record
 * of a response body holds two little-endian u64 values; each is reduced to
 * its top 53 bits (`normalizeUint64`) and the pair is classified against the
 * closed unit disk. Coordinates are kept as the exact 53-bit integers; the
 * double the browser shows is that integer divided by 2^53.
 */
module PointDecoder {
  import opened Results
  import opened LittleEndian

  /** 2^11: `value >> 11n` is division by this. */
  const ShiftDivisor: nat := 2048

  /** 2^53, the `FLOAT_SCALE` the top 53 bits are divided by. */
  const Scale: nat := 0x20_0000_0000_0000

  /** A decoded sample: the two 53-bit coordinates and the inside test. */
  datatype Point = Point(x: nat, y: nat, inCircle: bool)

  /** The coordinates of a point, as kept for the on-screen preview. */
  datatype XY = XY(x: nat, y: nat)

  /** `DataView.getBigUint64` read past the end of the buffer: a RangeError. */
  datatype DecodeError = RangeError(offset: nat)

  /** The top 53 bits of a u64, `value >> 11n`. */
  function Coordinate(v: U64): (a: nat)
    ensures a < Scale
    ensures a * ShiftDivisor <= v < a * ShiftDivisor + ShiftDivisor
  {
    v / ShiftDivisor
  }

  /** `normalizeUint64`: the top 53 bits scaled into the unit interval. */
  function Normalize(v: U64): (r: real)
    ensures 0.0 <= r < 1.0
  {
    Coordinate(v) as real / Scale as real
  }

  /**
   * The exact form of `x * x + y * y <= 1` for x = a / 2^53 and y = b / 2^53:
   * an inside point has both coordinates at most 1, and every point on or
   * below the line x + y = 1 is inside.
   */
  predicate InCircle(a: nat, b: nat): (r: bool)
    ensures r ==> a <= Scale && b <= Scale
    ensures a + b <= Scale ==> r
  {
    SquareBelow(a, b);
    a * a + b * b <= Scale * Scale
  }

  /** Multiplying by a natural keeps order. */
  lemma MulMono(x: nat, y: nat, z: nat)
    requires x <= y
    ensures x * z <= y * z
  {
  }

  /** Squares of naturals keep their order, and a sum's square bounds the sum of squares. */
  lemma SquareBelow(a: nat, b: nat)
    ensures a > Scale ==> a * a > Scale * Scale
    ensures b > Scale ==> b * b > Scale * Scale
    ensures a + b <= Scale ==> a * a + b * b <= Scale * Scale
  {
    var s := Scale;
    if a > s {
      MulMono(s + 1, a, a);
      MulMono(s, a, s);
      assert a * a >= (s + 1) * a > a * s >= s * s;
    }
    if b > s {
      MulMono(s + 1, b, b);
      MulMono(s, b, s);
      assert b * b >= (s + 1) * b > b * s >= s * s;
    }
    if a + b <= s {
      MulMono(a + b, s, a + b);
      MulMono(a + b, s, s);
      assert a * a + b * b <= (a + b) * (a + b);
    }
  }

  /**
   * Builds one point from its two raw u64 values: each coordinate is the
   * value's top 53 bits, and the point is inside exactly when the disk test
   * holds (`InCircleIsUnitDisk` gives that test on the normalized values).
   */
  function MakePoint(vx: U64, vy: U64): (p: Point)
    ensures p.x < Scale && p.y < Scale
    ensures p.x * ShiftDivisor <= vx < p.x * ShiftDivisor + ShiftDivisor
    ensures p.y * ShiftDivisor <= vy < p.y * ShiftDivisor + ShiftDivisor
    ensures p.inCircle <==> InCircle(p.x, p.y)
  {
    var a, b := Coordinate(vx), Coordinate(vy);
    Point(a, b, InCircle(a, b))
  }

  /** The u64 that 8 bytes hold, least significant first. */
  function ReadU64(s: seq<Byte>): (v: U64)
    requires |s| == 8
    ensures LeBytes(v, 8) == s
  {
    Pow256Widths();
    LeBytesOfLeValue(s);
    LeValue(s)
  }

  /** `view.getBigUint64(offset, true)`: a RangeError when the 8 bytes do not fit. */
  function GetBigUint64(buf: seq<Byte>, offset: nat): (r: Result<U64, DecodeError>)
    ensures r.Ok? <==> offset + 8 <= |buf|
    ensures r.Ok? ==> LeBytes(r.value, 8) == buf[offset..offset + 8]
    ensures r.Err? ==> r.error == RangeError(offset)
  {
    if offset + 8 <= |buf| then Ok(ReadU64(buf[offset..offset + 8])) else Err(RangeError(offset))
  }

  /** The point that record i (bytes 16i up to 16i + 16) decodes to. */
  function RecordAt(buf: seq<Byte>, i: nat): (p: Point)
    requires 16 * i + 16 <= |buf|
    ensures var vx, vy := LeValue(buf[16 * i..16 * i + 8]), LeValue(buf[16 * i + 8..16 * i + 16]);
      p.x * ShiftDivisor <= vx < p.x * ShiftDivisor + ShiftDivisor &&
      p.y * ShiftDivisor <= vy < p.y * ShiftDivisor + ShiftDivisor &&
      (p.inCircle <==> InCircle(p.x, p.y))
  {
    MakePoint(ReadU64(buf[16 * i..16 * i + 8]), ReadU64(buf[16 * i + 8..16 * i + 16]))
  }

  /** The first k records of a buffer, in buffer order. */
  function Records(buf: seq<Byte>, k: nat): (ps: seq<Point>)
    requires 16 * k <= |buf|
    ensures |ps| == k
  {
    if k == 0 then [] else Records(buf, k - 1) + [RecordAt(buf, k - 1)]
  }

  /** Record i of the first k is the one at bytes 16i … 16i + 16. */
  lemma {:induction false} RecordsAt(buf: seq<Byte>, k: nat, i: nat)
    requires 16 * k <= |buf| && i < k
    ensures Records(buf, k)[i] == RecordAt(buf, i)
  {
    if i < k - 1 {
      RecordsAt(buf, k - 1, i);
    }
  }

  /**
   * Offset of the read that throws on a buffer whose length is not a multiple
   * of 16: it lies in the last, partial record, and it is the x read exactly
   * when fewer than 8 bytes of that record are present.
   */
  function TrailingRead(buf: seq<Byte>): (r: nat)
    ensures |buf| - |buf| % 16 <= r <= |buf|
    ensures r == |buf| - |buf| % 16 <==> |buf| % 16 < 8
  {
    var last := |buf| - |buf| % 16;
    if last + 8 > |buf| then last else last + 8
  }

  /**
   * What the decode loops of frontend/main.js make of a response body: every
   * record in order, or the RangeError of the first read past the end.
   */
  function Decode(buf: seq<Byte>): (r: Result<seq<Point>, DecodeError>)
    ensures r.Ok? <==> |buf| % 16 == 0
    ensures r.Ok? ==> |r.value| == |buf| / 16
    ensures r.Err? ==> r.error.offset % 8 == 0 && r.error.offset <= |buf| < r.error.offset + 8
  {
    if |buf| % 16 == 0 then Ok(Records(buf, |buf| / 16))
    else TrailingReadStraddlesEnd(buf); Err(RangeError(TrailingRead(buf)))
  }

  /** Division by 16, stated for a known quotient and remainder. */
  lemma DivMod16(q: nat, r: nat)
    requires r < 16
    ensures (16 * q + r) / 16 == q && (16 * q + r) % 16 == r
  {
  }

  lemma Mod8(q: nat)
    ensures (8 * q) % 8 == 0
  {
  }

  lemma TrailingReadStraddlesEnd(buf: seq<Byte>)
    requires |buf| % 16 != 0
    ensures TrailingRead(buf) % 8 == 0 && TrailingRead(buf) <= |buf| < TrailingRead(buf) + 8
  {
    var q, r := |buf| / 16, |buf| % 16;
    assert |buf| == 16 * q + r;
    var last := |buf| - |buf| % 16;
    assert last == 8 * (2 * q);
    Mod8(2 * q);
    Mod8(2 * q + 1);
    assert last + 8 == 8 * (2 * q + 1);
  }

  /** The number of points classified inside. */
  function CountInside(ps: seq<Point>): (c: nat)
    ensures c <= |ps|
  {
    if ps == [] then 0
    else CountInside(ps[..|ps| - 1]) + (if ps[|ps| - 1].inCircle then 1 else 0)
  }

  /** The first five points' coordinates, as the preview lists them. */
  function Preview(ps: seq<Point>): (r: seq<XY>)
    ensures |r| == if |ps| < 5 then |ps| else 5
    ensures forall i :: 0 <= i < |r| ==> r[i] == XY(ps[i].x, ps[i].y)
  {
    if ps == [] then []
    else if |ps| > 5 then Preview(ps[..5])
    else Preview(ps[..|ps| - 1]) + [XY(ps[|ps| - 1].x, ps[|ps| - 1].y)]
  }

  /** `4 * (inside / n)`, computed exactly. */
  function PiEstimate(inside: nat, n: real): (r: real)
    requires n != 0.0
    ensures r * n == 4.0 * inside as real
    ensures n > 0.0 ==> r >= 0.0
  {
    4.0 * (inside as real / n)
  }

  /** The decoded records of a rain response and how many of them are inside. */
  datatype Decoded = Decoded(points: seq<Point>, inside: nat)

  /** What the estimate handler keeps of a response: the inside count and the preview. */
  datatype Scan = Scan(inside: nat, preview: seq<XY>)

  lemma CountInsideSnoc(ps: seq<Point>, p: Point)
    ensures CountInside(ps + [p]) == CountInside(ps) + (if p.inCircle then 1 else 0)
  {
    assert (ps + [p])[..|ps|] == ps;
  }

  lemma PreviewSnoc(ps: seq<Point>, p: Point)
    ensures Preview(ps + [p]) == if |ps| < 5 then Preview(ps) + [XY(p.x, p.y)] else Preview(ps)
  {
    if |ps| < 5 {
      assert (ps + [p])[..|ps|] == ps;
    }
  }

  lemma DecodeWhole(buf: seq<Byte>, k: nat)
    requires 16 * k == |buf|
    ensures Decode(buf) == Ok(Records(buf, k))
  {
    DivMod16(k, 0);
  }

  lemma DecodeFailsAt(buf: seq<Byte>, k: nat, offset: nat)
    requires 16 * k < |buf| < 16 * k + 16
    requires offset == 16 * k || offset == 16 * k + 8
    requires offset <= |buf| < offset + 8
    ensures Decode(buf) == Err(RangeError(offset))
  {
    DivMod16(k, |buf| - 16 * k);
  }

  /**
   * The two reads of one loop iteration, lines 79-81 and 174-176: the point at
   * `offset`, or the RangeError of the first read that does not fit.
   */
  function ReadPoint(buf: seq<Byte>, offset: nat): (r: Result<Point, DecodeError>)
    ensures r.Ok? <==> offset + 16 <= |buf|
    ensures r.Err? ==> r.error == RangeError(if offset + 8 <= |buf| then offset + 8 else offset)
  {
    match GetBigUint64(buf, offset)
    case Err(e) => Err(e)
    case Ok(vx) =>
      match GetBigUint64(buf, offset + 8)
      case Err(e) => Err(e)
      case Ok(vy) => Ok(MakePoint(vx, vy))
  }

  /** Reading at a record's offset gives that record. */
  lemma ReadPointIsRecord(buf: seq<Byte>, k: nat)
    requires 16 * k + 16 <= |buf|
    ensures ReadPoint(buf, 16 * k) == Ok(RecordAt(buf, k))
  {
  }

  /** The invariant of the rain loop after k records. */
  ghost predicate DecodedSoFar(buf: seq<Byte>, k: nat, points: seq<Point>, inside: nat)
  {
    16 * k <= |buf| && points == Records(buf, k) && inside == CountInside(points)
  }

  /** One more record read by the rain loop keeps its invariant. */
  lemma DecodedStep(buf: seq<Byte>, k: nat, points: seq<Point>, inside: nat, p: Point)
    requires DecodedSoFar(buf, k, points, inside) && 16 * k + 16 <= |buf|
    requires ReadPoint(buf, 16 * k) == Ok(p)
    ensures DecodedSoFar(buf, k + 1, points + [p], if p.inCircle then inside + 1 else inside)
  {
    ReadPointIsRecord(buf, k);
    CountInsideSnoc(points, p);
  }

  /** The rain loop, frontend/main.js lines 74-84: all points and the inside count. */
  method DecodePoints(buf: seq<Byte>) returns (r: Result<Decoded, DecodeError>)
    ensures Decode(buf).Ok? ==> r == Ok(Decoded(Decode(buf).value, CountInside(Decode(buf).value)))
    ensures Decode(buf).Err? ==> r == Err(Decode(buf).error)
  {
    var points: seq<Point> := [];
    var inside := 0;
    var offset := 0;
    while offset < |buf|
      invariant offset == 16 * |points| && offset <= |buf|
      invariant DecodedSoFar(buf, |points|, points, inside)
    {
      var read := ReadPoint(buf, offset);
      if read.Err? {
        DecodeFailsAt(buf, |points|, read.error.offset);
        return Err(read.error);
      }
      var p := read.value;
      DecodedStep(buf, |points|, points, inside, p);
      if p.inCircle {
        inside := inside + 1;
      }
      points := points + [p];
      offset := offset + 16;
    }
    DecodeWhole(buf, |points|);
    r := Ok(Decoded(points, inside));
  }

  /** The invariant of the estimate loop after k records. */
  ghost predicate ScannedSoFar(buf: seq<Byte>, k: nat, inside: nat, preview: seq<XY>)
  {
    16 * k <= |buf| && inside == CountInside(Records(buf, k)) && preview == Preview(Records(buf, k))
  }

  /** One more record read by the estimate loop keeps its invariant. */
  lemma ScannedStep(buf: seq<Byte>, k: nat, inside: nat, preview: seq<XY>, p: Point)
    requires ScannedSoFar(buf, k, inside, preview) && 16 * k + 16 <= |buf|
    requires ReadPoint(buf, 16 * k) == Ok(p)
    ensures ScannedSoFar(buf, k + 1, if p.inCircle then inside + 1 else inside,
                         if |preview| < 5 then preview + [XY(p.x, p.y)] else preview)
  {
    ReadPointIsRecord(buf, k);
    CountInsideSnoc(Records(buf, k), p);
    PreviewSnoc(Records(buf, k), p);
  }

  /** The estimate loop, frontend/main.js lines 169-182: the inside count and a five-point preview. */
  method ScanForEstimate(buf: seq<Byte>) returns (r: Result<Scan, DecodeError>)
    ensures Decode(buf).Ok? ==> r == Ok(Scan(CountInside(Decode(buf).value), Preview(Decode(buf).value)))
    ensures Decode(buf).Err? ==> r == Err(Decode(buf).error)
  {
    var inside := 0;
    var preview: seq<XY> := [];
    var offset := 0;
    ghost var k: nat := 0;
    while offset < |buf|
      invariant offset == 16 * k && offset <= |buf|
      invariant ScannedSoFar(buf, k, inside, preview)
    {
      var read := ReadPoint(buf, offset);
      if read.Err? {
        DecodeFailsAt(buf, k, read.error.offset);
        return Err(read.error);
      }
      var p := read.value;
      ScannedStep(buf, k, inside, preview, p);
      if p.inCircle {
        inside := inside + 1;
      }
      if |preview| < 5 {
        preview := preview + [XY(p.x, p.y)];
      }
      offset, k := offset + 16, k + 1;
    }
    DecodeWhole(buf, k);
    r := Ok(Scan(inside, preview));
  }

  /** The all-ones u64 keeps 2^53 - 1 as its top bits, so even it normalizes below 1. */
  lemma AllOnesStaysBelowOne()
    ensures Coordinate(0xFFFF_FFFF_FFFF_FFFF) == Scale - 1
    ensures Normalize(0xFFFF_FFFF_FFFF_FFFF) < 1.0
  {
  }

  /** The exact integer test is the closed unit-disk test on the normalized coordinates. */
  lemma InCircleIsUnitDisk(vx: U64, vy: U64)
    ensures InCircle(Coordinate(vx), Coordinate(vy)) <==>
            Normalize(vx) * Normalize(vx) + Normalize(vy) * Normalize(vy) <= 1.0
  {
    var a, b := Coordinate(vx), Coordinate(vy);
    var s := Scale as real;
    assert Normalize(vx) == a as real / s && Normalize(vy) == b as real / s;
    assert (a as real / s) * (a as real / s) == (a * a) as real / (s * s);
    assert (b as real / s) * (b as real / s) == (b * b) as real / (s * s);
    assert (Scale * Scale) as real == s * s;
  }

  /**
   * Decoding keeps buffer order: point i carries the top 53 bits of the
   * little-endian u64 at bytes 16i..16i+8 as x and of the one at
   * 16i+8..16i+16 as y, and is inside exactly when the disk test holds.
   */
  lemma DecodedPointBytes(buf: seq<Byte>, i: nat)
    requires Decode(buf).Ok? && i < |Decode(buf).value|
    ensures 16 * i + 16 <= |buf|
    ensures var p := Decode(buf).value[i];
      var vx, vy := LeValue(buf[16 * i..16 * i + 8]), LeValue(buf[16 * i + 8..16 * i + 16]);
      p.x * ShiftDivisor <= vx < p.x * ShiftDivisor + ShiftDivisor &&
      p.y * ShiftDivisor <= vy < p.y * ShiftDivisor + ShiftDivisor &&
      (p.inCircle <==> InCircle(p.x, p.y))
  {
    assert 16 * (i + 1) <= 16 * (|buf| / 16);
    RecordsAt(buf, |buf| / 16, i);
  }

  /** The inside count is the number of positions that hold an inside point. */
  lemma {:induction false} CountInsideIsCardinality(ps: seq<Point>)
    ensures CountInside(ps) == |set i | 0 <= i < |ps| && ps[i].inCircle|
  {
    if ps != [] {
      var init := ps[..|ps| - 1];
      CountInsideIsCardinality(init);
      var before := set i | 0 <= i < |init| && init[i].inCircle;
      var after := set i | 0 <= i < |ps| && ps[i].inCircle;
      if ps[|ps| - 1].inCircle {
        assert after == before + {|ps| - 1};
      } else {
        assert after == before;
      }
    }
  }

  lemma AllOnesValue()
    ensures LeValue(seq(8, _ => 255)) == 0xFFFF_FFFF_FFFF_FFFF
  {
    var ones: seq<Byte> := seq(8, _ => 255);
    assert LeValue(ones[8..]) == 0;
    assert LeValue(ones[7..]) == 0xFF;
    assert LeValue(ones[6..]) == 0xFFFF;
    assert LeValue(ones[5..]) == 0xFF_FFFF;
    assert LeValue(ones[4..]) == 0xFFFF_FFFF;
    assert LeValue(ones[3..]) == 0xFF_FFFF_FFFF;
    assert LeValue(ones[2..]) == 0xFFFF_FFFF_FFFF;
    assert LeValue(ones[1..]) == 0xFF_FFFF_FFFF_FFFF;
  }

  lemma ZerosValue()
    ensures LeValue(seq(8, _ => 0)) == 0
  {
    var zeros: seq<Byte> := seq(8, _ => 0);
    assert LeValue(zeros[8..]) == 0;
    assert LeValue(zeros[7..]) == 0;
    assert LeValue(zeros[6..]) == 0;
    assert LeValue(zeros[5..]) == 0;
    assert LeValue(zeros[4..]) == 0;
    assert LeValue(zeros[3..]) == 0;
    assert LeValue(zeros[2..]) == 0;
    assert LeValue(zeros[1..]) == 0;
  }

  /** A zero record lands at the origin, inside; an all-ones record lands outside. */
  lemma ZeroAndAllOnesRecords()
    ensures Decode(seq(16, _ => 0) + seq(16, _ => 255)) ==
            Ok([Point(0, 0, true), Point(Scale - 1, Scale - 1, false)])
  {
    var buf: seq<Byte> := seq(16, _ => 0) + seq(16, _ => 255);
    AllOnesValue();
    ZerosValue();
    assert buf[0..8] == seq(8, _ => 0) && buf[8..16] == seq(8, _ => 0);
    assert buf[16..24] == seq(8, _ => 255) && buf[24..32] == seq(8, _ => 255);
    assert RecordAt(buf, 0) == Point(0, 0, true);
    assert RecordAt(buf, 1) == Point(Scale - 1, Scale - 1, false);
    assert Records(buf, 2) == [RecordAt(buf, 0), RecordAt(buf, 1)];
  }
}
