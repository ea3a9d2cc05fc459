/**
 * The server body against the browser decoder. The server writes 8 bytes
 * per point (two u32 draws); the browser reads 16 bytes per point (two u64
 * values). Both sides are modelled as written, and these lemmas say what
 * the browser makes of a server body for n points.
 */
module Protocol {
  import opened Results
  import opened LittleEndian
  import opened PointDecoder
  import opened PointProducer

  /** A body for n points decodes exactly when n is even, into n / 2 points. */
  lemma ServerBodyDecodes(rng: nat -> U32, n: nat)
    ensures Decode(StreamBytes(rng, n)).Ok? <==> n % 2 == 0
    ensures n % 2 == 0 ==> |Decode(StreamBytes(rng, n)).value| == n / 2
    ensures n % 2 == 1 ==> Decode(StreamBytes(rng, n)).error == RangeError(8 * n)
  {
    var body := StreamBytes(rng, n);
    var m := n / 2;
    if n % 2 == 0 {
      assert |body| == 16 * m + 0;
      DivMod16(m, 0);
    } else {
      assert |body| == 16 * m + 8;
      DivMod16(m, 8);
      assert TrailingRead(body) == 8 * n;
    }
  }

  lemma FloorDivision(a: nat, v: nat)
    requires a * ShiftDivisor <= v < a * ShiftDivisor + ShiftDivisor
    ensures a == v / ShiftDivisor
  {
  }

  /** The u64 the browser reads from one server point's 8 bytes. */
  lemma PointBytesValue(rng: nat -> U32, j: nat)
    ensures LeValue(PointBytes(rng, j)) == rng(2 * j) + 0x1_0000_0000 * rng(2 * j + 1)
  {
    Pow256Widths();
    LeValueAppend(LeBytes(rng(2 * j), 4), LeBytes(rng(2 * j + 1), 4));
    LeValueOfLeBytes(rng(2 * j), 4);
    LeValueOfLeBytes(rng(2 * j + 1), 4);
  }

  /** Bytes 16i … 16i + 16 of a server body are server points 2i and 2i + 1. */
  lemma RecordIsTwoServerPoints(rng: nat -> U32, n: nat, i: nat)
    requires 2 * i + 1 < n
    ensures 16 * i + 16 <= |StreamBytes(rng, n)|
    ensures StreamBytes(rng, n)[16 * i..16 * i + 8] == PointBytes(rng, 2 * i)
    ensures StreamBytes(rng, n)[16 * i + 8..16 * i + 16] == PointBytes(rng, 2 * i + 1)
  {
    StreamBytesAt(rng, n, 2 * i);
    StreamBytesAt(rng, n, 2 * i + 1);
    assert BytesPerPoint * (2 * i) == 16 * i;
    assert BytesPerPoint * (2 * i + 1) == 16 * i + 8;
  }

  /**
   * Browser point i of a server body is built from four server draws: x
   * from draws 4i and 4i + 1 read as one u64, y from draws 4i + 2 and 4i + 3.
   */
  lemma ClientPointFromDraws(rng: nat -> U32, n: nat, i: nat)
    requires n % 2 == 0 && i < n / 2
    ensures Decode(StreamBytes(rng, n)).Ok?
    ensures Decode(StreamBytes(rng, n)).value[i].x ==
            (rng(4 * i) + 0x1_0000_0000 * rng(4 * i + 1)) / ShiftDivisor
    ensures Decode(StreamBytes(rng, n)).value[i].y ==
            (rng(4 * i + 2) + 0x1_0000_0000 * rng(4 * i + 3)) / ShiftDivisor
  {
    ServerBodyDecodes(rng, n);
    var body := StreamBytes(rng, n);
    var p := Decode(body).value[i];
    DecodedPointBytes(body, i);
    RecordIsTwoServerPoints(rng, n, i);
    PointBytesValue(rng, 2 * i);
    PointBytesValue(rng, 2 * i + 1);
    assert 2 * (2 * i) == 4 * i && 2 * (2 * i + 1) == 4 * i + 2;
    FloorDivision(p.x, LeValue(body[16 * i..16 * i + 8]));
    FloorDivision(p.y, LeValue(body[16 * i + 8..16 * i + 16]));
  }

  lemma HalfRatio(c: nat, n: nat)
    requires n > 0 && 2 * c <= n
    ensures 4.0 * (c as real / n as real) <= 2.0
  {
    var r := c as real / n as real;
    assert r * n as real == c as real;
    if r > 0.5 {
      assert r * n as real > 0.5 * n as real;
    }
  }

  /**
   * Over a server body the browser sees only n / 2 points but divides by
   * the requested n, so the estimate it reports never exceeds 2.
   */
  lemma EstimateOverServerBodyAtMostTwo(rng: nat -> U32, n: nat)
    requires n > 0 && n % 2 == 0
    ensures Decode(StreamBytes(rng, n)).Ok?
    ensures PiEstimate(CountInside(Decode(StreamBytes(rng, n)).value), n as real) <= 2.0
  {
    ServerBodyDecodes(rng, n);
    HalfRatio(CountInside(Decode(StreamBytes(rng, n)).value), n);
  }
}
