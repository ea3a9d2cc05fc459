/**
 * The server's point source (backend/src/lib.rs): `get_points` refuses
 * `n = 0`, and `produce_points` sends the body in chunks of at most 4096
 * points, each point two little-endian u32 draws. The thread-local RNG is
 * the draw sequence `rng` (draw i is `rng(i)`); the channel is modelled by
 * `liveSends`, the number of sends that succeed before the receiving body
 * is dropped (after which every send fails).
 */
module PointProducer {
  import opened Results
  import opened LittleEndian

  const BytesPerPoint: nat := 8
  const PointsPerChunk: nat := 4096

  /** What `get_points` answers: 400 Bad Request, or a body fed by a producer. */
  datatype Response = BadRequest | PointStream(limit: Option<nat>)

  /** `get_points`: an explicit `n = 0` is refused and spawns no producer. */
  function GetPoints(n: Option<nat>): (r: Response)
    ensures r.BadRequest? <==> n == Some(0)
    ensures r.PointStream? ==> r.limit == n
  {
    if n == Some(0) then BadRequest else PointStream(n)
  }

  /** The 8 bytes of point j: draws 2j and 2j + 1, each as 4 little-endian bytes. */
  function PointBytes(rng: nat -> U32, j: nat): (s: seq<Byte>)
    ensures |s| == BytesPerPoint
  {
    LeBytes(rng(2 * j), 4) + LeBytes(rng(2 * j + 1), 4)
  }

  /** The bytes of points 0 … p - 1, in order. */
  function StreamBytes(rng: nat -> U32, p: nat): (s: seq<Byte>)
    ensures |s| == BytesPerPoint * p
  {
    if p == 0 then [] else StreamBytes(rng, p - 1) + PointBytes(rng, p - 1)
  }

  /** The chunks of a body joined in the order they were sent. */
  function Flatten(chunks: seq<seq<Byte>>): seq<Byte>
  {
    if chunks == [] then [] else Flatten(chunks[..|chunks| - 1]) + chunks[|chunks| - 1]
  }

  /** The number of chunks p points take: ceil(p / 4096). */
  function ChunkCount(p: nat): nat
  {
    (p + PointsPerChunk - 1) / PointsPerChunk
  }

  /** Points in the body when `liveSends` sends succeed. */
  function Delivered(limit: Option<nat>, liveSends: nat): nat
  {
    match limit
    case None => PointsPerChunk * liveSends
    case Some(k) => if PointsPerChunk * liveSends < k then PointsPerChunk * liveSends else k
  }

  /** Bytes 8j … 8j + 8 of the stream are point j. */
  lemma {:induction false} StreamBytesAt(rng: nat -> U32, p: nat, j: nat)
    requires j < p
    ensures StreamBytes(rng, p)[BytesPerPoint * j..BytesPerPoint * j + BytesPerPoint] == PointBytes(rng, j)
  {
    var init, s := StreamBytes(rng, p - 1), StreamBytes(rng, p);
    assert s == init + PointBytes(rng, p - 1) && |init| == 8 * (p - 1);
    if j < p - 1 {
      StreamBytesAt(rng, p - 1, j);
      assert 8 * j + 8 <= |init|;
      assert s[8 * j..8 * j + 8] == init[8 * j..8 * j + 8];
    } else {
      assert s[8 * j..8 * j + 8] == s[|init|..];
    }
  }

  /** When the receiver stays, the body holds exactly the requested points. */
  lemma AllDeliveredWhenReceiverStays(k: nat, liveSends: nat)
    requires ChunkCount(k) <= liveSends
    ensures Delivered(Some(k), liveSends) == k
  {
  }

  /** Sending one more chunk that continues the stream keeps the body a prefix of the stream. */
  lemma FlattenExtends(chunks: seq<seq<Byte>>, chunk: seq<Byte>, rng: nat -> U32, sent: nat, q: nat)
    requires Flatten(chunks) == StreamBytes(rng, sent)
    requires StreamBytes(rng, sent) + chunk == StreamBytes(rng, sent + q)
    ensures Flatten(chunks + [chunk]) == StreamBytes(rng, sent + q)
  {
    assert (chunks + [chunk])[..|chunks|] == chunks;
  }

  /** `?n=1000` with a receiver that stays: one chunk and an 8000-byte body. */
  lemma ThousandPointBody(rng: nat -> U32, liveSends: nat)
    requires liveSends >= 1
    ensures GetPoints(Some(1000)) == PointStream(Some(1000))
    ensures Delivered(Some(1000), liveSends) == 1000
    ensures ChunkCount(1000) == 1
    ensures |StreamBytes(rng, Delivered(Some(1000), liveSends))| == 8000
  {
  }

  /** `remaining.map_or(POINTS_PER_CHUNK, |rem| rem.min(POINTS_PER_CHUNK))`. */
  function ChunkPoints(remaining: Option<nat>): (q: nat)
    ensures q <= PointsPerChunk
    ensures remaining.Some? ==> q <= remaining.value
  {
    match remaining
    case None => PointsPerChunk
    case Some(rem) => if rem < PointsPerChunk then rem else PointsPerChunk
  }

  /** One more successful send: the chunks before it were full and the new one holds 1 to 4096 points. */
  lemma ChunkStep(limit: Option<nat>, c: nat, remaining: Option<nat>)
    requires limit.None? ==> remaining == None
    requires limit.Some? ==> remaining == Some(limit.value - Delivered(limit, c)) && remaining != Some(0)
    ensures Delivered(limit, c) == PointsPerChunk * c
    ensures 0 < ChunkPoints(remaining)
    ensures Delivered(limit, c + 1) == Delivered(limit, c) + ChunkPoints(remaining)
    ensures ChunkCount(Delivered(limit, c + 1)) == c + 1
  {
  }

  /** The loop ran out of points: every chunk was sent. */
  lemma FinishedAll(k: nat, c: nat, liveSends: nat)
    requires Delivered(Some(k), c) == k && c == ChunkCount(k) && c <= liveSends
    ensures Delivered(Some(k), liveSends) == k && !(liveSends < ChunkCount(k))
  {
  }

  /** A send failed while points remained. */
  lemma StoppedEarly(limit: Option<nat>, liveSends: nat)
    requires limit.Some? ==> Delivered(limit, liveSends) < limit.value
    ensures limit.Some? ==> liveSends < ChunkCount(limit.value)
  {
  }

  lemma ChunkExtends(rng: nat -> U32, start: nat, j: nat, chunk: seq<Byte>)
    requires StreamBytes(rng, start) + chunk == StreamBytes(rng, start + j)
    ensures StreamBytes(rng, start) + (chunk + LeBytes(rng(2 * (start + j)), 4) + LeBytes(rng(2 * (start + j) + 1), 4))
         == StreamBytes(rng, start + j + 1)
  {
    var p := PointBytes(rng, start + j);
    assert chunk + LeBytes(rng(2 * (start + j)), 4) + LeBytes(rng(2 * (start + j) + 1), 4) == chunk + p;
    assert StreamBytes(rng, start + j + 1) == StreamBytes(rng, start + j) + p;
  }

  /** The closure passed to `RNG.with`: the next chunk's bytes, two draws per point. */
  method FillChunk(rng: nat -> U32, start: nat, chunkPoints: nat) returns (chunk: seq<Byte>)
    ensures StreamBytes(rng, start) + chunk == StreamBytes(rng, start + chunkPoints)
    ensures |chunk| == BytesPerPoint * chunkPoints
  {
    chunk := [];
    var draw := 2 * start;
    for j := 0 to chunkPoints
      invariant draw == 2 * (start + j)
      invariant StreamBytes(rng, start) + chunk == StreamBytes(rng, start + j)
    {
      ChunkExtends(rng, start, j, chunk);
      chunk := chunk + LeBytes(rng(draw), 4);
      chunk := chunk + LeBytes(rng(draw + 1), 4);
      draw := draw + 2;
    }
  }

  /** Every chunk but the last holds 4096 points; the last holds what is left of `sent`, at least one. */
  ghost predicate ChunkShape(chunks: seq<seq<Byte>>, sent: nat)
  {
    (forall i :: 0 <= i < |chunks| - 1 ==> |chunks[i]| == BytesPerPoint * PointsPerChunk) &&
    (|chunks| > 0 ==>
      PointsPerChunk * (|chunks| - 1) < sent <= PointsPerChunk * |chunks| &&
      |chunks[|chunks| - 1]| == BytesPerPoint * (sent - PointsPerChunk * (|chunks| - 1)))
  }

  lemma ChunkShapeSnoc(chunks: seq<seq<Byte>>, sent: nat, chunk: seq<Byte>, q: nat)
    requires ChunkShape(chunks, sent) && sent == PointsPerChunk * |chunks|
    requires 0 < q <= PointsPerChunk && |chunk| == BytesPerPoint * q
    ensures ChunkShape(chunks + [chunk], sent + q)
  {
    var c := chunks + [chunk];
    forall i | 0 <= i < |c| - 1
      ensures |c[i]| == BytesPerPoint * PointsPerChunk
    {
      if i < |chunks| - 1 {
        assert c[i] == chunks[i];
      }
    }
  }

  /** The invariant of the `produce_points` loop. */
  ghost predicate Producing(limit: Option<nat>, rng: nat -> U32, liveSends: nat,
                            chunks: seq<seq<Byte>>, sent: nat, remaining: Option<nat>)
  {
    |chunks| <= liveSends &&
    sent == Delivered(limit, |chunks|) &&
    (limit.None? ==> remaining == None) &&
    (limit.Some? ==> remaining == Some(limit.value - sent)) &&
    Flatten(chunks) == StreamBytes(rng, sent) &&
    |chunks| == ChunkCount(sent) &&
    ChunkShape(chunks, sent)
  }

  /**
   * A successful send of the next chunk, of `q` points, keeps the loop
   * invariant: the state after the send is `chunks'`, `sent'`, `remaining'`.
   */
  lemma ProducingStep(limit: Option<nat>, rng: nat -> U32, liveSends: nat,
                      chunks: seq<seq<Byte>>, sent: nat, remaining: Option<nat>,
                      chunk: seq<Byte>, q: nat,
                      chunks': seq<seq<Byte>>, sent': nat, remaining': Option<nat>)
    requires Producing(limit, rng, liveSends, chunks, sent, remaining)
    requires remaining != Some(0) && |chunks| < liveSends && q == ChunkPoints(remaining)
    requires StreamBytes(rng, sent) + chunk == StreamBytes(rng, sent + q)
    requires chunks' == chunks + [chunk] && sent' == sent + q
    requires remaining' == if remaining.Some? then Some(remaining.value - q) else None
    ensures Producing(limit, rng, liveSends, chunks', sent', remaining')
  {
    ChunkStep(limit, |chunks|, remaining);
    FlattenExtends(chunks, chunk, rng, sent, q);
    ChunkShapeSnoc(chunks, sent, chunk, q);
  }

  /** When the loop stops, the body holds the points of the successful sends. */
  lemma ProducingStops(limit: Option<nat>, rng: nat -> U32, liveSends: nat,
                       chunks: seq<seq<Byte>>, sent: nat, remaining: Option<nat>)
    requires Producing(limit, rng, liveSends, chunks, sent, remaining)
    requires remaining == Some(0) || |chunks| == liveSends
    ensures sent == Delivered(limit, liveSends)
    ensures remaining == Some(0) <==> !(limit.None? || liveSends < ChunkCount(limit.value))
  {
    if remaining == Some(0) {
      FinishedAll(limit.value, |chunks|, liveSends);
    } else {
      StoppedEarly(limit, liveSends);
    }
  }

  /**
   * `produce_points`: the chunks the body receives, and whether the loop
   * ended on a failed send. The body is the byte stream of the first
   * `Delivered(limit, liveSends)` points; every chunk but the last holds
   * exactly 4096 points and the last between 1 and 4096.
   */
  method ProducePoints(limit: Option<nat>, rng: nat -> U32, liveSends: nat)
    returns (chunks: seq<seq<Byte>>, sendFailed: bool)
    ensures Flatten(chunks) == StreamBytes(rng, Delivered(limit, liveSends))
    ensures |chunks| == ChunkCount(Delivered(limit, liveSends)) && |chunks| <= liveSends
    ensures ChunkShape(chunks, Delivered(limit, liveSends))
    ensures sendFailed <==> (limit.None? || liveSends < ChunkCount(limit.value))
  {
    var remaining := limit;
    chunks, sendFailed := [], false;
    // Points drawn and sent so far; the RNG has made 2 * sent draws.
    var sent: nat := 0;
    while true
      invariant Producing(limit, rng, liveSends, chunks, sent, remaining)
      decreases liveSends - |chunks|
    {
      if remaining == Some(0) {
        ProducingStops(limit, rng, liveSends, chunks, sent, remaining);
        break;
      }
      var chunkPoints := ChunkPoints(remaining);
      var chunk := FillChunk(rng, sent, chunkPoints);
      if |chunks| == liveSends {
        ProducingStops(limit, rng, liveSends, chunks, sent, remaining);
        sendFailed := true;
        break;
      }
      ghost var chunks0, sent0, remaining0 := chunks, sent, remaining;
      chunks := chunks + [chunk];
      if remaining.Some? {
        remaining := Some(remaining.value - chunkPoints);
      }
      sent := sent + chunkPoints;
      ProducingStep(limit, rng, liveSends, chunks0, sent0, remaining0, chunk, chunkPoints,
                    chunks, sent, remaining);
    }
  }
}
