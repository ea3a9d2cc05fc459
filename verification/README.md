# pi-estimator: the point stream and the browser's decoder

pi-estimator estimates π by Monte Carlo sampling. The server (`backend/src/lib.rs`)
streams random points over HTTP: `GET /points?n=…` answers with an octet stream of
`n` points, each made of two little-endian `u32` draws, sent in chunks of at most
4096 points. The browser page (`frontend/main.js`) reads the body as 16-byte
records of two little-endian `u64` values. It keeps the top 53 bits of each value
as a coordinate in [0, 1) and counts the points inside the quarter unit disk. It
reports `4 * inside / n`, either at once (the estimate form) or after animating
the points onto a canvas 500 per frame (the rain session, which the stop button
can cancel).

The project models both sides as written:

- `little_endian.dfy` (module `LittleEndian`): little-endian byte encodings.
- `point_decoder.dfy` (module `PointDecoder`): `normalizeUint64`, the disk test and
  the two decode loops of the page.
- `rain_page.dfy` (module `RainPage`): the page controller as a class `Page`.
  - Its fields are the three buttons, the status text, the canvas, the
    module-level cancellation state (`rainStopRequested`, `rainAbortController`,
    `rainAnimationId`) and the rain session closure (`n`, `points`, `inside`,
    `drawn`).
  - Its methods are `startRain`, the settling of its fetch, the animation-frame
    callback `step` and `stopRain`.
  - The browser's callbacks are methods the host calls: `FetchSettled` is the
    fetch promise settling, and `Step` is a scheduled frame firing.
  - The estimate form handler is `EstimateSubmit`, a module-level method of
    `RainPage` outside `Page`.
- `point_producer.dfy` (module `PointProducer`): `get_points` and the
  `produce_points` loop.
  - The thread-local RNG is a draw sequence `rng`: draw i is `rng(i)`.
  - The unbounded channel is modelled by `liveSends`, the number of sends that
    succeed before the response body is dropped.
- `protocol.dfy` (module `Protocol`): what the browser decoder makes of a server body.

### The server and the browser disagree on the point size

The server writes 8 bytes per point. The browser reads 16 bytes per point.
`Protocol` proves the consequences for a request of `n` points:

- the body decodes only when `n` is even;
- it then holds `n / 2` browser points, each built from four server draws;
- an odd `n` throws a RangeError at byte `8n`;
- the reported estimate never exceeds 2.

Two behaviours of the code worth knowing:

- A body whose length is not a multiple of 16 is not truncated to whole records.
  The first read that runs past the end throws a RangeError: the x read when
  fewer than 8 bytes of the last record remain, the y read otherwise. The
  error ends in the catch block. The model returns `RangeError(offset)`.
- `stopRain` does not change the result text.
- The stop-flag branch at the top of `step` (frontend/main.js:88-93) never
  runs. `stopRain` cancels the scheduled frame whenever `rainAnimationId` is
  set, and a frame is only ever scheduled with the handle set, so no frame
  fires after a stop. `RainPage.Page.Step` models that branch, but from a page
  built by the constructor it is not reachable either: `StopRain` always
  clears the scheduled frame.

## Model

| member | source | states |
|---|---|---|
| LittleEndian.Pow256Widths | backend/src/lib.rs:67-68 | helper for the byte-width proofs: four bytes span 2^32 values and eight bytes span 2^64 |
| LittleEndian.LeValueOfLeBytes | backend/src/lib.rs:67-68 | reading back the little-endian bytes of a value that fits in `width` bytes gives the value |
| LittleEndian.LeBytesOfLeValue | frontend/main.js:79-80 | re-encoding the value read from any bytes gives the same bytes, so a read loses nothing |
| LittleEndian.LeValue | frontend/main.js:79-80 | the little-endian read of `getBigUint64(offset, true)`: the value of k bytes is below 256^k; `LeBytesOfLeValue` shows it loses nothing |
| LittleEndian.LeBytes | backend/src/lib.rs:67-68 | `u32::to_le_bytes` for width 4: `width` bytes; `LeValueOfLeBytes` shows they read back as the value |
| LittleEndian.LeValueAppend | backend/src/lib.rs:67-68 | the value of two byte strings joined is the first plus 256^len times the second: two u32 writes form one u64 |
| PointDecoder.Coordinate | frontend/main.js:13-20 | `value >> 11n` is below 2^53 and is the floor of the value divided by 2048 |
| PointDecoder.Normalize | frontend/main.js:14-21 | `normalizeUint64` lies in [0, 1) for every u64 |
| PointDecoder.ReadU64 | frontend/main.js:79-80 | the u64 read from 8 bytes is the one whose little-endian encoding is those bytes |
| PointDecoder.GetBigUint64 | frontend/main.js:79-80 | a read succeeds exactly when 8 bytes fit at the offset, and then returns the u64 those bytes encode; otherwise it is a RangeError at that offset |
| PointDecoder.InCircle | frontend/main.js:81 | an inside point has both coordinates at most 1, and every point with x + y at most 1 is inside; `InCircleIsUnitDisk` gives its exact meaning |
| PointDecoder.MakePoint | frontend/main.js:79-83 | each coordinate is below 2^53 and is the floor of its u64 divided by 2048, and the point is inside exactly when the disk test holds; `InCircleIsUnitDisk` states that test on the normalized values |
| PointDecoder.RecordAt | frontend/main.js:79-83 | record i takes x from the top 53 bits of the little-endian u64 at bytes 16i..16i + 8 and y from the one at 16i + 8..16i + 16, with the disk test |
| PointDecoder.Records | frontend/main.js:78-84 | the first k records are k points; `RecordsAt` says point i is record i |
| PointDecoder.RecordsAt | frontend/main.js:78-84 | point i of the decoded list is the record at bytes 16i up to 16i + 16 |
| PointDecoder.Decode | frontend/main.js:78-84 | a body decodes exactly when its length is a multiple of 16, into length / 16 points; otherwise the error offset is 8-aligned and its read runs past the end |
| PointDecoder.TrailingRead | frontend/main.js:78-80 | the read that throws on a partial last record lies in that record and starts at or before the end; it is the x read exactly when fewer than 8 bytes of the record remain |
| PointDecoder.TrailingReadStraddlesEnd | frontend/main.js:78-80 | for a body with a partial record, the first failing read is 8-aligned, starts at or before the end and ends past it |
| PointDecoder.CountInside | frontend/main.js:81-82 | the inside count never exceeds the number of points |
| PointDecoder.CountInsideIsCardinality | frontend/main.js:81-82 | the inside count is the number of positions whose point is inside |
| PointDecoder.Preview | frontend/main.js:179-181 | the preview has min(5, count) entries, and entry i holds point i's coordinates |
| PointDecoder.PiEstimate | frontend/main.js:184 | `4 * (inside / n)` times n is 4 * inside, and it is not negative for positive n |
| PointDecoder.CountInsideSnoc | frontend/main.js:81-82 | appending a point raises the count by one exactly when the point is inside |
| PointDecoder.PreviewSnoc | frontend/main.js:179-181 | appending a point extends the preview only while it has fewer than five entries |
| PointDecoder.DecodeWhole | frontend/main.js:78 | when the loop has consumed the whole body, the decode is the list of all its records |
| PointDecoder.DecodeFailsAt | frontend/main.js:79-80 | a read that fails inside the last, partial record is the error of the whole decode |
| PointDecoder.ReadPoint | frontend/main.js:79-81 | one loop iteration succeeds exactly when 16 bytes fit; otherwise it fails at the first of its two reads that runs past the end |
| PointDecoder.ReadPointIsRecord | frontend/main.js:79-81 | reading at offset 16k gives record k |
| PointDecoder.DecodedStep | frontend/main.js:78-84 | one iteration of the rain loop extends the decoded prefix by the next record and keeps the inside count |
| PointDecoder.DecodePoints | frontend/main.js:74-84 | the rain loop returns every record in buffer order with their inside count, or exactly the RangeError of the decode |
| PointDecoder.ScannedStep | frontend/main.js:173-182 | one iteration of the estimate loop keeps the count and the preview equal to those of the records read so far |
| PointDecoder.ScanForEstimate | frontend/main.js:169-182 | the estimate loop returns the inside count and the preview of the decoded records, or exactly the RangeError of the decode |
| PointDecoder.AllOnesStaysBelowOne | frontend/main.js:13-21 | the largest u64 keeps 2^53 - 1 as its top bits and normalizes below 1 |
| PointDecoder.InCircleIsUnitDisk | frontend/main.js:81 | the exact integer test on the 53-bit coordinates is the test `x * x + y * y <= 1` on the normalized values |
| PointDecoder.DecodedPointBytes | frontend/main.js:78-84 | decoded point i takes x from the u64 at bytes 16i..16i + 8 and y from 16i + 8..16i + 16, and is inside exactly when the disk test holds |
| PointDecoder.AllOnesValue | frontend/main.js:79 | eight 0xFF bytes read as 2^64 - 1 |
| PointDecoder.ZerosValue | frontend/main.js:79 | eight zero bytes read as 0 |
| PointDecoder.ZeroAndAllOnesRecords | frontend/main.js:78-84 | a zero record decodes to the origin, inside; an all-ones record decodes to (2^53 - 1, 2^53 - 1), outside |
| RainPage.SetRunning | frontend/main.js:37-41 | rain and estimate are disabled, and stop is enabled, exactly while running |
| RainPage.RainAccepts | frontend/main.js:59-60 | accepts exactly what `startRain`'s finiteness-and-positivity check lets through: a finite positive count is accepted, a zero or negative one refused, and nothing non-finite accepted; `Page.StartRain`'s reject branch says what a refusal does |
| RainPage.NextDrawn | frontend/main.js:95-101 | one frame plots at most 500 further points, never past the end, and stops short of the end only after plotting a full 500 |
| RainPage.DrawnAfter | frontend/main.js:95-101 | the cursor never passes the number of points |
| RainPage.FramesDrawMinimum | frontend/main.js:95-101 | after k frames without a stop, exactly min(500k, total) points are plotted |
| RainPage.AfterStop | frontend/main.js:133-144 | stopping raises the stop flag, drops controller and frame handle, aborts a live controller, cancels a scheduled frame, and puts the buttons back to idle |
| RainPage.StopIsIdempotent | frontend/main.js:133-144 | stopping a second time changes nothing |
| RainPage.Page.constructor | frontend/main.js:15-17 | the loaded page is blank and idle, with no controller and no frame |
| RainPage.Page.StartRain | frontend/main.js:52-68 | the board is cleared; a count that is not finite and positive is rejected with nothing else changed; otherwise a fresh controller is armed, the stop flag is cleared, the buttons show running, and the fetch is pending |
| RainPage.Page.Catch | frontend/main.js:119-130 | the catch block shows its message, idles the buttons and clears the board, and leaves the frame handle, the session's points and count, and the cancellation flags as they were |
| RainPage.Page.ScheduleFirstFrame | frontend/main.js:86-118 | the session holds the decoded points and their count, and the first frame is scheduled |
| RainPage.Page.FetchSettled | frontend/main.js:70-130 | an aborted fetch ends in "Rain cancelled"; an HTTP error, a network failure or an undecodable body ends in the catch block with that error, leaving the frame handle and the session's points as they were; a decodable body schedules the first frame over exactly the decoded points |
| RainPage.Page.PlotBatch | frontend/main.js:94-101 | the inner loop plots the next points in order, min(500, remaining) of them |
| RainPage.Page.Step | frontend/main.js:87-116 | with the stop flag set nothing is plotted and the rain shows stopped; otherwise one batch is plotted, and then the estimate over the requested n is shown or the next frame is scheduled |
| RainPage.Page.StopRain | frontend/main.js:133-144 | the cancellation state and buttons change exactly as `AfterStop` says, and the text, canvas and session do not change |
| RainPage.EstimateSubmit | frontend/main.js:146-197 | only a non-finite count is refused before the request; an HTTP error, network failure or undecodable body is reported as that error; otherwise the inside count, the requested n and the preview of the decoded body are shown |
| PointProducer.GetPoints | backend/src/lib.rs:30-42 | exactly `n = 0` is refused with 400; any other request, `n` absent included, starts a producer with limit `n` |
| PointProducer.PointBytes | backend/src/lib.rs:17-69 | one point is 8 bytes |
| PointProducer.StreamBytes | backend/src/lib.rs:17-69 | p points are 8p bytes |
| PointProducer.StreamBytesAt | backend/src/lib.rs:66-69 | bytes 8j up to 8j + 8 of the stream are point j, draws 2j and 2j + 1 |
| PointProducer.AllDeliveredWhenReceiverStays | backend/src/lib.rs:53-84 | if the receiver accepts every chunk, the body holds exactly the requested points |
| PointProducer.FlattenExtends | backend/src/lib.rs:72 | sending a chunk that continues the stream keeps the body a prefix of the stream |
| PointProducer.ThousandPointBody | backend/tests/integration.rs:3-7 | `?n=1000` with a receiver that stays gives one chunk and an 8000-byte body |
| PointProducer.ChunkPoints | backend/src/lib.rs:61 | a chunk holds at most 4096 points and never more than remain |
| PointProducer.ChunkStep | backend/src/lib.rs:57-78 | before a send, every earlier chunk was full, the new chunk holds at least one point, and it adds one to the chunk count |
| PointProducer.FinishedAll | backend/src/lib.rs:57-58 | a limit reaching zero means every point was delivered and no send failed |
| PointProducer.StoppedEarly | backend/src/lib.rs:72-73 | a send that fails while points remain means fewer sends succeeded than the request needed |
| PointProducer.ChunkExtends | backend/src/lib.rs:66-69 | appending the next two draws continues the stream by one point |
| PointProducer.FillChunk | backend/src/lib.rs:62-70 | the chunk is the next `chunkPoints` points of the stream, 8 bytes each |
| PointProducer.ChunkShapeSnoc | backend/src/lib.rs:61-72 | appending a chunk of 1 to 4096 points after full chunks keeps the chunk shape |
| PointProducer.ProducingStep | backend/src/lib.rs:56-83 | a successful send keeps the loop invariant: the body is the stream prefix, remaining is limit minus sent, chunks are shaped |
| PointProducer.ProducingStops | backend/src/lib.rs:57-73 | when the loop stops, the points sent are those delivered, and it stopped on a failed send exactly when the limit was not reached |
| PointProducer.ProducePoints | backend/src/lib.rs:53-84 | the body is the first `Delivered(limit, liveSends)` points of the draw stream, in ceil(points / 4096) chunks all full but the last; the loop ends on a failed send exactly when there is no limit or the receiver dropped before the last chunk |
| Protocol.ServerBodyDecodes | backend/src/lib.rs:17 | a server body for n points decodes in the browser exactly when n is even, into n / 2 points; odd n throws at byte 8n |
| Protocol.FloorDivision | frontend/main.js:20 | helper for `ClientPointFromDraws`: a value between 2048a and 2048a + 2048 shifts right by 11 to a |
| Protocol.PointBytesValue | backend/src/lib.rs:67-68 | one server point read as a u64 is draw 2j plus 2^32 times draw 2j + 1 |
| Protocol.RecordIsTwoServerPoints | backend/src/lib.rs:17 | browser record i is server points 2i and 2i + 1 |
| Protocol.ClientPointFromDraws | frontend/main.js:79-80 | browser point i takes x from draws 4i and 4i + 1 and y from draws 4i + 2 and 4i + 3 |
| Protocol.HalfRatio | frontend/main.js:184 | helper for `EstimateOverServerBodyAtMostTwo`: four times a ratio of at most one half is at most 2 |
| Protocol.EstimateOverServerBodyAtMostTwo | frontend/main.js:184 | over a server body for even n the estimate divides at most n / 2 inside points by n, so it never exceeds 2 |

## Left out

- The DOM is not modelled: text formatting (`toPrecision`, `toFixed`), colours and
  canvas pixels. The canvas is the sequence of indices of plotted points, and the
  status is a value.
- Response timing with `performance.now` is left out.
- Floating point is replaced by exact arithmetic. Every normalized coordinate is
  a multiple of 2^-53 below 1. `x * x + y * y <= 1` is modelled as the exact
  integer test `a * a + b * b <= 2^106`. The doubles' rounding of the squares
  and their sum is not modelled.
- `PointDecoder.PiEstimate` and `EstimateSubmit` keep `n` as an exact real.
  `Number(pointInput.value)` parsing is abstracted to a finite number or not.
- The estimate for `n = 0` (a division by zero the browser turns into NaN or
  Infinity) is not computed. Both `RainPage.Page.Step` (its `Done` status) and
  `EstimateSubmit` report the inside count and the requested `n` instead of
  their quotient; `PointDecoder.PiEstimate` is that quotient.
- `fetch`, its query string and `AbortController` are outcomes given as
  parameters: a body, an HTTP status that is not ok, or a network failure.
  Because the real server refuses a non-integer or negative `n` as a bad query,
  those requests are covered by the HTTP-error outcome.
- The rain fetch is unpacked by `fetchPoints` (frontend/main.js:43-50). Only
  its outcome is modelled.
- `RainPage.Page.StartRain` requires that no earlier rain fetch is still
  pending. Starting a new session while an aborted fetch has not settled
  interleaves two promise chains over the shared module state, and that
  interleaving is not modelled.
- `RainPage.EstimateSubmit` is modelled apart from `Page`. At
  frontend/main.js:146-197 it writes the same result, error and preview text
  as the rain session, and it never calls `setRunning`. Rain can therefore
  start while an estimate fetch is in flight, and the estimate then
  overwrites the rain's text. That interleaving is not modelled.
- `RainPage.Page.constructor` gives the stop button as disabled at load. That
  initial state comes from the page's HTML, which is not part of this model;
  frontend/main.js does not set it.
- `requestAnimationFrame` and `cancelAnimationFrame` are modelled as a
  scheduled-frame flag and a handle flag. Frame ids and their truthiness are
  not modelled.
- tokio, the unbounded `mpsc` channel and `spawn_blocking` are not modelled.
  Concurrency between the producer and the response body is reduced to
  `liveSends`.
- `ThreadRng` is the draw sequence `rng`. Whether the draws are random is not
  modelled.
- `PointProducer.ProducePoints` models only a finite `liveSends`. With no
  limit and a receiver that never drops, the real loop runs forever. The model
  covers every finite prefix of that run, not the infinite stream.
- `usize` bounds on `n` and on the chunk capacity are not modelled. Counts are
  unbounded naturals, and `*rem -= chunk_points` never underflows because a
  chunk never exceeds what remains.
- Not part of this model:
  - `build_router`, `ServeDir` and the fallback handler;
  - `main.rs`;
  - `drawBoard` and `plotPoint`, beyond clearing the board and recording
    which points were plotted;
  - query-string deserialization.
