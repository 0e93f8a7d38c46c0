/** Whole runs over one data channel: every non-empty chunk streamed arrives, whatever control messages are
    interleaved, and the sender's buffer stays bounded under any draining. */
module ChannelRuns {
  import opened Wrappers
  import opened Seqs
  import opened Text
  import opened PeerConnection

  // ----- what a receiver makes of a list of frames -----

  ghost function StateAfter(a: Assembly, frames: seq<Frame>): Assembly
    decreases |frames|
  {
    if frames == [] then a else StateAfter(After(a, frames[0]), frames[1..])
  }

  ghost function Deliveries(a: Assembly, frames: seq<Frame>): seq<Chunk>
    decreases |frames|
  {
    if frames == [] then []
    else
      var o := OutcomeOf(a, frames[0]);
      (if o.Delivered? then [o.chunk] else []) + Deliveries(After(a, frames[0]), frames[1..])
  }

  ghost predicate NeverThrows(a: Assembly, frames: seq<Frame>)
    decreases |frames|
  {
    frames == [] || (!OutcomeOf(a, frames[0]).Threw? && NeverThrows(After(a, frames[0]), frames[1..]))
  }

  lemma {:induction false} FeedTwo(a: Assembly, xs: seq<Frame>, ys: seq<Frame>)
    ensures StateAfter(a, xs + ys) == StateAfter(StateAfter(a, xs), ys)
    ensures Deliveries(a, xs + ys) == Deliveries(a, xs) + Deliveries(StateAfter(a, xs), ys)
    ensures NeverThrows(a, xs + ys) <==> NeverThrows(a, xs) && NeverThrows(StateAfter(a, xs), ys)
    decreases |xs|
  {
    if xs == [] {
      assert xs + ys == ys;
    } else {
      assert (xs + ys)[1..] == xs[1..] + ys;
      FeedTwo(After(a, xs[0]), xs[1..], ys);
    }
  }

  ghost function WithoutControl(frames: seq<Frame>): seq<Frame> {
    if frames == [] then []
    else (if frames[0].Control? then [] else [frames[0]]) + WithoutControl(frames[1..])
  }

  lemma {:induction false} ControlIsIgnored(a: Assembly, frames: seq<Frame>)
    ensures StateAfter(a, frames) == StateAfter(a, WithoutControl(frames))
    ensures Deliveries(a, frames) == Deliveries(a, WithoutControl(frames))
    ensures NeverThrows(a, frames) <==> NeverThrows(a, WithoutControl(frames))
    decreases |frames|
  {
    if frames != [] {
      ControlIsIgnored(After(a, frames[0]), frames[1..]);
      if !frames[0].Control? {
        assert WithoutControl(frames)[1..] == WithoutControl(frames[1..]);
      } else {
        assert WithoutControl(frames) == WithoutControl(frames[1..]);
      }
    }
  }

  // ----- one chunk -----

  /** The slices still to come complete the chunk begun by the slices already there. */
  lemma {:induction false} SlicesArrive(meta: Meta, done: seq<seq<Byte>>, rest: seq<Byte>)
    requires rest != [] && meta.totalSize == |Flatten(done)| + |rest|
    ensures var a := Assembly(Some(meta), done, |Flatten(done)|);
      && StateAfter(a, Slices(rest)) == IDLE
      && Deliveries(a, Slices(rest)) == [Chunk(meta.modelId, meta.chunkIndex, Flatten(done) + rest)]
      && NeverThrows(a, Slices(rest))
    decreases |rest|
  {
    var a := Assembly(Some(meta), done, |Flatten(done)|);
    var n := Min(SLICE_SIZE, |rest|);
    var first, more := rest[..n], rest[n..];
    SlicesUnfold(rest);
    assert Slices(rest)[1..] == Slices(more);
    assert Flatten(done) + first + more == Flatten(done) + rest;
    if more == [] {
      assert first == rest;
    } else {
      assert (done + [first])[..|done|] == done;
      assert Flatten(done + [first]) == Flatten(done) + first;
      SlicesArrive(meta, done + [first], more);
    }
  }

  /** One streamed chunk, starting from whatever an earlier transfer left behind. An empty one never arrives. */
  lemma ChunkArrives(a: Assembly, c: Chunk)
    ensures Deliveries(a, FramesOf(c)) == (if c.data == [] then [] else [c])
    ensures c.data != [] ==> StateAfter(a, FramesOf(c)) == IDLE
    ensures NeverThrows(a, FramesOf(c))
  {
    var meta := Meta(c.modelId, c.chunkIndex, |c.data|, PieceCount(|c.data|, SLICE_SIZE));
    assert FramesOf(c)[1..] == Slices(c.data);
    if c.data != [] {
      SlicesArrive(meta, [], c.data);
      assert Flatten([]) + c.data == c.data;
    }
  }

  /** Until the last slice nothing is delivered; the last one delivers. */
  lemma {:induction false} LastSliceCompletes(meta: Meta, done: seq<seq<Byte>>, rest: seq<Byte>)
    requires rest != [] && meta.totalSize == |Flatten(done)| + |rest|
    ensures Slices(rest) != []
    ensures
      var a, n := Assembly(Some(meta), done, |Flatten(done)|), |Slices(rest)| - 1;
      && Slices(rest)[n].Binary? && Deliveries(a, Slices(rest)[..n]) == []
      && OutcomeOf(StateAfter(a, Slices(rest)[..n]), Slices(rest)[n])
        == Delivered(Chunk(meta.modelId, meta.chunkIndex, Flatten(done) + rest))
    decreases |rest|
  {
    var a := Assembly(Some(meta), done, |Flatten(done)|);
    var size := Min(SLICE_SIZE, |rest|);
    var first, more := rest[..size], rest[size..];
    SlicesUnfold(rest);
    assert Flatten(done) + first + more == Flatten(done) + rest;
    if more == [] {
      assert first == rest && Slices(more) == [] && Slices(rest)[..0] == [];
    } else {
      assert (done + [first])[..|done|] == done;
      assert Flatten(done + [first]) == Flatten(done) + first;
      LastSliceCompletes(meta, done + [first], more);
      var n := |Slices(more)| - 1;
      assert Slices(rest)[..n + 1][0] == Binary(first) && Slices(rest)[..n + 1][1..] == Slices(more)[..n];
    }
  }

  lemma ChunkCompletesAtLastFrame(a: Assembly, c: Chunk)
    requires c.data != []
    ensures
      var n := |FramesOf(c)| - 1;
      && Deliveries(a, FramesOf(c)[..n]) == []
      && OutcomeOf(StateAfter(a, FramesOf(c)[..n]), FramesOf(c)[n]) == Delivered(c)
  {
    var meta := Meta(c.modelId, c.chunkIndex, |c.data|, PieceCount(|c.data|, SLICE_SIZE));
    LastSliceCompletes(meta, [], c.data);
    var n := |FramesOf(c)| - 1;
    assert FramesOf(c)[..n][0] == ChunkData(meta) && FramesOf(c)[..n][1..] == Slices(c.data)[..n - 1];
    assert Flatten([]) + c.data == c.data;
  }

  // ----- many chunks -----

  ghost function AllFrames(chunks: seq<Chunk>): seq<Frame> {
    if chunks == [] then [] else FramesOf(chunks[0]) + AllFrames(chunks[1..])
  }

  ghost function NonEmpty(chunks: seq<Chunk>): seq<Chunk> {
    if chunks == [] then [] else (if chunks[0].data == [] then [] else [chunks[0]]) + NonEmpty(chunks[1..])
  }

  lemma {:induction false} ChunksArrive(a: Assembly, chunks: seq<Chunk>)
    ensures Deliveries(a, AllFrames(chunks)) == NonEmpty(chunks)
    ensures NeverThrows(a, AllFrames(chunks))
    ensures chunks != [] && chunks[|chunks| - 1].data != [] ==> StateAfter(a, AllFrames(chunks)) == IDLE
    decreases |chunks|
  {
    if chunks != [] {
      var first, rest := FramesOf(chunks[0]), AllFrames(chunks[1..]);
      ChunkArrives(a, chunks[0]);
      FeedTwo(a, first, rest);
      ChunksArrive(StateAfter(a, first), chunks[1..]);
      assert AllFrames(chunks) == first + rest;
      assert |chunks| > 1 ==> chunks[1..][|chunks| - 2] == chunks[|chunks| - 1];
    }
  }

  /** The round trip. Chunks streamed one after the other, with control messages anywhere between their frames,
      are delivered one by one, in order and byte for byte; exactly the empty ones are lost. */
  lemma StreamedChunksAreDelivered(a: Assembly, chunks: seq<Chunk>, frames: seq<Frame>)
    requires WithoutControl(frames) == AllFrames(chunks)
    ensures Deliveries(a, frames) == NonEmpty(chunks)
    ensures Deliveries(a, frames) == chunks <==> forall c <- chunks :: c.data != []
    ensures NeverThrows(a, frames)
    ensures chunks != [] && chunks[|chunks| - 1].data != [] ==> StateAfter(a, frames) == IDLE
  {
    ControlIsIgnored(a, frames);
    ChunksArrive(a, chunks);
    NonEmptyIsAll(chunks);
  }

  lemma {:induction false} NonEmptyIsAll(chunks: seq<Chunk>)
    ensures |NonEmpty(chunks)| <= |chunks|
    ensures NonEmpty(chunks) == chunks <==> forall c <- chunks :: c.data != []
    decreases |chunks|
  {
    if chunks != [] {
      NonEmptyIsAll(chunks[1..]);
      if chunks[0].data != [] {
        assert NonEmpty(chunks)[1..] == NonEmpty(chunks[1..]);
        assert chunks == [chunks[0]] + chunks[1..];
      }
    }
  }

  // ----- backpressure -----

  datatype Call = Call(chunk: Chunk, metaSize: nat, draining: nat -> Draining)

  ghost function SendsOfCall(c: Call): seq<Send> {
    SendsOf(FramesOf(c.chunk), c.metaSize, c.draining)
  }

  ghost function SendsOfCalls(calls: seq<Call>): seq<Send> {
    if calls == [] then [] else SendsOfCall(calls[0]) + SendsOfCalls(calls[1..])
  }

  /** The most the buffer can hold after these sends: metadata adds its size to whatever is there, a slice waits until at
      most the high watermark is left. How the channel drains plays no part in it. */
  function Worst(buffered: nat, sends: seq<Send>): nat {
    if sends == [] then buffered
    else
      var n := |sends| - 1;
      var before := Worst(buffered, sends[..n]);
      (if sends[n].SendMeta? then before else Min(before, BUFFER_HIGH_WATERMARK)) + sends[n].size
  }

  lemma {:induction false} LevelIsAtMostWorst(buffered: nat, sends: seq<Send>)
    ensures LevelAfter(buffered, sends) <= Worst(buffered, sends)
  {
    if sends != [] {
      LevelIsAtMostWorst(buffered, sends[..|sends| - 1]);
    }
  }

  function Total(sends: seq<Send>): nat {
    if sends == [] then 0 else Total(sends[..|sends| - 1]) + sends[|sends| - 1].size
  }

  /** The channel drains only to let slices pass, and only down to the high watermark. */
  ghost predicate Stalls(sends: seq<Send>, full: nat) {
    forall i | 0 <= i < |sends| ::
      if sends[i].SendMeta? then full <= sends[i].d.drain else sends[i].d.drain == BUFFER_HIGH_WATERMARK
  }

  lemma {:induction false} StallingReachesWorst(buffered: nat, sends: seq<Send>, full: nat)
    requires Stalls(sends, full) && buffered + Total(sends) <= full
    ensures LevelAfter(buffered, sends) == Worst(buffered, sends) <= buffered + Total(sends)
  {
    if sends != [] {
      StallingReachesWorst(buffered, sends[..|sends| - 1], full);
    }
  }

  /** The same frames, the channel draining otherwise. */
  ghost predicate SameFrames(calls: seq<Call>, other: seq<Call>) {
    && |calls| == |other|
    && forall i | 0 <= i < |calls| :: calls[i].chunk == other[i].chunk && calls[i].metaSize == other[i].metaSize
  }

  ghost predicate SameSizes(a: seq<Send>, b: seq<Send>) {
    |a| == |b| && forall i | 0 <= i < |a| :: a[i].SendMeta? == b[i].SendMeta? && a[i].size == b[i].size
  }

  lemma {:induction false} SameSizesSameWorst(buffered: nat, a: seq<Send>, b: seq<Send>)
    requires SameSizes(a, b)
    ensures Worst(buffered, a) == Worst(buffered, b) && Total(a) == Total(b)
    decreases |a|
  {
    if a != [] {
      SameSizesSameWorst(buffered, a[..|a| - 1], b[..|b| - 1]);
    }
  }

  lemma SameSizesJoin(a: seq<Send>, b: seq<Send>, c: seq<Send>, d: seq<Send>)
    requires SameSizes(a, b) && SameSizes(c, d)
    ensures SameSizes(a + c, b + d)
  {
  }

  lemma {:induction false} SameFramesSameSizes(calls: seq<Call>, other: seq<Call>)
    requires SameFrames(calls, other)
    ensures SameSizes(SendsOfCalls(calls), SendsOfCalls(other))
    decreases |calls|
  {
    if calls != [] {
      SameFramesSameSizes(calls[1..], other[1..]);
      SameSizesJoin(SendsOfCall(calls[0]), SendsOfCall(other[0]), SendsOfCalls(calls[1..]), SendsOfCalls(other[1..]));
    }
  }

  function StallAt(k: nat, full: nat): Draining {
    Draining(if k == 0 then full else BUFFER_HIGH_WATERMARK, 0)
  }

  ghost predicate IsStalled(c: Call, full: nat) {
    forall k: nat :: c.draining(k) == StallAt(k, full)
  }

  /** The calls with the same frames over a channel that drains as little as it can. */
  ghost function Stalled(calls: seq<Call>, full: nat): (other: seq<Call>)
    ensures SameFrames(calls, other)
    ensures forall c <- other :: IsStalled(c, full)
  {
    seq(|calls|, i requires 0 <= i < |calls| => calls[i].(draining := (k: nat) => StallAt(k, full)))
  }

  lemma CallIsMetaThenSlices(c: Call)
    ensures var sends := SendsOfCall(c);
      && |sends| >= 1 && sends[0] == SendMeta(c.metaSize, c.draining(0))
      && (forall i | 0 < i < |sends| :: sends[i].SendSlice? && sends[i].size <= SLICE_SIZE && sends[i].d == c.draining(i))
      && (c.chunk.data == [] <==> |sends| == 1)
  {
    SlicesAreBinary(c.chunk.data);
    var sends := SendsOfCall(c);
    assert FramesOf(c.chunk)[0].ChunkData?;
    forall i | 0 < i < |sends| ensures sends[i].SendSlice? && sends[i].size <= SLICE_SIZE && sends[i].d == c.draining(i) {
      var f := FramesOf(c.chunk)[i];
      assert f == Slices(c.chunk.data)[i - 1];
      assert f.Binary? && |f.bytes| <= SLICE_SIZE;
      assert SendsOfCall(c)[i] == SendSlice(|f.bytes|, c.draining(i));
    }
  }

  lemma {:induction false} StalledCallsStall(calls: seq<Call>, full: nat)
    requires forall c <- calls :: IsStalled(c, full)
    ensures Stalls(SendsOfCalls(calls), full)
    decreases |calls|
  {
    if calls != [] {
      StalledCallsStall(calls[1..], full);
      CallIsMetaThenSlices(calls[0]);
      assert calls[0] in calls;
    }
  }

  lemma {:induction false} TotalOfPrefix(sends: seq<Send>, n: nat)
    requires n <= |sends|
    ensures Total(sends[..n]) <= Total(sends)
    decreases |sends|
  {
    if n < |sends| {
      TotalOfPrefix(sends[..|sends| - 1], n);
      assert sends[..|sends| - 1][..n] == sends[..n];
    } else {
      assert sends[..n] == sends;
    }
  }

  /** A bound on the buffer after n sends holds under every draining exactly when the worst case keeps it. */
  lemma BoundHoldsUnderEveryDrainingExactlyWhen(calls: seq<Call>, n: nat, bound: nat)
    requires n <= |SendsOfCalls(calls)|
    ensures (forall other | SameFrames(calls, other) :: LevelAfter(0, UpTo(SendsOfCalls(other), n)) <= bound)
      <==> Worst(0, SendsOfCalls(calls)[..n]) <= bound
  {
    var sends := SendsOfCalls(calls);
    forall other | SameFrames(calls, other)
      ensures LevelAfter(0, UpTo(SendsOfCalls(other), n)) <= Worst(0, sends[..n])
    {
      SameFramesSameSizes(calls, other);
      SameSizesSameWorst(0, sends[..n], SendsOfCalls(other)[..n]);
      LevelIsAtMostWorst(0, SendsOfCalls(other)[..n]);
    }
    WorstIsReached(calls, n);
    var worst := Stalled(calls, Total(sends));
    SameFramesSameSizes(calls, worst);
    assert LevelAfter(0, UpTo(SendsOfCalls(worst), n)) == Worst(0, sends[..n]);
  }

  /** Some draining reaches the worst case, at any point of the run. */
  lemma WorstIsReached(calls: seq<Call>, n: nat)
    requires n <= |SendsOfCalls(calls)|
    ensures
      var sends := SendsOfCalls(calls);
      LevelAfter(0, UpTo(SendsOfCalls(Stalled(calls, Total(sends))), n)) == Worst(0, sends[..n])
  {
    var sends := SendsOfCalls(calls);
    var worst := Stalled(calls, Total(sends));
    SameFramesSameSizes(calls, worst);
    SameSizesSameWorst(0, sends[..n], SendsOfCalls(worst)[..n]);
    TotalOfPrefix(sends, n);
    StalledCallsStall(worst, Total(sends));
    StallingReachesWorst(0, SendsOfCalls(worst)[..n], Total(sends));
  }

  function UpTo(sends: seq<Send>, n: nat): seq<Send> {
    if n <= |sends| then sends[..n] else sends
  }

  /** The metadata sent since the last slice. */
  function MetaSinceSlice(sends: seq<Send>): nat {
    if sends == [] || sends[|sends| - 1].SendSlice? then 0
    else MetaSinceSlice(sends[..|sends| - 1]) + sends[|sends| - 1].size
  }

  ghost predicate SmallSlices(sends: seq<Send>) {
    forall i | 0 <= i < |sends| :: sends[i].SendSlice? ==> sends[i].size <= SLICE_SIZE
  }

  lemma {:induction false} WorstBounded(sends: seq<Send>)
    requires SmallSlices(sends)
    ensures Worst(0, sends) <= BUFFER_HIGH_WATERMARK + SLICE_SIZE + MetaSinceSlice(sends)
  {
    if sends != [] {
      WorstBounded(sends[..|sends| - 1]);
    }
  }

  lemma {:induction false} CallsSendSmallSlices(calls: seq<Call>)
    ensures SmallSlices(SendsOfCalls(calls))
    decreases |calls|
  {
    if calls != [] {
      CallsSendSmallSlices(calls[1..]);
      CallIsMetaThenSlices(calls[0]);
    }
  }

  /** However the channel drains and whatever the chunks, the buffer holds at most 1 MB + 16 KB right after a slice, and at
      any time no more than that and the metadata sent since. */
  lemma BufferStaysBounded(calls: seq<Call>, n: nat)
    requires n <= |SendsOfCalls(calls)|
    ensures var sends := SendsOfCalls(calls)[..n];
      && LevelAfter(0, sends) <= BUFFER_HIGH_WATERMARK + SLICE_SIZE + MetaSinceSlice(sends)
      && (n > 0 && sends[n - 1].SendSlice? ==> LevelAfter(0, sends) <= BUFFER_HIGH_WATERMARK + SLICE_SIZE)
  {
    CallsSendSmallSlices(calls);
    LevelIsAtMostWorst(0, SendsOfCalls(calls)[..n]);
    WorstBounded(SendsOfCalls(calls)[..n]);
  }

  /** A metadata frame is never followed by another, and has at most this many bytes. */
  ghost predicate WellSpaced(sends: seq<Send>, metaMax: nat) {
    && (forall i | 0 <= i < |sends| :: sends[i].SendMeta? ==> sends[i].size <= metaMax)
    && (forall i | 0 < i < |sends| :: sends[i].SendMeta? ==> sends[i - 1].SendSlice?)
  }

  lemma SlicesAreBinary(data: seq<Byte>)
    ensures forall i | 0 <= i < |Slices(data)| :: Slices(data)[i].Binary? && |Slices(data)[i].bytes| <= SLICE_SIZE
  {
    PiecesFlatten(data, SLICE_SIZE);
    forall i | 0 <= i < |Slices(data)| ensures Slices(data)[i].Binary? && |Slices(data)[i].bytes| <= SLICE_SIZE {
      assert Pieces(data, SLICE_SIZE)[i] in Pieces(data, SLICE_SIZE);
    }
  }

  lemma {:induction false} CallsAreWellSpaced(calls: seq<Call>, metaMax: nat)
    requires forall c <- calls :: c.metaSize <= metaMax && c.chunk.data != []
    ensures WellSpaced(SendsOfCalls(calls), metaMax)
    decreases |calls|
  {
    if calls != [] {
      CallIsMetaThenSlices(calls[0]);
      CallsAreWellSpaced(calls[1..], metaMax);
    }
  }

  /** Over non-empty chunks that is one metadata frame at most. */
  lemma OneMetadataFrameAtMost(calls: seq<Call>, metaMax: nat, n: nat)
    requires forall c <- calls :: c.metaSize <= metaMax && c.chunk.data != []
    requires n <= |SendsOfCalls(calls)|
    ensures LevelAfter(0, SendsOfCalls(calls)[..n]) <= BUFFER_HIGH_WATERMARK + SLICE_SIZE + metaMax
  {
    CallsAreWellSpaced(calls, metaMax);
    BufferStaysBounded(calls, n);
    var sends := SendsOfCalls(calls)[..n];
    if n > 1 {
      assert MetaSinceSlice(sends[..n - 1][..n - 2]) >= 0;
    }
    assert MetaSinceSlice(sends) <= metaMax;
  }

  // ----- the bound is tight -----

  function FullSlices(k: nat): seq<Send> {
    seq(k, _ => SendSlice(SLICE_SIZE, Draining(0, 0)))
  }

  function MetaFrames(r: nat, size: nat): seq<Send> {
    seq(r, _ => SendMeta(size, Draining(0, 0)))
  }

  lemma {:induction false} WorstOfFullSlices(buffered: nat, sends: seq<Send>)
    requires buffered <= BUFFER_HIGH_WATERMARK && SameSizes(sends, FullSlices(|sends|)) && sends != []
    ensures Worst(buffered, sends) ==
      Min(buffered + (|sends| - 1) * SLICE_SIZE, BUFFER_HIGH_WATERMARK) + SLICE_SIZE
    decreases |sends|
  {
    var n := |sends| - 1;
    if n == 0 {
      assert Worst(buffered, sends[..0]) == buffered;
    } else {
      WorstOfFullSlices(buffered, sends[..n]);
    }
  }

  lemma {:induction false} WorstJoins(buffered: nat, xs: seq<Send>, ys: seq<Send>)
    ensures Worst(buffered, xs + ys) == Worst(Worst(buffered, xs), ys)
    decreases |ys|
  {
    if ys == [] {
      assert xs + ys == xs;
    } else {
      assert (xs + ys)[..|xs| + |ys| - 1] == xs + ys[..|ys| - 1];
      WorstJoins(buffered, xs, ys[..|ys| - 1]);
    }
  }

  lemma {:induction false} WorstOfMetaFrames(buffered: nat, sends: seq<Send>, size: nat)
    requires SameSizes(sends, MetaFrames(|sends|, size))
    ensures Worst(buffered, sends) == buffered + |sends| * size
    decreases |sends|
  {
    if sends != [] {
      WorstOfMetaFrames(buffered, sends[..|sends| - 1], size);
    }
  }

  lemma {:induction false} PiecesOfMultiple(data: seq<Byte>, k: nat)
    requires |data| == k * SLICE_SIZE
    ensures |Pieces(data, SLICE_SIZE)| == k
    ensures forall i | 0 <= i < k :: |Pieces(data, SLICE_SIZE)[i]| == SLICE_SIZE
    decreases k
  {
    if k > 0 {
      PiecesOfMultiple(data[SLICE_SIZE..], k - 1);
    }
  }

  /** Sixty-five full slices of one chunk. */
  function FullCall(metaSize: nat): Call {
    Call(Chunk("m", 0, seq(65 * SLICE_SIZE, _ => 0)), metaSize, _ => Draining(0, 0))
  }

  function EmptyCalls(r: nat, metaSize: nat): seq<Call> {
    seq(r, _ => Call(Chunk("m", 1, []), metaSize, _ => Draining(0, 0)))
  }

  lemma FullCallFills(metaSize: nat)
    requires metaSize <= BUFFER_HIGH_WATERMARK
    ensures Worst(0, SendsOfCall(FullCall(metaSize))) == BUFFER_HIGH_WATERMARK + SLICE_SIZE
  {
    var c := FullCall(metaSize);
    var sends := SendsOfCall(c);
    PiecesOfMultiple(c.chunk.data, 65);
    CallIsMetaThenSlices(c);
    assert |sends| == 66;
    forall i | 0 < i < 66 ensures sends[i].SendSlice? && sends[i].size == SLICE_SIZE {
      assert FramesOf(c.chunk)[i] == Binary(Pieces(c.chunk.data, SLICE_SIZE)[i - 1]);
    }
    WorstJoins(0, sends[..1], sends[1..]);
    assert sends == sends[..1] + sends[1..];
    assert Worst(0, sends[..1]) == metaSize;
    WorstOfFullSlices(metaSize, sends[1..]);
  }

  lemma {:induction false} EmptyCallsSendMeta(r: nat, metaSize: nat)
    ensures SameSizes(SendsOfCalls(EmptyCalls(r, metaSize)), MetaFrames(r, metaSize))
  {
    if r > 0 {
      var calls := EmptyCalls(r, metaSize);
      assert calls[1..] == EmptyCalls(r - 1, metaSize);
      EmptyCallsSendMeta(r - 1, metaSize);
      CallIsMetaThenSlices(calls[0]);
    }
  }

  /** The bound with r metadata frames is reached: by a chunk of 65 full slices and r empty ones after it, which are sent
      without looking at the buffer. */
  lemma EmptyChunksPileUp(r: nat, metaSize: nat)
    requires metaSize <= BUFFER_HIGH_WATERMARK
    ensures
      var calls := [FullCall(metaSize)] + EmptyCalls(r, metaSize);
      var sends := SendsOfCalls(calls);
      LevelAfter(0, SendsOfCalls(Stalled(calls, Total(sends)))) == BUFFER_HIGH_WATERMARK + SLICE_SIZE + r * metaSize
  {
    var calls := [FullCall(metaSize)] + EmptyCalls(r, metaSize);
    var first, rest := SendsOfCall(FullCall(metaSize)), SendsOfCalls(EmptyCalls(r, metaSize));
    var sends := SendsOfCalls(calls);
    assert calls[1..] == EmptyCalls(r, metaSize) && sends == first + rest;
    FullCallFills(metaSize);
    EmptyCallsSendMeta(r, metaSize);
    WorstJoins(0, first, rest);
    WorstOfMetaFrames(BUFFER_HIGH_WATERMARK + SLICE_SIZE, rest, metaSize);
    WorstIsReached(calls, |sends|);
    SameFramesSameSizes(calls, Stalled(calls, Total(sends)));
    assert sends[..|sends|] == sends;
    var worst := SendsOfCalls(Stalled(calls, Total(sends)));
    assert worst[..|sends|] == worst;
  }
}
