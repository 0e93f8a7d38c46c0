/** The data channel between two browsers: a chunk goes out as one metadata frame and 16 KB slices under
    backpressure, and comes together again at the other end whatever else the channel carries. */
module PeerConnection {
  import opened Wrappers
  import opened Seqs
  import opened Text

  const SLICE_SIZE := 16 * 1024
  const BUFFER_HIGH_WATERMARK := 1024 * 1024
  const BUFFER_LOW_WATERMARK := 256 * 1024

  datatype Meta = Meta(modelId: string, chunkIndex: int, totalSize: int, totalSlices: int)

  /** A message on the channel. Control stands for every text that is not chunk metadata, readable or not. */
  datatype Frame = Control(text: string) | ChunkData(meta: Meta) | Binary(bytes: seq<Byte>)

  datatype Chunk = Chunk(modelId: string, chunkIndex: int, data: seq<Byte>)

  // ----- receiving -----

  datatype Assembly = Assembly(meta: Option<Meta>, slices: seq<seq<Byte>>, received: nat)

  const IDLE := Assembly(None, [], 0)

  /** A frame completes a chunk, or nothing, or makes the handler throw. */
  datatype Outcome = Nothing | Delivered(chunk: Chunk) | Threw

  ghost predicate Counted(a: Assembly) {
    a.received == |Flatten(a.slices)|
  }

  ghost function AfterBinary(a: Assembly, bytes: seq<Byte>): Assembly {
    if a.meta.None? then a
    else if a.received + |bytes| == a.meta.value.totalSize then IDLE
    else Assembly(a.meta, a.slices + [bytes], a.received + |bytes|)
  }

  ghost function OutcomeOfBinary(a: Assembly, bytes: seq<Byte>): Outcome {
    if a.meta.None? || a.received + |bytes| < a.meta.value.totalSize then Nothing
    else if a.received + |bytes| > a.meta.value.totalSize then Threw
    else Delivered(Chunk(a.meta.value.modelId, a.meta.value.chunkIndex, Flatten(a.slices) + bytes))
  }

  ghost function After(a: Assembly, f: Frame): Assembly {
    match f
    case Control(_) => a
    case ChunkData(meta) => Assembly(Some(meta), [], 0)
    case Binary(bytes) => AfterBinary(a, bytes)
  }

  ghost function OutcomeOf(a: Assembly, f: Frame): Outcome {
    if f.Binary? then OutcomeOfBinary(a, f.bytes) else Nothing
  }

  /** A chunk is delivered exactly by the slice with which the bytes received are as many as were announced, and it has them. */
  lemma DeliveredExactlyWhenComplete(a: Assembly, f: Frame)
    requires Counted(a)
    ensures OutcomeOf(a, f).Delivered? <==> f.Binary? && a.meta.Some? && |Flatten(a.slices)| + |f.bytes| == a.meta.value.totalSize
    ensures OutcomeOf(a, f).Delivered? ==>
      OutcomeOf(a, f).chunk == Chunk(a.meta.value.modelId, a.meta.value.chunkIndex, Flatten(a.slices) + f.bytes)
    ensures OutcomeOf(a, f).Threw? <==> f.Binary? && a.meta.Some? && |Flatten(a.slices)| + |f.bytes| > a.meta.value.totalSize
  {
  }

  class Receiver {
    var activeChunkMeta: Option<Meta>
    var incomingSlices: seq<seq<Byte>>
    var incomingBytesReceived: nat

    ghost function State(): Assembly
      reads this
    {
      Assembly(activeChunkMeta, incomingSlices, incomingBytesReceived)
    }

    constructor ()
      ensures State() == IDLE && Counted(State())
    {
      activeChunkMeta, incomingSlices, incomingBytesReceived := None, [], 0;
    }

    method OnMessage(f: Frame) returns (outcome: Outcome)
      requires Counted(State())
      modifies this
      ensures State() == After(old(State()), f) && Counted(State())
      ensures outcome == OutcomeOf(old(State()), f)
    {
      outcome := Nothing;
      match f {
        case Control(_) =>
        case ChunkData(meta) =>
          activeChunkMeta, incomingSlices, incomingBytesReceived := Some(meta), [], 0;
        case Binary(bytes) =>
          outcome := HandleBinaryData(bytes);
      }
    }

    method HandleBinaryData(bytes: seq<Byte>) returns (outcome: Outcome)
      requires Counted(State())
      modifies this
      ensures State() == AfterBinary(old(State()), bytes) && Counted(State())
      ensures outcome == OutcomeOfBinary(old(State()), bytes)
    {
      if activeChunkMeta.None? {
        return Nothing;
      }
      var meta := activeChunkMeta.value;
      incomingSlices := incomingSlices + [bytes];
      incomingBytesReceived := incomingBytesReceived + |bytes|;
      assert incomingSlices[..|incomingSlices| - 1] == old(incomingSlices);
      if incomingBytesReceived < meta.totalSize {
        return Nothing;
      }
      if meta.totalSize < 0 {
        return Threw; // no buffer of negative length
      }
      var data := CopyInto(meta.totalSize, incomingSlices);
      if data.None? {
        return Threw;
      }
      activeChunkMeta, incomingSlices, incomingBytesReceived := None, [], 0;
      return Delivered(Chunk(meta.modelId, meta.chunkIndex, data.value));
    }
  }

  lemma {:induction false} FlattenGrows(slices: seq<seq<Byte>>, i: nat)
    requires i <= |slices|
    ensures |Flatten(slices[..i])| <= |Flatten(slices)|
    decreases |slices| - i
  {
    if i < |slices| {
      assert slices[..i + 1][..i] == slices[..i];
      FlattenGrows(slices, i + 1);
    } else {
      assert slices[..i] == slices;
    }
  }

  /** Copies the slices one after the other into a buffer of the given size; a slice that does not fit is a
      range error, a buffer left partly unfilled keeps its zeros. */
  method CopyInto(size: nat, slices: seq<seq<Byte>>) returns (data: Option<seq<Byte>>)
    requires size <= |Flatten(slices)|
    ensures data == if |Flatten(slices)| == size then Some(Flatten(slices)) else None
  {
    var buffer := new Byte[size](_ => 0);
    var offset := 0;
    for i := 0 to |slices|
      invariant offset == |Flatten(slices[..i])| <= size
      invariant buffer[..offset] == Flatten(slices[..i])
    {
      var s := slices[i];
      assert slices[..i + 1][..i] == slices[..i];
      FlattenGrows(slices, i + 1);
      if offset + |s| > size {
        return None;
      }
      forall k | 0 <= k < |s| {
        buffer[offset + k] := s[k];
      }
      assert buffer[..offset + |s|] == buffer[..offset] + s;
      offset := offset + |s|;
    }
    assert slices[..|slices|] == slices && buffer[..offset] == buffer[..];
    return Some(buffer[..]);
  }

  // ----- sending -----

  ghost function Binaries(pieces: seq<seq<Byte>>): seq<Frame> {
    seq(|pieces|, i requires 0 <= i < |pieces| => Binary(pieces[i]))
  }

  /** The data cut every 16 KB. */
  ghost function Slices(data: seq<Byte>): seq<Frame> {
    Binaries(Pieces(data, SLICE_SIZE))
  }

  lemma SlicesUnfold(data: seq<Byte>)
    requires data != []
    ensures var n := Min(SLICE_SIZE, |data|);
      Slices(data) == [Binary(data[..n])] + Slices(data[n..])
  {
  }

  ghost function FramesOf(c: Chunk): seq<Frame> {
    [ChunkData(Meta(c.modelId, c.chunkIndex, |c.data|, PieceCount(|c.data|, SLICE_SIZE)))] + Slices(c.data)
  }

  /** The announced slice count is the number of slices sent. */
  lemma SlicesCounted(c: Chunk)
    ensures |FramesOf(c)| == 1 + PieceCount(|c.data|, SLICE_SIZE)
    ensures FramesOf(c)[0].meta.totalSlices == |FramesOf(c)[1..]|
  {
    PiecesCounted(c.data, SLICE_SIZE);
  }

  /** What the channel does before a send: it drains to at most `drain`, and once more, to at most `relief`
      and the low watermark, when the sender waits for it. Any draining is some choice of the two. */
  datatype Draining = Draining(drain: nat, relief: nat)

  function Drained(buffered: nat, d: Draining): nat {
    Min(buffered, d.drain)
  }

  function WhenSlicing(buffered: nat, d: Draining): nat {
    var level := Drained(buffered, d);
    if level > BUFFER_HIGH_WATERMARK then Min(level, Min(BUFFER_LOW_WATERMARK, d.relief)) else level
  }

  datatype Send = SendMeta(size: nat, d: Draining) | SendSlice(size: nat, d: Draining)

  function Level(buffered: nat, s: Send): nat {
    (if s.SendMeta? then Drained(buffered, s.d) else WhenSlicing(buffered, s.d)) + s.size
  }

  function LevelAfter(buffered: nat, sends: seq<Send>): nat {
    if sends == [] then buffered else Level(LevelAfter(buffered, sends[..|sends| - 1]), sends[|sends| - 1])
  }

  function FrameSize(f: Frame, metaSize: nat): nat {
    if f.Binary? then |f.bytes| else metaSize
  }

  /** The sends of a list of frames, the k-th one meeting the k-th draining. */
  ghost function SendsOf(frames: seq<Frame>, metaSize: nat, draining: nat -> Draining): seq<Send> {
    seq(|frames|, k requires 0 <= k < |frames| =>
      if frames[k].Binary? then SendSlice(FrameSize(frames[k], metaSize), draining(k))
      else SendMeta(FrameSize(frames[k], metaSize), draining(k)))
  }

  class DataChannel {
    var sent: seq<Frame>
    var buffered: nat

    /** Streams a chunk over a channel that closes after `lifetime` sends: all its frames, or as many as that. */
    method StreamChunk(c: Chunk, metaSize: nat, draining: nat -> Draining, lifetime: nat) returns (ok: bool)
      modifies this
      ensures ok <==> |FramesOf(c)| <= lifetime
      ensures var out := FramesOf(c)[..Min(lifetime, |FramesOf(c)|)];
        && sent == old(sent) + out
        && buffered == LevelAfter(old(buffered), SendsOf(out, metaSize, draining))
    {
      ghost var frames := FramesOf(c);
      if lifetime == 0 {
        return false;
      }
      SendsStep(frames, 0, metaSize, draining, buffered);
      assert frames[..0] == [] && frames[..1] == [frames[0]] && frames[1..] == Slices(c.data);
      SendFrame(ChunkData(Meta(c.modelId, c.chunkIndex, |c.data|, PieceCount(|c.data|, SLICE_SIZE))), Drained(buffered, draining(0)) + metaSize);
      ok := StreamSlices(frames, c.data, metaSize, draining, lifetime, old(sent), old(buffered));
    }

    /** The slice loop, once the metadata frame is out. */
    method StreamSlices(ghost frames: seq<Frame>, data: seq<Byte>, metaSize: nat, draining: nat -> Draining, lifetime: nat,
                        ghost sent0: seq<Frame>, ghost buffered0: nat)
      returns (ok: bool)
      requires 1 <= lifetime && 1 <= |frames| && frames[1..] == Slices(data)
      requires sent == sent0 + frames[..1]
      requires buffered == LevelAfter(buffered0, SendsOf(frames[..1], metaSize, draining))
      modifies this
      ensures ok <==> |frames| <= lifetime
      ensures sent == sent0 + frames[..Min(lifetime, |frames|)]
      ensures buffered == LevelAfter(buffered0, SendsOf(frames[..Min(lifetime, |frames|)], metaSize, draining))
    {
      var k := 1;
      var offset := 0;
      assert data[0..] == data;
      while offset < |data|
        invariant 1 <= k <= lifetime && offset <= |data|
        invariant k <= |frames| && frames[k..] == Slices(data[offset..])
        invariant sent == sent0 + frames[..k]
        invariant buffered == LevelAfter(buffered0, SendsOf(frames[..k], metaSize, draining))
      {
        NextSlice(frames, data, k, offset);
        if k == lifetime {
          return false;
        }
        var next := Min(SLICE_SIZE, |data| - offset);
        SendsStep(frames, k, metaSize, draining, buffered0);
        SendFrame(Binary(data[offset..offset + next]), WhenSlicing(buffered, draining(k)) + next);
        offset, k := offset + next, k + 1;
      }
      return true;
    }

    method SendFrame(f: Frame, level: nat)
      modifies this
      ensures sent == old(sent) + [f] && buffered == level
    {
      sent := sent + [f];
      buffered := level;
    }
  }

  lemma NextSlice(frames: seq<Frame>, data: seq<Byte>, k: nat, offset: nat)
    requires k <= |frames| && offset < |data| && frames[k..] == Slices(data[offset..])
    ensures var next := Min(SLICE_SIZE, |data| - offset);
      && k < |frames| && frames[k] == Binary(data[offset..offset + next])
      && frames[k + 1..] == Slices(data[offset + next..])
      && frames[..k + 1] == frames[..k] + [frames[k]]
  {
    var next := Min(SLICE_SIZE, |data| - offset);
    SlicesUnfold(data[offset..]);
    assert data[offset..][..next] == data[offset..offset + next] && data[offset..][next..] == data[offset + next..];
    assert frames[k] == frames[k..][0] && frames[k + 1..] == frames[k..][1..];
  }

  lemma SendsStep(frames: seq<Frame>, k: nat, metaSize: nat, draining: nat -> Draining, buffered: nat)
    requires k < |frames|
    ensures LevelAfter(buffered, SendsOf(frames[..k + 1], metaSize, draining))
         == Level(LevelAfter(buffered, SendsOf(frames[..k], metaSize, draining)),
                  if frames[k].Binary? then SendSlice(|frames[k].bytes|, draining(k)) else SendMeta(metaSize, draining(k)))
  {
    var sends := SendsOf(frames[..k + 1], metaSize, draining);
    assert sends[..k] == SendsOf(frames[..k], metaSize, draining);
  }
}
