/** The chunk pipeline end to end: what a creator cuts, hashes and stores is what every downloader that
    completes puts together again, and what an honest seeder streams is accepted. */
module Pipeline {
  import opened Wrappers
  import opened Seqs
  import opened Text
  import opened Chunker
  import opened ChunkStore
  import opened Downloader
  import opened PeerConnection
  import opened ChannelRuns

  ghost function ManifestOf(file: seq<Byte>, chunkSize: nat, sha: Digest): seq<ChunkInfo>
    requires 0 < chunkSize
  {
    var pieces := Pieces(file, chunkSize);
    seq(|pieces|, i requires 0 <= i < |pieces| => ChunkInfo(HashOf(sha, pieces[i]), |pieces[i]|))
  }

  lemma HashIsLower(sha: Digest, data: seq<Byte>)
    ensures ToLower(HashOf(sha, data)) == HashOf(sha, data)
  {
    LowerHexIsLower(Hex(sha(data)));
    var h := HashOf(sha, data);
    forall i | 0 <= i < |h| ensures ToLower(h)[i] == h[i] {
      if i >= 2 {
        assert h[i] == Hex(sha(data))[i - 2] == ToLower(Hex(sha(data)))[i - 2];
      }
    }
  }

  /** Against the manifest of a file, a chunk passes the check exactly when it is the file's own. */
  lemma VerifiedChunkIsOriginal(file: seq<Byte>, chunkSize: nat, sha: Digest, index: nat, data: seq<Byte>)
    requires 0 < chunkSize && CollisionFree(sha) && index < |Pieces(file, chunkSize)|
    ensures Verified(sha, ManifestOf(file, chunkSize, sha), index, data) <==> data == Pieces(file, chunkSize)[index]
  {
    var piece := Pieces(file, chunkSize)[index];
    HashIsLower(sha, data);
    HashIsLower(sha, piece);
    if HashOf(sha, data) == HashOf(sha, piece) {
      assert Hex(sha(data)) == HashOf(sha, data)[2..] && Hex(sha(piece)) == HashOf(sha, piece)[2..];
      HexInjective(sha(data), sha(piece));
    }
  }

  /** A download that completes returns exactly the file, whatever happened on the way. */
  lemma CompletedDownloadIsTheFile(file: seq<Byte>, chunkSize: nat, sha: Digest, blob: seq<Byte>)
    requires 0 < chunkSize && CollisionFree(sha)
    ensures VerifiedFile(sha, ManifestOf(file, chunkSize, sha), blob) <==> blob == file
  {
    var manifest, pieces := ManifestOf(file, chunkSize, sha), Pieces(file, chunkSize);
    PiecesFlatten(file, chunkSize);
    forall i | 0 <= i < |pieces| ensures Verified(sha, manifest, i, pieces[i]) {
      VerifiedChunkIsOriginal(file, chunkSize, sha, i, pieces[i]);
    }
    if VerifiedFile(sha, manifest, blob) {
      var parts: seq<seq<Byte>> :| |parts| == |manifest| && blob == Flatten(parts)
        && forall i | 0 <= i < |parts| :: Verified(sha, manifest, i, parts[i]);
      forall i | 0 <= i < |parts| ensures parts[i] == pieces[i] {
        VerifiedChunkIsOriginal(file, chunkSize, sha, i, parts[i]);
      }
      assert parts == pieces;
    }
  }

  /** The creator's side: every chunk of the file is stored under the creator's wallet and listed with its hash, unless
      the hashing is cancelled before some chunk; the chunks until then stay stored. */
  method HashAndStore(
      file: seq<Byte>, chunkSize: nat, sha: Digest, modelId: string, wallet: string, store: ChunkStore, cancelled: nat -> bool)
    returns (manifest: Option<seq<ChunkInfo>>, processed: nat)
    requires 0 < chunkSize && ':' !in modelId && ':' !in wallet && CollisionFree(sha)
    requires GoodStore(sha, ManifestOf(file, chunkSize, sha), modelId, store.records)
    modifies store
    ensures GoodStore(sha, ManifestOf(file, chunkSize, sha), modelId, store.records)
    ensures AllAvailable(store.records, modelId, processed)
    ensures
      var full := ManifestOf(file, chunkSize, sha);
      && processed <= |full| && (forall i: nat | i < processed :: !cancelled(i))
      && (if manifest.Some? then manifest.value == full && processed == |full| else processed < |full| && cancelled(processed))
  {
    var chunks := ChunkFile(file, chunkSize, sha);
    LowerKeepsColons(wallet);
    forall i | 0 <= i < |chunks| ensures chunks[i].data == Pieces(file, chunkSize)[i] {
      assert chunks[i].data == DataOf(chunks)[i];
    }
    manifest, processed := StoreAll(file, chunkSize, sha, chunks, modelId, wallet, store, cancelled);
  }

  /** These are the chunks of the file, in order and with their hashes. */
  ghost predicate ChunksOf(chunks: seq<ChunkResult>, pieces: seq<seq<Byte>>, sha: Digest) {
    && |chunks| == |pieces|
    && forall i | 0 <= i < |chunks| ::
         chunks[i].index == i && chunks[i].data == pieces[i] && chunks[i].hash == HashOf(sha, pieces[i])
  }

  method StoreAll(
      ghost file: seq<Byte>, ghost chunkSize: nat, ghost sha: Digest, chunks: seq<ChunkResult>, modelId: string, wallet: string,
      store: ChunkStore, cancelled: nat -> bool)
    returns (manifest: Option<seq<ChunkInfo>>, processed: nat)
    requires 0 < chunkSize && ':' !in modelId && ':' !in WalletKey(wallet) && CollisionFree(sha)
    requires ChunksOf(chunks, Pieces(file, chunkSize), sha)
    requires GoodStore(sha, ManifestOf(file, chunkSize, sha), modelId, store.records)
    modifies store
    ensures GoodStore(sha, ManifestOf(file, chunkSize, sha), modelId, store.records)
    ensures AllAvailable(store.records, modelId, processed)
    ensures
      var full := ManifestOf(file, chunkSize, sha);
      && processed <= |full| && (forall i: nat | i < processed :: !cancelled(i))
      && (if manifest.Some? then manifest.value == full && processed == |full| else processed < |full| && cancelled(processed))
  {
    ghost var full := ManifestOf(file, chunkSize, sha);
    var pieces := [];
    processed := 0;
    while processed < |chunks|
      invariant processed <= |chunks| && pieces == full[..processed]
      invariant GoodStore(sha, full, modelId, store.records)
      invariant AllAvailable(store.records, modelId, processed)
      invariant forall j: nat | j < processed :: !cancelled(j)
    {
      if cancelled(processed) {
        return None, processed;
      }
      var info := StoreAndList(file, chunkSize, sha, modelId, wallet, store, chunks[processed]);
      pieces := pieces + [info];
      TakeOneMore(full, processed);
      processed := processed + 1;
    }
    assert full[..|chunks|] == full;
    return Some(pieces), processed;
  }

  method StoreAndList(
      ghost file: seq<Byte>, ghost chunkSize: nat, ghost sha: Digest, modelId: string, wallet: string, store: ChunkStore, chunk: ChunkResult)
    returns (info: ChunkInfo)
    requires 0 < chunkSize && ':' !in modelId && ':' !in WalletKey(wallet) && CollisionFree(sha)
    requires chunk.index < |Pieces(file, chunkSize)| && chunk.data == Pieces(file, chunkSize)[chunk.index]
    requires chunk.hash == HashOf(sha, chunk.data)
    requires GoodStore(sha, ManifestOf(file, chunkSize, sha), modelId, store.records)
    requires AllAvailable(store.records, modelId, chunk.index)
    modifies store
    ensures GoodStore(sha, ManifestOf(file, chunkSize, sha), modelId, store.records)
    ensures AllAvailable(store.records, modelId, chunk.index + 1)
    ensures info == ManifestOf(file, chunkSize, sha)[chunk.index]
  {
    StoringOwnPiece(file, chunkSize, sha, modelId, store.records, WalletKey(wallet), chunk.index);
    store.StoreChunk(modelId, chunk.index, chunk.data, wallet);
    return ChunkInfo(chunk.hash, |chunk.data|);
  }

  lemma StoringOwnPiece(file: seq<Byte>, chunkSize: nat, sha: Digest, modelId: string, rs: Records, walletKey: string, i: nat)
    requires 0 < chunkSize && CollisionFree(sha) && ':' !in modelId && ':' !in walletKey
    requires i < |Pieces(file, chunkSize)|
    requires GoodStore(sha, ManifestOf(file, chunkSize, sha), modelId, rs) && AllAvailable(rs, modelId, i)
    ensures var c := StoredChunk(modelId, walletKey, i, Pieces(file, chunkSize)[i]);
      && GoodStore(sha, ManifestOf(file, chunkSize, sha), modelId, rs[KeyOf(c) := c])
      && AllAvailable(rs[KeyOf(c) := c], modelId, i + 1)
  {
    VerifiedChunkIsOriginal(file, chunkSize, sha, i, Pieces(file, chunkSize)[i]);
    PutKeepsGood(sha, ManifestOf(file, chunkSize, sha), modelId, rs, StoredChunk(modelId, walletKey, i, Pieces(file, chunkSize)[i]));
  }

  /** A download against the manifest of a file that completes returns exactly the file, whatever peers sent, however often
      it was resumed. */
  method DownloadFile(
      ghost file: seq<Byte>, ghost chunkSize: nat, d: Downloader, seeders: seq<SeederRecord>, net: Network, closing: seq<NetEvent>)
    returns (r: Stop)
    requires 0 < chunkSize && CollisionFree(d.sha) && d.manifest == ManifestOf(file, chunkSize, d.sha)
    requires d.Good() && d.SoundNet(net) && d.Sound(closing)
    modifies d, d.store
    ensures d.Good()
    ensures r.Completed? ==> r.blob == file
    ensures !old(d.isRunning) && seeders != [] && d.Undeleting(net) && NoDeletes(closing) && d.Uncancelling(net) ==>
      d.SwarmDelivers(HeldBy(old(d.store.records), d.modelId, WalletKey(d.walletAddress)), seeders, net) ==> r == Completed(file)
  {
    r := d.Start(seeders, net, closing);
    if r.Completed? {
      CompletedDownloadIsTheFile(file, chunkSize, d.sha, r.blob);
    }
  }

  // ----- what a downloader sees of a channel -----

  /** What a text on the channel says to a waiting downloader; unreadable texts say nothing. */
  datatype Message = ErrorMessage | PaymentRequired(chunkIndex: int) | OtherMessage

  type Reading = string -> Message

  /** While a chunk is awaited frames come in, what arrived is hashed and stored, payments that were asked for go through
      or not, and time may run out. */
  datatype Happening = Received(frame: Frame) | Handled(data: seq<Byte>) | PaymentDone(ok: bool) | TimeRanOut

  /** How many payments for the chunk are under way. */
  function UnderWay(meaning: Reading, index: nat, paying: nat, h: Happening): nat {
    match h
    case Received(Control(text)) => if meaning(text) == PaymentRequired(index) then paying + 1 else paying
    case PaymentDone(_) => if paying > 0 then paying - 1 else 0
    case _ => paying
  }

  /** The happening ends the wait without the chunk: an error text, a payment that failed, or the timeout. */
  predicate Disturbs(meaning: Reading, paying: nat, h: Happening) {
    match h
    case Received(Control(text)) => meaning(text) == ErrorMessage
    case PaymentDone(ok) => !ok && paying > 0
    case TimeRanOut => true
    case _ => false
  }

  ghost function EventsAt(meaning: Reading, paying: nat, a: Assembly, h: Happening): seq<NetEvent> {
    match h
    case Received(f) =>
      if Disturbs(meaning, paying, h) then [PeerError]
      else if OutcomeOf(a, f).Delivered? && OutcomeOf(a, f).chunk.chunkIndex >= 0
      then [ChunkArrived(OutcomeOf(a, f).chunk.modelId, OutcomeOf(a, f).chunk.chunkIndex, OutcomeOf(a, f).chunk.data)]
      else []
    case Handled(data) => [ArrivalHandled(data)]
    case PaymentDone(_) => if Disturbs(meaning, paying, h) then [PaymentFailed] else []
    case TimeRanOut => [TimedOut]
  }

  ghost function AssemblyAfter(a: Assembly, h: Happening): Assembly {
    if h.Received? then PeerConnection.After(a, h.frame) else a
  }

  /** What the happenings are to the download loop, in their order. */
  ghost function EventsOf(meaning: Reading, index: nat, paying: nat, a: Assembly, hs: seq<Happening>): seq<NetEvent>
    decreases |hs|
  {
    if hs == [] then []
    else
      EventsAt(meaning, paying, a, hs[0]) +
      EventsOf(meaning, index, UnderWay(meaning, index, paying, hs[0]), AssemblyAfter(a, hs[0]), hs[1..])
  }

  function FramesIn(hs: seq<Happening>): seq<Frame> {
    if hs == [] then []
    else (if hs[0].Received? then [hs[0].frame] else []) + FramesIn(hs[1..])
  }

  predicate Undisturbed(meaning: Reading, index: nat, paying: nat, hs: seq<Happening>)
    decreases |hs|
  {
    hs != [] ==>
      !Disturbs(meaning, paying, hs[0]) && Undisturbed(meaning, index, UnderWay(meaning, index, paying, hs[0]), hs[1..])
  }

  predicate NothingHandled(hs: seq<Happening>) {
    forall h <- hs :: !h.Handled?
  }

  predicate NoneBreaksOff(events: seq<NetEvent>) {
    forall e <- events :: !BreaksOff(e)
  }

  /** The events that break off a wait come exactly from what disturbs it, and an arrival is handled only where one is. */
  lemma {:induction false} BrokenOffExactlyWhenDisturbed(meaning: Reading, index: nat, paying: nat, a: Assembly, hs: seq<Happening>)
    requires NothingHandled(hs)
    ensures NoneBreaksOff(EventsOf(meaning, index, paying, a, hs)) <==> Undisturbed(meaning, index, paying, hs)
    ensures forall e <- EventsOf(meaning, index, paying, a, hs) :: !e.ArrivalHandled?
    decreases |hs|
  {
    if hs != [] {
      var first := EventsAt(meaning, paying, a, hs[0]);
      var more := EventsOf(meaning, index, UnderWay(meaning, index, paying, hs[0]), AssemblyAfter(a, hs[0]), hs[1..]);
      assert hs[0] in hs;
      BrokenOffExactlyWhenDisturbed(meaning, index, UnderWay(meaning, index, paying, hs[0]), AssemblyAfter(a, hs[0]), hs[1..]);
      NoneInBoth(first, more);
      if first != [] {
        assert first == [first[0]] && first[0] in first;
      }
    }
  }

  lemma NoneInBoth(xs: seq<NetEvent>, ys: seq<NetEvent>)
    ensures NoneBreaksOff(xs + ys) <==> NoneBreaksOff(xs) && NoneBreaksOff(ys)
  {
    assert forall e <- xs :: e in xs + ys;
    assert forall e <- ys :: e in xs + ys;
  }

  /** The state in which a list of happenings leaves the wait. */
  ghost function PayingAfter(meaning: Reading, index: nat, paying: nat, hs: seq<Happening>): nat
    decreases |hs|
  {
    if hs == [] then paying else PayingAfter(meaning, index, UnderWay(meaning, index, paying, hs[0]), hs[1..])
  }

  lemma {:induction false} EventsJoin(meaning: Reading, index: nat, paying: nat, a: Assembly, xs: seq<Happening>, ys: seq<Happening>)
    ensures EventsOf(meaning, index, paying, a, xs + ys) == EventsOf(meaning, index, paying, a, xs) +
      EventsOf(meaning, index, PayingAfter(meaning, index, paying, xs), StateAfter(a, FramesIn(xs)), ys)
    decreases |xs|
  {
    if xs == [] {
      assert xs + ys == ys;
    } else {
      assert (xs + ys)[0] == xs[0] && (xs + ys)[1..] == xs[1..] + ys;
      if xs[0].Received? {
        assert FramesIn(xs)[0] == xs[0].frame && FramesIn(xs)[1..] == FramesIn(xs[1..]);
      } else {
        assert FramesIn(xs) == FramesIn(xs[1..]);
      }
      EventsJoin(meaning, index, UnderWay(meaning, index, paying, xs[0]), AssemblyAfter(a, xs[0]), xs[1..], ys);
    }
  }

  lemma {:induction false} ControlDropsFromFront(frames: seq<Frame>, last: Frame)
    requires !last.Control?
    ensures WithoutControl(frames + [last]) == WithoutControl(frames) + [last]
    decreases |frames|
  {
    if frames == [] {
      assert frames + [last] == [last];
    } else {
      var all, rest := frames + [last], WithoutControl(frames[1..]);
      assert all[0] == frames[0] && all[1..] == frames[1..] + [last];
      ControlDropsFromFront(frames[1..], last);
      if frames[0].Control? {
        assert WithoutControl(all) == [] + (rest + [last]) && WithoutControl(frames) == [] + rest;
      } else {
        assert WithoutControl(all) == [frames[0]] + (rest + [last]) && WithoutControl(frames) == [frames[0]] + rest;
      }
    }
  }

  /** A streamed chunk that is not yet complete has delivered nothing, and its last slice delivers it, whatever texts come
      between its frames. */
  lemma LastSliceDelivers(a: Assembly, c: Chunk, frames: seq<Frame>, last: Frame)
    requires c.data != [] && !last.Control? && WithoutControl(frames + [last]) == FramesOf(c)
    ensures Deliveries(a, frames) == [] && OutcomeOf(StateAfter(a, frames), last) == Delivered(c)
  {
    ControlDropsFromFront(frames, last);
    assert WithoutControl(frames) == FramesOf(c)[..|FramesOf(c)| - 1] && last == FramesOf(c)[|FramesOf(c)| - 1];
    ControlIsIgnored(a, frames);
    ChunkCompletesAtLastFrame(a, c);
  }

  /** What is handled first settles the wait well, unless something broke it off before. */
  lemma FirstHandledDecides(sha: Digest, manifest: seq<ChunkInfo>, modelId: string, index: nat, data: seq<Byte>,
      before: seq<NetEvent>, later: seq<NetEvent>)
    requires index < |manifest| && Verified(sha, manifest, index, data)
    requires ChunkArrived(modelId, index, data) in before && (forall e <- before :: !e.ArrivalHandled?)
    ensures Delivers(sha, manifest, modelId, index, before + [ArrivalHandled(data)] + later) <==> NoneBreaksOff(before)
  {
    var events := before + [ArrivalHandled(data)] + later;
    var n := Ending(modelId, index, events, 0);
    EndingIsFirst(modelId, index, events, 0);
    assert events[..|before|] == before;
    assert Settles(modelId, index, events, |before|);
    assert n <= |before|;
    if NoneBreaksOff(before) {
      forall j: nat | j < |before| ensures !Settles(modelId, index, events, j) {
        assert events[j] == before[j] && before[j] in before;
      }
    } else {
      var e :| e in before && BreaksOff(e);
      var j :| 0 <= j < |before| && before[j] == e;
      assert Settles(modelId, index, events, j);
      assert n < |before| && events[n] == before[n] && before[n] in before;
    }
  }

  /** Nothing that comes over a channel deletes, cancels or stores anything behind the download's back. */
  lemma {:induction false} ChannelIsHarmless(
      sha: Digest, manifest: seq<ChunkInfo>, modelId: string, meaning: Reading, index: nat, paying: nat, a: Assembly, hs: seq<Happening>)
    ensures
      var events := EventsOf(meaning, index, paying, a, hs);
      SoundEvents(sha, manifest, modelId, events) && NoDeletes(events) && NoCancels(events)
    decreases |hs|
  {
    if hs != [] {
      ChannelIsHarmless(
        sha, manifest, modelId, meaning, index, UnderWay(meaning, index, paying, hs[0]), AssemblyAfter(a, hs[0]), hs[1..]);
    }
  }

  /** A verified chunk streamed over a channel, with texts anywhere between its frames and whatever was left over before, is
      the first thing handled for the wait. It settles the wait well exactly when no error text, failed payment or timeout
      comes before it is stored, be it before its last slice or while it is hashed and stored. What comes later makes no
      difference. */
  lemma SeederDeliversExactlyWhenUndisturbed(
      sha: Digest, manifest: seq<ChunkInfo>, modelId: string, index: nat, data: seq<Byte>, meaning: Reading, paying: nat,
      a: Assembly, before: seq<Happening>, last: Frame, between: seq<Happening>, later: seq<Happening>)
    requires index < |manifest| && data != [] && Verified(sha, manifest, index, data)
    requires !last.Control? && WithoutControl(FramesIn(before) + [last]) == FramesOf(Chunk(modelId, index, data))
    requires NothingHandled(before + [Received(last)] + between)
    ensures
      var until := before + [Received(last)] + between;
      var events := EventsOf(meaning, index, paying, a, until + [Handled(data)] + later);
      Delivers(sha, manifest, modelId, index, events) <==> Undisturbed(meaning, index, paying, until)
  {
    var until := before + [Received(last)] + between;
    var events := EventsOf(meaning, index, paying, a, until);
    LastSliceDelivers(a, Chunk(modelId, index, data), FramesIn(before), last);
    var rest := EventsAround(meaning, index, paying, a, before, last, between, Chunk(modelId, index, data));
    assert ChunkArrived(modelId, index, data) in events;
    BrokenOffExactlyWhenDisturbed(meaning, index, paying, a, until);
    var more := HandledAround(meaning, index, paying, a, until, data, later);
    FirstHandledDecides(sha, manifest, modelId, index, data, events, more);
  }

  /** How a chunk can come in: what happens until its last slice, while it is handled, and later. */
  datatype Transfer = Transfer(
    meaning: Reading, paying: nat, left: Assembly, before: seq<Happening>, last: Frame, between: seq<Happening>, later: seq<Happening>,
    data: seq<Byte>)

  /** The verified chunk is streamed whole and nothing disturbs the wait until it is stored. */
  ghost predicate ComesInWhole(sha: Digest, manifest: seq<ChunkInfo>, modelId: string, index: nat, t: Transfer)
    requires index < |manifest|
  {
    var until := t.before + [Received(t.last)] + t.between;
    && t.data != [] && Verified(sha, manifest, index, t.data)
    && !t.last.Control? && WithoutControl(FramesIn(t.before) + [t.last]) == FramesOf(Chunk(modelId, index, t.data))
    && NothingHandled(until) && Undisturbed(t.meaning, index, t.paying, until)
  }

  ghost function EventsOfTransfer(index: nat, t: Transfer): seq<NetEvent> {
    EventsOf(
      t.meaning, index, t.paying, t.left, t.before + [Received(t.last)] + t.between + [Handled(t.data)] + t.later)
  }

  /** One candidate for each missing chunk that streams it undisturbed is all a download needs. */
  lemma HonestCandidatesAreEnough(
      d: Downloader, held: set<nat>, seeders: seq<SeederRecord>, net: Network, who: nat -> nat, how: nat -> Transfer)
    requires forall i: nat | i < |d.manifest| && i !in held ::
      && who(i) < |Pool(seeders, i, d.walletAddress)| && net(i, who(i)) == EventsOfTransfer(i, how(i))
      && ComesInWhole(d.sha, d.manifest, d.modelId, i, how(i))
    ensures d.SwarmDelivers(held, seeders, net)
  {
    forall i: nat | i < |d.manifest| && i !in held ensures d.SomeoneDelivers(i, |Pool(seeders, i, d.walletAddress)|, net) {
      var t := how(i);
      SeederDeliversExactlyWhenUndisturbed(
        d.sha, d.manifest, d.modelId, i, t.data, t.meaning, t.paying, t.left, t.before, t.last, t.between, t.later);
      assert Delivers(d.sha, d.manifest, d.modelId, i, net(i, who(i)));
    }
  }

  /** The events of a run around the happening that ends hashing and storing. */
  lemma HandledAround(
      meaning: Reading, index: nat, paying: nat, a: Assembly, until: seq<Happening>, data: seq<Byte>, later: seq<Happening>)
    returns (rest: seq<NetEvent>)
    ensures EventsOf(meaning, index, paying, a, until + [Handled(data)] + later)
      == EventsOf(meaning, index, paying, a, until) + [ArrivalHandled(data)] + rest
  {
    var paid, b := PayingAfter(meaning, index, paying, until), StateAfter(a, FramesIn(until));
    EventsJoin(meaning, index, paying, a, until, [Handled(data)] + later);
    assert until + [Handled(data)] + later == until + ([Handled(data)] + later);
    assert ([Handled(data)] + later)[1..] == later;
    rest := EventsOf(meaning, index, paid, b, later);
  }

  /** The events of a run around the happening that completes a chunk. */
  lemma EventsAround(
      meaning: Reading, index: nat, paying: nat, a: Assembly, before: seq<Happening>, last: Frame, later: seq<Happening>, c: Chunk)
    returns (rest: seq<NetEvent>)
    requires !last.Control? && c.chunkIndex >= 0 && OutcomeOf(StateAfter(a, FramesIn(before)), last) == Delivered(c)
    ensures EventsOf(meaning, index, paying, a, before + [Received(last)] + later)
      == EventsOf(meaning, index, paying, a, before) + [ChunkArrived(c.modelId, c.chunkIndex, c.data)] + rest
  {
    var arrival := Received(last);
    var paid, b := PayingAfter(meaning, index, paying, before), StateAfter(a, FramesIn(before));
    EventsJoin(meaning, index, paying, a, before, [arrival] + later);
    assert before + [arrival] + later == before + ([arrival] + later);
    assert ([arrival] + later)[1..] == later;
    rest := EventsOf(meaning, index, UnderWay(meaning, index, paid, arrival), AssemblyAfter(b, arrival), later);
    assert EventsAt(meaning, paid, b, arrival) == [ChunkArrived(c.modelId, c.chunkIndex, c.data)];
  }
}
