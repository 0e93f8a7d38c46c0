/** The resumable download loop: every missing chunk is asked of one seeder after the other, checked against
    the manifest and stored; the file is put together from the store. What the network and other users of the
    store do meanwhile is an arbitrary script of events. */
module Downloader {
  import opened Wrappers
  import opened Seqs
  import opened Text
  import opened Chunker
  import opened ChunkStore

  const NO_ADDRESS := "0x0000000000000000000000000000000000000000"

  datatype ChunkInfo = ChunkInfo(hash: string, size: nat)

  datatype SeederRecord = SeederRecord(peerId: string, seederAddress: string, chunksHeld: seq<nat>)

  /** A chunk that came in for a wait of this download and is being hashed and stored. */
  datatype Arrival = Arrival(index: nat, data: seq<Byte>)

  /** What can happen while a chunk is awaited. Hashing and storing what arrived takes time: an arrival of this wait, or of
      an earlier one, is through with it in an event of its own. The last three come from outside this download: other
      tabs write verified chunks, delete a model, or restart a cancelled download. */
  datatype NetEvent =
    | ChunkArrived(modelId: string, index: nat, data: seq<Byte>)
    | ArrivalHandled(data: seq<Byte>)
    | EarlierHandled(arrival: Arrival)
    | PeerError
    | PaymentFailed
    | TimedOut
    | Cancelled
    | Restarted
    | OtherPut(chunk: StoredChunk)
    | OtherDelete(modelId: string, walletAddress: string)

  /** A request for a chunk, sent to one peer. */
  datatype Request = Request(peerId: string, index: nat)

  /** What happens while chunk i is asked of the a-th candidate. */
  type Network = (nat, nat) -> seq<NetEvent>

  datatype Status = Idle | Discovering | Downloading | Verifying | Reassembling | Complete | Error

  datatype DownloadError = NoPeers | NoSeeder(index: nat) | AllSeedersFailed(index: nat) | MissingChunk(index: nat)

  datatype Stop = AlreadyRunning | Completed(blob: seq<Byte>) | Stopped | Failed(error: DownloadError)

  // ----- what is verified -----

  /** The content check of a received chunk; a manifest entry without hash accepts anything. */
  predicate Verified(sha: Digest, manifest: seq<ChunkInfo>, index: nat, data: seq<Byte>)
    requires index < |manifest|
  {
    manifest[index].hash == "" || ToLower(HashOf(sha, data)) == ToLower(manifest[index].hash)
  }

  ghost predicate GoodChunk(sha: Digest, manifest: seq<ChunkInfo>, modelId: string, c: StoredChunk) {
    && ':' !in c.modelId && ':' !in c.walletKey
    && (c.modelId == modelId ==> c.index < |manifest| && Verified(sha, manifest, c.index, c.data))
  }

  /** The store holds only verified chunks of the model, under any wallet. */
  ghost predicate GoodStore(sha: Digest, manifest: seq<ChunkInfo>, modelId: string, rs: Records) {
    && WellKeyed(rs)
    && forall k <- rs :: GoodChunk(sha, manifest, modelId, rs[k])
  }

  /** The blob consists of chunks that all passed the content check, in manifest order. */
  ghost predicate VerifiedFile(sha: Digest, manifest: seq<ChunkInfo>, blob: seq<Byte>) {
    exists parts: seq<seq<Byte>> ::
      && |parts| == |manifest| && blob == Flatten(parts)
      && forall i | 0 <= i < |parts| :: Verified(sha, manifest, i, parts[i])
  }

  // ----- which scripts -----

  ghost predicate SoundEvents(sha: Digest, manifest: seq<ChunkInfo>, modelId: string, events: seq<NetEvent>) {
    forall e <- events :: e.OtherPut? ==> GoodChunk(sha, manifest, modelId, e.chunk)
  }

  ghost predicate NoDeletes(events: seq<NetEvent>) {
    forall e <- events :: !e.OtherDelete?
  }

  ghost predicate NoCancels(events: seq<NetEvent>) {
    forall e <- events :: !e.Cancelled?
  }

  /** An event that ends the wait for a chunk without it. */
  predicate BreaksOff(e: NetEvent) {
    e.PeerError? || e.PaymentFailed? || e.TimedOut?
  }

  /** The k-th event settles the wait for a chunk, one way or the other. */
  predicate Settles(modelId: string, index: nat, events: seq<NetEvent>, k: nat)
    requires k < |events|
  {
    BreaksOff(events[k]) || (events[k].ArrivalHandled? && ChunkArrived(modelId, index, events[k].data) in events[..k])
  }

  /** Which event that is, if any does. */
  function Ending(modelId: string, index: nat, events: seq<NetEvent>, k: nat): (n: nat)
    requires k <= |events|
    ensures k <= n <= |events| && (n < |events| ==> Settles(modelId, index, events, n))
    decreases |events| - k
  {
    if k == |events| || Settles(modelId, index, events, k) then k else Ending(modelId, index, events, k + 1)
  }

  lemma {:induction false} EndingIsFirst(modelId: string, index: nat, events: seq<NetEvent>, k: nat)
    requires k <= |events|
    ensures forall j: nat | k <= j < Ending(modelId, index, events, k) :: !Settles(modelId, index, events, j)
    decreases |events| - k
  {
    if k < |events| && !Settles(modelId, index, events, k) {
      EndingIsFirst(modelId, index, events, k + 1);
    }
  }

  /** The first event that settles the wait says that the right bytes are stored. */
  predicate Delivers(sha: Digest, manifest: seq<ChunkInfo>, modelId: string, index: nat, events: seq<NetEvent>)
    requires index < |manifest|
  {
    var n := Ending(modelId, index, events, 0);
    n < |events| && !BreaksOff(events[n]) && Verified(sha, manifest, index, events[n].data)
  }

  function ArrivesBy(modelId: string, index: nat, e: NetEvent): set<Arrival> {
    if e.ChunkArrived? && e.modelId == modelId && e.index == index then {Arrival(index, e.data)} else {}
  }

  /** What comes in for the wait with the first n events. */
  ghost function ArrivedIn(modelId: string, index: nat, events: seq<NetEvent>, n: nat): set<Arrival>
    requires n <= |events|
  {
    if n == 0 then {} else ArrivedIn(modelId, index, events, n - 1) + ArrivesBy(modelId, index, events[n - 1])
  }

  lemma {:induction false} ArrivedExactly(modelId: string, index: nat, events: seq<NetEvent>, n: nat, a: Arrival)
    requires n <= |events|
    ensures a in ArrivedIn(modelId, index, events, n) <==> a.index == index && ChunkArrived(modelId, index, a.data) in events[..n]
  {
    if n > 0 {
      ArrivedExactly(modelId, index, events, n - 1, a);
      assert events[..n] == events[..n - 1] + [events[n - 1]];
    }
  }

  lemma SettlesExactly(modelId: string, index: nat, events: seq<NetEvent>, k: nat)
    requires k < |events| && !BreaksOff(events[k])
    ensures Ending(modelId, index, events, k) ==
      if events[k].ArrivalHandled? && Arrival(index, events[k].data) in ArrivedIn(modelId, index, events, k) then k
      else Ending(modelId, index, events, k + 1)
  {
    if events[k].ArrivalHandled? {
      ArrivedExactly(modelId, index, events, k, Arrival(index, events[k].data));
    }
  }

  ghost predicate KeepsAvailable(before: Records, after: Records, modelId: string) {
    forall i: nat | Available(before, modelId, i) :: Available(after, modelId, i)
  }

  // ----- candidates -----

  function Eligible(seeders: seq<SeederRecord>, index: nat): seq<SeederRecord> {
    Filter(seeders, (s: SeederRecord) => index in s.chunksHeld)
  }

  function Pool(seeders: seq<SeederRecord>, index: nat, wallet: string): seq<SeederRecord> {
    var eligible := Eligible(seeders, index);
    var self := ToLower(wallet);
    var notSelf :=
      if self != "" && self != "anonymous" then Filter(eligible, (s: SeederRecord) => ToLower(s.seederAddress) != self)
      else eligible;
    if notSelf != [] then notSelf else eligible
  }

  class Downloader {
    const modelId: string
    const manifest: seq<ChunkInfo>
    const creatorAddress: string
    const walletAddress: string
    const sha: Digest
    const store: ChunkStore
    var isRunning: bool
    var isCancelled: bool
    var status: Status
    var downloadedChunks: nat
    var currentChunkIndex: nat
    var earlier: set<Arrival>   // what came in for waits that are over
    ghost var requests: seq<Request>   // everything ever asked of peers

    constructor (modelId: string, manifest: seq<ChunkInfo>, creatorAddress: string, walletAddress: string, sha: Digest, store: ChunkStore)
      ensures this.modelId == modelId && this.manifest == manifest && this.sha == sha && this.store == store
      ensures this.creatorAddress == (if creatorAddress == "" then NO_ADDRESS else creatorAddress)
      ensures this.walletAddress == (if walletAddress == "" then "anonymous" else walletAddress)
      ensures !isRunning && !isCancelled && status == Idle && downloadedChunks == 0 && earlier == {} && requests == []
      ensures ':' !in modelId && ':' !in walletAddress && GoodStore(sha, manifest, modelId, store.records) ==> Good()
    {
      this.modelId, this.manifest, this.sha, this.store := modelId, manifest, sha, store;
      this.creatorAddress := if creatorAddress == "" then NO_ADDRESS else creatorAddress;
      this.walletAddress := if walletAddress == "" then "anonymous" else walletAddress;
      isRunning, isCancelled, status, downloadedChunks, currentChunkIndex, earlier := false, false, Idle, 0, 0, {};
      requests := [];
    }

    /** What a download and its store must be like: names free of ':', every chunk stored for the model verified, and every
        arrival still under way one of the manifest's chunks. */
    ghost predicate Good()
      reads this, store
    {
      && ':' !in modelId && ':' !in walletAddress
      && GoodStore(sha, manifest, modelId, store.records)
      && forall a <- earlier :: a.index < |manifest|
    }

    ghost predicate Sound(events: seq<NetEvent>) {
      SoundEvents(sha, manifest, modelId, events)
    }

    /** Who is asked for a chunk, in turn: everybody who holds it but oneself, unless nobody else does, and the
        creator after all others. */
    method GetCandidateSeedersForChunk(seeders: seq<SeederRecord>, index: nat) returns (candidates: seq<SeederRecord>)
      ensures forall s :: s in candidates <==> s in Pool(seeders, index, walletAddress)
      ensures forall s <- candidates :: s in seeders && index in s.chunksHeld
      ensures candidates == [] <==> forall s <- seeders :: index !in s.chunksHeld
      ensures multiset(candidates) == multiset(Pool(seeders, index, walletAddress)) +
        multiset(AskedTwice(Pool(seeders, index, walletAddress), ToLower(creatorAddress)))
      ensures |Pool(seeders, index, walletAddress)| <= |candidates|
      ensures creatorAddress != "" && ToLower(creatorAddress) != NO_ADDRESS ==>
        forall a, b | 0 <= a < b < |candidates| && ToLower(candidates[a].seederAddress) == ToLower(creatorAddress) ::
          ToLower(candidates[b].seederAddress) == ToLower(creatorAddress)
    {
      PoolIsEmptyWithoutHolders(seeders, index, walletAddress);
      ghost var pool := Pool(seeders, index, walletAddress);
      candidates := CreatorLast(Pool(seeders, index, walletAddress), ToLower(creatorAddress));
      SameMembers(candidates, pool, AskedTwice(pool, ToLower(creatorAddress)));
      assert candidates == [] || candidates[0] in candidates;
    }

    method Cancel()
      modifies `isCancelled, `isRunning, `status
      ensures isCancelled && !isRunning && status == Idle
    {
      isCancelled, isRunning, status := true, false, Idle;
    }

    /** The end of hashing and storing what arrived: stored exactly when the bytes are right. */
    method Handle(a: Arrival) returns (ok: bool)
      requires Good() && a.index < |manifest|
      modifies store
      ensures Good() && KeepsAvailable(old(store.records), store.records, modelId)
      ensures ok <==> Verified(sha, manifest, a.index, a.data)
      ensures ok ==> Available(store.records, modelId, a.index)
      ensures !ok ==> store.records == old(store.records)
    {
      if !Verified(sha, manifest, a.index, a.data) {
        return false;
      }
      ghost var c := StoredChunk(modelId, WalletKey(walletAddress), a.index, a.data);
      LowerKeepsColons(walletAddress);
      PutKeepsGood(sha, manifest, modelId, store.records, c);
      store.StoreChunk(modelId, a.index, a.data, walletAddress);
      return true;
    }

    /** An event that is no chunk for this wait: what it does to the shared state. */
    method Outside(e: NetEvent)
      requires Good() && (e.OtherPut? ==> GoodChunk(sha, manifest, modelId, e.chunk))
      modifies `isCancelled, `isRunning, `status, store
      ensures Good()
      ensures e.EarlierHandled? && e.arrival in earlier && Verified(sha, manifest, e.arrival.index, e.arrival.data) ==>
        Available(store.records, modelId, e.arrival.index)
      ensures !e.OtherDelete? ==> KeepsAvailable(old(store.records), store.records, modelId)
      ensures !e.Cancelled? ==> (isCancelled ==> old(isCancelled))
    {
      match e {
        case Cancelled => Cancel();
        case Restarted => isCancelled, isRunning := false, true;
        case EarlierHandled(a) =>
          if a in earlier {
            var _ := Handle(a);
          }
        case OtherPut(c) =>
          ghost var before := store.records;
          store.records := store.records[KeyOf(c) := c];
          PutKeepsGood(sha, manifest, modelId, before, c);
        case OtherDelete(m, w) =>
          store.DeleteModel(m, w);
        case _ =>
      }
    }

    /** Of what had come in for earlier waits, everything right that is done with after the first n events is stored. */
    ghost predicate EarlierStored(rs: Records, earlier: set<Arrival>, events: seq<NetEvent>, n: nat)
      requires n <= |events|
    {
      forall k: nat | k < n :: HandledIsStored(rs, earlier, events[k])
    }

    ghost predicate HandledIsStored(rs: Records, earlier: set<Arrival>, e: NetEvent) {
      e.EarlierHandled? && e.arrival in earlier && e.arrival.index < |manifest| ==>
        Verified(sha, manifest, e.arrival.index, e.arrival.data) ==> Available(rs, modelId, e.arrival.index)
    }

    /** So an arrival of an earlier wait that is right is available once it is through. */
    lemma LateArrivalIsStored(rs: Records, events: seq<NetEvent>, n: nat, k: nat)
      requires k < n <= |events| && EarlierStored(rs, earlier, events, n)
      requires events[k].EarlierHandled? && events[k].arrival in earlier && events[k].arrival.index < |manifest|
      requires Verified(sha, manifest, events[k].arrival.index, events[k].arrival.data)
      ensures Available(rs, modelId, events[k].arrival.index)
    {
      assert HandledIsStored(rs, earlier, events[k]);
    }

    /** Waits for one chunk from one seeder: whatever arrives for it is checked and stored if good, and that ends the wait; a
        peer error, a failed payment or the timeout ends it too, even between arrival and storing. What has arrived by then
        is stored later all the same. */
    method DownloadChunk(seeder: SeederRecord, index: nat, events: seq<NetEvent>) returns (ok: bool)
      requires Good() && Sound(events) && index < |manifest|
      modifies this, store
      ensures Good() && requests == old(requests) + [Request(seeder.peerId, index)]
      ensures ok ==> Available(store.records, modelId, index)
      ensures ok <==> Delivers(sha, manifest, modelId, index, events)
      ensures
        var n := Ending(modelId, index, events, 0);
        && earlier == old(earlier) + ArrivedIn(modelId, index, events, n)
        && (NoDeletes(events) ==> EarlierStored(store.records, old(earlier), events, n))
      ensures NoDeletes(events) ==> KeepsAvailable(old(store.records), store.records, modelId)
      ensures NoCancels(events) ==> (isCancelled ==> old(isCancelled))
    {
      requests := requests + [Request(seeder.peerId, index)];
      var n, mine := AwaitEnding(index, events);
      earlier := earlier + mine;
      if n == |events| || BreaksOff(events[n]) {
        return false;
      }
      ok := Handle(Arrival(index, events[n].data));
    }

    /** Lives through the events until one settles the wait, and collects what arrives for it. */
    method AwaitEnding(index: nat, events: seq<NetEvent>) returns (n: nat, mine: set<Arrival>)
      requires Good() && Sound(events)
      modifies `isCancelled, `isRunning, `status, store
      ensures Good() && n == Ending(modelId, index, events, 0) && mine == ArrivedIn(modelId, index, events, n)
      ensures forall a <- mine :: a.index == index
      ensures NoDeletes(events) ==> EarlierStored(store.records, earlier, events, n)
      ensures NoDeletes(events) ==> KeepsAvailable(old(store.records), store.records, modelId)
      ensures NoCancels(events) ==> (isCancelled ==> old(isCancelled))
    {
      n, mine := 0, {};
      while n < |events| && !BreaksOff(events[n])
        invariant n <= |events| && Good()
        invariant Ending(modelId, index, events, 0) == Ending(modelId, index, events, n)
        invariant mine == ArrivedIn(modelId, index, events, n)
        invariant forall a <- mine :: a.index == index
        invariant NoDeletes(events) ==> EarlierStored(store.records, earlier, events, n)
        invariant NoDeletes(events) ==> KeepsAvailable(old(store.records), store.records, modelId)
        invariant NoCancels(events) ==> (isCancelled ==> old(isCancelled))
      {
        var e := events[n];
        SettlesExactly(modelId, index, events, n);
        if e.ArrivalHandled? && Arrival(index, e.data) in mine {
          break;
        }
        assert e in events;
        if e.ChunkArrived? && e.modelId == modelId && e.index == index {
          status := Verifying;
          mine := mine + {Arrival(index, e.data)};
        } else {
          Outside(e);
        }
        n := n + 1;
      }
    }

    method Reassemble(closing: seq<NetEvent>) returns (r: Stop)
      requires Good() && Sound(closing)
      modifies `isCancelled, `isRunning, `status, `downloadedChunks, store
      ensures Good()
      ensures r.Completed? || (r.Failed? && r.error.MissingChunk?)
      ensures r.Completed? ==> VerifiedFile(sha, manifest, r.blob) && status == Complete && downloadedChunks == |manifest|
      ensures NoDeletes(closing) && AllAvailable(old(store.records), modelId, |manifest|) ==> r.Completed?
    {
      status := Reassembling;
      for k := 0 to |closing|
        invariant Good()
        invariant NoDeletes(closing) ==> KeepsAvailable(old(store.records), store.records, modelId)
      {
        assert closing[k] in closing;
        Outside(closing[k]);
      }
      LowerKeepsColons(walletAddress);
      forall i: nat {
        ReadsAreCopies(store.records, modelId, WalletKey(walletAddress), i);
      }
      var all := store.GetAllChunks(modelId, |manifest|, walletAddress);
      if all.Failure? {
        return Failed(MissingChunk(all.error));
      }
      forall i | 0 <= i < |manifest| ensures Verified(sha, manifest, i, all.value[i]) {
        ReadsAreCopies(store.records, modelId, WalletKey(walletAddress), i);
        assert Gives(store.records, modelId, WalletKey(walletAddress), i, all.value[i]);
        assert Holds(store.records, modelId, i, all.value[i]);
      }
      status, downloadedChunks := Complete, |manifest|;
      return Completed(Flatten(all.value));
    }

    method Finish(r: Stop) returns (result: Stop)
      requires r.Stopped? || r.Failed?
      modifies `isRunning, `status
      ensures result == r && !isRunning
      ensures status == if r.Stopped? then Idle else Error
    {
      status := if r.Stopped? then Idle else Error;
      isRunning := false;
      return r;
    }

    /** Asks the candidates for one chunk in turn until one delivers it or the download is cancelled; nobody after that. */
    method FetchChunk(index: nat, candidates: seq<SeederRecord>, net: Network) returns (downloaded: bool, ghost asked: nat)
      requires Good() && SoundNet(net) && index < |manifest|
      modifies this, store
      ensures Good()
      ensures asked <= |candidates| && requests == old(requests) + RequestsTo(candidates[..asked], index)
      ensures AskedFor(old(requests), requests, index)
      ensures downloaded ==> Available(store.records, modelId, index)
      ensures downloaded <==> asked > 0 && Delivers(sha, manifest, modelId, index, net(index, asked - 1))
      ensures forall b: nat | b + 1 < asked :: !Delivers(sha, manifest, modelId, index, net(index, b))
      ensures !downloaded && !isCancelled ==> asked == |candidates|
      ensures Undeleting(net) ==> KeepsAvailable(old(store.records), store.records, modelId)
      ensures Uncancelling(net) ==> (isCancelled ==> old(isCancelled))
      ensures Uncancelling(net) && !old(isCancelled) && SomeoneDelivers(index, |candidates|, net) ==> downloaded
    {
      downloaded, asked := false, 0;
      var a := 0;
      while a < |candidates| && !downloaded && !isCancelled
        invariant a == asked <= |candidates| && Good()
        invariant requests == old(requests) + RequestsTo(candidates[..a], index)
        invariant downloaded ==> Available(store.records, modelId, index)
        invariant downloaded <==> a > 0 && Delivers(sha, manifest, modelId, index, net(index, a - 1))
        invariant forall b: nat | b + 1 < a :: !Delivers(sha, manifest, modelId, index, net(index, b))
        invariant Undeleting(net) ==> KeepsAvailable(old(store.records), store.records, modelId)
        invariant Uncancelling(net) ==> (isCancelled ==> old(isCancelled))
      {
        downloaded := DownloadChunk(candidates[a], index, net(index, a));
        assert RequestsTo(candidates[..a + 1], index) == RequestsTo(candidates[..a], index) + [Request(candidates[a].peerId, index)];
        a, asked := a + 1, a + 1;
      }
      RequestsAskFor(old(requests), candidates[..a], index);
    }

    /** The loop over the manifest: every chunk not held is fetched, or the download stops early; what is held is never asked
        for, so nobody need offer it. */
    method FetchMissing(already: set<nat>, seeders: seq<SeederRecord>, net: Network) returns (early: Option<Stop>)
      requires Good() && SoundNet(net) && !isCancelled
      requires AvailableIn(store.records, modelId, already)
      modifies this, store
      ensures Good()
      ensures early.Some? ==> !isRunning && EndsEarly(early.value, already)
      ensures early.Some? ==> status == if early.value.Stopped? then Idle else Error
      ensures early.None? && Undeleting(net) ==> AllAvailable(store.records, modelId, |manifest|)
      ensures AskedOnlyFor(old(requests), requests, already)
      ensures Uncancelling(net) && early.Some? ==> NobodyDelivers(early.value, seeders, net)
    {
      var held: set<nat> := already;
      for i := 0 to |manifest|
        invariant Good()
        invariant forall j: nat | j < i :: j in held
        invariant already <= held && forall j <- held :: j in already || j < i
        invariant AskedOnlyFor(old(requests), requests, already)
        invariant Undeleting(net) ==> AvailableIn(store.records, modelId, held)
        invariant Uncancelling(net) ==> !isCancelled
      {
        if isCancelled {
          var r := Finish(Stopped);
          return Some(r);
        }
        if i in held {
          continue;
        }
        ghost var before := requests;
        early := FetchUnheld(i, held, seeders, net);
        AskedOn(old(requests), before, requests, already, held);
        if early.Some? {
          return;
        }
        held := held + {i};
        downloadedChunks := |held|;
      }
      return None;
    }

    /** One round of the loop for a chunk that is not held. */
    method FetchUnheld(i: nat, ghost held: set<nat>, seeders: seq<SeederRecord>, net: Network) returns (early: Option<Stop>)
      requires Good() && SoundNet(net) && !isCancelled && i < |manifest| && i !in held
      modifies this, store
      ensures Good() && AskedOnlyFor(old(requests), requests, held)
      ensures early.Some? ==> !isRunning && EndsEarly(early.value, held)
      ensures early.Some? ==> status == if early.value.Stopped? then Idle else Error
      ensures early.None? && Undeleting(net) && AvailableIn(old(store.records), modelId, held) ==>
        AvailableIn(store.records, modelId, held + {i})
      ensures Uncancelling(net) ==> !isCancelled
      ensures Uncancelling(net) && early.Some? ==> NobodyDelivers(early.value, seeders, net)
    {
      early := FetchOne(i, seeders, net);
      AskedForUnheld(old(requests), requests, held, i);
      if early.None? && Undeleting(net) && AvailableIn(old(store.records), modelId, held) {
        OneMoreHeld(old(store.records), store.records, modelId, held, i);
      }
    }

    /** One chunk of the loop: none to ask, cancelled while asking, nobody delivered, or stored. */
    method FetchOne(i: nat, seeders: seq<SeederRecord>, net: Network) returns (early: Option<Stop>)
      requires Good() && SoundNet(net) && !isCancelled && i < |manifest|
      modifies this, store
      ensures Good()
      ensures AskedFor(old(requests), requests, i)
      ensures early.Some? ==> !isRunning
      ensures early.Some? ==> early.value == Stopped || early.value == Failed(NoSeeder(i)) || early.value == Failed(AllSeedersFailed(i))
      ensures early.Some? ==> status == if early.value.Stopped? then Idle else Error
      ensures early.None? ==> Available(store.records, modelId, i)
      ensures early == Some(Failed(NoSeeder(i))) <==> forall s <- seeders :: i !in s.chunksHeld
      ensures Undeleting(net) ==> KeepsAvailable(old(store.records), store.records, modelId)
      ensures Uncancelling(net) ==> !isCancelled
      ensures Uncancelling(net) && early.Some? ==> NobodyDelivers(early.value, seeders, net)
    {
      currentChunkIndex, status := i, Downloading;
      var candidates := GetCandidateSeedersForChunk(seeders, i);
      early := AskAll(i, candidates, net);
    }

    /** The same for candidates already in order. */
    method AskAll(i: nat, candidates: seq<SeederRecord>, net: Network) returns (early: Option<Stop>)
      requires Good() && SoundNet(net) && !isCancelled && i < |manifest|
      modifies this, store
      ensures Good()
      ensures AskedFor(old(requests), requests, i)
      ensures early.Some? ==> !isRunning
      ensures early.Some? ==> early.value == Stopped || early.value == Failed(NoSeeder(i)) || early.value == Failed(AllSeedersFailed(i))
      ensures early.Some? ==> status == if early.value.Stopped? then Idle else Error
      ensures early.None? ==> Available(store.records, modelId, i)
      ensures early == Some(Failed(NoSeeder(i))) <==> candidates == []
      ensures Undeleting(net) ==> KeepsAvailable(old(store.records), store.records, modelId)
      ensures Uncancelling(net) ==> !isCancelled && early != Some(Stopped)
      ensures Uncancelling(net) && SomeoneDelivers(i, |candidates|, net) ==> early.None?
    {
      if candidates == [] {
        var r := Finish(Failed(NoSeeder(i)));
        return Some(r);
      }
      var downloaded, _ := FetchChunk(i, candidates, net);
      if isCancelled {
        var r := Finish(Stopped);
        return Some(r);
      }
      if !downloaded {
        var r := Finish(Failed(AllSeedersFailed(i)));
        return Some(r);
      }
      return None;
    }

    /** One download, from the first look into the store to the finished file or the reason why not. */
    method Start(seeders: seq<SeederRecord>, net: Network, closing: seq<NetEvent>) returns (r: Stop)
      requires Good() && SoundNet(net) && Sound(closing)
      modifies this, store
      ensures Good()
      ensures r.AlreadyRunning? <==> old(isRunning)
      ensures r.AlreadyRunning? ==> status == old(status) && store.records == old(store.records)
      ensures !r.AlreadyRunning? ==> !isRunning
      // whatever the peers sent, however often the download was resumed
      ensures r.Completed? ==> VerifiedFile(sha, manifest, r.blob) && status == Complete && downloadedChunks == |manifest|
      ensures r.Stopped? ==> status == Idle
      ensures r.Failed? ==> status == Error
      // once the loop is through the file can be put together, unless somebody deleted chunks meanwhile
      ensures Undeleting(net) && NoDeletes(closing) ==> !(r.Failed? && r.error.MissingChunk?)
      // what the store held at the start is not asked for again, and no failure names it
      ensures AskedOnlyFor(old(requests), requests, HeldBy(old(store.records), modelId, WalletKey(walletAddress)))
      ensures r.Failed? && !r.error.NoPeers? && !r.error.MissingChunk? ==>
        r.error.index !in HeldBy(old(store.records), modelId, WalletKey(walletAddress))
      // one delivering candidate for each other chunk is enough, and a full store needs no peer at all
      ensures !old(isRunning) && seeders != [] && Undeleting(net) && NoDeletes(closing) && Uncancelling(net) ==>
        SwarmDelivers(HeldBy(old(store.records), modelId, WalletKey(walletAddress)), seeders, net) ==> r.Completed?
      ensures !old(isRunning) && NoDeletes(closing) && HeldBy(old(store.records), modelId, WalletKey(walletAddress)) == Range(|manifest|) ==>
        r.Completed? && requests == old(requests)
    {
      if isRunning {
        return AlreadyRunning;
      }
      isRunning, isCancelled := true, false;
      var held := store.GetHeldChunks(modelId, walletAddress);
      HeldIsAvailable(store.records, modelId, held);
      downloadedChunks, status := |held|, Discovering;
      if |held| == |manifest| {
        FullStoreHasAll(sha, manifest, modelId, store.records, held);
        r := Conclude(closing);
        return;
      }
      if seeders == [] {
        r := Finish(Failed(NoPeers));
        return;
      }
      var early := FetchMissing(held, seeders, net);
      if early.Some? {
        return early.value;
      }
      r := Conclude(closing);
    }

    /** Reassembly inside the error handling of the download. */
    method Conclude(closing: seq<NetEvent>) returns (r: Stop)
      requires Good() && Sound(closing)
      modifies `isCancelled, `isRunning, `status, `downloadedChunks, store
      ensures Good() && !isRunning
      ensures r.Completed? || (r.Failed? && r.error.MissingChunk?)
      ensures r.Completed? ==> VerifiedFile(sha, manifest, r.blob) && status == Complete && downloadedChunks == |manifest|
      ensures r.Failed? ==> status == Error
      ensures NoDeletes(closing) && AllAvailable(old(store.records), modelId, |manifest|) ==> r.Completed?
    {
      r := Reassemble(closing);
      if r.Failed? {
        r := Finish(r);
      }
      isRunning := false;
    }

    // ----- what is asked of the script -----

    ghost predicate SoundNet(net: Network) {
      forall i: nat, a: nat :: Sound(net(i, a))
    }

    ghost predicate Undeleting(net: Network) {
      forall i: nat, a: nat :: NoDeletes(net(i, a))
    }

    ghost predicate Uncancelling(net: Network) {
      forall i: nat, a: nat :: NoCancels(net(i, a))
    }

    ghost predicate SomeoneDelivers(index: nat, candidates: nat, net: Network)
      requires index < |manifest|
    {
      exists a: nat | a < candidates :: Delivers(sha, manifest, modelId, index, net(index, a))
    }

    /** Every chunk that is not held yet is delivered by some candidate. */
    ghost predicate SwarmDelivers(held: set<nat>, seeders: seq<SeederRecord>, net: Network) {
      forall i: nat | i < |manifest| && i !in held :: SomeoneDelivers(i, |Pool(seeders, i, walletAddress)|, net)
    }

    /** Since then requests were sent only for chunks of the manifest that were not held. */
    ghost predicate AskedOnlyFor(before: seq<Request>, after: seq<Request>, held: set<nat>) {
      && before <= after
      && forall k | |before| <= k < |after| :: after[k].index < |manifest| && after[k].index !in held
    }

    lemma AskedOn(before: seq<Request>, between: seq<Request>, after: seq<Request>, already: set<nat>, held: set<nat>)
      requires AskedOnlyFor(before, between, already) && AskedOnlyFor(between, after, held) && already <= held
      ensures AskedOnlyFor(before, after, already)
    {
      forall k | |before| <= k < |after| ensures after[k].index < |manifest| && after[k].index !in already {
        if k < |between| {
          assert after[k] == between[k];
        }
      }
    }

    lemma AskedForUnheld(before: seq<Request>, after: seq<Request>, held: set<nat>, i: nat)
      requires AskedFor(before, after, i) && i < |manifest| && i !in held
      ensures AskedOnlyFor(before, after, held)
    {
    }

    /** Failed on a chunk that no candidate delivers. */
    ghost predicate NobodyDelivers(r: Stop, seeders: seq<SeederRecord>, net: Network) {
      && r.Failed? && (r.error.NoSeeder? || r.error.AllSeedersFailed?) && r.error.index < |manifest|
      && !SomeoneDelivers(r.error.index, |Pool(seeders, r.error.index, walletAddress)|, net)
    }

    /** Stopped, or failed on a chunk that was not held. */
    ghost predicate EndsEarly(r: Stop, held: set<nat>) {
      r.Stopped? || (r.Failed? && (r.error.NoSeeder? || r.error.AllSeedersFailed?) && r.error.index < |manifest| && r.error.index !in held)
    }
  }

  lemma RequestsAskFor(before: seq<Request>, candidates: seq<SeederRecord>, index: nat)
    ensures AskedFor(before, before + RequestsTo(candidates, index), index)
  {
  }

  /** Since then requests were sent for this chunk only. */
  ghost predicate AskedFor(before: seq<Request>, after: seq<Request>, index: nat) {
    && before <= after
    && forall k | |before| <= k < |after| :: after[k].index == index
  }

  function RequestsTo(candidates: seq<SeederRecord>, index: nat): seq<Request> {
    seq(|candidates|, a requires 0 <= a < |candidates| => Request(candidates[a].peerId, index))
  }

  predicate KnownCreator(creator: string) {
    creator != "" && creator != NO_ADDRESS
  }

  function CreatorsIn(pool: seq<SeederRecord>, creator: string): seq<SeederRecord> {
    Filter(pool, (s: SeederRecord) => creator != "" && ToLower(s.seederAddress) == creator)
  }

  /** With no creator known, the seeders that announce the zero address stand in the order twice. */
  function AskedTwice(pool: seq<SeederRecord>, creator: string): seq<SeederRecord> {
    if KnownCreator(creator) then [] else CreatorsIn(pool, creator)
  }

  /** A random order of the pool, each seeder as often as it stands there, in which the creator's own come last. */
  method CreatorLast(pool: seq<SeederRecord>, creator: string) returns (candidates: seq<SeederRecord>)
    ensures multiset(candidates) == multiset(pool) + multiset(AskedTwice(pool, creator))
    ensures creator != "" && creator != NO_ADDRESS ==> multiset(candidates) == multiset(pool)
    ensures creator == NO_ADDRESS ==>
      multiset(candidates) == multiset(pool) + multiset(Filter(pool, (s: SeederRecord) => ToLower(s.seederAddress) == creator))
    ensures creator != "" && creator != NO_ADDRESS ==>
      forall a, b | 0 <= a < b < |candidates| && ToLower(candidates[a].seederAddress) == creator ::
        ToLower(candidates[b].seederAddress) == creator
  {
    var isOther := (s: SeederRecord) => ToLower(s.seederAddress) != creator;
    var others := if KnownCreator(creator) then Filter(pool, isOther) else pool;
    if others == [] {
      candidates := Shuffle(pool);
      forall s | s in candidates && KnownCreator(creator) ensures ToLower(s.seederAddress) == creator {
        assert s in multiset(candidates) && s in multiset(pool) && s in pool && s !in others;
      }
      return;
    }
    var creators := CreatorsIn(pool, creator);
    if creator != "" {
      SameFilter(pool, (s: SeederRecord) => creator != "" && ToLower(s.seederAddress) == creator,
        (s: SeederRecord) => ToLower(s.seederAddress) == creator);
    }
    if KnownCreator(creator) {
      FilterSplits(pool, (s: SeederRecord) => creator != "" && ToLower(s.seederAddress) == creator, isOther);
    }
    var first := Shuffle(others);
    var last := Shuffle(creators);
    candidates := first + last;
    forall a | |first| <= a < |candidates| ensures ToLower(candidates[a].seederAddress) == creator {
      assert candidates[a] in last;
    }
    forall a | 0 <= a < |first| && KnownCreator(creator) ensures ToLower(candidates[a].seederAddress) != creator {
      assert candidates[a] in first;
    }
  }

  lemma {:induction false} SameFilter<T(!new)>(xs: seq<T>, p: T -> bool, q: T -> bool)
    requires forall x :: p(x) <==> q(x)
    ensures Filter(xs, p) == Filter(xs, q)
  {
    if xs != [] {
      SameFilter(xs[..|xs| - 1], p, q);
    }
  }

  lemma SameMembers<T>(xs: seq<T>, ys: seq<T>, more: seq<T>)
    requires multiset(xs) == multiset(ys) + multiset(more) && forall x <- more :: x in ys
    ensures |xs| == |ys| + |more| && forall x :: x in xs <==> x in ys
  {
    assert |multiset(xs)| == |xs|;
    forall x ensures x in xs <==> x in ys {
      assert x in xs <==> x in multiset(xs);
      assert x in ys <==> x in multiset(ys);
      assert x in more <==> x in multiset(more);
    }
  }

  ghost predicate AllAvailable(rs: Records, modelId: string, count: nat) {
    forall i: nat | i < count :: Available(rs, modelId, i)
  }

  ghost predicate AvailableIn(rs: Records, modelId: string, indices: set<nat>) {
    forall i <- indices :: Available(rs, modelId, i)
  }

  lemma OneMoreHeld(before: Records, after: Records, modelId: string, held: set<nat>, i: nat)
    requires AvailableIn(before, modelId, held) && KeepsAvailable(before, after, modelId) && Available(after, modelId, i)
    ensures AvailableIn(after, modelId, held + {i})
  {
  }

  lemma HeldIsAvailable(rs: Records, modelId: string, held: set<nat>)
    requires held <= IndicesIn(rs, modelId)
    ensures AvailableIn(rs, modelId, held)
  {
    forall i | i in held ensures Available(rs, modelId, i) {
      var k :| k in rs && rs[k].modelId == modelId && rs[k].index == i;
      assert IsCopy(rs, k, modelId, i);
    }
  }

  /** As many held indices as the manifest has chunks means every chunk is there. */
  lemma FullStoreHasAll(sha: Digest, manifest: seq<ChunkInfo>, modelId: string, rs: Records, held: set<nat>)
    requires GoodStore(sha, manifest, modelId, rs)
    requires held <= IndicesIn(rs, modelId) && |held| == |manifest|
    ensures AllAvailable(rs, modelId, |manifest|)
  {
    HeldIsAvailable(rs, modelId, held);
    FullSetHasAll(held, |manifest|);
  }

  function Range(n: nat): (r: set<nat>)
    ensures |r| == n && forall i: nat :: i in r <==> i < n
  {
    if n == 0 then {} else Range(n - 1) + {n - 1}
  }

  /** As many indices below n as n: all of them. */
  lemma FullSetHasAll(held: set<nat>, n: nat)
    requires held <= Range(n) && |held| == n
    ensures held == Range(n)
  {
    if held != Range(n) {
      var x :| x in Range(n) && x !in held;
      assert |held + {x}| == n + 1;
      SubsetIsNoLarger(held + {x}, Range(n));
      assert false;
    }
  }

  lemma {:induction false} SubsetIsNoLarger<T>(a: set<T>, b: set<T>)
    requires a <= b
    ensures |a| <= |b|
    decreases a
  {
    if a != {} {
      var x :| x in a;
      SubsetIsNoLarger(a - {x}, b - {x});
    }
  }

  lemma LowerKeepsColons(address: string)
    requires ':' !in address
    ensures ':' !in WalletKey(address)
  {
    var w := if address == "" then "anonymous" else address;
    assert forall i | 0 <= i < |w| :: w[i] in w && ToLower(w)[i] == LowerChar(w[i]);
  }

  /** Peers by themselves: chunks come in and are handled, waits are broken off, and nobody else touches the store. */
  predicate FromPeers(events: seq<NetEvent>) {
    forall e <- events :: e.ChunkArrived? || e.ArrivalHandled? || BreaksOff(e)
  }

  lemma PeersAreHarmless(d: Downloader, net: Network)
    requires forall i: nat, a: nat :: FromPeers(net(i, a))
    ensures d.SoundNet(net) && d.Undeleting(net) && d.Uncancelling(net)
  {
    forall i: nat, a: nat ensures d.Sound(net(i, a)) && NoDeletes(net(i, a)) && NoCancels(net(i, a)) {
      assert FromPeers(net(i, a));
    }
  }

  /** Every download can begin with an empty store. */
  lemma EmptyStoreIsGood(sha: Digest, manifest: seq<ChunkInfo>, modelId: string)
    ensures GoodStore(sha, manifest, modelId, map[])
  {
  }

  lemma PutKeepsGood(sha: Digest, manifest: seq<ChunkInfo>, modelId: string, rs: Records, c: StoredChunk)
    requires GoodStore(sha, manifest, modelId, rs) && GoodChunk(sha, manifest, modelId, c)
    ensures GoodStore(sha, manifest, modelId, rs[KeyOf(c) := c])
    ensures KeepsAvailable(rs, rs[KeyOf(c) := c], modelId)
    ensures c.modelId == modelId ==> Available(rs[KeyOf(c) := c], modelId, c.index)
  {
    var after := rs[KeyOf(c) := c];
    assert c.modelId == modelId ==> IsCopy(after, KeyOf(c), modelId, c.index);
    forall i: nat | Available(rs, modelId, i) ensures Available(after, modelId, i) {
      var k :| IsCopy(rs, k, modelId, i);
      if k == KeyOf(c) {
        KeyOfIsInjective(rs[k], c);
      }
      assert IsCopy(after, k, modelId, i);
    }
  }

  /** Who has the chunk and is not known to be oneself. */
  predicate HoldsForUs(s: SeederRecord, index: nat, wallet: string) {
    index in s.chunksHeld && (ToLower(s.seederAddress) != ToLower(wallet) || wallet == "" || ToLower(wallet) == "anonymous")
  }

  /** A chunk is asked of everybody else who has it and never of oneself, unless nobody else has it; then of oneself too. */
  lemma PoolIsTheOthers(seeders: seq<SeederRecord>, index: nat, wallet: string, s: SeederRecord)
    ensures
      var others := exists o <- seeders :: HoldsForUs(o, index, wallet);
      s in Pool(seeders, index, wallet) <==> s in seeders && (if others then HoldsForUs(s, index, wallet) else index in s.chunksHeld)
  {
    var eligible, self := Eligible(seeders, index), ToLower(wallet);
    var notSelf :=
      if self != "" && self != "anonymous" then Filter(eligible, (o: SeederRecord) => ToLower(o.seederAddress) != self)
      else eligible;
    assert forall o :: o in notSelf <==> o in seeders && HoldsForUs(o, index, wallet);
    if notSelf != [] {
      assert notSelf[0] in notSelf;
    }
  }

  lemma PoolIsEmptyWithoutHolders(seeders: seq<SeederRecord>, index: nat, wallet: string)
    ensures Pool(seeders, index, wallet) == [] <==> forall s <- seeders :: index !in s.chunksHeld
  {
    var eligible := Eligible(seeders, index);
    if eligible != [] {
      assert eligible[0] in eligible;
    }
  }

  lemma OneSideGrows<T>(a: seq<T>, b: seq<T>, xs: seq<T>, x: T)
    requires multiset(a) + multiset(b) == multiset(xs)
    ensures multiset(a + [x]) + multiset(b) == multiset(xs + [x]) == multiset(a) + multiset(b + [x])
  {
  }

  lemma {:induction false} FilterSplits<T(!new)>(xs: seq<T>, p: T -> bool, q: T -> bool)
    requires forall x <- xs :: p(x) <==> !q(x)
    ensures multiset(Filter(xs, p)) + multiset(Filter(xs, q)) == multiset(xs)
    decreases |xs|
  {
    if xs != [] {
      var rest, x := xs[..|xs| - 1], xs[|xs| - 1];
      assert x in xs && forall y <- rest :: y in xs;
      FilterSplits(rest, p, q);
      assert xs == rest + [x];
      assert Filter(xs, p) == (if p(x) then Filter(rest, p) + [x] else Filter(rest, p));
      assert Filter(xs, q) == (if p(x) then Filter(rest, q) else Filter(rest, q) + [x]);
      OneSideGrows(Filter(rest, p), Filter(rest, q), rest, x);
    }
  }
}
