/** The two validators a chunk manifest passes: the upload broker's, against the signed intent, and the seeder's. Sums
    run in 64 bits and wrap around; JSON decoding is done before. */
module Manifest {
  import opened Wrappers
  import opened Seqs
  import opened Text
  import opened Chunker
  import opened Spellings

  const DEFAULT_MAX_MANIFEST_BYTES := 5 * 1024 * 1024

  /** The broker reads sizes as 32 bits, the seeder as 64. */
  datatype Entry = Entry(index: Uint32, size: Uint64, hash: string)

  datatype ChunkManifest = ChunkManifest(modelId: string, modelName: string, chunks: seq<Entry>, totalSize: Uint64)

  datatype UploadIntent = UploadIntent(
    creator: string, modelId: string, totalSize: Uint64, chunkCount: Uint32, manifestHash: string, nonce: Option<int>, deadline: int)

  datatype Fault = WrongIndex | ZeroSize | BadHash

  datatype ManifestError =
    | TooLarge | HashMismatch | ModelMismatch | CountMismatch | NoChunks | BadEntry(at: nat, fault: Fault)
    | SumMismatch | TotalMismatch | NilManifest

  predicate IsSha256Hex(s: string) {
    |s| == 64 && AllLowerHex(s)
  }

  function SumSizes(chunks: seq<Entry>): nat {
    if chunks == [] then 0 else SumSizes(chunks[..|chunks| - 1]) + chunks[|chunks| - 1].size
  }

  predicate NarrowSizes(chunks: seq<Entry>) {
    forall c <- chunks :: c.size < UINT32_SIZE
  }

  // ----- the broker's validator -----

  /** The first faulty entry, and what is wrong with it. */
  predicate FirstFault(check: (Entry, nat) -> Option<Fault>, chunks: seq<Entry>, at: nat, fault: Fault) {
    at < |chunks| && check(chunks[at], at) == Some(fault) && NoFault(check, chunks[..at])
  }

  predicate NoFault(check: (Entry, nat) -> Option<Fault>, chunks: seq<Entry>) {
    forall i | 0 <= i < |chunks| :: check(chunks[i], i) == None
  }

  function BrokerFault(c: Entry, i: nat): Option<Fault> {
    if c.index != i % UINT32_SIZE then Some(WrongIndex)
    else if c.size == 0 then Some(ZeroSize)
    else if !IsSha256Hex(BareForm(c.hash)) then Some(BadHash)
    else None
  }

  function ManifestCap(maxBytes: int): nat {
    if maxBytes <= 0 then DEFAULT_MAX_MANIFEST_BYTES else maxBytes
  }

  predicate SameModel(manifest: ChunkManifest, intent: UploadIntent) {
    manifest.modelId != "" && intent.modelId != "" ==> BareForm(manifest.modelId) == BareForm(intent.modelId)
  }

  predicate SoundEntries(chunks: seq<Entry>) {
    forall i | 0 <= i < |chunks| :: chunks[i].index == i && 0 < chunks[i].size && IsSha256Hex(BareForm(chunks[i].hash))
  }

  /** What the signed intent promises of the manifest: sizes add up as numbers, with no wrap-around. */
  predicate BrokerAccepts(raw: seq<Byte>, manifest: ChunkManifest, intent: UploadIntent, maxBytes: int, sha: Digest) {
    && |raw| <= ManifestCap(maxBytes)
    && Hex(sha(raw)) == BareForm(intent.manifestHash)
    && SameModel(manifest, intent)
    && manifest.chunks != [] && |manifest.chunks| == intent.chunkCount
    && SoundEntries(manifest.chunks)
    && SumSizes(manifest.chunks) == intent.totalSize
    && (manifest.totalSize == 0 || manifest.totalSize == intent.totalSize)
  }

  method ValidateForBroker(raw: seq<Byte>, manifest: ChunkManifest, intent: UploadIntent, maxBytes: int, sha: Digest)
    returns (r: Result<(), ManifestError>)
    requires NarrowSizes(manifest.chunks)
    ensures r.Success? <==> BrokerAccepts(raw, manifest, intent, maxBytes, sha)
    ensures
      var tooLarge := |raw| > if maxBytes <= 0 then 5 * 1024 * 1024 else maxBytes;
      var otherBytes := Hex(sha(raw)) != BareForm(intent.manifestHash);
      var otherModel := manifest.modelId != "" && intent.modelId != "" && BareForm(manifest.modelId) != BareForm(intent.modelId);
      && (r == Failure(TooLarge) <==> tooLarge)
      && (r == Failure(HashMismatch) <==> !tooLarge && otherBytes)
      && (r == Failure(ModelMismatch) <==> !tooLarge && !otherBytes && otherModel)
      && (r == Failure(CountMismatch) <==> !tooLarge && !otherBytes && !otherModel && |manifest.chunks| != intent.chunkCount)
    ensures r.Failure? && r.error.BadEntry? ==> FirstFault(BrokerFault, manifest.chunks, r.error.at, r.error.fault)
  {
    var limit := if maxBytes <= 0 then DEFAULT_MAX_MANIFEST_BYTES else maxBytes;
    if |raw| > limit {
      return Failure(TooLarge);
    }
    BareFormIsLower(intent.manifestHash);
    LowerHexIsLower(Hex(sha(raw)));
    if ToLower(Hex(sha(raw))) != ToLower(BareForm(intent.manifestHash)) {
      return Failure(HashMismatch);
    }
    if manifest.modelId != "" && intent.modelId != "" {
      if BareForm(manifest.modelId) != BareForm(intent.modelId) {
        return Failure(ModelMismatch);
      }
    }
    if |manifest.chunks| != intent.chunkCount {
      return Failure(CountMismatch);
    }
    if |manifest.chunks| == 0 {
      return Failure(NoChunks);
    }
    SoundExactlyWithoutFault(manifest.chunks);
    var accumulated := SumBrokerEntries(manifest.chunks);
    if accumulated.Failure? {
      return Failure(accumulated.error);
    }
    if accumulated.value != intent.totalSize {
      return Failure(SumMismatch);
    }
    if manifest.totalSize != 0 && manifest.totalSize != intent.totalSize {
      return Failure(TotalMismatch);
    }
    return Success(());
  }

  /** Only the bytes that were hashed for the intent are accepted, however their hash is spelled. */
  lemma AcceptedBytesWereSigned(
      raw: seq<Byte>, manifest: ChunkManifest, intent: UploadIntent, maxBytes: int, sha: Digest, signed: seq<Byte>)
    requires CollisionFree(sha) && Spells(intent.manifestHash, Hex(sha(signed)))
    requires BrokerAccepts(raw, manifest, intent, maxBytes, sha)
    ensures raw == signed
  {
    BareExactlyWhenSpelled(intent.manifestHash, Hex(sha(signed)));
    HexInjective(sha(raw), sha(signed));
  }

  /** Two manifests accepted for one signed hash are one. */
  lemma OneManifestForOneHash(
      raw: seq<Byte>, m: ChunkManifest, a: UploadIntent, maxBytes: int, other: seq<Byte>, n: ChunkManifest, b: UploadIntent,
      otherMax: int, sha: Digest)
    requires CollisionFree(sha) && a.manifestHash == b.manifestHash
    requires BrokerAccepts(raw, m, a, maxBytes, sha) && BrokerAccepts(other, n, b, otherMax, sha)
    ensures raw == other
  {
    HexInjective(sha(raw), sha(other));
  }

  /** No manifest that names another model is accepted. */
  lemma AcceptedManifestNamesTheModel(
      raw: seq<Byte>, manifest: ChunkManifest, intent: UploadIntent, maxBytes: int, sha: Digest, model: string, asked: string)
    requires Spells(manifest.modelId, model) && Spells(intent.modelId, asked)
    requires BrokerAccepts(raw, manifest, intent, maxBytes, sha)
    ensures model == asked
  {
    BareExactlyWhenSpelled(manifest.modelId, model);
    BareExactlyWhenSpelled(intent.modelId, asked);
    SpelledIsNotBlank(manifest.modelId, model);
    SpelledIsNotBlank(intent.modelId, asked);
  }

  lemma SoundExactlyWithoutFault(chunks: seq<Entry>)
    requires |chunks| < UINT32_SIZE
    ensures SoundEntries(chunks) <==> NoFault(BrokerFault, chunks)
  {
    forall i | 0 <= i < |chunks|
      ensures BrokerFault(chunks[i], i) == None
        <==> chunks[i].index == i && 0 < chunks[i].size && IsSha256Hex(BareForm(chunks[i].hash))
    {
    }
  }

  lemma NoFaultYet(check: (Entry, nat) -> Option<Fault>, chunks: seq<Entry>, i: nat)
    requires i < |chunks| && NoFault(check, chunks[..i]) && check(chunks[i], i) == None
    ensures NoFault(check, chunks[..i + 1])
  {
  }

  /** The broker's loop over the entries, summing in 64 bits. */
  method SumBrokerEntries(chunks: seq<Entry>) returns (r: Result<Uint64, ManifestError>)
    requires NarrowSizes(chunks) && |chunks| < UINT32_SIZE
    ensures r.Success? <==> NoFault(BrokerFault, chunks)
    ensures r.Success? ==> r.value == SumSizes(chunks)
    ensures r.Failure? ==> r.error.BadEntry? && FirstFault(BrokerFault, chunks, r.error.at, r.error.fault)
  {
    var accumulated: Uint64 := 0;
    for i := 0 to |chunks|
      invariant NoFault(BrokerFault, chunks[..i])
      invariant accumulated == Wrap64(SumSizes(chunks[..i]))
    {
      var fault := BrokerFault(chunks[i], i);
      if fault.Some? {
        return Failure(BadEntry(i, fault.value));
      }
      NoFaultYet(BrokerFault, chunks, i);
      WrappedSumStep(chunks, i, accumulated);
      accumulated := Wrap64(accumulated + chunks[i].size);
    }
    assert chunks[..|chunks|] == chunks;
    SumCannotWrap(chunks);
    return Success(accumulated);
  }

  lemma BareFormIsLower(s: string)
    ensures ToLower(BareForm(s)) == BareForm(s)
  {
    ToLowerAgain(TrimSpace(s));
    var clean, form := Clean(s), BareForm(s);
    forall i | 0 <= i < |form| ensures ToLower(form)[i] == form[i] {
      var at := |clean| - |form| + i;
      assert form[i] == clean[at] == ToLower(clean)[at];
    }
  }

  lemma SumSnoc(chunks: seq<Entry>, i: nat)
    requires i < |chunks|
    ensures SumSizes(chunks[..i + 1]) == SumSizes(chunks[..i]) + chunks[i].size
  {
    assert chunks[..i + 1][..i] == chunks[..i];
  }

  lemma WrappedSumStep(chunks: seq<Entry>, i: nat, acc: nat)
    requires i < |chunks| && acc == Wrap64(SumSizes(chunks[..i]))
    ensures Wrap64(acc + chunks[i].size) == Wrap64(SumSizes(chunks[..i + 1]))
  {
    SumSnoc(chunks, i);
    WrapAgain(SumSizes(chunks[..i]), chunks[i].size);
  }

  lemma {:induction false} SumIsBounded(chunks: seq<Entry>)
    requires NarrowSizes(chunks)
    ensures SumSizes(chunks) <= |chunks| * (UINT32_SIZE - 1)
  {
    if chunks != [] {
      SumIsBounded(chunks[..|chunks| - 1]);
      assert chunks[|chunks| - 1] in chunks;
    }
  }

  /** Fewer than 2^32 sizes of 32 bits each add up without leaving 64 bits. */
  lemma SumCannotWrap(chunks: seq<Entry>)
    requires NarrowSizes(chunks) && |chunks| < UINT32_SIZE
    ensures SumSizes(chunks) < UINT64_SIZE && Wrap64(SumSizes(chunks)) == SumSizes(chunks)
  {
    SumIsBounded(chunks);
  }

  /** The entry the broker reports is faulty in the way it says, and all before it are sound. */
  lemma ReportedByBroker(chunks: seq<Entry>, at: nat, fault: Fault)
    requires FirstFault(BrokerFault, chunks, at, fault) && |chunks| < UINT32_SIZE
    ensures at < |chunks|
    ensures forall i | 0 <= i < at :: chunks[i].index == i && 0 < chunks[i].size && IsSha256Hex(BareForm(chunks[i].hash))
    ensures match fault
      case WrongIndex => chunks[at].index != at
      case ZeroSize => chunks[at].index == at && chunks[at].size == 0
      case BadHash => chunks[at].index == at && 0 < chunks[at].size && !IsSha256Hex(BareForm(chunks[at].hash))
  {
    forall i | 0 <= i < at
      ensures chunks[i].index == i && 0 < chunks[i].size && IsSha256Hex(BareForm(chunks[i].hash))
    {
      assert BrokerFault(chunks[..at][i], i) == None;
    }
  }

  // ----- the seeder's validator -----

  function SeederFault(c: Entry, i: nat): Option<Fault> {
    if c.index != i % UINT32_SIZE then Some(WrongIndex)
    else if !IsSha256Hex(SeederForm(c.hash)) then Some(BadHash)
    else if c.size == 0 then Some(ZeroSize)
    else None
  }

  predicate SeederAccepts(m: ChunkManifest) {
    && m.chunks != []
    && NoFault(SeederFault, m.chunks)
    && Wrap64(SumSizes(m.chunks)) == m.totalSize
  }

  /** What the seeder asks of the entries: their numbers in order, in 32 bits, canonical hashes, and no empty chunk. */
  lemma SeederSoundExactly(chunks: seq<Entry>)
    ensures NoFault(SeederFault, chunks) <==>
      forall i | 0 <= i < |chunks| :: chunks[i].index == i % UINT32_SIZE && IsSha256Hex(SeederForm(chunks[i].hash)) && 0 < chunks[i].size
  {
    forall i | 0 <= i < |chunks|
      ensures SeederFault(chunks[i], i) == None <==>
        chunks[i].index == i % UINT32_SIZE && IsSha256Hex(SeederForm(chunks[i].hash)) && 0 < chunks[i].size
    {
    }
  }

  /** The entry the seeder reports is faulty in the way it says, and all before it are sound. */
  lemma ReportedBySeeder(chunks: seq<Entry>, at: nat, fault: Fault)
    requires FirstFault(SeederFault, chunks, at, fault)
    ensures at < |chunks| && NoFault(SeederFault, chunks[..at])
    ensures match fault
      case WrongIndex => chunks[at].index != at % UINT32_SIZE
      case BadHash => chunks[at].index == at % UINT32_SIZE && !IsSha256Hex(SeederForm(chunks[at].hash))
      case ZeroSize => chunks[at].index == at % UINT32_SIZE && IsSha256Hex(SeederForm(chunks[at].hash)) && chunks[at].size == 0
  {
  }

  method ValidateForSeeder(m: Option<ChunkManifest>) returns (r: Result<(), ManifestError>)
    ensures r.Success? <==> m.Some? && SeederAccepts(m.value)
    ensures r == Failure(NilManifest) <==> m.None?
    ensures r == Failure(NoChunks) <==> m.Some? && m.value.chunks == []
    ensures r == Failure(SumMismatch) <==>
      m.Some? && m.value.chunks != [] && NoFault(SeederFault, m.value.chunks) && Wrap64(SumSizes(m.value.chunks)) != m.value.totalSize
    ensures r.Failure? && r.error.BadEntry? ==> m.Some? && FirstFault(SeederFault, m.value.chunks, r.error.at, r.error.fault)
  {
    if m.None? {
      return Failure(NilManifest);
    }
    if |m.value.chunks| == 0 {
      return Failure(NoChunks);
    }
    var total := SumSeederEntries(m.value.chunks);
    if total.Failure? {
      return Failure(total.error);
    }
    if total.value != m.value.totalSize {
      return Failure(SumMismatch);
    }
    return Success(());
  }

  /** The seeder's loop over the entries, summing in 64 bits. */
  method SumSeederEntries(chunks: seq<Entry>) returns (r: Result<Uint64, ManifestError>)
    ensures r.Success? <==> NoFault(SeederFault, chunks)
    ensures r.Success? ==> r.value == Wrap64(SumSizes(chunks))
    ensures r.Failure? ==> r.error.BadEntry? && FirstFault(SeederFault, chunks, r.error.at, r.error.fault)
  {
    var total: Uint64 := 0;
    for i := 0 to |chunks|
      invariant NoFault(SeederFault, chunks[..i])
      invariant total == Wrap64(SumSizes(chunks[..i]))
    {
      if chunks[i].index != i % UINT32_SIZE {
        return Failure(BadEntry(i, WrongIndex));
      }
      var ok := IsHashSpelling(SeederForm(chunks[i].hash));
      if !ok {
        return Failure(BadEntry(i, BadHash));
      }
      if chunks[i].size == 0 {
        return Failure(BadEntry(i, ZeroSize));
      }
      WrappedSumStep(chunks, i, total);
      total := Wrap64(total + chunks[i].size);
    }
    assert chunks[..|chunks|] == chunks;
    return Success(total);
  }

  method IsHashSpelling(clean: string) returns (ok: bool)
    ensures ok == IsSha256Hex(clean)
  {
    if |clean| != 64 {
      return false;
    }
    for k := 0 to |clean|
      invariant forall j | 0 <= j < k :: IsLowerHex(clean[j])
    {
      if !IsLowerHex(clean[k]) {
        return false;
      }
    }
    return true;
  }

  // ----- tiling -----

  /** Byte p of the file lies in chunk i, whose place follows from the sizes before it. */
  predicate Covers(chunks: seq<Entry>, i: nat, p: nat)
    requires i < |chunks|
  {
    SumSizes(chunks[..i]) <= p < SumSizes(chunks[..i]) + chunks[i].size
  }

  ghost predicate Covered(chunks: seq<Entry>, p: nat) {
    exists i: nat | i < |chunks| :: Covers(chunks, i, p)
  }

  /** The chunks cover every byte of a file of this size once, and no other. */
  ghost predicate Tiles(chunks: seq<Entry>, total: nat) {
    && (forall p: nat :: Covered(chunks, p) <==> p < total)
    && (forall p: nat, i: nat, j: nat | i < |chunks| && j < |chunks| && Covers(chunks, i, p) && Covers(chunks, j, p) :: i == j)
  }

  lemma {:induction false} SumGrows(chunks: seq<Entry>, i: nat, j: nat)
    requires i <= j <= |chunks|
    ensures SumSizes(chunks[..i]) <= SumSizes(chunks[..j])
    decreases j
  {
    if i < j {
      SumGrows(chunks, i, j - 1);
      SumSnoc(chunks, j - 1);
    }
  }

  lemma {:induction false} CoveredBelow(chunks: seq<Entry>, n: nat, p: nat)
    requires n <= |chunks| && p < SumSizes(chunks[..n])
    ensures exists i: nat | i < n :: Covers(chunks, i, p)
  {
    if n > 0 {
      SumSnoc(chunks, n - 1);
      if p < SumSizes(chunks[..n - 1]) {
        CoveredBelow(chunks, n - 1, p);
      } else {
        assert Covers(chunks, n - 1, p);
      }
    }
  }

  lemma CoveredOnce(chunks: seq<Entry>, i: nat, j: nat, p: nat)
    requires i < |chunks| && j < |chunks| && Covers(chunks, i, p) && Covers(chunks, j, p)
    ensures i == j && p < SumSizes(chunks)
  {
    SumSnoc(chunks, i);
    SumSnoc(chunks, j);
    SumGrows(chunks, i + 1, |chunks|);
    assert chunks[..|chunks|] == chunks;
    if i < j {
      SumGrows(chunks, i + 1, j);
    } else if j < i {
      SumGrows(chunks, j + 1, i);
    }
  }

  lemma SumTiles(chunks: seq<Entry>)
    ensures Tiles(chunks, SumSizes(chunks))
  {
    assert chunks[..|chunks|] == chunks;
    forall p: nat ensures Covered(chunks, p) <==> p < SumSizes(chunks) {
      if p < SumSizes(chunks) {
        CoveredBelow(chunks, |chunks|, p);
      } else {
        forall i: nat | i < |chunks| ensures !Covers(chunks, i, p) {
          if Covers(chunks, i, p) {
            CoveredOnce(chunks, i, i, p);
          }
        }
      }
    }
    forall p: nat, i: nat, j: nat | i < |chunks| && j < |chunks| && Covers(chunks, i, p) && Covers(chunks, j, p) ensures i == j {
      CoveredOnce(chunks, i, j, p);
    }
  }

  lemma ByteLiesInOneChunk(chunks: seq<Entry>, total: nat, p: nat) returns (i: nat)
    requires Tiles(chunks, total) && p < total
    ensures i < |chunks| && Covers(chunks, i, p) && forall j: nat | j < |chunks| && Covers(chunks, j, p) :: j == i
  {
    assert Covered(chunks, p);
    i :| i < |chunks| && Covers(chunks, i, p);
  }

  lemma TilesOnlyItsSum(chunks: seq<Entry>, total: nat)
    requires Tiles(chunks, total)
    ensures total == SumSizes(chunks)
  {
    SumTiles(chunks);
    var sum := SumSizes(chunks);
    assert Covered(chunks, total) <==> total < sum;
    assert Covered(chunks, sum) <==> sum < total;
  }

  /** A manifest the broker accepts covers the signed size without gap or overlap. */
  lemma AcceptedManifestTiles(raw: seq<Byte>, manifest: ChunkManifest, intent: UploadIntent, maxBytes: int, sha: Digest)
    requires BrokerAccepts(raw, manifest, intent, maxBytes, sha)
    ensures Tiles(manifest.chunks, intent.totalSize)
  {
    SumTiles(manifest.chunks);
  }

  /** The seeder's sum can wrap, and a manifest it accepts covers its total size exactly when the sizes stay in 64 bits. */
  lemma SeederManifestTilesExactlyWhen(m: ChunkManifest)
    requires SeederAccepts(m)
    ensures Tiles(m.chunks, m.totalSize) <==> SumSizes(m.chunks) < UINT64_SIZE
  {
    SumTiles(m.chunks);
    if Tiles(m.chunks, m.totalSize) {
      TilesOnlyItsSum(m.chunks, m.totalSize);
    }
  }

  lemma SeederSumCanWrap(hash: string)
    requires IsSha256Hex(SeederForm(hash))
    ensures
      var half := INT64_SIZE;
      var m := ChunkManifest("m", "", [Entry(0, half, hash), Entry(1, half, hash)], 0);
      SeederAccepts(m) && !Tiles(m.chunks, m.totalSize)
  {
    var half := INT64_SIZE;
    var chunks := [Entry(0, half, hash), Entry(1, half, hash)];
    assert chunks[..1] == [Entry(0, half, hash)] && chunks[..1][..0] == [];
    assert SumSizes(chunks[..1]) == half;
    SeederManifestTilesExactlyWhen(ChunkManifest("m", "", chunks, 0));
  }

  // ----- from one validator to the other -----

  predicate CanonicalHash(hash: string) {
    TrimSpace(hash) == hash && !("0X" <= hash)
  }

  /** A hash the broker takes is one the seeder takes exactly when it has no space around it and no upper-case "0X". */
  lemma HashPassesBothExactlyWhen(hash: string)
    requires IsSha256Hex(BareForm(hash))
    ensures IsSha256Hex(SeederForm(hash)) <==> CanonicalHash(hash)
  {
    if TrimSpace(hash) == hash {
      TightHashPassesExactlyWhen(hash);
    } else {
      LooseHasSpaceAtAnEnd(hash);
      var bare, form := TrimPrefix(hash, "0x"), SeederForm(hash);
      if IsSpace(hash[0]) {
        assert form[0] == hash[0] && form[0] in form;
      } else {
        assert |bare| > 0 && bare[|bare| - 1] == hash[|hash| - 1];
        assert form[|form| - 1] == hash[|hash| - 1] && form[|form| - 1] in form;
      }
    }
  }

  lemma TightHashPassesExactlyWhen(hash: string)
    requires TrimSpace(hash) == hash && IsSha256Hex(BareForm(hash))
    ensures IsSha256Hex(SeederForm(hash)) <==> !("0X" <= hash)
  {
    var low := ToLower(hash);
    PrefixOfTwo(low, '0', 'x');
    PrefixOfTwo(hash, '0', 'x');
    PrefixOfTwo(hash, '0', 'X');
    if "0X" <= hash {
      assert |SeederForm(hash)| == |hash| == 66;
    } else if "0x" <= hash {
      assert SeederForm(hash) == low[2..];
    } else {
      assert SeederForm(hash) == low == BareForm(hash);
    }
  }

  lemma LooseHasSpaceAtAnEnd(s: string)
    requires TrimSpace(s) != s
    ensures s != "" && (IsSpace(s[0]) || IsSpace(s[|s| - 1]))
  {
  }

  lemma SoundForBothExactlyWhen(chunks: seq<Entry>)
    requires SoundEntries(chunks) && |chunks| < UINT32_SIZE
    ensures NoFault(SeederFault, chunks) <==> forall c <- chunks :: CanonicalHash(c.hash)
  {
    forall i | 0 <= i < |chunks|
      ensures SeederFault(chunks[i], i) == None <==> CanonicalHash(chunks[i].hash)
      ensures chunks[i] in chunks
    {
      HashPassesBothExactlyWhen(chunks[i].hash);
    }
  }

  lemma SoundSumIsPositive(chunks: seq<Entry>)
    requires SoundEntries(chunks) && chunks != []
    ensures 0 < SumSizes(chunks)
  {
  }

  /** What the broker pinned, the seeder will serve exactly when the manifest states its total size and spells every
      hash canonically. */
  lemma SeederTakesBrokersManifestExactlyWhen(raw: seq<Byte>, m: ChunkManifest, intent: UploadIntent, maxBytes: int, sha: Digest)
    requires BrokerAccepts(raw, m, intent, maxBytes, sha)
    ensures SeederAccepts(m) <==> m.totalSize != 0 && forall c <- m.chunks :: CanonicalHash(c.hash)
  {
    SoundForBothExactlyWhen(m.chunks);
    SoundSumIsPositive(m.chunks);
  }

  // ----- what a creator uploads -----

  ghost predicate IsSha256(sha: Digest) {
    forall data :: |sha(data)| == 32
  }

  predicate FitsWords(chunks: seq<ChunkResult>) {
    forall c <- chunks :: c.index < UINT32_SIZE && |c.data| < UINT64_SIZE
  }

  /** The manifest a creator builds from the chunks of a file. */
  function UploadedManifest(chunks: seq<ChunkResult>, fileSize: Uint64, modelId: string, modelName: string): ChunkManifest
    requires FitsWords(chunks)
  {
    ChunkManifest(modelId, modelName, EntriesOf(chunks), fileSize)
  }

  function EntriesOf(chunks: seq<ChunkResult>): (entries: seq<Entry>)
    requires FitsWords(chunks)
    ensures |entries| == |chunks|
    ensures forall i | 0 <= i < |chunks| :: entries[i] == Entry(chunks[i].index, |chunks[i].data|, chunks[i].hash)
  {
    if chunks == [] then []
    else
      var c := chunks[|chunks| - 1];
      assert c in chunks;
      EntriesOf(chunks[..|chunks| - 1]) + [Entry(c.index, |c.data|, c.hash)]
  }

  /** The intent a creator signs for it. */
  function SignedIntent(manifest: ChunkManifest, raw: seq<Byte>, sha: Digest, creator: string, nonce: int, deadline: int): UploadIntent
    requires |manifest.chunks| < UINT32_SIZE
  {
    UploadIntent(creator, manifest.modelId, manifest.totalSize, |manifest.chunks|, HashOf(sha, raw), Some(nonce), deadline)
  }

  lemma HashOfForms(sha: Digest, data: seq<Byte>)
    requires IsSha256(sha)
    ensures BareForm(HashOf(sha, data)) == Hex(sha(data)) == SeederForm(HashOf(sha, data))
    ensures IsSha256Hex(Hex(sha(data)))
  {
    var hex, hash := Hex(sha(data)), HashOf(sha, data);
    LowerHexIsLower(hex);
    assert hash[|hash| - 1] == hex[|hex| - 1] && hex[|hex| - 1] in hex;
    assert TrimSpace(hash) == hash;
    assert ToLower(hash) == "0x" + ToLower(hex);
    assert "0x" <= hash && hash[2..] == hex;
  }

  lemma SumAppended(chunks: seq<Entry>, c: Entry)
    ensures SumSizes(chunks + [c]) == SumSizes(chunks) + c.size
  {
    assert (chunks + [c])[..|chunks|] == chunks;
  }

  lemma DataAppended(chunks: seq<ChunkResult>)
    requires chunks != []
    ensures var n := |chunks| - 1;
      |Flatten(DataOf(chunks))| == |Flatten(DataOf(chunks[..n]))| + |chunks[n].data|
  {
    var n := |chunks| - 1;
    assert DataOf(chunks) == DataOf(chunks[..n]) + [chunks[n].data];
    FlattenSnoc(DataOf(chunks[..n]), chunks[n].data);
  }

  lemma {:induction false} SumOfData(chunks: seq<ChunkResult>)
    requires FitsWords(chunks)
    ensures SumSizes(EntriesOf(chunks)) == |Flatten(DataOf(chunks))|
  {
    if chunks != [] {
      var c := chunks[|chunks| - 1];
      assert c in chunks && forall d <- chunks[..|chunks| - 1] :: d in chunks;
      SumOfData(chunks[..|chunks| - 1]);
      SumAppended(EntriesOf(chunks[..|chunks| - 1]), Entry(c.index, |c.data|, c.hash));
      DataAppended(chunks);
    }
  }

  lemma CutEntryIsSound(c: ChunkResult, i: Uint32, sha: Digest)
    requires IsSha256(sha) && c.index == i && c.hash == HashOf(sha, c.data) && 0 < |c.data| < UINT64_SIZE
    ensures var e := Entry(c.index, |c.data|, c.hash);
      BrokerFault(e, i) == None && SeederFault(e, i) == None
  {
    HashOfForms(sha, c.data);
  }

  lemma CutEntriesAreSound(chunks: seq<ChunkResult>, sha: Digest)
    requires FitsWords(chunks) && IsSha256(sha) && |chunks| < UINT32_SIZE
    requires forall i | 0 <= i < |chunks| :: chunks[i].index == i && chunks[i].hash == HashOf(sha, chunks[i].data) && chunks[i].data != []
    ensures SoundEntries(EntriesOf(chunks)) && NoFault(SeederFault, EntriesOf(chunks))
  {
    var entries := EntriesOf(chunks);
    forall i | 0 <= i < |chunks| ensures BrokerFault(entries[i], i) == None && SeederFault(entries[i], i) == None {
      assert chunks[i] in chunks;
      CutEntryIsSound(chunks[i], i, sha);
    }
    SoundExactlyWithoutFault(entries);
  }

  lemma SignedManifestPasses(m: ChunkManifest, raw: seq<Byte>, sha: Digest, creator: string, nonce: int, deadline: int, maxBytes: int)
    requires m.chunks != [] && |m.chunks| < UINT32_SIZE && SoundEntries(m.chunks) && NoFault(SeederFault, m.chunks)
    requires SumSizes(m.chunks) == m.totalSize && IsSha256(sha) && |raw| <= ManifestCap(maxBytes)
    ensures BrokerAccepts(raw, m, SignedIntent(m, raw, sha, creator, nonce, deadline), maxBytes, sha) && SeederAccepts(m)
  {
    HashOfForms(sha, raw);
  }

  /** For every non-empty file cut into at most 2^32 - 1 chunks of under 4 GB, the manifest and intent of the upload page
      pass both validators, given the JSON is within the broker's cap. */
  method UploadPassesBoth(
      file: seq<Byte>, chunkSize: nat, sha: Digest, raw: seq<Byte>, modelId: string, modelName: string,
      creator: string, nonce: int, deadline: int, maxBytes: int)
    returns (manifest: ChunkManifest, intent: UploadIntent)
    requires file != [] && 0 < chunkSize < UINT32_SIZE && PieceCount(|file|, chunkSize) < UINT32_SIZE && |file| < UINT64_SIZE
    requires IsSha256(sha) && |raw| <= ManifestCap(maxBytes)
    ensures |manifest.chunks| == PieceCount(|file|, chunkSize) && manifest.totalSize == |file|
    ensures BrokerAccepts(raw, manifest, intent, maxBytes, sha)
    ensures SeederAccepts(manifest)
  {
    var chunks := ChunkFile(file, chunkSize, sha);
    assert FitsWords(chunks);
    manifest := UploadedManifest(chunks, |file|, modelId, modelName);
    intent := SignedIntent(manifest, raw, sha, creator, nonce, deadline);
    SumOfData(chunks);
    CutEntriesAreSound(chunks, sha);
    assert chunks == [] ==> DataOf(chunks) == [];
    SignedManifestPasses(manifest, raw, sha, creator, nonce, deadline, maxBytes);
  }
}
