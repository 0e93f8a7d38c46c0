/** The seeder's chunk store on disk: files in one directory for each model, written beside their place and renamed.
    SHA-256 is a parameter; sizes are summed in 64 bits. */
module SeederStore {
  import opened Wrappers
  import opened Text
  import opened Chunker
  import Maps

  datatype File = File(dir: string, name: string)

  type Files = map<File, seq<Byte>>

  datatype StoreError = WrongHash | QuotaExceeded | InvalidModelId | ChunkNotFound | IoFailed

  /** How the disk takes a write; a failing write can leave any bytes behind in the temporary file, and after a failing
      rename the removal of that file can fail too. */
  datatype Disk = Works | MkdirFails | WriteFails(left: Option<seq<Byte>>) | RenameFails(removed: bool)

  datatype Stamp = Stamp(pid: nat, nanos: nat)

  /** A Go slice is shorter than 2^63. */
  predicate IsSlice(data: seq<Byte>) {
    |data| < INT64_SIZE
  }

  // ----- names -----

  function Sanitized(modelId: string): Option<string> {
    var clean := BareForm(modelId);
    if clean != "" && AllLowerHex(clean) then Some("0x" + clean) else None
  }

  function ChunkName(index: Uint32): string {
    Decimal(index) + ".bin"
  }

  function TempName(index: Uint32, stamp: Stamp): string {
    ChunkName(index) + ".tmp." + Decimal(stamp.pid) + "." + Decimal(stamp.nanos)
  }

  predicate IsBin(f: File) {
    HasSuffix(f.name, ".bin")
  }

  function IndexOf(name: string): Option<Uint32> {
    ParseUint32(TrimSuffix(name, ".bin"))
  }

  /** The name of a chunk file says its index, and no two indices share a name. */
  lemma ChunkNameParses(index: Uint32)
    ensures HasSuffix(ChunkName(index), ".bin") && IndexOf(ChunkName(index)) == Some(index)
  {
    var name := ChunkName(index);
    assert name[|name| - 4..] == ".bin" && name[..|name| - 4] == Decimal(index);
    ParsePrinted(index);
  }

  /** A temporary file never counts as a chunk file. */
  lemma TempNameIsNoBin(index: Uint32, stamp: Stamp)
    ensures !HasSuffix(TempName(index, stamp), ".bin")
  {
    var name, digits := TempName(index, stamp), Decimal(stamp.nanos);
    BinEndsInN(name);
    assert name[|name| - 1] == digits[|digits| - 1] && digits[|digits| - 1] in digits;
  }

  lemma BinEndsInN(s: string)
    ensures HasSuffix(s, ".bin") ==> s[|s| - 1] == 'n'
  {
    if HasSuffix(s, ".bin") {
      assert s[|s| - 1] == s[|s| - 4..][3];
    }
  }

  // ----- usage -----

  function Size(data: seq<Byte>): nat {
    |data|
  }

  ghost function BinFiles(files: Files): Files {
    map f | f in files && IsBin(f) :: files[f]
  }

  /** The bytes all chunk files take. */
  ghost function Used(files: Files): nat {
    Maps.SumOver(BinFiles(files), Size)
  }

  lemma UsedAfterPut(files: Files, f: File, data: seq<Byte>)
    requires IsBin(f)
    ensures Used(files[f := data]) + (if f in files then |files[f]| else 0) == Used(files) + |data|
  {
    assert BinFiles(files[f := data]) == BinFiles(files)[f := data];
    Maps.SumAfterPut(BinFiles(files), f, data, Size);
  }

  lemma UsedIgnoresOthers(files: Files, f: File, data: seq<Byte>)
    requires !IsBin(f)
    ensures Used(files[f := data]) == Used(files) && Used(files - {f}) == Used(files)
  {
    assert BinFiles(files[f := data]) == BinFiles(files) && BinFiles(files - {f}) == BinFiles(files);
  }

  // ----- what the operations do -----

  datatype Put = Put(modelId: string, index: Uint32, data: seq<Byte>, expectedHash: string, stamp: Stamp, disk: Disk)

  predicate Genuine(sha: Digest, data: seq<Byte>, expectedHash: string) {
    Hex(sha(data)) == SeederForm(expectedHash)
  }

  ghost predicate OverQuota(files: Files, quota: Uint64, data: seq<Byte>) {
    quota > 0 && Wrap64(Used(files) + |data|) > quota
  }

  ghost function PutError(sha: Digest, quota: Uint64, files: Files, p: Put): Option<StoreError> {
    if !Genuine(sha, p.data, p.expectedHash) then Some(WrongHash)
    else if OverQuota(files, quota, p.data) then Some(QuotaExceeded)
    else if Sanitized(p.modelId).None? then Some(InvalidModelId)
    else if !p.disk.Works? then Some(IoFailed)
    else None
  }

  /** How writing beside the place and renaming ends: the chunk in its place, or no chunk file touched. */
  function Written(files: Files, place: File, temp: File, data: seq<Byte>, disk: Disk): Files {
    match disk
    case MkdirFails => files
    case WriteFails(left) => if left.Some? then files[temp := left.value] else files
    case RenameFails(removed) => if removed then files - {temp} else files[temp := data]
    case Works => (files - {temp})[place := data]
  }

  function Place(dir: string, index: Uint32): File {
    File(dir, ChunkName(index))
  }

  function Beside(dir: string, index: Uint32, stamp: Stamp): File {
    File(dir, TempName(index, stamp))
  }

  /** What a put that ends this way leaves on disk. */
  function Applied(files: Files, p: Put, error: Option<StoreError>): Files {
    var dir := Sanitized(p.modelId);
    if dir.Some? && (error.None? || error == Some(IoFailed))
    then Written(files, Place(dir.value, p.index), Beside(dir.value, p.index, p.stamp), p.data, p.disk)
    else files
  }

  ghost function AfterPut(sha: Digest, quota: Uint64, files: Files, p: Put): Files {
    Applied(files, p, PutError(sha, quota, files, p))
  }

  /** The model's directory is removed, except for files a failing removal leaves behind. */
  ghost function AfterDelete(files: Files, modelId: string, stuck: Option<set<File>>): Files {
    map f | f in files && !Removes(modelId, stuck, f) :: files[f]
  }

  predicate Removes(modelId: string, stuck: Option<set<File>>, f: File) {
    Sanitized(modelId) == Some(f.dir) && (stuck.Some? ==> f !in stuck.value)
  }

  function Lookup(files: Files, modelId: string, index: Uint32): Option<seq<Byte>> {
    var dir := Sanitized(modelId);
    if dir.Some? && Place(dir.value, index) in files then Some(files[Place(dir.value, index)]) else None
  }

  /** Every file that counts as a chunk file has the name of an index. */
  ghost predicate WellNamed(files: Files) {
    forall f <- files | IsBin(f) :: IndexOf(f.name).Some? && f.name == ChunkName(IndexOf(f.name).value)
  }

  /** Each element is greater than the one before. */
  ghost predicate Increasing(xs: seq<Uint32>) {
    forall i | 0 < i < |xs| :: xs[i - 1] < xs[i]
  }

  lemma {:induction false} EarlierIsLess(xs: seq<Uint32>, i: nat, j: nat)
    requires Increasing(xs) && i < j < |xs|
    ensures xs[i] < xs[j]
    decreases j
  {
    if i + 1 < j {
      EarlierIsLess(xs, i, j - 1);
    }
  }

  class Store {
    const maxStorageBytes: Uint64
    const sha: Digest
    var files: Files

    constructor (maxStorageBytes: Uint64, sha: Digest)
      ensures this.maxStorageBytes == maxStorageBytes && this.sha == sha && files == map[]
    {
      this.maxStorageBytes, this.sha, this.files := maxStorageBytes, sha, map[];
    }

    method PutChunk(modelId: string, index: Uint32, data: seq<Byte>, expectedHash: string, stamp: Stamp, disk: Disk)
      returns (r: Result<(), StoreError>)
      requires IsSlice(data)
      modifies this
      ensures
        var p := Put(modelId, index, data, expectedHash, stamp, disk);
        var error := PutError(sha, maxStorageBytes, old(files), p);
        && r == (if error.Some? then Failure(error.value) else Success(()))
        && files == AfterPut(sha, maxStorageBytes, old(files), p)
      ensures
        var wrong := Hex(sha(data)) != SeederForm(expectedHash);
        var full := maxStorageBytes > 0 && Wrap64(Used(old(files)) + |data|) > maxStorageBytes;
        && (r == Failure(WrongHash) <==> wrong)
        && (r == Failure(QuotaExceeded) <==> !wrong && full)
        && (r == Failure(InvalidModelId) <==> !wrong && !full && Sanitized(modelId).None?)
        && (r == Failure(IoFailed) <==> !wrong && !full && Sanitized(modelId).Some? && !disk.Works?)
    {
      if Hex(sha(data)) != SeederForm(expectedHash) {
        return Failure(WrongHash);
      }
      var currentUsage := GetTotalUsedBytes();
      WrapAgain(Used(files), |data|);
      if maxStorageBytes > 0 && Wrap64(currentUsage + |data|) > maxStorageBytes {
        return Failure(QuotaExceeded);
      }
      assert Genuine(sha, data, expectedHash) && !OverQuota(files, maxStorageBytes, data);
      var dir := Sanitized(modelId);
      if dir.None? {
        return Failure(InvalidModelId);
      }
      r := WriteBeside(Place(dir.value, index), Beside(dir.value, index, stamp), data, disk);
    }

    /** Writes the data beside its place and renames it. */
    method WriteBeside(target: File, temp: File, data: seq<Byte>, disk: Disk) returns (r: Result<(), StoreError>)
      modifies this
      ensures files == Written(old(files), target, temp, data, disk)
      ensures r == if disk.Works? then Success(()) else Failure(IoFailed)
      ensures target != temp ==>
        (if disk.Works? then target in files && files[target] == data else target in files <==> target in old(files))
      ensures target != temp ==>
        match disk
        case Works => temp !in files
        case MkdirFails => files == old(files)
        case WriteFails(left) => if left.Some? then temp in files && files[temp] == left.value else files == old(files)
        case RenameFails(removed) => if removed then temp !in files else temp in files && files[temp] == data
      ensures forall f | f != target && f != temp :: (f in files <==> f in old(files)) && (f in files ==> files[f] == old(files)[f])
    {
      if disk.MkdirFails? {
        return Failure(IoFailed);
      }
      if disk.WriteFails? {
        if disk.left.Some? {
          files := files[temp := disk.left.value];
        }
        return Failure(IoFailed);
      }
      ghost var before := files;
      files := files[temp := data];
      if disk.RenameFails? {
        if disk.removed {
          files := files - {temp};
          assert files == before - {temp};
        }
        return Failure(IoFailed);
      }
      files := (files - {temp})[target := data];
      assert files == (before - {temp})[target := data];
      return Success(());
    }

    method GetChunk(modelId: string, index: Uint32) returns (r: Result<seq<Byte>, StoreError>)
      ensures r.Success? <==> Lookup(files, modelId, index).Some?
      ensures r.Success? ==> Lookup(files, modelId, index) == Some(r.value)
      ensures r.Failure? ==> r.error == if Sanitized(modelId).None? then InvalidModelId else ChunkNotFound
    {
      var dir := Sanitized(modelId);
      if dir.None? {
        return Failure(InvalidModelId);
      }
      if Place(dir.value, index) !in files {
        return Failure(ChunkNotFound);
      }
      return Success(files[Place(dir.value, index)]);
    }

    method HasChunk(modelId: string, index: Uint32) returns (has: bool)
      ensures has <==> Lookup(files, modelId, index).Some?
    {
      var dir := Sanitized(modelId);
      has := dir.Some? && Place(dir.value, index) in files;
    }

    /** The held indices in increasing order: exactly those HasChunk knows. */
    method GetHeldChunks(modelId: string) returns (r: Result<seq<Uint32>, StoreError>)
      requires WellNamed(files)
      ensures r == Failure(InvalidModelId) <==> r.Failure?
      ensures r.Failure? <==> Sanitized(modelId).None?
      ensures r.Success? ==> Increasing(r.value) && forall index: Uint32 :: index in r.value <==> Lookup(files, modelId, index).Some?
      ensures r.Success? ==> forall i, j | 0 <= i < j < |r.value| :: r.value[i] < r.value[j]
    {
      var dir := Sanitized(modelId);
      if dir.None? {
        return Failure(InvalidModelId);
      }
      var entries := set f | f in files && f.dir == dir.value :: f.name;
      var indices: seq<Uint32> := [];
      while entries != {}
        invariant entries <= set f | f in files && f.dir == dir.value :: f.name
        invariant Distinct(indices)
        invariant forall index: Uint32 ::
          index in indices <==> Place(dir.value, index) in files && ChunkName(index) !in entries
        decreases |entries|
      {
        var name :| name in entries;
        var f := File(dir.value, name);
        assert f in files;
        forall index: Uint32 ensures HasSuffix(ChunkName(index), ".bin") && IndexOf(ChunkName(index)) == Some(index) {
          ChunkNameParses(index);
        }
        entries := entries - {name};
        if HasSuffix(name, ".bin") {
          var index := IndexOf(name);
          if index.Some? {
            indices := indices + [index.value];
          }
        }
      }
      indices := Sort(indices);
      forall i, j | 0 <= i < j < |indices| ensures indices[i] < indices[j] {
        EarlierIsLess(indices, i, j);
      }
      return Success(indices);
    }

    method DeleteModel(modelId: string, stuck: Option<set<File>>) returns (r: Result<(), StoreError>)
      modifies this
      ensures r == (if Sanitized(modelId).None? then Failure(InvalidModelId) else if stuck.Some? then Failure(IoFailed) else Success(()))
      ensures files == AfterDelete(old(files), modelId, stuck)
      ensures forall f :: f in files <==>
        f in old(files) && (Some(f.dir) != Sanitized(modelId) || (stuck.Some? && f in stuck.value))
      ensures forall f <- files :: f in old(files) && files[f] == old(files)[f]
    {
      var dir := Sanitized(modelId);
      if dir.None? {
        return Failure(InvalidModelId);
      }
      files := map f | f in files && (f.dir != dir.value || (stuck.Some? && f in stuck.value)) :: files[f];
      if stuck.Some? {
        return Failure(IoFailed);
      }
      return Success(());
    }

    method GetTotalUsedBytes() returns (total: Uint64)
      ensures total == Wrap64(Used(files))
    {
      total := 0;
      var rest := files.Keys;
      NothingCounted(files);
      while rest != {}
        invariant rest <= files.Keys && Counted(files, rest, total)
        decreases |rest|
      {
        var f :| f in rest;
        CountedStep(files, rest, f, total);
        rest := rest - {f};
        if HasSuffix(f.name, ".bin") {
          total := Wrap64(total + |files[f]|);
        }
      }
      AllCounted(files, total);
    }
  }

  /** The total is the usage, in 64 bits, of the files the walk has passed. */
  ghost predicate Counted(files: Files, rest: set<File>, total: nat) {
    total == Wrap64(Used(files - rest))
  }

  lemma NothingCounted(files: Files)
    ensures Counted(files, files.Keys, 0)
  {
    NothingLeftOut(files);
  }

  lemma AllCounted(files: Files, total: nat)
    requires Counted(files, {}, total)
    ensures total == Wrap64(Used(files))
  {
    NothingLeftOut(files);
  }

  lemma CountedStep(files: Files, rest: set<File>, f: File, total: nat)
    requires f in rest && rest <= files.Keys && Counted(files, rest, total)
    ensures Counted(files, rest - {f}, if IsBin(f) then Wrap64(total + |files[f]|) else total)
  {
    UsageStep(files, rest, f);
    WrapAgain(Used(files - rest), |files[f]|);
  }

  lemma NothingLeftOut(files: Files)
    ensures Used(files - files.Keys) == 0 && files - {} == files
  {
    assert BinFiles(files - files.Keys) == map[];
  }

  lemma UsageStep(files: Files, rest: set<File>, f: File)
    requires f in rest && rest <= files.Keys
    ensures Used(files - (rest - {f})) == Used(files - rest) + if IsBin(f) then |files[f]| else 0
  {
    var seen := files - rest;
    assert files - (rest - {f}) == seen[f := files[f]];
    if IsBin(f) {
      UsedAfterPut(seen, f, files[f]);
    } else {
      UsedIgnoresOthers(seen, f, files[f]);
    }
  }

  // ----- sorting -----

  ghost predicate Distinct(xs: seq<Uint32>) {
    forall i, j | 0 <= i < j < |xs| :: xs[i] != xs[j]
  }

  /** Insertion sort; the result has the same elements in increasing order. */
  method Sort(xs: seq<Uint32>) returns (ys: seq<Uint32>)
    requires Distinct(xs)
    ensures Increasing(ys) && forall x: Uint32 :: x in ys <==> x in xs
  {
    ys := [];
    for i := 0 to |xs|
      invariant Increasing(ys) && forall x: Uint32 :: x in ys <==> x in xs[..i]
    {
      assert xs[..i + 1] == xs[..i] + [xs[i]];
      ys := Insert(ys, xs[i]);
    }
    assert xs[..|xs|] == xs;
  }

  lemma InsertedInOrder(ys: seq<Uint32>, at: nat, x: Uint32)
    requires Increasing(ys) && x !in ys && at <= |ys|
    requires (at > 0 ==> ys[at - 1] <= x) && (at < |ys| ==> x < ys[at])
    ensures var zs := ys[..at] + [x] + ys[at..];
      Increasing(zs) && forall y: Uint32 :: y in zs <==> y in ys || y == x
  {
    assert ys == ys[..at] + ys[at..];
    assert at > 0 ==> ys[at - 1] in ys;
  }

  method Insert(ys: seq<Uint32>, x: Uint32) returns (zs: seq<Uint32>)
    requires Increasing(ys) && x !in ys
    ensures Increasing(zs) && forall y: Uint32 :: y in zs <==> y in ys || y == x
  {
    var at := |ys|;
    while at > 0 && x < ys[at - 1]
      invariant 0 <= at <= |ys| && (at < |ys| ==> x < ys[at])
    {
      at := at - 1;
    }
    zs := ys[..at] + [x] + ys[at..];
    InsertedInOrder(ys, at, x);
  }
}
