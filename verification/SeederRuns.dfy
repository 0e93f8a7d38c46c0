/** Runs of the seeder's store from an empty disk: chunks put, with any disk failures, and models deleted. */
module SeederRuns {
  import opened Wrappers
  import opened Text
  import opened Chunker
  import opened Spellings
  import opened SeederStore

  datatype Event = Store(p: Put) | Delete(modelId: string, stuck: Option<set<File>>)

  type Run = seq<Event>

  ghost predicate Slices(run: Run) {
    forall e <- run | e.Store? :: IsSlice(e.p.data)
  }

  ghost function After(sha: Digest, quota: Uint64, files: Files, e: Event): Files {
    match e
    case Store(p) => AfterPut(sha, quota, files, p)
    case Delete(modelId, stuck) => AfterDelete(files, modelId, stuck)
  }

  ghost function FilesAfter(sha: Digest, quota: Uint64, run: Run): Files {
    if run == [] then map[] else After(sha, quota, FilesAfter(sha, quota, run[..|run| - 1]), run[|run| - 1])
  }

  // ----- one step -----

  /** What an event does to one place. */
  datatype Mark = Fills | Clears | Leaves

  ghost function MarkOf(sha: Digest, quota: Uint64, files: Files, e: Event, dir: string, index: Uint32): Mark {
    match e
    case Store(p) =>
      if PutError(sha, quota, files, p).None? && Sanitized(p.modelId) == Some(dir) && p.index == index then Fills else Leaves
    case Delete(modelId, stuck) => if Removes(modelId, stuck, Place(dir, index)) then Clears else Leaves
  }

  /** A place is never a temporary file, and is another place only if directory and index are the same. */
  lemma PlacesAreApart(dir: string, index: Uint32, at: string, other: Uint32, stamp: Stamp)
    ensures IsBin(Place(dir, index)) && !IsBin(Beside(at, other, stamp))
    ensures Place(dir, index) == Place(at, other) <==> dir == at && index == other
  {
    TempNameIsNoBin(other, stamp);
    ChunkNameParses(index);
    ChunkNameParses(other);
  }

  /** How a put can end: on disk without error, or with one that the disk's state goes with. */
  predicate Ends(p: Put, error: Option<StoreError>) {
    && (error.None? ==> p.disk.Works? && Sanitized(p.modelId).Some?)
    && (error == Some(IoFailed) ==> !p.disk.Works? && Sanitized(p.modelId).Some?)
  }

  lemma AppliedAtPlace(files: Files, p: Put, error: Option<StoreError>, dir: string, index: Uint32)
    requires Ends(p, error)
    ensures
      var f, next := Place(dir, index), Applied(files, p, error);
      if error.None? && Sanitized(p.modelId) == Some(dir) && p.index == index then f in next && next[f] == p.data
      else (f in next <==> f in files) && (f in files ==> next[f] == files[f])
  {
    if Sanitized(p.modelId).Some? {
      PlacesAreApart(dir, index, Sanitized(p.modelId).value, p.index, p.stamp);
    }
  }

  lemma StepAtPlace(sha: Digest, quota: Uint64, files: Files, e: Event, dir: string, index: Uint32)
    ensures
      var f, next := Place(dir, index), After(sha, quota, files, e);
      match MarkOf(sha, quota, files, e, dir, index)
      case Fills => f in next && next[f] == e.p.data && Genuine(sha, e.p.data, e.p.expectedHash)
      case Clears => f !in next
      case Leaves => (f in next <==> f in files) && (f in files ==> next[f] == files[f])
  {
    if e.Store? {
      AppliedAtPlace(files, e.p, PutError(sha, quota, files, e.p), dir, index);
    }
  }

  lemma WrittenKeepsNames(files: Files, p: Put, dir: string)
    requires WellNamed(files)
    ensures WellNamed(Written(files, Place(dir, p.index), Beside(dir, p.index, p.stamp), p.data, p.disk))
  {
    TempNameIsNoBin(p.index, p.stamp);
    ChunkNameParses(p.index);
    PutKeepsNames(files, Place(dir, p.index), Beside(dir, p.index, p.stamp), p.data, p.disk);
  }

  lemma PutKeepsNames(files: Files, place: File, temp: File, data: seq<Byte>, disk: Disk)
    requires WellNamed(files) && !IsBin(temp) && IndexOf(place.name).Some? && place.name == ChunkName(IndexOf(place.name).value)
    ensures WellNamed(Written(files, place, temp, data, disk))
  {
  }

  /** Every chunk file has the name of an index, so the listing of held chunks misses none and invents none. */
  lemma {:induction false} NamesAreAlwaysIndices(sha: Digest, quota: Uint64, run: Run)
    ensures WellNamed(FilesAfter(sha, quota, run))
  {
    if run != [] {
      var n := |run| - 1;
      NamesAreAlwaysIndices(sha, quota, run[..n]);
      if run[n].Store? && Sanitized(run[n].p.modelId).Some? {
        WrittenKeepsNames(FilesAfter(sha, quota, run[..n]), run[n].p, Sanitized(run[n].p.modelId).value);
      }
    }
  }

  // ----- what a chunk file holds -----

  ghost function Marks(sha: Digest, quota: Uint64, run: Run, dir: string, index: Uint32): (marks: seq<Mark>)
    ensures |marks| == |run|
  {
    if run == [] then []
    else
      var n := |run| - 1;
      Marks(sha, quota, run[..n], dir, index) + [MarkOf(sha, quota, FilesAfter(sha, quota, run[..n]), run[n], dir, index)]
  }

  /** The i-th event filled the place, and nothing since filled or cleared it. */
  predicate FilledLast(marks: seq<Mark>, i: nat) {
    i < |marks| && marks[i] == Fills && forall j | i < j < |marks| :: marks[j] == Leaves
  }

  ghost predicate IsFilled(marks: seq<Mark>) {
    exists i: nat :: FilledLast(marks, i)
  }

  lemma FilledLastStep(marks: seq<Mark>, m: Mark, i: nat)
    ensures FilledLast(marks + [m], i) <==> if i == |marks| then m == Fills else FilledLast(marks, i) && m == Leaves
  {
    var more := marks + [m];
    if i < |marks| {
      assert more[|marks|] == m && forall j | 0 <= j < |marks| :: more[j] == marks[j];
    }
  }

  /** A chunk is held exactly when some put filled its place and nothing since filled or cleared it. */
  lemma {:induction false} ChunkIsHeldSinceItsPut(sha: Digest, quota: Uint64, run: Run, dir: string, index: Uint32)
    ensures Place(dir, index) in FilesAfter(sha, quota, run) <==> IsFilled(Marks(sha, quota, run, dir, index))
  {
    if run != [] {
      var n := |run| - 1;
      var before, marks := FilesAfter(sha, quota, run[..n]), Marks(sha, quota, run[..n], dir, index);
      var m := MarkOf(sha, quota, before, run[n], dir, index);
      ChunkIsHeldSinceItsPut(sha, quota, run[..n], dir, index);
      StepAtPlace(sha, quota, before, run[n], dir, index);
      SomeFilledLast(marks, m);
      assert Marks(sha, quota, run, dir, index) == marks + [m];
    }
  }

  lemma SomeFilledLast(marks: seq<Mark>, m: Mark)
    ensures IsFilled(marks + [m]) <==> m == Fills || (m == Leaves && IsFilled(marks))
  {
    forall i: nat {
      FilledLastStep(marks, m, i);
    }
    if m == Fills {
      assert FilledLast(marks + [m], |marks|);
    } else if i: nat :| FilledLast(marks, i) && m == Leaves {
      assert FilledLast(marks + [m], i);
    }
  }

  /** The event is a put of these bytes under a hash they have. */
  ghost predicate Admits(sha: Digest, e: Event, data: seq<Byte>) {
    e.Store? && e.p.data == data && Genuine(sha, data, e.p.expectedHash)
  }

  /** The bytes of a held chunk are those of the put that filled its place last, and they hash to the value they were
      admitted under. Failed writes, other models and other chunks never touch it. */
  lemma {:induction false} ChunkIsWhatWasAdmitted(sha: Digest, quota: Uint64, run: Run, dir: string, index: Uint32, i: nat)
    requires FilledLast(Marks(sha, quota, run, dir, index), i)
    ensures Place(dir, index) in FilesAfter(sha, quota, run)
    ensures Admits(sha, run[i], FilesAfter(sha, quota, run)[Place(dir, index)])
  {
    var n := |run| - 1;
    var before, marks := FilesAfter(sha, quota, run[..n]), Marks(sha, quota, run[..n], dir, index);
    FilledLastStep(marks, MarkOf(sha, quota, before, run[n], dir, index), i);
    StepAtPlace(sha, quota, before, run[n], dir, index);
    if i < n {
      ChunkIsWhatWasAdmitted(sha, quota, run[..n], dir, index, i);
    }
  }

  /** A put under a hash of certain bytes, with or without "0x" and in any case, goes through only with those bytes. */
  lemma RightBytesOnly(sha: Digest, quota: Uint64, files: Files, p: Put, piece: seq<Byte>)
    requires CollisionFree(sha) && SpellsDigest(p.expectedHash, sha(piece))
    ensures PutError(sha, quota, files, p) == Some(WrongHash) <==> p.data != piece
  {
    SpelledDigestIsRead(p.expectedHash, sha(piece));
    if Hex(sha(p.data)) == Hex(sha(piece)) {
      HexInjective(sha(p.data), sha(piece));
    }
  }

  /** So whatever peers and disks did, a chunk admitted under the hash of certain bytes is those bytes. */
  lemma HeldChunkIsThePiece(
      sha: Digest, quota: Uint64, run: Run, dir: string, index: Uint32, i: nat, piece: seq<Byte>)
    requires CollisionFree(sha) && FilledLast(Marks(sha, quota, run, dir, index), i)
    requires run[i].Store? ==> SpellsDigest(run[i].p.expectedHash, sha(piece))
    ensures Place(dir, index) in FilesAfter(sha, quota, run) && FilesAfter(sha, quota, run)[Place(dir, index)] == piece
  {
    ChunkIsWhatWasAdmitted(sha, quota, run, dir, index, i);
    RightBytesOnly(sha, quota, map[], run[i].p, piece);
  }

  /** And what is read for a model, in any spelling of its ID, is the file of that place, or nothing if it was never filled. */
  lemma ReadsAreThePlace(sha: Digest, quota: Uint64, run: Run, modelId: string, core: string, index: Uint32)
    requires Spells(modelId, core)
    ensures
      var files, place := FilesAfter(sha, quota, run), File("0x" + core, Decimal(index) + ".bin");
      && (Lookup(files, modelId, index).Some? <==> IsFilled(Marks(sha, quota, run, "0x" + core, index)))
      && (Lookup(files, modelId, index).Some? ==> place in files && Lookup(files, modelId, index).value == files[place])
  {
    DirectoryExactlyWhenSpelled(modelId, core);
    ChunkIsHeldSinceItsPut(sha, quota, run, "0x" + core, index);
  }

  /** A deletion that goes through leaves nothing of the model, in any spelling of its ID, and everything of the others. */
  lemma DeletionTakesExactlyTheModel(files: Files, modelId: string, core: string, f: File)
    requires Spells(modelId, core)
    ensures f in AfterDelete(files, modelId, None) <==> f in files && f.dir != "0x" + core
    ensures f in AfterDelete(files, modelId, None) ==> AfterDelete(files, modelId, None)[f] == files[f]
  {
    DirectoryExactlyWhenSpelled(modelId, core);
  }

  // ----- quota -----

  lemma CheckedPutFits(files: Files, quota: Uint64, data: seq<Byte>)
    requires 0 < quota <= INT64_SIZE && Used(files) <= quota && IsSlice(data) && !OverQuota(files, quota, data)
    ensures Used(files) + |data| <= quota
  {
  }

  lemma StepKeepsQuota(sha: Digest, quota: Uint64, files: Files, e: Event)
    requires 0 < quota <= INT64_SIZE && Used(files) <= quota && (e.Store? ==> IsSlice(e.p.data))
    ensures Used(After(sha, quota, files, e)) <= quota
  {
    match e
    case Store(p) =>
      var error := PutError(sha, quota, files, p);
      AppliedUses(files, p, error);
      if error.None? {
        CheckedPutFits(files, quota, p.data);
      }
    case Delete(modelId, stuck) => DeleteFrees(files, modelId, stuck);
  }

  lemma WrittenUses(files: Files, place: File, temp: File, data: seq<Byte>, disk: Disk)
    requires IsBin(place) && !IsBin(temp)
    ensures !disk.Works? ==> Used(Written(files, place, temp, data, disk)) == Used(files)
    ensures disk.Works? ==> Used(Written(files, place, temp, data, disk)) <= Used(files) + |data|
    ensures disk.Works? && place !in files ==> Used(Written(files, place, temp, data, disk)) == Used(files) + |data|
  {
    UsedIgnoresOthers(files, temp, data);
    if disk.WriteFails? && disk.left.Some? {
      UsedIgnoresOthers(files, temp, disk.left.value);
    }
    UsedAfterPut(files - {temp}, place, data);
  }

  /** What a put does to the usage. */
  lemma AppliedUses(files: Files, p: Put, error: Option<StoreError>)
    requires Ends(p, error)
    ensures error.Some? ==> Used(Applied(files, p, error)) == Used(files)
    ensures error.None? ==> Used(Applied(files, p, error)) <= Used(files) + |p.data|
    ensures error.None? && Place(Sanitized(p.modelId).value, p.index) !in files
      ==> Used(Applied(files, p, error)) == Used(files) + |p.data|
  {
    if Sanitized(p.modelId).Some? {
      var dir := Sanitized(p.modelId).value;
      PlacesAreApart(dir, p.index, dir, p.index, p.stamp);
      WrittenUses(files, Place(dir, p.index), Beside(dir, p.index, p.stamp), p.data, p.disk);
    }
  }

  lemma {:induction false} UsedOfPart(files: Files, part: Files)
    requires part.Keys <= files.Keys && forall f <- part :: part[f] == files[f]
    ensures Used(part) <= Used(files)
    decreases |files|
  {
    if f :| f in files && f !in part {
      var rest := files - {f};
      assert rest[f := files[f]] == files;
      UsedOfPart(rest, part);
      if IsBin(f) {
        UsedAfterPut(rest, f, files[f]);
      } else {
        UsedIgnoresOthers(rest, f, files[f]);
      }
    } else {
      assert part == files;
    }
  }

  lemma DeleteFrees(files: Files, modelId: string, stuck: Option<set<File>>)
    ensures Used(AfterDelete(files, modelId, stuck)) <= Used(files)
  {
    UsedOfPart(files, AfterDelete(files, modelId, stuck));
  }

  lemma {:induction false} UsageStaysWithinQuota(sha: Digest, quota: Uint64, run: Run)
    requires 0 < quota <= INT64_SIZE && Slices(run)
    ensures Used(FilesAfter(sha, quota, run)) <= quota
  {
    if run != [] {
      assert forall e <- run[..|run| - 1] :: e in run;
      UsageStaysWithinQuota(sha, quota, run[..|run| - 1]);
      StepKeepsQuota(sha, quota, FilesAfter(sha, quota, run[..|run| - 1]), run[|run| - 1]);
    } else {
      NothingLeftOut(map[]);
    }
  }

  // ----- the quota and 64-bit sums -----

  function Filler(sha: Digest, modelId: string, index: Uint32, size: nat): Event {
    var data := seq(size, _ => 0);
    Store(Put(modelId, index, data, Hex(sha(data)), Stamp(0, 0), Works))
  }

  lemma HexIsItsForm(bytes: seq<Byte>)
    ensures SeederForm(Hex(bytes)) == Hex(bytes)
  {
    var hex := Hex(bytes);
    LowerHexIsLower(hex);
    HexHasNoPrefix(hex);
  }

  lemma FillerStep(sha: Digest, quota: Uint64, files: Files, modelId: string, index: Uint32, size: nat)
    requires Sanitized(modelId).Some? && Place(Sanitized(modelId).value, index) !in files
    requires Wrap64(Used(files) + size) <= quota
    ensures
      var next := After(sha, quota, files, Filler(sha, modelId, index, size));
      && Used(next) == Used(files) + size
      && forall other: Uint32 | other != index :: Place(Sanitized(modelId).value, other) in next
           <==> Place(Sanitized(modelId).value, other) in files
  {
    var e, dir := Filler(sha, modelId, index, size), Sanitized(modelId).value;
    HexIsItsForm(sha(e.p.data));
    assert PutError(sha, quota, files, e.p) == None;
    AppliedUses(files, e.p, None);
    forall other: Uint32 | other != index
      ensures Place(dir, other) in Applied(files, e.p, None) <==> Place(dir, other) in files
    {
      AppliedAtPlace(files, e.p, None, dir, other);
    }
  }

  /** Three puts of a run that ends above any quota over 2^63: the last sum wraps around to zero. */
  ghost function Overflowing(sha: Digest, modelId: string): Run {
    var half := INT64_SIZE;
    [Filler(sha, modelId, 0, half - 1), Filler(sha, modelId, 1, 2), Filler(sha, modelId, 2, half - 1)]
  }

  lemma FillersAreSlices(sha: Digest, modelId: string)
    ensures Slices(Overflowing(sha, modelId))
  {
  }

  lemma LargeQuotaIsExceeded(sha: Digest, quota: Uint64, modelId: string)
    requires INT64_SIZE < quota && Sanitized(modelId).Some?
    ensures Slices(Overflowing(sha, modelId)) && quota < Used(FilesAfter(sha, quota, Overflowing(sha, modelId)))
  {
    var half := INT64_SIZE;
    FillersAreSlices(sha, modelId);
    var a, b, c := Filler(sha, modelId, 0, half - 1), Filler(sha, modelId, 1, 2), Filler(sha, modelId, 2, half - 1);
    var two := TwoFillers(sha, quota, modelId, a, b);
    WrapOnce(UINT64_SIZE);
    FillerStep(sha, quota, two, modelId, 2, half - 1);
    ThreeSteps(sha, quota, a, b, c);
  }

  lemma TwoFillers(sha: Digest, quota: Uint64, modelId: string, a: Event, b: Event) returns (two: Files)
    requires INT64_SIZE < quota && Sanitized(modelId).Some?
    requires a == Filler(sha, modelId, 0, INT64_SIZE - 1) && b == Filler(sha, modelId, 1, 2)
    ensures two == After(sha, quota, After(sha, quota, map[], a), b)
    ensures Used(two) == INT64_SIZE + 1 && Place(Sanitized(modelId).value, 2) !in two
  {
    var dir := Sanitized(modelId).value;
    NothingLeftOut(map[]);
    FillerStep(sha, quota, map[], modelId, 0, INT64_SIZE - 1);
    var one := After(sha, quota, map[], a);
    assert Place(dir, 1) !in one && Place(dir, 2) !in one;
    FillerStep(sha, quota, one, modelId, 1, 2);
    two := After(sha, quota, one, b);
  }

  lemma ThreeSteps(sha: Digest, quota: Uint64, a: Event, b: Event, c: Event)
    ensures FilesAfter(sha, quota, [a, b, c]) == After(sha, quota, After(sha, quota, After(sha, quota, map[], a), b), c)
  {
    OneMore(sha, quota, [], a);
    OneMore(sha, quota, [a], b);
    OneMore(sha, quota, [a, b], c);
    assert [] + [a] == [a] && [a] + [b] == [a, b] && [a, b] + [c] == [a, b, c];
  }

  lemma OneMore(sha: Digest, quota: Uint64, run: Run, e: Event)
    ensures FilesAfter(sha, quota, run + [e]) == After(sha, quota, FilesAfter(sha, quota, run), e)
  {
    assert (run + [e])[..|run|] == run;
  }

  /** The usage stays within the quota on every run exactly when the quota is at most 2^63: only above that can the 64-bit
      sum of the check wrap around. */
  lemma QuotaHoldsOnEveryRunExactlyWhen(sha: Digest, quota: Uint64, modelId: string)
    requires 0 < quota && Sanitized(modelId).Some?
    ensures (forall run: Run | Slices(run) :: Used(FilesAfter(sha, quota, run)) <= quota) <==> quota <= INT64_SIZE
  {
    if quota <= INT64_SIZE {
      forall run: Run | Slices(run) {
        UsageStaysWithinQuota(sha, quota, run);
      }
    } else {
      LargeQuotaIsExceeded(sha, quota, modelId);
    }
  }

  // ----- spellings of a model ID -----

  /** Case and a "0x" or "0X" in front make no difference: every spelling of a hexadecimal ID names one directory. */
  lemma SpellingsNameOneModel(s: string)
    requires IsHex(s)
    ensures Sanitized(s) == Sanitized("0x" + s) == Sanitized("0X" + s) == Sanitized(ToLower(s)) == Some("0x" + ToLower(s))
  {
    ToLowerAgain(s);
    PrefixedIsBare(s, "");
    PrefixedIsBare(s, "0x");
    PrefixedIsBare(s, "0X");
    PrefixedIsBare(ToLower(s), "");
    assert "" + s == s && "" + ToLower(s) == ToLower(s);
  }

  lemma PrefixedIsBare(s: string, prefix: string)
    requires IsHex(s) && (prefix == "" || prefix == "0x" || prefix == "0X")
    ensures BareForm(prefix + s) == ToLower(s)
  {
    assert prefix + s == "" + prefix + s + "";
    SpelledIsBare(prefix + s, ToLower(s), "", prefix, s, "");
  }

  /** The model IDs that name a directory are exactly the spellings of its hexadecimal digits. */
  lemma DirectoryExactlyWhenSpelled(s: string, core: string)
    ensures Sanitized(s) == Some("0x" + core) <==> Spells(s, core)
  {
    BareExactlyWhenSpelled(s, core);
    assert ("0x" + core)[2..] == core;
    if Sanitized(s) == Some("0x" + core) {
      assert Sanitized(s).value[2..] == BareForm(s);
      LowerHexIsLower(core);
    }
    if Spells(s, core) {
      var left, prefix, body, right :| SpelledAs(s, core, left, prefix, body, right);
      assert IsHex(body);
    }
  }
}
