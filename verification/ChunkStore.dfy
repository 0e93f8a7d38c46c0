/** The browser's chunk store: records keyed by model, wallet and index. Reads fall back to the copies of
    other wallets. */
module ChunkStore {
  import opened Wrappers
  import opened Text

  datatype StoredChunk = StoredChunk(modelId: string, walletKey: string, index: nat, data: seq<Byte>)

  type Records = map<string, StoredChunk>

  function WalletKey(walletAddress: string): string {
    ToLower(if walletAddress == "" then "anonymous" else walletAddress)
  }

  /** Wallets share their records exactly when their addresses differ in case only; no wallet is the anonymous one. */
  lemma WalletsAreApart(a: string, b: string)
    requires a != ""
    ensures WalletKey(a) == WalletKey(b) <==> ToLower(a) == ToLower(if b == "" then "anonymous" else b)
  {
  }

  function Key(modelId: string, walletKey: string, index: nat): string {
    Joined(modelId, Joined(walletKey, Decimal(index)))
  }

  function KeyOf(c: StoredChunk): string {
    Key(c.modelId, c.walletKey, c.index)
  }

  /** Every record stands under its own key, and no model or wallet name holds the separator. */
  ghost predicate WellKeyed(rs: Records) {
    forall k <- rs :: k == KeyOf(rs[k]) && ':' !in rs[k].modelId && ':' !in rs[k].walletKey
  }

  lemma KeyOfIsInjective(a: StoredChunk, b: StoredChunk)
    requires ':' !in a.modelId && ':' !in b.modelId && ':' !in a.walletKey && ':' !in b.walletKey
    requires KeyOf(a) == KeyOf(b)
    ensures a.modelId == b.modelId && a.walletKey == b.walletKey && a.index == b.index
  {
    JoinedInjective(a.modelId, Joined(a.walletKey, Decimal(a.index)), b.modelId, Joined(b.walletKey, Decimal(b.index)));
    JoinedInjective(a.walletKey, Decimal(a.index), b.walletKey, Decimal(b.index));
    DecimalInjective(a.index, b.index);
  }

  /** The index always follows from the key, the split into model and wallet does not when both may hold the separator. */
  lemma ColonsMixKeys(index: nat)
    ensures KeyOf(StoredChunk("a:b", "c", index, [])) == KeyOf(StoredChunk("a", "b:c", index, []))
  {
    var d := Decimal(index);
    assert Joined("a:b", Joined("c", d)) == "a:b:c:" + d == Joined("a", Joined("b:c", d));
  }

  ghost predicate IsCopy(rs: Records, k: string, modelId: string, index: nat) {
    k in rs && rs[k].modelId == modelId && rs[k].index == index
  }

  /** Some wallet holds the chunk. */
  ghost predicate Available(rs: Records, modelId: string, index: nat) {
    exists k :: IsCopy(rs, k, modelId, index)
  }

  /** Some wallet holds the chunk with these bytes. */
  ghost predicate Holds(rs: Records, modelId: string, index: nat, data: seq<Byte>) {
    exists k :: IsCopy(rs, k, modelId, index) && rs[k].data == data
  }

  /** What is read for a chunk: the record under the wallet's own key, else some wallet's copy. */
  ghost predicate Gives(rs: Records, modelId: string, walletKey: string, index: nat, data: seq<Byte>) {
    var own := Key(modelId, walletKey, index);
    if own in rs then data == rs[own].data else Holds(rs, modelId, index, data)
  }

  ghost predicate Found(rs: Records, modelId: string, walletKey: string, index: nat) {
    Key(modelId, walletKey, index) in rs || Available(rs, modelId, index)
  }

  /** With names free of the separator, what is read is a copy of the chunk asked for, found exactly when there is one. */
  lemma ReadsAreCopies(rs: Records, modelId: string, walletKey: string, index: nat)
    requires WellKeyed(rs) && ':' !in modelId && ':' !in walletKey
    ensures Found(rs, modelId, walletKey, index) <==> Available(rs, modelId, index)
    ensures forall data :: Gives(rs, modelId, walletKey, index, data) ==> Holds(rs, modelId, index, data)
  {
    var own := Key(modelId, walletKey, index);
    if own in rs {
      KeyOfIsInjective(rs[own], StoredChunk(modelId, walletKey, index, []));
      assert IsCopy(rs, own, modelId, index);
    }
  }

  ghost function IndicesIn(rs: Records, modelId: string): set<nat> {
    set k | k in rs && rs[k].modelId == modelId :: rs[k].index
  }

  ghost function IndicesOf(rs: Records, modelId: string, walletKey: string): set<nat> {
    set k | k in rs && rs[k].modelId == modelId && rs[k].walletKey == walletKey :: rs[k].index
  }

  /** What counts as held: the wallet's own indices if it has any for the model, else those of all wallets together. */
  ghost function HeldBy(rs: Records, modelId: string, walletKey: string): set<nat> {
    if IndicesOf(rs, modelId, walletKey) != {} then IndicesOf(rs, modelId, walletKey) else IndicesIn(rs, modelId)
  }

  ghost predicate IsOwn(rs: Records, k: string, modelId: string, walletKey: string, index: nat) {
    IsCopy(rs, k, modelId, index) && rs[k].walletKey == walletKey
  }

  /** A wallet that has chunks of the model holds exactly its own; one that has none, those that some wallet has. */
  lemma HeldExactly(rs: Records, modelId: string, walletKey: string, index: nat)
    ensures
      var own := exists k :: IsOwn(rs, k, modelId, walletKey, index);
      var any := exists k, i: nat :: IsOwn(rs, k, modelId, walletKey, i);
      index in HeldBy(rs, modelId, walletKey) <==> own || (!any && Available(rs, modelId, index))
  {
    if index in IndicesOf(rs, modelId, walletKey) {
      var k :| k in rs && rs[k].modelId == modelId && rs[k].walletKey == walletKey && rs[k].index == index;
      assert IsOwn(rs, k, modelId, walletKey, index);
    }
    if k, i: nat :| IsOwn(rs, k, modelId, walletKey, i) {
      assert rs[k].index in IndicesOf(rs, modelId, walletKey);
    }
    if IndicesOf(rs, modelId, walletKey) != {} {
      var i :| i in IndicesOf(rs, modelId, walletKey);
      var k :| k in rs && rs[k].modelId == modelId && rs[k].walletKey == walletKey && rs[k].index == i;
      assert IsOwn(rs, k, modelId, walletKey, i);
    }
    if index in IndicesIn(rs, modelId) {
      var k :| k in rs && rs[k].modelId == modelId && rs[k].index == index;
      assert IsCopy(rs, k, modelId, index);
    }
  }

  ghost function WithoutModel(rs: Records, modelId: string, walletKey: string): Records {
    map k | k in rs && !(rs[k].modelId == modelId && rs[k].walletKey == walletKey) :: rs[k]
  }

  class ChunkStore {
    var records: Records

    constructor ()
      ensures records == map[]
    {
      records := map[];
    }

    method StoreChunk(modelId: string, index: nat, data: seq<Byte>, walletAddress: string)
      modifies this
      ensures var c := StoredChunk(modelId, WalletKey(walletAddress), index, data);
        records == old(records)[KeyOf(c) := c]
    {
      var walletKey := WalletKey(walletAddress);
      records := records[Key(modelId, walletKey, index) := StoredChunk(modelId, walletKey, index, data)];
    }

    /** The record under the wallet's own key, else any wallet's copy; nothing exactly when there is neither. */
    method GetChunk(modelId: string, index: nat, walletAddress: string) returns (data: Option<seq<Byte>>)
      ensures data.Some? <==> Found(records, modelId, WalletKey(walletAddress), index)
      ensures data.Some? ==> Gives(records, modelId, WalletKey(walletAddress), index, data.value)
      ensures var own := Key(modelId, WalletKey(walletAddress), index);
        own in records ==> data == Some(records[own].data)
    {
      var key := Key(modelId, WalletKey(walletAddress), index);
      if key in records {
        return Some(records[key].data);
      }
      var matches := set k | k in records && records[k].modelId == modelId && records[k].index == index;
      if matches == {} {
        assert forall k :: IsCopy(records, k, modelId, index) ==> k in matches;
        return None;
      }
      var k :| k in matches;
      assert IsCopy(records, k, modelId, index);
      return Some(records[k].data);
    }

    /** The wallet's own indices if it has any for the model, else those of all wallets together. */
    method GetHeldChunks(modelId: string, walletAddress: string) returns (indices: set<nat>)
      ensures indices == HeldBy(records, modelId, WalletKey(walletAddress))
    {
      var walletKey := WalletKey(walletAddress);
      indices := set k | k in records && records[k].modelId == modelId && records[k].walletKey == walletKey :: records[k].index;
      if indices == {} {
        indices := set k | k in records && records[k].modelId == modelId :: records[k].index;
      }
    }

    /** All chunks in order, or the first missing index. */
    method GetAllChunks(modelId: string, chunkCount: nat, walletAddress: string) returns (chunks: Result<seq<seq<Byte>>, nat>)
      ensures chunks.Success? <==> forall i: nat | i < chunkCount :: Found(records, modelId, WalletKey(walletAddress), i)
      ensures chunks.Success? ==>
        && |chunks.value| == chunkCount
        && forall i | 0 <= i < chunkCount :: Gives(records, modelId, WalletKey(walletAddress), i, chunks.value[i])
      ensures chunks.Failure? ==>
        && chunks.error < chunkCount && !Found(records, modelId, WalletKey(walletAddress), chunks.error)
        && forall i: nat | i < chunks.error :: Found(records, modelId, WalletKey(walletAddress), i)
    {
      ghost var walletKey := WalletKey(walletAddress);
      var all: seq<seq<Byte>> := [];
      for i := 0 to chunkCount
        invariant |all| == i
        invariant forall j: nat | j < i :: Found(records, modelId, walletKey, j)
        invariant forall j | 0 <= j < i :: Gives(records, modelId, walletKey, j, all[j])
      {
        var chunk := GetChunk(modelId, i, walletAddress);
        if chunk.None? {
          return Failure(i);
        }
        all := all + [chunk.value];
      }
      return Success(all);
    }

    method DeleteModel(modelId: string, walletAddress: string)
      modifies this
      ensures records == WithoutModel(old(records), modelId, WalletKey(walletAddress))
    {
      var walletKey := WalletKey(walletAddress);
      var todo := set k | k in records && records[k].modelId == modelId && records[k].walletKey == walletKey;
      while todo != {}
        invariant forall k <- todo :: k in old(records) && old(records)[k].modelId == modelId && old(records)[k].walletKey == walletKey
        invariant forall k <- old(records) :: k in records || (old(records)[k].modelId == modelId && old(records)[k].walletKey == walletKey)
        invariant forall k <- records :: k in old(records) && records[k] == old(records)[k]
        invariant forall k <- records :: records[k].modelId == modelId && records[k].walletKey == walletKey ==> k in todo
        decreases todo
      {
        var k :| k in todo;
        records := records - {k};
        todo := todo - {k};
      }
    }
  }
}
