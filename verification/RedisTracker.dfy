/** The Redis-backed seeder tracker. One fact, "peer p seeds model m with these chunks", is spread over
    four families of key with their own expiry, and a peer's models are found through a secondary index. */
module RedisTracker {
  import opened Wrappers
  import opened Text
  import opened Clock
  import opened Tracker

  const PRESENCE_SECONDS := 60
  const PRESENCE_TTL := PRESENCE_SECONDS * SECOND

  // ----- the Redis commands the tracker issues -----

  datatype Expiry = Never | At(time: nat)
  datatype Slot<T> = Slot(value: T, expiry: Expiry)

  type Keyspace<T> = map<string, Slot<T>>

  predicate LiveSlot<T>(s: Slot<T>, now: nat) {
    s.expiry.Never? || now < s.expiry.time
  }

  predicate LiveKey<T>(ks: Keyspace<T>, key: string, now: nat) {
    key in ks && LiveSlot(ks[key], now)
  }

  function Get<T>(ks: Keyspace<T>, key: string, now: nat): Option<T> {
    if LiveKey(ks, key, now) then Some(ks[key].value) else None
  }

  function SMembers(ks: Keyspace<set<string>>, key: string, now: nat): set<string> {
    if LiveKey(ks, key, now) then ks[key].value else {}
  }

  function SetWithTTL<T>(ks: Keyspace<T>, key: string, value: T, now: nat): Keyspace<T> {
    ks[key := Slot(value, At(now + PRESENCE_TTL))]
  }

  /** SADD keeps the expiry of a live key; a dead one starts again, without expiry. */
  function SAdd(ks: Keyspace<set<string>>, key: string, members: set<string>, now: nat): Keyspace<set<string>> {
    if LiveKey(ks, key, now) then ks[key := ks[key].(value := ks[key].value + members)]
    else ks[key := Slot(members, Never)]
  }

  /** EXPIRE has no effect on a key that is gone. */
  function Expire<T>(ks: Keyspace<T>, key: string, now: nat): Keyspace<T> {
    if LiveKey(ks, key, now) then ks[key := ks[key].(expiry := At(now + PRESENCE_TTL))] else ks
  }

  type SortedSets = map<string, map<string, nat>>

  function ScoresOf(zs: SortedSets, key: string): map<string, nat> {
    if key in zs then zs[key] else map[]
  }

  function ZAdd(zs: SortedSets, key: string, score: nat, member: string): SortedSets {
    zs[key := ScoresOf(zs, key)[member := score]]
  }

  /** A sorted set that loses its last member is deleted. */
  function ZRem(zs: SortedSets, key: string, member: string): SortedSets {
    if ScoresOf(zs, key) - {member} == map[] then zs - {key} else zs[key := ScoresOf(zs, key) - {member}]
  }

  // ----- the keys -----

  datatype Presence = Presence(
    peers: Keyspace<string>,           // presence:peer:{peer}, holding the address
    seeders: SortedSets,               // presence:model:{model}:seeders, scored by second; never expires
    peerModels: Keyspace<set<string>>, // presence:peer_models:{peer}
    chunks: Keyspace<set<string>>)     // presence:chunks:{model}:{peer}

  const EMPTY := Presence(map[], map[], map[], map[])

  predicate HasListing(db: Presence, model: string, peer: string) {
    model in db.seeders && peer in db.seeders[model]
  }

  predicate InWindow(db: Presence, model: string, peer: string, now: nat) {
    HasListing(db, model, peer) && Unix(now) - PRESENCE_SECONDS <= db.seeders[model][peer]
  }

  function Window(db: Presence, model: string, now: nat): set<string> {
    set p | p in ScoresOf(db.seeders, model) && InWindow(db, model, p, now)
  }

  function AddressOf(db: Presence, peer: string, now: nat): string {
    match Get(db.peers, peer, now) case Some(a) => a case None => ""
  }

  ghost function ParsedOf(members: set<string>): set<Uint32> {
    set s | s in members && ParseUint32(s).Some? :: ParseUint32(s).value
  }

  ghost function ChunksOf(db: Presence, model: string, peer: string, now: nat): set<Uint32> {
    ParsedOf(SMembers(db.chunks, Joined(model, peer), now))
  }

  // ----- what the operations mean -----

  ghost function Printed(chunks: seq<Uint32>): set<string> {
    set c | c in chunks :: Decimal(c)
  }

  /** Deleting a set, adding its members and giving it a lifetime is writing it anew. */
  lemma FreshSetWithTTL(ks: Keyspace<set<string>>, key: string, members: set<string>, now: nat)
    ensures Expire(SAdd(ks - {key}, key, members, now), key, now) == SetWithTTL(ks, key, members, now)
  {
  }

  ghost function AnnouncedIn(db: Presence, model: string, peer: string, address: string, chunks: seq<Uint32>, now: nat): Presence {
    var key := Joined(model, peer);
    Presence(
      SetWithTTL(db.peers, peer, address, now),
      ZAdd(db.seeders, model, Unix(now), peer),
      Expire(SAdd(db.peerModels, peer, {model}, now), peer, now),
      if chunks == [] then db.chunks - {key} else SetWithTTL(db.chunks, key, Printed(chunks), now))
  }

  ghost function ChunkKeys(models: set<string>, peer: string): set<string> {
    set m | m in models :: Joined(m, peer)
  }

  ghost function Rescored(zs: SortedSets, models: set<string>, peer: string, score: nat): SortedSets {
    map m | m in zs.Keys + models :: if m in models then ScoresOf(zs, m)[peer := score] else zs[m]
  }

  ghost function Extended<T>(ks: Keyspace<T>, keys: set<string>, now: nat): Keyspace<T> {
    map k | k in ks :: if k in keys && LiveSlot(ks[k], now) then ks[k].(expiry := At(now + PRESENCE_TTL)) else ks[k]
  }

  /** What a heartbeat writes for the models it read. */
  ghost function BeatenFor(db: Presence, peer: string, models: set<string>, score: nat, now: nat): Presence {
    Presence(
      Expire(db.peers, peer, now),
      Rescored(db.seeders, models, peer, score),
      Expire(db.peerModels, peer, now),
      Extended(db.chunks, ChunkKeys(models, peer), now))
  }

  ghost function BeatenIn(db: Presence, peer: string, now: nat): Presence {
    BeatenFor(db, peer, SMembers(db.peerModels, peer, now), Unix(now), now)
  }

  ghost function Unlisted(zs: SortedSets, models: set<string>, peer: string): SortedSets {
    map m | m in zs && (m in models ==> zs[m] - {peer} != map[]) :: if m in models then zs[m] - {peer} else zs[m]
  }

  /** What a removal writes for the models it read. */
  ghost function PurgedOf(db: Presence, peer: string, models: set<string>): Presence {
    Presence(
      db.peers - {peer},
      Unlisted(db.seeders, models, peer),
      db.peerModels - {peer},
      db.chunks - ChunkKeys(models, peer))
  }

  ghost function PurgedFrom(db: Presence, peer: string, now: nat): Presence {
    PurgedOf(db, peer, SMembers(db.peerModels, peer, now))
  }

  // ----- the tracker -----

  /** What a query says about a peer, the order of its chunks aside. */
  datatype Seen = Seen(address: string, chunks: set<Uint32>)

  ghost function SeenIn(d: SeederDTO): Seen {
    Seen(d.address, set c | c in d.chunks)
  }

  /** A query answer names each peer of the view once and says about it what the view says. */
  ghost predicate Reports(result: seq<SeederDTO>, view: map<string, Seen>) {
    && (forall i, j :: 0 <= i < j < |result| ==> result[i].peerId != result[j].peerId)
    && Names(result) == view.Keys
    && (forall d <- result :: d.peerId in view && SeenIn(d) == view[d.peerId])
  }

  lemma {:induction false} NamesCount(result: seq<SeederDTO>)
    requires forall i, j :: 0 <= i < j < |result| ==> result[i].peerId != result[j].peerId
    ensures |Names(result)| == |result|
  {
    if result != [] {
      var init, last := result[..|result| - 1], result[|result| - 1];
      NamesCount(init);
      NamesWith(init, last);
      assert result == init + [last];
      assert forall d <- init :: d.peerId != last.peerId;
    }
  }

  /** So there are as many answers as peers, and each peer's answer says what the view says. */
  lemma ReportedExactly(result: seq<SeederDTO>, view: map<string, Seen>, p: string)
    requires Reports(result, view)
    ensures |result| == |view|
    ensures p in view <==> exists d <- result :: d.peerId == p
    ensures forall d <- result | d.peerId == p :: d.address == view[p].address && (set c | c in d.chunks) == view[p].chunks
  {
    NamesCount(result);
    assert p in Names(result) <==> exists d <- result :: d.peerId == p;
  }

  ghost function Answer(db: Presence, model: string, now: nat): map<string, Seen> {
    map p | p in Window(db, model, now) :: Seen(AddressOf(db, p, now), ChunksOf(db, model, p, now))
  }

  class RedisTracker {
    var db: Presence

    constructor ()
      ensures db == EMPTY
    {
      db := EMPTY;
    }

    method Announce(model: string, peer: string, address: string, chunks: seq<Uint32>, now: nat)
      modifies this
      ensures db == AnnouncedIn(old(db), model, peer, address, chunks, now)
    {
      db := db.(peers := SetWithTTL(db.peers, peer, address, now));
      db := db.(seeders := ZAdd(db.seeders, model, Unix(now), peer));
      db := db.(peerModels := SAdd(db.peerModels, peer, {model}, now));
      db := db.(peerModels := Expire(db.peerModels, peer, now));
      var key := Joined(model, peer);
      db := db.(chunks := db.chunks - {key});
      if |chunks| > 0 {
        var members := PrintAll(chunks);
        FreshSetWithTTL(old(db).chunks, key, members, now);
        db := db.(chunks := SAdd(db.chunks, key, members, now));
        db := db.(chunks := Expire(db.chunks, key, now));
      }
    }

    method Query(model: string, now: nat) returns (result: seq<SeederDTO>)
      ensures Reports(result, Answer(db, model, now))
    {
      ghost var view := Answer(db, model, now);
      result := [];
      var todo := Window(db, model, now);
      while todo != {}
        invariant todo <= view.Keys
        invariant forall i, j :: 0 <= i < j < |result| ==> result[i].peerId != result[j].peerId
        invariant Names(result) == view.Keys - todo
        invariant forall d <- result :: d.peerId in view && SeenIn(d) == view[d.peerId]
        decreases todo
      {
        var p :| p in todo;
        var chunks := ParseAll(SMembers(db.chunks, Joined(model, p), now));
        var dto := SeederDTO(p, AddressOf(db, p, now), chunks);
        forall d <- result ensures d.peerId != p {
          assert d.peerId in Names(result);
        }
        NamesWith(result, dto);
        result := result + [dto];
        todo := todo - {p};
      }
    }

    /** Both halves of a heartbeat with nothing between them. */
    method Heartbeat(peer: string, now: nat)
      modifies this
      ensures db == BeatenIn(old(db), peer, now)
    {
      var models := SMembers(db.peerModels, peer, now);
      Beat(peer, models, Unix(now), now);
    }

    /** The pipeline of a heartbeat that read these models. */
    method Beat(peer: string, models: set<string>, score: nat, now: nat)
      modifies this
      ensures db == BeatenFor(old(db), peer, models, score, now)
    {
      db := db.(peers := Expire(db.peers, peer, now), peerModels := Expire(db.peerModels, peer, now));
      var todo := models;
      while todo != {}
        invariant todo <= models
        invariant db.peers == Expire(old(db).peers, peer, now) && db.peerModels == Expire(old(db).peerModels, peer, now)
        invariant db.seeders == Rescored(old(db).seeders, models - todo, peer, score)
        invariant db.chunks == Extended(old(db).chunks, ChunkKeys(models - todo, peer), now)
        decreases todo
      {
        var m :| m in todo;
        RescoredStep(old(db).seeders, models - todo, m, peer, score);
        ExtendedStep(old(db).chunks, models - todo, m, peer, now);
        assert models - (todo - {m}) == models - todo + {m};
        db := db.(seeders := ZAdd(db.seeders, m, score, peer));
        db := db.(chunks := Expire(db.chunks, Joined(m, peer), now));
        todo := todo - {m};
      }
      assert models - todo == models;
    }

    /** Both halves of a removal with nothing between them. */
    method RemovePeer(peer: string, now: nat)
      modifies this
      ensures db == PurgedFrom(old(db), peer, now)
    {
      var models := SMembers(db.peerModels, peer, now);
      Purge(peer, models);
    }

    /** The pipeline of a removal that read these models. */
    method Purge(peer: string, models: set<string>)
      modifies this
      ensures db == PurgedOf(old(db), peer, models)
    {
      db := db.(peers := db.peers - {peer}, peerModels := db.peerModels - {peer});
      var todo := models;
      while todo != {}
        invariant todo <= models
        invariant db.peers == old(db).peers - {peer} && db.peerModels == old(db).peerModels - {peer}
        invariant db.seeders == Unlisted(old(db).seeders, models - todo, peer)
        invariant db.chunks == old(db).chunks - ChunkKeys(models - todo, peer)
        decreases todo
      {
        var m :| m in todo;
        UnlistedStep(old(db).seeders, models - todo, m, peer);
        assert models - (todo - {m}) == models - todo + {m};
        assert ChunkKeys(models - todo + {m}, peer) == ChunkKeys(models - todo, peer) + {Joined(m, peer)};
        db := db.(seeders := ZRem(db.seeders, m, peer));
        db := db.(chunks := db.chunks - {Joined(m, peer)});
        todo := todo - {m};
      }
      assert models - todo == models;
    }
  }

  method PrintAll(chunks: seq<Uint32>) returns (members: set<string>)
    ensures members == Printed(chunks)
  {
    members := {};
    for i := 0 to |chunks|
      invariant members == Printed(chunks[..i])
    {
      assert chunks[..i + 1] == chunks[..i] + [chunks[i]];
      members := members + {Decimal(chunks[i])};
    }
    assert chunks[..|chunks|] == chunks;
  }

  method ParseAll(members: set<string>) returns (chunks: seq<Uint32>)
    ensures (set c | c in chunks) == ParsedOf(members)
  {
    chunks := [];
    var todo := members;
    while todo != {}
      invariant todo <= members
      invariant (set c | c in chunks) == ParsedOf(members - todo)
      decreases todo
    {
      var s :| s in todo;
      if ParseUint32(s).Some? {
        chunks := chunks + [ParseUint32(s).value];
      }
      ParsedOfWith(members - todo, s);
      assert members - (todo - {s}) == members - todo + {s};
      todo := todo - {s};
    }
    assert members - todo == members;
  }

  lemma ParsedOfWith(members: set<string>, s: string)
    ensures ParsedOf(members + {s}) == ParsedOf(members) + if ParseUint32(s).Some? then {ParseUint32(s).value} else {}
  {
  }

  lemma RescoredStep(zs: SortedSets, models: set<string>, m: string, peer: string, score: nat)
    requires m !in models
    ensures ZAdd(Rescored(zs, models, peer, score), m, score, peer) == Rescored(zs, models + {m}, peer, score)
  {
  }

  lemma ExtendedStep<T>(ks: Keyspace<T>, models: set<string>, m: string, peer: string, now: nat)
    ensures Expire(Extended(ks, ChunkKeys(models, peer), now), Joined(m, peer), now)
         == Extended(ks, ChunkKeys(models + {m}, peer), now)
  {
    assert ChunkKeys(models + {m}, peer) == ChunkKeys(models, peer) + {Joined(m, peer)};
  }

  lemma UnlistedStep(zs: SortedSets, models: set<string>, m: string, peer: string)
    requires m !in models
    ensures ZRem(Unlisted(zs, models, peer), m, peer) == Unlisted(zs, models + {m}, peer)
  {
    var part := Unlisted(zs, models, peer);
    if m in zs {
      assert m in part && part[m] == zs[m];
    }
  }
}
