/** Whole runs of the Redis tracker: what its index guarantees on every run, and on which runs its
    queries agree with those of the in-memory tracker. */
module PresenceRuns {
  import opened Wrappers
  import opened Text
  import opened Clock
  import opened Tracker
  import opened RedisTracker

  /** The Redis tracker has no eviction of its own: keys expire. */
  ghost function ApplyRedis(db: Presence, t: Timed): Presence {
    match t.event
    case Announce(m, p, a, cs) => AnnouncedIn(db, m, p, a, cs, t.now)
    case Heartbeat(p) => BeatenIn(db, p, t.now)
    case RemovePeer(p) => PurgedFrom(db, p, t.now)
    case Evict(_) => db
  }

  ghost function RunRedis(db: Presence, trace: seq<Timed>): Presence
    decreases |trace|
  {
    if trace == [] then db else RunRedis(ApplyRedis(db, trace[0]), trace[1..])
  }

  // ----- the index outlives every unexpired listing -----

  /** The moment a listing's 60 seconds are over, counted from the second it was scored in. */
  ghost function WindowEnd(score: nat): nat {
    score * SECOND + PRESENCE_TTL
  }

  /** A peer's metadata and its index entry live and die together. */
  ghost predicate OneLease(db: Presence) {
    && db.peers.Keys == db.peerModels.Keys
    && forall p <- db.peers :: db.peers[p].expiry.At? && db.peers[p].expiry == db.peerModels[p].expiry
  }

  ghost predicate Indexed(db: Presence, model: string, peer: string)
    requires HasListing(db, model, peer)
  {
    && peer in db.peerModels && model in db.peerModels[peer].value
    && db.peerModels[peer].expiry.At?
    && WindowEnd(db.seeders[model][peer]) <= db.peerModels[peer].expiry.time
  }

  ghost predicate CoveredListing(db: Presence, clock: nat, m: string, p: string)
    requires HasListing(db, m, p)
  {
    && db.seeders[m][p] * SECOND <= clock
    && (Indexed(db, m, p) || WindowEnd(db.seeders[m][p]) <= clock)
  }

  ghost predicate Covered(db: Presence, clock: nat) {
    && OneLease(db)
    && forall m, p | HasListing(db, m, p) :: CoveredListing(db, clock, m, p)
  }

  lemma AnnounceKeepsCovered(db: Presence, clock: nat, m: string, p: string, a: string, cs: seq<Uint32>, now: nat)
    requires Covered(db, clock) && clock <= now
    ensures Covered(AnnouncedIn(db, m, p, a, cs, now), now)
  {
    var next := AnnouncedIn(db, m, p, a, cs, now);
    UnixBounds(now);
    forall n, q | HasListing(next, n, q) ensures CoveredListing(next, now, n, q) {
      if n != m || q != p {
        assert HasListing(db, n, q) && CoveredListing(db, clock, n, q);
      }
    }
  }

  lemma HeartbeatKeepsCovered(db: Presence, clock: nat, p: string, now: nat)
    requires Covered(db, clock) && clock <= now
    ensures Covered(BeatenIn(db, p, now), now)
  {
    var next := BeatenIn(db, p, now);
    UnixBounds(now);
    forall n, q | HasListing(next, n, q) ensures CoveredListing(next, now, n, q) {
      if n !in SMembers(db.peerModels, p, now) || q != p {
        assert HasListing(db, n, q) && CoveredListing(db, clock, n, q);
      }
    }
  }

  lemma RemoveKeepsCovered(db: Presence, clock: nat, p: string, now: nat)
    requires Covered(db, clock) && clock <= now
    ensures Covered(PurgedFrom(db, p, now), now)
  {
    var next := PurgedFrom(db, p, now);
    forall n, q | HasListing(next, n, q) ensures CoveredListing(next, now, n, q) {
      assert HasListing(db, n, q) && CoveredListing(db, clock, n, q);
    }
  }

  lemma {:induction false} RunKeepsCovered(db: Presence, start: nat, trace: seq<Timed>)
    requires Covered(db, start) && Monotone(start, trace)
    ensures start <= End(start, trace) && Covered(RunRedis(db, trace), End(start, trace))
    decreases |trace|
  {
    if trace != [] {
      var now := trace[0].now;
      match trace[0].event {
        case Announce(m, p, a, cs) => AnnounceKeepsCovered(db, start, m, p, a, cs, now);
        case Heartbeat(p) => HeartbeatKeepsCovered(db, start, p, now);
        case RemovePeer(p) => RemoveKeepsCovered(db, start, p, now);
        case Evict(_) =>
      }
      RunKeepsCovered(ApplyRedis(db, trace[0]), trace[0].now, trace[1..]);
    }
  }

  /** On every run whatever, a listing whose window is not over is in its peer's live index, beside live metadata. */
  lemma UnexpiredListingIsIndexed(start: nat, trace: seq<Timed>, now: nat, model: string, peer: string)
    requires Monotone(start, trace) && End(start, trace) <= now
    requires HasListing(RunRedis(EMPTY, trace), model, peer)
    requires now < WindowEnd(RunRedis(EMPTY, trace).seeders[model][peer])
    ensures model in SMembers(RunRedis(EMPTY, trace).peerModels, peer, now)
    ensures LiveKey(RunRedis(EMPTY, trace).peers, peer, now)
  {
    RunKeepsCovered(EMPTY, start, trace);
  }

  /** What a removal leaves behind a query in the same instant: exactly the listings in the query's window
      that the index no longer holds, all of them in the one second in which their own minute ran out. */
  lemma RemovalPurgesExactlyTheIndexed(start: nat, trace: seq<Timed>, now: nat, model: string, peer: string)
    requires Monotone(start, trace) && End(start, trace) <= now
    ensures var db := RunRedis(EMPTY, trace);
      var left := peer in Window(PurgedFrom(db, peer, now), model, now);
      && (left <==> InWindow(db, model, peer, now) && model !in SMembers(db.peerModels, peer, now))
      && (left ==> db.seeders[model][peer] == Unix(now) - PRESENCE_SECONDS)
  {
    var db := RunRedis(EMPTY, trace);
    RunKeepsCovered(EMPTY, start, trace);
    UnixBounds(now);
    if InWindow(db, model, peer, now) {
      assert CoveredListing(db, End(start, trace), model, peer);
    }
  }

  /** The leftover of the lemma above does occur: a peer scored in second 0 and removed 60.7 s into the run stays listed. */
  lemma RemovalCanMissOneSecond()
    ensures var trace := [Timed(Announce("m", "p", "0x1", [0]), SECOND / 2), Timed(RemovePeer("p"), 60 * SECOND + 7 * (SECOND / 10))];
      var now := 60 * SECOND + 7 * (SECOND / 10);
      && Monotone(0, trace)
      && "p" in Window(RunRedis(EMPTY, trace), "m", now)
      && Answer(RunRedis(EMPTY, trace), "m", now)["p"] == Seen("", {})
  {
    var now := 60 * SECOND + 7 * (SECOND / 10);
    var first := Timed(Announce("m", "p", "0x1", [0]), SECOND / 2);
    var second := Timed(RemovePeer("p"), now);
    var trace := [first, second];
    assert trace[1..] == [second] && trace[1..][1..] == [];
    var db := ApplyRedis(EMPTY, first);
    assert db.seeders == map["m" := map["p" := 0]];
    assert SMembers(db.peerModels, "p", now) == {};
    var after := ApplyRedis(db, second);
    assert RunRedis(EMPTY, trace) == after by {
      assert RunRedis(EMPTY, trace) == RunRedis(db, [second]) == RunRedis(after, []);
    }
    assert after.seeders == db.seeders;
    assert Unix(now) == 60;
  }

  // ----- addresses -----

  ghost predicate AddressesGiven(trace: seq<Timed>) {
    forall t <- trace :: t.event.Announce? ==> t.event.address != ""
  }

  ghost predicate NoBlankAddress(db: Presence) {
    forall p <- db.peers :: db.peers[p].value != ""
  }

  lemma {:induction false} RunKeepsNoBlankAddress(db: Presence, trace: seq<Timed>)
    requires NoBlankAddress(db) && AddressesGiven(trace)
    ensures NoBlankAddress(RunRedis(db, trace))
    decreases |trace|
  {
    if trace != [] {
      assert trace[0] in trace;
      RunKeepsNoBlankAddress(ApplyRedis(db, trace[0]), trace[1..]);
    }
  }

  /** When every announcement gives an address, a query shows a blank one exactly for a peer whose metadata
      has expired, and it can list such a peer only in the one second after that listing's minute. */
  lemma BlankAddressExactlyWhenExpired(start: nat, trace: seq<Timed>, now: nat, model: string, peer: string)
    requires Monotone(start, trace) && End(start, trace) <= now && AddressesGiven(trace)
    requires peer in Window(RunRedis(EMPTY, trace), model, now)
    ensures var db := RunRedis(EMPTY, trace);
      var blank := Answer(db, model, now)[peer].address == "";
      && (blank <==> !LiveKey(db.peers, peer, now))
      && (blank ==> db.seeders[model][peer] == Unix(now) - PRESENCE_SECONDS)
  {
    var db := RunRedis(EMPTY, trace);
    RunKeepsCovered(EMPTY, start, trace);
    RunKeepsNoBlankAddress(EMPTY, trace);
    assert CoveredListing(db, End(start, trace), model, peer);
    UnixBounds(now);
  }

  // ----- agreement with the in-memory tracker -----

  ghost function View(ps: Peers): map<string, Seen> {
    map p | p in ps :: Seen(ps[p].address, set c | c in ps[p].chunks)
  }

  /** An answer of the in-memory tracker reports the view of its peer map. */
  lemma AnswersReportView(result: seq<SeederDTO>, ps: Peers)
    requires Answers(result, ps)
    ensures Reports(result, View(ps))
  {
  }

  /** No listed peer has gone the whole presence time without an announcement of the model or a heartbeat. */
  ghost predicate Fresh(ms: Models, now: nat) {
    forall m, p | Listed(ms, m, p) :: now < ms[m][p].last + PRESENCE_TTL
  }

  ghost predicate KeepsAddress(ms: Models, peer: string, address: string) {
    forall m | Listed(ms, m, peer) :: ms[m][peer].address == address
  }

  /** No other listed pair has the same chunk key. */
  ghost predicate OwnsKey(ms: Models, model: string, peer: string) {
    forall m, p | Listed(ms, m, p) && Joined(m, p) == Joined(model, peer) :: m == model && p == peer
  }

  ghost predicate KeysApart(ms: Models) {
    forall m, p | Listed(ms, m, p) :: OwnsKey(ms, m, p)
  }

  /** Peers beat in time and keep one address between removals. */
  ghost predicate Steady(ms: Models, t: Timed) {
    && Fresh(ms, t.now)
    && (t.event.Announce? ==> KeepsAddress(ms, t.event.peer, t.event.address))
    && (t.event.Evict? ==> PRESENCE_TTL <= t.event.timeout)
  }

  /** And what they announce has a chunk key of its own. */
  ghost predicate Disciplined(ms: Models, t: Timed) {
    Steady(ms, t) && (t.event.Announce? ==> OwnsKey(ms, t.event.model, t.event.peer))
  }

  ghost predicate DisciplinedRun(ms: Models, trace: seq<Timed>)
    decreases |trace|
  {
    trace == [] || (Disciplined(ms, trace[0]) && DisciplinedRun(Apply(ms, trace[0]), trace[1..]))
  }

  ghost predicate SteadyRun(ms: Models, trace: seq<Timed>)
    decreases |trace|
  {
    trace == [] || (Steady(ms, trace[0]) && SteadyRun(Apply(ms, trace[0]), trace[1..]))
  }

  // ----- keys stay apart when either half of them has no ':' -----

  ghost predicate PlainModels(trace: seq<Timed>) {
    forall t <- trace | t.event.Announce? :: ':' !in t.event.model
  }

  ghost predicate PlainPeers(trace: seq<Timed>) {
    forall t <- trace | t.event.Announce? :: ':' !in t.event.peer
  }

  ghost predicate PlainListed(ms: Models, byModel: bool) {
    forall m, p | Listed(ms, m, p) :: ':' !in if byModel then m else p
  }

  lemma StepListsOnlyAnnounced(ms: Models, t: Timed, m: string, p: string)
    requires Listed(Apply(ms, t), m, p)
    ensures Listed(ms, m, p) || (t.event.Announce? && t.event.model == m && t.event.peer == p)
  {
  }

  lemma PlainPairOwnsKey(ms: Models, model: string, peer: string, byModel: bool)
    requires PlainListed(ms, byModel) && ':' !in if byModel then model else peer
    ensures OwnsKey(ms, model, peer)
  {
    forall m, p | Listed(ms, m, p) && Joined(m, p) == Joined(model, peer) ensures m == model && p == peer {
      if byModel {
        JoinedInjective(m, p, model, peer);
      } else {
        JoinedInjectiveFromBehind(m, p, model, peer);
      }
    }
  }

  /** Model IDs without ':' are enough, and so are peer IDs without it. */
  lemma {:induction false} PlainRunIsDisciplined(ms: Models, trace: seq<Timed>, byModel: bool)
    requires SteadyRun(ms, trace) && PlainListed(ms, byModel)
    requires if byModel then PlainModels(trace) else PlainPeers(trace)
    ensures DisciplinedRun(ms, trace)
    decreases |trace|
  {
    if trace != [] {
      var t, next := trace[0], Apply(ms, trace[0]);
      assert t in trace && forall u <- trace[1..] :: u in trace;
      if t.event.Announce? {
        PlainPairOwnsKey(ms, t.event.model, t.event.peer, byModel);
      }
      forall m, p | Listed(next, m, p) ensures ':' !in if byModel then m else p {
        StepListsOnlyAnnounced(ms, t, m, p);
      }
      PlainRunIsDisciplined(next, trace[1..], byModel);
    }
  }

  lemma StepKeepsApart(ms: Models, t: Timed)
    requires KeysApart(ms) && Disciplined(ms, t)
    ensures KeysApart(Apply(ms, t))
  {
    var next := Apply(ms, t);
    forall m, p, n, q | Listed(next, m, p) && Listed(next, n, q) && Joined(n, q) == Joined(m, p) ensures n == m && q == p {
      StepListsOnlyAnnounced(ms, t, m, p);
      StepListsOnlyAnnounced(ms, t, n, q);
      assert Listed(ms, m, p) ==> OwnsKey(ms, m, p);
      assert Listed(ms, n, q) ==> OwnsKey(ms, n, q);
    }
  }

  // ----- one step -----

  ghost predicate Renewed<T>(ks: Keyspace<T>, key: string, last: nat) {
    key in ks && ks[key].expiry.At? && last + PRESENCE_TTL <= ks[key].expiry.time
  }

  /** How the four keys record one entry of the in-memory map. */
  ghost predicate Records(db: Presence, m: string, p: string, e: Entry) {
    && HasListing(db, m, p) && db.seeders[m][p] == Unix(e.last)
    && Renewed(db.peers, p, e.last) && db.peers[p].value == e.address
    && Renewed(db.peerModels, p, e.last) && m in db.peerModels[p].value
    && (if e.chunks == [] then Joined(m, p) !in db.chunks
        else Renewed(db.chunks, Joined(m, p), e.last) && db.chunks[Joined(m, p)].value == Printed(e.chunks))
  }

  ghost predicate AllRecorded(ms: Models, db: Presence, clock: nat) {
    forall m, p | Listed(ms, m, p) :: ms[m][p].last <= clock && Records(db, m, p, ms[m][p])
  }

  ghost predicate NothingElseScored(ms: Models, db: Presence) {
    forall m, p | HasListing(db, m, p) :: Listed(ms, m, p)
  }

  ghost predicate NothingElseIndexed(ms: Models, db: Presence) {
    forall p, m | InIndex(db, p, m) :: Listed(ms, m, p)
  }

  ghost predicate Agree(ms: Models, db: Presence, clock: nat) {
    AllRecorded(ms, db, clock) && NothingElseScored(ms, db) && NothingElseIndexed(ms, db)
  }

  ghost predicate InIndex(db: Presence, peer: string, model: string) {
    peer in db.peerModels && model in db.peerModels[peer].value
  }

  lemma AnnounceKeepsRecord(
      db: Presence, m: string, p: string, a: string, cs: seq<Uint32>, now: nat, n: string, q: string, e: Entry)
    requires Records(db, n, q, e) && e.last <= now < e.last + PRESENCE_TTL
    requires Joined(n, q) != Joined(m, p) && (q == p ==> e.address == a)
    ensures Records(AnnouncedIn(db, m, p, a, cs, now), n, q, e)
  {
    assert n != m || q != p;
  }

  lemma AnnounceRecords(db: Presence, m: string, p: string, a: string, cs: seq<Uint32>, now: nat)
    ensures Records(AnnouncedIn(db, m, p, a, cs, now), m, p, Entry(a, cs, now))
  {
  }

  lemma AnnounceKeepsAllRecorded(ms: Models, db: Presence, clock: nat, m: string, p: string, a: string, cs: seq<Uint32>, now: nat)
    requires AllRecorded(ms, db, clock) && clock <= now && Fresh(ms, now) && KeepsAddress(ms, p, a) && OwnsKey(ms, m, p)
    ensures AllRecorded(Announced(ms, m, p, Entry(a, cs, now)), AnnouncedIn(db, m, p, a, cs, now), now)
  {
    var ms', db' := Announced(ms, m, p, Entry(a, cs, now)), AnnouncedIn(db, m, p, a, cs, now);
    forall n, q | Listed(ms', n, q) ensures ms'[n][q].last <= now && Records(db', n, q, ms'[n][q]) {
      if n == m && q == p {
        AnnounceRecords(db, m, p, a, cs, now);
      } else {
        assert Listed(ms, n, q) && ms'[n][q] == ms[n][q];
        AnnounceKeepsRecord(db, m, p, a, cs, now, n, q, ms[n][q]);
      }
    }
  }

  lemma AnnounceKeepsNothingElse(ms: Models, db: Presence, m: string, p: string, a: string, cs: seq<Uint32>, now: nat)
    requires NothingElseScored(ms, db) && NothingElseIndexed(ms, db)
    ensures
      var ms', db' := Announced(ms, m, p, Entry(a, cs, now)), AnnouncedIn(db, m, p, a, cs, now);
      NothingElseScored(ms', db') && NothingElseIndexed(ms', db')
  {
    var ms', db' := Announced(ms, m, p, Entry(a, cs, now)), AnnouncedIn(db, m, p, a, cs, now);
    forall n, q | HasListing(db', n, q) ensures Listed(ms', n, q) {
      if n != m || q != p {
        assert HasListing(db, n, q) && Listed(ms, n, q);
      }
    }
    forall q, n | InIndex(db', q, n) ensures Listed(ms', n, q) {
      if n != m || q != p {
        assert InIndex(db, q, n) && Listed(ms, n, q);
      }
    }
  }

  lemma AnnounceKeepsAgree(ms: Models, db: Presence, clock: nat, m: string, p: string, a: string, cs: seq<Uint32>, now: nat)
    requires Agree(ms, db, clock) && clock <= now && Fresh(ms, now) && KeepsAddress(ms, p, a) && OwnsKey(ms, m, p)
    ensures Agree(Announced(ms, m, p, Entry(a, cs, now)), AnnouncedIn(db, m, p, a, cs, now), now)
  {
    AnnounceKeepsAllRecorded(ms, db, clock, m, p, a, cs, now);
    AnnounceKeepsNothingElse(ms, db, m, p, a, cs, now);
  }

  lemma KeyIsNotOfAnotherPeer(ms: Models, db: Presence, p: string, now: nat, n: string, q: string)
    requires NothingElseIndexed(ms, db) && OwnsKey(ms, n, q) && q != p
    ensures Joined(n, q) !in ChunkKeys(SMembers(db.peerModels, p, now), p)
  {
    forall k | k in SMembers(db.peerModels, p, now) ensures Joined(k, p) != Joined(n, q) {
      assert InIndex(db, p, k) && Listed(ms, k, p);
    }
  }

  lemma HeartbeatKeepsRecord(ms: Models, db: Presence, p: string, now: nat, n: string, q: string)
    requires NothingElseIndexed(ms, db) && KeysApart(ms) && Listed(ms, n, q)
    requires Records(db, n, q, ms[n][q]) && ms[n][q].last <= now < ms[n][q].last + PRESENCE_TTL
    ensures Records(BeatenIn(db, p, now), n, q, if q == p then ms[n][q].(last := now) else ms[n][q])
  {
    var models := SMembers(db.peerModels, p, now);
    if q == p {
      assert n in models && Joined(n, p) in ChunkKeys(models, p);
    } else {
      KeyIsNotOfAnotherPeer(ms, db, p, now, n, q);
    }
  }

  lemma HeartbeatKeepsAgree(ms: Models, db: Presence, clock: nat, p: string, now: nat)
    requires Agree(ms, db, clock) && clock <= now && Fresh(ms, now) && KeysApart(ms)
    ensures Agree(Refreshed(ms, p, now), BeatenIn(db, p, now), now)
  {
    var ms', db' := Refreshed(ms, p, now), BeatenIn(db, p, now);
    var models := SMembers(db.peerModels, p, now);
    forall n, q | Listed(ms', n, q) ensures ms'[n][q].last <= now && Records(db', n, q, ms'[n][q]) {
      assert Listed(ms, n, q);
      HeartbeatKeepsRecord(ms, db, p, now, n, q);
    }
    forall n, q | HasListing(db', n, q) ensures Listed(ms', n, q) {
      if q == p && n in models {
        assert InIndex(db, p, n) && Listed(ms, n, p);
      } else {
        assert HasListing(db, n, q) && Listed(ms, n, q);
      }
    }
    forall q, n | InIndex(db', q, n) ensures Listed(ms', n, q) {
      assert InIndex(db, q, n) && Listed(ms, n, q);
    }
  }

  lemma PurgedListing(ms: Models, p: string, n: string, q: string)
    ensures Listed(Purged(ms, p), n, q) <==> Listed(ms, n, q) && q != p
    ensures Listed(Purged(ms, p), n, q) ==> Purged(ms, p)[n][q] == ms[n][q]
  {
    if Listed(ms, n, q) && q != p {
      assert q in ms[n] - {p};
    }
  }

  lemma PurgedFromListing(db: Presence, p: string, now: nat, n: string, q: string)
    ensures HasListing(PurgedFrom(db, p, now), n, q)
      <==> HasListing(db, n, q) && !(q == p && n in SMembers(db.peerModels, p, now))
    ensures HasListing(PurgedFrom(db, p, now), n, q) ==> PurgedFrom(db, p, now).seeders[n][q] == db.seeders[n][q]
  {
    if HasListing(db, n, q) && q != p {
      assert q in db.seeders[n] - {p};
    }
  }

  lemma RemoveKeepsRecord(ms: Models, db: Presence, p: string, now: nat, n: string, q: string)
    requires NothingElseIndexed(ms, db) && KeysApart(ms) && Listed(ms, n, q) && q != p && Records(db, n, q, ms[n][q])
    ensures Records(PurgedFrom(db, p, now), n, q, ms[n][q])
  {
    PurgedFromListing(db, p, now, n, q);
    KeyIsNotOfAnotherPeer(ms, db, p, now, n, q);
  }

  lemma RemoveKeepsAgree(ms: Models, db: Presence, clock: nat, p: string, now: nat)
    requires Agree(ms, db, clock) && clock <= now && Fresh(ms, now) && KeysApart(ms)
    ensures Agree(Purged(ms, p), PurgedFrom(db, p, now), now)
  {
    var ms', db' := Purged(ms, p), PurgedFrom(db, p, now);
    forall n, q | Listed(ms', n, q) ensures ms'[n][q].last <= now && Records(db', n, q, ms'[n][q]) {
      PurgedListing(ms, p, n, q);
      RemoveKeepsRecord(ms, db, p, now, n, q);
    }
    forall n, q | HasListing(db', n, q) ensures Listed(ms', n, q) {
      PurgedFromListing(db, p, now, n, q);
      PurgedListing(ms, p, n, q);
      assert Listed(ms, n, q) && Records(db, n, q, ms[n][q]);
    }
    forall q, n | InIndex(db', q, n) ensures Listed(ms', n, q) {
      assert InIndex(db, q, n) && Listed(ms, n, q);
      PurgedListing(ms, p, n, q);
    }
  }

  lemma EvictKeepsAgree(ms: Models, db: Presence, clock: nat, timeout: int, now: nat)
    requires Agree(ms, db, clock) && clock <= now && Fresh(ms, now) && PRESENCE_TTL <= timeout
    ensures Agree(Evicted(ms, now - timeout), db, now)
  {
    forall m, p | Listed(ms, m, p) ensures p in Kept(ms[m], now - timeout) {
    }
  }

  lemma StepKeepsAgree(ms: Models, db: Presence, clock: nat, t: Timed)
    requires Agree(ms, db, clock) && KeysApart(ms) && clock <= t.now && Disciplined(ms, t)
    ensures Agree(Apply(ms, t), ApplyRedis(db, t), t.now)
  {
    match t.event {
      case Announce(m, p, a, cs) => AnnounceKeepsAgree(ms, db, clock, m, p, a, cs, t.now);
      case Heartbeat(p) => HeartbeatKeepsAgree(ms, db, clock, p, t.now);
      case RemovePeer(p) => RemoveKeepsAgree(ms, db, clock, p, t.now);
      case Evict(timeout) => EvictKeepsAgree(ms, db, clock, timeout, t.now);
    }
  }

  lemma {:induction false} RunKeepsAgree(ms: Models, db: Presence, start: nat, trace: seq<Timed>)
    requires Agree(ms, db, start) && KeysApart(ms) && Monotone(start, trace) && DisciplinedRun(ms, trace)
    ensures Agree(Run(ms, trace), RunRedis(db, trace), End(start, trace))
    decreases |trace|
  {
    if trace != [] {
      StepKeepsAgree(ms, db, start, trace[0]);
      StepKeepsApart(ms, trace[0]);
      RunKeepsAgree(Apply(ms, trace[0]), ApplyRedis(db, trace[0]), trace[0].now, trace[1..]);
    }
  }

  lemma PrintedParsesBack(chunks: seq<Uint32>)
    ensures ParsedOf(Printed(chunks)) == set c | c in chunks
  {
    forall c: Uint32 ensures c in ParsedOf(Printed(chunks)) <==> c in chunks {
      ParsePrinted(c);
      if c in ParsedOf(Printed(chunks)) {
        var s :| s in Printed(chunks) && ParseUint32(s) == Some(c);
        var d :| d in chunks && Decimal(d) == s;
        ParsePrinted(d);
      }
    }
  }

  lemma AgreeingAnswers(ms: Models, db: Presence, clock: nat, now: nat, model: string)
    requires Agree(ms, db, clock) && clock <= now && Fresh(ms, now)
    ensures Answer(db, model, now) == View(PeersOf(ms, model))
  {
    UnixBounds(now);
    forall p ensures p in Window(db, model, now) <==> p in PeersOf(ms, model) {
      if Listed(ms, model, p) {
        UnixBounds(ms[model][p].last);
        assert Records(db, model, p, ms[model][p]);
      } else {
        assert !HasListing(db, model, p);
      }
    }
    forall p | p in PeersOf(ms, model) ensures Answer(db, model, now)[p] == View(PeersOf(ms, model))[p] {
      var e := ms[model][p];
      assert Listed(ms, model, p) && Records(db, model, p, e);
      PrintedParsesBack(e.chunks);
      assert ChunksOf(db, model, p, now) == set c | c in e.chunks;
    }
    assert Answer(db, model, now).Keys == Window(db, model, now);
  }

  /** On every disciplined run, however long, both trackers answer every query alike: same peers,
      same addresses, same chunk sets. */
  lemma QueriesAgree(start: nat, trace: seq<Timed>, now: nat, model: string)
    requires Monotone(start, trace) && End(start, trace) <= now
    requires DisciplinedRun(map[], trace) && Fresh(Run(map[], trace), now)
    ensures Answer(RunRedis(EMPTY, trace), model, now) == View(PeersOf(Run(map[], trace), model))
  {
    RunKeepsAgree(map[], EMPTY, start, trace);
    AgreeingAnswers(Run(map[], trace), RunRedis(EMPTY, trace), End(start, trace), now, model);
  }

  /** In particular when peers beat in time and keep their address, and model IDs, or peer IDs, have no ':'. */
  lemma PlainQueriesAgree(start: nat, trace: seq<Timed>, now: nat, model: string)
    requires Monotone(start, trace) && End(start, trace) <= now
    requires SteadyRun(map[], trace) && Fresh(Run(map[], trace), now) && (PlainModels(trace) || PlainPeers(trace))
    ensures Answer(RunRedis(EMPTY, trace), model, now) == View(PeersOf(Run(map[], trace), model))
  {
    PlainRunIsDisciplined(map[], trace, PlainModels(trace));
    QueriesAgree(start, trace, now, model);
  }

  lemma Unfold(ms: Models, db: Presence, t: Timed, rest: seq<Timed>)
    ensures Run(ms, [t] + rest) == Run(Apply(ms, t), rest)
    ensures RunRedis(db, [t] + rest) == RunRedis(ApplyRedis(db, t), rest)
    ensures forall start: nat :: Monotone(start, [t] + rest) <==> start <= t.now && Monotone(t.now, rest)
  {
    assert ([t] + rest)[1..] == rest;
  }

  lemma UnfoldThree(t0: Timed, t1: Timed, t2: Timed)
    requires t0.now <= t1.now <= t2.now
    ensures Monotone(0, [t0, t1, t2])
    ensures Run(map[], [t0, t1, t2]) == Apply(Apply(Apply(map[], t0), t1), t2)
    ensures RunRedis(EMPTY, [t0, t1, t2]) == ApplyRedis(ApplyRedis(ApplyRedis(EMPTY, t0), t1), t2)
  {
    var db0, ms0 := ApplyRedis(EMPTY, t0), Apply(map[], t0);
    Unfold(map[], EMPTY, t0, [t1, t2]);
    Unfold(ms0, db0, t1, [t2]);
    Unfold(Apply(ms0, t1), ApplyRedis(db0, t1), t2, []);
    assert [t0, t1, t2] == [t0] + [t1, t2] && [t1, t2] == [t1] + [t2] && [t2] == [t2] + [];
  }

  lemma ViewOfOne(ms: Models, model: string, address: string, chunks: seq<Uint32>, last: nat)
    requires model in ms && ms[model] == map["p" := Entry(address, chunks, last)]
    ensures View(PeersOf(ms, model)) == map["p" := Seen(address, set c | c in chunks)]
  {
  }

  const LATE_B := Timed(Announce("b", "p", "0x1", [7]), 0)
  const LATE_A := Timed(Announce("a", "p", "0x1", []), 30 * SECOND)
  const LATE_BEAT := Timed(Heartbeat("p"), 70 * SECOND)

  lemma LateAnnouncements(db: Presence)
    requires db == ApplyRedis(ApplyRedis(EMPTY, LATE_B), LATE_A)
    ensures db.peers == map["p" := Slot("0x1", At(90 * SECOND))]
    ensures db.peerModels == map["p" := Slot({"a", "b"}, At(90 * SECOND))]
    ensures db.chunks.Keys == {"b:p"} && db.chunks["b:p"].expiry == At(60 * SECOND)
    ensures db.seeders.Keys == {"a", "b"} && db.seeders["b"].Keys == {"p"}
  {
    assert {"b"} + {"a"} == {"a", "b"};
    assert Joined("a", "p") == "a:p" && Joined("b", "p") == "b:p";
  }

  lemma LateHeartbeatInRedis(db: Presence)
    requires db.peers == map["p" := Slot("0x1", At(90 * SECOND))]
    requires db.peerModels == map["p" := Slot({"a", "b"}, At(90 * SECOND))]
    requires db.chunks.Keys == {"b:p"} && db.chunks["b:p"].expiry == At(60 * SECOND)
    requires db.seeders.Keys == {"a", "b"} && db.seeders["b"].Keys == {"p"}
    ensures Answer(ApplyRedis(db, LATE_BEAT), "b", 70 * SECOND) == map["p" := Seen("0x1", {})]
  {
    var now := 70 * SECOND;
    var next := ApplyRedis(db, LATE_BEAT);
    assert SMembers(db.peerModels, "p", now) == {"a", "b"};
    assert next.seeders["b"] == map["p" := 70];
    assert Window(next, "b", now) == {"p"};
    assert SMembers(next.chunks, Joined("b", "p"), now) == {};
    assert Answer(next, "b", now)["p"] == Seen("0x1", {});
  }

  lemma LateHeartbeatInMemory()
    ensures View(PeersOf(Apply(Apply(Apply(map[], LATE_B), LATE_A), LATE_BEAT), "b")) == map["p" := Seen("0x1", {7})]
  {
    ViewOfOne(Apply(Apply(Apply(map[], LATE_B), LATE_A), LATE_BEAT), "b", "0x1", [7], 70 * SECOND);
    assert (set c: Uint32 | c in [7]) == {7};
  }

  /** The beats matter: a peer that lets 60 s pass for one model, but announced another meanwhile, is listed
      again by its next heartbeat, without the chunks the in-memory tracker still shows. */
  lemma LateHeartbeatRelistsWithoutChunks()
    ensures var trace := [LATE_B, LATE_A, LATE_BEAT];
      && Monotone(0, trace)
      && Answer(RunRedis(EMPTY, trace), "b", 70 * SECOND) == map["p" := Seen("0x1", {})]
      && View(PeersOf(Run(map[], trace), "b")) == map["p" := Seen("0x1", {7})]
  {
    UnfoldThree(LATE_B, LATE_A, LATE_BEAT);
    var db := ApplyRedis(ApplyRedis(EMPTY, LATE_B), LATE_A);
    LateAnnouncements(db);
    LateHeartbeatInRedis(db);
    LateHeartbeatInMemory();
  }

  const FIRST_WALLET := Timed(Announce("a", "p", "0x1", []), 0)
  const SECOND_WALLET := Timed(Announce("b", "p", "0x2", []), 0)

  lemma TwoAddressesInRedis(db: Presence)
    requires db == ApplyRedis(ApplyRedis(EMPTY, FIRST_WALLET), SECOND_WALLET)
    ensures Answer(db, "a", 0) == map["p" := Seen("0x2", {})]
  {
    assert db.chunks == map[];
    assert db.seeders["a"] == map["p" := 0];
    assert db.peers == map["p" := Slot("0x2", At(60 * SECOND))];
    assert Window(db, "a", 0) == {"p"};
    assert Answer(db, "a", 0)["p"] == Seen("0x2", {});
  }

  /** One address matters: the in-memory tracker keeps an address per announcement, Redis one per peer. */
  lemma TwoAddressesDisagree()
    ensures var trace := [FIRST_WALLET, SECOND_WALLET];
      && Monotone(0, trace)
      && Answer(RunRedis(EMPTY, trace), "a", 0) == map["p" := Seen("0x2", {})]
      && View(PeersOf(Run(map[], trace), "a")) == map["p" := Seen("0x1", {})]
  {
    var db, ms := ApplyRedis(EMPTY, FIRST_WALLET), Apply(map[], FIRST_WALLET);
    Unfold(map[], EMPTY, FIRST_WALLET, [SECOND_WALLET]);
    Unfold(ms, db, SECOND_WALLET, []);
    assert [FIRST_WALLET, SECOND_WALLET] == [FIRST_WALLET] + [SECOND_WALLET] && [SECOND_WALLET] == [SECOND_WALLET] + [];
    TwoAddressesInRedis(ApplyRedis(db, SECOND_WALLET));
    ViewOfOne(Apply(ms, SECOND_WALLET), "a", "0x1", [], 0);
    assert (set c: Uint32 | c in []) == {};
  }

  const COLON_MODEL := Timed(Announce("a:b", "p", "0x1", [7]), 0)
  const COLON_PEER := Timed(Announce("a", "b:p", "0x2", []), 0)

  lemma SharedKeyInRedis(db: Presence)
    requires db == ApplyRedis(ApplyRedis(EMPTY, COLON_MODEL), COLON_PEER)
    ensures Answer(db, "a:b", 0) == map["p" := Seen("0x1", {})]
  {
    assert Joined("a:b", "p") == "a:b:p" == Joined("a", "b:p");
    assert db.chunks == map[];
    assert db.seeders["a:b"] == map["p" := 0];
    assert db.peers["p"] == Slot("0x1", At(60 * SECOND));
    assert Window(db, "a:b", 0) == {"p"};
    assert Answer(db, "a:b", 0)["p"] == Seen("0x1", {});
  }

  /** Own keys matter: a model and a peer with ':' in the right places share a chunk key with another pair, whose
      announcement takes the chunks away. */
  lemma SharedKeyDisagrees()
    ensures var trace := [COLON_MODEL, COLON_PEER];
      && Monotone(0, trace) && SteadyRun(map[], trace)
      && Answer(RunRedis(EMPTY, trace), "a:b", 0) == map["p" := Seen("0x1", {})]
      && View(PeersOf(Run(map[], trace), "a:b")) == map["p" := Seen("0x1", {7})]
  {
    var db, ms := ApplyRedis(EMPTY, COLON_MODEL), Apply(map[], COLON_MODEL);
    Unfold(map[], EMPTY, COLON_MODEL, [COLON_PEER]);
    Unfold(ms, db, COLON_PEER, []);
    var trace := [COLON_MODEL, COLON_PEER];
    assert trace == [COLON_MODEL] + [COLON_PEER] && [COLON_PEER] == [COLON_PEER] + [];
    SharedKeyInRedis(ApplyRedis(db, COLON_PEER));
    ViewOfOne(Apply(ms, COLON_PEER), "a:b", "0x1", [7], 0);
    assert (set c: Uint32 | c in [7]) == {7};
    assert trace[1..] == [COLON_PEER] && trace[1..][1..] == [];
    assert Steady(map[], COLON_MODEL) && Steady(ms, COLON_PEER);
  }
}
