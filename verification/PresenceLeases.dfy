/** What the Redis tracker answers on every run, however late the beats: whether a peer is listed, and the address and the
    chunks it announced last, for as long as each renewal comes within 60 s of the one before. */
module PresenceLeases {
  import opened Wrappers
  import opened Text
  import opened Clock
  import opened Tracker
  import opened RedisTracker
  import opened PresenceRuns

  /** The chunks announced last for one model and peer, and when they lapse. */
  datatype Lease = Lease(chunks: seq<Uint32>, until: nat)

  function LeasedBy(lease: Option<Lease>, model: string, peer: string, t: Timed): Option<Lease> {
    match t.event
    case Announce(m, p, _, cs) =>
      if m == model && p == peer then (if cs == [] then None else Some(Lease(cs, t.now + PRESENCE_TTL))) else lease
    case Heartbeat(p) =>
      if p == peer && lease.Some? && t.now < lease.value.until then Some(lease.value.(until := t.now + PRESENCE_TTL)) else lease
    case RemovePeer(p) => if p == peer then None else lease
    case Evict(_) => lease
  }

  function LeaseAfter(lease: Option<Lease>, model: string, peer: string, trace: seq<Timed>): Option<Lease>
    decreases |trace|
  {
    if trace == [] then lease else LeaseAfter(LeasedBy(lease, model, peer, trace[0]), model, peer, trace[1..])
  }

  function Shown(lease: Option<Lease>, now: nat): set<Uint32> {
    if lease.Some? && now < lease.value.until then set c | c in lease.value.chunks else {}
  }

  /** No other pair announced in the run has the pair's chunk key. */
  ghost predicate KeyToItself(trace: seq<Timed>, model: string, peer: string) {
    forall t <- trace | t.event.Announce? && Joined(t.event.model, t.event.peer) == Joined(model, peer) ::
      t.event.model == model && t.event.peer == peer
  }

  ghost predicate IndexedApart(db: Presence, model: string, peer: string) {
    forall p, m | InIndex(db, p, m) && Joined(m, p) == Joined(model, peer) :: m == model && p == peer
  }

  /** The chunk key holds the leased list, and the index that renews it lives at least as long. */
  ghost predicate InForce(db: Presence, model: string, peer: string, lease: Lease, clock: nat) {
    var key := Joined(model, peer);
    && key in db.chunks && db.chunks[key] == Slot(Printed(lease.chunks), At(lease.until))
    && InIndex(db, peer, model) && db.peerModels[peer].expiry.At? && lease.until <= db.peerModels[peer].expiry.time
    && lease.until <= clock + PRESENCE_TTL
  }

  ghost predicate Lapsed(db: Presence, model: string, peer: string, clock: nat) {
    var key := Joined(model, peer);
    key in db.chunks ==> db.chunks[key].expiry.At? && db.chunks[key].expiry.time <= clock
  }

  ghost predicate Follows(db: Presence, model: string, peer: string, lease: Option<Lease>, clock: nat) {
    if lease.Some? && clock < lease.value.until then InForce(db, model, peer, lease.value, clock)
    else Lapsed(db, model, peer, clock)
  }

  lemma TimePasses(db: Presence, model: string, peer: string, lease: Option<Lease>, clock: nat, now: nat)
    requires Follows(db, model, peer, lease, clock) && clock <= now
    ensures Follows(db, model, peer, lease, now)
  {
  }

  lemma AnnounceFollows(db: Presence, model: string, peer: string, lease: Option<Lease>, m: string, p: string, a: string, cs: seq<Uint32>, now: nat)
    requires Follows(db, model, peer, lease, now) && IndexedApart(db, model, peer)
    requires Joined(m, p) == Joined(model, peer) ==> m == model && p == peer
    ensures
      var next := AnnouncedIn(db, m, p, a, cs, now);
      && Follows(next, model, peer, LeasedBy(lease, model, peer, Timed(Announce(m, p, a, cs), now)), now)
      && IndexedApart(next, model, peer)
  {
    var next := AnnouncedIn(db, m, p, a, cs, now);
    assert InIndex(next, p, m);
    forall q, n | InIndex(next, q, n) && Joined(n, q) == Joined(model, peer) ensures n == model && q == peer {
      assert InIndex(db, q, n) || (n == m && q == p);
    }
  }

  lemma KeyOfOthers(db: Presence, model: string, peer: string, p: string, now: nat)
    requires IndexedApart(db, model, peer) && p != peer
    ensures Joined(model, peer) !in ChunkKeys(SMembers(db.peerModels, p, now), p)
  {
    forall m | m in SMembers(db.peerModels, p, now) ensures Joined(m, p) != Joined(model, peer) {
      assert InIndex(db, p, m);
    }
  }

  lemma HeartbeatFollows(db: Presence, model: string, peer: string, lease: Option<Lease>, p: string, now: nat)
    requires Follows(db, model, peer, lease, now) && IndexedApart(db, model, peer)
    ensures
      var next := BeatenIn(db, p, now);
      && Follows(next, model, peer, LeasedBy(lease, model, peer, Timed(Heartbeat(p), now)), now)
      && IndexedApart(next, model, peer)
  {
    var next := BeatenIn(db, p, now);
    if p != peer {
      KeyOfOthers(db, model, peer, p, now);
    } else if lease.Some? && now < lease.value.until {
      assert model in SMembers(db.peerModels, p, now);
    }
    forall q, n | InIndex(next, q, n) && Joined(n, q) == Joined(model, peer) ensures n == model && q == peer {
      assert InIndex(db, q, n);
    }
  }

  lemma RemoveFollows(db: Presence, model: string, peer: string, lease: Option<Lease>, p: string, now: nat)
    requires Follows(db, model, peer, lease, now) && IndexedApart(db, model, peer)
    ensures
      var next := PurgedFrom(db, p, now);
      && Follows(next, model, peer, LeasedBy(lease, model, peer, Timed(RemovePeer(p), now)), now)
      && IndexedApart(next, model, peer)
  {
    var next := PurgedFrom(db, p, now);
    if p != peer {
      KeyOfOthers(db, model, peer, p, now);
    } else if lease.Some? && now < lease.value.until {
      assert model in SMembers(db.peerModels, p, now);
    }
    forall q, n | InIndex(next, q, n) && Joined(n, q) == Joined(model, peer) ensures n == model && q == peer {
      assert InIndex(db, q, n);
    }
  }

  lemma {:induction false} RunFollows(
      db: Presence, start: nat, trace: seq<Timed>, model: string, peer: string, lease: Option<Lease>)
    requires Follows(db, model, peer, lease, start) && IndexedApart(db, model, peer)
    requires Monotone(start, trace) && KeyToItself(trace, model, peer)
    ensures Follows(RunRedis(db, trace), model, peer, LeaseAfter(lease, model, peer, trace), End(start, trace))
    decreases |trace|
  {
    if trace != [] {
      var t := trace[0];
      assert t in trace && forall u <- trace[1..] :: u in trace;
      TimePasses(db, model, peer, lease, start, t.now);
      match t.event {
        case Announce(m, p, a, cs) => AnnounceFollows(db, model, peer, lease, m, p, a, cs, t.now);
        case Heartbeat(p) => HeartbeatFollows(db, model, peer, lease, p, t.now);
        case RemovePeer(p) => RemoveFollows(db, model, peer, lease, p, t.now);
        case Evict(_) =>
      }
      RunFollows(ApplyRedis(db, t), t.now, trace[1..], model, peer, LeasedBy(lease, model, peer, t));
    }
  }

  /** On every run, however late the beats, a query shows of a peer's chunks exactly the list it announced last for the
      model while its lease runs, and none once a renewal came 60 s or more after the one before. */
  lemma ChunksAreShownExactlyWhileRenewed(start: nat, trace: seq<Timed>, now: nat, model: string, peer: string)
    requires Monotone(start, trace) && End(start, trace) <= now && KeyToItself(trace, model, peer)
    ensures ChunksOf(RunRedis(EMPTY, trace), model, peer, now) == Shown(LeaseAfter(None, model, peer, trace), now)
  {
    var lease := LeaseAfter(None, model, peer, trace);
    RunFollows(EMPTY, start, trace, model, peer, None);
    TimePasses(RunRedis(EMPTY, trace), model, peer, lease, End(start, trace), now);
    if lease.Some? && now < lease.value.until {
      PrintedParsesBack(lease.value.chunks);
    }
  }

  // ----- address and listing -----

  /** A peer's address, the one it announced last for any model, and the models it is indexed under, both until one time. */
  datatype Standing = Standing(address: string, models: set<string>, until: nat)

  predicate Stands(st: Option<Standing>, now: nat) {
    st.Some? && now < st.value.until
  }

  function AddressShown(st: Option<Standing>, now: nat): string {
    if Stands(st, now) then st.value.address else ""
  }

  function StandingBy(st: Option<Standing>, peer: string, t: Timed): Option<Standing> {
    match t.event
    case Announce(m, p, a, _) =>
      if p == peer then Some(Standing(a, if Stands(st, t.now) then st.value.models + {m} else {m}, t.now + PRESENCE_TTL)) else st
    case Heartbeat(p) => if p == peer && Stands(st, t.now) then Some(st.value.(until := t.now + PRESENCE_TTL)) else st
    case RemovePeer(p) => if p == peer then None else st
    case Evict(_) => st
  }

  /** The second in which a model's listing of a peer was last renewed. */
  function ScoredBy(scored: Option<nat>, st: Option<Standing>, model: string, peer: string, t: Timed): Option<nat> {
    match t.event
    case Announce(m, p, _, _) => if m == model && p == peer then Some(Unix(t.now)) else scored
    case Heartbeat(p) => if p == peer && Stands(st, t.now) && model in st.value.models then Some(Unix(t.now)) else scored
    case RemovePeer(p) => if p == peer && Stands(st, t.now) && model in st.value.models then None else scored
    case Evict(_) => scored
  }

  function StandingAfter(st: Option<Standing>, peer: string, trace: seq<Timed>): Option<Standing>
    decreases |trace|
  {
    if trace == [] then st else StandingAfter(StandingBy(st, peer, trace[0]), peer, trace[1..])
  }

  function ScoredAfter(scored: Option<nat>, st: Option<Standing>, model: string, peer: string, trace: seq<Timed>): Option<nat>
    decreases |trace|
  {
    if trace == [] then scored
    else ScoredAfter(ScoredBy(scored, st, model, peer, trace[0]), StandingBy(st, peer, trace[0]), model, peer, trace[1..])
  }

  ghost predicate GoneBy<T>(ks: Keyspace<T>, key: string, clock: nat) {
    key in ks ==> ks[key].expiry.At? && ks[key].expiry.time <= clock
  }

  ghost predicate StandingKept(db: Presence, peer: string, st: Option<Standing>, clock: nat) {
    if Stands(st, clock) then
      && peer in db.peers && db.peers[peer] == Slot(st.value.address, At(st.value.until))
      && peer in db.peerModels && db.peerModels[peer] == Slot(st.value.models, At(st.value.until))
    else GoneBy(db.peers, peer, clock) && GoneBy(db.peerModels, peer, clock)
  }

  ghost predicate ScoreKept(db: Presence, model: string, peer: string, scored: Option<nat>) {
    if scored.Some? then HasListing(db, model, peer) && db.seeders[model][peer] == scored.value
    else !HasListing(db, model, peer)
  }

  lemma StandingLater(db: Presence, peer: string, st: Option<Standing>, clock: nat, now: nat)
    requires StandingKept(db, peer, st, clock) && clock <= now
    ensures StandingKept(db, peer, st, now)
  {
  }

  lemma AnnounceKeepsStanding(db: Presence, peer: string, st: Option<Standing>, m: string, p: string, a: string, cs: seq<Uint32>, now: nat)
    requires StandingKept(db, peer, st, now)
    ensures StandingKept(AnnouncedIn(db, m, p, a, cs, now), peer, StandingBy(st, peer, Timed(Announce(m, p, a, cs), now)), now)
  {
    var next := AnnouncedIn(db, m, p, a, cs, now);
    if p == peer {
      assert next.peers[peer] == Slot(a, At(now + PRESENCE_TTL));
      assert next.peerModels[peer] == Slot(if Stands(st, now) then st.value.models + {m} else {m}, At(now + PRESENCE_TTL));
    } else {
      assert peer in next.peers <==> peer in db.peers;
      assert peer in next.peerModels <==> peer in db.peerModels;
    }
  }

  lemma HeartbeatKeepsStanding(db: Presence, peer: string, st: Option<Standing>, p: string, now: nat)
    requires StandingKept(db, peer, st, now)
    ensures StandingKept(BeatenIn(db, p, now), peer, StandingBy(st, peer, Timed(Heartbeat(p), now)), now)
  {
  }

  lemma RemoveKeepsStanding(db: Presence, peer: string, st: Option<Standing>, p: string, now: nat)
    requires StandingKept(db, peer, st, now)
    ensures StandingKept(PurgedFrom(db, p, now), peer, StandingBy(st, peer, Timed(RemovePeer(p), now)), now)
  {
  }

  lemma StandingStep(db: Presence, peer: string, st: Option<Standing>, clock: nat, t: Timed)
    requires StandingKept(db, peer, st, clock) && clock <= t.now
    ensures StandingKept(ApplyRedis(db, t), peer, StandingBy(st, peer, t), t.now)
  {
    StandingLater(db, peer, st, clock, t.now);
    match t.event {
      case Announce(m, p, a, cs) => AnnounceKeepsStanding(db, peer, st, m, p, a, cs, t.now);
      case Heartbeat(p) => HeartbeatKeepsStanding(db, peer, st, p, t.now);
      case RemovePeer(p) => RemoveKeepsStanding(db, peer, st, p, t.now);
      case Evict(_) =>
    }
  }

  lemma ScoreStep(db: Presence, model: string, peer: string, scored: Option<nat>, st: Option<Standing>, clock: nat, t: Timed)
    requires StandingKept(db, peer, st, clock) && ScoreKept(db, model, peer, scored) && clock <= t.now
    ensures ScoreKept(ApplyRedis(db, t), model, peer, ScoredBy(scored, st, model, peer, t))
  {
    StandingLater(db, peer, st, clock, t.now);
    if t.event.RemovePeer? {
      PurgedFromListing(db, t.event.peer, t.now, model, peer);
    } else if t.event.Heartbeat? {
      BeatenListing(db, t.event.peer, t.now, model, peer);
    }
  }

  lemma BeatenListing(db: Presence, p: string, now: nat, n: string, q: string)
    ensures
      var renewed := q == p && n in SMembers(db.peerModels, p, now);
      && (HasListing(BeatenIn(db, p, now), n, q) <==> HasListing(db, n, q) || renewed)
      && (renewed ==> BeatenIn(db, p, now).seeders[n][q] == Unix(now))
      && (HasListing(db, n, q) && !renewed ==> BeatenIn(db, p, now).seeders[n][q] == db.seeders[n][q])
  {
  }

  lemma {:induction false} RunKeepsStanding(
      db: Presence, start: nat, trace: seq<Timed>, model: string, peer: string, scored: Option<nat>, st: Option<Standing>)
    requires StandingKept(db, peer, st, start) && ScoreKept(db, model, peer, scored) && Monotone(start, trace)
    ensures StandingKept(RunRedis(db, trace), peer, StandingAfter(st, peer, trace), End(start, trace))
    ensures ScoreKept(RunRedis(db, trace), model, peer, ScoredAfter(scored, st, model, peer, trace))
    decreases |trace|
  {
    if trace != [] {
      var t := trace[0];
      StandingStep(db, peer, st, start, t);
      ScoreStep(db, model, peer, scored, st, start, t);
      RunKeepsStanding(
        ApplyRedis(db, t), t.now, trace[1..], model, peer, ScoredBy(scored, st, model, peer, t), StandingBy(st, peer, t));
    }
  }

  /** On every run whatever, a query lists a peer exactly when its listing was last renewed at most 60 s of the clock's
      seconds ago, and says of it the address it announced last for any model, while each renewal came in time, and the
      chunks it announced last for this one. */
  lemma AnswerIsDecidedByTheRun(start: nat, trace: seq<Timed>, now: nat, model: string, peer: string)
    requires Monotone(start, trace) && End(start, trace) <= now && KeyToItself(trace, model, peer)
    ensures
      var answer := Answer(RunRedis(EMPTY, trace), model, now);
      var scored, st := ScoredAfter(None, None, model, peer, trace), StandingAfter(None, peer, trace);
      && (peer in answer <==> scored.Some? && Unix(now) - PRESENCE_SECONDS <= scored.value)
      && (peer in answer ==> answer[peer] == Seen(AddressShown(st, now), Shown(LeaseAfter(None, model, peer, trace), now)))
  {
    RunKeepsStanding(EMPTY, start, trace, model, peer, None, None);
    ChunksAreShownExactlyWhileRenewed(start, trace, now, model, peer);
    var db := RunRedis(EMPTY, trace);
    assert StandingKept(db, peer, StandingAfter(None, peer, trace), now);
    assert Answer(db, model, now).Keys == Window(db, model, now);
    assert peer in Window(db, model, now) <==> InWindow(db, model, peer, now);
  }
}
