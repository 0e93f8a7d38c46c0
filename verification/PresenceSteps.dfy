/** The Redis tracker with calls that overlap: a heartbeat and a removal read the peer's index in one command and write in
    a later pipeline, and anything may come between. */
module PresenceSteps {
  import opened Text
  import opened Clock
  import opened RedisTracker
  import opened PresenceRuns

  /** A heartbeat or removal that has read the index and not yet written; it took the time before it read. */
  datatype Call = Call(peer: string, models: set<string>, began: nat)

  datatype Shared = Shared(db: Presence, calls: map<nat, Call>)

  datatype Step =
    | Announces(model: string, peer: string, address: string, chunks: seq<Uint32>)
    | Reads(id: nat, peer: string, began: nat)
    | Beats(id: nat)
    | Removes(id: nat)

  datatype Stamped = Stamped(step: Step, now: nat)

  predicate Writes(step: Step) {
    step.Beats? || step.Removes?
  }

  /** A call reads once and then writes once. */
  predicate Possible(s: Shared, t: Stamped) {
    && (t.step.Reads? ==> t.step.id !in s.calls && t.step.began <= t.now)
    && (Writes(t.step) ==> t.step.id in s.calls)
  }

  ghost function After(s: Shared, t: Stamped): Shared
    requires Possible(s, t)
  {
    match t.step
    case Announces(m, p, a, cs) => s.(db := AnnouncedIn(s.db, m, p, a, cs, t.now))
    case Reads(id, p, began) => s.(calls := s.calls[id := Call(p, SMembers(s.db.peerModels, p, t.now), began)])
    case Beats(id) =>
      var c := s.calls[id];
      Shared(BeatenFor(s.db, c.peer, c.models, Unix(c.began), t.now), s.calls - {id})
    case Removes(id) => Shared(PurgedOf(s.db, s.calls[id].peer, s.calls[id].models), s.calls - {id})
  }

  ghost predicate PossibleRun(s: Shared, clock: nat, run: seq<Stamped>)
    decreases |run|
  {
    run != [] ==> clock <= run[0].now && Possible(s, run[0]) && PossibleRun(After(s, run[0]), run[0].now, run[1..])
  }

  /** A call that writes at once does what the whole operation does. */
  lemma UnbrokenCallIsWhole(s: Shared, id: nat, peer: string, now: nat)
    requires id !in s.calls
    ensures
      var between := After(s, Stamped(Reads(id, peer, now), now));
      && After(between, Stamped(Beats(id), now)) == s.(db := BeatenIn(s.db, peer, now))
      && After(between, Stamped(Removes(id), now)) == s.(db := PurgedFrom(s.db, peer, now))
  {
    assert s.calls[id := Call(peer, SMembers(s.db.peerModels, peer, now), now)] - {id} == s.calls;
  }

  // ----- when the index still covers what is listed -----

  /** From now on, a listing inside its minute is in its peer's live index, beside live metadata. */
  ghost predicate IndexedFrom(db: Presence, clock: nat) {
    forall m, p, now: nat | HasListing(db, m, p) && clock <= now < WindowEnd(db.seeders[m][p]) :: IndexedNow(db, m, p, now)
  }

  ghost predicate IndexedNow(db: Presence, model: string, peer: string, now: nat) {
    model in SMembers(db.peerModels, peer, now) && LiveKey(db.peers, peer, now)
  }

  /** What every step keeps, whatever comes between the halves of a call. */
  ghost predicate InOrder(s: Shared, clock: nat) {
    && OneLease(s.db) && (forall m, p | HasListing(s.db, m, p) :: s.db.seeders[m][p] * SECOND <= clock)
    && forall id <- s.calls :: s.calls[id].began <= clock
  }

  lemma CoveredExactlyWhenIndexed(s: Shared, clock: nat)
    requires InOrder(s, clock)
    ensures Covered(s.db, clock) <==> IndexedFrom(s.db, clock)
  {
    if IndexedFrom(s.db, clock) {
      forall m, p | HasListing(s.db, m, p) ensures CoveredListing(s.db, clock, m, p) {
        var end := WindowEnd(s.db.seeders[m][p]);
        if clock < end {
          assert IndexedNow(s.db, m, p, end - 1);
        }
      }
    }
  }

  lemma StepKeepsOrder(s: Shared, clock: nat, t: Stamped)
    requires InOrder(s, clock) && clock <= t.now && Possible(s, t)
    ensures InOrder(After(s, t), t.now)
  {
    UnixBounds(t.now);
    if t.step.Beats? {
      UnixBounds(s.calls[t.step.id].began);
    }
    var db := After(s, t).db;
    forall m, p | HasListing(db, m, p) ensures db.seeders[m][p] * SECOND <= t.now {
      assert HasListing(s.db, m, p) ==> s.db.seeders[m][p] * SECOND <= clock;
    }
  }

  /** A heartbeat still finds in the live index what it read, or comes a minute late; a removal has read every listing
      of the peer that is inside its minute. */
  ghost predicate WritesInTime(s: Shared, t: Stamped)
    requires Possible(s, t)
  {
    match t.step
    case Beats(id) =>
      var c := s.calls[id];
      c.models <= SMembers(s.db.peerModels, c.peer, t.now) || WindowEnd(Unix(c.began)) <= t.now
    case Removes(id) => UnreadAreOver(s.db, s.calls[id], t.now)
    case _ => true
  }

  ghost predicate UnreadAreOver(db: Presence, c: Call, now: nat) {
    forall m | HasListing(db, m, c.peer) && m !in c.models :: WindowEnd(db.seeders[m][c.peer]) <= now
  }

  lemma BeatKeepsCovered(db: Presence, clock: nat, c: Call, now: nat)
    requires Covered(db, clock) && clock <= now && c.began <= now
    ensures Covered(BeatenFor(db, c.peer, c.models, Unix(c.began), now), now)
      <==> c.models <= SMembers(db.peerModels, c.peer, now) || WindowEnd(Unix(c.began)) <= now
  {
    var next := BeatenFor(db, c.peer, c.models, Unix(c.began), now);
    UnixBounds(c.began);
    if c.models <= SMembers(db.peerModels, c.peer, now) || WindowEnd(Unix(c.began)) <= now {
      forall m, p | HasListing(next, m, p) ensures CoveredListing(next, now, m, p) {
        if m !in c.models || p != c.peer {
          assert HasListing(db, m, p) && CoveredListing(db, clock, m, p);
        }
      }
    } else {
      var m :| m in c.models && m !in SMembers(db.peerModels, c.peer, now);
      assert HasListing(next, m, c.peer) && !CoveredListing(next, now, m, c.peer);
    }
  }

  lemma RemovalLeaves(db: Presence, c: Call, m: string, p: string)
    ensures HasListing(PurgedOf(db, c.peer, c.models), m, p) <==> HasListing(db, m, p) && !(p == c.peer && m in c.models)
    ensures HasListing(PurgedOf(db, c.peer, c.models), m, p) ==> PurgedOf(db, c.peer, c.models).seeders[m][p] == db.seeders[m][p]
  {
    if HasListing(db, m, p) && p != c.peer {
      assert p in db.seeders[m] - {c.peer};
    }
  }

  lemma RemovalKeepsCovered(db: Presence, clock: nat, c: Call, now: nat)
    requires Covered(db, clock) && clock <= now
    ensures Covered(PurgedOf(db, c.peer, c.models), now) <==> UnreadAreOver(db, c, now)
  {
    var next := PurgedOf(db, c.peer, c.models);
    forall m, p ensures HasListing(next, m, p) <==> HasListing(db, m, p) && !(p == c.peer && m in c.models)
      ensures HasListing(next, m, p) ==> next.seeders[m][p] == db.seeders[m][p] {
      RemovalLeaves(db, c, m, p);
    }
    if UnreadAreOver(db, c, now) {
      forall m, p | HasListing(next, m, p) ensures CoveredListing(next, now, m, p) {
        assert HasListing(db, m, p) && CoveredListing(db, clock, m, p);
      }
    } else {
      var m :| HasListing(db, m, c.peer) && m !in c.models && now < WindowEnd(db.seeders[m][c.peer]);
      assert HasListing(next, m, c.peer) && !CoveredListing(next, now, m, c.peer);
    }
  }

  lemma StepKeepsCoveredExactlyWhen(s: Shared, clock: nat, t: Stamped)
    requires Covered(s.db, clock) && InOrder(s, clock) && clock <= t.now && Possible(s, t)
    ensures Covered(After(s, t).db, t.now) <==> WritesInTime(s, t)
  {
    match t.step {
      case Announces(m, p, a, cs) => AnnounceKeepsCovered(s.db, clock, m, p, a, cs, t.now);
      case Reads(id, p, began) => CoveredLater(s.db, clock, t.now);
      case Beats(id) => BeatKeepsCovered(s.db, clock, s.calls[id], t.now);
      case Removes(id) => RemovalKeepsCovered(s.db, clock, s.calls[id], t.now);
    }
  }

  lemma CoveredLater(db: Presence, clock: nat, now: nat)
    requires Covered(db, clock) && clock <= now
    ensures Covered(db, now)
  {
    forall m, p | HasListing(db, m, p) ensures CoveredListing(db, now, m, p) {
      assert CoveredListing(db, clock, m, p);
    }
  }

  ghost predicate AlwaysIndexed(s: Shared, clock: nat, run: seq<Stamped>)
    requires PossibleRun(s, clock, run)
    decreases |run|
  {
    IndexedFrom(s.db, clock) && (run != [] ==> AlwaysIndexed(After(s, run[0]), run[0].now, run[1..]))
  }

  ghost predicate AllWriteInTime(s: Shared, clock: nat, run: seq<Stamped>)
    requires PossibleRun(s, clock, run)
    decreases |run|
  {
    run != [] ==> WritesInTime(s, run[0]) && AllWriteInTime(After(s, run[0]), run[0].now, run[1..])
  }

  lemma {:induction false} IndexedFromHereExactlyWhen(s: Shared, clock: nat, run: seq<Stamped>)
    requires PossibleRun(s, clock, run) && InOrder(s, clock) && Covered(s.db, clock)
    ensures AlwaysIndexed(s, clock, run) <==> AllWriteInTime(s, clock, run)
    decreases |run|
  {
    CoveredExactlyWhenIndexed(s, clock);
    if run != [] {
      var next := After(s, run[0]);
      StepKeepsOrder(s, clock, run[0]);
      StepKeepsCoveredExactlyWhen(s, clock, run[0]);
      CoveredExactlyWhenIndexed(next, run[0].now);
      if WritesInTime(s, run[0]) {
        IndexedFromHereExactlyWhen(next, run[0].now, run[1..]);
      }
    }
  }

  const START := Shared(EMPTY, map[])

  /** In every interleaving of calls, a listing inside its minute stays indexed throughout exactly when each heartbeat still
      finds in the live index what it read, and each removal has read all there is to remove. */
  lemma AlwaysIndexedExactlyWhenWritesInTime(run: seq<Stamped>)
    requires PossibleRun(START, 0, run)
    ensures AlwaysIndexed(START, 0, run) <==> AllWriteInTime(START, 0, run)
  {
    IndexedFromHereExactlyWhen(START, 0, run);
  }

  // ----- one call of a peer at a time -----

  /** The peer whose keys a step writes. */
  function Writer(s: Shared, t: Stamped): string
    requires Possible(s, t) && !t.step.Reads?
  {
    if t.step.Announces? then t.step.peer else s.calls[t.step.id].peer
  }

  /** Nothing else of the peer is under way when its keys are written, and its index does not run out between the halves of
      a heartbeat. */
  ghost predicate Alone(s: Shared, t: Stamped)
    requires Possible(s, t)
  {
    && (!t.step.Reads? ==>
         forall id <- s.calls | s.calls[id].peer == Writer(s, t) :: Writes(t.step) && id == t.step.id)
    && (t.step.Beats? ==>
         var c := s.calls[t.step.id];
         c.models == {} || LiveKey(s.db.peerModels, c.peer, t.now))
  }

  ghost predicate OneAtATime(s: Shared, clock: nat, run: seq<Stamped>)
    requires PossibleRun(s, clock, run)
    decreases |run|
  {
    run != [] ==> Alone(s, run[0]) && OneAtATime(After(s, run[0]), run[0].now, run[1..])
  }

  /** What a call has read is what its peer's index holds, as long as that lives. */
  ghost predicate ReadsHold(s: Shared, clock: nat) {
    forall id <- s.calls :: ReadHolds(s.db, s.calls[id], clock)
  }

  ghost predicate ReadHolds(db: Presence, c: Call, clock: nat) {
    LiveKey(db.peerModels, c.peer, clock) ==> db.peerModels[c.peer].value == c.models
  }

  lemma StepKeepsReads(s: Shared, clock: nat, t: Stamped)
    requires ReadsHold(s, clock) && clock <= t.now && Possible(s, t) && Alone(s, t)
    ensures ReadsHold(After(s, t), t.now)
  {
    var next := After(s, t);
    forall id | id in next.calls ensures ReadHolds(next.db, next.calls[id], t.now) {
      if id in s.calls {
        assert ReadHolds(s.db, s.calls[id], clock);
      }
    }
  }

  lemma AloneWritesInTime(s: Shared, clock: nat, t: Stamped)
    requires ReadsHold(s, clock) && Covered(s.db, clock) && clock <= t.now && Possible(s, t) && Alone(s, t)
    ensures WritesInTime(s, t)
  {
    if t.step.Removes? {
      var c := s.calls[t.step.id];
      assert ReadHolds(s.db, c, clock);
      forall m | HasListing(s.db, m, c.peer) && m !in c.models ensures WindowEnd(s.db.seeders[m][c.peer]) <= t.now {
        assert CoveredListing(s.db, clock, m, c.peer);
      }
    } else if t.step.Beats? {
      assert ReadHolds(s.db, s.calls[t.step.id], clock);
    }
  }

  lemma {:induction false} AloneStaysIndexed(s: Shared, clock: nat, run: seq<Stamped>)
    requires PossibleRun(s, clock, run) && InOrder(s, clock) && Covered(s.db, clock) && ReadsHold(s, clock)
    requires OneAtATime(s, clock, run)
    ensures AllWriteInTime(s, clock, run)
    decreases |run|
  {
    if run != [] {
      AloneWritesInTime(s, clock, run[0]);
      StepKeepsReads(s, clock, run[0]);
      StepKeepsOrder(s, clock, run[0]);
      StepKeepsCoveredExactlyWhen(s, clock, run[0]);
      AloneStaysIndexed(After(s, run[0]), run[0].now, run[1..]);
    }
  }

  /** It is enough that the calls of one peer do not overlap; those of different peers may, in any way. */
  lemma OneAtATimeStaysIndexed(run: seq<Stamped>)
    requires PossibleRun(START, 0, run) && OneAtATime(START, 0, run)
    ensures AlwaysIndexed(START, 0, run)
  {
    AloneStaysIndexed(START, 0, run);
    AlwaysIndexedExactlyWhenWritesInTime(run);
  }

  lemma RunOfMore(s: Shared, clock: nat, t: Stamped, rest: seq<Stamped>)
    requires clock <= t.now && Possible(s, t) && PossibleRun(After(s, t), t.now, rest)
    ensures PossibleRun(s, clock, [t] + rest)
    ensures AllWriteInTime(s, clock, [t] + rest) <==> WritesInTime(s, t) && AllWriteInTime(After(s, t), t.now, rest)
  {
    assert ([t] + rest)[1..] == rest;
  }

  const JOINS := Stamped(Announces("m", "p", "0x1", []), 0)
  const BEAT_READS := Stamped(Reads(0, "p", 0), 0)
  const KICK_READS := Stamped(Reads(1, "p", 0), 0)
  const KICK_WRITES := Stamped(Removes(1), 0)
  const BEAT_WRITES := Stamped(Beats(0), 0)

  lemma BothHaveRead(s: Shared)
    requires s == After(After(After(START, JOINS), BEAT_READS), KICK_READS)
    ensures s.calls == map[0 := Call("p", {"m"}, 0), 1 := Call("p", {"m"}, 0)]
  {
    var db := AnnouncedIn(EMPTY, "m", "p", "0x1", [], 0);
    assert SMembers(db.peerModels, "p", 0) == {"m"};
  }

  lemma LateWrite(s: Shared)
    requires s.calls == map[0 := Call("p", {"m"}, 0), 1 := Call("p", {"m"}, 0)]
    ensures PossibleRun(s, 0, [KICK_WRITES, BEAT_WRITES]) && !AllWriteInTime(s, 0, [KICK_WRITES, BEAT_WRITES])
  {
    var removed := After(s, KICK_WRITES);
    assert removed.calls == map[0 := Call("p", {"m"}, 0)];
    assert "p" !in removed.db.peerModels && "m" in removed.calls[0].models;
    assert !WritesInTime(removed, BEAT_WRITES);
    RunOfMore(removed, 0, BEAT_WRITES, []);
    RunOfMore(s, 0, KICK_WRITES, [BEAT_WRITES]);
    assert [BEAT_WRITES] == [BEAT_WRITES] + [] && [KICK_WRITES, BEAT_WRITES] == [KICK_WRITES] + [BEAT_WRITES];
  }

  /** Overlap matters: a peer that is removed between the halves of its own heartbeat is listed again, in no index. */
  lemma RemovalInsideHeartbeatLosesIndex()
    ensures
      var run := [JOINS, BEAT_READS, KICK_READS, KICK_WRITES, BEAT_WRITES];
      PossibleRun(START, 0, run) && !AlwaysIndexed(START, 0, run)
  {
    var joined := After(START, JOINS);
    var beating := After(joined, BEAT_READS);
    var both := After(beating, KICK_READS);
    var writes := [KICK_WRITES, BEAT_WRITES];
    BothHaveRead(both);
    LateWrite(both);
    RunOfMore(beating, 0, KICK_READS, writes);
    RunOfMore(joined, 0, BEAT_READS, [KICK_READS] + writes);
    RunOfMore(START, 0, JOINS, [BEAT_READS] + ([KICK_READS] + writes));
    var run := [JOINS, BEAT_READS, KICK_READS, KICK_WRITES, BEAT_WRITES];
    assert run == [JOINS] + ([BEAT_READS] + ([KICK_READS] + writes));
    AlwaysIndexedExactlyWhenWritesInTime(run);
  }
}
