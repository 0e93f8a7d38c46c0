/** What holds of the hub in every interleaving of its connections' steps. */
module HubRuns {
  import opened Wrappers
  import opened Text
  import opened Tracker
  import opened Hub

  ghost predicate Possible<C>(s: HubState<C>, steps: seq<Step<C>>)
    decreases |steps|
  {
    steps == [] || (Enabled(s, steps[0]) && Possible(After(s, steps[0]), steps[1..]))
  }

  ghost function RunHub<C>(s: HubState<C>, steps: seq<Step<C>>): HubState<C>
    requires Possible(s, steps)
    decreases |steps|
  {
    if steps == [] then s else RunHub(After(s, steps[0]), steps[1..])
  }

  /** A connection that has yet to tell the tracker it is gone. */
  ghost predicate Present<C>(s: HubState<C>, c: C, id: string) {
    c in s.conns && s.conns[c].id == id && s.conns[c].phase != Gone
  }

  ghost predicate Seats<C>(s: HubState<C>) {
    forall k <- s.peers ::
      k != "" && Present(s, s.peers[k], k) && s.conns[s.peers[k]].phase != Leaving
  }

  /** The listing is backed by a connection of that peer, and its wallet, unless blank, is the wallet that
      connection has now. */
  ghost predicate Backed<C>(s: HubState<C>, model: string, peer: string)
    requires Listed(s.tracker, model, peer)
  {
    var address := s.tracker[model][peer].address;
    exists c :: c in s.conns && Present(s, c, peer) && !s.conns[c].phase.Registering? && (address == "" || s.conns[c].address == address)
  }

  /** Connections in the middle of a registration carry the ID they will be seated under. */
  ghost predicate PendingIds<C>(s: HubState<C>) {
    forall c <- s.conns | s.conns[c].phase.Registering? ::
      s.conns[c].phase.id != "" && (s.conns[c].id == "" || s.conns[c].id == s.conns[c].phase.id)
  }

  ghost predicate Consistent<C>(s: HubState<C>) {
    && Seats(s) && PendingIds(s) && NoEmptyInner(s.tracker)
    && (forall m, k | Listed(s.tracker, m, k) :: k != "" && Backed(s, m, k))
  }

  ghost predicate SameButClosed<C>(s: HubState<C>, t: HubState<C>, q: C)
    requires q in s.conns
  {
    && q in t.conns && t.conns[q].id == s.conns[q].id
    && t.conns[q].address == s.conns[q].address && t.conns[q].phase == s.conns[q].phase
  }

  /** Steps that leave the tracker alone, or only refresh or shrink it, keep every backing they do not touch. */
  lemma StillBacked<C>(s: HubState<C>, t: HubState<C>, c: C, m: string, k: string)
    requires Listed(t.tracker, m, k) && Listed(s.tracker, m, k) && Backed(s, m, k)
    requires t.tracker[m][k].address == s.tracker[m][k].address
    requires forall q <- s.conns | q != c :: SameButClosed(s, t, q)
    requires c in s.conns && s.conns[c].id == k && s.conns[c].phase != Gone && !s.conns[c].phase.Registering? ==>
      Present(t, c, k) && !t.conns[c].phase.Registering? && (s.conns[c].address != "" ==> t.conns[c].address == s.conns[c].address)
    ensures Backed(t, m, k)
  {
    var address := s.tracker[m][k].address;
    var q :| q in s.conns && Present(s, q, k) && !s.conns[q].phase.Registering? && (address == "" || s.conns[q].address == address);
    if q != c {
      assert SameButClosed(s, t, q);
    }
    assert Present(t, q, k);
  }

  lemma SeatedKeepsSeats<C>(s: HubState<C>, c: C, conn: Conn)
    requires Seats(s) && PendingIds(s) && conn.id != "" && conn.phase == Open
    requires c in s.conns ==> s.conns[c].id == "" || s.conns[c].id == conn.id
    ensures Seats(Seated(s, c, conn)) && PendingIds(Seated(s, c, conn))
  {
  }

  lemma SeatedKeepsBacking<C>(s: HubState<C>, c: C, conn: Conn, m: string, k: string)
    requires Seats(s) && conn.phase == Open
    requires c in s.conns ==> s.conns[c].phase.Registering?
    requires Listed(s.tracker, m, k) && Backed(s, m, k)
    ensures Backed(Seated(s, c, conn), m, k)
  {
    StillBacked(s, Seated(s, c, conn), c, m, k);
  }

  lemma ConnectKeeps<C>(s: HubState<C>, step: Step<C>)
    requires Consistent(s) && Enabled(s, step) && step.Connect?
    ensures Consistent(After(s, step))
  {
    var t := After(s, step);
    if step.claims.Some? {
      var conn := Conn(step.claims.value.peerId, step.claims.value.address, false, Open);
      SeatedKeepsSeats(s, step.c, conn);
      forall m, k | Listed(t.tracker, m, k) ensures k != "" && Backed(t, m, k) {
        SeatedKeepsBacking(s, step.c, conn, m, k);
      }
    } else {
      forall m, k | Listed(t.tracker, m, k) ensures k != "" && Backed(t, m, k) {
        StillBacked(s, t, step.c, m, k);
      }
    }
  }

  lemma EnrollKeeps<C>(s: HubState<C>, step: Step<C>)
    requires Consistent(s) && Enabled(s, step) && step.Enroll?
    ensures Consistent(After(s, step))
  {
    var phase := s.conns[step.c].phase;
    var conn := s.conns[step.c].(id := phase.id, address := phase.address, phase := Open);
    SeatedKeepsSeats(s, step.c, conn);
    forall m, k | Listed(s.tracker, m, k) ensures k != "" && Backed(Seated(s, step.c, conn), m, k) {
      SeatedKeepsBacking(s, step.c, conn, m, k);
    }
  }

  lemma RegisterStartKeeps<C>(s: HubState<C>, step: Step<C>)
    requires Consistent(s) && Enabled(s, step) && step.RegisterStart?
    ensures Consistent(After(s, step))
  {
    var t := After(s, step);
    forall m, k | Listed(t.tracker, m, k) ensures k != "" && Backed(t, m, k) {
      StillBacked(s, t, step.c, m, k);
    }
  }

  lemma AnnounceKeeps<C>(s: HubState<C>, step: Step<C>)
    requires Consistent(s) && Enabled(s, step) && step.Announce?
    ensures Consistent(After(s, step))
  {
    var t := After(s, step);
    if t.tracker != s.tracker {
      assert step.c in t.conns && Present(t, step.c, t.conns[step.c].id);
      assert t.conns[step.c].id in t.tracker[step.model];
    }
    forall m, k | Listed(t.tracker, m, k) ensures k != "" && Backed(t, m, k) {
      if t.tracker == s.tracker || m != step.model || k != t.conns[step.c].id {
        StillBacked(s, t, step.c, m, k);
      }
    }
  }

  lemma LeavingKeeps<C>(s: HubState<C>, step: Step<C>)
    requires Consistent(s) && Enabled(s, step) && (step.LeaveStart? || step.LeaveEnd?)
    ensures Consistent(After(s, step))
  {
    var t := After(s, step);
    forall m, k | Listed(t.tracker, m, k) ensures k != "" && Backed(t, m, k) {
      StillBacked(s, t, step.c, m, k);
    }
  }

  lemma TrackerStepsKeep<C>(s: HubState<C>, step: Step<C>)
    requires Consistent(s) && Enabled(s, step) && (step.Heartbeat? || step.Evict?)
    ensures Consistent(After(s, step))
  {
    var t := After(s, step);
    assert forall m <- t.tracker :: step.Heartbeat? ==> t.tracker[m].Keys == s.tracker[m].Keys;
    forall m, k | Listed(t.tracker, m, k) ensures k != "" && Backed(t, m, k) {
      assert Listed(s.tracker, m, k) && t.tracker[m][k].address == s.tracker[m][k].address;
      assert Backed(s, m, k);
    }
  }

  lemma AfterKeepsConsistent<C>(s: HubState<C>, step: Step<C>)
    requires Consistent(s) && Enabled(s, step)
    ensures Consistent(After(s, step))
  {
    match step
    case Connect(_, _) => ConnectKeeps(s, step);
    case Enroll(_) => EnrollKeeps(s, step);
    case RegisterStart(_, _, _) => RegisterStartKeeps(s, step);
    case Announce(_, _, _, _, _) => AnnounceKeeps(s, step);
    case LeaveStart(_) => LeavingKeeps(s, step);
    case LeaveEnd(_) => LeavingKeeps(s, step);
    case Heartbeat(_, _) => TrackerStepsKeep(s, step);
    case Evict(_, _) => TrackerStepsKeep(s, step);
  }

  lemma {:induction false} RunKeepsConsistent<C>(s: HubState<C>, steps: seq<Step<C>>)
    requires Consistent(s) && Possible(s, steps)
    ensures Consistent(RunHub(s, steps))
    decreases |steps|
  {
    if steps != [] {
      AfterKeepsConsistent(s, steps[0]);
      RunKeepsConsistent(After(s, steps[0]), steps[1..]);
    }
  }

  ghost function Start<C>(): HubState<C> {
    HubState(map[], map[], map[])
  }

  /** In every interleaving: a seat under an ID belongs to a connection of that ID that has not left, and whatever
      a query can list is backed by a connection still to report its departure, under a wallet it has now. */
  lemma SeatsAndListingsAreBacked<C>(steps: seq<Step<C>>)
    requires Possible(Start(), steps)
    ensures var s := RunHub(Start(), steps);
      && (forall k <- s.peers :: s.peers[k] in s.conns && s.conns[s.peers[k]].id == k && s.conns[s.peers[k]].phase !in {Leaving, Gone})
      && (forall m, k | Listed(s.tracker, m, k) :: Backed(s, m, k))
  {
    RunKeepsConsistent(Start(), steps);
  }

  /** Once set, an ID is kept for the life of the connection. */
  lemma {:induction false} IdNeverChanges<C>(s: HubState<C>, steps: seq<Step<C>>, c: C)
    requires Consistent(s) && Possible(s, steps) && c in s.conns && s.conns[c].id != ""
    ensures c in RunHub(s, steps).conns && RunHub(s, steps).conns[c].id == s.conns[c].id
    decreases |steps|
  {
    if steps != [] {
      AfterKeepsConsistent(s, steps[0]);
      IdStays(s, steps[0], c);
      IdNeverChanges(After(s, steps[0]), steps[1..], c);
    }
  }

  lemma IdStays<C>(s: HubState<C>, step: Step<C>, c: C)
    requires Seats(s) && PendingIds(s) && Enabled(s, step) && c in s.conns && s.conns[c].id != ""
    ensures c in After(s, step).conns && After(s, step).conns[c].id == s.conns[c].id
  {
  }

  /** And so is a wallet, until the connection registers again. */
  lemma {:induction false} WalletStaysBound<C>(s: HubState<C>, steps: seq<Step<C>>, c: C)
    requires Possible(s, steps) && c in s.conns && s.conns[c].address != ""
    requires Enroll(c) !in steps
    ensures c in RunHub(s, steps).conns && RunHub(s, steps).conns[c].address == s.conns[c].address
    decreases |steps|
  {
    if steps != [] {
      assert steps[0] in steps && Enroll(c) !in steps[1..];
      WalletStaysBound(After(s, steps[0]), steps[1..], c);
    }
  }

  /** When every connection is gone nothing is left behind, neither a seat nor a listing. */
  lemma NothingLeftWhenAllGone<C>(steps: seq<Step<C>>)
    requires Possible(Start(), steps)
    requires forall c <- RunHub(Start(), steps).conns :: RunHub(Start(), steps).conns[c].phase == Gone
    ensures RunHub(Start(), steps).peers == map[] && RunHub(Start(), steps).tracker == map[]
  {
    var s := RunHub(Start(), steps);
    RunKeepsConsistent(Start(), steps);
    assert forall m, k :: !Listed(s.tracker, m, k);
    forall m ensures m !in s.tracker {
      if m in s.tracker {
        var k :| k in s.tracker[m];
        assert Listed(s.tracker, m, k);
      }
    }
  }

  /** What a step does to one listing. */
  datatype Mark = Lists | Drops | Leaves

  /** It is made by an announcement the hub accepts, and dropped by a connection of that ID departing or registering again,
      or by an eviction that finds it stale. */
  ghost function MarkOf<C>(s: HubState<C>, step: Step<C>, m: string, k: string): Mark
    requires Enabled(s, step)
  {
    match step
    case Announce(c, model, _, chunks, _) =>
      if s.conns[c].id == k != "" && model == m != "" && |chunks| <= MAX_CHUNKS_PER_ANNOUNCEMENT then Lists else Leaves
    case LeaveEnd(c) => if s.conns[c].id == k then Drops else Leaves
    case RegisterStart(c, id, _) => if s.conns[c].id == k && id == k && k != "" then Drops else Leaves
    case Evict(timeout, now) => if Listed(s.tracker, m, k) && Stale(s.tracker[m][k], now - timeout) then Drops else Leaves
    case _ => Leaves
  }

  lemma StepOnListing<C>(s: HubState<C>, step: Step<C>, m: string, k: string)
    requires Enabled(s, step)
    ensures
      var mark := MarkOf(s, step, m, k);
      Listed(After(s, step).tracker, m, k) <==> mark == Lists || (mark == Leaves && Listed(s.tracker, m, k))
  {
    match step
    case LeaveEnd(c) =>
      assert Listed(s.tracker, m, k) && s.conns[c].id != k ==> k in s.tracker[m] - {s.conns[c].id};
    case RegisterStart(c, id, _) =>
      assert Listed(s.tracker, m, k) && s.conns[c].id != k ==> k in s.tracker[m] - {s.conns[c].id};
    case Evict(timeout, now) =>
      assert Listed(s.tracker, m, k) && !Stale(s.tracker[m][k], now - timeout) ==> k in Kept(s.tracker[m], now - timeout);
    case _ =>
  }

  ghost function Marks<C>(s: HubState<C>, steps: seq<Step<C>>, m: string, k: string): seq<Mark>
    requires Possible(s, steps)
    decreases |steps|
  {
    if steps == [] then [] else [MarkOf(s, steps[0], m, k)] + Marks(After(s, steps[0]), steps[1..], m, k)
  }

  /** The i-th step listed it, and nothing since touched it. */
  predicate ListedLast(marks: seq<Mark>, i: nat) {
    i < |marks| && marks[i] == Lists && forall j | i < j < |marks| :: marks[j] == Leaves
  }

  ghost predicate SomeListedLast(marks: seq<Mark>) {
    exists i: nat :: ListedLast(marks, i)
  }

  predicate AllLeave(marks: seq<Mark>) {
    forall j | 0 <= j < |marks| :: marks[j] == Leaves
  }

  lemma FirstMark(first: Mark, rest: seq<Mark>)
    ensures SomeListedLast([first] + rest) <==> SomeListedLast(rest) || (first == Lists && AllLeave(rest))
    ensures AllLeave([first] + rest) <==> first == Leaves && AllLeave(rest)
  {
    var marks := [first] + rest;
    assert marks[0] == first && marks[1..] == rest && forall j | 0 <= j < |rest| :: marks[j + 1] == rest[j];
    if i: nat :| ListedLast(rest, i) {
      assert ListedLast(marks, i + 1);
    }
    if first == Lists && AllLeave(rest) {
      assert ListedLast(marks, 0);
    }
    if i: nat :| ListedLast(marks, i) && i > 0 {
      assert ListedLast(rest, i - 1);
    }
    assert AllLeave(marks) ==> forall j | 0 <= j < |rest| :: rest[j] == marks[j + 1];
    assert ListedLast(marks, 0) ==> forall j | 0 <= j < |rest| :: rest[j] == marks[j + 1];
  }

  /** Over any run a peer is listed for a model exactly when an announcement listed it and nothing since dropped it, or it was
      listed from the start and nothing touched it. */
  lemma {:induction false} ListedExactlySinceAnnounced<C>(s: HubState<C>, steps: seq<Step<C>>, m: string, k: string)
    requires Possible(s, steps)
    ensures
      var marks := Marks(s, steps, m, k);
      Listed(RunHub(s, steps).tracker, m, k)
      <==> SomeListedLast(marks) || (Listed(s.tracker, m, k) && AllLeave(marks))
    decreases |steps|
  {
    if steps != [] {
      StepOnListing(s, steps[0], m, k);
      ListedExactlySinceAnnounced(After(s, steps[0]), steps[1..], m, k);
      FirstMark(MarkOf(s, steps[0], m, k), Marks(After(s, steps[0]), steps[1..], m, k));
      assert Marks(s, steps, m, k) == [MarkOf(s, steps[0], m, k)] + Marks(After(s, steps[0]), steps[1..], m, k);
    }
  }

  // ----- what a listing says -----

  /** When a connection of that ID last beat, or else the given time. */
  ghost function LastBeat<C>(s: HubState<C>, steps: seq<Step<C>>, k: string, since: nat): nat
    requires Possible(s, steps)
    decreases |steps|
  {
    if steps == [] then since
    else
      LastBeat(After(s, steps[0]), steps[1..], k,
        if steps[0].Heartbeat? && s.conns[steps[0].c].id == k then steps[0].now else since)
  }

  lemma StepOnEntry<C>(s: HubState<C>, step: Step<C>, m: string, k: string)
    requires Enabled(s, step) && k != "" && Listed(s.tracker, m, k) && MarkOf(s, step, m, k) == Leaves
    ensures
      var e := s.tracker[m][k];
      && Listed(After(s, step).tracker, m, k)
      && After(s, step).tracker[m][k] == if step.Heartbeat? && s.conns[step.c].id == k then e.(last := step.now) else e
  {
    StepOnListing(s, step, m, k);
  }

  lemma {:induction false} EntryStays<C>(s: HubState<C>, steps: seq<Step<C>>, m: string, k: string)
    requires Possible(s, steps) && k != "" && Listed(s.tracker, m, k) && AllLeave(Marks(s, steps, m, k))
    ensures
      var t := RunHub(s, steps).tracker;
      Listed(t, m, k) && t[m][k] == s.tracker[m][k].(last := LastBeat(s, steps, k, s.tracker[m][k].last))
    decreases |steps|
  {
    if steps != [] {
      var next, rest := After(s, steps[0]), Marks(After(s, steps[0]), steps[1..], m, k);
      assert Marks(s, steps, m, k) == [MarkOf(s, steps[0], m, k)] + rest;
      FirstMark(MarkOf(s, steps[0], m, k), rest);
      StepOnEntry(s, steps[0], m, k);
      EntryStays(next, steps[1..], m, k);
    }
  }

  lemma {:induction false} SplitRun<C>(s: HubState<C>, steps: seq<Step<C>>, i: nat, m: string, k: string)
    requires Possible(s, steps) && i <= |steps|
    ensures Possible(s, steps[..i]) && Possible(RunHub(s, steps[..i]), steps[i..])
    ensures RunHub(s, steps) == RunHub(RunHub(s, steps[..i]), steps[i..])
    ensures |Marks(s, steps, m, k)| == |steps|
    ensures Marks(s, steps, m, k)[i..] == Marks(RunHub(s, steps[..i]), steps[i..], m, k)
    decreases i
  {
    MarksCount(s, steps, m, k);
    if i == 0 {
      assert steps[i..] == steps;
    } else {
      assert steps[..i][1..] == steps[1..][..i - 1] && steps[1..][i - 1..] == steps[i..];
      SplitRun(After(s, steps[0]), steps[1..], i - 1, m, k);
      var rest := Marks(After(s, steps[0]), steps[1..], m, k);
      assert Marks(s, steps, m, k)[i..] == rest[i - 1..];
    }
  }

  lemma {:induction false} MarksCount<C>(s: HubState<C>, steps: seq<Step<C>>, m: string, k: string)
    requires Possible(s, steps)
    ensures |Marks(s, steps, m, k)| == |steps|
    decreases |steps|
  {
    if steps != [] {
      MarksCount(After(s, steps[0]), steps[1..], m, k);
    }
  }

  /** Over any run, a listing says what the announcement that made it said: its chunks, the wallet bound to the connection or
      else the wallet announced, and the time of the announcement or of the last heartbeat under that ID since. */
  lemma ListingSaysWhatWasAnnounced<C>(s: HubState<C>, steps: seq<Step<C>>, m: string, k: string, i: nat)
    requires Possible(s, steps) && ListedLast(Marks(s, steps, m, k), i)
    ensures i < |steps| && steps[i].Announce? && Possible(s, steps[..i])
    ensures
      var before := RunHub(s, steps[..i]);
      && Enabled(before, steps[i]) && Possible(After(before, steps[i]), steps[i + 1..]) && steps[i].c in before.conns
      && var wallet := before.conns[steps[i].c].address;
         var last := LastBeat(After(before, steps[i]), steps[i + 1..], k, steps[i].now);
      && Listed(RunHub(s, steps).tracker, m, k)
      && RunHub(s, steps).tracker[m][k] == Entry(if wallet != "" then wallet else steps[i].address, steps[i].chunks, last)
  {
    MarksCount(s, steps, m, k);
    SplitRun(s, steps, i, m, k);
    var before, rest := RunHub(s, steps[..i]), steps[i..];
    var marks, later := Marks(s, steps, m, k), Marks(After(before, rest[0]), rest[1..], m, k);
    assert rest[0] == steps[i] && rest[1..] == steps[i + 1..];
    assert marks[i..] == [MarkOf(before, steps[i], m, k)] + later;
    forall j | 0 <= j < |later| ensures later[j] == Leaves {
      assert later[j] == marks[i..][j + 1] == marks[i + 1 + j];
    }
    assert MarkOf(before, steps[i], m, k) == marks[i..][0] == marks[i] == Lists;
    EntryStays(After(before, steps[i]), steps[i + 1..], m, k);
  }

  /** A connection comes, registers, announces, beats and leaves. */
  ghost function Session<C>(c: C, k: string, wallet: string, m: string, chunks: seq<Uint32>, now: nat, later: nat): seq<Step<C>> {
    [Connect(c, None), RegisterStart(c, k, wallet), Enroll(c), Step.Announce(c, m, "", chunks, now), Step.Heartbeat(c, later)]
  }

  /** Alone in the hub it can do so, and is seated and listed as it says until it leaves. */
  lemma SessionIsListed<C>(c: C, k: string, wallet: string, m: string, chunks: seq<Uint32>, now: nat, later: nat)
    requires k != "" && wallet != "" && m != "" && |chunks| <= MAX_CHUNKS_PER_ANNOUNCEMENT
    ensures Possible(Start(), Session(c, k, wallet, m, chunks, now, later))
    ensures RunHub(Start(), Session(c, k, wallet, m, chunks, now, later)) ==
      HubState(map[k := c], map[c := Conn(k, wallet, false, Open)], map[m := map[k := Entry(wallet, chunks, later)]])
  {
    var steps := Session(c, k, wallet, m, chunks, now, later);
    var s1 := After(Start(), steps[0]);
    var s2 := After(s1, steps[1]);
    var s3 := After(s2, steps[2]);
    var s4 := After(s3, steps[3]);
    assert s3 == HubState(map[k := c], map[c := Conn(k, wallet, false, Open)], map[]);
    assert s4 == HubState(map[k := c], map[c := Conn(k, wallet, false, Open)], map[m := map[k := Entry(wallet, chunks, now)]]);
    var s5 := After(s4, steps[4]);
    assert s5.tracker[m] == map[k := Entry(wallet, chunks, later)];
    assert s5.tracker == map[m := map[k := Entry(wallet, chunks, later)]];
    assert s5 == HubState(map[k := c], map[c := Conn(k, wallet, false, Open)], map[m := map[k := Entry(wallet, chunks, later)]]);
    UnfoldStep(s4, steps[4], []);
    assert steps[4..] == [steps[4]] + [];
    UnfoldStep(s3, steps[3], steps[4..]);
    assert steps[3..] == [steps[3]] + steps[4..];
    UnfoldStep(s2, steps[2], steps[3..]);
    assert steps[2..] == [steps[2]] + steps[3..];
    UnfoldStep(s1, steps[1], steps[2..]);
    assert steps[1..] == [steps[1]] + steps[2..];
    UnfoldStep(Start(), steps[0], steps[1..]);
    assert steps == [steps[0]] + steps[1..];
  }

  /** Leaving takes its seat and its listings, and nothing of others; it needs its two halves only if it ever registered. */
  lemma DepartureIsComplete<C>(s: HubState<C>, c: C)
    requires IsAt(s, c, Open)
    ensures Enabled(s, LeaveStart(c))
    ensures
      var half, id := After(s, LeaveStart(c)), s.conns[c].id;
      if id == "" then half.conns[c].phase == Gone && half.tracker == s.tracker && half.peers == s.peers
      else
        && half.conns[c].phase == Leaving && Enabled(half, LeaveEnd(c))
        && var gone := After(half, LeaveEnd(c));
           && gone.conns[c].phase == Gone
           && (forall k :: k in gone.peers <==> k in s.peers && !(k == id && s.peers[k] == c))
           && (forall m, k :: Listed(gone.tracker, m, k) <==> Listed(s.tracker, m, k) && k != id)
  {
    if s.conns[c].id != "" {
      var id := s.conns[c].id;
      forall m, k ensures Listed(Purged(s.tracker, id), m, k) <==> Listed(s.tracker, m, k) && k != id {
        if Listed(s.tracker, m, k) && k != id {
          assert k in s.tracker[m] - {id};
        }
      }
    }
  }

  ghost function Replacement<C>(first: C, second: C, m: string, k: string, now: nat): seq<Step<C>> {
    [Connect(second, Some(Claims(k, "0x1"))), Step.Announce(second, m, "", [], now), LeaveStart(first), LeaveEnd(first)]
  }

  /** So a connection can be seated, announced and yet unlisted: the one it replaced takes its listing along. */
  lemma ReplacedConnectionUnlistsItsSuccessor<C>(s: HubState<C>, first: C, second: C, m: string, k: string, now: nat)
    requires Consistent(s) && k != "" && m != "" && first != second
    requires IsAt(s, first, Open) && s.conns[first].id == k && k in s.peers && s.peers[k] == first && second !in s.conns
    ensures Possible(s, Replacement(first, second, m, k, now))
    ensures var t := RunHub(s, Replacement(first, second, m, k, now));
      k in t.peers && t.peers[k] == second && IsAt(t, second, Open) && !Listed(t.tracker, m, k)
  {
    var steps := Replacement(first, second, m, k, now);
    var s1 := After(s, steps[0]);
    var s2 := After(s1, steps[1]);
    var s3 := After(s2, steps[2]);
    UnfoldStep(s3, steps[3], []);
    assert steps[3..] == [steps[3]] + [];
    UnfoldStep(s2, steps[2], steps[3..]);
    assert steps[2..] == [steps[2]] + steps[3..];
    UnfoldStep(s1, steps[1], steps[2..]);
    assert steps[1..] == [steps[1]] + steps[2..];
    UnfoldStep(s, steps[0], steps[1..]);
    assert steps == [steps[0]] + steps[1..];
  }

  lemma UnfoldStep<C>(s: HubState<C>, step: Step<C>, rest: seq<Step<C>>)
    requires Enabled(s, step) && Possible(After(s, step), rest)
    ensures Possible(s, [step] + rest)
    ensures RunHub(s, [step] + rest) == RunHub(After(s, step), rest)
  {
    assert ([step] + rest)[1..] == rest;
  }

  // ----- what goes out to a peer -----

  function AfterUses(uses: seq<Use>): Outgoing {
    if uses == [] then OPEN_QUEUE else AfterUse(AfterUses(uses[..|uses| - 1]), uses[|uses| - 1])
  }

  /** However often the hub and the read loop close a peer, its queue is closed once, and it never outgrows its buffer. */
  lemma {:induction false} QueueIsClosedOnce(uses: seq<Use>)
    ensures
      var o := AfterUses(uses);
      && o.closed == (Use.Close in uses) && o.closings == (if Use.Close in uses then 1 else 0)
      && |o.queue| <= SEND_BUFFER
  {
    if uses != [] {
      QueueIsClosedOnce(uses[..|uses| - 1]);
      assert uses == uses[..|uses| - 1] + [uses[|uses| - 1]];
    }
  }

  /** A message is queued exactly when the peer was never closed before and the buffer has room. */
  lemma QueuedExactlyWhenOpenWithRoom(uses: seq<Use>, i: nat)
    requires i < |uses| && uses[i].Send?
    ensures Takes(AfterUses(uses[..i]), uses[i]) <==> Use.Close !in uses[..i] && |AfterUses(uses[..i]).queue| < SEND_BUFFER
  {
    QueueIsClosedOnce(uses[..i]);
  }

  function Queued(uses: seq<Use>): seq<string> {
    if uses == [] then []
    else
      var n := |uses| - 1;
      if Takes(AfterUses(uses[..n]), uses[n]) then Queued(uses[..n]) + [uses[n].message] else Queued(uses[..n])
  }

  function Taken(uses: seq<Use>): seq<string> {
    if uses == [] then []
    else
      var n := |uses| - 1;
      if uses[n].Take? && AfterUses(uses[..n]).queue != [] then Taken(uses[..n]) + [AfterUses(uses[..n]).queue[0]]
      else Taken(uses[..n])
  }

  /** What the write loop has taken and what is left is everything queued, in order. */
  lemma {:induction false} MessagesLeaveInOrder(uses: seq<Use>)
    ensures Queued(uses) == Taken(uses) + AfterUses(uses).queue
  {
    if uses != [] {
      MessagesLeaveInOrder(uses[..|uses| - 1]);
    }
  }
}
