/** Claims with an expiry: the first to ask for a free key gets it for a time, as SET NX with a TTL does. An
    in-memory store that drops expired entries whenever it likes gives the same answers. */
module Claims {
  type Entries = map<string, int>

  predicate Taken(es: Entries, key: string, now: nat) {
    key in es && now < es[key]
  }

  /** A request for a key, which may be turned down before the store is asked, or a sweep of the background cleaner. */
  datatype Event = Claim(key: string, ttl: int, now: nat, eligible: bool) | Clean(now: nat)

  type Trace = seq<Event>

  ghost function Swept(es: Entries, now: nat): Entries {
    map k | k in es && now <= es[k] :: es[k]
  }

  ghost predicate Granted(es: Entries, e: Event) {
    e.Claim? && e.eligible && !Taken(es, e.key, e.now)
  }

  ghost function After(es: Entries, e: Event): Entries {
    if e.Clean? then Swept(es, e.now)
    else if Granted(es, e) then es[e.key := e.now + e.ttl]
    else es
  }

  ghost function EntriesAfter(trace: Trace): Entries {
    if trace == [] then map[] else After(EntriesAfter(trace[..|trace| - 1]), trace[|trace| - 1])
  }

  ghost predicate GrantedAt(trace: Trace, i: nat)
    requires i < |trace|
  {
    Granted(EntriesAfter(trace[..i]), trace[i])
  }

  ghost predicate Ordered(trace: Trace) {
    forall i, j | 0 <= i <= j < |trace| :: trace[i].now <= trace[j].now
  }

  /** The i-th event was granted the key and holds it still. */
  ghost predicate HoldsAt(trace: Trace, i: nat, key: string, now: nat)
    requires i < |trace|
  {
    GrantedAt(trace, i) && trace[i].key == key && now < trace[i].now + trace[i].ttl
  }

  ghost predicate Held(trace: Trace, key: string, now: nat) {
    exists i: nat | i < |trace| :: HoldsAt(trace, i, key, now)
  }

  lemma HeldMore(trace: Trace, key: string, now: nat)
    requires trace != []
    ensures var n := |trace| - 1;
      Held(trace, key, now) <==> Held(trace[..n], key, now) || HoldsAt(trace, n, key, now)
  {
    var n := |trace| - 1;
    forall i: nat | i < n ensures HoldsAt(trace, i, key, now) <==> HoldsAt(trace[..n], i, key, now) {
      assert trace[..n][..i] == trace[..i];
    }
    if Held(trace[..n], key, now) {
      var i: nat :| i < n && HoldsAt(trace[..n], i, key, now);
      assert HoldsAt(trace, i, key, now);
    }
    if Held(trace, key, now) && !HoldsAt(trace, n, key, now) {
      var i: nat :| i < |trace| && HoldsAt(trace, i, key, now);
      assert HoldsAt(trace[..n], i, key, now);
    }
  }

  lemma HeldEarlier(trace: Trace, key: string, sooner: nat, later: nat)
    requires sooner <= later
    ensures Held(trace, key, later) ==> Held(trace, key, sooner)
  {
    if Held(trace, key, later) {
      var i: nat :| i < |trace| && HoldsAt(trace, i, key, later);
      assert HoldsAt(trace, i, key, sooner);
    }
  }

  /** A key is refused exactly while some earlier request that was granted it holds it, whatever sweeps came between. */
  lemma {:induction false} TakenExactlyWhileHeld(trace: Trace, key: string, now: nat)
    requires Ordered(trace) && (trace != [] ==> trace[|trace| - 1].now <= now)
    ensures Taken(EntriesAfter(trace), key, now) <==> Held(trace, key, now)
  {
    if trace != [] {
      var n := |trace| - 1;
      var before, e := trace[..n], trace[n];
      HeldMore(trace, key, now);
      assert before != [] ==> before[n - 1] == trace[n - 1];
      TakenExactlyWhileHeld(before, key, now);
      if Granted(EntriesAfter(before), e) && e.key == key {
        TakenExactlyWhileHeld(before, key, e.now);
        HeldEarlier(before, key, e.now, now);
      }
    }
  }

  /** Two grants of one key are at least the first one's lifetime apart. */
  lemma GrantsAreSpaced(trace: Trace, i: nat, j: nat)
    requires Ordered(trace) && i < j < |trace|
    requires GrantedAt(trace, i) && GrantedAt(trace, j) && trace[i].key == trace[j].key
    ensures trace[i].now + trace[i].ttl <= trace[j].now
  {
    var before := trace[..j];
    assert before[j - 1] == trace[j - 1];
    TakenExactlyWhileHeld(before, trace[j].key, trace[j].now);
    assert before[..i] == trace[..i];
    assert HoldsAt(before, i, trace[j].key, trace[j].now) <==> trace[j].now < trace[i].now + trace[i].ttl;
  }

  lemma AfterOneMore(trace: Trace, e: Event)
    ensures EntriesAfter(trace + [e]) == After(EntriesAfter(trace), e)
  {
    assert (trace + [e])[..|trace|] == trace;
  }

  lemma DifferentKeysAreGranted(a: Event, b: Event)
    requires a.Claim? && b.Claim? && a.eligible && b.eligible && a.key != b.key
    ensures GrantedAt([a, b], 0) && GrantedAt([a, b], 1)
  {
    assert [a, b][..0] == [] && [a, b][..1] == [] + [a];
    AfterOneMore([], a);
  }

  lemma JoinedBefore(before: Trace, e: Event, later: Trace, k: nat)
    requires k <= |later|
    ensures (before + [e] + later)[..|before| + 1 + k] == before + [e] + later[..k]
    ensures (before + later)[..|before| + k] == before + later[..k]
  {
  }

  /** A refused request leaves no trace: whatever comes after, the store is as if it had never been made. */
  lemma {:induction false} RefusalLeavesNoTrace(before: Trace, e: Event, later: Trace)
    requires e.Claim? && !Granted(EntriesAfter(before), e)
    ensures EntriesAfter(before + [e] + later) == EntriesAfter(before + later)
    decreases |later|
  {
    if later == [] {
      assert before + [e] + later == before + [e] && before + later == before;
      AfterOneMore(before, e);
    } else {
      var init, last := later[..|later| - 1], later[|later| - 1];
      RefusalLeavesNoTrace(before, e, init);
      AfterOneMore(before + [e] + init, last);
      AfterOneMore(before + init, last);
      assert before + [e] + later == before + [e] + init + [last] && before + later == before + init + [last];
    }
  }

  lemma RefusalChangesNoAnswer(before: Trace, e: Event, later: Trace, k: nat)
    requires e.Claim? && !Granted(EntriesAfter(before), e) && k < |later|
    ensures GrantedAt(before + [e] + later, |before| + 1 + k) <==> GrantedAt(before + later, |before| + k)
  {
    RefusalLeavesNoTrace(before, e, later[..k]);
    JoinedBefore(before, e, later, k);
  }

  // ----- against SET NX -----

  /** SET NX with expiry: nothing is ever swept. */
  ghost function SetNX(es: Entries, e: Event): Entries {
    if Granted(es, e) then es[e.key := e.now + e.ttl] else es
  }

  ghost function NXAfter(trace: Trace): Entries {
    if trace == [] then map[] else SetNX(NXAfter(trace[..|trace| - 1]), trace[|trace| - 1])
  }

  ghost predicate SameFrom(a: Entries, b: Entries, clock: int) {
    forall k, now: nat | clock <= now :: Taken(a, k, now) <==> Taken(b, k, now)
  }

  /** Requests read the clock before they wait for the lock, so they may come in any order; but no sweep comes before a
      request whose clock it is more than this far ahead of. */
  ghost predicate SweepsAheadAtMost(trace: Trace, ahead: nat) {
    forall i, j | 0 <= i < j < |trace| && trace[i].Clean? && trace[j].Claim? :: trace[i].now <= trace[j].now + ahead
  }

  ghost predicate SweptBefore(trace: Trace, clock: int) {
    forall e <- trace | e.Clean? :: e.now - 1 <= clock
  }

  lemma {:induction false} SweepingKeepsTaken(trace: Trace, clock: int)
    requires SweepsAheadAtMost(trace, 1) && SweptBefore(trace, clock)
    ensures SameFrom(EntriesAfter(trace), NXAfter(trace), clock)
  {
    if trace != [] {
      var n := |trace| - 1;
      var e := trace[n];
      assert forall x <- trace[..n] :: x in trace;
      SweepingKeepsTaken(trace[..n], clock);
      if e.Claim? {
        assert SweptBefore(trace[..n], e.now);
        SweepingKeepsTaken(trace[..n], e.now);
      } else {
        assert e in trace;
      }
      var a, b := EntriesAfter(trace[..n]), NXAfter(trace[..n]);
      forall k, now: nat | clock <= now ensures Taken(EntriesAfter(trace), k, now) <==> Taken(NXAfter(trace), k, now) {
        assert Taken(a, k, now) <==> Taken(b, k, now);
        assert e.Claim? ==> (Granted(a, e) <==> Granted(b, e));
      }
    }
  }

  /** Sweeps anywhere change no answer, in whatever order requests read the clock, if no sweep runs ahead of a later request:
      every request is granted or refused as by SET NX with expiry. */
  lemma SameAnswersAsSetNX(trace: Trace, i: nat)
    requires SweepsAheadAtMost(trace, 1) && i < |trace|
    ensures GrantedAt(trace, i) <==> Granted(NXAfter(trace[..i]), trace[i])
  {
    if trace[i].Claim? {
      assert SweptBefore(trace[..i], trace[i].now);
      SweepingKeepsTaken(trace[..i], trace[i].now);
    }
  }

  ghost predicate AnswersAsSetNX(trace: Trace, i: nat)
    requires i < |trace|
  {
    GrantedAt(trace, i) <==> Granted(NXAfter(trace[..i]), trace[i])
  }

  /** A key held until instant 1 is swept at instant 2, ahead of a request that had read the clock at 0. */
  function SweptTooEarly(key: string): Trace {
    [Claim(key, 1, 0, true), Clean(2), Claim(key, 1, 0, true)]
  }

  lemma SweepAheadGrantsTwice(key: string)
    ensures SweepsAheadAtMost(SweptTooEarly(key), 2) && !AnswersAsSetNX(SweptTooEarly(key), 2)
  {
    var trace := SweptTooEarly(key);
    var first := trace[0];
    assert trace[..1] == [first] && trace[..2] == [first] + [Clean(2)] && [first] == [] + [first];
    AfterOneMore([], first);
    AfterOneMore([first], Clean(2));
    assert EntriesAfter(trace[..2]) == map[];
    assert NXAfter([first]) == map[key := 1] by {
      assert [first][..0] == [];
    }
    assert trace[..2][..1] == [first];
    assert NXAfter(trace[..2]) == map[key := 1];
  }

  /** That is exact: one nanosecond ahead does no harm, since an entry is swept only past its expiry; two can. */
  lemma SameAnswersExactlyWhen(ahead: nat)
    ensures (forall trace: Trace, i: nat | SweepsAheadAtMost(trace, ahead) && i < |trace| :: AnswersAsSetNX(trace, i)) <==> ahead <= 1
  {
    if ahead <= 1 {
      forall trace: Trace, i: nat | SweepsAheadAtMost(trace, ahead) && i < |trace| ensures AnswersAsSetNX(trace, i) {
        assert SweepsAheadAtMost(trace, 1);
        SameAnswersAsSetNX(trace, i);
      }
    } else {
      SweepAheadGrantsTwice("k");
      assert SweepsAheadAtMost(SweptTooEarly("k"), ahead);
    }
  }
}
