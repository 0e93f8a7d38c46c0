/** What the two limiters guarantee over whole runs. */
module LimiterRuns {
  import opened Limiter

  // ----- sliding window: a run is attempts from any addresses in time order -----

  datatype Attempt = Attempt(ip: string, now: nat)

  type Attempts = seq<Attempt>

  predicate InOrder(run: Attempts) {
    forall i, j | 0 <= i <= j < |run| :: run[i].now <= run[j].now
  }

  function LogsAfter(limit: int, window: nat, run: Attempts): Logs {
    if run == [] then map[]
    else
      var n := |run| - 1;
      After(LogsAfter(limit, window, run[..n]), limit, window, run[n].ip, run[n].now)
  }

  predicate AllowedAt(limit: int, window: nat, run: Attempts, i: nat)
    requires i < |run|
  {
    Allowed(LogsAfter(limit, window, run[..i]), limit, window, run[i].ip, run[i].now)
  }

  /** The times of the attempts from this address that were allowed, in order. */
  function Accepted(limit: int, window: nat, run: Attempts, ip: string): seq<nat> {
    if run == [] then []
    else
      var n := |run| - 1;
      var earlier := Accepted(limit, window, run[..n], ip);
      if run[n].ip == ip && AllowedAt(limit, window, run, n) then earlier + [run[n].now] else earlier
  }

  /** How many of the first n times lie in the half-open window. */
  function Within(times: seq<nat>, n: nat, lo: int, hi: int): nat
    requires n <= |times|
  {
    if n == 0 then 0 else Within(times, n - 1, lo, hi) + if lo < times[n - 1] <= hi then 1 else 0
  }

  lemma {:induction false} RecentOfPrefix(log: seq<nat>, t: nat, n: nat, cutoff: int)
    requires n <= |log|
    ensures RecentOf(log + [t], n, cutoff) == RecentOf(log, n, cutoff)
  {
    if n > 0 {
      RecentOfPrefix(log, t, n - 1, cutoff);
    }
  }

  lemma RecentSnoc(log: seq<nat>, t: nat, cutoff: int)
    ensures Recent(log + [t], cutoff) == if t > cutoff then Recent(log, cutoff) + [t] else Recent(log, cutoff)
  {
    RecentOfPrefix(log, t, |log|, cutoff);
  }

  lemma {:induction false} RecentOfAgain(log: seq<nat>, n: nat, sooner: int, later: int)
    requires sooner <= later && n <= |log|
    ensures Recent(RecentOf(log, n, sooner), later) == RecentOf(log, n, later)
  {
    if n > 0 {
      RecentOfAgain(log, n - 1, sooner, later);
      if log[n - 1] > sooner {
        RecentSnoc(RecentOf(log, n - 1, sooner), log[n - 1], later);
      }
    }
  }

  lemma RecentAgain(log: seq<nat>, sooner: int, later: int)
    requires sooner <= later
    ensures Recent(Recent(log, sooner), later) == Recent(log, later)
  {
    RecentOfAgain(log, |log|, sooner, later);
  }

  /** One more attempt, of this address or another. */
  ghost predicate Follows(
      log: seq<nat>, accepted: seq<nat>, log': seq<nat>, accepted': seq<nat>, mine: bool, limit: int, window: nat, t: nat)
  {
    && log' == (if mine then Logged(log, limit, window, t) else log)
    && accepted' == if mine && Fits(log, limit, window, t) then accepted + [t] else accepted
  }

  lemma LogStep(
      log: seq<nat>, accepted: seq<nat>, log': seq<nat>, accepted': seq<nat>, mine: bool, limit: int, window: nat, t: nat, cutoff: int)
    requires Follows(log, accepted, log', accepted', mine, limit, window, t)
    requires t - window <= cutoff && Recent(log, cutoff) == Recent(accepted, cutoff)
    ensures Recent(log', cutoff) == Recent(accepted', cutoff)
  {
    if mine {
      var kept := Recent(log, t - window);
      KeptIsSeenAlike(kept, log, accepted, t - window, cutoff);
      AppendedIsSeenAlike(kept, accepted, t, cutoff);
    }
  }

  lemma KeptIsSeenAlike(kept: seq<nat>, log: seq<nat>, accepted: seq<nat>, sooner: int, cutoff: int)
    requires kept == Recent(log, sooner) && sooner <= cutoff && Recent(log, cutoff) == Recent(accepted, cutoff)
    ensures Recent(kept, cutoff) == Recent(accepted, cutoff)
  {
    RecentAgain(log, sooner, cutoff);
  }

  lemma AppendedIsSeenAlike(a: seq<nat>, b: seq<nat>, t: nat, cutoff: int)
    requires Recent(a, cutoff) == Recent(b, cutoff)
    ensures Recent(a + [t], cutoff) == Recent(b + [t], cutoff)
  {
    RecentSnoc(a, t, cutoff);
    RecentSnoc(b, t, cutoff);
  }

  lemma InOrderBefore(run: Attempts)
    requires InOrder(run) && run != []
    ensures
      var n := |run| - 1;
      InOrder(run[..n]) && (run[..n] != [] ==> run[..n][n - 1].now <= run[n].now)
  {
  }

  /** Seen from any later moment, the log of an address is its accepted attempts. */
  lemma {:induction false} LogHoldsTheAccepted(limit: int, window: nat, run: Attempts, ip: string, now: nat)
    requires InOrder(run) && (run != [] ==> run[|run| - 1].now <= now) && !Exempt(ip)
    ensures Recent(LogOf(LogsAfter(limit, window, run), ip), now - window) == Recent(Accepted(limit, window, run, ip), now - window)
  {
    if run != [] {
      var n := |run| - 1;
      var before, t := run[..n], run[n].now;
      InOrderBefore(run);
      LogHoldsTheAccepted(limit, window, before, ip, now);
      OneMoreAttempt(limit, window, run, ip);
      LogStep(
        LogOf(LogsAfter(limit, window, before), ip), Accepted(limit, window, before, ip),
        LogOf(LogsAfter(limit, window, run), ip), Accepted(limit, window, run, ip),
        run[n].ip == ip, limit, window, t, now - window);
    }
  }

  lemma OneMoreAttempt(limit: int, window: nat, run: Attempts, ip: string)
    requires run != [] && !Exempt(ip)
    ensures
      var n := |run| - 1;
      Follows(
        LogOf(LogsAfter(limit, window, run[..n]), ip), Accepted(limit, window, run[..n], ip),
        LogOf(LogsAfter(limit, window, run), ip), Accepted(limit, window, run, ip),
        run[n].ip == ip, limit, window, run[n].now)
  {
  }

  /** An attempt is refused exactly when the limit has been accepted from its address in the window before it, whatever
      other addresses do. */
  lemma AllowedExactlyWhenWindowHasRoom(limit: int, window: nat, run: Attempts, i: nat)
    requires InOrder(run) && i < |run|
    ensures AllowedAt(limit, window, run, i)
      <==> Exempt(run[i].ip) || |Recent(Accepted(limit, window, run[..i], run[i].ip), run[i].now - window)| < limit
  {
    if !Exempt(run[i].ip) {
      assert run[..i] != [] ==> run[..i][i - 1] == run[i - 1];
      LogHoldsTheAccepted(limit, window, run[..i], run[i].ip, run[i].now);
    }
  }

  /** After an attempt the log holds exactly the accepted attempts of the address that are still in the window, in order. */
  lemma LogIsTheWindow(limit: int, window: nat, run: Attempts)
    requires InOrder(run) && run != [] && 0 < window && !Exempt(run[|run| - 1].ip)
    ensures var last := run[|run| - 1];
      LogOf(LogsAfter(limit, window, run), last.ip) == Recent(Accepted(limit, window, run, last.ip), last.now - window)
  {
    var n := |run| - 1;
    var ip, now := run[n].ip, run[n].now;
    assert run[..n] != [] ==> run[..n][n - 1] == run[n - 1];
    LogHoldsTheAccepted(limit, window, run[..n], ip, now);
    OneMoreAttempt(limit, window, run, ip);
    LoggedIsRecent(
      LogOf(LogsAfter(limit, window, run[..n]), ip), Accepted(limit, window, run[..n], ip),
      LogOf(LogsAfter(limit, window, run), ip), Accepted(limit, window, run, ip), limit, window, now);
  }

  lemma LoggedIsRecent(
      log: seq<nat>, accepted: seq<nat>, log': seq<nat>, accepted': seq<nat>, limit: int, window: nat, now: nat)
    requires 0 < window && Follows(log, accepted, log', accepted', true, limit, window, now)
    requires Recent(log, now - window) == Recent(accepted, now - window)
    ensures log' == Recent(accepted', now - window)
  {
    RecentSnoc(accepted, now, now - window);
  }

  lemma {:induction false} WithinIsRecent(times: seq<nat>, n: nat, lo: int, hi: int, cutoff: int)
    requires cutoff <= lo && n <= |times|
    ensures Within(times, n, lo, hi) <= |RecentOf(times, n, cutoff)|
  {
    if n > 0 {
      WithinIsRecent(times, n - 1, lo, hi, cutoff);
    }
  }

  lemma {:induction false} WithinPrefix(times: seq<nat>, t: nat, n: nat, lo: int, hi: int)
    requires n <= |times|
    ensures Within(times + [t], n, lo, hi) == Within(times, n, lo, hi)
  {
    if n > 0 {
      WithinPrefix(times, t, n - 1, lo, hi);
    }
  }

  /** No window of the configured length, wherever it starts, holds more than the limit from one address. */
  lemma {:induction false} EveryWindowIsWithinLimit(limit: int, window: nat, run: Attempts, ip: string, s: int)
    requires InOrder(run) && !Exempt(ip)
    ensures
      var times := Accepted(limit, window, run, ip);
      Within(times, |times|, s, s + window) <= if limit < 0 then 0 else limit
  {
    if run != [] {
      var n := |run| - 1;
      EveryWindowIsWithinLimit(limit, window, run[..n], ip, s);
      var earlier := Accepted(limit, window, run[..n], ip);
      if run[n].ip == ip && AllowedAt(limit, window, run, n) {
        WithinPrefix(earlier, run[n].now, |earlier|, s, s + window);
        AllowedExactlyWhenWindowHasRoom(limit, window, run, n);
        if s < run[n].now <= s + window {
          WithinIsRecent(earlier, |earlier|, s, s + window, run[n].now - window);
        }
      }
    }
  }

  // ----- token bucket: what was gained before each message -----

  type Gains = seq<real>

  predicate Positive(gains: Gains) {
    forall i | 0 <= i < |gains| :: 0.0 <= gains[i]
  }

  /** What a bucket that starts full holds after these messages. */
  function TokensAfter(capacity: real, gains: Gains): real {
    if gains == [] then capacity
    else
      var n := |gains| - 1;
      Drawn(Filled(TokensAfter(capacity, gains[..n]), gains[n], capacity))
  }

  predicate PassedAt(capacity: real, gains: Gains, i: nat)
    requires i < |gains|
  {
    Filled(TokensAfter(capacity, gains[..i]), gains[i], capacity) >= 1.0
  }

  /** How many of the messages from the i-th on passed. */
  function Passed(capacity: real, gains: Gains, i: nat): nat
    requires i <= |gains|
    decreases |gains|
  {
    if i == |gains| then 0
    else
      var n := |gains| - 1;
      Passed(capacity, gains[..n], i) + if PassedAt(capacity, gains, n) then 1 else 0
  }

  /** What was gained after the i-th message. */
  function GainedSince(gains: Gains, i: nat): real
    requires i < |gains|
    decreases |gains|
  {
    var n := |gains| - 1;
    if i == n then 0.0 else GainedSince(gains[..n], i) + gains[n]
  }

  lemma PositiveParts(gains: Gains)
    requires Positive(gains) && gains != []
    ensures Positive(gains[..|gains| - 1]) && 0.0 <= gains[|gains| - 1]
  {
  }

  lemma {:induction false} TokensStayInRange(capacity: real, gains: Gains)
    requires 0.0 <= capacity && Positive(gains)
    ensures 0.0 <= TokensAfter(capacity, gains) <= capacity
  {
    if gains != [] {
      PositiveParts(gains);
      TokensStayInRange(capacity, gains[..|gains| - 1]);
    }
  }

  /** What the capacity and the gains leave of the interval that starts with the i-th message. */
  function Room(capacity: real, gains: Gains, i: nat, more: real): real
    requires i <= |gains|
  {
    if i == |gains| then capacity else capacity + GainedSince(gains, i) + more - Passed(capacity, gains, i) as real
  }

  lemma RoomStep(capacity: real, gains: Gains, i: nat, more: real)
    requires i < |gains|
    ensures var n := |gains| - 1;
      Room(capacity, gains, i, more)
      == Room(capacity, gains[..n], i, gains[n]) + more - (if PassedAt(capacity, gains, n) then 1.0 else 0.0)
  {
    var n := |gains| - 1;
    if i == n {
      assert gains[..n][..n] == gains[..n];
      assert Passed(capacity, gains[..n], n) == 0;
    }
  }

  /** The bucket holds what the tightest interval leaves: no interval leaves less, and one leaves just that. */
  lemma {:induction false} LevelIsTheTightestRoom(capacity: real, gains: Gains, more: real)
    requires Positive(gains) && 0.0 <= more
    ensures forall i: nat | i <= |gains| :: Filled(TokensAfter(capacity, gains), more, capacity) <= Room(capacity, gains, i, more)
    ensures exists i: nat | i <= |gains| :: Filled(TokensAfter(capacity, gains), more, capacity) == Room(capacity, gains, i, more)
    decreases |gains|
  {
    var level := Filled(TokensAfter(capacity, gains), more, capacity);
    assert Room(capacity, gains, |gains|, more) == capacity;
    if gains != [] {
      var n := |gains| - 1;
      PositiveParts(gains);
      LevelIsTheTightestRoom(capacity, gains[..n], gains[n]);
      forall i: nat | i <= |gains| ensures level <= Room(capacity, gains, i, more) {
        if i < |gains| {
          RoomStep(capacity, gains, i, more);
        }
      }
      if level != capacity {
        var i: nat :| i <= n
          && Filled(TokensAfter(capacity, gains[..n]), gains[n], capacity) == Room(capacity, gains[..n], i, gains[n]);
        RoomStep(capacity, gains, i, more);
        assert level == Room(capacity, gains, i, more);
      }
    } else {
      assert level == Room(capacity, gains, 0, more);
    }
  }

  // ----- token bucket: a run is the start and the times of the messages -----

  predicate Ascending(start: nat, times: seq<nat>) {
    && (forall i | 0 <= i < |times| :: start <= times[i])
    && (forall i, j | 0 <= i <= j < |times| :: times[i] <= times[j])
  }

  function Before(start: nat, times: seq<nat>, i: nat): nat
    requires i < |times|
  {
    if i == 0 then start else times[i - 1]
  }

  /** What the bucket would have gained since the epoch; only differences matter. */
  function Filling(rate: real): nat -> real {
    (t: nat) => Gain(rate, t)
  }

  lemma GainIsDifference(rate: real, a: nat, b: nat)
    ensures Gain(rate, b - a) == Filling(rate)(b) - Filling(rate)(a)
  {
    assert Seconds(b - a) == Seconds(b) - Seconds(a);
  }

  ghost predicate Rising(fill: nat -> real) {
    forall a: nat, b: nat | a <= b :: fill(a) <= fill(b)
  }

  lemma FillingRises(rate: real)
    requires 0.0 <= rate
    ensures Rising(Filling(rate))
  {
    forall a: nat, b: nat | a <= b ensures Filling(rate)(a) <= Filling(rate)(b) {
      assert Gain(rate, b - a) >= 0.0;
      GainIsDifference(rate, a, b);
    }
  }

  function Rise(fill: nat -> real, start: nat, times: seq<nat>, i: nat): real
    requires i < |times|
  {
    fill(times[i]) - fill(Before(start, times, i))
  }

  function GainsOf(fill: nat -> real, start: nat, times: seq<nat>): (gains: Gains)
    ensures |gains| == |times|
  {
    if times == [] then []
    else
      var n := |times| - 1;
      GainsOf(fill, start, times[..n]) + [Rise(fill, start, times, n)]
  }

  lemma {:induction false} GainsArePositive(fill: nat -> real, start: nat, times: seq<nat>)
    requires Rising(fill) && Ascending(start, times)
    ensures Positive(GainsOf(fill, start, times))
  {
    if times != [] {
      AscendingParts(start, times);
      GainsArePositive(fill, start, times[..|times| - 1]);
    }
  }

  lemma AscendingParts(start: nat, times: seq<nat>)
    requires Ascending(start, times) && times != []
    ensures Ascending(start, times[..|times| - 1]) && Before(start, times, |times| - 1) <= times[|times| - 1]
  {
  }

  lemma AscendingPrefix(start: nat, times: seq<nat>, j: nat)
    requires Ascending(start, times) && j <= |times|
    ensures Ascending(start, times[..j]) && (j < |times| ==> Before(start, times, j) <= times[j])
  {
  }

  lemma {:induction false} GainedSinceIsTheRise(fill: nat -> real, start: nat, times: seq<nat>, i: nat)
    requires i < |times|
    ensures GainedSince(GainsOf(fill, start, times), i) == fill(times[|times| - 1]) - fill(times[i])
    decreases |times|
  {
    var n := |times| - 1;
    if i < n {
      GainedSinceIsTheRise(fill, start, times[..n], i);
      var before := GainsOf(fill, start, times[..n]);
      assert GainsOf(fill, start, times)[..n] == before;
    }
  }

  /** The j-th message of the run passes, as PeerMessageLimiter.Allow decides it. */
  predicate Passes(fill: nat -> real, capacity: real, start: nat, times: seq<nat>, j: nat)
    requires j < |times|
  {
    Filled(TokensAfter(capacity, GainsOf(fill, start, times[..j])), Rise(fill, start, times, j), capacity) >= 1.0
  }

  /** How many of the messages from the i-th up to the j-th passed. */
  function PassedBetween(fill: nat -> real, capacity: real, start: nat, times: seq<nat>, i: nat, j: nat): nat
    requires i <= j <= |times|
  {
    Passed(capacity, GainsOf(fill, start, times[..j]), i)
  }

  lemma RoomOfInterval(fill: nat -> real, capacity: real, start: nat, times: seq<nat>, i: nat, j: nat)
    requires i <= j < |times|
    ensures Room(capacity, GainsOf(fill, start, times[..j]), i, Rise(fill, start, times, j))
      == capacity + (fill(times[j]) - fill(times[i])) - PassedBetween(fill, capacity, start, times, i, j) as real
  {
    if i < j {
      GainedSinceIsTheRise(fill, start, times[..j], i);
    }
  }

  /** With this message, the interval from the i-th on is within capacity + what was gained over it. */
  predicate HasRoom(fill: nat -> real, capacity: real, start: nat, times: seq<nat>, i: nat, j: nat)
    requires i <= j < |times|
  {
    PassedBetween(fill, capacity, start, times, i, j) as real + 1.0 <= capacity + (fill(times[j]) - fill(times[i]))
  }

  /** A message passes exactly when, with it, every interval that ends with it stays within its bound. */
  lemma PassesExactlyWhenEveryIntervalHasRoom(fill: nat -> real, capacity: real, start: nat, times: seq<nat>, j: nat)
    requires Rising(fill) && Ascending(start, times) && j < |times|
    ensures Passes(fill, capacity, start, times, j) <==> forall i: nat | i <= j :: HasRoom(fill, capacity, start, times, i, j)
  {
    var gains, rise := GainsOf(fill, start, times[..j]), Rise(fill, start, times, j);
    AscendingPrefix(start, times, j);
    GainsArePositive(fill, start, times[..j]);
    LevelIsTheTightestRoom(capacity, gains, rise);
    forall i: nat | i <= j
      ensures HasRoom(fill, capacity, start, times, i, j) <==> Room(capacity, gains, i, rise) >= 1.0
    {
      RoomOfInterval(fill, capacity, start, times, i, j);
    }
  }

  lemma OneMoreMessage(fill: nat -> real, capacity: real, start: nat, times: seq<nat>, i: nat, j: nat)
    requires i <= j < |times|
    ensures PassedBetween(fill, capacity, start, times, i, j + 1)
      == PassedBetween(fill, capacity, start, times, i, j) + if Passes(fill, capacity, start, times, j) then 1 else 0
  {
    var gains, more := GainsOf(fill, start, times[..j]), GainsOf(fill, start, times[..j + 1]);
    assert times[..j + 1][..j] == times[..j];
    assert more == gains + [Rise(fill, start, times, j)];
    assert more[..j] == gains;
  }

  lemma RiseWithin(fill: nat -> real, lo: nat, a: nat, b: nat, hi: nat)
    requires Rising(fill) && lo <= a <= b <= hi
    ensures fill(b) - fill(a) <= fill(hi) - fill(lo)
  {
  }

  lemma PassedIsWithinRise(fill: nat -> real, capacity: real, start: nat, times: seq<nat>, i: nat, j: nat)
    requires Rising(fill) && Ascending(start, times) && i <= j < |times| && Passes(fill, capacity, start, times, j)
    ensures PassedBetween(fill, capacity, start, times, i, j + 1) as real <= capacity + (fill(times[j]) - fill(times[i]))
  {
    OneMoreMessage(fill, capacity, start, times, i, j);
    PassesExactlyWhenEveryIntervalHasRoom(fill, capacity, start, times, j);
    assert HasRoom(fill, capacity, start, times, i, j);
  }

  lemma {:induction false} RisesBoundPasses(
      fill: nat -> real, capacity: real, start: nat, times: seq<nat>, i: nat, j: nat, lo: nat, hi: nat)
    requires Rising(fill) && 0.0 <= capacity && Ascending(start, times) && i <= j <= |times|
    requires lo <= hi && forall k | i <= k < j :: lo <= times[k] <= hi
    ensures PassedBetween(fill, capacity, start, times, i, j) as real <= capacity + (fill(hi) - fill(lo))
    decreases j
  {
    if i == j {
      RiseWithin(fill, lo, lo, hi, hi);
    } else if Passes(fill, capacity, start, times, j - 1) {
      PassedIsWithinRise(fill, capacity, start, times, i, j - 1);
      RiseWithin(fill, lo, times[i], times[j - 1], hi);
    } else {
      OneMoreMessage(fill, capacity, start, times, i, j - 1);
      RisesBoundPasses(fill, capacity, start, times, i, j - 1, lo, hi);
    }
  }

  /** In every interval, at most capacity + rate * length messages pass. */
  lemma IntervalsAreBounded(
      rate: real, capacity: real, start: nat, times: seq<nat>, i: nat, j: nat, lo: nat, hi: nat)
    requires 0.0 <= rate && 0.0 <= capacity && Ascending(start, times) && i <= j <= |times|
    requires lo <= hi && forall k | i <= k < j :: lo <= times[k] <= hi
    ensures PassedBetween(Filling(rate), capacity, start, times, i, j) as real <= capacity + Seconds(hi - lo) * rate
  {
    FillingRises(rate);
    RisesBoundPasses(Filling(rate), capacity, start, times, i, j, lo, hi);
    GainIsDifference(rate, lo, hi);
  }

  lemma FullSteps(fill: nat -> real, capacity: real, start: nat, times: seq<nat>, j: nat)
    requires Rising(fill) && 1.0 <= capacity && Ascending(start, times) && j < |times|
    requires j > 0 ==> fill(times[j]) - fill(times[j - 1]) >= 1.0
    ensures Passes(fill, capacity, start, times, j)
  {
    AscendingPrefix(start, times, j);
    GainsArePositive(fill, start, times[..j]);
    TokensStayInRange(capacity, GainsOf(fill, start, times[..j]));
  }

  /** A sender that leaves at least 1 / rate seconds between messages is never refused by a bucket that holds one. */
  lemma SpacedSenderIsNeverRefused(rate: real, capacity: real, start: nat, times: seq<nat>, j: nat)
    requires 0.0 < rate && 1.0 <= capacity && Ascending(start, times) && j < |times|
    requires forall k | 0 < k < |times| :: Seconds(times[k] - times[k - 1]) >= 1.0 / rate
    ensures Passes(Filling(rate), capacity, start, times, j)
  {
    FillingRises(rate);
    if j > 0 {
      RateTimesSpacing(rate, Seconds(times[j] - times[j - 1]));
      GainIsDifference(rate, times[j - 1], times[j]);
    }
    FullSteps(Filling(rate), capacity, start, times, j);
  }

  lemma RateTimesSpacing(rate: real, gap: real)
    requires 0.0 < rate && gap >= 1.0 / rate
    ensures gap * rate >= 1.0
  {
    assert (1.0 / rate) * rate == 1.0;
    assert gap * rate >= (1.0 / rate) * rate;
  }

  /** The tokens of the run are those of a limiter made at the start and asked at these times: one more call of Allow is
      one more message. */
  lemma LimiterFollowsTheRun(rate: real, capacity: real, start: nat, times: seq<nat>)
    requires times != []
    ensures
      var n := |times| - 1;
      var tokens := TokensAfter(capacity, GainsOf(Filling(rate), start, times[..n]));
      var level := Filled(tokens, Gain(rate, times[n] - Before(start, times, n)), capacity);
      && TokensAfter(capacity, GainsOf(Filling(rate), start, times)) == Drawn(level)
      && (Passes(Filling(rate), capacity, start, times, n) <==> level >= 1.0)
  {
    var n := |times| - 1;
    GainIsDifference(rate, Before(start, times, n), times[n]);
    OneStep(Filling(rate), capacity, start, times);
  }

  lemma OneStep(fill: nat -> real, capacity: real, start: nat, times: seq<nat>)
    requires times != []
    ensures
      var n := |times| - 1;
      var level := Filled(TokensAfter(capacity, GainsOf(fill, start, times[..n])), Rise(fill, start, times, n), capacity);
      TokensAfter(capacity, GainsOf(fill, start, times)) == Drawn(level)
  {
    var n := |times| - 1;
    assert GainsOf(fill, start, times)[..n] == GainsOf(fill, start, times[..n]);
  }
}
