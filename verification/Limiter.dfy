/** The two rate limiters in front of the hub: a sliding window of connection attempts for each address, and a token bucket
    of messages for each peer. */
module Limiter {
  import opened Clock

  // ----- sliding window -----

  /** The times after the cutoff among the first n, in order. */
  function RecentOf(log: seq<nat>, n: nat, cutoff: int): seq<nat>
    requires n <= |log|
  {
    if n == 0 then []
    else if log[n - 1] > cutoff then RecentOf(log, n - 1, cutoff) + [log[n - 1]]
    else RecentOf(log, n - 1, cutoff)
  }

  function Recent(log: seq<nat>, cutoff: int): seq<nat> {
    RecentOf(log, |log|, cutoff)
  }

  /** The times that stay in the log, and whether one more fits. */
  function Kept(log: seq<nat>, window: nat, now: nat): seq<nat> {
    Recent(log, now - window)
  }

  predicate Fits(log: seq<nat>, limit: int, window: nat, now: nat) {
    |Kept(log, window, now)| < limit
  }

  function Logged(log: seq<nat>, limit: int, window: nat, now: nat): seq<nat> {
    if Fits(log, limit, window, now) then Kept(log, window, now) + [now] else Kept(log, window, now)
  }

  predicate Exempt(ip: string) {
    ip == "" || ip == "127.0.0.1" || ip == "::1" || ip == "localhost"
  }

  type Logs = map<string, seq<nat>>

  function LogOf(logs: Logs, ip: string): seq<nat> {
    if ip in logs then logs[ip] else []
  }

  predicate Allowed(logs: Logs, limit: int, window: nat, ip: string, now: nat) {
    Exempt(ip) || Fits(LogOf(logs, ip), limit, window, now)
  }

  function After(logs: Logs, limit: int, window: nat, ip: string, now: nat): Logs {
    if Exempt(ip) then logs else logs[ip := Logged(LogOf(logs, ip), limit, window, now)]
  }

  /** The slice of one address: a buffer and how much of it is in use. */
  class AttemptLog {
    var buf: array<nat>
    var len: nat

    ghost predicate Valid()
      reads this
    {
      len <= buf.Length
    }

    ghost function Times(): seq<nat>
      requires Valid()
      reads this, buf
    {
      buf[..len]
    }

    constructor ()
      ensures Valid() && fresh(buf) && Times() == []
    {
      buf, len := new nat[0], 0;
    }

    /** Moves the times after the cutoff to the front of the same buffer, in order, and drops the others. */
    method Compact(cutoff: int)
      requires Valid()
      modifies this`len, buf
      ensures Valid() && Times() == Recent(old(Times()), cutoff)
    {
      ghost var was := buf[..len];
      var kept := 0;
      for i := 0 to len
        invariant 0 <= kept <= i && len == |was| <= buf.Length
        invariant buf[..kept] == RecentOf(was, i, cutoff)
        invariant forall k | i <= k < len :: buf[k] == was[k]
      {
        if buf[i] > cutoff {
          buf[kept] := buf[i];
          kept := kept + 1;
          assert buf[..kept] == buf[..kept - 1] + [was[i]];
        }
      }
      len := kept;
    }

    method Append(now: nat)
      requires Valid()
      modifies this, buf
      ensures Valid() && (buf == old(buf) || fresh(buf)) && Times() == old(Times()) + [now]
    {
      if len == buf.Length {
        var wider := new nat[2 * len + 1];
        forall k | 0 <= k < len {
          wider[k] := buf[k];
        }
        buf := wider;
      }
      buf[len] := now;
      len := len + 1;
    }

    /** One attempt: drop what left the window, and log this one if it fits. */
    method Attempt(limit: int, window: nat, now: nat) returns (ok: bool)
      requires Valid()
      modifies this, buf
      ensures Valid() && (buf == old(buf) || fresh(buf))
      ensures ok == Fits(old(Times()), limit, window, now) && Times() == Logged(old(Times()), limit, window, now)
    {
      Compact(now - window);
      ok := len < limit;
      if ok {
        Append(now);
      }
    }
  }

  class IPRateLimiter {
    const limit: int
    const window: nat
    var attempts: map<string, AttemptLog>
    ghost var owner: map<object, string>

    /** Every log and every buffer belongs to one address. */
    ghost predicate Valid()
      reads this, owner.Keys
    {
      this !in owner && forall ip <- attempts :: Owned(ip)
    }

    ghost predicate Owned(ip: string)
      requires ip in attempts
      reads this, owner.Keys
    {
      var log := attempts[ip];
      log in owner && log.buf in owner && owner[log] == ip && owner[log.buf] == ip && log.Valid()
    }

    ghost function View(): Logs
      requires Valid()
      reads this, owner.Keys
    {
      map ip | ip in attempts :: attempts[ip].Times()
    }

    constructor (limit: int, window: nat)
      ensures Valid() && View() == map[] && owner == map[] && this.limit == limit && this.window == window
    {
      this.limit, this.window, this.attempts, this.owner := limit, window, map[], map[];
    }

    method Allow(ip: string, now: nat) returns (ok: bool)
      requires Valid()
      modifies this, owner.Keys
      ensures Valid() && fresh(owner.Keys - old(owner.Keys))
      ensures ok == Allowed(old(View()), limit, window, ip, now)
      ensures View() == After(old(View()), limit, window, ip, now)
      ensures
        if ip == "" || ip == "127.0.0.1" || ip == "::1" || ip == "localhost" then ok && View() == old(View())
        else ip in View() && (ok ==> View()[ip] != [] && View()[ip][|View()[ip]| - 1] == now) && (!ok ==> limit <= |View()[ip]|)
    {
      if Exempt(ip) {
        return true;
      }
      ok := Admit(ip, now);
    }

    /** The part under the lock. */
    method Admit(ip: string, now: nat) returns (ok: bool)
      requires Valid()
      modifies this, owner.Keys
      ensures Valid() && fresh(owner.Keys - old(owner.Keys))
      ensures ok == Fits(LogOf(old(View()), ip), limit, window, now)
      ensures View() == old(View())[ip := Logged(LogOf(old(View()), ip), limit, window, now)]
    {
      ghost var logs, kept := View(), owner;
      var log := LogFor(ip);
      ok := log.Attempt(limit, window, now);
      forall other <- attempts | other != ip
        ensures Owned(other) && attempts[other].Times() == logs[other]
      {
        assert kept[attempts[other]] == other && kept[attempts[other].buf] == other;
      }
      Put(ip, log, logs);
    }

    /** The log of the address, or a new one that is not in the table yet. */
    method LogFor(ip: string) returns (log: AttemptLog)
      requires Valid()
      ensures log.Valid() && log.Times() == LogOf(View(), ip)
      ensures if ip in attempts then log == attempts[ip] else fresh(log) && fresh(log.buf)
    {
      if ip in attempts {
        log := attempts[ip];
      } else {
        log := new AttemptLog();
      }
    }

    method Put(ip: string, log: AttemptLog, ghost logs: Logs)
      requires this !in owner && log.Valid() && attempts.Keys == logs.Keys
      requires forall other <- attempts | other != ip :: Owned(other) && attempts[other].Times() == logs[other]
      requires forall o: object | o in owner && (o == log || o == log.buf) :: owner[o] == ip
      modifies this
      ensures Valid() && owner == old(owner)[log := ip][log.buf := ip]
      ensures View() == logs[ip := log.Times()]
    {
      ghost var times := log.Times();
      attempts := attempts[ip := log];
      owner := owner[log := ip][log.buf := ip];
      forall other <- attempts ensures Owned(other) {
        assert other != ip ==> old(owner)[attempts[other]] == other && old(owner)[attempts[other].buf] == other;
      }
      forall other <- attempts ensures attempts[other].Times() == logs[ip := times][other] {
      }
      SameLogs(View(), logs[ip := times]);
    }
  }

  lemma SameLogs(a: Logs, b: Logs)
    requires a.Keys == b.Keys && forall ip <- a :: a[ip] == b[ip]
    ensures a == b
  {
  }

  // ----- token bucket -----

  function Seconds(d: int): real {
    d as real / SECOND as real
  }

  function Gain(rate: real, elapsed: int): real {
    Seconds(elapsed) * rate
  }

  function Filled(tokens: real, gain: real, capacity: real): real {
    if tokens + gain > capacity then capacity else tokens + gain
  }

  function Drawn(level: real): real {
    if level >= 1.0 then level - 1.0 else level
  }

  class PeerMessageLimiter {
    const rate: real
    const capacity: real
    var tokens: real
    var lastRefill: nat

    constructor (rate: real, now: nat)
      ensures this.rate == capacity == tokens == rate && lastRefill == now
    {
      this.rate, this.capacity, this.tokens, this.lastRefill := rate, rate, rate, now;
    }

    method Allow(now: nat) returns (ok: bool)
      modifies this
      ensures
        var level := Filled(old(tokens), Gain(rate, now - old(lastRefill)), capacity);
        ok == (level >= 1.0) && tokens == Drawn(level) && lastRefill == now
    {
      var elapsed := Seconds(now - lastRefill);
      lastRefill := now;
      tokens := tokens + elapsed * rate;
      if tokens > capacity {
        tokens := capacity;
      }
      if tokens >= 1.0 {
        tokens := tokens - 1.0;
        return true;
      }
      return false;
    }
  }
}
