/** The in-memory seeder tracker: models to peers to announcement, with eviction of stale peers. */
module Tracker {
  import opened Text

  datatype Entry = Entry(address: string, chunks: seq<Uint32>, last: nat)

  type Peers = map<string, Entry>
  type Models = map<string, Peers>

  datatype SeederDTO = SeederDTO(peerId: string, address: string, chunks: seq<Uint32>)

  // ----- what the operations mean -----

  ghost predicate Listed(ms: Models, model: string, peer: string) {
    model in ms && peer in ms[model]
  }

  ghost predicate NoEmptyInner(ms: Models) {
    forall m <- ms :: ms[m] != map[]
  }

  ghost function PeersOf(ms: Models, model: string): Peers {
    if model in ms then ms[model] else map[]
  }

  ghost function Announced(ms: Models, model: string, peer: string, entry: Entry): Models {
    ms[model := PeersOf(ms, model)[peer := entry]]
  }

  ghost function Beaten(ps: Peers, peer: string, now: nat): Peers {
    if peer in ps then ps[peer := ps[peer].(last := now)] else ps
  }

  ghost function Refreshed(ms: Models, peer: string, now: nat): Models {
    map m | m in ms :: Beaten(ms[m], peer, now)
  }

  ghost function Purged(ms: Models, peer: string): Models {
    map m | m in ms && ms[m] - {peer} != map[] :: ms[m] - {peer}
  }

  ghost predicate Stale(e: Entry, threshold: int) {
    e.last < threshold
  }

  ghost function Kept(ps: Peers, threshold: int): Peers {
    map p | p in ps && !Stale(ps[p], threshold) :: ps[p]
  }

  ghost function Evicted(ms: Models, threshold: int): Models {
    map m | m in ms && Kept(ms[m], threshold) != map[] :: Kept(ms[m], threshold)
  }

  /** Every (model, peer) registration. */
  ghost function Registrations(ms: Models): set<(string, string)> {
    set m, p | m in ms && p in ms[m] :: (m, p)
  }

  ghost function UniquePeers(ms: Models): set<string> {
    set m, p | m in ms && p in ms[m] :: p
  }

  ghost function Names(result: seq<SeederDTO>): set<string> {
    set d | d in result :: d.peerId
  }

  /** A query answer lists every peer of the map once, with its address and chunks. */
  ghost predicate Answers(result: seq<SeederDTO>, ps: Peers) {
    && (forall i, j :: 0 <= i < j < |result| ==> result[i].peerId != result[j].peerId)
    && (forall d <- result :: d.peerId in ps && d == SeederDTO(d.peerId, ps[d.peerId].address, ps[d.peerId].chunks))
    && Names(result) == ps.Keys
  }

  // ----- the tracker -----

  class Tracker {
    var models: Models

    constructor ()
      ensures models == map[]
    {
      models := map[];
    }

    method Announce(model: string, peer: string, address: string, chunks: seq<Uint32>, now: nat)
      modifies this
      ensures models == Announced(old(models), model, peer, Entry(address, chunks, now))
    {
      if model !in models {
        models := models[model := map[]];
      }
      models := models[model := models[model][peer := Entry(address, chunks, now)]];
    }

    method Query(model: string) returns (result: seq<SeederDTO>)
      ensures Answers(result, PeersOf(models, model))
    {
      result := [];
      if model !in models || models[model] == map[] {
        return;
      }
      var ps := models[model];
      var todo := ps.Keys;
      while todo != {}
        invariant todo <= ps.Keys
        invariant forall i, j :: 0 <= i < j < |result| ==> result[i].peerId != result[j].peerId
        invariant forall d <- result :: d.peerId in ps && d == SeederDTO(d.peerId, ps[d.peerId].address, ps[d.peerId].chunks)
        invariant Names(result) == ps.Keys - todo
        decreases todo
      {
        var p :| p in todo;
        var dto := SeederDTO(p, ps[p].address, ps[p].chunks);
        forall d <- result ensures d.peerId != p {
          assert d.peerId in Names(result);
        }
        NamesWith(result, dto);
        result := result + [dto];
        todo := todo - {p};
      }
    }

    method Heartbeat(peer: string, now: nat)
      modifies this
      ensures models == Refreshed(old(models), peer, now)
    {
      var todo := models.Keys;
      while todo != {}
        invariant todo <= models.Keys == old(models).Keys
        invariant forall m <- models :: models[m] == if m in todo then old(models)[m] else Beaten(old(models)[m], peer, now)
        decreases todo
      {
        var m :| m in todo;
        if peer in models[m] {
          models := models[m := models[m][peer := models[m][peer].(last := now)]];
        }
        todo := todo - {m};
      }
    }

    method RemovePeer(peer: string)
      modifies this
      ensures models == Purged(old(models), peer)
    {
      var todo := models.Keys;
      while todo != {}
        invariant todo <= models.Keys <= old(models).Keys
        invariant forall m <- todo :: models[m] == old(models)[m]
        invariant forall m <- models.Keys - todo :: models[m] == old(models)[m] - {peer}
        invariant forall m <- old(models).Keys - todo :: m in models <==> old(models)[m] - {peer} != map[]
        decreases todo
      {
        var m :| m in todo;
        models := models[m := models[m] - {peer}];
        if models[m] == map[] {
          models := models - {m};
        }
        todo := todo - {m};
      }
    }

    method EvictStale(timeout: int, now: nat) returns (evicted: nat)
      modifies this
      ensures models == Evicted(old(models), now - timeout)
      ensures evicted == |Registrations(old(models))| - |Registrations(models)|
    {
      var threshold := now - timeout;
      evicted := 0;
      var todo := models.Keys;
      while todo != {}
        invariant todo <= old(models).Keys
        invariant models == PartlyEvicted(old(models), todo, threshold)
        invariant evicted == |Registrations(old(models))| - |Registrations(models)|
        decreases todo
      {
        var m :| m in todo;
        ghost var before := models;
        var ps, n := EvictFrom(models[m], threshold);
        RegistrationsAfterReplace(before, m, ps);
        PartlyEvictedStep(old(models), todo, threshold, m);
        evicted := evicted + n;
        if ps == map[] {
          models := models - {m};
        } else {
          models := models[m := ps];
        }
        assert models == WithPeers(before, m, ps);
        todo := todo - {m};
      }
      assert models == Evicted(old(models), threshold);
    }

    method Stats() returns (uniquePeers: nat, registrations: nat)
      ensures uniquePeers == |UniquePeers(models)|
      ensures registrations == |Registrations(models)|
    {
      var seen: set<string> := {};
      var total := 0;
      var todo := models.Keys;
      while todo != {}
        invariant todo <= models.Keys
        invariant seen == UniquePeers(models - todo)
        invariant total == |Registrations(models - todo)|
        decreases todo
      {
        var m :| m in todo;
        RegistrationsWith(models - todo, m, models[m]);
        assert models - (todo - {m}) == (models - todo)[m := models[m]];
        UniquePeersWith(models - todo, m, models[m]);
        seen := seen + models[m].Keys;
        total := total + |models[m]|;
        todo := todo - {m};
      }
      assert models - todo == models;
      return |seen|, total;
    }
  }

  lemma NamesWith(result: seq<SeederDTO>, d: SeederDTO)
    ensures Names(result + [d]) == Names(result) + {d.peerId}
  {
    forall p ensures p in Names(result + [d]) <==> p in Names(result) + {d.peerId} {
      if p in Names(result) {
        var e :| e in result && e.peerId == p;
        assert e in result + [d];
      } else if p == d.peerId {
        assert d in result + [d];
      }
    }
  }

  /** An eviction that has yet to visit the models in `todo`. */
  ghost function PartlyEvicted(ms: Models, todo: set<string>, threshold: int): Models {
    map m | m in ms && (m in todo || Kept(ms[m], threshold) != map[]) ::
      if m in todo then ms[m] else Kept(ms[m], threshold)
  }

  lemma PartlyEvictedStep(ms: Models, todo: set<string>, threshold: int, m: string)
    requires m in todo && m in ms
    ensures WithPeers(PartlyEvicted(ms, todo, threshold), m, Kept(ms[m], threshold)) == PartlyEvicted(ms, todo - {m}, threshold)
  {
  }

  /** The inner loop of an eviction: the stale peers of one model are deleted and counted. */
  method EvictFrom(ps: Peers, threshold: int) returns (kept: Peers, evicted: nat)
    ensures kept == Kept(ps, threshold)
    ensures evicted == |ps| - |kept|
  {
    kept := ps;
    evicted := 0;
    var todo := ps.Keys;
    while todo != {}
      invariant todo <= kept.Keys <= ps.Keys
      invariant forall p <- kept :: kept[p] == ps[p]
      invariant forall p <- ps.Keys - todo :: p in kept <==> !Stale(ps[p], threshold)
      invariant evicted == |ps| - |kept|
      decreases todo
    {
      var p :| p in todo;
      if kept[p].last < threshold {
        assert (kept - {p}).Keys == kept.Keys - {p};
        kept := kept - {p};
        evicted := evicted + 1;
      }
      todo := todo - {p};
    }
  }

  // ----- counting registrations -----

  lemma UniquePeersWith(ms: Models, m: string, ps: Peers)
    requires m !in ms
    ensures UniquePeers(ms[m := ps]) == UniquePeers(ms) + ps.Keys
  {
    var more := ms[m := ps];
    forall p ensures p in UniquePeers(more) <==> p in UniquePeers(ms) + ps.Keys {
      if p in UniquePeers(ms) {
        var n :| n in ms && p in ms[n];
        assert n in more && p in more[n];
      } else if p in ps {
        assert m in more && p in more[m];
      }
    }
  }

  ghost function PairsWith(m: string, peers: set<string>): set<(string, string)> {
    set p | p in peers :: (m, p)
  }

  lemma {:induction false} PairsWithSize(m: string, peers: set<string>)
    ensures |PairsWith(m, peers)| == |peers|
    decreases peers
  {
    if peers != {} {
      var p :| p in peers;
      PairsWithSize(m, peers - {p});
      assert PairsWith(m, peers) == PairsWith(m, peers - {p}) + {(m, p)};
    }
  }

  lemma InRegistrations(ms: Models, m: string, p: string)
    ensures (m, p) in Registrations(ms) <==> Listed(ms, m, p)
  {
  }

  lemma RegistrationsWith(ms: Models, m: string, ps: Peers)
    requires m !in ms
    ensures |Registrations(ms[m := ps])| == |Registrations(ms)| + |ps|
  {
    var grown := Registrations(ms[m := ps]);
    forall n, p ensures (n, p) in grown <==> (n, p) in Registrations(ms) + PairsWith(m, ps.Keys) {
      InRegistrations(ms[m := ps], n, p);
      InRegistrations(ms, n, p);
    }
    forall x ensures x in grown <==> x in Registrations(ms) + PairsWith(m, ps.Keys) {
      assert x == (x.0, x.1);
    }
    assert grown == Registrations(ms) + PairsWith(m, ps.Keys);
    PairsWithSize(m, ps.Keys);
  }

  /** The models map once one model's peers are replaced, without the model when none are left. */
  ghost function WithPeers(ms: Models, m: string, ps: Peers): Models {
    if ps == map[] then ms - {m} else ms[m := ps]
  }

  lemma RegistrationsAfterReplace(ms: Models, m: string, ps: Peers)
    requires m in ms
    ensures |Registrations(WithPeers(ms, m, ps))| == |Registrations(ms)| - |ms[m]| + |ps|
  {
    RegistrationsWith(ms - {m}, m, ms[m]);
    assert (ms - {m})[m := ms[m]] == ms;
    if ps != map[] {
      RegistrationsWith(ms - {m}, m, ps);
      assert (ms - {m})[m := ps] == WithPeers(ms, m, ps);
    }
  }

  // ----- runs -----

  datatype Event =
    | Announce(model: string, peer: string, address: string, chunks: seq<Uint32>)
    | Heartbeat(peer: string)
    | RemovePeer(peer: string)
    | Evict(timeout: int)

  datatype Timed = Timed(event: Event, now: nat)

  ghost function Apply(ms: Models, t: Timed): Models {
    match t.event
    case Announce(m, p, a, cs) => Announced(ms, m, p, Entry(a, cs, t.now))
    case Heartbeat(p) => Refreshed(ms, p, t.now)
    case RemovePeer(p) => Purged(ms, p)
    case Evict(timeout) => Evicted(ms, t.now - timeout)
  }

  ghost function Run(ms: Models, trace: seq<Timed>): Models
    decreases |trace|
  {
    if trace == [] then ms else Run(Apply(ms, trace[0]), trace[1..])
  }

  /** The clock does not go back along a trace. */
  ghost predicate Monotone(start: nat, trace: seq<Timed>)
    decreases |trace|
  {
    trace == [] || (start <= trace[0].now && Monotone(trace[0].now, trace[1..]))
  }

  ghost function End(start: nat, trace: seq<Timed>): nat {
    if trace == [] then start else trace[|trace| - 1].now
  }

  /** No run leaves a model with an empty peer map. */
  lemma {:induction false} RunKeepsNoEmptyInner(ms: Models, trace: seq<Timed>)
    requires NoEmptyInner(ms)
    ensures NoEmptyInner(Run(ms, trace))
    decreases |trace|
  {
    if trace != [] {
      var next := Apply(ms, trace[0]);
      forall m | m in next ensures next[m] != map[] {
        if trace[0].event.Announce? {
          assert trace[0].event.peer in next[trace[0].event.model];
        } else if trace[0].event.Heartbeat? {
          assert next[m].Keys == ms[m].Keys;
        }
      }
      RunKeepsNoEmptyInner(next, trace[1..]);
    }
  }

  // ----- eviction ticks bound staleness -----

  /** All evictions use this timeout. */
  ghost predicate EvictsAfter(trace: seq<Timed>, timeout: nat) {
    forall t <- trace | t.event.Evict? :: t.event.timeout == timeout
  }

  ghost function LastTick(lastTick: nat, trace: seq<Timed>): nat
    decreases |trace|
  {
    if trace == [] then lastTick
    else LastTick(if trace[0].event.Evict? then trace[0].now else lastTick, trace[1..])
  }

  ghost predicate NoOlderThan(ms: Models, threshold: int) {
    forall m, p | Listed(ms, m, p) :: threshold <= ms[m][p].last
  }

  lemma {:induction false} NothingOlderThanLastTick(ms: Models, start: nat, lastTick: nat, trace: seq<Timed>, timeout: nat)
    requires lastTick <= start && Monotone(start, trace) && EvictsAfter(trace, timeout)
    requires NoOlderThan(ms, lastTick - timeout)
    ensures LastTick(lastTick, trace) <= End(start, trace)
    ensures NoOlderThan(Run(ms, trace), LastTick(lastTick, trace) - timeout)
    decreases |trace|
  {
    if trace != [] {
      var t := trace[0];
      var tick := if t.event.Evict? then t.now else lastTick;
      assert t in trace && forall u <- trace[1..] :: u in trace;
      assert NoOlderThan(Apply(ms, t), tick - timeout);
      NothingOlderThanLastTick(Apply(ms, t), t.now, tick, trace[1..], timeout);
    }
  }

  /** The last tick is no earlier than the start or any eviction of the run. */
  lemma {:induction false} LastTickIsLast(start: nat, lastTick: nat, trace: seq<Timed>, i: nat)
    requires lastTick <= start && Monotone(start, trace)
    ensures lastTick <= LastTick(lastTick, trace)
    ensures i < |trace| && trace[i].event.Evict? ==> trace[i].now <= LastTick(lastTick, trace)
    decreases |trace|
  {
    if trace != [] {
      var tick := if trace[0].event.Evict? then trace[0].now else lastTick;
      LastTickIsLast(trace[0].now, tick, trace[1..], if i > 0 then i - 1 else 0);
    }
  }

  /** No entry a query can see is older than timeout plus interval, if the run began, or had an eviction, at most the
      interval ago. */
  lemma EntriesNeverOlderThanTimeoutPlusInterval(
      start: nat, trace: seq<Timed>, timeout: nat, interval: nat, now: nat, model: string, peer: string, i: nat)
    requires Monotone(start, trace) && EvictsAfter(trace, timeout)
    requires now <= start + interval || (i < |trace| && trace[i].event.Evict? && now <= trace[i].now + interval)
    requires Listed(Run(map[], trace), model, peer)
    ensures now - Run(map[], trace)[model][peer].last <= timeout + interval
  {
    NothingOlderThanLastTick(map[], start, start, trace, timeout);
    LastTickIsLast(start, start, trace, i);
  }

  // ----- a punctual peer is never evicted -----

  /** From its last beat on, the peer is never removed and no eviction finds more than its timeout since the last beat. */
  ghost predicate Punctual(peer: string, lastBeat: nat, trace: seq<Timed>)
    decreases |trace|
  {
    trace == [] ||
    var t := trace[0];
    && t.event != RemovePeer(peer)
    && (t.event.Evict? ==> t.now <= lastBeat + t.event.timeout)
    && Punctual(peer, if t.event == Heartbeat(peer) then t.now else lastBeat, trace[1..])
  }

  lemma {:induction false} PunctualPeerStays(
      ms: Models, start: nat, trace: seq<Timed>, model: string, peer: string, lastBeat: nat)
    requires Listed(ms, model, peer) && lastBeat <= ms[model][peer].last <= start
    requires Monotone(start, trace) && Punctual(peer, lastBeat, trace)
    ensures Listed(Run(ms, trace), model, peer)
    decreases |trace|
  {
    if trace != [] {
      var t := trace[0];
      var next := Apply(ms, t);
      var beat := if t.event == Heartbeat(peer) then t.now else lastBeat;
      if t.event.Evict? {
        assert peer in Kept(ms[model], t.now - t.event.timeout);
      } else if t.event.RemovePeer? {
        assert peer in ms[model] - {t.event.peer};
      }
      assert Listed(next, model, peer) && beat <= next[model][peer].last <= t.now;
      PunctualPeerStays(next, t.now, trace[1..], model, peer, beat);
    }
  }
}
