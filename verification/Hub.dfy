/** The WebSocket hub: connections that register, are kicked, register again, announce and leave, all sharing
    one peer table and one tracker. Every section the code runs under its lock is one step, so the steps of
    different connections interleave in any order. */
module Hub {
  import opened Wrappers
  import opened Text
  import opened Tracker

  /** Where a connection's read loop stands: handling messages, between the two halves of a registration,
      between the two halves of its departure, or finished. */
  datatype Phase = Open | Registering(id: string, address: string) | Leaving | Gone

  datatype Conn = Conn(id: string, address: string, closed: bool, phase: Phase)

  datatype HubState<!C> = HubState(peers: map<string, C>, conns: map<C, Conn>, tracker: Models)

  /** A verified session token: identity and wallet, neither of them blank. */
  datatype Claims = Claims(peerId: string, address: string)

  datatype Step<C> =
    | Connect(c: C, claims: Option<Claims>)
    | RegisterStart(c: C, id: string, address: string)
    | Enroll(c: C)
    | Announce(c: C, model: string, address: string, chunks: seq<Uint32>, now: nat)
    | Heartbeat(c: C, now: nat)
    | LeaveStart(c: C)
    | LeaveEnd(c: C)
    | Evict(timeout: int, now: nat)

  // ----- what each step does -----

  ghost predicate IsAt<C>(s: HubState<C>, c: C, phase: Phase) {
    c in s.conns && s.conns[c].phase == phase
  }

  /** A step a connection can take: what its read loop allows at that point. */
  ghost predicate Enabled<C>(s: HubState<C>, step: Step<C>) {
    match step
    case Connect(c, claims) => c !in s.conns && (claims.Some? ==> claims.value.peerId != "" && claims.value.address != "")
    case RegisterStart(c, _, _) => IsAt(s, c, Open)
    case Enroll(c) => c in s.conns && s.conns[c].phase.Registering?
    case Announce(c, _, _, _, _) => IsAt(s, c, Open)
    case Heartbeat(c, _) => IsAt(s, c, Open)
    case LeaveStart(c) => IsAt(s, c, Open)
    case LeaveEnd(c) => IsAt(s, c, Leaving)
    case Evict(_, _) => true
  }

  /** Puts a connection into the table under its ID, closing another one that stood there. */
  ghost function Seated<C>(s: HubState<C>, c: C, conn: Conn): HubState<C> {
    var kicked :=
      if conn.id in s.peers && s.peers[conn.id] != c && s.peers[conn.id] in s.conns then
        s.conns[s.peers[conn.id] := s.conns[s.peers[conn.id]].(closed := true)]
      else s.conns;
    s.(peers := s.peers[conn.id := c], conns := kicked[c := conn])
  }

  ghost function ClosedIf(conn: Conn, kicked: bool): Conn {
    if kicked then conn.(closed := true) else conn
  }

  lemma SeatedByParts<C>(s: HubState<C>, t: HubState<C>, c: C, conn: Conn)
    requires forall k <- s.peers :: s.peers[k] in s.conns
    requires t.peers == s.peers[conn.id := c] && t.tracker == s.tracker
    requires t.conns.Keys == s.conns.Keys + {c} && t.conns[c] == conn
    requires forall q <- s.conns | q != c :: t.conns[q] == ClosedIf(s.conns[q], conn.id in s.peers && s.peers[conn.id] == q)
    ensures t == Seated(s, c, conn)
  {
  }

  ghost function After<C>(s: HubState<C>, step: Step<C>): HubState<C>
    requires Enabled(s, step)
  {
    match step
    case Connect(c, None) => s.(conns := s.conns[c := Conn("", "", false, Open)])
    case Connect(c, Some(claims)) => Seated(s, c, Conn(claims.peerId, claims.address, false, Open))
    case RegisterStart(c, id, address) =>
      var conn := s.conns[c];
      if id == "" || (conn.id != "" && conn.id != id) then s
      else s.(conns := s.conns[c := conn.(phase := Registering(id, address))],
              tracker := if conn.id != "" then Purged(s.tracker, conn.id) else s.tracker)
    case Enroll(c) =>
      var conn := s.conns[c];
      Seated(s, c, conn.(id := conn.phase.id, address := conn.phase.address, phase := Open))
    case Announce(c, model, address, chunks, now) =>
      var conn := s.conns[c];
      if conn.id == "" || model == "" || |chunks| > MAX_CHUNKS_PER_ANNOUNCEMENT then s
      else
        var bound := if conn.address != "" then conn.address else address;
        s.(conns := s.conns[c := conn.(address := bound)],
           tracker := Announced(s.tracker, model, conn.id, Entry(bound, chunks, now)))
    case Heartbeat(c, now) =>
      if s.conns[c].id == "" then s else s.(tracker := Refreshed(s.tracker, s.conns[c].id, now))
    case LeaveStart(c) =>
      var id := s.conns[c].id;
      if id == "" then s.(conns := s.conns[c := s.conns[c].(phase := Gone)])
      else s.(conns := s.conns[c := s.conns[c].(phase := Leaving)],
              peers := if id in s.peers && s.peers[id] == c then s.peers - {id} else s.peers)
    case LeaveEnd(c) =>
      s.(conns := s.conns[c := s.conns[c].(phase := Gone)], tracker := Purged(s.tracker, s.conns[c].id))
    case Evict(timeout, now) => s.(tracker := Evicted(s.tracker, now - timeout))
  }

  const MAX_CHUNKS_PER_ANNOUNCEMENT := 500_000

  // ----- the hub -----

  const SEND_BUFFER := 256

  /** What goes out to a peer: the queued messages, and how often the queue was closed; closing it twice is a fault. */
  datatype Outgoing = Outgoing(queue: seq<string>, closed: bool, closings: nat)

  const OPEN_QUEUE := Outgoing([], false, 0)

  /** The hub sends a message or closes the peer; the write loop takes the oldest message. */
  datatype Use = Send(message: string) | Close | Take

  predicate Takes(o: Outgoing, u: Use) {
    u.Send? && !o.closed && |o.queue| < SEND_BUFFER
  }

  function AfterUse(o: Outgoing, u: Use): Outgoing {
    match u
    case Send(message) => if Takes(o, u) then o.(queue := o.queue + [message]) else o
    case Close => if o.closed then o else o.(closed := true, closings := o.closings + 1)
    case Take => if o.queue == [] then o else o.(queue := o.queue[1..])
  }

  class Peer {
    var id: string
    var address: string
    var closed: bool
    var queue: seq<string>
    ghost var closings: nat
    ghost var phase: Phase

    constructor ()
      ensures id == "" && address == "" && !closed && phase == Open && Outbox() == OPEN_QUEUE
    {
      id, address, closed, phase := "", "", false, Open;
      queue, closings := [], 0;
    }

    ghost function Outbox(): Outgoing
      reads this
    {
      Outgoing(queue, closed, closings)
    }

    ghost function View(): Conn
      reads this
    {
      Conn(id, address, closed, phase)
    }

    method Send(message: string) returns (ok: bool)
      modifies this`queue
      ensures Outbox() == AfterUse(old(Outbox()), Use.Send(message)) && ok == Takes(old(Outbox()), Use.Send(message))
    {
      if closed || |queue| >= SEND_BUFFER {
        return false;
      }
      queue := queue + [message];
      return true;
    }

    method Close()
      modifies this`closed, this`closings
      ensures closed && Outbox() == AfterUse(old(Outbox()), Use.Close)
    {
      if !closed {
        closed := true;
        closings := closings + 1;
      }
    }
  }

  class Hub {
    var peers: map<string, Peer>
    const tracker: Tracker
    ghost var conns: set<Peer>

    ghost predicate Valid()
      reads this
    {
      forall k <- peers :: peers[k] in conns
    }

    ghost function State(): HubState<Peer>
      reads this, tracker, conns
    {
      HubState(peers, map p | p in conns :: p.View(), tracker.models)
    }

    constructor (tracker: Tracker)
      requires tracker.models == map[]
      ensures Valid() && this.tracker == tracker && State() == HubState(map[], map[], map[])
    {
      this.peers := map[];
      this.tracker := tracker;
      this.conns := {};
    }

    /** Seats a peer whose ID is set, closing whoever held the ID before. */
    method Seat(p: Peer)
      requires Valid() && p in conns
      modifies this`peers, conns`closed, conns`closings
      ensures Valid() && peers == old(peers)[p.id := p]
      ensures forall q <- conns :: q.View() == ClosedIf(old(q.View()), q != p && old(p.id in peers && peers[p.id] == q))
      ensures old(p.id in peers && peers[p.id] != p) ==> old(peers[p.id]).closed
    {
      if p.id in peers && peers[p.id] != p {
        peers[p.id].Close();
        peers := peers - {p.id};
      }
      peers := peers[p.id := p];
    }

    /** A new connection, seated at once when it brings a session token. */
    method ServeWS(claims: Option<Claims>) returns (p: Peer)
      requires Valid() && (claims.Some? ==> claims.value.peerId != "" && claims.value.address != "")
      modifies this, conns`closed, conns`closings
      ensures fresh(p) && Valid() && conns == old(conns) + {p}
      ensures State() == After(old(State()), Connect(p, claims))
      ensures if claims.Some? then p.id == claims.value.peerId && p.address == claims.value.address && p.id in peers && peers[p.id] == p
              else p.id == p.address == "" && peers == old(peers)
    {
      p := new Peer();
      if claims.Some? {
        p.id, p.address := claims.value.peerId, claims.value.address;
      }
      conns := conns + {p};
      if claims.Some? {
        Seat(p);
        SeatedByParts(old(State()), State(), p, p.View());
      }
    }

    /** The first half of a registration: an identity change is refused, and a peer that registers again under its
        own ID first gives up what it announced. */
    method RegisterStart(p: Peer, id: string, address: string) returns (ok: bool)
      requires Valid() && Enabled(State(), Step.RegisterStart(p, id, address))
      modifies p`phase, tracker
      ensures Valid() && State() == After(old(State()), Step.RegisterStart(p, id, address))
      ensures ok <==> p.phase.Registering?
    {
      if id == "" || (p.id != "" && p.id != id) {
        return false;
      }
      if p.id != "" {
        tracker.RemovePeer(p.id);
      }
      p.phase := Registering(id, address);
      return true;
    }

    /** The second half, under the lock. */
    method Enroll(p: Peer, id: string, address: string)
      requires Valid() && p in conns && p.phase == Registering(id, address)
      modifies this`peers, conns`closed, conns`closings, p
      ensures Valid() && State() == After(old(State()), Step.Enroll(p))
      ensures p.id == id && p.address == address && id in peers && peers[id] == p
      ensures old(id in peers && peers[id] != p) ==> old(peers[id]).closed
    {
      p.id, p.address, p.phase := id, address, Open;
      Seat(p);
      SeatedByParts(old(State()), State(), p, p.View());
    }

    /** A registration nobody else interleaves with. */
    method Register(p: Peer, id: string, address: string) returns (ok: bool)
      requires Valid() && Enabled(State(), Step.RegisterStart(p, id, address))
      modifies this`peers, conns`closed, conns`closings, p, tracker
      ensures Valid() && (ok <==> id != "" && (old(p.id) == "" || old(p.id) == id))
      ensures ok ==> p.id == id && p.address == address && id in peers && peers[id] == p
      ensures ok && old(p.id) != "" ==> forall m :: !Listed(tracker.models, m, id)
      ensures !ok ==> State() == old(State())
    {
      ok := RegisterStart(p, id, address);
      if ok {
        Enroll(p, id, address);
      }
    }

    method Announce(p: Peer, model: string, address: string, chunks: seq<Uint32>, now: nat) returns (ok: bool)
      requires Valid() && Enabled(State(), Step.Announce(p, model, address, chunks, now))
      modifies p`address, tracker
      ensures Valid() && State() == After(old(State()), Step.Announce(p, model, address, chunks, now))
      ensures ok <==> p.id != "" && model != "" && |chunks| <= MAX_CHUNKS_PER_ANNOUNCEMENT
      ensures ok ==> Listed(tracker.models, model, p.id) && tracker.models[model][p.id] == Entry(p.address, chunks, now)
      ensures p.address == if ok && old(p.address) == "" then address else old(p.address)
    {
      if p.id == "" || model == "" || |chunks| > MAX_CHUNKS_PER_ANNOUNCEMENT {
        return false;
      }
      if p.address == "" && address != "" {
        p.address := address;
      }
      tracker.Announce(model, p.id, p.address, chunks, now);
      return true;
    }

    method Heartbeat(p: Peer, now: nat) returns (ok: bool)
      requires Valid() && Enabled(State(), Step.Heartbeat(p, now))
      modifies tracker
      ensures Valid() && State() == After(old(State()), Step.Heartbeat(p, now))
    {
      if p.id == "" {
        return false;
      }
      tracker.Heartbeat(p.id, now);
      return true;
    }

    /** The first half of a departure: the seat is given up unless another connection has taken it. */
    method UnregisterStart(p: Peer)
      requires Valid() && Enabled(State(), LeaveStart(p))
      modifies this`peers, p`phase
      ensures Valid() && State() == After(old(State()), LeaveStart(p))
    {
      if p.id == "" {
        p.phase := Gone;
        return;
      }
      if p.id in peers && peers[p.id] == p {
        peers := peers - {p.id};
      }
      p.phase := Leaving;
    }

    /** The second half: the tracker forgets the peer. */
    method UnregisterEnd(p: Peer)
      requires Valid() && Enabled(State(), LeaveEnd(p))
      modifies tracker, p`phase
      ensures Valid() && State() == After(old(State()), LeaveEnd(p))
    {
      tracker.RemovePeer(p.id);
      p.phase := Gone;
    }
  }
}
