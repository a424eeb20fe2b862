/** The facade's local Gateway: its clients, and the numbered frames each of them is sent. */
module Gateway {
  import opened Text
  import opened Discord

  datatype Payload = Payload(op: int, token: string)

  /** What crosses one websocket, in order. */
  datatype Wire = In(payload: Payload) | Out(frame: Frame)

  datatype PeerState = PeerState(identified: bool, closed: bool, sequence: nat, wire: seq<Wire>)

  predicate IsLive(p: PeerState)
  {
    p.identified && !p.closed
  }

  /** Sending on a closed websocket raises, so nothing crosses the wire. */
  function Sent(p: PeerState, op: int, event: Option<Event>): PeerState
  {
    if p.closed then p
    else p.(wire := p.wire + [Out(Frame(op, if event.Some? then Some(p.sequence) else None, event))])
  }

  function Dispatched(p: PeerState, event: Event): PeerState
  {
    Sent(p.(sequence := p.sequence + 1), 0, Some(event))
  }

  function Connected(): PeerState
  {
    Sent(PeerState(false, false, 0, []), 10, None)
  }

  /** IDENTIFY (op 2) or RESUME (op 6) that carries the placeholder token. */
  predicate Authenticates(payload: Payload, placeholder: string)
  {
    payload.op in {2, 6} && payload.token == placeholder
  }

  function Received(p: PeerState, payload: Payload, placeholder: string): PeerState
  {
    var q := p.(wire := p.wire + [In(payload)]);
    if payload.op == 1 then Sent(q, 11, None)
    else if payload.op == 2 then
      if payload.token != placeholder then q.(closed := true) else Dispatched(q.(identified := true), Ready)
    else if payload.op == 6 then
      if payload.token != placeholder then q.(closed := true) else Dispatched(q.(identified := true), Resumed)
    else q
  }

  /** What a client gets from a list of broadcasts that starts while nothing else happens. */
  function Heard(p: PeerState, events: seq<Event>): PeerState
  {
    if events == [] || !IsLive(p) then p
    else Dispatched(Heard(p, events[..|events|-1]), events[|events|-1])
  }

  /** The events of the dispatch frames a client was sent, in order. */
  function EventsOf(wire: seq<Wire>): seq<Event>
  {
    if wire == [] then []
    else
      var w := wire[|wire|-1];
      EventsOf(wire[..|wire|-1]) + (if w.Out? && w.frame.event.Some? then [w.frame.event.value] else [])
  }

  /** A live client is sent every broadcast once, in order, and nothing else. */
  lemma {:induction false} HeardIsSent(p: PeerState, events: seq<Event>)
    requires IsLive(p)
    ensures IsLive(Heard(p, events))
    ensures EventsOf(Heard(p, events).wire) == EventsOf(p.wire) + events
  {
    if events != [] {
      var before := Heard(p, events[..|events|-1]);
      HeardIsSent(p, events[..|events|-1]);
      var wire := Heard(p, events).wire;
      assert wire[..|wire|-1] == before.wire;
      assert events == events[..|events|-1] + [events[|events|-1]];
    }
  }

  /** The dispatch frames of these events, numbered from the given number on. */
  function Frames(events: seq<Event>, from: nat): seq<Wire>
  {
    seq(|events|, i requires 0 <= i < |events| => Out(Frame(0, Some(from + i), Some(events[i]))))
  }

  /** What a live client gets: one dispatch frame for each event, numbered on from its counter. */
  lemma {:induction false} HeardFrames(p: PeerState, events: seq<Event>)
    requires IsLive(p)
    ensures var after := Heard(p, events);
            && IsLive(after) && after.sequence == p.sequence + |events|
            && after.wire == p.wire + Frames(events, p.sequence + 1)
  {
    if events != [] {
      var n := |events| - 1;
      HeardFrames(p, events[..n]);
      var last := Out(Frame(0, Some(p.sequence + 1 + n), Some(events[n])));
      assert Frames(events, p.sequence + 1) == Frames(events[..n], p.sequence + 1) + [last];
      Associative(p.wire, Frames(events[..n], p.sequence + 1), [last]);
    } else {
      AddNothing(p.wire);
    }
  }

  /** A connection starts with HELLO. */
  lemma ConnectedIs()
    ensures Connected() == PeerState(false, false, 0, [Out(Frame(10, None, None))])
  {
  }

  /** What a payload is answered with: HEARTBEAT_ACK to a heartbeat, READY to IDENTIFY and RESUMED to
      RESUME if they have the placeholder token, else the connection is closed; nothing to others. */
  lemma ReceivedIs(p: PeerState, payload: Payload, placeholder: string)
    requires !p.closed
    ensures var after := Received(p, payload, placeholder);
            var asks, matches := payload.op == 2 || payload.op == 6, payload.token == placeholder;
            var answer :=
              if payload.op == 1 then [Out(Frame(11, None, None))]
              else if payload.op == 2 && matches then [Out(Frame(0, Some(p.sequence + 1), Some(Ready)))]
              else if payload.op == 6 && matches then [Out(Frame(0, Some(p.sequence + 1), Some(Resumed)))]
              else [];
            && after.wire == p.wire + [In(payload)] + answer
            && (after.closed <==> asks && !matches)
            && (after.identified <==> p.identified || (asks && matches))
            && after.sequence == p.sequence + (if asks && matches then 1 else 0)
  {
    AddNothing(p.wire + [In(payload)]);
  }

  class GatewayPeer {
    var identified: bool
    var closed: bool
    var sequence: nat
    var wire: seq<Wire>

    ghost function State(): PeerState
      reads this
    {
      PeerState(identified, closed, sequence, wire)
    }

    constructor ()
      ensures State() == Connected()
    {
      identified, closed, sequence := false, false, 0;
      wire := [Out(Frame(10, None, None))];
    }

    method SendGateway(op: int, event: Option<Event>)
      modifies this`wire
      ensures State() == Sent(old(State()), op, event)
    {
      if !closed {
        wire := wire + [Out(Frame(op, if event.Some? then Some(sequence) else None, event))];
      }
    }

    method Dispatch(event: Event)
      modifies this`wire, this`sequence
      ensures State() == Dispatched(old(State()), event)
    {
      sequence := sequence + 1;
      SendGateway(0, Some(event));
    }

    method HandlePayload(payload: Payload, placeholder: string)
      modifies this
      ensures State() == Received(old(State()), payload, placeholder)
    {
      wire := wire + [In(payload)];
      if payload.op == 1 {
        SendGateway(11, None);
        return;
      }
      if payload.op == 2 {
        if payload.token != placeholder {
          closed := true;
          return;
        }
        identified := true;
        Dispatch(Ready);
        return;
      }
      if payload.op == 6 {
        if payload.token != placeholder {
          closed := true;
          return;
        }
        identified := true;
        Dispatch(Resumed);
      }
    }
  }

  /** A peer that closed before its frame was sent: the counter went up, the send raised. */
  function Raised(p: PeerState, event: Event): PeerState
  {
    Dispatched(p.(closed := true), event)
  }

  method Targets(peers: set<GatewayPeer>) returns (targets: seq<GatewayPeer>)
    ensures forall p :: p in targets <==> p in peers && IsLive(p.State())
    ensures forall i, j :: 0 <= i < j < |targets| ==> targets[i] != targets[j]
  {
    targets := [];
    var todo := peers;
    while todo != {}
      invariant todo <= peers
      invariant forall p :: p in targets <==> p in peers - todo && IsLive(p.State())
      invariant forall i, j :: 0 <= i < j < |targets| ==> targets[i] != targets[j]
    {
      var p :| p in todo;
      assert p !in targets;
      if p.identified && !p.closed { targets := targets + [p]; }
      todo := todo - {p};
    }
  }

  /** Broadcast to the peers that are identified and open when it starts. Those in closing
      close before it gets to them; the first send to one of them raises and ends it. */
  method DispatchToAll(peers: set<GatewayPeer>, event: Event, closing: set<GatewayPeer>) returns (ok: bool)
    modifies peers
    ensures ok <==> forall p :: p in peers && p in closing ==> !old(IsLive(p.State()))
    ensures ok ==> forall p :: p in peers ==> p.State() == Heard(old(p.State()), [event])
    ensures !ok ==> exists p :: p in peers && p in closing && old(IsLive(p.State())) &&
                                p.State() == Raised(old(p.State()), event)
    ensures forall p :: p in peers && p !in closing ==>
              p.State() == old(p.State()) || p.State() == Heard(old(p.State()), [event])
    ensures forall p :: p in peers && p in closing ==>
              p.State() == old(p.State()) || (old(IsLive(p.State())) && p.State() == Raised(old(p.State()), event))
    ensures forall p, q :: p in peers * closing && q in peers * closing ==>
              p == q || p.State() == old(p.State()) || q.State() == old(q.State())
  {
    var targets := Targets(peers);
    assert [event][..0] == [];
    for i := 0 to |targets|
      invariant forall p :: p in peers && p in targets[..i] ==>
                  p !in closing && p.State() == Dispatched(old(p.State()), event)
      invariant forall p :: p in peers && p !in targets[..i] ==> p.State() == old(p.State())
    {
      assert targets[i] in targets && targets[i] !in targets[..i];
      if targets[i] in closing {
        targets[i].closed := true;
        targets[i].Dispatch(event);
        assert targets[i].State() == Raised(old(targets[i].State()), event);
        return false;
      }
      targets[i].Dispatch(event);
    }
    assert targets[..|targets|] == targets;
    return true;
  }

  // ----- Every interleaving of clients, broadcasts and disconnects -----

  /** A broadcast in progress: the peers of its list that were not served yet. */
  datatype Broadcast = Broadcast(event: Event, remaining: seq<nat>)

  datatype System = System(peers: map<nat, PeerState>, connected: set<nat>, broadcasts: seq<Broadcast>)

  /** One uninterrupted piece of work between two awaits. */
  datatype Action =
    | Connect(id: nat)
    | Receive(id: nat, payload: Payload)
    | Close(id: nat)
    | Leave(id: nat)
    | Begin(event: Event, order: seq<nat>)
    | Deliver(k: nat)

  ghost predicate Enabled(s: System, a: Action)
  {
    match a
    case Connect(id) => id !in s.peers
    case Receive(id, _) => id in s.connected && id in s.peers && !s.peers[id].closed
    case Close(id) => id in s.peers
    case Leave(id) => id in s.connected
    case Begin(_, order) =>
      (forall i, j :: 0 <= i < j < |order| ==> order[i] != order[j]) &&
      forall id :: id in order <==> id in s.connected && id in s.peers && IsLive(s.peers[id])
    case Deliver(k) => k < |s.broadcasts| && s.broadcasts[k].remaining != [] && s.broadcasts[k].remaining[0] in s.peers
  }

  function SetPeer(s: System, id: nat, p: PeerState): System
  {
    s.(peers := s.peers[id := p])
  }

  function Step(s: System, a: Action, placeholder: string): System
    requires Enabled(s, a)
  {
    match a
    case Connect(id) => SetPeer(s, id, Connected()).(connected := s.connected + {id})
    case Receive(id, payload) => SetPeer(s, id, Received(s.peers[id], payload, placeholder))
    case Close(id) => SetPeer(s, id, s.peers[id].(closed := true))
    case Leave(id) => s.(connected := s.connected - {id})
    case Begin(event, order) => s.(broadcasts := s.broadcasts + [Broadcast(event, order)])
    case Deliver(k) =>
      var b := s.broadcasts[k];
      var id := b.remaining[0];
      // a send that raises ends its broadcast; the others go on with the next peer
      var left := if s.peers[id].closed then [] else b.remaining[1..];
      SetPeer(s, id, Dispatched(s.peers[id], b.event)).(broadcasts := s.broadcasts[k := b.(remaining := left)])
  }

  const START := System(map[], {}, [])

  ghost predicate IsRun(trace: seq<System>, actions: seq<Action>, placeholder: string)
  {
    |trace| == |actions| + 1 && trace[0] == START &&
    forall i :: 0 <= i < |actions| ==>
        Enabled(trace[i], actions[i]) && trace[i+1] == Step(trace[i], actions[i], placeholder)
  }

  /** The sequence numbers of the dispatch frames sent, in order. */
  function Numbers(wire: seq<Wire>): (r: seq<nat>)
    ensures |r| <= |wire|
  {
    if wire == [] then []
    else
      var w := wire[|wire|-1];
      Numbers(wire[..|wire|-1]) + (if w.Out? && w.frame.op == 0 && w.frame.s.Some? then [w.frame.s.value] else [])
  }

  /** Dispatch frames are numbered 1, 2, 3, ... with no gap or repeat. */
  ghost predicate Consecutive(numbers: seq<nat>)
  {
    forall i :: 0 <= i < |numbers| ==> numbers[i] == i + 1
  }

  /** Exactly the dispatch frames carry a number and an event. */
  ghost predicate OnlyDispatchesNumbered(wire: seq<Wire>)
  {
    forall i :: 0 <= i < |wire| && wire[i].Out?
      ==> (wire[i].frame.op == 0 <==> wire[i].frame.s.Some?) && (wire[i].frame.op == 0 <==> wire[i].frame.event.Some?)
  }

  ghost predicate HasAuthenticated(wire: seq<Wire>, placeholder: string)
  {
    exists j :: 0 <= j < |wire| && wire[j].In? && Authenticates(wire[j].payload, placeholder)
  }

  /** No dispatch frame is sent before a matching IDENTIFY or RESUME came in. */
  ghost predicate NoneBeforeIdentify(wire: seq<Wire>, placeholder: string)
  {
    forall i :: 0 <= i < |wire| && wire[i].Out? && wire[i].frame.op == 0 ==> HasAuthenticated(wire[..i], placeholder)
  }

  ghost predicate GoodPeer(p: PeerState, placeholder: string)
  {
    && Consecutive(Numbers(p.wire))
    && |Numbers(p.wire)| <= p.sequence
    && (!p.closed ==> |Numbers(p.wire)| == p.sequence)
    && OnlyDispatchesNumbered(p.wire)
    && NoneBeforeIdentify(p.wire, placeholder)
    && (p.identified <==> HasAuthenticated(p.wire, placeholder))
  }

  ghost predicate GoodSystem(s: System, placeholder: string)
  {
    && (forall id :: id in s.peers ==> GoodPeer(s.peers[id], placeholder))
    && (forall b, id :: b in s.broadcasts && id in b.remaining ==> id in s.peers && s.peers[id].identified)
  }

  lemma {:induction false} AuthenticatedExtends(wire: seq<Wire>, w: Wire, placeholder: string)
    ensures HasAuthenticated(wire + [w], placeholder) <==>
            HasAuthenticated(wire, placeholder) || (w.In? && Authenticates(w.payload, placeholder))
  {
    var longer := wire + [w];
    if HasAuthenticated(wire, placeholder) {
      var j :| 0 <= j < |wire| && wire[j].In? && Authenticates(wire[j].payload, placeholder);
      assert longer[j] == wire[j];
    }
    if w.In? && Authenticates(w.payload, placeholder) {
      assert longer[|wire|] == w;
    }
  }

  lemma {:induction false} PrefixesExtend(wire: seq<Wire>, w: Wire, placeholder: string)
    requires NoneBeforeIdentify(wire, placeholder)
    requires w.Out? && w.frame.op == 0 ==> HasAuthenticated(wire, placeholder)
    ensures NoneBeforeIdentify(wire + [w], placeholder)
  {
    var longer := wire + [w];
    forall i | 0 <= i < |longer| && longer[i].Out? && longer[i].frame.op == 0
      ensures HasAuthenticated(longer[..i], placeholder)
    {
      assert longer[..i] == wire[..i];
      assert wire[..|wire|] == wire;
    }
  }

  lemma {:induction false} OneMore(wire: seq<Wire>, w: Wire, placeholder: string)
    requires OnlyDispatchesNumbered(wire) && NoneBeforeIdentify(wire, placeholder)
    requires w.Out? ==> (w.frame.op == 0 <==> w.frame.s.Some?) && (w.frame.op == 0 <==> w.frame.event.Some?)
    requires w.Out? && w.frame.op == 0 ==> HasAuthenticated(wire, placeholder)
    ensures OnlyDispatchesNumbered(wire + [w]) && NoneBeforeIdentify(wire + [w], placeholder)
    ensures Numbers(wire + [w]) == Numbers(wire) + (if w.Out? && w.frame.op == 0 then [w.frame.s.value] else [])
    ensures HasAuthenticated(wire + [w], placeholder) <==>
            HasAuthenticated(wire, placeholder) || (w.In? && Authenticates(w.payload, placeholder))
  {
    assert (wire + [w])[..|wire|] == wire;
    AuthenticatedExtends(wire, w, placeholder);
    PrefixesExtend(wire, w, placeholder);
  }

  lemma NextNumber(numbers: seq<nat>, n: nat)
    requires Consecutive(numbers) && n == |numbers| + 1
    ensures Consecutive(numbers + [n])
  {
  }

  lemma {:induction false} DispatchKeepsGood(p: PeerState, event: Event, placeholder: string)
    requires GoodPeer(p, placeholder) && p.identified
    ensures GoodPeer(Dispatched(p, event), placeholder)
  {
    if !p.closed {
      var w := Out(Frame(0, Some(p.sequence + 1), Some(event)));
      OneMore(p.wire, w, placeholder);
      NextNumber(Numbers(p.wire), p.sequence + 1);
      assert Dispatched(p, event) == p.(sequence := p.sequence + 1, wire := p.wire + [w]);
    }
  }

  lemma {:induction false} ReceiveKeepsGood(p: PeerState, payload: Payload, placeholder: string)
    requires GoodPeer(p, placeholder) && !p.closed
    ensures GoodPeer(Received(p, payload, placeholder), placeholder)
    ensures p.identified ==> Received(p, payload, placeholder).identified
  {
    var wire := p.wire + [In(payload)];
    OneMore(p.wire, In(payload), placeholder);
    if payload.op == 1 {
      OneMore(wire, Out(Frame(11, None, None)), placeholder);
    } else if Authenticates(payload, placeholder) {
      DispatchKeepsGood(p.(wire := wire, identified := true), if payload.op == 2 then Ready else Resumed, placeholder);
    }
  }

  lemma {:induction false} SetPeerKeepsGood(s: System, id: nat, p: PeerState, placeholder: string)
    requires GoodSystem(s, placeholder) && GoodPeer(p, placeholder)
    requires id in s.peers && s.peers[id].identified ==> p.identified
    ensures GoodSystem(SetPeer(s, id, p), placeholder)
  {
    var t := SetPeer(s, id, p);
    forall i | i in t.peers ensures GoodPeer(t.peers[i], placeholder) {
      if i != id { assert i in s.peers; }
    }
  }

  lemma {:induction false} DeliverKeepsGood(s: System, k: nat, placeholder: string)
    requires GoodSystem(s, placeholder) && Enabled(s, Deliver(k))
    ensures GoodSystem(Step(s, Deliver(k), placeholder), placeholder)
  {
    var b := s.broadcasts[k];
    var served := b.remaining[0];
    assert b in s.broadcasts && served in b.remaining;
    DispatchKeepsGood(s.peers[served], b.event, placeholder);
    var u := SetPeer(s, served, Dispatched(s.peers[served], b.event));
    SetPeerKeepsGood(s, served, Dispatched(s.peers[served], b.event), placeholder);
    var t := Step(s, Deliver(k), placeholder);
    forall c, id | c in t.broadcasts && id in c.remaining ensures id in t.peers && t.peers[id].identified {
      if c in u.broadcasts {} else { assert id in b.remaining; }
    }
  }

  lemma {:induction false} StepKeepsGood(s: System, a: Action, placeholder: string)
    requires GoodSystem(s, placeholder) && Enabled(s, a)
    ensures GoodSystem(Step(s, a, placeholder), placeholder)
  {
    match a {
      case Connect(id) =>
        OneMore([], Out(Frame(10, None, None)), placeholder);
        assert [] + [Out(Frame(10, None, None))] == Connected().wire;
        SetPeerKeepsGood(s, id, Connected(), placeholder);
      case Receive(id, payload) =>
        ReceiveKeepsGood(s.peers[id], payload, placeholder);
        SetPeerKeepsGood(s, id, Received(s.peers[id], payload, placeholder), placeholder);
      case Close(id) =>
        SetPeerKeepsGood(s, id, s.peers[id].(closed := true), placeholder);
      case Leave(id) =>
      case Begin(event, order) =>
      case Deliver(k) =>
        DeliverKeepsGood(s, k, placeholder);
    }
  }

  /** In every interleaving, at every point, each client has been sent dispatch frames
      numbered 1, 2, 3, ..., no other numbered frame, and none before it authenticated. */
  lemma {:induction false} FramesAreNumbered(trace: seq<System>, actions: seq<Action>, placeholder: string, n: nat)
    requires IsRun(trace, actions, placeholder) && n < |trace|
    ensures GoodSystem(trace[n], placeholder)
  {
    if n > 0 {
      FramesAreNumbered(trace, actions, placeholder, n - 1);
      StepKeepsGood(trace[n-1], actions[n-1], placeholder);
    }
  }

  // ----- What every peer is told -----

  /** The broadcasts that were begun: what they say, and to whom in which order. */
  function Begins(actions: seq<Action>): seq<(Event, seq<nat>)>
  {
    if actions == [] then []
    else
      var a := actions[|actions|-1];
      Begins(actions[..|actions|-1]) + (if a.Begin? then [(a.event, a.order)] else [])
  }

  /** What a step tells a peer: the answer to IDENTIFY or RESUME, or the next event of a broadcast. */
  ghost function StepTells(s: System, a: Action, id: nat, placeholder: string): seq<Event>
    requires Enabled(s, a)
  {
    match a
    case Receive(j, payload) =>
      if j != id || payload.token != placeholder then []
      else if payload.op == 2 then [Ready]
      else if payload.op == 6 then [Resumed]
      else []
    case Deliver(k) =>
      if s.broadcasts[k].remaining[0] == id && !s.peers[id].closed then [s.broadcasts[k].event] else []
    case _ => []
  }

  ghost function Told(trace: seq<System>, actions: seq<Action>, id: nat, placeholder: string, n: nat): seq<Event>
    requires IsRun(trace, actions, placeholder) && n <= |actions|
  {
    if n == 0 then []
    else Told(trace, actions, id, placeholder, n - 1) + StepTells(trace[n-1], actions[n-1], id, placeholder)
  }

  lemma EventsOfMore(wire: seq<Wire>, w: Wire)
    ensures EventsOf(wire + [w]) ==
            EventsOf(wire) + (if w.Out? && w.frame.event.Some? then [w.frame.event.value] else [])
  {
    assert (wire + [w])[..|wire|] == wire;
  }

  lemma DispatchTells(p: PeerState, e: Event)
    ensures EventsOf(Dispatched(p, e).wire) == EventsOf(p.wire) + if p.closed then [] else [e]
  {
    AddNothing(EventsOf(p.wire));
    EventsOfMore(p.wire, Out(Frame(0, Some(p.sequence + 1), Some(e))));
  }

  lemma ReceiveTells(p: PeerState, payload: Payload, placeholder: string)
    requires !p.closed
    ensures EventsOf(Received(p, payload, placeholder).wire) ==
            EventsOf(p.wire) +
            if payload.token != placeholder then []
            else if payload.op == 2 then [Ready]
            else if payload.op == 6 then [Resumed]
            else []
  {
    var q := p.wire + [In(payload)];
    AddNothing(EventsOf(p.wire));
    EventsOfMore(p.wire, In(payload));
    EventsOfMore(q, Out(Frame(11, None, None)));
    DispatchTells(p.(wire := q, identified := true), Ready);
    DispatchTells(p.(wire := q, identified := true), Resumed);
  }

  /** One step adds to a peer's dispatch frames exactly what it tells that peer. */
  lemma StepTold(s: System, a: Action, id: nat, placeholder: string)
    requires Enabled(s, a)
    ensures id in s.peers ==>
              id in Step(s, a, placeholder).peers
              && EventsOf(Step(s, a, placeholder).peers[id].wire) ==
                   EventsOf(s.peers[id].wire) + StepTells(s, a, id, placeholder)
    ensures id !in s.peers ==>
              StepTells(s, a, id, placeholder) == []
              && (id in Step(s, a, placeholder).peers ==> EventsOf(Step(s, a, placeholder).peers[id].wire) == [])
  {
    if id in s.peers {
      AddNothing(EventsOf(s.peers[id].wire));
      match a
      case Receive(j, payload) =>
        if j == id { ReceiveTells(s.peers[id], payload, placeholder); }
      case Deliver(k) =>
        if s.broadcasts[k].remaining[0] == id { DispatchTells(s.peers[id], s.broadcasts[k].event); }
      case _ =>
    } else {
      EventsOfMore([], Out(Frame(10, None, None)));
      AddNothing([Out(Frame(10, None, None))]);
    }
  }

  /** In every interleaving a peer's dispatch frames are its READY and RESUMED answers and the events
      that were delivered to it, in order, and nothing else. */
  lemma {:induction false} PeersAreTold(trace: seq<System>, actions: seq<Action>, id: nat, placeholder: string, n: nat)
    requires IsRun(trace, actions, placeholder) && n <= |actions|
    ensures Told(trace, actions, id, placeholder, n) ==
            if id in trace[n].peers then EventsOf(trace[n].peers[id].wire) else []
  {
    if n > 0 {
      PeersAreTold(trace, actions, id, placeholder, n - 1);
      StepTold(trace[n-1], actions[n-1], id, placeholder);
    }
  }

  // ----- Whom a broadcast reaches -----

  /** The peers that broadcast k came to, in order. */
  ghost function Reached(trace: seq<System>, actions: seq<Action>, placeholder: string, k: nat, n: nat): seq<nat>
    requires IsRun(trace, actions, placeholder) && n <= |actions|
  {
    if n == 0 then []
    else
      var a := actions[n-1];
      Reached(trace, actions, placeholder, k, n - 1) +
      (if a.Deliver? && a.k == k then [trace[n-1].broadcasts[k].remaining[0]] else [])
  }

  predicate IsClosed(s: System, id: nat)
  {
    id in s.peers && s.peers[id].closed
  }

  /** The peers of the list that it came to, and those that it will come to; none when it was cut at
      a peer that had closed. */
  predicate InOrder(s: System, order: seq<nat>, reached: seq<nat>, remaining: seq<nat>)
  {
    reached + remaining == order ||
    (reached != [] && reached <= order && remaining == [] && IsClosed(s, reached[|reached|-1]))
  }

  lemma StaysClosed(s: System, a: Action, placeholder: string, id: nat)
    requires Enabled(s, a) && IsClosed(s, id)
    ensures IsClosed(Step(s, a, placeholder), id)
  {
  }

  lemma StaysInOrder(s: System, a: Action, placeholder: string, order: seq<nat>, reached: seq<nat>,
                     remaining: seq<nat>)
    requires Enabled(s, a) && InOrder(s, order, reached, remaining)
    ensures InOrder(Step(s, a, placeholder), order, reached, remaining)
  {
    if reached != [] && IsClosed(s, reached[|reached|-1]) { StaysClosed(s, a, placeholder, reached[|reached|-1]); }
  }

  lemma NextReached(s: System, k: nat, placeholder: string, order: seq<nat>, reached: seq<nat>)
    requires Enabled(s, Deliver(k)) && InOrder(s, order, reached, s.broadcasts[k].remaining)
    ensures var next, id := Step(s, Deliver(k), placeholder), s.broadcasts[k].remaining[0];
            InOrder(next, order, reached + [id], next.broadcasts[k].remaining)
  {
    var remaining := s.broadcasts[k].remaining;
    SplitFirst(remaining);
    Associative(reached, [remaining[0]], remaining[1..]);
  }

  lemma BeginsMore(actions: seq<Action>, n: nat)
    requires n < |actions|
    ensures Begins(actions[..n+1]) ==
            Begins(actions[..n]) + (if actions[n].Begin? then [(actions[n].event, actions[n].order)] else [])
  {
    PrefixGrows(actions, n);
  }

  lemma {:induction false} NoneReached(trace: seq<System>, actions: seq<Action>, placeholder: string, k: nat, n: nat)
    requires IsRun(trace, actions, placeholder) && n <= |actions| && k >= |trace[n].broadcasts|
    ensures Reached(trace, actions, placeholder, k, n) == []
  {
    if n > 0 {
      assert |trace[n-1].broadcasts| <= |trace[n].broadcasts|;
      NoneReached(trace, actions, placeholder, k, n - 1);
    }
  }

  /** One broadcast as it began, what it reached so far, and what is left of it. */
  predicate Reaches(s: System, k: nat, begun: (Event, seq<nat>), reached: seq<nat>)
  {
    && k < |s.broadcasts| && s.broadcasts[k].event == begun.0
    && InOrder(s, begun.1, reached, s.broadcasts[k].remaining)
  }

  lemma ReachesMore(s: System, a: Action, placeholder: string, k: nat, begun: (Event, seq<nat>), reached: seq<nat>)
    requires Enabled(s, a) && Reaches(s, k, begun, reached)
    ensures Reaches(Step(s, a, placeholder), k, begun,
                    reached + if a.Deliver? && a.k == k then [s.broadcasts[k].remaining[0]] else [])
  {
    AddNothing(reached);
    if a == Deliver(k) {
      NextReached(s, k, placeholder, begun.1, reached);
    } else {
      StaysInOrder(s, a, placeholder, begun.1, reached, s.broadcasts[k].remaining);
    }
  }

  lemma ReachesFirst(s: System, a: Action, placeholder: string)
    requires a.Begin? && Enabled(s, a)
    ensures Reaches(Step(s, a, placeholder), |s.broadcasts|, (a.event, a.order), [])
  {
    AddNothing(a.order);
  }

  lemma {:induction false} AllBegun(trace: seq<System>, actions: seq<Action>, placeholder: string, n: nat)
    requires IsRun(trace, actions, placeholder) && n <= |actions|
    ensures |trace[n].broadcasts| == |Begins(actions[..n])|
  {
    if n == 0 {
      assert actions[..0] == [];
    } else {
      AllBegun(trace, actions, placeholder, n - 1);
      BeginsMore(actions, n - 1);
    }
  }

  /** In every interleaving there is one broadcast for each that began, with its event, and it reaches
      the peers of its list in order, each once, until one of them had closed. */
  lemma {:induction false} BroadcastsReach(trace: seq<System>, actions: seq<Action>, placeholder: string, n: nat,
                                           k: nat)
    requires IsRun(trace, actions, placeholder) && n <= |actions|
    ensures |trace[n].broadcasts| == |Begins(actions[..n])|
    ensures k < |trace[n].broadcasts| ==>
              Reaches(trace[n], k, Begins(actions[..n])[k], Reached(trace, actions, placeholder, k, n))
  {
    AllBegun(trace, actions, placeholder, n);
    if n > 0 {
      var m := n - 1;
      BroadcastsReach(trace, actions, placeholder, m, k);
      BeginsMore(actions, m);
      if k < |trace[m].broadcasts| {
        ReachesMore(trace[m], actions[m], placeholder, k, Begins(actions[..m])[k],
                    Reached(trace, actions, placeholder, k, m));
      } else if k < |trace[n].broadcasts| {
        NoneReached(trace, actions, placeholder, k, m);
        ReachesFirst(trace[m], actions[m], placeholder);
      }
    }
  }
}
