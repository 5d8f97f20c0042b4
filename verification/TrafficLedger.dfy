/** What the manager shows for each connection: exactly what that connection counted, once its events have arrived. */
module TrafficLedger {
  import opened Traffic

  /** The manager's figure for one connection. */
  function Of(g: Global, u: Uuid, d: Dir): nat {
    At(if d.Up? then g.up else g.down, u)
  }

  ghost predicate SameKeys(g: Global) {
    g.up.Keys == g.down.Keys
  }

  /** An event concerns its own connection only: it starts at nothing, grows by the traffic and ends at nothing. */
  lemma InputOneIs(g: Global, u: Uuid, e: EventType, v: Uuid, d: Dir)
    requires SameKeys(g)
    ensures SameKeys(InputOne(g, u, e)) && InputOne(g, u, e).up.Keys == KeysOne(g.up.Keys, u, e)
    ensures Of(InputOne(g, u, e), v, d) ==
            if v != u || e == SetStopper || u !in g.up then Of(g, v, d)
            else match e
                 case New(_) => 0
                 case CloseConnection => 0
                 case Read(n) => Of(g, v, d) + if d == Down then n else 0
                 case RecvFrom(_, n) => Of(g, v, d) + if d == Down then n else 0
                 case Write(n) => Of(g, v, d) + if d == Up then n else 0
                 case SendTo(_, n) => Of(g, v, d) + if d == Up then n else 0
  {
  }

  lemma {:induction false} TrafficIs(g: Global, u: Uuid, es: seq<EventType>, v: Uuid, d: Dir)
    requires SameKeys(g) && u in g.up && forall i :: 0 <= i < |es| ==> IsTraffic(es[i])
    ensures Of(Input(g, u, es), v, d) == Of(g, v, d) + if v == u then Amounts(es, d) else 0
    decreases |es|
  {
    hide InputOne, Of;
    if es != [] {
      assert IsTraffic(es[0]);
      InputOneIs(g, u, es[0], v, d);
      TrafficIs(InputOne(g, u, es[0]), u, es[1..], v, d);
    }
  }

  lemma {:induction false} InputKeys(g: Global, u: Uuid, es: seq<EventType>)
    requires SameKeys(g)
    ensures SameKeys(Input(g, u, es)) && Input(g, u, es).up.Keys == KeysEvents(g.up.Keys, u, es)
    decreases |es|
  {
    hide InputOne, KeysOne;
    if es != [] {
      InputOneIs(g, u, es[0], u, Up);
      InputKeys(InputOne(g, u, es[0]), u, es[1..]);
    }
  }

  // ----- The manager once the queue has been delivered.

  function Delivered(g: Global, q: seq<Event>): Global
    decreases |q|
  {
    if q == [] then g else Delivered(Input(g, q[0].uuid, q[0].events), q[1..])
  }

  lemma {:induction false} DeliveredAppend(g: Global, q: seq<Event>, e: Event)
    ensures Delivered(g, q + [e]) == Input(Delivered(g, q), e.uuid, e.events)
    decreases |q|
  {
    hide Input;
    if q == [] {
      assert q + [e] == [e];
      assert Delivered(Input(g, e.uuid, e.events), []) == Input(g, e.uuid, e.events);
    } else {
      assert (q + [e])[1..] == q[1..] + [e];
      DeliveredAppend(Input(g, q[0].uuid, q[0].events), q[1..], e);
    }
  }

  lemma {:induction false} DeliveredKeys(g: Global, q: seq<Event>)
    requires SameKeys(g)
    ensures SameKeys(Delivered(g, q)) && Delivered(g, q).up.Keys == KeysQueue(g.up.Keys, q)
    decreases |q|
  {
    hide Input;
    if q != [] {
      InputKeys(g, q[0].uuid, q[0].events);
      DeliveredKeys(Input(g, q[0].uuid, q[0].events), q[1..]);
    }
  }

  ghost function PendingAt(s: System, u: Uuid, d: Dir): nat {
    if u in s.live then Pending(s.live[u], d) else 0
  }

  /** What a connection's figure will be when all it has counted so far has been flushed and delivered. */
  ghost function Ledger(s: System, u: Uuid, d: Dir): nat {
    Of(Delivered(s.g, s.queue), u, d) + PendingAt(s, u, d)
  }

  /** What a step adds to the figure of u; it starts at nothing with the opening and ends with the drop. */
  function Booked(n: nat, step: Step, u: Uuid, d: Dir): nat {
    match step
    case Open(v, _) => if v == u then 0 else n
    case TcpCount(v, dir, m) => if v == u && dir == d then n + m else n
    case UdpCount(v, dir, _, m) => if v == u && dir == d then n + m else n
    case Drop(v, _) => if v == u then 0 else n
    case _ => n
  }

  function BookedAll(n: nat, steps: seq<Step>, u: Uuid, d: Dir): nat
    decreases |steps|
  {
    if steps == [] then n else BookedAll(Booked(n, steps[0], u, d), steps[1..], u, d)
  }

  lemma ManagerKeys(s: System)
    requires Inv(s)
    ensures SameKeys(s.g) && SameKeys(Delivered(s.g, s.queue)) && Delivered(s.g, s.queue).up.Keys == s.live.Keys
  {
    DeliveredKeys(s.g, s.queue);
  }

  lemma SendDelivers(g: Global, q: seq<Event>, u: Uuid, es: seq<EventType>)
    ensures Delivered(g, Send(q, u, es)) == Input(Delivered(g, q), u, es)
  {
    DeliveredAppend(g, q, Event(u, es));
  }

  lemma OpenLedger(s: System, v: Uuid, udp: bool, u: Uuid, d: Dir)
    requires Inv(s) && v !in s.live
    ensures Ledger(Next(s, Open(v, udp)), u, d) == Booked(Ledger(s, u, d), Open(v, udp), u, d)
  {
    ManagerKeys(s);
    var es := [New(udp), SetStopper];
    SendDelivers(s.g, s.queue, v, es);
    var g := Delivered(s.g, s.queue);
    InputOneIs(g, v, es[0], u, d);
    InputOneIs(InputOne(g, v, es[0]), v, SetStopper, u, d);
    assert es[1..] == [SetStopper] && [SetStopper][1..] == [];
    EmptyPending(udp, d);
    hide InputOne, Inv, Delivered, Pending;
    assert Input(g, v, es) == InputOne(InputOne(g, v, es[0]), v, SetStopper);
  }

  lemma EmptyPending(udp: bool, d: Dir)
    ensures Pending(Empty(udp), d) == 0
  {
    SumEmpty<Peer>(map[]);
  }

  lemma HeartbeatLedger(s: System, v: Uuid, es: seq<EventType>, u: Uuid, d: Dir)
    requires Inv(s) && v in s.live && Flushes(s.live[v], es)
    ensures Ledger(Next(s, Heartbeat(v, es)), u, d) == Ledger(s, u, d)
  {
    ManagerKeys(s);
    FlushTakesAll(s.live[v], es, d);
    SendDelivers(s.g, s.queue, v, es);
    TrafficIs(Delivered(s.g, s.queue), v, es, u, d);
    hide Inv, Delivered, Pending, Flushes, Of, Input, Flushed, Amounts;
  }

  lemma CloseLedger(s: System, v: Uuid, u: Uuid, d: Dir)
    requires Inv(s) && v in s.live
    ensures var s' := s.(live := s.live - {v}, queue := Send(s.queue, v, [CloseConnection]));
            Ledger(s', u, d) == if v == u then 0 else Ledger(s, u, d)
  {
    ManagerKeys(s);
    SendDelivers(s.g, s.queue, v, [CloseConnection]);
    var g := Delivered(s.g, s.queue);
    InputOneIs(g, v, CloseConnection, u, d);
    assert [CloseConnection][1..] == [];
    hide InputOne, Inv, Delivered, Pending, Of;
    assert Input(g, v, [CloseConnection]) == InputOne(g, v, CloseConnection);
  }

  lemma DropLedger(s: System, v: Uuid, es: seq<EventType>, u: Uuid, d: Dir)
    requires Inv(s) && v in s.live && Flushes(s.live[v], es)
    ensures Ledger(Next(s, Drop(v, es)), u, d) == Booked(Ledger(s, u, d), Drop(v, es), u, d)
  {
    HeartbeatLedger(s, v, es, u, d);
    FlushKeepsInv(s, v, es);
    var s1 := Next(s, Heartbeat(v, es));
    CloseLedger(s1, v, u, d);
    hide Ledger, Inv, Flushes, Send;
    assert s1.live - {v} == s.live - {v};
  }

  lemma CountLedger(s: System, v: Uuid, c: Conn, dir: Dir, n: nat, u: Uuid, d: Dir)
    requires v in s.live && Pending(c, d) == Pending(s.live[v], d) + (if d == dir then n else 0)
    ensures Ledger(Count(s, v, c, dir, n), u, d) == Ledger(s, u, d) + if v == u && dir == d then n else 0
  {
    hide Delivered, Pending, Of;
  }

  /** One step changes one connection's figure, by what it counted. */
  lemma StepLedger(s: System, step: Step, u: Uuid, d: Dir)
    requires Inv(s) && Enabled(s, step)
    ensures Ledger(Next(s, step), u, d) == Booked(Ledger(s, u, d), step, u, d)
  {
    hide Inv, Ledger;
    match step {
      case Open(v, udp) => OpenLedger(s, v, udp, u, d);
      case TcpCount(v, dir, n) =>
        CountPending(s.live[v], dir, 0, n, d);
        CountLedger(s, v, CountTcp(s.live[v], dir, n), dir, n, u, d);
      case UdpCount(v, dir, p, n) =>
        CountPending(s.live[v], dir, p, n, d);
        CountLedger(s, v, CountUdp(s.live[v], dir, p, n), dir, n, u, d);
      case Heartbeat(v, es) => HeartbeatLedger(s, v, es, u, d);
      case Drop(v, es) => DropLedger(s, v, es, u, d);
      case Deliver => DeliverLedger(s, u, d);
    }
  }

  lemma DeliverLedger(s: System, u: Uuid, d: Dir)
    requires s.queue != []
    ensures Ledger(Next(s, Deliver), u, d) == Ledger(s, u, d)
  {
  }

  lemma {:induction false} RunLedger(s: System, steps: seq<Step>, u: Uuid, d: Dir)
    requires Inv(s) && Run(s, steps)
    ensures Ledger(After(s, steps), u, d) == BookedAll(Ledger(s, u, d), steps, u, d)
    decreases |steps|
  {
    hide Inv, Enabled, Next, Ledger, Booked;
    if steps != [] {
      NextKeepsInv(s, steps[0]);
      StepLedger(s, steps[0], u, d);
      RunLedger(Next(s, steps[0]), steps[1..], u, d);
    }
  }

  /** Over every run: whenever the queue is empty, the figure of each connection and what it has not flushed are
      together what it counted since it was opened, and a connection that is gone has no figure. */
  lemma FiguresAreExact(steps: seq<Step>, u: Uuid, d: Dir)
    requires Run(Start(), steps) && After(Start(), steps).queue == []
    ensures var s := After(Start(), steps);
            && Of(s.g, u, d) + PendingAt(s, u, d) == BookedAll(0, steps, u, d)
            && (u in s.live <==> u in s.g.up) && (u in s.live <==> u in s.g.down)
  {
    hide Inv, Run, After, Ledger, BookedAll;
    StartInv();
    RunLedger(Start(), steps, u, d);
    RunKeepsInv(Start(), steps);
    var s := After(Start(), steps);
    NothingQueuedLedger(s, u, d);
    NothingQueuedLedger(Start(), u, d);
    ManagerKeys(s);
  }

  lemma NothingQueuedLedger(s: System, u: Uuid, d: Dir)
    requires s.queue == []
    ensures Ledger(s, u, d) == Of(s.g, u, d) + PendingAt(s, u, d)
    ensures Delivered(s.g, s.queue) == s.g
  {
  }
}
