/** Traffic accounting: connections count bytes, flush them as events into one queue, and the manager
    adds the events up. No byte is lost or counted twice, whatever the interleaving. */
module Traffic {

  type Uuid = nat
  type Peer = nat

  // ----- Sums over maps.

  ghost function Sum<K>(m: map<K, nat>): nat {
    if m == map[] then 0 else var k :| k in m; m[k] + Sum(m - {k})
  }

  lemma {:induction false} SumSplit<K>(m: map<K, nat>, k: K)
    requires k in m
    ensures Sum(m) == m[k] + Sum(m - {k})
    decreases |m|
  {
    var j :| j in m && Sum(m) == m[j] + Sum(m - {j});
    if j != k {
      SumSplit(m - {j}, k);
      SumSplit(m - {k}, j);
      assert m - {j} - {k} == m - {k} - {j};
    }
  }

  function At<K>(m: map<K, nat>, k: K): nat {
    if k in m then m[k] else 0
  }

  lemma SumRemove<K>(m: map<K, nat>, k: K)
    ensures Sum(m - {k}) == Sum(m) - At(m, k)
  {
    if k in m { SumSplit(m, k); } else { assert m - {k} == m; }
  }

  lemma SumSet<K>(m: map<K, nat>, k: K, n: nat)
    ensures Sum(m[k := n]) == Sum(m) - At(m, k) + n
  {
    SumSplit(m[k := n], k);
    assert m[k := n] - {k} == m - {k};
    SumRemove(m, k);
  }

  // ----- Events.

  /** The two directions are counted alike. */
  datatype Dir = Up | Down

  datatype EventType =
    | New(udp: bool)
    | SetStopper
    | Read(n: nat)
    | Write(n: nat)
    | RecvFrom(peer: Peer, n: nat)
    | SendTo(peer: Peer, n: nat)
    | CloseConnection

  datatype Event = Event(uuid: Uuid, events: seq<EventType>)

  predicate IsTraffic(e: EventType) {
    e.Read? || e.Write? || e.RecvFrom? || e.SendTo?
  }

  function Amount(e: EventType, d: Dir): nat {
    match e
    case Read(n) => if d.Down? then n else 0
    case RecvFrom(_, n) => if d.Down? then n else 0
    case Write(n) => if d.Up? then n else 0
    case SendTo(_, n) => if d.Up? then n else 0
    case _ => 0
  }

  function Amounts(es: seq<EventType>, d: Dir): nat {
    if es == [] then 0 else Amount(es[0], d) + Amounts(es[1..], d)
  }

  lemma {:induction false} AmountsAppend(a: seq<EventType>, b: seq<EventType>, d: Dir)
    ensures Amounts(a + b, d) == Amounts(a, d) + Amounts(b, d)
  {
    if a == [] {
      assert a + b == b;
    } else {
      AmountsAppend(a[1..], b, d);
      assert a + b == [a[0]] + (a[1..] + b);
    }
  }

  // ----- The manager's state.

  /** Connections known to the manager, the totals, and what connections had when they were closed. */
  datatype Global = Global(up: map<Uuid, nat>, down: map<Uuid, nat>, totalUp: nat, totalDown: nat,
                           closedUp: nat, closedDown: nat) {
    function Total(d: Dir): nat { if d.Up? then totalUp else totalDown }
  }

  function InputOne(g: Global, u: Uuid, e: EventType): Global {
    match e
    case New(_) => g.(up := g.up[u := 0], down := g.down[u := 0])
    case SetStopper => g
    case CloseConnection =>
      g.(up := g.up - {u}, down := g.down - {u}, closedUp := g.closedUp + At(g.up, u), closedDown := g.closedDown + At(g.down, u))
    case _ =>
      if u !in g.up || u !in g.down then g
      else
        g.(up := g.up[u := g.up[u] + Amount(e, Up)], down := g.down[u := g.down[u] + Amount(e, Down)],
           totalUp := g.totalUp + Amount(e, Up), totalDown := g.totalDown + Amount(e, Down))
  }

  function Input(g: Global, u: Uuid, es: seq<EventType>): Global
    decreases |es|
  {
    if es == [] then g else Input(InputOne(g, u, es[0]), u, es[1..])
  }

  /** Totals are live plus closed per-connection sums. */
  ghost predicate GlobalOk(g: Global) {
    && g.up.Keys == g.down.Keys
    && g.totalUp == Sum(g.up) + g.closedUp
    && g.totalDown == Sum(g.down) + g.closedDown
  }

  // ----- Replaying a queue: who is connected when, and that no event comes for anybody else.

  function KeysOne(keys: set<Uuid>, u: Uuid, e: EventType): set<Uuid> {
    match e
    case New(_) => keys + {u}
    case CloseConnection => keys - {u}
    case _ => keys
  }

  predicate EventOk(keys: set<Uuid>, u: Uuid, e: EventType) {
    match e
    case New(_) => u !in keys
    case SetStopper => true
    case _ => u in keys
  }

  function KeysEvents(keys: set<Uuid>, u: Uuid, es: seq<EventType>): set<Uuid>
    decreases |es|
  {
    if es == [] then keys else KeysEvents(KeysOne(keys, u, es[0]), u, es[1..])
  }

  predicate EventsOk(keys: set<Uuid>, u: Uuid, es: seq<EventType>)
    decreases |es|
  {
    es != [] ==> EventOk(keys, u, es[0]) && EventsOk(KeysOne(keys, u, es[0]), u, es[1..])
  }

  function KeysQueue(keys: set<Uuid>, q: seq<Event>): set<Uuid>
    decreases |q|
  {
    if q == [] then keys else KeysQueue(KeysEvents(keys, q[0].uuid, q[0].events), q[1..])
  }

  predicate QueueOk(keys: set<Uuid>, q: seq<Event>)
    decreases |q|
  {
    q != [] ==> EventsOk(keys, q[0].uuid, q[0].events) && QueueOk(KeysEvents(keys, q[0].uuid, q[0].events), q[1..])
  }

  function Queued(q: seq<Event>, d: Dir): nat {
    if q == [] then 0 else Amounts(q[0].events, d) + Queued(q[1..], d)
  }

  lemma {:induction false} QueueAppend(keys: set<Uuid>, q: seq<Event>, e: Event)
    ensures KeysQueue(keys, q + [e]) == KeysEvents(KeysQueue(keys, q), e.uuid, e.events)
    ensures QueueOk(keys, q + [e]) <==> QueueOk(keys, q) && EventsOk(KeysQueue(keys, q), e.uuid, e.events)
    ensures forall d :: Queued(q + [e], d) == Queued(q, d) + Amounts(e.events, d)
    decreases |q|
  {
    if q == [] {
      assert q + [e] == [e];
    } else {
      assert (q + [e])[1..] == q[1..] + [e];
      QueueAppend(KeysEvents(keys, q[0].uuid, q[0].events), q[1..], e);
    }
  }

  lemma TrafficOk(g: Global, u: Uuid, e: EventType)
    requires GlobalOk(g) && IsTraffic(e) && u in g.up
    ensures GlobalOk(InputOne(g, u, e))
    ensures InputOne(g, u, e).up.Keys == g.up.Keys
  {
    hide Sum;
    SumSet(g.up, u, g.up[u] + Amount(e, Up));
    SumSet(g.down, u, g.down[u] + Amount(e, Down));
  }

  /** Traffic and closing of a connection that is not known change nothing. */
  lemma InputOneOk(g: Global, u: Uuid, e: EventType)
    requires GlobalOk(g) && (e.New? ==> u !in g.up)
    ensures GlobalOk(InputOne(g, u, e))
    ensures InputOne(g, u, e).up.Keys == KeysOne(g.up.Keys, u, e)
    ensures forall d :: InputOne(g, u, e).Total(d) == g.Total(d) + (if u in g.up then Amount(e, d) else 0)
    ensures u !in g.up && !e.New? ==> InputOne(g, u, e) == g
  {
    hide Sum;
    if IsTraffic(e) {
      if u in g.up { TrafficOk(g, u, e); }
    } else if e.New? {
      SumSet(g.up, u, 0);
      SumSet(g.down, u, 0);
    } else {
      SumRemove(g.up, u);
      SumRemove(g.down, u);
      if u !in g.up { assert g.up - {u} == g.up && g.down - {u} == g.down; }
    }
  }

  lemma {:induction false} InputOk(g: Global, u: Uuid, es: seq<EventType>)
    requires GlobalOk(g) && EventsOk(g.up.Keys, u, es)
    ensures GlobalOk(Input(g, u, es))
    ensures Input(g, u, es).up.Keys == KeysEvents(g.up.Keys, u, es)
    ensures forall d :: Input(g, u, es).Total(d) == g.Total(d) + Amounts(es, d)
    decreases |es|
  {
    hide InputOne, GlobalOk, KeysOne;
    if es != [] {
      InputOneOk(g, u, es[0]);
      InputOk(InputOne(g, u, es[0]), u, es[1..]);
    }
  }

  // ----- Connections.

  /** What a connection has counted and not flushed; UDP counts per peer. */
  datatype Conn = Tcp(read: nat, write: nat) | Udp(recvFrom: map<Peer, nat>, sendTo: map<Peer, nat>)

  ghost function Pending(c: Conn, d: Dir): nat {
    match c
    case Tcp(r, w) => if d.Down? then r else w
    case Udp(r, s) => if d.Down? then Sum(r) else Sum(s)
  }

  function Empty(udp: bool): Conn {
    if udp then Udp(map[], map[]) else Tcp(0, 0)
  }

  function CountTcp(c: Conn, d: Dir, n: nat): Conn
    requires c.Tcp?
  {
    if d.Down? then c.(read := c.read + n) else c.(write := c.write + n)
  }

  function CountUdp(c: Conn, d: Dir, p: Peer, n: nat): Conn
    requires c.Udp?
  {
    if d.Down? then c.(recvFrom := c.recvFrom[p := At(c.recvFrom, p) + n])
    else c.(sendTo := c.sendTo[p := At(c.sendTo, p) + n])
  }

  /** The keys of a map in the arbitrary order a drain yields them. */
  ghost predicate Lists(ps: seq<Peer>, m: map<Peer, nat>) {
    && (forall p :: p in m <==> p in ps)
    && forall i, j :: 0 <= i < j < |ps| ==> ps[i] != ps[j]
  }

  function RecvEvents(ps: seq<Peer>, m: map<Peer, nat>): seq<EventType> {
    seq(|ps|, i requires 0 <= i < |ps| => RecvFrom(ps[i], At(m, ps[i])))
  }

  function SendEvents(ps: seq<Peer>, m: map<Peer, nat>): seq<EventType> {
    seq(|ps|, i requires 0 <= i < |ps| => SendTo(ps[i], At(m, ps[i])))
  }

  function TcpEvents(c: Conn): seq<EventType>
    requires c.Tcp?
  {
    (if c.read > 0 then [Read(c.read)] else []) + (if c.write > 0 then [Write(c.write)] else [])
  }

  ghost predicate Flushes(c: Conn, es: seq<EventType>) {
    match c
    case Tcp(_, _) => es == TcpEvents(c)
    case Udp(r, s) => exists ps, qs :: Lists(ps, r) && Lists(qs, s) && es == RecvEvents(ps, r) + SendEvents(qs, s)
  }

  function Flushed(c: Conn): Conn {
    Empty(c.Udp?)
  }

  lemma ListsRest(ps: seq<Peer>, m: map<Peer, nat>)
    requires Lists(ps, m) && ps != []
    ensures ps[0] in m && Lists(ps[1..], m - {ps[0]})
  {
    var rest := ps[1..];
    forall p ensures p in m - {ps[0]} <==> p in rest {
      if p in rest { var i :| 0 <= i < |rest| && rest[i] == p; assert ps[i + 1] == p; }
    }
  }

  lemma EventsRest(ps: seq<Peer>, m: map<Peer, nat>)
    requires Lists(ps, m) && ps != []
    ensures RecvEvents(ps, m) == [RecvFrom(ps[0], At(m, ps[0]))] + RecvEvents(ps[1..], m - {ps[0]})
    ensures SendEvents(ps, m) == [SendTo(ps[0], At(m, ps[0]))] + SendEvents(ps[1..], m - {ps[0]})
  {
    forall i | 1 <= i < |ps| ensures At(m, ps[i]) == At(m - {ps[0]}, ps[1..][i - 1]) {
      assert ps[i] != ps[0];
    }
  }

  lemma NoneListed(m: map<Peer, nat>)
    requires Lists([], m)
    ensures Sum(m) == 0
  {
    assert m == map[];
  }

  lemma AmountsFirst(e: EventType, es: seq<EventType>, d: Dir)
    ensures Amounts([e] + es, d) == Amount(e, d) + Amounts(es, d)
  {
    assert ([e] + es)[1..] == es;
  }

  lemma {:induction false} RecvAmounts(ps: seq<Peer>, m: map<Peer, nat>, d: Dir)
    requires Lists(ps, m)
    ensures Amounts(RecvEvents(ps, m), d) == if d.Down? then Sum(m) else 0
    decreases |ps|
  {
    if ps == [] {
      NoneListed(m);
    } else {
      ListsRest(ps, m);
      EventsRest(ps, m);
      hide Lists, RecvEvents, Amounts, Sum;
      var m' := m - {ps[0]};
      RecvAmounts(ps[1..], m', d);
      SumSplit(m, ps[0]);
      AmountsFirst(RecvFrom(ps[0], At(m, ps[0])), RecvEvents(ps[1..], m'), d);
    }
  }

  lemma {:induction false} SendAmounts(ps: seq<Peer>, m: map<Peer, nat>, d: Dir)
    requires Lists(ps, m)
    ensures Amounts(SendEvents(ps, m), d) == if d.Up? then Sum(m) else 0
    decreases |ps|
  {
    if ps == [] {
      NoneListed(m);
    } else {
      ListsRest(ps, m);
      EventsRest(ps, m);
      hide Lists, SendEvents, Amounts, Sum;
      var m' := m - {ps[0]};
      SendAmounts(ps[1..], m', d);
      SumSplit(m, ps[0]);
      AmountsFirst(SendTo(ps[0], At(m, ps[0])), SendEvents(ps[1..], m'), d);
    }
  }

  lemma TcpAmounts(r: nat, w: nat, d: Dir)
    ensures Amounts(TcpEvents(Tcp(r, w)), d) == Pending(Tcp(r, w), d)
  {
    var first, second := if r > 0 then [Read(r)] else [], if w > 0 then [Write(w)] else [];
    AmountsAppend(first, second, d);
    if r > 0 { AmountsFirst(Read(r), [], d); }
    if w > 0 { AmountsFirst(Write(w), [], d); }
    assert first == (if r > 0 then [Read(r)] + [] else []) && second == (if w > 0 then [Write(w)] + [] else []);
  }

  /** A flush takes all a connection has pending, as traffic only. */
  lemma FlushTakesAll(c: Conn, es: seq<EventType>, d: Dir)
    requires Flushes(c, es)
    ensures Amounts(es, d) == Pending(c, d) && Pending(Flushed(c), d) == 0
    ensures forall i :: 0 <= i < |es| ==> IsTraffic(es[i])
  {
    SumEmpty<Peer>(map[]);
    hide Sum, Lists, Amounts;
    match c {
      case Tcp(r, w) =>
        TcpAmounts(r, w, d);
      case Udp(r, s) =>
        var ps, qs :| Lists(ps, r) && Lists(qs, s) && es == RecvEvents(ps, r) + SendEvents(qs, s);
        RecvAmounts(ps, r, d);
        SendAmounts(qs, s, d);
        AmountsAppend(RecvEvents(ps, r), SendEvents(qs, s), d);
    }
  }

  lemma {:induction false} TrafficKeepsKeys(keys: set<Uuid>, u: Uuid, es: seq<EventType>)
    requires u in keys && forall i :: 0 <= i < |es| ==> IsTraffic(es[i])
    ensures EventsOk(keys, u, es) && KeysEvents(keys, u, es) == keys
    decreases |es|
  {
    if es != [] {
      assert IsTraffic(es[0]);
      TrafficKeepsKeys(keys, u, es[1..]);
    }
  }

  // ----- The whole system.

  /** `counted` is all that connections ever counted. */
  datatype System = System(live: map<Uuid, Conn>, queue: seq<Event>, g: Global, countedUp: nat, countedDown: nat) {
    function Counted(d: Dir): nat { if d.Up? then countedUp else countedDown }
  }

  datatype Step =
    | Open(u: Uuid, udp: bool)
    | TcpCount(u: Uuid, d: Dir, n: nat)
    | UdpCount(u: Uuid, d: Dir, p: Peer, n: nat)
    | Heartbeat(u: Uuid, es: seq<EventType>)
    | Drop(u: Uuid, es: seq<EventType>)
    | Deliver

  /** New connections have new ids; a flush yields what is pending, in some order. */
  ghost predicate Enabled(s: System, step: Step) {
    match step
    case Open(u, _) => u !in s.live
    case TcpCount(u, _, _) => u in s.live && s.live[u].Tcp?
    case UdpCount(u, _, _, _) => u in s.live && s.live[u].Udp?
    case Heartbeat(u, es) => u in s.live && Flushes(s.live[u], es)
    case Drop(u, es) => u in s.live && Flushes(s.live[u], es)
    case Deliver => s.queue != []
  }

  /** An empty list of events is not sent. */
  function Send(q: seq<Event>, u: Uuid, es: seq<EventType>): seq<Event> {
    if es == [] then q else q + [Event(u, es)]
  }

  function Count(s: System, u: Uuid, c: Conn, d: Dir, n: nat): System {
    s.(live := s.live[u := c], countedUp := s.countedUp + (if d.Up? then n else 0),
       countedDown := s.countedDown + (if d.Down? then n else 0))
  }

  function Next(s: System, step: Step): System
    requires Enabled(s, step)
  {
    match step
    case Open(u, udp) => s.(live := s.live[u := Empty(udp)], queue := Send(s.queue, u, [New(udp), SetStopper]))
    case TcpCount(u, d, n) => Count(s, u, CountTcp(s.live[u], d, n), d, n)
    case UdpCount(u, d, p, n) => Count(s, u, CountUdp(s.live[u], d, p, n), d, n)
    case Heartbeat(u, es) => s.(live := s.live[u := Flushed(s.live[u])], queue := Send(s.queue, u, es))
    case Drop(u, es) => s.(live := s.live - {u}, queue := Send(Send(s.queue, u, es), u, [CloseConnection]))
    case Deliver => s.(queue := s.queue[1..], g := Input(s.g, s.queue[0].uuid, s.queue[0].events))
  }

  ghost function PendingOf(live: map<Uuid, Conn>, d: Dir): map<Uuid, nat> {
    map u | u in live :: Pending(live[u], d)
  }

  /** Conservation: what reached the totals, what is queued and what is not flushed is all there is. */
  ghost predicate Conserved(s: System, d: Dir) {
    s.g.Total(d) + Queued(s.queue, d) + Sum(PendingOf(s.live, d)) == s.Counted(d)
  }

  ghost predicate Inv(s: System) {
    && GlobalOk(s.g)
    && QueueOk(s.g.up.Keys, s.queue)
    && KeysQueue(s.g.up.Keys, s.queue) == s.live.Keys
    && Conserved(s, Up) && Conserved(s, Down)
  }

  function Start(): System {
    System(map[], [], Global(map[], map[], 0, 0, 0, 0), 0, 0)
  }

  lemma StartInv()
    ensures Inv(Start())
  {
    hide Sum, PendingOf, QueueOk, KeysQueue, GlobalOk, Conserved;
    StartGlobalOk();
    StartConserved(Up);
    StartConserved(Down);
    NothingQueued({});
    assert Start().g.up.Keys == {} && Start().live.Keys == {};
  }

  lemma StartGlobalOk()
    ensures GlobalOk(Start().g)
  {
    SumEmpty<Uuid>(map[]);
    hide Sum;
  }

  lemma StartConserved(d: Dir)
    ensures Conserved(Start(), d)
  {
    SumEmpty(PendingOf(Start().live, d));
    NothingPending();
    hide Sum, PendingOf;
  }

  lemma NothingQueued(keys: set<Uuid>)
    ensures QueueOk(keys, []) && KeysQueue(keys, []) == keys && Queued([], Up) == 0 == Queued([], Down)
  {
  }

  lemma SumEmpty<K>(m: map<K, nat>)
    ensures m == map[] ==> Sum(m) == 0
  {
  }

  lemma NothingPending()
    ensures PendingOf(map[], Up) == map[] && PendingOf(map[], Down) == map[]
  {
  }

  lemma SetPending(live: map<Uuid, Conn>, u: Uuid, c: Conn, d: Dir)
    ensures Sum(PendingOf(live[u := c], d)) == Sum(PendingOf(live, d)) - At(PendingOf(live, d), u) + Pending(c, d)
    ensures Sum(PendingOf(live - {u}, d)) == Sum(PendingOf(live, d)) - At(PendingOf(live, d), u)
  {
    SumSet(PendingOf(live, d), u, Pending(c, d));
    SumRemove(PendingOf(live, d), u);
    assert PendingOf(live[u := c], d) == PendingOf(live, d)[u := Pending(c, d)];
    assert PendingOf(live - {u}, d) == PendingOf(live, d) - {u};
  }

  lemma OpenKeepsInv(s: System, u: Uuid, udp: bool)
    requires Inv(s) && u !in s.live
    ensures Inv(Next(s, Open(u, udp)))
  {
    var es := [New(udp), SetStopper];
    QueueAppend(s.g.up.Keys, s.queue, Event(u, es));
    assert es[1..] == [SetStopper] && [SetStopper][1..] == [];
    assert KeysEvents(s.live.Keys, u, es) == s.live.Keys + {u};
    assert EventsOk(s.live.Keys, u, es);
    forall d ensures Amounts(es, d) == 0 && Sum(PendingOf(s.live[u := Empty(udp)], d)) == Sum(PendingOf(s.live, d)) {
      assert Amounts(es, d) == Amount(es[0], d) + Amounts([SetStopper], d);
      SetPending(s.live, u, Empty(udp), d);
    }
  }

  lemma CountKeepsInv(s: System, u: Uuid, c: Conn, d: Dir, n: nat)
    requires Inv(s) && u in s.live
    requires forall d' :: Pending(c, d') == Pending(s.live[u], d') + (if d' == d then n else 0)
    ensures Inv(Count(s, u, c, d, n))
  {
    forall d' ensures Conserved(Count(s, u, c, d, n), d') {
      SetPending(s.live, u, c, d');
      assert Conserved(s, d');
    }
    assert s.live[u := c].Keys == s.live.Keys;
  }

  lemma CountPending(c: Conn, d: Dir, p: Peer, n: nat, d': Dir)
    ensures c.Tcp? ==> Pending(CountTcp(c, d, n), d') == Pending(c, d') + (if d' == d then n else 0)
    ensures c.Udp? ==> Pending(CountUdp(c, d, p, n), d') == Pending(c, d') + (if d' == d then n else 0)
  {
    if c.Udp? {
      SumSet(c.recvFrom, p, At(c.recvFrom, p) + n);
      SumSet(c.sendTo, p, At(c.sendTo, p) + n);
    }
  }

  lemma SendTraffic(keys: set<Uuid>, q: seq<Event>, u: Uuid, es: seq<EventType>)
    requires QueueOk(keys, q) && u in KeysQueue(keys, q)
    requires forall i :: 0 <= i < |es| ==> IsTraffic(es[i])
    ensures QueueOk(keys, Send(q, u, es)) && KeysQueue(keys, Send(q, u, es)) == KeysQueue(keys, q)
    ensures forall d :: Queued(Send(q, u, es), d) == Queued(q, d) + Amounts(es, d)
  {
    QueueAppend(keys, q, Event(u, es));
    TrafficKeepsKeys(KeysQueue(keys, q), u, es);
  }

  lemma FlushKeepsInv(s: System, u: Uuid, es: seq<EventType>)
    requires Inv(s) && u in s.live && Flushes(s.live[u], es)
    ensures Inv(Next(s, Heartbeat(u, es)))
  {
    hide QueueOk, KeysQueue, Flushes, GlobalOk, Pending;
    var s' := Next(s, Heartbeat(u, es));
    FlushTakesAll(s.live[u], es, Up);
    FlushTakesAll(s.live[u], es, Down);
    SendTraffic(s.g.up.Keys, s.queue, u, es);
    SetPending(s.live, u, Flushed(s.live[u]), Up);
    SetPending(s.live, u, Flushed(s.live[u]), Down);
    assert s'.live.Keys == s.live.Keys;
  }

  lemma CloseKeepsInv(s: System, u: Uuid)
    requires Inv(s) && u in s.live && Pending(s.live[u], Up) == 0 && Pending(s.live[u], Down) == 0
    ensures Inv(s.(live := s.live - {u}, queue := Send(s.queue, u, [CloseConnection])))
  {
    var es := [CloseConnection];
    QueueAppend(s.g.up.Keys, s.queue, Event(u, es));
    assert es[1..] == [];
    assert KeysEvents(s.live.Keys, u, es) == s.live.Keys - {u} && EventsOk(s.live.Keys, u, es);
    assert Amounts(es, Up) == 0 && Amounts(es, Down) == 0;
    SetPending(s.live, u, s.live[u], Up);
    SetPending(s.live, u, s.live[u], Down);
    assert (s.live - {u}).Keys == s.live.Keys - {u};
  }

  lemma DropKeepsInv(s: System, u: Uuid, es: seq<EventType>)
    requires Inv(s) && u in s.live && Flushes(s.live[u], es)
    ensures Inv(Next(s, Drop(u, es)))
  {
    var s1 := Next(s, Heartbeat(u, es));
    FlushKeepsInv(s, u, es);
    FlushTakesAll(s.live[u], es, Up);
    FlushTakesAll(s.live[u], es, Down);
    hide Inv, Flushes, Send;
    CloseKeepsInv(s1, u);
    assert s1.live - {u} == s.live - {u};
  }

  lemma DeliverKeepsInv(s: System)
    requires Inv(s) && s.queue != []
    ensures Inv(Next(s, Deliver))
  {
    hide GlobalOk, Input;
    var e := s.queue[0];
    InputOk(s.g, e.uuid, e.events);
  }

  /** Conservation holds in every state of every run. */
  lemma NextKeepsInv(s: System, step: Step)
    requires Inv(s) && Enabled(s, step)
    ensures Inv(Next(s, step))
  {
    hide Inv;
    match step {
      case Open(u, udp) => OpenKeepsInv(s, u, udp);
      case TcpCount(u, d, n) =>
        forall d' { CountPending(s.live[u], d, 0, n, d'); }
        CountKeepsInv(s, u, CountTcp(s.live[u], d, n), d, n);
      case UdpCount(u, d, p, n) =>
        forall d' { CountPending(s.live[u], d, p, n, d'); }
        CountKeepsInv(s, u, CountUdp(s.live[u], d, p, n), d, n);
      case Heartbeat(u, es) => FlushKeepsInv(s, u, es);
      case Drop(u, es) => DropKeepsInv(s, u, es);
      case Deliver => DeliverKeepsInv(s);
    }
  }

  ghost predicate Run(s: System, steps: seq<Step>)
    decreases |steps|
  {
    steps != [] ==> Enabled(s, steps[0]) && Run(Next(s, steps[0]), steps[1..])
  }

  function After(s: System, steps: seq<Step>): System
    requires Run(s, steps)
    decreases |steps|
  {
    if steps == [] then s else After(Next(s, steps[0]), steps[1..])
  }

  lemma {:induction false} RunKeepsInv(s: System, steps: seq<Step>)
    requires Inv(s) && Run(s, steps)
    ensures Inv(After(s, steps))
    decreases |steps|
  {
    hide Inv, Enabled, Next;
    if steps != [] {
      NextKeepsInv(s, steps[0]);
      RunKeepsInv(Next(s, steps[0]), steps[1..]);
    }
  }

  /** Once all connections are dropped and the queue is drained, the totals are exact, and the manager
      knows no connection any more. */
  lemma DrainedIsExact(steps: seq<Step>)
    requires Run(Start(), steps)
    requires After(Start(), steps).live == map[] && After(Start(), steps).queue == []
    ensures var s := After(Start(), steps);
            && s.g.totalUp == s.countedUp == s.g.closedUp
            && s.g.totalDown == s.countedDown == s.g.closedDown
            && s.g.up == map[] && s.g.down == map[]
  {
    hide Inv, Run, After;
    StartInv();
    RunKeepsInv(Start(), steps);
    ExactWhenDrained(After(Start(), steps));
  }

  lemma ExactWhenDrained(s: System)
    requires Inv(s) && s.live == map[] && s.queue == []
    ensures s.g.totalUp == s.countedUp == s.g.closedUp
    ensures s.g.totalDown == s.countedDown == s.g.closedDown
    ensures s.g.up == map[] && s.g.down == map[]
  {
    NothingPending();
    SumEmpty<Uuid>(map[]);
    hide Sum, PendingOf;
    assert s.g.up.Keys == {} && s.g.down.Keys == {};
    assert s.g.up == map[] && s.g.down == map[];
  }
}
