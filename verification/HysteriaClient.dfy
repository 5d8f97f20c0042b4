/** The client's shared UDP state: the session table that sockets draw from, and the receive loop that
    feeds the reassembly table. */
module HysteriaClient {
  import opened Options
  import opened Bytes
  import HysteriaDatagram
  import opened Reassembly

  type Peer = nat

  /** Where to send: a socket address needs no lookup, a domain does. `text` is the address as written. */
  datatype Target = SocketTarget(peer: Peer, text: seq<byte>) | DomainTarget(text: seq<byte>)

  datatype Session = Session(id: u32, text: seq<byte>, nextPacketId: u16)
  datatype SessionEntry = Ready(session: Session) | Resolving(text: seq<byte>)

  /** How the pending lookup of a domain answers when polled. */
  datatype Lookup = StillResolving | Resolved(peer: Peer) | LookupFailed

  datatype Poll = PollReady(session: Session) | PollPending | PollError

  datatype Sessions = Sessions(nextId: u32, entries: map<Target, SessionEntry>, idToPeer: map<u32, Peer>)

  function Establish(s: Sessions, target: Target, peer: Peer): (Poll, Sessions) {
    var session := Session(s.nextId, target.text, 0);
    (PollReady(session),
     Sessions((s.nextId + 1) % TWO_32, s.entries[target := Ready(session)], s.idToPeer[s.nextId := peer]))
  }

  function GetOrCreate(s: Sessions, target: Target, lookup: Lookup): (Poll, Sessions) {
    if target in s.entries then
      match s.entries[target]
      case Ready(session) => (PollReady(session), s)
      case Resolving(_) =>
        match lookup
        case StillResolving => (PollPending, s)
        case Resolved(peer) => Establish(s, target, peer)
        case LookupFailed => (PollError, s.(entries := s.entries - {target}))
    else
      match target
      case SocketTarget(peer, _) => Establish(s, target, peer)
      case DomainTarget(text) => (PollPending, s.(entries := s.entries[target := Resolving(text)]))
  }

  predicate IsReady(s: Sessions, target: Target) {
    target in s.entries && s.entries[target].Ready?
  }

  /** Taking the next packet id of a ready session. */
  function TakePacketId(s: Sessions, target: Target): (u16, Sessions)
    requires IsReady(s, target)
  {
    var session := s.entries[target].session;
    (session.nextPacketId,
     s.(entries := s.entries[target := Ready(session.(nextPacketId := (session.nextPacketId + 1) % 0x1_0000))]))
  }

  // ----- Runs of sockets sharing the table.

  datatype Action = Get(target: Target, lookup: Lookup) | Take(target: Target)

  function Act(s: Sessions, a: Action): Sessions {
    match a
    case Get(target, lookup) => GetOrCreate(s, target, lookup).1
    case Take(target) => if IsReady(s, target) then TakePacketId(s, target).1 else s
  }

  function ActAll(s: Sessions, actions: seq<Action>): Sessions
    decreases |actions|
  {
    if actions == [] then s else ActAll(Act(s, actions[0]), actions[1..])
  }

  /** A session once ready stays ready under its id, whatever other sockets do between the two locks of a
      send: the session looked up again is there. */
  lemma {:induction false} ReadyStays(s: Sessions, actions: seq<Action>, target: Target)
    requires IsReady(s, target)
    ensures IsReady(ActAll(s, actions), target)
    ensures ActAll(s, actions).entries[target].session.id == s.entries[target].session.id
    ensures ActAll(s, actions).entries[target].session.text == s.entries[target].session.text
    decreases |actions|
  {
    if actions != [] {
      ReadyStays(Act(s, actions[0]), actions[1..], target);
    }
  }

  lemma ReadyIsReady(s: Sessions, target: Target, lookup: Lookup)
    ensures GetOrCreate(s, target, lookup).0.PollReady? <==> IsReady(GetOrCreate(s, target, lookup).1, target)
    ensures IsReady(GetOrCreate(s, target, lookup).1, target) ==>
              GetOrCreate(s, target, lookup).1.entries[target] == Ready(GetOrCreate(s, target, lookup).0.session)
  {
  }

  /** All sessions ever made: which targets they are for, and the peer each was to go to. */
  datatype Log = Log(born: map<Target, nat>, peers: seq<Peer>)

  /** The id of the i-th session; the first is arbitrary. */
  function Id(first: u32, i: nat): u32 {
    (first + i) % TWO_32
  }

  lemma IdsApart(first: u32, a: nat, b: nat)
    requires a < b && b - a < TWO_32
    ensures Id(first, a) != Id(first, b)
  {
  }

  lemma NextId(first: u32, i: nat)
    ensures Id(first, i + 1) == (Id(first, i) + 1) % TWO_32
    ensures Id(first, 0) == first == Id(first, TWO_32)
  {
  }

  ghost predicate BornOk(s: Sessions, first: u32, log: Log, t: Target) {
    && t in log.born && log.born[t] < |log.peers|
    && IsReady(s, t) && s.entries[t].session.id == Id(first, log.born[t])
  }

  ghost predicate PeerOk(s: Sessions, first: u32, log: Log, i: nat)
    requires i < |log.peers|
  {
    Id(first, i) in s.idToPeer && s.idToPeer[Id(first, i)] == log.peers[i]
  }

  /** The i-th session ever made is some target's. */
  ghost predicate IsBorn(log: Log, i: nat) {
    exists t :: t in log.born && log.born[t] == i
  }

  ghost predicate SessionsOk(s: Sessions, first: u32, log: Log) {
    && s.nextId == Id(first, |log.peers|)
    && (forall t :: t in log.born ==> IsReady(s, t))
    && (forall t :: IsReady(s, t) ==> BornOk(s, first, log, t))
    && (forall t, u :: t in log.born && u in log.born && t != u ==> log.born[t] != log.born[u])
    && (forall i :: 0 <= i < |log.peers| ==> IsBorn(log, i))
    && (forall i :: 0 <= i < |log.peers| && |log.peers| - i <= TWO_32 ==> PeerOk(s, first, log, i))
  }

  /** What an action adds to the log: a session, when it makes one. */
  function LogAct(s: Sessions, log: Log, a: Action): Log {
    if a.Get? && !IsReady(s, a.target) && GetOrCreate(s, a.target, a.lookup).0.PollReady? then
      Log(log.born[a.target := |log.peers|],
          log.peers + [if a.target in s.entries && a.lookup.Resolved? then a.lookup.peer
                       else if a.target.SocketTarget? then a.target.peer else 0])
    else log
  }

  function LogAll(s: Sessions, log: Log, actions: seq<Action>): Log
    decreases |actions|
  {
    if actions == [] then log else LogAll(Act(s, actions[0]), LogAct(s, log, actions[0]), actions[1..])
  }

  lemma EstablishKeepsOk(s: Sessions, first: u32, log: Log, target: Target, peer: Peer)
    requires SessionsOk(s, first, log) && !IsReady(s, target)
    ensures SessionsOk(Establish(s, target, peer).1, first, Log(log.born[target := |log.peers|], log.peers + [peer]))
  {
    hide Id;
    var s' := Establish(s, target, peer).1;
    var log' := Log(log.born[target := |log.peers|], log.peers + [peer]);
    NextId(first, |log.peers|);
    forall i | 0 <= i < |log'.peers| && |log'.peers| - i <= TWO_32 ensures PeerOk(s', first, log', i) {
      if i < |log.peers| {
        assert PeerOk(s, first, log, i);
        IdsApart(first, i, |log.peers|);
      }
    }
    forall t | IsReady(s', t) ensures BornOk(s', first, log', t) {
      if t != target { assert BornOk(s, first, log, t); }
    }
    forall i | 0 <= i < |log'.peers| ensures IsBorn(log', i) {
      if i < |log.peers| {
        assert IsBorn(log, i);
        var t :| t in log.born && log.born[t] == i;
        assert t in log'.born && log'.born[t] == i;
      } else {
        assert target in log'.born && log'.born[target] == i;
      }
    }
  }

  lemma TakeKeepsOk(s: Sessions, first: u32, log: Log, target: Target)
    requires SessionsOk(s, first, log) && IsReady(s, target)
    ensures SessionsOk(TakePacketId(s, target).1, first, log)
  {
    hide Id;
    var s' := TakePacketId(s, target).1;
    forall t | IsReady(s', t) ensures BornOk(s', first, log, t) {
      assert BornOk(s, first, log, t);
    }
    forall i | 0 <= i < |log.peers| && |log.peers| - i <= TWO_32 ensures PeerOk(s', first, log, i) {
      assert PeerOk(s, first, log, i);
    }
  }

  lemma OthersKeepOk(s: Sessions, s': Sessions, first: u32, log: Log)
    requires SessionsOk(s, first, log) && s'.nextId == s.nextId && s'.idToPeer == s.idToPeer
    requires forall t :: IsReady(s, t) <==> IsReady(s', t)
    requires forall t :: IsReady(s, t) ==> t in s'.entries && s'.entries[t] == s.entries[t]
    ensures SessionsOk(s', first, log)
  {
    hide Id;
    forall t | IsReady(s', t) ensures BornOk(s', first, log, t) {
      assert BornOk(s, first, log, t);
    }
    forall i | 0 <= i < |log.peers| && |log.peers| - i <= TWO_32 ensures PeerOk(s', first, log, i) {
      assert PeerOk(s, first, log, i);
    }
  }

  lemma ActKeepsOk(s: Sessions, first: u32, log: Log, a: Action)
    requires SessionsOk(s, first, log)
    ensures SessionsOk(Act(s, a), first, LogAct(s, log, a))
  {
    hide SessionsOk, Id;
    if a.Take? {
      if IsReady(s, a.target) { TakeKeepsOk(s, first, log, a.target); }
    } else if LogAct(s, log, a) != log {
      var peer := LogAct(s, log, a).peers[|log.peers|];
      EstablishKeepsOk(s, first, log, a.target, peer);
    } else {
      OthersKeepOk(s, Act(s, a), first, log);
    }
  }

  /** Every run of every number of sockets keeps the session table in order. */
  lemma {:induction false} RunKeepsOk(s: Sessions, first: u32, log: Log, actions: seq<Action>)
    requires SessionsOk(s, first, log)
    ensures SessionsOk(ActAll(s, actions), first, LogAll(s, log, actions))
    decreases |actions|
  {
    hide SessionsOk, Act, LogAct;
    if actions != [] {
      ActKeepsOk(s, first, log, actions[0]);
      RunKeepsOk(Act(s, actions[0]), first, LogAct(s, log, actions[0]), actions[1..]);
    }
  }

  /** So for the first 2^32 sessions, ready sessions have distinct ids, and each id leads to the peer its
      session was made for. */
  lemma SessionsDistinct(s: Sessions, first: u32, log: Log, t: Target, u: Target)
    requires SessionsOk(s, first, log) && |log.peers| <= TWO_32
    requires IsReady(s, t) && IsReady(s, u) && t != u
    ensures s.entries[t].session.id != s.entries[u].session.id
    ensures t in log.born && log.born[t] < |log.peers|
    ensures s.entries[t].session.id in s.idToPeer && s.idToPeer[s.entries[t].session.id] == log.peers[log.born[t]]
  {
    hide Id;
    assert BornOk(s, first, log, t) && BornOk(s, first, log, u);
    assert PeerOk(s, first, log, log.born[t]);
    if log.born[t] < log.born[u] {
      IdsApart(first, log.born[t], log.born[u]);
    } else {
      IdsApart(first, log.born[u], log.born[t]);
    }
  }

  ghost predicate DistinctIds(s: Sessions) {
    forall t, u :: IsReady(s, t) && IsReady(s, u) && t != u ==> s.entries[t].session.id != s.entries[u].session.id
  }

  lemma BornAt(s: Sessions, first: u32, log: Log, i: nat) returns (t: Target)
    requires SessionsOk(s, first, log) && i < |log.peers|
    ensures t in log.born && log.born[t] == i && IsReady(s, t) && s.entries[t].session.id == Id(first, i)
  {
    assert IsBorn(log, i);
    t :| t in log.born && log.born[t] == i;
    assert BornOk(s, first, log, t);
  }

  /** The bound is exact: all ready sessions have different ids as long as no more than 2^32 were made, and
      not one session longer. */
  lemma DistinctUntilWrap(s: Sessions, first: u32, log: Log)
    requires SessionsOk(s, first, log)
    ensures DistinctIds(s) <==> |log.peers| <= TWO_32
  {
    if |log.peers| <= TWO_32 {
      forall t, u | IsReady(s, t) && IsReady(s, u) && t != u
        ensures s.entries[t].session.id != s.entries[u].session.id
      {
        SessionsDistinct(s, first, log, t, u);
      }
    } else {
      NextId(first, 0);
      var t := BornAt(s, first, log, 0);
      var u := BornAt(s, first, log, TWO_32);
      assert t != u && s.entries[t].session.id == s.entries[u].session.id;
    }
  }

  /** The session after that takes the id of the first one, which is still in use, and its peer with it. */
  lemma IdsWrap(s: Sessions, first: u32, log: Log, t: Target, peer: Peer) returns (u: Target)
    requires SessionsOk(s, first, log) && |log.peers| == TWO_32 && !IsReady(s, t)
    ensures u != t && IsReady(s, u) && s.entries[u].session.id == first
    ensures first in s.idToPeer && s.idToPeer[first] == log.peers[0]
    ensures var s' := Establish(s, t, peer).1;
            && IsReady(s', t) && IsReady(s', u) && s'.entries[t].session.id == s'.entries[u].session.id == first
            && s'.idToPeer[first] == peer
  {
    hide Id;
    NextId(first, 0);
    u := BornAt(s, first, log, 0);
    assert PeerOk(s, first, log, 0);
  }

  // ----- What one poll of the table does.

  /** A poll touches its own target only. A socket address is ready at the first poll; a domain waits until its
      lookup answers, under the same text; a failed lookup leaves nothing, so the next poll starts again. */
  lemma PollCases(s: Sessions, target: Target, lookup: Lookup)
    ensures var (r, s') := GetOrCreate(s, target, lookup);
            && s'.entries - {target} == s.entries - {target}
            && (IsReady(s, target) ==> s' == s && r == PollReady(s.entries[target].session))
            && (target !in s.entries && target.SocketTarget? ==> r.PollReady? && s'.idToPeer[s.nextId] == target.peer)
            && (target !in s.entries && target.DomainTarget? ==>
                  r == PollPending && s' == s.(entries := s.entries[target := Resolving(target.text)]))
            && (target in s.entries && s.entries[target].Resolving? ==>
                  match lookup
                  case StillResolving => r == PollPending && s' == s
                  case LookupFailed => r == PollError && target !in s'.entries && s'.idToPeer == s.idToPeer && s'.nextId == s.nextId
                  case Resolved(peer) => r.PollReady? && s'.idToPeer[s.nextId] == peer)
            && (r.PollReady? && !IsReady(s, target) ==>
                  && r.session == Session(s.nextId, target.text, 0)
                  && s'.nextId == (s.nextId + 1) % TWO_32
                  && s'.idToPeer - {s.nextId} == s.idToPeer - {s.nextId})
  {
  }

  // ----- Packet ids.

  /** What a send takes: an id of the session of its target. */
  datatype Taken = Taken(target: Target, sessionId: u32, packetId: u16)

  function Takes(s: Sessions, actions: seq<Action>): seq<Taken>
    decreases |actions|
  {
    if actions == [] then []
    else
      (if actions[0].Take? && IsReady(s, actions[0].target) then
         [Taken(actions[0].target, s.entries[actions[0].target].session.id, TakePacketId(s, actions[0].target).0)]
       else []) + Takes(Act(s, actions[0]), actions[1..])
  }

  /** How many of these belong to a target. */
  function CountOf(ts: seq<Taken>, target: Target): nat {
    if ts == [] then 0 else (if ts[0].target == target then 1 else 0) + CountOf(ts[1..], target)
  }

  /** The next packet id of a target; a session that is made later begins with 0. */
  function NextOf(s: Sessions, target: Target): u16 {
    if IsReady(s, target) then s.entries[target].session.nextPacketId else 0
  }

  lemma ActMovesNext(s: Sessions, a: Action, target: Target)
    ensures NextOf(Act(s, a), target) ==
            if a == Take(target) && IsReady(s, target) then (NextOf(s, target) + 1) % 0x1_0000 else NextOf(s, target)
    ensures IsReady(s, target) ==> IsReady(Act(s, a), target) && Act(s, a).entries[target].session.id == s.entries[target].session.id
  {
  }

  lemma CountFirst(t: Taken, ts: seq<Taken>, target: Target)
    ensures CountOf([t] + ts, target) == (if t.target == target then 1 else 0) + CountOf(ts, target)
  {
    assert ([t] + ts)[1..] == ts;
  }

  /** What the first action of a run takes. */
  function FirstTake(s: Sessions, a: Action): seq<Taken> {
    if a.Take? && IsReady(s, a.target) then
      [Taken(a.target, s.entries[a.target].session.id, NextOf(s, a.target))]
    else []
  }

  lemma TakesFirst(s: Sessions, actions: seq<Action>)
    requires actions != []
    ensures Takes(s, actions) == FirstTake(s, actions[0]) + Takes(Act(s, actions[0]), actions[1..])
    ensures ActAll(s, actions) == ActAll(Act(s, actions[0]), actions[1..])
  {
  }

  lemma FirstTakeIs(s: Sessions, a: Action)
    ensures FirstTake(s, a) == [] || (FirstTake(s, a) == [FirstTake(s, a)[0]] && a.Take? && FirstTake(s, a)[0].target == a.target)
    ensures FirstTake(s, a) != [] ==>
      var t := FirstTake(s, a)[0];
      IsReady(s, t.target) && t.packetId == NextOf(s, t.target) && t.sessionId == s.entries[t.target].session.id
    ensures a.Take? && IsReady(s, a.target) <==> FirstTake(s, a) != []
  {
  }

  lemma NextIsSum(n: u16, c: nat)
    ensures ((n + 1) % 0x1_0000 + c) % 0x1_0000 == (n + 1 + c) % 0x1_0000 && n % 0x1_0000 == n
  {
  }

  /** The i-th of these ids counts on from where its session was at the start, under the id it has at the end. */
  ghost predicate CountsUp(s: Sessions, ts: seq<Taken>, end: Sessions, i: nat)
    requires i < |ts|
  {
    var t := ts[i];
    && t.packetId == (NextOf(s, t.target) + CountOf(ts[..i], t.target)) % 0x1_0000
    && IsReady(end, t.target) && end.entries[t.target].session.id == t.sessionId
  }

  lemma CountsOn(s: Sessions, a: Action, rest: seq<Taken>, end: Sessions, i: nat)
    requires i < |rest| && CountsUp(Act(s, a), rest, end, i)
    ensures CountsUp(s, FirstTake(s, a) + rest, end, |FirstTake(s, a)| + i)
  {
    var head, t := FirstTake(s, a), rest[i];
    FirstTakeIs(s, a);
    ActMovesNext(s, a, t.target);
    hide FirstTake, NextOf, Act, IsReady, CountOf;
    if head == [] {
      assert [] + rest == rest;
    } else {
      assert (head + rest)[..1 + i] == [head[0]] + rest[..i];
      CountFirst(head[0], rest[..i], t.target);
      NextIsSum(NextOf(s, t.target), CountOf(rest[..i], t.target));
    }
  }

  lemma FirstCounts(s: Sessions, actions: seq<Action>, rest: seq<Taken>)
    requires actions != [] && FirstTake(s, actions[0]) != []
    ensures CountsUp(s, FirstTake(s, actions[0]) + rest, ActAll(s, actions), 0)
  {
    var head := FirstTake(s, actions[0]);
    FirstTakeIs(s, actions[0]);
    ReadyStays(s, actions, head[0].target);
    hide FirstTake, NextOf, IsReady;
    assert (head + rest)[..0] == [];
    NextIsSum(NextOf(s, head[0].target), 0);
  }

  /** Whatever other sockets do between, the packet ids of a session count up by one from where it is, and from 0
      if it is made in this run. */
  lemma {:induction false} TakesCountUp(s: Sessions, actions: seq<Action>, i: nat)
    requires i < |Takes(s, actions)|
    ensures CountsUp(s, Takes(s, actions), ActAll(s, actions), i)
    decreases |actions|
  {
    assert actions != [];
    var a := actions[0];
    var head, rest := FirstTake(s, a), Takes(Act(s, a), actions[1..]);
    TakesFirst(s, actions);
    FirstTakeIs(s, a);
    hide Takes, Act, ActAll, CountsUp, FirstTake;
    if i < |head| {
      FirstCounts(s, actions, rest);
    } else {
      TakesCountUp(Act(s, a), actions[1..], i - |head|);
      CountsOn(s, a, rest, ActAll(s, actions), i - |head|);
    }
  }

  lemma {:induction false} CountAppend(a: seq<Taken>, b: seq<Taken>, target: Target)
    ensures CountOf(a + b, target) == CountOf(a, target) + CountOf(b, target)
  {
    if a == [] {
      assert a + b == b;
    } else {
      CountAppend(a[1..], b, target);
      assert a == [a[0]] + a[1..] && a + b == [a[0]] + (a[1..] + b);
      CountFirst(a[0], a[1..], target);
      CountFirst(a[0], a[1..] + b, target);
    }
  }

  /** So two sends have the same session and packet id only if they are to one target, and a multiple of 2^16 of
      its sends lies between: for the first 2^32 sessions. */
  lemma KeysRepeatExactly(s: Sessions, first: u32, log: Log, actions: seq<Action>, i: nat, j: nat)
    requires SessionsOk(s, first, log) && |LogAll(s, log, actions).peers| <= TWO_32
    requires i < j < |Takes(s, actions)|
    ensures var ts := Takes(s, actions);
            ts[i].sessionId == ts[j].sessionId && ts[i].packetId == ts[j].packetId <==>
            ts[i].target == ts[j].target && CountOf(ts[i..j], ts[i].target) % 0x1_0000 == 0
  {
    var ts, end := Takes(s, actions), ActAll(s, actions);
    TakesCountUp(s, actions, i);
    TakesCountUp(s, actions, j);
    RunKeepsOk(s, first, log, actions);
    hide Takes, ActAll, LogAll, NextOf, CountOf, SessionsOk, IsReady;
    if ts[i].target == ts[j].target {
      assert ts[..j] == ts[..i] + ts[i..j];
      CountAppend(ts[..i], ts[i..j], ts[i].target);
      SameModulo(NextOf(s, ts[i].target) + CountOf(ts[..i], ts[i].target), CountOf(ts[i..j], ts[i].target));
    } else {
      SessionsDistinct(end, first, LogAll(s, log, actions), ts[i].target, ts[j].target);
    }
  }

  lemma SameModulo(a: nat, b: nat)
    ensures a % 0x1_0000 == (a + b) % 0x1_0000 <==> b % 0x1_0000 == 0
  {
  }

  lemma {:induction false} CountBound(ts: seq<Taken>, target: Target)
    ensures CountOf(ts, target) <= |ts|
    ensures ts != [] && ts[0].target == target ==> CountOf(ts, target) > 0
  {
    if ts != [] { CountBound(ts[1..], target); }
  }

  /** In particular the keys of fewer than 2^16 sends in a row are all different. */
  lemma KeysDiffer(s: Sessions, first: u32, log: Log, actions: seq<Action>, i: nat, j: nat)
    requires SessionsOk(s, first, log) && |LogAll(s, log, actions).peers| <= TWO_32
    requires i < j < |Takes(s, actions)| && j - i < 0x1_0000
    ensures var ts := Takes(s, actions); (ts[i].sessionId, ts[i].packetId) != (ts[j].sessionId, ts[j].packetId)
  {
    var ts := Takes(s, actions);
    KeysRepeatExactly(s, first, log, actions, i, j);
    CountBound(ts[i..j], ts[i].target);
  }

  // ----- From datagrams to fragments.

  function FragOf(f: HysteriaDatagram.Fragment): Frag {
    Frag((f.sessionId, f.packetId), f.fragId, f.fragCount, f.payload)
  }

  lemma {:induction false} SliceAt(ds: seq<seq<byte>>, i: nat)
    requires i < |ds|
    ensures |HysteriaDatagram.Slices(ds)| == |ds| && HysteriaDatagram.Slices(ds)[i] == HysteriaDatagram.PayloadOf(ds[i])
  {
    if i < |ds| - 1 {
      SliceAt(ds[..|ds| - 1], i);
    } else if |ds| > 1 {
      SliceAt(ds[..|ds| - 1], 0);
    }
  }

  /** Every datagram of a packet that was sent is parsed into an honest fragment of it. */
  lemma SentIsHonest(c: HysteriaDatagram.Cut, ds: seq<seq<byte>>, sent: Sent, i: nat)
    requires c.Valid() && HysteriaDatagram.Covers(c, ds) && |ds| == c.count as int && i < |ds|
    requires (c.sessionId, c.packetId) in sent && sent[(c.sessionId, c.packetId)] == HysteriaDatagram.Slices(ds)
    ensures HysteriaDatagram.Parse(ds[i]).Some? && Honest(sent, FragOf(HysteriaDatagram.Parse(ds[i]).value))
  {
    assert HysteriaDatagram.IsDatagram(c, i, ds[i]);
    SliceAt(ds, i);
  }

  /** Sending and reassembling are inverse: in any run in which the entry is kept and the fragments of all
      datagrams arrive, in whatever order and however often, exactly the payload comes out, and it does so
      with the last of them. */
  lemma SentIsDelivered(side: Side, w: World, evs: seq<Event>, last: Event, c: HysteriaDatagram.Cut, ds: seq<seq<byte>>)
    requires HysteriaDatagram.Covers(c, ds) && |ds| == c.count as int > 1 && Concat(HysteriaDatagram.Slices(ds)) == c.buf
    requires var k := (c.sessionId, c.packetId);
             && Run(side, w, evs) && Kept(side, w, evs, k) && k !in w.s.table
             && k in w.sent && w.sent[k] == HysteriaDatagram.Slices(ds)
             && Run(side, Final(side, w, evs), [last]) && Kept(side, Final(side, w, evs), [last], k)
             && last.Arrive? && last.frag.key == k
             && Ids(evs, k) < UpTo(|ds|) && Ids(evs, k) + {last.frag.id as nat} == UpTo(|ds|)
    ensures NoneEmitted(side, w, evs, (c.sessionId, c.packetId))
    ensures Emitted(side, Final(side, w, evs), last) == Some(c.buf)
  {
    SliceAt(ds, 0);
    hide Run, Kept, Final, Ids, NoneEmitted, Emitted, HysteriaDatagram.Slices, HysteriaDatagram.Covers;
    LastFragmentCompletes(side, w, evs, last, (c.sessionId, c.packetId));
  }

  /** A packet that fits one datagram comes out as soon as this arrives. */
  lemma SingleIsDelivered(side: Side, w: World, c: HysteriaDatagram.Cut, ds: seq<seq<byte>>, now: nat)
    requires TableOk(w.s.table)
    requires HysteriaDatagram.Covers(c, ds) && |ds| == c.count as int == 1 && Concat(HysteriaDatagram.Slices(ds)) == c.buf
    ensures HysteriaDatagram.Parse(ds[0]).Some?
    ensures Emitted(side, w, Arrive(FragOf(HysteriaDatagram.Parse(ds[0]).value), now)) == Some(c.buf)
  {
    assert HysteriaDatagram.IsDatagram(c, 0, ds[0]);
    SliceAt(ds, 0);
    OneSlice(HysteriaDatagram.Slices(ds));
    hide HysteriaDatagram.Slices, HysteriaDatagram.Parse;
    PruneKeepsTableOk(w.s, now);
  }

  lemma SlotCounts(t: Table)
    requires TableOk(t)
    ensures forall k :: k in t ==> |t[k].frags| == t[k].fragCount as int
  {
  }

  // ----- The state in the program's own form.

  lemma JoinFirst(frags: seq<Option<seq<byte>>>, i: nat)
    requires i < |frags|
    ensures Join(frags[i..]) == (if frags[i].Some? then frags[i].value else []) + Join(frags[i + 1..])
    ensures frags[i].None? ==> Join(frags[i..]) == Join(frags[i + 1..])
  {
    assert frags[i..][1..] == frags[i + 1..] && frags[i..][0] == frags[i];
    assert [] + Join(frags[i + 1..]) == Join(frags[i + 1..]);
  }

  class Hy2UdpState {
    var nextSessionId: u32
    var sessions: map<Target, SessionEntry>
    var idToPeer: map<u32, Peer>
    var reassembly: Table
    var lastPrune: nat

    ghost function S(): Sessions
      reads this
    {
      Sessions(nextSessionId, sessions, idToPeer)
    }

    ghost function R(): State
      reads this
    {
      State(reassembly, lastPrune)
    }

    constructor (first: u32, now: nat)
      ensures S() == Sessions(first, map[], map[]) && SessionsOk(S(), first, Log(map[], []))
      ensures R() == State(map[], now) && TableOk(reassembly)
    {
      nextSessionId, sessions, idToPeer, reassembly, lastPrune := first, map[], map[], map[], now;
    }

    method PollGetOrCreateSession(target: Target, lookup: Lookup) returns (r: Poll)
      modifies this`nextSessionId, this`sessions, this`idToPeer
      ensures (r, S()) == GetOrCreate(old(S()), target, lookup)
    {
      var resolved;
      if target in sessions {
        var entry := sessions[target];
        sessions := sessions - {target};
        match entry {
          case Ready(session) =>
            sessions := sessions[target := entry];
            assert sessions == old(sessions);
            return PollReady(session);
          case Resolving(_) =>
            match lookup {
              case StillResolving =>
                sessions := sessions[target := entry];
                assert sessions == old(sessions);
                return PollPending;
              case LookupFailed =>
                return PollError;
              case Resolved(peer) =>
                resolved := peer;
            }
        }
      } else {
        match target {
          case DomainTarget(text) =>
            sessions := sessions[target := Resolving(text)];
            return PollPending;
          case SocketTarget(peer, _) =>
            resolved := peer;
        }
      }
      var sessionId := nextSessionId;
      nextSessionId := if nextSessionId == 0xFFFF_FFFF then 0 else nextSessionId + 1;
      idToPeer := idToPeer[sessionId := resolved];
      var session := Session(sessionId, target.text, 0);
      sessions := sessions[target := Ready(session)];
      assert sessions == old(sessions)[target := Ready(session)];
      return PollReady(session);
    }

    /** The second lock of a send: the session that was reported ready is looked up again. */
    method NextPacketId(target: Target) returns (sessionId: u32, packetId: u16)
      requires IsReady(S(), target)
      modifies this`sessions
      ensures (packetId, S()) == TakePacketId(old(S()), target)
      ensures sessionId == old(sessions)[target].session.id
    {
      var session := sessions[target].session;
      packetId := session.nextPacketId;
      var next := if packetId == 0xFFFF then 0 else packetId + 1;
      sessions := sessions[target := Ready(session.(nextPacketId := next))];
      sessionId := session.id;
    }

    method PruneReassembly(now: nat)
      modifies this`reassembly, this`lastPrune
      ensures R() == Prune(old(R()), now)
    {
      if Since(now, lastPrune) < PRUNE_INTERVAL && |reassembly| < MAX_ENTRIES {
        return;
      }
      reassembly := map k | k in reassembly && Since(now, reassembly[k].createdAt) <= TTL :: reassembly[k];
      assert reassembly == Retain(old(reassembly), now);
      if |reassembly| > MAX_ENTRIES {
        reassembly := map[];
      }
      lastPrune := now;
    }

    /** The receive loop's handling of one datagram: the payload it completes, and for which peer. */
    method OnDatagram(datagram: seq<byte>, now: nat) returns (out: Option<(Peer, seq<byte>)>)
      requires TableOk(reassembly)
      modifies this`reassembly, this`lastPrune
      ensures TableOk(reassembly)
      ensures HysteriaDatagram.Parse(datagram).None? ==> out == None && R() == old(R())
      ensures HysteriaDatagram.Parse(datagram).Some? ==>
                var f := HysteriaDatagram.Parse(datagram).value;
                if f.sessionId !in idToPeer then out == None && R() == Prune(old(R()), now)
                else
                  && R() == Receive(Client, old(R()), FragOf(f), now).0
                  && var payload := Receive(Client, old(R()), FragOf(f), now).1;
                  out == if payload.None? then None else Some((idToPeer[f.sessionId], payload.value))
    {
      hide TableOk, Accept, Prune, HysteriaDatagram.Parse;
      var parsed := HysteriaDatagram.Parse(datagram);
      if parsed.None? {
        return None;
      }
      var f := FragOf(parsed.value);
      PruneKeepsTableOk(R(), now);
      PruneReassembly(now);
      if f.key.0 !in idToPeer {
        return None;
      }
      AcceptKeepsTableOk(Client, reassembly, f, now);
      var payload := AcceptFragment(f, now);
      return if payload.None? then None else Some((idToPeer[f.key.0], payload.value));
    }

    method AcceptFragment(f: Frag, now: nat) returns (out: Option<seq<byte>>)
      requires TableOk(reassembly)
      modifies this`reassembly
      ensures (reassembly, out) == Accept(Client, old(reassembly), f, now)
    {
      SlotCounts(reassembly);
      hide EntryOk, Join;
      if f.count <= 1 {
        return Some(f.payload);
      }
      if f.key !in reassembly {
        reassembly := reassembly[f.key := Entry(f.count, seq(f.count, i => None), 0, now)];
      }
      var entry := reassembly[f.key];
      assert entry == Open(old(reassembly), f, now);
      if entry.fragCount != f.count {
        reassembly := reassembly - {f.key};
        assert reassembly == old(reassembly) - {f.key};
        return None;
      }
      if Since(now, entry.createdAt) > TTL {
        reassembly := reassembly - {f.key};
        assert reassembly == old(reassembly) - {f.key};
        return None;
      }
      assert reassembly == old(reassembly)[f.key := entry];
      if f.id >= f.count {
        return None;
      }
      if entry.frags[f.id].None? {
        entry := entry.(frags := entry.frags[f.id := Some(f.payload)],
                        received := SaturatingInc(entry.received));
        reassembly := reassembly[f.key := entry];
      }
      if entry.received == f.count {
        var joined := JoinFrags(entry.frags);
        reassembly := reassembly - {f.key};
        assert reassembly == old(reassembly) - {f.key};
        return Some(joined);
      }
      assert reassembly == old(reassembly)[f.key := entry];
      return None;
    }

    static method JoinFrags(frags: seq<Option<seq<byte>>>) returns (out: seq<byte>)
      ensures out == Join(frags)
    {
      out := [];
      var i := 0;
      while i < |frags|
        invariant 0 <= i <= |frags|
        invariant out + Join(frags[i..]) == Join(frags)
      {
        hide Join;
        JoinFirst(frags, i);
        if frags[i].Some? {
          Associative(out, frags[i].value, Join(frags[i + 1..]));
          out := out + frags[i].value;
        }
        i := i + 1;
      }
      assert Join(frags[|frags|..]) == [] && out + [] == out;
    }
  }
}
