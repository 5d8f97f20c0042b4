/** The manager's state and the connections' counters in the program's own form. */
module TrafficManager {
  import opened Traffic

  datatype ConnectionInfo = ConnectionInfo(udp: bool, upload: nat, download: nat)

  ghost function Uploads(c: map<Uuid, ConnectionInfo>): map<Uuid, nat> {
    map u | u in c :: c[u].upload
  }

  ghost function Downloads(c: map<Uuid, ConnectionInfo>): map<Uuid, nat> {
    map u | u in c :: c[u].download
  }

  lemma ChangeOne(c: map<Uuid, ConnectionInfo>, u: Uuid, info: ConnectionInfo)
    ensures Uploads(c[u := info]) == Uploads(c)[u := info.upload] && Uploads(c - {u}) == Uploads(c) - {u}
    ensures Downloads(c[u := info]) == Downloads(c)[u := info.download] && Downloads(c - {u}) == Downloads(c) - {u}
    ensures u in Uploads(c) <==> u in c
    ensures u in Downloads(c) <==> u in c
    ensures u in c ==> Uploads(c)[u] == c[u].upload && Downloads(c)[u] == c[u].download
  {
  }

  class ConnectionState {
    var connections: map<Uuid, ConnectionInfo>
    var totalUpload: nat
    var totalDownload: nat
    ghost var closedUp: nat
    ghost var closedDown: nat

    ghost function G(): Global
      reads this
    {
      Global(Uploads(connections), Downloads(connections), totalUpload, totalDownload, closedUp, closedDown)
    }

    constructor ()
      ensures G() == Start().g
    {
      connections, totalUpload, totalDownload := map[], 0, 0;
      closedUp, closedDown := 0, 0;
    }

    /** One event of a connection; traffic of an unknown connection is ignored. */
    method InputOne(uuid: Uuid, event: EventType)
      modifies this
      ensures G() == Traffic.InputOne(old(G()), uuid, event)
      ensures connections.Keys == match event
                                  case New(_) => old(connections.Keys) + {uuid}
                                  case CloseConnection => old(connections.Keys) - {uuid}
                                  case _ => old(connections.Keys)
      ensures forall u :: u in connections ==>
                connections[u].udp == if event.New? && u == uuid then event.udp else u in old(connections) && old(connections[u]).udp
    {
      hide Uploads, Downloads;
      ghost var g := G();
      match event {
        case New(udp) =>
          ChangeOne(connections, uuid, ConnectionInfo(udp, 0, 0));
          connections := connections[uuid := ConnectionInfo(udp, 0, 0)];
        case SetStopper =>
        case CloseConnection =>
          ChangeOne(connections, uuid, ConnectionInfo(false, 0, 0));
          closedUp, closedDown := closedUp + At(g.up, uuid), closedDown + At(g.down, uuid);
          connections := connections - {uuid};
        case _ =>
          CountTraffic(uuid, Amount(event, Up), Amount(event, Down));
      }
    }

    /** What all traffic events do: the totals and the connection's own counters change together. */
    method CountTraffic(uuid: Uuid, up: nat, down: nat)
      modifies this
      ensures var g := old(G());
              G() == if uuid !in g.up || uuid !in g.down then g
                     else g.(up := g.up[uuid := g.up[uuid] + up], down := g.down[uuid := g.down[uuid] + down],
                             totalUp := g.totalUp + up, totalDown := g.totalDown + down)
      ensures connections.Keys == old(connections.Keys)
      ensures forall u :: u in connections ==> connections[u].udp == old(connections[u]).udp
    {
      hide Uploads, Downloads;
      ChangeOne(connections, uuid, ConnectionInfo(false, 0, 0));
      if uuid in connections {
        var info := connections[uuid];
        info := info.(upload := info.upload + up, download := info.download + down);
        ChangeOne(connections, uuid, info);
        connections := connections[uuid := info];
        totalUpload := totalUpload + up;
        totalDownload := totalDownload + down;
      }
    }

    /** All events of one message, in order. */
    method InputEvent(event: Event)
      modifies this
      ensures G() == Input(old(G()), event.uuid, event.events)
    {
      hide Traffic.InputOne;
      var i := 0;
      assert event.events[0..] == event.events;
      while i < |event.events|
        invariant 0 <= i <= |event.events|
        invariant Input(G(), event.uuid, event.events[i..]) == Input(old(G()), event.uuid, event.events)
      {
        assert event.events[i..][1..] == event.events[i + 1..] && event.events[i..][0] == event.events[i];
        InputOne(event.uuid, event.events[i]);
        i := i + 1;
      }
    }
  }

  class TcpConnection {
    var read: nat
    var write: nat

    ghost function C(): Conn
      reads this
    {
      Tcp(read, write)
    }

    constructor ()
      ensures C() == Empty(false)
    {
      read, write := 0, 0;
    }

    method Read(size: nat)
      modifies this
      ensures C() == CountTcp(old(C()), Down, size)
    {
      read := read + size;
    }

    method Write(size: nat)
      modifies this
      ensures C() == CountTcp(old(C()), Up, size)
    {
      write := write + size;
    }

    method GetEvents() returns (events: seq<EventType>)
      modifies this
      ensures Flushes(old(C()), events) && C() == Flushed(old(C()))
    {
      events := [];
      if read > 0 {
        events := events + [EventType.Read(read)];
        read := 0;
      }
      if write > 0 {
        events := events + [EventType.Write(write)];
        write := 0;
      }
    }
  }

  class UdpConnection {
    var recvFrom: map<Peer, nat>
    var sendTo: map<Peer, nat>

    ghost function C(): Conn
      reads this
    {
      Udp(recvFrom, sendTo)
    }

    constructor ()
      ensures C() == Empty(true)
    {
      recvFrom, sendTo := map[], map[];
    }

    method RecvFrom(peer: Peer, size: nat)
      modifies this
      ensures C() == CountUdp(old(C()), Down, peer, size)
      ensures sendTo == old(sendTo) && At(recvFrom, peer) == At(old(recvFrom), peer) + size
      ensures forall p :: p != peer ==> At(recvFrom, p) == At(old(recvFrom), p)
    {
      recvFrom := recvFrom[peer := if peer in recvFrom then recvFrom[peer] + size else size];
    }

    method SendTo(peer: Peer, size: nat)
      modifies this
      ensures C() == CountUdp(old(C()), Up, peer, size)
      ensures recvFrom == old(recvFrom) && At(sendTo, peer) == At(old(sendTo), peer) + size
      ensures forall p :: p != peer ==> At(sendTo, p) == At(old(sendTo), p)
    {
      sendTo := sendTo[peer := if peer in sendTo then sendTo[peer] + size else size];
    }

    /** Both maps are drained, each in an arbitrary order. */
    method GetEvents() returns (events: seq<EventType>)
      modifies this
      ensures Flushes(old(C()), events) && C() == Flushed(old(C()))
    {
      var ps := DrainOrder(recvFrom);
      var qs := DrainOrder(sendTo);
      events := [];
      var i := 0;
      while i < |ps|
        invariant 0 <= i <= |ps| && events == RecvEvents(ps, recvFrom)[..i]
      {
        events := events + [EventType.RecvFrom(ps[i], recvFrom[ps[i]])];
        i := i + 1;
      }
      i := 0;
      while i < |qs|
        invariant 0 <= i <= |qs| && events == RecvEvents(ps, recvFrom) + SendEvents(qs, sendTo)[..i]
      {
        events := events + [EventType.SendTo(qs[i], sendTo[qs[i]])];
        i := i + 1;
      }
      recvFrom, sendTo := map[], map[];
    }

    static method DrainOrder(m: map<Peer, nat>) returns (ps: seq<Peer>)
      ensures Lists(ps, m)
    {
      ps := [];
      var left := m.Keys;
      while left != {}
        invariant left <= m.Keys
        invariant forall p :: p in m <==> p in ps || p in left
        invariant forall p :: p in left ==> p !in ps
        invariant forall i, j :: 0 <= i < j < |ps| ==> ps[i] != ps[j]
        decreases |left|
      {
        var p :| p in left;
        ps := ps + [p];
        left := left - {p};
      }
    }
  }
}
