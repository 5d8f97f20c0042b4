/** The UDP relay's queue of packet buffers, against any source and any sink of packets. */
module UdpRelay {
  import opened Bytes
  import opened Options

  datatype Packet = Packet(data: seq<byte>, addr: nat)

  /** A packet buffer is filled with one packet, or free. */
  datatype PacketBuffer = PacketBuffer(filled: Option<Packet>)

  function Packets(queue: seq<PacketBuffer>): seq<Packet> {
    if queue == [] then []
    else PacketOf(queue[0]) + Packets(queue[1..])
  }

  function PacketOf(b: PacketBuffer): seq<Packet> {
    if b.filled.Some? then [b.filled.value] else []
  }

  lemma PacketsFirst(b: PacketBuffer, rest: seq<PacketBuffer>)
    ensures Packets([b] + rest) == PacketOf(b) + Packets(rest) && Packets([]) == []
  {
    assert ([b] + rest)[1..] == rest;
  }

  lemma {:induction false} PacketsAppend(a: seq<PacketBuffer>, b: seq<PacketBuffer>)
    ensures Packets(a + b) == Packets(a) + Packets(b)
  {
    if a == [] {
      assert a + b == b;
    } else {
      hide Packets, PacketOf;
      var x, rest := a[0], a[1..];
      PacketsAppend(rest, b);
      PacketsFirst(x, rest);
      PacketsFirst(x, rest + b);
      assert [x] + rest == a && [x] + (rest + b) == a + b;
      Associative(PacketOf(x), Packets(rest), Packets(b));
    }
  }

  /** Filling the last, free buffer appends its packet. */
  lemma FillLast(queue: seq<PacketBuffer>, p: Packet)
    requires queue != [] && queue[|queue| - 1].filled.None?
    ensures Packets(queue[|queue| - 1 := PacketBuffer(Some(p))]) == Packets(queue) + [p]
  {
    var init, last := queue[..|queue| - 1], queue[|queue| - 1];
    assert queue == init + [last];
    assert queue[|queue| - 1 := PacketBuffer(Some(p))] == init + [PacketBuffer(Some(p))];
    PacketsAppend(init, [last]);
    PacketsAppend(init, [PacketBuffer(Some(p))]);
  }

  // ----- Packet sources and sinks whose every poll the environment decides.

  datatype RecvEvent = RecvPending | RecvFailed | RecvPacket(packet: Packet)
  datatype RecvPoll = PendingRecv | FailedRecv | ReadyRecv(packet: Packet)

  function RecvAnswer(script: seq<RecvEvent>): RecvPoll {
    if script == [] then PendingRecv
    else match script[0]
         case RecvPending => PendingRecv
         case RecvFailed => FailedRecv
         case RecvPacket(p) => ReadyRecv(p)
  }

  class PacketSource {
    var script: seq<RecvEvent>
    ghost var received: seq<Packet>
    ghost var waits: nat
    ghost var fails: nat

    constructor (script: seq<RecvEvent>)
      ensures this.script == script && received == []
    {
      this.script, received, waits, fails := script, [], 0, 0;
    }

    method Poll() returns (r: RecvPoll)
      modifies this
      ensures |script| <= old(|script|)
      ensures r.ReadyRecv? ==> |script| < old(|script|)
      ensures received == old(received) + (if r.ReadyRecv? then [r.packet] else [])
      ensures r == RecvAnswer(old(script)) && script == Tail(old(script))
      ensures waits == old(waits) + (if r.PendingRecv? then 1 else 0)
      ensures fails == old(fails) + (if r.FailedRecv? then 1 else 0)
    {
      if script == [] {
        waits := waits + 1;
        return PendingRecv;
      }
      var head := script[0];
      script := script[1..];
      match head {
        case RecvPending =>
          waits := waits + 1;
          return PendingRecv;
        case RecvFailed =>
          fails := fails + 1;
          return FailedRecv;
        case RecvPacket(p) =>
          received := received + [p];
          return ReadyRecv(p);
      }
    }
  }

  datatype SendEvent = SendPending | SendFailed | SendDone
  datatype SendPoll = PendingSend | FailedSend | ReadySend

  function SendAnswer(script: seq<SendEvent>): SendPoll {
    if script == [] then PendingSend
    else match script[0]
         case SendPending => PendingSend
         case SendFailed => FailedSend
         case SendDone => ReadySend
  }

  class PacketSink {
    var script: seq<SendEvent>
    ghost var sent: seq<Packet>
    ghost var waits: nat
    ghost var fails: nat

    constructor (script: seq<SendEvent>)
      ensures this.script == script && sent == []
    {
      this.script, sent, waits, fails := script, [], 0, 0;
    }

    method Poll(p: Packet) returns (r: SendPoll)
      modifies this
      ensures |script| <= old(|script|)
      ensures r.ReadySend? ==> |script| < old(|script|)
      ensures sent == old(sent) + (if r.ReadySend? then [p] else [])
      ensures r == SendAnswer(old(script)) && script == Tail(old(script))
      ensures waits == old(waits) + (if r.PendingSend? then 1 else 0)
      ensures fails == old(fails) + (if r.FailedSend? then 1 else 0)
    {
      if script == [] {
        waits := waits + 1;
        return PendingSend;
      }
      var head := script[0];
      script := script[1..];
      match head {
        case SendPending =>
          waits := waits + 1;
          return PendingSend;
        case SendFailed =>
          fails := fails + 1;
          return FailedSend;
        case SendDone =>
          sent := sent + [p];
          return ReadySend;
      }
    }
  }

  // ----- The queue.

  class CopyBuffer {
    var pool: seq<PacketBuffer>
    var queue: seq<PacketBuffer>
    const maxBufferSize: nat

    /** Only the last queued buffer may be free; there is always a buffer, and never more than the limit. */
    ghost predicate Valid()
      reads this
    {
      && (forall i :: 0 <= i < |pool| ==> pool[i].filled.None?)
      && (forall i :: 0 <= i < |queue| - 1 ==> queue[i].filled.Some?)
      && 1 <= |pool| + |queue| <= maxBufferSize
    }

    constructor (bufferSize: nat, maxBufferSize: nat)
      requires 1 <= bufferSize <= maxBufferSize
      ensures Valid() && queue == [] && |pool| == bufferSize && this.maxBufferSize == maxBufferSize
    {
      pool := seq(bufferSize, i => PacketBuffer(None));
      queue := [];
      this.maxBufferSize := maxBufferSize;
    }

    /** Drop the front packet; its buffer goes back to the pool. */
    method PopFront()
      requires Valid()
      modifies this
      ensures Valid()
      ensures queue == if old(queue) == [] then [] else old(queue)[1..]
      ensures |pool| + |queue| == old(|pool| + |queue|)
    {
      if queue != [] {
        queue := queue[1..];
        pool := pool + [PacketBuffer(None)];
      }
    }

    /** Whether there is now a free buffer at the back; if not, the queue is full. */
    method BorrowBack() returns (ok: bool)
      requires Valid()
      modifies this
      ensures Valid() && Packets(queue) == Packets(old(queue))
      ensures ok ==> queue != [] && queue[|queue| - 1].filled.None?
      ensures !ok ==> queue == old(queue) && |queue| == maxBufferSize && queue[|queue| - 1].filled.Some?
    {
      if queue == [] || queue[|queue| - 1].filled.Some? {
        Grow();
        if pool == [] {
          return false;
        }
        var p := pool[|pool| - 1];
        pool := pool[..|pool| - 1];
        PacketsAppend(queue, [p]);
        queue := queue + [p];
      }
      return true;
    }

    /** The free buffer at the back takes a packet. */
    method FillBack(p: Packet)
      requires Valid() && queue != [] && queue[|queue| - 1].filled.None?
      modifies this`queue
      ensures Valid() && Packets(queue) == Packets(old(queue)) + [p]
      ensures |queue| == |old(queue)| && queue[|queue| - 1].filled == Some(p)
    {
      FillLast(queue, p);
      queue := queue[|queue| - 1 := PacketBuffer(Some(p))];
    }

    /** Double the number of buffers up to the limit, once the pool is used up. */
    method Grow()
      requires Valid()
      modifies this`pool
      ensures Valid()
      ensures old(pool) != [] ==> pool == old(pool)
      ensures old(pool) == [] ==>
                |pool| + |queue| == if 2 * |queue| < maxBufferSize then 2 * |queue| else maxBufferSize
    {
      if pool == [] {
        var goal := if maxBufferSize < |queue| * 2 then maxBufferSize else |queue| * 2;
        assert goal >= |queue|;
        var toAdd: nat := goal - |queue|;
        pool := pool + seq(toAdd, i => PacketBuffer(None));
      }
    }
  }

  datatype RelayPoll = Pending | Failed

  /** One direction of the relay. */
  class Relay {
    const source: PacketSource
    const sink: PacketSink
    const buffer: CopyBuffer

    /** Packets sent are the packets received, in order, up to those still queued. */
    ghost predicate Valid()
      reads this, source, sink, buffer
    {
      buffer.Valid() && source.received == sink.sent + Packets(buffer.queue)
    }

    constructor (source: PacketSource, sink: PacketSink)
      requires source.received == sink.sent == []
      ensures Valid() && this.source == source && this.sink == sink
      ensures fresh(buffer) && buffer.maxBufferSize == 16
    {
      this.source, this.sink := source, sink;
      buffer := new CopyBuffer(1, 16);
    }

    /** Read packets until none is ready or the queue is full. */
    method FillQueue() returns (registered: bool, failed: bool)
      requires Valid()
      modifies source, buffer
      ensures Valid() && old(source.received) <= source.received
      ensures |source.script| <= old(|source.script|)
      ensures source.waits == old(source.waits) + (if registered then 1 else 0)
      ensures source.fails == old(source.fails) + (if failed then 1 else 0)
      ensures !(registered && failed)
      ensures !registered && !failed ==>
                |buffer.queue| == buffer.maxBufferSize && buffer.queue[|buffer.queue| - 1].filled.Some?
    {
      while true
        invariant Valid() && old(source.received) <= source.received
        invariant |source.script| <= old(|source.script|)
        invariant source.waits == old(source.waits) && source.fails == old(source.fails)
        decreases |source.script|
      {
        hide Packets;
        var ok := buffer.BorrowBack();
        if !ok {
          return false, false;
        }
        var polled := source.Poll();
        match polled {
          case PendingRecv => return true, false;
          case FailedRecv => return false, true;
          case ReadyRecv(p) =>
            Associative(sink.sent, Packets(buffer.queue), [p]);
            buffer.FillBack(p);
        }
      }
    }

    /** Send queued packets until the sink is not ready or none is left. */
    method DrainQueue() returns (registered: bool, failed: bool)
      requires Valid()
      modifies sink, buffer
      ensures Valid() && old(sink.sent) <= sink.sent
      ensures |sink.script| <= old(|sink.script|)
      ensures sink.waits == old(sink.waits) + (if registered then 1 else 0)
      ensures sink.fails == old(sink.fails) + (if failed then 1 else 0)
      ensures !(registered && failed)
      ensures !registered && !failed ==>
                Packets(buffer.queue) == [] && (Packets(old(buffer.queue)) != [] ==> |sink.script| < old(|sink.script|))
    {
      while true
        invariant Valid() && old(sink.sent) <= sink.sent
        invariant |sink.script| <= old(|sink.script|)
        invariant sink.waits == old(sink.waits) && sink.fails == old(sink.fails)
        invariant Packets(buffer.queue) == Packets(old(buffer.queue)) || |sink.script| < old(|sink.script|)
        decreases |buffer.queue|
      {
        hide Packets;
        if buffer.queue == [] {
          NoPackets();
          return false, false;
        }
        var front := buffer.queue[0];
        assert buffer.queue == [front] + buffer.queue[1..];
        PacketsFirst(front, buffer.queue[1..]);
        Associative(sink.sent, PacketOf(front), Packets(buffer.queue[1..]));
        if front.filled.None? {
          assert |buffer.queue| == 1;
          NoPackets();
          return false, false;
        }
        var polled := sink.Poll(front.filled.value);
        match polled {
          case PendingSend => return true, false;
          case FailedSend => return false, true;
          case ReadySend => buffer.PopFront();
        }
      }
    }

    /** One poll. Whatever source and sink do, nothing is lost, duplicated or reordered. */
    method Poll() returns (r: RelayPoll)
      requires Valid()
      modifies source, sink, buffer
      ensures Valid()
      ensures old(sink.sent) <= sink.sent <= source.received && old(source.received) <= source.received
      ensures r.Failed? <==> source.fails + sink.fails > old(source.fails + sink.fails)
      ensures r.Pending? ==> source.waits + sink.waits > old(source.waits + sink.waits)
      ensures r.Pending? && sink.waits == old(sink.waits) ==> Packets(buffer.queue) == []
    {
      var registered := false;
      while true
        invariant Valid()
        invariant old(sink.sent) <= sink.sent && old(source.received) <= source.received
        invariant |source.script| <= old(|source.script|) && |sink.script| <= old(|sink.script|)
        invariant source.fails + sink.fails == old(source.fails + sink.fails) && !registered
        invariant source.waits + sink.waits == old(source.waits + sink.waits) && sink.waits == old(sink.waits)
        decreases |sink.script|
      {
        var pendingRecv, failedRecv := FillQueue();
        if failedRecv {
          return Failed;
        }
        ghost var queue := buffer.queue;
        if !pendingRecv { LastIsPacket(queue); }
        var pendingSend, failedSend := DrainQueue();
        if failedSend {
          return Failed;
        }
        registered := registered || pendingRecv || pendingSend;
        if registered {
          return Pending;
        }
      }
    }
  }

  lemma NoPackets()
    ensures Packets([]) == []
  {
  }

  lemma LastIsPacket(queue: seq<PacketBuffer>)
    requires queue != [] && queue[|queue| - 1].filled.Some?
    ensures Packets(queue) != []
  {
    assert queue == queue[..|queue| - 1] + [queue[|queue| - 1]];
    PacketsAppend(queue[..|queue| - 1], [queue[|queue| - 1]]);
  }
}
