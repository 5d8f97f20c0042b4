/** The writing half of VisionStream: each accepted write becomes one frame, drained over as many polls
    as the sink needs. A flush or shutdown that meets a half-written frame sends it without ever
    reporting it, so that the caller's retry sends the same bytes again. */
module VisionWriting {
  import opened Bytes
  import opened VisionSpec
  import opened Vless

  datatype PollWrite = Pending | Wrote(n: nat) | Failed

  /** What the writer holds and has sent, against the payloads it framed and those it reported. */
  datatype Writer = Writer(uid: Uuid, taken: seq<byte>, pending: seq<byte>, payloadLen: nat, wroteUuid: bool,
                           framed: seq<seq<byte>>, acked: seq<seq<byte>>, orphans: nat)

  function Last(framed: seq<seq<byte>>): seq<byte>
    requires framed != []
  {
    framed[|framed| - 1]
  }

  ghost predicate WriterOk(w: Writer) {
    && Payloads(w.framed)
    && w.taken + w.pending == Wire(w.uid, w.framed)
    && w.wroteUuid == (w.framed != [])
    && (w.pending != [] ==> w.framed != [] && w.payloadLen == |Last(w.framed)|)
    && Counts(w.framed, w.acked, w.orphans, w.pending != [])
  }

  /** Reported frames are the framed ones, in order, with `orphans` of them and one in flight missing. */
  ghost predicate Counts(framed: seq<seq<byte>>, acked: seq<seq<byte>>, orphans: nat, inFlight: bool) {
    && |framed| == |acked| + orphans + (if inFlight then 1 else 0)
    && (orphans == 0 ==> framed[..|acked|] == acked)
    && |Concat(framed)| >= |Concat(acked)| + orphans + (if inFlight then |Last(framed)| else 0)
  }

  lemma ConcatSnoc(ps: seq<seq<byte>>, p: seq<byte>)
    ensures Concat(ps + [p]) == Concat(ps) + p
  {
    ConcatAppend(ps, [p]);
    ConcatOne(p);
  }

  lemma CountsFrame(framed: seq<seq<byte>>, acked: seq<seq<byte>>, orphans: nat, p: seq<byte>)
    requires Counts(framed, acked, orphans, false)
    ensures Counts(framed + [p], acked, orphans, true)
  {
    ConcatSnoc(framed, p);
  }

  lemma Enqueued(w: Writer, p: seq<byte>, w': Writer)
    requires WriterOk(w) && w.pending == [] && 0 < |p| <= MAX_VISION_CONTENT
    requires w' == w.(pending := (if w.framed == [] then w.uid else []) + FrameBytes(p), payloadLen := |p|,
                      wroteUuid := true, framed := w.framed + [p])
    ensures WriterOk(w') && w'.pending != []
  {
    hide Counts, Wire, FrameBytes;
    WireAppend(w.uid, w.framed, p);
    CountsFrame(w.framed, w.acked, w.orphans, p);
    assert w.taken + [] == w.taken;
    FrameIsNotEmpty(p);
  }

  lemma FrameIsNotEmpty(p: seq<byte>)
    requires |p| <= MAX_VISION_CONTENT
    ensures FrameBytes(p) != []
  {
  }

  lemma StillDraining(w: Writer, w': Writer)
    requires WriterOk(w) && w'.taken + w'.pending == w.taken + w.pending && w'.pending != [] && w.pending != []
    requires w' == w.(taken := w'.taken, pending := w'.pending)
    ensures WriterOk(w')
  {
  }

  lemma Acked(w: Writer, w': Writer)
    requires WriterOk(w) && w.pending != [] && w'.taken == w.taken + w.pending
    requires w' == w.(taken := w'.taken, pending := [], payloadLen := 0, acked := w.acked + [Last(w.framed)])
    ensures WriterOk(w')
  {
    ConcatSnoc(w.acked, Last(w.framed));
    assert w'.taken + [] == w'.taken;
  }

  lemma Orphaned(w: Writer, w': Writer)
    requires WriterOk(w) && w.pending != [] && w'.taken == w.taken + w.pending
    requires w' == w.(taken := w'.taken, pending := [], orphans := w.orphans + 1)
    ensures WriterOk(w')
  {
    assert w'.taken + [] == w'.taken;
    assert Last(w.framed) in w.framed;
  }

  /** Between writes, what the peer decodes is what was reported, exactly when no flush or shutdown ever
      met a half-written frame. */
  lemma ReportedIsSent(w: Writer)
    requires WriterOk(w) && w.pending == []
    ensures Deliver(w.uid, w.taken).bytes == Concat(w.acked) <==> w.orphans == 0
  {
    assert w.taken + [] == w.taken;
    WireRoundTrip(w.uid, w.framed);
    if w.orphans == 0 { assert w.framed == w.acked; }
  }

  /** At any moment: without orphans the peer has decoded no more than was accepted, in order. */
  lemma SentSoFar(w: Writer)
    requires WriterOk(w)
    ensures Deliver(w.uid, w.taken).bytes <= Concat(w.framed)
    ensures w.orphans == 0 ==> w.framed == w.acked + (if w.pending == [] then [] else [Last(w.framed)])
  {
    PartialWireOk(w);
    if w.orphans == 0 { OnlyLastIsUnreported(w); }
    hide WriterOk, Wire, Deliver, Concat, Payloads;
    PartialWire(w.uid, w.framed, w.taken);
  }

  lemma OnlyLastIsUnreported(w: Writer)
    requires WriterOk(w) && w.orphans == 0
    ensures w.framed == w.acked + (if w.pending == [] then [] else [Last(w.framed)])
  {
    hide Wire, Payloads, Concat;
    assert w.framed[..|w.acked|] == w.acked;
  }

  lemma PartialWireOk(w: Writer)
    requires WriterOk(w)
    ensures Payloads(w.framed) && w.taken <= Wire(w.uid, w.framed)
  {
    hide Wire;
  }

  /** What is left of pending bytes after one write, and of the script after the writes of a flush. */
  function Left(script: seq<WriteEvent>, pending: seq<byte>): seq<byte> {
    var a := WriteAnswer(script, |pending|);
    if a.ReadyWrite? then pending[a.n..] else pending
  }

  function FlushLeft(script: seq<WriteEvent>, pending: seq<byte>): (seq<byte>, seq<WriteEvent>) {
    if pending == [] then ([], script)
    else if !WriteAnswer(script, |pending|).ReadyWrite? then (pending, Tail(script))
    else FlushLeft(script[1..], Left(script, pending))
  }

  lemma FlushStep(script: seq<WriteEvent>, pending: seq<byte>)
    ensures FlushLeft(script, []) == ([], script)
    ensures var a := WriteAnswer(script, |pending|);
            && (a.ReadyWrite? ==> a.n <= |pending| && Left(script, pending) == pending[a.n..])
            && (pending != [] ==> FlushLeft(script, pending) ==
                                  if a.ReadyWrite? then FlushLeft(Tail(script), Left(script, pending))
                                  else (pending, Tail(script)))
  {
  }

  /** What a write of `buf` puts to the sink: what is pending, or else a new frame. */
  function Offered(w: Writer, buf: seq<byte>): seq<byte> {
    if w.pending != [] then w.pending
    else (if w.wroteUuid then [] else w.uid) + FrameBytes(buf[..Min(|buf|, MAX_VISION_CONTENT)])
  }

  class VisionWriter {
    const userId: Uuid
    const inner: Sink
    var wroteUuid: bool
    var writePending: seq<byte>
    var writePayloadLen: nat
    /** Payloads put into frames, payloads reported as written, and how many were never reported. */
    ghost var framed: seq<seq<byte>>
    ghost var acked: seq<seq<byte>>
    ghost var orphans: nat

    ghost function W(): Writer
      reads this, inner
    {
      Writer(userId, inner.taken, writePending, writePayloadLen, wroteUuid, framed, acked, orphans)
    }

    constructor (inner: Sink, userId: Uuid)
      requires inner.taken == []
      ensures WriterOk(W()) && this.inner == inner && this.userId == userId
      ensures W() == Writer(userId, [], [], 0, false, [], [], 0)
    {
      this.userId, this.inner := userId, inner;
      wroteUuid, writePending, writePayloadLen := false, [], 0;
      framed, acked, orphans := [], [], 0;
    }

    method EnqueueWrite(buf: seq<byte>) returns (payloadLen: nat)
      requires WriterOk(W()) && writePending == [] && buf != []
      modifies this`wroteUuid, this`writePending, this`writePayloadLen, this`framed
      ensures payloadLen == Min(|buf|, MAX_VISION_CONTENT)
      ensures WriterOk(W()) && writePending != []
      ensures framed == old(framed) + [buf[..payloadLen]] && writePayloadLen == payloadLen
      ensures writePending == Offered(old(W()), buf)
    {
      hide WriterOk;
      payloadLen := Min(|buf|, MAX_VISION_CONTENT);
      ghost var w := W();
      WroteUuidIs(w);
      if !wroteUuid {
        writePending := writePending + userId;
        wroteUuid := true;
      }
      ghost var start := writePending;
      writePending := writePending + [0];
      writePending := writePending + U16(payloadLen);
      writePending := writePending + [0, 0];
      writePending := writePending + buf[..payloadLen];
      assert writePending == start + FrameBytes(buf[..payloadLen]);
      writePayloadLen := payloadLen;
      framed := framed + [buf[..payloadLen]];
      Enqueued(w, buf[..payloadLen], W());
    }

    /** One write of pending bytes to the sink. */
    method WriteSome() returns (r: WritePoll)
      requires writePending != []
      modifies this`writePending, inner
      ensures inner.taken + writePending == old(inner.taken + writePending)
      ensures W() == old(W()).(taken := inner.taken, pending := writePending)
      ensures r == WriteAnswer(old(inner.script), |old(writePending)|)
      ensures writePending == Left(old(inner.script), old(writePending))
      ensures inner.script == Tail(old(inner.script))
      ensures !r.ReadyWrite? ==> writePending == old(writePending)
      ensures r.ReadyWrite? ==> |inner.script| < |old(inner.script)|
      ensures inner.waits == old(inner.waits) + (if r.PendingWrite? then 1 else 0)
      ensures inner.fails == old(inner.fails) + (if r.FailedWrite? then 1 else 0)
    {
      ghost var taken, all := inner.taken, writePending;
      r := inner.Poll(writePending);
      if r.ReadyWrite? {
        writePending := writePending[r.n..];
        Associative(taken, all[..r.n], all[r.n..]);
        assert all[..r.n] + all[r.n..] == all;
      }
    }

    /** Write the pending frame to the sink once; when that completes it, report its payload. */
    method PollPending() returns (r: PollWrite)
      requires WriterOk(W()) && writePending != []
      modifies this`writePending, this`writePayloadLen, this`acked, inner
      ensures WriterOk(W())
      ensures r.Wrote? <==> writePending == []
      ensures r.Wrote? ==> framed != [] && acked == old(acked) + [Last(framed)] && r.n == |Last(framed)|
      ensures !r.Wrote? ==> acked == old(acked)
      ensures writePending == Left(old(inner.script), old(writePending)) && inner.script == Tail(old(inner.script))
      ensures r.Failed? <==> WriteAnswer(old(inner.script), |old(writePending)|).FailedWrite?
    {
      hide WriterOk, Left, Tail, WriteAnswer;
      ghost var w := W();
      PendingIs(w);
      var wrote := WriteSome();
      if writePending != [] {
        StillDraining(w, W());
        return if wrote.FailedWrite? then Failed else Pending;
      }
      var payloadLen := writePayloadLen;
      writePayloadLen := 0;
      acked := acked + [Last(framed)];
      assert inner.taken + [] == inner.taken;
      Acked(w, W());
      return Wrote(payloadLen);
    }

    /** One poll. A caller that gets `Pending` is to call again with the same bytes: then the frame of
        the first call is completed and its length returned. */
    method PollWrite(buf: seq<byte>) returns (r: PollWrite)
      requires WriterOk(W())
      modifies this, inner
      ensures WriterOk(W()) && orphans == old(orphans)
      ensures framed == old(framed) +
                (if old(writePending) == [] && buf != [] then [buf[..Min(|buf|, MAX_VISION_CONTENT)]] else [])
      ensures old(writePending) == [] && buf == [] ==> r == Wrote(0) && acked == old(acked) && writePending == []
      ensures old(writePending) != [] || buf != [] ==>
                && (r.Wrote? <==> writePending == [])
                && framed != []
                && acked == old(acked) + (if r.Wrote? then [Last(framed)] else [])
                && (r.Wrote? ==> r.n == |Last(framed)|)
                && writePending == Left(old(inner.script), Offered(old(W()), buf))
                && inner.script == Tail(old(inner.script))
                && (r.Failed? <==> WriteAnswer(old(inner.script), |Offered(old(W()), buf)|).FailedWrite?)
    {
      hide WriterOk, Counts;
      PendingIs(W());
      if writePending != [] {
        r := PollPending();
        return;
      }
      if buf == [] {
        return Wrote(0);
      }
      var payloadLen := EnqueueWrite(buf);
      r := PollPending();
    }

    /** Write until nothing is pending; a frame completed here is not reported. */
    method DrainPending() returns (r: DonePoll)
      requires WriterOk(W()) && writePending != []
      modifies this`writePending, this`orphans, inner
      ensures WriterOk(W())
      ensures r.ReadyDone? <==> writePending == []
      ensures orphans == old(orphans) + (if writePending == [] then 1 else 0)
      ensures (writePending, inner.script) == FlushLeft(old(inner.script), old(writePending))
      ensures inner.waits == old(inner.waits) + (if r.PendingDone? then 1 else 0)
      ensures inner.fails == old(inner.fails) + (if r.FailedDone? then 1 else 0)
    {
      hide WriterOk, Counts, FlushLeft, Left, WriteAnswer, Tail;
      ghost var w := W();
      while writePending != []
        invariant inner.taken + writePending == w.taken + w.pending
        invariant W() == w.(taken := inner.taken, pending := writePending)
        invariant FlushLeft(inner.script, writePending) == FlushLeft(old(inner.script), old(writePending))
        invariant inner.waits == old(inner.waits) && inner.fails == old(inner.fails)
        decreases |inner.script|
      {
        FlushStep(inner.script, writePending);
        var wrote := WriteSome();
        if !wrote.ReadyWrite? {
          StillDraining(w, W());
          return if wrote.FailedWrite? then FailedDone else PendingDone;
        }
      }
      FlushStep(inner.script, []);
      assert inner.taken + [] == inner.taken;
      orphans := orphans + 1;
      Orphaned(w, W());
      return ReadyDone;
    }

    /** Flush, and shutdown up to its last call: drain the pending frame, then act on the sink. */
    method PollFlush() returns (r: DonePoll)
      requires WriterOk(W())
      modifies this, inner
      ensures WriterOk(W()) && framed == old(framed) && acked == old(acked) && wroteUuid == old(wroteUuid)
      ensures r.ReadyDone? ==> writePending == []
      ensures inner.waits == old(inner.waits) + (if r.PendingDone? then 1 else 0)
      ensures inner.fails == old(inner.fails) + (if r.FailedDone? then 1 else 0)
      ensures orphans == old(orphans) + (if old(writePending) != [] && writePending == [] then 1 else 0)
      ensures var (pending, script) := FlushLeft(old(inner.script), old(writePending));
              && writePending == pending
              && (pending == [] ==> inner.script == Tail(script) && (r.ReadyDone? <==> script != [] && script[0].WriteAccept?))
    {
      hide WriterOk, Counts, WriteAnswer;
      if writePending != [] {
        r := DrainPending();
        if !r.ReadyDone? {
          return;
        }
      }
      ghost var w := W();
      r := inner.Flush();
      assert W() == w;
    }
  }

  lemma WroteUuidIs(w: Writer)
    requires WriterOk(w)
    ensures w.wroteUuid == (w.framed != [])
  {
  }

  lemma PendingIs(w: Writer)
    requires WriterOk(w)
    ensures w.pending != [] ==> w.framed != [] && w.payloadLen == |Last(w.framed)|
  {
  }

  // ----- What a flush in the middle of a write does, and how to avoid it.

  /** A sink that takes one byte of a write, then everything: the write is pending, the flush completes it
      unreported, and the caller's retry sends the same bytes again. */
  method FlushSendsTwice(userId: Uuid, p: seq<byte>) returns (sink: Sink, writer: VisionWriter, first: PollWrite, flush: DonePoll, retry: PollWrite)
    requires 0 < |p| <= MAX_VISION_CONTENT
    ensures first == Pending && flush == ReadyDone && retry == Wrote(|p|)
    ensures writer.inner == sink && writer.acked == [p] && writer.writePending == []
    ensures Deliver(userId, sink.taken).bytes == p + p
  {
    hide WriterOk, Counts, Deliver, Wire, FrameBytes, WriteAnswer, FlushLeft, Offered, Left, Tail, Concat;
    var all := WriteAccept(0x2_0000);
    sink := new Sink([WriteAccept(1)] + [all, all, all]);
    writer := new VisionWriter(sink, userId);
    assert p[..|p|] == p;
    ghost var frame := Offered(writer.W(), p);
    OfferedLength(writer.W(), p);
    TakesOne([all, all, all], frame);
    assert [all] + [all, all] == [all, all, all] && [all] + [all] == [all, all] && [all] + [] == [all];
    first := writer.PollWrite(p);
    assert writer.framed == [p];
    TakesAll([all, all], frame[1..]);
    flush := writer.PollFlush();
    ghost var again := Offered(writer.W(), p);
    OfferedLength(writer.W(), p);
    TakesAll([], again);
    TakesAll([all], again);
    retry := writer.PollWrite(p);
    assert writer.framed == [p, p] && writer.acked == [p];
    TwiceOnWire(writer.W(), p);
  }

  lemma OfferedLength(w: Writer, p: seq<byte>)
    requires w.pending == [] && 0 < |p| <= MAX_VISION_CONTENT
    ensures 5 < |Offered(w, p)| <= 21 + |p|
  {
    FrameLength(p);
    assert p[..|p|] == p;
  }

  lemma TwiceOnWire(w: Writer, p: seq<byte>)
    requires WriterOk(w) && w.pending == [] && w.framed == [p, p]
    ensures Deliver(w.uid, w.taken).bytes == p + p
  {
    AllIsWire(w);
    WireRoundTrip(w.uid, [p, p]);
    hide Deliver, Wire;
    ConcatAppend([p], [p]);
    ConcatOne(p);
    assert [p] + [p] == [p, p];
  }

  lemma FrameLength(p: seq<byte>)
    requires |p| <= MAX_VISION_CONTENT
    ensures |FrameBytes(p)| == 5 + |p|
  {
  }

  lemma TakesOne(script: seq<WriteEvent>, pending: seq<byte>)
    requires |pending| > 1
    ensures WriteAnswer([WriteAccept(1)] + script, |pending|) == ReadyWrite(1)
    ensures Left([WriteAccept(1)] + script, pending) == pending[1..] && Tail([WriteAccept(1)] + script) == script
  {
  }

  lemma TakesAll(script: seq<WriteEvent>, pending: seq<byte>)
    requires 0 < |pending| <= 0x2_0000
    ensures var s := [WriteAccept(0x2_0000)] + script;
            && WriteAnswer(s, |pending|) == ReadyWrite(|pending|)
            && Left(s, pending) == [] && Tail(s) == script
            && FlushLeft(s, pending) == ([], script)
  {
    var s := [WriteAccept(0x2_0000)] + script;
    assert s[1..] == script && pending[|pending|..] == [];
    assert FlushLeft(script, []) == ([], script);
  }

  lemma AllIsWire(w: Writer)
    requires WriterOk(w) && w.pending == []
    ensures Payloads(w.framed) && w.taken == Wire(w.uid, w.framed)
  {
    assert w.taken + [] == w.taken;
  }

  datatype Call = Write(buf: seq<byte>) | Flush

  /** A caller that flushes only when no write is pending: what it was told was written is what the peer
      decodes. */
  method CarefulCaller(writer: VisionWriter, calls: seq<Call>)
    requires WriterOk(writer.W()) && writer.orphans == 0
    modifies writer, writer.inner
    ensures WriterOk(writer.W()) && writer.orphans == 0
    ensures writer.writePending == [] ==> Deliver(writer.userId, writer.inner.taken).bytes == Concat(writer.acked)
  {
    var i := 0;
    hide WriterOk, Deliver, Offered, Left, FlushLeft;
    while i < |calls|
      invariant 0 <= i <= |calls|
      invariant WriterOk(writer.W()) && writer.orphans == 0
    {
      match calls[i] {
        case Write(buf) =>
          var _ := writer.PollWrite(buf);
        case Flush =>
          if writer.writePending == [] {
            var _ := writer.PollFlush();
          }
      }
      i := i + 1;
    }
    if writer.writePending == [] { ReportedIsSent(writer.W()); }
  }
}
