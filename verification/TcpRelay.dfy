/** The TCP relay's copy loop, against any reader and any writer. */
module TcpRelay {
  import opened Bytes

  datatype CopyPoll = Pending | Done(amt: nat) | Failed

  /** A direction is complete: the reader ended, everything it gave was written, and then flushed. */
  ghost predicate Complete(reader: Source, writer: Sink)
    reads reader, writer
  {
    reader.ended && writer.taken == reader.given && writer.flushed == |writer.taken|
  }

  /** How many polls of a direction were answered with a failure or took nothing, and how many were pending. */
  ghost function Fails(reader: Source, writer: Sink): nat
    reads reader, writer
  {
    reader.fails + writer.fails + writer.nothings
  }

  ghost function Waits(reader: Source, writer: Sink): nat
    reads reader, writer
  {
    reader.waits + writer.waits
  }

  class CopyBuffer {
    var readDone: bool
    var needFlush: bool
    var pos: nat
    var cap: nat
    var amt: nat
    const buf: array<byte>

    /** Bytes read are the bytes written followed by the buffered ones. */
    ghost predicate Valid(reader: Source, writer: Sink)
      reads this, buf, reader, writer
    {
      && 0 < buf.Length && pos <= cap <= buf.Length
      && reader.given == writer.taken + buf[pos..cap]
      && amt == |writer.taken|
      && (readDone ==> reader.ended && pos == cap)
      && (!needFlush ==> writer.flushed == |writer.taken|)
    }

    constructor (bufferSize: nat)
      ensures fresh(buf) && buf.Length == bufferSize
      ensures pos == cap == amt == 0 && !readDone && !needFlush
    {
      readDone, needFlush, pos, cap, amt := false, false, 0, 0, 0;
      buf := new byte[bufferSize](i => 0);
    }

    /** Fill the buffer from its start. */
    method Load(bytes: seq<byte>)
      requires |bytes| <= buf.Length
      modifies buf
      ensures buf[..|bytes|] == bytes
    {
      var i := 0;
      while i < |bytes|
        invariant 0 <= i <= |bytes| && buf[..i] == bytes[..i]
      {
        buf[i] := bytes[i];
        assert bytes[..i + 1] == bytes[..i] + [bytes[i]];
        assert buf[..i + 1] == buf[..i] + [buf[i]];
        i := i + 1;
      }
      assert bytes[..|bytes|] == bytes;
    }

    /** Read into an empty buffer. The second result tells whether to carry on. */
    method Fill(reader: Source, writer: Sink) returns (stop: CopyPoll, carryOn: bool)
      requires Valid(reader, writer) && pos == cap && !readDone
      modifies this, buf, reader, writer
      ensures Valid(reader, writer) && writer.taken == old(writer.taken) && writer.shut == old(writer.shut)
      ensures old(reader.given) <= reader.given
      ensures |writer.script| <= old(|writer.script|) && ReadFuel(reader.script) <= old(ReadFuel(reader.script))
      ensures carryOn ==> Fails(reader, writer) == old(Fails(reader, writer)) && Waits(reader, writer) == old(Waits(reader, writer))
      ensures !carryOn ==> (stop.Failed? <==> Fails(reader, writer) > old(Fails(reader, writer)))
      ensures !carryOn ==> (stop.Pending? <==> !stop.Failed? && Waits(reader, writer) > old(Waits(reader, writer)))
      ensures !carryOn && stop.Pending? && writer.waits == old(writer.waits) ==> writer.flushed == |writer.taken|
      ensures carryOn ==> reader.waits == old(reader.waits) && writer.waits == old(writer.waits)
      ensures carryOn ==> readDone || (pos < cap && ReadFuel(reader.script) < old(ReadFuel(reader.script)))
      ensures !carryOn ==> !stop.Done?
    {
      var polled := reader.Poll(buf.Length);
      match polled {
        case FailedRead =>
          return Failed, false;
        case PendingRead =>
          if needFlush {
            var flushed := writer.Flush();
            if flushed.PendingDone? {
              return Pending, false;
            }
            if flushed.FailedDone? {
              return Failed, false;
            }
            needFlush := false;
          }
          return Pending, false;
        case ReadyRead(bytes) =>
          if |bytes| == 0 {
            readDone := true;
          } else {
            Load(bytes);
            pos := 0;
            cap := |bytes|;
            assert buf[0..|bytes|] == buf[..|bytes|];
          }
          return Pending, true;
      }
    }

    /** One write of what the buffer holds. */
    method WriteOnce(reader: Source, writer: Sink) returns (r: WritePoll)
      requires Valid(reader, writer) && pos < cap
      modifies this`pos, this`amt, this`needFlush, writer
      ensures Valid(reader, writer) && writer.shut == old(writer.shut)
      ensures old(writer.taken) <= writer.taken && |writer.script| <= old(|writer.script|)
      ensures r.ReadyWrite? ==> |writer.script| < old(|writer.script|)
      ensures pos <= cap
      ensures reader.waits == old(reader.waits) && reader.fails == old(reader.fails)
      ensures writer.waits == old(writer.waits) + (if r.PendingWrite? then 1 else 0)
      ensures writer.fails + writer.nothings ==
              old(writer.fails + writer.nothings) + (if r.FailedWrite? || r == ReadyWrite(0) then 1 else 0)
    {
      ghost var left := buf[pos..cap];
      ghost var taken := writer.taken;
      r := writer.Poll(buf[pos..cap]);
      if r.ReadyWrite? {
        assert buf[pos + r.n..cap] == left[r.n..];
        assert taken + left == (taken + left[..r.n]) + left[r.n..];
        if r.n == 0 {
          assert writer.taken == old(writer.taken) + [];
        } else {
          pos := pos + r.n;
          amt := amt + r.n;
          needFlush := true;
        }
      }
    }

    /** Write out what the buffer holds. */
    method WriteOut(reader: Source, writer: Sink) returns (stop: CopyPoll, carryOn: bool)
      requires Valid(reader, writer)
      modifies this`pos, this`amt, this`needFlush, writer
      ensures Valid(reader, writer) && writer.shut == old(writer.shut)
      ensures old(writer.taken) <= writer.taken
      ensures |writer.script| <= old(|writer.script|)
      ensures carryOn ==> Fails(reader, writer) == old(Fails(reader, writer)) && Waits(reader, writer) == old(Waits(reader, writer))
      ensures !carryOn ==> (stop.Failed? <==> Fails(reader, writer) > old(Fails(reader, writer)))
      ensures !carryOn ==> (stop.Pending? <==> !stop.Failed? && Waits(reader, writer) > old(Waits(reader, writer)))
      ensures reader.waits == old(reader.waits)
      ensures !carryOn && stop.Pending? ==> writer.waits > old(writer.waits)
      ensures carryOn ==> writer.waits == old(writer.waits)
      ensures carryOn ==> pos == cap && (old(pos) < old(cap) ==> |writer.script| < old(|writer.script|))
      ensures !carryOn ==> !stop.Done?
    {
      ghost var atStart := pos;
      assert pos <= cap;
      hide Valid;
      while pos < cap
        invariant Valid(reader, writer) && writer.shut == old(writer.shut)
        invariant old(writer.taken) <= writer.taken
        invariant |writer.script| <= old(|writer.script|)
        invariant reader.waits == old(reader.waits) && writer.waits == old(writer.waits)
        invariant Fails(reader, writer) == old(Fails(reader, writer))
        invariant pos <= cap == old(cap)
        invariant pos == atStart || |writer.script| < old(|writer.script|)
        decreases |writer.script|
      {
        var wrote := WriteOnce(reader, writer);
        match wrote {
          case PendingWrite => return Pending, false;
          case FailedWrite => return Failed, false;
          case ReadyWrite(i) =>
            if i == 0 {
              return Failed, false;
            }
        }
      }
      return Pending, true;
    }

    /** Copies until nothing more can be done now. It is done only when the reader has ended and all
        of it was written and flushed; the result counts what was written. */
    method PollCopy(reader: Source, writer: Sink) returns (r: CopyPoll)
      requires Valid(reader, writer)
      modifies this, buf, reader, writer
      ensures Valid(reader, writer) && writer.shut == old(writer.shut)
      ensures old(writer.taken) <= writer.taken && old(reader.given) <= reader.given
      ensures |writer.script| <= old(|writer.script|)
      ensures r.Done? ==> Complete(reader, writer) && r.amt == |writer.taken|
      ensures r.Failed? <==> Fails(reader, writer) > old(Fails(reader, writer))
      ensures r.Pending? <==> !r.Failed? && Waits(reader, writer) > old(Waits(reader, writer))
      ensures r.Done? ==> Fails(reader, writer) == old(Fails(reader, writer)) && Waits(reader, writer) == old(Waits(reader, writer))
      ensures r.Pending? && writer.waits == old(writer.waits) ==> writer.flushed == |writer.taken|
    {
      while true
        invariant Valid(reader, writer) && writer.shut == old(writer.shut)
        invariant old(writer.taken) <= writer.taken && old(reader.given) <= reader.given
        invariant |writer.script| <= old(|writer.script|)
        invariant Fails(reader, writer) == old(Fails(reader, writer))
        invariant reader.waits == old(reader.waits) && writer.waits == old(writer.waits)
        decreases ReadFuel(reader.script) + |writer.script|, if pos < cap then 0 else 1
      {
        if pos == cap && !readDone {
          var stop, carryOn := Fill(reader, writer);
          if !carryOn {
            return stop;
          }
        }
        var stop, carryOn := WriteOut(reader, writer);
        if !carryOn {
          return stop;
        }
        if pos == cap && readDone {
          r := FinishCopy(reader, writer);
          return;
        }
      }
    }

    /** The last flush. */
    method FinishCopy(reader: Source, writer: Sink) returns (r: CopyPoll)
      requires Valid(reader, writer) && pos == cap && readDone
      modifies writer
      ensures Valid(reader, writer) && writer.shut == old(writer.shut) && writer.taken == old(writer.taken)
      ensures |writer.script| <= old(|writer.script|)
      ensures r.Done? ==> Complete(reader, writer) && r.amt == |writer.taken|
      ensures r.Failed? <==> Fails(reader, writer) > old(Fails(reader, writer))
      ensures r.Pending? <==> writer.waits > old(writer.waits)
      ensures !r.Failed? ==> Fails(reader, writer) == old(Fails(reader, writer))
      ensures !r.Pending? ==> writer.waits == old(writer.waits)
    {
      var flushed := writer.Flush();
      match flushed {
        case PendingDone => return Pending;
        case FailedDone => return Failed;
        case ReadyDone =>
          assert buf[pos..cap] == [];
          return Done(amt);
      }
    }
  }

  datatype TransferState = Running(buf: CopyBuffer) | ShuttingDown(count: nat) | Finished(count: nat)

  /** One direction: the writer is shut down only after the copy is complete. */
  class Transfer {
    const reader: Source
    const writer: Sink
    const buffer: CopyBuffer
    var state: TransferState

    ghost predicate Valid()
      reads this, reader, writer, buffer, buffer.buf
    {
      match state
      case Running(buf) => buf == buffer && buffer.Valid(reader, writer) && !writer.shut
      case ShuttingDown(count) => Complete(reader, writer) && count == |writer.taken| && !writer.shut
      case Finished(count) => Complete(reader, writer) && count == |writer.taken| && writer.shut
    }

    constructor (reader: Source, writer: Sink, bufferSize: nat)
      requires reader.given == writer.taken == [] && writer.flushed == 0 && !writer.shut && bufferSize > 0
      ensures Valid() && this.reader == reader && this.writer == writer
      ensures fresh(buffer) && fresh(buffer.buf)
    {
      this.reader, this.writer := reader, writer;
      var b := new CopyBuffer(bufferSize);
      buffer := b;
      state := Running(b);
    }

    method Poll() returns (r: CopyPoll)
      requires Valid()
      modifies this, reader, writer, buffer, buffer.buf
      ensures Valid()
      ensures writer.shut ==> Complete(reader, writer)
      ensures old(writer.taken) <= writer.taken && old(reader.given) <= reader.given
      ensures writer.taken <= reader.given
      ensures r.Done? <==> state.Finished?
      ensures r.Done? ==> r.amt == |reader.given| && writer.taken == reader.given && writer.shut
      ensures r.Failed? <==> Fails(reader, writer) > old(Fails(reader, writer))
      ensures r.Pending? <==> !r.Failed? && Waits(reader, writer) > old(Waits(reader, writer))
      ensures r.Pending? && writer.waits == old(writer.waits) ==> writer.flushed == |writer.taken|
    {
      if state.Running? {
        var copied := buffer.PollCopy(reader, writer);
        if !copied.Done? {
          return copied;
        }
        state := ShuttingDown(copied.amt);
      }
      if state.ShuttingDown? {
        var shut := writer.Shutdown();
        match shut {
          case PendingDone => return Pending;
          case FailedDone => return Failed;
          case ReadyDone => state := Finished(state.count);
        }
      }
      return Done(state.count);
    }
  }

  /** Both directions; the relay ends as soon as one of them is done. */
  class CopyBidirectional {
    const aToB: Transfer
    const bToA: Transfer

    ghost predicate Valid()
      reads this, aToB, aToB.reader, aToB.writer, aToB.buffer, aToB.buffer.buf,
            bToA, bToA.reader, bToA.writer, bToA.buffer, bToA.buffer.buf
    {
      && aToB.Valid() && bToA.Valid()
      && aToB != bToA && aToB.reader != bToA.reader && aToB.writer != bToA.writer
      && aToB.buffer != bToA.buffer && aToB.buffer.buf != bToA.buffer.buf
    }

    constructor (a: Source, aw: Sink, b: Source, bw: Sink)
      requires a != b && aw != bw
      requires a.given == b.given == [] && aw.taken == bw.taken == []
      requires aw.flushed == bw.flushed == 0 && !aw.shut && !bw.shut
      ensures Valid() && aToB.reader == a && aToB.writer == bw && bToA.reader == b && bToA.writer == aw
    {
      var t := new Transfer(a, bw, 8192);
      var u := new Transfer(b, aw, 8192);
      aToB, bToA := t, u;
    }

    method Poll() returns (r: CopyPoll)
      requires Valid()
      modifies aToB, aToB.reader, aToB.writer, aToB.buffer, aToB.buffer.buf,
               bToA, bToA.reader, bToA.writer, bToA.buffer, bToA.buffer.buf
      ensures Valid()
      ensures aToB.writer.taken <= aToB.reader.given && bToA.writer.taken <= bToA.reader.given
      ensures aToB.writer.shut ==> Complete(aToB.reader, aToB.writer)
      ensures bToA.writer.shut ==> Complete(bToA.reader, bToA.writer)
      ensures r.Done? ==> aToB.state.Finished? || bToA.state.Finished?
      ensures r.Pending? ==> !aToB.state.Finished? && !bToA.state.Finished?
      ensures r.Failed? <==> Fails(aToB.reader, aToB.writer) > old(Fails(aToB.reader, aToB.writer)) ||
                             Fails(bToA.reader, bToA.writer) > old(Fails(bToA.reader, bToA.writer))
      ensures r.Pending? ==> Waits(aToB.reader, aToB.writer) > old(Waits(aToB.reader, aToB.writer)) &&
                             Waits(bToA.reader, bToA.writer) > old(Waits(bToA.reader, bToA.writer))
    {
      Sent(aToB);
      Sent(bToA);
      var x := aToB.Poll();
      if x.Failed? {
        return Failed;
      }
      var y := bToA.Poll();
      if y.Failed? {
        return Failed;
      }
      if x.Pending? && y.Pending? {
        return Pending;
      }
      return Done(0);
    }
  }

  lemma Sent(t: Transfer)
    requires t.Valid()
    ensures t.writer.taken <= t.reader.given
    ensures t.writer.shut ==> Complete(t.reader, t.writer)
  {
  }
}
