/** The AnyTLS client: the loop that reads frames, the stream it serves, and a session from end to end. */
module AnyTlsClient {
  import opened Bytes
  import opened AnyTls

  const CMD_UPDATE_PADDING_SCHEME: byte := 6
  const CMD_HEART_REQUEST: byte := 8
  const CMD_HEART_RESPONSE: byte := 9

  // ----- What a list of frames does to the reader.

  /** Data handed to the stream, heartbeats answered, and padding schemes offered. */
  datatype Outcome = Outcome(delivered: seq<seq<byte>>, answered: seq<u32>, schemes: seq<seq<byte>>)

  const Nothing: Outcome := Outcome([], [], [])

  /** `room` is how many sends succeed before the stream is dropped. */
  function React(fs: seq<Frame>, sid: u32, room: nat): Outcome {
    if fs == [] then Nothing
    else if fs[0].cmd == CMD_PSH && fs[0].sid == sid then
      if room == 0 then Nothing
      else
        var o := React(fs[1..], sid, room - 1);
        o.(delivered := [fs[0].data] + o.delivered)
    else if (fs[0].cmd == CMD_FIN && fs[0].sid == sid) || fs[0].cmd == CMD_ALERT then Nothing
    else
      var o := React(fs[1..], sid, room);
      if fs[0].cmd == CMD_UPDATE_PADDING_SCHEME then o.(schemes := [fs[0].data] + o.schemes)
      else if fs[0].cmd == CMD_HEART_REQUEST then o.(answered := [fs[0].sid] + o.answered)
      else o
  }

  /** A list of outcomes in a row. */
  function Then(a: Outcome, b: Outcome): Outcome {
    Outcome(a.delivered + b.delivered, a.answered + b.answered, a.schemes + b.schemes)
  }

  lemma ThenAssociative(a: Outcome, b: Outcome, c: Outcome)
    ensures Then(Then(a, b), c) == Then(a, Then(b, c))
  {
  }

  /** The reader loop, over everything that the connection will ever carry. */
  method ReadLoop(s: seq<byte>, sid: u32, accepts: nat) returns (o: Outcome)
    ensures o == React(ReadFrames(s), sid, accepts)
  {
    hide React, ReadFrames, One, Then;
    o := Nothing;
    var at, room := 0, accepts;
    assert s[0..] == s;
    ThenNothing(React(ReadFrames(s), sid, accepts));
    while true
      invariant at <= |s|
      invariant Then(o, React(ReadFrames(s[at..]), sid, room)) == React(ReadFrames(s), sid, accepts)
      decreases |s| - at
    {
      ghost var rest := s[at..];
      if |s| - at < HEADER_LEN {
        TooShort(rest);
        NoReaction(sid, room);
        ThenNothing(o);
        break;
      }
      var header := s[at..at + HEADER_LEN];
      var cmd, gotSid, len := DecodeHeader(header);
      assert header == rest[..HEADER_LEN];
      assert header[1..5] == rest[1..5];
      if |s| - at - HEADER_LEN < len {
        CutFrame(rest);
        NoReaction(sid, room);
        ThenNothing(o);
        break;
      }
      var data := s[at + HEADER_LEN..at + HEADER_LEN + len];
      assert data == rest[HEADER_LEN..HEADER_LEN + len];
      at := at + HEADER_LEN + len;
      assert s[at..] == rest[HEADER_LEN + len..];
      ghost var f := Frame(cmd, gotSid, data);
      NextFrame(rest);
      assert ReadFrames(rest) == [f] + ReadFrames(s[at..]);
      ReactStep(f, ReadFrames(s[at..]), sid, room);
      ghost var before := o;
      ghost var next := One(f, sid);
      ThenNothing(o);
      AddOne(o, f, sid);
      assert Stops(f, sid, room) ==> o == React(ReadFrames(s), sid, accepts);
      if cmd == CMD_PSH && gotSid == sid {
        if room == 0 {
          break;
        }
        room := room - 1;
        o := o.(delivered := o.delivered + [data]);
      } else if cmd == CMD_FIN && gotSid == sid {
        break;
      } else if cmd == CMD_ALERT {
        break;
      } else if cmd == CMD_UPDATE_PADDING_SCHEME {
        o := o.(schemes := o.schemes + [data]);
      } else if cmd == CMD_HEART_REQUEST {
        o := o.(answered := o.answered + [gotSid]);
      }
      assert o == Then(before, next);
      ThenAssociative(before, next, React(ReadFrames(s[at..]), sid, room));
    }
  }

  /** What one frame that does not stop the reader does. */
  function One(f: Frame, sid: u32): Outcome {
    if f.cmd == CMD_PSH && f.sid == sid then Outcome([f.data], [], [])
    else if f.cmd == CMD_UPDATE_PADDING_SCHEME then Outcome([], [], [f.data])
    else if f.cmd == CMD_HEART_REQUEST then Outcome([], [f.sid], [])
    else Nothing
  }

  predicate Stops(f: Frame, sid: u32, room: nat) {
    (f.cmd == CMD_PSH && f.sid == sid && room == 0) || (f.cmd == CMD_FIN && f.sid == sid) || f.cmd == CMD_ALERT
  }

  function RoomAfter(f: Frame, sid: u32, room: nat): nat
    requires !Stops(f, sid, room)
  {
    if f.cmd == CMD_PSH && f.sid == sid then room - 1 else room
  }

  lemma ReactStep(f: Frame, fs: seq<Frame>, sid: u32, room: nat)
    ensures React([f] + fs, sid, room) ==
            if Stops(f, sid, room) then Nothing else Then(One(f, sid), React(fs, sid, RoomAfter(f, sid, room)))
    ensures Then(Nothing, Nothing) == Nothing
  {
    assert ([f] + fs)[1..] == fs;
  }

  lemma AddOne(o: Outcome, f: Frame, sid: u32)
    ensures Then(o, One(f, sid)) ==
            if f.cmd == CMD_PSH && f.sid == sid then o.(delivered := o.delivered + [f.data])
            else if f.cmd == CMD_UPDATE_PADDING_SCHEME then o.(schemes := o.schemes + [f.data])
            else if f.cmd == CMD_HEART_REQUEST then o.(answered := o.answered + [f.sid])
            else o
  {
  }

  lemma NoReaction(sid: u32, room: nat)
    ensures React([], sid, room) == Nothing
  {
  }

  lemma ThenNothing(o: Outcome)
    ensures Then(Nothing, o) == o && Then(o, Nothing) == o
  {
  }

  /** It undoes the encoding of every frame. */
  method DecodeHeader(h: seq<byte>) returns (cmd: byte, sid: u32, len: u16)
    requires |h| == HEADER_LEN
    ensures cmd == h[0] && sid == FromBigEndian(h[1..5]) && len == FromU16(h[5], h[6])
    ensures forall f: Frame {:trigger EncodeFrame(f)} ::
      f.Fits() && h == EncodeFrame(f)[..HEADER_LEN] ==> cmd == f.cmd && sid == f.sid && len == |f.data|
  {
    SidFits(h[1..5]);
    forall f: Frame | f.Fits() && h == EncodeFrame(f)[..HEADER_LEN]
      ensures h[0] == f.cmd && FromBigEndian(h[1..5]) == f.sid && FromU16(h[5], h[6]) == |f.data|
    {
      HeaderIs(f, h);
    }
    return h[0], FromBigEndian(h[1..5]), FromU16(h[5], h[6]);
  }

  lemma HeaderIs(f: Frame, h: seq<byte>)
    requires f.Fits() && h == EncodeFrame(f)[..HEADER_LEN]
    ensures h[0] == f.cmd && FromBigEndian(h[1..5]) == f.sid && FromU16(h[5], h[6]) == |f.data|
  {
    Power4();
    BigEndianRoundTrip(f.sid, 4);
    U16RoundTrip(|f.data|);
    hide BigEndian, FromBigEndian, Pow256;
    assert h == [f.cmd] + BigEndian(f.sid, 4) + U16(|f.data|);
    assert h[1..5] == BigEndian(f.sid, 4);
  }

  lemma TooShort(s: seq<byte>)
    requires |s| < HEADER_LEN
    ensures ReadFrames(s) == []
  {
  }

  lemma CutFrame(s: seq<byte>)
    requires HEADER_LEN <= |s| && |s| - HEADER_LEN < FromU16(s[5], s[6]) as int
    ensures ReadFrames(s) == []
  {
  }

  lemma NextFrame(s: seq<byte>)
    requires HEADER_LEN <= |s| && |s| - HEADER_LEN >= FromU16(s[5], s[6]) as int
    ensures var len: int := FromU16(s[5], s[6]);
            FromBigEndian(s[1..5]) < 0x1_0000_0000
            && ReadFrames(s) == [Frame(s[0], FromBigEndian(s[1..5]), s[HEADER_LEN..HEADER_LEN + len])] +
                                ReadFrames(s[HEADER_LEN + len..])
  {
    SidFits(s[1..5]);
  }

  /** The reader cannot tell a stream from the same stream without its waste frames. */
  lemma {:induction false} WasteHasNoEffect(fs: seq<Frame>, sid: u32, room: nat)
    ensures React(fs, sid, room) == React(NonWaste(fs), sid, room)
  {
    if fs != [] {
      hide React;
      var f := fs[0];
      assert fs == [f] + fs[1..];
      ReactStep(f, fs[1..], sid, room);
      ReactStep(f, NonWaste(fs[1..]), sid, room);
      if !Stops(f, sid, room) {
        WasteHasNoEffect(fs[1..], sid, RoomAfter(f, sid, room));
      }
      ThenNothing(React(fs[1..], sid, room));
    }
  }

  // ----- What the reader does, command by command.

  /** The frames before an end of the stream or an alert. */
  ghost predicate Quiet(fs: seq<Frame>, sid: u32) {
    forall f :: f in fs ==> f.cmd != 5 && !(f.cmd == 3 && f.sid == sid)
  }

  function DataOf(fs: seq<Frame>, sid: u32): seq<seq<byte>> {
    if fs == [] then [] else (if fs[0].cmd == 2 && fs[0].sid == sid then [fs[0].data] else []) + DataOf(fs[1..], sid)
  }

  function HeartbeatsOf(fs: seq<Frame>): seq<u32> {
    if fs == [] then [] else (if fs[0].cmd == 8 then [fs[0].sid] else []) + HeartbeatsOf(fs[1..])
  }

  function SchemesOf(fs: seq<Frame>): seq<seq<byte>> {
    if fs == [] then [] else (if fs[0].cmd == 6 then [fs[0].data] else []) + SchemesOf(fs[1..])
  }

  lemma QuietFirst(f: Frame, rest: seq<Frame>, sid: u32)
    ensures Quiet([f] + rest, sid) <==> f.cmd != 5 && !(f.cmd == 3 && f.sid == sid) && Quiet(rest, sid)
    ensures DataOf([f] + rest, sid) == (if f.cmd == 2 && f.sid == sid then [f.data] else []) + DataOf(rest, sid)
    ensures HeartbeatsOf([f] + rest) == (if f.cmd == 8 then [f.sid] else []) + HeartbeatsOf(rest)
    ensures SchemesOf([f] + rest) == (if f.cmd == 6 then [f.data] else []) + SchemesOf(rest)
  {
    assert ([f] + rest)[1..] == rest;
    assert forall g :: g in [f] + rest <==> g == f || g in rest;
  }

  /** As long as nothing ends the stream: its data is handed on, every heartbeat answered under its own id, and every
      scheme offered, each in order. */
  lemma {:induction false} ReactIs(fs: seq<Frame>, sid: u32, room: nat)
    requires Quiet(fs, sid) && room >= |DataOf(fs, sid)|
    ensures React(fs, sid, room) == Outcome(DataOf(fs, sid), HeartbeatsOf(fs), SchemesOf(fs))
  {
    if fs == [] {
      NoReaction(sid, room);
    } else {
      var f, rest := fs[0], fs[1..];
      assert fs == [f] + rest;
      QuietFirst(f, rest, sid);
      ReactStep(f, rest, sid, room);
      hide React, DataOf, HeartbeatsOf, SchemesOf, Quiet;
      ReactIs(rest, sid, RoomAfter(f, sid, room));
    }
  }

  /** The end of the stream, an alert, or data that a dropped stream does not take: nothing after it has an effect,
      nor has itself. */
  lemma {:induction false} ReactEnds(fs: seq<Frame>, last: Frame, later: seq<Frame>, sid: u32, room: nat)
    requires Quiet(fs, sid) && room >= |DataOf(fs, sid)|
    requires || last.cmd == 5 || (last.cmd == 3 && last.sid == sid)
             || (last.cmd == 2 && last.sid == sid && room == |DataOf(fs, sid)|)
    ensures React(fs + [last] + later, sid, room) == React(fs, sid, room)
  {
    if fs == [] {
      assert fs + [last] + later == [last] + later;
      ReactStep(last, later, sid, room);
      NoReaction(sid, room);
      assert DataOf(fs, sid) == [];
    } else {
      var f, rest := fs[0], fs[1..];
      assert fs == [f] + rest && fs + [last] + later == [f] + (rest + [last] + later);
      QuietFirst(f, rest, sid);
      ReactStep(f, rest, sid, room);
      ReactStep(f, rest + [last] + later, sid, room);
      hide React, DataOf, Quiet, One;
      ReactEnds(rest, last, later, sid, RoomAfter(f, sid, room));
    }
  }

  // ----- The stream over the session.

  datatype StreamRead = Pending | Ready(bytes: seq<byte>)
  datatype StreamWrite = Broken | Accepted(n: nat)

  /** The frames a stream has sent: data, then an end frame once it is closed. */
  function Sent(sid: u32, parts: seq<seq<byte>>, ended: bool): seq<Frame> {
    if parts != [] then [Frame(CMD_PSH, sid, parts[0])] + Sent(sid, parts[1..], ended)
    else if ended then [Frame(CMD_FIN, sid, [])]
    else []
  }

  ghost predicate PartsOk(parts: seq<seq<byte>>) {
    forall p :: p in parts ==> 1 <= |p| <= MAX_DATA
  }

  lemma PartsSnoc(parts: seq<seq<byte>>, p: seq<byte>)
    requires PartsOk(parts) && 1 <= |p| <= MAX_DATA
    ensures PartsOk(parts + [p])
  {
  }

  lemma {:induction false} SentSnoc(sid: u32, parts: seq<seq<byte>>, p: seq<byte>)
    ensures Sent(sid, parts + [p], false) == Sent(sid, parts, false) + [Frame(CMD_PSH, sid, p)]
  {
    if parts == [] {
      assert parts + [p] == [p] && [p][1..] == [];
      assert Sent(sid, [], false) == [];
    } else {
      SentSnoc(sid, parts[1..], p);
      assert (parts + [p])[1..] == parts[1..] + [p] && (parts + [p])[0] == parts[0];
    }
  }

  lemma {:induction false} SentEnds(sid: u32, parts: seq<seq<byte>>)
    ensures Sent(sid, parts, true) == Sent(sid, parts, false) + [Frame(CMD_FIN, sid, [])]
  {
    if parts != [] { SentEnds(sid, parts[1..]); }
  }

  function Encodings(fs: seq<Frame>): seq<seq<byte>>
    requires AllFit(fs)
  {
    if fs == [] then [] else [EncodeFrame(fs[0])] + Encodings(fs[1..])
  }

  lemma {:induction false} EncodingsSnoc(fs: seq<Frame>, f: Frame)
    requires AllFit(fs) && f.Fits()
    ensures AllFit(fs + [f]) && Encodings(fs + [f]) == Encodings(fs) + [EncodeFrame(f)]
  {
    hide EncodeFrame;
    if fs == [] {
      assert fs + [f] == [f] && [f][1..] == [];
      assert Encodings([]) == [];
    } else {
      EncodingsSnoc(fs[1..], f);
      assert (fs + [f])[1..] == fs[1..] + [f] && (fs + [f])[0] == fs[0];
    }
  }

  /** Frames that say something about stream `sid`; the others are heartbeat answers and the like. */
  predicate IsOwn(sid: u32, f: Frame) {
    (f.cmd == CMD_PSH || f.cmd == CMD_FIN) && f.sid == sid
  }

  function Own(sid: u32, fs: seq<Frame>): seq<Frame> {
    if fs == [] then [] else (if IsOwn(sid, fs[0]) then [fs[0]] else []) + Own(sid, fs[1..])
  }

  lemma OwnFirst(sid: u32, f: Frame, rest: seq<Frame>)
    ensures Own(sid, [f] + rest) == (if IsOwn(sid, f) then [f] else []) + Own(sid, rest)
    ensures Own(sid, []) == []
  {
    assert ([f] + rest)[1..] == rest;
  }

  lemma {:induction false} OwnAppend(sid: u32, a: seq<Frame>, b: seq<Frame>)
    ensures Own(sid, a + b) == Own(sid, a) + Own(sid, b)
  {
    if a == [] {
      assert a + b == b;
    } else {
      hide Own;
      var f, rest := a[0], a[1..];
      OwnAppend(sid, rest, b);
      OwnFirst(sid, f, rest);
      OwnFirst(sid, f, rest + b);
      assert [f] + rest == a && [f] + (rest + b) == a + b;
      Associative(if IsOwn(sid, f) then [f] else [], Own(sid, rest), Own(sid, b));
    }
  }

  ghost predicate NoAlert(fs: seq<Frame>) {
    forall f :: f in fs ==> f.cmd != CMD_ALERT
  }

  /** The stream, with the write queue that it shares with the reader's heartbeat answers. */
  class AnyTlsStream {
    const sid: u32
    var writeQueue: seq<seq<byte>>
    var writerAlive: bool
    var readQueue: seq<seq<byte>>
    var readerDone: bool
    var readBuf: seq<byte>
    var closed: bool
    ghost var frames: seq<Frame>
    ghost var parts: seq<seq<byte>>
    ghost var ended: bool

    ghost predicate Valid()
      reads this
    {
      && PartsOk(parts)
      && (ended ==> closed)
      && (closed && !ended ==> !writerAlive)
      && AllFit(frames) && NoAlert(frames)
      && writeQueue == Encodings(frames)
      && Own(sid, frames) == Sent(sid, parts, ended)
    }

    constructor (sid: u32)
      ensures Valid() && this.sid == sid && parts == [] && writerAlive && !closed && !ended
      ensures readQueue == [] && readBuf == [] && !readerDone
    {
      this.sid := sid;
      writeQueue, writerAlive, readQueue, readerDone, readBuf, closed := [], true, [], false, [], false;
      frames, parts, ended := [], [], false;
    }

    /** The one place where a frame enters the queue. */
    method Send(f: Frame)
      requires AllFit(frames) && NoAlert(frames) && writeQueue == Encodings(frames)
      requires f.Fits() && f.cmd != CMD_ALERT
      modifies this`writeQueue, this`frames
      ensures AllFit(frames) && NoAlert(frames) && writeQueue == Encodings(frames)
      ensures frames == old(frames) + [f]
      ensures Own(sid, frames) == Own(sid, old(frames)) + (if IsOwn(sid, f) then [f] else [])
    {
      EncodingsSnoc(frames, f);
      OwnAppend(sid, frames, [f]);
      assert Own(sid, [f]) == if IsOwn(sid, f) then [f] else [];
      hide EncodeFrame;
      writeQueue := writeQueue + [EncodeFrame(f)];
      frames := frames + [f];
    }

    /** The reader task answers a heartbeat at any time; the stream's own frames are not touched. */
    method AnswerHeartbeat(gotSid: u32)
      requires Valid()
      modifies this`writeQueue, this`frames
      ensures Valid()
      ensures frames == old(frames) + (if writerAlive then [Frame(CMD_HEART_RESPONSE, gotSid, [])] else [])
    {
      if writerAlive {
        hide Encodings, Own, Sent, PartsOk;
        Send(Frame(CMD_HEART_RESPONSE, gotSid, []));
      }
    }

    /** Bytes come out in order and none is lost; an empty read into a non-empty buffer means the reader is
        done, or has delivered an empty data frame. */
    method PollRead(room: nat) returns (r: StreamRead)
      modifies this`readBuf, this`readQueue
      ensures r.Pending? <==> old(readBuf) == [] && old(readQueue) == [] && !readerDone
      ensures r.Pending? ==> readBuf == old(readBuf) && readQueue == old(readQueue)
      ensures r.Ready? ==> |r.bytes| <= room && r.bytes + (readBuf + Concat(readQueue)) == old(readBuf + Concat(readQueue))
      ensures r.Ready? && room > 0 ==>
        (r.bytes == [] <==> old(readBuf) == [] && (old(readQueue) == [] || old(readQueue)[0] == []))
    {
      ghost var all := readBuf + Concat(readQueue);
      if readBuf == [] {
        if readQueue == [] {
          if readerDone {
            return Ready([]);
          }
          return Pending;
        }
        readBuf, readQueue := readQueue[0], readQueue[1..];
      }
      assert readBuf + Concat(readQueue) == all;
      var n := Min(|readBuf|, room);
      r := Ready(readBuf[..n]);
      readBuf := readBuf[n..];
      assert r.bytes + readBuf == old(if readBuf == [] then readQueue[0] else readBuf);
      Associative(r.bytes, readBuf, Concat(readQueue));
    }

    method PollWrite(buf: seq<byte>) returns (r: StreamWrite)
      requires Valid()
      modifies this`writeQueue, this`frames, this`parts
      ensures Valid()
      ensures r.Broken? <==> closed || (buf != [] && !writerAlive)
      ensures r.Broken? ==> parts == old(parts) && frames == old(frames)
      ensures r.Accepted? ==> r.n == Min(|buf|, MAX_DATA)
      ensures r.Accepted? ==> parts == old(parts) + (if r.n == 0 then [] else [buf[..r.n]])
      ensures r.Accepted? ==> frames == old(frames) + (if r.n == 0 then [] else [Frame(CMD_PSH, sid, buf[..r.n])])
    {
      if closed {
        return Broken;
      }
      if buf == [] {
        assert parts == parts + [] && frames == frames + [];
        return Accepted(0);
      }
      var n := Min(|buf|, MAX_DATA);
      if !writerAlive {
        return Broken;
      }
      SentSnoc(sid, parts, buf[..n]);
      PartsSnoc(parts, buf[..n]);
      hide Encodings, Own, Sent, PartsOk;
      Send(Frame(CMD_PSH, sid, buf[..n]));
      parts := parts + [buf[..n]];
      return Accepted(n);
    }

    method PollShutdown()
      requires Valid()
      modifies this`closed, this`writeQueue, this`frames, this`ended
      ensures Valid() && closed
      ensures ended == (old(ended) || (!old(closed) && writerAlive))
      ensures frames == old(frames) + (if !old(closed) && writerAlive then [Frame(CMD_FIN, sid, [])] else [])
    {
      if !closed {
        closed := true;
        if writerAlive {
          SentEnds(sid, parts);
          hide Encodings, Own, Sent, PartsOk;
          Send(Frame(CMD_FIN, sid, []));
          ended := true;
        }
      }
    }
  }

  // ----- A session from end to end.

  /** What reaches the stream depends on its own frames only. */
  lemma {:induction false} OthersDeliverNothing(fs: seq<Frame>, sid: u32, room: nat)
    requires NoAlert(fs)
    ensures React(fs, sid, room).delivered == React(Own(sid, fs), sid, room).delivered
  {
    if fs != [] {
      var f, rest := fs[0], fs[1..];
      assert fs == [f] + rest && f in fs && NoAlert(rest);
      hide React;
      ReactStep(f, rest, sid, room);
      ReactStep(f, Own(sid, rest), sid, room);
      if !Stops(f, sid, room) { OthersDeliverNothing(rest, sid, RoomAfter(f, sid, room)); }
      assert !IsOwn(sid, f) ==> Own(sid, fs) == Own(sid, rest) && One(f, sid).delivered == [] && !Stops(f, sid, room);
      assert IsOwn(sid, f) ==> Own(sid, fs) == [f] + Own(sid, rest);
    }
  }

  /** The first write of a session: settings, the opening of the stream, and the target. */
  function Greeting(sid: u32, settings: seq<byte>, target: seq<byte>): seq<Frame> {
    [Frame(CMD_SETTINGS, 0, settings), Frame(CMD_SYN, sid, []), Frame(CMD_PSH, sid, target)]
  }

  /** Every frame sent on its own, with its own sizes. */
  function Packets(fs: seq<Frame>, sizes: seq<seq<i32>>): seq<Packet>
    requires |sizes| == |fs|
  {
    if fs == [] then [] else [Packet([fs[0]], sizes[0])] + Packets(fs[1..], sizes[1..])
  }

  lemma {:induction false} PacketsCarry(fs: seq<Frame>, sizes: seq<seq<i32>>)
    requires |sizes| == |fs|
    ensures FramesOf(Packets(fs, sizes)) == fs
  {
    if fs != [] {
      PacketsCarry(fs[1..], sizes[1..]);
      assert Packets(fs, sizes)[1..] == Packets(fs[1..], sizes[1..]);
    }
  }

  lemma {:induction false} FramesOfAppend(a: seq<Packet>, b: seq<Packet>)
    ensures FramesOf(a + b) == FramesOf(a) + FramesOf(b)
  {
    if a == [] {
      assert a + b == b;
    } else {
      FramesOfAppend(a[1..], b);
      assert (a + b)[0] == a[0] && (a + b)[1..] == a[1..] + b;
      Associative(a[0].frames, FramesOf(a[1..]), FramesOf(b));
    }
  }

  lemma {:induction false} SentIsReceived(sid: u32, parts: seq<seq<byte>>, ended: bool, room: nat)
    requires room >= |parts|
    ensures React(Sent(sid, parts, ended), sid, room) == Outcome(parts, [], [])
  {
    if parts != [] {
      SentIsReceived(sid, parts[1..], ended, room - 1);
    }
  }

  /** Whatever sizes each packet is cut and padded to, and whatever else shares the connection: a reader gets
      exactly the data of the stream's own frames, in order. */
  lemma SessionDelivers(sid: u32, ps: seq<Packet>, parts: seq<seq<byte>>, ended: bool, room: nat)
    requires PacketsOk(ps) && NoAlert(FramesOf(ps))
    requires Own(sid, FramesOf(ps)) == Sent(sid, parts, ended) && room >= |parts|
    ensures React(ReadFrames(Stream(ps)), sid, room).delivered == parts
  {
    hide React, ReadFrames, Stream, NonWaste, Own, Sent, PacketsOk, FramesOf;
    StreamReads(ps);
    WasteHasNoEffect(ReadFrames(Stream(ps)), sid, room);
    WasteHasNoEffect(FramesOf(ps), sid, room);
    OthersDeliverNothing(FramesOf(ps), sid, room);
    SentIsReceived(sid, parts, ended, room);
  }

  /** In particular for the frames that a stream has queued, after the greeting; answers to heartbeats may
      come before the greeting, between any two writes, and after the end. */
  lemma StreamDelivers(stream: AnyTlsStream, settings: seq<byte>, target: seq<byte>, early: seq<Packet>, first: seq<i32>,
                       sizes: seq<seq<i32>>, room: nat)
    requires stream.Valid() && |sizes| == |stream.frames| && room > |stream.parts|
    requires NoAlert(FramesOf(early)) && Own(stream.sid, FramesOf(early)) == []
    requires PacketsOk(early + [Packet(Greeting(stream.sid, settings, target), first)] + Packets(stream.frames, sizes))
    ensures var ps := early + [Packet(Greeting(stream.sid, settings, target), first)] + Packets(stream.frames, sizes);
            React(ReadFrames(Stream(ps)), stream.sid, room).delivered == [target] + stream.parts
  {
    var sid := stream.sid;
    var greeting := Greeting(sid, settings, target);
    var hello := [Packet(greeting, first)];
    var rest := Packets(stream.frames, sizes);
    FramesOfAppend(early + hello, rest);
    FramesOfAppend(early, hello);
    HelloCarries(greeting, first);
    PacketsCarry(stream.frames, sizes);
    OwnAppend(sid, FramesOf(early) + greeting, stream.frames);
    OwnAppend(sid, FramesOf(early), greeting);
    GreetingIsOwn(sid, settings, target);
    OneMorePart(sid, target, stream.parts, stream.ended);
    hide React, ReadFrames, Stream, Own, Sent, PacketsOk, FramesOf, Encodings;
    SessionDelivers(sid, early + hello + rest, [target] + stream.parts, stream.ended, room);
  }

  lemma HelloCarries(greeting: seq<Frame>, sizes: seq<i32>)
    ensures FramesOf([Packet(greeting, sizes)]) == greeting
  {
    assert FramesOf([]) == [];
  }

  lemma GreetingIsOwn(sid: u32, settings: seq<byte>, target: seq<byte>)
    ensures Own(sid, Greeting(sid, settings, target)) == [Frame(CMD_PSH, sid, target)]
    ensures NoAlert(Greeting(sid, settings, target))
  {
    var g := Greeting(sid, settings, target);
    OwnFirst(sid, g[2], []);
    OwnFirst(sid, g[1], [g[2]]);
    OwnFirst(sid, g[0], [g[1], g[2]]);
    assert [g[2]] + [] == [g[2]] && [g[1]] + [g[2]] == [g[1], g[2]] && [g[0]] + [g[1], g[2]] == g;
  }

  lemma OneMorePart(sid: u32, p: seq<byte>, parts: seq<seq<byte>>, ended: bool)
    ensures Sent(sid, [p] + parts, ended) == [Frame(CMD_PSH, sid, p)] + Sent(sid, parts, ended)
  {
    assert ([p] + parts)[1..] == parts;
  }
}
