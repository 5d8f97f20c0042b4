/** The reading half of VisionStream. However the bytes are cut into polls, what it has handed out plus
    what it holds ready is the one-shot decoding of everything received. */
module VisionReading {
  import opened Bytes
  import opened VisionSpec
  import opened Vless

  datatype Mode = Mode(expectUuid: bool, remainingHeader: nat, command: byte,
                       content: nat, padding: nat, direct: bool)

  /** What is still to come, when `b` is the buffered input followed by all future input. */
  function Rest(uid: Uuid, m: Mode, b: seq<byte>): Decoded {
    if m.direct then Decoded(b, m.command)
    else if m.expectUuid then Deliver(uid, b)
    else if m.remainingHeader > 0 then Frames(b)
    else Body(m.command, m.content, m.padding, b)
  }

  ghost predicate WellFormed(m: Mode) {
    && (m.remainingHeader == 0 || m.remainingHeader == 5)
    && (m.expectUuid ==> m.command == 0 && m.remainingHeader == 0)
    && (!m.expectUuid && m.remainingHeader == 5 ==> m.command == 0)
  }

  /** From (m, b) the decoder moved to (m', b'), making `x` ready: no future input can tell. */
  ghost predicate Moves(uid: Uuid, m: Mode, b: seq<byte>, x: seq<byte>, m': Mode, b': seq<byte>) {
    forall t :: Rest(uid, m, b + t) == Rest(uid, m', b' + t).After(x)
  }

  lemma MovesTrans(uid: Uuid, m0: Mode, b0: seq<byte>, x: seq<byte>, m1: Mode, b1: seq<byte>,
                   y: seq<byte>, m2: Mode, b2: seq<byte>)
    requires Moves(uid, m0, b0, x, m1, b1) && Moves(uid, m1, b1, y, m2, b2)
    ensures Moves(uid, m0, b0, x + y, m2, b2)
  {
    forall t ensures Rest(uid, m0, b0 + t) == Rest(uid, m2, b2 + t).After(x + y) {
      assert Rest(uid, m1, b1 + t) == Rest(uid, m2, b2 + t).After(y);
      assert x + (y + Rest(uid, m2, b2 + t).bytes) == x + y + Rest(uid, m2, b2 + t).bytes;
    }
  }

  lemma MovesRefl(uid: Uuid, m: Mode, b: seq<byte>)
    ensures Moves(uid, m, b, [], m, b)
  {
    forall t ensures Rest(uid, m, b + t) == Rest(uid, m, b + t).After([]) {
      assert [] + Rest(uid, m, b + t).bytes == Rest(uid, m, b + t).bytes;
    }
  }

  lemma DirectMoves(uid: Uuid, m: Mode, b: seq<byte>)
    requires m.direct
    ensures Moves(uid, m, b, b, m, [])
  {
    forall t ensures Rest(uid, m, b + t) == Rest(uid, m, [] + t).After(b) {
      assert [] + t == t;
    }
  }

  lemma MismatchMoves(uid: Uuid, m: Mode, b: seq<byte>)
    requires !m.direct && m.expectUuid && m.command == 0 && Mismatch(uid, b)
    ensures Moves(uid, m, b, b, m.(direct := true), [])
  {
    forall t ensures Rest(uid, m, b + t) == Rest(uid, m.(direct := true), [] + t).After(b) {
      MismatchGrows(uid, b, t);
      assert [] + t == t;
    }
  }

  lemma UuidMoves(uid: Uuid, m: Mode, b: seq<byte>)
    requires !m.direct && m.expectUuid && !Mismatch(uid, b) && |b| >= 21
    ensures Moves(uid, m, b, [], m.(expectUuid := false, remainingHeader := 5), b[16..])
  {
    forall t ensures Rest(uid, m, b + t) == Rest(uid, m.(expectUuid := false, remainingHeader := 5), b[16..] + t).After([]) {
      MismatchGrows(uid, b, t);
      assert (b + t)[16..] == b[16..] + t;
    }
  }

  lemma HeaderMoves(uid: Uuid, m: Mode, b: seq<byte>, m': Mode)
    requires !m.direct && !m.expectUuid && m.remainingHeader == 5 && |b| >= 5
    requires m' == m.(remainingHeader := 0, command := b[0], content := FromU16(b[1], b[2]), padding := FromU16(b[3], b[4]))
    ensures Moves(uid, m, b, [], m', b[5..])
  {
    forall t ensures Rest(uid, m, b + t) == Rest(uid, m', b[5..] + t).After([]) {
      assert (b + t)[5..] == b[5..] + t;
    }
  }

  lemma BodyMoves(uid: Uuid, m: Mode, b: seq<byte>)
    requires !m.direct && !m.expectUuid && m.remainingHeader == 0 && m.content + m.padding <= |b|
    ensures m.command == 0 ==>
              Moves(uid, m, b, b[..m.content], m.(remainingHeader := 5, content := 0, padding := 0), b[m.content + m.padding..])
    ensures m.command != 0 ==>
              Moves(uid, m, b, b[..m.content] + b[m.content + m.padding..], m.(content := 0, padding := 0, direct := true), [])
  {
    var k := m.content + m.padding;
    forall t ensures m.command == 0 ==> Rest(uid, m, b + t) == Rest(uid, m.(remainingHeader := 5, content := 0, padding := 0), b[k..] + t).After(b[..m.content])
             ensures m.command != 0 ==> Rest(uid, m, b + t) == Rest(uid, m.(content := 0, padding := 0, direct := true), [] + t).After(b[..m.content] + b[k..])
    {
      assert (b + t)[..m.content] == b[..m.content];
      assert (b + t)[k..] == b[k..] + t;
      assert [] + t == t;
    }
  }

  lemma MoreInput(uid: Uuid, m: Mode, b: seq<byte>, x: seq<byte>, m': Mode, b': seq<byte>, d: seq<byte>)
    requires Moves(uid, m, b, x, m', b')
    ensures Moves(uid, m, b + d, x, m', b' + d)
  {
    forall t ensures Rest(uid, m, b + d + t) == Rest(uid, m', b' + d + t).After(x) {
      assert b + d + t == b + (d + t) && b' + d + t == b' + (d + t);
    }
  }

  function Start(): Mode {
    Mode(true, 0, 0, 0, 0, false)
  }

  /** Decoder state (m, b) with `x` made ready so far is a decoding of `input` with nothing left over. */
  ghost predicate Decodes(uid: Uuid, input: seq<byte>, x: seq<byte>, m: Mode, b: seq<byte>) {
    && Moves(uid, Start(), input, x, m, b)
    && Stuck(uid, m, b)
  }

  /** Nothing can be decoded from (m, b) without more input. */
  ghost predicate Stuck(uid: Uuid, m: Mode, b: seq<byte>) {
    Rest(uid, m, b).bytes == [] && (m.direct ==> b == []) && (!m.direct ==> Rest(uid, m, b).command == 0)
  }

  lemma StartDecodes(uid: Uuid)
    ensures Decodes(uid, [], [], Start(), [])
  {
    MovesRefl(uid, Start(), []);
    hide Moves;
  }

  lemma DrainedStuck(uid: Uuid, m: Mode)
    requires m.direct
    ensures Stuck(uid, m, [])
  {
  }

  lemma BodyStuck(uid: Uuid, m: Mode, b: seq<byte>)
    requires !m.direct && !m.expectUuid && m.remainingHeader == 0 && |b| < m.content + m.padding
    ensures Stuck(uid, m, b)
  {
  }

  /** A decoder: its mode, the buffered input, and what it holds ready. */
  datatype Decoder = Decoder(m: Mode, buf: seq<byte>, pending: seq<byte>)

  ghost predicate Progress(uid: Uuid, d: Decoder, d': Decoder) {
    d.pending <= d'.pending && Moves(uid, d.m, d.buf, d'.pending[|d.pending|..], d'.m, d'.buf)
  }

  lemma ProgressRefl(uid: Uuid, d: Decoder)
    ensures Progress(uid, d, d)
  {
    MovesRefl(uid, d.m, d.buf);
  }

  lemma ProgressTrans(uid: Uuid, d0: Decoder, d1: Decoder, d2: Decoder)
    requires Progress(uid, d0, d1) && Progress(uid, d1, d2)
    ensures Progress(uid, d0, d2)
  {
    hide Moves;
    var x, y := d1.pending[|d0.pending|..], d2.pending[|d1.pending|..];
    MovesTrans(uid, d0.m, d0.buf, x, d1.m, d1.buf, y, d2.m, d2.buf);
    assert d2.pending[|d0.pending|..] == x + y;
  }

  lemma RawProgress(uid: Uuid, d: Decoder, d': Decoder)
    requires d.m.direct && d' == Decoder(d.m, [], d.pending + d.buf)
    ensures Progress(uid, d, d') && Stuck(uid, d'.m, d'.buf)
  {
    DirectMoves(uid, d.m, d.buf);
    assert d'.pending[|d.pending|..] == d.buf;
  }

  lemma FrameProgress(uid: Uuid, d: Decoder, d': Decoder)
    requires d.pending <= d'.pending && Moves(uid, d.m, d.buf, d'.pending[|d.pending|..], d'.m, d'.buf)
    ensures Progress(uid, d, d')
  {
  }

  lemma DecodesIsDeliver(uid: Uuid, input: seq<byte>, x: seq<byte>, m: Mode, b: seq<byte>)
    requires Decodes(uid, input, x, m, b)
    ensures Deliver(uid, input) == Decoded(x, if m.direct then m.command else 0)
  {
    assert input + [] == input && b + [] == b;
    assert Rest(uid, Start(), input + []) == Rest(uid, m, b + []).After(x);
    assert x + [] == x;
  }

  lemma DirectInput(uid: Uuid, input: seq<byte>, x: seq<byte>, m: Mode, d: seq<byte>)
    requires Decodes(uid, input, x, m, []) && m.direct
    ensures Decodes(uid, input + d, x + d, m, [])
  {
    MoreInput(uid, Start(), input, x, m, [], d);
    DirectMoves(uid, m, [] + d);
    assert [] + d == d;
    MovesTrans(uid, Start(), input + d, x, m, d, d, m, []);
  }

  lemma DirectIsDrained(uid: Uuid, input: seq<byte>, x: seq<byte>, m: Mode, b: seq<byte>)
    requires Decodes(uid, input, x, m, b) && m.direct
    ensures b == []
  {
  }

  lemma PendingIs(uid: Uuid, d: Decoder, d': Decoder)
    requires Progress(uid, d, d') && d.pending == []
    ensures Moves(uid, d.m, d.buf, d'.pending, d'.m, d'.buf)
  {
    assert d'.pending[0..] == d'.pending;
  }

  function HeaderByte(m: Mode, v: byte): Mode
    requires m.remainingHeader > 0
  {
    (match m.remainingHeader
     case 5 => m.(command := v)
     case 4 => m.(content := v as int * 0x100)
     case 3 => m.(content := m.content + v)
     case 2 => m.(padding := v as int * 0x100)
     case _ => m.(padding := m.padding + v)).(remainingHeader := m.remainingHeader - 1)
  }

  function HeaderAfter(m: Mode, b: seq<byte>, k: nat): (r: Mode)
    requires m.remainingHeader == 5 && k <= 5 <= |b|
    ensures r.remainingHeader == 5 - k
  {
    if k == 0 then m else HeaderByte(HeaderAfter(m, b, k - 1), b[k - 1])
  }

  lemma HeaderIs(m: Mode, b: seq<byte>)
    requires m.remainingHeader == 5 && |b| >= 5
    ensures HeaderAfter(m, b, 5) == m.(remainingHeader := 0, command := b[0],
                                       content := FromU16(b[1], b[2]), padding := FromU16(b[3], b[4]))
  {
    assert HeaderAfter(m, b, 0) == m;
    var m1 := HeaderAfter(m, b, 1);
    assert m1 == HeaderByte(m, b[0]);
    assert m1 == m.(remainingHeader := 4, command := b[0]);
    var m2 := HeaderAfter(m, b, 2);
    assert m2 == m1.(remainingHeader := 3, content := b[1] as int * 0x100);
    var m3 := HeaderAfter(m, b, 3);
    assert m3 == m2.(remainingHeader := 2, content := FromU16(b[1], b[2]));
    var m4 := HeaderAfter(m, b, 4);
    assert m4 == m3.(remainingHeader := 1, padding := b[3] as int * 0x100);
  }

  datatype PollRead = Pending | Ready(bytes: seq<byte>) | Failed

  lemma AfterPrefix(p: seq<byte>, x: seq<byte>)
    ensures (p + x)[|p|..] == x && p <= p + x
  {
  }

  class VisionReader {
    const userId: Uuid
    const inner: Source
    var readBuf: seq<byte>
    var readPending: seq<byte>
    var expectUuid: bool
    var remainingHeader: nat
    var currentCommand: byte
    var remainingContent: nat
    var remainingPadding: nat
    var directMode: bool
    var sharedReadRaw: bool
    ghost var out: seq<byte>

    ghost function M(): Mode
      reads this
    {
      Mode(expectUuid, remainingHeader, currentCommand, remainingContent, remainingPadding, directMode)
    }

    ghost predicate Valid()
      reads this, inner
    {
      && WellFormed(M())
      && sharedReadRaw == (directMode && currentCommand == 2)
      && Decodes(userId, inner.given, out + readPending, M(), readBuf)
    }

    constructor (inner: Source, userId: Uuid)
      requires inner.given == []
      ensures Valid() && this.inner == inner && this.userId == userId && out == readPending == []
    {
      this.userId, this.inner := userId, inner;
      readBuf, readPending := [], [];
      expectUuid, remainingHeader, currentCommand := true, 0, 0;
      remainingContent, remainingPadding, directMode, sharedReadRaw := 0, 0, false, false;
      out := [];
      new;
      hide Decodes;
      StartDecodes(userId);
    }

    /** Consume the five header bytes, one by one. */
    method ReadHeader()
      requires remainingHeader == 5 && |readBuf| >= 5
      modifies this`readBuf, this`remainingHeader, this`currentCommand, this`remainingContent, this`remainingPadding
      ensures readBuf == old(readBuf)[5..]
      ensures M() == old(M()).(remainingHeader := 0, command := old(readBuf)[0],
                               content := FromU16(old(readBuf)[1], old(readBuf)[2]),
                               padding := FromU16(old(readBuf)[3], old(readBuf)[4]))
    {
      ghost var m, b := M(), readBuf;
      while remainingHeader > 0
        invariant 0 <= remainingHeader <= 5 && readBuf == b[5 - remainingHeader..]
        invariant M() == HeaderAfter(m, b, 5 - remainingHeader)
      {
        var v := readBuf[0];
        assert v == b[5 - remainingHeader];
        match remainingHeader {
          case 5 => currentCommand := v;
          case 4 => remainingContent := v as int * 0x100;
          case 3 => remainingContent := remainingContent + v;
          case 2 => remainingPadding := v as int * 0x100;
          case _ => remainingPadding := remainingPadding + v;
        }
        readBuf := readBuf[1..];
        remainingHeader := remainingHeader - 1;
      }
      HeaderIs(m, b);
    }

    /** Everything buffered becomes ready as it is. */
    method DrainRaw()
      modifies this`readBuf, this`readPending
      ensures readPending == old(readPending) + old(readBuf) && readBuf == []
    {
      if readBuf != [] {
        readPending := readPending + readBuf;
        readBuf := [];
      }
    }

    /** Take one complete frame: strip its padding, and go raw after a non-zero command. */
    method TakeFrame()
      requires !directMode && !expectUuid && remainingHeader == 0
      requires remainingContent + remainingPadding <= |readBuf| && !sharedReadRaw
      modifies this`readBuf, this`readPending, this`remainingHeader, this`remainingContent,
               this`remainingPadding, this`directMode, this`sharedReadRaw
      ensures WellFormed(M()) && sharedReadRaw == (directMode && currentCommand == 2)
      ensures old(readPending) <= readPending
      ensures Moves(userId, old(M()), old(readBuf), readPending[|old(readPending)|..], M(), readBuf)
      ensures directMode ==> readBuf == []
      ensures directMode == (currentCommand != 0)
      ensures !directMode ==> remainingHeader == 5 && |readBuf| <= |old(readBuf)|
    {
      hide Moves;
      ghost var m, b, p := M(), readBuf, readPending;
      ghost var need := remainingContent + remainingPadding;
      BodyMoves(userId, m, b);
      if remainingContent > 0 {
        readPending := readPending + readBuf[..remainingContent];
        readBuf := readBuf[remainingContent..];
        remainingContent := 0;
      }
      if remainingPadding > 0 {
        readBuf := readBuf[remainingPadding..];
        remainingPadding := 0;
      }
      assert readBuf == b[need..] && readPending == p + b[..m.content];
      if currentCommand == 0 {
        remainingHeader := 5;
        AfterPrefix(p, b[..m.content]);
        return;
      }
      directMode := true;
      if currentCommand == 2 {
        sharedReadRaw := true;
      }
      DrainRaw();
      Associative(p, b[..m.content], b[need..]);
      AfterPrefix(p, b[..m.content] + b[need..]);
    }

    ghost function D(): Decoder
      reads this
    {
      Decoder(M(), readBuf, readPending)
    }

    /** At the start of the stream: wait for the user id, or find that it cannot come any more. */
    method CheckUuid() returns (wait: bool)
      requires FlagsOk() && !directMode && expectUuid
      modifies this`readBuf, this`readPending, this`expectUuid, this`remainingHeader, this`directMode
      ensures FlagsOk() && Progress(userId, old(D()), D())
      ensures wait ==> Stuck(userId, M(), readBuf)
      ensures !wait ==> !directMode && !expectUuid && remainingHeader == 5 && |readBuf| < |old(readBuf)|
    {
      ghost var m, b := M(), readBuf;
      var prefixLen := Min(|readBuf|, 16);
      if prefixLen > 0 && readBuf[..prefixLen] != userId[..prefixLen] {
        MismatchMoves(userId, m, b);
        directMode := true;
        DrainRaw();
        return true;
      }
      if |readBuf| < 21 {
        MovesRefl(userId, m, b);
        return true;
      }
      UuidMoves(userId, m, b);
      readBuf := readBuf[16..];
      expectUuid := false;
      remainingHeader := 5;
      return false;
    }

    /** Take the frame header if it is all there. */
    method CheckHeader() returns (wait: bool)
      requires FlagsOk() && !directMode && !expectUuid
      modifies this`readBuf, this`remainingHeader, this`currentCommand, this`remainingContent, this`remainingPadding
      ensures FlagsOk() && Progress(userId, old(D()), D()) && readPending == old(readPending)
      ensures wait ==> Stuck(userId, M(), readBuf)
      ensures !wait ==> remainingHeader == 0
      ensures |readBuf| < |old(readBuf)| || (readBuf == old(readBuf) && remainingHeader == old(remainingHeader))
    {
      if remainingHeader > 0 {
        ghost var m, b := M(), readBuf;
        if |readBuf| < remainingHeader {
          MovesRefl(userId, m, b);
          return true;
        }
        ReadHeader();
        HeaderMoves(userId, m, b, M());
      } else {
        MovesRefl(userId, M(), readBuf);
      }
      return false;
    }

    ghost predicate FlagsOk()
      reads this
    {
      WellFormed(M()) && sharedReadRaw == (directMode && currentCommand == 2)
    }

    /** Decode all that can be decoded from the buffered input. */
    method TryDecodeFrames()
      requires FlagsOk()
      modifies this`readBuf, this`readPending, this`expectUuid, this`remainingHeader, this`currentCommand,
               this`remainingContent, this`remainingPadding, this`directMode, this`sharedReadRaw
      ensures FlagsOk() && Progress(userId, old(D()), D())
      ensures Stuck(userId, M(), readBuf)
    {
      hide Progress, Stuck;
      ghost var d0 := D();
      ProgressRefl(userId, d0);
      while true
        invariant FlagsOk() && Progress(userId, d0, D())
        decreases |readBuf|, if remainingHeader == 0 then 1 else 0
      {
        ghost var d := D();
        if directMode {
          DrainRaw();
          RawProgress(userId, d, D());
          ProgressTrans(userId, d0, d, D());
          return;
        }
        if expectUuid {
          var wait := CheckUuid();
          ProgressTrans(userId, d0, d, D());
          if wait {
            return;
          }
        }
        ghost var d1 := D();
        var wait := CheckHeader();
        ProgressTrans(userId, d0, d1, D());
        if wait {
          return;
        }
        if |readBuf| < remainingContent + remainingPadding {
          BodyStuck(userId, M(), readBuf);
          return;
        }
        ghost var d2 := D();
        TakeFrame();
        FrameProgress(userId, d2, D());
        ProgressTrans(userId, d0, d2, D());
        if currentCommand != 0 {
          DrainedStuck(userId, M());
          return;
        }
      }
    }

    /** Hand out up to `room` ready bytes. */
    method TakePending(room: nat) returns (bytes: seq<byte>)
      modifies this`readPending, this`out
      ensures bytes == old(readPending)[..Min(|old(readPending)|, room)]
      ensures out == old(out) + bytes && out + readPending == old(out) + old(readPending)
    {
      var n := Min(|readPending|, room);
      bytes := readPending[..n];
      out := out + bytes;
      readPending := readPending[n..];
    }

    /** One poll by a caller with `room` free bytes. In every outcome the bytes handed out so far and
        those held ready are the one-shot decoding of all input so far. */
    method PollRead(room: nat) returns (r: PollRead)
      requires Valid()
      modifies this, inner
      ensures Valid()
      ensures Deliver(userId, inner.given) == Decoded(out + readPending, if directMode then currentCommand else 0)
      ensures old(inner.given) <= inner.given
      ensures out == old(out) + (if r.Ready? then r.bytes else [])
      ensures r.Ready? ==> |r.bytes| <= room
      ensures !r.Ready? ==> readPending == []
      ensures r == Ready([]) && room > 0 ==> inner.ended
      ensures old(readPending) != [] ==> r == Ready(old(readPending)[..Min(|old(readPending)|, room)])
      ensures inner.waits == old(inner.waits) + (if r.Pending? then 1 else 0)
      ensures inner.fails == old(inner.fails) + (if r.Failed? then 1 else 0)
    {
      hide Decodes, WellFormed;
      DecodesIsDeliver(userId, inner.given, out + readPending, M(), readBuf);
      if readPending != [] {
        var bytes := TakePending(room);
        return Ready(bytes);
      }
      if directMode {
        r := PollRaw(room);
      } else {
        r := PollFrames(room);
      }
    }

    /** After the framing ended, input goes straight to the caller. */
    method PollRaw(room: nat) returns (r: PollRead)
      requires Valid() && readPending == [] && directMode
      modifies this, inner
      ensures Valid()
      ensures Deliver(userId, inner.given) == Decoded(out + readPending, currentCommand) && directMode
      ensures old(inner.given) <= inner.given
      ensures out == old(out) + (if r.Ready? then r.bytes else [])
      ensures r.Ready? ==> |r.bytes| <= room
      ensures readPending == []
      ensures r == Ready([]) && room > 0 ==> inner.ended
      ensures inner.waits == old(inner.waits) + (if r.Pending? then 1 else 0)
      ensures inner.fails == old(inner.fails) + (if r.Failed? then 1 else 0)
    {
      hide Decodes, WellFormed, Deliver;
      ghost var input := inner.given;
      DirectIsDrained(userId, input, out + readPending, M(), readBuf);
      var polled := inner.Poll(room);
      match polled {
        case PendingRead =>
          DecodesIsDeliver(userId, inner.given, out + readPending, M(), readBuf);
          return Pending;
        case FailedRead =>
          DecodesIsDeliver(userId, inner.given, out + readPending, M(), readBuf);
          return Failed;
        case ReadyRead(bytes) =>
          DirectInput(userId, input, out + readPending, M(), bytes);
          assert out + readPending + bytes == out + bytes + readPending;
          out := out + bytes;
          DecodesIsDeliver(userId, inner.given, out + readPending, M(), readBuf);
          return Ready(bytes);
      }
    }

    /** The framed part of a poll: decode, and read more as long as nothing is ready. */
    method PollFrames(room: nat) returns (r: PollRead)
      requires Valid() && readPending == [] && !directMode
      modifies this, inner
      ensures Valid()
      ensures Deliver(userId, inner.given) == Decoded(out + readPending, if directMode then currentCommand else 0)
      ensures old(inner.given) <= inner.given
      ensures out == old(out) + (if r.Ready? then r.bytes else [])
      ensures r.Ready? ==> |r.bytes| <= room
      ensures !r.Ready? ==> readPending == []
      ensures r == Ready([]) && room > 0 ==> inner.ended
      ensures inner.waits == old(inner.waits) + (if r.Pending? then 1 else 0)
      ensures inner.fails == old(inner.fails) + (if r.Failed? then 1 else 0)
    {
      hide Moves, Stuck;
      while true
        invariant WellFormed(M()) && sharedReadRaw == (directMode && currentCommand == 2)
        invariant Moves(userId, Start(), inner.given, out + readPending, M(), readBuf)
        invariant readPending == [] && out == old(out) && old(inner.given) <= inner.given
        invariant inner.waits == old(inner.waits) && inner.fails == old(inner.fails)
        decreases ReadFuel(inner.script)
      {
        ghost var input, m, b := inner.given, M(), readBuf;
        assert out + readPending == out;
        ghost var d := D();
        TryDecodeFrames();
        PendingIs(userId, d, D());
        MovesTrans(userId, Start(), input, out, m, b, readPending, M(), readBuf);
        DecodesIsDeliver(userId, input, out + readPending, M(), readBuf);
        if readPending != [] {
          var bytes := TakePending(room);
          return Ready(bytes);
        }
        var polled := inner.Poll(4096);
        match polled {
          case PendingRead => return Pending;
          case FailedRead => return Failed;
          case ReadyRead(bytes) =>
            if bytes == [] {
              assert inner.given == input;
              return Ready([]);
            }
            MoreInput(userId, Start(), input, out + readPending, M(), readBuf, bytes);
            readBuf := readBuf + bytes;
        }
      }
    }
  }
}
