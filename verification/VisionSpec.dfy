/** What the Vision framing of VLESS means: a one-shot decoding of all bytes received so far, and the
    wire image of a list of writes. */
module VisionSpec {
  import opened Bytes
  import opened Vless

  const MAX_VISION_CONTENT := 0xFFFF

  /** What was delivered, and the command that ended the framing (0 while none did). */
  datatype Decoded = Decoded(bytes: seq<byte>, command: byte) {
    function After(before: seq<byte>): Decoded {
      Decoded(before + bytes, command)
    }
  }

  /** Nothing is delivered from a frame until all of its content and padding is there. */
  function Body(cmd: byte, content: nat, padding: nat, t: seq<byte>): Decoded
    decreases |t|, 1
  {
    if |t| < content + padding then Decoded([], 0)
    else if cmd != 0 then Decoded(t[..content] + t[content + padding..], cmd)
    else Frames(t[content + padding..]).After(t[..content])
  }

  /** Frames up to and including the first with a non-zero command; then raw bytes. */
  function Frames(t: seq<byte>): Decoded
    decreases |t|, 0
  {
    if |t| < 5 then Decoded([], 0)
    else Body(t[0], FromU16(t[1], t[2]), FromU16(t[3], t[4]), t[5..])
  }

  /** The first bytes already differ from the user id: the peer does not speak Vision. */
  predicate Mismatch(uid: Uuid, s: seq<byte>) {
    s[..Min(|s|, 16)] != uid[..Min(|s|, 16)]
  }

  /** One-shot decoding. */
  function Deliver(uid: Uuid, s: seq<byte>): Decoded {
    if Mismatch(uid, s) then Decoded(s, 0)
    else if |s| < 21 then Decoded([], 0)
    else Frames(s[16..])
  }

  function FrameBytes(payload: seq<byte>): seq<byte>
    requires |payload| <= MAX_VISION_CONTENT
  {
    [0] + U16(|payload|) + [0, 0] + payload
  }

  ghost predicate Payloads(ps: seq<seq<byte>>) {
    forall i :: 0 <= i < |ps| ==> 0 < |ps[i]| <= MAX_VISION_CONTENT
  }

  function FramesBytes(ps: seq<seq<byte>>): seq<byte>
    requires Payloads(ps)
  {
    if ps == [] then [] else FrameBytes(ps[0]) + FramesBytes(ps[1..])
  }

  /** Everything a writer has put out after these writes. */
  function Wire(uid: Uuid, ps: seq<seq<byte>>): seq<byte>
    requires Payloads(ps)
  {
    if ps == [] then [] else uid + FramesBytes(ps)
  }

  // ----- Decoding the frames gives back the payloads.

  lemma {:induction false} FrameDecodes(p: seq<byte>, rest: seq<byte>)
    requires |p| <= MAX_VISION_CONTENT
    ensures Frames(FrameBytes(p) + rest) == Frames(rest).After(p)
  {
    FrameParts(p, rest);
    U16RoundTrip(|p|);
    hide FrameBytes, U16;
    assert (p + rest)[..|p|] == p && (p + rest)[|p|..] == rest;
  }

  lemma FrameParts(p: seq<byte>, rest: seq<byte>)
    requires |p| <= MAX_VISION_CONTENT
    ensures var t := FrameBytes(p) + rest;
            && |t| == 5 + |p| + |rest| && t[0] == 0 && t[3] == 0 && t[4] == 0
            && t[1] == U16(|p|)[0] && t[2] == U16(|p|)[1] && t[5..] == p + rest
  {
    hide U16;
    assert FrameBytes(p) + rest == [0] + U16(|p|) + [0, 0] + (p + rest);
  }

  lemma {:induction false} FramesDecode(ps: seq<seq<byte>>, rest: seq<byte>)
    requires Payloads(ps)
    ensures Frames(FramesBytes(ps) + rest) == Frames(rest).After(Concat(ps))
  {
    hide Frames, FrameBytes;
    if ps == [] {
      assert FramesBytes(ps) + rest == rest;
    } else {
      FrameDecodes(ps[0], FramesBytes(ps[1..]) + rest);
      FramesDecode(ps[1..], rest);
      assert FramesBytes(ps) + rest == FrameBytes(ps[0]) + (FramesBytes(ps[1..]) + rest);
    }
  }

  /** The round trip: what any sequence of writes puts on the wire decodes to what was written. */
  lemma WireRoundTrip(uid: Uuid, ps: seq<seq<byte>>)
    requires Payloads(ps)
    ensures Deliver(uid, Wire(uid, ps)) == Decoded(Concat(ps), 0)
  {
    if ps != [] {
      var s := Wire(uid, ps);
      assert |FrameBytes(ps[0])| >= 5;
      assert s[..16] == uid[..16];
      assert s[16..] == FramesBytes(ps);
      FramesDecode(ps, []);
      assert FramesBytes(ps) + [] == FramesBytes(ps);
    }
  }

  lemma {:induction false} FramesBytesAppend(ps: seq<seq<byte>>, p: seq<byte>)
    requires Payloads(ps) && 0 < |p| <= MAX_VISION_CONTENT
    ensures Payloads(ps + [p]) && FramesBytes(ps + [p]) == FramesBytes(ps) + FrameBytes(p)
  {
    if ps == [] {
      assert ps + [p] == [p];
    } else {
      FramesBytesAppend(ps[1..], p);
      assert (ps + [p])[1..] == ps[1..] + [p];
    }
  }

  // ----- A peer may pad its frames and end the framing; the writer here does neither.

  datatype PeerFrame = PeerFrame(cmd: byte, content: seq<byte>, padding: seq<byte>) {
    predicate Fits() { |content| < 0x1_0000 && |padding| < 0x1_0000 }

    function Encoded(): seq<byte>
      requires Fits()
    {
      [cmd] + U16(|content|) + U16(|padding|) + content + padding
    }
  }

  ghost predicate Continues(fs: seq<PeerFrame>) {
    forall f :: f in fs ==> f.cmd == 0 && f.Fits()
  }

  function PeerBytes(fs: seq<PeerFrame>): seq<byte>
    requires Continues(fs)
  {
    if fs == [] then [] else fs[0].Encoded() + PeerBytes(fs[1..])
  }

  function Contents(fs: seq<PeerFrame>): seq<byte> {
    if fs == [] then [] else fs[0].content + Contents(fs[1..])
  }

  lemma PeerFrameParts(f: PeerFrame, rest: seq<byte>)
    requires f.Fits()
    ensures var t := f.Encoded() + rest;
            && |t| == 5 + |f.content| + |f.padding| + |rest| && t[0] == f.cmd
            && FromU16(t[1], t[2]) as int == |f.content| && FromU16(t[3], t[4]) as int == |f.padding|
            && t[5..] == f.content + f.padding + rest
  {
    U16RoundTrip(|f.content|);
    U16RoundTrip(|f.padding|);
    hide U16;
    assert f.Encoded() + rest == [f.cmd] + U16(|f.content|) + U16(|f.padding|) + (f.content + f.padding + rest);
  }

  /** One whole frame: its padding is dropped, and a command other than 0 makes the rest raw. */
  lemma PeerFrameDecodes(f: PeerFrame, rest: seq<byte>)
    requires f.Fits()
    ensures Frames(f.Encoded() + rest) ==
            if f.cmd == 0 then Frames(rest).After(f.content) else Decoded(f.content + rest, f.cmd)
  {
    PeerFrameParts(f, rest);
    var t := f.content + f.padding + rest;
    assert t[..|f.content|] == f.content && t[|f.content| + |f.padding|..] == rest;
  }

  /** Of a frame that is not all there nothing is delivered. */
  lemma CutFrameWaits(f: PeerFrame, k: nat)
    requires f.Fits() && k < |f.Encoded()|
    ensures Frames(f.Encoded()[..k]) == Decoded([], 0)
  {
    PeerFrameParts(f, []);
    var t := f.Encoded();
    assert t + [] == t;
    if k >= 5 { assert t[..k][1] == t[1] && t[..k][2] == t[2] && t[..k][3] == t[3] && t[..k][4] == t[4]; }
  }

  lemma {:induction false} PeerFramesDecode(fs: seq<PeerFrame>, rest: seq<byte>)
    requires Continues(fs)
    ensures Frames(PeerBytes(fs) + rest) == Frames(rest).After(Contents(fs))
  {
    hide Frames;
    if fs == [] {
      assert PeerBytes(fs) + rest == rest;
    } else {
      PeerFrameDecodes(fs[0], PeerBytes(fs[1..]) + rest);
      PeerFramesDecode(fs[1..], rest);
      PeerBytesFirst(fs, rest);
      Associative(fs[0].content, Contents(fs[1..]), Frames(rest).bytes);
      hide PeerFrame.Encoded, PeerBytes;
    }
  }

  lemma PeerBytesFirst(fs: seq<PeerFrame>, rest: seq<byte>)
    requires Continues(fs) && fs != []
    ensures PeerBytes(fs) + rest == fs[0].Encoded() + (PeerBytes(fs[1..]) + rest)
  {
    var a, b := fs[0].Encoded(), PeerBytes(fs[1..]);
    hide PeerFrame.Encoded;
    Associative(a, b, rest);
  }

  /** What a peer sends, whatever its frames and padding: all contents, then what follows the frame that ended
      the framing. While no frame has, whole frames count and a cut one does not. */
  lemma PeerIsRead(uid: Uuid, fs: seq<PeerFrame>, last: PeerFrame, raw: seq<byte>, k: nat)
    requires Continues(fs) && last.Fits() && last.cmd != 0 && k < |last.Encoded()|
    ensures Deliver(uid, uid + PeerBytes(fs) + last.Encoded() + raw) == Decoded(Contents(fs) + last.content + raw, last.cmd)
    ensures Deliver(uid, uid + PeerBytes(fs) + last.Encoded()[..k]) == Decoded(Contents(fs), 0)
  {
    hide Frames;
    PeerFramesDecode(fs, last.Encoded() + raw);
    PeerFrameDecodes(last, raw);
    PeerFrameParts(last, []);
    Associative(uid + PeerBytes(fs), last.Encoded(), raw);
    AfterUuid(uid, PeerBytes(fs), last.Encoded() + raw);
    PeerFramesDecode(fs, last.Encoded()[..k]);
    CutFrameWaits(last, k);
    AfterUuid(uid, PeerBytes(fs), last.Encoded()[..k]);
    Associative(Contents(fs), last.content, raw);
    ShortStream(PeerBytes(fs) + last.Encoded()[..k]);
  }

  lemma AfterUuid(uid: Uuid, a: seq<byte>, b: seq<byte>)
    ensures Deliver(uid, uid + a + b) == if |a + b| < 5 then Decoded([], 0) else Frames(a + b)
  {
    hide Frames;
    var t := a + b;
    Associative(uid, a, b);
    var s := uid + t;
    assert s[..16] == uid && uid[..16] == uid;
    assert s[16..] == t;
  }

  lemma ShortStream(t: seq<byte>)
    ensures |t| < 5 ==> Frames(t) == Decoded([], 0)
  {
  }

  /** One byte of the first sixteen that is not the user id's, and everything is raw. */
  lemma OtherPeerIsRaw(uid: Uuid, s: seq<byte>, i: nat)
    requires i < |s| && i < 16 && s[i] != uid[i]
    ensures Deliver(uid, s) == Decoded(s, 0)
  {
    var k := Min(|s|, 16);
    assert s[..k][i] != uid[..k][i];
  }

  // ----- More input only adds to what was delivered.

  lemma {:induction false} BodyGrows(cmd: byte, content: nat, padding: nat, t: seq<byte>, more: seq<byte>)
    ensures Body(cmd, content, padding, t).bytes <= Body(cmd, content, padding, t + more).bytes
    decreases |t|, 1
  {
    if content + padding <= |t| {
      assert (t + more)[..content] == t[..content];
      assert (t + more)[content + padding..] == t[content + padding..] + more;
      if cmd == 0 { FramesGrow(t[content + padding..], more); }
    }
  }

  lemma {:induction false} FramesGrow(t: seq<byte>, more: seq<byte>)
    ensures Frames(t).bytes <= Frames(t + more).bytes
    decreases |t|, 0
  {
    if |t| >= 5 {
      assert (t + more)[5..] == t[5..] + more;
      BodyGrows(t[0], FromU16(t[1], t[2]), FromU16(t[3], t[4]), t[5..], more);
    }
  }

  lemma MismatchGrows(uid: Uuid, s: seq<byte>, more: seq<byte>)
    ensures Mismatch(uid, s) ==> Mismatch(uid, s + more)
    ensures |s| >= 16 ==> Mismatch(uid, s + more) == Mismatch(uid, s)
  {
    var k := Min(|s|, 16);
    if Mismatch(uid, s) {
      var i :| 0 <= i < k && s[i] != uid[i];
      assert (s + more)[..Min(|s + more|, 16)][i] != uid[..Min(|s + more|, 16)][i];
    }
    if |s| >= 16 { assert (s + more)[..16] == s[..16]; }
  }

  lemma DeliverGrows(uid: Uuid, s: seq<byte>, more: seq<byte>)
    ensures Deliver(uid, s).bytes <= Deliver(uid, s + more).bytes
  {
    MismatchGrows(uid, s, more);
    if !Mismatch(uid, s) && |s| >= 21 {
      assert (s + more)[16..] == s[16..] + more;
      FramesGrow(s[16..], more);
    }
  }

  /** A reader that has seen only part of the wire has delivered only a prefix of what was written. */
  lemma PartialWire(uid: Uuid, ps: seq<seq<byte>>, s: seq<byte>)
    requires Payloads(ps) && s <= Wire(uid, ps)
    ensures Deliver(uid, s).bytes <= Concat(ps)
  {
    WireRoundTrip(uid, ps);
    DeliverGrows(uid, s, Wire(uid, ps)[|s|..]);
    assert s + Wire(uid, ps)[|s|..] == Wire(uid, ps);
  }

  lemma OnlyFrame(p: seq<byte>)
    requires 0 < |p| <= MAX_VISION_CONTENT
    ensures FramesBytes([p]) == FrameBytes(p)
  {
    assert FramesBytes([]) == [];
  }

  lemma WireAppend(uid: Uuid, ps: seq<seq<byte>>, p: seq<byte>)
    requires Payloads(ps) && 0 < |p| <= MAX_VISION_CONTENT
    ensures Payloads(ps + [p])
    ensures Wire(uid, ps + [p]) == Wire(uid, ps) + (if ps == [] then uid else []) + FrameBytes(p)
  {
    FramesBytesAppend(ps, p);
    OnlyFrame(p);
    hide FrameBytes;
    if ps == [] {
      assert ps + [p] == [p];
    } else {
      Associative(uid, FramesBytes(ps), FrameBytes(p));
      hide FramesBytes;
    }
  }
}
