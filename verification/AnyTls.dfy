/** AnyTLS framing and padding: cutting payloads to prescribed sizes and adding waste frames is invisible
    to a reader of frames. */
module AnyTls {
  import opened Bytes

  const CMD_WASTE: byte := 0
  const CMD_SYN: byte := 1
  const CMD_PSH: byte := 2
  const CMD_FIN: byte := 3
  const CMD_SETTINGS: byte := 4
  const CMD_ALERT: byte := 5
  const HEADER_LEN: nat := 7
  const CHECK_MARK: int := -1
  const MAX_DATA: nat := 0xFFFF

  datatype Frame = Frame(cmd: byte, sid: u32, data: seq<byte>) {
    predicate Fits() { |data| <= MAX_DATA }
  }

  function EncodeFrame(f: Frame): seq<byte>
    requires f.Fits()
  {
    [f.cmd] + BigEndian(f.sid, 4) + U16(|f.data|) + f.data
  }

  function EncodeWaste(n: nat): seq<byte>
    requires n <= MAX_DATA
  {
    EncodeFrame(Frame(CMD_WASTE, 0, seq(n, i => 0)))
  }

  ghost predicate AllFit(fs: seq<Frame>) {
    forall f :: f in fs ==> f.Fits()
  }

  function EncodeAll(fs: seq<Frame>): seq<byte>
    requires AllFit(fs)
  {
    if fs == [] then [] else EncodeFrame(fs[0]) + EncodeAll(fs[1..])
  }

  lemma SidFits(bs: seq<byte>)
    requires |bs| == 4
    ensures FromBigEndian(bs) < 0x1_0000_0000
  {
    var a, b, c := bs[..3], bs[..2], bs[..1];
    assert a[..2] == b && b[..1] == c && c[..0] == [];
    assert FromBigEndian(c) < 0x100;
    assert FromBigEndian(b) < 0x1_0000;
    assert FromBigEndian(a) < 0x100_0000;
  }

  /** All whole frames at the front of a stream; a cut frame at its end is not delivered. */
  function ReadFrames(s: seq<byte>): seq<Frame>
    decreases |s|
  {
    if |s| < HEADER_LEN then []
    else
      var len: int := FromU16(s[5], s[6]);
      if |s| < HEADER_LEN + len then []
      else
        SidFits(s[1..5]);
        [Frame(s[0], FromBigEndian(s[1..5]), s[HEADER_LEN..HEADER_LEN + len])] + ReadFrames(s[HEADER_LEN + len..])
  }

  lemma FrameRoundTrip(f: Frame, rest: seq<byte>)
    requires f.Fits()
    ensures ReadFrames(EncodeFrame(f) + rest) == [f] + ReadFrames(rest)
  {
    var s := EncodeFrame(f) + rest;
    Power4();
    BigEndianRoundTrip(f.sid, 4);
    U16RoundTrip(|f.data|);
    FrameParts(f, rest);
    hide BigEndian, FromBigEndian, Pow256, U16, EncodeFrame;
    assert s[7..7 + |f.data|] == f.data && s[7 + |f.data|..] == rest by {
      assert s[7..][..|f.data|] == f.data && s[7..][|f.data|..] == rest;
    }
  }

  /** Where the parts of an encoded frame lie. */
  lemma FrameParts(f: Frame, rest: seq<byte>)
    requires f.Fits()
    ensures var s := EncodeFrame(f) + rest;
            && |s| == 7 + |f.data| + |rest|
            && s[0] == f.cmd && s[1..5] == BigEndian(f.sid, 4)
            && s[5] == U16(|f.data|)[0] && s[6] == U16(|f.data|)[1]
            && s[7..] == f.data + rest
  {
    var s := EncodeFrame(f) + rest;
    var id, len := BigEndian(f.sid, 4), U16(|f.data|);
    hide BigEndian, U16;
    assert s == [f.cmd] + (id + (len + (f.data + rest)));
    assert s[1..] == id + (len + (f.data + rest));
    assert s[5..] == len + (f.data + rest);
  }

  lemma Power4()
    ensures Pow256(4) == 0x1_0000_0000
  {
    assert Pow256(2) == 0x1_0000;
  }

  lemma {:induction false} FramesRoundTrip(fs: seq<Frame>, rest: seq<byte>)
    requires AllFit(fs)
    ensures ReadFrames(EncodeAll(fs) + rest) == fs + ReadFrames(rest)
  {
    hide ReadFrames, EncodeFrame;
    if fs == [] {
      assert EncodeAll(fs) + rest == rest;
    } else {
      FrameRoundTrip(fs[0], EncodeAll(fs[1..]) + rest);
      FramesRoundTrip(fs[1..], rest);
      assert EncodeAll(fs) + rest == EncodeFrame(fs[0]) + (EncodeAll(fs[1..]) + rest);
    }
  }

  // ----- Padding.

  /** What a scheme may ask for: a check, or a number of bytes. A large number of the scheme's text wraps. */
  type i32 = x: int | -0x8000_0000 <= x < 0x8000_0000

  function AsUsize(size: i32): nat {
    if size < 0 then size + 0x1_0000_0000_0000_0000 else size
  }

  /** The waste appended to the last piece of a payload of `len` bytes, if any. */
  function FillUp(size: nat, len: nat): seq<nat> {
    if size > len + HEADER_LEN then [size - (len + HEADER_LEN)] else []
  }

  /** The waste that a size adds at or after the end of the payload. */
  function EndWaste(size: nat, len: nat): seq<nat> {
    if len == 0 then [size] else FillUp(size, len)
  }

  /** The sizes of all waste frames that one packet gets. */
  function Wastes(sizes: seq<i32>, len: nat): seq<nat> {
    if sizes == [] then []
    else if sizes[0] == CHECK_MARK then (if len == 0 then [] else Wastes(sizes[1..], len))
    else if len > AsUsize(sizes[0]) then Wastes(sizes[1..], len - AsUsize(sizes[0]))
    else EndWaste(AsUsize(sizes[0]), len) + Wastes(sizes[1..], 0)
  }

  function WasteFrames(ws: seq<nat>): seq<Frame> {
    if ws == [] then [] else [Frame(CMD_WASTE, 0, seq(ws[0], i => 0))] + WasteFrames(ws[1..])
  }

  ghost predicate WastesFit(ws: seq<nat>) {
    forall i :: 0 <= i < |ws| ==> ws[i] <= MAX_DATA
  }

  lemma {:induction false} WasteFramesFit(ws: seq<nat>)
    requires WastesFit(ws)
    ensures AllFit(WasteFrames(ws)) && forall f :: f in WasteFrames(ws) ==> f.cmd == CMD_WASTE
  {
    if ws != [] { WasteFramesFit(ws[1..]); }
  }

  lemma FitParts(a: seq<nat>, b: seq<nat>)
    ensures WastesFit(a + b) <==> WastesFit(a) && WastesFit(b)
  {
    if WastesFit(a + b) {
      forall i | 0 <= i < |a| ensures a[i] <= MAX_DATA { assert (a + b)[i] == a[i]; }
      forall i | 0 <= i < |b| ensures b[i] <= MAX_DATA { assert (a + b)[|a| + i] == b[i]; }
    }
  }

  /** Sizes that fit a frame never ask for more waste than fits one. */
  lemma {:induction false} SmallSizesFit(sizes: seq<i32>, len: nat)
    requires forall i :: 0 <= i < |sizes| ==> sizes[i] == CHECK_MARK || 0 <= sizes[i] <= MAX_DATA
    ensures WastesFit(Wastes(sizes, len))
  {
    if sizes != [] {
      if sizes[0] == CHECK_MARK {
        SmallSizesFit(sizes[1..], len);
      } else if len > AsUsize(sizes[0]) {
        SmallSizesFit(sizes[1..], len - AsUsize(sizes[0]));
      } else {
        SmallSizesFit(sizes[1..], 0);
        FitParts(EndWaste(AsUsize(sizes[0]), len), Wastes(sizes[1..], 0));
      }
    }
  }

  function WasteBytes(ws: seq<nat>): seq<byte>
    requires WastesFit(ws)
  {
    if ws == [] then [] else EncodeWaste(ws[0]) + WasteBytes(ws[1..])
  }

  lemma {:induction false} WasteBytesAreFrames(ws: seq<nat>)
    requires WastesFit(ws)
    ensures AllFit(WasteFrames(ws)) && EncodeAll(WasteFrames(ws)) == WasteBytes(ws)
  {
    WasteFramesFit(ws);
    if ws != [] {
      WasteBytesAreFrames(ws[1..]);
      assert WasteFrames(ws)[1..] == WasteFrames(ws[1..]);
    }
  }

  lemma WasteFirst(n: nat, ws: seq<nat>)
    requires WastesFit([n] + ws)
    ensures n <= MAX_DATA && WastesFit(ws) && WasteBytes([n] + ws) == EncodeWaste(n) + WasteBytes(ws)
  {
    FitParts([n], ws);
    assert [n][0] == n && ([n] + ws)[1..] == ws;
    hide EncodeWaste;
  }

  lemma {:induction false} WasteBytesAppend(a: seq<nat>, b: seq<nat>)
    requires WastesFit(a) && WastesFit(b)
    ensures WastesFit(a + b) && WasteBytes(a + b) == WasteBytes(a) + WasteBytes(b)
  {
    FitParts(a, b);
    if a == [] {
      NoWaste();
      assert a + b == b && [] + WasteBytes(b) == WasteBytes(b);
    } else {
      hide WasteBytes, WastesFit, EncodeWaste;
      var n, rest := a[0], a[1..];
      assert [n] + rest == a && [n] + (rest + b) == a + b;
      WasteFirst(n, rest);
      WasteBytesAppend(rest, b);
      WasteFirst(n, rest + b);
      Associative(EncodeWaste(n), WasteBytes(rest), WasteBytes(b));
    }
  }

  /** A piece of a payload with the waste that follows it. */
  function Piece(payload: seq<byte>, ws: seq<nat>): seq<byte>
    requires WastesFit(ws)
  {
    payload + WasteBytes(ws)
  }

  /** The chunks of one packet whose waste fits. */
  function Pad(sizes: seq<i32>, payload: seq<byte>): seq<seq<byte>>
    requires WastesFit(Wastes(sizes, |payload|))
  {
    if sizes == [] then (if payload == [] then [] else [payload])
    else if sizes[0] == CHECK_MARK then (if payload == [] then [] else Pad(sizes[1..], payload))
    else
      var size := AsUsize(sizes[0]);
      if |payload| > size then [payload[..size]] + Pad(sizes[1..], payload[size..])
      else
        FitParts(EndWaste(size, |payload|), Wastes(sizes[1..], 0));
        [Piece(payload, EndWaste(size, |payload|))] + Pad(sizes[1..], [])
  }

  datatype Padded = Chunks(chunks: seq<seq<byte>>) | WasteTooLong

  /** The padding loop. It stops the program exactly if one of the waste frames of this packet would be too
      long; otherwise the packet has these chunks, and at least one, if only an empty one. */
  method ApplyPadding(sizes: seq<i32>, payload: seq<byte>) returns (r: Padded)
    ensures r.WasteTooLong? <==> !WastesFit(Wastes(sizes, |payload|))
    ensures r.Chunks? ==> r.chunks == if Pad(sizes, payload) == [] then [[]] else Pad(sizes, payload)
  {
    hide EncodeWaste, WastesFit, WasteBytes, EndWaste, Piece;
    var out: seq<seq<byte>> := [];
    NothingFits();
    if |sizes| == 0 {
      return Chunks([payload]);
    }
    var rest := payload;
    var i := 0;
    assert sizes[0..] == sizes;
    while i < |sizes|
      invariant 0 <= i <= |sizes|
      invariant WastesFit(Wastes(sizes[i..], |rest|)) <==> WastesFit(Wastes(sizes, |payload|))
      invariant WastesFit(Wastes(sizes, |payload|)) ==> out + Pad(sizes[i..], rest) == Pad(sizes, payload)
    {
      var size := sizes[i];
      assert sizes[i..][0] == size && sizes[i..][1..] == sizes[i + 1..];
      if size == CHECK_MARK {
        if rest == [] {
          break;
        }
      } else {
        var n := AsUsize(size);
        if |rest| <= n {
          FitParts(EndWaste(n, |rest|), Wastes(sizes[i + 1..], 0));
        }
        if |rest| > n {
          out := out + [rest[..n]];
          rest := rest[n..];
        } else {
          var ok, chunk := EndChunk(n, rest);
          if !ok {
            return WasteTooLong;
          }
          out := out + [chunk];
          rest := [];
        }
      }
      i := i + 1;
    }
    if rest != [] {
      out := out + [rest];
    }
    if out == [] {
      out := [[]];
    }
    return Chunks(out);
  }

  /** The chunk at or after the end of the payload, unless its waste frame is too long. */
  method EndChunk(n: nat, rest: seq<byte>) returns (ok: bool, chunk: seq<byte>)
    requires |rest| <= n
    ensures ok <==> WastesFit(EndWaste(n, |rest|))
    ensures ok ==> chunk == Piece(rest, EndWaste(n, |rest|))
  {
    EndFits(n, rest);
    hide EncodeWaste, WastesFit, WasteBytes, EndWaste, Piece;
    if rest != [] {
      chunk := rest;
      var paddingLen := if n > |chunk| + HEADER_LEN then n - (|chunk| + HEADER_LEN) else 0;
      if paddingLen > MAX_DATA {
        return false, [];
      }
      if paddingLen > 0 {
        chunk := chunk + EncodeWaste(paddingLen);
      }
      return true, chunk;
    }
    if n > MAX_DATA {
      return false, [];
    }
    return true, EncodeWaste(n);
  }

  lemma NothingFits()
    ensures WastesFit([])
  {
  }

  /** What the last piece is, if its waste fits, and when it does. */
  lemma EndFits(n: nat, rest: seq<byte>)
    requires |rest| <= n
    ensures var pad := if n > |rest| + HEADER_LEN then n - (|rest| + HEADER_LEN) else 0;
            && (WastesFit(EndWaste(n, |rest|)) <==> (if rest == [] then n else pad) <= MAX_DATA)
            && (WastesFit(EndWaste(n, |rest|)) ==>
                  Piece(rest, EndWaste(n, |rest|)) ==
                  if rest == [] then EncodeWaste(n) else if pad > 0 then rest + EncodeWaste(pad) else rest)
  {
    var ws := EndWaste(n, |rest|);
    NoWaste();
    if ws != [] {
      assert ws == [ws[0]];
      if WastesFit(ws) { OneWaste(ws[0]); }
    }
    hide EncodeWaste, WasteBytes;
    if rest == [] && WastesFit(ws) { assert rest + EncodeWaste(n) == EncodeWaste(n); }
    if ws == [] { assert rest + [] == rest; }
  }

  lemma ConcatCons(p: seq<byte>, ps: seq<seq<byte>>)
    ensures Concat([p] + ps) == p + Concat(ps)
  {
    ConcatAppend([p], ps);
    ConcatOne(p);
  }

  /** Whatever the sizes, the chunks put together are the payload, followed by whole waste frames. */
  lemma {:induction false} PadIsTransparent(sizes: seq<i32>, payload: seq<byte>)
    requires WastesFit(Wastes(sizes, |payload|))
    ensures Concat(Pad(sizes, payload)) == payload + WasteBytes(Wastes(sizes, |payload|))
  {
    if sizes == [] {
      NoWaste();
      ConcatOne(payload);
    } else if sizes[0] == CHECK_MARK {
      NoWaste();
      if payload != [] { PadIsTransparent(sizes[1..], payload); }
    } else {
      var size := AsUsize(sizes[0]);
      if |payload| > size {
        CutStep(sizes, payload);
        hide Pad, Wastes, WasteBytes, WastesFit;
        var head, rest := payload[..size], payload[size..];
        PadIsTransparent(sizes[1..], rest);
        assert payload == head + rest;
        Associative(head, rest, WasteBytes(Wastes(sizes, |payload|)));
      } else {
        EndStep(sizes, payload);
        hide Pad, Wastes, WasteBytes, EndWaste, WastesFit;
        PadIsTransparent(sizes[1..], []);
        var w, ws := EndWaste(size, |payload|), Wastes(sizes[1..], 0);
        WasteBytesAppend(w, ws);
        assert [] + WasteBytes(ws) == WasteBytes(ws);
        Associative(payload, WasteBytes(w), WasteBytes(ws));
      }
    }
  }

  lemma CutStep(sizes: seq<i32>, payload: seq<byte>)
    requires sizes != [] && sizes[0] != CHECK_MARK && |payload| > AsUsize(sizes[0])
    requires WastesFit(Wastes(sizes, |payload|))
    ensures Wastes(sizes, |payload|) == Wastes(sizes[1..], |payload[AsUsize(sizes[0])..]|)
    ensures Concat(Pad(sizes, payload)) == payload[..AsUsize(sizes[0])] + Concat(Pad(sizes[1..], payload[AsUsize(sizes[0])..]))
  {
    var size := AsUsize(sizes[0]);
    ConcatCons(payload[..size], Pad(sizes[1..], payload[size..]));
  }

  /** At or after the end of the payload a size makes one chunk. */
  lemma EndStep(sizes: seq<i32>, payload: seq<byte>)
    requires sizes != [] && sizes[0] != CHECK_MARK && |payload| <= AsUsize(sizes[0])
    requires WastesFit(Wastes(sizes, |payload|))
    ensures var w := EndWaste(AsUsize(sizes[0]), |payload|);
            && Wastes(sizes, |payload|) == w + Wastes(sizes[1..], 0)
            && WastesFit(w) && WastesFit(Wastes(sizes[1..], 0))
            && Concat(Pad(sizes, payload)) == payload + WasteBytes(w) + Concat(Pad(sizes[1..], []))
  {
    var w := EndWaste(AsUsize(sizes[0]), |payload|);
    assert Wastes(sizes, |payload|) == w + Wastes(sizes[1..], 0);
    FitParts(w, Wastes(sizes[1..], 0));
    assert Pad(sizes, payload) == [Piece(payload, w)] + Pad(sizes[1..], []);
    hide EndWaste, WasteBytes, Wastes, Concat, WastesFit;
    ConcatCons(Piece(payload, w), Pad(sizes[1..], []));
  }

  /** How much of the payload the first i sizes cut off, and in how many chunks, while it lasts. */
  function Taken(sizes: seq<i32>, i: nat): nat
    requires i <= |sizes|
  {
    if i == 0 then 0
    else (if sizes[0] == CHECK_MARK then 0 else AsUsize(sizes[0])) + Taken(sizes[1..], i - 1)
  }

  function ChunkCount(sizes: seq<i32>, i: nat): nat
    requires i <= |sizes|
  {
    if i == 0 then 0 else (if sizes[0] == CHECK_MARK then 0 else 1) + ChunkCount(sizes[1..], i - 1)
  }

  lemma SliceOfRest(payload: seq<byte>, start: nat, at: nat, len: nat)
    requires start + at + len <= |payload|
    ensures payload[start..][at..at + len] == payload[start + at..start + at + len]
  {
  }

  lemma TakenFirst(sizes: seq<i32>, i: nat)
    requires 0 < i <= |sizes|
    ensures var first := sizes[0] == CHECK_MARK;
            && Taken(sizes, i) == (if first then 0 else AsUsize(sizes[0])) + Taken(sizes[1..], i - 1)
            && ChunkCount(sizes, i) == (if first then 0 else 1) + ChunkCount(sizes[1..], i - 1)
  {
  }

  /** The first size of a payload that is longer than it, or the first check of a payload. */
  lemma PadFirst(sizes: seq<i32>, payload: seq<byte>)
    requires WastesFit(Wastes(sizes, |payload|)) && sizes != [] && payload != []
    ensures sizes[0] == CHECK_MARK ==>
              WastesFit(Wastes(sizes[1..], |payload|)) && Pad(sizes, payload) == Pad(sizes[1..], payload)
    ensures sizes[0] != CHECK_MARK && |payload| > AsUsize(sizes[0]) ==>
              var rest := payload[AsUsize(sizes[0])..];
              && WastesFit(Wastes(sizes[1..], |rest|))
              && Pad(sizes, payload) == [payload[..AsUsize(sizes[0])]] + Pad(sizes[1..], rest)
  {
  }

  /** A size for which there is more payload than it asks for gets a chunk of exactly that size: the next
      bytes of the payload. */
  lemma {:induction false} ChunksCutExactly(sizes: seq<i32>, payload: seq<byte>, i: nat)
    requires WastesFit(Wastes(sizes, |payload|)) && i < |sizes| && sizes[i] != CHECK_MARK
    requires Taken(sizes, i) + AsUsize(sizes[i]) < |payload|
    ensures ChunkCount(sizes, i) < |Pad(sizes, payload)|
    ensures Pad(sizes, payload)[ChunkCount(sizes, i)] == payload[Taken(sizes, i)..Taken(sizes, i) + AsUsize(sizes[i])]
  {
    PadFirst(sizes, payload);
    if i > 0 {
      TakenFirst(sizes, i);
      hide Pad, Wastes, WastesFit, Taken, ChunkCount, AsUsize;
      if sizes[0] == CHECK_MARK {
        ChunksCutExactly(sizes[1..], payload, i - 1);
      } else {
        var size := AsUsize(sizes[0]);
        ChunksCutExactly(sizes[1..], payload[size..], i - 1);
        SliceOfRest(payload, size, Taken(sizes[1..], i - 1), AsUsize(sizes[i]));
      }
    } else {
      hide Pad, Wastes, WastesFit;
    }
  }

  // ----- What a check does, and what a list without checks gives.

  lemma FirstOfBoth(a: seq<i32>, b: seq<i32>)
    requires a != []
    ensures (a + b)[0] == a[0] && (a + b)[1..] == a[1..] + b
  {
  }

  /** A check stops the packet exactly when the payload is used up: what comes after it is not sent. */
  lemma {:induction false} CheckStops(a: seq<i32>, b: seq<i32>, payload: seq<byte>)
    requires |payload| <= Taken(a, |a|)
    ensures Wastes(a + [CHECK_MARK] + b, |payload|) == Wastes(a, |payload|)
    ensures WastesFit(Wastes(a, |payload|)) ==> Pad(a + [CHECK_MARK] + b, payload) == Pad(a, payload)
  {
    var rest := [CHECK_MARK] + b;
    assert a + [CHECK_MARK] + b == a + rest;
    if a == [] {
      assert a + rest == rest;
    } else {
      FirstOfBoth(a, rest);
      assert a[1..] + rest == a[1..] + [CHECK_MARK] + b;
      TakenFirst(a, |a|);
      hide Taken, ChunkCount, EndWaste, WasteBytes;
      if a[0] == CHECK_MARK {
        if payload != [] { CheckStops(a[1..], b, payload); }
      } else if |payload| > AsUsize(a[0]) {
        CheckStops(a[1..], b, payload[AsUsize(a[0])..]);
      } else {
        CheckStops(a[1..], b, []);
        FitParts(EndWaste(AsUsize(a[0]), |payload|), Wastes(a[1..], 0));
        hide WastesFit, Piece;
      }
    }
  }

  /** A check does nothing while there is payload left. */
  lemma {:induction false} CheckPasses(a: seq<i32>, b: seq<i32>, payload: seq<byte>)
    requires Taken(a, |a|) < |payload|
    ensures Wastes(a + [CHECK_MARK] + b, |payload|) == Wastes(a + b, |payload|)
    ensures WastesFit(Wastes(a + b, |payload|)) ==> Pad(a + [CHECK_MARK] + b, payload) == Pad(a + b, payload)
  {
    var rest := [CHECK_MARK] + b;
    assert a + [CHECK_MARK] + b == a + rest;
    if a == [] {
      assert a + rest == rest && a + b == b && rest[1..] == b;
    } else {
      FirstOfBoth(a, rest);
      FirstOfBoth(a, b);
      assert a[1..] + rest == a[1..] + [CHECK_MARK] + b;
      TakenFirst(a, |a|);
      hide Taken, ChunkCount, EndWaste, WasteBytes, WastesFit;
      if a[0] == CHECK_MARK {
        CheckPasses(a[1..], b, payload);
      } else {
        CheckPasses(a[1..], b, payload[AsUsize(a[0])..]);
      }
    }
  }

  ghost predicate NoChecks(sizes: seq<i32>) {
    forall i :: 0 <= i < |sizes| ==> sizes[i] != CHECK_MARK
  }

  /** The waste frame of a chunk fits, if it has one. */
  predicate ChunkFits(size: nat, len: nat, at: nat) {
    && (at < len <= at + size ==> size <= len - at + HEADER_LEN + MAX_DATA)
    && (len <= at ==> size <= MAX_DATA)
  }

  /** What chunk i of a list without checks is, from how much of the payload the sizes before it cut off. */
  function ChunkOf(size: nat, payload: seq<byte>, at: nat): seq<byte>
    requires ChunkFits(size, |payload|, at)
  {
    if at + size < |payload| then payload[at..at + size]
    else if at < |payload| then
      var left := |payload| - at;
      payload[at..] + (if size > left + HEADER_LEN then EncodeWaste(size - left - HEADER_LEN) else [])
    else EncodeWaste(size)
  }

  lemma {:induction false} ChunkNumbers(sizes: seq<i32>, payload: seq<byte>)
    requires NoChecks(sizes) && WastesFit(Wastes(sizes, |payload|))
    ensures |Pad(sizes, payload)| == |sizes| + (if Taken(sizes, |sizes|) < |payload| then 1 else 0)
  {
    if sizes != [] {
      PadStep(sizes, payload);
      TakenFirst(sizes, |sizes|);
      hide Pad, Wastes, WastesFit, EndWaste, WasteBytes, Piece, Taken, ChunkCount;
      var size := AsUsize(sizes[0]);
      if |payload| > size {
        ChunkNumbers(sizes[1..], payload[size..]);
      } else {
        ChunkNumbers(sizes[1..], []);
      }
    } else {
      assert Taken(sizes, 0) == 0;
    }
  }

  lemma PadStep(sizes: seq<i32>, payload: seq<byte>)
    requires WastesFit(Wastes(sizes, |payload|)) && sizes != [] && sizes[0] != CHECK_MARK
    ensures var size := AsUsize(sizes[0]);
            if |payload| > size then
              WastesFit(Wastes(sizes[1..], |payload[size..]|))
              && Pad(sizes, payload) == [payload[..size]] + Pad(sizes[1..], payload[size..])
            else
              WastesFit(EndWaste(size, |payload|)) && WastesFit(Wastes(sizes[1..], 0))
              && Pad(sizes, payload) == [Piece(payload, EndWaste(size, |payload|))] + Pad(sizes[1..], [])
  {
    FitParts(EndWaste(AsUsize(sizes[0]), |payload|), Wastes(sizes[1..], 0));
  }

  /** Chunk i is a piece of the payload of the size asked for; at its end the last piece, filled up to the size if
      a waste frame fits in; and after it one waste frame with that many bytes. */
  ghost predicate ChunkIs(sizes: seq<i32>, payload: seq<byte>, i: nat)
    requires WastesFit(Wastes(sizes, |payload|)) && i < |sizes|
  {
    && i < |Pad(sizes, payload)|
    && ChunkFits(AsUsize(sizes[i]), |payload|, Taken(sizes, i))
    && Pad(sizes, payload)[i] == ChunkOf(AsUsize(sizes[i]), payload, Taken(sizes, i))
  }

  /** So is every chunk of a list without checks. */
  lemma {:induction false} ChunkAt(sizes: seq<i32>, payload: seq<byte>, i: nat)
    requires NoChecks(sizes) && WastesFit(Wastes(sizes, |payload|)) && i < |sizes|
    ensures ChunkIs(sizes, payload, i)
  {
    NoChecksRest(sizes);
    hide *;
    if i == 0 {
      if |payload| > AsUsize(sizes[0]) { FirstCut(sizes, payload); } else { FirstEnd(sizes, payload); }
    } else if |payload| > AsUsize(sizes[0]) {
      PadStep(sizes, payload);
      ChunkAt(sizes[1..], payload[AsUsize(sizes[0])..], i - 1);
      NextAfterCut(sizes, payload, i);
    } else {
      PadStep(sizes, payload);
      ChunkAt(sizes[1..], [], i - 1);
      NextAfterEnd(sizes, payload, i);
    }
  }

  lemma NextAfterCut(sizes: seq<i32>, payload: seq<byte>, i: nat)
    requires WastesFit(Wastes(sizes, |payload|)) && 0 < i < |sizes| && sizes[0] != CHECK_MARK
    requires |payload| > AsUsize(sizes[0]) && WastesFit(Wastes(sizes[1..], |payload[AsUsize(sizes[0])..]|))
    requires ChunkIs(sizes[1..], payload[AsUsize(sizes[0])..], i - 1)
    ensures ChunkIs(sizes, payload, i)
  {
    hide *;
    var size, next, at := AsUsize(sizes[0]), payload[AsUsize(sizes[0])..], Taken(sizes[1..], i - 1);
    TakenFirst(sizes, i);
    PadStep(sizes, payload);
    ChunkIsFits(sizes[1..], next, i - 1);
    ChunkOfRest(AsUsize(sizes[i]), payload, size, at);
    NextIs(sizes, payload, payload[..size], next, i);
  }

  lemma NextAfterEnd(sizes: seq<i32>, payload: seq<byte>, i: nat)
    requires WastesFit(Wastes(sizes, |payload|)) && 0 < i < |sizes| && sizes[0] != CHECK_MARK
    requires |payload| <= AsUsize(sizes[0]) && WastesFit(Wastes(sizes[1..], 0))
    requires ChunkIs(sizes[1..], [], i - 1)
    ensures ChunkIs(sizes, payload, i)
  {
    hide *;
    var size, at := AsUsize(sizes[0]), Taken(sizes[1..], i - 1);
    TakenFirst(sizes, i);
    PadStep(sizes, payload);
    ChunkIsFits(sizes[1..], [], i - 1);
    ChunkAfterEnd(AsUsize(sizes[i]), payload, size, at);
    NextIs(sizes, payload, Piece(payload, EndWaste(size, |payload|)), [], i);
  }

  lemma ChunkIsFits(sizes: seq<i32>, payload: seq<byte>, i: nat)
    requires WastesFit(Wastes(sizes, |payload|)) && i < |sizes| && ChunkIs(sizes, payload, i)
    ensures ChunkFits(AsUsize(sizes[i]), |payload|, Taken(sizes, i))
  {
  }

  /** Chunk i follows from chunk i - 1 of what the first size leaves. */
  lemma NextIs(sizes: seq<i32>, payload: seq<byte>, head: seq<byte>, next: seq<byte>, i: nat)
    requires WastesFit(Wastes(sizes, |payload|)) && 0 < i < |sizes| && WastesFit(Wastes(sizes[1..], |next|))
    requires ChunkIs(sizes[1..], next, i - 1) && Pad(sizes, payload) == [head] + Pad(sizes[1..], next)
    requires var size, at, n := AsUsize(sizes[0]), Taken(sizes[1..], i - 1), AsUsize(sizes[i]);
             && Taken(sizes, i) == size + at
             && ChunkFits(n, |next|, at) && ChunkFits(n, |payload|, size + at)
             && ChunkOf(n, next, at) == ChunkOf(n, payload, size + at)
    ensures ChunkIs(sizes, payload, i)
  {
    IndexNext(head, Pad(sizes[1..], next), i);
    hide Pad, Wastes, WastesFit, Taken, ChunkOf, ChunkFits, AsUsize, EncodeWaste, WasteBytes, EndWaste, Piece;
  }

  lemma IndexNext<T>(x: T, rest: seq<T>, i: nat)
    requires i > 0
    ensures i <= |rest| ==> ([x] + rest)[i] == rest[i - 1]
  {
  }

  lemma NoChecksRest(sizes: seq<i32>)
    requires NoChecks(sizes) && sizes != []
    ensures NoChecks(sizes[1..]) && sizes[0] != CHECK_MARK
  {
  }

  lemma FirstCut(sizes: seq<i32>, payload: seq<byte>)
    requires sizes != [] && sizes[0] != CHECK_MARK && WastesFit(Wastes(sizes, |payload|)) && |payload| > AsUsize(sizes[0])
    ensures ChunkIs(sizes, payload, 0)
  {
    PadStep(sizes, payload);
    hide Pad, Wastes, WasteBytes, WastesFit, EndWaste, Piece, EncodeWaste;
  }

  lemma FirstEnd(sizes: seq<i32>, payload: seq<byte>)
    requires sizes != [] && sizes[0] != CHECK_MARK && WastesFit(Wastes(sizes, |payload|)) && |payload| <= AsUsize(sizes[0])
    ensures ChunkIs(sizes, payload, 0)
  {
    PadStep(sizes, payload);
    assert Taken(sizes, 0) == 0;
    hide Pad, Wastes, WasteBytes, WastesFit, EndWaste, Piece, EncodeWaste, ChunkOf, ChunkFits, AsUsize;
    EndChunkIs(AsUsize(sizes[0]), payload);
  }

  lemma EndChunkIs(size: nat, payload: seq<byte>)
    requires |payload| <= size && WastesFit(EndWaste(size, |payload|))
    ensures ChunkFits(size, |payload|, 0)
    ensures Piece(payload, EndWaste(size, |payload|)) == ChunkOf(size, payload, 0)
  {
    EndFits(size, payload);
    hide WasteBytes, WastesFit, EndWaste, Piece, EncodeWaste;
    assert payload[0..] == payload && payload + [] == payload;
  }

  lemma ChunkOfRest(size: nat, payload: seq<byte>, first: nat, at: nat)
    requires first < |payload| && ChunkFits(size, |payload[first..]|, at)
    ensures ChunkFits(size, |payload|, first + at)
    ensures ChunkOf(size, payload[first..], at) == ChunkOf(size, payload, first + at)
  {
    hide EncodeWaste;
    var next := payload[first..];
    if at < |next| { assert next[at..] == payload[first + at..]; }
    if at + size < |next| { assert next[at..at + size] == payload[first + at..first + at + size]; }
  }

  lemma ChunkAfterEnd(size: nat, payload: seq<byte>, first: nat, at: nat)
    requires |payload| <= first && ChunkFits(size, 0, at)
    ensures ChunkFits(size, |payload|, first + at)
    ensures ChunkOf(size, [], at) == ChunkOf(size, payload, first + at)
  {
    hide EncodeWaste;
  }

  // ----- The reader does not see it.

  function NonWaste(fs: seq<Frame>): seq<Frame> {
    if fs == [] then []
    else if fs[0].cmd == CMD_WASTE then NonWaste(fs[1..])
    else [fs[0]] + NonWaste(fs[1..])
  }

  lemma {:induction false} NonWasteAppend(a: seq<Frame>, b: seq<Frame>)
    ensures NonWaste(a + b) == NonWaste(a) + NonWaste(b)
  {
    if a == [] {
      assert a + b == b;
    } else {
      NonWasteAppend(a[1..], b);
      assert (a + b)[0] == a[0] && (a + b)[1..] == a[1..] + b;
      Associative([a[0]], NonWaste(a[1..]), NonWaste(b));
    }
  }

  lemma {:induction false} WasteIsInvisible(ws: seq<nat>)
    ensures NonWaste(WasteFrames(ws)) == []
  {
    if ws != [] {
      WasteIsInvisible(ws[1..]);
      assert WasteFrames(ws)[1..] == WasteFrames(ws[1..]);
    }
  }

  /** One write of the session: whole frames, and the sizes the scheme gave for it. */
  datatype Packet = Packet(frames: seq<Frame>, sizes: seq<i32>)

  /** The frames of the packet fit, and so does the waste that it gets. */
  ghost predicate PacketOk(p: Packet) {
    AllFit(p.frames) && WastesFit(Wastes(p.sizes, |EncodeAll(p.frames)|))
  }

  ghost predicate PacketsOk(ps: seq<Packet>) {
    forall i :: 0 <= i < |ps| ==> PacketOk(ps[i])
  }

  /** All that is written to the connection. */
  function Stream(ps: seq<Packet>): seq<byte>
    requires PacketsOk(ps)
  {
    if ps == [] then []
    else
      assert PacketOk(ps[0]);
      Concat(Pad(ps[0].sizes, EncodeAll(ps[0].frames))) + Stream(ps[1..])
  }

  function FramesOf(ps: seq<Packet>): seq<Frame> {
    if ps == [] then [] else ps[0].frames + FramesOf(ps[1..])
  }

  lemma WasteReads(ws: seq<nat>, rest: seq<byte>)
    requires WastesFit(ws)
    ensures NonWaste(ReadFrames(WasteBytes(ws) + rest)) == NonWaste(ReadFrames(rest))
  {
    WasteBytesAreFrames(ws);
    hide ReadFrames, EncodeAll;
    FramesRoundTrip(WasteFrames(ws), rest);
    NonWasteAppend(WasteFrames(ws), ReadFrames(rest));
    WasteIsInvisible(ws);
    assert [] + NonWaste(ReadFrames(rest)) == NonWaste(ReadFrames(rest));
  }

  lemma PacketReads(p: Packet, rest: seq<byte>)
    requires PacketOk(p)
    ensures NonWaste(ReadFrames(Concat(Pad(p.sizes, EncodeAll(p.frames))) + rest)) ==
            NonWaste(p.frames) + NonWaste(ReadFrames(rest))
  {
    hide ReadFrames, Pad, WasteBytes, Wastes, EncodeAll, NonWaste, WastesFit;
    var payload := EncodeAll(p.frames);
    PadIsTransparent(p.sizes, payload);
    var ws := Wastes(p.sizes, |payload|);
    Associative(payload, WasteBytes(ws), rest);
    FramesRoundTrip(p.frames, WasteBytes(ws) + rest);
    NonWasteAppend(p.frames, ReadFrames(WasteBytes(ws) + rest));
    WasteReads(ws, rest);
  }

  /** Over a whole session, and however the scheme changes in between, the reader recovers the frames. */
  lemma {:induction false} StreamReads(ps: seq<Packet>)
    requires PacketsOk(ps)
    ensures NonWaste(ReadFrames(Stream(ps))) == NonWaste(FramesOf(ps))
  {
    hide ReadFrames, Pad;
    if ps == [] {
      NothingToRead();
    } else {
      assert PacketOk(ps[0]);
      PacketReads(ps[0], Stream(ps[1..]));
      StreamReads(ps[1..]);
      NonWasteAppend(ps[0].frames, FramesOf(ps[1..]));
    }
  }

  lemma NothingToRead()
    ensures ReadFrames([]) == []
  {
  }

  lemma NoWaste()
    ensures WasteBytes([]) == []
  {
  }

  lemma OneWaste(n: nat)
    requires n <= MAX_DATA
    ensures WasteBytes([n]) == EncodeWaste(n)
  {
  }
}
