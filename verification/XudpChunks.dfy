/** The XUDP decoder behind a buffer that fills in chunks: which cuts it survives. */
module XudpChunks {
  import opened Options
  import opened Bytes
  import opened VlessAddress
  import opened Xudp

  /** Decoding until the decoder asks for more: what came out, and the state that waits for the next chunk. */
  function DecodeLoop(utf8: Utf8, last: Option<Address>, src: seq<byte>): (seq<Decoded>, Option<Address>, seq<byte>)
    decreases |src|
  {
    var s := Decode(utf8, last, src);
    if s.result.Item? && |s.src| < |src| then
      var (items, last', src') := DecodeLoop(utf8, s.last, s.src);
      ([s.result] + items, last', src')
    else (if s.result.Invalid? then [Invalid] else [], s.last, s.src)
  }

  /** Everything that comes out when the input arrives in these chunks. */
  function Feed(utf8: Utf8, last: Option<Address>, buffer: seq<byte>, chunks: seq<seq<byte>>): seq<Decoded>
    decreases |chunks|
  {
    if chunks == [] then []
    else
      var (items, last', buffer') := DecodeLoop(utf8, last, buffer + chunks[0]);
      items + Feed(utf8, last', buffer', chunks[1..])
  }

  // ----- One cut.

  /** The frame as far as the payload length. */
  function HeadLength(last: Option<Address>, p: Packet): nat
    requires Accepted(p)
  {
    4 + |Meta(last, p.addr)|
  }

  lemma FrameLength(last: Option<Address>, p: Packet)
    requires Accepted(p)
    ensures |FrameBytes(last, p)| == HeadLength(last, p) + |p.payload|
    ensures 8 <= HeadLength(last, p)
  {
    MetaLength(last, p.addr);
  }

  /** A frame cut before its payload is left alone. */
  lemma CutHeadWaits(utf8: Utf8, last: Option<Address>, p: Packet, k: nat)
    requires Accepted(p) && k < HeadLength(last, p)
    ensures k < |FrameBytes(last, p)|
    ensures forall l :: Decode(utf8, l, FrameBytes(last, p)[..k]) == Step(NeedMore, l, FrameBytes(last, p)[..k])
  {
    FrameLength(last, p);
    var m := Meta(last, p.addr);
    var f := FrameBytes(last, p);
    MetaLength(last, p.addr);
    U16RoundTrip(|m|);
    assert f == U16(|m|) + (m + U16(|p.payload|) + p.payload);
    assert f[0] == U16(|m|)[0] && f[1] == U16(|m|)[1];
    hide FrameBytes, Meta, Decode;
    var src := f[..k];
    forall l ensures Decode(utf8, l, src) == Step(NeedMore, l, src) {
      CutInsidePayload(utf8, l, src);
    }
  }

  /** What is left of a cut frame, once the rest has come, is the payload behind its length: too short for the
      metadata that it announces, and so never a packet. */
  lemma CutPayloadNeverDecodes(utf8: Utf8, last: Option<Address>, payload: seq<byte>)
    requires |payload| <= MAX_PAYLOAD
    ensures !Decode(utf8, last, U16(|payload|) + payload).result.Item?
  {
    U16RoundTrip(|payload|);
    var src := U16(|payload|) + payload;
    assert src[0] == U16(|payload|)[0] && src[1] == U16(|payload|)[1];
    hide U16;
  }

  /** A frame that arrives in two parts: the packet comes out if and only if the cut is not inside the payload. */
  lemma CutThenRest(utf8: Utf8, last: Option<Address>, p: Packet, k: nat)
    requires Accepted(p) && NameOk(utf8, p.addr) && k < |FrameBytes(last, p)|
    ensures var f := FrameBytes(last, p);
            var first := Decode(utf8, OnWireLast(last), f[..k]);
            var second := Decode(utf8, first.last, first.src + f[k..]);
            && first.result == NeedMore
            && (second.result == Item(p.payload, OnWire(p.addr)) <==> k < HeadLength(last, p))
            && (k >= HeadLength(last, p) ==> !second.result.Item?)
            && (k < HeadLength(last, p) ==> second == Step(Item(p.payload, OnWire(p.addr)), Some(OnWire(p.addr)), []))
  {
    var f := FrameBytes(last, p);
    FrameLength(last, p);
    assert f[..k] + f[k..] == f;
    if k < HeadLength(last, p) {
      CutHeadWaits(utf8, last, p, k);
      hide Decode, FrameBytes, HeadLength;
      PacketRoundTrip(utf8, last, p, []);
      assert f + [] == f;
    } else {
      LostPart(last, p, k);
      var n := HeadLength(last, p) - 2;
      CutFrameIsLost(utf8, last, p, k);
      hide Decode, FrameBytes;
      CutPayloadNeverDecodes(utf8, Some(OnWire(p.addr)), p.payload);
    }
  }

  lemma LostPart(last: Option<Address>, p: Packet, k: nat)
    requires Accepted(p) && HeadLength(last, p) <= k < |FrameBytes(last, p)|
    ensures var f, n := FrameBytes(last, p), HeadLength(last, p) - 2;
            f[n..k] + f[k..] == U16(|p.payload|) + p.payload
  {
    var m := Meta(last, p.addr);
    MetaLength(last, p.addr);
    hide Meta, U16;
    var f, n := FrameBytes(last, p), HeadLength(last, p) - 2;
    assert f[n..k] + f[k..] == f[n..];
    assert f == (U16(|m|) + m) + (U16(|p.payload|) + p.payload) && |U16(|m|) + m| == n;
  }

  // ----- Any number of cuts.

  /** Where the first n bytes of a run end: what has come out by then, and how far into what is left. */
  datatype Place = Place(done: seq<Decoded>, last: Option<Address>, rest: seq<Packet>, k: nat)

  function PlaceOf(last: Option<Address>, ps: seq<Packet>, n: nat): Place
    decreases |ps|
  {
    if ps == [] then Place([], last, [], n)
    else if !Accepted(ps[0]) then PlaceOf(last, ps[1..], n)
    else if n < |FrameBytes(last, ps[0])| then Place([], last, ps, n)
    else
      var q := PlaceOf(Some(ps[0].addr), ps[1..], n - |FrameBytes(last, ps[0])|);
      q.(done := [Item(ps[0].payload, OnWire(ps[0].addr))] + q.done)
  }

  /** The cut after n bytes is at the end of a frame or before the payload of one. */
  predicate Harmless(last: Option<Address>, ps: seq<Packet>, n: nat)
    decreases |ps|
  {
    if ps == [] then n == 0
    else if !Accepted(ps[0]) then Harmless(last, ps[1..], n)
    else if n < |FrameBytes(last, ps[0])| then n < HeadLength(last, ps[0])
    else Harmless(Some(ps[0].addr), ps[1..], n - |FrameBytes(last, ps[0])|)
  }

  /** Decoding up to a harmless cut leaves the decoder in step with the encoder, and the buffer as it was. */
  lemma {:induction false} DecodesToPlace(utf8: Utf8, last: Option<Address>, ps: seq<Packet>, n: nat)
    requires NamesOk(utf8, ps) && Harmless(last, ps, n)
    ensures n <= |EncodeAll(last, ps)|
    ensures var q := PlaceOf(last, ps, n);
            && q.k <= |EncodeAll(q.last, q.rest)|
            && DecodeLoop(utf8, OnWireLast(last), EncodeAll(last, ps)[..n]) ==
               (q.done, OnWireLast(q.last), EncodeAll(q.last, q.rest)[..q.k])
    decreases |ps|
  {
    hide Decode, FrameBytes, Accepted, HeadLength;
    if ps == [] {
      NothingDecodes(utf8, OnWireLast(last));
    } else if !Accepted(ps[0]) {
      DecodesToPlace(utf8, last, ps[1..], n);
    } else {
      var p, f := ps[0], FrameBytes(last, ps[0]);
      var later := EncodeAll(Some(p.addr), ps[1..]);
      var all := EncodeAll(last, ps);
      assert all == f + later;
      if n < |f| {
        CutHeadWaits(utf8, last, p, n);
        assert all[..n] == f[..n];
      } else {
        DecodesToPlace(utf8, Some(p.addr), ps[1..], n - |f|);
        assert all[..n] == f + later[..n - |f|];
        PacketRoundTrip(utf8, last, p, later[..n - |f|]);
        FrameIsLong(last, p);
      }
    }
  }

  lemma FrameIsLong(last: Option<Address>, p: Packet)
    requires Accepted(p)
    ensures |FrameBytes(last, p)| > 0
  {
    FrameLength(last, p);
  }

  /** What is left after a place is what is left of the run. */
  lemma {:induction false} PlaceSplits(utf8: Utf8, last: Option<Address>, ps: seq<Packet>, n: nat, m: nat)
    requires NamesOk(utf8, ps) && n <= m
    ensures var q := PlaceOf(last, ps, n);
            && Items(ps) == q.done + Items(q.rest) && NamesOk(utf8, q.rest)
            && (Harmless(last, ps, m) <==> Harmless(q.last, q.rest, q.k + (m - n)))
            && (n <= |EncodeAll(last, ps)| ==>
                  q.k <= |EncodeAll(q.last, q.rest)| && EncodeAll(last, ps)[n..] == EncodeAll(q.last, q.rest)[q.k..])
    decreases |ps|
  {
    hide FrameBytes, Accepted, HeadLength;
    if ps != [] {
      if !Accepted(ps[0]) {
        PlaceSplits(utf8, last, ps[1..], n, m);
      } else {
        var f := FrameBytes(last, ps[0]);
        var later := EncodeAll(Some(ps[0].addr), ps[1..]);
        assert EncodeAll(last, ps) == f + later;
        if n >= |f| {
          PlaceSplits(utf8, Some(ps[0].addr), ps[1..], n - |f|, m - |f|);
          if n <= |f + later| { assert (f + later)[n..] == later[n - |f|..]; }
        }
      }
    }
  }

  /** A place is where decoding stops: nothing more comes out there. */
  lemma {:induction false} PlaceWaits(last: Option<Address>, ps: seq<Packet>, n: nat)
    ensures var q := PlaceOf(last, ps, n); PlaceOf(q.last, q.rest, q.k).done == []
    decreases |ps|
  {
    hide FrameBytes, Accepted;
    if ps != [] {
      if !Accepted(ps[0]) {
        PlaceWaits(last, ps[1..], n);
      } else if n >= |FrameBytes(last, ps[0])| {
        PlaceWaits(Some(ps[0].addr), ps[1..], n - |FrameBytes(last, ps[0])|);
      }
    }
  }

  lemma {:induction false} PlaceAtEnd(last: Option<Address>, ps: seq<Packet>)
    ensures PlaceOf(last, ps, |EncodeAll(last, ps)|).done == Items(ps)
    decreases |ps|
  {
    hide FrameBytes, Accepted;
    if ps != [] {
      if !Accepted(ps[0]) {
        PlaceAtEnd(last, ps[1..]);
      } else {
        PlaceAtEnd(Some(ps[0].addr), ps[1..]);
      }
    }
  }

  /** All cuts between the chunks, after `k` bytes that are there already, are harmless. */
  ghost predicate AllHarmless(last: Option<Address>, ps: seq<Packet>, k: nat, chunks: seq<seq<byte>>) {
    forall i :: 0 < i <= |chunks| ==> Harmless(last, ps, k + |Concat(chunks[..i])|)
  }

  lemma HarmlessLater(utf8: Utf8, last: Option<Address>, ps: seq<Packet>, k: nat, chunks: seq<seq<byte>>)
    requires NamesOk(utf8, ps) && chunks != [] && AllHarmless(last, ps, k, chunks)
    ensures var q := PlaceOf(last, ps, k + |chunks[0]|);
            Harmless(last, ps, k + |chunks[0]|) && AllHarmless(q.last, q.rest, q.k, chunks[1..])
  {
    var n := k + |chunks[0]|;
    var q := PlaceOf(last, ps, n);
    assert chunks[..1] == [chunks[0]];
    ConcatOne(chunks[0]);
    hide Harmless, PlaceOf;
    assert Harmless(last, ps, k + |Concat(chunks[..1])|);
    forall i | 0 < i <= |chunks[1..]|
      ensures Harmless(q.last, q.rest, q.k + |Concat(chunks[1..][..i])|)
    {
      assert chunks[..i + 1] == [chunks[0]] + chunks[1..][..i];
      ConcatAppend([chunks[0]], chunks[1..][..i]);
      var m := n + |Concat(chunks[1..][..i])|;
      assert Harmless(last, ps, k + |Concat(chunks[..i + 1])|);
      PlaceSplits(utf8, last, ps, n, m);
    }
  }

  /** One chunk, up to a harmless cut: the decoder hands out what is complete and keeps the rest. */
  lemma OneChunk(utf8: Utf8, last: Option<Address>, ps: seq<Packet>, k: nat, chunk: seq<byte>)
    requires NamesOk(utf8, ps) && k + |chunk| <= |EncodeAll(last, ps)| && chunk == EncodeAll(last, ps)[k..k + |chunk|]
    requires Harmless(last, ps, k + |chunk|)
    ensures var q := PlaceOf(last, ps, k + |chunk|);
            && NamesOk(utf8, q.rest) && q.k <= |EncodeAll(q.last, q.rest)| && Items(ps) == q.done + Items(q.rest)
            && EncodeAll(last, ps)[k + |chunk|..] == EncodeAll(q.last, q.rest)[q.k..]
            && DecodeLoop(utf8, OnWireLast(last), EncodeAll(last, ps)[..k] + chunk) ==
               (q.done, OnWireLast(q.last), EncodeAll(q.last, q.rest)[..q.k])
  {
    hide EncodeAll, DecodeLoop, PlaceOf, Harmless;
    var n := k + |chunk|;
    assert EncodeAll(last, ps)[..k] + chunk == EncodeAll(last, ps)[..n];
    DecodesToPlace(utf8, last, ps, n);
    PlaceSplits(utf8, last, ps, n, n);
  }

  lemma {:induction false} FeedFrom(utf8: Utf8, last: Option<Address>, ps: seq<Packet>, k: nat, chunks: seq<seq<byte>>)
    requires NamesOk(utf8, ps) && k <= |EncodeAll(last, ps)| && PlaceOf(last, ps, k).done == []
    requires Concat(chunks) == EncodeAll(last, ps)[k..] && AllHarmless(last, ps, k, chunks)
    ensures Feed(utf8, OnWireLast(last), EncodeAll(last, ps)[..k], chunks) == Items(ps)
    decreases |chunks|
  {
    var all := EncodeAll(last, ps);
    if chunks == [] {
      assert all[k..] == [];
      PlaceAtEnd(last, ps);
    } else {
      var n := k + |chunks[0]|;
      HarmlessLater(utf8, last, ps, k, chunks);
      assert all[k..] == chunks[0] + Concat(chunks[1..]);
      assert chunks[0] == all[k..n] && Concat(chunks[1..]) == all[n..];
      hide EncodeAll, DecodeLoop, Harmless, AllHarmless, Concat, Items, PlaceOf;
      OneChunk(utf8, last, ps, k, chunks[0]);
      PlaceWaits(last, ps, n);
      var q := PlaceOf(last, ps, n);
      FeedFrom(utf8, q.last, q.rest, q.k, chunks[1..]);
    }
  }

  /** If no cut is inside a payload, it does not matter how the bytes of a run are cut: the packets that come out
      are those of the whole run. */
  lemma ChunksDecode(utf8: Utf8, last: Option<Address>, ps: seq<Packet>, chunks: seq<seq<byte>>)
    requires NamesOk(utf8, ps) && Concat(chunks) == EncodeAll(last, ps) && AllHarmless(last, ps, 0, chunks)
    ensures Feed(utf8, OnWireLast(last), [], chunks) == Items(ps)
    ensures Feed(utf8, OnWireLast(last), [], chunks) == DecodeAll(utf8, OnWireLast(last), Concat(chunks))
  {
    var all := EncodeAll(last, ps);
    assert all[0..] == all && all[..0] == [];
    NothingAtFirst(last, ps);
    hide EncodeAll, Feed, AllHarmless, Concat, PlaceOf;
    FeedFrom(utf8, last, ps, 0, chunks);
    RunRoundTrip(utf8, last, ps);
  }

  lemma {:induction false} NothingAtFirst(last: Option<Address>, ps: seq<Packet>)
    ensures PlaceOf(last, ps, 0).done == []
    decreases |ps|
  {
    if ps != [] {
      if Accepted(ps[0]) { FrameIsLong(last, ps[0]); } else { NothingAtFirst(last, ps[1..]); }
    }
  }
}
