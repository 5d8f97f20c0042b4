/** The XUDP codec: packets whose address repeats carry none, so that encoder and decoder must agree on
    the address last sent. */
module Xudp {
  import opened Options
  import opened Bytes
  import opened VlessAddress

  const MAX_PAYLOAD := 0xFFFF

  datatype Packet = Packet(payload: seq<byte>, addr: Address)

  /** Whether the encoder takes a packet; if not, nothing changes. */
  predicate Accepted(p: Packet) {
    |p.payload| <= MAX_PAYLOAD && WriteAddress(p.addr).Some?
  }

  function Meta(last: Option<Address>, addr: Address): seq<byte>
    requires WriteAddress(addr).Some?
  {
    if last == Some(addr) then U16(0) + [2, 1]
    else U16(0) + [1, 1] + [2] + WriteAddress(addr).value
  }

  lemma MetaLength(last: Option<Address>, addr: Address)
    requires WriteAddress(addr).Some?
    ensures 4 <= |Meta(last, addr)| < 0x1_0000
  {
  }

  function FrameBytes(last: Option<Address>, p: Packet): seq<byte>
    requires Accepted(p)
  {
    MetaLength(last, p.addr);
    var m := Meta(last, p.addr);
    U16(|m|) + m + U16(|p.payload|) + p.payload
  }

  /** The bytes of a run of packets, rejected ones leaving no trace. */
  function EncodeAll(last: Option<Address>, ps: seq<Packet>): seq<byte>
    decreases |ps|
  {
    if ps == [] then []
    else if !Accepted(ps[0]) then EncodeAll(last, ps[1..])
    else FrameBytes(last, ps[0]) + EncodeAll(Some(ps[0].addr), ps[1..])
  }

  datatype Decoded = Item(payload: seq<byte>, addr: Address) | NeedMore | Invalid

  /** One call of the decoder: its result, the new last address, and what is left of the buffer. */
  datatype Step = Step(result: Decoded, last: Option<Address>, src: seq<byte>)

  function Decode(utf8: Utf8, last: Option<Address>, src: seq<byte>): Step {
    if |src| < 2 then Step(NeedMore, last, src)
    else
      var metaLen := FromU16(src[0], src[1]);
      if metaLen < 4 then Step(Invalid, last, src)
      else if |src| < 2 + metaLen + 2 then Step(NeedMore, last, src)
      else if src[4] == 4 then Skip(last, src[2 + metaLen..])
      else if src[4] != 1 && src[4] != 2 then Step(Invalid, last, src)
      else
        var meta, src' := src[6..2 + metaLen], src[2 + metaLen..];
        if meta == [] then
          match last
          case None => Step(Invalid, last, src')
          case Some(addr) => Payload(addr, last, src')
        else if meta[0] != 2 then Step(Invalid, last, src')
        else
          match ReadAddress(utf8, meta[1..])
          case Bad => Step(Invalid, last, src')
          case Got(addr, _) => Payload(addr, Some(addr), src')
  }

  /** A keep-alive packet: its payload is dropped. */
  function Skip(last: Option<Address>, src: seq<byte>): Step
    requires |src| >= 2
  {
    var n := FromU16(src[0], src[1]);
    if |src| < 2 + n then Step(NeedMore, last, src) else Step(NeedMore, last, src[2 + n..])
  }

  function Payload(addr: Address, last: Option<Address>, src: seq<byte>): Step
    requires |src| >= 2
  {
    var n := FromU16(src[0], src[1]);
    if |src| < 2 + n then Step(NeedMore, last, src)
    else Step(Item(src[2..2 + n], addr), last, src[2 + n..])
  }

  /** Decoding until the decoder asks for more, as a framed stream does. */
  function DecodeAll(utf8: Utf8, last: Option<Address>, src: seq<byte>): seq<Decoded>
    decreases |src|
  {
    var s := Decode(utf8, last, src);
    if s.result.Item? && |s.src| < |src| then [s.result] + DecodeAll(utf8, s.last, s.src)
    else if s.result.Invalid? then [Invalid]
    else []
  }

  lemma DecodeConsumes(utf8: Utf8, last: Option<Address>, src: seq<byte>)
    ensures Decode(utf8, last, src).result.Item? ==> |Decode(utf8, last, src).src| < |src|
  {
  }

  function OnWireLast(last: Option<Address>): Option<Address> {
    match last
    case None => None
    case Some(a) => Some(OnWire(a))
  }

  function Items(ps: seq<Packet>): seq<Decoded> {
    if ps == [] then []
    else (if Accepted(ps[0]) then [Item(ps[0].payload, OnWire(ps[0].addr))] else []) + Items(ps[1..])
  }

  ghost predicate NamesOk(utf8: Utf8, ps: seq<Packet>) {
    forall i :: 0 <= i < |ps| ==> NameOk(utf8, ps[i].addr)
  }

  /** One packet, whatever went before: the two last addresses stay the same on the wire. */
  lemma PacketRoundTrip(utf8: Utf8, last: Option<Address>, p: Packet, rest: seq<byte>)
    requires Accepted(p) && NameOk(utf8, p.addr)
    ensures Decode(utf8, OnWireLast(last), FrameBytes(last, p) + rest) ==
            Step(Item(p.payload, OnWire(p.addr)), Some(OnWire(p.addr)), rest)
  {
    var m := Meta(last, p.addr);
    var src := FrameBytes(last, p) + rest;
    var tail := U16(|p.payload|) + p.payload + rest;
    MetaLength(last, p.addr);
    U16RoundTrip(|m|);
    FrameStarts(last, p, rest);
    TailDecodes(p.payload, OnWire(p.addr), rest);
    if last != Some(p.addr) {
      assert m[4..][1..] == WriteAddress(p.addr).value + [];
      AddressRoundTrip(utf8, p.addr, []);
    }
    hide FrameBytes, U16, Payload, ReadAddress, WriteAddress;
    assert src[6..2 + |m|] == m[4..];
  }

  /** A keep-alive frame of any metadata and payload. */
  function KeepAliveBytes(meta: seq<byte>, payload: seq<byte>): seq<byte>
    requires 4 <= |meta| < 0x1_0000 && meta[2] == 4 && |payload| <= MAX_PAYLOAD
  {
    U16(|meta|) + meta + U16(|payload|) + payload
  }

  /** A complete keep-alive frame is taken whole and changes nothing; the next call decodes the packet behind it.
      The call that took it asks for more input all the same. */
  lemma KeepAliveIsSkipped(utf8: Utf8, last: Option<Address>, meta: seq<byte>, payload: seq<byte>, p: Packet,
                           rest: seq<byte>)
    requires 4 <= |meta| < 0x1_0000 && meta[2] == 4 && |payload| <= MAX_PAYLOAD
    requires Accepted(p) && NameOk(utf8, p.addr)
    ensures var next := FrameBytes(last, p) + rest;
            var s := Decode(utf8, OnWireLast(last), KeepAliveBytes(meta, payload) + next);
            && s == Step(NeedMore, OnWireLast(last), next)
            && Decode(utf8, s.last, s.src) == Step(Item(p.payload, OnWire(p.addr)), Some(OnWire(p.addr)), rest)
  {
    PacketRoundTrip(utf8, last, p, rest);
    var next := FrameBytes(last, p) + rest;
    KeepAliveStarts(meta, payload, next);
    U16RoundTrip(|meta|);
    TailIsSkipped(payload, OnWireLast(last), next);
    hide FrameBytes, U16, Skip, ReadAddress, WriteAddress, KeepAliveBytes, Meta;
  }

  lemma KeepAliveStarts(meta: seq<byte>, payload: seq<byte>, rest: seq<byte>)
    requires 4 <= |meta| < 0x1_0000 && meta[2] == 4 && |payload| <= MAX_PAYLOAD
    ensures var src := KeepAliveBytes(meta, payload) + rest;
            && |src| == 4 + |meta| + |payload| + |rest|
            && src[0] == U16(|meta|)[0] && src[1] == U16(|meta|)[1] && src[4] == 4
            && src[2 + |meta|..] == U16(|payload|) + payload + rest
  {
    hide U16;
    assert KeepAliveBytes(meta, payload) + rest == U16(|meta|) + meta + (U16(|payload|) + payload + rest);
  }

  lemma TailIsSkipped(payload: seq<byte>, last: Option<Address>, rest: seq<byte>)
    requires |payload| <= MAX_PAYLOAD
    ensures Skip(last, U16(|payload|) + payload + rest) == Step(NeedMore, last, rest)
  {
    var tail := U16(|payload|) + payload + rest;
    U16RoundTrip(|payload|);
    assert tail[0] == U16(|payload|)[0] && tail[1] == U16(|payload|)[1];
    assert tail[2 + |payload|..] == rest;
  }

  /** Where the metadata of a frame lies. */
  lemma FrameStarts(last: Option<Address>, p: Packet, rest: seq<byte>)
    requires Accepted(p)
    ensures var m, src := Meta(last, p.addr), FrameBytes(last, p) + rest;
            && |m| < 0x1_0000 && |src| == 4 + |m| + |p.payload| + |rest|
            && src[0] == U16(|m|)[0] && src[1] == U16(|m|)[1] && src[4] == m[2]
            && src[6..2 + |m|] == m[4..] && src[2 + |m|..] == U16(|p.payload|) + p.payload + rest
  {
    MetaLength(last, p.addr);
    var m, src := Meta(last, p.addr), FrameBytes(last, p) + rest;
    hide Meta, U16;
    assert src == U16(|m|) + m + (U16(|p.payload|) + p.payload + rest);
    assert src[2..2 + |m|] == m;
  }

  lemma TailDecodes(payload: seq<byte>, addr: Address, rest: seq<byte>)
    requires |payload| <= MAX_PAYLOAD
    ensures forall last :: Payload(addr, last, U16(|payload|) + payload + rest) == Step(Item(payload, addr), last, rest)
  {
    var tail := U16(|payload|) + payload + rest;
    U16RoundTrip(|payload|);
    assert tail[0] == U16(|payload|)[0] && tail[1] == U16(|payload|)[1];
    assert tail[2..2 + |payload|] == payload && tail[2 + |payload|..] == rest;
  }

  /** The round trip over any run: a fresh decoder gets the accepted packets, in order. */
  lemma {:induction false} RunRoundTrip(utf8: Utf8, last: Option<Address>, ps: seq<Packet>)
    requires NamesOk(utf8, ps)
    ensures DecodeAll(utf8, OnWireLast(last), EncodeAll(last, ps)) == Items(ps)
    decreases |ps|
  {
    hide Decode, FrameBytes, Accepted;
    if ps == [] {
      NothingDecodes(utf8, OnWireLast(last));
    } else if !Accepted(ps[0]) {
      RunRoundTrip(utf8, last, ps[1..]);
    } else {
      PacketRoundTrip(utf8, last, ps[0], EncodeAll(Some(ps[0].addr), ps[1..]));
      DecodeConsumes(utf8, OnWireLast(last), EncodeAll(last, ps));
      RunRoundTrip(utf8, Some(ps[0].addr), ps[1..]);
    }
  }

  lemma NothingDecodes(utf8: Utf8, last: Option<Address>)
    ensures Decode(utf8, last, []) == Step(NeedMore, last, [])
  {
  }

  /** Whether the metadata and the payload length are there. */
  predicate MetaIsThere(src: seq<byte>) {
    |src| >= 2 && |src| >= 2 + FromU16(src[0], src[1]) + 2
  }

  predicate KnownType(src: seq<byte>)
    requires MetaIsThere(src) && FromU16(src[0], src[1]) >= 4
  {
    src[4] == 1 || src[4] == 2 || src[4] == 4
  }

  /** Which calls leave the buffer alone: the decoder waits without harm exactly while a valid metadata length
      is not matched by metadata and payload length, and keeps the buffer besides only when it reports a bad
      length or type. In all other cases the metadata is gone when the call returns, whatever it returns. */
  lemma CutInsidePayload(utf8: Utf8, last: Option<Address>, src: seq<byte>)
    ensures Decode(utf8, last, src) == Step(NeedMore, last, src)
       <==> |src| < 2 || (FromU16(src[0], src[1]) >= 4 && !MetaIsThere(src))
    ensures Decode(utf8, last, src).src == src
       <==> |src| < 2 || FromU16(src[0], src[1]) < 4 || !MetaIsThere(src) || !KnownType(src)
    ensures |src| >= 2 && FromU16(src[0], src[1]) >= 4 && MetaIsThere(src) && KnownType(src) ==>
      |Decode(utf8, last, src).src| <= |src| - 2 - FromU16(src[0], src[1])
  {
    hide ReadAddress;
    if |src| >= 2 && FromU16(src[0], src[1]) >= 4 && MetaIsThere(src) && KnownType(src) {
      var n: int := FromU16(src[0], src[1]);
      var rest := src[2 + n..];
      SkipShortens(last, rest);
      forall addr, last' ensures |Payload(addr, last', rest).src| <= |rest| {
        PayloadShortens(addr, last', rest);
      }
      hide Skip, Payload;
      assert |Decode(utf8, last, src).src| <= |rest|;
    }
  }

  lemma SkipShortens(last: Option<Address>, src: seq<byte>)
    requires |src| >= 2
    ensures |Skip(last, src).src| <= |src|
  {
  }

  lemma PayloadShortens(addr: Address, last: Option<Address>, src: seq<byte>)
    requires |src| >= 2
    ensures |Payload(addr, last, src).src| <= |src|
  {
  }

  /** What the decoder refuses: metadata that is too short or of no known type, a repeated address when there is
      none, a network other than 2, and an address that cannot be read. */
  lemma RefusedExactly(utf8: Utf8, last: Option<Address>, src: seq<byte>)
    requires |src| >= 2
    ensures var n: int := FromU16(src[0], src[1]);
            Decode(utf8, last, src).result.Invalid? <==>
              n < 4 || (MetaIsThere(src) && src[4] != 4 &&
                        (!KnownType(src) || (if n == 4 then last.None?
                                             else src[6] != 2 || ReadAddress(utf8, src[7..2 + n]).Bad?)))
  {
    hide ReadAddress;
    var n: int := FromU16(src[0], src[1]);
    if n > 4 && MetaIsThere(src) {
      assert src[6..2 + n][0] == src[6] && src[6..2 + n][1..] == src[7..2 + n];
    }
  }

  /** So a frame cut inside its payload is lost: the rest of the decoder's input starts at the payload
      length instead of at the frame. */
  lemma CutFrameIsLost(utf8: Utf8, last: Option<Address>, p: Packet, k: nat)
    requires Accepted(p) && NameOk(utf8, p.addr)
    requires 4 + |Meta(last, p.addr)| <= k < |FrameBytes(last, p)|
    ensures Decode(utf8, OnWireLast(last), FrameBytes(last, p)[..k]) ==
            Step(NeedMore, Some(OnWire(p.addr)), FrameBytes(last, p)[2 + |Meta(last, p.addr)|..k])
  {
    var m := Meta(last, p.addr);
    MetaLength(last, p.addr);
    U16RoundTrip(|m|);
    CutStarts(last, p, k);
    CutTailWaits(p.payload, OnWire(p.addr), k - 2 - |m|);
    if last != Some(p.addr) {
      assert m[4..][1..] == WriteAddress(p.addr).value + [];
      AddressRoundTrip(utf8, p.addr, []);
    }
    hide FrameBytes, U16, Payload, ReadAddress, WriteAddress;
  }

  /** Where the metadata of a cut frame lies. */
  lemma CutStarts(last: Option<Address>, p: Packet, k: nat)
    requires Accepted(p) && 4 + |Meta(last, p.addr)| <= k < |FrameBytes(last, p)|
    ensures var m, src := Meta(last, p.addr), FrameBytes(last, p)[..k];
            && |m| < 0x1_0000 && |src| >= 4 + |m| && k < 4 + |m| + |p.payload|
            && src[0] == U16(|m|)[0] && src[1] == U16(|m|)[1] && src[4] == m[2]
            && src[6..2 + |m|] == m[4..]
            && src[2 + |m|..] == FrameBytes(last, p)[2 + |m|..k] == (U16(|p.payload|) + p.payload)[..k - 2 - |m|]
  {
    MetaLength(last, p.addr);
    FrameStarts(last, p, []);
    var m, f, tail := Meta(last, p.addr), FrameBytes(last, p), U16(|p.payload|) + p.payload;
    hide Meta, U16, FrameBytes;
    assert f + [] == f && tail + [] == tail;
    assert f[..k][6..2 + |m|] == f[6..2 + |m|];
    assert f[2 + |m|..k] == f[2 + |m|..][..k - 2 - |m|] == tail[..k - 2 - |m|];
  }

  lemma CutTailWaits(payload: seq<byte>, addr: Address, n: nat)
    requires |payload| <= MAX_PAYLOAD && 2 <= n < 2 + |payload|
    ensures var tail := (U16(|payload|) + payload)[..n];
            forall last :: Payload(addr, last, tail) == Step(NeedMore, last, tail)
  {
    var tail := (U16(|payload|) + payload)[..n];
    U16RoundTrip(|payload|);
    assert tail[0] == U16(|payload|)[0] && tail[1] == U16(|payload|)[1];
  }

  // ----- The codec in the program's own form.

  lemma MetaParts(last: Option<Address>, addr: Address)
    requires WriteAddress(addr).Some?
    ensures Meta(last, addr) == if last == Some(addr) then U16(0) + [2] + [1]
                                else U16(0) + [1] + [1] + [2] + WriteAddress(addr).value
  {
    hide WriteAddress, U16;
    assert U16(0) + [2] + [1] == U16(0) + [2, 1] && U16(0) + [1] + [1] == U16(0) + [1, 1];
  }

  lemma FrameParts(dst: seq<byte>, last: Option<Address>, p: Packet)
    requires Accepted(p)
    ensures var m := Meta(last, p.addr);
            |m| < 0x1_0000 && dst + U16(|m|) + m + U16(|p.payload|) + p.payload == dst + FrameBytes(last, p)
  {
    MetaLength(last, p.addr);
    var m := Meta(last, p.addr);
    hide WriteAddress, U16, Meta;
    Associative(dst, U16(|m|), m);
    Associative(dst, U16(|m|) + m, U16(|p.payload|));
    Associative(dst, U16(|m|) + m + U16(|p.payload|), p.payload);
  }

  class XudpCodec {
    const utf8: Utf8
    var lastAddr: Option<Address>

    /** The last address was written or read, so it can be written. */
    ghost predicate Valid()
      reads this
    {
      lastAddr.Some? ==> WriteAddress(lastAddr.value).Some?
    }

    constructor (utf8: Utf8)
      ensures Valid() && this.utf8 == utf8 && lastAddr == None
    {
      this.utf8 := utf8;
      lastAddr := None;
    }

    /** Append one packet to `dst`, or refuse it and change nothing. */
    method Encode(payload: seq<byte>, addr: Address, dst: seq<byte>) returns (ok: bool, dst': seq<byte>)
      requires Valid()
      modifies this
      ensures Valid()
      ensures ok == Accepted(Packet(payload, addr))
      ensures dst' == dst + (if ok then FrameBytes(old(lastAddr), Packet(payload, addr)) else [])
      ensures lastAddr == if ok then Some(addr) else old(lastAddr)
    {
      dst' := dst;
      hide WriteAddress, U16, FrameBytes, Meta;
      if |payload| > MAX_PAYLOAD {
        return false, dst';
      }
      ghost var last := lastAddr;
      var useCompact := lastAddr == Some(addr);
      var meta: seq<byte> := U16(0);
      meta := meta + [if useCompact then 2 else 1];
      meta := meta + [1];
      if !useCompact {
        meta := meta + [2];
        var written := WriteAddress(addr);
        if written.None? {
          return false, dst';
        }
        meta := meta + written.value;
        lastAddr := Some(addr);
      }
      MetaParts(last, addr);
      MetaLength(last, addr);
      FrameParts(dst, last, Packet(payload, addr));
      dst' := dst' + U16(|meta|);
      dst' := dst' + meta;
      dst' := dst' + U16(|payload|);
      dst' := dst' + payload;
      return true, dst';
    }

    /** One call of the decoder, consuming from the front of `src` as it goes. */
    method DecodeNext(src: seq<byte>) returns (r: Decoded, src': seq<byte>)
      modifies this
      ensures Step(r, lastAddr, src') == Decode(utf8, old(lastAddr), src)
    {
      src' := src;
      if |src'| < 2 {
        return NeedMore, src';
      }
      var metaLen: int := FromU16(src'[0], src'[1]);
      if metaLen < 4 {
        return Invalid, src';
      }
      if |src'| < 2 + metaLen + 2 {
        return NeedMore, src';
      }
      var packetType := src'[4];
      if packetType == 4 {
        src' := src'[2 + metaLen..];
        var skipped: int := FromU16(src'[0], src'[1]);
        if |src'| < 2 + skipped {
          return NeedMore, src';
        }
        src' := src'[2 + skipped..];
        return NeedMore, src';
      }
      if packetType != 1 && packetType != 2 {
        return Invalid, src';
      }
      var meta := src'[6..2 + metaLen];
      src' := src'[2 + metaLen..];
      var addr;
      if meta == [] {
        if lastAddr.None? {
          return Invalid, src';
        }
        addr := lastAddr.value;
      } else {
        if meta[0] != 2 {
          return Invalid, src';
        }
        var read := ReadAddress(utf8, meta[1..]);
        if read.Bad? {
          return Invalid, src';
        }
        addr := read.value;
        lastAddr := Some(addr);
      }
      var payloadLen: int := FromU16(src'[0], src'[1]);
      if |src'| < 2 + payloadLen {
        return NeedMore, src';
      }
      var payload := src'[2..2 + payloadLen];
      src' := src'[2 + payloadLen..];
      return Item(payload, addr), src';
    }
  }
}
