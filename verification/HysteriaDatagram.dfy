/** Hysteria UDP datagrams: the header, its parser, and the splitting of a payload over datagrams. */
module HysteriaDatagram {
  import opened Options
  import opened Bytes
  import opened Varint

  datatype Fragment = Fragment(sessionId: u32, packetId: u16, fragId: byte, fragCount: byte,
                               addr: seq<byte>, payload: seq<byte>)

  function HeaderLen(addr: seq<byte>): nat {
    4 + 2 + 1 + 1 + VarintLen(|addr|) + |addr|
  }

  function Encode(f: Fragment): seq<byte>
    requires |f.addr| < TWO_62
  {
    BigEndian(f.sessionId, 4) + BigEndian(f.packetId, 2) + [f.fragId, f.fragCount]
    + WriteVarint(|f.addr|) + f.addr + f.payload
  }

  function Parse(d: seq<byte>): Option<Fragment> {
    if |d| < 4 + 2 + 1 + 1 then None
    else
      FromBigEndianFits(d);
      var sessionId, packetId := FromBigEndian(d[0..4]), FromBigEndian(d[4..6]);
      match DecodeVarint(d[8..])
      case None => None
      case Some((addrLen, viLen)) =>
        DecodedLength(d[8..]);
        var rest := d[8..][viLen..];
        if |rest| < addrLen then None
        else Some(Fragment(sessionId, packetId, d[6], d[7], rest[..addrLen], rest[addrLen..]))
  }

  lemma FromBigEndianFits(d: seq<byte>)
    requires |d| >= 6
    ensures FromBigEndian(d[0..4]) < 0x1_0000_0000 && FromBigEndian(d[4..6]) < 0x1_0000
  {
    Powers();
    FromBigEndianBound(d[0..4]);
    FromBigEndianBound(d[4..6]);
  }

  lemma DecodedLength(input: seq<byte>)
    ensures DecodeVarint(input).Some? ==> DecodeVarint(input).value.1 <= |input|
  {
  }

  /** The receiver gets back every part of the header, and the slice. */
  lemma ParseRoundTrip(f: Fragment)
    requires |f.addr| < TWO_62
    ensures Parse(Encode(f)) == Some(f) && |Encode(f)| == HeaderLen(f.addr) + |f.payload|
  {
    hide BigEndian, FromBigEndian, WriteVarint, DecodeVarint, VarintLen;
    var d := Encode(f);
    var tail := WriteVarint(|f.addr|) + (f.addr + f.payload);
    LengthIs(|f.addr|);
    assert d == BigEndian(f.sessionId, 4) + BigEndian(f.packetId, 2) + [f.fragId, f.fragCount] + tail;
    Parts(BigEndian(f.sessionId, 4), BigEndian(f.packetId, 2), f.fragId, f.fragCount, tail);
    IdsRoundTrip(f.sessionId, f.packetId);
    VarintDecodes(|f.addr|, f.addr + f.payload);
    Splits(WriteVarint(|f.addr|), f.addr + f.payload);
    Splits(f.addr, f.payload);
  }

  lemma Parts(a: seq<byte>, b: seq<byte>, x: byte, y: byte, tail: seq<byte>)
    requires |a| == 4 && |b| == 2
    ensures var d := a + b + [x, y] + tail;
            |d| >= 8 && d[0..4] == a && d[4..6] == b && d[6] == x && d[7] == y && d[8..] == tail
  {
    var d := a + b + [x, y] + tail;
    assert d[0..4] == a && d[4..6] == b && d[8..] == tail;
  }

  lemma Splits(a: seq<byte>, b: seq<byte>)
    ensures (a + b)[..|a|] == a && (a + b)[|a|..] == b
  {
  }

  lemma IdsRoundTrip(sessionId: u32, packetId: u16)
    ensures FromBigEndian(BigEndian(sessionId, 4)) == sessionId && FromBigEndian(BigEndian(packetId, 2)) == packetId
  {
    Powers();
    BigEndianRoundTrip(sessionId, 4);
    BigEndianRoundTrip(packetId, 2);
  }

  // ----- Fragmentation.

  /** Where slice i starts. */
  function Offset(per: nat, i: nat): nat {
    i * per
  }

  lemma NextOffset(per: nat, i: nat)
    ensures Offset(per, 0) == 0 && Offset(per, i + 1) == Offset(per, i) + per
  {
  }

  /** Slice i of a payload cut every `per` bytes; the last may be shorter. */
  function Slice(buf: seq<byte>, per: nat, i: nat): seq<byte>
    requires Offset(per, i) <= |buf|
  {
    NextOffset(per, i);
    buf[Offset(per, i)..Min(Offset(per, i + 1), |buf|)]
  }

  function FragCount(len: nat, per: nat): nat
    requires per > 0
  {
    var n := (len + per - 1) / per;
    if n < 1 then 1 else n
  }

  lemma Monotone(a: nat, b: nat, per: nat)
    requires a <= b
    ensures Offset(per, a) <= Offset(per, b)
  {
  }

  lemma Quotient(len: nat, per: nat)
    requires per > 0
    ensures var q := (len + per - 1) / per; Offset(per, q) <= len + per - 1 < Offset(per, q) + per
  {
  }

  /** The number of slices is the least that covers the payload, and at least one. */
  lemma FragCountCovers(len: nat, per: nat)
    requires per > 0
    ensures FragCount(len, per) >= 1
    ensures len <= Offset(per, FragCount(len, per))
    ensures forall n: nat :: n >= 1 && len <= Offset(per, n) ==> FragCount(len, per) <= n
    ensures forall i: nat :: i < FragCount(len, per) ==> Offset(per, i) <= len
  {
    hide Offset;
    var q := (len + per - 1) / per;
    Quotient(len, per);
    NextOffset(per, 0);
    forall n: nat | n >= 1 && len <= Offset(per, n) ensures FragCount(len, per) <= n {
      NextOffset(per, n);
      if q > n { Monotone(n + 1, q, per); }
    }
    forall i: nat | i < FragCount(len, per) ensures Offset(per, i) <= len {
      if i > 0 {
        Monotone(i, q - 1, per);
        NextOffset(per, q - 1);
      }
    }
  }

  /** A packet goes out whole, or up to the first datagram that the connection refuses, or not at all. */
  datatype SendResult =
    | Sent(datagrams: seq<seq<byte>>)
    | Refused(datagrams: seq<seq<byte>>)
    | HeaderTooLong
    | PayloadTooLong

  /** What all datagrams of one packet share. */
  datatype Cut = Cut(sessionId: u32, packetId: u16, count: byte, addr: seq<byte>, buf: seq<byte>, per: nat) {
    ghost predicate Valid() {
      0 < count && |addr| < TWO_62 && per > 0
    }
  }

  /** Datagram i of the packet: numbered, and carrying slice i. */
  ghost predicate IsDatagram(c: Cut, i: nat, d: seq<byte>) {
    && c.Valid() && i < c.count && Offset(c.per, i) <= |c.buf|
    && Parse(d) == Some(Fragment(c.sessionId, c.packetId, i, c.count, c.addr, Slice(c.buf, c.per, i)))
    && |d| == HeaderLen(c.addr) + |Slice(c.buf, c.per, i)|
  }

  function PayloadOf(d: seq<byte>): seq<byte> {
    match Parse(d)
    case None => []
    case Some(f) => f.payload
  }

  function Slices(ds: seq<seq<byte>>): seq<seq<byte>> {
    if ds == [] then [] else Slices(ds[..|ds| - 1]) + [PayloadOf(ds[|ds| - 1])]
  }

  /** The first datagrams of a packet; the slices they carry make up a prefix of the payload. */
  ghost predicate Covers(c: Cut, ds: seq<seq<byte>>) {
    && (forall i :: 0 <= i < |ds| ==> IsDatagram(c, i, ds[i]))
    && Concat(Slices(ds)) == c.buf[..Min(Offset(c.per, |ds|), |c.buf|)]
  }

  lemma SliceSnoc(buf: seq<byte>, per: nat, i: nat)
    requires Offset(per, i) <= |buf|
    ensures buf[..Offset(per, i)] + Slice(buf, per, i) == buf[..Min(Offset(per, i + 1), |buf|)]
    ensures |Slice(buf, per, i)| <= per
  {
    hide Offset;
    NextOffset(per, i);
  }

  lemma CoversOneMore(c: Cut, ds: seq<seq<byte>>, d: seq<byte>)
    requires Covers(c, ds) && IsDatagram(c, |ds|, d)
    ensures Covers(c, ds + [d])
  {
    hide Offset, Slice, Parse, IsDatagram;
    assert Offset(c.per, |ds|) <= |c.buf| && PayloadOf(d) == Slice(c.buf, c.per, |ds|) by { DatagramPayload(c, |ds|, d); }
    assert (ds + [d])[..|ds|] == ds;
    ConcatAppend(Slices(ds), [PayloadOf(d)]);
    ConcatOne(PayloadOf(d));
    SliceSnoc(c.buf, c.per, |ds|);
  }

  lemma DatagramPayload(c: Cut, i: nat, d: seq<byte>)
    requires IsDatagram(c, i, d)
    ensures Offset(c.per, i) <= |c.buf| && PayloadOf(d) == Slice(c.buf, c.per, i)
  {
  }

  lemma DatagramFits(c: Cut, i: nat, d: seq<byte>)
    requires IsDatagram(c, i, d)
    ensures |d| <= HeaderLen(c.addr) + c.per
  {
    SliceSnoc(c.buf, c.per, i);
  }

  lemma DatagramIs(c: Cut, i: nat, payload: seq<byte>, out: seq<byte>)
    requires c.Valid() && i < c.count && Offset(c.per, i) <= |c.buf| && payload == Slice(c.buf, c.per, i)
    requires out == BigEndian(c.sessionId, 4) + BigEndian(c.packetId, 2) + [i, c.count]
                    + WriteVarint(|c.addr|) + c.addr + payload
    ensures IsDatagram(c, i, out)
  {
    hide Parse, Slice, BigEndian, WriteVarint, Offset;
    ParseRoundTrip(Fragment(c.sessionId, c.packetId, i, c.count, c.addr, payload));
  }

  /** One packet cut so that each datagram fits `max` bytes, or the reason why it cannot be sent. The
      connection takes `room` datagrams before it refuses one. */
  method FragmentPacket(max: nat, sessionId: u32, packetId: u16, addr: seq<byte>, buf: seq<byte>, room: nat)
    returns (r: SendResult)
    requires |addr| < TWO_62
    ensures r.HeaderTooLong? <==> HeaderLen(addr) >= max
    ensures r.PayloadTooLong? <==> HeaderLen(addr) < max && |buf| > Offset(max - HeaderLen(addr), 255)
    ensures r.Sent? ==>
              && 1 <= |r.datagrams| <= 255
              && Covers(Cut(sessionId, packetId, |r.datagrams|, addr, buf, max - HeaderLen(addr)), r.datagrams)
              && Concat(Slices(r.datagrams)) == buf
              && forall i :: 0 <= i < |r.datagrams| ==> |r.datagrams[i]| <= max
    ensures r.Refused? ==>
              && |r.datagrams| == room < FragCount(|buf|, max - HeaderLen(addr)) <= 255
              && Covers(Cut(sessionId, packetId, FragCount(|buf|, max - HeaderLen(addr)), addr, buf, max - HeaderLen(addr)), r.datagrams)
              && Concat(Slices(r.datagrams)) <= buf
  {
    var headerLen := 4 + 2 + 1 + 1 + VarintLen(|addr|) + |addr|;
    if headerLen >= max {
      return HeaderTooLong;
    }
    var perFrag := max - headerLen;
    r := SendCut(sessionId, packetId, addr, buf, perFrag, room);
    if r.Sent? {
      forall i | 0 <= i < |r.datagrams| ensures |r.datagrams[i]| <= max {
        DatagramFits(Cut(sessionId, packetId, |r.datagrams|, addr, buf, perFrag), i, r.datagrams[i]);
      }
    }
  }

  /** The part that client and server share: count the slices, and send them unless there are too many. */
  method SendCut(sessionId: u32, packetId: u16, addr: seq<byte>, buf: seq<byte>, perFrag: nat, room: nat)
    returns (r: SendResult)
    requires |addr| < TWO_62 && perFrag > 0
    ensures !r.HeaderTooLong?
    ensures r.PayloadTooLong? <==> |buf| > Offset(perFrag, 255)
    ensures r.Sent? ==>
              && 1 <= |r.datagrams| <= 255 && |r.datagrams| == FragCount(|buf|, perFrag)
              && Covers(Cut(sessionId, packetId, |r.datagrams|, addr, buf, perFrag), r.datagrams)
              && Concat(Slices(r.datagrams)) == buf
    ensures r.Refused? ==>
              && |r.datagrams| == room < FragCount(|buf|, perFrag) <= 255
              && Covers(Cut(sessionId, packetId, FragCount(|buf|, perFrag), addr, buf, perFrag), r.datagrams)
              && Concat(Slices(r.datagrams)) <= buf
  {
    var fragCount := FragCount(|buf|, perFrag);
    FragCountCovers(|buf|, perFrag);
    if fragCount > 255 {
      return PayloadTooLong;
    }
    Monotone(fragCount, 255, perFrag);
    var ds := CutAll(Cut(sessionId, packetId, fragCount, addr, buf, perFrag), room);
    if |ds| < fragCount {
      return Refused(ds);
    }
    assert buf[..|buf|] == buf;
    return Sent(ds);
  }

  /** The sending loop. */
  method CutAll(c: Cut, room: nat) returns (ds: seq<seq<byte>>)
    requires c.Valid() && forall i: nat :: i < c.count ==> Offset(c.per, i) <= |c.buf|
    ensures |ds| == Min(c.count, room) && Covers(c, ds)
  {
    hide Offset, Slice, IsDatagram, BigEndian, WriteVarint;
    ds := [];
    NextOffset(c.per, 0);
    var fragId := 0;
    while fragId < c.count
      invariant 0 <= fragId <= c.count && |ds| == fragId <= room
      invariant Covers(c, ds)
    {
      NextOffset(c.per, fragId);
      var start := Offset(c.per, fragId);
      var end := Min(Offset(c.per, fragId + 1), |c.buf|);
      var payload := c.buf[start..end];
      SliceIs(c.buf, c.per, fragId, payload);
      var out: seq<byte> := BigEndian(c.sessionId, 4);
      out := out + BigEndian(c.packetId, 2);
      out := out + [fragId, c.count];
      out := out + WriteVarint(|c.addr|);
      out := out + c.addr;
      out := out + payload;
      if |ds| == room {
        return;
      }
      DatagramIs(c, fragId, payload, out);
      CoversOneMore(c, ds, out);
      ds := ds + [out];
      fragId := fragId + 1;
    }
  }

  lemma SliceIs(buf: seq<byte>, per: nat, i: nat, payload: seq<byte>)
    requires Offset(per, i) <= Min(Offset(per, i + 1), |buf|)
    requires payload == buf[Offset(per, i)..Min(Offset(per, i + 1), |buf|)]
    ensures payload == Slice(buf, per, i)
  {
  }

  // ----- The server's session loop.

  /** Slice sizes of the server: at least one byte, even when the header alone is too long. */
  function ServerPerFrag(max: nat, addr: seq<byte>): nat {
    if max > HeaderLen(addr) + 1 then max - HeaderLen(addr) else 1
  }

  lemma DatagramSize(c: Cut, i: nat, d: seq<byte>)
    requires IsDatagram(c, i, d)
    ensures HeaderLen(c.addr) <= |d| <= HeaderLen(c.addr) + c.per
    ensures c.buf == [] ==> |d| == HeaderLen(c.addr)
    ensures i == 0 ==> |d| == HeaderLen(c.addr) + Min(c.per, |c.buf|)
  {
    NextOffset(c.per, i);
    hide Offset, Parse, HeaderLen;
  }

  lemma ServerSlicesFit(max: nat, c: Cut, ds: seq<seq<byte>>)
    requires Covers(c, ds) && ds != [] && c.per == ServerPerFrag(max, c.addr)
    ensures (forall i :: 0 <= i < |ds| ==> |ds[i]| <= max) <==>
            HeaderLen(c.addr) < max || (HeaderLen(c.addr) == max && c.buf == [])
  {
    hide IsDatagram, HeaderLen, Slices;
    var len := HeaderLen(c.addr);
    forall i | 0 <= i < |ds|
      ensures len <= |ds[i]| <= len + c.per && (c.buf == [] ==> |ds[i]| == len)
    {
      DatagramSize(c, i, ds[i]);
    }
    DatagramSize(c, 0, ds[0]);
  }

  /** One packet that came back from the target. Its id is taken in any case; the slices of what is sent
      make up the data, and the datagrams fit exactly if the header leaves room. */
  method ServerSend(max: nat, sessionId: u32, nextPacketId: u16, addr: seq<byte>, data: seq<byte>, room: nat)
    returns (r: SendResult, next: u16)
    requires |addr| < TWO_62
    ensures next == (nextPacketId + 1) % 0x1_0000
    ensures !r.HeaderTooLong?
    ensures r.PayloadTooLong? <==> |data| > Offset(ServerPerFrag(max, addr), 255)
    ensures r.Sent? ==>
              && 1 <= |r.datagrams| <= 255
              && Covers(Cut(sessionId, nextPacketId, |r.datagrams|, addr, data, ServerPerFrag(max, addr)), r.datagrams)
              && Concat(Slices(r.datagrams)) == data
              && ((forall i :: 0 <= i < |r.datagrams| ==> |r.datagrams[i]| <= max) <==>
                  HeaderLen(addr) < max || (HeaderLen(addr) == max && data == []))
    ensures r.Refused? ==>
              && |r.datagrams| == room < FragCount(|data|, ServerPerFrag(max, addr)) <= 255
              && Concat(Slices(r.datagrams)) <= data
  {
    var headerLen := 4 + 2 + 1 + 1 + VarintLen(|addr|) + |addr|;
    var left := if max > headerLen then max - headerLen else 0;
    var perFrag := if left > 1 then left else 1;
    next := (nextPacketId + 1) % 0x1_0000;
    r := SendCut(sessionId, nextPacketId, addr, data, perFrag, room);
    if r.Sent? {
      ServerSlicesFit(max, Cut(sessionId, nextPacketId, |r.datagrams|, addr, data, perFrag), r.datagrams);
    }
  }
}
