/** QUIC variable-length integers (section 16 of RFC 9000), as the Hysteria codec writes and reads them. */
module Varint {
  import opened Options
  import opened Bytes

  const TWO_62: nat := 0x4000_0000_0000_0000
  const TWO_64: nat := 0x1_0000_0000_0000_0000

  function VarintLen(x: nat): nat {
    if x < 0x40 then 1 else if x < 0x4000 then 2 else if x < 0x4000_0000 then 4 else 8
  }

  /** The two tag bits are or-ed onto a 64-bit x, so that the top two bits of a too large x are lost. */
  function WriteVarint(x: nat): seq<byte>
    requires x < TWO_64
  {
    if x < 0x40 then [x]
    else if x < 0x4000 then BigEndian(x + 0x4000, 2)
    else if x < 0x4000_0000 then BigEndian(x + 0x8000_0000, 4)
    else BigEndian(x % TWO_62 + 3 * TWO_62, 8)
  }

  function TagLen(tag: nat): nat {
    match tag
    case 0 => 1
    case 1 => 2
    case 2 => 4
    case _ => 8
  }

  /** The value and how many bytes it took. */
  function DecodeVarint(input: seq<byte>): Option<(nat, nat)> {
    if input == [] then None
    else
      var n := TagLen(input[0] / 0x40);
      if |input| < n then None
      else Some((FromBigEndian([input[0] % 0x40] + input[1..n]), n))
  }

  lemma {:induction false} FromBigEndianHead(h: byte, bs: seq<byte>)
    ensures FromBigEndian([h] + bs) == h * Pow256(|bs|) + FromBigEndian(bs)
  {
    var all := [h] + bs;
    if bs == [] {
      assert all[..0] == [];
    } else {
      var init := bs[..|bs| - 1];
      assert all[..|all| - 1] == [h] + init;
      FromBigEndianHead(h, init);
      assert (h * Pow256(|init|)) * 0x100 == h * Pow256(|bs|);
    }
  }

  lemma {:induction false} FromBigEndianBound(bs: seq<byte>)
    ensures FromBigEndian(bs) < Pow256(|bs|)
  {
    if bs != [] {
      FromBigEndianBound(bs[..|bs| - 1]);
    }
  }

  /** A tagged n-byte number splits into its first byte and the rest. */
  lemma TaggedHead(v: nat, n: nat)
    requires n > 0 && v < Pow256(n)
    ensures var bs := BigEndian(v, n);
            bs[0] * Pow256(n - 1) + FromBigEndian(bs[1..]) == v && FromBigEndian(bs[1..]) < Pow256(n - 1)
  {
    var bs := BigEndian(v, n);
    BigEndianRoundTrip(v, n);
    assert bs == [bs[0]] + bs[1..];
    FromBigEndianHead(bs[0], bs[1..]);
    FromBigEndianBound(bs[1..]);
  }

  lemma Powers()
    ensures Pow256(1) == 0x100 && Pow256(2) == 0x1_0000 && Pow256(3) == 0x100_0000
    ensures Pow256(4) == 0x1_0000_0000 && Pow256(7) == 0x100_0000_0000_0000 && Pow256(8) == TWO_64
  {
    assert Pow256(5) == 0x100_0000_0000 && Pow256(6) == 0x1_0000_0000_0000;
  }

  lemma LengthIs(x: nat)
    requires x < TWO_64
    ensures |WriteVarint(x)| == VarintLen(x)
  {
  }

  lemma OneByteDecodes(x: byte, rest: seq<byte>)
    requires x < 0x40
    ensures DecodeVarint([x] + rest) == Some((x, 1))
  {
    var input := [x] + rest;
    assert [input[0] % 0x40] + input[1..1] == [x];
    assert [x][..|[x]| - 1] == [];
    assert FromBigEndian([x]) == x;
  }

  /** The top two bits of v are the tag; the rest is the number. */
  lemma TaggedDecodes(v: nat, n: nat, tag: nat, x: nat, p: nat, rest: seq<byte>)
    requires 1 <= tag <= 3 && n == TagLen(tag) && p == Pow256(n - 1)
    requires v == x + (0x40 * tag) * p && x < 0x40 * p
    requires v < Pow256(n)
    ensures DecodeVarint(BigEndian(v, n) + rest) == Some((x, n))
  {
    hide FromBigEndian, BigEndian, Pow256;
    var w := BigEndian(v, n);
    var input := w + rest;
    TaggedHead(v, n);
    FirstByteIs(w[0], FromBigEndian(w[1..]), v, tag, x, p);
    assert input[1..n] == w[1..];
    FromBigEndianHead(w[0] % 0x40, w[1..]);
  }

  lemma FirstByteIs(h: byte, r: nat, v: nat, tag: nat, x: nat, p: nat)
    requires p > 0 && r < p && h * p + r == v
    requires v == x + (0x40 * tag) * p && x < 0x40 * p
    ensures h / 0x40 == tag && (h % 0x40) * p + r == x
  {
    var k := h - 0x40 * tag;
    Distribute(h, 0x40 * tag, p);
    assert k * p + r == x;
    Scaled(k, -1, p);
    Scaled(0x40, k, p);
  }

  lemma Scaled(a: int, b: int, p: nat)
    ensures a <= b ==> a * p <= b * p
  {
  }

  lemma Distribute(a: int, b: int, p: nat)
    ensures (a - b) * p == a * p - b * p
  {
  }

  /** What is read back is x without its top two bits, from exactly the bytes written. */
  lemma VarintDecodes(x: nat, rest: seq<byte>)
    requires x < TWO_64
    ensures DecodeVarint(WriteVarint(x) + rest) == Some((x % TWO_62, VarintLen(x)))
  {
    Powers();
    hide FromBigEndian, BigEndian, Pow256, DecodeVarint;
    if x < 0x40 {
      OneByteDecodes(x, rest);
    } else if x < 0x4000 {
      TaggedDecodes(x + 0x4000, 2, 1, x, 0x100, rest);
    } else if x < 0x4000_0000 {
      TaggedDecodes(x + 0x8000_0000, 4, 2, x, 0x100_0000, rest);
    } else {
      TaggedDecodes(x % TWO_62 + 3 * TWO_62, 8, 3, x % TWO_62, 0x100_0000_0000_0000, rest);
    }
  }

  /** So the round trip holds exactly for the numbers the format is made for. */
  lemma VarintRoundTrip(x: nat, rest: seq<byte>)
    requires x < TWO_64
    ensures DecodeVarint(WriteVarint(x) + rest) == Some((x, |WriteVarint(x)|)) <==> x < TWO_62
  {
    hide DecodeVarint, WriteVarint;
    VarintDecodes(x, rest);
    LengthIs(x);
  }

  /** The first two bits are the base-two logarithm of the length. */
  lemma TagIsLength(x: nat)
    requires x < TWO_64
    ensures WriteVarint(x) != []
    ensures |WriteVarint(x)| == match WriteVarint(x)[0] / 0x40 case 0 => 1 case 1 => 2 case 2 => 4 case _ => 8
  {
    Powers();
    hide FromBigEndian, BigEndian, Pow256;
    if 0x40 <= x < 0x4000 {
      FirstTwoBits(x + 0x4000, 2, 1, 0x100);
    } else if 0x4000 <= x < 0x4000_0000 {
      FirstTwoBits(x + 0x8000_0000, 4, 2, 0x100_0000);
    } else if 0x4000_0000 <= x {
      FirstTwoBits(x % TWO_62 + 3 * TWO_62, 8, 3, 0x100_0000_0000_0000);
    }
  }

  lemma FirstTwoBits(v: nat, n: nat, tag: nat, p: nat)
    requires 0 < n && p == Pow256(n - 1) && v < Pow256(n)
    requires (0x40 * tag) * p <= v < (0x40 * tag + 0x40) * p
    ensures BigEndian(v, n)[0] / 0x40 == tag
  {
    hide FromBigEndian, BigEndian, Pow256;
    TaggedHead(v, n);
    var h, r := BigEndian(v, n)[0], FromBigEndian(BigEndian(v, n)[1..]);
    Distribute(v, (0x40 * tag) * p, 1);
    FirstByteIs(h, r, v, tag, v - (0x40 * tag) * p, p);
  }

  /** The sample numbers of appendix A.1 of RFC 9000. */
  lemma Samples()
    ensures WriteVarint(151288809941952652) == [0xc2, 0x19, 0x7c, 0x5e, 0xff, 0x14, 0xe8, 0x8c]
    ensures WriteVarint(494878333) == [0x9d, 0x7f, 0x3e, 0x7d]
    ensures WriteVarint(15293) == [0x7b, 0xbd]
    ensures WriteVarint(37) == [0x25]
    ensures DecodeVarint([0x40, 0x25]) == Some((37, 2))
  {
    SampleDigits();
    LongForm();
    hide BigEndian, DecodeVarint;
  }

  lemma LastDigit(x: nat, h: nat, b: byte, n: nat)
    requires x == h * 0x100 + b && n > 0
    ensures BigEndian(x, n) == (if n == 1 then [] else BigEndian(h, n - 1)) + [b]
  {
    assert x / 0x100 == h && x % 0x100 == b;
  }

  lemma SampleDigits()
    ensures BigEndian(0xc2197c5eff14e88c, 8) == [0xc2, 0x19, 0x7c, 0x5e, 0xff, 0x14, 0xe8, 0x8c]
    ensures BigEndian(0x9d7f3e7d, 4) == [0x9d, 0x7f, 0x3e, 0x7d]
    ensures BigEndian(0x7bbd, 2) == [0x7b, 0xbd]
  {
    hide BigEndian;
    LastDigit(0xc2, 0x0, 0xc2, 1);
    LastDigit(0xc219, 0xc2, 0x19, 2);
    LastDigit(0xc2197c, 0xc219, 0x7c, 3);
    LastDigit(0xc2197c5e, 0xc2197c, 0x5e, 4);
    LastDigit(0xc2197c5eff, 0xc2197c5e, 0xff, 5);
    LastDigit(0xc2197c5eff14, 0xc2197c5eff, 0x14, 6);
    LastDigit(0xc2197c5eff14e8, 0xc2197c5eff14, 0xe8, 7);
    LastDigit(0xc2197c5eff14e88c, 0xc2197c5eff14e8, 0x8c, 8);
    LastDigit(0x9d, 0x0, 0x9d, 1);
    LastDigit(0x9d7f, 0x9d, 0x7f, 2);
    LastDigit(0x9d7f3e, 0x9d7f, 0x3e, 3);
    LastDigit(0x9d7f3e7d, 0x9d7f3e, 0x7d, 4);
    LastDigit(0x7b, 0x0, 0x7b, 1);
    LastDigit(0x7bbd, 0x7b, 0xbd, 2);
  }

  /** A small number in a longer form than it needs. */
  lemma LongForm()
    ensures DecodeVarint([0x40, 0x25]) == Some((37, 2))
  {
    var input := [0x40, 0x25];
    assert [input[0] % 0x40] + input[1..2] == [0] + [0x25];
    FromBigEndianHead(0, [0x25]);
    FromBigEndianHead(0x25, []);
    assert [0x25] == [0x25] + [];
  }

  /** Reading from a stream takes one byte, then as many more as it announces, and decodes those. */
  function ReadVarint(stream: seq<byte>): Option<(nat, nat)> {
    if stream == [] then None
    else
      var len := TagLen(stream[0] / 0x40);
      if |stream| < len then None else DecodeVarint(stream[..len])
  }

  lemma ReadIsDecode(stream: seq<byte>)
    ensures ReadVarint(stream) == DecodeVarint(stream)
  {
    if stream != [] && |stream| >= TagLen(stream[0] / 0x40) {
      var len := TagLen(stream[0] / 0x40);
      assert stream[..len][1..len] == stream[1..len];
    }
  }
}
