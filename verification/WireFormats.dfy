/** Which byte lies where: the formats on the wire, independent of how a writer puts them together. */
module WireFormats {
  import opened Options
  import opened Bytes
  import opened Varint
  import opened Vless
  import opened VlessAddress
  import AnyTls
  import AnyTlsClient
  import HysteriaDatagram
  import VisionSpec
  import Xudp

  // ----- Numbers, most significant byte first.

  function Digits2(x: nat): seq<byte> {
    [x / 0x100 % 0x100, x % 0x100]
  }

  function Digits4(x: nat): seq<byte> {
    [x / 0x100_0000 % 0x100, x / 0x1_0000 % 0x100, x / 0x100 % 0x100, x % 0x100]
  }

  lemma TwoDigits(x: u16)
    ensures BigEndian(x, 2) == Digits2(x) == U16(x)
  {
    LastDigit(x / 0x100, 0, x / 0x100, 1);
    LastDigit(x, x / 0x100, x % 0x100, 2);
  }

  lemma FourDigits(x: u32)
    ensures BigEndian(x, 4) == Digits4(x)
  {
    hide BigEndian;
    var a, b, c := x / 0x100, x / 0x1_0000, x / 0x100_0000;
    LastDigit(c, 0, c, 1);
    LastDigit(b, c, b % 0x100, 2);
    LastDigit(a, b, a % 0x100, 3);
    LastDigit(x, a, x % 0x100, 4);
  }

  // ----- AnyTLS.

  /** Command, stream id, length, data. */
  lemma AnyTlsFrame(f: AnyTls.Frame)
    requires f.Fits()
    ensures AnyTls.EncodeFrame(f) == [f.cmd] + Digits4(f.sid) + Digits2(|f.data|) + f.data
  {
    FourDigits(f.sid);
    TwoDigits(|f.data|);
    hide BigEndian, Digits4, Digits2, U16;
  }

  /** What a client opens with and sends: the numbers of the commands. */
  lemma AnyTlsCommands(sid: u32, settings: seq<byte>, target: seq<byte>, n: nat)
    requires n <= 0xFFFF
    ensures AnyTlsClient.Greeting(sid, settings, target) ==
            [AnyTls.Frame(4, 0, settings), AnyTls.Frame(1, sid, []), AnyTls.Frame(2, sid, target)]
    ensures AnyTlsClient.Sent(sid, [target], true) == [AnyTls.Frame(2, sid, target), AnyTls.Frame(3, sid, [])]
    ensures AnyTls.EncodeWaste(n) == [0, 0, 0, 0, 0, n / 0x100, n % 0x100] + seq(n, i => 0)
    ensures AnyTlsClient.CMD_HEART_RESPONSE == 9
  {
    FourDigits(0);
    TwoDigits(n);
  }

  // ----- Hysteria.

  /** Session, packet, number and count of the fragment, length of the address, address, slice. */
  lemma HysteriaFragment(f: HysteriaDatagram.Fragment)
    requires |f.addr| < TWO_62
    ensures HysteriaDatagram.Encode(f) ==
            Digits4(f.sessionId) + Digits2(f.packetId) + [f.fragId, f.fragCount] + WriteVarint(|f.addr|) + f.addr + f.payload
    ensures |f.addr| < 0x40 ==> WriteVarint(|f.addr|) == [|f.addr|]
    ensures 0x40 <= |f.addr| < 0x4000 ==> WriteVarint(|f.addr|) == Digits2(0x4000 + |f.addr|)
  {
    FourDigits(f.sessionId);
    TwoDigits(f.packetId);
    if 0x40 <= |f.addr| < 0x4000 { TwoDigits(0x4000 + |f.addr|); }
    hide BigEndian, Digits4, Digits2;
  }

  // ----- VLESS.

  /** The port comes before the type of the address. */
  lemma AddressBytes(a: Address)
    ensures WriteAddress(a) ==
            match a
            case V4(ip, port) => Some(Digits2(port) + [1] + ip)
            case V6(ip, port, _, _) => Some(Digits2(port) + [3] + ip)
            case Domain(name, port) => if |name| > 255 then None else Some(Digits2(port) + [2, |name|] + name)
  {
    TwoDigits(a.port);
    hide Digits2, U16;
  }

  /** Version, user id, the flow in its add-ons, command, and an address unless the command is 3. */
  lemma RequestHeaderBytes(uid: Uuid, flow: Flow, command: byte, addr: Address)
    requires WriteAddress(addr).Some?
    ensures BuildRequestHeader(uid, flow, command, addr) ==
            Some([0] + uid + (if flow == NoFlow then [0] else [18, 10, 16] + Ascii("xtls-rprx-vision")) + [command]
                 + (if command == 3 then [] else WriteAddress(addr).value))
  {
    assert WriteAddons(Vision) == [18, 10, 16] + Ascii("xtls-rprx-vision");
    hide Ascii, WriteAddress, WriteAddons;
    var front := [0] + uid + WriteAddons(flow) + [command];
    assert front + [] == front;
  }

  /** A write of Vision: command 0, length of the content, no padding. */
  lemma VisionFrame(uid: Uuid, p: seq<byte>, q: seq<byte>)
    requires 0 < |p| <= 0xFFFF && 0 < |q| <= 0xFFFF
    ensures VisionSpec.Wire(uid, [p, q]) == uid + ([0] + Digits2(|p|) + [0, 0] + p) + ([0] + Digits2(|q|) + [0, 0] + q)
  {
    TwoDigits(|p|);
    TwoDigits(|q|);
    VisionSpec.OnlyFrame(q);
    assert [p, q][1..] == [q];
    hide Digits2, U16;
    var a, b := VisionSpec.FrameBytes(p), VisionSpec.FrameBytes(q);
    assert VisionSpec.FramesBytes([p, q]) == a + b;
    Associative(uid, a, b);
  }

  /** A peer that switches to raw bytes at once, padded or not. */
  lemma VisionSwitch(uid: Uuid, raw: seq<byte>)
    ensures VisionSpec.Deliver(uid, uid + [2, 0, 0, 0, 0] + raw) == VisionSpec.Decoded(raw, 2)
    ensures VisionSpec.Deliver(uid, uid + [1, 0, 1, 0, 2, 120, 7, 7] + raw) == VisionSpec.Decoded([120] + raw, 1)
  {
    OneFrame(uid, VisionSpec.PeerFrame(2, [], []), [2, 0, 0, 0, 0], raw);
    OneFrame(uid, VisionSpec.PeerFrame(1, [120], [7, 7]), [1, 0, 1, 0, 2, 120, 7, 7], raw);
    hide VisionSpec.Deliver;
    assert [] + raw == raw;
  }

  lemma OneFrame(uid: Uuid, f: VisionSpec.PeerFrame, bytes: seq<byte>, raw: seq<byte>)
    requires f.cmd != 0 && f.Fits()
    requires bytes == [f.cmd] + Digits2(|f.content|) + Digits2(|f.padding|) + f.content + f.padding
    ensures VisionSpec.Deliver(uid, uid + bytes + raw) == VisionSpec.Decoded(f.content + raw, f.cmd)
  {
    TwoDigits(|f.content|);
    TwoDigits(|f.padding|);
    VisionSpec.PeerIsRead(uid, [], f, raw, 0);
    hide VisionSpec.Deliver, Digits2, U16;
    assert uid + [] == uid;
    assert [] + f.content == f.content;
  }

  // ----- XUDP.

  /** A packet to a new address carries it, and one to the address of the packet before it does not. */
  lemma XudpFrame(last: Option<Address>, p: Xudp.Packet)
    requires Xudp.Accepted(p)
    ensures var addr := WriteAddress(p.addr).value;
            |addr| < 0x1_0000 - 5 &&
            Xudp.FrameBytes(last, p) ==
            (if last == Some(p.addr) then [0, 4, 0, 0, 2, 1] else Digits2(5 + |addr|) + [0, 0, 1, 1, 2] + addr)
            + Digits2(|p.payload|) + p.payload
  {
    Xudp.MetaLength(last, p.addr);
    Xudp.MetaParts(last, p.addr);
    var addr := WriteAddress(p.addr).value;
    var m := Xudp.Meta(last, p.addr);
    TwoDigits(|m|);
    TwoDigits(|p.payload|);
    hide WriteAddress, Xudp.Meta;
    assert U16(0) == [0, 0];
    if last == Some(p.addr) {
      assert m == [0, 0, 2, 1] && Digits2(|m|) == [0, 4];
      assert U16(|m|) + m == [0, 4, 0, 0, 2, 1];
    } else {
      assert m == [0, 0, 1, 1, 2] + addr;
      hide U16, Digits2;
      Associative(U16(|m|), [0, 0, 1, 1, 2], addr);
    }
  }

  /** Two packets to one address, from a fresh encoder. */
  lemma XudpPair(p: Xudp.Packet, q: Xudp.Packet)
    requires Xudp.Accepted(p) && Xudp.Accepted(q) && p.addr == q.addr
    ensures var addr := WriteAddress(p.addr).value;
            Xudp.EncodeAll(None, [p, q]) ==
            (Digits2(5 + |addr|) + [0, 0, 1, 1, 2] + addr + Digits2(|p.payload|) + p.payload)
            + ([0, 4, 0, 0, 2, 1] + Digits2(|q.payload|) + q.payload)
  {
    XudpFrame(None, p);
    XudpFrame(Some(p.addr), q);
    hide Xudp.FrameBytes, WriteAddress, Digits2;
    assert [p, q][1..] == [q] && [q][1..] == [];
    assert Xudp.EncodeAll(Some(p.addr), [q]) == Xudp.FrameBytes(Some(p.addr), q);
  }
}
