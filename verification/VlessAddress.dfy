/** VLESS addresses and the request header: what is written can be read back from the front of a stream. */
module VlessAddress {
  import opened Options
  import opened Bytes
  import opened Vless

  const ADDRESS_TYPE_IPV4: byte := 1
  const ADDRESS_TYPE_DOMAIN: byte := 2
  const ADDRESS_TYPE_IPV6: byte := 3

  type Ip4 = s: seq<byte> | |s| == 4 witness [0, 0, 0, 0]
  type Ip6 = s: seq<byte> | |s| == 16 witness seq(16, i => 0)

  /** A domain is its UTF-8 bytes; an IPv6 socket address carries a flow label and a scope. */
  datatype Address =
    | V4(ip4: Ip4, port: u16)
    | V6(ip6: Ip6, port: u16, flowinfo: u32, scope: u32)
    | Domain(name: seq<byte>, port: u16)

  /** What of an address fits on the wire: flow label and scope do not. */
  function OnWire(a: Address): Address {
    match a
    case V6(ip, port, _, _) => V6(ip, port, 0, 0)
    case _ => a
  }

  /** Which byte strings are UTF-8 is a parameter; the names of a program's strings always are. */
  type Utf8 = seq<byte> -> bool

  predicate NameOk(utf8: Utf8, a: Address) {
    a.Domain? ==> utf8(a.name)
  }

  function WriteAddress(a: Address): Option<seq<byte>> {
    match a
    case V4(ip, port) => Some(U16(port) + [ADDRESS_TYPE_IPV4] + ip)
    case V6(ip, port, _, _) => Some(U16(port) + [ADDRESS_TYPE_IPV6] + ip)
    case Domain(name, port) =>
      if |name| > 255 then None else Some(U16(port) + [ADDRESS_TYPE_DOMAIN, |name|] + name)
  }

  datatype Read<T> = Got(value: T, rest: seq<byte>) | Bad

  /** Reads an address from the front of `b`; too few bytes are an error. */
  function ReadAddress(utf8: Utf8, b: seq<byte>): Read<Address> {
    if |b| < 3 then Bad
    else
      var port, atyp, rest := FromU16(b[0], b[1]), b[2], b[3..];
      if atyp == ADDRESS_TYPE_IPV4 then
        if |rest| < 4 then Bad else Got(V4(rest[..4], port), rest[4..])
      else if atyp == ADDRESS_TYPE_IPV6 then
        if |rest| < 16 then Bad else Got(V6(rest[..16], port, 0, 0), rest[16..])
      else if atyp == ADDRESS_TYPE_DOMAIN then
        if rest == [] then Bad
        else
          var len, tail := rest[0], rest[1..];
          if |tail| < len || !utf8(tail[..len]) then Bad else Got(Domain(tail[..len], port), tail[len..])
      else Bad
  }

  lemma AddressRoundTrip(utf8: Utf8, a: Address, rest: seq<byte>)
    requires NameOk(utf8, a) && WriteAddress(a).Some?
    ensures ReadAddress(utf8, WriteAddress(a).value + rest) == Got(OnWire(a), rest)
  {
    match a {
      case V4(ip, port) => IpRoundTrip(utf8, port, ip, rest);
      case V6(ip, port, _, _) => IpRoundTrip(utf8, port, ip, rest);
      case Domain(name, port) => DomainRoundTrip(utf8, port, name, rest);
    }
    hide ReadAddress, U16;
  }

  /** Where the parts of an address lie. */
  lemma AddressParts(port: u16, atyp: byte, tail: seq<byte>, rest: seq<byte>)
    ensures var b := U16(port) + [atyp] + tail + rest;
            |b| >= 3 && FromU16(b[0], b[1]) == port && b[2] == atyp && b[3..] == tail + rest
  {
    U16RoundTrip(port);
    hide U16;
    assert U16(port) + [atyp] + tail + rest == U16(port) + [atyp] + (tail + rest);
  }

  lemma IpRoundTrip(utf8: Utf8, port: u16, ip: seq<byte>, rest: seq<byte>)
    ensures |ip| == 4 ==> ReadAddress(utf8, U16(port) + [1] + ip + rest) == Got(V4(ip, port), rest)
    ensures |ip| == 16 ==> ReadAddress(utf8, U16(port) + [3] + ip + rest) == Got(V6(ip, port, 0, 0), rest)
  {
    AddressParts(port, 1, ip, rest);
    AddressParts(port, 3, ip, rest);
    hide U16;
    assert (ip + rest)[..|ip|] == ip && (ip + rest)[|ip|..] == rest;
  }

  lemma DomainRoundTrip(utf8: Utf8, port: u16, name: seq<byte>, rest: seq<byte>)
    requires |name| < 0x100 && utf8(name)
    ensures ReadAddress(utf8, U16(port) + [2, |name|] + name + rest) == Got(Domain(name, port), rest)
  {
    AddressParts(port, 2, [|name|] + name, rest);
    hide U16;
    var b := U16(port) + [2, |name|] + name + rest;
    assert b == U16(port) + [2] + ([|name|] + name) + rest;
    assert b[3..][1..] == name + rest;
    assert (name + rest)[..|name|] == name && (name + rest)[|name|..] == rest;
  }

  /** The address itself comes back exactly when it has no flow label and no scope. */
  lemma AddressKept(utf8: Utf8, a: Address, rest: seq<byte>)
    requires NameOk(utf8, a) && WriteAddress(a).Some?
    ensures ReadAddress(utf8, WriteAddress(a).value + rest) == Got(a, rest) <==> (a.V6? ==> a.flowinfo == 0 && a.scope == 0)
  {
    AddressRoundTrip(utf8, a, rest);
  }

  // ----- The request header.

  const COMMAND_MUX: byte := 3
  const FLOW_VISION := "xtls-rprx-vision"
  const MUX_DOMAIN := "v1.mux.cool"
  const MUX_PORT: u16 := 666

  /** ASCII text as bytes. */
  function Ascii(s: string): (r: seq<byte>)
    ensures |r| == |s|
  {
    seq(|s|, i requires 0 <= i < |s| => s[i] as int % 0x80)
  }

  /** The only flow there is, or none. */
  datatype Flow = NoFlow | Vision

  datatype RequestHeader = RequestHeader(command: byte, addr: Address, flow: Flow)

  function WriteAddons(flow: Flow): seq<byte> {
    match flow
    case NoFlow => [0]
    case Vision => [|FLOW_VISION| + 2, 0x0a, |FLOW_VISION|] + Ascii(FLOW_VISION)
  }

  /** Trims white space around the text, as the flow parser does; here ASCII white space. */
  function Trim(s: seq<byte>): seq<byte> {
    if s != [] && IsSpace(s[0]) then Trim(s[1..])
    else if s != [] && IsSpace(s[|s| - 1]) then Trim(s[..|s| - 1])
    else s
  }

  predicate IsSpace(b: byte) {
    9 <= b <= 13 || b == 32
  }

  function ParseFlow(text: seq<byte>): Option<Flow> {
    var t := Trim(text);
    if t == [] then Some(NoFlow) else if t == Ascii(FLOW_VISION) then Some(Vision) else None
  }

  function ReadAddons(utf8: Utf8, b: seq<byte>): Read<Flow> {
    if b == [] then Bad
    else if b[0] == 0 then Got(NoFlow, b[1..])
    else if |b| - 1 < b[0] then Bad
    else
      var buf, rest := b[1..1 + b[0]], b[1 + b[0]..];
      if |buf| < 2 || buf[0] != 0x0a || |buf| != buf[1] as int + 2 || !utf8(buf[2..]) then Bad
      else
        match ParseFlow(buf[2..])
        case None => Bad
        case Some(f) => Got(f, rest)
  }

  function BuildRequestHeader(uid: Uuid, flow: Flow, command: byte, addr: Address): Option<seq<byte>> {
    var front := [VLESS_VERSION] + uid + WriteAddons(flow) + [command];
    if command == COMMAND_MUX then Some(front)
    else
      match WriteAddress(addr)
      case None => None
      case Some(a) => Some(front + a)
  }

  function ReadRequestHeader(utf8: Utf8, expected: Uuid, b: seq<byte>): Read<RequestHeader> {
    if |b| < 17 || b[0] != VLESS_VERSION || b[1..17] != expected then Bad
    else
      match ReadAddons(utf8, b[17..])
      case Bad => Bad
      case Got(flow, b') =>
        if b' == [] then Bad
        else if b'[0] == COMMAND_MUX then
          Got(RequestHeader(COMMAND_MUX, Domain(Ascii(MUX_DOMAIN), MUX_PORT), flow), b'[1..])
        else
          match ReadAddress(utf8, b'[1..])
          case Bad => Bad
          case Got(a, rest) => Got(RequestHeader(b'[0], a, flow), rest)
  }

  lemma VisionFlowParses()
    ensures ParseFlow(Ascii(FLOW_VISION)) == Some(Vision)
  {
    var t := Ascii(FLOW_VISION);
    assert t[0] == 120 && t[|t| - 1] == 110;
  }

  lemma AddonsRoundTrip(utf8: Utf8, flow: Flow, rest: seq<byte>)
    requires utf8(Ascii(FLOW_VISION))
    ensures ReadAddons(utf8, WriteAddons(flow) + rest) == Got(flow, rest)
  {
    var b := WriteAddons(flow) + rest;
    if flow == Vision {
      VisionFlowParses();
      assert b[0] == 18 && b[2] == 16;
      assert b[1..19][2..] == Ascii(FLOW_VISION);
      assert b[19..] == rest;
    } else {
      assert b[1..] == rest;
    }
  }

  /** What follows the user id and the add-ons. */
  function Body(command: byte, addr: Address): seq<byte>
    requires command == COMMAND_MUX || WriteAddress(addr).Some?
  {
    [command] + if command == COMMAND_MUX then [] else WriteAddress(addr).value
  }

  lemma HeaderParts(uid: Uuid, flow: Flow, command: byte, addr: Address, rest: seq<byte>)
    requires BuildRequestHeader(uid, flow, command, addr).Some?
    ensures command == COMMAND_MUX || WriteAddress(addr).Some?
    ensures var b := BuildRequestHeader(uid, flow, command, addr).value + rest;
            |b| >= 17 && b[0] == VLESS_VERSION && b[1..17] == uid && b[17..] == WriteAddons(flow) + (Body(command, addr) + rest)
  {
    hide WriteAddons, WriteAddress;
    var b := BuildRequestHeader(uid, flow, command, addr).value + rest;
    assert b == [VLESS_VERSION] + uid + (WriteAddons(flow) + (Body(command, addr) + rest));
  }

  lemma BodyRoundTrip(utf8: Utf8, command: byte, addr: Address, rest: seq<byte>)
    requires NameOk(utf8, addr) && (command == COMMAND_MUX || WriteAddress(addr).Some?)
    ensures var b := Body(command, addr) + rest;
            && b != [] && b[0] == command
            && (command == COMMAND_MUX ==> b[1..] == rest)
            && (command != COMMAND_MUX ==> ReadAddress(utf8, b[1..]) == Got(OnWire(addr), rest))
  {
    hide ReadAddress, WriteAddress;
    var b := Body(command, addr) + rest;
    if command == COMMAND_MUX {
      assert b[1..] == rest;
    } else {
      assert b[1..] == WriteAddress(addr).value + rest;
      AddressRoundTrip(utf8, addr, rest);
    }
  }

  /** A header built for a user is read back by whoever expects that user, and by nobody else. A
      multiplexed request carries no address and gets the fixed one. */
  lemma RequestHeaderRoundTrip(utf8: Utf8, uid: Uuid, expected: Uuid, flow: Flow, command: byte, addr: Address, rest: seq<byte>)
    requires utf8(Ascii(FLOW_VISION)) && NameOk(utf8, addr)
    requires BuildRequestHeader(uid, flow, command, addr).Some?
    ensures ReadRequestHeader(utf8, expected, BuildRequestHeader(uid, flow, command, addr).value + rest) ==
            if uid != expected then Bad
            else Got(RequestHeader(command,
                                   if command == 3 then Domain(Ascii("v1.mux.cool"), 666) else OnWire(addr),
                                   flow), rest)
  {
    hide ReadAddress, WriteAddress, ReadAddons, WriteAddons, Body, BuildRequestHeader;
    HeaderParts(uid, flow, command, addr, rest);
    AddonsRoundTrip(utf8, flow, Body(command, addr) + rest);
    BodyRoundTrip(utf8, command, addr, rest);
  }

  // ----- What is refused.

  /** A header of another version or that ends early is refused. */
  lemma CutHeaderIsBad(utf8: Utf8, expected: Uuid, uid: Uuid, flow: Flow, command: byte, addr: Address, k: nat,
                       version: byte, rest: seq<byte>)
    requires utf8(Ascii(FLOW_VISION)) && BuildRequestHeader(uid, flow, command, addr).Some?
    requires k < |BuildRequestHeader(uid, flow, command, addr).value|
    ensures ReadRequestHeader(utf8, expected, BuildRequestHeader(uid, flow, command, addr).value[..k]) == Bad
    ensures version != 0 ==> ReadRequestHeader(utf8, expected, [version] + rest) == Bad
  {
    HeaderParts(uid, flow, command, addr, []);
    var h := BuildRequestHeader(uid, flow, command, addr).value;
    assert h + [] == h && Body(command, addr) + [] == Body(command, addr);
    hide ReadAddress, WriteAddress, ReadAddons, WriteAddons, Body, BuildRequestHeader;
    if k >= 17 {
      var n := k - 17;
      assert h[..k][1..17] == h[1..17] && h[..k][17..] == h[17..][..n];
      var a, body := WriteAddons(flow), Body(command, addr);
      if n < |a| {
        assert (a + body)[..n] == a[..n];
        CutAddonsAreBad(utf8, flow, n);
      } else {
        assert (a + body)[..n] == a + body[..n - |a|];
        AddonsRoundTrip(utf8, flow, body[..n - |a|]);
        CutBodyIsBad(utf8, command, addr, n - |a|);
      }
    }
  }

  lemma CutAddonsAreBad(utf8: Utf8, flow: Flow, n: nat)
    requires n < |WriteAddons(flow)|
    ensures ReadAddons(utf8, WriteAddons(flow)[..n]) == Bad
  {
  }

  lemma CutBodyIsBad(utf8: Utf8, command: byte, addr: Address, n: nat)
    requires command == COMMAND_MUX || WriteAddress(addr).Some?
    requires n < |Body(command, addr)|
    ensures var b := Body(command, addr)[..n];
            n == 0 || (command != COMMAND_MUX && b[0] == command && ReadAddress(utf8, b[1..]) == Bad)
  {
    hide ReadAddress, WriteAddress;
    if n > 0 {
      var w := WriteAddress(addr).value;
      assert Body(command, addr)[..n][1..] == w[..n - 1];
      CutAddressIsBad(utf8, addr, n - 1);
    }
  }

  lemma CutAddressIsBad(utf8: Utf8, a: Address, n: nat)
    requires WriteAddress(a).Some? && n < |WriteAddress(a).value|
    ensures ReadAddress(utf8, WriteAddress(a).value[..n]) == Bad
  {
    var w := WriteAddress(a).value;
    if n >= 3 { assert w[..n][2] == w[2] && |w[..n][3..]| == n - 3; }
    if n >= 4 { assert w[..n][3] == w[3]; }
  }

  ghost predicate Blank(s: seq<byte>) {
    forall b :: b in s ==> IsSpace(b)
  }

  /** Begins and ends with something else than white space. */
  predicate Solid(s: seq<byte>) {
    s != [] ==> !IsSpace(s[0]) && !IsSpace(s[|s| - 1])
  }

  /** White space around a text does not matter to the flow parser, and it knows one flow. */
  lemma {:induction false} FlowIs(before: seq<byte>, text: seq<byte>, after: seq<byte>)
    requires Blank(before) && Solid(text) && Blank(after)
    ensures ParseFlow(before + text + after) ==
            if text == [] then Some(NoFlow) else if text == Ascii("xtls-rprx-vision") then Some(Vision) else None
  {
    TrimIs(before, text, after);
    VisionFlowParses();
  }

  lemma {:induction false} TrimIs(before: seq<byte>, text: seq<byte>, after: seq<byte>)
    requires Blank(before) && Solid(text) && Blank(after)
    ensures Trim(before + text + after) == text
    decreases |before| + |after|
  {
    var s := before + text + after;
    if before != [] {
      assert s[0] == before[0] && s[1..] == before[1..] + text + after;
      TrimIs(before[1..], text, after);
    } else if after != [] {
      var init := after[..|after| - 1];
      assert s[|s| - 1] == after[|after| - 1] && s[..|s| - 1] == before + text + init;
      if text == [] {
        assert s == after && s[1..] == [] + [] + after[1..];
        TrimIs([], [], after[1..]);
      } else {
        assert s[0] == text[0];
        TrimIs(before, text, init);
      }
    } else {
      assert s == text;
    }
  }
}
