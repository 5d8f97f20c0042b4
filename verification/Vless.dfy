/** What all VLESS headers begin with. */
module Vless {
  import opened Bytes

  const VLESS_VERSION: byte := 0

  type Uuid = u: seq<byte> | |u| == 16 witness seq(16, i => 0)
}
