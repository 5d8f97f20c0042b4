/** The stream that takes a VLESS response header off the front of its input, over as many polls as needed. */
module ResponseHeader {
  import opened Bytes
  import opened Vless

  /** Version, length of the addons, addons; the rest is for the caller. */
  function Strip(s: seq<byte>): seq<byte> {
    if |s| < 2 || s[0] != VLESS_VERSION || |s| < 2 + s[1] as int then [] else s[2 + s[1] as int..]
  }

  predicate BadHeader(s: seq<byte>) {
    |s| >= 2 && s[0] != VLESS_VERSION
  }

  datatype HeaderPoll = PendingHeader | HeaderReady | EarlyEof | BadVersion | HeaderFailed
  datatype PollRead = Pending | Ready(bytes: seq<byte>) | Error(cause: HeaderPoll)

  method WriteResponseHeader() returns (bytes: seq<byte>)
    ensures forall rest :: Strip(bytes + rest) == rest && !BadHeader(bytes + rest)
  {
    bytes := [VLESS_VERSION, 0];
    forall rest
      ensures Strip(bytes + rest) == rest
    {
      assert (bytes + rest)[2..] == rest;
    }
  }

  /** A header with addons is dropped with them, and until it is all there nothing is handed out; any other first
      byte is a bad header as soon as the second one is there. */
  lemma HeaderWithAddons(version: byte, addons: seq<byte>, rest: seq<byte>, k: nat)
    requires |addons| < 0x100 && k < 2 + |addons|
    ensures Strip([0, |addons|] + addons + rest) == rest
    ensures Strip(([0, |addons|] + addons)[..k]) == []
    ensures BadHeader([version, |addons|] + addons + rest) <==> version != 0
    ensures !BadHeader([version])
  {
    assert ([0, |addons|] + addons + rest)[2 + |addons|..] == rest;
  }

  class ResponseHeaderStream {
    const inner: Source
    var header: seq<byte>
    var skippedLen: nat
    var skippedRead: nat
    var ready: bool
    ghost var skipped: seq<byte>
    ghost var out: seq<byte>

    ghost predicate Valid()
      reads this, inner
    {
      && inner.given == header + skipped + out
      && |header| <= 2 && |skipped| == skippedRead <= skippedLen
      && (skippedLen > 0 ==> |header| == 2 && header[0] == VLESS_VERSION && skippedLen == header[1] as int)
      && (ready ==> |header| == 2 && header[0] == VLESS_VERSION && skippedRead == header[1] as int)
      && (!ready ==> out == [])
    }

    constructor (inner: Source)
      requires inner.given == []
      ensures Valid() && this.inner == inner && out == [] && !ready
    {
      this.inner := inner;
      header, skippedLen, skippedRead, ready, skipped, out := [], 0, 0, false, [], [];
    }

    /** What is handed out is the input without its header, at every moment. */
    lemma OutIsStripped()
      requires Valid()
      ensures out == Strip(inner.given)
      ensures ready ==> !BadHeader(inner.given)
    {
      var s := inner.given;
      if |header| == 2 {
        assert s[0] == header[0] && s[1] == header[1];
        if ready {
          assert s[2 + skippedRead..] == out;
        } else if s[0] == VLESS_VERSION && |s| >= 2 + s[1] as int {
          assert |s| == 2 + skippedRead;
        }
      }
    }

    /** Read up to the two bytes of version and length. `HeaderReady` is to carry on. */
    method ReadHeader() returns (r: HeaderPoll)
      requires Valid() && |header| < 2
      modifies this`header, inner
      ensures Valid() && old(inner.given) <= inner.given
      ensures r.HeaderReady? ==> ReadFuel(inner.script) < old(ReadFuel(inner.script))
      ensures !r.HeaderReady? ==> |header| < 2 && inner.given == old(inner.given) && !r.BadVersion?
      ensures r.EarlyEof? ==> inner.ended
      ensures inner.waits == old(inner.waits) + (if r.PendingHeader? then 1 else 0)
      ensures inner.fails == old(inner.fails) + (if r.HeaderFailed? then 1 else 0)
    {
      assert skipped == [] && inner.given == header;
      var polled := inner.Poll(2 - |header|);
      match polled {
        case PendingRead => return PendingHeader;
        case FailedRead => return HeaderFailed;
        case ReadyRead(bytes) =>
          header := header + bytes;
          r := if bytes == [] then EarlyEof else HeaderReady;
      }
    }

    /** Read addons, which nobody wants. */
    method SkipAddons() returns (r: HeaderPoll)
      requires Valid() && skippedRead < skippedLen && !ready
      modifies this`skippedRead, this`skipped, inner
      ensures Valid() && old(inner.given) <= inner.given
      ensures r.HeaderReady? ==> ReadFuel(inner.script) < old(ReadFuel(inner.script))
      ensures !r.BadVersion? && (r.EarlyEof? ==> inner.ended)
      ensures inner.waits == old(inner.waits) + (if r.PendingHeader? then 1 else 0)
      ensures inner.fails == old(inner.fails) + (if r.HeaderFailed? then 1 else 0)
    {
      assert inner.given == header + skipped;
      var polled := inner.Poll(skippedLen - skippedRead);
      match polled {
        case PendingRead => return PendingHeader;
        case FailedRead => return HeaderFailed;
        case ReadyRead(bytes) =>
          Associative(header, skipped, bytes);
          skipped := skipped + bytes;
          skippedRead := skippedRead + |bytes|;
          r := if bytes == [] then EarlyEof else HeaderReady;
      }
    }

    lemma VersionIs()
      requires Valid() && |header| >= 1
      ensures |inner.given| >= |header| && inner.given[0] == header[0]
    {
    }

    method PollReadyHeader() returns (r: HeaderPoll)
      requires Valid()
      modifies this`header, this`skippedLen, this`skippedRead, this`ready, this`skipped, inner
      ensures Valid() && old(inner.given) <= inner.given
      ensures r.HeaderReady? <==> ready
      ensures r.BadVersion? <==> BadHeader(inner.given)
      ensures r.EarlyEof? ==> inner.ended
      ensures inner.waits == old(inner.waits) + (if r.PendingHeader? then 1 else 0)
      ensures inner.fails == old(inner.fails) + (if r.HeaderFailed? then 1 else 0)
    {
      while !ready
        invariant Valid() && old(inner.given) <= inner.given
        invariant inner.waits == old(inner.waits) && inner.fails == old(inner.fails)
        decreases ReadFuel(inner.script), !ready
      {
        if |header| < 2 {
          assert inner.given == header;
          r := ReadHeader();
          if !r.HeaderReady? {
            return;
          }
        } else {
          VersionIs();
          if header[0] != VLESS_VERSION {
            return BadVersion;
          }
          if skippedLen == 0 {
            skippedLen := header[1] as int;
          }
          if skippedRead < skippedLen {
            r := SkipAddons();
            VersionIs();
            if !r.HeaderReady? {
              return;
            }
          } else {
            ready := true;
          }
        }
      }
      VersionIs();
      return HeaderReady;
    }

    /** However the input is cut, the caller gets it without the header, and an error instead exactly if the
        header is of another version or the input fails. */
    method PollRead(room: nat) returns (r: PollRead)
      requires Valid()
      modifies this, inner
      ensures Valid() && out == Strip(inner.given)
      ensures old(inner.given) <= inner.given
      ensures out == old(out) + (if r.Ready? then r.bytes else [])
      ensures r == Error(BadVersion) <==> BadHeader(inner.given)
      ensures r == Ready([]) && room > 0 ==> inner.ended
      ensures inner.waits == old(inner.waits) + (if r.Pending? then 1 else 0)
      ensures inner.fails == old(inner.fails) + (if r == Error(HeaderFailed) then 1 else 0)
      ensures r.Error? ==> r.cause.BadVersion? || r.cause.HeaderFailed? || (r.cause.EarlyEof? && inner.ended)
    {
      var header := PollReadyHeader();
      OutIsStripped();
      if header.PendingHeader? {
        return Pending;
      } else if !header.HeaderReady? {
        return Error(header);
      }
      var polled := inner.Poll(room);
      match polled {
        case PendingRead => r := Pending;
        case FailedRead => r := Error(HeaderFailed);
        case ReadyRead(bytes) =>
          Associative(this.header + skipped, out, bytes);
          out := out + bytes;
          r := Ready(bytes);
      }
      OutIsStripped();
    }
  }
}
