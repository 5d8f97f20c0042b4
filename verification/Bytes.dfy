/** Bytes, big-endian numbers, and adversarial byte sources and sinks shared by the protocol models. */
module Bytes {

  type byte = x: int | 0 <= x < 0x100
  type u16 = x: int | 0 <= x < 0x1_0000
  type u32 = x: int | 0 <= x < 0x1_0000_0000

  const TWO_32: nat := 0x1_0000_0000

  function U16(x: u16): (r: seq<byte>)
    ensures |r| == 2
  {
    [x / 0x100, x % 0x100]
  }

  function FromU16(hi: byte, lo: byte): u16 {
    hi * 0x100 + lo
  }

  lemma U16RoundTrip(x: u16)
    ensures FromU16(U16(x)[0], U16(x)[1]) == x
  {
  }

  /** The `n` low bytes of x, most significant first. */
  function BigEndian(x: nat, n: nat): (r: seq<byte>)
    ensures |r| == n
  {
    if n == 0 then [] else BigEndian(x / 0x100, n - 1) + [x % 0x100]
  }

  function FromBigEndian(bs: seq<byte>): nat {
    if bs == [] then 0 else FromBigEndian(bs[..|bs| - 1]) * 0x100 + bs[|bs| - 1]
  }

  function Pow256(n: nat): (r: nat)
    ensures r > 0
  {
    if n == 0 then 1 else 0x100 * Pow256(n - 1)
  }

  lemma {:induction false} BigEndianRoundTrip(x: nat, n: nat)
    requires x < Pow256(n)
    ensures FromBigEndian(BigEndian(x, n)) == x
  {
    if n > 0 {
      BigEndianRoundTrip(x / 0x100, n - 1);
      assert BigEndian(x, n)[..n - 1] == BigEndian(x / 0x100, n - 1);
    }
  }

  function Concat<T>(parts: seq<seq<T>>): seq<T> {
    if parts == [] then [] else parts[0] + Concat(parts[1..])
  }

  lemma Associative<T>(a: seq<T>, b: seq<T>, c: seq<T>)
    ensures a + (b + c) == (a + b) + c
  {
  }

  lemma {:induction false} ConcatAppend<T>(a: seq<seq<T>>, b: seq<seq<T>>)
    ensures Concat(a + b) == Concat(a) + Concat(b)
  {
    if a == [] {
      assert a + b == b;
    } else {
      ConcatAppend(a[1..], b);
      calc {
        Concat(a + b);
        { assert (a + b)[1..] == a[1..] + b; }
        a[0] + Concat(a[1..] + b);
        a[0] + (Concat(a[1..]) + Concat(b));
        { Associative(a[0], Concat(a[1..]), Concat(b)); }
        Concat(a) + Concat(b);
      }
    }
  }

  lemma ConcatOne<T>(part: seq<T>)
    ensures Concat([part]) == part
  {
  }

  function Min(a: nat, b: nat): nat {
    if a < b then a else b
  }

  // ----- Streams whose every poll the environment decides.

  datatype ReadEvent = ReadPending | ReadEof | ReadFailed | ReadData(bytes: seq<byte>)
  datatype ReadPoll = PendingRead | ReadyRead(bytes: seq<byte>) | FailedRead

  function ReadFuel(script: seq<ReadEvent>): nat {
    if script == [] then 0
    else (if script[0].ReadData? then 1 + |script[0].bytes| else 1) + ReadFuel(script[1..])
  }

  /** What the next event of a script makes of a read into `room` bytes. */
  function ReadAnswer(script: seq<ReadEvent>, room: nat): ReadPoll {
    if script == [] then PendingRead
    else match script[0]
         case ReadPending => PendingRead
         case ReadFailed => FailedRead
         case ReadEof => ReadyRead([])
         case ReadData(bytes) => ReadyRead(bytes[..Min(|bytes|, room)])
  }

  /** A reader that plays an arbitrary script, then stays pending. `given` is all it ever returned;
      `waits` and `fails` count the polls that were answered so. */
  class Source {
    var script: seq<ReadEvent>
    ghost var given: seq<byte>
    ghost var ended: bool
    ghost var waits: nat
    ghost var fails: nat

    constructor (script: seq<ReadEvent>)
      ensures this.script == script && given == [] && !ended
    {
      this.script, given, ended, waits, fails := script, [], false, 0, 0;
    }

    /** One poll into a buffer of `room` bytes; no bytes in a non-empty buffer mean end of stream. */
    method Poll(room: nat) returns (r: ReadPoll)
      modifies this
      ensures ReadFuel(script) <= old(ReadFuel(script))
      ensures r.ReadyRead? && r.bytes != [] ==> ReadFuel(script) < old(ReadFuel(script))
      ensures r.ReadyRead? ==> |r.bytes| <= room && given == old(given) + r.bytes
      ensures r.ReadyRead? ==> ended == (old(ended) || (room > 0 && r.bytes == []))
      ensures !r.ReadyRead? ==> given == old(given) && ended == old(ended)
      ensures r == ReadAnswer(old(script), room)
      ensures waits == old(waits) + (if r.PendingRead? then 1 else 0)
      ensures fails == old(fails) + (if r.FailedRead? then 1 else 0)
    {
      if script == [] {
        waits := waits + 1;
        return PendingRead;
      }
      var head := script[0];
      match head {
        case ReadPending =>
          script := script[1..];
          waits := waits + 1;
          return PendingRead;
        case ReadFailed =>
          script := script[1..];
          fails := fails + 1;
          return FailedRead;
        case ReadEof =>
          script := script[1..];
          ended := ended || room > 0;
          return ReadyRead([]);
        case ReadData(bytes) =>
          var n := Min(|bytes|, room);
          var rest := script[1..];
          script := (if n < |bytes| then [ReadData(bytes[n..])] else []) + rest;
          assert n < |bytes| ==> script[1..] == rest;
          assert n >= |bytes| ==> script == rest;
          given := given + bytes[..n];
          ended := ended || (room > 0 && n == 0);
          return ReadyRead(bytes[..n]);
      }
    }
  }

  datatype WriteEvent = WritePending | WriteFailed | WriteAccept(room: nat)
  datatype WritePoll = PendingWrite | ReadyWrite(n: nat) | FailedWrite
  datatype DonePoll = PendingDone | ReadyDone | FailedDone

  /** What the next event of a script makes of a write of `len` bytes. */
  function WriteAnswer(script: seq<WriteEvent>, len: nat): WritePoll {
    if script == [] then PendingWrite
    else match script[0]
         case WritePending => PendingWrite
         case WriteFailed => FailedWrite
         case WriteAccept(room) => ReadyWrite(Min(room, len))
  }

  function Tail<T>(script: seq<T>): seq<T> {
    if script == [] then [] else script[1..]
  }

  /** A writer that plays an arbitrary script, then stays pending. `taken` is all it ever accepted;
      `waits` and `fails` count the calls that were answered so, and `nothings` the writes that took nothing. */
  class Sink {
    var script: seq<WriteEvent>
    ghost var taken: seq<byte>
    ghost var flushed: nat
    ghost var shut: bool
    ghost var waits: nat
    ghost var fails: nat
    ghost var nothings: nat

    constructor (script: seq<WriteEvent>)
      ensures this.script == script && taken == [] && flushed == 0 && !shut
    {
      this.script, taken, flushed, shut := script, [], 0, false;
      waits, fails, nothings := 0, 0, 0;
    }

    method Poll(bytes: seq<byte>) returns (r: WritePoll)
      modifies this
      ensures flushed == old(flushed) && shut == old(shut)
      ensures |script| <= old(|script|)
      ensures r.ReadyWrite? ==> |script| < old(|script|)
      ensures r.ReadyWrite? ==> r.n <= |bytes| && taken == old(taken) + bytes[..r.n]
      ensures !r.ReadyWrite? ==> taken == old(taken)
      ensures r == WriteAnswer(old(script), |bytes|) && script == Tail(old(script))
      ensures waits == old(waits) + (if r.PendingWrite? then 1 else 0)
      ensures fails == old(fails) + (if r.FailedWrite? then 1 else 0)
      ensures nothings == old(nothings) + (if r == ReadyWrite(0) then 1 else 0)
    {
      if script == [] {
        waits := waits + 1;
        return PendingWrite;
      }
      var head := script[0];
      script := script[1..];
      match head {
        case WritePending =>
          waits := waits + 1;
          return PendingWrite;
        case WriteFailed =>
          fails := fails + 1;
          return FailedWrite;
        case WriteAccept(room) =>
          var n := Min(room, |bytes|);
          taken := taken + bytes[..n];
          nothings := nothings + (if n == 0 then 1 else 0);
          return ReadyWrite(n);
      }
    }

    /** `flushed` remembers how much had been accepted when a flush last completed. */
    method Flush() returns (r: DonePoll)
      modifies this
      ensures taken == old(taken) && shut == old(shut)
      ensures |script| <= old(|script|)
      ensures flushed == if r.ReadyDone? then |taken| else old(flushed)
      ensures r.ReadyDone? <==> old(script) != [] && old(script)[0].WriteAccept?
      ensures script == Tail(old(script))
      ensures waits == old(waits) + (if r.PendingDone? then 1 else 0)
      ensures fails == old(fails) + (if r.FailedDone? then 1 else 0)
      ensures nothings == old(nothings)
    {
      if script == [] {
        waits := waits + 1;
        return PendingDone;
      }
      var head := script[0];
      script := script[1..];
      match head {
        case WritePending =>
          waits := waits + 1;
          return PendingDone;
        case WriteFailed =>
          fails := fails + 1;
          return FailedDone;
        case WriteAccept(_) =>
          flushed := |taken|;
          return ReadyDone;
      }
    }

    method Shutdown() returns (r: DonePoll)
      modifies this
      ensures taken == old(taken) && flushed == old(flushed)
      ensures |script| <= old(|script|)
      ensures shut == (old(shut) || r.ReadyDone?)
      ensures r.ReadyDone? <==> old(script) != [] && old(script)[0].WriteAccept?
      ensures waits == old(waits) + (if r.PendingDone? then 1 else 0)
      ensures fails == old(fails) + (if r.FailedDone? then 1 else 0)
      ensures nothings == old(nothings)
    {
      if script == [] {
        waits := waits + 1;
        return PendingDone;
      }
      var head := script[0];
      script := script[1..];
      match head {
        case WritePending =>
          waits := waits + 1;
          return PendingDone;
        case WriteFailed =>
          fails := fails + 1;
          return FailedDone;
        case WriteAccept(_) =>
          shut := true;
          return ReadyDone;
      }
    }
  }
}
