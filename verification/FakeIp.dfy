/** The pool of fake addresses: a rotation over a range, two maps that must stay inverse, and
    double-checked locking around them. */
module FakeIp {
  import opened Bytes

  datatype Pool = Pool(min: u32, max: u32, cursor: u32, domainToIp: map<string, u32>, ipToDomain: map<u32, string>) {
    ghost predicate InRange() {
      min <= max && max + 1 < TWO_32
    }

    function Size(): int {
      max as int - min as int + 1
    }
  }

  function Pow2(n: nat): (r: nat)
    ensures r > 0
  {
    if n == 0 then 1 else 2 * Pow2(n - 1)
  }

  /** The k-th fresh address of a rotation over `size` addresses. */
  function Addr(min: int, size: int, k: int): int
    requires size > 0
  {
    min + k % size
  }

  /** `cursor - min` on 32 bits, as a release build computes it. */
  function WrappingSub(a: u32, b: u32): u32 {
    (a as int - b as int) % TWO_32
  }

  /** The fresh allocation: next address, eviction of its old domain, both maps updated. */
  function Fresh(p: Pool, domain: string): (Pool, u32)
    requires p.InRange()
  {
    var ip: int := Addr(p.min, p.Size(), WrappingSub(p.cursor, p.min));
    var d2i := if ip in p.ipToDomain then p.domainToIp - {p.ipToDomain[ip]} else p.domainToIp;
    (Pool(p.min, p.max, (p.cursor + 1) % TWO_32, d2i[domain := ip], p.ipToDomain[ip := domain]), ip)
  }

  function Allocate(p: Pool, domain: string): (Pool, u32)
    requires p.InRange()
  {
    if domain in p.domainToIp then (p, p.domainToIp[domain]) else Fresh(p, domain)
  }

  // ----- The invariant: `hist` lists the domains in order of fresh allocation.

  /** Allocation j is one of the last `size`. */
  predicate Live(hist: seq<string>, size: int, j: int) {
    0 <= j < |hist| && |hist| - j <= size
  }

  ghost predicate LiveOk(p: Pool, hist: seq<string>, j: int)
    requires p.InRange() && 0 <= j < |hist|
  {
    var a := Addr(p.min, p.Size(), j);
    && a in p.ipToDomain && p.ipToDomain[a] == hist[j]
    && hist[j] in p.domainToIp && p.domainToIp[hist[j]] == a
  }

  ghost predicate HasDomain(p: Pool, hist: seq<string>, d: string, j: int) {
    Live(hist, p.Size(), j) && hist[j] == d
  }

  ghost predicate HasAddr(p: Pool, hist: seq<string>, a: u32, j: int)
    requires p.InRange()
  {
    Live(hist, p.Size(), j) && Addr(p.min, p.Size(), j) == a
  }

  /** The live mappings are exactly the last allocations, in both maps. */
  ghost predicate Ok(p: Pool, hist: seq<string>) {
    && p.InRange()
    && p.cursor == (p.min + |hist|) % TWO_32
    && (forall j :: Live(hist, p.Size(), j) ==> LiveOk(p, hist, j))
    && (forall d :: d in p.domainToIp ==> exists j :: HasDomain(p, hist, d, j))
    && (forall a :: a in p.ipToDomain ==> exists j :: HasAddr(p, hist, a, j))
  }

  lemma CursorCounts(min: u32, k: nat)
    requires k < TWO_32
    ensures WrappingSub((min + k) % TWO_32, min) == k
  {
  }

  /** In a rotation, equal addresses are a whole number of turns apart. */
  lemma SameAddr(min: int, size: int, i: int, j: int)
    requires size > 0 && i <= j < i + size && Addr(min, size, i) == Addr(min, size, j)
    ensures i == j
  {
    var q := (j / size) - (i / size);
    assert j - i == q * size;
    if q > 0 { Scale(1, q, size); }
  }

  lemma Scale(a: int, b: int, size: int)
    requires size > 0
    ensures a <= b ==> a * size <= b * size
  {
  }

  lemma OneTurn(min: int, size: int, i: int)
    requires size > 0
    ensures Addr(min, size, i + size) == Addr(min, size, i)
  {
    var q, r := i / size, i % size;
    assert i + size == (q + 1) * size + r;
    Remainder(q + 1, r, size);
  }

  lemma Remainder(q: int, r: int, size: int)
    requires 0 <= r < size
    ensures (q * size + r) % size == r
  {
    var x := q * size + r;
    var q', r' := x / size, x % size;
    assert (q' - q) * size == r - r';
    Scale(1, q' - q, size);
    Scale(q' - q, -1, size);
  }

  lemma AddrInRange(min: int, size: int, k: int)
    requires size > 0
    ensures min <= Addr(min, size, k) < min + size
  {
  }

  /** Whose domain a fresh allocation evicts: that of exactly one turn before. */
  lemma Evicted(p: Pool, hist: seq<string>)
    requires Ok(p, hist)
    ensures var a := Addr(p.min, p.Size(), |hist|);
            if |hist| >= p.Size() then a in p.ipToDomain && p.ipToDomain[a] == hist[|hist| - p.Size()]
            else a !in p.ipToDomain
  {
    hide Addr;
    var size, k := p.Size(), |hist|;
    AddrInRange(p.min, size, k);
    if k >= size {
      OneTurn(p.min, size, k - size);
      assert LiveOk(p, hist, k - size);
    } else if Addr(p.min, size, k) in p.ipToDomain {
      var j :| HasAddr(p, hist, Addr(p.min, size, k), j);
      SameAddr(p.min, size, j, k);
    }
  }

  /** Two live allocations have different domains. */
  lemma LiveDistinct(p: Pool, hist: seq<string>, i: int, j: int)
    requires Ok(p, hist) && Live(hist, p.Size(), i) && Live(hist, p.Size(), j) && i < j
    ensures hist[i] != hist[j] && Addr(p.min, p.Size(), i) != Addr(p.min, p.Size(), j)
  {
    hide Addr;
    assert LiveOk(p, hist, i) && LiveOk(p, hist, j);
    if Addr(p.min, p.Size(), i) == Addr(p.min, p.Size(), j) {
      SameAddr(p.min, p.Size(), i, j);
    }
  }

  /** A fresh allocation in terms of the history. */
  function Rotated(p: Pool, hist: seq<string>, domain: string): Pool
    requires p.InRange()
  {
    var a: int := Addr(p.min, p.Size(), |hist|);
    Pool(p.min, p.max, (p.min + |hist| + 1) % TWO_32,
         (if |hist| >= p.Size() then p.domainToIp - {hist[|hist| - p.Size()]} else p.domainToIp)[domain := a],
         p.ipToDomain[a := domain])
  }

  lemma RotatedParts(p: Pool, hist: seq<string>, domain: string)
    requires p.InRange()
    ensures var p' := Rotated(p, hist, domain);
            p'.InRange() && p'.min == p.min && p'.max == p.max && p'.cursor == (p.min + |hist + [domain]|) % TWO_32
  {
  }

  lemma NextCursor(min: u32, k: nat)
    ensures ((min + k) % TWO_32 + 1) % TWO_32 == (min + k + 1) % TWO_32
  {
  }

  lemma FreshIs(p: Pool, hist: seq<string>, domain: string)
    requires Ok(p, hist) && |hist| < TWO_32
    ensures Fresh(p, domain) == (Rotated(p, hist, domain), Addr(p.min, p.Size(), |hist|))
  {
    hide Addr, WrappingSub, LiveOk, Live, HasDomain, HasAddr;
    CursorCounts(p.min, |hist|);
    NextCursor(p.min, |hist|);
    CursorIs(p, hist);
    Evicted(p, hist);
    hide Ok;
  }

  lemma CursorIs(p: Pool, hist: seq<string>)
    requires Ok(p, hist)
    ensures p.InRange() && p.cursor == (p.min + |hist|) % TWO_32
  {
  }

  lemma FreshKeepsLive(p: Pool, hist: seq<string>, domain: string, j: int)
    requires Ok(p, hist) && |hist| < TWO_32 && domain !in p.domainToIp
    requires Live(hist + [domain], p.Size(), j)
    ensures LiveOk(Fresh(p, domain).0, hist + [domain], j)
  {
    FreshIs(p, hist, domain);
    hide Addr, Fresh;
    if j < |hist| {
      assert LiveOk(p, hist, j);
      if Addr(p.min, p.Size(), j) == Addr(p.min, p.Size(), |hist|) { SameAddr(p.min, p.Size(), j, |hist|); }
      if |hist| >= p.Size() { LiveDistinct(p, hist, |hist| - p.Size(), j); }
    }
  }

  /** The domains after a fresh allocation are the new one and the old ones but the evicted. */
  lemma RotatedDomains(p: Pool, hist: seq<string>, domain: string, d: string)
    requires p.InRange() && d in Rotated(p, hist, domain).domainToIp && d != domain
    ensures d in p.domainToIp && (|hist| >= p.Size() ==> d != hist[|hist| - p.Size()])
  {
  }

  lemma FreshKeepsDomains(p: Pool, hist: seq<string>, domain: string, d: string)
    requires Ok(p, hist) && |hist| < TWO_32 && domain !in p.domainToIp
    requires d in Fresh(p, domain).0.domainToIp
    ensures exists j :: HasDomain(Fresh(p, domain).0, hist + [domain], d, j)
  {
    FreshIs(p, hist, domain);
    RotatedParts(p, hist, domain);
    hide Addr, Fresh, LiveOk, HasAddr, Rotated;
    var p', k := Fresh(p, domain).0, |hist|;
    if d == domain {
      assert HasDomain(p', hist + [domain], d, k);
    } else {
      RotatedDomains(p, hist, domain, d);
      var j :| HasDomain(p, hist, d, j);
      assert HasDomain(p', hist + [domain], d, j);
    }
  }

  lemma FreshKeepsAddrs(p: Pool, hist: seq<string>, domain: string, a: u32)
    requires Ok(p, hist) && |hist| < TWO_32 && domain !in p.domainToIp
    requires a in Fresh(p, domain).0.ipToDomain
    ensures exists j :: HasAddr(Fresh(p, domain).0, hist + [domain], a, j)
  {
    FreshIs(p, hist, domain);
    hide Addr, Fresh;
    var p' := Fresh(p, domain).0;
    if a == Addr(p.min, p.Size(), |hist|) {
      assert HasAddr(p', hist + [domain], a, |hist|);
    } else {
      var j :| HasAddr(p, hist, a, j);
      if |hist| - j == p.Size() { OneTurn(p.min, p.Size(), j); }
      assert HasAddr(p', hist + [domain], a, j);
    }
  }

  /** The k-th fresh allocation gets min + k mod N, for the first 2^32. */
  lemma FreshKeepsOk(p: Pool, hist: seq<string>, domain: string)
    requires Ok(p, hist) && |hist| < TWO_32 && domain !in p.domainToIp
    ensures Fresh(p, domain).1 == Addr(p.min, p.Size(), |hist|)
    ensures Ok(Fresh(p, domain).0, hist + [domain])
  {
    hide Addr, Fresh, LiveOk, HasDomain, HasAddr, Rotated, WrappingSub;
    FreshIs(p, hist, domain);
    RotatedParts(p, hist, domain);
    var p' := Fresh(p, domain).0;
    forall j | Live(hist + [domain], p'.Size(), j) ensures LiveOk(p', hist + [domain], j) {
      FreshKeepsLive(p, hist, domain, j);
    }
    forall d | d in p'.domainToIp ensures exists j :: HasDomain(p', hist + [domain], d, j) {
      FreshKeepsDomains(p, hist, domain, d);
    }
    forall a | a in p'.ipToDomain ensures exists j :: HasAddr(p', hist + [domain], a, j) {
      FreshKeepsAddrs(p, hist, domain, a);
    }
  }

  /** Each domain has one address and each address one domain, all in the range. */
  ghost predicate Inverse(p: Pool) {
    && p.InRange()
    && (forall d :: d in p.domainToIp ==> p.domainToIp[d] in p.ipToDomain && p.ipToDomain[p.domainToIp[d]] == d)
    && (forall a :: a in p.ipToDomain ==>
          p.min <= a <= p.max && p.ipToDomain[a] in p.domainToIp && p.domainToIp[p.ipToDomain[a]] == a)
  }

  /** A request takes its address from the one domain that had it, and from nobody else, wherever the cursor is. */
  lemma OthersStay(p: Pool, domain: string, other: string)
    requires Inverse(p) && other in p.domainToIp && other != domain
    ensures var (p', ip) := Allocate(p, domain);
            && (other in p'.domainToIp <==> p.domainToIp[other] != ip)
            && (other in p'.domainToIp ==> p'.domainToIp[other] == p.domainToIp[other])
            && domain in p'.domainToIp && p'.domainToIp[domain] == ip
            && p'.domainToIp.Keys <= p.domainToIp.Keys + {domain}
  {
    hide Addr, WrappingSub;
    if domain in p.domainToIp { assert p.ipToDomain[p.domainToIp[domain]] == domain; }
  }

  /** The maps are inverse to each other, and all addresses lie in the range. */
  lemma MapsAreInverse(p: Pool, hist: seq<string>)
    requires Ok(p, hist)
    ensures Inverse(p)
  {
    hide Addr;
    forall d | d in p.domainToIp
      ensures p.domainToIp[d] in p.ipToDomain && p.ipToDomain[p.domainToIp[d]] == d
    {
      var j :| HasDomain(p, hist, d, j);
      assert LiveOk(p, hist, j);
    }
    forall a | a in p.ipToDomain
      ensures p.ipToDomain[a] in p.domainToIp && p.domainToIp[p.ipToDomain[a]] == a && p.min <= a <= p.max
    {
      var j :| HasAddr(p, hist, a, j);
      assert LiveOk(p, hist, j);
      AddrInRange(p.min, p.Size(), j);
    }
  }

  /** This needs no bound on the number of allocations: it survives the wrapping of the cursor. */
  lemma AllocateKeepsInverse(p: Pool, domain: string)
    requires Inverse(p)
    ensures p.InRange() && Inverse(Allocate(p, domain).0)
    ensures domain in Allocate(p, domain).0.domainToIp && Allocate(p, domain).0.domainToIp[domain] == Allocate(p, domain).1
    ensures p.min <= Allocate(p, domain).1 <= p.max
  {
    AddrInRange(p.min, p.Size(), WrappingSub(p.cursor, p.min));
    hide Addr, WrappingSub;
  }

  // ----- Runs of requests.

  function AllocateAll(p: Pool, calls: seq<string>): (Pool, seq<u32>)
    requires p.InRange()
    decreases |calls|
  {
    if calls == [] then (p, [])
    else
      var (p1, ip) := Allocate(p, calls[0]);
      var (p2, ips) := AllocateAll(p1, calls[1..]);
      (p2, [ip] + ips)
  }

  /** The domains a run of requests allocates freshly. */
  function FreshOnes(p: Pool, calls: seq<string>): seq<string>
    requires p.InRange()
    decreases |calls|
  {
    if calls == [] then []
    else (if calls[0] in p.domainToIp then [] else [calls[0]]) + FreshOnes(Allocate(p, calls[0]).0, calls[1..])
  }

  /** In every run, however long, the maps stay inverse to each other. */
  lemma {:induction false} RunKeepsInverse(p: Pool, calls: seq<string>)
    requires Inverse(p)
    ensures Inverse(AllocateAll(p, calls).0)
    decreases |calls|
  {
    if calls != [] {
      AllocateKeepsInverse(p, calls[0]);
      hide Inverse, Fresh;
      RunKeepsInverse(Allocate(p, calls[0]).0, calls[1..]);
    }
  }

  lemma {:induction false} RunKeepsOk(p: Pool, hist: seq<string>, calls: seq<string>)
    requires Ok(p, hist) && |hist| + |FreshOnes(p, calls)| <= TWO_32
    ensures Ok(AllocateAll(p, calls).0, hist + FreshOnes(p, calls))
    decreases |calls|
  {
    hide Fresh, LiveOk, Live, HasDomain, HasAddr;
    if calls == [] {
      assert hist + [] == hist;
    } else if calls[0] in p.domainToIp {
      RunKeepsOk(p, hist, calls[1..]);
      assert FreshOnes(p, calls) == FreshOnes(p, calls[1..]);
    } else {
      FreshKeepsOk(p, hist, calls[0]);
      RunKeepsOk(Fresh(p, calls[0]).0, hist + [calls[0]], calls[1..]);
      assert hist + FreshOnes(p, calls) == hist + [calls[0]] + FreshOnes(Fresh(p, calls[0]).0, calls[1..]);
    }
  }

  /** A domain keeps its address through any run with fewer fresh allocations than are left of its turn,
      and has lost it after any run with more. */
  lemma KeepsAddress(p: Pool, hist: seq<string>, calls: seq<string>, j: int)
    requires Ok(p, hist) && |hist| + |FreshOnes(p, calls)| <= TWO_32
    requires Live(hist, p.Size(), j)
    ensures var (p', k') := (AllocateAll(p, calls).0, |hist| + |FreshOnes(p, calls)|);
            && p'.min == p.min && p'.max == p.max
            && (k' - j <= p.Size() ==> hist[j] in p'.domainToIp && p'.domainToIp[hist[j]] == Addr(p.min, p.Size(), j))
            && (k' - j > p.Size() && hist[j] in p'.domainToIp ==> hist[j] in FreshOnes(p, calls))
  {
    hide Addr;
    RunKeepsOk(p, hist, calls);
    RangeStays(p, calls);
    var p', hist' := AllocateAll(p, calls).0, hist + FreshOnes(p, calls);
    if |hist'| - j <= p.Size() {
      assert LiveOk(p', hist', j);
    } else if hist[j] in p'.domainToIp {
      var i :| HasDomain(p', hist', hist[j], i);
      if i < |hist| {
        LiveDistinct(p, hist, j, i);
      } else {
        assert hist'[i] == FreshOnes(p, calls)[i - |hist|];
      }
    }
  }

  lemma {:induction false} RangeStays(p: Pool, calls: seq<string>)
    requires p.InRange()
    ensures AllocateAll(p, calls).0.min == p.min && AllocateAll(p, calls).0.max == p.max
    decreases |calls|
  {
    if calls != [] { RangeStays(Allocate(p, calls[0]).0, calls[1..]); }
  }

  lemma PowerIs()
    ensures Pow2(32) == TWO_32
  {
    assert Pow2(8) == 256;
    assert Pow2(16) == 65536;
    assert Pow2(24) == 0x100_0000;
  }
}
