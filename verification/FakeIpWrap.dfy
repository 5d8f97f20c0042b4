/** The rotation of the pool when its 32-bit cursor wraps, and after. */
module FakeIpWrap {
  import opened Bytes
  import opened FakeIp

  /** The addresses that a run of requests allocates freshly. */
  function FreshIps(p: Pool, calls: seq<string>): seq<u32>
    requires p.InRange()
    decreases |calls|
  {
    if calls == [] then []
    else (if calls[0] in p.domainToIp then [] else [Fresh(p, calls[0]).1]) + FreshIps(Allocate(p, calls[0]).0, calls[1..])
  }

  ghost predicate CursorAt(p: Pool, k: nat) {
    p.InRange() && p.cursor == (p.min + k) % TWO_32
  }

  lemma CursorSteps(min: u32, k: nat)
    ensures WrappingSub((min + k) % TWO_32, min) == k % TWO_32
    ensures ((min + k) % TWO_32 + 1) % TWO_32 == (min + k + 1) % TWO_32
  {
    var r := k % TWO_32;
    Wrapped(min + k, k / TWO_32, min + r);
    CursorAdds(min, r);
    NextWraps(min + k);
  }

  /** Whole turns of the cursor do not show. */
  lemma Wrapped(a: nat, q: nat, b: nat)
    requires a == q * TWO_32 + b
    ensures a % TWO_32 == b % TWO_32
  {
  }

  lemma CursorAdds(min: u32, r: u32)
    ensures WrappingSub((min + r) % TWO_32, min) == r
  {
  }

  lemma NextWraps(a: nat)
    ensures (a % TWO_32 + 1) % TWO_32 == (a + 1) % TWO_32
  {
  }

  /** Fresh allocation number k, however large k is. */
  lemma AnswerIs(p: Pool, k: nat, domain: string)
    requires CursorAt(p, k)
    ensures Fresh(p, domain).1 == Addr(p.min, p.Size(), k % TWO_32)
    ensures CursorAt(Fresh(p, domain).0, k + 1)
  {
    CursorSteps(p.min, k);
    hide Addr, WrappingSub;
  }

  lemma {:induction false} FreshIpsAre(p: Pool, k: nat, calls: seq<string>)
    requires CursorAt(p, k)
    ensures forall i :: 0 <= i < |FreshIps(p, calls)| ==> FreshIps(p, calls)[i] == Addr(p.min, p.Size(), (k + i) % TWO_32)
    decreases |calls|
  {
    hide Fresh, Addr;
    if calls != [] {
      if calls[0] in p.domainToIp {
        FreshIpsAre(p, k, calls[1..]);
        assert FreshIps(p, calls) == FreshIps(p, calls[1..]);
      } else {
        AnswerIs(p, k, calls[0]);
        SameRange(p, calls[0]);
        var p' := Fresh(p, calls[0]).0;
        FreshIpsAre(p', k + 1, calls[1..]);
        var rest := FreshIps(p', calls[1..]);
        forall i | 0 <= i < |FreshIps(p, calls)|
          ensures FreshIps(p, calls)[i] == Addr(p.min, p.Size(), (k + i) % TWO_32)
        {
          if i > 0 { assert FreshIps(p, calls)[i] == rest[i - 1] && (k + 1) + (i - 1) == k + i; }
        }
      }
    }
  }

  lemma SameRange(p: Pool, domain: string)
    requires p.InRange()
    ensures Fresh(p, domain).0.min == p.min && Fresh(p, domain).0.max == p.max
  {
  }

  // ----- When that is the rotation.

  lemma TwiceModOdd(x: nat, n: nat)
    requires n % 2 == 1
    ensures (2 * x) % n == 0 <==> x % n == 0
  {
    var q, r := x / n, x % n;
    assert x == q * n + r;
    if 2 * r < n {
      assert 2 * x == (2 * q) * n + 2 * r;
      Remainder(2 * q, 2 * r, n);
    } else {
      assert 2 * x == (2 * q + 1) * n + (2 * r - n);
      Remainder(2 * q + 1, 2 * r - n, n);
    }
  }

  function Times(a: nat, b: nat): nat {
    a * b
  }

  lemma TwiceTimes(a: nat, b: nat)
    ensures Times(2 * a, b) == 2 * Times(a, b) && Times(1, b) == b
  {
  }

  /** A power of two has no factor in common with an odd number. */
  lemma {:induction false} PowerModOdd(k: nat, x: nat, n: nat)
    requires n % 2 == 1
    ensures Times(Pow2(k), x) % n == 0 <==> x % n == 0
  {
    hide Times;
    if k == 0 {
      TwiceTimes(1, x);
    } else {
      PowerModOdd(k - 1, x, n);
      TwiceTimes(Pow2(k - 1), x);
      TwiceModOdd(Times(Pow2(k - 1), x), n);
    }
  }

  lemma DivParts(a: nat, n: nat)
    requires n > 0
    ensures a == Times(a / n, n) + a % n && a % n < n
  {
  }

  lemma TimesPlus(a: nat, b: nat, n: nat)
    ensures Times(a + b, n) == Times(a, n) + Times(b, n) && Times(1, n) == n
  {
  }

  lemma TimesRemainder(q: nat, r: nat, n: nat)
    requires r < n
    ensures (Times(q, n) + r) % n == r
  {
    Remainder(q, r, n);
  }

  lemma ShiftMod(a: nat, r: nat, n: nat)
    requires n > 0
    ensures (a + r) % n == r % n <==> a % n == 0
  {
    DivParts(a, n);
    DivParts(r, n);
    hide Times;
    var q, s, u, v := a / n, a % n, r / n, r % n;
    TimesPlus(q, u, n);
    if s + v < n {
      TimesRemainder(q + u, s + v, n);
    } else {
      TimesPlus(q + u, 1, n);
      TimesRemainder(q + u + 1, s + v - n, n);
    }
  }

  lemma OddSize(bits: nat)
    requires bits >= 2
    ensures Pow2(bits) >= 4 && (Pow2(bits) - 3) % 2 == 1
  {
    assert Pow2(bits) == 2 * Pow2(bits - 1);
    assert Pow2(bits - 1) == 2 * Pow2(bits - 2);
  }

  lemma WrapParts(k: nat)
    ensures k == Times(TWO_32, k / TWO_32) + k % TWO_32
  {
  }

  /** Allocation number k continues the rotation exactly if the cursor has wrapped a whole number of turns. */
  lemma RotationAt(min: u32, bits: nat, k: nat)
    requires bits >= 2
    ensures Pow2(bits) - 3 > 0
    ensures Addr(min, Pow2(bits) - 3, k % TWO_32) == Addr(min, Pow2(bits) - 3, k) <==>
            (k / TWO_32) % (Pow2(bits) - 3) == 0
  {
    OddSize(bits);
    var n := Pow2(bits) - 3;
    hide Pow2;
    WrapParts(k);
    PowerIs();
    PowerModOdd(32, k / TWO_32, n);
    hide Times;
    ShiftMod(Times(TWO_32, k / TWO_32), k % TWO_32, n);
  }

  lemma FirstWrap(n: nat)
    requires n > 1
    ensures (TWO_32 / TWO_32) % n != 0
  {
  }

  /** Over whole runs of a new pool: all answers follow the rotation if and only if there are at most 2^32 fresh
      allocations, or there is one address only. */
  lemma RotationExactly(p: Pool, bits: nat, calls: seq<string>)
    requires p.InRange() && p.cursor == p.min && bits >= 2 && p.Size() == Pow2(bits) - 3
    ensures (forall i :: 0 <= i < |FreshIps(p, calls)| ==> FreshIps(p, calls)[i] == Addr(p.min, p.Size(), i)) <==>
            |FreshIps(p, calls)| <= TWO_32 || p.Size() == 1
  {
    var ips := FreshIps(p, calls);
    FreshIpsAre(p, 0, calls);
    hide FreshIps, Pow2, Addr;
    if |ips| <= TWO_32 || p.Size() == 1 {
      forall i | 0 <= i < |ips| ensures ips[i] == Addr(p.min, p.Size(), i) {
        RotationAt(p.min, bits, i);
        Whole(i, p.Size());
        assert ips[i] == Addr(p.min, p.Size(), (0 + i) % TWO_32);
      }
    } else {
      RotationAt(p.min, bits, TWO_32);
      FirstWrap(p.Size());
      assert ips[TWO_32] == Addr(p.min, p.Size(), (0 + TWO_32) % TWO_32);
    }
  }

  lemma Whole(i: nat, n: nat)
    requires n > 0 && (i < TWO_32 || n == 1)
    ensures (i / TWO_32) % n == 0
  {
  }

  /** A build with overflow checks stops when the cursor is below `min`, first at allocation 2^32 - min. */
  lemma CheckedCursor(min: u32, k: nat)
    ensures (min + k) % TWO_32 < min <==> k % TWO_32 >= TWO_32 - min
  {
  }
}
