/** The pool in the program's own form, and its double-checked locking: interleaved requests behave like
    requests made one at a time. */
module FakeIpPooling {
  import opened Options
  import opened Bytes
  import opened FakeIp

  class FakeIpPool {
    const min: u32
    const max: u32
    var cursor: u32
    var domainToIp: map<string, u32>
    var ipToDomain: map<u32, string>
    /** The domains in order of fresh allocation. */
    ghost var hist: seq<string>

    ghost function P(): Pool
      reads this
    {
      Pool(min, max, cursor, domainToIp, ipToDomain)
    }

    ghost predicate Valid()
      reads this
    {
      Inverse(P())
    }

    /** The pool is still in its first turn of the cursor. */
    ghost predicate Counted()
      reads this
    {
      Ok(P(), hist)
    }

    /** A pool over an aligned range with prefix 1 to 30: without network, gateway and broadcast. */
    constructor (base: u32, prefixLen: nat)
      requires 1 <= prefixLen <= 30 && base as int % Pow2(32 - prefixLen) == 0
      ensures Valid() && Counted() && hist == []
      ensures min as int == base + 2 && max as int == base + Pow2(32 - prefixLen) - 2
      ensures cursor == min && domainToIp == map[] && ipToDomain == map[]
      ensures P().Size() == Pow2(32 - prefixLen) - 3
    {
      RangeFits(base, 32 - prefixLen);
      min := base + 2;
      max := base + Pow2(32 - prefixLen) - 2;
      cursor := base + 2;
      domainToIp, ipToDomain := map[], map[];
      hist := [];
    }

    method NextIp() returns (ip: u32)
      requires P().InRange()
      modifies this`cursor
      ensures min <= ip <= max
      ensures ip == Addr(min, P().Size(), WrappingSub(old(cursor), min))
      ensures cursor == (old(cursor) + 1) % TWO_32
    {
      var current := cursor;
      cursor := if cursor == 0xFFFF_FFFF then 0 else cursor + 1;
      var size := max as int - min as int + 1;
      AddrInRange(min, size, WrappingSub(current, min));
      ip := min + WrappingSub(current, min) % size;
    }

    /** Get or allocate the address of a domain. */
    method Allocate(domain: string) returns (ip: u32)
      requires Valid()
      modifies this
      ensures Valid()
      ensures (P(), ip) == FakeIp.Allocate(old(P()), domain)
      ensures min <= ip <= max && domain in domainToIp && domainToIp[domain] == ip
      ensures hist == old(hist) + (if domain in old(domainToIp) then [] else [domain])
      ensures old(Counted()) && |hist| <= TWO_32 ==>
        Counted() && (domain !in old(domainToIp) ==> ip == Addr(min, P().Size(), |old(hist)|))
    {
      hide Addr, WrappingSub, Inverse, Ok;
      ghost var p := P();
      AllocateKeepsInverse(p, domain);
      if domain in domainToIp {
        assert hist == hist + [];
        return domainToIp[domain];
      }
      if Counted() && |hist| < TWO_32 { FreshKeepsOk(p, hist, domain); }
      ip := NextIp();
      Record(domain, ip);
      assert (P(), ip) == Fresh(p, domain);
    }

    /** The address goes to the domain; a domain that had it loses it. */
    method Record(domain: string, ip: u32)
      modifies this`domainToIp, this`ipToDomain, this`hist
      ensures domainToIp ==
              (if ip in old(ipToDomain) then old(domainToIp) - {old(ipToDomain)[ip]} else old(domainToIp))[domain := ip]
      ensures ipToDomain == old(ipToDomain)[ip := domain]
      ensures hist == old(hist) + [domain]
    {
      if ip in ipToDomain {
        var oldDomain := ipToDomain[ip];
        ipToDomain := ipToDomain - {ip};
        domainToIp := domainToIp - {oldDomain};
      }
      domainToIp := domainToIp[domain := ip];
      ipToDomain := ipToDomain[ip := domain];
      hist := hist + [domain];
    }

    method Lookup(ip: u32) returns (domain: Option<string>)
      requires Valid()
      ensures domain.Some? <==> exists d :: d in domainToIp && domainToIp[d] == ip
      ensures domain.Some? ==> domain.value in domainToIp && domainToIp[domain.value] == ip
    {
      domain := if ip in ipToDomain then Some(ipToDomain[ip]) else None;
    }

    /** Every address handed out is recognised, and no IPv6 address is. */
    method Contains(ip: IpAddr) returns (r: bool)
      requires Valid()
      ensures r <==> ip.V4? && min <= ip.addr <= max
      ensures ip.V4? && ip.addr in ipToDomain ==> r
    {
      match ip {
        case V4(n) => r := n >= min && n <= max;
        case V6(_) => r := false;
      }
    }
  }

  datatype IpAddr = V4(addr: u32) | V6(groups: seq<u16>)

  lemma AlignedFits(base: int, size: int, m: int, total: int)
    requires size > 0 && m * size == total && base % size == 0 && base < total
    ensures base + size <= total
  {
    var q := base / size;
    assert q * size == base;
    Scale(m, q, size);
    Scale(q + 1, m, size);
    assert (q + 1) * size == base + size;
  }

  /** An aligned range of at least four addresses does not overflow 32 bits. */
  lemma RangeFits(base: u32, bits: nat)
    requires 2 <= bits <= 31 && base as int % Pow2(bits) == 0
    ensures 4 <= Pow2(bits) && base as int + Pow2(bits) <= TWO_32
  {
    PowerIs();
    PowersDivide(bits, 32);
    PowerGrows(2, bits);
    assert Pow2(2) == 4;
    hide Pow2;
    var m: int :| m * Pow2(bits) == Pow2(32);
    AlignedFits(base, Pow2(bits), m, TWO_32);
  }

  lemma {:induction false} PowersDivide(a: nat, b: nat)
    requires a <= b
    ensures exists m: int :: m * Pow2(a) == Pow2(b)
  {
    if a == b {
      assert 1 * Pow2(a) == Pow2(b);
    } else {
      PowersDivide(a, b - 1);
      var m: int :| m * Pow2(a) == Pow2(b - 1);
      assert (2 * m) * Pow2(a) == Pow2(b);
    }
  }

  lemma {:induction false} PowerGrows(a: nat, b: nat)
    requires a <= b
    ensures Pow2(a) <= Pow2(b)
  {
    if a < b { PowerGrows(a, b - 1); }
  }

  // ----- Threads: the read lock is given up before the write locks are taken.

  /** A thread that missed under the read lock still has its domain to allocate. */
  datatype Shared = Shared(pool: Pool, missed: map<nat, string>)

  datatype Step =
    | Check(thread: nat, domain: string)
    | Write(thread: nat)

  datatype Answer = Answer(thread: nat, domain: string, ip: u32)

  ghost predicate Enabled(s: Shared, step: Step) {
    match step
    case Check(t, _) => t !in s.missed
    case Write(t) => t in s.missed
  }

  /** A hit answers at once. Under the write locks the domain is looked up again. */
  function Next(s: Shared, step: Step): Shared
    requires Enabled(s, step) && s.pool.InRange()
  {
    match step
    case Check(t, d) => if d in s.pool.domainToIp then s else s.(missed := s.missed[t := d])
    case Write(t) => Shared(Allocate(s.pool, s.missed[t]).0, s.missed - {t})
  }

  function Answers(s: Shared, step: Step): seq<Answer>
    requires Enabled(s, step) && s.pool.InRange()
  {
    match step
    case Check(t, d) => if d in s.pool.domainToIp then [Answer(t, d, s.pool.domainToIp[d])] else []
    case Write(t) => [Answer(t, s.missed[t], Allocate(s.pool, s.missed[t]).1)]
  }

  ghost predicate Run(s: Shared, steps: seq<Step>)
    requires s.pool.InRange()
    decreases |steps|
  {
    steps != [] ==> Enabled(s, steps[0]) && Run(Next(s, steps[0]), steps[1..])
  }

  function RunAll(s: Shared, steps: seq<Step>): (Shared, seq<Answer>)
    requires s.pool.InRange() && Run(s, steps)
    decreases |steps|
  {
    if steps == [] then (s, [])
    else
      var (s', answers) := RunAll(Next(s, steps[0]), steps[1..]);
      (s', Answers(s, steps[0]) + answers)
  }

  function Domains(answers: seq<Answer>): seq<string> {
    seq(|answers|, i requires 0 <= i < |answers| => answers[i].domain)
  }

  function Ips(answers: seq<Answer>): seq<u32> {
    seq(|answers|, i requires 0 <= i < |answers| => answers[i].ip)
  }

  lemma StepAnswers(s: Shared, step: Step)
    requires Enabled(s, step) && s.pool.InRange()
    ensures Next(s, step).pool.InRange()
    ensures |Answers(s, step)| <= 1
    ensures if Answers(s, step) == [] then Next(s, step).pool == s.pool
            else var a := Answers(s, step)[0]; Allocate(s.pool, a.domain) == (Next(s, step).pool, a.ip)
  {
  }

  lemma AnswerFirst(a: Answer, later: seq<Answer>)
    ensures Domains([a] + later) == [a.domain] + Domains(later) && Ips([a] + later) == [a.ip] + Ips(later)
  {
  }

  /** Linearizability: the answers of any interleaving, in the order they were decided, are those of the
      same requests made one at a time; each is decided between its check and its return. */
  lemma {:induction false} InterleavingIsSequential(s: Shared, steps: seq<Step>)
    requires s.pool.InRange() && Run(s, steps)
    ensures AllocateAll(s.pool, Domains(RunAll(s, steps).1)) == (RunAll(s, steps).0.pool, Ips(RunAll(s, steps).1))
    decreases |steps|
  {
    if steps == [] {
      assert Domains([]) == [] && Ips([]) == [];
    } else {
      StepAnswers(s, steps[0]);
      hide Allocate, Answers, Domains, Ips;
      var s1, now := Next(s, steps[0]), Answers(s, steps[0]);
      InterleavingIsSequential(s1, steps[1..]);
      var (end, later) := RunAll(s1, steps[1..]);
      assert RunAll(s, steps) == (end, now + later);
      if now == [] {
        assert now + later == later;
      } else {
        assert now == [now[0]];
        AnswerFirst(now[0], later);
      }
    }
  }

  /** So no run of threads ever breaks the pool: its maps stay inverse to each other, and a domain has at
      most one address. */
  lemma InterleavingKeepsOk(s: Shared, steps: seq<Step>, hist: seq<string>)
    requires s.pool.InRange() && Run(s, steps) && Ok(s.pool, hist)
    requires |hist| + |FreshOnes(s.pool, Domains(RunAll(s, steps).1))| <= TWO_32
    ensures Ok(RunAll(s, steps).0.pool, hist + FreshOnes(s.pool, Domains(RunAll(s, steps).1)))
  {
    hide Ok, Fresh;
    InterleavingIsSequential(s, steps);
    RunKeepsOk(s.pool, hist, Domains(RunAll(s, steps).1));
  }

  /** However many threads and allocations there are, no domain ever has two addresses. */
  lemma InterleavingKeepsInverse(s: Shared, steps: seq<Step>)
    requires s.pool.InRange() && Run(s, steps) && Inverse(s.pool)
    ensures Inverse(RunAll(s, steps).0.pool)
  {
    hide Inverse, Fresh;
    InterleavingIsSequential(s, steps);
    RunKeepsInverse(s.pool, Domains(RunAll(s, steps).1));
  }
}
