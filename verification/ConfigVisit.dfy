/** Visiting the net references of a config, with the path that each is found at. */
module ConfigVisit {
  import opened ConfigGraph
  import opened Flattening
  import opened Bytes

  /** A config value: a reference, named parts (a struct, a variant or a map), numbered parts (a list or an
      option), or a single-or-many group. A value without references is a struct with no parts. */
  datatype Tree =
    | Leaf(ref: Ref)
    | Parts(parts: seq<(string, Tree)>)
    | Items(items: seq<Tree>)
    | Group(items: seq<Tree>)

  function Count(c: Tree): nat {
    match c
    case Leaf(_) => 0
    case Parts(parts) => |parts|
    case Items(items) => |items|
    case Group(items) => |items|
  }

  function Child(c: Tree, i: nat): (r: Tree)
    requires i < Count(c)
    ensures r < c
  {
    match c
    case Parts(parts) => parts[i].1
    case Items(items) => items[i]
    case Group(items) => items[i]
  }

  /** What the visitor's path grows by on the way to a part. Groups add nothing. */
  function Key(c: Tree, i: nat): Path
    requires i < Count(c)
  {
    match c
    case Parts(parts) => [parts[i].0]
    case Items(_) => [Decimal(i)]
    case Group(_) => []
  }

  function Digit(n: nat): char
    requires n < 10
  {
    "0123456789"[n]
  }

  function Decimal(n: nat): (r: string)
    ensures r != ""
  {
    if n < 10 then [Digit(n)] else Decimal(n / 10) + [Digit(n % 10)]
  }

  lemma {:induction false} DecimalIsInjective(m: nat, n: nat)
    requires Decimal(m) == Decimal(n)
    ensures m == n
  {
    var s, t := Decimal(m), Decimal(n);
    assert s[|s| - 1] == Digit(m % 10) && t[|t| - 1] == Digit(n % 10);
    assert m % 10 == n % 10;
    if m >= 10 && n >= 10 {
      assert s[..|s| - 1] == Decimal(m / 10) && t[..|t| - 1] == Decimal(n / 10);
      DecimalIsInjective(m / 10, n / 10);
    } else {
      assert m >= 10 ==> |s| >= 2;
      assert n >= 10 ==> |t| >= 2;
    }
  }

  /** The number that decimal digits stand for, the highest first. */
  function Reads(s: string): int {
    if s == "" then 0 else 10 * Reads(s[..|s| - 1]) + (s[|s| - 1] as int - '0' as int)
  }

  lemma {:induction false} DecimalReads(n: nat)
    ensures Reads(Decimal(n)) == n && forall c :: c in Decimal(n) ==> '0' <= c <= '9'
    ensures Decimal(n)[0] == '0' <==> n == 0
  {
    DigitIs(n % 10);
    if n >= 10 {
      DecimalReads(n / 10);
      assert Decimal(n)[..|Decimal(n)| - 1] == Decimal(n / 10);
    } else {
      assert Decimal(n)[..0] == "";
    }
  }

  lemma DigitIs(d: nat)
    requires d < 10
    ensures Digit(d) as int == '0' as int + d
  {
  }

  // ----- What a visit sees.

  function Visits(c: Tree, prefix: Path): seq<Field>
    decreases c, 1
  {
    if c.Leaf? then [Field(prefix, c.ref)] else VisitsFrom(c, 0, prefix)
  }

  function VisitsFrom(c: Tree, i: nat, prefix: Path): seq<Field>
    requires i <= Count(c)
    decreases c, 0, Count(c) - i
  {
    if i == Count(c) then [] else Visits(Child(c, i), prefix + Key(c, i)) + VisitsFrom(c, i + 1, prefix)
  }

  /** Names and positions make up the paths, groups do not show, and references come in the order written. */
  lemma VisitsSample(a: Ref, b: Ref, c: Ref, d: Ref)
    ensures Visits(Parts([("net", Leaf(a)), ("rules", Items([Group([Leaf(b), Leaf(c)]), Parts([("to", Leaf(d))])]))]), ["x"]) ==
            [Field(["x", "net"], a), Field(["x", "rules", "0"], b), Field(["x", "rules", "0"], c),
             Field(["x", "rules", "1", "to"], d)]
  {
    var group, to := Group([Leaf(b), Leaf(c)]), Parts([("to", Leaf(d))]);
    var rules := Items([group, to]);
    var top := Parts([("net", Leaf(a)), ("rules", rules)]);
    assert Decimal(0) == "0" && Decimal(1) == "1";
    TwoParts(top, ["x"]);
    TwoParts(rules, ["x", "rules"]);
    TwoParts(group, ["x", "rules", "0"]);
    OnePart(to, ["x", "rules", "1"]);
    hide VisitsFrom, Decimal;
    assert ["x"] + ["net"] == ["x", "net"] && ["x"] + ["rules"] == ["x", "rules"];
    assert ["x", "rules"] + ["0"] == ["x", "rules", "0"] && ["x", "rules"] + ["1"] == ["x", "rules", "1"];
    assert ["x", "rules", "0"] + [] == ["x", "rules", "0"];
    assert ["x", "rules", "1"] + ["to"] == ["x", "rules", "1", "to"];
  }

  lemma OnePart(c: Tree, p: Path)
    requires Count(c) == 1
    ensures Visits(c, p) == Visits(Child(c, 0), p + Key(c, 0))
  {
    assert VisitsFrom(c, 1, p) == [];
  }

  lemma TwoParts(c: Tree, p: Path)
    requires Count(c) == 2
    ensures Visits(c, p) == Visits(Child(c, 0), p + Key(c, 0)) + Visits(Child(c, 1), p + Key(c, 1))
  {
    assert VisitsFrom(c, 2, p) == [];
    assert VisitsFrom(c, 1, p) == Visits(Child(c, 1), p + Key(c, 1));
  }

  /** What the i-th part contributes. */
  function Part(c: Tree, i: nat, p: Path): seq<Field>
    requires i < Count(c)
  {
    Visits(Child(c, i), p + Key(c, i))
  }

  lemma FromSplits(c: Tree, i: nat, p: Path)
    requires i <= Count(c)
    ensures VisitsFrom(c, i, p) == if i == Count(c) then [] else Part(c, i, p) + VisitsFrom(c, i + 1, p)
    ensures !c.Leaf? ==> Visits(c, p) == VisitsFrom(c, 0, p)
  {
  }

  /** Everything up to the first reference that the visitor refuses, and that one. */
  function Until(fs: seq<Field>, accepts: Field -> bool): seq<Field> {
    if fs == [] then [] else if !accepts(fs[0]) then [fs[0]] else [fs[0]] + Until(fs[1..], accepts)
  }

  ghost predicate AllAccepted(fs: seq<Field>, accepts: Field -> bool) {
    forall f :: f in fs ==> accepts(f)
  }

  lemma AcceptedAppend(a: seq<Field>, b: seq<Field>, accepts: Field -> bool)
    ensures AllAccepted(a + b, accepts) <==> AllAccepted(a, accepts) && AllAccepted(b, accepts)
  {
    assert forall f :: f in a + b <==> f in a || f in b;
  }

  lemma {:induction false} UntilAppend(a: seq<Field>, b: seq<Field>, accepts: Field -> bool)
    ensures Until(a + b, accepts) == if AllAccepted(a, accepts) then a + Until(b, accepts) else Until(a, accepts)
    ensures AllAccepted(a, accepts) ==> Until(a, accepts) == a
  {
    hide Until, AllAccepted;
    if a == [] {
      NothingRefused(accepts);
      assert a + b == b && [] + Until(b, accepts) == Until(b, accepts);
    } else {
      var x, rest := a[0], a[1..];
      assert [x] + rest == a && [x] + (rest + b) == a + b;
      UntilAppend(rest, b, accepts);
      UntilFirst(x, rest, accepts);
      UntilFirst(x, rest + b, accepts);
      if AllAccepted(rest, accepts) {
        calc {
          [x] + Until(rest + b, accepts);
          [x] + (rest + Until(b, accepts));
          { Associative([x], rest, Until(b, accepts)); }
          a + Until(b, accepts);
        }
      }
    }
  }

  lemma NothingRefused(accepts: Field -> bool)
    ensures Until([], accepts) == [] && AllAccepted([], accepts)
  {
  }

  lemma UntilFirst(x: Field, rest: seq<Field>, accepts: Field -> bool)
    ensures Until([x] + rest, accepts) == if accepts(x) then [x] + Until(rest, accepts) else [x]
    ensures AllAccepted([x] + rest, accepts) <==> accepts(x) && AllAccepted(rest, accepts)
  {
    assert ([x] + rest)[1..] == rest;
    assert forall f :: f in [x] + rest <==> f == x || f in rest;
  }

  class VisitorContext {
    var path: Path

    constructor ()
      ensures path == []
    {
      path := [];
    }

    method Push(field: string)
      modifies this
      ensures path == old(path) + [field]
    {
      path := path + [field];
    }

    method Pop()
      modifies this
      ensures path == if old(path) == [] then [] else old(path)[..|old(path)| - 1]
    {
      if path != [] { path := path[..|path| - 1]; }
    }
  }

  /** A visitor that records each reference and may refuse it. */
  class Visitor {
    const accepts: Field -> bool
    var seen: seq<Field>

    constructor (accepts: Field -> bool)
      ensures this.accepts == accepts && seen == []
    {
      this.accepts, seen := accepts, [];
    }

    method VisitNetRef(ctx: VisitorContext, ref: Ref) returns (ok: bool)
      modifies this
      ensures seen == old(seen) + [Field(ctx.path, ref)] && ok == accepts(Field(ctx.path, ref))
    {
      seen := seen + [Field(ctx.path, ref)];
      ok := accepts(Field(ctx.path, ref));
    }
  }

  /** The references are seen in order, each at its path; the path is as before, unless a reference was
      refused, in which case nothing after that one is seen. */
  method Visit(c: Tree, ctx: VisitorContext, v: Visitor) returns (ok: bool)
    modifies ctx, v
    ensures v.seen == old(v.seen) + Until(Visits(c, old(ctx.path)), v.accepts)
    ensures ok <==> AllAccepted(Visits(c, old(ctx.path)), v.accepts)
    ensures ok ==> ctx.path == old(ctx.path)
    decreases c, 1
  {
    hide Visits, VisitsFrom, Part, Until, AllAccepted;
    if c.Leaf? {
      ok := v.VisitNetRef(ctx, c.ref);
      LeafVisit(c, ctx.path, v.accepts);
      return;
    }
    ghost var prefix, all := ctx.path, Visits(c, ctx.path);
    ghost var goal := v.seen + Until(all, v.accepts);
    FromSplits(c, 0, prefix);
    var i := 0;
    while i < Count(c)
      invariant 0 <= i <= Count(c) && ctx.path == prefix
      invariant v.seen + Until(VisitsFrom(c, i, prefix), v.accepts) == goal
      invariant AllAccepted(VisitsFrom(c, i, prefix), v.accepts) <==> AllAccepted(all, v.accepts)
    {
      VisitStep(c, i, prefix, v.accepts, v.seen);
      ok := VisitPart(c, i, ctx, v);
      if !ok {
        return false;
      }
      i := i + 1;
    }
    VisitEnd(c, prefix, v.accepts, v.seen);
    return true;
  }

  lemma LeafVisit(c: Tree, p: Path, accepts: Field -> bool)
    requires c.Leaf?
    ensures Until(Visits(c, p), accepts) == [Field(p, c.ref)]
    ensures AllAccepted(Visits(c, p), accepts) <==> accepts(Field(p, c.ref))
  {
    assert Visits(c, p)[1..] == [];
  }

  lemma VisitStep(c: Tree, i: nat, p: Path, accepts: Field -> bool, seen: seq<Field>)
    requires i < Count(c)
    ensures var part, whole, rest := Part(c, i, p), VisitsFrom(c, i, p), VisitsFrom(c, i + 1, p);
            if AllAccepted(part, accepts) then
              && seen + Until(part, accepts) + Until(rest, accepts) == seen + Until(whole, accepts)
              && (AllAccepted(whole, accepts) <==> AllAccepted(rest, accepts))
            else seen + Until(part, accepts) == seen + Until(whole, accepts) && !AllAccepted(whole, accepts)
  {
    var part, rest := Part(c, i, p), VisitsFrom(c, i + 1, p);
    FromSplits(c, i, p);
    UntilAppend(part, rest, accepts);
    AcceptedAppend(part, rest, accepts);
    hide Until, AllAccepted, VisitsFrom, Part;
    Associative(seen, part, Until(rest, accepts));
  }

  lemma VisitEnd(c: Tree, p: Path, accepts: Field -> bool, seen: seq<Field>)
    ensures seen + Until(VisitsFrom(c, Count(c), p), accepts) == seen && AllAccepted(VisitsFrom(c, Count(c), p), accepts)
  {
    assert Until([], accepts) == [];
  }

  method VisitPart(c: Tree, i: nat, ctx: VisitorContext, v: Visitor) returns (ok: bool)
    requires i < Count(c)
    modifies ctx, v
    ensures v.seen == old(v.seen) + Until(Part(c, i, old(ctx.path)), v.accepts)
    ensures ok <==> AllAccepted(Part(c, i, old(ctx.path)), v.accepts)
    ensures ok ==> ctx.path == old(ctx.path)
    decreases c, 0
  {
    ghost var prefix := ctx.path;
    if c.Parts? {
      ctx.Push(c.parts[i].0);
    } else if c.Items? {
      ctx.Push(Decimal(i));
    }
    assert ctx.path == prefix + Key(c, i);
    hide Visits, Until, AllAccepted;
    ok := Visit(Child(c, i), ctx, v);
    if ok && !c.Group? {
      ctx.Pop();
    }
  }

  // ----- When all paths are different.

  ghost predicate DistinctPaths(fs: seq<Field>) {
    forall i, j :: 0 <= i < j < |fs| ==> fs[i].path != fs[j].path
  }

  ghost predicate Apart(a: seq<Field>, b: seq<Field>) {
    forall x, y :: x in a && y in b ==> x.path != y.path
  }

  ghost predicate KeysDistinct(c: Tree) {
    && (c.Parts? ==> forall i, j :: 0 <= i < j < |c.parts| ==> c.parts[i].0 != c.parts[j].0)
    && forall i :: 0 <= i < Count(c) ==> KeysDistinct(Child(c, i))
  }

  /** No two members of a group hold references at the same path below it. */
  ghost predicate GroupsSeparate(c: Tree) {
    && (c.Group? ==> forall i, j :: 0 <= i < j < Count(c) ==> Apart(Visits(Child(c, i), []), Visits(Child(c, j), [])))
    && forall i :: 0 <= i < Count(c) ==> GroupsSeparate(Child(c, i))
  }

  /** The same references, with a longer prefix. */
  ghost predicate Shifted(a: seq<Field>, b: seq<Field>, p: Path) {
    |a| == |b| && forall k :: 0 <= k < |a| ==> a[k] == Field(p + b[k].path, b[k].ref)
  }

  lemma {:induction false} VisitsShift(c: Tree, p: Path, q: Path)
    ensures Shifted(Visits(c, p + q), Visits(c, q), p)
    decreases c, 1
  {
    if !c.Leaf? { VisitsFromShift(c, 0, p, q); }
  }

  lemma {:induction false} VisitsFromShift(c: Tree, i: nat, p: Path, q: Path)
    requires i <= Count(c)
    ensures Shifted(VisitsFrom(c, i, p + q), VisitsFrom(c, i, q), p)
    decreases c, 0, Count(c) - i
  {
    FromSplits(c, i, q);
    FromSplits(c, i, p + q);
    if i < Count(c) {
      VisitsShift(Child(c, i), p, q + Key(c, i));
      assert p + q + Key(c, i) == p + (q + Key(c, i));
      assert Shifted(Part(c, i, p + q), Part(c, i, q), p);
      VisitsFromShift(c, i + 1, p, q);
      hide Visits, VisitsFrom, Part;
      ShiftAppend(Part(c, i, p + q), VisitsFrom(c, i + 1, p + q), Part(c, i, q), VisitsFrom(c, i + 1, q), p);
    }
  }

  lemma ShiftAppend(a: seq<Field>, b: seq<Field>, c: seq<Field>, d: seq<Field>, p: Path)
    requires Shifted(a, c, p) && Shifted(b, d, p)
    ensures Shifted(a + b, c + d, p)
  {
  }

  lemma ShiftKeepsApart(a: seq<Field>, b: seq<Field>, c: seq<Field>, d: seq<Field>, p: Path)
    requires Shifted(a, b, p) && Shifted(c, d, p)
    ensures Apart(a, c) <==> Apart(b, d)
  {
    forall i, j | 0 <= i < |a| && 0 <= j < |c|
      ensures a[i].path == c[j].path <==> b[i].path == d[j].path
    {
      assert (p + b[i].path)[|p|..] == b[i].path && (p + d[j].path)[|p|..] == d[j].path;
    }
    if Apart(a, c) {
      forall x, y | x in b && y in d ensures x.path != y.path {
        var i :| 0 <= i < |b| && b[i] == x;
        var j :| 0 <= j < |d| && d[j] == y;
        assert a[i] in a && c[j] in c;
      }
    }
    if Apart(b, d) {
      forall x, y | x in a && y in c ensures x.path != y.path {
        var i :| 0 <= i < |a| && a[i] == x;
        var j :| 0 <= j < |c| && c[j] == y;
        assert b[i] in b && d[j] in d;
      }
    }
  }

  lemma DistinctAppend(a: seq<Field>, b: seq<Field>)
    ensures DistinctPaths(a + b) <==> DistinctPaths(a) && DistinctPaths(b) && Apart(a, b)
  {
    var s := a + b;
    if DistinctPaths(s) {
      forall i, j | 0 <= i < j < |b| ensures b[i].path != b[j].path {
        assert s[|a| + i].path != s[|a| + j].path;
      }
      forall i, j | 0 <= i < j < |a| ensures a[i].path != a[j].path {
        assert s[i].path != s[j].path;
      }
      forall x, y | x in a && y in b ensures x.path != y.path {
        var i :| 0 <= i < |a| && a[i] == x;
        var j :| 0 <= j < |b| && b[j] == y;
        assert s[i].path != s[|a| + j].path;
      }
    }
  }

  lemma ApartAppend(a: seq<Field>, b: seq<Field>, c: seq<Field>)
    ensures Apart(a, b + c) <==> Apart(a, b) && Apart(a, c)
  {
    assert forall y :: y in b + c <==> y in b || y in c;
  }

  lemma {:induction false} ApartFromRest(c: Tree, i: nat, k: nat, p: Path)
    requires i < k <= Count(c)
    ensures Apart(Part(c, i, p), VisitsFrom(c, k, p)) <==>
            forall j :: k <= j < Count(c) ==> Apart(Part(c, i, p), Part(c, j, p))
    decreases Count(c) - k
  {
    hide Apart, Visits, VisitsFrom, Part;
    FromSplits(c, k, p);
    if k < Count(c) {
      ApartFromRest(c, i, k + 1, p);
      ApartAppend(Part(c, i, p), Part(c, k, p), VisitsFrom(c, k + 1, p));
    } else {
      ApartFromNothing(Part(c, i, p));
    }
  }

  lemma ApartFromNothing(a: seq<Field>)
    ensures Apart(a, [])
  {
  }

  lemma {:induction false} DistinctFrom(c: Tree, k: nat, p: Path)
    requires k <= Count(c)
    ensures DistinctPaths(VisitsFrom(c, k, p)) <==>
            (forall i :: k <= i < Count(c) ==> DistinctPaths(Part(c, i, p)))
            && (forall i, j :: k <= i < j < Count(c) ==> Apart(Part(c, i, p), Part(c, j, p)))
    decreases Count(c) - k
  {
    hide DistinctPaths, Apart, Visits, VisitsFrom, Part;
    FromSplits(c, k, p);
    if k < Count(c) {
      DistinctFrom(c, k + 1, p);
      ApartFromRest(c, k, k + 1, p);
      DistinctAppend(Part(c, k, p), VisitsFrom(c, k + 1, p));
    } else {
      NothingIsDistinct();
    }
  }

  lemma NothingIsDistinct()
    ensures DistinctPaths([])
  {
  }

  /** Parts of anything but a group are kept apart by their keys. */
  lemma KeysSeparate(c: Tree, i: nat, j: nat, p: Path)
    requires KeysDistinct(c) && i < j < Count(c) && !c.Group?
    ensures Apart(Part(c, i, p), Part(c, j, p))
  {
    var a, b := p + Key(c, i), p + Key(c, j);
    VisitsShift(Child(c, i), a, []);
    VisitsShift(Child(c, j), b, []);
    assert a + [] == a && b + [] == b;
    if c.Items? && Decimal(i) == Decimal(j) { DecimalIsInjective(i, j); }
    assert a[|p|] != b[|p|];
    StartsApart(Part(c, i, p), Visits(Child(c, i), []), a, Part(c, j, p), Visits(Child(c, j), []), b, |p|);
  }

  lemma StartsApart(a: seq<Field>, a': seq<Field>, p: Path, b: seq<Field>, b': seq<Field>, q: Path, at: nat)
    requires Shifted(a, a', p) && Shifted(b, b', q) && at < |p| && at < |q| && p[at] != q[at]
    ensures Apart(a, b)
  {
    forall x, y | x in a && y in b ensures x.path != y.path {
      var i :| 0 <= i < |a| && a[i] == x;
      var j :| 0 <= j < |b| && b[j] == y;
      assert x.path[at] == p[at] && y.path[at] == q[at];
    }
  }

  lemma GroupSeparates(c: Tree, i: nat, j: nat, p: Path)
    requires i < j < Count(c) && c.Group?
    ensures Apart(Part(c, i, p), Part(c, j, p)) <==> Apart(Visits(Child(c, i), []), Visits(Child(c, j), []))
  {
    VisitsShift(Child(c, i), p, []);
    VisitsShift(Child(c, j), p, []);
    assert p + [] == p && p + Key(c, i) == p && p + Key(c, j) == p;
    ShiftKeepsApart(Part(c, i, p), Visits(Child(c, i), []), Part(c, j, p), Visits(Child(c, j), []), p);
  }

  /** Every reference of a config has a path of its own exactly if no group holds two references at the same
      path below it. */
  lemma {:induction false} PathsAreDistinct(c: Tree, p: Path)
    requires KeysDistinct(c)
    ensures DistinctPaths(Visits(c, p)) <==> GroupsSeparate(c)
    decreases c
  {
    hide Apart, DistinctPaths;
    if c.Leaf? {
      OneIsDistinct(Field(p, c.ref));
    } else {
      DistinctFrom(c, 0, p);
      forall i | 0 <= i < Count(c)
        ensures DistinctPaths(Part(c, i, p)) <==> GroupsSeparate(Child(c, i))
      {
        PathsAreDistinct(Child(c, i), p + Key(c, i));
      }
      forall i, j | 0 <= i < j < Count(c)
        ensures Apart(Part(c, i, p), Part(c, j, p)) <==>
                c.Group? ==> Apart(Visits(Child(c, i), []), Visits(Child(c, j), []))
      {
        if c.Group? { GroupSeparates(c, i, j, p); } else { KeysSeparate(c, i, j, p); }
      }
    }
  }

  lemma OneIsDistinct(f: Field)
    ensures DistinctPaths([f])
  {
  }

  /** A single-or-many list with two net references gives both the same path. */
  lemma GroupOfNetsCollides(items: seq<Tree>, i: nat, j: nat)
    requires i < j < |items| && items[i].Leaf? && items[j].Leaf?
    ensures !GroupsSeparate(Group(items))
  {
    var c := Group(items);
    assert Visits(Child(c, i), []) == [Field([], items[i].ref)] && Visits(Child(c, j), []) == [Field([], items[j].ref)];
    var x, y := Field([], items[i].ref), Field([], items[j].ref);
    assert x in Visits(Child(c, i), []) && y in Visits(Child(c, j), []);
  }

  // ----- What that means for generated names.

  ghost predicate HasOwner(es: seq<Entry>, o: Owner) {
    exists k :: 0 <= k < |es| && es[k].0 == o
  }

  lemma HasOwnerAppend(a: seq<Entry>, b: seq<Entry>, o: Owner)
    ensures HasOwner(b, o) ==> HasOwner(a + b, o)
    ensures !DistinctOwners(b) ==> !DistinctOwners(a + b)
    ensures a != [] && HasOwner(b, a[0].0) ==> !DistinctOwners(a + b)
  {
    var s := a + b;
    assert forall k :: 0 <= k < |b| ==> s[|a| + k] == b[k];
    if a != [] { assert s[0] == a[0]; }
  }

  /** The entries of the first field and those of the others. */
  lemma FirstEntries(owner: Owner, fs: seq<Field>) returns (first: seq<Entry>)
    requires fs != []
    ensures FieldEntries(owner, fs) == first + FieldEntries(owner, fs[1..])
    ensures fs[0].ref.Inline? ==> first != [] && first[0].0 == NetOwner(GeneratedName(owner, fs[0].path))
  {
    first := match fs[0].ref
      case Inline(net) => Entries(NetOwner(GeneratedName(owner, fs[0].path)), net)
      case _ => [];
  }

  lemma {:induction false} InlineHasEntry(owner: Owner, fs: seq<Field>, i: nat)
    requires i < |fs| && fs[i].ref.Inline?
    ensures HasOwner(FieldEntries(owner, fs), NetOwner(GeneratedName(owner, fs[i].path)))
  {
    var o := NetOwner(GeneratedName(owner, fs[i].path));
    hide FieldEntries, GeneratedName;
    var first := FirstEntries(owner, fs);
    if i == 0 {
      assert (first + FieldEntries(owner, fs[1..]))[0] == first[0];
    } else {
      InlineHasEntry(owner, fs[1..], i - 1);
      HasOwnerAppend(first, FieldEntries(owner, fs[1..]), o);
    }
  }

  lemma {:induction false} SamePathSameName(owner: Owner, fs: seq<Field>, i: nat, j: nat)
    requires i < j < |fs| && fs[i].ref.Inline? && fs[j].ref.Inline? && fs[i].path == fs[j].path
    ensures !DistinctOwners(FieldEntries(owner, fs))
  {
    hide FieldEntries, GeneratedName, DistinctOwners, HasOwner;
    var first := FirstEntries(owner, fs);
    if i == 0 {
      InlineHasEntry(owner, fs[1..], j - 1);
    } else {
      SamePathSameName(owner, fs[1..], i - 1, j - 1);
    }
    HasOwnerAppend(first, FieldEntries(owner, fs[1..]), NetOwner(GeneratedName(owner, fs[i].path)));
  }

  /** Two nested nets at one path are hoisted to one name, so such a config is not among those for which the
      builder is correct. */
  lemma CollidingPathsAreNotFresh(owner: Owner, cfg: NetCfg, i: nat, j: nat)
    requires i < j < |cfg.fields| && cfg.fields[i].ref.Inline? && cfg.fields[j].ref.Inline?
    requires cfg.fields[i].path == cfg.fields[j].path
    ensures !DistinctOwners(Entries(owner, cfg))
  {
    SamePathSameName(owner, cfg.fields, i, j);
    HasOwnerAppend([(owner, FlatOf(owner, cfg))], FieldEntries(owner, cfg.fields), owner);
  }
}
