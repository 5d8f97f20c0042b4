/** Configs whose generated names collide, and what the builder makes of one. */
module NameCollisions {
  import opened ConfigGraph
  import opened Flattening
  import opened TidyNames
  import opened BuildFunction
  import opened Options
  import opened Entities

  // ----- Finding entries.

  lemma {:induction false} RootEntriesHold(roots: seq<Root>, i: nat, e: Entry)
    requires i < |roots| && e in Entries(roots[i].owner, roots[i].cfg)
    ensures e in RootEntries(roots)
  {
    if i > 0 { RootEntriesHold(roots[1..], i - 1, e); }
  }

  lemma {:induction false} FieldEntriesHold(owner: Owner, fs: seq<Field>, j: nat, e: Entry)
    requires j < |fs| && fs[j].ref.Inline?
    requires e in Entries(NetOwner(GeneratedName(owner, fs[j].path)), fs[j].ref.net)
    ensures e in FieldEntries(owner, fs)
  {
    if j > 0 { FieldEntriesHold(owner, fs[1..], j - 1, e); }
  }

  /** A net written inside a config is there under its generated name. */
  lemma InnerEntry(owner: Owner, cfg: NetCfg, j: nat)
    requires j < |cfg.fields| && cfg.fields[j].ref.Inline?
    ensures var o := NetOwner(GeneratedName(owner, cfg.fields[j].path));
            (o, FlatOf(o, cfg.fields[j].ref.net)) in Entries(owner, cfg)
  {
    var o, net := NetOwner(GeneratedName(owner, cfg.fields[j].path)), cfg.fields[j].ref.net;
    assert Entries(o, net)[0] == (o, FlatOf(o, net));
    FieldEntriesHold(owner, cfg.fields, j, (o, FlatOf(o, net)));
  }

  lemma OwnEntry(owner: Owner, cfg: NetCfg)
    ensures (owner, FlatOf(owner, cfg)) in Entries(owner, cfg)
  {
    assert Entries(owner, cfg)[0] == (owner, FlatOf(owner, cfg));
  }

  /** Two references under which nets are hoisted to one name. */
  lemma OneNameTwice(roots: seq<Root>, o: Owner, f: Flat, i: nat, o': Owner, f': Flat, i': nat, h: string)
    requires (o, f) in RootEntries(roots) && (o', f') in RootEntries(roots) && (o, i) != (o', i')
    requires i < |f.fields| && f.fields[i].target == Hoisted(h)
    requires i' < |f'.fields| && f'.fields[i'].target == Hoisted(h)
    ensures !DistinctOwners(RootEntries(roots))
  {
    var es := RootEntries(roots);
    if DistinctOwners(es) {
      GraphHolds(es);
      hide RootEntries, GraphOf, DistinctOwners;
      assert Site(GraphOf(es), o, i, h) && Site(GraphOf(es), o', i', h);
      SiteIsOnlyOne(roots, o, i, o', i', h);
    }
  }

  lemma JoinOne(a: string)
    ensures Join([a], "/") == a
  {
  }

  // ----- A net named "net".

  function Leaf(typ: string, data: string): NetCfg {
    NetCfg(typ, data, [])
  }

  function Holding(typ: string, data: string, path: Path, net: NetCfg): NetCfg {
    NetCfg(typ, data, [Field(path, Inline(net))])
  }

  lemma HoldingIsTidy(typ: string, data: string, path: Path, net: NetCfg)
    requires AllPlain(path) && TidyFields(net.fields)
    ensures TidyFields(Holding(typ, data, path, net).fields)
  {
  }

  const X := "net/a/x"
  const Y := "net/net/a/x/y"

  lemma NamesMeet()
    ensures GeneratedName(NetOwner("a"), ["x"]) == X
    ensures GeneratedName(NetOwner(X), ["y"]) == Y
    ensures GeneratedName(NetOwner("net"), ["a", "x", "y"]) == Y
  {
    JoinStarts("net", "a", ["x"]);
    JoinStarts("net", X, ["y"]);
    JoinStarts("net", "net", ["a", "x", "y"]);
    JoinStarts("a", "x", ["y"]);
    assert ["a", "x", "y"] == ["a", "x"] + ["y"];
    JoinOne("x");
    JoinOne("y");
    assert "net" + "/" + ("net" + "/" + ("a" + "/" + ("x" + "/" + "y"))) == Y;
  }

  /** Net "a" with a net inside a net, and a net named "net" with one net inside. */
  function A(typ: string, y: NetCfg): NetCfg {
    Holding(typ, "a", ["x"], Holding(typ, "x", ["y"], y))
  }

  function N(typ: string, z: NetCfg): NetCfg {
    Holding(typ, "n", ["a", "x", "y"], z)
  }

  /** No delimiter in any name or path, and one reference to a config: the name "net" alone is enough. */
  lemma NamedNetCollides(typ: string, y: NetCfg, z: NetCfg)
    ensures !DistinctOwners(RootEntries(Roots([Server("a", A(typ, y)), Server("net", N(typ, z))], [])))
    ensures TidyFields(y.fields) ==> TidyFields(A(typ, y).fields)
    ensures TidyFields(z.fields) ==> TidyFields(N(typ, z).fields)
  {
    NamesMeet();
    if TidyFields(y.fields) {
      HoldingIsTidy(typ, "x", ["y"], y);
      HoldingIsTidy(typ, "a", ["x"], Holding(typ, "x", ["y"], y));
    }
    if TidyFields(z.fields) { HoldingIsTidy(typ, "n", ["a", "x", "y"], z); }
    var nets := [Server("a", A(typ, y)), Server("net", N(typ, z))];
    var roots := Roots(nets, []);
    assert roots[0] == Root(NetOwner("a"), A(typ, y)) && roots[1] == Root(NetOwner("net"), N(typ, z));
    InnerEntry(NetOwner("a"), A(typ, y), 0);
    OwnEntry(NetOwner("net"), N(typ, z));
    var f, f' := FlatOf(NetOwner(X), Holding(typ, "x", ["y"], y)), FlatOf(NetOwner("net"), N(typ, z));
    RootEntriesHold(roots, 0, (NetOwner(X), f));
    RootEntriesHold(roots, 1, (NetOwner("net"), f'));
    hide RootEntries, Entries, DistinctOwners, GeneratedName;
    assert X != "net" by { assert |X| != |"net"|; }
    OneNameTwice(roots, NetOwner(X), f, 0, NetOwner("net"), f', 0, Y);
  }

  // ----- The other clauses of a tidy config are needed as well.

  /** A name with a delimiter can be the name of a nested net. */
  lemma DelimiterCollides(typ: string, y: NetCfg, other: NetCfg)
    ensures !DistinctOwners(RootEntries(Roots([Server("a", Holding(typ, "a", ["x"], y)), Server(X, other)], [])))
  {
    NamesMeet();
    var a := Holding(typ, "a", ["x"], y);
    var roots := Roots([Server("a", a), Server(X, other)], []);
    assert roots[0] == Root(NetOwner("a"), a) && roots[1] == Root(NetOwner(X), other);
    OwnEntry(NetOwner("a"), a);
    RootEntriesHold(roots, 0, (NetOwner("a"), FlatOf(NetOwner("a"), a)));
    var es := RootEntries(roots);
    if DistinctOwners(es) {
      GraphHolds(es);
      hide RootEntries, GraphOf, DistinctOwners, GeneratedName;
      assert Site(GraphOf(es), NetOwner("a"), 0, X);
      SiteIsOnlyOne(roots, NetOwner("a"), 0, NetOwner("a"), 0, X);
    }
  }

  lemma NamesInServerMeet()
    ensures GeneratedName(ServerOwner("s"), ["p"]) == "server/s/p"
    ensures GeneratedName(NetOwner("server/s/p"), ["q"]) == "net/server/s/p/q"
    ensures GeneratedName(NetOwner("server"), ["s", "p", "q"]) == "net/server/s/p/q"
  {
    JoinStarts("server", "s", ["p"]);
    JoinStarts("net", "server/s/p", ["q"]);
    JoinStarts("net", "server", ["s", "p", "q"]);
    JoinStarts("s", "p", ["q"]);
    assert ["s", "p", "q"] == ["s", "p"] + ["q"];
    JoinOne("p");
    JoinOne("q");
    hide Join;
    assert "server" + "/" + ("s" + "/" + "p") == "server/s/p";
    assert "net" + "/" + ("server/s/p" + "/" + "q") == "net/server/s/p/q";
    assert "net" + "/" + ("server" + "/" + ("s" + "/" + ("p" + "/" + "q"))) == "net/server/s/p/q";
  }

  lemma NamesBelowMeet()
    ensures GeneratedName(NetOwner("a"), ["x", "y"]) == "net/a/x/y"
    ensures GeneratedName(NetOwner(X), ["y", "k"]) == "net/net/a/x/y/k"
    ensures GeneratedName(NetOwner("net/a/x/y"), ["k"]) == "net/net/a/x/y/k"
  {
    JoinStarts("net", "a", ["x", "y"]);
    JoinStarts("x", "y", []);
    assert ["x", "y"] == ["x", "y"] + [];
    JoinStarts("net", X, ["y", "k"]);
    JoinStarts("y", "k", []);
    assert ["y", "k"] == ["y", "k"] + [];
    JoinStarts("net", "net/a/x/y", ["k"]);
    JoinOne("k");
    hide Join;
    assert "net" + "/" + ("a" + "/" + ("x" + "/" + "y")) == "net/a/x/y";
    assert "net" + "/" + (X + "/" + ("y" + "/" + "k")) == "net/net/a/x/y/k";
    assert "net" + "/" + ("net/a/x/y" + "/" + "k") == "net/net/a/x/y/k";
  }

  /** A net named "server" meets the nets inside a server's. */
  lemma NamedServerCollides(typ: string, y: NetCfg, z: NetCfg)
    ensures !DistinctOwners(RootEntries(Roots([Server("server", Holding(typ, "n", ["s", "p", "q"], z))],
                                              [Server("s", Holding(typ, "s", ["p"], Holding(typ, "p", ["q"], y)))])))
  {
    NamesInServerMeet();
    var inner := Holding(typ, "p", ["q"], y);
    var n, s := Holding(typ, "n", ["s", "p", "q"], z), Holding(typ, "s", ["p"], inner);
    var roots := Roots([Server("server", n)], [Server("s", s)]);
    assert roots[0] == Root(NetOwner("server"), n) && roots[1] == Root(ServerOwner("s"), s);
    OwnEntry(NetOwner("server"), n);
    InnerEntry(ServerOwner("s"), s, 0);
    var o, o' := NetOwner("server"), NetOwner("server/s/p");
    RootEntriesHold(roots, 0, (o, FlatOf(o, n)));
    RootEntriesHold(roots, 1, (o', FlatOf(o', inner)));
    hide RootEntries, Entries, DistinctOwners, GeneratedName;
    assert o.name != o'.name by { assert |o.name| != |o'.name|; }
    OneNameTwice(roots, o, FlatOf(o, n), 0, o', FlatOf(o', inner), 0, "net/server/s/p/q");
  }

  /** A path through another one lets nets two levels below meet. */
  lemma PathThroughPathCollides(typ: string, y: NetCfg, z: NetCfg)
    ensures var a := NetCfg(typ, "a", [Field(["x"], Inline(Holding(typ, "x", ["y", "k"], y))),
                                       Field(["x", "y"], Inline(Holding(typ, "y", ["k"], z)))]);
            !DistinctOwners(RootEntries(Roots([Server("a", a)], [])))
  {
    NamesMeet();
    NamesBelowMeet();
    var first, second := Holding(typ, "x", ["y", "k"], y), Holding(typ, "y", ["k"], z);
    var a := NetCfg(typ, "a", [Field(["x"], Inline(first)), Field(["x", "y"], Inline(second))]);
    var roots := Roots([Server("a", a)], []);
    assert roots[0] == Root(NetOwner("a"), a);
    InnerEntry(NetOwner("a"), a, 0);
    InnerEntry(NetOwner("a"), a, 1);
    var o, o' := NetOwner(X), NetOwner("net/a/x/y");
    RootEntriesHold(roots, 0, (o, FlatOf(o, first)));
    RootEntriesHold(roots, 0, (o', FlatOf(o', second)));
    hide RootEntries, Entries, DistinctOwners, GeneratedName;
    assert o.name != o'.name by { assert |o.name| != |o'.name|; }
    OneNameTwice(roots, o, FlatOf(o, first), 0, o', FlatOf(o', second), 0, "net/net/a/x/y/k");
  }

  /** The delimiter in a path makes one component look like two. */
  lemma PathDelimiterCollides(typ: string, y: NetCfg, z: NetCfg)
    ensures Apart(["x/y"], ["x", "y"])
    ensures var a := NetCfg(typ, "a", [Field(["x/y"], Inline(y)), Field(["x", "y"], Inline(z))]);
            !DistinctOwners(RootEntries(Roots([Server("a", a)], [])))
  {
    NamesBelowMeet();
    JoinStarts("net", "a", ["x/y"]);
    JoinOne("x/y");
    assert "net" + "/" + ("a" + "/" + "x/y") == "net/a/x/y";
    var a := NetCfg(typ, "a", [Field(["x/y"], Inline(y)), Field(["x", "y"], Inline(z))]);
    var roots := Roots([Server("a", a)], []);
    assert roots[0] == Root(NetOwner("a"), a);
    OwnEntry(NetOwner("a"), a);
    var f := FlatOf(NetOwner("a"), a);
    RootEntriesHold(roots, 0, (NetOwner("a"), f));
    hide RootEntries, Entries, DistinctOwners, GeneratedName;
    OneNameTwice(roots, NetOwner("a"), f, 0, NetOwner("a"), f, 1, "net/a/x/y");
  }

  /** The delimiter in a server's name does the same. */
  lemma ServerDelimiterCollides(typ: string, y: NetCfg, z: NetCfg)
    ensures !DistinctOwners(RootEntries(Roots([], [Server("s/p", Holding(typ, "t", ["q"], y)),
                                                   Server("s", Holding(typ, "s", ["p", "q"], z))])))
  {
    var t, s := Holding(typ, "t", ["q"], y), Holding(typ, "s", ["p", "q"], z);
    var roots := Roots([], [Server("s/p", t), Server("s", s)]);
    assert roots[0] == Root(ServerOwner("s/p"), t) && roots[1] == Root(ServerOwner("s"), s);
    ServerNamesMeet();
    var o, o' := ServerOwner("s/p"), ServerOwner("s");
    OwnEntry(o, t);
    OwnEntry(o', s);
    RootEntriesHold(roots, 0, (o, FlatOf(o, t)));
    RootEntriesHold(roots, 1, (o', FlatOf(o', s)));
    hide RootEntries, Entries, DistinctOwners, GeneratedName;
    assert o.name != o'.name by { assert |o.name| != |o'.name|; }
    OneNameTwice(roots, o, FlatOf(o, t), 0, o', FlatOf(o', s), 0, "server/s/p/q");
  }

  lemma ServerNamesMeet()
    ensures GeneratedName(ServerOwner("s/p"), ["q"]) == "server/s/p/q"
    ensures GeneratedName(ServerOwner("s"), ["p", "q"]) == "server/s/p/q"
  {
    JoinStarts("server", "s/p", ["q"]);
    JoinStarts("server", "s", ["p", "q"]);
    JoinStarts("p", "q", []);
    assert ["p", "q"] == ["p", "q"] + [];
    JoinOne("q");
    hide Join;
    assert "server" + "/" + ("s/p" + "/" + "q") == "server/s/p/q";
    assert "server" + "/" + ("s" + "/" + ("p" + "/" + "q")) == "server/s/p/q";
  }

  /** A reference by name to a net that is nested elsewhere. */
  lemma MentionIsNotFresh(typ: string, y: NetCfg)
    ensures var a, b := Holding(typ, "a", ["x"], y), NetCfg(typ, "b", [Field(["r"], Name(X))]);
            !FreshNames([Server("a", a), Server("b", b)], [])
  {
    var a, b := Holding(typ, "a", ["x"], y), NetCfg(typ, "b", [Field(["r"], Name(X))]);
    var nets := [Server("a", a), Server("b", b)];
    var roots := Roots(nets, []);
    var es := RootEntries(roots);
    assert roots[0] == Root(NetOwner("a"), a) && roots[1] == Root(NetOwner("b"), b);
    NamesMeet();
    NamesDiffer();
    InnerEntry(NetOwner("a"), a, 0);
    OwnEntry(NetOwner("b"), b);
    RootEntriesHold(roots, 0, (NetOwner(X), FlatOf(NetOwner(X), y)));
    RootEntriesHold(roots, 1, (NetOwner("b"), FlatOf(NetOwner("b"), b)));
    assert X != "b" by { assert |X| != |"b"|; }
    assert X !in ServerMap(nets);
    if DistinctOwners(es) {
      GraphHolds(es);
      hide RootEntries, GraphOf, DistinctOwners, GeneratedName, Entries;
      assert Mentions(FlatGraph(nets, []), NetOwner("b"), 0, X);
    }
  }

  // ----- What the builder makes of it.

  ghost predicate Good(kinds: Kinds, typ: string) {
    typ in kinds && forall data :: kinds[typ].parses(data) && kinds[typ].builds(data)
  }

  lemma LeafBuilds(kinds: Kinds, d: nat, s: Store, name: string, typ: string, data: string)
    requires Good(kinds, typ) && name in s.config && s.config[name] == Leaf(typ, data) && d > 0
    ensures var net := Net(name, typ, data, []);
            EvalName(kinds, d, s, name) == Some(Got(Ok(net), Name(name), Finished(Started(s, name), name, Leaf(typ, data), net)))
  {
    var t, cfg := Started(s, name), Leaf(typ, data);
    assert EvalFields(kinds, d - 1, t, NetOwner(name), []) == Some(Visited(Ok([]), [], t));
    assert EvalCfg(kinds, kinds, d - 1, t, NetOwner(name), cfg) == Some(Built(Ok([]), cfg, t));
  }

  /** A net with one reference is built from what the reference gets. */
  lemma HoldingBuilds(kinds: Kinds, d: nat, s: Store, name: string, typ: string, data: string, path: Path, net: NetCfg, g: Got)
    requires Good(kinds, typ) && name in s.config && s.config[name] == Holding(typ, data, path, net)
    requires EvalRef(kinds, d, Started(s, name), Inline(net), path, NetOwner(name)) == Some(g) && g.res.Ok?
    ensures var running := Net(name, typ, data, [g.res.value]);
            EvalName(kinds, d + 1, s, name) ==
            Some(Got(Ok(running), Name(name), Finished(g.s, name, NetCfg(typ, data, [Field(path, g.ref)]), running)))
  {
    hide EvalRef;
    var fields := [Field(path, Inline(net))];
    assert fields[1..] == [];
    assert EvalFields(kinds, d, g.s, NetOwner(name), []) == Some(Visited(Ok([]), [], g.s));
    assert EvalFields(kinds, d, Started(s, name), NetOwner(name), fields) ==
           Some(Visited(Ok([g.res.value]), [Field(path, g.ref)], g.s)) by {
      assert [g.res.value] + [] == [g.res.value] && [Field(path, g.ref)] + [] == [Field(path, g.ref)];
    }
    hide EvalFields;
  }

  /** Two references that get one name: the second gets the net that the first one built, whatever it holds. */
  lemma SecondGetsFirst(kinds: Kinds, d: nat, s: Store, net: NetCfg, path: Path, owner: Owner)
    requires GeneratedName(owner, path) in s.cache
    ensures var h := GeneratedName(owner, path);
            EvalRef(kinds, d, s, Inline(net), path, owner) ==
            Some(Got(Ok(s.cache[h]), Name(h), s.(config := s.config[h := net])))
  {
  }

  /** The two nets among any others. */
  function Both(others: map<string, NetCfg>, typ: string, y: string, z: string): Store {
    Store(others["a" := A(typ, Leaf(typ, y))]["net" := N(typ, Leaf(typ, z))], map[])
  }

  lemma InlineIsNamed(kinds: Kinds, d: nat, s: Store, net: NetCfg, path: Path, owner: Owner, h: string)
    requires h == GeneratedName(owner, path) && h !in s.cache
    ensures EvalRef(kinds, d, s, Inline(net), path, owner) == EvalName(kinds, d, s.(config := s.config[h := net]), h)
  {
  }

  /** Building "a" builds the nets inside it under their generated names. */
  lemma FirstBuilds(kinds: Kinds, others: map<string, NetCfg>, typ: string, y: string, z: string)
    requires Good(kinds, typ)
    ensures exists s :: EvalName(kinds, 3, Both(others, typ, y, z), "a") ==
                        Some(Got(Ok(Net("a", typ, "a", [Net(X, typ, "x", [Net(Y, typ, y, [])])])), Name("a"), s))
                        && "net" !in s.cache && "net" in s.config && s.config["net"] == N(typ, Leaf(typ, z))
                        && Y in s.cache && s.cache[Y] == Net(Y, typ, y, [])
                        && X in s.cache && s.cache[X] == Net(X, typ, "x", [Net(Y, typ, y, [])])
  {
    NamesMeet();
    NamesDiffer();
    hide EvalRef, EvalName, GeneratedName;
    var leaf := Leaf(typ, y);
    var inner := Holding(typ, "x", ["y"], leaf);
    var s0 := Started(Both(others, typ, y, z), "a");
    var s1 := s0.(config := s0.config[X := inner]);
    var s2 := Started(s1, X);
    var s3 := s2.(config := s2.config[Y := leaf]);
    LeafBuilds(kinds, 1, s3, Y, typ, y);
    InlineIsNamed(kinds, 1, s2, leaf, ["y"], NetOwner(X), Y);
    var g3 := EvalRef(kinds, 1, s2, Inline(leaf), ["y"], NetOwner(X)).value;
    HoldingBuilds(kinds, 1, s1, X, typ, "x", ["y"], leaf, g3);
    InlineIsNamed(kinds, 2, s0, inner, ["x"], NetOwner("a"), X);
    var g2 := EvalRef(kinds, 2, s0, Inline(inner), ["x"], NetOwner("a")).value;
    HoldingBuilds(kinds, 2, Both(others, typ, y, z), "a", typ, "a", ["x"], inner, g2);
    var g1 := EvalName(kinds, 3, Both(others, typ, y, z), "a").value;
    assert g1.s.config["net"] == N(typ, Leaf(typ, z)) && "net" !in g1.s.cache;
    assert g1.s.cache[Y] == Net(Y, typ, y, []);
    assert g1.s.cache[X] == Net(X, typ, "x", [Net(Y, typ, y, [])]);
  }

  lemma NamesDiffer()
    ensures X != Y && X != "a" && X != "net" && Y != "a" && Y != "net" && "a" != "net"
  {
    assert |X| == 7 && |Y| == 13;
  }

  /** Building "net" after "a" succeeds, and the net inside it is the one that was written in "a". */
  lemma CollisionGoesUnseen(kinds: Kinds, others: map<string, NetCfg>, typ: string, y: string, z: string)
    requires Good(kinds, typ)
    ensures EvalName(kinds, 3, Both(others, typ, y, z), "a").Some?
    ensures var s := EvalName(kinds, 3, Both(others, typ, y, z), "a").value.s;
            && "net" in s.config && "net" !in s.cache
            && EvalName(kinds, 3, s, "net").Some?
            && EvalName(kinds, 3, s, "net").value.res == Ok(Net("net", typ, "n", [Net(Y, typ, y, [])]))
  {
    FirstBuilds(kinds, others, typ, y, z);
    NamesMeet();
    NamesDiffer();
    hide EvalRef, EvalName, GeneratedName;
    var s := EvalName(kinds, 3, Both(others, typ, y, z), "a").value.s;
    var path: Path := ["a", "x", "y"];
    SecondGetsFirst(kinds, 2, Started(s, "net"), Leaf(typ, z), path, NetOwner("net"));
    HoldingBuilds(kinds, 2, s, "net", typ, "n", path, Leaf(typ, z),
                  EvalRef(kinds, 2, Started(s, "net"), Inline(Leaf(typ, z)), path, NetOwner("net")).value);
  }

  /** The same reference to a nested net by its generated name is an error before the net around it is built,
      and is served afterwards. */
  lemma MentionDependsOnOrder(kinds: Kinds, others: map<string, NetCfg>, typ: string, y: string, z: string, path: Path, owner: Owner)
    requires Good(kinds, typ) && X !in others
    ensures EvalRef(kinds, 3, Both(others, typ, y, z), Name(X), path, owner) ==
            Some(Got(Fail(NotFound(X)), Name(X), Both(others, typ, y, z)))
    ensures EvalName(kinds, 3, Both(others, typ, y, z), "a").Some?
    ensures var s := EvalName(kinds, 3, Both(others, typ, y, z), "a").value.s;
            EvalRef(kinds, 3, s, Name(X), path, owner) == Some(Got(Ok(Net(X, typ, "x", [Net(Y, typ, y, [])])), Name(X), s))
  {
    NamesDiffer();
    FirstBuilds(kinds, others, typ, y, z);
    RefOfName(kinds, 3, Both(others, typ, y, z), Name(X), path, owner);
    RefOfName(kinds, 3, EvalName(kinds, 3, Both(others, typ, y, z), "a").value.s, Name(X), path, owner);
    hide EvalRef, EvalName;
  }

  /** A server that refers to both. */
  function Referring(typ: string): NetCfg {
    NetCfg(typ, "s", [Field(["first"], Name("a")), Field(["second"], Name("net"))])
  }

  lemma NameIsBuilt(kinds: Kinds, d: nat, s: Store, name: string, path: Path, owner: Owner)
    requires name in s.config && name !in s.cache
    ensures EvalRef(kinds, d, s, Name(name), path, owner) == EvalName(kinds, d, s, name)
  {
  }

  lemma ReferringIsBuilt(kinds: Kinds, serverKinds: Kinds, serverTyp: string, s: Store, g1: Got, g2: Got)
    requires Good(serverKinds, serverTyp)
    requires EvalRef(kinds, 3, s, Name("a"), ["first"], ServerOwner("s")) == Some(g1) && g1.res.Ok?
    requires EvalRef(kinds, 3, g1.s, Name("net"), ["second"], ServerOwner("s")) == Some(g2) && g2.res.Ok?
    ensures exists cfg :: EvalCfg(kinds, serverKinds, 6, s, ServerOwner("s"), Referring(serverTyp)) ==
                          Some(Built(Ok([g1.res.value, g2.res.value]), cfg, g2.s))
  {
    hide EvalRef, EvalFields, Reaches;
    var owner, fields := ServerOwner("s"), Referring(serverTyp).fields;
    ReachesFirst(kinds, s, owner, fields);
    ReachesNext(kinds, 0, 3, s, owner, fields, 0, [], [], s, g1);
    var done := [] + [Field(["first"], g1.ref)];
    ReachesNext(kinds, 3, 3, s, owner, fields, 1, [] + [g1.res.value], done, g1.s, g2);
    var running, rewritten := [] + [g1.res.value] + [g2.res.value], done + [Field(["second"], g2.ref)];
    ReachesEnd(kinds, 6, s, owner, fields, running, rewritten, g2.s);
    assert running == [g1.res.value, g2.res.value];
  }

  lemma OnlyServer(kinds: Kinds, serverKinds: Kinds, d: nat, s: Store, server: Server, nets: seq<Net>, cfg: NetCfg, s': Store)
    requires EvalCfg(kinds, serverKinds, d, s, ServerOwner(server.name), server.cfg) == Some(Built(Ok(nets), cfg, s'))
    ensures EvalServers(kinds, serverKinds, d, s, [server], []) ==
            Some((Ok(Entities(s'.cache, [BuiltServer(server.name, cfg, nets)])), s'.config))
  {
    hide EvalCfg;
    var built := BuiltServer(server.name, cfg, nets);
    assert EvalServer(kinds, serverKinds, d, s, server) == Some((Ok(built), s'));
    assert [server][1..] == [] && [] + [built] == [built];
    assert EvalServers(kinds, serverKinds, d, s', [], [built]) == Some((Ok(Entities(s'.cache, [built])), s'.config));
  }

  /** So the whole config is built without an error, and the server gets a net "net" that holds what was
      written in "a". */
  lemma CollidingConfigIsBuilt(kinds: Kinds, serverKinds: Kinds, typ: string, serverTyp: string, y: string, z: string, localOpt: string)
    requires Good(kinds, typ) && Good(serverKinds, serverTyp)
    ensures var nets := map["a" := A(typ, Leaf(typ, y)), "net" := N(typ, Leaf(typ, z))];
            var r := EvalServers(kinds, serverKinds, 6, Store(WithDefaults(nets, localOpt), map[]), [Server("s", Referring(serverTyp))], []);
            && r.Some? && r.value.0.Ok? && |r.value.0.value.servers| == 1
            && |r.value.0.value.servers[0].nets| == 2
            && r.value.0.value.servers[0].nets[1] == Net("net", typ, "n", [Net(Y, typ, y, [])])
  {
    var nets := map["a" := A(typ, Leaf(typ, y)), "net" := N(typ, Leaf(typ, z))];
    var all := WithDefaults(nets, localOpt);
    var s := Store(all, map[]);
    AmongOthers(nets, all, typ, y, z);
    hide EvalRef, EvalName, EvalCfg, EvalServers, WithDefaults, Both, A, N, Referring, Good;
    CollisionGoesUnseen(kinds, all, typ, y, z);
    FirstBuilds(kinds, all, typ, y, z);
    var g1 := EvalName(kinds, 3, s, "a").value;
    var g2 := EvalName(kinds, 3, g1.s, "net").value;
    NameIsBuilt(kinds, 3, s, "a", ["first"], ServerOwner("s"));
    NameIsBuilt(kinds, 3, g1.s, "net", ["second"], ServerOwner("s"));
    ReferringIsBuilt(kinds, serverKinds, serverTyp, s, g1, g2);
    var cfg :| EvalCfg(kinds, serverKinds, 6, s, ServerOwner("s"), Referring(serverTyp)) ==
               Some(Built(Ok([g1.res.value, g2.res.value]), cfg, g2.s));
    OnlyServer(kinds, serverKinds, 6, s, Server("s", Referring(serverTyp)), [g1.res.value, g2.res.value], cfg, g2.s);
  }

  lemma AmongOthers(nets: map<string, NetCfg>, all: map<string, NetCfg>, typ: string, y: string, z: string)
    requires nets == map["a" := A(typ, Leaf(typ, y)), "net" := N(typ, Leaf(typ, z))]
    requires forall n :: n in nets ==> n in all && all[n] == nets[n]
    ensures Store(all, map[]) == Both(all, typ, y, z) && "a" in all
  {
    assert "a" in nets && "net" in nets;
    assert all == all["a" := A(typ, Leaf(typ, y))]["net" := N(typ, Leaf(typ, z))];
  }
}
