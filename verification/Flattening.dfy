/** Every config with fresh generated names has a flat graph: it is computed here. */
module Flattening {
  import opened ConfigGraph

  /** The nets every config has: each is added unless the user configured one of that name. */
  function WithDefaults(nets: map<string, NetCfg>, localOpt: string): (r: map<string, NetCfg>)
    ensures r.Keys == nets.Keys + {"noop", "blackhole", "local"}
    ensures forall n :: n in nets ==> r[n] == nets[n]
    ensures forall n :: n in r && n !in nets ==> r[n].typ == n && r[n].fields == []
    ensures "noop" !in nets ==> r["noop"].data == "null"
    ensures "blackhole" !in nets ==> r["blackhole"].data == "null"
    ensures "local" !in nets ==> r["local"].data == localOpt
  {
    map["noop" := NetCfg("noop", "null", []),
        "blackhole" := NetCfg("blackhole", "null", []),
        "local" := NetCfg("local", localOpt, [])] + nets
  }

  datatype Server = Server(name: string, cfg: NetCfg)

  ghost predicate DistinctNames(servers: seq<Server>) {
    forall i, j :: 0 <= i < j < |servers| ==> servers[i].name != servers[j].name
  }

  ghost function ServerMap(servers: seq<Server>): map<string, NetCfg>
    requires DistinctNames(servers)
  {
    map i | 0 <= i < |servers| :: servers[i].name := servers[i].cfg
  }

  function FlatOf(owner: Owner, cfg: NetCfg): Flat {
    Flat(cfg.typ, cfg.data, FlatFieldsOf(owner, cfg.fields))
  }

  function FlatFieldsOf(owner: Owner, fields: seq<Field>): seq<FlatField> {
    seq(|fields|, i requires 0 <= i < |fields| => FlatFieldOf(owner, fields[i]))
  }

  function FlatFieldOf(owner: Owner, field: Field): FlatField {
    FlatField(field.path,
              match field.ref
              case Name(n) => Named(n)
              case Inline(_) => Hoisted(GeneratedName(owner, field.path))
              case Garbage => Broken)
  }

  type Entry = (Owner, Flat)

  /** The config of `owner` followed by those of all nets inside it. */
  function Entries(owner: Owner, cfg: NetCfg): seq<Entry>
    decreases cfg
  {
    [(owner, FlatOf(owner, cfg))] + FieldEntries(owner, cfg.fields)
  }

  function FieldEntries(owner: Owner, fs: seq<Field>): seq<Entry>
    decreases fs
  {
    if fs == [] then []
    else (match fs[0].ref
          case Inline(net) => Entries(NetOwner(GeneratedName(owner, fs[0].path)), net)
          case _ => []) + FieldEntries(owner, fs[1..])
  }

  datatype Root = Root(owner: Owner, cfg: NetCfg)

  function RootEntries(roots: seq<Root>): seq<Entry> {
    if roots == [] then [] else Entries(roots[0].owner, roots[0].cfg) + RootEntries(roots[1..])
  }

  function GraphOf(es: seq<Entry>): Graph {
    if es == [] then map[] else GraphOf(es[1..])[es[0].0 := es[0].1]
  }

  function Roots(nets: seq<Server>, servers: seq<Server>): seq<Root> {
    seq(|nets|, i requires 0 <= i < |nets| => Root(NetOwner(nets[i].name), nets[i].cfg)) +
    seq(|servers|, i requires 0 <= i < |servers| => Root(ServerOwner(servers[i].name), servers[i].cfg))
  }

  /** No two configs, hoisted ones included, get the same name. */
  predicate DistinctOwners(es: seq<Entry>) {
    forall i, j :: 0 <= i < j < |es| ==> es[i].0 != es[j].0
  }

  ghost predicate Holds(g: Graph, es: seq<Entry>) {
    forall e :: e in es ==> e.0 in g && g[e.0] == e.1
  }

  lemma {:induction false} GraphHolds(es: seq<Entry>)
    requires DistinctOwners(es)
    ensures Holds(GraphOf(es), es)
    ensures forall o :: o in GraphOf(es) ==> exists e :: e in es && e.0 == o
  {
    if es != [] {
      GraphHolds(es[1..]);
      var g := GraphOf(es);
      forall e | e in es ensures e.0 in g && g[e.0] == e.1 {
        if e != es[0] { assert e in es[1..]; }
      }
      forall o | o in g ensures exists e :: e in es && e.0 == o {
        if o == es[0].0 {
          assert es[0] in es;
        } else {
          var e :| e in es[1..] && e.0 == o;
          assert e in es;
        }
      }
    }
  }

  lemma {:induction false} EntriesUnfold(g: Graph, owner: Owner, cfg: NetCfg)
    requires Holds(g, Entries(owner, cfg))
    ensures Unfolds(g, owner, cfg)
    decreases cfg
  {
    assert (owner, FlatOf(owner, cfg)) in Entries(owner, cfg);
    FieldEntriesUnfold(g, owner, cfg.fields);
  }

  lemma {:induction false} FieldEntriesUnfold(g: Graph, owner: Owner, fs: seq<Field>)
    requires Holds(g, FieldEntries(owner, fs))
    ensures forall i :: 0 <= i < |fs| ==> FieldUnfolds(g, owner, fs[i], FlatFieldOf(owner, fs[i]))
    decreases fs
  {
    if fs != [] {
      if fs[0].ref.Inline? {
        EntriesUnfold(g, NetOwner(GeneratedName(owner, fs[0].path)), fs[0].ref.net);
      }
      FieldEntriesUnfold(g, owner, fs[1..]);
      forall i | 0 <= i < |fs| ensures FieldUnfolds(g, owner, fs[i], FlatFieldOf(owner, fs[i])) {
        if i > 0 { assert fs[i] == fs[1..][i - 1]; }
      }
    }
  }

  ghost predicate HasSite(g: Graph, o: Owner) {
    o.NetOwner? && exists o', i :: Site(g, o', i, o.name)
  }

  lemma {:induction false} InnerEntriesHaveSites(g: Graph, owner: Owner, cfg: NetCfg, e: Entry)
    requires Holds(g, Entries(owner, cfg)) && e in Entries(owner, cfg)
    ensures e.0 == owner || HasSite(g, e.0)
    decreases cfg, 1
  {
    assert (owner, FlatOf(owner, cfg)) in Entries(owner, cfg);
    if e in FieldEntries(owner, cfg.fields) {
      FieldEntriesHaveSites(g, owner, cfg, 0, e);
    }
  }

  lemma {:induction false} FieldEntriesHaveSites(g: Graph, owner: Owner, cfg: NetCfg, i: nat, e: Entry)
    requires i <= |cfg.fields|
    requires owner in g && g[owner] == FlatOf(owner, cfg)
    requires Holds(g, FieldEntries(owner, cfg.fields[i..])) && e in FieldEntries(owner, cfg.fields[i..])
    ensures HasSite(g, e.0)
    decreases cfg, 0, |cfg.fields| - i
  {
    var fs := cfg.fields[i..];
    assert fs != [];
    assert fs[1..] == cfg.fields[i + 1..] && fs[0] == cfg.fields[i];
    if e in FieldEntries(owner, fs[1..]) {
      FieldEntriesHaveSites(g, owner, cfg, i + 1, e);
    } else {
      var h := GeneratedName(owner, fs[0].path);
      assert Site(g, owner, i, h);
      InnerEntriesHaveSites(g, NetOwner(h), fs[0].ref.net, e);
    }
  }

  lemma {:induction false} RootsUnfold(g: Graph, roots: seq<Root>)
    requires Holds(g, RootEntries(roots))
    ensures forall i :: 0 <= i < |roots| ==> Unfolds(g, roots[i].owner, roots[i].cfg)
    ensures forall e :: e in RootEntries(roots) ==> HasSite(g, e.0) || exists i :: 0 <= i < |roots| && roots[i].owner == e.0
  {
    if roots != [] {
      EntriesUnfold(g, roots[0].owner, roots[0].cfg);
      RootsUnfold(g, roots[1..]);
      forall i | 0 <= i < |roots| ensures Unfolds(g, roots[i].owner, roots[i].cfg) {
        if i > 0 { assert roots[i] == roots[1..][i - 1]; }
      }
      forall e | e in RootEntries(roots)
        ensures HasSite(g, e.0) || exists i :: 0 <= i < |roots| && roots[i].owner == e.0
      {
        if e in Entries(roots[0].owner, roots[0].cfg) {
          InnerEntriesHaveSites(g, roots[0].owner, roots[0].cfg, e);
        } else if !HasSite(g, e.0) {
          var i :| 0 <= i < |roots[1..]| && roots[1..][i].owner == e.0;
          assert roots[i + 1].owner == e.0;
        }
      }
    }
  }

  lemma NetsUnfold(g: Graph, nets: seq<Server>, servers: seq<Server>)
    requires DistinctNames(nets) && Holds(g, RootEntries(Roots(nets, servers)))
    ensures forall n :: n in ServerMap(nets) ==> Unfolds(g, NetOwner(n), ServerMap(nets)[n])
  {
    hide Unfolds, Holds, RootEntries;
    var roots := Roots(nets, servers);
    RootsUnfold(g, roots);
    forall n | n in ServerMap(nets) ensures Unfolds(g, NetOwner(n), ServerMap(nets)[n]) {
      var i :| 0 <= i < |nets| && nets[i].name == n;
      assert roots[i] == Root(NetOwner(n), nets[i].cfg);
    }
  }

  lemma ServersUnfold(g: Graph, nets: seq<Server>, servers: seq<Server>)
    requires DistinctNames(servers) && Holds(g, RootEntries(Roots(nets, servers)))
    ensures forall n :: n in ServerMap(servers) ==> Unfolds(g, ServerOwner(n), ServerMap(servers)[n])
  {
    hide Unfolds, Holds, RootEntries;
    var roots := Roots(nets, servers);
    RootsUnfold(g, roots);
    forall n | n in ServerMap(servers) ensures Unfolds(g, ServerOwner(n), ServerMap(servers)[n]) {
      var i :| 0 <= i < |servers| && servers[i].name == n;
      assert roots[|nets| + i] == Root(ServerOwner(n), servers[i].cfg);
    }
  }

  lemma OthersHaveSites(nets: seq<Server>, servers: seq<Server>, n: string)
    requires DistinctNames(nets) && DistinctOwners(RootEntries(Roots(nets, servers)))
    requires NetOwner(n) in GraphOf(RootEntries(Roots(nets, servers))) && n !in ServerMap(nets)
    ensures HasSite(GraphOf(RootEntries(Roots(nets, servers))), NetOwner(n))
  {
    hide Unfolds, Holds, RootEntries, GraphOf, HasSite;
    var roots := Roots(nets, servers);
    var es := RootEntries(roots);
    GraphHolds(es);
    RootsUnfold(GraphOf(es), roots);
    var e :| e in es && e.0 == NetOwner(n);
    forall i | 0 <= i < |roots| ensures roots[i].owner != e.0 {
      assert i < |nets| ==> roots[i].owner.name in ServerMap(nets);
    }
  }

  // ----- Every hoisted net is one entry, and has one reference.

  function OwnersOf(es: seq<Entry>): multiset<Owner> {
    if es == [] then multiset{} else multiset{es[0].0} + OwnersOf(es[1..])
  }

  function SiteOwners(fields: seq<FlatField>): multiset<Owner> {
    if fields == [] then multiset{}
    else (if fields[0].target.Hoisted? then multiset{NetOwner(fields[0].target.name)} else multiset{}) + SiteOwners(fields[1..])
  }

  function AllSiteOwners(es: seq<Entry>): multiset<Owner> {
    if es == [] then multiset{} else SiteOwners(es[0].1.fields) + AllSiteOwners(es[1..])
  }

  function RootOwners(roots: seq<Root>): multiset<Owner> {
    if roots == [] then multiset{} else multiset{roots[0].owner} + RootOwners(roots[1..])
  }

  lemma SumsOfThree<T>(a: multiset<T>, b: multiset<T>, c: multiset<T>)
    ensures a + (b + c) == a + b + c
  {
  }

  lemma OwnersOfFirst(e: Entry, rest: seq<Entry>)
    ensures OwnersOf([e] + rest) == multiset{e.0} + OwnersOf(rest)
    ensures AllSiteOwners([e] + rest) == SiteOwners(e.1.fields) + AllSiteOwners(rest)
  {
    assert ([e] + rest)[1..] == rest;
  }

  lemma {:induction false} OwnersAppend(a: seq<Entry>, b: seq<Entry>)
    ensures OwnersOf(a + b) == OwnersOf(a) + OwnersOf(b)
    ensures AllSiteOwners(a + b) == AllSiteOwners(a) + AllSiteOwners(b)
  {
    hide OwnersOf, AllSiteOwners, SiteOwners;
    if a == [] {
      NoEntries();
      assert a + b == b;
    } else {
      var e, rest := a[0], a[1..];
      OwnersAppend(rest, b);
      calc {
        OwnersOf(a + b);
        { assert [e] + (rest + b) == a + b; OwnersOfFirst(e, rest + b); }
        multiset{e.0} + (OwnersOf(rest) + OwnersOf(b));
        { SumsOfThree(multiset{e.0}, OwnersOf(rest), OwnersOf(b)); }
        multiset{e.0} + OwnersOf(rest) + OwnersOf(b);
        { assert [e] + rest == a; OwnersOfFirst(e, rest); }
        OwnersOf(a) + OwnersOf(b);
      }
      calc {
        AllSiteOwners(a + b);
        { assert [e] + (rest + b) == a + b; OwnersOfFirst(e, rest + b); }
        SiteOwners(e.1.fields) + (AllSiteOwners(rest) + AllSiteOwners(b));
        { SumsOfThree(SiteOwners(e.1.fields), AllSiteOwners(rest), AllSiteOwners(b)); }
        SiteOwners(e.1.fields) + AllSiteOwners(rest) + AllSiteOwners(b);
        { assert [e] + rest == a; OwnersOfFirst(e, rest); }
        AllSiteOwners(a) + AllSiteOwners(b);
      }
    }
  }

  lemma NoEntries()
    ensures OwnersOf([]) == multiset{} && AllSiteOwners([]) == multiset{}
  {
  }

  lemma {:induction false} OwnersAreSites(owner: Owner, cfg: NetCfg)
    ensures OwnersOf(Entries(owner, cfg)) == multiset{owner} + AllSiteOwners(Entries(owner, cfg))
    decreases cfg
  {
    var first := (owner, FlatOf(owner, cfg));
    FieldOwnersAreSites(owner, cfg.fields);
    OwnersAppend([first], FieldEntries(owner, cfg.fields));
    OneEntry(first);
  }

  lemma OneEntry(e: Entry)
    ensures OwnersOf([e]) == multiset{e.0} && AllSiteOwners([e]) == SiteOwners(e.1.fields)
  {
    assert OwnersOf([]) == multiset{} && AllSiteOwners([]) == multiset{};
  }

  lemma {:induction false} FieldOwnersAreSites(owner: Owner, fs: seq<Field>)
    ensures OwnersOf(FieldEntries(owner, fs)) ==
            SiteOwners(FlatFieldsOf(owner, fs)) + AllSiteOwners(FieldEntries(owner, fs))
    decreases fs
  {
    if fs != [] {
      var flats := FlatFieldsOf(owner, fs);
      assert flats[0] == FlatFieldOf(owner, fs[0]) && flats[1..] == FlatFieldsOf(owner, fs[1..]);
      FieldOwnersAreSites(owner, fs[1..]);
      match fs[0].ref {
        case Inline(net) =>
          var h := NetOwner(GeneratedName(owner, fs[0].path));
          OwnersAreSites(h, net);
          OwnersAppend(Entries(h, net), FieldEntries(owner, fs[1..]));
        case _ =>
          assert FieldEntries(owner, fs) == FieldEntries(owner, fs[1..]);
      }
    }
  }

  lemma {:induction false} RootOwnersAreSites(roots: seq<Root>)
    ensures OwnersOf(RootEntries(roots)) == RootOwners(roots) + AllSiteOwners(RootEntries(roots))
  {
    if roots != [] {
      RootOwnersAreSites(roots[1..]);
      OwnersAreSites(roots[0].owner, roots[0].cfg);
      OwnersAppend(Entries(roots[0].owner, roots[0].cfg), RootEntries(roots[1..]));
    }
  }

  lemma {:induction false} DistinctAreSingle(es: seq<Entry>, o: Owner)
    requires DistinctOwners(es)
    ensures OwnersOf(es)[o] <= 1
    ensures OwnersOf(es)[o] == 0 <==> forall e :: e in es ==> e.0 != o
  {
    if es != [] {
      DistinctAreSingle(es[1..], o);
      assert forall e :: e in es <==> e == es[0] || e in es[1..];
    }
  }

  lemma {:induction false} RootIsCounted(roots: seq<Root>, i: nat)
    requires i < |roots|
    ensures RootOwners(roots)[roots[i].owner] >= 1
  {
    if i > 0 { RootIsCounted(roots[1..], i - 1); }
  }

  lemma {:induction false} SiteIsCounted(fields: seq<FlatField>, i: nat, j: nat, h: string)
    requires i <= j < |fields| && fields[i].target == fields[j].target == Hoisted(h)
    ensures SiteOwners(fields)[NetOwner(h)] >= if i < j then 2 else 1
  {
    if i > 0 {
      SiteIsCounted(fields[1..], i - 1, j - 1, h);
    } else if j > 0 {
      SiteIsCounted(fields[1..], j - 1, j - 1, h);
    }
  }

  lemma {:induction false} EntrySiteIsCounted(es: seq<Entry>, k: nat, i: nat, h: string)
    requires k < |es| && i < |es[k].1.fields| && es[k].1.fields[i].target == Hoisted(h)
    ensures AllSiteOwners(es)[NetOwner(h)] >= 1
  {
    if k > 0 { EntrySiteIsCounted(es[1..], k - 1, i, h); } else { SiteIsCounted(es[0].1.fields, i, i, h); }
  }

  lemma {:induction false} TwoEntrySitesAreCounted(es: seq<Entry>, k: nat, i: nat, k': nat, i': nat, h: string)
    requires k < k' < |es| && i < |es[k].1.fields| && i' < |es[k'].1.fields|
    requires es[k].1.fields[i].target == es[k'].1.fields[i'].target == Hoisted(h)
    ensures AllSiteOwners(es)[NetOwner(h)] >= 2
  {
    if k > 0 {
      TwoEntrySitesAreCounted(es[1..], k - 1, i, k' - 1, i', h);
    } else {
      SiteIsCounted(es[0].1.fields, i, i, h);
      EntrySiteIsCounted(es[1..], k' - 1, i', h);
    }
  }

  lemma EntryOf(es: seq<Entry>, o: Owner) returns (k: nat)
    requires DistinctOwners(es) && o in GraphOf(es)
    ensures k < |es| && es[k] == (o, GraphOf(es)[o])
  {
    GraphHolds(es);
    var e :| e in es && e.0 == o;
    k :| k < |es| && es[k] == e;
  }

  /** If all owners are different, a hoisted net has one reference only, and its name is no user's. */
  lemma SiteIsOnlyOne(roots: seq<Root>, o: Owner, i: int, o': Owner, i': int, h: string)
    requires DistinctOwners(RootEntries(roots))
    requires Site(GraphOf(RootEntries(roots)), o, i, h) && Site(GraphOf(RootEntries(roots)), o', i', h)
    ensures o == o' && i == i'
    ensures NetOwner(h) in GraphOf(RootEntries(roots))
    ensures forall r :: r in roots ==> r.owner != NetOwner(h)
  {
    hide RootEntries, GraphOf, DistinctOwners;
    var es := RootEntries(roots);
    RootOwnersAreSites(roots);
    DistinctAreSingle(es, NetOwner(h));
    var k := EntryOf(es, o);
    var k' := EntryOf(es, o');
    EntrySiteIsCounted(es, k, i, h);
    if k < k' { TwoEntrySitesAreCounted(es, k, i, k', i', h); }
    if k' < k { TwoEntrySitesAreCounted(es, k', i', k, i, h); }
    if k == k' && i != i' { SameEntryTwice(es, k, i, i', h); }
    var e :| e in es && e.0 == NetOwner(h);
    GraphHolds(es);
    forall r | r in roots ensures r.owner != NetOwner(h) {
      var j :| 0 <= j < |roots| && roots[j] == r;
      RootIsCounted(roots, j);
    }
  }

  lemma {:induction false} SameEntryTwice(es: seq<Entry>, k: nat, i: nat, i': nat, h: string)
    requires k < |es| && i < |es[k].1.fields| && i' < |es[k].1.fields| && i != i'
    requires es[k].1.fields[i].target == es[k].1.fields[i'].target == Hoisted(h)
    ensures AllSiteOwners(es)[NetOwner(h)] >= 2
  {
    if k > 0 {
      SameEntryTwice(es[1..], k - 1, i, i', h);
    } else {
      SiteIsCounted(es[0].1.fields, if i < i' then i else i', if i < i' then i' else i, h);
    }
  }

  // ----- Configs whose names do not collide.

  ghost function FlatGraph(nets: seq<Server>, servers: seq<Server>): Graph {
    GraphOf(RootEntries(Roots(nets, servers)))
  }

  /** No two nets, hoisted ones included, get the same name, and no reference written as a name means a
      hoisted one. */
  ghost predicate FreshNames(nets: seq<Server>, servers: seq<Server>)
    requires DistinctNames(nets)
  {
    && DistinctOwners(RootEntries(Roots(nets, servers)))
    && forall o, i, n :: Mentions(FlatGraph(nets, servers), o, i, n) && NetOwner(n) in FlatGraph(nets, servers) ==>
         n in ServerMap(nets)
  }

  lemma NetsAreRoots(nets: seq<Server>, servers: seq<Server>, n: string)
    requires DistinctNames(nets)
    ensures n in ServerMap(nets) ==> exists r :: r in Roots(nets, servers) && r.owner == NetOwner(n)
  {
    if n in ServerMap(nets) {
      var j :| 0 <= j < |nets| && nets[j].name == n;
      assert Roots(nets, servers)[j] == Root(NetOwner(n), nets[j].cfg);
    }
  }

  lemma NamesAreFresh(nets: seq<Server>, servers: seq<Server>)
    requires DistinctNames(nets) && FreshNames(nets, servers)
    ensures Fresh(FlatGraph(nets, servers), ServerMap(nets))
  {
    hide RootEntries, GraphOf, DistinctOwners;
    var g, roots := FlatGraph(nets, servers), Roots(nets, servers);
    forall o, i, h | Site(g, o, i, h)
      ensures h !in ServerMap(nets) && NetOwner(h) in g
    {
      SiteIsOnlyOne(roots, o, i, o, i, h);
      NetsAreRoots(nets, servers, h);
    }
    forall o, i, o', i', h | Site(g, o, i, h) && Site(g, o', i', h)
      ensures o == o' && i == i'
    {
      SiteIsOnlyOne(roots, o, i, o', i', h);
    }
  }

  /** Such a config has the flat graph that the builder's results speak of. */
  lemma FlattenIsWorld(nets: seq<Server>, servers: seq<Server>)
    requires DistinctNames(nets) && DistinctNames(servers) && FreshNames(nets, servers)
    ensures World(ServerMap(nets), ServerMap(servers), FlatGraph(nets, servers)).Valid()
  {
    NamesAreFresh(nets, servers);
    hide Unfolds, Holds, RootEntries, GraphOf, DistinctOwners, Fresh;
    var es := RootEntries(Roots(nets, servers));
    var g := GraphOf(es);
    GraphHolds(es);
    NetsUnfold(g, nets, servers);
    ServersUnfold(g, nets, servers);
    forall n | NetOwner(n) in g && n !in ServerMap(nets) ensures exists o, i :: Site(g, o, i, n) {
      OthersHaveSites(nets, servers, n);
    }
  }
}
