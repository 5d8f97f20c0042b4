/** The termination measure of the builder, and one lemma for each step its methods take. */
module BuildSteps {
  import opened Options
  import opened ConfigGraph
  import opened ConfigGraphLemmas

  // ----- The termination measure: the weight of what is not built yet.

  function RefSize(r: Ref): nat
    decreases r
  {
    match r
    case Inline(net) => 1 + FieldsSize(net.fields)
    case _ => 0
  }

  function FieldsSize(fs: seq<Field>): nat
    decreases fs
  {
    if fs == [] then 0 else RefSize(fs[0].ref) + FieldsSize(fs[1..])
  }

  function CfgWeight(c: NetCfg): nat {
    if c == PLACEHOLDER then 0 else 1 + FieldsSize(c.fields)
  }

  ghost function Total(m: map<string, NetCfg>): nat {
    if m == map[] then 0
    else var k :| k in m; CfgWeight(m[k]) + Total(m - {k})
  }

  lemma {:induction false} TotalSplit(m: map<string, NetCfg>, k: string)
    requires k in m
    ensures Total(m) == CfgWeight(m[k]) + Total(m - {k})
    decreases |m|
  {
    var j :| j in m && Total(m) == CfgWeight(m[j]) + Total(m - {j});
    if j != k {
      TotalSplit(m - {j}, k);
      TotalSplit(m - {k}, j);
      assert m - {j} - {k} == m - {k} - {j};
    }
  }

  ghost function Weight(config: map<string, NetCfg>, cache: map<string, Net>): nat {
    Total(config - cache.Keys)
  }

  lemma SetWeight(config: map<string, NetCfg>, cache: map<string, Net>, k: string, c: NetCfg)
    ensures k in cache ==> Weight(config[k := c], cache) == Weight(config, cache)
    ensures k !in cache && k in config ==>
              Weight(config[k := c], cache) + CfgWeight(config[k]) == Weight(config, cache) + CfgWeight(c)
    ensures k !in cache && k !in config ==> Weight(config[k := c], cache) == Weight(config, cache) + CfgWeight(c)
  {
    var before, after := config - cache.Keys, config[k := c] - cache.Keys;
    if k in cache {
      assert after == before;
    } else {
      TotalSplit(after, k);
      assert after - {k} == before - {k};
      if k in config {
        TotalSplit(before, k);
      } else {
        assert before - {k} == before;
      }
    }
  }

  lemma FinishWeight(config: map<string, NetCfg>, cache: map<string, Net>, n: string, c: NetCfg, net: Net)
    ensures Weight(config[n := c], cache[n := net]) <= Weight(config, cache)
  {
    var before, after := config - cache.Keys, config[n := c] - cache[n := net].Keys;
    assert after == before - {n};
    if n in before {
      TotalSplit(before, n);
    } else {
      assert after == before;
    }
  }

  // ----- What each method asks for and promises when generated names are fresh (`w` is given).

  /** Reference j of `owner` is still as the user wrote it, and not hoisted yet. */
  ghost predicate Pending(g: Graph, s: State, owner: Owner, field: Field, j: int) {
    && owner in g && 0 <= j < |g[owner].fields|
    && FieldUnfolds(g, owner, field, g[owner].fields[j])
    && (g[owner].fields[j].target.Hoisted? ==> g[owner].fields[j].target.name !in s.config)
  }

  /** Reference j of `owner` now names a cached net, and was resolved to it. */
  ghost predicate Resolved(g: Graph, s: State, owner: Owner, j: int, field: Field, net: Net) {
    && owner in g && 0 <= j < |g[owner].fields|
    && !g[owner].fields[j].target.Broken?
    && var n := g[owner].fields[j].target.name;
    && field == Field(g[owner].fields[j].path, Name(n))
    && n in s.cache && net == s.cache[n]
  }

  ghost predicate GetPre(kinds: Kinds, w: Option<World>, s: State, owner: Owner, field: Field, at: int) {
    w.Some? ==> Inv(kinds, w.value, s) && owner in s.active && Pending(w.value.g, s, owner, field, at)
  }

  ghost predicate GetPost(kinds: Kinds, w: Option<World>, s: State, s': State, owner: Owner, at: int,
                          field': Field, net: Net)
  {
    w.Some? ==>
      && Inv(kinds, w.value, s') && Grew(s, s')
      && OtherSitesKept(w.value.g, s, s', owner, at) && NewReached(w.value.g, s, s', owner)
      && Resolved(w.value.g, s', owner, at, field', net)
  }

  ghost predicate RefFault(kinds: Kinds, w: Option<World>, active: set<Owner>, owner: Owner, at: int, e: Error) {
    w.Some? ==>
      && owner in w.value.g && 0 <= at < |w.value.g[owner].fields|
      && var t := w.value.g[owner].fields[at].target;
      if t.Broken? then e == BadRef else Blames(kinds, w.value.g, active, t.name, e)
  }

  /** Between visits: references below i are resolved, the others pending. */
  ghost predicate Midway(kinds: Kinds, w: Option<World>, s: State, s': State, owner: Owner,
                         fields: seq<Field>, i: int, fields': seq<Field>, nets: seq<Net>)
  {
    && 0 <= i <= |fields| && |fields'| == |nets| == i
    && (w.Some? ==>
          && Inv(kinds, w.value, s') && Grew(s, s')
          && SitesKept(w.value.g, s, s', owner) && NewReached(w.value.g, s, s', owner)
          && owner in s.active && owner in w.value.g && |w.value.g[owner].fields| == |fields|
          && (forall j :: i <= j < |fields| ==> Pending(w.value.g, s', owner, fields[j], j))
          && (forall j :: 0 <= j < i ==> Resolved(w.value.g, s', owner, j, fields'[j], nets[j])))
  }

  ghost predicate VisitFault(kinds: Kinds, w: Option<World>, active: set<Owner>, owner: Owner, e: Error) {
    w.Some? ==> exists j :: RefFault(kinds, w, active, owner, j, e)
  }

  ghost predicate BuildPre(kinds: Kinds, w: Option<World>, s: State, owner: Owner, cfg: NetCfg) {
    && Midway(kinds, w, s, s, owner, cfg.fields, 0, [], [])
    && (w.Some? ==> w.value.g[owner].typ == cfg.typ && w.value.g[owner].data == cfg.data)
  }

  ghost predicate BuildPost(netKinds: Kinds, kinds: Kinds, w: Option<World>, s: State, s': State, owner: Owner,
                            cfg: NetCfg, cfg': NetCfg, nets: seq<Net>)
  {
    && Midway(netKinds, w, s, s', owner, cfg.fields, |cfg.fields|, cfg'.fields, nets)
    && (w.Some? ==> owner in w.value.g && FlatOk(kinds, w.value.g[owner]) && cfg' == Rewritten(w.value.g[owner]))
  }

  ghost predicate BuildFault(netKinds: Kinds, kinds: Kinds, w: Option<World>, active: set<Owner>, owner: Owner, e: Error) {
    w.Some? ==> owner in w.value.g && (OwnFault(kinds, w.value.g[owner], e) || VisitFault(netKinds, w, active, owner, e))
  }

  // ----- One lemma per step of the methods.

  lemma MidwayGivesPre(kinds: Kinds, w: Option<World>, s: State, s': State, owner: Owner,
                       fields: seq<Field>, i: int, fields': seq<Field>, nets: seq<Net>)
    requires Midway(kinds, w, s, s', owner, fields, i, fields', nets) && i < |fields|
    ensures GetPre(kinds, w, s', owner, fields[i], i)
  {
  }

  lemma PendingKept(g: Graph, s1: State, s2: State, owner: Owner, field: Field, i: int, j: int)
    requires Pending(g, s1, owner, field, j) && j != i && owner in s1.active
    requires OtherSitesKept(g, s1, s2, owner, i)
    ensures Pending(g, s2, owner, field, j)
  {
    var t := g[owner].fields[j].target;
    if t.Hoisted? { assert Site(g, owner, j, t.name); }
  }

  lemma MidwayStep(kinds: Kinds, w: Option<World>, s: State, s1: State, s2: State, owner: Owner,
                   fields: seq<Field>, i: int, fields': seq<Field>, nets: seq<Net>, field': Field, net: Net)
    requires Midway(kinds, w, s, s1, owner, fields, i, fields', nets) && i < |fields|
    requires GetPost(kinds, w, s1, s2, owner, i, field', net)
    ensures Midway(kinds, w, s, s2, owner, fields, i + 1, fields' + [field'], nets + [net])
  {
    hide Inv;
    if w.Some? {
      var g := w.value.g;
      forall j | i + 1 <= j < |fields| ensures Pending(g, s2, owner, fields[j], j) {
        PendingKept(g, s1, s2, owner, fields[j], i, j);
      }
      forall j | 0 <= j < i + 1
        ensures Resolved(g, s2, owner, j, (fields' + [field'])[j], (nets + [net])[j])
      {
        if j < i { assert Resolved(g, s1, owner, j, fields'[j], nets[j]); }
      }
    }
  }

  lemma MidwayFails(kinds: Kinds, w: Option<World>, s: State, s': State, owner: Owner, fields: seq<Field>, i: int,
                    fields': seq<Field>, nets: seq<Net>, e: Error)
    requires Midway(kinds, w, s, s', owner, fields, i, fields', nets)
    requires RefFault(kinds, w, s'.active, owner, i, e)
    ensures VisitFault(kinds, w, s.active, owner, e)
  {
    if w.Some? { assert RefFault(kinds, w, s.active, owner, i, e); }
  }

  lemma GarbageFails(kinds: Kinds, w: Option<World>, s: State, owner: Owner, field: Field, at: int)
    requires GetPre(kinds, w, s, owner, field, at) && field.ref.Garbage?
    ensures RefFault(kinds, w, s.active, owner, at, BadRef)
  {
  }

  lemma VisitedAll(netKinds: Kinds, kinds: Kinds, w: Option<World>, s: State, s': State, owner: Owner,
                   cfg: NetCfg, fields': seq<Field>, nets: seq<Net>)
    requires BuildPre(netKinds, w, s, owner, cfg)
    requires Midway(netKinds, w, s, s', owner, cfg.fields, |cfg.fields|, fields', nets)
    requires cfg.typ in kinds && kinds[cfg.typ].parses(cfg.data) && kinds[cfg.typ].builds(cfg.data)
    ensures BuildPost(netKinds, kinds, w, s, s', owner, cfg, cfg.(fields := fields'), nets)
  {
    if w.Some? {
      var f := w.value.g[owner];
      forall j | 0 <= j < |f.fields| ensures !f.fields[j].target.Broken? && fields'[j] == Field(f.fields[j].path, Name(f.fields[j].target.name)) {
        assert Resolved(w.value.g, s', owner, j, fields'[j], nets[j]);
      }
      assert fields' == Rewritten(f).fields;
    }
  }

  lemma OwnFaultFails(netKinds: Kinds, kinds: Kinds, w: Option<World>, s: State, owner: Owner, cfg: NetCfg, e: Error)
    requires BuildPre(netKinds, w, s, owner, cfg)
    requires || (cfg.typ !in kinds && e == UnknownType(cfg.typ))
             || (cfg.typ in kinds && !kinds[cfg.typ].parses(cfg.data) && e == BadOption)
             || (cfg.typ in kinds && !kinds[cfg.typ].builds(cfg.data) && e == BuildFailed)
    ensures BuildFault(netKinds, kinds, w, s.active, owner, e)
  {
  }

  lemma VisitFaultFails(netKinds: Kinds, kinds: Kinds, w: Option<World>, s: State, owner: Owner, cfg: NetCfg, e: Error)
    requires BuildPre(netKinds, w, s, owner, cfg)
    requires VisitFault(netKinds, w, s.active, owner, e)
    ensures BuildFault(netKinds, kinds, w, s.active, owner, e)
  {
  }

  /** The name of a reference is known, an inline net is in the config map under it. */
  ghost predicate Looked(kinds: Kinds, w: Option<World>, s: State, s1: State, owner: Owner, at: int, path: Path, name: string) {
    w.Some? ==>
      && var g := w.value.g;
      && Inv(kinds, w.value, s1) && Grew(s, s1) && OtherSitesKept(g, s, s1, owner, at)
      && s1.cache == s.cache
      && owner in s.active && owner in g && 0 <= at < |g[owner].fields|
      && var t := g[owner].fields[at];
      && t.path == path && !t.target.Broken? && t.target.name == name
      && (t.target.Hoisted? ==> name in s1.config)
  }

  lemma LookByName(kinds: Kinds, w: Option<World>, s: State, owner: Owner, field: Field, at: int)
    requires GetPre(kinds, w, s, owner, field, at) && field.ref.Name?
    ensures Looked(kinds, w, s, s, owner, at, field.path, field.ref.name)
  {
  }

  lemma LookInline(kinds: Kinds, w: Option<World>, s: State, owner: Owner, field: Field, at: int, h: string)
    requires GetPre(kinds, w, s, owner, field, at) && field.ref.Inline? && h == GeneratedName(owner, field.path)
    ensures Looked(kinds, w, s, Hoist(s, h, field.ref.net), owner, at, field.path, h)
  {
    if w.Some? {
      assert Site(w.value.g, owner, at, h);
      HoistKeepsInv(kinds, w.value, s, owner, at, h, field.ref.net);
    }
  }

  lemma LookCached(kinds: Kinds, w: Option<World>, s: State, s1: State, owner: Owner, at: int, path: Path, name: string)
    requires Looked(kinds, w, s, s1, owner, at, path, name) && name in s1.cache
    ensures GetPost(kinds, w, s, s1, owner, at, Field(path, Name(name)), s1.cache[name])
  {
  }

  lemma LookMissing(kinds: Kinds, w: Option<World>, s: State, s1: State, owner: Owner, at: int, path: Path, name: string)
    requires Looked(kinds, w, s, s1, owner, at, path, name) && name !in s1.config
    ensures RefFault(kinds, w, s.active, owner, at, NotFound(name))
  {
    if w.Some? {
      var g := w.value.g;
      assert Mentions(g, owner, at, name);
      assert NetOwner(name) !in g;
      BlameSelf(kinds, g, s.active, name, NotFound(name));
    }
  }

  lemma LookLooping(kinds: Kinds, w: Option<World>, s: State, s1: State, owner: Owner, at: int, path: Path, name: string)
    requires Looked(kinds, w, s, s1, owner, at, path, name) && (w.Some? ==> NetOwner(name) in s1.active)
    ensures w.Some? ==> name in s1.config && s1.config[name] == PLACEHOLDER && PLACEHOLDER_TYPE !in kinds
    ensures RefFault(kinds, w, s.active, owner, at, UnknownType(PLACEHOLDER_TYPE))
  {
    if w.Some? {
      BlameSelf(kinds, w.value.g, s.active, name, UnknownType(PLACEHOLDER_TYPE));
    }
  }

  lemma LookBegin(kinds: Kinds, w: Option<World>, s: State, s1: State, owner: Owner, at: int, path: Path, name: string)
    requires Looked(kinds, w, s, s1, owner, at, path, name) && name in s1.config && name !in s1.cache
    requires w.Some? ==> NetOwner(name) !in s1.active
    ensures BuildPre(kinds, w, Begin(s1, name), NetOwner(name), s1.config[name])
  {
    if w.Some? {
      var g := w.value.g;
      BeginKeepsInv(kinds, w.value, s1, name);
      var cfg := s1.config[name];
      assert Unfolds(g, NetOwner(name), cfg);
      forall j | 0 <= j < |cfg.fields| ensures Pending(g, Begin(s1, name), NetOwner(name), cfg.fields[j], j) {
        var t := g[NetOwner(name)].fields[j].target;
        if t.Hoisted? { assert Site(g, NetOwner(name), j, t.name); }
      }
    }
  }

  lemma BuiltAssembles(kinds: Kinds, w: World, s2: State, s3: State, name: string, cfg: NetCfg, cfg': NetCfg, net: Net)
    requires BuildPost(kinds, kinds, Some(w), s2, s3, NetOwner(name), cfg, cfg', net.deps)
    requires NetOwner(name) in w.g && w.g[NetOwner(name)].typ == cfg.typ && w.g[NetOwner(name)].data == cfg.data
    requires net.name == name && net.typ == cfg.typ && net.data == cfg.data
    ensures Inv(kinds, w, s3) && Grew(s2, s3) && NetOwner(name) in s3.active
    ensures NodeOk(kinds, w.g, name) && Assembled(w.g, s3.cache, name, net) && cfg' == Rewritten(w.g[NetOwner(name)])
  {
    var f := w.g[NetOwner(name)];
    forall j | 0 <= j < |f.fields|
      ensures !f.fields[j].target.Broken? && f.fields[j].target.name in s3.cache && net.deps[j] == s3.cache[f.fields[j].target.name]
    {
      assert Resolved(w.g, s3, NetOwner(name), j, cfg'.fields[j], net.deps[j]);
    }
  }

  lemma FinishGrew(s: State, s1: State, s3: State, name: string, cfg: NetCfg, net: Net)
    requires Grew(s, s1) && Grew(Begin(s1, name), s3)
    requires NetOwner(name) !in s1.active && name !in s3.cache
    ensures Grew(s, Finish(s3, name, cfg, net))
  {
    assert Begin(s1, name).active - {NetOwner(name)} == s1.active;
  }

  lemma FinishKeepsSites(g: Graph, s: State, s1: State, s3: State, owner: Owner, at: int, name: string, cfg: NetCfg, net: Net)
    requires OtherSitesKept(g, s, s1, owner, at) && s1.active == s.active
    requires SitesKept(g, Begin(s1, name), s3, NetOwner(name))
    requires name in s1.config && NetOwner(name) !in s1.active
    ensures OtherSitesKept(g, s, Finish(s3, name, cfg, net), owner, at)
  {
  }

  lemma FinishNewReached(g: Graph, s: State, s1: State, s3: State, owner: Owner, at: int, name: string, cfg: NetCfg, net: Net)
    requires s1.cache == s.cache && NewReached(g, Begin(s1, name), s3, NetOwner(name))
    requires owner in g && 0 <= at < |g[owner].fields|
    requires !g[owner].fields[at].target.Broken? && g[owner].fields[at].target.name == name
    ensures NewReached(g, s, Finish(s3, name, cfg, net), owner)
  {
    assert PointsTo(g[owner], name);
    forall n | n in Finish(s3, name, cfg, net).cache && n !in s.cache ensures ReachedFrom(g, owner, n) {
      if n == name {
        assert PathTo(g, [name], name, name);
      } else {
        assert ReachedFrom(g, NetOwner(name), n);
        var t, p :| PointsTo(g[NetOwner(name)], t) && PathTo(g, p, t, n);
        assert Edge(g, name, t);
        PrependEdge(g, name, p);
        assert PathTo(g, [name] + p, name, n);
      }
    }
  }

  lemma BuiltFinish(kinds: Kinds, w: Option<World>, s: State, s1: State, s3: State, owner: Owner, at: int, path: Path,
                    name: string, cfg: NetCfg, cfg': NetCfg, net: Net)
    requires Looked(kinds, w, s, s1, owner, at, path, name)
    requires name in s1.config && name !in s1.cache
    requires w.Some? ==> NetOwner(name) !in s1.active
    requires BuildPre(kinds, w, Begin(s1, name), NetOwner(name), cfg)
    requires BuildPost(kinds, kinds, w, Begin(s1, name), s3, NetOwner(name), cfg, cfg', net.deps)
    requires net.name == name && net.typ == cfg.typ && net.data == cfg.data
    ensures GetPost(kinds, w, s, Finish(s3, name, cfg', net), owner, at, Field(path, Name(name)), net)
  {
    if w.Some? {
      BuiltAssembles(kinds, w.value, Begin(s1, name), s3, name, cfg, cfg', net);
      FinishKeepsInv(kinds, w.value, s3, name, net);
      FinishGrew(s, s1, s3, name, cfg', net);
      FinishKeepsSites(w.value.g, s, s1, s3, owner, at, name, cfg', net);
      FinishNewReached(w.value.g, s, s1, s3, owner, at, name, cfg', net);
    }
  }

  lemma BuiltFails(kinds: Kinds, w: Option<World>, s: State, s1: State, owner: Owner, at: int, path: Path,
                   name: string, e: Error)
    requires Looked(kinds, w, s, s1, owner, at, path, name)
    requires BuildFault(kinds, kinds, w, s1.active + {NetOwner(name)}, NetOwner(name), e)
    ensures RefFault(kinds, w, s.active, owner, at, e)
  {
    if w.Some? {
      var g := w.value.g;
      var f := g[NetOwner(name)];
      if OwnFault(kinds, f, e) {
        BlameSelf(kinds, g, s.active, name, e);
      } else {
        var j :| RefFault(kinds, w, s1.active + {NetOwner(name)}, NetOwner(name), j, e);
        var t := f.fields[j].target;
        assert Edge(g, name, t.name);
        BlameThroughEdge(kinds, g, s.active, name, t.name, e);
      }
    }
  }
}
