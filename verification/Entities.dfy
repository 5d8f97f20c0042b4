/** Building every server of a config. With fresh generated names it succeeds exactly when every server and
    everything it leads to is buildable, and then the running nets are exactly the nets some server leads
    to. With any names it computes the builder's function. */
module Entities {
  import opened ConfigGraph
  import opened ConfigGraphLemmas
  import opened BuildSteps
  import opened BuildFunction
  import opened Flattening
  import opened TidyNames
  import opened Building
  import opened Options

  ghost predicate ServerOk(netKinds: Kinds, serverKinds: Kinds, g: Graph, name: string) {
    && ServerOwner(name) in g
    && FlatOk(serverKinds, g[ServerOwner(name)])
    && forall t :: PointsTo(g[ServerOwner(name)], t) ==> Buildable(netKinds, g, t)
  }

  ghost predicate Needed(g: Graph, servers: seq<Server>, upTo: int, n: string)
    requires upTo <= |servers|
  {
    exists i :: 0 <= i < upTo && ReachedFrom(g, ServerOwner(servers[i].name), n)
  }

  /** The builder between two servers: `upTo` of them are done, and nothing is under construction. */
  ghost predicate Between(netKinds: Kinds, w: World, servers: seq<Server>, upTo: int, s: State) {
    && Inv(netKinds, w, s)
    && s.active == {}
    && 0 <= upTo <= |servers|
    && (forall n :: ServerOwner(n) in s.done ==> exists i :: 0 <= i < upTo && servers[i].name == n)
    && (forall n :: n in s.cache <==> Needed(w.g, servers, upTo, n))
  }

  lemma StartsBetween(netKinds: Kinds, w: World, servers: seq<Server>)
    requires w.Valid() && PLACEHOLDER_TYPE !in netKinds
    ensures Between(netKinds, w, servers, 0, State(w.nets, map[], [], {}, {}))
  {
  }

  lemma ServerBegins(netKinds: Kinds, w: World, servers: seq<Server>, k: int, s: State, s1: State)
    requires Between(netKinds, w, servers, k, s) && k < |servers|
    requires DistinctNames(servers) && w.servers == ServerMap(servers)
    requires s1 == s.(active := {ServerOwner(servers[k].name)})
    ensures BuildPre(netKinds, Some(w), s1, ServerOwner(servers[k].name), servers[k].cfg)
  {
    var owner := ServerOwner(servers[k].name);
    assert ServerMap(servers)[servers[k].name] == servers[k].cfg;
    assert Unfolds(w.g, owner, servers[k].cfg);
    assert Inv(netKinds, w, s1);
    forall j | 0 <= j < |servers[k].cfg.fields| ensures Pending(w.g, s1, owner, servers[k].cfg.fields[j], j) {
      var t := w.g[owner].fields[j].target;
      if t.Hoisted? { assert Site(w.g, owner, j, t.name); }
    }
  }

  lemma ServerIsOk(netKinds: Kinds, serverKinds: Kinds, w: World, s1: State, s2: State, name: string, cfg: NetCfg,
                   cfg': NetCfg, nets: seq<Net>)
    requires BuildPost(netKinds, serverKinds, Some(w), s1, s2, ServerOwner(name), cfg, cfg', nets)
    ensures ServerOk(netKinds, serverKinds, w.g, name)
  {
    var owner := ServerOwner(name);
    forall t | PointsTo(w.g[owner], t) ensures Buildable(netKinds, w.g, t) {
      var j :| 0 <= j < |w.g[owner].fields| && !w.g[owner].fields[j].target.Broken? && w.g[owner].fields[j].target.name == t;
      assert Resolved(w.g, s2, owner, j, cfg'.fields[j], nets[j]);
      CachedIsBuildable(netKinds, w.g, s2.cache, s2.order, t);
    }
  }

  lemma RetireKeepsInv(netKinds: Kinds, w: World, s: State, owner: Owner)
    requires Inv(netKinds, w, s) && owner.ServerOwner? && s.active == {owner}
    ensures Inv(netKinds, w, s.(active := {}, done := s.done + {owner}))
  {
  }

  lemma NeededNext(g: Graph, servers: seq<Server>, k: int, n: string)
    requires 0 <= k < |servers|
    ensures Needed(g, servers, k + 1, n) <==> Needed(g, servers, k, n) || ReachedFrom(g, ServerOwner(servers[k].name), n)
  {
  }

  lemma ReachedIsCached(netKinds: Kinds, serverKinds: Kinds, w: World, s1: State, s2: State, name: string, cfg: NetCfg,
                        cfg': NetCfg, nets: seq<Net>, n: string)
    requires BuildPost(netKinds, serverKinds, Some(w), s1, s2, ServerOwner(name), cfg, cfg', nets)
    ensures ReachedFrom(w.g, ServerOwner(name), n) ==> n in s2.cache
  {
    var owner := ServerOwner(name);
    if ReachedFrom(w.g, owner, n) {
      var t, p :| PointsTo(w.g[owner], t) && PathTo(w.g, p, t, n);
      var j :| 0 <= j < |w.g[owner].fields| && !w.g[owner].fields[j].target.Broken? && w.g[owner].fields[j].target.name == t;
      assert Resolved(w.g, s2, owner, j, cfg'.fields[j], nets[j]);
      PathStaysCached(netKinds, w.g, s2.cache, s2.order, p, |p| - 1);
    }
  }

  lemma ServerEnds(netKinds: Kinds, serverKinds: Kinds, w: World, servers: seq<Server>, k: int, s: State,
                   s2: State, cfg': NetCfg, nets: seq<Net>)
    requires Between(netKinds, w, servers, k, s) && k < |servers|
    requires BuildPost(netKinds, serverKinds, Some(w), s.(active := {ServerOwner(servers[k].name)}), s2,
                       ServerOwner(servers[k].name), servers[k].cfg, cfg', nets)
    ensures Between(netKinds, w, servers, k + 1, s2.(active := {}, done := s2.done + {ServerOwner(servers[k].name)}))
  {
    hide Inv, Resolved, Pending, FlatOk, Rewritten, Needed;
    var owner := ServerOwner(servers[k].name);
    RetireKeepsInv(netKinds, w, s2, owner);
    forall n ensures n in s2.cache <==> Needed(w.g, servers, k + 1, n) {
      NeededNext(w.g, servers, k, n);
      ReachedIsCached(netKinds, serverKinds, w, s.(active := {owner}), s2, servers[k].name, servers[k].cfg, cfg', nets, n);
    }
  }

  lemma FaultyServer(netKinds: Kinds, serverKinds: Kinds, w: World, name: string, e: Error)
    requires BuildFault(netKinds, serverKinds, Some(w), {ServerOwner(name)}, ServerOwner(name), e)
    ensures !ServerOk(netKinds, serverKinds, w.g, name)
  {
    var owner := ServerOwner(name);
    var f := w.g[owner];
    if !OwnFault(serverKinds, f, e) {
      var j :| RefFault(netKinds, Some(w), {owner}, owner, j, e);
      if !f.fields[j].target.Broken? {
        assert PointsTo(f, f.fields[j].target.name);
        BlamedIsNotBuildable(netKinds, w.g, {owner}, f.fields[j].target.name, e);
      }
    }
  }

  ghost predicate ServerFault(netKinds: Kinds, serverKinds: Kinds, w: World, name: string, e: Error) {
    BuildFault(netKinds, serverKinds, Some(w), {ServerOwner(name)}, ServerOwner(name), e)
  }

  /** When everything a server leads to exists, is registered and builds, the one way to fail is to meet
      the placeholder, and then a net the server leads to is on a cycle. */
  lemma FaultIsCycle(netKinds: Kinds, serverKinds: Kinds, w: World, name: string, e: Error)
    requires ServerFault(netKinds, serverKinds, w, name, e)
    requires FlatOk(serverKinds, w.g[ServerOwner(name)])
    requires forall n :: ReachedFrom(w.g, ServerOwner(name), n) ==> NodeOk(netKinds, w.g, n)
    ensures e == UnknownType(PLACEHOLDER_TYPE)
    ensures exists n :: ReachedFrom(w.g, ServerOwner(name), n) && OnCycle(w.g, n)
  {
    var owner := ServerOwner(name);
    var j :| RefFault(netKinds, Some(w), {owner}, owner, j, e);
    var t := w.g[owner].fields[j].target.name;
    assert PointsTo(w.g[owner], t);
    var p, b :| PathTo(w.g, p, t, b) && Explains(netKinds, w.g, {owner}, b, e);
    assert ReachedFrom(w.g, owner, b);
  }

  /** A server keeps its config, with every inline net replaced by the name it was hoisted to. */
  datatype BuiltServer = BuiltServer(name: string, cfg: NetCfg, nets: seq<Net>)

  ghost predicate BuiltServerOk(g: Graph, nets: map<string, Net>, server: Server, built: BuiltServer) {
    && built.name == server.name
    && ServerOwner(server.name) in g
    && var f := g[ServerOwner(server.name)];
    && |built.nets| == |f.fields|
    && (forall j :: 0 <= j < |f.fields| ==> !f.fields[j].target.Broken?)
    && built.cfg == Rewritten(f)
    && forall j :: 0 <= j < |f.fields| ==> f.fields[j].target.name in nets && built.nets[j] == nets[f.fields[j].target.name]
  }

  lemma ServerBuilt(netKinds: Kinds, serverKinds: Kinds, w: World, s1: State, s2: State, server: Server,
                    cfg': NetCfg, nets: seq<Net>)
    requires BuildPost(netKinds, serverKinds, Some(w), s1, s2, ServerOwner(server.name), server.cfg, cfg', nets)
    ensures BuiltServerOk(w.g, s2.cache, server, BuiltServer(server.name, cfg', nets))
  {
    var f := w.g[ServerOwner(server.name)];
    forall j | 0 <= j < |f.fields|
      ensures !f.fields[j].target.Broken? && f.fields[j].target.name in s2.cache && nets[j] == s2.cache[f.fields[j].target.name]
    {
      assert Resolved(w.g, s2, ServerOwner(server.name), j, cfg'.fields[j], nets[j]);
    }
  }

  datatype Entities = Entities(nets: map<string, Net>, servers: seq<BuiltServer>)

  /** Build the next server, `build_server` over the shared builder. */
  method BuildServer(ctx: BuildContext, serverKinds: Kinds, ghost w: Option<World>, servers: seq<Server>, k: nat)
    returns (res: Outcome<BuiltServer>, ghost d: nat)
    requires k < |servers| && DistinctNames(servers)
    requires w.Some? ==> w.value.servers == ServerMap(servers) && Between(ctx.netKinds, w.value, servers, k, ctx.St())
    modifies ctx
    ensures EvalServer(ctx.netKinds, serverKinds, d, old(ctx.Maps()), servers[k]) == Some((res, ctx.Maps()))
    ensures w.Some? ==>
      && (res.Ok? <==> ServerOk(ctx.netKinds, serverKinds, w.value.g, servers[k].name))
      && (res.Fail? ==> ServerFault(ctx.netKinds, serverKinds, w.value, servers[k].name, res.error))
      && (res.Ok? ==> Between(ctx.netKinds, w.value, servers, k + 1, ctx.St()))
      && (res.Ok? ==> BuiltServerOk(w.value.g, ctx.cache, servers[k], res.value))
      && (res.Ok? ==> forall n :: n in old(ctx.cache) ==> n in ctx.cache && ctx.cache[n] == old(ctx.cache)[n])
  {
    hide Inv, Between, BuildPre, BuildPost, BuildFault, ServerOk, BuiltServerOk, EvalCfg;
    ghost var s := ctx.St();
    ghost var s1 := s.(active := {ServerOwner(servers[k].name)});
    if w.Some? {
      ServerBegins(ctx.netKinds, w.value, servers, k, s, s1);
    } else {
      NothingAsked(ctx.netKinds, s1, ServerOwner(servers[k].name), servers[k].cfg);
    }
    ctx.active := {ServerOwner(servers[k].name)};
    assert ctx.St() == s1;
    var nets, cfg, below := ctx.BuildDyn(serverKinds, ServerOwner(servers[k].name), servers[k].cfg, w);
    d := below;
    if nets.Fail? {
      if w.Some? { FaultyServer(ctx.netKinds, serverKinds, w.value, servers[k].name, nets.error); }
      return Fail(nets.error), d;
    }
    ghost var s2 := ctx.St();
    if w.Some? {
      ServerEnds(ctx.netKinds, serverKinds, w.value, servers, k, s, s2, cfg, nets.value);
      ServerIsOk(ctx.netKinds, serverKinds, w.value, s1, s2, servers[k].name, servers[k].cfg, cfg, nets.value);
      ServerBuilt(ctx.netKinds, serverKinds, w.value, s1, s2, servers[k], cfg, nets.value);
      CacheGrew(ctx.netKinds, serverKinds, w.value, s1, s2, servers[k], cfg, nets.value);
    }
    ctx.active := {};
    ctx.done := ctx.done + {ServerOwner(servers[k].name)};
    return Ok(BuiltServer(servers[k].name, cfg, nets.value)), d;
  }

  lemma NothingAsked(netKinds: Kinds, s: State, owner: Owner, cfg: NetCfg)
    ensures BuildPre(netKinds, None, s, owner, cfg)
  {
  }

  // ----- The whole config.

  function EvalServer(netKinds: Kinds, serverKinds: Kinds, d: nat, s: Store, server: Server)
    : Option<(Outcome<BuiltServer>, Store)>
  {
    match EvalCfg(netKinds, serverKinds, d, s, ServerOwner(server.name), server.cfg)
    case None => None
    case Some(b) =>
      Some((if b.res.Fail? then Fail(b.res.error) else Ok(BuiltServer(server.name, b.cfg, b.res.value)), b.s))
  }

  /** All servers in order, after those already built. */
  function EvalServers(netKinds: Kinds, serverKinds: Kinds, d: nat, s: Store, servers: seq<Server>, built: seq<BuiltServer>)
    : Option<(Outcome<Entities>, map<string, NetCfg>)>
    decreases |servers|
  {
    if servers == [] then Some((Ok(Entities(s.cache, built)), s.config))
    else
      match EvalServer(netKinds, serverKinds, d, s, servers[0])
      case None => None
      case Some((res, s')) =>
        if res.Fail? then Some((Fail(res.error), s'.config))
        else EvalServers(netKinds, serverKinds, d, s', servers[1..], built + [res.value])
  }

  /** Looking deeper than `d` changes nothing from here on. */
  ghost predicate ServersReach(netKinds: Kinds, serverKinds: Kinds, d: nat, s0: Store, servers: seq<Server>, s: Store,
                               k: nat, built: seq<BuiltServer>)
    requires k <= |servers|
  {
    forall e: nat {:trigger EvalServers(netKinds, serverKinds, e, s0, servers, [])} :: e >= d ==>
      EvalServers(netKinds, serverKinds, e, s0, servers, []) ==
      EvalServers(netKinds, serverKinds, e, s, servers[k..], built)
  }

  lemma ServersReachNext(netKinds: Kinds, serverKinds: Kinds, d: nat, d': nat, s0: Store, servers: seq<Server>, s: Store,
                         k: nat, built: seq<BuiltServer>, res: Outcome<BuiltServer>, s': Store)
    requires k < |servers| && ServersReach(netKinds, serverKinds, d, s0, servers, s, k, built)
    requires EvalServer(netKinds, serverKinds, d', s, servers[k]) == Some((res, s'))
    ensures res.Ok? ==> ServersReach(netKinds, serverKinds, d + d', s0, servers, s', k + 1, built + [res.value])
    ensures res.Fail? ==> EvalServers(netKinds, serverKinds, d + d', s0, servers, []) == Some((Fail(res.error), s'.config))
  {
    hide EvalCfg;
    var rest := servers[k..];
    assert rest[0] == servers[k] && rest[1..] == servers[k + 1..];
    forall e: nat | e >= d + d'
      ensures EvalServers(netKinds, serverKinds, e, s0, servers, []) ==
              if res.Fail? then Some((Fail(res.error), s'.config))
              else EvalServers(netKinds, serverKinds, e, s', servers[k + 1..], built + [res.value])
    {
      CfgNeedsNoMore(netKinds, serverKinds, d', e, s, ServerOwner(servers[k].name), servers[k].cfg);
    }
  }

  /** The nets of a map in some order. */
  ghost function Listed(m: map<string, NetCfg>): seq<Server> {
    if m == map[] then [] else var k :| k in m; [Server(k, m[k])] + Listed(m - {k})
  }

  ghost predicate Lists(m: map<string, NetCfg>, r: seq<Server>) {
    && (forall i :: 0 <= i < |r| ==> r[i].name in m && r[i].cfg == m[r[i].name])
    && (forall n :: n in m ==> exists i :: 0 <= i < |r| && r[i].name == n)
    && DistinctNames(r)
  }

  lemma {:induction false} ListedLists(m: map<string, NetCfg>)
    ensures Lists(m, Listed(m))
    decreases |m|
  {
    if m != map[] {
      var k :| k in m && Listed(m) == [Server(k, m[k])] + Listed(m - {k});
      ListedLists(m - {k});
      ListsOneMore(m, k, Listed(m - {k}));
    }
  }

  lemma ListsOneMore(m: map<string, NetCfg>, k: string, rest: seq<Server>)
    requires k in m && Lists(m - {k}, rest)
    ensures Lists(m, [Server(k, m[k])] + rest)
  {
    var r := [Server(k, m[k])] + rest;
    forall n | n in m ensures exists i :: 0 <= i < |r| && r[i].name == n {
      if n == k {
        assert r[0].name == n;
      } else {
        assert n in m - {k};
        var i :| 0 <= i < |rest| && rest[i].name == n;
        assert r[i + 1].name == n;
      }
    }
  }

  lemma ListedMap(m: map<string, NetCfg>)
    ensures DistinctNames(Listed(m)) && ServerMap(Listed(m)) == m
  {
    ListedLists(m);
    hide Listed;
    var r := Listed(m);
    assert ServerMap(r).Keys == m.Keys;
  }

  ghost predicate FreshConfig(nets: map<string, NetCfg>, servers: seq<Server>) {
    DistinctNames(Listed(nets)) && FreshNames(Listed(nets), servers)
  }

  /** The flat graph of a config. */
  ghost function GraphFor(nets: map<string, NetCfg>, servers: seq<Server>): Graph {
    FlatGraph(Listed(nets), servers)
  }

  /** What a user can check before: see `Tidy`. */
  ghost predicate TidyConfig(nets: map<string, NetCfg>, servers: seq<Server>) {
    && DistinctNames(servers)
    && (forall n :: n in nets ==> Plain(n) && n != "net" && n != "server" && TidyFields(nets[n].fields))
    && (forall i :: 0 <= i < |servers| ==> Plain(servers[i].name) && TidyFields(servers[i].cfg.fields))
  }

  lemma TidyWithDefaults(nets: map<string, NetCfg>, servers: seq<Server>, localOpt: string)
    requires TidyConfig(nets, servers)
    ensures TidyConfig(WithDefaults(nets, localOpt), servers)
  {
    var all := WithDefaults(nets, localOpt);
    hide WithDefaults;
    forall n | n in all
      ensures Plain(n) && n != "net" && n != "server" && TidyFields(all[n].fields)
    {
      if n !in nets { assert all[n].fields == []; }
    }
  }

  lemma TidyListed(nets: map<string, NetCfg>, servers: seq<Server>)
    requires TidyConfig(nets, servers)
    ensures Tidy(Listed(nets), servers)
  {
    ListedLists(nets);
    hide Listed, TidyFields, Plain;
  }

  lemma TidyConfigIsFresh(nets: map<string, NetCfg>, servers: seq<Server>, localOpt: string)
    requires TidyConfig(nets, servers)
    ensures FreshConfig(WithDefaults(nets, localOpt), servers)
  {
    hide TidyConfig, Tidy, FreshNames, Listed;
    var all := WithDefaults(nets, localOpt);
    TidyWithDefaults(nets, servers, localOpt);
    TidyListed(all, servers);
    ListedMap(all);
    TidyIsFresh(Listed(all), servers);
  }

  /** Build all servers, in order. Whatever the names, the result is what the builder's function says, and
      so is the config that is left. */
  method BuildEntities(netKinds: Kinds, serverKinds: Kinds, nets: map<string, NetCfg>, servers: seq<Server>, localOpt: string)
    returns (res: Outcome<Entities>, config: map<string, NetCfg>, ghost d: nat)
    requires DistinctNames(servers)
    ensures EvalServers(netKinds, serverKinds, d, Store(WithDefaults(nets, localOpt), map[]), servers, []) == Some((res, config))
    ensures TidyConfig(nets, servers) ==> FreshConfig(WithDefaults(nets, localOpt), servers)
    ensures FreshConfig(WithDefaults(nets, localOpt), servers) && PLACEHOLDER_TYPE !in netKinds ==>
      var all := WithDefaults(nets, localOpt);
      var w := World(all, ServerMap(servers), GraphFor(all, servers));
      && (res.Ok? <==> forall k :: 0 <= k < |servers| ==> ServerOk(netKinds, serverKinds, w.g, servers[k].name))
      && (res.Ok? ==> EntitiesOk(netKinds, w, servers, res.value) && ConfigRewritten(w, res.value.nets, config))
      && (res.Fail? ==> exists k :: 0 <= k < |servers| && ServerFault(netKinds, serverKinds, w, servers[k].name, res.error))
  {
    hide Between, Needed, ServerOk, ServerFault, BuiltServerOk, CacheOk, FreshConfig, TidyConfig, GraphFor, ConfigRewritten;
    hide EvalServers, EvalServer, ServersReach, WithDefaults, World.Valid;
    var all := WithDefaults(nets, localOpt);
    ghost var w := None;
    ghost var s0 := Store(all, map[]);
    if TidyConfig(nets, servers) { TidyConfigIsFresh(nets, servers, localOpt); }
    if FreshConfig(all, servers) && PLACEHOLDER_TYPE !in netKinds {
      FreshIsWorld(all, servers);
      w := Some(World(all, ServerMap(servers), GraphFor(all, servers)));
      StartsBetween(netKinds, w.value, servers);
    }
    var ctx := new BuildContext(netKinds, all);
    var built: seq<BuiltServer> := [];
    var k := 0;
    d := 0;
    ServersReachFirst(netKinds, serverKinds, s0, servers);
    while k < |servers|
      invariant 0 <= k <= |servers| && |built| == k
      invariant ctx.netKinds == netKinds
      invariant ServersReach(netKinds, serverKinds, d, s0, servers, ctx.Maps(), k, built)
      invariant w.Some? ==> Between(netKinds, w.value, servers, k, ctx.St())
      invariant w.Some? ==> forall i :: 0 <= i < k ==> ServerOk(netKinds, serverKinds, w.value.g, servers[i].name)
      invariant w.Some? ==> forall i :: 0 <= i < k ==> BuiltServerOk(w.value.g, ctx.cache, servers[i], built[i])
    {
      ghost var maps := ctx.Maps();
      var server, below := BuildServer(ctx, serverKinds, w, servers, k);
      ServersReachNext(netKinds, serverKinds, d, below, s0, servers, maps, k, built, server, ctx.Maps());
      d := d + below;
      if server.Fail? {
        return Fail(server.error), ctx.config, d;
      }
      if w.Some? {
        forall i | 0 <= i < k ensures BuiltServerOk(w.value.g, ctx.cache, servers[i], built[i]) {
          StillBuiltOk(w.value.g, maps.cache, ctx.cache, servers[i], built[i]);
        }
      }
      built := built + [server.value];
      k := k + 1;
    }
    ServersReachEnd(netKinds, serverKinds, d, s0, servers, ctx.Maps(), built);
    if w.Some? {
      BetweenAll(netKinds, w.value, servers, ctx.St());
      AllRewritten(netKinds, w.value, servers, ctx.St());
    }
    return Ok(Entities(ctx.cache, built)), ctx.config, d;
  }

  lemma FreshIsWorld(nets: map<string, NetCfg>, servers: seq<Server>)
    requires DistinctNames(servers) && FreshConfig(nets, servers)
    ensures World(nets, ServerMap(servers), GraphFor(nets, servers)).Valid()
  {
    ListedMap(nets);
    hide Listed, FreshNames;
    FlattenIsWorld(Listed(nets), servers);
  }

  lemma ServersReachFirst(netKinds: Kinds, serverKinds: Kinds, s: Store, servers: seq<Server>)
    ensures ServersReach(netKinds, serverKinds, 0, s, servers, s, 0, [])
  {
    assert servers[0..] == servers;
  }

  lemma ServersReachEnd(netKinds: Kinds, serverKinds: Kinds, d: nat, s0: Store, servers: seq<Server>, s: Store, built: seq<BuiltServer>)
    requires ServersReach(netKinds, serverKinds, d, s0, servers, s, |servers|, built)
    ensures EvalServers(netKinds, serverKinds, d, s0, servers, []) == Some((Ok(Entities(s.cache, built)), s.config))
  {
    assert servers[|servers|..] == [];
    assert EvalServers(netKinds, serverKinds, d, s, [], built) == Some((Ok(Entities(s.cache, built)), s.config));
    hide EvalServers;
  }

  /** The running nets are exactly those some server leads to, and each server holds its own. */
  ghost predicate EntitiesOk(netKinds: Kinds, w: World, servers: seq<Server>, e: Entities) {
    && (forall n :: n in e.nets <==> Needed(w.g, servers, |servers|, n))
    && (exists order :: CacheOk(netKinds, w.g, e.nets, order))
    && |e.servers| == |servers|
    && forall k :: 0 <= k < |servers| ==> BuiltServerOk(w.g, e.nets, servers[k], e.servers[k])
  }

  /** The config that is left: every net that was built has its references replaced by names of nets that were
      built as well, and every other net is as the user wrote it. So no placeholder is left, and no nested net
      of a net that was built. */
  ghost predicate ConfigRewritten(w: World, nets: map<string, Net>, config: map<string, NetCfg>) {
    && config.Keys == w.nets.Keys + nets.Keys
    && (forall n :: n in w.nets && n !in nets ==> config[n] == w.nets[n])
    && (forall n :: n in nets ==> NetOwner(n) in w.g && RewrittenTo(w.g[NetOwner(n)], nets, config[n]))
  }

  ghost predicate RewrittenTo(f: Flat, nets: map<string, Net>, cfg: NetCfg) {
    && cfg.typ == f.typ && cfg.data == f.data && |cfg.fields| == |f.fields|
    && forall i :: 0 <= i < |f.fields| ==>
         && !f.fields[i].target.Broken? && f.fields[i].target.name in nets
         && cfg.fields[i] == Field(f.fields[i].path, Name(f.fields[i].target.name))
  }

  /** The flat graph determines the config that unfolds to it. */
  lemma {:induction false} UnfoldsOnce(g: Graph, owner: Owner, a: NetCfg, b: NetCfg)
    requires Unfolds(g, owner, a) && Unfolds(g, owner, b)
    ensures a == b
    decreases a
  {
    forall i | 0 <= i < |a.fields|
      ensures a.fields[i] == b.fields[i]
    {
      assert FieldUnfolds(g, owner, a.fields[i], g[owner].fields[i]) && FieldUnfolds(g, owner, b.fields[i], g[owner].fields[i]);
      if a.fields[i].ref.Inline? {
        UnfoldsOnce(g, NetOwner(GeneratedName(owner, a.fields[i].path)), a.fields[i].ref.net, b.fields[i].ref.net);
      }
    }
    assert a.fields == b.fields;
  }

  lemma NetDependencyIsCached(netKinds: Kinds, g: Graph, s: State, n: string, i: int, h: string)
    requires CacheOk(netKinds, g, s.cache, s.order) && n in s.cache && Site(g, NetOwner(n), i, h)
    ensures h in s.cache
  {
    assert BuiltAt(netKinds, g, s.cache, s.order, IndexOf(s.order, n));
  }

  lemma ServerDependencyIsNeeded(g: Graph, servers: seq<Server>, k: int, i: int, h: string)
    requires 0 <= k < |servers| && Site(g, ServerOwner(servers[k].name), i, h)
    ensures Needed(g, servers, |servers|, h)
  {
    var o := ServerOwner(servers[k].name);
    assert PointsTo(g[o], h);
    assert PathTo(g, [h], h, h);
    assert ReachedFrom(g, o, h);
  }

  lemma HoistedIsBuilt(netKinds: Kinds, w: World, servers: seq<Server>, s: State, h: string)
    requires Between(netKinds, w, servers, |servers|, s) && h in s.config && h !in w.nets
    ensures h in s.cache
  {
    hide Unfolds, FlatOk, CacheOk, Fresh, Needed;
    assert NetOwner(h) in w.g;
    var o, i :| Site(w.g, o, i, h);
    assert o in s.done;
    match o {
      case NetOwner(n) =>
        NetDependencyIsCached(netKinds, w.g, s, n, i, h);
      case ServerOwner(n) =>
        var k :| 0 <= k < |servers| && servers[k].name == n;
        ServerDependencyIsNeeded(w.g, servers, k, i, h);
    }
  }

  lemma BuiltIsRewritten(netKinds: Kinds, w: World, s: State, n: string)
    requires CacheOk(netKinds, w.g, s.cache, s.order) && ConfigOk(netKinds, w, s) && n in s.cache
    ensures NetOwner(n) in w.g && n in s.config && RewrittenTo(w.g[NetOwner(n)], s.cache, s.config[n])
  {
    assert BuiltAt(netKinds, w.g, s.cache, s.order, IndexOf(s.order, n));
    hide CacheOk;
  }

  lemma AllRewritten(netKinds: Kinds, w: World, servers: seq<Server>, s: State)
    requires Between(netKinds, w, servers, |servers|, s)
    ensures ConfigRewritten(w, s.cache, s.config)
  {
    hide CacheOk, Unfolds, Needed, RewrittenTo, Fresh, FlatOk;
    forall n | n in s.config && n !in w.nets ensures n in s.cache {
      HoistedIsBuilt(netKinds, w, servers, s, n);
    }
    forall n | n in w.nets && n !in s.cache ensures s.config[n] == w.nets[n] {
      assert NetOwner(n) !in s.active;
      UnfoldsOnce(w.g, NetOwner(n), s.config[n], w.nets[n]);
    }
    forall n | n in s.cache ensures NetOwner(n) in w.g && n in s.config && RewrittenTo(w.g[NetOwner(n)], s.cache, s.config[n]) {
      BuiltIsRewritten(netKinds, w, s, n);
    }
  }

  lemma StillBuiltOk(g: Graph, cache: map<string, Net>, cache': map<string, Net>, server: Server, built: BuiltServer)
    requires BuiltServerOk(g, cache, server, built)
    requires forall n :: n in cache ==> n in cache' && cache'[n] == cache[n]
    ensures BuiltServerOk(g, cache', server, built)
  {
  }

  lemma BetweenAll(netKinds: Kinds, w: World, servers: seq<Server>, s: State)
    requires Between(netKinds, w, servers, |servers|, s)
    ensures CacheOk(netKinds, w.g, s.cache, s.order)
    ensures forall n :: n in s.cache <==> Needed(w.g, servers, |servers|, n)
  {
  }

  lemma CacheGrew(netKinds: Kinds, serverKinds: Kinds, w: World, s1: State, s2: State, server: Server,
                  cfg': NetCfg, nets: seq<Net>)
    requires BuildPost(netKinds, serverKinds, Some(w), s1, s2, ServerOwner(server.name), server.cfg, cfg', nets)
    ensures forall n :: n in s1.cache ==> n in s2.cache && s2.cache[n] == s1.cache[n]
  {
  }
}
