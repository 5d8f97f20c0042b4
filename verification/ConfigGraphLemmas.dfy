/** Facts about the flat graph and about single changes of the builder's state. */
module ConfigGraphLemmas {
  import opened ConfigGraph

  // ----- Paths.

  lemma PrependEdge(g: Graph, a: string, p: seq<string>)
    requires IsPath(g, p) && Edge(g, a, p[0])
    ensures IsPath(g, [a] + p)
  {
    var q := [a] + p;
    forall k | 0 <= k < |q| - 1 ensures Edge(g, q[k], q[k + 1]) {
      if k > 0 { assert q[k] == p[k - 1] && q[k + 1] == p[k]; }
    }
  }

  /** A blamed dependency is a blamed dependant; a dependant met again is on a cycle. */
  lemma BlameThroughEdge(kinds: Kinds, g: Graph, active: set<Owner>, a: string, m: string, e: Error)
    requires Edge(g, a, m)
    requires Blames(kinds, g, active + {NetOwner(a)}, m, e)
    ensures Blames(kinds, g, active, a, e)
  {
    var p, b :| PathTo(g, p, m, b) && Explains(kinds, g, active + {NetOwner(a)}, b, e);
    PrependEdge(g, a, p);
    var q := [a] + p;
    assert PathTo(g, q, a, b);
    if b == a {
      assert |q| > 1 && PathTo(g, q, a, a);
      assert OnCycle(g, b);
    }
    assert Explains(kinds, g, active, b, e);
  }

  lemma BlameSelf(kinds: Kinds, g: Graph, active: set<Owner>, n: string, e: Error)
    requires Explains(kinds, g, active, n, e)
    ensures Blames(kinds, g, active, n, e)
  {
    assert PathTo(g, [n], n, n);
  }

  lemma BlamedIsNotBuildable(kinds: Kinds, g: Graph, active: set<Owner>, n: string, e: Error)
    requires Blames(kinds, g, active, n, e)
    requires forall o :: o in active ==> o.ServerOwner?
    ensures !Buildable(kinds, g, n)
  {
    var p, b :| PathTo(g, p, n, b) && Explains(kinds, g, active, b, e);
    if NetOwner(b) in g && OwnFault(kinds, g[NetOwner(b)], e) {
      assert !NodeOk(kinds, g, b);
    }
  }

  // ----- A cache in dependency order proves its nets buildable.

  function IndexOf(order: seq<string>, n: string): (k: nat)
    requires n in order
    ensures k < |order| && order[k] == n
  {
    if order[0] == n then 0 else 1 + IndexOf(order[1..], n)
  }

  lemma EdgeLeadsEarlier(kinds: Kinds, g: Graph, cache: map<string, Net>, order: seq<string>, a: string, b: string)
    requires CacheOk(kinds, g, cache, order) && a in cache && Edge(g, a, b)
    ensures b in cache && IndexOf(order, b) < IndexOf(order, a)
  {
    var k := IndexOf(order, a);
    assert BuiltAt(kinds, g, cache, order, k);
    assert b in order[..k];
    var j :| 0 <= j < k && order[j] == b;
    assert IndexOf(order, b) == j;
  }

  lemma {:induction false} PathStaysCached(kinds: Kinds, g: Graph, cache: map<string, Net>, order: seq<string>,
                                           p: seq<string>, k: nat)
    requires CacheOk(kinds, g, cache, order) && IsPath(g, p) && p[0] in cache && k < |p|
    ensures p[k] in cache && IndexOf(order, p[k]) + k <= IndexOf(order, p[0])
  {
    if k > 0 {
      PathStaysCached(kinds, g, cache, order, p, k - 1);
      assert Edge(g, p[k - 1], p[k - 1 + 1]);
      EdgeLeadsEarlier(kinds, g, cache, order, p[k - 1], p[k]);
    }
  }

  lemma CachedIsBuildable(kinds: Kinds, g: Graph, cache: map<string, Net>, order: seq<string>, n: string)
    requires CacheOk(kinds, g, cache, order) && n in cache
    ensures Buildable(kinds, g, n)
  {
    forall p, b | PathTo(g, p, n, b) ensures NodeOk(kinds, g, b) && !OnCycle(g, b) {
      PathStaysCached(kinds, g, cache, order, p, |p| - 1);
      assert BuiltAt(kinds, g, cache, order, IndexOf(order, b));
      if OnCycle(g, b) {
        var q :| PathTo(g, q, b, b) && |q| > 1;
        PathStaysCached(kinds, g, cache, order, q, |q| - 1);
        assert false;
      }
    }
  }

  /** The flat graph alone decides what a name builds to, whatever was built before it. */
  lemma {:induction false} BuildIsDeterministic(kinds: Kinds, g: Graph, c1: map<string, Net>, o1: seq<string>,
                                                c2: map<string, Net>, o2: seq<string>, n: string)
    requires CacheOk(kinds, g, c1, o1) && CacheOk(kinds, g, c2, o2)
    requires n in c1 && n in c2
    ensures c1[n] == c2[n]
    decreases IndexOf(o1, n)
  {
    var k1, k2 := IndexOf(o1, n), IndexOf(o2, n);
    assert BuiltAt(kinds, g, c1, o1, k1) && BuiltAt(kinds, g, c2, o2, k2);
    var f := g[NetOwner(n)];
    forall i | 0 <= i < |f.fields| ensures c1[n].deps[i] == c2[n].deps[i] {
      var t := f.fields[i].target.name;
      assert Edge(g, n, t);
      EdgeLeadsEarlier(kinds, g, c1, o1, n, t);
      EdgeLeadsEarlier(kinds, g, c2, o2, n, t);
      BuildIsDeterministic(kinds, g, c1, o1, c2, o2, t);
    }
    assert c1[n].deps == c2[n].deps;
  }

  // ----- Single changes of the state keep the invariant.

  function Hoist(s: State, h: string, net: NetCfg): State {
    s.(config := s.config[h := net])
  }

  lemma HoistKeepsInv(kinds: Kinds, w: World, s: State, owner: Owner, i: int, h: string, net: NetCfg)
    requires Inv(kinds, w, s) && owner in s.active && Site(w.g, owner, i, h) && h !in s.config
    requires Unfolds(w.g, NetOwner(h), net)
    ensures Inv(kinds, w, Hoist(s, h, net)) && Grew(s, Hoist(s, h, net))
    ensures OtherSitesKept(w.g, s, Hoist(s, h, net), owner, i)
  {
  }

  function Begin(s: State, n: string): State {
    s.(config := s.config[n := PLACEHOLDER], active := s.active + {NetOwner(n)})
  }

  lemma BeginKeepsInv(kinds: Kinds, w: World, s: State, n: string)
    requires Inv(kinds, w, s) && n in s.config && n !in s.cache && NetOwner(n) !in s.active
    ensures Inv(kinds, w, Begin(s, n))
  {
  }

  function Finish(s: State, n: string, cfg: NetCfg, net: Net): State {
    State(s.config[n := cfg], s.cache[n := net], s.order + [n], s.active - {NetOwner(n)}, s.done + {NetOwner(n)})
  }

  /** `net` is the net the flat node of `n` describes, over what is already cached. */
  ghost predicate Assembled(g: Graph, cache: map<string, Net>, n: string, net: Net) {
    && NetOwner(n) in g
    && var f := g[NetOwner(n)];
    && net.name == n && net.typ == f.typ && net.data == f.data
    && |net.deps| == |f.fields|
    && forall i :: 0 <= i < |f.fields| ==>
         !f.fields[i].target.Broken? && f.fields[i].target.name in cache && net.deps[i] == cache[f.fields[i].target.name]
  }

  lemma FinishKeepsCacheOk(kinds: Kinds, g: Graph, s: State, n: string, cfg: NetCfg, net: Net)
    requires CacheOk(kinds, g, s.cache, s.order) && n !in s.cache
    requires NodeOk(kinds, g, n) && Assembled(g, s.cache, n, net)
    ensures CacheOk(kinds, g, Finish(s, n, cfg, net).cache, Finish(s, n, cfg, net).order)
  {
    var s' := Finish(s, n, cfg, net);
    forall k | 0 <= k < |s'.order| ensures BuiltAt(kinds, g, s'.cache, s'.order, k) {
      if k < |s.order| {
        assert BuiltAt(kinds, g, s.cache, s.order, k);
        assert s'.order[..k] == s.order[..k];
        assert s'.order[k] == s.order[k] != n;
      } else {
        assert s'.order[..k] == s.order;
      }
    }
  }

  lemma FinishKeepsConfigOk(kinds: Kinds, w: World, s: State, n: string, net: Net)
    requires Inv(kinds, w, s) && NetOwner(n) in s.active
    requires NodeOk(kinds, w.g, n)
    ensures ConfigOk(kinds, w, Finish(s, n, Rewritten(w.g[NetOwner(n)]), net))
  {
    hide CacheOk, Unfolds, World.Valid;
  }

  lemma FinishKeepsInv(kinds: Kinds, w: World, s: State, n: string, net: Net)
    requires Inv(kinds, w, s) && NetOwner(n) in s.active
    requires NodeOk(kinds, w.g, n) && Assembled(w.g, s.cache, n, net)
    ensures Inv(kinds, w, Finish(s, n, Rewritten(w.g[NetOwner(n)]), net))
  {
    FinishKeepsCacheOk(kinds, w.g, s, n, Rewritten(w.g[NetOwner(n)]), net);
    FinishKeepsConfigOk(kinds, w, s, n, net);
    hide CacheOk, Unfolds, World.Valid, ConfigOk, NodeOk, Assembled;
  }
}
