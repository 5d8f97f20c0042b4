/** Sorting map entries so that dependencies come first. */
module TopoSort {
  import opened Options

  datatype Result<T, E> = Ok(value: T) | Err(error: E)
  datatype RootType<K> = All | Keys(keys: seq<K>)
  datatype Node<K> = Item(key: K) | Root

  ghost predicate NoneReady<T(!new)>(nodes: set<T>, edges: set<(T, T)>) {
    forall n {:trigger Blocked(n, edges)} :: n in nodes ==> Blocked(n, edges)
  }

  ghost predicate Blocked<T(!new)>(n: T, edges: set<(T, T)>) {
    exists e :: e in edges && e.1 == n
  }

  /** The sorter that does the work: popping takes any node that has no predecessor left. */
  class Sorter<T(==, !new)> {
    var nodes: set<T>
    var edges: set<(T, T)>

    constructor ()
      ensures nodes == {} && edges == {}
    {
      nodes, edges := {}, {};
    }

    method AddDependency(before: T, after: T)
      modifies this
      ensures nodes == old(nodes) + {before, after}
      ensures edges == old(edges) + {(before, after)}
    {
      nodes, edges := nodes + {before, after}, edges + {(before, after)};
    }

    method Pop() returns (r: Option<T>)
      modifies this
      ensures r.None? ==> nodes == old(nodes) && edges == old(edges) && NoneReady(nodes, edges)
      ensures r.Some? ==> r.value in old(nodes) && forall e :: e in old(edges) ==> e.1 != r.value
      ensures r.Some? ==> nodes == old(nodes) - {r.value}
      ensures r.Some? ==> forall e :: e in edges <==> e in old(edges) && e.0 != r.value
    {
      var ready := set n | n in nodes && !exists e :: e in edges && e.1 == n;
      if ready == {} {
        forall n | n in nodes
          ensures Blocked(n, edges)
        {
          assert n !in ready;
        }
        return None;
      }
      var n :| n in ready;
      nodes, edges := nodes - {n}, set e | e in edges && e.0 != n;
      return Some(n);
    }
  }

  // ----- The graph that is sorted.

  type Graph<!K> = map<K, seq<K>>

  ghost predicate DependsOn<K>(g: Graph<K>, a: K, b: K) {
    a in g && b in g[a]
  }

  ghost predicate Walk<K>(g: Graph<K>, p: seq<K>) {
    forall i :: 0 <= i < |p| - 1 ==> DependsOn(g, p[i], p[i + 1])
  }

  /** A closed walk along dependencies. */
  ghost predicate Cycle<K>(g: Graph<K>, p: seq<K>) {
    |p| >= 2 && p[0] == p[|p| - 1] && Walk(g, p)
  }

  ghost predicate HasCycle<K(!new)>(g: Graph<K>) {
    exists p :: Cycle(g, p)
  }

  ghost predicate IsEdge<K(!new)>(g: Graph<K>, root: RootType<K>, a: Node<K>, b: Node<K>) {
    b.Item? && match a
               case Item(k) => DependsOn(g, k, b.key)
               case Root => if root.All? then b.key in g else b.key in root.keys
  }

  /** What is sorted: everything, or the given roots and what has or is a dependency. */
  ghost predicate IsNode<K(!new)>(g: Graph<K>, root: RootType<K>, k: K) {
    (if root.All? then k in g else k in root.keys) || (k in g && g[k] != []) || exists a :: DependsOn(g, a, k)
  }

  ghost predicate Distinct<T>(s: seq<T>) {
    forall i, j :: 0 <= i < j < |s| ==> s[i] != s[j]
  }

  /** Every node that depends on an entry of the list comes after it. */
  ghost predicate Ordered<K(!new)>(g: Graph<K>, list: seq<K>) {
    forall i, a :: 0 <= i < |list| && DependsOn(g, a, list[i]) ==> a in list[i + 1..]
  }

  /** Every dependency of an entry that is itself an entry comes before it. */
  ghost predicate Sorted<K(!new), V>(g: Graph<K>, list: seq<(K, V)>) {
    forall i, d :: 0 <= i < |list| && DependsOn(g, list[i].0, d) && d in g ==> d in Firsts(list[..i])
  }

  function Firsts<K, V>(list: seq<(K, V)>): (r: seq<K>)
    ensures |r| == |list| && forall i :: 0 <= i < |r| ==> r[i] == list[i].0
  {
    seq(|list|, i requires 0 <= i < |list| => list[i].0)
  }

  // ----- A list in order leaves no room for a cycle.

  lemma {:induction false} WalkDescends<K(!new)>(g: Graph<K>, list: seq<K>, p: seq<K>, at: nat)
    requires Ordered(g, list) && Distinct(list)
    requires |p| >= 2 && Walk(g, p)
    requires at < |list| && list[at] == p[|p| - 1]
    ensures exists i :: at < i < |list| && list[i] == p[0]
  {
    var q := p[..|p| - 1];
    var a := q[|q| - 1];
    assert DependsOn(g, a, p[|q|]) && a in list[at + 1..];
    var i :| at < i < |list| && list[i] == a;
    if |q| >= 2 { WalkDescends(g, list, q, i); }
  }

  lemma OrderedHasNoCycle<K(!new)>(g: Graph<K>, list: seq<K>)
    requires Ordered(g, list) && Distinct(list)
    requires forall a, b :: DependsOn(g, a, b) ==> b in list
    ensures !HasCycle(g)
  {
    forall p | Cycle(g, p)
      ensures false
    {
      assert DependsOn(g, p[|p| - 2], p[|p| - 1]);
      var at :| 0 <= at < |list| && list[at] == p[|p| - 1];
      WalkDescends(g, list, p, at);
    }
  }

  // ----- A graph that is stuck has a cycle.

  lemma {:induction false} DistinctIsSmall<T>(p: seq<T>, s: set<T>)
    requires Distinct(p) && forall x :: x in p ==> x in s
    ensures |p| <= |s|
  {
    if p != [] {
      var last := p[|p| - 1];
      DistinctIsSmall(p[..|p| - 1], s - {last});
    }
  }

  lemma WalkBack<K>(g: Graph<K>, a: K, p: seq<K>)
    requires p != [] && Walk(g, p) && DependsOn(g, a, p[0])
    ensures Walk(g, [a] + p)
  {
    var q := [a] + p;
    forall i | 0 <= i < |q| - 1
      ensures DependsOn(g, q[i], q[i + 1])
    {
      if i > 0 { assert DependsOn(g, p[i - 1], p[i]); }
    }
  }

  lemma WalkCloses<K(!new)>(g: Graph<K>, p: seq<K>, i: nat)
    requires 0 < i < |p| && p[i] == p[0] && Walk(g, p)
    ensures HasCycle(g)
  {
    var q := p[..i + 1];
    forall j | 0 <= j < |q| - 1
      ensures DependsOn(g, q[j], q[j + 1])
    {
      assert DependsOn(g, p[j], p[j + 1]);
    }
    assert Cycle(g, q);
  }

  ghost predicate HasPredecessor<K(!new)>(g: Graph<K>, s: set<K>, b: K) {
    exists a :: a in s && DependsOn(g, a, b)
  }

  ghost predicate Stuck<K(!new)>(g: Graph<K>, s: set<K>) {
    forall b {:trigger HasPredecessor(g, s, b)} :: b in s ==> HasPredecessor(g, s, b)
  }

  lemma Predecessor<K(!new)>(g: Graph<K>, s: set<K>, b: K) returns (a: K)
    requires Stuck(g, s) && b in s
    ensures a in s && DependsOn(g, a, b)
  {
    assert HasPredecessor(g, s, b);
    a :| a in s && DependsOn(g, a, b);
  }

  lemma DistinctCons<T>(a: T, p: seq<T>)
    requires Distinct(p) && a !in p
    ensures Distinct([a] + p)
  {
  }

  /** Walking backwards inside a finite set in which every node has a predecessor must close a circle. */
  lemma {:induction false} StuckHasCycle<K(!new)>(g: Graph<K>, s: set<K>, p: seq<K>)
    requires Stuck(g, s) && Walk(g, p)
    requires p != [] && Distinct(p) && forall x :: x in p ==> x in s
    ensures HasCycle(g)
    decreases |s| - |p|
  {
    hide *;
    assert p[0] in s;
    var a := Predecessor(g, s, p[0]);
    WalkBack(g, a, p);
    var q := [a] + p;
    if a in p {
      var i :| 0 <= i < |p| && p[i] == a;
      WalkCloses(g, q, i + 1);
    } else {
      DistinctCons(a, p);
      DistinctIsSmall(q, s);
      StuckHasCycle(g, s, q);
    }
  }

  // ----- The sort itself.

  ghost predicate AllOk<K, V, E>(m: map<K, V>, getDeps: (K, V) -> Result<seq<K>, E>) {
    forall k :: k in m ==> getDeps(k, m[k]).Ok?
  }

  ghost function GraphOf<K, V, E>(m: map<K, V>, getDeps: (K, V) -> Result<seq<K>, E>): (g: Graph<K>)
    requires AllOk(m, getDeps)
    ensures g.Keys == m.Keys && forall k :: k in m ==> g[k] == getDeps(k, m[k]).value
  {
    map k | k in m :: getDeps(k, m[k]).value
  }

  ghost predicate Filled<K(!new)>(sorter: Sorter<Node<K>>, g: Graph<K>, root: RootType<K>)
    reads sorter
  {
    (forall k :: Item(k) in sorter.nodes <==> IsNode(g, root, k))
    && (forall a, b :: (a, b) in sorter.edges <==> IsEdge(g, root, a, b))
    && (forall a, b :: (a, b) in sorter.edges ==> a in sorter.nodes)
  }

  method AddItem<K(==, !new)>(sorter: Sorter<Node<K>>, ghost g: Graph<K>, all: bool, k: K, deps: seq<K>)
    requires k !in g
    requires Filled(sorter, g, if all then All else Keys([]))
    modifies sorter
    ensures Filled(sorter, g[k := deps], if all then All else Keys([]))
  {
    ghost var root := if all then All else Keys([]);
    ghost var nodes, edges := sorter.nodes, sorter.edges;
    ghost var h := g[k := deps];
    var i := 0;
    while i < |deps|
      invariant 0 <= i <= |deps|
      invariant forall x :: Item(x) in sorter.nodes <==> Item(x) in nodes || (i > 0 && x == k) || x in deps[..i]
      invariant forall a, b :: (a, b) in sorter.edges <==> (a, b) in edges || (a == Item(k) && b.Item? && b.key in deps[..i])
      invariant nodes <= sorter.nodes && forall a, b :: (a, b) in sorter.edges ==> a in sorter.nodes
    {
      sorter.AddDependency(Item(k), Item(deps[i]));
      assert deps[..i + 1] == deps[..i] + [deps[i]];
      i := i + 1;
    }
    assert deps[..i] == deps;
    if all {
      sorter.AddDependency(Root, Item(k));
    }
    GrownNodes(g, root, k, deps);
  }

  lemma GrownNodes<K(!new)>(g: Graph<K>, root: RootType<K>, k: K, deps: seq<K>)
    requires k !in g
    ensures forall a, b :: DependsOn(g[k := deps], a, b) <==> DependsOn(g, a, b) || (a == k && b in deps)
    ensures forall x :: IsNode(g[k := deps], root, x) <==>
                        IsNode(g, root, x) || (x == k && (root.All? || deps != [])) || x in deps
  {
    var h := g[k := deps];
    forall a, b
      ensures DependsOn(h, a, b) <==> DependsOn(g, a, b) || (a == k && b in deps)
    {
      if a == k { assert h[a] == deps; } else { assert a in h <==> a in g; }
    }
    forall x
      ensures IsNode(h, root, x) <==> IsNode(g, root, x) || (x == k && (root.All? || deps != [])) || x in deps
    {
      if x in deps { assert DependsOn(h, k, x); }
      if a :| DependsOn(g, a, x) { assert DependsOn(h, a, x); }
      if a :| DependsOn(h, a, x) { assert DependsOn(g, a, x) || x in deps; }
    }
  }

  /** The graph, once every entry of the map has been added, or the error of an entry. */
  method Fill<K(==, !new), V, E>(sorter: Sorter<Node<K>>, root: RootType<K>, m: map<K, V>,
                                 getDeps: (K, V) -> Result<seq<K>, E>)
    returns (error: Option<E>)
    requires sorter.nodes == {} && sorter.edges == {}
    modifies sorter
    ensures error.Some? ==> exists k :: k in m && getDeps(k, m[k]) == Err(error.value)
    ensures error.None? ==> AllOk(m, getDeps) && Filled(sorter, GraphOf(m, getDeps), root)
  {
    ghost var g: Graph<K> := map[];
    var todo := m.Keys;
    while todo != {}
      invariant todo <= m.Keys && g.Keys == m.Keys - todo
      invariant forall k :: k in g ==> getDeps(k, m[k]) == Ok(g[k])
      invariant Filled(sorter, g, if root.All? then All else Keys([]))
    {
      var k :| k in todo;
      var found := getDeps(k, m[k]);
      match found {
        case Err(e) => return Some(e);
        case Ok(deps) => AddItem(sorter, g, root.All?, k, deps);
      }
      g := g[k := found.value];
      todo := todo - {k};
    }
    assert g == GraphOf(m, getDeps);
    if root.Keys? {
      AddRoots(sorter, g, root.keys);
    }
    return None;
  }

  method AddRoots<K(==, !new)>(sorter: Sorter<Node<K>>, ghost g: Graph<K>, keys: seq<K>)
    requires Filled(sorter, g, Keys([]))
    modifies sorter
    ensures Filled(sorter, g, Keys(keys))
  {
    ghost var nodes, edges := sorter.nodes, sorter.edges;
    var i := 0;
    while i < |keys|
      invariant 0 <= i <= |keys|
      invariant forall x :: Item(x) in sorter.nodes <==> Item(x) in nodes || x in keys[..i]
      invariant forall a, b :: (a, b) in sorter.edges <==> (a, b) in edges || (a == Root && b.Item? && b.key in keys[..i])
      invariant nodes <= sorter.nodes && forall a, b :: (a, b) in sorter.edges ==> a in sorter.nodes
    {
      sorter.AddDependency(Root, Item(keys[i]));
      assert keys[..i + 1] == keys[..i] + [keys[i]];
      i := i + 1;
    }
    assert keys[..i] == keys;
  }

  lemma PushFront<K(!new)>(g: Graph<K>, k: K, list: seq<K>)
    requires Ordered(g, list) && Distinct(list) && k !in list
    requires forall a :: DependsOn(g, a, k) ==> a in list
    ensures Ordered(g, [k] + list) && Distinct([k] + list)
  {
    var l := [k] + list;
    forall i, a | 0 <= i < |l| && DependsOn(g, a, l[i])
      ensures a in l[i + 1..]
    {
      if i > 0 { assert l[i + 1..] == list[i..]; } else { assert l[1..] == list; }
    }
  }

  /** Popping until nothing is ready leaves nothing, or a cycle. */
  method PopAll<K(==, !new)>(sorter: Sorter<Node<K>>, ghost g: Graph<K>, ghost root: RootType<K>)
    returns (list: seq<K>)
    requires Filled(sorter, g, root)
    modifies sorter
    ensures sorter.nodes != {} ==> HasCycle(g)
    ensures sorter.nodes == {} ==> Ordered(g, list) && Distinct(list) && forall k :: k in list <==> IsNode(g, root, k)
  {
    hide HasCycle, Ordered, Distinct, NoneReady;
    ghost var nodes, edges := sorter.nodes, sorter.edges;
    list := [];
    NothingToOrder(g);
    var going := true;
    while going
      invariant sorter.nodes <= nodes
      invariant forall a, b :: (a, b) in sorter.edges <==> (a, b) in edges && a in sorter.nodes
      invariant Ordered(g, list) && Distinct(list)
      invariant forall k :: k in list <==> Item(k) in nodes && Item(k) !in sorter.nodes
      invariant !going ==> NoneReady(sorter.nodes, sorter.edges)
      decreases going, |sorter.nodes|
    {
      ghost var before := sorter.edges;
      var popped := sorter.Pop();
      match popped {
        case None => going := false;
        case Some(Root) =>
        case Some(Item(k)) =>
          forall a | DependsOn(g, a, k)
            ensures a in list
          {
            assert (Item(a), Item(k)) in edges && IsNode(g, root, a);
            assert (Item(a), Item(k)).1 == Item(k) && (Item(a), Item(k)) !in before;
          }
          PushFront(g, k, list);
          list := [k] + list;
      }
    }
    if sorter.nodes != {} {
      NothingReady(g, root, sorter.nodes, sorter.edges, edges);
    }
  }

  lemma NothingToOrder<K(!new)>(g: Graph<K>)
    ensures Ordered(g, []) && Distinct<K>([])
  {
  }

  lemma NothingReady<K(!new)>(g: Graph<K>, root: RootType<K>, nodes: set<Node<K>>, edges: set<(Node<K>, Node<K>)>,
                              all: set<(Node<K>, Node<K>)>)
    requires nodes != {} && NoneReady(nodes, edges)
    requires forall a, b :: (a, b) in edges <==> (a, b) in all && a in nodes
    requires forall a, b :: (a, b) in all <==> IsEdge(g, root, a, b)
    ensures HasCycle(g)
  {
    forall n | n in nodes
      ensures n.Item?
    {
      assert Blocked(n, edges);
      var e :| e in edges && e.1 == n;
      assert (e.0, e.1) in all;
    }
    var s := set n | n in nodes :: n.key;
    forall b | b in s
      ensures HasPredecessor(g, s, b)
    {
      assert Item(b) in nodes;
      assert Blocked(Item(b), edges);
      var e :| e in edges && e.1 == Item(b);
      assert (e.0, e.1) in edges && e.0 in nodes;
      assert DependsOn(g, e.0.key, b);
    }
    var n :| n in nodes;
    StuckHasCycle(g, s, [n.key]);
  }

  /** The entries of the list that the map has, in the order of the list. */
  method TakeEntries<K(==, !new), V>(list: seq<K>, m: map<K, V>, ghost g: Graph<K>) returns (out: seq<(K, V)>)
    requires g.Keys == m.Keys && Ordered(g, list) && Distinct(list)
    requires forall a, d :: DependsOn(g, a, d) ==> d in list
    ensures Distinct(Firsts(out)) && forall k :: k in Firsts(out) <==> k in list && k in m
    ensures forall e :: e in out ==> e.0 in m && e.1 == m[e.0]
    ensures Sorted(g, out)
  {
    var left := m;
    out := [];
    var i := 0;
    while i < |list|
      invariant 0 <= i <= |list|
      invariant forall k :: k in left <==> k in m && k !in list[..i]
      invariant forall k :: k in left ==> left[k] == m[k]
      invariant Distinct(Firsts(out)) && forall k :: k in Firsts(out) <==> k in list[..i] && k in m
      invariant forall e :: e in out ==> e.0 in m && e.1 == m[e.0]
      invariant Sorted(g, out)
    {
      var k := list[i];
      assert k !in list[..i];
      assert list[..i + 1] == list[..i] + [k];
      if k in left {
        forall d | DependsOn(g, k, d) && d in g
          ensures d in Firsts(out)
        {
          var j :| 0 <= j < |list| && list[j] == d;
          assert k in list[j + 1..];
          assert d in list[..i];
        }
        Append(g, out, (k, left[k]));
        out := out + [(k, left[k])];
        left := left - {k};
      }
      i := i + 1;
    }
    assert list[..i] == list;
  }

  lemma Append<K(!new), V>(g: Graph<K>, out: seq<(K, V)>, e: (K, V))
    requires Sorted(g, out) && forall d :: DependsOn(g, e.0, d) && d in g ==> d in Firsts(out)
    requires Distinct(Firsts(out)) && e.0 !in Firsts(out)
    ensures Sorted(g, out + [e]) && Distinct(Firsts(out + [e]))
    ensures Firsts(out + [e]) == Firsts(out) + [e.0]
  {
    var next := out + [e];
    assert Firsts(next) == Firsts(out) + [e.0];
    forall i, d | 0 <= i < |next| && DependsOn(g, next[i].0, d) && d in g
      ensures d in Firsts(next[..i])
    {
      assert next[..i] == out[..i];
      if i == |out| { assert out[..i] == out; }
    }
  }

  /** An error is some entry's. There is no result exactly if the dependencies have a cycle; otherwise each
      entry comes at most once, after the entries that it depends on, and an entry is missing only if
      particular roots were given and it is none of them, has no dependency and is none. */
  method TopologicalSort<K(==, !new), V, E>(root: RootType<K>, m: map<K, V>, getDeps: (K, V) -> Result<seq<K>, E>)
    returns (r: Result<Option<seq<(K, V)>>, E>)
    ensures r.Ok? <==> AllOk(m, getDeps)
    ensures r.Err? ==> exists k :: k in m && getDeps(k, m[k]) == Err(r.error)
    ensures r.Ok? ==> (r.value.None? <==> HasCycle(GraphOf(m, getDeps)))
    ensures r.Ok? && r.value.Some? ==>
      var g, list := GraphOf(m, getDeps), r.value.value;
      && Sorted(g, list)
      && Distinct(Firsts(list))
      && (forall e :: e in list ==> e.0 in m && e.1 == m[e.0])
      && (forall k :: k in Firsts(list) <==> k in m && IsNode(g, root, k))
      && (root.All? ==> forall k :: k in Firsts(list) <==> k in m)
  {
    var sorter := new Sorter<Node<K>>();
    var error := Fill(sorter, root, m, getDeps);
    if error.Some? {
      return Err(error.value);
    }
    ghost var g := GraphOf(m, getDeps);
    var list := PopAll(sorter, g, root);
    if sorter.nodes != {} {
      return Ok(None);
    }
    assert forall a, b :: DependsOn(g, a, b) ==> IsNode(g, root, b);
    OrderedHasNoCycle(g, list);
    var out := TakeEntries(list, m, g);
    return Ok(Some(out));
  }
}
