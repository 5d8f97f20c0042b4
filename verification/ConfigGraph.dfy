/** The config-graph builder: named nets that refer to each other by name or contain each other inline
    are built depth first with memoisation. Inline nets are hoisted to generated names. A cycle is met
    as a placeholder of an unregistered type, because a net under construction is swapped for one. */
module ConfigGraph {

  type Path = seq<string>

  /** A net reference as configured: a name, a nested net, or a value that is no net at all. */
  datatype Ref = Name(name: string) | Inline(net: NetCfg) | Garbage

  /** One reference of a config, in visiting order, with the visitor's path to it. */
  datatype Field = Field(path: Path, ref: Ref)

  /** A configured net: its type, its references, and everything else as one opaque text. */
  datatype NetCfg = NetCfg(typ: string, data: string, fields: seq<Field>)

  const PLACEHOLDER_TYPE := "circular reference"
  const PLACEHOLDER := NetCfg(PLACEHOLDER_TYPE, "", [])

  /** A registered type: which options it can read, and from which it can make an object. */
  datatype Kind = Kind(parses: string -> bool, builds: string -> bool)

  type Kinds = map<string, Kind>

  /** A running net, holding the running nets its references were resolved to. */
  datatype Net = Net(name: string, typ: string, data: string, deps: seq<Net>)

  datatype Error =
    | NotFound(name: string)
    | UnknownType(typ: string)
    | BadOption
    | BadRef
    | BuildFailed

  datatype Outcome<+T> = Ok(value: T) | Fail(error: Error)

  /** Whose config holds a reference: it gives the first half of a generated name. */
  datatype Owner = NetOwner(name: string) | ServerOwner(name: string) {
    function Prefix(): Path {
      match this
      case NetOwner(n) => ["net", n]
      case ServerOwner(n) => ["server", n]
    }
  }

  function Join(parts: Path, sep: string): string {
    if parts == [] then ""
    else if |parts| == 1 then parts[0]
    else parts[0] + sep + Join(parts[1..], sep)
  }

  function GeneratedName(owner: Owner, path: Path): string {
    Join(owner.Prefix() + path, "/")
  }

  // ----- The flat graph a config stands for: every net, hoisted ones included, with named edges.

  datatype Target = Named(name: string) | Hoisted(name: string) | Broken
  datatype FlatField = FlatField(path: Path, target: Target)
  datatype Flat = Flat(typ: string, data: string, fields: seq<FlatField>)

  type Graph = map<Owner, Flat>

  ghost predicate Unfolds(g: Graph, owner: Owner, cfg: NetCfg)
    decreases cfg
  {
    && owner in g
    && g[owner].typ == cfg.typ
    && g[owner].data == cfg.data
    && |g[owner].fields| == |cfg.fields|
    && forall i :: 0 <= i < |cfg.fields| ==> FieldUnfolds(g, owner, cfg.fields[i], g[owner].fields[i])
  }

  ghost predicate FieldUnfolds(g: Graph, owner: Owner, field: Field, flat: FlatField)
    decreases field
  {
    && flat.path == field.path
    && match field.ref
       case Name(n) => flat.target == Named(n)
       case Garbage => flat.target == Broken
       case Inline(net) =>
         && flat.target == Hoisted(GeneratedName(owner, field.path))
         && Unfolds(g, NetOwner(GeneratedName(owner, field.path)), net)
  }

  ghost predicate Site(g: Graph, owner: Owner, i: int, name: string) {
    owner in g && 0 <= i < |g[owner].fields| && g[owner].fields[i].target == Hoisted(name)
  }

  ghost predicate Mentions(g: Graph, owner: Owner, i: int, name: string) {
    owner in g && 0 <= i < |g[owner].fields| && g[owner].fields[i].target == Named(name)
  }

  /** Generated names are fresh: no two inline nets share one, and the user wrote none of them. */
  ghost predicate Fresh(g: Graph, nets: map<string, NetCfg>) {
    && (forall o, i, h :: Site(g, o, i, h) ==> h !in nets)
    && (forall o, i, o', i', h :: Site(g, o, i, h) && Site(g, o', i', h) ==> o == o' && i == i')
    && (forall o, i, o', i', n :: Mentions(g, o, i, n) ==> !Site(g, o', i', n))
  }

  /** A config as the user wrote it, with the flat graph it unfolds to. */
  datatype World = World(nets: map<string, NetCfg>, servers: map<string, NetCfg>, g: Graph) {
    ghost predicate Valid() {
      && (forall n :: n in nets ==> Unfolds(g, NetOwner(n), nets[n]))
      && (forall s :: s in servers ==> Unfolds(g, ServerOwner(s), servers[s]))
      && (forall n :: NetOwner(n) in g && n !in nets ==> exists o, i :: Site(g, o, i, n))
      && Fresh(g, nets)
    }
  }

  ghost predicate FlatOk(kinds: Kinds, f: Flat) {
    && f.typ in kinds
    && kinds[f.typ].parses(f.data)
    && kinds[f.typ].builds(f.data)
    && forall i :: 0 <= i < |f.fields| ==> !f.fields[i].target.Broken?
  }

  ghost predicate NodeOk(kinds: Kinds, g: Graph, n: string) {
    NetOwner(n) in g && FlatOk(kinds, g[NetOwner(n)])
  }

  ghost predicate PointsTo(f: Flat, b: string) {
    exists i :: 0 <= i < |f.fields| && !f.fields[i].target.Broken? && f.fields[i].target.name == b
  }

  ghost predicate Edge(g: Graph, a: string, b: string) {
    NetOwner(a) in g && PointsTo(g[NetOwner(a)], b)
  }

  ghost predicate IsPath(g: Graph, p: seq<string>) {
    p != [] && forall k :: 0 <= k < |p| - 1 ==> Edge(g, p[k], p[k + 1])
  }

  ghost predicate PathTo(g: Graph, p: seq<string>, a: string, b: string) {
    IsPath(g, p) && p[0] == a && p[|p| - 1] == b
  }

  ghost predicate OnCycle(g: Graph, n: string) {
    exists p :: PathTo(g, p, n, n) && |p| > 1
  }

  /** What makes a net buildable: everything it reaches exists, is registered,
      builds, and is on no cycle. */
  ghost predicate Buildable(kinds: Kinds, g: Graph, n: string) {
    forall p, b :: PathTo(g, p, n, b) ==> NodeOk(kinds, g, b) && !OnCycle(g, b)
  }

  // ----- Why a build fails.

  ghost predicate OwnFault(kinds: Kinds, f: Flat, e: Error) {
    match e
    case NotFound(_) => false
    case UnknownType(t) => t == f.typ && t !in kinds
    case BadOption => f.typ in kinds && !kinds[f.typ].parses(f.data)
    case BadRef => exists i :: 0 <= i < |f.fields| && f.fields[i].target.Broken?
    case BuildFailed => f.typ in kinds && !kinds[f.typ].builds(f.data)
  }

  /** Error `e` is explained by net `b`: it is missing, at fault itself, on a cycle, or under
      construction. The last two show as the placeholder's type. */
  ghost predicate Explains(kinds: Kinds, g: Graph, active: set<Owner>, b: string, e: Error) {
    || (e == NotFound(b) && NetOwner(b) !in g)
    || (NetOwner(b) in g && OwnFault(kinds, g[NetOwner(b)], e))
    || (e == UnknownType(PLACEHOLDER_TYPE) && (OnCycle(g, b) || NetOwner(b) in active))
  }

  ghost predicate Blames(kinds: Kinds, g: Graph, active: set<Owner>, n: string, e: Error) {
    exists p, b :: PathTo(g, p, n, b) && Explains(kinds, g, active, b, e)
  }

  // ----- The builder's state and its invariant.

  /** `order` lists the cache in insertion order; `active` owners are under construction. */
  datatype State = State(config: map<string, NetCfg>, cache: map<string, Net>,
                         order: seq<string>, active: set<Owner>, done: set<Owner>)

  function Rewritten(f: Flat): NetCfg
    requires forall i :: 0 <= i < |f.fields| ==> !f.fields[i].target.Broken?
  {
    NetCfg(f.typ, f.data,
           seq(|f.fields|, i requires 0 <= i < |f.fields| => Field(f.fields[i].path, Name(f.fields[i].target.name))))
  }

  /** Entry k of the cache is a finished net whose references are earlier cache entries. */
  ghost predicate BuiltAt(kinds: Kinds, g: Graph, cache: map<string, Net>, order: seq<string>, k: int)
    requires 0 <= k < |order|
  {
    var n := order[k];
    && NodeOk(kinds, g, n)
    && n in cache
    && var f := g[NetOwner(n)];
    && cache[n].name == n && cache[n].typ == f.typ && cache[n].data == f.data
    && |cache[n].deps| == |f.fields|
    && forall i :: 0 <= i < |f.fields| ==>
         && f.fields[i].target.name in order[..k]
         && f.fields[i].target.name in cache
         && cache[n].deps[i] == cache[f.fields[i].target.name]
  }

  ghost predicate CacheOk(kinds: Kinds, g: Graph, cache: map<string, Net>, order: seq<string>) {
    && (forall n :: n in cache <==> n in order)
    && (forall i, j :: 0 <= i < j < |order| ==> order[i] != order[j])
    && (forall k :: 0 <= k < |order| ==> BuiltAt(kinds, g, cache, order, k))
  }

  ghost predicate ConfigOk(kinds: Kinds, w: World, s: State) {
    && w.nets.Keys <= s.config.Keys
    && (forall n :: n in s.config ==> NetOwner(n) in w.g)
    && (forall n :: NetOwner(n) in s.active ==> n in s.config && s.config[n] == PLACEHOLDER)
    && (forall n :: n in s.config && NetOwner(n) !in s.active && n !in s.cache ==>
          Unfolds(w.g, NetOwner(n), s.config[n]))
    && (forall n :: n in s.cache ==> n in s.config && NodeOk(kinds, w.g, n) && s.config[n] == Rewritten(w.g[NetOwner(n)]))
  }

  ghost predicate Inv(kinds: Kinds, w: World, s: State) {
    && w.Valid()
    && PLACEHOLDER_TYPE !in kinds
    && CacheOk(kinds, w.g, s.cache, s.order)
    && ConfigOk(kinds, w, s)
    && s.active !! s.done
    && (forall n :: n in s.cache <==> NetOwner(n) in s.done)
    && (forall o, i, h :: Site(w.g, o, i, h) && o !in s.active && o !in s.done ==> h !in s.config)
  }

  /** What a completed call leaves behind: the cache grew, nothing under construction was disturbed. */
  ghost predicate Grew(s: State, s': State) {
    && s'.active == s.active
    && s.done <= s'.done
    && (forall n :: ServerOwner(n) in s'.done ==> ServerOwner(n) in s.done)
    && s.order <= s'.order
    && s.config.Keys <= s'.config.Keys
    && (forall n :: n in s.cache ==> n in s'.cache && s'.cache[n] == s.cache[n])
  }

  ghost predicate SitesKept(g: Graph, s: State, s': State, skip: Owner) {
    forall o, i, h :: Site(g, o, i, h) && o in s.active && o != skip && h in s'.config ==> h in s.config
  }

  ghost predicate OtherSitesKept(g: Graph, s: State, s': State, skip: Owner, at: int) {
    forall o, i, h :: Site(g, o, i, h) && o in s.active && (o != skip || i != at) && h in s'.config ==> h in s.config
  }

  ghost predicate ReachedFrom(g: Graph, owner: Owner, n: string) {
    owner in g && exists t, p :: PointsTo(g[owner], t) && PathTo(g, p, t, n)
  }

  /** Only what the config of `owner` leads to was built. */
  ghost predicate NewReached(g: Graph, s: State, s': State, owner: Owner) {
    forall n :: n in s'.cache && n !in s.cache ==> ReachedFrom(g, owner, n)
  }
}
