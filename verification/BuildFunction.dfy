/** The builder as a function of the config, whatever its names: what is looked up, built, stored and
    returned, in order. The methods compute it on every config; where generated names collide, it says
    what happens. */
module BuildFunction {
  import opened ConfigGraph
  import opened Options

  /** The two maps the builder works on. */
  datatype Store = Store(config: map<string, NetCfg>, cache: map<string, Net>)

  datatype Got = Got(res: Outcome<Net>, ref: Ref, s: Store)
  datatype Visited = Visited(res: Outcome<seq<Net>>, fields: seq<Field>, s: Store)
  datatype Built = Built(res: Outcome<seq<Net>>, cfg: NetCfg, s: Store)

  function Lookup(s: Store, ref: Ref, path: Path, owner: Owner): (string, Store)
    requires !ref.Garbage?
  {
    match ref
    case Name(n) => (n, s)
    case Inline(net) =>
      var h := GeneratedName(owner, path);
      (h, s.(config := s.config[h := net]))
  }

  function Started(s: Store, name: string): Store {
    s.(config := s.config[name := PLACEHOLDER])
  }

  function Finished(s: Store, name: string, cfg: NetCfg, net: Net): Store {
    Store(s.config[name := cfg], s.cache[name := net])
  }

  /** One reference, with nets nested at most `d` deep below it; `None` is to ask for more depth. */
  function EvalRef(kinds: Kinds, d: nat, s: Store, ref: Ref, path: Path, owner: Owner): Option<Got>
    decreases d, 0, 1
  {
    if ref.Garbage? then Some(Got(Fail(BadRef), ref, s))
    else
      var (name, s1) := Lookup(s, ref, path, owner);
      if name in s1.cache then Some(Got(Ok(s1.cache[name]), Name(name), s1))
      else if name !in s1.config then Some(Got(Fail(NotFound(name)), Name(name), s1))
      else EvalName(kinds, d, s1, name)
  }

  function EvalName(kinds: Kinds, d: nat, s: Store, name: string): Option<Got>
    requires name in s.config
    decreases d, 0, 0
  {
    if d == 0 then None
    else
      var cfg := s.config[name];
      match EvalCfg(kinds, kinds, d - 1, Started(s, name), NetOwner(name), cfg)
      case None => None
      case Some(b) =>
        if b.res.Fail? then Some(Got(Fail(b.res.error), Name(name), b.s))
        else
          var net := Net(name, cfg.typ, cfg.data, b.res.value);
          Some(Got(Ok(net), Name(name), Finished(b.s, name, b.cfg, net)))
  }

  function EvalCfg(netKinds: Kinds, kinds: Kinds, d: nat, s: Store, owner: Owner, cfg: NetCfg): Option<Built>
    decreases d, 2, 0
  {
    if cfg.typ !in kinds then Some(Built(Fail(UnknownType(cfg.typ)), cfg, s))
    else if !kinds[cfg.typ].parses(cfg.data) then Some(Built(Fail(BadOption), cfg, s))
    else
      match EvalFields(netKinds, d, s, owner, cfg.fields)
      case None => None
      case Some(v) =>
        if v.res.Fail? then Some(Built(v.res, cfg, v.s))
        else if !kinds[cfg.typ].builds(cfg.data) then Some(Built(Fail(BuildFailed), cfg.(fields := v.fields), v.s))
        else Some(Built(v.res, cfg.(fields := v.fields), v.s))
  }

  function EvalFields(kinds: Kinds, d: nat, s: Store, owner: Owner, fields: seq<Field>): Option<Visited>
    decreases d, 1, |fields|
  {
    if fields == [] then Some(Visited(Ok([]), [], s))
    else
      match EvalRef(kinds, d, s, fields[0].ref, fields[0].path, owner)
      case None => None
      case Some(g) =>
        if g.res.Fail? then Some(Visited(Fail(g.res.error), [], g.s))
        else Prepend([g.res.value], [Field(fields[0].path, g.ref)], EvalFields(kinds, d, g.s, owner, fields[1..]))
  }

  /** A visit that goes on after these references. */
  function Prepend(nets: seq<Net>, fields: seq<Field>, v: Option<Visited>): Option<Visited> {
    if v.None? then None
    else
      var rest := v.value;
      Some(Visited(if rest.res.Ok? then Ok(nets + rest.res.value) else rest.res, fields + rest.fields, rest.s))
  }

  lemma PrependTwice(n1: seq<Net>, f1: seq<Field>, n2: seq<Net>, f2: seq<Field>, v: Option<Visited>)
    ensures Prepend(n1, f1, Prepend(n2, f2, v)) == Prepend(n1 + n2, f1 + f2, v)
  {
    if v.Some? {
      var rest := v.value;
      if rest.res.Ok? { assert n1 + (n2 + rest.res.value) == n1 + n2 + rest.res.value; }
      assert f1 + (f2 + rest.fields) == f1 + f2 + rest.fields;
    }
  }

  lemma PrependNothing(v: Option<Visited>)
    ensures Prepend([], [], v) == v
  {
    if v.Some? {
      var rest := v.value;
      if rest.res.Ok? { assert [] + rest.res.value == rest.res.value; }
      assert [] + rest.fields == rest.fields;
    }
  }

  // ----- More depth changes nothing.

  lemma {:induction false} RefNeedsNoMore(kinds: Kinds, d: nat, e: nat, s: Store, ref: Ref, path: Path, owner: Owner)
    requires d <= e && EvalRef(kinds, d, s, ref, path, owner).Some?
    ensures EvalRef(kinds, e, s, ref, path, owner) == EvalRef(kinds, d, s, ref, path, owner)
    decreases d, 0, 0
  {
    if !ref.Garbage? {
      var (name, s1) := Lookup(s, ref, path, owner);
      if name !in s1.cache && name in s1.config {
        CfgNeedsNoMore(kinds, kinds, d - 1, e - 1, Started(s1, name), NetOwner(name), s1.config[name]);
      }
    }
  }

  lemma {:induction false} CfgNeedsNoMore(netKinds: Kinds, kinds: Kinds, d: nat, e: nat, s: Store, owner: Owner, cfg: NetCfg)
    requires d <= e && EvalCfg(netKinds, kinds, d, s, owner, cfg).Some?
    ensures EvalCfg(netKinds, kinds, e, s, owner, cfg) == EvalCfg(netKinds, kinds, d, s, owner, cfg)
    decreases d, 2, 0
  {
    if cfg.typ in kinds && kinds[cfg.typ].parses(cfg.data) {
      FieldsNeedNoMore(netKinds, d, e, s, owner, cfg.fields);
    }
  }

  lemma {:induction false} FieldsNeedNoMore(kinds: Kinds, d: nat, e: nat, s: Store, owner: Owner, fields: seq<Field>)
    requires d <= e && EvalFields(kinds, d, s, owner, fields).Some?
    ensures EvalFields(kinds, e, s, owner, fields) == EvalFields(kinds, d, s, owner, fields)
    decreases d, 1, |fields|
  {
    if fields != [] {
      RefNeedsNoMore(kinds, d, e, s, fields[0].ref, fields[0].path, owner);
      var g := EvalRef(kinds, d, s, fields[0].ref, fields[0].path, owner).value;
      if g.res.Ok? { FieldsNeedNoMore(kinds, d, e, g.s, owner, fields[1..]); }
    }
  }

  // ----- Steps of the methods.

  lemma RefOfName(kinds: Kinds, d: nat, s: Store, ref: Ref, path: Path, owner: Owner)
    requires !ref.Garbage?
    ensures var (name, s1) := Lookup(s, ref, path, owner);
            && (name in s1.cache ==> EvalRef(kinds, d, s, ref, path, owner) == Some(Got(Ok(s1.cache[name]), Name(name), s1)))
            && (name !in s1.cache && name !in s1.config ==>
                  EvalRef(kinds, d, s, ref, path, owner) == Some(Got(Fail(NotFound(name)), Name(name), s1)))
            && (name !in s1.cache && name in s1.config ==>
                  EvalRef(kinds, d, s, ref, path, owner) == EvalName(kinds, d, s1, name))
  {
  }

  /** One more reference of a visit that has come as far as the i-th. */
  lemma VisitsOne(kinds: Kinds, d: nat, s: Store, owner: Owner, fields: seq<Field>, i: nat, nets: seq<Net>,
                  done: seq<Field>, g: Got)
    requires i < |fields| && EvalRef(kinds, d, s, fields[i].ref, fields[i].path, owner) == Some(g)
    ensures g.res.Fail? ==>
              Prepend(nets, done, EvalFields(kinds, d, s, owner, fields[i..])) == Some(Visited(Fail(g.res.error), done, g.s))
    ensures g.res.Ok? ==>
              Prepend(nets, done, EvalFields(kinds, d, s, owner, fields[i..])) ==
              Prepend(nets + [g.res.value], done + [Field(fields[i].path, g.ref)],
                      EvalFields(kinds, d, g.s, owner, fields[i + 1..]))
  {
    var rest := fields[i..];
    assert rest[0] == fields[i] && rest[1..] == fields[i + 1..];
    hide EvalRef;
    if g.res.Ok? {
      PrependTwice(nets, done, [g.res.value], [Field(fields[i].path, g.ref)],
                   EvalFields(kinds, d, g.s, owner, fields[i + 1..]));
    } else {
      assert done + [] == done;
    }
  }

  /** However deep one may look, the visit has come as far as the i-th reference, and is in state `s`. */
  ghost predicate Reaches(kinds: Kinds, d: nat, s0: Store, owner: Owner, fields: seq<Field>, i: nat, nets: seq<Net>,
                          done: seq<Field>, s: Store)
    requires i <= |fields|
  {
    forall e: nat {:trigger EvalFields(kinds, e, s0, owner, fields)} :: e >= d ==>
      EvalFields(kinds, e, s0, owner, fields) == Prepend(nets, done, EvalFields(kinds, e, s, owner, fields[i..]))
  }

  lemma ReachesFirst(kinds: Kinds, s: Store, owner: Owner, fields: seq<Field>)
    ensures Reaches(kinds, 0, s, owner, fields, 0, [], [], s)
  {
    assert fields[0..] == fields;
    forall e: nat
      ensures EvalFields(kinds, e, s, owner, fields) == Prepend([], [], EvalFields(kinds, e, s, owner, fields[0..]))
    {
      PrependNothing(EvalFields(kinds, e, s, owner, fields));
    }
  }

  lemma ReachesNext(kinds: Kinds, d: nat, d': nat, s0: Store, owner: Owner, fields: seq<Field>, i: nat, nets: seq<Net>,
                    done: seq<Field>, s: Store, g: Got)
    requires i < |fields| && Reaches(kinds, d, s0, owner, fields, i, nets, done, s)
    requires EvalRef(kinds, d', s, fields[i].ref, fields[i].path, owner) == Some(g)
    ensures g.res.Ok? ==>
              Reaches(kinds, d + d', s0, owner, fields, i + 1, nets + [g.res.value],
                      done + [Field(fields[i].path, g.ref)], g.s)
    ensures g.res.Fail? ==>
              EvalFields(kinds, d + d', s0, owner, fields) == Some(Visited(Fail(g.res.error), done, g.s))
  {
    hide EvalRef, EvalFields;
    forall e: nat | e >= d + d'
      ensures EvalFields(kinds, e, s0, owner, fields) ==
              if g.res.Fail? then Some(Visited(Fail(g.res.error), done, g.s))
              else Prepend(nets + [g.res.value], done + [Field(fields[i].path, g.ref)],
                           EvalFields(kinds, e, g.s, owner, fields[i + 1..]))
    {
      RefNeedsNoMore(kinds, d', e, s, fields[i].ref, fields[i].path, owner);
      VisitsOne(kinds, e, s, owner, fields, i, nets, done, g);
    }
  }

  lemma ReachesEnd(kinds: Kinds, d: nat, s0: Store, owner: Owner, fields: seq<Field>, nets: seq<Net>,
                   done: seq<Field>, s: Store)
    requires Reaches(kinds, d, s0, owner, fields, |fields|, nets, done, s)
    ensures EvalFields(kinds, d, s0, owner, fields) == Some(Visited(Ok(nets), done, s))
  {
    assert fields[|fields|..] == [];
    assert nets + [] == nets && done + [] == done;
    assert EvalFields(kinds, d, s, owner, []) == Some(Visited(Ok([]), [], s));
    hide EvalFields;
  }
}
