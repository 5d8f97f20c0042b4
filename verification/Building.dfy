/** The builder itself, in the program's own form: methods that update the config map and the net cache in
    place. They terminate on every config; under fresh generated names they build exactly the
    buildable nets. */
module Building {
  import opened Options
  import opened ConfigGraph
  import opened ConfigGraphLemmas
  import opened BuildSteps
  import opened BuildFunction

  class BuildContext {
    const netKinds: Kinds
    var config: map<string, NetCfg>
    var cache: map<string, Net>
    ghost var order: seq<string>
    ghost var active: set<Owner>
    ghost var done: set<Owner>

    constructor (kinds: Kinds, nets: map<string, NetCfg>)
      ensures netKinds == kinds
      ensures St() == State(nets, map[], [], {}, {})
    {
      netKinds, config, cache := kinds, nets, map[];
      order, active, done := [], {}, {};
    }

    ghost function St(): State
      reads this
    {
      State(config, cache, order, active, done)
    }

    ghost function Maps(): Store
      reads this
    {
      Store(config, cache)
    }

    ghost function Left(): nat
      reads this
    {
      Weight(config, cache)
    }

    /** Resolve one reference found in the config of `owner`; an inline net is hoisted first. */
    method GetNet(ref: Ref, path: Path, owner: Owner, ghost w: Option<World>, ghost at: int)
      returns (res: Outcome<Net>, ref': Ref, ghost d: nat)
      requires GetPre(netKinds, w, St(), owner, Field(path, ref), at)
      modifies this
      decreases Left() + RefSize(ref), 2, 1
      ensures res.Ok? ==> Left() <= old(Left()) + RefSize(ref)
      ensures res.Ok? ==> GetPost(netKinds, w, old(St()), St(), owner, at, Field(path, ref'), res.value)
      ensures res.Fail? ==> RefFault(netKinds, w, old(active), owner, at, res.error)
      ensures EvalRef(netKinds, d, old(Maps()), ref, path, owner) == Some(Got(res, ref', Maps()))
    {
      hide GetPre, GetPost, RefFault, Looked, BuildPre, BuildPost, BuildFault, Weight;
      hide EvalName;
      ghost var s := St();
      d := 0;
      var name;
      match ref {
        case Garbage =>
          GarbageFails(netKinds, w, s, owner, Field(path, ref), at);
          return Fail(BadRef), ref, 0;
        case Name(n) =>
          LookByName(netKinds, w, s, owner, Field(path, ref), at);
          name := n;
        case Inline(net) =>
          name := GeneratedName(owner, path);
          LookInline(netKinds, w, s, owner, Field(path, ref), at, name);
          SetWeight(config, cache, name, net);
          config := config[name := net];
      }
      ref' := Name(name);
      assert Lookup(old(Maps()), ref, path, owner) == (name, Maps());
      ghost var s1 := St();
      assert Looked(netKinds, w, s, s1, owner, at, path, name);
      assert Left() <= old(Left()) + RefSize(ref);
      if name in cache {
        LookCached(netKinds, w, s, s1, owner, at, path, name);
        return Ok(cache[name]), ref', 0;
      }
      if name !in config {
        LookMissing(netKinds, w, s, s1, owner, at, path, name);
        return Fail(NotFound(name)), ref', 0;
      }
      res, d := BuildNamed(name, path, owner, w, at, s);
      RefOfName(netKinds, d, old(Maps()), ref, path, owner);
      hide EvalRef;
    }

    /** The second half of `GetNet`: swap the config of `name` for the placeholder, build it, put it
        back with its references rewritten, and cache the running net. */
    method BuildNamed(name: string, path: Path, owner: Owner, ghost w: Option<World>, ghost at: int, ghost s: State)
      returns (res: Outcome<Net>, ghost d: nat)
      requires name in config && name !in cache
      requires Looked(netKinds, w, s, St(), owner, at, path, name)
      modifies this
      decreases Left(), 2, 0
      ensures res.Ok? ==> Left() <= old(Left())
      ensures res.Ok? ==> GetPost(netKinds, w, s, St(), owner, at, Field(path, Name(name)), res.value)
      ensures res.Fail? ==> RefFault(netKinds, w, s.active, owner, at, res.error)
      ensures EvalName(netKinds, d, old(Maps()), name) == Some(Got(res, Name(name), Maps()))
    {
      hide EvalCfg;
      hide GetPost, RefFault, Looked, BuildPre, BuildPost, BuildFault, Weight;
      ghost var s1 := St();
      var cfg := config[name];
      SetWeight(config, cache, name, PLACEHOLDER);
      ghost var looping := w.Some? && NetOwner(name) in active;
      ghost var w' := if looping then None else w;
      LookBegin(netKinds, w', s, s1, owner, at, path, name);
      config := config[name := PLACEHOLDER];
      active := active + {NetOwner(name)};
      assert St() == Begin(s1, name);
      var built, cfg', below := BuildDyn(netKinds, NetOwner(name), cfg, w');
      d := below + 1;
      if looping { LookLooping(netKinds, w, s, s1, owner, at, path, name); }
      if built.Fail? {
        if !looping { BuiltFails(netKinds, w, s, s1, owner, at, path, name, built.error); }
        return Fail(built.error), d;
      }
      var running := Net(name, cfg.typ, cfg.data, built.value);
      ghost var s3 := St();
      if !looping { BuiltFinish(netKinds, w, s, s1, s3, owner, at, path, name, cfg, cfg', running); }
      FinishWeight(config, cache, name, cfg', running);
      config := config[name := cfg'];
      cache := cache[name := running];
      order, active, done := order + [name], active - {NetOwner(name)}, done + {NetOwner(name)};
      assert St() == Finish(s3, name, cfg', running);
      return Ok(running), d;
    }

    method BuildDyn(kinds: Kinds, owner: Owner, cfg: NetCfg, ghost w: Option<World>)
      returns (res: Outcome<seq<Net>>, cfg': NetCfg, ghost d: nat)
      requires BuildPre(netKinds, w, St(), owner, cfg)
      modifies this
      decreases Left() + FieldsSize(cfg.fields), if cfg.fields == [] then 0 else 4, 1
      ensures cfg.typ !in kinds ==> res == Fail(UnknownType(cfg.typ))
      ensures res.Ok? ==> Left() <= old(Left()) + FieldsSize(cfg.fields)
      ensures res.Ok? ==> BuildPost(netKinds, kinds, w, old(St()), St(), owner, cfg, cfg', res.value)
      ensures res.Fail? ==> BuildFault(netKinds, kinds, w, old(active), owner, res.error)
      ensures EvalCfg(netKinds, kinds, d, old(Maps()), owner, cfg) == Some(Built(res, cfg', Maps()))
    {
      hide EvalFields;
      d := 0;
      hide Midway, BuildPost, BuildFault, VisitFault, Weight;
      ghost var s := St();
      cfg' := cfg;
      if cfg.typ !in kinds {
        OwnFaultFails(netKinds, kinds, w, s, owner, cfg, UnknownType(cfg.typ));
        return Fail(UnknownType(cfg.typ)), cfg', 0;
      }
      if !kinds[cfg.typ].parses(cfg.data) {
        OwnFaultFails(netKinds, kinds, w, s, owner, cfg, BadOption);
        return Fail(BadOption), cfg', 0;
      }
      var nets, fields, below := VisitFields(owner, cfg.fields, w);
      d := below;
      if nets.Fail? {
        VisitFaultFails(netKinds, kinds, w, s, owner, cfg, nets.error);
        return Fail(nets.error), cfg', d;
      }
      cfg' := cfg.(fields := fields);
      if !kinds[cfg.typ].builds(cfg.data) {
        OwnFaultFails(netKinds, kinds, w, s, owner, cfg, BuildFailed);
        return Fail(BuildFailed), cfg', d;
      }
      VisitedAll(netKinds, kinds, w, s, St(), owner, cfg, fields, nets.value);
      return Ok(nets.value), cfg', d;
    }

    /** Visit the references of one config in order, rewriting each to the name it was resolved by. */
    method VisitFields(owner: Owner, fields: seq<Field>, ghost w: Option<World>)
      returns (res: Outcome<seq<Net>>, fields': seq<Field>, ghost d: nat)
      requires Midway(netKinds, w, St(), St(), owner, fields, 0, [], [])
      modifies this
      decreases Left() + FieldsSize(fields), if fields == [] then 0 else 3, 0
      ensures res.Ok? ==> Left() <= old(Left()) + FieldsSize(fields)
      ensures res.Ok? ==> Midway(netKinds, w, old(St()), St(), owner, fields, |fields|, fields', res.value)
      ensures res.Fail? ==> VisitFault(netKinds, w, old(active), owner, res.error)
      ensures EvalFields(netKinds, d, old(Maps()), owner, fields) == Some(Visited(res, fields', Maps()))
    {
      hide EvalFields, EvalRef, Reaches;
      hide Midway, GetPre, GetPost, RefFault, VisitFault, Weight;
      var nets := [];
      fields' := [];
      var i := 0;
      d := 0;
      assert fields[0..] == fields;
      ReachesFirst(netKinds, Maps(), owner, fields);
      while i < |fields|
        invariant 0 <= i <= |fields|
        invariant Left() + FieldsSize(fields[i..]) <= old(Left()) + FieldsSize(fields)
        invariant Midway(netKinds, w, old(St()), St(), owner, fields, i, fields', nets)
        invariant Reaches(netKinds, d, old(Maps()), owner, fields, i, nets, fields', Maps())
      {
        assert fields[i..][0] == fields[i] && fields[i..][1..] == fields[i + 1..];
        ghost var s, maps := St(), Maps();
        MidwayGivesPre(netKinds, w, old(St()), s, owner, fields, i, fields', nets);
        var net, ref', below := GetNet(fields[i].ref, fields[i].path, owner, w, i);
        ReachesNext(netKinds, d, below, old(Maps()), owner, fields, i, nets, fields', maps, Got(net, ref', Maps()));
        d := d + below;
        if net.Fail? {
          MidwayFails(netKinds, w, old(St()), s, owner, fields, i, fields', nets, net.error);
          return Fail(net.error), fields', d;
        }
        MidwayStep(netKinds, w, old(St()), s, St(), owner, fields, i, fields', nets,
                   Field(fields[i].path, ref'), net.value);
        nets := nets + [net.value];
        fields' := fields' + [Field(fields[i].path, ref')];
        i := i + 1;
      }
      ReachesEnd(netKinds, d, old(Maps()), owner, fields, nets, fields', Maps());
      return Ok(nets), fields', d;
    }
  }
}
