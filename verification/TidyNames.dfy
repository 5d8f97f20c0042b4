/** A condition on what the user writes under which all generated names are fresh: a generated name can be
    split into its parts again, and these lead back to where the net was written. */
module TidyNames {
  import opened ConfigGraph
  import opened Flattening

  // ----- Splitting a name at its delimiters.

  function Split(s: string): (r: seq<string>)
    ensures r != []
  {
    if s == "" then [""]
    else
      var rest := Split(s[1..]);
      if s[0] == '/' then [""] + rest else [[s[0]] + rest[0]] + rest[1..]
  }

  predicate Plain(s: string) {
    '/' !in s
  }

  ghost predicate AllPlain(parts: Path) {
    forall p :: p in parts ==> Plain(p)
  }

  lemma {:induction false} SplitPlain(s: string)
    requires Plain(s)
    ensures Split(s) == [s]
  {
    if s != "" {
      SplitPlain(s[1..]);
      assert [s[0]] + s[1..] == s;
    }
  }

  lemma SplitFirst(c: char, s: string)
    ensures Split([c] + s) == if c == '/' then [""] + Split(s) else [[c] + Split(s)[0]] + Split(s)[1..]
  {
    assert ([c] + s)[1..] == s;
  }

  lemma FirstOfBoth(c: char, x: Path, y: Path)
    requires x != []
    ensures [[c] + (x + y)[0]] + (x + y)[1..] == [[c] + x[0]] + x[1..] + y
    ensures [""] + (x + y) == [""] + x + y
  {
    assert (x + y)[0] == x[0] && (x + y)[1..] == x[1..] + y;
  }

  lemma {:induction false} SplitAppend(a: string, b: string)
    ensures Split(a + "/" + b) == Split(a) + Split(b)
  {
    if a == "" {
      SplitFirst('/', b);
      SplitPlain("");
      assert a + "/" + b == ['/'] + b;
    } else {
      hide Split;
      var c, rest := a[0], a[1..];
      SplitAppend(rest, b);
      SplitFirst(c, rest);
      SplitFirst(c, rest + "/" + b);
      FirstOfBoth(c, Split(rest), Split(b));
      assert a == [c] + rest;
      assert a + "/" + b == [c] + (rest + "/" + b);
    }
  }

  lemma {:induction false} SplitJoin(parts: Path)
    requires parts != [] && AllPlain(parts)
    ensures Split(Join(parts, "/")) == parts
  {
    SplitPlain(parts[0]);
    if |parts| > 1 {
      SplitJoin(parts[1..]);
      SplitAppend(parts[0], Join(parts[1..], "/"));
      assert parts[0] + "/" + Join(parts[1..], "/") == Join(parts, "/");
      assert [parts[0]] + parts[1..] == parts;
    } else {
      assert parts == [parts[0]];
    }
  }

  /** What the parts of a name generated for a net inside `owner` begin with. */
  function Before(owner: Owner): Path {
    match owner
    case NetOwner(n) => ["net"] + Split(n)
    case ServerOwner(s) => ["server", s]
  }

  lemma JoinStarts(kind: string, n: string, path: Path)
    ensures Join([kind, n] + path, "/") == kind + "/" + (if path == [] then n else n + "/" + Join(path, "/"))
  {
    var all := [kind, n] + path;
    assert all[1..] == [n] + path && all[1..][1..] == path;
    assert Join(all, "/") == kind + "/" + Join([n] + path, "/");
  }

  lemma SplitStarts(kind: string, n: string, path: Path)
    requires Plain(kind) && AllPlain(path)
    ensures Split(Join([kind, n] + path, "/")) == [kind] + Split(n) + path
  {
    hide Split, Join;
    JoinStarts(kind, n, path);
    SplitPlain(kind);
    if path == [] {
      SplitAppend(kind, n);
      assert [kind] + Split(n) + path == [kind] + Split(n);
    } else {
      SplitJoin(path);
      hide Plain, AllPlain;
      var rest := Join(path, "/");
      var inner := n + "/" + rest;
      SplitAppend(n, rest);
      SplitAppend(kind, inner);
      assert [kind] + (Split(n) + path) == [kind] + Split(n) + path;
    }
  }

  lemma SplitGenerated(owner: Owner, path: Path)
    requires AllPlain(path) && (owner.ServerOwner? ==> Plain(owner.name))
    ensures Split(GeneratedName(owner, path)) == Before(owner) + path
  {
    var kind := if owner.NetOwner? then "net" else "server";
    assert owner.Prefix() == [kind, owner.name];
    SplitStarts(kind, owner.name, path);
    if owner.ServerOwner? { SplitPlain(owner.name); }
    assert [kind] + Split(owner.name) == Before(owner);
    hide Split, Join;
  }

  // ----- Leading "net" parts count how deep a net is nested; what follows names its root.

  function Depth(parts: Path): nat {
    if parts != [] && parts[0] == "net" then 1 + Depth(parts[1..]) else 0
  }

  function Tail(parts: Path): Path {
    if parts != [] && parts[0] == "net" then Tail(parts[1..]) else parts
  }

  lemma {:induction false} TailAppend(a: Path, b: Path)
    requires Tail(a) != []
    ensures Depth(a + b) == Depth(a) && Tail(a + b) == Tail(a) + b
  {
    if a[0] == "net" {
      TailAppend(a[1..], b);
      assert (a + b)[1..] == a[1..] + b && (a + b)[0] == a[0];
    }
  }

  function DepthOf(o: Owner): nat {
    if o.NetOwner? then Depth(Split(o.name)) else 0
  }

  function TailOf(o: Owner): Path {
    if o.NetOwner? then Tail(Split(o.name)) else []
  }

  /** Owners whose inner nets can be told from those of others. */
  predicate Rooted(owner: Owner) {
    match owner
    case NetOwner(n) => Tail(Split(n)) != []
    case ServerOwner(s) => Plain(s)
  }

  function InnerDepth(owner: Owner): nat {
    if owner.NetOwner? then DepthOf(owner) + 1 else 0
  }

  function InnerTail(owner: Owner): Path {
    if owner.NetOwner? then TailOf(owner) else ["server", owner.name]
  }

  lemma InnerOwner(owner: Owner, path: Path)
    requires Rooted(owner) && AllPlain(path)
    ensures var o := NetOwner(GeneratedName(owner, path));
            && Rooted(o) && |Split(o.name)| >= 2
            && DepthOf(o) == InnerDepth(owner) && TailOf(o) == InnerTail(owner) + path
  {
    SplitGenerated(owner, path);
    var before := Before(owner);
    if owner.NetOwner? { assert before[1..] == Split(owner.name); }
    assert Depth(before) == InnerDepth(owner) && Tail(before) == InnerTail(owner);
    TailAppend(before, path);
  }

  // ----- Tidy configs.

  /** Neither path leads to, or through, where the other one ends. */
  predicate Apart(p: Path, q: Path) {
    !(p <= q) && !(q <= p)
  }

  ghost predicate TidyFields(fields: seq<Field>)
    decreases fields
  {
    fields != [] ==>
      && TidyFields(fields[1..])
      && match fields[0].ref
         case Garbage => true
         case Name(n) => Plain(n)
         case Inline(net) =>
           && AllPlain(fields[0].path)
           && TidyFields(net.fields)
           && forall j :: 1 <= j < |fields| && fields[j].ref.Inline? ==> Apart(fields[0].path, fields[j].path)
  }

  /** Names and path components hold no delimiter, no net is named like a kind of owner, and in one config no
      path of a nested net leads to or through another. */
  ghost predicate Tidy(nets: seq<Server>, servers: seq<Server>) {
    && DistinctNames(nets) && DistinctNames(servers)
    && (forall i :: 0 <= i < |nets| ==>
          Plain(nets[i].name) && nets[i].name != "net" && nets[i].name != "server" && TidyFields(nets[i].cfg.fields))
    && (forall i :: 0 <= i < |servers| ==> Plain(servers[i].name) && TidyFields(servers[i].cfg.fields))
  }

  // ----- Nets inside one config get different names.

  /** `e` lies inside a nested net of `fs`, one of those whose path starts its tail. */
  ghost predicate Inside(owner: Owner, fs: seq<Field>, e: Entry) {
    && e.0.NetOwner?
    && |Split(e.0.name)| >= 2
    && DepthOf(e.0) >= InnerDepth(owner)
    && exists j :: 0 <= j < |fs| && fs[j].ref.Inline? && InnerTail(owner) + fs[j].path <= TailOf(e.0)
  }

  lemma {:induction false} FieldEntriesAreInside(owner: Owner, fs: seq<Field>, e: Entry)
    requires Rooted(owner) && TidyFields(fs) && e in FieldEntries(owner, fs)
    ensures Inside(owner, fs, e)
    decreases fs
  {
    if e in FieldEntries(owner, fs[1..]) {
      FieldEntriesAreInside(owner, fs[1..], e);
      var j :| 0 <= j < |fs[1..]| && fs[1..][j].ref.Inline? && InnerTail(owner) + fs[1..][j].path <= TailOf(e.0);
      assert fs[j + 1] == fs[1..][j];
    } else {
      NetEntriesAreInside(owner, fs, e);
    }
  }

  lemma {:induction false} NetEntriesAreInside(owner: Owner, fs: seq<Field>, e: Entry)
    requires Rooted(owner) && TidyFields(fs) && fs != [] && fs[0].ref.Inline?
    requires e in Entries(NetOwner(GeneratedName(owner, fs[0].path)), fs[0].ref.net)
    ensures Inside(owner, fs, e) && InnerTail(owner) + fs[0].path <= TailOf(e.0)
    decreases fs, 0
  {
    var o, net := NetOwner(GeneratedName(owner, fs[0].path)), fs[0].ref.net;
    InnerOwner(owner, fs[0].path);
    if e in FieldEntries(o, net.fields) {
      FieldEntriesAreInside(o, net.fields, e);
    }
  }

  lemma DistinctAppend(a: seq<Entry>, b: seq<Entry>)
    requires DistinctOwners(a) && DistinctOwners(b)
    requires forall x, y :: x in a && y in b ==> x.0 != y.0
    ensures DistinctOwners(a + b)
  {
    var s := a + b;
    forall i, j | 0 <= i < j < |s| ensures s[i].0 != s[j].0 {
      if i < |a| <= j { assert s[i] in a && s[j] in b; }
    }
  }

  lemma PrefixesMeet(base: Path, p: Path, q: Path, t: Path)
    requires base + p <= t && base + q <= t
    ensures !Apart(p, q)
  {
    if |p| <= |q| {
      forall k | 0 <= k < |p| ensures p[k] == q[k] {
        assert (base + p)[|base| + k] == t[|base| + k] == (base + q)[|base| + k];
      }
    } else {
      forall k | 0 <= k < |q| ensures p[k] == q[k] {
        assert (base + p)[|base| + k] == t[|base| + k] == (base + q)[|base| + k];
      }
    }
  }

  lemma {:induction false} FieldEntriesDiffer(owner: Owner, fs: seq<Field>)
    requires Rooted(owner) && TidyFields(fs)
    ensures DistinctOwners(FieldEntries(owner, fs))
    decreases fs
  {
    if fs != [] {
      FieldEntriesDiffer(owner, fs[1..]);
      if fs[0].ref.Inline? {
        var o, net := NetOwner(GeneratedName(owner, fs[0].path)), fs[0].ref.net;
        InnerOwner(owner, fs[0].path);
        FieldEntriesDiffer(o, net.fields);
        OwnerDiffers(o, net);
        forall x, y | x in Entries(o, net) && y in FieldEntries(owner, fs[1..])
          ensures x.0 != y.0
        {
          NetEntriesAreInside(owner, fs, x);
          FieldEntriesAreInside(owner, fs[1..], y);
          var j :| 0 <= j < |fs[1..]| && fs[1..][j].ref.Inline? && InnerTail(owner) + fs[1..][j].path <= TailOf(y.0);
          assert fs[j + 1] == fs[1..][j];
          if x.0 == y.0 { PrefixesMeet(InnerTail(owner), fs[0].path, fs[j + 1].path, TailOf(x.0)); }
        }
        DistinctAppend(Entries(o, net), FieldEntries(owner, fs[1..]));
      } else {
        assert FieldEntries(owner, fs) == FieldEntries(owner, fs[1..]);
      }
    }
  }

  /** A net is nested less deep than those inside it. */
  lemma OwnerDiffers(o: Owner, cfg: NetCfg)
    requires Rooted(o) && TidyFields(cfg.fields)
    requires DistinctOwners(FieldEntries(o, cfg.fields))
    ensures DistinctOwners(Entries(o, cfg))
  {
    var first := [(o, FlatOf(o, cfg))];
    forall x, y | x in first && y in FieldEntries(o, cfg.fields)
      ensures x.0 != y.0
    {
      FieldEntriesAreInside(o, cfg.fields, y);
    }
    DistinctAppend(first, FieldEntries(o, cfg.fields));
  }

  // ----- Nets inside different roots get different names.

  /** The root that a name leads back to. */
  function RootOf(o: Owner): Owner {
    if o.ServerOwner? then o
    else
      var t := TailOf(o);
      if |t| >= 2 && t[0] == "server" then ServerOwner(t[1]) else if t != [] then NetOwner(t[0]) else o
  }

  ghost predicate TidyRoot(r: Root) {
    && Plain(r.owner.name) && TidyFields(r.cfg.fields)
    && (r.owner.NetOwner? ==> r.owner.name != "net" && r.owner.name != "server")
  }

  lemma RootIsRooted(r: Root)
    requires TidyRoot(r)
    ensures Rooted(r.owner)
    ensures r.owner.NetOwner? ==> TailOf(r.owner) == [r.owner.name]
  {
    SplitPlain(r.owner.name);
  }

  lemma EntriesLeadToRoot(r: Root, e: Entry)
    requires TidyRoot(r) && e in Entries(r.owner, r.cfg)
    ensures RootOf(e.0) == r.owner
    ensures e.0 == r.owner || (e.0.NetOwner? && |Split(e.0.name)| >= 2)
  {
    RootIsRooted(r);
    if e in FieldEntries(r.owner, r.cfg.fields) {
      FieldEntriesAreInside(r.owner, r.cfg.fields, e);
      var j :| 0 <= j < |r.cfg.fields| && InnerTail(r.owner) + r.cfg.fields[j].path <= TailOf(e.0);
      assert InnerTail(r.owner) <= TailOf(e.0);
    }
  }

  ghost predicate TidyRoots(roots: seq<Root>) {
    && (forall i :: 0 <= i < |roots| ==> TidyRoot(roots[i]))
    && forall i, j :: 0 <= i < j < |roots| ==> roots[i].owner != roots[j].owner
  }

  lemma {:induction false} SomeRoot(roots: seq<Root>, e: Entry) returns (i: nat)
    requires e in RootEntries(roots)
    ensures i < |roots| && e in Entries(roots[i].owner, roots[i].cfg)
  {
    if e in Entries(roots[0].owner, roots[0].cfg) {
      i := 0;
    } else {
      i := SomeRoot(roots[1..], e);
      i := i + 1;
    }
  }

  lemma {:induction false} RootEntriesDiffer(roots: seq<Root>)
    requires TidyRoots(roots)
    ensures DistinctOwners(RootEntries(roots))
  {
    if roots != [] {
      RootEntriesDiffer(roots[1..]);
      var r := roots[0];
      RootIsRooted(r);
      FieldEntriesDiffer(r.owner, r.cfg.fields);
      RootDiffers(r);
      forall x, y | x in Entries(r.owner, r.cfg) && y in RootEntries(roots[1..])
        ensures x.0 != y.0
      {
        var i := SomeRoot(roots[1..], y);
        assert roots[i + 1] == roots[1..][i];
        EntriesLeadToRoot(r, x);
        EntriesLeadToRoot(roots[i + 1], y);
      }
      DistinctAppend(Entries(r.owner, r.cfg), RootEntries(roots[1..]));
    }
  }

  lemma RootDiffers(r: Root)
    requires TidyRoot(r) && DistinctOwners(FieldEntries(r.owner, r.cfg.fields))
    ensures DistinctOwners(Entries(r.owner, r.cfg))
  {
    RootIsRooted(r);
    if r.owner.NetOwner? {
      OwnerDiffers(r.owner, r.cfg);
    } else {
      var first := [(r.owner, FlatOf(r.owner, r.cfg))];
      forall x, y | x in first && y in FieldEntries(r.owner, r.cfg.fields)
        ensures x.0 != y.0
      {
        FieldEntriesAreInside(r.owner, r.cfg.fields, y);
      }
      DistinctAppend(first, FieldEntries(r.owner, r.cfg.fields));
    }
  }

  // ----- Names that are mentioned.

  ghost predicate PlainMentions(f: Flat) {
    forall i :: 0 <= i < |f.fields| && f.fields[i].target.Named? ==> Plain(f.fields[i].target.name)
  }

  lemma {:induction false} FieldsMentionPlain(fs: seq<Field>, i: nat)
    requires TidyFields(fs) && i < |fs| && fs[i].ref.Name?
    ensures Plain(fs[i].ref.name)
    decreases fs
  {
    if i > 0 { FieldsMentionPlain(fs[1..], i - 1); }
  }

  lemma FlatMentionsPlain(owner: Owner, cfg: NetCfg)
    requires TidyFields(cfg.fields)
    ensures PlainMentions(FlatOf(owner, cfg))
  {
    var f := FlatOf(owner, cfg);
    forall i | 0 <= i < |f.fields| && f.fields[i].target.Named?
      ensures Plain(f.fields[i].target.name)
    {
      assert f.fields[i] == FlatFieldOf(owner, cfg.fields[i]);
      FieldsMentionPlain(cfg.fields, i);
    }
  }

  lemma {:induction false} FieldEntriesMentionPlain(owner: Owner, fs: seq<Field>, e: Entry)
    requires TidyFields(fs) && e in FieldEntries(owner, fs)
    ensures PlainMentions(e.1)
    decreases fs
  {
    if e in FieldEntries(owner, fs[1..]) {
      FieldEntriesMentionPlain(owner, fs[1..], e);
    } else {
      var o, net := NetOwner(GeneratedName(owner, fs[0].path)), fs[0].ref.net;
      FlatMentionsPlain(o, net);
      if e in FieldEntries(o, net.fields) { FieldEntriesMentionPlain(o, net.fields, e); }
    }
  }

  // ----- Tidy names are fresh.

  lemma TidyRootsOf(nets: seq<Server>, servers: seq<Server>)
    requires Tidy(nets, servers)
    ensures TidyRoots(Roots(nets, servers))
  {
    var roots := Roots(nets, servers);
    forall i | 0 <= i < |roots| ensures TidyRoot(roots[i]) {
      assert i >= |nets| ==> roots[i] == Root(ServerOwner(servers[i - |nets|].name), servers[i - |nets|].cfg);
    }
    forall i, j | 0 <= i < j < |roots| ensures roots[i].owner != roots[j].owner {
    }
  }

  lemma TidyMention(nets: seq<Server>, servers: seq<Server>, o: Owner, i: int, n: string)
    requires Tidy(nets, servers) && DistinctOwners(RootEntries(Roots(nets, servers)))
    requires Mentions(FlatGraph(nets, servers), o, i, n) && NetOwner(n) in FlatGraph(nets, servers)
    ensures n in ServerMap(nets)
  {
    hide RootEntries, GraphOf, DistinctOwners, TidyFields, Split;
    var roots := Roots(nets, servers);
    var es := RootEntries(roots);
    TidyRootsOf(nets, servers);
    var k := EntryOf(es, o);
    var r := SomeRoot(roots, es[k]);
    RootMentionsPlain(roots[r], es[k]);
    SplitPlain(n);
    var k' := EntryOf(es, NetOwner(n));
    var r' := SomeRoot(roots, es[k']);
    EntriesLeadToRoot(roots[r'], es[k']);
    assert roots[r'].owner == NetOwner(n);
    assert r' < |nets| && nets[r'].name == n;
  }

  lemma RootMentionsPlain(r: Root, e: Entry)
    requires TidyRoot(r) && e in Entries(r.owner, r.cfg)
    ensures PlainMentions(e.1)
  {
    FlatMentionsPlain(r.owner, r.cfg);
    if e in FieldEntries(r.owner, r.cfg.fields) { FieldEntriesMentionPlain(r.owner, r.cfg.fields, e); }
  }

  /** Every tidy config has fresh generated names. */
  lemma TidyIsFresh(nets: seq<Server>, servers: seq<Server>)
    requires Tidy(nets, servers)
    ensures DistinctOwners(RootEntries(Roots(nets, servers)))
    ensures FreshNames(nets, servers)
    ensures Fresh(FlatGraph(nets, servers), ServerMap(nets))
    ensures World(ServerMap(nets), ServerMap(servers), FlatGraph(nets, servers)).Valid()
  {
    TidyRootsOf(nets, servers);
    RootEntriesDiffer(Roots(nets, servers));
    forall o, i, n | Mentions(FlatGraph(nets, servers), o, i, n) && NetOwner(n) in FlatGraph(nets, servers)
      ensures n in ServerMap(nets)
    {
      TidyMention(nets, servers, o, i, n);
    }
    hide RootEntries, GraphOf, DistinctOwners;
    NamesAreFresh(nets, servers);
    FlattenIsWorld(nets, servers);
  }
}
