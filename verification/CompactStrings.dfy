/** A list of strings packed into one buffer with the offsets at which they start. */
module CompactStrings {
  import opened Options
  import opened Bytes

  type Str = seq<byte>

  /** The two fields of the packed list. */
  datatype Packed = Packed(underlying: seq<byte>, index: seq<nat>) {
    /** Where the i-th string ends: where the next one starts, or the end of the buffer. */
    function End(i: nat): nat
      requires i < |index|
    {
      if i + 1 < |index| then index[i + 1] else |underlying|
    }

    ghost predicate Valid() {
      && (index == [] ==> underlying == [])
      && (index != [] ==> index[0] == 0)
      && forall i {:trigger End(i)} :: 0 <= i < |index| ==> index[i] <= End(i) <= |underlying|
    }

    function Get(i: nat): Str
      requires i < |index| && index[i] <= End(i) <= |underlying|
    {
      underlying[index[i]..End(i)]
    }

    /** The list that is meant. */
    ghost function Items(): (r: seq<Str>)
      requires Valid()
      ensures |r| == |index| && forall i :: 0 <= i < |r| ==> r[i] == Get(i)
    {
      seq(|index|, i requires 0 <= i < |index| => Get(i))
    }

    function Pushed(s: Str): Packed {
      Packed(underlying + s, index + [|underlying|])
    }

    function Popped(): Packed
      requires index != [] && index[|index| - 1] <= |underlying|
    {
      Packed(underlying[..index[|index| - 1]], index[..|index| - 1])
    }
  }

  const Empty: Packed := Packed([], [])

  lemma PushKeeps(p: Packed, s: Str, i: nat)
    requires p.Valid() && i <= |p.index|
    ensures var q := p.Pushed(s);
            q.index[i] <= q.End(i) <= |q.underlying| && q.Get(i) == if i < |p.index| then p.Get(i) else s
  {
    var q := p.Pushed(s);
    if i < |p.index| {
      assert q.End(i) == p.End(i);
      var a, b := p.index[i], p.End(i);
      assert q.underlying[a..b] == p.underlying[a..b];
    } else {
      assert q.underlying[|p.underlying|..|q.underlying|] == s;
    }
  }

  lemma PushAppends(p: Packed, s: Str)
    requires p.Valid()
    ensures p.Pushed(s).Valid() && p.Pushed(s).Items() == p.Items() + [s]
  {
    var q := p.Pushed(s);
    forall i | 0 <= i < |q.index|
      ensures q.index[i] <= q.End(i) <= |q.underlying|
      ensures q.Get(i) == if i < |p.index| then p.Get(i) else s
    {
      PushKeeps(p, s, i);
    }
    assert q.index[0] == 0;
    hide Packed.End, Packed.Get;
    assert q.Valid();
    hide Packed.Valid;
    assert q.Items() == p.Items() + [s];
  }

  lemma PopKeeps(p: Packed, i: nat)
    requires p.Valid() && i + 1 < |p.index|
    ensures p.index[|p.index| - 1] <= |p.underlying|
    ensures var q := p.Popped();
            q.End(i) == p.End(i) && q.index[i] <= q.End(i) <= |q.underlying| && q.Get(i) == p.Get(i)
  {
    var n := |p.index| - 1;
    assert p.index[n] <= p.End(n);
    Ascending(p, i + 1, n);
    assert p.index[i] <= p.End(i);
  }

  lemma PopThenPush(p: Packed)
    requires p.Valid() && p.index != []
    ensures p.index[|p.index| - 1] <= p.End(|p.index| - 1) <= |p.underlying|
    ensures p.Popped().Pushed(p.Get(|p.index| - 1)) == p
  {
    var n := |p.index| - 1;
    assert p.index[n] <= p.End(n);
    hide Packed.Valid;
    assert p.index == p.index[..n] + [p.index[n]];
  }

  lemma PopRemovesLast(p: Packed)
    requires p.Valid() && p.index != []
    ensures p.index[|p.index| - 1] <= |p.underlying|
    ensures p.Popped().Valid() && p.Popped().Items() == p.Items()[..|p.index| - 1]
    ensures p.Popped().Pushed(p.Get(|p.index| - 1)) == p
  {
    PopThenPush(p);
    var n := |p.index| - 1;
    var q := p.Popped();
    assert q.index == p.index[..n] && |q.index| == n;
    forall i | 0 <= i < n
      ensures q.index[i] <= q.End(i) <= |q.underlying| && q.Get(i) == p.Get(i)
    {
      PopKeeps(p, i);
    }
    hide Packed.End, Packed.Get;
    assert q.Valid();
    hide Packed.Valid;
    assert q.Items() == p.Items()[..n];
  }

  lemma {:induction false} Ascending(p: Packed, i: nat, j: nat)
    requires p.Valid() && i <= j < |p.index|
    ensures p.index[i] <= p.index[j]
  {
    if i < j {
      Ascending(p, i, j - 1);
      assert p.index[j - 1] <= p.End(j - 1);
    }
  }

  /** There is only one way to pack a list, so comparing fields compares lists. */
  lemma {:induction false} PackingIsCanonical(p: Packed, q: Packed)
    requires p.Valid() && q.Valid()
    ensures p == q <==> p.Items() == q.Items()
    decreases |p.index|
  {
    if p.Items() == q.Items() && p.index != [] {
      PopRemovesLast(p);
      PopRemovesLast(q);
      var n := |p.index| - 1;
      assert p.Items()[n] == q.Items()[n];
      PackingIsCanonical(p.Popped(), q.Popped());
    }
  }

  // ----- Runs.

  datatype Op = Push(s: Str) | Pop | Extend(strings: seq<Str>)

  function PushAll(p: Packed, strings: seq<Str>): Packed
    decreases |strings|
  {
    if strings == [] then p else PushAll(p.Pushed(strings[0]), strings[1..])
  }

  lemma {:induction false} PushAllAppends(p: Packed, strings: seq<Str>)
    requires p.Valid()
    ensures PushAll(p, strings).Valid() && PushAll(p, strings).Items() == p.Items() + strings
    decreases |strings|
  {
    if strings != [] {
      PushAppends(p, strings[0]);
      PushAllAppends(p.Pushed(strings[0]), strings[1..]);
      assert p.Items() + [strings[0]] + strings[1..] == p.Items() + strings;
    }
  }

  function Act(p: Packed, op: Op): Packed {
    match op
    case Push(s) => p.Pushed(s)
    case Pop => if p.index != [] && p.index[|p.index| - 1] <= |p.underlying| then p.Popped() else p
    case Extend(strings) => PushAll(p, strings)
  }

  function ActOnList(l: seq<Str>, op: Op): seq<Str> {
    match op
    case Push(s) => l + [s]
    case Pop => if l == [] then [] else l[..|l| - 1]
    case Extend(strings) => l + strings
  }

  function Run(p: Packed, ops: seq<Op>): Packed
    decreases |ops|
  {
    if ops == [] then p else Run(Act(p, ops[0]), ops[1..])
  }

  function RunOnList(l: seq<Str>, ops: seq<Op>): seq<Str>
    decreases |ops|
  {
    if ops == [] then l else RunOnList(ActOnList(l, ops[0]), ops[1..])
  }

  lemma ActRefines(p: Packed, op: Op)
    requires p.Valid()
    ensures Act(p, op).Valid() && Act(p, op).Items() == ActOnList(p.Items(), op)
  {
    match op
    case Push(s) => PushAppends(p, s);
    case Pop =>
      if p.index != [] {
        assert p.index[|p.index| - 1] <= p.End(|p.index| - 1);
        PopRemovesLast(p);
      }
    case Extend(strings) => PushAllAppends(p, strings);
  }

  /** The packed list behaves as a list, whatever is done to it. */
  lemma {:induction false} RunRefines(p: Packed, ops: seq<Op>)
    requires p.Valid()
    ensures Run(p, ops).Valid() && Run(p, ops).Items() == RunOnList(p.Items(), ops)
    decreases |ops|
  {
    if ops != [] {
      ActRefines(p, ops[0]);
      RunRefines(Act(p, ops[0]), ops[1..]);
    }
  }

  // ----- The class.

  datatype Json = JsonString(s: Str) | JsonList(items: seq<Json>) | JsonOther

  function Joined(l: seq<Str>, sep: Str): Str {
    if l == [] then [] else if |l| == 1 then l[0] else Joined(l[..|l| - 1], sep) + sep + l[|l| - 1]
  }

  /** Where string i starts: behind the string before it and one separator. */
  function Place(l: seq<Str>, gap: nat, i: nat): nat
    requires i < |l|
  {
    if i == 0 then 0 else Place(l, gap, i - 1) + |l[i - 1]| + gap
  }

  lemma {:induction false} PlaceOfInit(l: seq<Str>, gap: nat, i: nat)
    requires i < |l| - 1
    ensures Place(l[..|l| - 1], gap, i) == Place(l, gap, i)
  {
    if i > 0 { PlaceOfInit(l, gap, i - 1); }
  }

  predicate LiesAt(text: Str, part: Str, at: nat) {
    at + |part| <= |text| && text[at..at + |part|] == part
  }

  lemma LiesInFront(a: Str, b: Str, part: Str, at: nat)
    requires LiesAt(a, part, at)
    ensures LiesAt(a + b, part, at)
  {
    assert (a + b)[at..at + |part|] == a[at..at + |part|];
  }

  lemma LiesBehind(a: Str, b: Str)
    ensures LiesAt(a + b, b, |a|)
  {
  }

  lemma {:induction false} JoinedLength(l: seq<Str>, sep: Str)
    requires l != []
    ensures |Joined(l, sep)| == Place(l, |sep|, |l| - 1) + |l[|l| - 1]|
    decreases |l|
  {
    var n := |l| - 1;
    if n > 0 {
      JoinedLength(l[..n], sep);
      PlaceOfInit(l, |sep|, n - 1);
    }
  }

  /** String i and the separator behind it lie where they should. */
  ghost predicate Lies(l: seq<Str>, sep: Str, i: nat)
    requires i < |l|
  {
    var at := Place(l, |sep|, i);
    && LiesAt(Joined(l, sep), l[i], at)
    && (i + 1 < |l| ==> LiesAt(Joined(l, sep), sep, at + |l[i]|))
  }

  lemma LiesLast(l: seq<Str>, sep: Str)
    requires l != []
    ensures Lies(l, sep, |l| - 1)
  {
    var n := |l| - 1;
    if n > 0 {
      JoinedStep(l, sep);
      JoinedLength(l[..n], sep);
      PlaceOfInit(l, |sep|, n - 1);
      hide Joined, LiesAt;
      LiesBehind(Joined(l[..n], sep) + sep, l[n]);
    }
  }

  lemma LiesEarlier(l: seq<Str>, sep: Str, i: nat)
    requires i < |l| - 1 && Lies(l[..|l| - 1], sep, i)
    ensures Lies(l, sep, i)
  {
    var n := |l| - 1;
    JoinedStep(l, sep);
    PlaceOfInit(l, |sep|, i);
    JoinedLength(l[..n], sep);
    hide Joined, LiesAt, Place;
    StaysInFront(Joined(l[..n], sep), sep, l[n], l[i], Place(l, |sep|, i), i + 1 < n);
  }

  lemma StaysInFront(a: Str, sep: Str, last: Str, part: Str, at: nat, more: bool)
    requires LiesAt(a, part, at)
    requires if more then LiesAt(a, sep, at + |part|) else at + |part| == |a|
    ensures LiesAt(a + sep + last, part, at) && LiesAt(a + sep + last, sep, at + |part|)
  {
    hide LiesAt;
    LiesInFront(a, sep, part, at);
    LiesInFront(a + sep, last, part, at);
    if more { LiesInFront(a, sep, sep, at + |part|); } else { LiesBehind(a, sep); }
    LiesInFront(a + sep, last, sep, at + |part|);
  }

  lemma {:induction false} AllLie(l: seq<Str>, sep: Str, i: nat)
    requires i < |l|
    ensures Lies(l, sep, i)
    decreases |l|
  {
    hide Lies;
    if i == |l| - 1 {
      LiesLast(l, sep);
    } else {
      AllLie(l[..|l| - 1], sep, i);
      LiesEarlier(l, sep, i);
    }
  }

  /** Joined strings lie one behind the other with one separator between two neighbours, and nothing else. */
  lemma JoinedPlaces(l: seq<Str>, sep: Str, i: nat)
    requires i < |l|
    ensures |Joined(l, sep)| == Place(l, |sep|, |l| - 1) + |l[|l| - 1]|
    ensures LiesAt(Joined(l, sep), l[i], Place(l, |sep|, i))
    ensures i + 1 < |l| ==> LiesAt(Joined(l, sep), sep, Place(l, |sep|, i) + |l[i]|)
  {
    JoinedLength(l, sep);
    AllLie(l, sep, i);
    hide Joined, LiesAt, Place;
  }

  lemma JoinedStep(l: seq<Str>, sep: Str)
    requires |l| > 1
    ensures Joined(l, sep) == Joined(l[..|l| - 1], sep) + sep + l[|l| - 1]
  {
  }

  class CompactVecString {
    var underlying: seq<byte>
    var index: seq<nat>

    ghost function View(): Packed
      reads this
    {
      Packed(underlying, index)
    }

    ghost predicate Valid()
      reads this
    {
      View().Valid()
    }

    ghost function Contents(): seq<Str>
      reads this
      requires Valid()
    {
      View().Items()
    }

    constructor ()
      ensures Valid() && Contents() == []
    {
      underlying, index := [], [];
    }

    method Push(s: Str)
      requires Valid()
      modifies this
      ensures Valid() && Contents() == old(Contents()) + [s]
    {
      PushAppends(View(), s);
      var len := |underlying|;
      underlying := underlying + s;
      index := index + [len];
    }

    method Pop()
      requires Valid()
      modifies this
      ensures Valid()
      ensures Contents() == if old(Contents()) == [] then [] else old(Contents())[..|old(Contents())| - 1]
    {
      if index != [] {
        assert index[|index| - 1] <= View().End(|index| - 1);
        PopRemovesLast(View());
        var i := index[|index| - 1];
        index := index[..|index| - 1];
        underlying := underlying[..i];
      }
    }

    method Extend(strings: seq<Str>)
      requires Valid()
      modifies this
      ensures Valid() && Contents() == old(Contents()) + strings
    {
      var i := 0;
      while i < |strings|
        invariant 0 <= i <= |strings|
        invariant Valid() && Contents() == old(Contents()) + strings[..i]
      {
        Push(strings[i]);
        i := i + 1;
      }
      assert strings[..i] == strings;
    }

    /** Pushes elements until one is not a string. */
    method ReadItems(items: seq<Json>) returns (ok: bool)
      requires Valid()
      modifies this
      ensures Valid() && (ok <==> FromItems(items).Some?)
      ensures ok ==> Contents() == old(Contents()) + FromItems(items).value
    {
      var i := 0;
      assert items[0..] == items;
      while i < |items|
        invariant 0 <= i <= |items| && Valid()
        invariant FromItems(items).Some? <==> FromItems(items[i..]).Some?
        invariant FromItems(items).Some? ==>
          old(Contents()) + FromItems(items).value == Contents() + FromItems(items[i..]).value
      {
        ghost var rest := items[i..];
        assert rest[1..] == items[i + 1..] && rest[0] == items[i];
        if !items[i].JsonString? {
          return false;
        }
        ghost var before := Contents();
        hide Packed.Valid, Packed.Items;
        Push(items[i].s);
        i := i + 1;
        if FromItems(rest).Some? { Associative(before, [rest[0].s], FromItems(items[i..]).value); }
      }
      return true;
    }

    method Get(i: nat) returns (r: Option<Str>)
      requires Valid()
      ensures r == if i < |Contents()| then Some(Contents()[i]) else None
    {
      if i >= |index| {
        return None;
      }
      var start := index[i];
      var end := if i + 1 < |index| then index[i + 1] else |underlying|;
      assert end == View().End(i);
      return Some(underlying[start..end]);
    }

    method Join(sep: Str) returns (r: Str)
      requires Valid()
      ensures r == Joined(Contents(), sep) && (Contents() == [] ==> r == [])
    {
      var l := ToList();
      r := [];
      var i := 0;
      while i < |l|
        invariant 0 <= i <= |l|
        invariant r == Joined(l[..i], sep)
      {
        r := if i == 0 then l[0] else r + sep + l[i];
        assert l[..i + 1][..i] == l[..i];
        i := i + 1;
      }
      assert l[..i] == l;
    }

    /** What the iterator yields: get at 0, 1, 2 and so on until there is nothing. */
    method ToList() returns (l: seq<Str>)
      requires Valid()
      ensures l == Contents()
    {
      l := [];
      var next := Get(0);
      while next.Some?
        invariant |l| <= |Contents()| && l == Contents()[..|l|]
        invariant next == if |l| < |Contents()| then Some(Contents()[|l|]) else None
        decreases |Contents()| - |l|
      {
        l := l + [next.value];
        next := Get(|l|);
      }
    }

    /** The derived comparison, which looks at the fields. */
    method Equals(other: CompactVecString) returns (r: bool)
      requires Valid() && other.Valid()
      ensures r <==> Contents() == other.Contents()
    {
      PackingIsCanonical(View(), other.View());
      r := underlying == other.underlying && index == other.index;
    }

    /** A single string stands for itself. */
    method Serialize() returns (j: Json)
      requires Valid()
      ensures j == ToJson(Contents())
    {
      if |index| == 1 {
        var s := Get(0);
        if s.Some? {
          return JsonString(s.value);
        }
      }
      var l := ToList();
      return JsonList(AsStrings(l));
    }
  }

  function AsStrings(l: seq<Str>): (r: seq<Json>)
    ensures |r| == |l| && forall i :: 0 <= i < |r| ==> r[i] == JsonString(l[i])
  {
    seq(|l|, i requires 0 <= i < |l| => JsonString(l[i]))
  }

  function ToJson(l: seq<Str>): Json {
    if |l| == 1 then JsonString(l[0]) else JsonList(AsStrings(l))
  }

  /** The list that a document stands for, if it stands for one. */
  function FromJson(j: Json): Option<seq<Str>> {
    match j
    case JsonString(s) => Some([s])
    case JsonList(items) => FromItems(items)
    case JsonOther => None
  }

  function FromItems(items: seq<Json>): Option<seq<Str>> {
    if items == [] then Some([])
    else if !items[0].JsonString? then None
    else
      var rest := FromItems(items[1..]);
      if rest.None? then None else Some([items[0].s] + rest.value)
  }

  method Deserialize(j: Json) returns (ok: bool, r: CompactVecString)
    ensures r.Valid() && fresh(r)
    ensures ok <==> FromJson(j).Some?
    ensures ok ==> r.Contents() == FromJson(j).value
  {
    r := new CompactVecString();
    match j {
      case JsonString(s) =>
        r.Push(s);
        return true, r;
      case JsonList(items) =>
        ok := r.ReadItems(items);
        return ok, r;
      case JsonOther =>
        return false, r;
    }
  }

  lemma {:induction false} StringsAreRead(l: seq<Str>)
    ensures FromItems(AsStrings(l)) == Some(l)
  {
    if l != [] {
      StringsAreRead(l[1..]);
      assert AsStrings(l)[1..] == AsStrings(l[1..]);
      assert [l[0]] + l[1..] == l;
    }
  }

  /** Deserializing undoes serializing, for a single string as well. */
  lemma JsonRoundTrip(l: seq<Str>)
    ensures FromJson(ToJson(l)) == Some(l)
  {
    if |l| == 1 {
      assert [l[0]] == l;
    } else {
      StringsAreRead(l);
    }
  }

  /** The one document that is not what serializing gives back: a list of one string. */
  lemma JsonIsNormal(j: Json)
    requires FromJson(j).Some?
    ensures ToJson(FromJson(j).value) == j <==> !(j.JsonList? && |j.items| == 1)
  {
    if j.JsonList? { ItemsAreStrings(j.items); }
  }

  lemma {:induction false} ItemsAreStrings(items: seq<Json>)
    requires FromItems(items).Some?
    ensures var l := FromItems(items).value;
            |l| == |items| && items == AsStrings(l)
  {
    if items != [] {
      ItemsAreStrings(items[1..]);
      assert items == [items[0]] + items[1..];
    }
  }
}
