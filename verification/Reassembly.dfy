/** Putting Hysteria fragments together again, whatever their order, duplication and interleaving, with
    entries expiring and the table being pruned in between. */
module Reassembly {
  import opened Options
  import opened Bytes

  const TTL: nat := 10_000
  const PRUNE_INTERVAL: nat := 1_000
  const MAX_ENTRIES: nat := 2048

  type Key = (u32, u16)

  /** A fragment as it arrives: its packet, its place in it, and its bytes. */
  datatype Frag = Frag(key: Key, id: byte, count: byte, payload: seq<byte>)

  datatype Entry = Entry(fragCount: byte, frags: seq<Option<seq<byte>>>, received: byte, createdAt: nat)

  type Table = map<Key, Entry>

  /** Client and server differ in what they do with a fragment that does not fit its entry. */
  datatype Side = Client | Server

  datatype State = State(table: Table, lastPrune: nat)

  /** Elapsed time; a clock that went back gives zero. */
  function Since(now: nat, t: nat): nat {
    if now > t then now - t else 0
  }

  function Retain(t: Table, now: nat): Table {
    map k | k in t && Since(now, t[k].createdAt) <= TTL :: t[k]
  }

  function Prune(s: State, now: nat): State {
    if Since(now, s.lastPrune) < PRUNE_INTERVAL && |s.table| < MAX_ENTRIES then s
    else
      var kept := Retain(s.table, now);
      State(if |kept| > MAX_ENTRIES then map[] else kept, now)
  }

  /** A prune is due a second after the last one, or when the table is full. */
  predicate Due(s: State, now: nat) {
    now >= s.lastPrune + 1000 || |s.table| >= 2048
  }

  /** The entries that are at most ten seconds old. */
  function Young(t: Table, now: nat): set<Key> {
    set k | k in t && now <= t[k].createdAt + 10_000
  }

  /** A prune that is not due changes nothing; one that is due keeps exactly the young entries, as they are,
      or none if there are more than 2048 of them. */
  lemma PruneIs(s: State, now: nat)
    ensures !Due(s, now) ==> Prune(s, now) == s
    ensures Due(s, now) ==> Prune(s, now).lastPrune == now
    ensures Due(s, now) ==>
      Prune(s, now).table.Keys == if |Young(s.table, now)| <= 2048 then Young(s.table, now) else {}
    ensures forall k :: k in Prune(s, now).table ==> k in s.table && Prune(s, now).table[k] == s.table[k]
  {
    assert Retain(s.table, now).Keys == Young(s.table, now);
  }

  function NewEntry(count: byte, now: nat): Entry {
    Entry(count, seq(count, i => None), 0, now)
  }

  function Open(t: Table, f: Frag, now: nat): Entry {
    if f.key in t then t[f.key] else NewEntry(f.count, now)
  }

  function Join(frags: seq<Option<seq<byte>>>): seq<byte> {
    if frags == [] then []
    else (if frags[0].Some? then frags[0].value else []) + Join(frags[1..])
  }

  function SaturatingInc(x: byte): byte {
    if x == 255 then 255 else x + 1
  }

  function Fill(e: Entry, f: Frag): Entry
    requires f.id as int < |e.frags|
  {
    if e.frags[f.id].Some? then e
    else e.(frags := e.frags[f.id := Some(f.payload)], received := SaturatingInc(e.received))
  }

  /** What one fragment does to the table, and the payload it completes. */
  function Accept(side: Side, t: Table, f: Frag, now: nat): (Table, Option<seq<byte>>)
    requires forall k :: k in t ==> |t[k].frags| == t[k].fragCount as int
  {
    if f.count <= 1 then (t, Some(f.payload))
    else
      var e := Open(t, f, now);
      if e.fragCount != f.count || Since(now, e.createdAt) > TTL then (t - {f.key}, None)
      else if f.id >= f.count then (if side.Server? then t - {f.key} else t[f.key := e], None)
      else
        var e' := Fill(e, f);
        if e'.received == f.count then (t - {f.key}, Some(Join(e'.frags)))
        else (t[f.key := e'], None)
  }

  function Receive(side: Side, s: State, f: Frag, now: nat): (State, Option<seq<byte>>)
    requires TableOk(s.table)
  {
    PruneKeepsTableOk(s, now);
    var p := Prune(s, now);
    var (t, out) := Accept(side, p.table, f, now);
    (State(t, p.lastPrune), out)
  }

  // ----- The bookkeeping: `received` is the number of filled slots, and never all of them.

  function Filled(frags: seq<Option<seq<byte>>>): set<nat> {
    set i: nat | i < |frags| && frags[i].Some?
  }

  ghost predicate EntryOk(e: Entry) {
    && |e.frags| == e.fragCount as int
    && e.received as int == |Filled(e.frags)| < e.fragCount as int
  }

  ghost predicate TableOk(t: Table) {
    forall k :: k in t ==> EntryOk(t[k])
  }

  lemma PruneKeepsTableOk(s: State, now: nat)
    requires TableOk(s.table)
    ensures TableOk(Prune(s, now).table)
  {
  }

  function UpTo(n: nat): (r: set<nat>)
    ensures |r| == n && forall i: nat :: i in r <==> i < n
  {
    if n == 0 then {} else UpTo(n - 1) + {n - 1}
  }

  lemma FilledBound(frags: seq<Option<seq<byte>>>)
    ensures Filled(frags) <= UpTo(|frags|) && |Filled(frags)| <= |frags|
    ensures |Filled(frags)| == |frags| ==> Filled(frags) == UpTo(|frags|)
  {
    Subset(Filled(frags), UpTo(|frags|));
  }

  lemma Subset(a: set<nat>, b: set<nat>)
    requires a <= b
    ensures |a| <= |b| && (|a| == |b| ==> a == b)
  {
    assert b == a + (b - a);
  }

  lemma FilledGrows(frags: seq<Option<seq<byte>>>, i: nat, payload: seq<byte>)
    requires i < |frags|
    ensures i in Filled(frags) <==> frags[i].Some?
    ensures Filled(frags[i := Some(payload)]) == Filled(frags) + {i}
  {
  }

  lemma FillFills(e: Entry, f: Frag)
    requires EntryOk(e) && f.id < e.fragCount
    ensures var e' := Fill(e, f);
            && |e'.frags| == |e.frags| && e'.fragCount == e.fragCount && e'.createdAt == e.createdAt
            && Filled(e'.frags) == Filled(e.frags) + {f.id as nat}
            && e'.received as int == |Filled(e'.frags)| <= |e'.frags|
  {
    var e' := Fill(e, f);
    FilledBound(e'.frags);
    FilledGrows(e.frags, f.id as nat, f.payload);
    hide Filled, UpTo;
    if e.frags[f.id].Some? {
      assert Filled(e.frags) + {f.id as nat} == Filled(e.frags);
    }
  }

  lemma NewEntryOk(count: byte, now: nat)
    requires count > 0
    ensures EntryOk(NewEntry(count, now)) && Filled(NewEntry(count, now).frags) == {}
  {
    assert Filled(NewEntry(count, now).frags) == {};
  }

  /** On any input at all, honest or not. */
  lemma AcceptKeepsTableOk(side: Side, t: Table, f: Frag, now: nat)
    requires TableOk(t)
    ensures TableOk(Accept(side, t, f, now).0)
  {
    if f.count > 1 {
      NewEntryOk(f.count, now);
      var e := Open(t, f, now);
      if f.id < e.fragCount { FillFills(e, f); }
    }
  }

  lemma SizeAfterUpdate(t: Table, k: Key, e: Entry)
    ensures |t - {k}| <= |t| && |t[k := e]| <= |t| + 1
    ensures k in t ==> |t[k := e]| == |t|
  {
    assert (t - {k}).Keys == t.Keys - {k} && t[k := e].Keys == t.Keys + {k};
    assert |t - {k}| == |(t - {k}).Keys| && |t[k := e]| == |t[k := e].Keys| && |t| == |t.Keys|;
  }

  lemma AcceptSize(side: Side, t: Table, f: Frag, now: nat)
    requires TableOk(t)
    ensures |Accept(side, t, f, now).0| <= |t| + 1
  {
    hide EntryOk;
    var e := Open(t, f, now);
    SizeAfterUpdate(t, f.key, e);
    if f.id as int < |e.frags| { SizeAfterUpdate(t, f.key, Fill(e, f)); }
  }

  /** On any input at all the bookkeeping stays right, and the table never exceeds 2049 entries. */
  lemma ReceiveBounded(side: Side, s: State, f: Frag, now: nat)
    requires TableOk(s.table)
    ensures TableOk(Receive(side, s, f, now).0.table)
    ensures |Receive(side, s, f, now).0.table| <= MAX_ENTRIES + 1
  {
    hide Accept, EntryOk;
    PruneKeepsTableOk(s, now);
    AcceptKeepsTableOk(side, Prune(s, now).table, f, now);
    AcceptSize(side, Prune(s, now).table, f, now);
  }

  // ----- Honest traffic.

  /** `sent` is the packet each key stands for at the moment, as its slices. */
  type Sent = map<Key, seq<seq<byte>>>

  /** The fragment is a slice of the packet its key stands for. */
  ghost predicate Honest(sent: Sent, f: Frag) {
    && f.key in sent
    && |sent[f.key]| == f.count as int
    && f.id < f.count
    && f.payload == sent[f.key][f.id]
  }

  ghost predicate EntryOf(e: Entry, slices: seq<seq<byte>>) {
    && e.fragCount as int == |slices| == |e.frags|
    && forall i :: 0 <= i < |slices| && e.frags[i].Some? ==> e.frags[i].value == slices[i]
  }

  ghost predicate Consistent(t: Table, sent: Sent) {
    && TableOk(t)
    && forall k :: k in t ==> k in sent && EntryOf(t[k], sent[k])
  }

  lemma {:induction false} JoinFull(frags: seq<Option<seq<byte>>>, slices: seq<seq<byte>>)
    requires |frags| == |slices|
    requires forall i :: 0 <= i < |frags| ==> frags[i] == Some(slices[i])
    ensures Join(frags) == Concat(slices)
  {
    if frags != [] {
      JoinFull(frags[1..], slices[1..]);
    }
  }

  lemma OneSlice(slices: seq<seq<byte>>)
    requires |slices| == 1
    ensures Concat(slices) == slices[0]
  {
    assert slices == [slices[0]];
  }

  /** The slots that are filled once `f` has been received into entry `e`. */
  function WithFrag(e: Entry, f: Frag): set<nat> {
    Filled(e.frags) + {f.id as nat}
  }

  lemma FillHonest(e: Entry, f: Frag, slices: seq<seq<byte>>)
    requires EntryOk(e) && EntryOf(e, slices) && f.id < e.fragCount && f.payload == slices[f.id]
    ensures EntryOf(Fill(e, f), slices) && Filled(Fill(e, f).frags) == WithFrag(e, f)
    ensures Fill(e, f).createdAt == e.createdAt
    ensures Fill(e, f).received == e.fragCount <==> WithFrag(e, f) == UpTo(|slices|)
    ensures Fill(e, f).received == e.fragCount ==> Join(Fill(e, f).frags) == Concat(slices)
  {
    FillFills(e, f);
    var e' := Fill(e, f);
    FilledBound(e'.frags);
    if e'.received == e.fragCount {
      forall i | 0 <= i < |e'.frags| ensures e'.frags[i] == Some(slices[i]) {
        assert i in UpTo(|slices|);
        assert i in Filled(e'.frags);
      }
      JoinFull(e'.frags, slices);
    }
  }

  lemma OpenHonest(t: Table, sent: Sent, f: Frag, now: nat)
    requires Consistent(t, sent) && Honest(sent, f) && f.count > 1
    ensures EntryOk(Open(t, f, now)) && EntryOf(Open(t, f, now), sent[f.key]) && Open(t, f, now).fragCount == f.count
    ensures f.key !in t ==> Filled(Open(t, f, now).frags) == {}
  {
    NewEntryOk(f.count, now);
  }

  /** An honest, live fragment is stored in its slot; when it is the last missing one, and only then,
      the packet comes out whole. */
  lemma AcceptHonest(side: Side, t: Table, sent: Sent, f: Frag, now: nat)
    requires Consistent(t, sent) && Honest(sent, f) && f.count > 1
    requires Since(now, Open(t, f, now).createdAt) <= TTL
    ensures WithFrag(Open(t, f, now), f) == UpTo(f.count as nat) ==>
              Accept(side, t, f, now) == (t - {f.key}, Some(Concat(sent[f.key])))
    ensures WithFrag(Open(t, f, now), f) != UpTo(f.count as nat) ==>
              exists e :: Accept(side, t, f, now) == (t[f.key := e], None) && EntryOf(e, sent[f.key]) &&
                          Filled(e.frags) == WithFrag(Open(t, f, now), f)
  {
    OpenHonest(t, sent, f, now);
    var e := Open(t, f, now);
    FillHonest(e, f, sent[f.key]);
    hide EntryOk, EntryOf, Filled, WithFrag, Open, Fill;
    var e' := Fill(e, f);
    assert Accept(side, t, f, now) ==
           if e'.received == f.count then (t - {f.key}, Some(Join(e'.frags))) else (t[f.key := e'], None);
  }

  /** Whatever is emitted is exactly a packet that was sent. */
  lemma AcceptSafe(side: Side, t: Table, sent: Sent, f: Frag, now: nat)
    requires Consistent(t, sent) && Honest(sent, f)
    ensures Consistent(Accept(side, t, f, now).0, sent)
    ensures Accept(side, t, f, now).1.Some? ==> Accept(side, t, f, now).1.value == Concat(sent[f.key])
  {
    AcceptKeepsTableOk(side, t, f, now);
    if f.count <= 1 {
      OneSlice(sent[f.key]);
    } else if Since(now, Open(t, f, now).createdAt) <= TTL {
      AcceptHonest(side, t, sent, f, now);
    }
  }

  // ----- Runs.

  /** A sender may give a key to a new packet; a fragment arrives at a time. */
  datatype Event = Send(key: Key, slices: seq<seq<byte>>) | Arrive(frag: Frag, now: nat)

  /** The receiver with what its environment has sent so far. */
  datatype World = World(s: State, sent: Sent)

  ghost predicate WorldOk(w: World) {
    Consistent(w.s.table, w.sent)
  }

  /** Keys are not reused while an entry for them is alive, and fragments are honest. */
  ghost predicate Enabled(w: World, ev: Event) {
    match ev
    case Send(k, slices) => k !in w.s.table && 1 <= |slices| <= 255
    case Arrive(f, _) => Honest(w.sent, f)
  }

  function Next(side: Side, w: World, ev: Event): World
    requires TableOk(w.s.table)
  {
    match ev
    case Send(k, slices) => w.(sent := w.sent[k := slices])
    case Arrive(f, now) => w.(s := Receive(side, w.s, f, now).0)
  }

  function Emitted(side: Side, w: World, ev: Event): Option<seq<byte>>
    requires TableOk(w.s.table)
  {
    match ev
    case Send(_, _) => None
    case Arrive(f, now) => Receive(side, w.s, f, now).1
  }

  lemma NextIsSafe(side: Side, w: World, ev: Event)
    requires WorldOk(w) && Enabled(w, ev)
    ensures WorldOk(Next(side, w, ev))
    ensures Emitted(side, w, ev).Some? ==> ev.Arrive? && Emitted(side, w, ev).value == Concat(w.sent[ev.frag.key])
  {
    if ev.Arrive? {
      PruneKeepsTableOk(w.s, ev.now);
      AcceptSafe(side, Prune(w.s, ev.now).table, w.sent, ev.frag, ev.now);
    }
  }

  lemma NextKeepsTableOk(side: Side, w: World, ev: Event)
    requires TableOk(w.s.table)
    ensures TableOk(Next(side, w, ev).s.table)
  {
    if ev.Arrive? {
      PruneKeepsTableOk(w.s, ev.now);
      AcceptKeepsTableOk(side, Prune(w.s, ev.now).table, ev.frag, ev.now);
    }
  }

  ghost predicate AllEnabled(side: Side, w: World, evs: seq<Event>)
    requires TableOk(w.s.table)
    decreases |evs|
  {
    if evs == [] then true
    else
      NextKeepsTableOk(side, w, evs[0]);
      Enabled(w, evs[0]) && AllEnabled(side, Next(side, w, evs[0]), evs[1..])
  }

  /** A run starts in order, and each of its events may happen. */
  ghost predicate Run(side: Side, w: World, evs: seq<Event>) {
    WorldOk(w) && AllEnabled(side, w, evs)
  }

  lemma RunNext(side: Side, w: World, evs: seq<Event>)
    requires Run(side, w, evs) && evs != []
    ensures Enabled(w, evs[0]) && Run(side, Next(side, w, evs[0]), evs[1..])
  {
    NextIsSafe(side, w, evs[0]);
  }

  lemma RunOne(side: Side, w: World, ev: Event)
    requires WorldOk(w) && Enabled(w, ev)
    ensures Run(side, w, [ev]) && WorldOk(Next(side, w, ev))
  {
    NextIsSafe(side, w, ev);
    assert [ev][1..] == [];
  }

  /** Everything emitted over a run, with the packet its key stood for at that moment. */
  function Outputs(side: Side, w: World, evs: seq<Event>): seq<(seq<byte>, seq<byte>)>
    requires Run(side, w, evs)
    decreases |evs|
  {
    if evs == [] then []
    else
      RunNext(side, w, evs);
      var out := Emitted(side, w, evs[0]);
      (if out.Some? && evs[0].Arrive? && evs[0].frag.key in w.sent
       then [(out.value, Concat(w.sent[evs[0].frag.key]))] else [])
      + Outputs(side, Next(side, w, evs[0]), evs[1..])
  }

  /** Over every run, every payload emitted is exactly one sent packet. */
  lemma {:induction false} RunIsSafe(side: Side, w: World, evs: seq<Event>)
    requires Run(side, w, evs)
    ensures forall i :: 0 <= i < |Outputs(side, w, evs)| ==> Outputs(side, w, evs)[i].0 == Outputs(side, w, evs)[i].1
    decreases |evs|
  {
    if evs != [] {
      RunNext(side, w, evs);
      NextIsSafe(side, w, evs[0]);
      RunIsSafe(side, Next(side, w, evs[0]), evs[1..]);
    }
  }

  // ----- Nothing lost: the last missing fragment completes its packet.

  function Final(side: Side, w: World, evs: seq<Event>): World
    requires Run(side, w, evs)
    decreases |evs|
  {
    if evs == [] then w
    else
      RunNext(side, w, evs);
      Final(side, Next(side, w, evs[0]), evs[1..])
  }

  /** The fragments of packet k that arrive. */
  function Ids(evs: seq<Event>, k: Key): set<nat> {
    if evs == [] then {}
    else (if evs[0].Arrive? && evs[0].frag.key == k then {evs[0].frag.id as nat} else {}) + Ids(evs[1..], k)
  }

  /** The entry of k is not too old when one of its fragments arrives, a prune that is due finds it young and at
      most 2048 young entries, and its key is not taken again. */
  ghost predicate Kept(side: Side, w: World, evs: seq<Event>, k: Key)
    requires Run(side, w, evs)
    decreases |evs|
  {
    if evs == [] then true
    else
      RunNext(side, w, evs);
      && (match evs[0]
          case Send(k', _) => k' != k
          case Arrive(f, now) => k in w.s.table ==>
            && (Due(w.s, now) ==> k in Young(w.s.table, now) && |Young(w.s.table, now)| <= 2048)
            && (f.key == k ==> k in Young(w.s.table, now)))
      && Kept(side, Next(side, w, evs[0]), evs[1..], k)
  }

  function Got(t: Table, k: Key): set<nat> {
    if k in t then Filled(t[k].frags) else {}
  }

  lemma PruneSame(s: State, now: nat, k: Key)
    requires k in Prune(s, now).table
    ensures k in s.table && Prune(s, now).table[k] == s.table[k]
  {
  }

  lemma OtherKeys(side: Side, t: Table, f: Frag, now: nat, k: Key)
    requires TableOk(t) && f.key != k
    ensures Got(Accept(side, t, f, now).0, k) == Got(t, k)
  {
  }

  lemma GotAfterPrune(s: State, now: nat, k: Key)
    requires k in s.table ==> k in Prune(s, now).table
    ensures Got(Prune(s, now).table, k) == Got(s.table, k)
  {
  }

  /** A kept fragment of packet k joins what was got of it, or completes it. */
  lemma OwnFragment(side: Side, s: State, sent: Sent, f: Frag, now: nat)
    requires Consistent(s.table, sent) && Honest(sent, f) && f.count > 1
    requires f.key in s.table ==> f.key in Prune(s, now).table && Since(now, s.table[f.key].createdAt) <= TTL
    ensures var got := Got(s.table, f.key) + {f.id as nat};
            var (s', out) := Receive(side, s, f, now);
            if got == UpTo(f.count as nat) then out == Some(Concat(sent[f.key]))
            else out == None && Got(s'.table, f.key) == got
  {
    PruneKeepsTableOk(s, now);
    var t := Prune(s, now).table;
    GotAfterPrune(s, now, f.key);
    if f.key in t { PruneSame(s, now, f.key); }
    OpenHonest(t, sent, f, now);
    assert WithFrag(Open(t, f, now), f) == Got(s.table, f.key) + {f.id as nat};
    hide Prune, Open, EntryOf, Accept, UpTo;
    AcceptHonest(side, t, sent, f, now);
  }

  lemma OtherFragment(side: Side, s: State, f: Frag, now: nat, k: Key)
    requires TableOk(s.table) && f.key != k
    requires k in s.table ==> k in Prune(s, now).table
    ensures Got(Receive(side, s, f, now).0.table, k) == Got(s.table, k)
  {
    PruneKeepsTableOk(s, now);
    GotAfterPrune(s, now, k);
    OtherKeys(side, Prune(s, now).table, f, now, k);
  }

  lemma StepCollects(side: Side, w: World, ev: Event, k: Key)
    requires WorldOk(w) && Enabled(w, ev) && Run(side, w, [ev]) && Kept(side, w, [ev], k)
    requires k in w.sent && |w.sent[k]| > 1
    ensures var got := Got(w.s.table, k) + Ids([ev], k);
            && (ev.Send? || ev.frag.key != k || got != UpTo(|w.sent[k]|) ==> Got(Next(side, w, ev).s.table, k) == got)
            && (ev.Arrive? && ev.frag.key == k ==>
                  Emitted(side, w, ev) == if got == UpTo(|w.sent[k]|) then Some(Concat(w.sent[k])) else None)
            && k in Next(side, w, ev).sent && Next(side, w, ev).sent[k] == w.sent[k]
  {
    assert Ids([ev], k) == if ev.Arrive? && ev.frag.key == k then {ev.frag.id as nat} else {};
    if ev.Arrive? {
      PruneIs(w.s, ev.now);
      hide Prune, Receive, Got, UpTo;
      if ev.frag.key == k {
        OwnFragment(side, w.s, w.sent, ev.frag, ev.now);
      } else {
        OtherFragment(side, w.s, ev.frag, ev.now, k);
      }
    }
  }

  /** No packet k comes out of the run. */
  ghost predicate NoneEmitted(side: Side, w: World, evs: seq<Event>, k: Key)
    requires Run(side, w, evs)
    decreases |evs|
  {
    if evs == [] then true
    else
      RunNext(side, w, evs);
      && (evs[0].Arrive? && evs[0].frag.key == k ==> Emitted(side, w, evs[0]).None?)
      && NoneEmitted(side, Next(side, w, evs[0]), evs[1..], k)
  }

  lemma {:induction false} RunCollects(side: Side, w: World, evs: seq<Event>, k: Key)
    requires Run(side, w, evs) && Kept(side, w, evs, k)
    requires k in w.sent && |w.sent[k]| > 1
    requires Got(w.s.table, k) + Ids(evs, k) < UpTo(|w.sent[k]|)
    ensures Got(Final(side, w, evs).s.table, k) == Got(w.s.table, k) + Ids(evs, k)
    ensures NoneEmitted(side, w, evs, k)
    ensures k in Final(side, w, evs).sent && Final(side, w, evs).sent[k] == w.sent[k]
    decreases |evs|
  {
    hide Got, Receive, Honest, EntryOf, EntryOk, UpTo, Prune;
    if evs != [] {
      RunNext(side, w, evs);
      OneEvent(side, w, evs, k);
      StepCollects(side, w, evs[0], k);
      RunCollects(side, Next(side, w, evs[0]), evs[1..], k);
    }
  }

  lemma OneEvent(side: Side, w: World, evs: seq<Event>, k: Key)
    requires Run(side, w, evs) && Kept(side, w, evs, k) && evs != []
    ensures Run(side, w, [evs[0]]) && Kept(side, w, [evs[0]], k)
    ensures Ids(evs, k) == Ids([evs[0]], k) + Ids(evs[1..], k)
  {
    RunNext(side, w, evs);
    assert [evs[0]][1..] == [];
  }

  /** In whatever order and however often the fragments of a packet arrive, and whatever arrives in
      between: as long as its entry is not lost, nothing comes out until the last missing fragment,
      and then the packet does. */
  lemma LastFragmentCompletes(side: Side, w: World, evs: seq<Event>, last: Event, k: Key)
    requires Run(side, w, evs) && Kept(side, w, evs, k) && k !in w.s.table
    requires k in w.sent && |w.sent[k]| > 1
    requires Run(side, Final(side, w, evs), [last]) && Kept(side, Final(side, w, evs), [last], k)
    requires last.Arrive? && last.frag.key == k
    requires Ids(evs, k) < UpTo(|w.sent[k]|) && Ids(evs, k) + {last.frag.id as nat} == UpTo(|w.sent[k]|)
    ensures NoneEmitted(side, w, evs, k)
    ensures Emitted(side, Final(side, w, evs), last) == Some(Concat(w.sent[k]))
  {
    hide Receive, Honest, Consistent, Prune, Run, Kept;
    RunCollects(side, w, evs, k);
    var v := Final(side, w, evs);
    RunHead(side, v, last);
    NotGotYet(w.s.table, k);
    OneId(last, k);
    hide Final, NoneEmitted, Got, Ids, UpTo, Emitted, WorldOk, Next;
    StepCollects(side, v, last, k);
    assert {} + Ids(evs, k) == Ids(evs, k);
  }

  lemma NotGotYet(t: Table, k: Key)
    requires k !in t
    ensures Got(t, k) == {}
  {
  }

  lemma OneId(ev: Event, k: Key)
    requires ev.Arrive? && ev.frag.key == k
    ensures Ids([ev], k) == {ev.frag.id as nat}
  {
    assert [ev][1..] == [];
  }

  lemma RunHead(side: Side, w: World, ev: Event)
    requires Run(side, w, [ev])
    ensures WorldOk(w) && Enabled(w, ev)
  {
  }

  // ----- For example: two fragments, the second first, with a prune between or not.

  function Pair(k: Key, a: seq<byte>, b: seq<byte>): Sent {
    map[k := [a, b]]
  }

  /** The receiver after the second fragment of a pair arrived at time t. */
  function HalfOfPair(k: Key, b: seq<byte>, last: nat, t: nat): State {
    State(map[k := Entry(2, [None, Some(b)], 1, t)], if t >= last + 1000 then t else last)
  }

  lemma FirstOfPair(side: Side, k: Key, b: seq<byte>, last: nat, t: nat)
    ensures Receive(side, State(map[], last), Frag(k, 1, 2, b), t) == (HalfOfPair(k, b, last, t), None)
  {
    var f := Frag(k, 1, 2, b);
    var s := State(map[], last);
    var e := NewEntry(2, t);
    PruneIs(s, t);
    assert Prune(s, t) == State(map[], if t >= last + 1000 then t else last);
    assert e.frags == [None, None];
    assert Fill(e, f).frags == [None, Some(b)];
  }

  lemma PairStarts(side: Side, k: Key, a: seq<byte>, b: seq<byte>, last: nat, t: nat)
    ensures var w, first := World(State(map[], last), Pair(k, a, b)), Arrive(Frag(k, 1, 2, b), t);
            && Run(side, w, [first]) && Kept(side, w, [first], k)
            && Final(side, w, [first]) == World(HalfOfPair(k, b, last, t), Pair(k, a, b))
            && WorldOk(Final(side, w, [first]))
  {
    var w, first := World(State(map[], last), Pair(k, a, b)), Arrive(Frag(k, 1, 2, b), t);
    FirstOfPair(side, k, b, last, t);
    assert WorldOk(w) && Enabled(w, first);
    RunOne(side, w, first);
    hide Receive, Honest, Consistent, Prune, AllEnabled;
    assert [first][1..] == [];
  }

  lemma PairEnds(side: Side, k: Key, a: seq<byte>, b: seq<byte>, last: nat, t: nat, t': nat)
    requires WorldOk(World(HalfOfPair(k, b, last, t), Pair(k, a, b))) && t' <= t + 10_000
    ensures var w, second := World(HalfOfPair(k, b, last, t), Pair(k, a, b)), Arrive(Frag(k, 0, 2, a), t');
            Run(side, w, [second]) && Kept(side, w, [second], k)
  {
    var w, second := World(HalfOfPair(k, b, last, t), Pair(k, a, b)), Arrive(Frag(k, 0, 2, a), t');
    assert Enabled(w, second);
    assert Young(w.s.table, t') == {k};
    RunOne(side, w, second);
    hide Receive, Honest, Consistent, Prune, AllEnabled;
    assert [second][1..] == [];
  }

  /** The entry has expired: the packet is not completed, whether a prune is due or not. */
  lemma PairExpires(side: Side, k: Key, a: seq<byte>, b: seq<byte>, last: nat, t: nat, t': nat)
    requires TableOk(HalfOfPair(k, b, last, t).table) && t' > t + 10_000
    ensures Receive(side, HalfOfPair(k, b, last, t), Frag(k, 0, 2, a), t').1 == None
  {
    var s, f := HalfOfPair(k, b, last, t), Frag(k, 0, 2, a);
    PruneIs(s, t');
    assert Young(s.table, t') == {};
    var p := Prune(s, t');
    if k !in p.table {
      var e := NewEntry(2, t');
      assert e.frags == [None, None];
      assert Fill(e, f).received == 1;
    }
  }

  /** Two fragments within ten seconds make the packet, and later ones do not: on either side, for all payloads
      and times, through a prune or not. */
  lemma PairCompletes(side: Side, k: Key, a: seq<byte>, b: seq<byte>, last: nat, t: nat, t': nat)
    ensures var w, first := World(State(map[], last), Pair(k, a, b)), Arrive(Frag(k, 1, 2, b), t);
            && Run(side, w, [first]) && NoneEmitted(side, w, [first], k)
            && WorldOk(Final(side, w, [first]))
            && Emitted(side, Final(side, w, [first]), Arrive(Frag(k, 0, 2, a), t')) ==
               if t' <= t + 10_000 then Some(a + b) else None
  {
    var w, first := World(State(map[], last), Pair(k, a, b)), Arrive(Frag(k, 1, 2, b), t);
    var second := Arrive(Frag(k, 0, 2, a), t');
    PairStarts(side, k, a, b, last, t);
    FirstEmitsNothing(side, k, a, b, last, t);
    hide Receive, Honest, Consistent, Prune, Run, Kept, NoneEmitted, Final, Ids, UpTo, Concat, HalfOfPair;
    if t' <= t + 10_000 {
      PairEnds(side, k, a, b, last, t, t');
      PairIds(k, a, b, t);
      LastFragmentCompletes(side, w, [first], second, k);
    } else {
      PairExpires(side, k, a, b, last, t, t');
    }
  }

  lemma FirstEmitsNothing(side: Side, k: Key, a: seq<byte>, b: seq<byte>, last: nat, t: nat)
    requires Run(side, World(State(map[], last), Pair(k, a, b)), [Arrive(Frag(k, 1, 2, b), t)])
    ensures NoneEmitted(side, World(State(map[], last), Pair(k, a, b)), [Arrive(Frag(k, 1, 2, b), t)], k)
  {
    FirstOfPair(side, k, b, last, t);
    hide Receive, Prune;
    assert [Arrive(Frag(k, 1, 2, b), t)][1..] == [];
  }

  lemma PairIds(k: Key, a: seq<byte>, b: seq<byte>, t: nat)
    ensures Ids([Arrive(Frag(k, 1, 2, b), t)], k) < UpTo(2)
    ensures Ids([Arrive(Frag(k, 1, 2, b), t)], k) + {0 as nat} == UpTo(2)
    ensures Concat([a, b]) == a + b
  {
    assert UpTo(1) == {0};
    assert 0 !in Ids([Arrive(Frag(k, 1, 2, b), t)], k);
    assert [a, b][1..] == [b];
    ConcatOne(b);
  }

  // ----- Fragments that do not fit.

  /** A fragment that is there already changes nothing: the first payload for a slot wins. */
  lemma DuplicateChangesNothing(side: Side, t: Table, f: Frag, now: nat)
    requires TableOk(t) && f.key in t && f.count > 1 && f.id < f.count
    requires t[f.key].fragCount == f.count && f.key in Young(t, now) && t[f.key].frags[f.id].Some?
    ensures Accept(side, t, f, now) == (t, None)
  {
    assert t[f.key := t[f.key]] == t;
  }

  /** A fragment that disagrees about the number of fragments, or comes too late, ends the packet. */
  lemma MisfitEndsPacket(side: Side, t: Table, f: Frag, now: nat)
    requires TableOk(t) && f.key in t && f.count > 1
    requires t[f.key].fragCount != f.count || f.key !in Young(t, now)
    ensures Accept(side, t, f, now) == (t - {f.key}, None)
  {
  }

  /** A fragment whose place is beyond the number of fragments ends the packet on the server, and is ignored on
      the client, where it leaves an empty entry if there was none. */
  lemma PlaceBeyondCount(side: Side, t: Table, f: Frag, now: nat)
    requires TableOk(t) && f.count > 1 && f.id >= f.count
    requires f.key in t ==> t[f.key].fragCount == f.count && f.key in Young(t, now)
    ensures side.Server? ==> Accept(side, t, f, now) == (t - {f.key}, None)
    ensures side.Client? && f.key in t ==> Accept(side, t, f, now) == (t, None)
    ensures side.Client? && f.key !in t ==>
      Accept(side, t, f, now) == (t[f.key := Entry(f.count, seq(f.count, i => None), 0, now)], None)
  {
    if f.key in t { assert t[f.key := t[f.key]] == t; }
  }
}
