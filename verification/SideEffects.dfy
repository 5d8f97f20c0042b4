/** Reversible system changes: a stack of undos, a copy of it on disk, rollback, and recovery after a crash. */
module SideEffects {
  import opened Options

  datatype Undo =
    | Command(cmd: string, args: seq<string>)
    | WriteFile(path: string, content: string)
    | DeleteFile(path: string)

  datatype Entry = Entry(description: string, undo: Undo)

  /** What the persisted file can hold. */
  datatype SavedFile = Saved(entries: seq<Entry>) | Blank | Garbage

  /** Undoing a list of changes, last first. A failing undo is a change that `exec` makes as well. */
  function Rollback<S>(exec: (S, Undo) -> S, s: S, entries: seq<Entry>): S {
    if entries == [] then s
    else
      var last := |entries| - 1;
      Rollback(exec, exec(s, entries[last].undo), entries[..last])
  }

  /** What recovery makes of the system that it finds. */
  function Recovered<S>(exec: (S, Undo) -> S, s: S, file: Option<SavedFile>): S {
    if file.Some? && file.value.Saved? then Rollback(exec, s, file.value.entries) else s
  }

  /** The system, and the file that outlives a crash. */
  class Machine<S> {
    var state: S
    var saved: Option<SavedFile>

    constructor (state: S, saved: Option<SavedFile>)
      ensures this.state == state && this.saved == saved
    {
      this.state, this.saved := state, saved;
    }
  }

  /** Recovery walks the persisted list backwards. */
  method Recover<S>(machine: Machine<S>, exec: (S, Undo) -> S)
    modifies machine
    ensures machine.state == Recovered(exec, old(machine.state), old(machine.saved))
    ensures machine.saved == if old(machine.saved) == Some(Blank) then Some(Blank) else None
  {
    if machine.saved.None? || machine.saved.value.Blank? {
      return;
    }
    if machine.saved.value.Garbage? || machine.saved.value.entries == [] {
      machine.saved := None;
      return;
    }
    var entries := machine.saved.value.entries;
    var i := |entries|;
    assert entries[..i] == entries;
    while i > 0
      invariant 0 <= i <= |entries|
      invariant Rollback(exec, machine.state, entries[..i]) == Rollback(exec, old(machine.state), entries)
    {
      i := i - 1;
      assert entries[..i + 1][..i] == entries[..i];
      machine.state := exec(machine.state, entries[i].undo);
    }
    machine.saved := None;
  }

  class SideEffectManager<S> {
    const machine: Machine<S>
    const persists: bool
    var entries: seq<Entry>

    /** A crash now would leave on disk what a rollback would use. */
    ghost predicate Synced()
      reads this, machine
    {
      entries != [] ==> machine.saved == Some(Saved(entries))
    }

    constructor (machine: Machine<S>, persists: bool)
      ensures this.machine == machine && this.persists == persists && entries == [] && Synced()
    {
      this.machine, this.persists, this.entries := machine, persists, [];
    }

    /** The action runs; only if it succeeds is its undo remembered, in memory and on disk. `failedWrite` is
        what a failing write leaves on disk, if it fails. */
    method Apply(description: string, action: S -> Option<S>, undo: Undo, failedWrite: Option<Option<SavedFile>>)
      returns (ok: bool)
      modifies this, machine
      ensures ok == action(old(machine.state)).Some?
      ensures ok ==> machine.state == action(old(machine.state)).value
      ensures ok ==> entries == old(entries) + [Entry(description, undo)]
      ensures !ok ==> machine.state == old(machine.state) && entries == old(entries) && machine.saved == old(machine.saved)
      ensures ok && !persists ==> machine.saved == old(machine.saved)
      ensures ok && persists ==> machine.saved == if failedWrite.None? then Some(Saved(entries)) else failedWrite.value
      ensures persists && failedWrite.None? && old(Synced()) ==> Synced()
    {
      var next := action(machine.state);
      if next.None? {
        return false;
      }
      machine.state := next.value;
      entries := entries + [Entry(description, undo)];
      if persists {
        machine.saved := if failedWrite.None? then Some(Saved(entries)) else failedWrite.value;
      }
      return true;
    }

    method RollbackAll(exec: (S, Undo) -> S)
      modifies this, machine
      ensures machine.state == Rollback(exec, old(machine.state), old(entries))
      ensures entries == []
      ensures machine.saved == if persists then None else old(machine.saved)
    {
      while entries != []
        invariant machine.saved == old(machine.saved)
        invariant Rollback(exec, machine.state, entries) == Rollback(exec, old(machine.state), old(entries))
        decreases |entries|
      {
        var entry := entries[|entries| - 1];
        entries := entries[..|entries| - 1];
        machine.state := exec(machine.state, entry.undo);
      }
      if persists {
        machine.saved := None;
      }
    }
  }

  // ----- Whole runs.

  /** One call of apply. The undo may depend on what is read just before. */
  datatype Step<!S> = Step(description: string, act: S -> Option<S>, undo: S -> Undo, mandatory: bool)

  datatype Progress<S> = Progress(state: S, entries: seq<Entry>, ok: bool)

  function Do<S>(p: Progress<S>, step: Step<S>): Progress<S> {
    var next := step.act(p.state);
    if next.None? then p.(ok := !step.mandatory)
    else Progress(next.value, p.entries + [Entry(step.description, step.undo(p.state))], true)
  }

  /** Calls in a row, up to the first failing mandatory one. */
  function Run<S>(p: Progress<S>, steps: seq<Step<S>>): Progress<S>
    decreases |steps|
  {
    if !p.ok || steps == [] then p else Run(Do(p, steps[0]), steps[1..])
  }

  /** A step whose undo takes the system back to where it was. */
  ghost predicate Inverts<S>(exec: (S, Undo) -> S, s: S, step: Step<S>) {
    step.act(s).Some? ==> exec(step.act(s).value, step.undo(s)) == s
  }

  /** Every step of the run inverts in the state in which it is taken. */
  ghost predicate InvertsAlong<S>(exec: (S, Undo) -> S, p: Progress<S>, steps: seq<Step<S>>)
    decreases |steps|
  {
    p.ok && steps != [] ==> Inverts(exec, p.state, steps[0]) && InvertsAlong(exec, Do(p, steps[0]), steps[1..])
  }

  lemma DoneIsUndone<S>(exec: (S, Undo) -> S, p: Progress<S>, step: Step<S>)
    requires Inverts(exec, p.state, step)
    ensures Rollback(exec, Do(p, step).state, Do(p, step).entries) == Rollback(exec, p.state, p.entries)
  {
    var q := Do(p, step);
    if step.act(p.state).Some? {
      assert q.entries[..|q.entries| - 1] == p.entries;
    }
  }

  /** However calls succeed and fail, and wherever the run stops, rollback goes back to where it began. */
  lemma {:induction false} RunIsUndone<S>(exec: (S, Undo) -> S, p: Progress<S>, steps: seq<Step<S>>)
    requires InvertsAlong(exec, p, steps)
    ensures var q := Run(p, steps); Rollback(exec, q.state, q.entries) == Rollback(exec, p.state, p.entries)
    decreases |steps|
  {
    if p.ok && steps != [] {
      DoneIsUndone(exec, p, steps[0]);
      RunIsUndone(exec, Do(p, steps[0]), steps[1..]);
    }
  }

  /** The file after a run of a manager that began with none and could always write it. */
  function FileAfter<S>(p: Progress<S>): Option<SavedFile> {
    if p.entries == [] then None else Some(Saved(p.entries))
  }

  lemma {:induction false} PrefixInverts<S>(exec: (S, Undo) -> S, p: Progress<S>, steps: seq<Step<S>>, n: nat)
    requires n <= |steps| && InvertsAlong(exec, p, steps)
    ensures InvertsAlong(exec, p, steps[..n])
    decreases |steps|
  {
    if p.ok && n > 0 {
      PrefixInverts(exec, Do(p, steps[0]), steps[1..], n - 1);
      assert steps[..n][1..] == steps[1..][..n - 1];
    }
  }

  /** A crash after any number of calls: recovery does what a rollback would have done, and the system is
      what it was before the first call. */
  lemma CrashIsUndone<S>(exec: (S, Undo) -> S, s: S, steps: seq<Step<S>>, n: nat)
    requires n <= |steps| && InvertsAlong(exec, Progress(s, [], true), steps)
    ensures var q := Run(Progress(s, [], true), steps[..n]);
            && Recovered(exec, q.state, FileAfter(q)) == Rollback(exec, q.state, q.entries)
            && Recovered(exec, q.state, FileAfter(q)) == s
  {
    var p := Progress(s, [], true);
    PrefixInverts(exec, p, steps, n);
    RunIsUndone(exec, p, steps[..n]);
  }

  lemma {:induction false} RunSplits<S>(p: Progress<S>, steps: seq<Step<S>>, n: nat)
    requires n <= |steps|
    ensures Run(p, steps) == Run(Run(p, steps[..n]), steps[n..])
    decreases |steps|
  {
    if n > 0 && p.ok {
      RunSplits(Do(p, steps[0]), steps[1..], n - 1);
      assert steps[..n][1..] == steps[1..][..n - 1];
      assert steps[n..] == steps[1..][n - 1..];
    }
  }

  // ----- The manager takes these steps, and keeps that file.

  method ApplyStep<S>(manager: SideEffectManager<S>, step: Step<S>, failedWrite: Option<Option<SavedFile>>)
    returns (ok: bool)
    modifies manager, manager.machine
    ensures ok == step.act(old(manager.machine.state)).Some?
    ensures Progress(manager.machine.state, manager.entries, ok || !step.mandatory) ==
            Do(Progress(old(manager.machine.state), old(manager.entries), true), step)
    ensures manager.persists && failedWrite.None? && old(manager.Synced()) ==> manager.Synced()
    ensures !ok ==> manager.machine.saved == old(manager.machine.saved)
  {
    ok := manager.Apply(step.description, step.act, step.undo(manager.machine.state), failedWrite);
  }

  /** The file that goes with the manager's entries, from a manager that found no file. */
  ghost predicate FileIs<S>(manager: SideEffectManager<S>)
    reads manager, manager.machine
  {
    manager.machine.saved == if manager.entries == [] then None else Some(Saved(manager.entries))
  }

  /** Calls in a row, with a file that can be written: the manager ends in the state of the run, and the file
      on disk is the run's. */
  method ApplyAll<S>(manager: SideEffectManager<S>, steps: seq<Step<S>>) returns (ok: bool)
    requires manager.persists && FileIs(manager)
    modifies manager, manager.machine
    ensures Progress(manager.machine.state, manager.entries, ok) ==
            Run(Progress(old(manager.machine.state), old(manager.entries), true), steps)
    ensures FileIs(manager) && manager.machine.saved == FileAfter(Progress(manager.machine.state, manager.entries, ok))
  {
    ok := true;
    ghost var p := Progress(manager.machine.state, manager.entries, true);
    var i := 0;
    assert steps[0..] == steps;
    while i < |steps|
      invariant 0 <= i <= |steps| && FileIs(manager) && ok
      invariant Run(Progress(manager.machine.state, manager.entries, ok), steps[i..]) == Run(p, steps)
    {
      assert steps[i..][0] == steps[i] && steps[i..][1..] == steps[i + 1..];
      hide Do;
      var done := ApplyStep(manager, steps[i], None);
      ok := done || !steps[i].mandatory;
      i := i + 1;
      if !ok {
        return;
      }
    }
  }

  /** A process that makes `n` of these calls and then dies without a rollback, and the next one, which recovers:
      the system is as before the first call. */
  method CrashAndRecover<S>(exec: (S, Undo) -> S, s: S, steps: seq<Step<S>>, n: nat) returns (machine: Machine<S>)
    requires n <= |steps| && InvertsAlong(exec, Progress(s, [], true), steps)
    ensures machine.state == s && machine.saved == None
  {
    machine := new Machine(s, None);
    var manager := new SideEffectManager(machine, true);
    var ok := ApplyAll(manager, steps[..n]);
    CrashIsUndone(exec, s, steps, n);
    Recover(machine, exec);
  }
}
