/** The routes of a global tunnel as one user of the undo stack. */
module RouteSetup {
  import opened Options
  import opened SideEffects

  const TUN_TABLE := "2468"
  const RESOLV_CONF := "/etc/resolv.conf"
  const DEFAULT_DNS := "nameserver 1.1.1.1\n"

  datatype File = Text(content: string) | Unreadable

  /** Files, and whatever the routing commands act on. */
  datatype Host<N> = Host(files: map<string, File>, net: N)

  /** How commands act, if they succeed, and which files can be written. */
  datatype Env<!N> = Env(run: (N, string, seq<string>) -> Option<N>, writable: string -> bool)

  datatype Config = Config(tunName: string, fwmark: string, dnsIp: string)

  function Execute<N>(env: Env<N>, h: Host<N>, undo: Undo): Host<N> {
    match undo
    case Command(cmd, args) =>
      var n := env.run(h.net, cmd, args);
      if n.Some? then h.(net := n.value) else h
    case WriteFile(path, content) => if env.writable(path) then h.(files := h.files[path := Text(content)]) else h
    case DeleteFile(path) => if env.writable(path) then h.(files := h.files - {path}) else h
  }

  function Executor<N>(env: Env<N>): (Host<N>, Undo) -> Host<N> {
    (h, undo) => Execute(env, h, undo)
  }

  function CommandStep<N>(env: Env<N>, description: string, args: seq<string>, undoArgs: seq<string>, mandatory: bool)
    : Step<Host<N>>
  {
    Step(description,
         (h: Host<N>) =>
           var n := env.run(h.net, "ip", args);
           if n.Some? then Some(h.(net := n.value)) else None,
         (h: Host<N>) => Command("ip", undoArgs),
         mandatory)
  }

  predicate Readable<N>(h: Host<N>) {
    RESOLV_CONF in h.files && h.files[RESOLV_CONF].Text?
  }

  /** The file is written over; what it held comes back, or a default if it could not be read. */
  function DnsStep<N>(env: Env<N>, dnsIp: string): Step<Host<N>> {
    Step("Set DNS to " + dnsIp,
         (h: Host<N>) =>
           if env.writable(RESOLV_CONF) then
             Some(h.(files := h.files[RESOLV_CONF := Text("nameserver " + dnsIp + "\n")]))
           else None,
         (h: Host<N>) =>
           WriteFile(RESOLV_CONF, if Readable(h) then h.files[RESOLV_CONF].content else DEFAULT_DNS),
         false)
  }

  /** The route into the tunnel and the rules around it. */
  function RuleSteps<N>(env: Env<N>, c: Config): (r: seq<Step<Host<N>>>)
    ensures |r| == 5
  {
    [
      CommandStep(env, "ip route add default dev " + c.tunName + " table " + TUN_TABLE,
                  ["route", "add", "default", "dev", c.tunName, "table", TUN_TABLE],
                  ["route", "del", "default", "dev", c.tunName, "table", TUN_TABLE], true),
      CommandStep(env, "ip rule add fwmark " + c.fwmark + " table main priority 50",
                  ["rule", "add", "fwmark", c.fwmark, "table", "main", "priority", "50"],
                  ["rule", "del", "priority", "50"], true),
      CommandStep(env, "ip rule add table main suppress_prefixlength 0 priority 100",
                  ["rule", "add", "table", "main", "suppress_prefixlength", "0", "priority", "100"],
                  ["rule", "del", "priority", "100"], true),
      CommandStep(env, "ip rule add not fwmark " + c.fwmark + " table " + TUN_TABLE + " priority 200",
                  ["rule", "add", "not", "fwmark", c.fwmark, "table", TUN_TABLE, "priority", "200"],
                  ["rule", "del", "priority", "200"], true),
      CommandStep(env, "ip rule add not fwmark " + c.fwmark + " dport 53 table " + TUN_TABLE + " priority 201",
                  ["rule", "add", "not", "fwmark", c.fwmark, "dport", "53", "table", TUN_TABLE, "priority", "201"],
                  ["rule", "del", "priority", "201"], false)
    ]
  }

  function LinuxSteps<N>(env: Env<N>, c: Config): (r: seq<Step<Host<N>>>)
    ensures |r| == 6
  {
    RuleSteps(env, c) + [DnsStep(env, c.dnsIp)]
  }

  /** The first four steps must succeed; the last two are tried. */
  method SetupLinux<N>(manager: SideEffectManager<Host<N>>, env: Env<N>, c: Config,
                       failedWrites: nat -> Option<Option<SavedFile>>)
    returns (ok: bool)
    modifies manager, manager.machine
    ensures Progress(manager.machine.state, manager.entries, ok) ==
            Run(Progress(old(manager.machine.state), old(manager.entries), true), LinuxSteps(env, c))
    ensures manager.persists && old(manager.Synced()) && (forall i :: failedWrites(i).None?) ==> manager.Synced()
  {
    var steps := LinuxSteps(env, c);
    ghost var p := Progress(manager.machine.state, manager.entries, true);
    hide LinuxSteps, Do;
    Unrolled(p, steps);
    ok := ApplyStep(manager, steps[0], failedWrites(0));
    MandatorySteps(env, c);
    if !ok {
      return false;
    }
    ok := ApplyStep(manager, steps[1], failedWrites(1));
    if !ok {
      return false;
    }
    ok := ApplyStep(manager, steps[2], failedWrites(2));
    if !ok {
      return false;
    }
    ok := ApplyStep(manager, steps[3], failedWrites(3));
    if !ok {
      return false;
    }
    ok := ApplyStep(manager, steps[4], failedWrites(4));
    ok := ApplyStep(manager, steps[5], failedWrites(5));
    return true;
  }

  lemma MandatorySteps<N>(env: Env<N>, c: Config)
    ensures var steps := LinuxSteps(env, c);
            forall i :: 0 <= i < 6 ==> steps[i].mandatory == (i < 4)
  {
  }

  function Try<S>(p: Progress<S>, step: Step<S>): Progress<S> {
    if p.ok then Do(p, step) else p
  }

  lemma Unrolled<S>(p: Progress<S>, steps: seq<Step<S>>)
    requires |steps| == 6
    ensures Run(p, steps) ==
            Try(Try(Try(Try(Try(Try(p, steps[0]), steps[1]), steps[2]), steps[3]), steps[4]), steps[5])
  {
    RunOne(p, steps);
    RunOne(Try(p, steps[0]), steps[1..]);
    var q := Try(Try(p, steps[0]), steps[1]);
    RunOne(q, steps[2..]);
    RunOne(Try(q, steps[2]), steps[3..]);
    var r := Try(Try(q, steps[2]), steps[3]);
    RunOne(r, steps[4..]);
    RunOne(Try(r, steps[4]), steps[5..]);
    hide Do, Try;
    assert Run(Try(Try(r, steps[4]), steps[5]), []) == Try(Try(r, steps[4]), steps[5]);
  }

  lemma RunOne<S>(p: Progress<S>, steps: seq<Step<S>>)
    requires steps != []
    ensures Run(p, steps) == Run(Try(p, steps[0]), steps[1..])
  {
  }

  // ----- What a rollback restores.

  ghost predicate OnlyCommands(entries: seq<Entry>) {
    forall e :: e in entries ==> e.undo.Command?
  }

  /** Undoing commands does not look at files. */
  lemma {:induction false} CommandsLeaveFiles<N>(env: Env<N>, h: Host<N>, files: map<string, File>, entries: seq<Entry>)
    requires OnlyCommands(entries)
    ensures Rollback(Executor(env), h.(files := files), entries) == Rollback(Executor(env), h, entries).(files := files)
    ensures Rollback(Executor(env), h, entries).files == h.files
    decreases |entries|
  {
    if entries != [] {
      var e := entries[|entries| - 1];
      CommandsLeaveFiles(env, Execute(env, h, e.undo), files, entries[..|entries| - 1]);
    }
  }

  ghost predicate IsCommandStep<N(!new)>(step: Step<Host<N>>) {
    forall h: Host<N> :: step.undo(h).Command? && (step.act(h).Some? ==> step.act(h).value.files == h.files)
  }

  lemma {:induction false} CommandsRun<N(!new)>(p: Progress<Host<N>>, steps: seq<Step<Host<N>>>)
    requires OnlyCommands(p.entries) && forall s :: s in steps ==> IsCommandStep(s)
    ensures Run(p, steps).state.files == p.state.files && OnlyCommands(Run(p, steps).entries)
    decreases |steps|
  {
    if p.ok && steps != [] {
      assert IsCommandStep(steps[0]);
      CommandsRun(Do(p, steps[0]), steps[1..]);
    }
  }

  lemma RulesAreCommands<N(!new)>(env: Env<N>, c: Config)
    ensures forall s :: s in RuleSteps(env, c) ==> IsCommandStep(s)
  {
  }

  /** The undo of the name server setting. */
  lemma DnsIsUndone<N>(env: Env<N>, c: Config, p: Progress<Host<N>>)
    requires p.ok && OnlyCommands(p.entries) && env.writable(RESOLV_CONF)
    ensures var q := Do(p, DnsStep(env, c.dnsIp));
            var h := Rollback(Executor(env), p.state, p.entries);
            Rollback(Executor(env), q.state, q.entries) ==
            if Readable(p.state) then h else h.(files := p.state.files["/etc/resolv.conf" := Text("nameserver 1.1.1.1\n")])
  {
    var step := DnsStep(env, c.dnsIp);
    var q := Do(p, step);
    var e := q.entries[|q.entries| - 1];
    assert q.entries[..|q.entries| - 1] == p.entries;
    var content := if Readable(p.state) then p.state.files[RESOLV_CONF].content else DEFAULT_DNS;
    assert e.undo == WriteFile(RESOLV_CONF, content);
    var files := p.state.files[RESOLV_CONF := Text(content)];
    assert Execute(env, q.state, e.undo).files == files;
    CommandsLeaveFiles(env, p.state, files, p.entries);
    if Readable(p.state) { assert files == p.state.files; }
  }

  /** Wherever the setup stops, rollback restores the host, if the routing commands can be undone, except in
      one case: everything succeeded, and the name server file that was written over could not be read. */
  lemma SetupIsUndone<N(!new)>(env: Env<N>, c: Config, h: Host<N>)
    requires InvertsAlong(Executor(env), Progress(h, [], true), RuleSteps(env, c))
    ensures var q := Run(Progress(h, [], true), LinuxSteps(env, c));
            && (Rollback(Executor(env), q.state, q.entries) == h <==>
                !(q.ok && env.writable(RESOLV_CONF) && !Readable(h)))
            && (Readable(h) || !env.writable(RESOLV_CONF) ==> Rollback(Executor(env), q.state, q.entries) == h)
            && Rollback(Executor(env), q.state, q.entries).net == h.net
            && (Rollback(Executor(env), q.state, q.entries) == h ||
                Rollback(Executor(env), q.state, q.entries).files == h.files["/etc/resolv.conf" := Text("nameserver 1.1.1.1\n")])
  {
    var p, rules, dns := Progress(h, [], true), RuleSteps(env, c), DnsStep(env, c.dnsIp);
    var steps := LinuxSteps(env, c);
    assert steps == rules + [dns] && steps[..5] == rules && steps[5..] == [dns];
    hide RuleSteps, LinuxSteps;
    RunSplits(p, steps, 5);
    RulesAreCommands(env, c);
    CommandsRun(p, rules);
    RunIsUndone(Executor(env), p, rules);
    var q := Run(p, rules);
    assert Rollback(Executor(env), q.state, q.entries) == h;
    assert Run(q, [dns]) == if q.ok then Do(q, dns) else q by { RunOne(q, [dns]); }
    if q.ok && env.writable(RESOLV_CONF) { DnsIsUndone(env, c, q); }
  }

  /** After a crash anywhere in the setup, recovery restores the host with the same exception: the last step
      was taken and wrote over a file that could not be read. */
  lemma SetupCrashIsUndone<N(!new)>(env: Env<N>, c: Config, h: Host<N>, n: nat)
    requires InvertsAlong(Executor(env), Progress(h, [], true), RuleSteps(env, c))
    requires n <= 6
    ensures var q := Run(Progress(h, [], true), LinuxSteps(env, c)[..n]);
            && (Recovered(Executor(env), q.state, FileAfter(q)) == h <==>
                !(n == 6 && q.ok && env.writable(RESOLV_CONF) && !Readable(h)))
            && (n < 6 || Readable(h) || !env.writable(RESOLV_CONF) ==> Recovered(Executor(env), q.state, FileAfter(q)) == h)
  {
    var p, rules, steps := Progress(h, [], true), RuleSteps(env, c), LinuxSteps(env, c);
    if n < 6 {
      assert steps[..n] == rules[..n];
      hide RuleSteps, LinuxSteps, Run, InvertsAlong;
      CrashIsUndone(Executor(env), h, rules, n);
    } else {
      assert steps[..6] == steps;
      SetupIsUndone(env, c, h);
    }
  }
}
