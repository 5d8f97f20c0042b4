/** The tunnel's setup on a host whose routing commands do what they say: a rule goes to a free priority and can be
    deleted from it, a default route goes to a table without one and can be deleted from it. */
module RoutingCommands {
  import opened Options
  import opened SideEffects
  import opened RouteSetup

  /** What is at each priority, and the device of the default route in each table. */
  datatype Routing = Routing(rules: map<string, seq<string>>, defaults: map<string, string>)

  /** The commands. An addition can also be refused for other reasons. */
  function Ip(refuses: seq<string> -> bool, n: Routing, cmd: string, args: seq<string>): Option<Routing> {
    var last := |args| - 1;
    if cmd != "ip" then None
    else if |args| == 7 && args[0] == "route" && args[2..4] == ["default", "dev"] && args[5] == "table" then
      RouteCommand(refuses(args), n, args[1], args[4], args[6])
    else if |args| >= 4 && args[0] == "rule" && args[last - 1] == "priority" then
      RuleCommand(refuses(args), n, args[1], args[2..last - 1], args[last])
    else None
  }

  function RouteCommand(refused: bool, n: Routing, verb: string, device: string, table: string): Option<Routing> {
    if verb == "add" && !refused && table !in n.defaults then Some(n.(defaults := n.defaults[table := device]))
    else if verb == "del" && table in n.defaults && n.defaults[table] == device then Some(n.(defaults := n.defaults - {table}))
    else None
  }

  function RuleCommand(refused: bool, n: Routing, verb: string, rule: seq<string>, priority: string): Option<Routing> {
    if verb == "add" && !refused && priority !in n.rules then Some(n.(rules := n.rules[priority := rule]))
    else if verb == "del" && rule == [] && priority in n.rules then Some(n.(rules := n.rules - {priority}))
    else None
  }

  function IpEnv(refuses: seq<string> -> bool, writable: string -> bool): Env<Routing> {
    Env((n, cmd, args) => Ip(refuses, n, cmd, args), writable)
  }

  function RouteArgs(verb: string, device: string, table: string): seq<string> {
    ["route", verb, "default", "dev", device, "table", table]
  }

  function RuleArgs(verb: string, rule: seq<string>, priority: string): seq<string> {
    ["rule", verb] + rule + ["priority", priority]
  }

  lemma RouteIs(refuses: seq<string> -> bool, n: Routing, verb: string, device: string, table: string)
    ensures Ip(refuses, n, "ip", RouteArgs(verb, device, table)) ==
            RouteCommand(refuses(RouteArgs(verb, device, table)), n, verb, device, table)
  {
    assert RouteArgs(verb, device, table)[2..4] == ["default", "dev"];
  }

  lemma RuleIs(refuses: seq<string> -> bool, n: Routing, verb: string, rule: seq<string>, priority: string)
    ensures Ip(refuses, n, "ip", RuleArgs(verb, rule, priority)) ==
            RuleCommand(refuses(RuleArgs(verb, rule, priority)), n, verb, rule, priority)
  {
    var args := RuleArgs(verb, rule, priority);
    assert args[0] == "rule" && args[1] == verb;
    assert "rule" != "route";
    assert args[2..|args| - 2] == rule;
  }

  // ----- Rules one after the other.

  /** One rule of the setup. */
  datatype Rule = Rule(description: string, rule: seq<string>, priority: string, mandatory: bool)

  function StepOf(env: Env<Routing>, r: Rule): Step<Host<Routing>> {
    CommandStep(env, r.description, RuleArgs("add", r.rule, r.priority), RuleArgs("del", [], r.priority), r.mandatory)
  }

  function StepsOf(env: Env<Routing>, rs: seq<Rule>): seq<Step<Host<Routing>>> {
    if rs == [] then [] else [StepOf(env, rs[0])] + StepsOf(env, rs[1..])
  }

  /** The priorities are different, and nothing is at them. */
  ghost predicate Free(n: Routing, rs: seq<Rule>) {
    && (forall i :: 0 <= i < |rs| ==> rs[i].priority !in n.rules)
    && forall i, j :: 0 <= i < j < |rs| ==> rs[i].priority != rs[j].priority
  }

  function WithRule(h: Host<Routing>, r: Rule): Host<Routing> {
    h.(net := h.net.(rules := h.net.rules[r.priority := r.rule]))
  }

  lemma RuleStepIs(refuses: seq<string> -> bool, writable: string -> bool, h: Host<Routing>, r: Rule)
    requires r.priority !in h.net.rules
    ensures var step := StepOf(IpEnv(refuses, writable), r);
            && step.act(h) == (if refuses(RuleArgs("add", r.rule, r.priority)) then None else Some(WithRule(h, r)))
            && step.mandatory == r.mandatory
            && Inverts(Executor(IpEnv(refuses, writable)), h, step)
  {
    RuleIs(refuses, h.net, "add", r.rule, r.priority);
    RuleIs(refuses, WithRule(h, r).net, "del", [], r.priority);
    assert "add" != "del";
    hide Ip, RuleArgs;
    assert h.net.rules[r.priority := r.rule] - {r.priority} == h.net.rules;
  }

  lemma {:induction false} RulesInvert(refuses: seq<string> -> bool, writable: string -> bool, p: Progress<Host<Routing>>, rs: seq<Rule>)
    requires Free(p.state.net, rs)
    ensures InvertsAlong(Executor(IpEnv(refuses, writable)), p, StepsOf(IpEnv(refuses, writable), rs))
    decreases |rs|
  {
    if rs != [] {
      var env := IpEnv(refuses, writable);
      RuleStepIs(refuses, writable, p.state, rs[0]);
      var q := Do(p, StepOf(env, rs[0]));
      assert Free(q.state.net, rs[1..]);
      RulesInvert(refuses, writable, q, rs[1..]);
      assert StepsOf(env, rs)[1..] == StepsOf(env, rs[1..]);
    }
  }

  // ----- The setup.

  function SetupRules(c: Config): seq<Rule> {
    [
      Rule("ip rule add fwmark " + c.fwmark + " table main priority 50", ["fwmark", c.fwmark, "table", "main"], "50", true),
      Rule("ip rule add table main suppress_prefixlength 0 priority 100",
           ["table", "main", "suppress_prefixlength", "0"], "100", true),
      Rule("ip rule add not fwmark " + c.fwmark + " table " + TUN_TABLE + " priority 200",
           ["not", "fwmark", c.fwmark, "table", TUN_TABLE], "200", true),
      Rule("ip rule add not fwmark " + c.fwmark + " dport 53 table " + TUN_TABLE + " priority 201",
           ["not", "fwmark", c.fwmark, "dport", "53", "table", TUN_TABLE], "201", false)
    ]
  }

  function RouteStep(env: Env<Routing>, c: Config): Step<Host<Routing>> {
    CommandStep(env, "ip route add default dev " + c.tunName + " table " + TUN_TABLE,
                RouteArgs("add", c.tunName, TUN_TABLE), RouteArgs("del", c.tunName, TUN_TABLE), true)
  }

  /** The steps of the setup are the route and these rules. */
  lemma SetupIs(env: Env<Routing>, c: Config)
    ensures RuleSteps(env, c) == [RouteStep(env, c)] + StepsOf(env, SetupRules(c))
  {
    var rs := SetupRules(c);
    StepsAre(env, rs);
    SetupArgs(c);
    hide RuleArgs, CommandStep, StepsOf;
    assert StepsOf(env, rs) == [StepOf(env, rs[0]), StepOf(env, rs[1]), StepOf(env, rs[2]), StepOf(env, rs[3])];
  }

  lemma StepsAre(env: Env<Routing>, rs: seq<Rule>)
    requires |rs| == 4
    ensures StepsOf(env, rs) == [StepOf(env, rs[0]), StepOf(env, rs[1]), StepOf(env, rs[2]), StepOf(env, rs[3])]
  {
    assert rs[1..][1..] == rs[2..] && rs[2..][1..] == rs[3..] && rs[3..][1..] == [];
    hide StepOf;
    assert StepsOf(env, rs[3..]) == [StepOf(env, rs[3])];
    assert StepsOf(env, rs[2..]) == [StepOf(env, rs[2])] + StepsOf(env, rs[3..]);
    assert StepsOf(env, rs[1..]) == [StepOf(env, rs[1])] + StepsOf(env, rs[2..]);
  }

  lemma SetupArgs(c: Config)
    ensures RuleArgs("add", ["fwmark", c.fwmark, "table", "main"], "50") ==
            ["rule", "add", "fwmark", c.fwmark, "table", "main", "priority", "50"]
    ensures RuleArgs("add", ["table", "main", "suppress_prefixlength", "0"], "100") ==
            ["rule", "add", "table", "main", "suppress_prefixlength", "0", "priority", "100"]
    ensures RuleArgs("add", ["not", "fwmark", c.fwmark, "table", TUN_TABLE], "200") ==
            ["rule", "add", "not", "fwmark", c.fwmark, "table", TUN_TABLE, "priority", "200"]
    ensures RuleArgs("add", ["not", "fwmark", c.fwmark, "dport", "53", "table", TUN_TABLE], "201") ==
            ["rule", "add", "not", "fwmark", c.fwmark, "dport", "53", "table", TUN_TABLE, "priority", "201"]
    ensures forall p :: RuleArgs("del", [], p) == ["rule", "del", "priority", p]
  {
  }

  /** The tunnel's priorities and its table are free. */
  ghost predicate HostFree(n: Routing) {
    PrioritiesFree(n) && "2468" !in n.defaults
  }

  ghost predicate PrioritiesFree(n: Routing) {
    "50" !in n.rules && "100" !in n.rules && "200" !in n.rules && "201" !in n.rules
  }

  lemma RulesAreFree(n: Routing, c: Config)
    requires PrioritiesFree(n)
    ensures Free(n, SetupRules(c))
  {
    assert "50"[0] == '5' && "100"[0] == '1' && "200"[2] == '0' && "201"[2] == '1';
    assert |"50"| == 2 && |"100"| == |"200"| == |"201"| == 3 && "200"[0] == '2' == "201"[0];
  }

  lemma RouteStepIs(refuses: seq<string> -> bool, writable: string -> bool, h: Host<Routing>, c: Config)
    requires "2468" !in h.net.defaults
    ensures var step := RouteStep(IpEnv(refuses, writable), c);
            && step.act(h) == (if refuses(RouteArgs("add", c.tunName, "2468")) then None
                               else Some(h.(net := h.net.(defaults := h.net.defaults["2468" := c.tunName]))))
            && Inverts(Executor(IpEnv(refuses, writable)), h, step)
  {
    var n := h.net.(defaults := h.net.defaults["2468" := c.tunName]);
    RouteIs(refuses, h.net, "add", c.tunName, "2468");
    RouteIs(refuses, n, "del", c.tunName, "2468");
    assert "add" != "del";
    hide Ip, RouteArgs;
    assert n.defaults - {"2468"} == h.net.defaults;
  }

  /** So on such a host every step of the setup has the right undo, whatever is refused. */
  lemma SetupInverts(refuses: seq<string> -> bool, writable: string -> bool, c: Config, h: Host<Routing>)
    requires HostFree(h.net)
    ensures InvertsAlong(Executor(IpEnv(refuses, writable)), Progress(h, [], true), RuleSteps(IpEnv(refuses, writable), c))
  {
    var env := IpEnv(refuses, writable);
    var p := Progress(h, [], true);
    SetupIs(env, c);
    RouteStepIs(refuses, writable, h, c);
    var q := Do(p, RouteStep(env, c));
    RulesAreFree(q.state.net, c);
    RulesInvert(refuses, writable, q, SetupRules(c));
    hide RuleSteps, StepsOf, SetupRules, RouteStep, Inverts, Executor;
    assert ([RouteStep(env, c)] + StepsOf(env, SetupRules(c)))[1..] == StepsOf(env, SetupRules(c));
  }

  /** Rollback restores the host wherever the setup stops, but for a name server file that was written over unread. */
  lemma SetupRestored(refuses: seq<string> -> bool, writable: string -> bool, c: Config, h: Host<Routing>)
    requires HostFree(h.net)
    ensures var env := IpEnv(refuses, writable);
            var q := Run(Progress(h, [], true), LinuxSteps(env, c));
            && (Rollback(Executor(env), q.state, q.entries) == h <==> !(q.ok && writable(RESOLV_CONF) && !Readable(h)))
            && Rollback(Executor(env), q.state, q.entries).net == h.net
  {
    SetupInverts(refuses, writable, c, h);
    SetupIsUndone(IpEnv(refuses, writable), c, h);
  }

  /** And so does recovery after a crash anywhere in the setup. */
  lemma SetupRecovered(refuses: seq<string> -> bool, writable: string -> bool, c: Config, h: Host<Routing>, n: nat)
    requires HostFree(h.net) && n <= 6
    ensures var env := IpEnv(refuses, writable);
            var q := Run(Progress(h, [], true), LinuxSteps(env, c)[..n]);
            Recovered(Executor(env), q.state, FileAfter(q)) == h <==>
            !(n == 6 && q.ok && writable(RESOLV_CONF) && !Readable(h))
  {
    SetupInverts(refuses, writable, c, h);
    SetupCrashIsUndone(IpEnv(refuses, writable), c, h, n);
  }

  // ----- What the setup sets up.

  function AllRules(h: Host<Routing>, rs: seq<Rule>): Host<Routing>
    decreases |rs|
  {
    if rs == [] then h else AllRules(WithRule(h, rs[0]), rs[1..])
  }

  lemma {:induction false} RulesApply(writable: string -> bool, p: Progress<Host<Routing>>, rs: seq<Rule>)
    requires Free(p.state.net, rs) && p.ok
    ensures var q := Run(p, StepsOf(IpEnv(args => false, writable), rs));
            q.ok && q.state == AllRules(p.state, rs)
    decreases |rs|
  {
    if rs != [] {
      var env := IpEnv(args => false, writable);
      RuleStepIs(args => false, writable, p.state, rs[0]);
      var q := Do(p, StepOf(env, rs[0]));
      assert Free(q.state.net, rs[1..]);
      RulesApply(writable, q, rs[1..]);
      RunOne(p, StepsOf(env, rs));
      assert StepsOf(env, rs)[1..] == StepsOf(env, rs[1..]);
    }
  }

  lemma FourRules(h: Host<Routing>, rs: seq<Rule>)
    requires |rs| == 4
    ensures AllRules(h, rs) == WithRule(WithRule(WithRule(WithRule(h, rs[0]), rs[1]), rs[2]), rs[3])
  {
    assert rs[1..][1..] == rs[2..] && rs[2..][1..] == rs[3..] && rs[3..][1..] == [];
    hide WithRule;
    var a := WithRule(WithRule(WithRule(h, rs[0]), rs[1]), rs[2]);
    assert AllRules(a, rs[3..]) == WithRule(a, rs[3]);
    assert AllRules(WithRule(WithRule(h, rs[0]), rs[1]), rs[2..]) == AllRules(a, rs[3..]);
    assert AllRules(WithRule(h, rs[0]), rs[1..]) == AllRules(WithRule(WithRule(h, rs[0]), rs[1]), rs[2..]);
  }

  /** The host with the tunnel's route, rules and name server. */
  function Tunnelled(h: Host<Routing>, c: Config): Host<Routing> {
    Host(h.files["/etc/resolv.conf" := Text("nameserver " + c.dnsIp + "\n")],
         Routing(h.net.rules["50" := ["fwmark", c.fwmark, "table", "main"]]
                   ["100" := ["table", "main", "suppress_prefixlength", "0"]]
                   ["200" := ["not", "fwmark", c.fwmark, "table", "2468"]]
                   ["201" := ["not", "fwmark", c.fwmark, "dport", "53", "table", "2468"]],
                 h.net.defaults["2468" := c.tunName]))
  }

  lemma RulesThenDns(writable: string -> bool, c: Config, p: Progress<Host<Routing>>)
    requires p.ok && PrioritiesFree(p.state.net) && writable(RESOLV_CONF)
    ensures var env := IpEnv(args => false, writable);
            var q := Run(p, StepsOf(env, SetupRules(c)));
            q.ok && q.state == AllRules(p.state, SetupRules(c))
  {
    RulesAreFree(p.state.net, c);
    RulesApply(writable, p, SetupRules(c));
  }

  /** If nothing is refused, the setup leaves exactly that host. */
  lemma SetupApplies(writable: string -> bool, c: Config, h: Host<Routing>)
    requires HostFree(h.net) && writable(RESOLV_CONF)
    ensures var q := Run(Progress(h, [], true), LinuxSteps(IpEnv(args => false, writable), c));
            q.ok && q.state == Tunnelled(h, c)
  {
    var env := IpEnv(args => false, writable);
    var p := Progress(h, [], true);
    var rules, dns := RuleSteps(env, c), DnsStep(env, c.dnsIp);
    assert LinuxSteps(env, c) == rules + [dns];
    RunSplits(p, LinuxSteps(env, c), 5);
    assert LinuxSteps(env, c)[..5] == rules && LinuxSteps(env, c)[5..] == [dns];
    SetupIs(env, c);
    RouteStepIs(args => false, writable, h, c);
    var first := Do(p, RouteStep(env, c));
    RulesThenDns(writable, c, first);
    RunOne(p, rules);
    assert rules[1..] == StepsOf(env, SetupRules(c));
    var q := Run(p, rules);
    FourRules(first.state, SetupRules(c));
    DnsApplies(writable, c, q);
  }

  lemma DnsApplies(writable: string -> bool, c: Config, q: Progress<Host<Routing>>)
    requires q.ok && writable(RESOLV_CONF)
    ensures var env := IpEnv(args => false, writable);
            var r := Run(q, [DnsStep(env, c.dnsIp)]);
            r.ok && r.state == q.state.(files := q.state.files["/etc/resolv.conf" := Text("nameserver " + c.dnsIp + "\n")])
  {
    var env := IpEnv(args => false, writable);
    RunOne(q, [DnsStep(env, c.dnsIp)]);
    assert [DnsStep(env, c.dnsIp)][1..] == [];
  }
}
