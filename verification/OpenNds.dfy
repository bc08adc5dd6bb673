/** The openNDS apply plan and its execution. The meaning given to the commands is that of the
    tools they name: uci, the file system and the init script. */
module OpenNds {
  import opened Wrappers
  import opened FixedWidth
  import opened Text

  datatype Setting =
    FqdnList | PortList | PreauthenticatedUsers | ThemeSpecPath | LoginOption | GatewayFqdn | PreemptiveAuthentication

  const THEME_SPEC_PATH: string := "/usr/lib/opennds/theme_openomada_redirect.sh"

  datatype Policy = Policy(fqdns: seq<string>, rules: seq<string>, ports: seq<uint16>, redirectUrl: string)

  datatype Command =
    | DeleteQuietly(target: Setting)
    | AddList(target: Setting, value: string)
    | SetValue(target: Setting, value: string)
    | WriteFile
    | Chmod
    | Commit
    | Restart
  {
    predicate Targets(s: Setting) { (DeleteQuietly? || AddList? || SetValue?) && target == s }
  }

  /* ---- the command lines ---- */

  function OptionName(s: Setting): string {
    match s
    case FqdnList => "walledgarden_fqdn_list"
    case PortList => "walledgarden_port_list"
    case PreauthenticatedUsers => "preauthenticated_users"
    case ThemeSpecPath => "themespec_path"
    case LoginOption => "login_option_enabled"
    case GatewayFqdn => "gatewayfqdn"
    case PreemptiveAuthentication => "allow_preemptive_authentication"
  }

  function Section(): string { "opennds.@opennds[0]." }

  function Assignment(s: Setting, value: string): string { Section() + (OptionName(s) + (['='] + value)) }

  function Argv(c: Command): seq<string> {
    match c
    case DeleteQuietly(s) => ["uci", "-q", "delete", Section() + OptionName(s)]
    case AddList(s, v) => ["uci", "add_list", Assignment(s, v)]
    case SetValue(s, v) => ["uci", "set", Assignment(s, v)]
    case WriteFile => ["write-file", THEME_SPEC_PATH]
    case Chmod => ["chmod", "0644", THEME_SPEC_PATH]
    case Commit => ["uci", "commit", "opennds"]
    case Restart => ["/etc/init.d/opennds", "restart"]
  }

  predicate QuietUciDelete(argv: seq<string>) {
    |argv| >= 4 && argv[0] == "uci" && argv[1] == "-q" && argv[2] == "delete"
  }

  /** The command lines whose failure is passed over are exactly those of the deletes. */
  lemma QuietDeletesRecognised(c: Command)
    ensures QuietUciDelete(Argv(c)) <==> c.DeleteQuietly?
  {
    hide Assignment, OptionName, Section;
  }

  // length, and one character that tells the names of equal length apart
  function Signature(s: Setting): (nat, char) {
    match s
    case FqdnList => (22, 'f')
    case PortList => (22, 'p')
    case PreauthenticatedUsers => (22, 't')
    case ThemeSpecPath => (14, 'h')
    case LoginOption => (20, 'e')
    case GatewayFqdn => (11, '-')
    case PreemptiveAuthentication => (31, 'i')
  }

  lemma NameSignature(s: Setting)
    ensures |OptionName(s)| == Signature(s).0
    ensures |OptionName(s)| > 13 ==> OptionName(s)[13] == Signature(s).1
  {
  }

  // no name has an equals sign where another one ends
  lemma NameUnbroken(s: Setting, t: Setting)
    requires |OptionName(t)| < |OptionName(s)|
    ensures OptionName(s)[|OptionName(t)|] != '='
  {
    NameSignature(t);
    var k := |OptionName(t)|;
    assert k == 11 || k == 14 || k == 20 || k == 22;
    var name := OptionName(s);
    assert name[11] != '=' && (|name| > 14 ==> name[14] != '=') && (|name| > 20 ==> name[20] != '=') && (|name| > 22 ==> name[22] != '=');
  }

  lemma OptionNamesDistinct(s: Setting, t: Setting)
    ensures OptionName(s) == OptionName(t) <==> s == t
  {
    NameSignature(s);
    NameSignature(t);
    hide OptionName;
    assert Signature(s) == Signature(t) ==> s == t;
  }

  lemma AssignmentInjective(s: Setting, v: string, t: Setting, w: string)
    requires Assignment(s, v) == Assignment(t, w)
    ensures s == t && v == w
  {
    OptionNamesDistinct(s, t);
    var (a, b) := (OptionName(s), OptionName(t));
    if |a| < |b| { NameUnbroken(t, s); } else if |b| < |a| { NameUnbroken(s, t); }
    hide OptionName;
    Peel(Section(), a + (['='] + v), b + (['='] + w));
    MarkInside(a, v, b, w);
    MarkInside(b, w, a, v);
    assert (a + (['='] + v))[..|a|] == a && (b + (['='] + w))[..|b|] == b;
    Peel(a, ['='] + v, ['='] + w);
    Peel(['='], v, w);
  }

  lemma MarkInside(a: string, v: string, b: string, w: string)
    requires a + (['='] + v) == b + (['='] + w)
    ensures |a| < |b| ==> b[|a|] == '='
  {
    if |a| < |b| {
      assert (a + (['='] + v))[|a|] == '=' && (b + (['='] + w))[|a|] == b[|a|];
    }
  }

  lemma Peel(a: string, b: string, c: string)
    requires a + b == a + c
    ensures b == c
  {
    assert (a + b)[|a|..] == b && (a + c)[|a|..] == c;
  }

  /** A command line names its setting and value unambiguously. */
  lemma ArgvInjective(a: Command, b: Command)
    requires Argv(a) == Argv(b)
    ensures a == b
  {
    ArgvKinds(a, b);
    if a.DeleteQuietly? {
      assert Argv(a)[3] == Argv(b)[3];
      hide OptionName, Section;
      Peel(Section(), OptionName(a.target), OptionName(b.target));
      OptionNamesDistinct(a.target, b.target);
    } else if a.AddList? || a.SetValue? {
      assert Argv(a)[2] == Argv(b)[2];
      hide Assignment;
      AssignmentInjective(a.target, a.value, b.target, b.value);
    }
  }

  lemma ArgvKinds(a: Command, b: Command)
    requires Argv(a) == Argv(b)
    ensures (a.DeleteQuietly? <==> b.DeleteQuietly?) && (a.AddList? <==> b.AddList?) && (a.SetValue? <==> b.SetValue?)
    ensures !a.DeleteQuietly? && !a.AddList? && !a.SetValue? ==> a == b
  {
    hide Assignment, OptionName, Section;
    assert Argv(a)[0] == Argv(b)[0] && Argv(a)[1] == Argv(b)[1] && |Argv(a)| == |Argv(b)|;
    assert |Argv(a)[1]| == |Argv(b)[1]|;
  }

  datatype Plan = Plan(ok: bool, changed: bool, commands: seq<Command>, themeSpec: string)

  /* ---- build_opennds_apply_plan ---- */

  function Joined(ports: seq<uint16>): string {
    if ports == [] then "" else DecimalNat(ports[0]) + JoinedTail(ports[1..])
  }

  function JoinedTail(ports: seq<uint16>): string {
    if ports == [] then "" else [' '] + (DecimalNat(ports[0]) + JoinedTail(ports[1..]))
  }

  /** The pieces of a text between blanks. */
  function Pieces(text: string): (p: seq<string>)
    decreases |text|
  {
    var i := IndexOf(text, ' ', 0);
    if i == |text| then [text] else [text[..i]] + Pieces(text[i + 1..])
  }

  function Numerals(ports: seq<uint16>): (p: seq<string>)
    ensures |p| == |ports|
  {
    seq(|ports|, i requires 0 <= i < |ports| => Decimal(ports[i]))
  }

  lemma FirstPieceOf(number: string, rest: string)
    requires forall i :: 0 <= i < |number| ==> IsDigit(number[i])
    ensures Pieces(number + ([' '] + rest)) == [number] + Pieces(rest)
  {
    var text := number + ([' '] + rest);
    FirstPiece(number, [' '] + rest);
    assert text[..|number|] == number && text[|number| + 1..] == rest;
  }

  /** The joined ports are their decimal numbers, in order, between single blanks. */
  lemma {:induction false} PortsReadBack(ports: seq<uint16>)
    ensures if ports == [] then Joined(ports) == "" else Pieces(Joined(ports)) == Numerals(ports)
    decreases |ports|
  {
    if ports != [] {
      var number := DecimalNat(ports[0]);
      assert Numerals(ports) == [number] + Numerals(ports[1..]);
      hide DecimalNat, Pieces, Numerals;
      if ports[1..] == [] {
        SolePiece(number);
        assert number + "" == number;
        NoNumerals();
      } else {
        PortsReadBack(ports[1..]);
        FirstPieceOf(number, Joined(ports[1..]));
      }
    }
  }

  lemma SolePiece(number: string)
    requires forall i :: 0 <= i < |number| ==> IsDigit(number[i])
    ensures Pieces(number) == [number]
  {
    FirstPiece(number, "");
    assert number + "" == number;
  }

  lemma NoNumerals()
    ensures Numerals([]) == []
  {
  }

  lemma FirstPiece(number: string, tail: string)
    requires (forall i :: 0 <= i < |number| ==> IsDigit(number[i])) && (tail != "" ==> tail[0] == ' ')
    ensures IndexOf(number + tail, ' ', 0) == |number|
  {
    var text, i := number + tail, IndexOf(number + tail, ' ', 0);
    assert forall j :: 0 <= j < |number| ==> text[j] == number[j];
    assert tail != "" ==> text[|number|] == ' ';
  }

  method JoinPorts(ports: seq<uint16>) returns (text: string)
    ensures text == Joined(ports)
  {
    hide DecimalNat;
    text := "";
    for i := 0 to |ports|
      invariant i == 0 ==> text == ""
      invariant i > 0 ==> text + JoinedTail(ports[i..]) == Joined(ports)
    {
      assert ports[i..][1..] == ports[i + 1..];
      var number, rest := DecimalNat(ports[i]), JoinedTail(ports[i + 1..]);
      if i != 0 {
        assert (text + [' ']) + (number + rest) == text + ([' '] + (number + rest));
        text := text + [' '];
      }
      Regroup(text, number, rest);
      text := text + number;
    }
    assert ports[|ports|..] == [];
    assert text + "" == text;
  }

  function Deletes(): seq<Command> {
    [DeleteQuietly(FqdnList), DeleteQuietly(PortList), DeleteQuietly(PreauthenticatedUsers), DeleteQuietly(ThemeSpecPath)]
  }

  function AddAll(target: Setting, values: seq<string>): (c: seq<Command>)
    ensures |c| == |values|
  {
    seq(|values|, i requires 0 <= i < |values| => AddList(target, values[i]))
  }

  function PortCommands(policy: Policy): seq<Command> {
    if policy.fqdns == [] then [] else [AddList(PortList, Joined(policy.ports))]
  }

  function ThemeCommands(policy: Policy): seq<Command> {
    if policy.redirectUrl == "" then [SetValue(LoginOption, "1")]
    else [WriteFile, Chmod, SetValue(LoginOption, "3"), SetValue(ThemeSpecPath, THEME_SPEC_PATH)]
  }

  function FinalCommands(): seq<Command> {
    [SetValue(GatewayFqdn, "disable"), SetValue(PreemptiveAuthentication, "0"), Commit, Restart]
  }

  function PlanCommands(policy: Policy): seq<Command> {
    Deletes() + (AddAll(FqdnList, policy.fqdns) + (PortCommands(policy) + (AddAll(PreauthenticatedUsers, policy.rules)
    + (ThemeCommands(policy) + FinalCommands()))))
  }

  /** The theme script is a function of the policy that is not looked into here. */
  function PlanFor(policy: Policy, theme: Policy -> string): Plan {
    Plan(true, true, PlanCommands(policy), if policy.redirectUrl == "" then "" else theme(policy))
  }

  method AddEach(commands: seq<Command>, target: Setting, values: seq<string>) returns (out: seq<Command>)
    ensures out == commands + AddAll(target, values)
  {
    out := commands;
    for i := 0 to |values|
      invariant out == commands + AddAll(target, values[..i])
    {
      assert AddAll(target, values[..i + 1]) == AddAll(target, values[..i]) + [AddList(target, values[i])];
      out := out + [AddList(target, values[i])];
    }
    assert values[..|values|] == values;
  }

  method BuildOpenNdsApplyPlan(policy: Policy, theme: Policy -> string) returns (plan: Plan)
    ensures plan == PlanFor(policy, theme)
  {
    hide Joined, AddAll;
    var commands := Deletes();
    commands := AddEach(commands, FqdnList, policy.fqdns);
    if policy.fqdns != [] {
      var ports := JoinPorts(policy.ports);
      commands := commands + [AddList(PortList, ports)];
    }
    commands := AddEach(commands, PreauthenticatedUsers, policy.rules);
    var themeSpec := "";
    if policy.redirectUrl != "" {
      themeSpec := theme(policy);
      commands := commands + [WriteFile];
      commands := commands + [Chmod];
      commands := commands + [SetValue(LoginOption, "3")];
      commands := commands + [SetValue(ThemeSpecPath, THEME_SPEC_PATH)];
    } else {
      commands := commands + [SetValue(LoginOption, "1")];
    }
    commands := commands + [SetValue(GatewayFqdn, "disable")];
    commands := commands + [SetValue(PreemptiveAuthentication, "0")];
    commands := commands + [Commit];
    commands := commands + [Restart];
    Assembled(policy, commands);
    return Plan(true, true, commands, themeSpec);
  }

  lemma Assembled(policy: Policy, commands: seq<Command>)
    requires commands == ((((Deletes() + AddAll(FqdnList, policy.fqdns)) + PortCommands(policy)) + AddAll(PreauthenticatedUsers, policy.rules))
                          + ThemeCommands(policy)) + FinalCommands()
    ensures commands == PlanCommands(policy)
  {
    hide Deletes, AddAll, PortCommands, ThemeCommands, FinalCommands;
  }

  /* ---- what the commands do ---- */

  datatype Entry = Absent | Scalar(value: string) | ListOf(items: seq<string>)

  type Settings = map<Setting, Entry>

  function At(c: Settings, s: Setting): Entry { if s in c then c[s] else Absent }

  /** The first openNDS section as staged, committed and last loaded by the daemon, and the script. */
  datatype System = System(staged: Settings, committed: Settings, running: Settings, themeFile: Option<string>, readable: bool, restarts: nat)

  // uci add_list: an option that is no list yet becomes the first item of one
  function Added(e: Entry, value: string): Entry {
    match e
    case Absent => ListOf([value])
    case Scalar(v) => ListOf([v, value])
    case ListOf(items) => ListOf(items + [value])
  }

  function Effect(sys: System, c: Command, input: string): System {
    match c
    case DeleteQuietly(s) => sys.(staged := sys.staged[s := Absent])
    case AddList(s, v) => sys.(staged := sys.staged[s := Added(At(sys.staged, s), v)])
    case SetValue(s, v) => sys.(staged := sys.staged[s := Scalar(v)])
    case WriteFile => sys.(themeFile := Some(input))
    case Chmod => sys.(readable := true)
    case Commit => sys.(committed := sys.staged)
    case Restart => sys.(running := sys.committed, restarts := sys.restarts + 1)
  }

  // deleting what is not there fails, whatever else may
  predicate Succeeds(sys: System, c: Command, refused: bool) {
    !refused && (c.DeleteQuietly? ==> At(sys.staged, c.target) != Absent)
  }

  class OpenNdsExecutor {
    const refuses: nat -> bool   // the calls that fail for a reason of their own
    var system: System
    var calls: nat
    var log: seq<Command>

    constructor (refuses: nat -> bool, system: System)
      ensures this.refuses == refuses && this.system == system && calls == 0 && log == []
    {
      this.refuses, this.system, this.calls, this.log := refuses, system, 0, [];
    }

    method Run(c: Command, input: string) returns (ok: bool)
      modifies this
      ensures ok == Succeeds(old(system), c, refuses(old(calls)))
      ensures system == if ok then Effect(old(system), c, input) else old(system)
      ensures calls == old(calls) + 1 && log == old(log) + [c]
    {
      ok := Succeeds(system, c, refuses(calls));
      if ok {
        system := Effect(system, c, input);
      }
      calls, log := calls + 1, log + [c];
    }
  }

  /* ---- execute_opennds_apply_plan ---- */

  datatype Outcome = Outcome(system: System, ran: nat, ok: bool)

  function Execute(sys: System, commands: seq<Command>, input: string, refuses: nat -> bool, calls: nat): Outcome
    decreases |commands|
  {
    if commands == [] then Outcome(sys, 0, true)
    else
      var ok := Succeeds(sys, commands[0], refuses(calls));
      if !ok && !commands[0].DeleteQuietly? then Outcome(sys, 1, false)
      else
        var rest := Execute(if ok then Effect(sys, commands[0], input) else sys, commands[1..], input, refuses, calls + 1);
        Outcome(rest.system, rest.ran + 1, rest.ok)
  }

  lemma {:induction false} RanBound(sys: System, commands: seq<Command>, input: string, refuses: nat -> bool, calls: nat)
    ensures Execute(sys, commands, input, refuses, calls).ran <= |commands|
    decreases |commands|
  {
    if commands != [] {
      hide Succeeds, Effect;
      var ok := Succeeds(sys, commands[0], refuses(calls));
      RanBound(if ok then Effect(sys, commands[0], input) else sys, commands[1..], input, refuses, calls + 1);
    }
  }

  datatype ExecutionResult = ExecutionResult(ok: bool, changed: bool, commandCount: nat)

  method ExecuteOpenNdsApplyPlan(plan: Plan, executor: OpenNdsExecutor) returns (result: ExecutionResult)
    modifies executor
    ensures !plan.ok || !plan.changed ==> result == ExecutionResult(plan.ok, false, 0) && unchanged(executor)
    ensures plan.ok && plan.changed ==>
              var o := Execute(old(executor.system), plan.commands, plan.themeSpec, executor.refuses, old(executor.calls));
              && result == ExecutionResult(o.ok, o.ok, o.ran)
              && executor.system == o.system
              && o.ran <= |plan.commands| && executor.log == old(executor.log) + plan.commands[..o.ran]
  {
    result := ExecutionResult(false, false, 0);
    if !plan.ok {
      return;
    }
    if !plan.changed {
      return result.(ok := true);
    }
    hide Succeeds, Effect;
    ghost var before := executor.log;
    ghost var whole := Execute(executor.system, plan.commands, plan.themeSpec, executor.refuses, executor.calls);
    RanBound(executor.system, plan.commands, plan.themeSpec, executor.refuses, executor.calls);
    for i := 0 to |plan.commands|
      invariant result == ExecutionResult(false, false, i)
      invariant executor.log == before + plan.commands[..i] && executor.calls == old(executor.calls) + i
      invariant var rest := Execute(executor.system, plan.commands[i..], plan.themeSpec, executor.refuses, executor.calls);
                whole == Outcome(rest.system, i + rest.ran, rest.ok)
    {
      var command := plan.commands[i];
      assert plan.commands[i..][0] == command && plan.commands[i..][1..] == plan.commands[i + 1..];
      assert plan.commands[..i + 1] == plan.commands[..i] + [command];
      var ok := executor.Run(command, if command.WriteFile? then plan.themeSpec else "");
      result := result.(commandCount := result.commandCount + 1);
      if !ok {
        if command.DeleteQuietly? {
          continue;
        }
        return;
      }
    }
    assert plan.commands[..|plan.commands|] == plan.commands;
    result := result.(ok := true, changed := true);
  }
}
