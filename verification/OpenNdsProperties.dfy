/** Convergence of the openNDS plan, and its stopping at the first failure that matters. */
module OpenNdsProperties {
  import opened Wrappers
  import opened Text
  import opened OpenNds
  import Config
  import FixedWidth
  import P = PortalPolicy

  type Refusals = nat -> bool

  /* ---- fail-stop ---- */

  /** The commands that ran form a prefix; it ends with the plan, or with the first refused command
      that is no quiet delete. */
  lemma {:induction false} StopsAtFirstFailure(sys: System, commands: seq<Command>, input: string, refuses: Refusals, calls: nat)
    ensures var o := Execute(sys, commands, input, refuses, calls);
            && (o.ok ==> o.ran == |commands|)
            && (!o.ok ==> 0 < o.ran <= |commands| && !commands[o.ran - 1].DeleteQuietly? && refuses(calls + o.ran - 1))
            && (forall j :: 0 <= j < |commands| && j < (if o.ok then o.ran else o.ran - 1) ==>
                  commands[j].DeleteQuietly? || !refuses(calls + j))
    decreases |commands|
  {
    if commands != [] {
      hide Effect;
      var ok := Succeeds(sys, commands[0], refuses(calls));
      var next := if ok then Effect(sys, commands[0], input) else sys;
      if ok || commands[0].DeleteQuietly? {
        StopsAtFirstFailure(next, commands[1..], input, refuses, calls + 1);
        var o := Execute(sys, commands, input, refuses, calls);
        forall j | 0 <= j < |commands| && j < (if o.ok then o.ran else o.ran - 1)
          ensures commands[j].DeleteQuietly? || !refuses(calls + j)
        {
          if j > 0 { assert commands[1..][j - 1] == commands[j] && calls + 1 + (j - 1) == calls + j; }
        }
      }
    }
  }

  ghost predicate Local(commands: seq<Command>) { forall c :: c in commands ==> !c.Commit? && !c.Restart? }

  /** Up to the commit nothing is committed and nothing takes effect. */
  lemma {:induction false} LocalIsLocal(sys: System, commands: seq<Command>, input: string, refuses: Refusals, calls: nat)
    requires Local(commands)
    ensures var s := Execute(sys, commands, input, refuses, calls).system;
            s.committed == sys.committed && s.running == sys.running && s.restarts == sys.restarts
    decreases |commands|
  {
    if commands != [] {
      assert commands[0] in commands;
      var ok := Succeeds(sys, commands[0], refuses(calls));
      LocalIsLocal(if ok then Effect(sys, commands[0], input) else sys, commands[1..], input, refuses, calls + 1);
    }
  }

  lemma {:induction false} ExecuteAppend(sys: System, a: seq<Command>, b: seq<Command>, input: string, refuses: Refusals, calls: nat)
    ensures var first := Execute(sys, a, input, refuses, calls);
            Execute(sys, a + b, input, refuses, calls)
            == if !first.ok then first
               else var rest := Execute(first.system, b, input, refuses, calls + |a|); Outcome(rest.system, |a| + rest.ran, rest.ok)
    decreases |a|
  {
    if a == [] {
      assert a + b == b;
    } else {
      hide Effect, Succeeds;
      assert (a + b)[0] == a[0] && (a + b)[1..] == a[1..] + b;
      var ok := Succeeds(sys, a[0], refuses(calls));
      ExecuteAppend(if ok then Effect(sys, a[0], input) else sys, a[1..], b, input, refuses, calls + 1);
      StopsAtFirstFailure(sys, a, input, refuses, calls);
    }
  }

  /** The plan without its last two commands. */
  function Body(policy: Policy): seq<Command> {
    Deletes() + (AddAll(FqdnList, policy.fqdns) + (PortCommands(policy) + (AddAll(PreauthenticatedUsers, policy.rules)
    + (ThemeCommands(policy) + [SetValue(GatewayFqdn, "disable"), SetValue(PreemptiveAuthentication, "0")]))))
  }

  lemma PlanIsBodyThenCommit(policy: Policy)
    ensures PlanCommands(policy) == Body(policy) + [Commit, Restart] && Local(Body(policy))
  {
    var last := [SetValue(GatewayFqdn, "disable"), SetValue(PreemptiveAuthentication, "0")];
    assert FinalCommands() == last + [Commit, Restart];
    Appended(Deletes(), AddAll(FqdnList, policy.fqdns), PortCommands(policy), AddAll(PreauthenticatedUsers, policy.rules),
             ThemeCommands(policy), last, [Commit, Restart]);
  }

  lemma Appended(a: seq<Command>, b: seq<Command>, c: seq<Command>, d: seq<Command>, e: seq<Command>, f: seq<Command>, g: seq<Command>)
    ensures a + (b + (c + (d + (e + (f + g))))) == (a + (b + (c + (d + (e + f))))) + g
  {
  }

  lemma CommitThenRestart(sys: System, input: string, refuses: Refusals, calls: nat)
    ensures Execute(sys, [Commit, Restart], input, refuses, calls)
         == if refuses(calls) then Outcome(sys, 1, false)
            else if refuses(calls + 1) then Outcome(sys.(committed := sys.staged), 2, false)
            else Outcome(sys.(committed := sys.staged, running := sys.staged, restarts := sys.restarts + 1), 2, true)
  {
    assert [Commit, Restart][1..] == [Restart] && [Restart][1..] == [];
    var committed := sys.(committed := sys.staged);
    assert Execute(committed, [Restart], input, refuses, calls + 1)
        == if refuses(calls + 1) then Outcome(committed, 1, false)
           else Outcome(Effect(committed, Restart, input), 1, true);
  }

  /** The running daemon changes only when the whole plan went through; what is committed changes
      only when everything before the commit did. */
  lemma NothingTakesEffectEarly(sys: System, policy: Policy, input: string, refuses: Refusals, calls: nat)
    ensures var o := Execute(sys, PlanCommands(policy), input, refuses, calls);
            var body := Execute(sys, Body(policy), input, refuses, calls);
            && (!o.ok ==> o.system.running == sys.running && o.system.restarts == sys.restarts)
            && (!body.ok ==> o.system.committed == sys.committed)
            && (o.ok ==> body.ok && o.system.staged == body.system.staged && o.system.committed == o.system.running == o.system.staged
                         && o.system.restarts == sys.restarts + 1
                         && o.system.themeFile == body.system.themeFile && o.system.readable == body.system.readable)
  {
    PlanIsBodyThenCommit(policy);
    LocalIsLocal(sys, Body(policy), input, refuses, calls);
    ExecuteAppend(sys, Body(policy), [Commit, Restart], input, refuses, calls);
    CommitThenRestart(Execute(sys, Body(policy), input, refuses, calls).system, input, refuses, calls + |Body(policy)|);
    hide Execute, Body, PlanCommands, Local;
  }

  /* ---- one setting at a time ---- */

  /** What a command makes of one setting. */
  function Step(c: Command, s: Setting, e: Entry, refused: bool): Entry {
    if refused || !c.Targets(s) then e
    else
      match c
      case DeleteQuietly(_) => Absent
      case AddList(_, v) => Added(e, v)
      case SetValue(_, v) => Scalar(v)
  }

  function Track(commands: seq<Command>, s: Setting, e: Entry, refuses: Refusals, calls: nat): Entry
    decreases |commands|
  {
    if commands == [] then e else Track(commands[1..], s, Step(commands[0], s, e, refuses(calls)), refuses, calls + 1)
  }

  lemma StepIsEffect(sys: System, c: Command, input: string, refused: bool, s: Setting)
    requires Succeeds(sys, c, refused) || c.DeleteQuietly?
    ensures At((if Succeeds(sys, c, refused) then Effect(sys, c, input) else sys).staged, s) == Step(c, s, At(sys.staged, s), refused)
  {
  }

  lemma {:induction false} Tracks(sys: System, commands: seq<Command>, input: string, refuses: Refusals, calls: nat, s: Setting)
    requires Execute(sys, commands, input, refuses, calls).ok
    ensures At(Execute(sys, commands, input, refuses, calls).system.staged, s)
         == Track(commands, s, At(sys.staged, s), refuses, calls)
    decreases |commands|
  {
    if commands != [] {
      var ok := Succeeds(sys, commands[0], refuses(calls));
      var next := if ok then Effect(sys, commands[0], input) else sys;
      hide Effect, Step, Succeeds, At;
      StepIsEffect(sys, commands[0], input, refuses(calls), s);
      Tracks(next, commands[1..], input, refuses, calls + 1, s);
    }
  }

  lemma {:induction false} TrackAppend(a: seq<Command>, b: seq<Command>, s: Setting, e: Entry, refuses: Refusals, calls: nat)
    ensures Track(a + b, s, e, refuses, calls) == Track(b, s, Track(a, s, e, refuses, calls), refuses, calls + |a|)
    decreases |a|
  {
    if a == [] {
      assert a + b == b;
    } else {
      hide Step;
      assert (a + b)[0] == a[0] && (a + b)[1..] == a[1..] + b;
      TrackAppend(a[1..], b, s, Step(a[0], s, e, refuses(calls)), refuses, calls + 1);
    }
  }

  lemma {:induction false} TrackOther(commands: seq<Command>, s: Setting, e: Entry, refuses: Refusals, calls: nat)
    requires forall c :: c in commands ==> !c.Targets(s)
    ensures Track(commands, s, e, refuses, calls) == e
    decreases |commands|
  {
    if commands != [] {
      assert commands[0] in commands;
      TrackOther(commands[1..], s, e, refuses, calls + 1);
    }
  }

  function AddedAll(e: Entry, values: seq<string>): Entry
    decreases |values|
  {
    if values == [] then e else AddedAll(Added(e, values[0]), values[1..])
  }

  lemma {:induction false} TrackAdds(values: seq<string>, s: Setting, e: Entry, refuses: Refusals, calls: nat)
    requires forall j :: calls <= j < calls + |values| ==> !refuses(j)
    ensures Track(AddAll(s, values), s, e, refuses, calls) == AddedAll(e, values)
    decreases |values|
  {
    if values != [] {
      assert AddAll(s, values)[1..] == AddAll(s, values[1..]) && !refuses(calls);
      TrackAdds(values[1..], s, Added(e, values[0]), refuses, calls + 1);
    }
  }

  function Before(e: Entry): seq<string> {
    match e
    case Absent => []
    case Scalar(v) => [v]
    case ListOf(items) => items
  }

  lemma {:induction false} AddedAllIs(e: Entry, values: seq<string>)
    ensures AddedAll(e, values) == if values == [] then e else ListOf(Before(e) + values)
    decreases |values|
  {
    if values != [] {
      AddedAllIs(Added(e, values[0]), values[1..]);
      assert Before(Added(e, values[0])) == Before(e) + [values[0]];
      Regroup(Before(e), [values[0]], values[1..]);
      assert values == [values[0]] + values[1..];
      if values[1..] == [] { assert Added(e, values[0]) == ListOf(Before(e) + [values[0]]); }
    }
  }

  /* ---- convergence ---- */

  /** What the policy asks of a setting. */
  function Wanted(policy: Policy, s: Setting): Entry {
    match s
    case FqdnList => if policy.fqdns == [] then Absent else ListOf(policy.fqdns)
    case PortList => if policy.fqdns == [] then Absent else ListOf([Joined(policy.ports)])
    case PreauthenticatedUsers => if policy.rules == [] then Absent else ListOf(policy.rules)
    case ThemeSpecPath => if policy.redirectUrl == "" then Absent else Scalar(THEME_SPEC_PATH)
    case LoginOption => Scalar(if policy.redirectUrl == "" then "1" else "3")
    case GatewayFqdn => Scalar("disable")
    case PreemptiveAuthentication => Scalar("0")
  }

  // the position of the quiet delete of a setting
  function DeleteIndex(s: Setting): nat {
    match s
    case FqdnList => 0
    case PortList => 1
    case PreauthenticatedUsers => 2
    case _ => 3
  }

  predicate Cleared(s: Setting) { s == FqdnList || s == PortList || s == PreauthenticatedUsers || s == ThemeSpecPath }

  /** Whether the quiet delete of a setting leaves it absent. */
  predicate Gone(e: Entry, s: Setting, refuses: Refusals, calls: nat) { e == Absent || !refuses(calls + DeleteIndex(s)) }

  lemma TrackDeletes(s: Setting, e: Entry, refuses: Refusals, calls: nat)
    ensures Track(Deletes(), s, e, refuses, calls) == if Cleared(s) && Gone(e, s, refuses, calls) then Absent else e
  {
    var d := Deletes();
    assert d[1..] == [DeleteQuietly(PortList), DeleteQuietly(PreauthenticatedUsers), DeleteQuietly(ThemeSpecPath)];
    assert d[1..][1..] == [DeleteQuietly(PreauthenticatedUsers), DeleteQuietly(ThemeSpecPath)];
    assert d[1..][1..][1..] == [DeleteQuietly(ThemeSpecPath)];
    assert d[1..][1..][1..][1..] == [];
    var e1 := Step(d[0], s, e, refuses(calls));
    var e2 := Step(d[1], s, e1, refuses(calls + 1));
    var e3 := Step(d[2], s, e2, refuses(calls + 2));
    var e4 := Step(d[3], s, e3, refuses(calls + 3));
    assert Track(d[1..][1..][1..], s, e3, refuses, calls + 3) == e4;
    assert Track(d[1..][1..], s, e2, refuses, calls + 2) == e4;
    assert Track(d[1..], s, e1, refuses, calls + 1) == e4;
  }

  ghost predicate NoRefusal(refuses: Refusals, from: nat, n: nat) { forall j :: from <= j < from + n ==> !refuses(j) }

  lemma TrackAddAll(target: Setting, values: seq<string>, s: Setting, e: Entry, refuses: Refusals, calls: nat)
    requires NoRefusal(refuses, calls, |values|)
    ensures Track(AddAll(target, values), s, e, refuses, calls) == if s == target then AddedAll(e, values) else e
  {
    if s == target { TrackAdds(values, s, e, refuses, calls); } else { TrackOther(AddAll(target, values), s, e, refuses, calls); }
  }

  lemma TrackPorts(policy: Policy, s: Setting, e: Entry, refuses: Refusals, calls: nat)
    requires NoRefusal(refuses, calls, |PortCommands(policy)|)
    ensures Track(PortCommands(policy), s, e, refuses, calls)
         == if s == PortList && policy.fqdns != [] then Added(e, Joined(policy.ports)) else e
  {
    hide Joined;
    if policy.fqdns != [] { assert PortCommands(policy)[1..] == []; }
  }

  lemma TrackTheme(policy: Policy, s: Setting, e: Entry, refuses: Refusals, calls: nat)
    requires NoRefusal(refuses, calls, |ThemeCommands(policy)|)
    ensures Track(ThemeCommands(policy), s, e, refuses, calls)
         == if s == LoginOption then Wanted(policy, s)
            else if s == ThemeSpecPath && policy.redirectUrl != "" then Wanted(policy, s) else e
  {
    var t := ThemeCommands(policy);
    if policy.redirectUrl == "" {
      assert t[1..] == [];
    } else {
      var third := Step(t[2], s, e, false);
      assert t[1..] == [Chmod, t[2], t[3]] && t[1..][1..] == [t[2], t[3]] && t[1..][1..][1..] == [t[3]] && [t[3]][1..] == [];
      assert Track([t[3]], s, third, refuses, calls + 3) == Step(t[3], s, third, false);
      assert Track([t[2], t[3]], s, e, refuses, calls + 2) == Step(t[3], s, third, false);
      assert Track([Chmod, t[2], t[3]], s, e, refuses, calls + 1) == Step(t[3], s, third, false);
    }
  }

  function Closing(): seq<Command> { [SetValue(GatewayFqdn, "disable"), SetValue(PreemptiveAuthentication, "0")] }

  lemma TrackClosing(policy: Policy, s: Setting, e: Entry, refuses: Refusals, calls: nat)
    requires NoRefusal(refuses, calls, 2)
    ensures Track(Closing(), s, e, refuses, calls)
         == if s == GatewayFqdn || s == PreemptiveAuthentication then Wanted(policy, s) else e
  {
    var c := Closing();
    assert c[1..] == [SetValue(PreemptiveAuthentication, "0")] && c[1..][1..] == [];
    var e1 := Step(c[0], s, e, false);
    assert Track(c[1..], s, e1, refuses, calls + 1) == Step(c[1], s, e1, false);
  }

  /** What the commands after the deletes make of a setting. */
  function Built(policy: Policy, s: Setting, e: Entry): Entry {
    match s
    case FqdnList => AddedAll(e, policy.fqdns)
    case PortList => if policy.fqdns == [] then e else Added(e, Joined(policy.ports))
    case PreauthenticatedUsers => AddedAll(e, policy.rules)
    case ThemeSpecPath => if policy.redirectUrl == "" then e else Scalar(THEME_SPEC_PATH)
    case _ => Wanted(policy, s)
  }

  lemma TrackBody(policy: Policy, s: Setting, e: Entry, refuses: Refusals, calls: nat)
    requires NoRefusal(refuses, calls + 4, |Body(policy)| - 4)
    ensures Track(Body(policy), s, e, refuses, calls)
         == Built(policy, s, if Cleared(s) && Gone(e, s, refuses, calls) then Absent else e)
  {
    hide Track, AddAll, PortCommands, ThemeCommands, Joined, AddedAll;
    var a, p, r, t := AddAll(FqdnList, policy.fqdns), PortCommands(policy), AddAll(PreauthenticatedUsers, policy.rules), ThemeCommands(policy);
    var t1 := t + Closing();
    var r1 := r + t1;
    var p1 := p + r1;
    var a1 := a + p1;
    assert Body(policy) == Deletes() + a1;
    var at := calls + 4;
    TrackDeletes(s, e, refuses, calls);
    var e0 := Track(Deletes(), s, e, refuses, calls);
    TrackAppend(Deletes(), a1, s, e, refuses, calls);
    TrackAddAll(FqdnList, policy.fqdns, s, e0, refuses, at);
    var e1 := Track(a, s, e0, refuses, at);
    TrackAppend(a, p1, s, e0, refuses, at);
    TrackPorts(policy, s, e1, refuses, at + |a|);
    var e2 := Track(p, s, e1, refuses, at + |a|);
    TrackAppend(p, r1, s, e1, refuses, at + |a|);
    TrackAddAll(PreauthenticatedUsers, policy.rules, s, e2, refuses, at + |a| + |p|);
    var e3 := Track(r, s, e2, refuses, at + |a| + |p|);
    TrackAppend(r, t1, s, e2, refuses, at + |a| + |p|);
    TrackTheme(policy, s, e3, refuses, at + |a| + |p| + |r|);
    var e4 := Track(t, s, e3, refuses, at + |a| + |p| + |r|);
    TrackAppend(t, Closing(), s, e3, refuses, at + |a| + |p| + |r|);
    TrackClosing(policy, s, e4, refuses, at + |a| + |p| + |r| + |t|);
  }

  lemma NotRefused(sys: System, policy: Policy, input: string, refuses: Refusals, calls: nat)
    requires Execute(sys, Body(policy), input, refuses, calls).ok
    ensures NoRefusal(refuses, calls + 4, |Body(policy)| - 4)
  {
    var body := Body(policy);
    StopsAtFirstFailure(sys, body, input, refuses, calls);
    forall j | calls + 4 <= j < calls + |body| ensures !refuses(j) {
      AfterDeletes(policy, j - calls);
      assert body[j - calls].DeleteQuietly? || !refuses(calls + (j - calls));
    }
  }

  lemma AfterDeletes(policy: Policy, i: nat)
    requires 4 <= i < |Body(policy)|
    ensures !Body(policy)[i].DeleteQuietly?
  {
    hide Joined;
  }

  /** uci keeps no empty lists. */
  ghost predicate WellFormed(c: Settings) { forall s :: At(c, s) != ListOf([]) }

  /** A successful run leaves a setting as the policy asks, in the staged, the committed and the
      running configuration alike, exactly when its stale entry was removed: it had none, its quiet
      delete worked, or the plan overwrites it anyway. */
  lemma ConvergesExactly(sys: System, policy: Policy, input: string, refuses: Refusals, calls: nat, s: Setting)
    requires Execute(sys, PlanCommands(policy), input, refuses, calls).ok && WellFormed(sys.staged)
    ensures var after := Execute(sys, PlanCommands(policy), input, refuses, calls).system;
            && At(after.committed, s) == At(after.running, s) == At(after.staged, s)
            && (At(after.staged, s) == Wanted(policy, s)
                <==> !Cleared(s) || Gone(At(sys.staged, s), s, refuses, calls) || (s == ThemeSpecPath && policy.redirectUrl != ""))
  {
    var e := At(sys.staged, s);
    NothingTakesEffectEarly(sys, policy, input, refuses, calls);
    NotRefused(sys, policy, input, refuses, calls);
    Tracks(sys, Body(policy), input, refuses, calls, s);
    TrackBody(policy, s, e, refuses, calls);
    hide Execute, Body, PlanCommands, Track, NoRefusal, Joined;
    AddedAllIs(e, policy.fqdns);
    AddedAllIs(Absent, policy.fqdns);
    AddedAllIs(e, policy.rules);
    AddedAllIs(Absent, policy.rules);
    hide AddedAll;
    assert [] + policy.fqdns == policy.fqdns && [] + policy.rules == policy.rules;
    LongerIsOther(Before(e), policy.fqdns);
    LongerIsOther(Before(e), policy.rules);
  }

  lemma LongerIsOther(a: seq<string>, b: seq<string>)
    ensures a != [] ==> a + b != b
  {
    assert |a + b| == |a| + |b|;
  }

  /** When quiet deletes fail only on absent entries, every setting converges. */
  lemma Converges(sys: System, policy: Policy, input: string, refuses: Refusals, calls: nat)
    requires Execute(sys, PlanCommands(policy), input, refuses, calls).ok && WellFormed(sys.staged)
    requires forall s :: Cleared(s) && At(sys.staged, s) != Absent ==> !refuses(calls + DeleteIndex(s))
    ensures var after := Execute(sys, PlanCommands(policy), input, refuses, calls).system;
            forall s :: At(after.running, s) == At(after.staged, s) == Wanted(policy, s)
  {
    hide Execute, PlanCommands, Wanted;
    forall s
      ensures var after := Execute(sys, PlanCommands(policy), input, refuses, calls).system;
              At(after.running, s) == At(after.staged, s) == Wanted(policy, s)
    {
      ConvergesExactly(sys, policy, input, refuses, calls, s);
    }
  }

  /* ---- the theme script ---- */

  lemma {:induction false} ThemeTrack(sys: System, commands: seq<Command>, input: string, refuses: Refusals, calls: nat)
    requires Execute(sys, commands, input, refuses, calls).ok
    ensures var after := Execute(sys, commands, input, refuses, calls).system;
            && after.themeFile == (if WriteFile in commands then Some(input) else sys.themeFile)
            && after.readable == (Chmod in commands || sys.readable)
    decreases |commands|
  {
    if commands != [] {
      var ok := Succeeds(sys, commands[0], refuses(calls));
      var next := if ok then Effect(sys, commands[0], input) else sys;
      assert next.themeFile == (if commands[0].WriteFile? then Some(input) else sys.themeFile);
      assert next.readable == (commands[0].Chmod? || sys.readable);
      hide Effect, Succeeds;
      ThemeTrack(next, commands[1..], input, refuses, calls + 1);
      assert commands == [commands[0]] + commands[1..];
    }
  }

  lemma {:induction false} ThemeIsWritten(policy: Policy)
    ensures policy.redirectUrl != "" <==> WriteFile in PlanCommands(policy)
    ensures policy.redirectUrl != "" <==> Chmod in PlanCommands(policy)
  {
    hide Joined;
    var p := PlanCommands(policy);
    if policy.redirectUrl != "" {
      assert WriteFile in ThemeCommands(policy) && Chmod in ThemeCommands(policy) by {
        assert ThemeCommands(policy)[0] == WriteFile && ThemeCommands(policy)[1] == Chmod;
      }
    }
  }

  /** A plan comes with a script exactly when one of its commands writes it. */
  lemma ThemeComesAlong(policy: Policy, theme: Policy -> string)
    ensures var plan := PlanFor(policy, theme);
            && plan.ok && plan.changed
            && plan.themeSpec == if WriteFile in plan.commands then theme(policy) else ""
  {
    ThemeIsWritten(policy);
    hide PlanCommands;
  }

  /** After a successful run the script the theme path names is the one of the policy, and readable;
      without a redirect address it is left alone. */
  lemma ThemeInPlace(sys: System, policy: Policy, input: string, refuses: Refusals, calls: nat)
    requires Execute(sys, PlanCommands(policy), input, refuses, calls).ok
    ensures var after := Execute(sys, PlanCommands(policy), input, refuses, calls).system;
            && after.themeFile == (if policy.redirectUrl != "" then Some(input) else sys.themeFile)
            && (policy.redirectUrl != "" ==> after.readable)
  {
    ThemeTrack(sys, PlanCommands(policy), input, refuses, calls);
    ThemeIsWritten(policy);
    hide Execute, PlanCommands;
  }

  /** A successful run of the plan for a free-access policy leaves the daemon with one walled-garden
      entry per host named in a rule and one pre-authentication rule per network, without duplicates. */
  lemma FreePolicyInForce(sys: System, free: Config.PortalFreePolicy, ports: seq<FixedWidth.uint16>, redirectUrl: string,
                          input: string, refuses: Refusals, calls: nat)
    requires var policy := FreePolicy(free, ports, redirectUrl); Execute(sys, PlanCommands(policy), input, refuses, calls).ok
    requires WellFormed(sys.staged)
    requires forall s :: Cleared(s) && At(sys.staged, s) != Absent ==> !refuses(calls + DeleteIndex(s))
    ensures var running := Execute(sys, PlanCommands(FreePolicy(free, ports, redirectUrl)), input, refuses, calls).system.running;
            var (hosts, rules) := (Before(At(running, FqdnList)), Before(At(running, PreauthenticatedUsers)));
            && P.Unique(hosts) && P.Unique(rules)
            && (forall v :: v in hosts <==> P.NamesHost(free.urlRules, v))
            && (forall v :: v in rules <==> P.AllowsNetwork(free.layer2Rules, v))
  {
    Converges(sys, FreePolicy(free, ports, redirectUrl), input, refuses, calls);
    hide Execute, PlanCommands, P.ListsFromFreePolicy, P.NamesHost, P.AllowsNetwork, P.Unique, Joined;
    P.ListsComplete(free);
  }

  function FreePolicy(free: Config.PortalFreePolicy, ports: seq<FixedWidth.uint16>, redirectUrl: string): Policy {
    var lists := P.ListsFromFreePolicy(Some(free));
    Policy(lists.fqdns, lists.rules, ports, redirectUrl)
  }
}
