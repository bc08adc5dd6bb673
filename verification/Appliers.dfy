/** The composite configuration applier and the support guard the daemon puts first in it. */
module Appliers {
  import opened Wrappers
  import opened Config
  import opened Text

  /** A member is the support guard, or a platform applier known by a number. */
  datatype Member = SupportGuard(portalSupported: bool) | Platform(id: nat)

  datatype Backend = Led | ClientOperation | ClientRate | Portal

  /** The first part of an update the platform has no backend for. */
  function Missing(portalSupported: bool, u: Update): Option<Backend> {
    if u.led || u.wifiControlLed then Some(Led)
    else if u.clientOperations != 0 then Some(ClientOperation)
    else if u.clientRateConfig then Some(ClientRate)
    else if !portalSupported && (u.portalFreePolicy.Some? || u.portalConfigs != 0 || u.clientConfigs != []) then Some(Portal)
    else None
  }

  function Refusal(b: Backend): string {
    match b
    case Led => "LED configuration is parsed but has no native OpenWrt backend yet"
    case ClientOperation => "clientOperation is parsed but has no native OpenWrt backend yet"
    case ClientRate => "clientRateConfig is parsed but has no native OpenWrt backend yet"
    case Portal => "portal configuration requires enabled openNDS capability"
  }

  // RuntimeSupportGuard::apply
  function GuardResult(portalSupported: bool, u: Update): ApplyResult {
    var missing := Missing(portalSupported, u);
    if missing.Some? then ApplyResult(false, false, Refusal(missing.value)) else ApplyResult(true, false, "")
  }

  /** The outcome of the n-th platform applier that runs, whichever it is. */
  type Oracle = nat -> ApplyResult

  function Result(m: Member, u: Update, outcome: Oracle, calls: nat): ApplyResult {
    match m
    case SupportGuard(portalSupported) => GuardResult(portalSupported, u)
    case Platform(_) => outcome(calls)
  }

  function Logged(m: Member): seq<nat> { if m.Platform? then [m.id] else [] }

  /** One run: the results of the members that ran, and the platform appliers among them. */
  datatype Run = Run(results: seq<ApplyResult>, platforms: seq<nat>)

  /** The members from position `i` on: all that are present run, or up to and including the first failure. */
  function RunFrom(appliers: seq<Option<Member>>, i: nat, u: Update, outcome: Oracle, calls: nat): Run
    decreases |appliers| - i
  {
    if i >= |appliers| then Run([], [])
    else if appliers[i].None? then RunFrom(appliers, i + 1, u, outcome, calls)
    else
      var m := appliers[i].value;
      var r := Result(m, u, outcome, calls);
      if !r.ok then Run([r], Logged(m))
      else
        var rest := RunFrom(appliers, i + 1, u, outcome, calls + |Logged(m)|);
        Run([r] + rest.results, Logged(m) + rest.platforms)
  }

  function AnyChanged(rs: seq<ApplyResult>): bool { rs != [] && (rs[0].changed || AnyChanged(rs[1..])) }

  function Combined(rs: seq<ApplyResult>): ApplyResult {
    if rs != [] && !rs[|rs| - 1].ok then rs[|rs| - 1] else ApplyResult(true, AnyChanged(rs), "")
  }

  lemma {:induction false} ChangedAppend(a: seq<ApplyResult>, b: seq<ApplyResult>)
    ensures AnyChanged(a + b) == (AnyChanged(a) || AnyChanged(b))
  {
    if a == [] {
      assert a + b == b;
    } else {
      assert (a + b)[1..] == a[1..] + b;
      ChangedAppend(a[1..], b);
    }
  }

  class CompositeApplier {
    const outcome: Oracle
    var appliers: seq<Option<Member>>
    var log: seq<nat>   // the platform appliers that have run, in order

    constructor (appliers: seq<Option<Member>>, outcome: Oracle)
      ensures this.appliers == appliers && this.outcome == outcome && log == []
    {
      this.appliers, this.outcome, this.log := appliers, outcome, [];
    }

    method Add(m: Member)
      modifies this`appliers
      ensures appliers == old(appliers) + [Some(m)]
    {
      appliers := appliers + [Some(m)];
    }

    method Apply(u: Update) returns (result: ApplyResult)
      modifies this`log
      ensures var run := RunFrom(appliers, 0, u, outcome, |old(log)|);
              result == Combined(run.results) && log == old(log) + run.platforms
    {
      ghost var run := RunFrom(appliers, 0, u, outcome, |log|);
      ghost var before := log;
      ghost var done: seq<ApplyResult> := [];
      ghost var ran: seq<nat> := [];
      ghost var rest := run;
      var changed := false;
      hide Result, Logged, AnyChanged;
      for i := 0 to |appliers|
        invariant rest == RunFrom(appliers, i, u, outcome, |log|)
        invariant run.results == done + rest.results && run.platforms == ran + rest.platforms
        invariant changed == AnyChanged(done)
        invariant forall k :: 0 <= k < |done| ==> done[k].ok
        invariant log == before + ran
      {
        if appliers[i].None? {
          continue;
        }
        var r := Result(appliers[i].value, u, outcome, |log|);
        ghost var logged := Logged(appliers[i].value);
        Regroup(before, ran, logged);
        log := log + Logged(appliers[i].value);
        if !r.ok {
          assert rest == Run([r], logged);
          return r;
        }
        ghost var next := RunFrom(appliers, i + 1, u, outcome, |log|);
        assert rest == Run([r] + next.results, logged + next.platforms);
        Regroup(done, [r], next.results);
        Regroup(ran, logged, next.platforms);
        ChangedAppend(done, [r]);
        SingleChanged(r);
        done, ran, rest := done + [r], ran + logged, next;
        changed := changed || r.changed;
      }
      assert run.results == done && run.platforms == ran;
      result := ApplyResult(true, changed, "");
    }
  }

  lemma SingleChanged(r: ApplyResult)
    ensures AnyChanged([r]) == r.changed
  {
    assert [r][1..] == [];
  }

  /** The members present, in order. */
  function Live(appliers: seq<Option<Member>>, i: nat): seq<Member>
    decreases |appliers| - i
  {
    if i >= |appliers| then []
    else if appliers[i].None? then Live(appliers, i + 1)
    else [appliers[i].value] + Live(appliers, i + 1)
  }

  function Platforms(members: seq<Member>): seq<nat> {
    if members == [] then [] else Logged(members[0]) + Platforms(members[1..])
  }

  /** The members that ran are the first ones present, each once and in order; all but the last
      succeeded, and the run stops short only after a failure. */
  lemma {:induction false} RunsInOrder(appliers: seq<Option<Member>>, i: nat, u: Update, outcome: Oracle, calls: nat)
    ensures var run, live := RunFrom(appliers, i, u, outcome, calls), Live(appliers, i);
            && |run.results| <= |live|
            && run.platforms == Platforms(live[..|run.results|])
            && (forall k :: 0 <= k < |run.results| - 1 ==> run.results[k].ok)
            && (|run.results| < |live| ==> run.results != [] && !run.results[|run.results| - 1].ok)
    decreases |appliers| - i
  {
    if i >= |appliers| {
      assert Live(appliers, i)[..0] == [];
    } else {
      hide Result, Logged, Platforms;
      if appliers[i].None? {
        RunsInOrder(appliers, i + 1, u, outcome, calls);
      } else {
        var m := appliers[i].value;
        var r := Result(m, u, outcome, calls);
        var later := Live(appliers, i + 1);
        if !r.ok {
          PlatformsTake(m, later, 0);
        } else {
          var next := RunFrom(appliers, i + 1, u, outcome, calls + |Logged(m)|);
          RunsInOrder(appliers, i + 1, u, outcome, calls + |Logged(m)|);
          PlatformsTake(m, later, |next.results|);
        }
      }
    }
  }

  lemma PlatformsTake(m: Member, later: seq<Member>, n: nat)
    requires n <= |later|
    ensures Platforms(([m] + later)[..n + 1]) == Logged(m) + Platforms(later[..n])
    ensures n == 0 ==> Platforms(([m] + later)[..1]) == Logged(m)
  {
    assert ([m] + later)[..n + 1] == [m] + later[..n];
    assert ([m] + later[..n])[1..] == later[..n];
  }

  lemma {:induction false} ChangedSomewhere(rs: seq<ApplyResult>)
    ensures AnyChanged(rs) <==> exists k :: 0 <= k < |rs| && rs[k].changed
  {
    if rs != [] {
      ChangedSomewhere(rs[1..]);
      assert forall k :: 0 < k < |rs| ==> rs[k] == rs[1..][k - 1];
      if k :| 0 <= k < |rs[1..]| && rs[1..][k].changed { assert rs[k + 1].changed; }
    }
  }

  /** The composite succeeds exactly when every member present ran and succeeded, and otherwise
      returns the first failure, after which nothing ran. */
  lemma HonestComposite(appliers: seq<Option<Member>>, u: Update, outcome: Oracle, calls: nat)
    ensures var run, live := RunFrom(appliers, 0, u, outcome, calls), Live(appliers, 0);
            var result := Combined(run.results);
            && (result.ok <==> |run.results| == |live| && forall k :: 0 <= k < |live| ==> run.results[k].ok)
            && (result.ok ==> run.platforms == Platforms(live) && result.error == ""
                              && (result.changed <==> exists k :: 0 <= k < |live| && run.results[k].changed))
            && (!result.ok ==> run.results != [] && result == run.results[|run.results| - 1]
                               && |run.results| <= |live|
                               && run.platforms == Platforms(live[..|run.results|])
                               && forall k :: 0 <= k < |run.results| - 1 ==> run.results[k].ok)
  {
    hide RunFrom, Live, Platforms, AnyChanged;
    RunsInOrder(appliers, 0, u, outcome, calls);
    var run, live := RunFrom(appliers, 0, u, outcome, calls), Live(appliers, 0);
    ChangedSomewhere(run.results);
    if |run.results| == |live| { assert live[..|run.results|] == live; }
  }

  /** A part of the update has no backend: LEDs, client operations and rate limits never have one, and
      portals only where the platform supports them. */
  predicate LacksBackend(portalSupported: bool, u: Update) {
    || u.led || u.wifiControlLed || u.clientOperations > 0 || u.clientRateConfig
    || (!portalSupported && !(u.portalFreePolicy == None && u.portalConfigs == 0 && u.clientConfigs == []))
  }

  /** Every result is that of the member at its place: a platform applier's is the outcome of its turn
      among the platform appliers, the guard's says whether every part has a backend. */
  lemma {:induction false} ResultsAreTheirs(appliers: seq<Option<Member>>, i: nat, u: Update, outcome: Oracle, calls: nat, k: nat)
    requires k < |RunFrom(appliers, i, u, outcome, calls).results|
    ensures var (run, live) := (RunFrom(appliers, i, u, outcome, calls), Live(appliers, i));
            && k < |live|
            && match live[k]
               case SupportGuard(portalSupported) => (run.results[k].ok <==> !LacksBackend(portalSupported, u)) && !run.results[k].changed
               case Platform(_) => run.results[k] == outcome(calls + |Platforms(live[..k])|)
    decreases |appliers| - i
  {
    hide Refusal, LacksBackend, Missing;
    GuardsBackends(u);
    if i < |appliers| {
      if appliers[i].None? {
        ResultsAreTheirs(appliers, i + 1, u, outcome, calls, k);
      } else {
        var m, later := appliers[i].value, Live(appliers, i + 1);
        assert ([m] + later)[..0] == [];
        if k > 0 {
          ResultsAreTheirs(appliers, i + 1, u, outcome, calls + |Logged(m)|, k - 1);
          PlatformsTake(m, later, k - 1);
          assert ([m] + later)[k] == later[k - 1];
        }
      }
    }
  }

  lemma GuardsBackends(u: Update)
    ensures forall portalSupported ::
              && (GuardResult(portalSupported, u).ok <==> !LacksBackend(portalSupported, u))
              && !GuardResult(portalSupported, u).changed
              && (Missing(portalSupported, u).Some? <==> LacksBackend(portalSupported, u))
  {
    hide Refusal;
  }

  /** With the guard first, an update is stopped before any platform applier runs exactly when some
      part of it has no backend; LED, client-operation and rate-limit updates always are. */
  lemma UnsupportedReachNoExecutor(portalSupported: bool, rest: seq<Option<Member>>, u: Update, outcome: Oracle, calls: nat)
    ensures var run := RunFrom([Some(SupportGuard(portalSupported))] + rest, 0, u, outcome, calls);
            LacksBackend(portalSupported, u) <==> (|run.results| == 1 && run.platforms == [] && !Combined(run.results).ok)
    ensures LacksBackend(portalSupported, u) ==>
              RunFrom([Some(SupportGuard(portalSupported))] + rest, 0, u, outcome, calls) == Run([GuardResult(portalSupported, u)], [])
  {
    GuardsBackends(u);
    hide Refusal, Missing, LacksBackend;
    var appliers := [Some(SupportGuard(portalSupported))] + rest;
    assert appliers[0] == Some(SupportGuard(portalSupported));
  }
}
