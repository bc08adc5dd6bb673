/** The daemon's outer loop: reconnect from the saved state or adopt, save, manage, and again. */
module Daemon {
  import opened Wrappers
  import opened FixedWidth
  import opened Mac
  import opened Protocol
  import opened Adoption
  import opened Appliers
  import opened ManagedRequests
  import opened InformSchedule
  import opened Restart
  import P = Persistence
  import M = ManagedLoop
  import Text

  /** What discovery comes back with: a controller that asked to adopt, and the connection to it. */
  datatype Discovery = Discovery(controllerId: string, port: uint16, attempt: Attempt)

  /** The oracles of one turn. */
  datatype Turn = Turn(
    opens: bool,
    reading: seq<P.IoEvent>,
    attempts: nat -> Attempt,
    stop: nat,
    discovery: Option<Discovery>,
    io: P.SaveIo,
    startedAt: uint64,
    rounds: seq<M.Round>)

  /** What stays fixed over the daemon's life. */
  datatype World = World(
    settings: Settings,
    proof: Proof,
    device: MacAddress,
    host: string,
    appliers: seq<Option<Member>>,
    outcome: Oracle,
    informInterval: uint32,
    once: bool)

  /** The appliers of the daemon: the guard before everything that reaches a platform. */
  function DaemonAppliers(portalSupported: bool): seq<Option<Member>> {
    [Some(SupportGuard(portalSupported)), Some(Platform(0))] + if portalSupported then [Some(Platform(1))] else []
  }

  method BuildAppliers(portalSupported: bool, outcome: Oracle) returns (applier: CompositeApplier)
    ensures fresh(applier) && applier.appliers == DaemonAppliers(portalSupported) && applier.outcome == outcome && applier.log == []
  {
    applier := new CompositeApplier([], outcome);
    applier.Add(SupportGuard(portalSupported));
    applier.Add(Platform(0));
    if portalSupported {
      applier.Add(Platform(1));
    }
  }

  /* ---- one turn, on values ---- */

  function NewlyAdopted(w: World, d: Discovery): Origin {
    Origin(w.settings.(controllerId := d.controllerId), d.port, d.controllerId, FIRST_ADOPTION, d.attempt)
  }

  /** The session a turn starts with, if it gets one: the saved one, or else a newly adopted one. */
  function OriginOf(w: World, turn: Turn, file: Option<string>): Option<Origin> {
    var loaded := P.LoadOf(file, w.device, w.host, turn.opens, turn.reading);
    var first := if loaded.Loaded? then FirstSynced(w.settings, loaded.state, w.proof, turn.attempts, 0, w.settings.reconnectAttempts, turn.stop)
                 else None;
    if first.Some? then Some(Reconnection(w.settings, loaded.state, turn.attempts(first.value)))
    else if turn.discovery.Some? && SyncedBy(NewlyAdopted(w, turn.discovery.value), w.proof).Some? then Some(NewlyAdopted(w, turn.discovery.value))
    else None
  }

  function EnvAt(w: World, g: Origin): M.Env {
    M.Env(g.attempt.inbound, g.attempt.sendOk, w.appliers, w.outcome, w.device, w.host, Interval(w.informInterval))
  }

  /** The session at the head of its managed loop. */
  function LiveAt(w: World, g: Origin, startedAt: uint64, log: seq<nat>, file: Option<string>): M.Live
    requires SyncedBy(g, w.proof).Some?
  {
    var o := HandshakeBy(g, w.proof);
    M.Live(SyncedBy(g, w.proof).value, StageStart(g.attempt.inbound, 0, o.stages), o.attempts, o.sent, log,
           Begin(o.result.lastSeq, startedAt), file)
  }

  /** How a turn ends: the session it had, where its managed loop got, and what is left behind. */
  datatype TurnEnd = TurnEnd(origin: Option<Origin>, loop: Option<(M.Live, M.Next)>, file: Option<string>, log: seq<nat>)

  lemma FirstSyncs(settings: Settings, state: ManagedState, proof: Proof, attempts: nat -> Attempt, next: nat, left: nat, stop: nat)
    ensures var f := FirstSynced(settings, state, proof, attempts, next, left, stop);
            f.Some? ==> SyncedBy(Reconnection(settings, state, attempts(f.value)), proof).Some?
    decreases left
  {
    hide Synced;
  }

  lemma OriginSyncs(w: World, turn: Turn, file: Option<string>)
    ensures var g := OriginOf(w, turn, file); g.Some? ==> SyncedBy(g.value, w.proof).Some?
  {
    var loaded := P.LoadOf(file, w.device, w.host, turn.opens, turn.reading);
    hide SyncedBy, P.LoadOf;
    if loaded.Loaded? {
      FirstSyncs(w.settings, loaded.state, w.proof, turn.attempts, 0, w.settings.reconnectAttempts, turn.stop);
    }
  }

  function RunOf(w: World, turn: Turn, file: Option<string>, log: seq<nat>): TurnEnd {
    var g := OriginOf(w, turn, file);
    OriginSyncs(w, turn, file);
    if g.None? then TurnEnd(None, None, file, log)
    else
      var saved := P.SavedFile(SyncedBy(g.value, w.proof).value, w.device, w.host, file, turn.io);
      if w.once then TurnEnd(g, None, saved, log)
      else
        var r := M.Rounds(EnvAt(w, g.value), LiveAt(w, g.value, turn.startedAt, log, saved), turn.rounds);
        TurnEnd(g, Some(r), r.0.file, r.0.log)
  }

  /** The messages a turn's session got across. */
  function MessagesOf(w: World, e: TurnEnd): seq<Outbound> {
    if e.loop.Some? then e.loop.value.0.sent else if e.origin.Some? then HandshakeBy(e.origin.value, w.proof).sent else []
  }

  /** Whether another turn follows: after a lost session, or when there was none to begin with. */
  predicate Continues(w: World, e: TurnEnd) {
    e.origin.None? || (e.loop.Some? && !e.loop.value.1.Again?)
  }

  function RunTurns(w: World, turns: seq<Turn>, file: Option<string>, log: seq<nat>): seq<TurnEnd>
    decreases |turns|
  {
    if turns == [] then []
    else
      var e := RunOf(w, turns[0], file, log);
      [e] + if Continues(w, e) then RunTurns(w, turns[1..], e.file, e.log) else []
  }

  /* ---- the loop ---- */

  ghost predicate Serves(w: World, repository: P.SessionStateRepository, applier: CompositeApplier)
    reads applier`appliers
  {
    repository.deviceMac == w.device && repository.controllerHost == w.host && applier.appliers == w.appliers && applier.outcome == w.outcome
  }

  // the saved session, or else the one discovery leads to
  method Establish(repository: P.SessionStateRepository, applier: CompositeApplier, w: World, turn: Turn)
    returns (session: ManagedSession?, lastSeq: uint32)
    requires Serves(w, repository, applier)
    ensures var g := OriginOf(w, turn, repository.file);
            && (session != null <==> g.Some?)
            && (session != null ==> fresh(session) && fresh(session.transport) && Opened(session, lastSeq, g.value, w.proof))
  {
    hide Synced, FirstSynced, Opened, P.LoadOf, SettingsFor, OptionsFor;
    var rediscovered;
    ghost var loaded;
    session, lastSeq, rediscovered, loaded :=
      TryManagedReconnect(repository, w.settings, w.proof, turn.attempts, turn.stop, turn.opens, turn.reading);
    if session == null && turn.discovery.Some? {
      var d := turn.discovery.value;
      session, lastSeq := ConnectAndSync(w.settings.(controllerId := d.controllerId), d.port, d.controllerId, FIRST_ADOPTION, w.proof, d.attempt);
    }
  }

  /** One turn does to the state file, the appliers and the controller what `RunOf` says. */
  method RunTurn(repository: P.SessionStateRepository, applier: CompositeApplier, w: World, turn: Turn)
    returns (again: bool, ghost end: TurnEnd, ghost sent: seq<Outbound>)
    requires Serves(w, repository, applier)
    modifies repository, applier
    ensures Serves(w, repository, applier)
    ensures end == RunOf(w, turn, old(repository.file), old(applier.log))
    ensures repository.file == end.file && applier.log == end.log && sent == MessagesOf(w, end) && again == Continues(w, end)
  {
    hide OriginOf, P.SavedFile, M.Rounds, SyncedBy, HandshakeBy;
    ghost var file, log := repository.file, applier.log;
    var session, lastSeq := Establish(repository, applier, w, turn);
    end := RunOf(w, turn, file, log);
    if session == null {
      return true, end, [];
    }
    sent := session.transport.sent;
    var status := repository.Save(session.state, turn.io);
    if w.once {
      return false, end, sent;
    }
    ghost var g := OriginOf(w, turn, file).value;
    assert M.EnvOf(session, repository, applier, Interval(w.informInterval)) == EnvAt(w, g);
    OriginSyncs(w, turn, file);
    assert M.LiveOf(session, repository, applier, Begin(lastSeq, turn.startedAt)) == LiveAt(w, g, turn.startedAt, log, repository.file);
    var outcome, schedule := M.RunManagedLoop(session, repository, applier, w.informInterval, lastSeq, turn.startedAt, turn.rounds);
    sent := session.transport.sent;
    again := outcome.Reconnect?;
  }

  /** run_daemon, for a daemon whose stop request arrives at the latest after the given turns. */
  method RunDaemon(repository: P.SessionStateRepository, applier: CompositeApplier, w: World, turns: seq<Turn>)
    returns (ghost ends: seq<TurnEnd>, ghost sessions: seq<seq<Outbound>>)
    requires Serves(w, repository, applier)
    modifies repository, applier
    ensures ends == RunTurns(w, turns, old(repository.file), old(applier.log))
    ensures |sessions| == |ends| && forall i :: 0 <= i < |ends| ==> sessions[i] == MessagesOf(w, ends[i])
    ensures repository.file == if ends == [] then old(repository.file) else ends[|ends| - 1].file
  {
    hide RunOf, MessagesOf, Continues;
    ends, sessions := [], [];
    ghost var whole := RunTurns(w, turns, repository.file, applier.log);
    for i := 0 to |turns|
      invariant Serves(w, repository, applier)
      invariant ends + RunTurns(w, turns[i..], repository.file, applier.log) == whole
      invariant |sessions| == |ends| && forall j :: 0 <= j < |ends| ==> sessions[j] == MessagesOf(w, ends[j])
      invariant repository.file == if ends == [] then old(repository.file) else ends[|ends| - 1].file
    {
      assert turns[i..][1..] == turns[i + 1..];
      var again, end, sent := RunTurn(repository, applier, w, turns[i]);
      Text.Regroup(ends, [end], if again then RunTurns(w, turns[i + 1..], repository.file, applier.log) else []);
      ends, sessions := ends + [end], sessions + [sent];
      if !again {
        assert ends + [] == ends;
        return;
      }
    }
    assert turns[|turns|..] == [] && ends + [] == ends;
  }

  /** With the daemon's appliers, an LED, client-operation or rate-limit update reaches no platform
      applier, is answered with an error if it is answered at all, and leaves the state alone. */
  lemma UnsupportedIsRefused(s: ManagedState, p: Payload, portalSupported: bool, outcome: Oracle, calls: nat, sendOk: bool)
    requires p.Json? && p.Type() == Some(SET_REQUEST) && AsksToApply(p)
    requires LacksBackend(portalSupported, p.config.update)
    ensures var run := RunFrom(DaemonAppliers(portalSupported), 0, p.config.update, outcome, calls);
            var h := Handle(s, p, Some(Combined(run.results)), sendOk);
            && run.platforms == [] && h.state == s
            && (h.message.Some? ==> h.message.value.SetResponse? && h.message.value.errcode == CONFIG_ERROR)
  {
    var rest := [Some(Platform(0))] + if portalSupported then [Some(Platform(1))] else [];
    assert DaemonAppliers(portalSupported) == [Some(SupportGuard(portalSupported))] + rest;
    UnsupportedReachNoExecutor(portalSupported, rest, p.config.update, outcome, calls);
    hide RunFrom, LacksBackend;
  }
}
