/** Establishing a managed session, and re-establishing one from the saved state after a restart. */
module Restart {
  import opened Wrappers
  import opened FixedWidth
  import opened Mac
  import opened Protocol
  import opened Adoption
  import opened AdoptionProperties
  import opened ManagedRequests
  import opened SessionRuns
  import opened InformSchedule
  import opened LoopProperties
  import ManagedLoop
  import Text
  import P = Persistence

  datatype Settings = Settings(
    mac: MacAddress,
    controllerHost: string,
    controllerId: string,
    managePort: uint16,
    siteId: string,
    username: string,
    password: string,
    cipherType: uint32,
    reconnectAttempts: uint32)

  datatype Options = Options(managedReconnect: bool, knownVersion: Option<uint32>)

  const FIRST_ADOPTION := Options(false, None)

  type Proof = (string, string, string) -> string

  // settings_for_managed_state
  function SettingsFor(settings: Settings, state: ManagedState): Settings {
    settings.(controllerHost := state.controllerHost,
              controllerId := state.controllerId,
              managePort := state.managePort,
              siteId := if state.siteId != "" then state.siteId else settings.siteId,
              username := if settings.username == "" && state.username != "" then state.username else settings.username)
  }

  // adoption_options_for_managed_state
  function OptionsFor(state: ManagedState): Options { Options(true, state.configVersion) }

  // managed_state_from_adoption
  function StateFromAdoption(settings: Settings, port: uint16, result: AdoptionResult, updatedAt: uint64): ManagedState {
    ManagedState(1, Normalized(settings.mac), settings.controllerHost, result.controllerId, port, settings.siteId, result.username,
                 result.configVersion, result.sequenceId, updatedAt)
  }

  function SyncEnv(settings: Settings, controllerId: string, options: Options, systemKey: string, proof: Proof): Env {
    Env(controllerId, settings.username, settings.password, settings.cipherType, options.managedReconnect, options.knownVersion,
        systemKey, proof)
  }

  /** One connection attempt: whether TLS comes up, what the controller sends, which sends succeed. */
  datatype Attempt = Attempt(connects: bool, inbound: nat -> Incoming, sendOk: nat -> bool, systemKey: string, syncedAt: uint64)

  function HandshakeOf(settings: Settings, controllerId: string, options: Options, proof: Proof, a: Attempt): Outcome {
    Handshake(SyncEnv(settings, controllerId, options, a.systemKey, proof), Gots(a.inbound, 0), a.sendOk, 0)
  }

  /** The session state an attempt leads to, if it does. */
  function Synced(settings: Settings, port: uint16, controllerId: string, options: Options, proof: Proof, a: Attempt): Option<ManagedState> {
    if controllerId == "" || !a.connects then None
    else
      var result := HandshakeOf(settings, controllerId, options, proof, a).result;
      if !result.ok || !result.initialSyncComplete then None
      else Some(StateFromAdoption(settings.(controllerId := controllerId, managePort := port), port, result, a.syncedAt))
  }

  /** What identifies a session: the settings, the controller and the attempt it came from. */
  datatype Origin = Origin(settings: Settings, port: uint16, controllerId: string, options: Options, attempt: Attempt)

  function SyncedBy(g: Origin, proof: Proof): Option<ManagedState> {
    Synced(g.settings, g.port, g.controllerId, g.options, proof, g.attempt)
  }

  function HandshakeBy(g: Origin, proof: Proof): Outcome { HandshakeOf(g.settings, g.controllerId, g.options, proof, g.attempt) }

  /** A session as the handshake of its attempt leaves it. */
  ghost predicate Opened(session: ManagedSession, lastSeq: uint32, g: Origin, proof: Proof)
    reads session, session.transport
  {
    var (t, o) := (session.transport, HandshakeBy(g, proof));
    && Some(session.state) == SyncedBy(g, proof)
    && t.inbound == g.attempt.inbound && t.sendOk == g.attempt.sendOk
    && t.received == StageStart(g.attempt.inbound, 0, o.stages) && t.sends == o.attempts && t.sent == o.sent
    && lastSeq == o.result.lastSeq
  }

  method ConnectAndSync(settings: Settings, port: uint16, controllerId: string, options: Options, proof: Proof, a: Attempt)
    returns (session: ManagedSession?, lastSeq: uint32)
    ensures session == null <==> Synced(settings, port, controllerId, options, proof, a).None?
    ensures session != null ==>
              fresh(session) && fresh(session.transport)
              && Opened(session, lastSeq, Origin(settings, port, controllerId, options, a), proof)
  {
    hide Handshake, Gots, StateFromAdoption;
    if controllerId == "" || !a.connects {
      return null, 0;
    }
    var managed := settings.(controllerId := controllerId, managePort := port);
    var transport := new Transport(a.inbound, a.sendOk);
    var adoption := RunInitialSync(transport, SyncEnv(managed, controllerId, options, a.systemKey, proof));
    assert [] + HandshakeOf(settings, controllerId, options, proof, a).sent == HandshakeOf(settings, controllerId, options, proof, a).sent;
    if !adoption.ok || !adoption.initialSyncComplete {
      return null, 0;
    }
    session := new ManagedSession(transport, StateFromAdoption(managed, port, adoption, a.syncedAt));
    lastSeq := adoption.lastSeq;
  }

  /** The first of at most `left` attempts, counted from `next`, that syncs; a stop request arrives
      before attempt `stop`. */
  function FirstSynced(settings: Settings, state: ManagedState, proof: Proof, attempts: nat -> Attempt, next: nat, left: nat, stop: nat)
    : Option<nat>
    decreases left
  {
    if left == 0 || next >= stop then None
    else if Synced(SettingsFor(settings, state), state.managePort, state.controllerId, OptionsFor(state), proof, attempts(next)).Some? then Some(next)
    else FirstSynced(settings, state, proof, attempts, next + 1, left - 1, stop)
  }

  /** The attempt, settings and options a saved state is reconnected with. */
  function Reconnection(settings: Settings, state: ManagedState, a: Attempt): Origin {
    Origin(SettingsFor(settings, state), state.managePort, state.controllerId, OptionsFor(state), a)
  }

  /** The result of trying to reconnect: a session, or nothing and perhaps a rediscovery datagram. */
  method TryManagedReconnect(repository: P.SessionStateRepository, settings: Settings, proof: Proof,
                             attempts: nat -> Attempt, stop: nat, opens: bool, reading: seq<P.IoEvent>)
    returns (session: ManagedSession?, lastSeq: uint32, rediscovered: Option<ManagedState>, ghost loaded: P.LoadResult)
    ensures loaded == P.LoadOf(repository.file, repository.deviceMac, repository.controllerHost, opens, reading)
    ensures !loaded.Loaded? ==> session == null && rediscovered.None?
    ensures session != null ==> fresh(session) && fresh(session.transport)
    ensures loaded.Loaded? ==>
              var first := FirstSynced(settings, loaded.state, proof, attempts, 0, settings.reconnectAttempts, stop);
              && (session != null <==> first.Some?)
              && (first.Some? ==> Opened(session, lastSeq, Reconnection(settings, loaded.state, attempts(first.value)), proof))
              && (rediscovered == if first.None? && settings.reconnectAttempts < stop then Some(loaded.state) else None)
  {
    hide Synced, Opened, SettingsFor, OptionsFor, P.LoadOf;
    session, lastSeq, rediscovered := null, 0, None;
    var result := repository.Load(opens, reading);
    loaded := result;
    if !result.Loaded? {
      return;
    }
    var state := result.state;
    var attempt := 0;
    while attempt < settings.reconnectAttempts && attempt < stop
      invariant 0 <= attempt <= settings.reconnectAttempts
      invariant FirstSynced(settings, state, proof, attempts, attempt, settings.reconnectAttempts - attempt, stop)
             == FirstSynced(settings, state, proof, attempts, 0, settings.reconnectAttempts, stop)
      invariant attempt <= stop
    {
      session, lastSeq := ConnectAndSync(SettingsFor(settings, state), state.managePort, state.controllerId, OptionsFor(state),
                                         proof, attempts(attempt));
      if session != null {
        return;
      }
      attempt := attempt + 1;
    }
    session := null;
    if attempt < stop {
      rediscovered := Some(state);
    }
  }

  /* ---- what a session starts with ---- */

  /** A sync that goes through took five messages, numbered 1 to 5, and reports the last of them. */
  lemma SyncedHandshake(settings: Settings, port: uint16, controllerId: string, options: Options, proof: Proof, a: Attempt)
    requires Synced(settings, port, controllerId, options, proof, a).Some?
    ensures var o := HandshakeOf(settings, controllerId, options, proof, a);
            && o.result.ok && o.result.controllerId == controllerId && o.result.lastSeq == 5
            && SeqNos(o.sent) == Consecutive(1, 5)
            && (settings.username != "" ==> o.result.username == settings.username)
  {
    var env, gots := SyncEnv(settings, controllerId, options, a.systemKey, proof), Gots(a.inbound, 0);
    SentCount(env, gots, a.sendOk, 0);
    hide HelloRefusal, VerifyRefusal, HelloUsername, Gots;
    PassedEarlier(env, gots, a.sendOk, 0, 5, 3);
    Completed(env, gots, a.sendOk, 0);
    SentScripted(env, gots, 5);
    FiveNumbers(env, SentUpTo(env, gots, 5));
  }

  lemma FiveNumbers(env: Env, sent: seq<Outbound>)
    requires |sent| == 5 && forall i :: 0 <= i < 5 ==> IsScripted(env, sent[i], i)
    ensures SeqNos(sent) == Consecutive(1, 5)
  {
    forall i | 0 <= i < 5 ensures SeqNos(sent[i..]) == [i + 1] + SeqNos(sent[i + 1..]) {
      assert sent[i..][1..] == sent[i + 1..] && sent[i..][0] == sent[i] && IsScripted(env, sent[i], i);
    }
    assert sent[0..] == sent && SeqNos(sent[5..]) == [];
    assert SeqNos(sent[2..]) == [3] + ([4] + ([5] + []));
    assert Consecutive(1, 5) == [1, 2, 3, 4, 5];
  }

  /** The state a session starts with: who it is with, and the version and sequence id the controller's
      negotiation message names. */
  lemma StartsFresh(settings: Settings, port: uint16, controllerId: string, options: Options, proof: Proof, a: Attempt)
    requires Synced(settings, port, controllerId, options, proof, a).Some?
    ensures a.connects && controllerId != ""
    ensures var (first, negotiation) := (Gots(a.inbound, 0)[0], Gots(a.inbound, 0)[3]);
            && Clean(first) && Clean(negotiation)
            && var (user, body) := (UserOf(SyncEnv(settings, controllerId, options, a.systemKey, proof), first.payload), negotiation.payload.body);
               Synced(settings, port, controllerId, options, proof, a)
               == Some(ManagedState(1, Normalized(settings.mac), settings.controllerHost, controllerId, port, settings.siteId, user,
                                    if body.Some? then Kept(body.value.versionNumber) else None,
                                    if body.Some? then Kept(body.value.sequenceNumber) else None, a.syncedAt))
  {
    hide Handshake, UserOf, Clean, Kept, Gots, Normalized;
    SuccessReports(SyncEnv(settings, controllerId, options, a.systemKey, proof), Gots(a.inbound, 0), a.sendOk, 0);
  }

  /** Over a whole session, handshake and informs together, the messages the device numbers carry
      1, 2, 3, ... modulo 2^32. */
  lemma SessionNumbering(settings: Settings, port: uint16, controllerId: string, options: Options, proof: Proof, a: Attempt,
                         env: ManagedLoop.Env, live: ManagedLoop.Live, startedAt: uint64, rounds: seq<ManagedLoop.Round>)
    requires Synced(settings, port, controllerId, options, proof, a).Some?
    requires live.sent == HandshakeOf(settings, controllerId, options, proof, a).sent
    requires live.schedule == Begin(HandshakeOf(settings, controllerId, options, proof, a).result.lastSeq, startedAt)
    ensures var nos := SeqNos(ManagedLoop.Rounds(env, live, rounds).0.sent); nos == Consecutive(1, |nos|)
  {
    SyncedHandshake(settings, port, controllerId, options, proof, a);
    RunAdds(env, live, rounds);
    LoopNumbering(env, live, rounds);
    assert CastU32(1 + 5) == 6 && CastU32(5 + 1) == 6;
    hide HandshakeOf, Synced, SeqNos, Consecutive, CastU32, ManagedLoop.Rounds, Added;
    NumberingStep(1, live.sent, Added(env, live, rounds), live.schedule.nextSeq);
  }

  /** A fresh session's state is durable when its strings are free of NUL and not too long. */
  lemma FreshStateDurable(settings: Settings, port: uint16, controllerId: string, options: Options, proof: Proof, a: Attempt,
                          env: ManagedLoop.Env)
    requires Synced(settings, port, controllerId, options, proof, a).Some?
    requires settings.mac == env.device && settings.controllerHost == env.host && port != 0 && a.syncedAt < TWO_63
    requires var s := Synced(settings, port, controllerId, options, proof, a).value;
             P.IdentitySize(s) <= P.IDENTITY_LIMIT
             && Text.Free(s.controllerHost, '\0') && Text.Free(s.controllerId, '\0') && Text.Free(s.siteId, '\0') && Text.Free(s.username, '\0')
    ensures Durable(env, Synced(settings, port, controllerId, options, proof, a).value)
  {
    SyncedHandshake(settings, port, controllerId, options, proof, a);
    MacRoundTrip(settings.mac);
    hide HandshakeOf, Normalized, ParseMac, P.IdentitySize;
  }

  /** From adoption on: once the state of a fresh session is saved, every head of its managed loop
      finds the in-memory state in the file. */
  lemma SessionCrashAgreement(settings: Settings, port: uint16, controllerId: string, options: Options, proof: Proof, a: Attempt,
                              env: ManagedLoop.Env, live: ManagedLoop.Live, file: Option<string>, io: P.SaveIo,
                              rounds: seq<ManagedLoop.Round>)
    requires Synced(settings, port, controllerId, options, proof, a) == Some(live.state)
    requires Durable(env, live.state) && Smooth(io) && live.file == P.SavedFile(live.state, env.device, env.host, file, io)
    requires forall r :: r in rounds ==> r.savedAt < TWO_63 && Smooth(r.io) && r.unlinks
    ensures var (end, then_) := ManagedLoop.Rounds(env, live, rounds);
            P.LoadFile(end.file, env.device, env.host) == if then_.Ended? then P.NotFound(None) else P.Loaded(end.state)
  {
    DurableSaves(env, live.state, file, io);
    CrashAgreement(env, live, rounds);
    hide Durable, P.SavedFile, P.LoadFile, ManagedLoop.Rounds, Synced;
  }

  /* ---- what a restart does with it ---- */

  /** A restart at any head of the loop negotiates with the version last acknowledged in the session,
      or with the one it began with, or 0 when that is unknown. */
  lemma RestartRenegotiates(settings: Settings, proof: Proof, a: Attempt, env: ManagedLoop.Env, live: ManagedLoop.Live,
                            rounds: seq<ManagedLoop.Round>)
    requires Durable(env, live.state) && Loads(env, live.file, live.state)
    requires forall r :: r in rounds ==> r.savedAt < TWO_63 && Smooth(r.io) && r.unlinks
    requires ManagedLoop.Rounds(env, live, rounds).1 != ManagedLoop.Ended
    ensures var loaded := P.LoadFile(ManagedLoop.Rounds(env, live, rounds).0.file, env.device, env.host);
            && loaded.Loaded?
            && var s := loaded.state;
               var o := HandshakeOf(SettingsFor(settings, s), s.controllerId, OptionsFor(s), proof, a);
               |o.sent| >= 4 ==>
                 o.sent[3] == DeviceNegotiation(4, s.controllerId,
                                                LatestVersion(Added(env, live, rounds), live.state.configVersion).GetOr(0))
  {
    CrashAgreement(env, live, rounds);
    LoopVersion(env, live, rounds);
    var s := ManagedLoop.Rounds(env, live, rounds).0.state;
    hide Durable, P.LoadFile, ManagedLoop.Rounds, Added, LatestVersion;
    NegotiatesKnown(SyncEnv(SettingsFor(settings, s), s.controllerId, OptionsFor(s), a.systemKey, proof), a);
  }

  lemma NegotiatesKnown(env: Env, a: Attempt)
    ensures var o := Handshake(env, Gots(a.inbound, 0), a.sendOk, 0);
            |o.sent| >= 4 ==> o.sent[3] == DeviceNegotiation(4, env.controllerId, NegotiationVersion(env))
  {
    hide HelloRefusal, VerifyRefusal, HelloUsername, Gots;
    var gots := Gots(a.inbound, 0);
    if env.controllerId != "" {
      SentCount(env, gots, a.sendOk, 0);
      var count := |Handshake(env, gots, a.sendOk, 0).sent|;
      if count >= 4 { SentScripted(env, gots, count); }
    }
  }

  /** Reconnecting keeps who the session is with; only the versions are the controller's to change. */
  lemma ReconnectKeepsIdentity(settings: Settings, s: ManagedState, proof: Proof, a: Attempt)
    requires Synced(SettingsFor(settings, s), s.managePort, s.controllerId, OptionsFor(s), proof, a).Some?
    ensures var t := Synced(SettingsFor(settings, s), s.managePort, s.controllerId, OptionsFor(s), proof, a).value;
            && t.mac == Normalized(settings.mac) && t.controllerHost == s.controllerHost && t.controllerId == s.controllerId
            && t.managePort == s.managePort
            && t.siteId == (if s.siteId != "" then s.siteId else settings.siteId)
            && (settings.username != "" ==> t.username == settings.username)
            && (settings.username == "" && s.username != "" ==> t.username == s.username)
  {
    SyncedHandshake(SettingsFor(settings, s), s.managePort, s.controllerId, OptionsFor(s), proof, a);
    hide HandshakeOf, Normalized;
  }
}
