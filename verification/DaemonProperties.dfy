/** What holds over any number of turns of the daemon. */
module DaemonProperties {
  import opened Wrappers
  import opened FixedWidth
  import opened Protocol
  import opened ManagedRequests
  import opened SessionRuns
  import opened Restart
  import opened Daemon
  import L = LoopProperties
  import M = ManagedLoop
  import P = Persistence

  /* ---- the turns ---- */

  /** An attempt to take up a saved state that works, after all before it failed. */
  ghost predicate FirstToSync(w: World, s: ManagedState, attempts: nat -> Attempt, i: nat) {
    && SyncedBy(Reconnection(w.settings, s, attempts(i)), w.proof).Some?
    && forall j: nat :: j < i ==> SyncedBy(Reconnection(w.settings, s, attempts(j)), w.proof).None?
  }

  lemma {:induction false} FirstSyncedIs(w: World, s: ManagedState, attempts: nat -> Attempt, next: nat, left: nat, stop: nat)
    ensures var f := FirstSynced(w.settings, s, w.proof, attempts, next, left, stop);
            && (f.Some? ==>
                  && next <= f.value < next + left && f.value < stop
                  && SyncedBy(Reconnection(w.settings, s, attempts(f.value)), w.proof).Some?)
            && (forall j: nat :: next <= j < (if f.Some? then f.value else next + left) && j < stop ==>
                  SyncedBy(Reconnection(w.settings, s, attempts(j)), w.proof).None?)
    decreases left
  {
    hide Synced;
    if left > 0 { FirstSyncedIs(w, s, attempts, next + 1, left - 1, stop); }
  }

  /** A turn takes up the saved session with the first attempt that works, among those allowed and made
      before a stop request; only if there is none does it adopt the device anew, with what discovery
      found. It has no session exactly when neither works. */
  lemma TurnStarts(w: World, turn: Turn, file: Option<string>)
    ensures var (g, loaded) := (OriginOf(w, turn, file), P.LoadOf(file, w.device, w.host, turn.opens, turn.reading));
            if loaded.Loaded? && exists i: nat :: i < w.settings.reconnectAttempts && i < turn.stop && FirstToSync(w, loaded.state, turn.attempts, i) then
              exists i: nat :: i < w.settings.reconnectAttempts && i < turn.stop && FirstToSync(w, loaded.state, turn.attempts, i)
                               && g == Some(Reconnection(w.settings, loaded.state, turn.attempts(i)))
            else if g.Some? then
              && turn.discovery.Some? && SyncedBy(g.value, w.proof).Some?
              && var d := turn.discovery.value;
                 && g.value.attempt == d.attempt && g.value.port == d.port && g.value.controllerId == d.controllerId
                 && g.value.options == Options(false, None)
                 && g.value.settings == w.settings.(controllerId := d.controllerId)
            else turn.discovery.Some? ==> SyncedBy(NewlyAdopted(w, turn.discovery.value), w.proof).None?
  {
    var loaded := P.LoadOf(file, w.device, w.host, turn.opens, turn.reading);
    hide P.LoadOf, SyncedBy, FirstSynced, Reconnection;
    if loaded.Loaded? {
      var left, stop := w.settings.reconnectAttempts, turn.stop;
      FirstSyncedIs(w, loaded.state, turn.attempts, 0, left, stop);
      var f := FirstSynced(w.settings, loaded.state, w.proof, turn.attempts, 0, left, stop);
      if f.Some? { assert FirstToSync(w, loaded.state, turn.attempts, f.value); }
    }
  }

  /** A turn without a session leaves file and appliers alone. With one, the state is saved; unless the
      daemon is to stop there, the session is then managed, from where its handshake left off. Another
      turn follows exactly when there was no session, or one whose loop was not stopped. */
  lemma TurnGoes(w: World, turn: Turn, file: Option<string>, log: seq<nat>)
    ensures var (e, g) := (RunOf(w, turn, file, log), OriginOf(w, turn, file));
            && e.origin == g
            && (g.None? ==> e.file == file && e.log == log && e.loop == None && Continues(w, e) && MessagesOf(w, e) == [])
            && (g.Some? ==>
                  && SyncedBy(g.value, w.proof).Some?
                  && var saved := P.SavedFile(SyncedBy(g.value, w.proof).value, w.device, w.host, file, turn.io);
                     var (o, live) := (HandshakeBy(g.value, w.proof), LiveAt(w, g.value, turn.startedAt, log, saved));
                     && live.state == SyncedBy(g.value, w.proof).value && live.sent == o.sent && live.file == saved && live.log == log
                     && live.schedule.nextSeq == (o.result.lastSeq + 1) % TWO_32 && live.schedule.nextDue == turn.startedAt
                     && (w.once ==> e.file == saved && e.log == log && e.loop == None && !Continues(w, e) && MessagesOf(w, e) == o.sent)
                     && (!w.once ==>
                           && e.loop == Some(M.Rounds(EnvAt(w, g.value), live, turn.rounds))
                           && var (end, how) := e.loop.value;
                              && e.file == end.file && e.log == end.log && MessagesOf(w, e) == end.sent
                              && (Continues(w, e) <==> how in {M.Lost, M.Ended})))
  {
    OriginSyncs(w, turn, file);
    hide OriginOf, SyncedBy, HandshakeBy, P.SavedFile, M.Rounds;
  }

  /** Each turn starts with what the one before it left, and follows it exactly when another was due. */
  lemma {:induction false} TurnsFollow(w: World, turns: seq<Turn>, file: Option<string>, log: seq<nat>)
    ensures var ends := RunTurns(w, turns, file, log);
            && |ends| <= |turns| && (turns != [] ==> ends != [] && ends[0] == RunOf(w, turns[0], file, log))
            && (forall i :: 0 < i < |ends| ==> ends[i] == RunOf(w, turns[i], ends[i - 1].file, ends[i - 1].log))
            && (forall i :: 0 <= i < |ends| - 1 ==> Continues(w, ends[i]))
            && (0 < |ends| < |turns| ==> !Continues(w, ends[|ends| - 1]))
    decreases |turns|
  {
    if turns != [] {
      hide RunOf, Continues;
      var e, ends := RunOf(w, turns[0], file, log), RunTurns(w, turns, file, log);
      if Continues(w, e) {
        TurnsFollow(w, turns[1..], e.file, e.log);
        var later := RunTurns(w, turns[1..], e.file, e.log);
        assert ends == [e] + later;
        forall i | 0 < i < |ends| ensures ends[i] == RunOf(w, turns[i], ends[i - 1].file, ends[i - 1].log) {
          assert ends[i] == later[i - 1] && turns[i] == turns[1..][i - 1];
        }
      }
    }
  }

  /* ---- numbering ---- */

  ghost predicate NumberedFromOne(sent: seq<Outbound>) {
    var nos := L.SeqNos(sent); nos == L.Consecutive(1, |nos|)
  }

  /** The session of a turn numbers its own messages 1, 2, 3, ..., handshake and informs together. */
  lemma TurnNumbered(w: World, turn: Turn, file: Option<string>, log: seq<nat>)
    ensures NumberedFromOne(MessagesOf(w, RunOf(w, turn, file, log)))
  {
    var e := RunOf(w, turn, file, log);
    OriginSyncs(w, turn, file);
    hide OriginOf, Synced, HandshakeOf, P.SavedFile, M.Rounds;
    if e.origin.None? {
      L.NoSeqNos();
    } else {
      var g := e.origin.value;
      SyncedHandshake(g.settings, g.port, g.controllerId, g.options, w.proof, g.attempt);
      if e.loop.Some? {
        var saved := P.SavedFile(SyncedBy(g, w.proof).value, w.device, w.host, file, turn.io);
        SessionNumbering(g.settings, g.port, g.controllerId, g.options, w.proof, g.attempt,
                         EnvAt(w, g), LiveAt(w, g, turn.startedAt, log, saved), turn.startedAt, turn.rounds);
      }
    }
  }

  /** So does every session of the daemon's life. */
  lemma {:induction false} EverySessionNumbered(w: World, turns: seq<Turn>, file: Option<string>, log: seq<nat>)
    ensures forall e :: e in RunTurns(w, turns, file, log) ==> NumberedFromOne(MessagesOf(w, e))
    decreases |turns|
  {
    if turns != [] {
      var e := RunOf(w, turns[0], file, log);
      TurnNumbered(w, turns[0], file, log);
      hide RunOf, MessagesOf, NumberedFromOne, Continues;
      EverySessionNumbered(w, turns[1..], e.file, e.log);
    }
  }

  /* ---- the state file between turns ---- */

  // the part of the environment durability looks at
  function Identity(w: World): M.Env { M.Env(_ => ReceiveError(true), _ => true, w.appliers, w.outcome, w.device, w.host, 500) }

  lemma SameIdentity(w: World, g: Origin, s: ManagedState, file: Option<string>)
    ensures L.Durable(EnvAt(w, g), s) <==> L.Durable(Identity(w), s)
    ensures L.Loads(EnvAt(w, g), file, s) <==> L.Loads(Identity(w), file, s)
  {
  }

  /** The state the daemon remembers: that of its last session, unless the controller ended it. */
  function Remembered(w: World, e: TurnEnd, before: Option<ManagedState>): Option<ManagedState> {
    if e.origin.None? then before
    else if e.loop.None? then SyncedBy(e.origin.value, w.proof)
    else if e.loop.value.1.Ended? then None
    else Some(e.loop.value.0.state)
  }

  /** What a restart would find is what the daemon remembers. */
  ghost predicate Agrees(w: World, file: Option<string>, m: Option<ManagedState>) {
    && P.LoadFile(file, w.device, w.host) == (if m.Some? then P.Loaded(m.value) else P.NotFound(None))
    && (m.Some? ==> L.Durable(Identity(w), m.value))
  }

  /** A turn whose file operations succeed and whose session, if any, starts with a state that can be kept. */
  ghost predicate Kept(w: World, turn: Turn, e: TurnEnd) {
    && L.Smooth(turn.io)
    && (forall r :: r in turn.rounds ==> r.savedAt < TWO_63 && L.Smooth(r.io) && r.unlinks)
    && (e.origin.Some? ==> SyncedBy(e.origin.value, w.proof).Some? && L.Durable(Identity(w), SyncedBy(e.origin.value, w.proof).value))
  }

  lemma TurnAgrees(w: World, turn: Turn, file: Option<string>, log: seq<nat>, m: Option<ManagedState>)
    requires Agrees(w, file, m) && Kept(w, turn, RunOf(w, turn, file, log))
    ensures var e := RunOf(w, turn, file, log); Agrees(w, e.file, Remembered(w, e, m))
  {
    var e := RunOf(w, turn, file, log);
    OriginSyncs(w, turn, file);
    hide OriginOf, SyncedBy, HandshakeBy, P.SavedFile, P.LoadFile, M.Rounds, L.Durable, L.Loads, L.Smooth;
    if e.origin.Some? {
      var (g, s) := (e.origin.value, SyncedBy(e.origin.value, w.proof).value);
      var saved := P.SavedFile(s, w.device, w.host, file, turn.io);
      SameIdentity(w, g, s, saved);
      L.DurableSaves(EnvAt(w, g), s, file, turn.io);
      Loading(EnvAt(w, g), saved, s);
      if e.loop.Some? {
        var live := LiveAt(w, g, turn.startedAt, log, saved);
        L.CrashAgreement(EnvAt(w, g), live, turn.rounds);
        var end := M.Rounds(EnvAt(w, g), live, turn.rounds).0;
        SameIdentity(w, g, end.state, end.file);
        Loading(EnvAt(w, g), end.file, end.state);
      }
    }
  }

  lemma Loading(env: M.Env, file: Option<string>, s: ManagedState)
    ensures L.Loads(env, file, s) <==> P.LoadFile(file, env.device, env.host) == P.Loaded(s)
  {
    hide P.LoadFile;
  }

  function AllRemembered(w: World, ends: seq<TurnEnd>, before: Option<ManagedState>): Option<ManagedState>
    decreases |ends|
  {
    if ends == [] then before else AllRemembered(w, ends[1..], Remembered(w, ends[0], before))
  }

  function FileAfter(ends: seq<TurnEnd>, before: Option<string>): Option<string> {
    if ends == [] then before else ends[|ends| - 1].file
  }

  /** Every turn that took place was one of those. */
  ghost predicate AllKept(w: World, turns: seq<Turn>, ends: seq<TurnEnd>) {
    |ends| <= |turns| && forall i :: 0 <= i < |ends| ==> Kept(w, turns[i], ends[i])
  }

  /** Crash agreement over the daemon's life: after any number of turns, a restart would find exactly
      what the daemon remembers, and nothing after a forget request. */
  lemma {:induction false} TurnsAgree(w: World, turns: seq<Turn>, file: Option<string>, log: seq<nat>, m: Option<ManagedState>)
    requires Agrees(w, file, m) && AllKept(w, turns, RunTurns(w, turns, file, log))
    ensures var ends := RunTurns(w, turns, file, log); Agrees(w, FileAfter(ends, file), AllRemembered(w, ends, m))
    decreases |turns|
  {
    if turns != [] {
      var e, ends := RunOf(w, turns[0], file, log), RunTurns(w, turns, file, log);
      assert ends[0] == e;
      TurnAgrees(w, turns[0], file, log, m);
      hide RunOf, Kept, Agrees, Remembered, Continues;
      var later := ends[1..];
      if Continues(w, e) {
        assert later == RunTurns(w, turns[1..], e.file, e.log);
        forall i | 0 <= i < |later| ensures Kept(w, turns[1..][i], later[i]) { assert Kept(w, turns[i + 1], ends[i + 1]); }
        TurnsAgree(w, turns[1..], e.file, e.log, Remembered(w, e, m));
      }
    }
  }

  /* ---- taking up again ---- */

  /** A turn that finds the file readable and gets a session by reconnecting takes up the remembered
      state, and negotiates with its version, or 0 when that is unknown. */
  lemma NextTurnResumes(w: World, turn: Turn, file: Option<string>, s: ManagedState)
    requires Agrees(w, file, Some(s)) && turn.opens && (file.Some? ==> P.ReadCompletes(turn.reading, |file.value|))
    ensures var first := FirstSynced(w.settings, s, w.proof, turn.attempts, 0, w.settings.reconnectAttempts, turn.stop);
            first.Some? ==>
              var g := Reconnection(w.settings, s, turn.attempts(first.value));
              var sent := HandshakeBy(g, w.proof).sent;
              && OriginOf(w, turn, file) == Some(g)
              && (|sent| >= 4 ==> sent[3] == DeviceNegotiation(4, s.controllerId, s.configVersion.GetOr(0)))
  {
    var first := FirstSynced(w.settings, s, w.proof, turn.attempts, 0, w.settings.reconnectAttempts, turn.stop);
    hide P.LoadFile, Synced, FirstSynced, P.ReadCompletes;
    assert P.LoadOf(file, w.device, w.host, turn.opens, turn.reading) == P.Loaded(s) by { FilePresent(w, file); }
    if first.Some? {
      var g := Reconnection(w.settings, s, turn.attempts(first.value));
      NegotiatesKnown(SyncEnv(g.settings, g.controllerId, g.options, g.attempt.systemKey, w.proof), g.attempt);
    }
  }

  lemma FilePresent(w: World, file: Option<string>)
    requires P.LoadFile(file, w.device, w.host).Loaded?
    ensures file.Some?
  {
  }

  /** The version remembered after a managed loop is the one last acknowledged in it, or the one the
      session began with. */
  lemma RemembersAcknowledged(w: World, turn: Turn, file: Option<string>, log: seq<nat>, m: Option<ManagedState>)
    ensures var e := RunOf(w, turn, file, log);
            e.loop.Some? && !e.loop.value.1.Ended? ==>
              && SyncedBy(e.origin.value, w.proof).Some?
              && var s := SyncedBy(e.origin.value, w.proof).value;
                 var live := LiveAt(w, e.origin.value, turn.startedAt, log, P.SavedFile(s, w.device, w.host, file, turn.io));
                 Remembered(w, e, m).Some?
                 && Remembered(w, e, m).value.configVersion
                    == LatestVersion(L.Added(EnvAt(w, e.origin.value), live, turn.rounds), s.configVersion)
  {
    var e := RunOf(w, turn, file, log);
    OriginSyncs(w, turn, file);
    if e.loop.Some? {
      var g := e.origin.value;
      var saved := P.SavedFile(SyncedBy(g, w.proof).value, w.device, w.host, file, turn.io);
      L.LoopVersion(EnvAt(w, g), LiveAt(w, g, turn.startedAt, log, saved), turn.rounds);
    }
    hide OriginOf, SyncedBy, HandshakeBy, P.SavedFile, M.Rounds, L.Added, LatestVersion;
  }

  /** A reconnect starts with a state that can be kept, if the saved one could: with the daemon's own
      address, a known user name that the settings do not contradict, and a clock below 2^63. */
  lemma ReconnectStaysDurable(w: World, s: ManagedState, a: Attempt)
    requires L.Durable(Identity(w), s) && w.settings.mac == w.device && a.syncedAt < TWO_63
    requires (s.siteId == "" ==> w.settings.siteId == "") && s.username != "" && w.settings.username in {"", s.username}
    requires SyncedBy(Reconnection(w.settings, s, a), w.proof).Some?
    ensures L.Durable(Identity(w), SyncedBy(Reconnection(w.settings, s, a), w.proof).value)
  {
    ReconnectKeepsIdentity(w.settings, s, w.proof, a);
    hide HandshakeOf, P.IdentitySize;
    var t := SyncedBy(Reconnection(w.settings, s, a), w.proof).value;
    assert t.siteId == s.siteId && t.username == s.username;
    SameStrings(s, t);
  }

  lemma SameStrings(s: ManagedState, t: ManagedState)
    requires s.controllerHost == t.controllerHost && s.controllerId == t.controllerId && s.siteId == t.siteId && s.username == t.username
    ensures P.IdentitySize(s) == P.IdentitySize(t)
  {
  }
}
