/** What holds at every head of the managed loop. Runs of any length are considered, so a statement
    about the end of a run is one about each of its heads. */
module LoopProperties {
  import opened Wrappers
  import opened FixedWidth
  import opened Text
  import JsonText
  import Mac
  import Config
  import opened Protocol
  import opened Appliers
  import opened ManagedRequests
  import opened SessionRuns
  import opened InformSchedule
  import opened ManagedLoop
  import P = Persistence

  /* ---- the state file ---- */

  /** States the repository accepts and can represent, with strings short enough for the file. */
  ghost predicate Durable(env: Env, s: ManagedState) {
    && P.SaveRefusal(s, env.device, env.host).None?
    && P.Representable(s, env.device)
    && P.IdentitySize(s) <= P.IDENTITY_LIMIT
  }

  /** A restart here would find this state. */
  ghost predicate Loads(env: Env, file: Option<string>, s: ManagedState) {
    P.LoadFile(file, env.device, env.host) == P.Loaded(s)
  }

  /** Every repository with a reasonable host has durable states: any short identifier without NUL
      and any port but 0 make one. */
  lemma PlainStatesAreDurable(env: Env, id: string, port: uint16)
    requires id != "" && port != 0 && Free(id, '\0') && Free(env.host, '\0') && |id| + |env.host| <= 10_000
    ensures Durable(env, ManagedState(1, Mac.Normalized(env.device), env.host, id, port, "", "", None, None, 0))
  {
    Mac.MacRoundTrip(env.device);
    P.EscapeLength(env.host);
    P.EscapeLength(id);
    P.EscapeLength("");
    hide Mac.Normalized, Mac.ParseMac, JsonText.Escape;
  }

  ghost predicate Smooth(io: P.SaveIo) {
    io.mkdir && io.open && io.fsync && io.rename
    && forall e :: e in io.writes ==> e.Interrupted? || (e.Moved? && e.bytes > 0)
  }

  lemma {:induction false} SmoothWrites(writes: seq<P.IoEvent>, size: nat)
    requires forall e :: e in writes ==> e.Interrupted? || (e.Moved? && e.bytes > 0)
    ensures P.WriteCompletes(writes, size)
    decreases |writes|
  {
    if writes != [] {
      assert writes[0] in writes;
      SmoothWrites(writes[1..], match writes[0] case Moved(n) => size - Min(n, size) case _ => size);
    }
  }

  lemma HandleMoves(s: ManagedState, p: Payload, applied: Option<Config.ApplyResult>, sendOk: bool)
    ensures var h := Handle(s, p, applied, sendOk);
            && h.state == s.(configVersion := h.state.configVersion, sequenceId := h.state.sequenceId)
            && (h.state != s ==> Persists(h.result))
            && (h.result.ok && h.result.shouldEndSession <==> h.result.ok && h.result.shouldClearState)
            && (h.result.shouldClearState ==> !Persists(h.result))
  {
  }

  lemma DurableMoves(env: Env, s: ManagedState, version: Option<uint32>, sequence: Option<uint32>, at: uint64)
    requires Durable(env, s) && at < TWO_63
    ensures Durable(env, s.(configVersion := version, sequenceId := sequence, updatedAt := at))
    ensures Durable(env, s.(configVersion := version, sequenceId := sequence))
  {
    hide JsonText.Escape;
  }

  /** Saving a durable state either takes, and then loads back, or changes nothing. */
  lemma DurableSaves(env: Env, s: ManagedState, file: Option<string>, io: P.SaveIo)
    requires Durable(env, s)
    ensures var after := P.SavedFile(s, env.device, env.host, file, io);
            Loads(env, after, s) || after == file
    ensures Smooth(io) ==> Loads(env, P.SavedFile(s, env.device, env.host, file, io), s)
  {
    var size := |P.StateText(s, env.device)|;
    Mac.NormalizedInjective(Mac.ParseMac(s.mac).value, env.device);
    hide P.StateText, P.LoadFile, P.Representable, P.IdentitySize;
    if Smooth(io) { SmoothWrites(io.writes, size); }
    if P.SaveCompletes(io, size) {
      P.SmallStatesFit(s, env.device);
      P.LoadAfterSave(s, env.device, env.host, file, io);
    }
  }

  /** One iteration: the file then holds what it held, or the state after the iteration, or nothing
      because the controller asked to be forgotten. */
  lemma RoundAgreement(env: Env, live: Live, round: Round)
    requires Durable(env, live.state) && round.savedAt < TWO_63
    ensures var (next, then_) := DoRound(env, live, round);
            && Durable(env, next.state)
            && (next.file == live.file || Loads(env, next.file, next.state) || (then_.Ended? && next.file.None?))
            && (Smooth(round.io) ==> next.state == live.state || Loads(env, next.file, next.state))
            && (then_.Ended? ==> next.state == live.state && (round.unlinks ==> next.file.None?))
            && (!then_.Ended? && next.state == live.state ==> next.file == live.file || Loads(env, next.file, next.state))
  {
    hide Durable, Loads, Smooth, P.SavedFile, Polled, AfterPoll, RunFrom;
    var (informed, ok) := SendDue(env, live, round.now);
    if ok && env.inbound(informed.received).Message? {
      var received := informed.(received := informed.received + 1);
      var p := env.inbound(informed.received).payload;
      var run := Appliance(env, p, |received.log|);
      var sendOk := env.sendOk(received.sends);
      HandleMoves(received.state, p, Some(Combined(run.results)), sendOk);
      var (answered, result) := Answer(env, received, p);
      hide Handle, Appliance, Combined;
      DurableMoves(env, live.state, answered.state.configVersion, answered.state.sequenceId, round.savedAt);
      DurableSaves(env, answered.state.(updatedAt := round.savedAt), live.file, round.io);
    }
  }

  /** Crash agreement: when the file operations succeed, at every head of the loop load gives
      exactly the in-memory state; after a forget request it gives none. */
  lemma {:induction false} CrashAgreement(env: Env, live: Live, rounds: seq<Round>)
    requires Durable(env, live.state) && Loads(env, live.file, live.state)
    requires forall r :: r in rounds ==> r.savedAt < TWO_63 && Smooth(r.io) && r.unlinks
    ensures var (end, then_) := Rounds(env, live, rounds);
            if then_.Ended? then P.LoadFile(end.file, env.device, env.host) == P.NotFound(None)
            else Durable(env, end.state) && Loads(env, end.file, end.state)
    decreases |rounds|
  {
    if rounds != [] {
      assert rounds[0] in rounds;
      RoundAgreement(env, live, rounds[0]);
      hide Durable, DoRound, P.LoadText;
      var (next, then_) := DoRound(env, live, rounds[0]);
      if then_ == Again { CrashAgreement(env, next, rounds[1..]); }
    }
  }

  /** The state at the head after the first k iterations. */
  function HeadState(env: Env, live: Live, rounds: seq<Round>, k: nat): ManagedState
    requires k <= |rounds|
  {
    Rounds(env, live, rounds[..k]).0.state
  }

  lemma HeadStep(env: Env, live: Live, rounds: seq<Round>, k: nat)
    requires k < |rounds| && DoRound(env, live, rounds[0]).1 == Again
    ensures HeadState(env, live, rounds, k + 1) == HeadState(env, DoRound(env, live, rounds[0]).0, rounds[1..], k)
  {
    hide DoRound;
    assert rounds[..k + 1][0] == rounds[0] && rounds[..k + 1][1..] == rounds[1..][..k];
  }

  /** The file loads as a given state or as the state of some head of a run. */
  ghost predicate Known(env: Env, live: Live, rounds: seq<Round>, file: Option<string>, before: ManagedState) {
    || Loads(env, file, before)
    || exists k :: 0 <= k <= |rounds| && Loads(env, file, HeadState(env, live, rounds, k))
  }

  lemma FirstHead(env: Env, live: Live, rounds: seq<Round>)
    requires rounds != []
    ensures HeadState(env, live, rounds, 1) == DoRound(env, live, rounds[0]).0.state
  {
    hide DoRound;
    var one, next := rounds[..1], DoRound(env, live, rounds[0]).0;
    assert one[0] == rounds[0] && one[1..] == [];
    assert Rounds(env, next, []).0 == next;
  }

  lemma KnownStep(env: Env, live: Live, rounds: seq<Round>, file: Option<string>, before: ManagedState, at: ManagedState)
    requires rounds != [] && DoRound(env, live, rounds[0]).1 == Again
    requires at == before || at == DoRound(env, live, rounds[0]).0.state
    requires Known(env, DoRound(env, live, rounds[0]).0, rounds[1..], file, at)
    ensures Known(env, live, rounds, file, before)
  {
    hide DoRound, Loads, HeadState;
    var next := DoRound(env, live, rounds[0]).0;
    if !Loads(env, file, at) {
      var k :| 0 <= k <= |rounds[1..]| && Loads(env, file, HeadState(env, next, rounds[1..], k));
      HeadStep(env, live, rounds, k);
      assert Loads(env, file, HeadState(env, live, rounds, k + 1));
    } else if at != before {
      FirstHead(env, live, rounds);
      assert Loads(env, file, HeadState(env, live, rounds, 1));
    }
  }

  /** Whatever fails, wherever the loop stops: the file is gone, or it loads as the state it loaded
      as before the loop, or as the state of some head. Never anything else. */
  lemma {:induction false} NeverTorn(env: Env, live: Live, rounds: seq<Round>, before: ManagedState)
    requires Durable(env, live.state) && Loads(env, live.file, before)
    requires forall r :: r in rounds ==> r.savedAt < TWO_63
    ensures var (end, then_) := Rounds(env, live, rounds);
            (then_.Ended? && end.file.None?) || Known(env, live, rounds, end.file, before)
    decreases |rounds|
  {
    if rounds != [] {
      assert rounds[0] in rounds;
      RoundAgreement(env, live, rounds[0]);
      hide Durable, DoRound, Loads, HeadState;
      var (next, then_) := DoRound(env, live, rounds[0]);
      if then_ == Again {
        var at := if next.file == live.file then before else next.state;
        NeverTorn(env, next, rounds[1..], at);
        hide Known;
        if Known(env, next, rounds[1..], Rounds(env, live, rounds).0.file, at) {
          KnownStep(env, live, rounds, Rounds(env, live, rounds).0.file, before, at);
        }
      } else {
        FirstHead(env, live, rounds);
        assert Loads(env, next.file, before) || next.file.None? || Loads(env, next.file, HeadState(env, live, rounds, 1));
      }
    }
  }

  /* ---- the messages sent ---- */

  function InformIn(env: Env, live: Live, now: uint64): seq<Outbound> {
    match Polled(live.schedule, env.interval, now)
    case Idle => []
    case Due(needReply, seqNo, uptime, _) =>
      if env.sendOk(live.sends) then [InformRequest(seqNo, live.state.controllerId, needReply, uptime)] else []
  }

  function ReplyIn(env: Env, informed: Live): seq<Outbound> {
    match env.inbound(informed.received)
    case ReceiveError(_) => []
    case Message(p) =>
      var handled := Handle(informed.state, p, Some(Combined(Appliance(env, p, |informed.log|).results)), env.sendOk(informed.sends));
      if handled.message.Some? && env.sendOk(informed.sends) then [handled.message.value] else []
  }

  function NewIn(env: Env, live: Live, round: Round): seq<Outbound> {
    var (informed, ok) := SendDue(env, live, round.now);
    InformIn(env, live, round.now) + if ok then ReplyIn(env, informed) else []
  }

  /** The messages a run of the loop gets across, in order. */
  function Added(env: Env, live: Live, rounds: seq<Round>): seq<Outbound>
    decreases |rounds|
  {
    if rounds == [] then []
    else
      var (next, then_) := DoRound(env, live, rounds[0]);
      NewIn(env, live, rounds[0]) + if then_ == Again then Added(env, next, rounds[1..]) else []
  }

  lemma RoundAdds(env: Env, live: Live, round: Round)
    ensures DoRound(env, live, round).0.sent == live.sent + NewIn(env, live, round)
  {
    hide Handle, RunFrom, Combined, P.SavedFile, Appliance, CallsApplier, AfterPoll, Polled;
    var (informed, ok) := SendDue(env, live, round.now);
    assert informed.sent == live.sent + InformIn(env, live, round.now);
    if ok {
      Regroup(live.sent, InformIn(env, live, round.now), ReplyIn(env, informed));
      assert InformIn(env, live, round.now) + [] == InformIn(env, live, round.now);
      assert informed.sent + [] == informed.sent;
      var received := informed.(received := informed.received + 1);
      if env.inbound(informed.received).Message? {
        var p := env.inbound(informed.received).payload;
        assert Answer(env, received, p).0.sent == informed.sent + ReplyIn(env, informed);
      }
    } else {
      assert InformIn(env, live, round.now) == [];
    }
  }

  lemma {:induction false} RunAdds(env: Env, live: Live, rounds: seq<Round>)
    ensures Rounds(env, live, rounds).0.sent == live.sent + Added(env, live, rounds)
    decreases |rounds|
  {
    if rounds == [] {
      assert live.sent + [] == live.sent;
    } else {
      RoundAdds(env, live, rounds[0]);
      hide DoRound, NewIn;
      var (next, then_) := DoRound(env, live, rounds[0]);
      var new_ := NewIn(env, live, rounds[0]);
      assert new_ + [] == new_;
      if then_ == Again {
        RunAdds(env, next, rounds[1..]);
        Regroup(live.sent, new_, Added(env, next, rounds[1..]));
      }
    }
  }

  /* ---- the version in force ---- */

  lemma {:induction false} LatestAppend(a: seq<Outbound>, b: seq<Outbound>, version: Option<uint32>, sequence: Option<uint32>)
    ensures LatestVersion(a + b, version) == LatestVersion(b, LatestVersion(a, version))
    ensures LatestSequence(a + b, sequence) == LatestSequence(b, LatestSequence(a, sequence))
    decreases |a|
  {
    if a == [] {
      assert a + b == b;
    } else {
      assert (a + b)[1..] == a[1..] + b && (a + b)[0] == a[0];
      LatestAppend(a[1..], b, if Acknowledges(a[0]) then Adopted(a[0].version, version) else version,
                   if Acknowledges(a[0]) then Adopted(a[0].sequenceId, sequence) else sequence);
    }
  }

  lemma LatestOfOne(m: Outbound, version: Option<uint32>, sequence: Option<uint32>)
    ensures LatestVersion([m], version) == if Acknowledges(m) then Adopted(m.version, version) else version
    ensures LatestSequence([m], sequence) == if Acknowledges(m) then Adopted(m.sequenceId, sequence) else sequence
  {
    assert [m][1..] == [];
  }

  lemma RoundVersion(env: Env, live: Live, round: Round)
    ensures var (next, new_) := (DoRound(env, live, round).0, NewIn(env, live, round));
            && next.state.configVersion == LatestVersion(new_, live.state.configVersion)
            && next.state.sequenceId == LatestSequence(new_, live.state.sequenceId)
  {
    hide RunFrom, Combined, P.SavedFile, Appliance, CallsApplier, AfterPoll, Polled, Handle, LatestVersion, LatestSequence;
    var s := live.state;
    var (informed, ok) := SendDue(env, live, round.now);
    var inform := InformIn(env, live, round.now);
    InformIsSilent(inform, s);
    assert inform + [] == inform;
    if ok {
      var reply := ReplyIn(env, informed);
      LatestAppend(inform, reply, s.configVersion, s.sequenceId);
      NothingIsSilent(s);
      if env.inbound(informed.received).Message? {
        var p := env.inbound(informed.received).payload;
        var step := Step(p, Some(Combined(Appliance(env, p, |informed.log|).results)), env.sendOk(informed.sends));
        StepVersion(s, step);
        assert SentIn(s, step) == reply;
        if reply != [] { LatestOfOne(reply[0], s.configVersion, s.sequenceId); assert [reply[0]] == reply; }
      }
    }
  }

  lemma NothingIsSilent(s: ManagedState)
    ensures LatestVersion([], s.configVersion) == s.configVersion && LatestSequence([], s.sequenceId) == s.sequenceId
  {
  }

  lemma InformIsSilent(inform: seq<Outbound>, s: ManagedState)
    requires inform == [] || (|inform| == 1 && inform[0].InformRequest?)
    ensures LatestVersion(inform, s.configVersion) == s.configVersion && LatestSequence(inform, s.sequenceId) == s.sequenceId
  {
    if inform != [] { LatestOfOne(inform[0], s.configVersion, s.sequenceId); assert [inform[0]] == inform; }
  }

  /** Through a whole run of the loop, the in-memory version and sequence id are those of the last
      acknowledgement sent in it. */
  lemma {:induction false} LoopVersion(env: Env, live: Live, rounds: seq<Round>)
    ensures var (end, new_) := (Rounds(env, live, rounds).0, Added(env, live, rounds));
            && end.state.configVersion == LatestVersion(new_, live.state.configVersion)
            && end.state.sequenceId == LatestSequence(new_, live.state.sequenceId)
    decreases |rounds|
  {
    if rounds == [] {
      NothingIsSilent(live.state);
    } else {
      RoundVersion(env, live, rounds[0]);
      hide DoRound, NewIn, LatestVersion, LatestSequence;
      var (next, then_) := DoRound(env, live, rounds[0]);
      var new_ := NewIn(env, live, rounds[0]);
      assert new_ + [] == new_;
      if then_ == Again {
        LoopVersion(env, next, rounds[1..]);
        LatestAppend(new_, Added(env, next, rounds[1..]), live.state.configVersion, live.state.sequenceId);
      }
    }
  }

  /* ---- sequence numbers ---- */

  /** The sequence numbers the device gives its own messages. */
  function SeqNos(sent: seq<Outbound>): seq<int> {
    if sent == [] then [] else (if sent[0].Numbered() then [sent[0].seqNo] else []) + SeqNos(sent[1..])
  }

  function Consecutive(from: uint32, n: nat): (s: seq<int>)
    ensures |s| == n
  {
    seq(n, i requires 0 <= i < n => CastU32(from + i))
  }

  lemma {:induction false} SeqNosAppend(a: seq<Outbound>, b: seq<Outbound>)
    ensures SeqNos(a + b) == SeqNos(a) + SeqNos(b)
    decreases |a|
  {
    if a == [] {
      assert a + b == b;
    } else {
      assert (a + b)[1..] == a[1..] + b && (a + b)[0] == a[0];
      SeqNosAppend(a[1..], b);
      Regroup(if a[0].Numbered() then [a[0].seqNo] else [], SeqNos(a[1..]), SeqNos(b));
    }
  }

  lemma CastSum(a: uint32, i: nat, j: nat)
    ensures CastU32(CastU32(a + i) + j) == CastU32(a + i + j)
  {
  }

  lemma ConsecutiveAppend(from: uint32, a: seq<int>, b: seq<int>, next: uint32)
    requires a == Consecutive(from, |a|) && b == Consecutive(next, |b|) && next == CastU32(from + |a|)
    ensures a + b == Consecutive(from, |a + b|)
  {
    hide CastU32;
    forall i | 0 <= i < |a + b| ensures (a + b)[i] == Consecutive(from, |a + b|)[i] {
      if i >= |a| { CastSum(from, |a|, i - |a|); }
    }
  }

  lemma SeqNosOfOne(m: Outbound)
    ensures SeqNos([m]) == if m.Numbered() then [m.seqNo] else []
  {
    assert [m][1..] == [];
  }

  lemma RepliesUnnumbered(s: ManagedState, p: Payload, applied: Option<Config.ApplyResult>, sendOk: bool)
    ensures Handle(s, p, applied, sendOk).message.Some? ==> !Handle(s, p, applied, sendOk).message.value.Numbered()
  {
  }

  lemma RoundNumbering(env: Env, live: Live, round: Round)
    requires live.schedule.started
    ensures var ((next, then_), nos) := (DoRound(env, live, round), SeqNos(NewIn(env, live, round)));
            && next.schedule.started
            && nos == Consecutive(live.schedule.nextSeq, |nos|)
            && (then_ == Again ==> next.schedule.nextSeq == CastU32(live.schedule.nextSeq + |nos|))
  {
    hide RunFrom, Combined, P.SavedFile, Appliance, CallsApplier, Handle, SeqNos, CastU32;
    var (informed, ok) := SendDue(env, live, round.now);
    var inform := InformIn(env, live, round.now);
    var reply := if ok then ReplyIn(env, informed) else [];
    assert SeqNos(reply) == [] by {
      if reply != [] {
        var p := env.inbound(informed.received).payload;
        RepliesUnnumbered(informed.state, p, Some(Combined(Appliance(env, p, |informed.log|).results)), env.sendOk(informed.sends));
        SeqNosOfOne(reply[0]);
        assert [reply[0]] == reply;
      } else {
        NoSeqNos();
      }
    }
    SeqNosAppend(inform, reply);
    assert SeqNos(inform) + [] == SeqNos(inform);
    assert CastU32(live.schedule.nextSeq + 0) == live.schedule.nextSeq by { CastSmall(live.schedule.nextSeq); }
    NoSeqNos();
    if inform != [] {
      SeqNosOfOne(inform[0]);
      assert [inform[0]] == inform;
    }
  }

  lemma NoSeqNos()
    ensures SeqNos([]) == []
  {
  }

  lemma CastSmall(n: uint32)
    ensures CastU32(n) == n
  {
  }

  lemma NoneAdded(env: Env, live: Live)
    ensures Added(env, live, []) == [] && SeqNos([]) == Consecutive(live.schedule.nextSeq, |SeqNos([])|)
  {
  }

  lemma AddedStep(env: Env, live: Live, rounds: seq<Round>)
    requires rounds != []
    ensures var ((next, then_), new_) := (DoRound(env, live, rounds[0]), NewIn(env, live, rounds[0]));
            Added(env, live, rounds) == if then_ == Again then new_ + Added(env, next, rounds[1..]) else new_
  {
    hide DoRound, NewIn;
    assert NewIn(env, live, rounds[0]) + [] == NewIn(env, live, rounds[0]);
  }

  lemma NumberingStep(from: uint32, new_: seq<Outbound>, rest: seq<Outbound>, next: uint32)
    requires SeqNos(new_) == Consecutive(from, |SeqNos(new_)|) && SeqNos(rest) == Consecutive(next, |SeqNos(rest)|)
    requires next == CastU32(from + |SeqNos(new_)|)
    ensures SeqNos(new_ + rest) == Consecutive(from, |SeqNos(new_ + rest)|)
  {
    hide SeqNos, Consecutive, CastU32;
    SeqNosAppend(new_, rest);
    ConsecutiveAppend(from, SeqNos(new_), SeqNos(rest), next);
  }

  /** The messages the device numbers carry consecutive numbers modulo 2^32, without gap or repeat,
      whatever the clock, the controller and the sends do. */
  lemma {:induction false} LoopNumbering(env: Env, live: Live, rounds: seq<Round>)
    requires live.schedule.started
    ensures var nos := SeqNos(Added(env, live, rounds)); nos == Consecutive(live.schedule.nextSeq, |nos|)
    decreases |rounds|
  {
    hide *;
    if rounds == [] {
      NoneAdded(env, live);
    } else {
      RoundNumbering(env, live, rounds[0]);
      AddedStep(env, live, rounds);
      var next := DoRound(env, live, rounds[0]).0;
      if DoRound(env, live, rounds[0]).1 == Again {
        LoopNumbering(env, next, rounds[1..]);
        NumberingStep(live.schedule.nextSeq, NewIn(env, live, rounds[0]), Added(env, next, rounds[1..]), next.schedule.nextSeq);
      }
    }
  }

  /* ---- the inform schedule ---- */

  function InformsOf(sent: seq<Outbound>): seq<Outbound> {
    if sent == [] then [] else (if sent[0].InformRequest? then [sent[0]] else []) + InformsOf(sent[1..])
  }

  function Rendered(fired: seq<Fired>, controllerId: string): seq<Outbound> {
    if fired == [] then []
    else
      var inform := fired[0].1;
      (if inform.Idle? then [] else [InformRequest(inform.seqNo, controllerId, inform.needReply, inform.uptime)])
      + Rendered(fired[1..], controllerId)
  }

  function Clock(rounds: seq<Round>): seq<uint64> { seq(|rounds|, i requires 0 <= i < |rounds| => rounds[i].now) }

  lemma {:induction false} InformsAppend(a: seq<Outbound>, b: seq<Outbound>)
    ensures InformsOf(a + b) == InformsOf(a) + InformsOf(b)
    decreases |a|
  {
    if a == [] {
      assert a + b == b;
    } else {
      assert (a + b)[1..] == a[1..] + b && (a + b)[0] == a[0];
      InformsAppend(a[1..], b);
      Regroup(if a[0].InformRequest? then [a[0]] else [], InformsOf(a[1..]), InformsOf(b));
    }
  }

  lemma InformsOfFew(m: Outbound)
    ensures InformsOf([]) == [] && InformsOf([m]) == if m.InformRequest? then [m] else []
  {
    assert [m][1..] == [];
  }

  lemma NoInformsIn(m: seq<Outbound>)
    requires m == [] || (|m| == 1 && !m[0].Numbered())
    ensures InformsOf(m) == []
  {
    if m != [] { InformsOfFew(m[0]); assert [m[0]] == m; }
  }

  lemma ReplyUnnumbered(env: Env, informed: Live)
    ensures var reply := ReplyIn(env, informed); reply == [] || (|reply| == 1 && !reply[0].Numbered())
  {
    if ReplyIn(env, informed) != [] {
      var p := env.inbound(informed.received).payload;
      RepliesUnnumbered(informed.state, p, Some(Combined(Appliance(env, p, |informed.log|).results)), env.sendOk(informed.sends));
      hide Handle;
    }
  }

  lemma RoundInforms(env: Env, live: Live, round: Round)
    requires DoRound(env, live, round).1 == Again
    ensures var (next, polled) := (DoRound(env, live, round).0, Polled(live.schedule, env.interval, round.now));
            && next.schedule == AfterPoll(live.schedule, env.interval, round.now)
            && next.state.controllerId == live.state.controllerId
            && InformsOf(NewIn(env, live, round))
               == if polled.Idle? then []
                  else [InformRequest(polled.seqNo, live.state.controllerId, polled.needReply, polled.uptime)]
  {
    hide RunFrom, Combined, P.SavedFile, Appliance, CallsApplier, Handle, InformsOf, AfterPoll, Polled;
    var (informed, ok) := SendDue(env, live, round.now);
    var inform, reply := InformIn(env, live, round.now), ReplyIn(env, informed);
    ReplyUnnumbered(env, informed);
    NoInformsIn(reply);
    InformsAppend(inform, reply);
    assert InformsOf(inform) + [] == InformsOf(inform);
    NoInformsIn([]);
    if inform != [] { InformsOfFew(inform[0]); assert [inform[0]] == inform; }
    if env.inbound(informed.received).Message? {
      var p := env.inbound(informed.received).payload;
      HandleMoves(informed.state, p, Some(Combined(Appliance(env, p, |informed.log|).results)), env.sendOk(informed.sends));
    }
  }

  lemma ClockStep(rounds: seq<Round>)
    requires rounds != []
    ensures Clock(rounds) != [] && Clock(rounds)[0] == rounds[0].now && Clock(rounds)[1..] == Clock(rounds[1..])
  {
  }

  lemma RenderStep(s: Schedule, interval: uint32, clock: seq<uint64>, id: string)
    requires clock != []
    ensures var now := Polled(s, interval, clock[0]);
            Rendered(Informs(s, interval, clock), id)
            == (if now.Idle? then [] else [InformRequest(now.seqNo, id, now.needReply, now.uptime)])
               + Rendered(Informs(AfterPoll(s, interval, clock[0]), interval, clock[1..]), id)
  {
    var rest := Informs(AfterPoll(s, interval, clock[0]), interval, clock[1..]);
    var now := Polled(s, interval, clock[0]);
    assert [] + Rendered(rest, id) == Rendered(rest, id);
    if !now.Idle? { assert ([(clock[0], now)] + rest)[1..] == rest; }
    hide AfterPoll, Polled;
  }

  /** While the loop goes on, the informs it gets across are those its scheduler fires at its clock
      readings: spacing, number, numbering and reply flag are those of the schedule. */
  lemma {:induction false} LoopInforms(env: Env, live: Live, rounds: seq<Round>)
    requires Rounds(env, live, rounds).1 == Again
    ensures InformsOf(Added(env, live, rounds))
         == Rendered(Informs(live.schedule, env.interval, Clock(rounds)), live.state.controllerId)
    decreases |rounds|
  {
    if rounds == [] {
      assert Clock(rounds) == [] && Added(env, live, rounds) == [];
    } else {
      hide DoRound, NewIn, InformsOf, Rendered, Clock, Informs, AfterPoll, Polled;
      RoundInforms(env, live, rounds[0]);
      AddedStep(env, live, rounds);
      var next := DoRound(env, live, rounds[0]).0;
      LoopInforms(env, next, rounds[1..]);
      InformsAppend(NewIn(env, live, rounds[0]), Added(env, next, rounds[1..]));
      ClockStep(rounds);
      RenderStep(live.schedule, env.interval, Clock(rounds), live.state.controllerId);
    }
  }
}
