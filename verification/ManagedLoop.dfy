/** The managed loop of the daemon: informs, requests, and the state file kept in step with both. */
module ManagedLoop {
  import opened Wrappers
  import opened FixedWidth
  import opened Mac
  import opened Protocol
  import opened Appliers
  import opened ManagedRequests
  import opened InformSchedule
  import P = Persistence

  /** What stays fixed during one session: the oracles, the appliers and whose session it is. */
  datatype Env = Env(
    inbound: nat -> Incoming,
    sendOk: nat -> bool,
    appliers: seq<Option<Member>>,
    outcome: Oracle,
    device: MacAddress,
    host: string,
    interval: uint32)

  /** What a session changes. */
  datatype Live = Live(
    state: ManagedState,
    received: nat,
    sends: nat,
    sent: seq<Outbound>,
    log: seq<nat>,
    schedule: Schedule,
    file: Option<string>)

  /** What clock and file system do during one iteration. A run of the loop is observed up to the
      iteration at whose head the stop request arrives. */
  datatype Round = Round(now: uint64, savedAt: uint64, io: P.SaveIo, unlinks: bool)

  datatype Next = Again | Lost | Ended

  datatype LoopOutcome = Stopped | Reconnect

  /* ---- one iteration, on values ---- */

  function SendDue(env: Env, live: Live, now: uint64): (Live, bool) {
    var polled := live.(schedule := AfterPoll(live.schedule, env.interval, now));
    match Polled(live.schedule, env.interval, now)
    case Idle => (polled, true)
    case Due(needReply, seqNo, uptime, _) =>
      var ok := env.sendOk(live.sends);
      var inform := InformRequest(seqNo, live.state.controllerId, needReply, uptime);
      (polled.(sends := live.sends + 1, sent := if ok then live.sent + [inform] else live.sent), ok)
  }

  function Appliance(env: Env, p: Payload, calls: nat): Run {
    if !CallsApplier(p) then Run([], [])
    else RunFrom(env.appliers, 0, if p.Type() == Some(SET_REQUEST) then p.config.update else p.portal.update, env.outcome, calls)
  }

  /** Handling one request: the messages, the appliers and the in-memory state. */
  function Answer(env: Env, live: Live, p: Payload): (Live, RequestResult) {
    var run := Appliance(env, p, |live.log|);
    var sendOk := env.sendOk(live.sends);
    var handled := Handle(live.state, p, Some(Combined(run.results)), sendOk);
    ( live.(state := handled.state,
            log := live.log + run.platforms,
            sends := live.sends + (if handled.message.Some? then 1 else 0),
            sent := live.sent + (if handled.message.Some? && sendOk then [handled.message.value] else [])),
      handled.result )
  }

  predicate Persists(r: RequestResult) { r.ok && r.action.SetAnswered? && (r.configVersion.Some? || r.sequenceId.Some?) }

  /** What a handled request does to the state file. */
  function Settle(env: Env, live: Live, r: RequestResult, round: Round): Live {
    var saved :=
      if !Persists(r) then live
      else
        var s := live.state.(updatedAt := round.savedAt);
        live.(state := s, file := P.SavedFile(s, env.device, env.host, live.file, round.io));
    if r.ok && r.shouldClearState && round.unlinks then saved.(file := None) else saved
  }

  function DoRound(env: Env, live: Live, round: Round): (Live, Next) {
    var (informed, ok) := SendDue(env, live, round.now);
    if !ok then (informed, Lost)
    else
      var m := env.inbound(informed.received);
      var received := informed.(received := informed.received + 1);
      match m
      case ReceiveError(timeout) => (received, if timeout then Again else Lost)
      case Message(p) =>
        var (answered, result) := Answer(env, received, p);
        (Settle(env, answered, result, round), if result.ok && result.shouldEndSession then Ended else Again)
  }

  function Rounds(env: Env, live: Live, rounds: seq<Round>): (Live, Next)
    decreases |rounds|
  {
    if rounds == [] then (live, Again)
    else
      var (next, then_) := DoRound(env, live, rounds[0]);
      if then_ != Again then (next, then_) else Rounds(env, next, rounds[1..])
  }

  /* ---- the loop ---- */

  function EnvOf(session: ManagedSession, repository: P.SessionStateRepository, applier: CompositeApplier, interval: uint32): Env
    reads applier`appliers
  {
    Env(session.transport.inbound, session.transport.sendOk, applier.appliers, applier.outcome, repository.deviceMac,
        repository.controllerHost, interval)
  }

  function LiveOf(session: ManagedSession, repository: P.SessionStateRepository, applier: CompositeApplier, schedule: Schedule): Live
    reads session, session.transport, repository, applier
  {
    Live(session.state, session.transport.received, session.transport.sends, session.transport.sent, applier.log, schedule,
         repository.file)
  }

  // send_inform, of whatever the scheduler says is due
  method SendInform(session: ManagedSession, scheduled: Scheduled) returns (ok: bool)
    modifies session.transport`sends, session.transport`sent
    ensures scheduled.Idle? ==> ok && session.transport.sends == old(session.transport.sends)
                                && session.transport.sent == old(session.transport.sent)
    ensures scheduled.Due? ==>
              && ok == session.transport.sendOk(old(session.transport.sends))
              && session.transport.sends == old(session.transport.sends) + 1
              && session.transport.sent == old(session.transport.sent) + if ok
                   then [InformRequest(scheduled.seqNo, session.state.controllerId, scheduled.needReply, scheduled.uptime)] else []
  {
    if scheduled.Idle? {
      return true;
    }
    ok := session.transport.SendPayload(
      InformRequest(scheduled.seqNo, session.state.controllerId, scheduled.needReply, scheduled.uptime));
  }

  // handle one request and bring the state file in step
  method ServeRequest(session: ManagedSession, repository: P.SessionStateRepository, applier: CompositeApplier,
                      p: Payload, round: Round, ghost schedule: Schedule, ghost interval: uint32) returns (ended: bool)
    modifies session`state, session.transport`sends, session.transport`sent
    modifies repository`file, repository`temporary, applier
    ensures applier.appliers == old(applier.appliers) && session.transport.received == old(session.transport.received)
    ensures var env := EnvOf(session, repository, applier, interval);
            var (answered, result) := Answer(env, old(LiveOf(session, repository, applier, schedule)), p);
            && LiveOf(session, repository, applier, schedule) == Settle(env, answered, result, round)
            && ended == (result.ok && result.shouldEndSession)
  {
    hide Handle, RunFrom, Combined, CallsApplier, P.SavedFile, P.SaveRefusal, P.StateText;
    ghost var env := EnvOf(session, repository, applier, interval);
    ghost var before := LiveOf(session, repository, applier, schedule);
    var result := session.HandleRequest(p, applier);
    ghost var after := LiveOf(session, repository, applier, schedule);
    assert (after, result) == Answer(env, before, p);
    hide Answer;
    if !result.ok {
      return false;
    }
    if result.action == SetAnswered && (result.configVersion.Some? || result.sequenceId.Some?) {
      session.state := session.state.(updatedAt := round.savedAt);
      var status := repository.Save(session.state, round.io);
    }
    if result.shouldClearState {
      var cleared := repository.Clear(round.unlinks);
    }
    ended := result.shouldEndSession;
  }

  lemma SentDue(env: Env, live: Live, now: uint64, scheduled: Scheduled, after: Live, ok: bool)
    requires scheduled == Polled(live.schedule, env.interval, now)
    requires after == live.(schedule := AfterPoll(live.schedule, env.interval, now), sends := after.sends, sent := after.sent)
    requires scheduled.Idle? ==> ok && after.sends == live.sends && after.sent == live.sent
    requires scheduled.Due? ==>
               && ok == env.sendOk(live.sends) && after.sends == live.sends + 1
               && after.sent == live.sent + if ok
                    then [InformRequest(scheduled.seqNo, live.state.controllerId, scheduled.needReply, scheduled.uptime)] else []
    ensures SendDue(env, live, now) == (after, ok)
  {
    assert live.sent + [] == live.sent;
    hide Polled, AfterPoll;
  }

  method RunManagedLoop(session: ManagedSession, repository: P.SessionStateRepository, applier: CompositeApplier,
                        informInterval: uint32, lastSeq: uint32, startedAt: uint64, rounds: seq<Round>)
    returns (outcome: LoopOutcome, ghost schedule: Schedule)
    modifies session`state, session.transport`received, session.transport`sends, session.transport`sent
    modifies repository`file, repository`temporary, applier
    ensures applier.appliers == old(applier.appliers)
    ensures var env := old(EnvOf(session, repository, applier, Interval(informInterval)));
            var run := Rounds(env, old(LiveOf(session, repository, applier, Begin(lastSeq, startedAt))), rounds);
            && LiveOf(session, repository, applier, schedule) == run.0
            && (outcome.Stopped? <==> run.1.Again?)
  {
    hide Answer, Settle, SendDue, AfterPoll, Polled;
    var scheduler := new InformScheduler(informInterval);
    scheduler.Start(lastSeq, startedAt);
    ghost var env := EnvOf(session, repository, applier, scheduler.intervalMs);
    ghost var run := Rounds(env, LiveOf(session, repository, applier, scheduler.View()), rounds);
    for i := 0 to |rounds|
      invariant env == EnvOf(session, repository, applier, scheduler.intervalMs)
      invariant run == Rounds(env, LiveOf(session, repository, applier, scheduler.View()), rounds[i..])
    {
      ghost var live := LiveOf(session, repository, applier, scheduler.View());
      assert rounds[i..][0] == rounds[i] && rounds[i..][1..] == rounds[i + 1..];
      var scheduled := scheduler.Poll(rounds[i].now);
      var ok := SendInform(session, scheduled);
      schedule := scheduler.View();
      SentDue(env, live, rounds[i].now, scheduled, LiveOf(session, repository, applier, schedule), ok);
      if !ok {
        return Reconnect, schedule;
      }
      var received := session.transport.ReceivePayload();
      if received.ReceiveError? {
        if received.timeout {
          continue;
        }
        return Reconnect, schedule;
      }
      var ended := ServeRequest(session, repository, applier, received.payload, rounds[i], schedule, scheduler.intervalMs);
      if ended {
        return Reconnect, schedule;
      }
    }
    return Stopped, scheduler.View();
  }
}
