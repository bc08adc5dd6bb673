/** How a run of the managed loop goes on and how it ends, told from what the controller sends, which
    sends succeed and what the schedule has due at each head of the loop. */
module LoopEnds {
  import opened Wrappers
  import opened FixedWidth
  import opened Protocol
  import opened Appliers
  import Config
  import opened ManagedRequests
  import opened InformSchedule
  import opened ManagedLoop
  import P = Persistence

  /** The run gets to the head of iteration `i`. */
  ghost predicate Reaches(env: Env, live: Live, rounds: seq<Round>, i: nat) {
    i <= |rounds| && Rounds(env, live, rounds[..i]).1 == Again
  }

  /** The session there. */
  function HeadAt(env: Env, live: Live, rounds: seq<Round>, i: nat): Live
    requires i <= |rounds|
  {
    Rounds(env, live, rounds[..i]).0
  }

  /* ---- what an iteration meets ---- */

  function Due(env: Env, head: Live, round: Round): seq<Outbound> {
    match Polled(head.schedule, env.interval, round.now)
    case Idle => []
    case Due(needReply, seqNo, uptime, _) => [InformRequest(seqNo, head.state.controllerId, needReply, uptime)]
  }

  /** An inform is due and its send fails. */
  predicate Unsent(env: Env, head: Live, round: Round) { Due(env, head, round) != [] && !env.sendOk(head.sends) }

  /** The connection is of no more use: an inform does not go out, or the receive call fails. */
  predicate Breaks(env: Env, head: Live, round: Round) {
    Unsent(env, head, round) || env.inbound(head.received) == ReceiveError(false)
  }

  /** The controller sends something that arrives. */
  predicate Hears(env: Env, head: Live, round: Round, p: Payload) {
    !Unsent(env, head, round) && env.inbound(head.received) == Message(p)
  }

  /** Whether a reply in this iteration goes out, after its inform if one is due. */
  predicate ReplyOk(env: Env, head: Live, round: Round) { env.sendOk(head.sends + |Due(env, head, round)|) }

  predicate AsksToForget(p: Payload) { p.Json? && p.Type() in {Some(FORGET_REQUEST), Some(FORGET_REQUEST_NO_RESET)} }

  /** The controller asks to be forgotten and gets its answer. */
  predicate Forgets(env: Env, head: Live, round: Round) {
    var m := env.inbound(head.received);
    m.Message? && Hears(env, head, round, m.payload) && AsksToForget(m.payload) && ReplyOk(env, head, round)
  }

  /* ---- one iteration ---- */

  lemma OnlyForgettingEnds(s: ManagedState, p: Payload, applied: Option<Config.ApplyResult>, sendOk: bool)
    ensures var r := Handle(s, p, applied, sendOk).result;
            (r.ok && r.shouldEndSession <==> AsksToForget(p) && sendOk)
            && (r.shouldClearState ==> r.shouldEndSession) && (r.shouldEndSession ==> r.shouldClearState && r.ok)
  {
  }

  lemma RoundEnds(env: Env, head: Live, round: Round)
    ensures DoRound(env, head, round).1 == Lost <==> Breaks(env, head, round)
    ensures DoRound(env, head, round).1 == Ended <==> Forgets(env, head, round)
  {
    hide P.SavedFile, Handle, RunFrom, Combined, CallsApplier, AfterPoll, Polled;
    var (informed, ok) := SendDue(env, head, round.now);
    if ok && env.inbound(informed.received).Message? {
      var p := env.inbound(informed.received).payload;
      var run := Appliance(env, p, |informed.log|);
      OnlyForgettingEnds(informed.state, p, Some(Combined(run.results)), env.sendOk(informed.sends));
    }
  }

  lemma RunNext(env: Env, live: Live, rounds: seq<Round>, i: nat)
    requires i < |rounds| && Reaches(env, live, rounds, i)
    ensures Rounds(env, live, rounds[..i + 1]) == DoRound(env, HeadAt(env, live, rounds, i), rounds[i])
  {
    hide DoRound;
    RunSnoc(env, live, rounds[..i], rounds[i]);
    assert rounds[..i + 1] == rounds[..i] + [rounds[i]];
  }

  lemma {:induction false} RunSnoc(env: Env, live: Live, rounds: seq<Round>, last: Round)
    requires Rounds(env, live, rounds).1 == Again
    ensures Rounds(env, live, rounds + [last]) == DoRound(env, Rounds(env, live, rounds).0, last)
    decreases |rounds|
  {
    hide DoRound;
    if rounds == [] {
      assert [] + [last] == [last] && [last][1..] == [];
    } else {
      assert (rounds + [last])[0] == rounds[0] && (rounds + [last])[1..] == rounds[1..] + [last];
      RunSnoc(env, DoRound(env, live, rounds[0]).0, rounds[1..], last);
    }
  }

  /* ---- how a run ends ---- */

  lemma {:induction false} StaysEnded(env: Env, live: Live, rounds: seq<Round>, i: nat)
    requires i <= |rounds| && Rounds(env, live, rounds[..i]).1 != Again
    ensures Rounds(env, live, rounds) == Rounds(env, live, rounds[..i])
    decreases |rounds|
  {
    hide DoRound;
    if i > 0 {
      assert rounds[..i][0] == rounds[0] && rounds[..i][1..] == rounds[1..][..i - 1];
      if DoRound(env, live, rounds[0]).1 == Again {
        StaysEnded(env, DoRound(env, live, rounds[0]).0, rounds[1..], i - 1);
      }
    }
  }

  lemma {:induction false} LastHead(env: Env, live: Live, rounds: seq<Round>, n: nat)
    requires n <= |rounds| && Rounds(env, live, rounds[..n]).1 != Again
    ensures exists i :: 0 <= i < n && Reaches(env, live, rounds, i) && Rounds(env, live, rounds[..i + 1]).1 != Again
  {
    hide DoRound;
    assert rounds[..0] == [];
    if n > 0 {
      if Rounds(env, live, rounds[..n - 1]).1 == Again {
        assert Reaches(env, live, rounds, n - 1);
      } else {
        LastHead(env, live, rounds, n - 1);
      }
    }
  }

  lemma EndsAt(env: Env, live: Live, rounds: seq<Round>, i: nat)
    requires i < |rounds| && Reaches(env, live, rounds, i)
    ensures var head := HeadAt(env, live, rounds, i);
            && (Breaks(env, head, rounds[i]) ==> Rounds(env, live, rounds).1 == Lost)
            && (Forgets(env, head, rounds[i]) ==> Rounds(env, live, rounds).1 == Ended)
            && (Rounds(env, live, rounds[..i + 1]).1 != Again ==> Rounds(env, live, rounds) == Rounds(env, live, rounds[..i + 1]))
  {
    RunNext(env, live, rounds, i);
    RoundEnds(env, HeadAt(env, live, rounds, i), rounds[i]);
    hide DoRound, Breaks, Forgets, Rounds;
    if Rounds(env, live, rounds[..i + 1]).1 != Again { StaysEnded(env, live, rounds, i + 1); }
  }

  /** A run is lost exactly when, at some head it gets to, a due inform does not go out or the receive
      call fails; it is ended exactly when at some head a request to forget is answered. Timeouts and
      everything else the controller sends keep it going. */
  lemma EndsExactly(env: Env, live: Live, rounds: seq<Round>)
    ensures Rounds(env, live, rounds).1 == Lost <==>
            exists i :: 0 <= i < |rounds| && Reaches(env, live, rounds, i) && Breaks(env, HeadAt(env, live, rounds, i), rounds[i])
    ensures Rounds(env, live, rounds).1 == Ended <==>
            exists i :: 0 <= i < |rounds| && Reaches(env, live, rounds, i) && Forgets(env, HeadAt(env, live, rounds, i), rounds[i])
  {
    assert rounds[..|rounds|] == rounds;
    if Rounds(env, live, rounds).1 != Again {
      LastHead(env, live, rounds, |rounds|);
      var i :| 0 <= i < |rounds| && Reaches(env, live, rounds, i) && Rounds(env, live, rounds[..i + 1]).1 != Again;
      RunNext(env, live, rounds, i);
      RoundEnds(env, HeadAt(env, live, rounds, i), rounds[i]);
      hide DoRound, Breaks, Forgets, Rounds;
      EndsAt(env, live, rounds, i);
    }
    forall i | 0 <= i < |rounds| && Reaches(env, live, rounds, i)
      ensures var head := HeadAt(env, live, rounds, i);
              && (Breaks(env, head, rounds[i]) ==> Rounds(env, live, rounds).1 == Lost)
              && (Forgets(env, head, rounds[i]) ==> Rounds(env, live, rounds).1 == Ended)
    {
      hide DoRound, Breaks, Forgets, Rounds;
      EndsAt(env, live, rounds, i);
    }
  }

  /* ---- how it goes on ---- */

  /** A quiet second costs one receive call and changes nothing else but for the inform, if one is due. */
  lemma QuietRound(env: Env, live: Live, rounds: seq<Round>, i: nat)
    requires i < |rounds| && Reaches(env, live, rounds, i)
    requires var head := HeadAt(env, live, rounds, i);
             !Unsent(env, head, rounds[i]) && env.inbound(head.received) == ReceiveError(true)
    ensures Reaches(env, live, rounds, i + 1)
    ensures var (head, due) := (HeadAt(env, live, rounds, i), Due(env, HeadAt(env, live, rounds, i), rounds[i]));
            HeadAt(env, live, rounds, i + 1)
            == head.(received := head.received + 1, sends := head.sends + |due|, sent := head.sent + due,
                     schedule := AfterPoll(head.schedule, env.interval, rounds[i].now))
  {
    RunNext(env, live, rounds, i);
    var head := HeadAt(env, live, rounds, i);
    assert head.sent + [] == head.sent;
    hide P.SavedFile, Handle, RunFrom, Combined, CallsApplier, AfterPoll, Polled, Rounds;
  }

  /** The update a payload asks the appliers for: that of a SET_REQUEST that is understood and asks for
      something, or that of a portal event about clients. */
  function Asks(p: Payload): Option<Config.Update> {
    if !p.Json? then None
    else if p.Type() == Some(SET_REQUEST) then
      if p.config.ConfigUpdate? && p.config.update.unhandledKeys == [] && p.config.update.Actionable() then Some(p.config.update) else None
    else if p.Type() == Some(EVENT_PORTAL_AUTH) then
      if p.portal.ConfigUpdate? && p.portal.update.clientConfigs != [] then Some(p.portal.update) else None
    else None
  }

  /** The session after a request was handled with what the appliers made of it: in the state the
      handler leaves, with the time of the save if a SET_REQUEST was answered, and with the file
      written or removed accordingly. */
  function Serving(env: Env, head: Live, round: Round, p: Payload): Live {
    var (due, ok) := (Due(env, head, round), ReplyOk(env, head, round));
    var run := if Asks(p).Some? then RunFrom(env.appliers, 0, Asks(p).value, env.outcome, |head.log|) else Run([], []);
    var h := Handle(head.state, p, Some(Combined(run.results)), ok);
    var reply := if h.message.Some? then [h.message.value] else [];
    var answered := p.Json? && p.Type() == Some(SET_REQUEST) && reply != [] && ok;
    var state := if answered then h.state.(updatedAt := round.savedAt) else h.state;
    Live(state, head.received + 1, head.sends + |due| + |reply|, head.sent + due + (if ok then reply else []),
         head.log + run.platforms, AfterPoll(head.schedule, env.interval, round.now),
         if answered then P.SavedFile(state, env.device, env.host, head.file, round.io)
         else if AsksToForget(p) && ok && round.unlinks then None
         else head.file)
  }

  lemma Informed(env: Env, head: Live, round: Round)
    requires !Unsent(env, head, round)
    ensures var due := Due(env, head, round);
            SendDue(env, head, round.now)
            == (head.(sends := head.sends + |due|, sent := head.sent + due, schedule := AfterPoll(head.schedule, env.interval, round.now)), true)
  {
    assert head.sent + [] == head.sent;
    hide AfterPoll, Polled;
  }

  lemma Settled(env: Env, live: Live, p: Payload, round: Round)
    ensures var (answered, r) := Answer(env, live, p);
            var h := Handle(live.state, p, Some(Combined(Appliance(env, p, |live.log|).results)), env.sendOk(live.sends));
            var isSet := p.Json? && p.Type() == Some(SET_REQUEST) && h.message.Some? && env.sendOk(live.sends);
            var state := if isSet then h.state.(updatedAt := round.savedAt) else h.state;
            Settle(env, answered, r, round)
            == answered.(state := state,
                         file := if isSet then P.SavedFile(state, env.device, env.host, live.file, round.io)
                                 else if AsksToForget(p) && env.sendOk(live.sends) && round.unlinks then None
                                 else live.file)
  {
    var applied, ok := Some(Combined(Appliance(env, p, |live.log|).results)), env.sendOk(live.sends);
    PersistsSet(live.state, p, applied, ok);
    OnlyForgettingEnds(live.state, p, applied, ok);
    hide P.SavedFile, Handle, RunFrom, Combined, CallsApplier, Persists, Appliance, AsksToForget;
  }

  lemma Served(env: Env, head: Live, round: Round, p: Payload)
    requires Hears(env, head, round, p)
    ensures DoRound(env, head, round).0 == Serving(env, head, round, p)
  {
    var informed := SendDue(env, head, round.now).0;
    var received := informed.(received := informed.received + 1);
    Informed(env, head, round);
    AskedOf(env, p, |head.log|);
    Settled(env, received, p, round);
    assert informed.sent + [] == informed.sent;
    hide P.SavedFile, Handle, RunFrom, Combined, CallsApplier, AfterPoll, Polled, Persists, Asks, Appliance, AsksToForget, Due, Settle,
      SendDue;
  }

  /** An iteration that hears something serves it. */
  lemma ServedRound(env: Env, live: Live, rounds: seq<Round>, i: nat, p: Payload)
    requires i < |rounds| && Reaches(env, live, rounds, i) && Hears(env, HeadAt(env, live, rounds, i), rounds[i], p)
    ensures Rounds(env, live, rounds[..i + 1]).0 == Serving(env, HeadAt(env, live, rounds, i), rounds[i], p)
  {
    RunNext(env, live, rounds, i);
    hide *;
    Served(env, HeadAt(env, live, rounds, i), rounds[i], p);
  }

  lemma AskedOf(env: Env, p: Payload, calls: nat)
    ensures Appliance(env, p, calls) == if Asks(p).Some? then RunFrom(env.appliers, 0, Asks(p).value, env.outcome, calls) else Run([], [])
  {
    hide RunFrom;
  }

  lemma PersistsSet(s: ManagedState, p: Payload, applied: Option<Config.ApplyResult>, sendOk: bool)
    ensures var h := Handle(s, p, applied, sendOk);
            && (Persists(h.result) <==> p.Json? && p.Type() == Some(SET_REQUEST) && h.message.Some? && sendOk)
            && (Persists(h.result) ==> !h.result.shouldClearState)
  {
  }

  /** Every iteration reads one message. */
  lemma {:induction false} OneReadEach(env: Env, live: Live, rounds: seq<Round>, i: nat)
    requires Reaches(env, live, rounds, i)
    ensures HeadAt(env, live, rounds, i).received == live.received + i
    ensures forall k :: 0 <= k <= i ==> Reaches(env, live, rounds, k)
    decreases i
  {
    if i == 0 {
      assert rounds[..0] == [];
    } else {
      Earlier(env, live, rounds, i);
      RunNext(env, live, rounds, i - 1);
      hide P.SavedFile, Handle, RunFrom, Combined, CallsApplier, AfterPoll, Polled, Rounds, Persists;
      OneReadEach(env, live, rounds, i - 1);
    }
  }

  lemma Earlier(env: Env, live: Live, rounds: seq<Round>, i: nat)
    requires i > 0 && Reaches(env, live, rounds, i)
    ensures Reaches(env, live, rounds, i - 1)
  {
    hide DoRound;
    assert rounds[..i][..i - 1] == rounds[..i - 1];
    if Rounds(env, live, rounds[..i - 1]).1 != Again { StaysEnded(env, live, rounds[..i], i - 1); }
  }
}
