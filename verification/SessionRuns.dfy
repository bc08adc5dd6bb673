/** Whole runs of a managed session: which version the device ends up believing in, and what an
    acknowledgement is worth. */
module SessionRuns {
  import opened Wrappers
  import opened FixedWidth
  import opened Config
  import opened Protocol
  import opened Appliers
  import opened ManagedRequests

  /** One request with what the environment did while it was handled. */
  datatype Step = Step(payload: Payload, applied: Option<ApplyResult>, sendOk: bool)

  function Do(s: ManagedState, step: Step): Handled { Handle(s, step.payload, step.applied, step.sendOk) }

  function StateAfter(s: ManagedState, steps: seq<Step>): ManagedState
    decreases |steps|
  {
    if steps == [] then s else StateAfter(Do(s, steps[0]).state, steps[1..])
  }

  /** The message a step gets across. */
  function SentIn(s: ManagedState, step: Step): seq<Outbound> {
    var h := Do(s, step);
    if step.sendOk && h.message.Some? then [h.message.value] else []
  }

  function SentBy(s: ManagedState, steps: seq<Step>): seq<Outbound>
    decreases |steps|
  {
    if steps == [] then [] else SentIn(s, steps[0]) + SentBy(Do(s, steps[0]).state, steps[1..])
  }

  predicate Acknowledges(m: Outbound) { m.SetResponse? && m.errcode == CONFIG_OK }

  /** The version in the last acknowledgement whose version fits 32 bits. */
  function LatestVersion(sent: seq<Outbound>, initial: Option<uint32>): Option<uint32> {
    if sent == [] then initial
    else LatestVersion(sent[1..], if Acknowledges(sent[0]) then Adopted(sent[0].version, initial) else initial)
  }

  function LatestSequence(sent: seq<Outbound>, initial: Option<uint32>): Option<uint32> {
    if sent == [] then initial
    else LatestSequence(sent[1..], if Acknowledges(sent[0]) then Adopted(sent[0].sequenceId, initial) else initial)
  }

  lemma StepVersion(s: ManagedState, step: Step)
    ensures var sent, after := SentIn(s, step), Do(s, step).state;
            && (sent == [] || |sent| == 1)
            && after.configVersion == (if sent != [] && Acknowledges(sent[0]) then Adopted(sent[0].version, s.configVersion) else s.configVersion)
            && after.sequenceId == (if sent != [] && Acknowledges(sent[0]) then Adopted(sent[0].sequenceId, s.sequenceId) else s.sequenceId)
  {
  }

  /** After any run, the local version and sequence id are those of the last acknowledgement sent
      (or the initial ones): nothing else moves them. */
  lemma {:induction false} VersionIsLatestAcknowledged(s: ManagedState, steps: seq<Step>)
    ensures StateAfter(s, steps).configVersion == LatestVersion(SentBy(s, steps), s.configVersion)
    ensures StateAfter(s, steps).sequenceId == LatestSequence(SentBy(s, steps), s.sequenceId)
    decreases |steps|
  {
    if steps != [] {
      var sent, next := SentIn(s, steps[0]), Do(s, steps[0]).state;
      StepVersion(s, steps[0]);
      hide Do, SentIn;
      VersionIsLatestAcknowledged(next, steps[1..]);
      var rest := SentBy(next, steps[1..]);
      assert SentBy(s, steps) == sent + rest;
      if sent == [] {
        assert sent + rest == rest;
      } else {
        assert (sent + rest)[1..] == rest && (sent + rest)[0] == sent[0];
      }
    }
  }

  /* ---- what an answer has to do with its request ---- */

  /** The version a request asks for: the one it names or, when it names none, a known version plus a
      non-negative increment, in 64 bits. */
  ghost predicate AsksFor(body: Body, current: Option<uint32>, version: int64) {
    || body.configVersion == Some(version)
    || (&& body.configVersion.None? && current.Some? && body.configVersionInc.Some? && body.configVersionInc.value >= 0
        && (version - current.value - body.configVersionInc.value) % TWO_64 == 0)
  }

  /** The request was understood, and what it asks for, if anything, was applied. */
  ghost predicate Honoured(p: Payload, applied: Option<ApplyResult>)
    requires p.Json?
  {
    && p.config.ConfigUpdate? && p.config.update.unhandledKeys == []
    && (p.config.update.Actionable() ==> applied.Some? && applied.value.ok)
  }

  /** A response to a SET_REQUEST repeats the request's sequence id and number. Its error code is 0
      exactly when the request was honoured; it then carries the version asked for, and otherwise the
      one in force, if that is known. The state takes over what an acknowledgement that got across says. */
  lemma SetAnswered(s: ManagedState, p: Payload, applied: Option<ApplyResult>, sendOk: bool)
    requires p.Json? && p.Type() == Some(SET_REQUEST)
    ensures var h := Handle(s, p, applied, sendOk);
            && (h.message.Some? <==>
                  && p.body.Some? && p.body.value.sequenceId.Some?
                  && exists v :: AsksFor(p.body.value, s.configVersion, v))
            && (h.message.Some? ==>
                  var m := h.message.value;
                  && m.SetResponse? && m.replyTo == p.Seq() && m.dest == s.controllerId
                  && p.body.value.sequenceId == Some(m.sequenceId)
                  && m.errcode == (if Honoured(p, applied) then 0 else 1)
                  && (Honoured(p, applied) || s.configVersion.None? ==> AsksFor(p.body.value, s.configVersion, m.version))
                  && (!Honoured(p, applied) && s.configVersion.Some? ==> m.version == s.configVersion.value))
            && (h.result.ok <==> h.message.Some? && sendOk)
            && (h.result.ok ==>
                  var (m, active) := (h.message.value, Honoured(p, applied) && p.config.update.Actionable());
                  h.result == RequestResult(true, Action.SetAnswered, true, false, false, active, active, Some(m.version), Some(m.sequenceId)))
            && h.state == if h.result.ok && Honoured(p, applied)
                 then s.(configVersion := if 0 <= h.message.value.version < TWO_32 then Some(h.message.value.version) else s.configVersion,
                         sequenceId := if 0 <= h.message.value.sequenceId < TWO_32 then Some(h.message.value.sequenceId) else s.sequenceId)
                 else s
  {
    if p.body.Some? {
      var body := p.body.value;
      if body.configVersion.Some? {
        assert AsksFor(body, s.configVersion, body.configVersion.value);
      } else if s.configVersion.Some? && body.configVersionInc.Some? && body.configVersionInc.value >= 0 {
        WrapsToSum(s.configVersion.value + body.configVersionInc.value);
        assert AsksFor(body, s.configVersion, WrapI64(s.configVersion.value + body.configVersionInc.value));
      }
    }
    hide WrapI64;
  }

  lemma WrapsToSum(n: int)
    ensures (WrapI64(n) - n) % TWO_64 == 0
  {
    assert (n % TWO_64 - n) % TWO_64 == 0;
    if n % TWO_64 >= TWO_63 { assert (n % TWO_64 - n - TWO_64) % TWO_64 == 0; }
  }

  /** A step that gets an acknowledgement across. */
  ghost predicate Acknowledged(s: ManagedState, step: Step) {
    var h := Do(s, step); step.sendOk && h.message.Some? && h.message.value.SetResponse? && h.message.value.errcode == 0
  }

  ghost predicate NoneAcknowledged(s: ManagedState, steps: seq<Step>)
    decreases |steps|
  {
    steps != [] ==> !Acknowledged(s, steps[0]) && NoneAcknowledged(Do(s, steps[0]).state, steps[1..])
  }

  lemma OnlyAcknowledgementsMove(s: ManagedState, step: Step)
    ensures !Acknowledged(s, step) ==> Do(s, step).state == s
    ensures Acknowledged(s, step) ==> step.payload.Json? && step.payload.Type() == Some(SET_REQUEST)
  {
  }

  lemma {:induction false} NothingMoves(s: ManagedState, steps: seq<Step>)
    requires NoneAcknowledged(s, steps)
    ensures StateAfter(s, steps) == s
    decreases |steps|
  {
    if steps != [] {
      OnlyAcknowledgementsMove(s, steps[0]);
      hide Do, Acknowledged;
      NothingMoves(Do(s, steps[0]).state, steps[1..]);
    }
  }

  lemma {:induction false} StateAfterSplit(s: ManagedState, steps: seq<Step>, i: nat)
    requires i <= |steps|
    ensures StateAfter(s, steps) == StateAfter(StateAfter(s, steps[..i]), steps[i..])
    decreases |steps|
  {
    hide Do;
    if i == 0 {
      assert steps[..0] == [] && steps[0..] == steps;
    } else {
      assert steps[..i][0] == steps[0] && steps[..i][1..] == steps[1..][..i - 1] && steps[1..][i - 1..] == steps[i..];
      StateAfterSplit(Do(s, steps[0]).state, steps[1..], i - 1);
    }
  }

  /** The version and sequence id after a run are those the last acknowledged request asked for: nothing
      after it moves them, and a value beyond 32 bits leaves what was there. */
  lemma VersionIsLastAsked(s: ManagedState, steps: seq<Step>, i: nat)
    requires i < |steps| && Acknowledged(StateAfter(s, steps[..i]), steps[i])
    requires NoneAcknowledged(StateAfter(s, steps[..i + 1]), steps[i + 1..])
    ensures var (before, after) := (StateAfter(s, steps[..i]), StateAfter(s, steps));
            exists body: Body, v: int64, id: int64 ::
              && steps[i].payload.Json? && steps[i].payload.body == Some(body)
              && AsksFor(body, before.configVersion, v) && body.sequenceId == Some(id)
              && after == before.(configVersion := if 0 <= v < TWO_32 then Some(v) else before.configVersion,
                                  sequenceId := if 0 <= id < TWO_32 then Some(id) else before.sequenceId)
  {
    var before, step := StateAfter(s, steps[..i]), steps[i];
    OnlyAcknowledgementsMove(before, step);
    SetAnswered(before, step.payload, step.applied, step.sendOk);
    var m := Do(before, step).message.value;
    assert AsksFor(step.payload.body.value, before.configVersion, m.version);
    assert StateAfter(before, [step]) == Do(before, step).state by { assert [step][1..] == []; }
    hide Do, AsksFor, Honoured;
    assert steps[..i + 1][i..] == [step] && steps[..i + 1][..i] == steps[..i];
    StateAfterSplit(s, steps[..i + 1], i);
    StateAfterSplit(s, steps, i + 1);
    NothingMoves(StateAfter(s, steps[..i + 1]), steps[i + 1..]);
  }

  /** The other requests leave the state alone. What they get back repeats their numbers, and forgetting
      is asked of the daemon exactly when the answer got across. */
  lemma OthersAnswered(s: ManagedState, p: Payload, applied: Option<ApplyResult>, sendOk: bool)
    ensures var h := Handle(s, p, applied, sendOk);
            var t := if p.Json? then p.Type() else None;
            var silent := RequestResult(true, Ignored, false, false, false, false, false, None, None);
            && (t.None? ==> h == Handled(s, FAILED, None) && !FAILED.ok && !FAILED.shouldEndSession)
            && (t == Some(GET_REQUEST) ==>
                  && h.state == s
                  && h.message == (if p.body.Some? && p.body.value.sequenceId.Some?
                                   then Some(GetResponse(p.Seq(), s.controllerId, p.body.value.sequenceId.value)) else None)
                  && h.result == if h.message.Some? && sendOk
                       then silent.(action := GetAnswered, responseSent := true, sequenceId := p.body.value.sequenceId) else FAILED)
            && (t == Some(NOTIFY_REQUEST) || t == Some(NOTIFY_REQUEST_V2) ==>
                  && h.state == s
                  && h.message == (if p.body.Some? && p.body.value.noReply == Some(1) then None
                                   else Some(NotifyReply(p.Seq(), s.controllerId, t == Some(NOTIFY_REQUEST_V2))))
                  && h.result == if h.message.None? then silent.(action := NotifyUnanswered)
                       else if sendOk then silent.(action := NotifyAnswered, responseSent := true) else FAILED)
            && (t == Some(FORGET_REQUEST) || t == Some(FORGET_REQUEST_NO_RESET) ==>
                  && h.state == s
                  && h.message == Some(ForgetResponse(s.controllerId, t == Some(FORGET_REQUEST_NO_RESET)))
                  && h.result == if sendOk
                       then silent.(action := Forgotten, responseSent := true, shouldClearState := true, shouldEndSession := true) else FAILED)
            && (t.Some? && t.value !in {SET_REQUEST, GET_REQUEST, NOTIFY_REQUEST, NOTIFY_REQUEST_V2, EVENT_PORTAL_AUTH, FORGET_REQUEST,
                                        FORGET_REQUEST_NO_RESET} ==>
                  h == Handled(s, silent, None))
  {
  }

  /* ---- runs of increments ---- */

  ghost predicate IncrementsOnly(steps: seq<Step>) {
    forall step :: step in steps && step.payload.Json? && step.payload.Type() == Some(SET_REQUEST) && step.payload.body.Some? ==>
      step.payload.body.value.configVersion.None?
  }

  /** The increment a step acknowledges, when the resulting version fits 32 bits. */
  function Gain(s: ManagedState, step: Step): int {
    var sent := SentIn(s, step);
    if sent != [] && Acknowledges(sent[0]) && FitsU32(sent[0].version) && step.payload.Json? && step.payload.body.Some?
    then step.payload.body.value.configVersionInc.GetOr(0) else 0
  }

  function Gains(s: ManagedState, steps: seq<Step>): int
    decreases |steps|
  {
    if steps == [] then 0 else Gain(s, steps[0]) + Gains(Do(s, steps[0]).state, steps[1..])
  }

  lemma WrappedIsOutOfRange(current: uint32, inc: int64)
    requires inc >= 0 && FitsU32(WrapI64(current + inc))
    ensures WrapI64(current + inc) == current + inc
  {
  }

  lemma StepGain(s: ManagedState, step: Step)
    requires s.configVersion.Some? && IncrementsOnly([step])
    ensures Do(s, step).state.configVersion == Some(s.configVersion.value + Gain(s, step)) && Gain(s, step) >= 0
  {
    assert step in [step];
    var sent, p := SentIn(s, step), step.payload;
    if sent != [] && Acknowledges(sent[0]) {
      var inc := p.body.value.configVersionInc;
      assert sent[0].version == WrapI64(s.configVersion.value + inc.value);
      if FitsU32(sent[0].version) { WrappedIsOutOfRange(s.configVersion.value, inc.value); }
    }
  }

  /** From a known version, a run of increments ends at the start plus the increments acknowledged
      in range, and the version never goes down on the way. */
  lemma {:induction false} IncrementsAddUp(s: ManagedState, steps: seq<Step>)
    requires s.configVersion.Some? && IncrementsOnly(steps)
    ensures StateAfter(s, steps).configVersion == Some(s.configVersion.value + Gains(s, steps))
    ensures Gains(s, steps) >= 0
    ensures forall i :: 0 <= i <= |steps| ==>
              var v := StateAfter(s, steps[..i]).configVersion;
              v.Some? && s.configVersion.value <= v.value <= StateAfter(s, steps).configVersion.value
    decreases |steps|
  {
    if steps != [] {
      var next := Do(s, steps[0]).state;
      StepGain(s, steps[0]);
      hide Do, Gain;
      IncrementsAddUp(next, steps[1..]);
      forall i | 0 <= i <= |steps|
        ensures var v := StateAfter(s, steps[..i]).configVersion;
                v.Some? && s.configVersion.value <= v.value <= StateAfter(s, steps).configVersion.value
      {
        if i > 0 {
          assert steps[..i][0] == steps[0] && steps[..i][1..] == steps[1..][..i - 1];
        }
      }
    }
  }

  /* ---- acknowledgements ---- */

  /** An acknowledgement of an actionable SET_REQUEST means the applier said yes; a refusal leaves
      version and sequence id alone. */
  lemma AcknowledgedMeansApplied(s: ManagedState, p: Payload, applied: Option<ApplyResult>, sendOk: bool)
    requires p.Json? && p.Type() == Some(SET_REQUEST)
    ensures var h := Handle(s, p, applied, sendOk);
            && (h.message.Some? ==> h.message.value.SetResponse?)
            && (h.message.Some? && h.message.value.errcode == CONFIG_OK && AsksToApply(p) ==> applied.Some? && applied.value.ok)
            && (h.message.Some? && h.message.value.errcode != CONFIG_OK ==>
                  h.message.value.errcode == CONFIG_ERROR && h.state == s
                  && (s.configVersion.Some? ==> h.message.value.version == s.configVersion.value))
            && (!sendOk ==> h.state == s)
  {
  }

  /** With the composite applier in place: errcode 0 means every member ran, in order, and agreed;
      errcode 1 for an understood request means the members up to the first refusal ran, no other. */
  lemma HonestAcknowledgement(s: ManagedState, p: Payload, appliers: seq<Option<Member>>, outcome: Oracle, calls: nat, sendOk: bool)
    requires p.Json? && p.Type() == Some(SET_REQUEST) && AsksToApply(p)
    ensures var run, live := RunFrom(appliers, 0, p.config.update, outcome, calls), Live(appliers, 0);
            var h := Handle(s, p, Some(Combined(run.results)), sendOk);
            && (h.message.Some? && h.message.value.errcode == CONFIG_OK ==>
                  && |run.results| == |live| && run.platforms == Platforms(live)
                  && forall k :: 0 <= k < |live| ==> run.results[k].ok)
            && (h.message.Some? && h.message.value.errcode != CONFIG_OK ==>
                  && 0 < |run.results| <= |live| && run.platforms == Platforms(live[..|run.results|])
                  && !run.results[|run.results| - 1].ok
                  && (forall k :: 0 <= k < |run.results| - 1 ==> run.results[k].ok)
                  && h.state == s)
  {
    HonestComposite(appliers, p.config.update, outcome, calls);
    hide RunFrom, Live, Platforms, Combined;
  }

  /** The applier runs before the request's version fields are looked at: an actionable request
      gets an answer exactly when those fields are usable, but is applied either way. */
  lemma AppliedEvenIfUnanswerable(s: ManagedState, p: Payload, applied: Option<ApplyResult>, sendOk: bool)
    requires p.Json? && p.Type() == Some(SET_REQUEST) && AsksToApply(p)
    ensures CallsApplier(p)
    ensures Handle(s, p, applied, sendOk).message.Some? <==>
            && p.body.Some? && p.body.value.sequenceId.Some?
            && (p.body.value.configVersion.Some?
                || (p.body.value.configVersionInc.Some? && s.configVersion.Some? && p.body.value.configVersionInc.value >= 0))
  {
  }

  /** The event parsed, and what it asks for, if anything, was applied. */
  ghost predicate PortalHonoured(p: Payload, applied: Option<ApplyResult>)
    requires p.Json?
  {
    p.portal.ConfigUpdate? && (p.portal.update.clientConfigs != [] ==> applied.Some? && applied.value.ok)
  }

  /** A portal authentication event moves no state and is answered exactly when its header carries a
      sequence number, which the answer repeats, with error code 0 exactly when it was honoured; but it
      is applied either way. Only an answer that does not go out makes it fail. */
  lemma PortalAnswered(s: ManagedState, p: Payload, applied: Option<ApplyResult>, sendOk: bool)
    requires p.Json? && p.Type() == Some(EVENT_PORTAL_AUTH)
    ensures var (h, seqNo) := (Handle(s, p, applied, sendOk), p.Seq());
            var active := PortalHonoured(p, applied) && p.portal.update.clientConfigs != [];
            && h.state == s
            && h.message == (if seqNo.Some?
                             then Some(PortalAuthResponse(seqNo, s.controllerId, if PortalHonoured(p, applied) then 0 else 1)) else None)
            && h.result == if seqNo.Some? && !sendOk then FAILED
                 else RequestResult(true, Action.PortalAnswered, seqNo.Some?, false, false, active, active && applied.value.changed, None,
                                    if seqNo.Some? then Some(seqNo.value) else None)
    ensures CallsApplier(p) <==> p.portal.ConfigUpdate? && p.portal.update.clientConfigs != []
  {
  }

  /** With the composite in place: error code 0 for an event about clients means every member ran, in
      order, and agreed; error code 1 means exactly those up to the first refusal ran. An event that
      did not parse is refused, and one about no client accepted, without any member running. */
  lemma HonestPortalAnswer(s: ManagedState, p: Payload, appliers: seq<Option<Member>>, outcome: Oracle, calls: nat, sendOk: bool)
    requires p.Json? && p.Type() == Some(EVENT_PORTAL_AUTH) && p.Seq().Some?
    ensures var run := if CallsApplier(p) then RunFrom(appliers, 0, p.portal.update, outcome, calls) else Run([], []);
            var live := Live(appliers, 0);
            var h := Handle(s, p, Some(Combined(run.results)), sendOk);
            var refused := h.message.value.errcode != CONFIG_OK;
            && h.message.Some? && h.message.value.PortalAuthResponse?
            && (!CallsApplier(p) ==> (refused <==> p.portal.ConfigError?))
            && (CallsApplier(p) && !refused ==>
                  && |run.results| == |live| && run.platforms == Platforms(live)
                  && forall k :: 0 <= k < |live| ==> run.results[k].ok)
            && (CallsApplier(p) && refused ==>
                  && 0 < |run.results| <= |live| && run.platforms == Platforms(live[..|run.results|])
                  && !run.results[|run.results| - 1].ok
                  && forall k :: 0 <= k < |run.results| - 1 ==> run.results[k].ok)
            && (h.result.configurationChanged ==> !refused && CallsApplier(p) && Combined(run.results).changed)
  {
    if CallsApplier(p) { HonestComposite(appliers, p.portal.update, outcome, calls); }
    hide RunFrom, Live, Platforms;
    assert Combined([]).ok;
  }
}
