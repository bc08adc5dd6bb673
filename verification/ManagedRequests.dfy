/** Handling of the controller's requests in a managed session: what is answered, when the
    configuration appliers run, and how the local configuration version moves. */
module ManagedRequests {
  import opened Wrappers
  import opened FixedWidth
  import opened Config
  import opened Protocol
  import opened Appliers

  datatype ManagedState = ManagedState(
    version: uint32,
    mac: string,
    controllerHost: string,
    controllerId: string,
    managePort: uint16,
    siteId: string,
    username: string,
    configVersion: Option<uint32>,
    sequenceId: Option<uint32>,
    updatedAt: uint64)

  const CONFIG_OK: int64 := 0
  const CONFIG_ERROR: int64 := 1

  datatype Action = Ignored | SetAnswered | GetAnswered | NotifyAnswered | NotifyUnanswered | Forgotten | PortalAnswered

  datatype RequestResult = RequestResult(
    ok: bool,
    action: Action,
    responseSent: bool,
    shouldClearState: bool,
    shouldEndSession: bool,
    configurationApplied: bool,
    configurationChanged: bool,
    configVersion: Option<int64>,
    sequenceId: Option<int64>)

  const FAILED := RequestResult(false, Ignored, false, false, false, false, false, None, None)

  function Done(action: Action): RequestResult {
    RequestResult(true, action, false, false, false, false, false, None, None)
  }

  /* ---- SET_REQUEST ---- */

  predicate Understood(p: Payload)
    requires p.Json?
  {
    p.config.ConfigUpdate? && p.config.update.unhandledKeys == []
  }

  /** Whether a SET_REQUEST asks for something to be applied. */
  predicate AsksToApply(p: Payload)
    requires p.Json?
  {
    Understood(p) && p.config.update.Actionable()
  }

  /** The error code of the response; `applied` is the applier's result, None without an applier. */
  function SetErrcode(p: Payload, applied: Option<ApplyResult>): int64
    requires p.Json?
  {
    if !Understood(p) then CONFIG_ERROR
    else if AsksToApply(p) && (applied.None? || !applied.value.ok) then CONFIG_ERROR
    else CONFIG_OK
  }

  datatype SetBody = SetBody(sequenceId: int64, version: int64)

  /** The version a SET_REQUEST moves to, when it names one. Increments are added in 64 bits. */
  function AppliedVersion(body: Body, current: Option<uint32>): Option<int64> {
    if body.configVersion.Some? then Some(body.configVersion.value)
    else if body.configVersionInc.None? || current.None? || body.configVersionInc.value < 0 then None
    else Some(WrapI64(current.value + body.configVersionInc.value))
  }

  /** build_set_response_body_json */
  function SetResponseBody(p: Payload, current: Option<uint32>, errcode: int64): Option<SetBody>
    requires p.Json?
  {
    if p.body.None? || p.body.value.sequenceId.None? then None
    else
      var applied := AppliedVersion(p.body.value, current);
      if applied.None? then None
      else Some(SetBody(p.body.value.sequenceId.value,
                        if errcode != CONFIG_OK && current.Some? then current.value else applied.value))
  }

  predicate FitsU32(n: int64) { 0 <= n < TWO_32 }

  function Adopted(n: int64, current: Option<uint32>): Option<uint32> { if FitsU32(n) then Some(n) else current }

  /** What one request does: the state after it, the result, and the message it tries to send. */
  datatype Handled = Handled(state: ManagedState, result: RequestResult, message: Option<Outbound>)

  function HandleSet(s: ManagedState, p: Payload, applied: Option<ApplyResult>, sendOk: bool): Handled
    requires p.Json?
  {
    var errcode := SetErrcode(p, applied);
    var body := SetResponseBody(p, s.configVersion, errcode);
    if body.None? then Handled(s, FAILED, None)
    else
      var b := body.value;
      var message := Some(SetResponse(p.Seq(), s.controllerId, b.sequenceId, errcode, b.version));
      if !sendOk then Handled(s, FAILED, message)
      else
        var active := errcode == CONFIG_OK && p.config.update.Actionable();
        var result := Done(SetAnswered).(responseSent := true, configurationApplied := active, configurationChanged := active,
                                         configVersion := Some(b.version), sequenceId := Some(b.sequenceId));
        Handled(
          if errcode == CONFIG_OK then
            s.(configVersion := Adopted(b.version, s.configVersion), sequenceId := Adopted(b.sequenceId, s.sequenceId))
          else s,
          result, message)
  }

  /* ---- the other requests ---- */

  function HandleGet(s: ManagedState, p: Payload, sendOk: bool): Handled
    requires p.Json?
  {
    if p.body.None? || p.body.value.sequenceId.None? then Handled(s, FAILED, None)
    else
      var id := p.body.value.sequenceId.value;
      var message := Some(GetResponse(p.Seq(), s.controllerId, id));
      Handled(s, if sendOk then Done(GetAnswered).(responseSent := true, sequenceId := Some(id)) else FAILED, message)
  }

  function HandleNotify(s: ManagedState, p: Payload, v2: bool, sendOk: bool): Handled
    requires p.Json?
  {
    if p.body.Some? && p.body.value.noReply == Some(1) then Handled(s, Done(NotifyUnanswered), None)
    else
      Handled(s, if sendOk then Done(NotifyAnswered).(responseSent := true) else FAILED,
              Some(NotifyReply(p.Seq(), s.controllerId, v2)))
  }

  predicate PortalAsksToApply(p: Payload)
    requires p.Json?
  {
    p.portal.ConfigUpdate? && p.portal.update.clientConfigs != []
  }

  function PortalErrcode(p: Payload, applied: Option<ApplyResult>): int64
    requires p.Json?
  {
    if p.portal.ConfigError? then CONFIG_ERROR
    else if PortalAsksToApply(p) && (applied.None? || !applied.value.ok) then CONFIG_ERROR
    else CONFIG_OK
  }

  function HandlePortal(s: ManagedState, p: Payload, applied: Option<ApplyResult>, sendOk: bool): Handled
    requires p.Json?
  {
    var errcode := PortalErrcode(p, applied);
    var active := errcode == CONFIG_OK && PortalAsksToApply(p);
    var seqNo := p.Seq();
    var id: Option<int64> := if seqNo.Some? then Some(seqNo.value) else None;
    var result := Done(PortalAnswered).(sequenceId := id, configurationApplied := active,
                                        configurationChanged := active && applied.Some? && applied.value.changed);
    if seqNo.None? then Handled(s, result, None)
    else
      Handled(s, if sendOk then result.(responseSent := true) else FAILED,
              Some(PortalAuthResponse(seqNo, s.controllerId, errcode)))
  }

  function HandleForget(s: ManagedState, noReset: bool, sendOk: bool): Handled {
    Handled(s,
            if sendOk then Done(Forgotten).(responseSent := true, shouldClearState := true, shouldEndSession := true) else FAILED,
            Some(ForgetResponse(s.controllerId, noReset)))
  }

  /** Whether the applier is called for a request. */
  predicate CallsApplier(p: Payload) {
    p.Json? &&
    ((p.Type() == Some(SET_REQUEST) && AsksToApply(p)) || (p.Type() == Some(EVENT_PORTAL_AUTH) && PortalAsksToApply(p)))
  }

  /** handle_managed_request */
  function Handle(s: ManagedState, p: Payload, applied: Option<ApplyResult>, sendOk: bool): Handled {
    if p.NotJson? || p.Type().None? then Handled(s, FAILED, None)
    else
      var t := p.Type().value;
      if t == SET_REQUEST then HandleSet(s, p, applied, sendOk)
      else if t == GET_REQUEST then HandleGet(s, p, sendOk)
      else if t == NOTIFY_REQUEST || t == NOTIFY_REQUEST_V2 then HandleNotify(s, p, t == NOTIFY_REQUEST_V2, sendOk)
      else if t == EVENT_PORTAL_AUTH then HandlePortal(s, p, applied, sendOk)
      else if t == FORGET_REQUEST || t == FORGET_REQUEST_NO_RESET then HandleForget(s, t == FORGET_REQUEST_NO_RESET, sendOk)
      else Handled(s, Done(Ignored), None)
  }

  class ManagedSession {
    const transport: Transport
    var state: ManagedState

    constructor (transport: Transport, state: ManagedState)
      ensures this.transport == transport && this.state == state
    {
      this.transport, this.state := transport, state;
    }

    // send the reply, if there is one, and report whether that went well
    method Send(message: Option<Outbound>) returns (ok: bool)
      modifies transport`sends, transport`sent
      ensures message.None? ==> ok && transport.sends == old(transport.sends) && transport.sent == old(transport.sent)
      ensures message.Some? ==>
                ok == transport.sendOk(old(transport.sends)) && transport.sends == old(transport.sends) + 1
                && transport.sent == if ok then old(transport.sent) + [message.value] else old(transport.sent)
    {
      if message.None? {
        return true;
      }
      ok := transport.SendPayload(message.value);
    }

    // the response to a SET_REQUEST, and what its success means for the local state
    method AnswerSet(p: Payload, applied: Option<ApplyResult>) returns (result: RequestResult)
      requires p.Json?
      modifies this`state, transport`sends, transport`sent
      ensures var sendOk := transport.sendOk(old(transport.sends));
              var handled := HandleSet(old(state), p, applied, sendOk);
              && result == handled.result && state == handled.state
              && transport.sends == old(transport.sends) + (if handled.message.Some? then 1 else 0)
              && transport.sent == old(transport.sent)
                                   + (if handled.message.Some? && sendOk then [handled.message.value] else [])
    {
      var errcode := SetErrcode(p, applied);
      var body := SetResponseBody(p, state.configVersion, errcode);
      if body.None? {
        assert transport.sent + [] == transport.sent;
        return FAILED;
      }
      var ok := Send(Some(SetResponse(p.Seq(), state.controllerId, body.value.sequenceId, errcode, body.value.version)));
      if !ok {
        return FAILED;
      }
      var active := errcode == CONFIG_OK && p.config.update.Actionable();
      result := Done(SetAnswered).(responseSent := true, configurationApplied := active, configurationChanged := active,
                                   configVersion := Some(body.value.version), sequenceId := Some(body.value.sequenceId));
      if errcode == CONFIG_OK {
        if FitsU32(body.value.version) {
          state := state.(configVersion := Some(body.value.version));
        }
        if FitsU32(body.value.sequenceId) {
          state := state.(sequenceId := Some(body.value.sequenceId));
        }
      }
    }

    method AnswerPortal(p: Payload, applied: Option<ApplyResult>) returns (result: RequestResult)
      requires p.Json?
      modifies transport`sends, transport`sent
      ensures var sendOk := transport.sendOk(old(transport.sends));
              var handled := HandlePortal(state, p, applied, sendOk);
              && result == handled.result && state == handled.state
              && transport.sends == old(transport.sends) + (if handled.message.Some? then 1 else 0)
              && transport.sent == old(transport.sent)
                                   + (if handled.message.Some? && sendOk then [handled.message.value] else [])
    {
      assert transport.sent + [] == transport.sent;
      var errcode := CONFIG_OK;
      if p.portal.ConfigError? {
        errcode := CONFIG_ERROR;
      } else if p.portal.update.clientConfigs != [] {
        if applied.None? || !applied.value.ok {
          errcode := CONFIG_ERROR;
        }
      }
      var active := errcode == CONFIG_OK && p.portal.ConfigUpdate? && p.portal.update.clientConfigs != [];
      result := Done(PortalAnswered).(configurationApplied := active,
                                      configurationChanged := active && applied.Some? && applied.value.changed);
      if p.Seq().None? {
        return;
      }
      result := result.(sequenceId := Some(p.Seq().value));
      var ok := Send(Some(PortalAuthResponse(p.Seq(), state.controllerId, errcode)));
      if !ok {
        return FAILED;
      }
      result := result.(responseSent := true);
    }

    // requests that are answered, or ignored, without an applier
    method AnswerOther(p: Payload) returns (result: RequestResult)
      requires p.Json? && p.Type().Some? && p.Type().value != SET_REQUEST && p.Type().value != EVENT_PORTAL_AUTH
      modifies transport`sends, transport`sent
      ensures forall applied ::
                var sendOk := transport.sendOk(old(transport.sends));
                var handled := Handle(state, p, applied, sendOk);
                && result == handled.result && state == handled.state
                && transport.sends == old(transport.sends) + (if handled.message.Some? then 1 else 0)
                && transport.sent == old(transport.sent)
                                     + (if handled.message.Some? && sendOk then [handled.message.value] else [])
    {
      hide HandleSet, HandlePortal;
      assert transport.sent + [] == transport.sent;
      var t, ok := p.Type().value, true;
      if t == GET_REQUEST {
        if p.body.None? || p.body.value.sequenceId.None? {
          return FAILED;
        }
        var id := p.body.value.sequenceId;
        ok := Send(Some(GetResponse(p.Seq(), state.controllerId, id.value)));
        result := Done(GetAnswered).(responseSent := true, sequenceId := id);
      } else if t == NOTIFY_REQUEST || t == NOTIFY_REQUEST_V2 {
        if p.body.Some? && p.body.value.noReply == Some(1) {
          return Done(NotifyUnanswered);
        }
        ok := Send(Some(NotifyReply(p.Seq(), state.controllerId, t == NOTIFY_REQUEST_V2)));
        result := Done(NotifyAnswered).(responseSent := true);
      } else if t == FORGET_REQUEST || t == FORGET_REQUEST_NO_RESET {
        ok := Send(Some(ForgetResponse(state.controllerId, t == FORGET_REQUEST_NO_RESET)));
        result := Done(Forgotten).(responseSent := true, shouldClearState := true, shouldEndSession := true);
      } else {
        return Done(Ignored);
      }
      if !ok {
        return FAILED;
      }
    }

    method HandleRequest(p: Payload, applier: CompositeApplier?) returns (result: RequestResult)
      modifies this`state, transport`sends, transport`sent
      modifies if applier == null then {} else {applier}
      ensures applier != null ==> applier.appliers == old(applier.appliers)
      ensures var update := if CallsApplier(p) && p.Type() == Some(SET_REQUEST) then p.config.update
                            else if CallsApplier(p) then p.portal.update else NO_UPDATE;
              var run := if applier == null || !CallsApplier(p) then Run([], [])
                         else RunFrom(old(applier.appliers), 0, update, applier.outcome, |old(applier.log)|);
              var applied := if applier == null then None else Some(Combined(run.results));
              var sendOk := transport.sendOk(old(transport.sends));
              var handled := Handle(old(state), p, applied, sendOk);
              && (applier != null ==> applier.log == old(applier.log) + run.platforms)
              && result == handled.result && state == handled.state
              && transport.sends == old(transport.sends) + (if handled.message.Some? then 1 else 0)
              && transport.sent == old(transport.sent)
                                   + (if handled.message.Some? && sendOk then [handled.message.value] else [])
    {
      ghost var before := transport.sent;
      assert before + [] == before;
      hide HandleSet, HandlePortal, SetErrcode, SetResponseBody, PortalErrcode, RunFrom, Combined;
      if p.NotJson? || p.Type().None? {
        return FAILED;
      }
      var t := p.Type().value;
      if t == SET_REQUEST {
        var applied: Option<ApplyResult> := if applier == null then None else Some(ApplyResult(true, false, ""));
        if AsksToApply(p) && applier != null {
          var r := applier.Apply(p.config.update);
          applied := Some(r);
        }
        result := AnswerSet(p, applied);
      } else if t == EVENT_PORTAL_AUTH {
        var applied: Option<ApplyResult> := if applier == null then None else Some(ApplyResult(true, false, ""));
        if PortalAsksToApply(p) && applier != null {
          var r := applier.Apply(p.portal.update);
          applied := Some(r);
        }
        result := AnswerPortal(p, applied);
      } else {
        result := AnswerOther(p);
      }
    }
  }

  const NO_UPDATE := Update([], [], None, None, 0, false, false, [], 0, false, [])
}
