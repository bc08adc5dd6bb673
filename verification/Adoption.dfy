/** The five-message adoption handshake against an arbitrary controller. */
module Adoption {
  import opened Wrappers
  import opened FixedWidth
  import opened Text
  import opened Protocol

  datatype AdoptionError =
    | NoError
    | MissingControllerId
    | SendFailed
    | ReceiveFailed
    | InvalidJson
    | UnexpectedMessage
    | RejectedPreConnect
    | MissingRandomKey
    | MissingUsername
    | MissingPassword
    | UnsupportedCipher
    | RejectedDeviceVerify
    | MissingControllerAuth
    | ControllerAuthMismatch
    | RejectedSystemVerify
    | RejectedNegotiation
    | RejectedInitSync

  /** The settings, options and oracles of one handshake; `proof` is the hash both sides
      authenticate with, applied to user name, password and random key. */
  datatype Env = Env(
    controllerId: string,
    username: string,
    password: string,
    cipherType: uint32,
    managedReconnect: bool,
    knownVersion: Option<uint32>,
    systemKey: string,
    proof: (string, string, string) -> string)

  datatype AdoptionResult = AdoptionResult(
    ok: bool,
    reachedSystemVerify: bool,
    initialSyncComplete: bool,
    error: AdoptionError,
    controllerId: string,
    username: string,
    configVersion: Option<uint32>,
    sequenceId: Option<uint32>,
    lastSeq: uint32)

  function Failure(error: AdoptionError, controllerId: string, username: string): AdoptionResult {
    AdoptionResult(false, false, false, error, controllerId, username, None, None, 0)
  }

  /* ---- receive_until ---- */

  const MAX_SKIPPED: nat := 8

  datatype Got = Reply(payload: Payload) | NoReply(error: AdoptionError)

  /** A message is passed over when it is well formed and of another type. */
  predicate Skipped(m: Incoming, expected: uint32) {
    m.Message? && m.payload.Json? && m.payload.Type().Some? && m.payload.Type() != Some(expected)
  }

  /** What a message that is not passed over makes of the stage. */
  function Answer(m: Incoming): Got {
    match m
    case ReceiveError(_) => NoReply(ReceiveFailed)
    case Message(p) => if p.NotJson? || p.Type().None? then NoReply(InvalidJson) else Reply(p)
  }

  /** The outcome of waiting for a message with `budget` receive calls left, and the position after it. */
  function Await(inbound: nat -> Incoming, at: nat, expected: uint32, budget: nat): (r: (Got, nat))
    ensures at <= r.1 <= at + budget
    decreases budget
  {
    if budget == 0 then (NoReply(UnexpectedMessage), at)
    else if Skipped(inbound(at), expected) then Await(inbound, at + 1, expected, budget - 1)
    else (Answer(inbound(at)), at + 1)
  }

  method ReceiveUntil(transport: Transport, expected: uint32) returns (got: Got)
    modifies transport`received
    ensures (got, transport.received) == Await(transport.inbound, old(transport.received), expected, MAX_SKIPPED + 1)
  {
    var skipped := 0;
    while skipped <= MAX_SKIPPED
      invariant 0 <= skipped <= MAX_SKIPPED + 1
      invariant Await(transport.inbound, transport.received, expected, MAX_SKIPPED + 1 - skipped)
             == Await(transport.inbound, old(transport.received), expected, MAX_SKIPPED + 1)
    {
      var received := transport.ReceivePayload();
      if received.ReceiveError? {
        return NoReply(ReceiveFailed);
      }
      if received.payload.NotJson? {
        return NoReply(InvalidJson);
      }
      var type_ := received.payload.Type();
      if type_.None? {
        return NoReply(InvalidJson);
      }
      if type_.value == expected {
        return Reply(received.payload);
      }
      skipped := skipped + 1;
    }
    return NoReply(UnexpectedMessage);
  }

  /* ---- the handshake ---- */

  function Expected(stage: nat): uint32
    requires stage < 5
  {
    if stage == 0 then PRE_CONNECT_INFO_RESPONSE
    else if stage == 1 then DEVICE_VERIFY_RESPONSE
    else if stage == 2 then VERIFY_RESULT_ACK
    else if stage == 3 then SYSTEM_NEGOTIATION
    else INIT_SYNC_RESULT_ACK
  }

  /** Position in the inbound stream before a stage, were all earlier stages waited for. */
  function StageStart(inbound: nat -> Incoming, at: nat, stage: nat): nat
    requires stage <= 5
  {
    if stage == 0 then at
    else Await(inbound, StageStart(inbound, at, stage - 1), Expected(stage - 1), MAX_SKIPPED + 1).1
  }

  function StageGot(inbound: nat -> Incoming, at: nat, stage: nat): Got
    requires stage < 5
  {
    Await(inbound, StageStart(inbound, at, stage), Expected(stage), MAX_SKIPPED + 1).0
  }

  function Gots(inbound: nat -> Incoming, at: nat): (gots: seq<Got>)
    ensures |gots| == 5
  {
    [StageGot(inbound, at, 0), StageGot(inbound, at, 1), StageGot(inbound, at, 2), StageGot(inbound, at, 3),
     StageGot(inbound, at, 4)]
  }

  lemma StageStep(inbound: nat -> Incoming, at: nat, stage: nat)
    requires stage < 5
    ensures Await(inbound, StageStart(inbound, at, stage), Expected(stage), MAX_SKIPPED + 1)
         == (Gots(inbound, at)[stage], StageStart(inbound, at, stage + 1))
  {
  }

  // uint_body_field: negative numbers are dropped, larger ones cut to 32 bits
  function UintField(value: Option<int64>): Option<uint32> {
    if value.None? || value.value < 0 then None else Some(CastU32(value.value))
  }

  function BodyOf(p: Payload): Body
    requires p.Json?
  {
    p.body.GetOr(Body(None, None, None, None, None, None, None, None, None))
  }

  /** The user name in force after the first reply. */
  function Username(env: Env, first: Payload): string
    requires first.Json?
  {
    if env.username != "" then env.username else BodyOf(first).username.GetOr("")
  }

  /** Replies that are no reply of a stage, or carry an error code, end the handshake. */
  function Refusal(got: Got, rejected: AdoptionError): (refusal: Option<AdoptionError>)
    ensures refusal.None? ==> got.Reply? && got.payload.Json?
  {
    if got.NoReply? then Some(got.error)
    else if got.payload.NotJson? || got.payload.Error() != 0 then Some(rejected)
    else None
  }

  /** Why the first reply does not lead to DEVICE_VERIFY_INFO. */
  function HelloRefusal(env: Env, got: Got): (refusal: Option<AdoptionError>)
    ensures refusal.None? ==> got.Reply? && got.payload.Json?
  {
    var refusal := Refusal(got, RejectedPreConnect);
    if refusal.Some? then refusal
    else
      var key := BodyOf(got.payload).randomKey;
      if key.None? || |key.value| < 36 then Some(MissingRandomKey)
      else if Username(env, got.payload) == "" then Some(MissingUsername)
      else if env.password == "" then Some(MissingPassword)
      else if env.cipherType != 5 then Some(UnsupportedCipher)
      else if env.systemKey == "" then Some(MissingRandomKey)
      else None
  }

  // the user name a failure of this stage reports
  function HelloUsername(env: Env, got: Got): string {
    if HelloRefusal(env, got).None? then Username(env, got.payload)
    else if Refusal(got, RejectedPreConnect).Some? then ""
    else if BodyOf(got.payload).randomKey.None? || |BodyOf(got.payload).randomKey.value| < 36 then ""
    else Username(env, got.payload)
  }

  /** Why the second reply does not prove the controller. */
  function VerifyRefusal(env: Env, username: string, got: Got): Option<AdoptionError> {
    var refusal := Refusal(got, RejectedDeviceVerify);
    if refusal.Some? then refusal
    else
      var auth := BodyOf(got.payload).auth;
      if auth.None? then Some(MissingControllerAuth)
      else if Upper(auth.value) != Upper(env.proof(username, env.password, env.systemKey)) then Some(ControllerAuthMismatch)
      else None
  }

  function NegotiationVersion(env: Env): uint32 {
    if env.managedReconnect && env.knownVersion.Some? then env.knownVersion.value else 0
  }

  /** The message sent before a stage, given the replies so far. */
  function Script(env: Env, gots: seq<Got>, stage: nat): Outbound
    requires |gots| == 5 && stage < 5
    requires stage == 1 ==> HelloRefusal(env, gots[0]).None?
  {
    if stage == 0 then PreConnectInfo(1, env.controllerId, env.managedReconnect)
    else if stage == 1 then
      var user := Username(env, gots[0].payload);
      DeviceVerifyInfo(2, env.controllerId,
                       env.proof(user, env.password, BodyOf(gots[0].payload).randomKey.value), env.systemKey)
    else if stage == 2 then SystemVerifyResult(3, env.controllerId)
    else if stage == 3 then DeviceNegotiation(4, env.controllerId, NegotiationVersion(env))
    else InitSyncResult(5, env.controllerId)
  }

  /** Why the reply to a stage ends the handshake. */
  function StageRefusal(env: Env, gots: seq<Got>, stage: nat): Option<AdoptionError>
    requires |gots| == 5 && stage < 5
    requires stage > 0 ==> HelloRefusal(env, gots[0]).None?
  {
    if stage == 0 then HelloRefusal(env, gots[0])
    else if stage == 1 then VerifyRefusal(env, Username(env, gots[0].payload), gots[1])
    else if stage == 2 then Refusal(gots[2], RejectedSystemVerify)
    else if stage == 3 then Refusal(gots[3], RejectedNegotiation)
    else Refusal(gots[4], RejectedInitSync)
  }

  /** Whether the first `stage` stages all went through: sent, answered and accepted. */
  predicate Passed(env: Env, gots: seq<Got>, sendOk: nat -> bool, sends: nat, stage: nat)
    requires |gots| == 5 && stage <= 5
  {
    env.controllerId != "" &&
    (stage > 0 ==>
       && Passed(env, gots, sendOk, sends, stage - 1)
       && sendOk(sends + stage - 1)
       && (stage > 1 ==> HelloRefusal(env, gots[0]).None?)
       && StageRefusal(env, gots, stage - 1).None?)
  }

  /** The number of stages that go through. */
  function Depth(env: Env, gots: seq<Got>, sendOk: nat -> bool, sends: nat, from: nat): (d: nat)
    requires |gots| == 5 && from <= 5 && Passed(env, gots, sendOk, sends, from)
    ensures from <= d <= 5 && Passed(env, gots, sendOk, sends, d)
    ensures d < 5 ==> !Passed(env, gots, sendOk, sends, d + 1)
    decreases 5 - from
  {
    if from == 5 || !Passed(env, gots, sendOk, sends, from + 1) then from
    else Depth(env, gots, sendOk, sends, from + 1)
  }

  /** The messages sent when `count` of them were. */
  function SentUpTo(env: Env, gots: seq<Got>, count: nat): (sent: seq<Outbound>)
    requires |gots| == 5 && count <= 5
    requires count >= 2 ==> HelloRefusal(env, gots[0]).None?
    ensures |sent| == count
  {
    if count == 0 then [] else SentUpTo(env, gots, count - 1) + [Script(env, gots, count - 1)]
  }

  /** What the method returns, and how far it got. */
  datatype Outcome = Outcome(result: AdoptionResult, sent: seq<Outbound>, attempts: nat, stages: nat)

  /** The result fields collected when `stage` stages went through and `sent` messages were sent. */
  function Partial(env: Env, gots: seq<Got>, stage: nat, sent: uint32): AdoptionResult
    requires |gots| == 5 && stage <= 5
    requires stage > 0 ==> HelloRefusal(env, gots[0]).None?
    requires stage > 3 ==> Refusal(gots[3], RejectedNegotiation).None?
  {
    AdoptionResult(
      false, stage >= 3, false, NoError, env.controllerId,
      if stage > 0 then Username(env, gots[0].payload) else "",
      if stage > 3 then UintField(BodyOf(gots[3].payload).versionNumber) else None,
      if stage > 3 then UintField(BodyOf(gots[3].payload).sequenceNumber) else None,
      sent)
  }

  lemma {:induction false} PassedEarlier(env: Env, gots: seq<Got>, sendOk: nat -> bool, sends: nat, stage: nat, k: nat)
    requires |gots| == 5 && k <= stage <= 5 && Passed(env, gots, sendOk, sends, stage)
    ensures Passed(env, gots, sendOk, sends, k)
    ensures stage > 0 ==> HelloRefusal(env, gots[0]).None?
    ensures k < stage ==> sendOk(sends + k) && StageRefusal(env, gots, k).None?
  {
    if stage > 0 {
      if k == stage {
        PassedEarlier(env, gots, sendOk, sends, stage - 1, stage - 1);
      } else if k < stage - 1 {
        PassedEarlier(env, gots, sendOk, sends, stage - 1, k);
      }
    }
  }

  /** The whole handshake, from the replies and the sends. */
  function Handshake(env: Env, gots: seq<Got>, sendOk: nat -> bool, sends: nat): Outcome
    requires |gots| == 5
  {
    if env.controllerId == "" then Outcome(Failure(MissingControllerId, "", ""), [], 0, 0)
    else
      var d := Depth(env, gots, sendOk, sends, 0);
      PassedEarlier(env, gots, sendOk, sends, d, if d > 3 then 3 else 0);
      if d == 5 then
        Outcome(Partial(env, gots, 5, 5).(ok := true, initialSyncComplete := true), SentUpTo(env, gots, 5), 5, 5)
      else if !sendOk(sends + d) then
        Outcome(Partial(env, gots, d, d).(error := SendFailed), SentUpTo(env, gots, d), d + 1, d)
      else
        Outcome(Failure(StageRefusal(env, gots, d).value, env.controllerId, HelloUsername(env, gots[0])),
                SentUpTo(env, gots, d + 1), d + 1, d + 1)
  }

  /** The depth is the one stage count that is passed and not exceeded. */
  lemma DepthIs(env: Env, gots: seq<Got>, sendOk: nat -> bool, sends: nat, d: nat)
    requires |gots| == 5 && d <= 5 && Passed(env, gots, sendOk, sends, d)
    requires d < 5 ==> !Passed(env, gots, sendOk, sends, d + 1)
    ensures Passed(env, gots, sendOk, sends, 0) && Depth(env, gots, sendOk, sends, 0) == d
  {
    PassedEarlier(env, gots, sendOk, sends, d, 0);
    var depth := Depth(env, gots, sendOk, sends, 0);
    if depth < d {
      PassedEarlier(env, gots, sendOk, sends, d, depth + 1);
    } else if d < depth {
      PassedEarlier(env, gots, sendOk, sends, depth, d + 1);
    }
  }

  lemma NoController(env: Env, gots: seq<Got>, sendOk: nat -> bool, sends: nat)
    requires |gots| == 5 && env.controllerId == ""
    ensures Handshake(env, gots, sendOk, sends) == Outcome(Failure(MissingControllerId, "", ""), [], 0, 0)
  {
  }

  lemma Unsent(env: Env, gots: seq<Got>, sendOk: nat -> bool, sends: nat, d: nat)
    requires |gots| == 5 && d < 5 && Passed(env, gots, sendOk, sends, d) && !sendOk(sends + d)
    ensures d > 0 ==> HelloRefusal(env, gots[0]).None?
    ensures d > 3 ==> Refusal(gots[3], RejectedNegotiation).None?
    ensures Handshake(env, gots, sendOk, sends)
         == Outcome(Partial(env, gots, d, d).(error := SendFailed), SentUpTo(env, gots, d), d + 1, d)
  {
    hide HelloRefusal, VerifyRefusal;
    DepthIs(env, gots, sendOk, sends, d);
    PassedEarlier(env, gots, sendOk, sends, d, if d > 3 then 3 else 0);
  }

  lemma Refused(env: Env, gots: seq<Got>, sendOk: nat -> bool, sends: nat, d: nat)
    requires |gots| == 5 && d < 5 && Passed(env, gots, sendOk, sends, d) && sendOk(sends + d)
    requires d > 0 ==> HelloRefusal(env, gots[0]).None?
    requires StageRefusal(env, gots, d).Some?
    ensures Handshake(env, gots, sendOk, sends)
         == Outcome(Failure(StageRefusal(env, gots, d).value, env.controllerId, HelloUsername(env, gots[0])),
                    SentUpTo(env, gots, d + 1), d + 1, d + 1)
  {
    hide HelloRefusal, VerifyRefusal, HelloUsername;
    DepthIs(env, gots, sendOk, sends, d);
  }

  lemma Completed(env: Env, gots: seq<Got>, sendOk: nat -> bool, sends: nat)
    requires |gots| == 5 && Passed(env, gots, sendOk, sends, 5)
    ensures HelloRefusal(env, gots[0]).None? && Refusal(gots[3], RejectedNegotiation).None?
    ensures Handshake(env, gots, sendOk, sends)
         == Outcome(Partial(env, gots, 5, 5).(ok := true, initialSyncComplete := true), SentUpTo(env, gots, 5), 5, 5)
  {
    hide HelloRefusal, VerifyRefusal;
    DepthIs(env, gots, sendOk, sends, 5);
    PassedEarlier(env, gots, sendOk, sends, 5, 3);
  }

  /* ---- the method, stage by stage ---- */

  // the checks on the first reply and on the local settings
  method CheckHello(env: Env, hello: Got) returns (failure: Option<AdoptionResult>, username: string, deviceKey: string)
    ensures failure.Some? <==> HelloRefusal(env, hello).Some?
    ensures failure.Some? ==>
              failure.value == Failure(HelloRefusal(env, hello).value, env.controllerId, HelloUsername(env, hello))
    ensures failure.None? ==> username == Username(env, hello.payload) && BodyOf(hello.payload).randomKey == Some(deviceKey)
  {
    username, deviceKey := "", "";
    if hello.NoReply? {
      return Some(Failure(hello.error, env.controllerId, "")), username, deviceKey;
    }
    if hello.payload.NotJson? || hello.payload.Error() != 0 {
      return Some(Failure(RejectedPreConnect, env.controllerId, "")), username, deviceKey;
    }
    var key := BodyOf(hello.payload).randomKey;
    if key.None? || |key.value| < 36 {
      return Some(Failure(MissingRandomKey, env.controllerId, "")), username, deviceKey;
    }
    deviceKey := key.value;
    username := env.username;
    if username == "" {
      var offered := BodyOf(hello.payload).username;
      if offered.Some? {
        username := offered.value;
      }
    }
    if username == "" {
      return Some(Failure(MissingUsername, env.controllerId, "")), username, deviceKey;
    }
    if env.password == "" {
      return Some(Failure(MissingPassword, env.controllerId, username)), username, deviceKey;
    }
    if env.cipherType != 5 {
      return Some(Failure(UnsupportedCipher, env.controllerId, username)), username, deviceKey;
    }
    if env.systemKey == "" {
      return Some(Failure(MissingRandomKey, env.controllerId, username)), username, deviceKey;
    }
    failure := None;
  }

  // the controller's proof of the Device Account password
  method CheckVerify(env: Env, username: string, verify: Got) returns (failure: Option<AdoptionResult>)
    ensures failure.Some? <==> VerifyRefusal(env, username, verify).Some?
    ensures failure.Some? ==>
              failure.value == Failure(VerifyRefusal(env, username, verify).value, env.controllerId, username)
  {
    failure := CheckAck(env, username, verify, RejectedDeviceVerify);
    if failure.Some? {
      return;
    }
    var auth := BodyOf(verify.payload).auth;
    if auth.None? {
      return Some(Failure(MissingControllerAuth, env.controllerId, username));
    }
    var expectedAuth := env.proof(username, env.password, env.systemKey);
    if Upper(auth.value) != Upper(expectedAuth) {
      return Some(Failure(ControllerAuthMismatch, env.controllerId, username));
    }
  }

  method CheckAck(env: Env, username: string, got: Got, rejected: AdoptionError) returns (failure: Option<AdoptionResult>)
    ensures failure.Some? <==> Refusal(got, rejected).Some?
    ensures failure.Some? ==> failure.value == Failure(Refusal(got, rejected).value, env.controllerId, username)
  {
    if got.NoReply? {
      return Some(Failure(got.error, env.controllerId, username));
    }
    if got.payload.NotJson? || got.payload.Error() != 0 {
      return Some(Failure(rejected, env.controllerId, username));
    }
    failure := None;
  }

  /** Where a handshake that began at `at`, `sends` and `before` stands after `stage` stages. */
  ghost predicate Follows(transport: Transport, env: Env, at: nat, sends: nat, before: seq<Outbound>, stage: nat)
    requires stage <= 5
    reads transport
  {
    var gots := Gots(transport.inbound, at);
    && Passed(env, gots, transport.sendOk, sends, stage)
    && (stage > 0 ==> HelloRefusal(env, gots[0]).None?)
    && (stage > 3 ==> Refusal(gots[3], RejectedNegotiation).None?)
    && transport.received == StageStart(transport.inbound, at, stage)
    && transport.sends == sends + stage
    && transport.sent == before + SentUpTo(env, gots, stage)
  }

  /** What the whole handshake comes to. */
  ghost predicate Ends(transport: Transport, env: Env, at: nat, sends: nat, before: seq<Outbound>, result: AdoptionResult)
    reads transport
  {
    var outcome := Handshake(env, Gots(transport.inbound, at), transport.sendOk, sends);
    && result == outcome.result
    && transport.sent == before + outcome.sent
    && transport.sends == sends + outcome.attempts
    && transport.received == StageStart(transport.inbound, at, outcome.stages)
  }

  lemma NextStage(env: Env, gots: seq<Got>, sendOk: nat -> bool, sends: nat, stage: nat)
    requires |gots| == 5 && stage < 5 && Passed(env, gots, sendOk, sends, stage) && sendOk(sends + stage)
    requires stage > 0 ==> HelloRefusal(env, gots[0]).None?
    requires StageRefusal(env, gots, stage).None?
    ensures HelloRefusal(env, gots[0]).None? && Passed(env, gots, sendOk, sends, stage + 1)
    ensures stage >= 3 ==> Refusal(gots[3], RejectedNegotiation).None?
  {
    hide HelloRefusal, VerifyRefusal;
    PassedEarlier(env, gots, sendOk, sends, stage, if stage > 3 then 3 else 0);
  }

  lemma SentNext(env: Env, gots: seq<Got>, stage: nat, before: seq<Outbound>)
    requires |gots| == 5 && stage < 5 && (stage > 0 ==> HelloRefusal(env, gots[0]).None?)
    ensures before + SentUpTo(env, gots, stage) + [Script(env, gots, stage)] == before + SentUpTo(env, gots, stage + 1)
  {
    hide HelloRefusal, Script;
    Regroup(before, SentUpTo(env, gots, stage), [Script(env, gots, stage)]);
  }

  // one message out and, if it went out, the reply to it
  method Exchange(transport: Transport, env: Env, message: Outbound, expected: uint32,
                  ghost at: nat, ghost sends: nat, ghost before: seq<Outbound>, ghost stage: nat)
    returns (ok: bool, got: Got)
    requires stage < 5 && Follows(transport, env, at, sends, before, stage)
    requires message == Script(env, Gots(transport.inbound, at), stage) && expected == Expected(stage)
    modifies transport`received, transport`sends, transport`sent
    ensures ok == transport.sendOk(sends + stage)
    ensures !ok ==> forall result :: result == Partial(env, Gots(transport.inbound, at), stage, stage).(error := SendFailed)
                      ==> Ends(transport, env, at, sends, before, result)
    ensures ok ==> got == Gots(transport.inbound, at)[stage]
    ensures ok && StageRefusal(env, Gots(transport.inbound, at), stage).None? ==>
              Follows(transport, env, at, sends, before, stage + 1)
    ensures ok && StageRefusal(env, Gots(transport.inbound, at), stage).Some? ==>
              forall result :: result == Failure(StageRefusal(env, Gots(transport.inbound, at), stage).value, env.controllerId,
                                                 HelloUsername(env, Gots(transport.inbound, at)[0]))
                ==> Ends(transport, env, at, sends, before, result)
  {
    ghost var gots := Gots(transport.inbound, at);
    SentNext(env, gots, stage, before);
    hide Refusal, StageRefusal, HelloRefusal, VerifyRefusal, HelloUsername, Gots, StageStart, Await, Script, Handshake, Passed, SentUpTo;
    ok := transport.SendPayload(message);
    if !ok {
      got := NoReply(SendFailed);
      Unsent(env, gots, transport.sendOk, sends, stage);
      return;
    }
    got := ReceiveUntil(transport, expected);
    StageStep(transport.inbound, at, stage);
    if StageRefusal(env, gots, stage).Some? {
      Refused(env, gots, transport.sendOk, sends, stage);
    } else {
      NextStage(env, gots, transport.sendOk, sends, stage);
    }
  }

  method RunInitialSync(transport: Transport, env: Env) returns (result: AdoptionResult)
    modifies transport`received, transport`sends, transport`sent
    ensures Ends(transport, env, old(transport.received), old(transport.sends), old(transport.sent), result)
  {
    ghost var at, sends, before := transport.received, transport.sends, transport.sent;
    ghost var gots := Gots(transport.inbound, at);
    ghost var sendOk := transport.sendOk;
    assert StageStart(transport.inbound, at, 0) == at;
    if env.controllerId == "" {
      NoController(env, gots, sendOk, sends);
      return Failure(MissingControllerId, env.controllerId, "");
    }
    assert Follows(transport, env, at, sends, before, 0);
    result := AdoptionResult(false, false, false, NoError, env.controllerId, "", None, None, 0);
    hide HelloRefusal, VerifyRefusal, HelloUsername, Gots, StageStart, Await, Handshake, Username, Ends, Follows, Passed;

    var seqNo := 1;
    var ok, hello := Exchange(transport, env, PreConnectInfo(seqNo, env.controllerId, env.managedReconnect),
                              PRE_CONNECT_INFO_RESPONSE, at, sends, before, 0);
    if !ok {
      return result.(error := SendFailed);
    }
    result := result.(lastSeq := seqNo);
    var failure, username, deviceKey := CheckHello(env, hello);
    if failure.Some? {
      return failure.value;
    }
    result := result.(username := username);
    HelloUser(env, hello);

    seqNo := seqNo + 1;
    var auth := env.proof(username, env.password, deviceKey);
    var verify;
    ok, verify := Exchange(transport, env, DeviceVerifyInfo(seqNo, env.controllerId, auth, env.systemKey),
                           DEVICE_VERIFY_RESPONSE, at, sends, before, 1);
    if !ok {
      return result.(error := SendFailed);
    }
    result := result.(lastSeq := seqNo);
    failure := CheckVerify(env, username, verify);
    if failure.Some? {
      return failure.value;
    }

    seqNo := seqNo + 1;
    var ack;
    ok, ack := Exchange(transport, env, SystemVerifyResult(seqNo, env.controllerId), VERIFY_RESULT_ACK, at, sends, before, 2);
    if !ok {
      return result.(error := SendFailed);
    }
    result := result.(lastSeq := seqNo);
    failure := CheckAck(env, username, ack, RejectedSystemVerify);
    if failure.Some? {
      return failure.value;
    }
    result := result.(reachedSystemVerify := true);
    result := Synchronise(transport, env, username, result, at, sends, before);
  }

  // the two stages after the controller has acknowledged SYSTEM_VERIFY_RESULT
  method Synchronise(transport: Transport, env: Env, username: string, soFar: AdoptionResult,
                     ghost at: nat, ghost sends: nat, ghost before: seq<Outbound>)
    returns (result: AdoptionResult)
    requires Follows(transport, env, at, sends, before, 3)
    requires username == Username(env, Gots(transport.inbound, at)[0].payload)
    requires soFar == Partial(env, Gots(transport.inbound, at), 3, 3)
    modifies transport`received, transport`sends, transport`sent
    ensures Ends(transport, env, at, sends, before, result)
  {
    HelloUser(env, Gots(transport.inbound, at)[0]);
    hide HelloRefusal, VerifyRefusal, HelloUsername, Gots, StageStart, Await, Handshake, Username, Ends, Follows, Passed;
    result := soFar;
    var seqNo := 4;
    var version: uint32 := if env.managedReconnect && env.knownVersion.Some? then env.knownVersion.value else 0;
    var negotiation;
    var ok;
    ok, negotiation := Exchange(transport, env, DeviceNegotiation(seqNo, env.controllerId, version), SYSTEM_NEGOTIATION,
                                at, sends, before, 3);
    if !ok {
      return result.(error := SendFailed);
    }
    result := result.(lastSeq := seqNo);
    var failure := CheckAck(env, username, negotiation, RejectedNegotiation);
    if failure.Some? {
      return failure.value;
    }
    result := result.(configVersion := UintField(BodyOf(negotiation.payload).versionNumber),
                      sequenceId := UintField(BodyOf(negotiation.payload).sequenceNumber));

    seqNo := seqNo + 1;
    var initAck;
    ok, initAck := Exchange(transport, env, InitSyncResult(seqNo, env.controllerId), INIT_SYNC_RESULT_ACK,
                            at, sends, before, 4);
    if !ok {
      return result.(error := SendFailed);
    }
    result := result.(lastSeq := seqNo);
    failure := CheckAck(env, username, initAck, RejectedInitSync);
    if failure.Some? {
      return failure.value;
    }
    result := result.(ok := true, initialSyncComplete := true, error := NoError);
    Finished(transport, env, at, sends, before, result);
  }

  lemma HelloUser(env: Env, hello: Got)
    requires HelloRefusal(env, hello).None?
    ensures HelloUsername(env, hello) == Username(env, hello.payload)
  {
  }

  lemma Finished(transport: Transport, env: Env, at: nat, sends: nat, before: seq<Outbound>, result: AdoptionResult)
    requires Follows(transport, env, at, sends, before, 5)
    requires result == Partial(env, Gots(transport.inbound, at), 5, 5).(ok := true, initialSyncComplete := true)
    ensures Ends(transport, env, at, sends, before, result)
  {
    hide HelloRefusal, Gots, StageStart, Handshake;
    Completed(env, Gots(transport.inbound, at), transport.sendOk, sends);
  }
}
