/** What the handshake guarantees, for every controller and every pattern of send failures. */
module AdoptionProperties {
  import opened Wrappers
  import opened FixedWidth
  import opened Text
  import opened Protocol
  import opened Adoption

  /* ---- the messages sent ---- */

  /** What the device sends at a stage, as far as its own settings determine it. */
  predicate IsScripted(env: Env, m: Outbound, stage: nat) {
    match stage
    case 0 => m == PreConnectInfo(1, env.controllerId, env.managedReconnect)
    case 1 => m.DeviceVerifyInfo? && m.seqNo == 2 && m.dest == env.controllerId && m.randomKey == env.systemKey
    case 2 => m == SystemVerifyResult(3, env.controllerId)
    case 3 => m == DeviceNegotiation(4, env.controllerId, if env.managedReconnect then env.knownVersion.GetOr(0) else 0)
    case 4 => m == InitSyncResult(5, env.controllerId)
    case _ => false
  }

  lemma {:induction false} SentScripted(env: Env, gots: seq<Got>, count: nat)
    requires |gots| == 5 && count <= 5 && (count >= 2 ==> HelloRefusal(env, gots[0]).None?)
    ensures forall i :: 0 <= i < count ==> IsScripted(env, SentUpTo(env, gots, count)[i], i)
    ensures forall i :: 0 <= i < count && (i == 1 ==> HelloRefusal(env, gots[0]).None?) ==>
              SentUpTo(env, gots, count)[i] == Script(env, gots, i)
  {
    if count > 0 { SentScripted(env, gots, count - 1); }
  }

  /** How the number of sent messages relates to the stages that went through. */
  lemma SentCount(env: Env, gots: seq<Got>, sendOk: nat -> bool, sends: nat)
    requires |gots| == 5 && env.controllerId != ""
    ensures var o, d := Handshake(env, gots, sendOk, sends), Depth(env, gots, sendOk, sends, 0);
            && |o.sent| == (if d == 5 || !sendOk(sends + d) then d else d + 1)
            && (d > 0 ==> HelloRefusal(env, gots[0]).None?)
            && o.sent == SentUpTo(env, gots, |o.sent|)
            && (o.result.ok <==> d == 5)
  {
    hide HelloRefusal, VerifyRefusal, HelloUsername;
    var d := Depth(env, gots, sendOk, sends, 0);
    PassedEarlier(env, gots, sendOk, sends, d, 0);
  }

  /** The sent messages are a prefix of the fixed five, numbered from 1. */
  lemma SendsScriptPrefix(env: Env, gots: seq<Got>, sendOk: nat -> bool, sends: nat)
    requires |gots| == 5
    ensures var sent := Handshake(env, gots, sendOk, sends).sent;
            |sent| <= 5 && forall i :: 0 <= i < |sent| ==> IsScripted(env, sent[i], i)
  {
    if env.controllerId != "" {
      SentCount(env, gots, sendOk, sends);
      hide Handshake, HelloRefusal, Script;
      SentScripted(env, gots, |Handshake(env, gots, sendOk, sends).sent|);
    }
  }

  /** A reply is a message of the awaited type found between this stage's start and the next one's. */
  lemma {:induction false} AwaitedReply(inbound: nat -> Incoming, at: nat, expected: uint32, budget: nat)
    ensures var (got, next) := Await(inbound, at, expected, budget);
            got.Reply? ==>
              got.payload.Json? && got.payload.Type() == Some(expected)
              && exists q :: at <= q < next && inbound(q) == Message(got.payload)
    decreases budget
  {
    if budget > 0 {
      var (got, next) := Await(inbound, at, expected, budget);
      if Skipped(inbound(at), expected) {
        AwaitedReply(inbound, at + 1, expected, budget - 1);
      } else if got.Reply? {
        assert inbound(at) == Message(got.payload);
      }
    }
  }

  /** The reply each message asks for. */
  function ReplyTo(stage: nat): uint32 {
    match stage
    case 0 => PRE_CONNECT_INFO_RESPONSE
    case 1 => DEVICE_VERIFY_RESPONSE
    case 2 => VERIFY_RESULT_ACK
    case 3 => SYSTEM_NEGOTIATION
    case _ => INIT_SYNC_RESULT_ACK
  }

  /** No error code, or one whose low 32 bits are zero. */
  predicate ErrorFree(p: Payload)
    requires p.Json?
  {
    p.headerError.None? || p.headerError.value % TWO_32 == 0
  }

  /** A message in the stream, answering a stage without an error. */
  ghost predicate Accepted(inbound: nat -> Incoming, at: nat, stage: nat, q: nat, p: Payload)
    requires stage < 5
  {
    && StageStart(inbound, at, stage) <= q < StageStart(inbound, at, stage + 1)
    && inbound(q) == Message(p) && p.Json? && p.Type() == Some(ReplyTo(stage)) && ErrorFree(p)
  }

  lemma AcceptedReply(env: Env, inbound: nat -> Incoming, at: nat, sendOk: nat -> bool, sends: nat, depth: nat, stage: nat)
    requires stage < depth <= 5 && Passed(env, Gots(inbound, at), sendOk, sends, depth)
    ensures Gots(inbound, at)[stage].Reply?
    ensures exists q :: Accepted(inbound, at, stage, q, Gots(inbound, at)[stage].payload)
  {
    var gots := Gots(inbound, at);
    PassedEarlier(env, gots, sendOk, sends, depth, stage);
    var got := gots[stage];
    assert got.Reply? && got.payload.Error() == 0;
    AwaitedReply(inbound, StageStart(inbound, at, stage), Expected(stage), MAX_SKIPPED + 1);
    StageStep(inbound, at, stage);
    var q :| StageStart(inbound, at, stage) <= q < StageStart(inbound, at, stage + 1) && inbound(q) == Message(got.payload);
    assert Accepted(inbound, at, stage, q, got.payload);
  }

  /** The name the device goes by: its own, or else the one the controller offers. */
  function UserOf(env: Env, p: Payload): string
    requires p.Json?
  {
    if env.username != "" then env.username
    else if p.body.Some? && p.body.value.username.Some? then p.body.value.username.value
    else ""
  }

  /** A first reply, and settings, that lead on: a key to answer, a name, a password, the one cipher
      that is spoken and a key for the controller to answer. */
  predicate Suffices(env: Env, p: Payload)
    requires p.Json?
  {
    && p.body.Some? && p.body.value.randomKey.Some? && |p.body.value.randomKey.value| >= 36
    && UserOf(env, p) != "" && env.password != "" && env.cipherType == 5 && env.systemKey != ""
  }

  /** A second reply that carries the controller's proof, up to letter case. */
  predicate ProvesController(env: Env, user: string, p: Payload)
    requires p.Json?
  {
    p.body.Some? && p.body.value.auth.Some? && Upper(p.body.value.auth.value) == Upper(env.proof(user, env.password, env.systemKey))
  }

  predicate Clean(got: Got) { got.Reply? && got.payload.Json? && ErrorFree(got.payload) }

  /** The user name a failure reports: none before the first reply has brought a usable key. */
  function NamedUser(env: Env, got: Got): string {
    if !Clean(got) then ""
    else
      var body := got.payload.body;
      if body.Some? && body.value.randomKey.Some? && |body.value.randomKey.value| >= 36 then UserOf(env, got.payload) else ""
  }

  lemma HelloSuffices(env: Env, got: Got)
    ensures HelloUsername(env, got) == NamedUser(env, got)
    ensures HelloRefusal(env, got).None? <==> Clean(got) && Suffices(env, got.payload)
    ensures Clean(got) ==> Username(env, got.payload) == UserOf(env, got.payload)
  {
  }

  lemma VerifyProves(env: Env, user: string, got: Got)
    ensures VerifyRefusal(env, user, got).None? <==> Clean(got) && ProvesController(env, user, got.payload)
  {
    hide Upper;
  }

  /** DEVICE_VERIFY_INFO proves the password over the key in the controller's first reply, for the
      configured user or else the one that reply names, and asks the controller to do the same. */
  lemma DeviceProvesItself(env: Env, inbound: nat -> Incoming, at: nat, sendOk: nat -> bool, sends: nat)
    requires |Handshake(env, Gots(inbound, at), sendOk, sends).sent| >= 2
    ensures exists q, p ::
              && Accepted(inbound, at, 0, q, p) && Suffices(env, p)
              && Handshake(env, Gots(inbound, at), sendOk, sends).sent[1]
                 == DeviceVerifyInfo(2, env.controllerId,
                                     env.proof(UserOf(env, p), env.password, p.body.value.randomKey.value), env.systemKey)
  {
    var gots := Gots(inbound, at);
    assert env.controllerId != "";
    SentCount(env, gots, sendOk, sends);
    var d, sent := Depth(env, gots, sendOk, sends, 0), Handshake(env, gots, sendOk, sends).sent;
    PassedEarlier(env, gots, sendOk, sends, d, 0);
    AcceptedReply(env, inbound, at, sendOk, sends, d, 0);
    SentScripted(env, gots, |sent|);
    HelloSuffices(env, gots[0]);
    hide Handshake, HelloRefusal, Suffices, Gots;
    var q :| Accepted(inbound, at, 0, q, gots[0].payload);
    assert sent[1] == Script(env, gots, 1);
  }

  /** SYSTEM_VERIFY_RESULT, and everything after it, is sent only to a controller whose
      DEVICE_VERIFY_RESPONSE carried the expected proof, up to letter case. */
  lemma VerifiedBeforeResult(env: Env, inbound: nat -> Incoming, at: nat, sendOk: nat -> bool, sends: nat)
    requires |Handshake(env, Gots(inbound, at), sendOk, sends).sent| >= 3
    ensures exists q, p, q', p' ::
              && Accepted(inbound, at, 0, q, p) && Accepted(inbound, at, 1, q', p')
              && Suffices(env, p) && ProvesController(env, UserOf(env, p), p')
  {
    var gots := Gots(inbound, at);
    assert env.controllerId != "";
    SentCount(env, gots, sendOk, sends);
    var d := Depth(env, gots, sendOk, sends, 0);
    PassedEarlier(env, gots, sendOk, sends, d, 0);
    PassedEarlier(env, gots, sendOk, sends, d, 1);
    AcceptedReply(env, inbound, at, sendOk, sends, d, 0);
    AcceptedReply(env, inbound, at, sendOk, sends, d, 1);
    HelloSuffices(env, gots[0]);
    VerifyProves(env, UserOf(env, gots[0].payload), gots[1]);
    hide Handshake, HelloRefusal, VerifyRefusal, Suffices, ProvesController, UserOf, Gots;
    var q :| Accepted(inbound, at, 0, q, gots[0].payload);
    var q' :| Accepted(inbound, at, 1, q', gots[1].payload);
  }

  /** The handshake succeeds exactly when every message goes out, every stage is answered without
      error, the first reply and the settings suffice, and the controller proves itself. */
  lemma SucceedsExactly(env: Env, gots: seq<Got>, sendOk: nat -> bool, sends: nat)
    requires |gots| == 5
    ensures Handshake(env, gots, sendOk, sends).result.ok <==>
            && env.controllerId != ""
            && (forall k :: sends <= k < sends + 5 ==> sendOk(k))
            && (forall k :: 0 <= k < 5 ==> Clean(gots[k]))
            && Suffices(env, gots[0].payload)
            && ProvesController(env, UserOf(env, gots[0].payload), gots[1].payload)
  {
    HelloSuffices(env, gots[0]);
    if Clean(gots[0]) { VerifyProves(env, UserOf(env, gots[0].payload), gots[1]); }
    hide HelloRefusal, VerifyRefusal, Username, UserOf, Suffices, ProvesController;
    assert forall k | 2 <= k < 5 :: HelloRefusal(env, gots[0]).None? ==> (StageRefusal(env, gots, k).None? <==> Clean(gots[k]));
    if env.controllerId != "" {
      SentCount(env, gots, sendOk, sends);
      var ok := Handshake(env, gots, sendOk, sends).result.ok;
      hide Handshake, Refusal;
      if ok {
        forall k | sends <= k < sends + 5 ensures sendOk(k) && StageRefusal(env, gots, k - sends).None? {
          PassedEarlier(env, gots, sendOk, sends, 5, k - sends);
        }
        assert forall k | 0 <= k < 5 :: StageRefusal(env, gots, k) == StageRefusal(env, gots, (sends + k) - sends);
      }
      if HelloRefusal(env, gots[0]).None? && StageRefusal(env, gots, 1).None? && (forall k :: sends <= k < sends + 5 ==> sendOk(k))
         && (forall k | 0 <= k < 5 :: StageRefusal(env, gots, k).None?) {
        AllPassed(env, gots, sendOk, sends, 5);
        DepthIs(env, gots, sendOk, sends, 5);
      }
    }
  }

  lemma {:induction false} AllPassed(env: Env, gots: seq<Got>, sendOk: nat -> bool, sends: nat, stage: nat)
    requires |gots| == 5 && stage <= 5 && env.controllerId != "" && HelloRefusal(env, gots[0]).None?
    requires forall k :: sends <= k < sends + 5 ==> sendOk(k)
    requires forall k | 0 <= k < 5 :: StageRefusal(env, gots, k).None?
    ensures Passed(env, gots, sendOk, sends, stage)
  {
    hide HelloRefusal, StageRefusal;
    if stage > 0 {
      AllPassed(env, gots, sendOk, sends, stage - 1);
      assert sendOk(sends + (stage - 1));
    }
  }

  /** A number of a message as the agent keeps it: absent when negative, and cut to 32 bits. */
  function Kept(n: Option<int64>): Option<uint32> {
    if n.Some? && n.value >= 0 then Some(n.value % TWO_32) else None
  }

  /** A success reports the controller, the user name and what the controller's negotiation message
      says the device is configured with. */
  lemma SuccessReports(env: Env, gots: seq<Got>, sendOk: nat -> bool, sends: nat)
    requires |gots| == 5 && Handshake(env, gots, sendOk, sends).result.ok
    ensures Clean(gots[0]) && Clean(gots[3])
    ensures var body := gots[3].payload.body;
            Handshake(env, gots, sendOk, sends).result
            == AdoptionResult(true, true, true, NoError, env.controllerId, UserOf(env, gots[0].payload),
                              if body.Some? then Kept(body.value.versionNumber) else None,
                              if body.Some? then Kept(body.value.sequenceNumber) else None, 5)
  {
    SucceedsExactly(env, gots, sendOk, sends);
    SentCount(env, gots, sendOk, sends);
    HelloSuffices(env, gots[0]);
    hide HelloRefusal, VerifyRefusal, Username, UserOf, Suffices, ProvesController;
    Completed(env, gots, sendOk, sends);
  }

  /** What the error of a failed handshake says, given how many messages went out. */
  predicate Explains(error: AdoptionError, env: Env, gots: seq<Got>, sent: nat)
    requires |gots| == 5 && 1 <= sent <= 5
  {
    var got := gots[sent - 1];
    if got.NoReply? then error == got.error
    else if !Clean(got) then
      error == [RejectedPreConnect, RejectedDeviceVerify, RejectedSystemVerify, RejectedNegotiation, RejectedInitSync][sent - 1]
    else if sent == 1 then
      var body := got.payload.body;
      match error
      case MissingRandomKey => body.None? || body.value.randomKey.None? || |body.value.randomKey.value| < 36 || env.systemKey == ""
      case MissingUsername => UserOf(env, got.payload) == ""
      case MissingPassword => env.password == ""
      case UnsupportedCipher => env.cipherType != 5
      case _ => false
    else
      var body := got.payload.body;
      && sent == 2
      && error == if body.None? || body.value.auth.None? then MissingControllerAuth else ControllerAuthMismatch
  }

  /** A failure without a controller tries nothing; one of a send has all messages before it answered
      and says how many those are; any other is explained by the reply to the last message sent. */
  lemma FailureReports(env: Env, gots: seq<Got>, sendOk: nat -> bool, sends: nat)
    requires |gots| == 5 && !Handshake(env, gots, sendOk, sends).result.ok
    ensures var (o, sent) := (Handshake(env, gots, sendOk, sends), |Handshake(env, gots, sendOk, sends).sent|);
            var failed := AdoptionResult(false, false, false, o.result.error, env.controllerId, o.result.username, None, None, 0);
            if env.controllerId == "" then o.result == failed.(error := MissingControllerId, username := "") && o.attempts == 0
            else if o.attempts > sent then
              && o.attempts == sent + 1 && !sendOk(sends + sent) && o.result.error == SendFailed
              && (sent >= 1 ==> Clean(gots[0])) && (sent >= 4 ==> Clean(gots[3]))
              && var body := if sent >= 4 then gots[3].payload.body else None;
                 o.result == failed.(lastSeq := sent, reachedSystemVerify := sent >= 3,
                                     username := if sent >= 1 then UserOf(env, gots[0].payload) else "",
                                     configVersion := if body.Some? then Kept(body.value.versionNumber) else None,
                                     sequenceId := if body.Some? then Kept(body.value.sequenceNumber) else None)
            else
              && o.attempts == sent >= 1 && sendOk(sends + sent - 1)
              && o.result == failed && Explains(o.result.error, env, gots, sent)
              && (sent >= 2 ==> Clean(gots[0])) && o.result.username == NamedUser(env, gots[0])
  {
    if env.controllerId != "" {
      SentCount(env, gots, sendOk, sends);
      HelloSuffices(env, gots[0]);
      var d := Depth(env, gots, sendOk, sends, 0);
      PassedEarlier(env, gots, sendOk, sends, d, if d > 3 then 3 else 0);
      if sendOk(sends + d) {
        RefusedAt(env, gots, sendOk, sends, d);
        RefusalExplains(env, gots, d);
        hide Refusal, HelloRefusal, VerifyRefusal, Username, UserOf, Explains, HelloUsername, NamedUser;
        Refused(env, gots, sendOk, sends, d);
        if d > 0 { HelloUser(env, gots[0]); }
      } else {
        hide HelloRefusal, VerifyRefusal, Username, UserOf;
        Unsent(env, gots, sendOk, sends, d);
      }
    }
  }

  lemma RefusalExplains(env: Env, gots: seq<Got>, d: nat)
    requires |gots| == 5 && d < 5 && (d > 0 ==> HelloRefusal(env, gots[0]).None?)
    requires StageRefusal(env, gots, d).Some?
    ensures Explains(StageRefusal(env, gots, d).value, env, gots, d + 1)
  {
    hide Upper;
  }

  /** A stage without a reply: the wait ended at a failed receive, at a message that is no message of
      the protocol, or after nine well-formed messages of other types. */
  lemma SilentStage(inbound: nat -> Incoming, at: nat, stage: nat)
    requires stage < 5 && Gots(inbound, at)[stage].NoReply?
    ensures var (error, from, to) := (Gots(inbound, at)[stage].error, StageStart(inbound, at, stage), StageStart(inbound, at, stage + 1));
            && (forall i :: from <= i < to - 1 ==> Foreign(inbound(i), ReplyTo(stage)))
            && match error
               case ReceiveFailed => from < to && inbound(to - 1).ReceiveError?
               case InvalidJson => from < to && inbound(to - 1).Message? && NoMessage(inbound(to - 1).payload)
               case UnexpectedMessage => to == from + 9 && Foreign(inbound(to - 1), ReplyTo(stage))
               case _ => false
  {
    StageStep(inbound, at, stage);
    assert Expected(stage) == ReplyTo(stage);
    hide Gots, StageStart, Await, Foreign, NoMessage, Expected, ReplyTo;
    SilentWait(inbound, StageStart(inbound, at, stage), Expected(stage), 9);
  }

  /** Not JSON, or without a type in its header. */
  predicate NoMessage(p: Payload) { p.NotJson? || p.headerType.None? || p.headerType.value < 0 }

  predicate Foreign(m: Incoming, expected: uint32) {
    m.Message? && !NoMessage(m.payload) && m.payload.headerType.value % TWO_32 != expected
  }

  lemma {:induction false} SilentWait(inbound: nat -> Incoming, at: nat, expected: uint32, budget: nat)
    requires Await(inbound, at, expected, budget).0.NoReply?
    ensures var (got, to) := Await(inbound, at, expected, budget);
            && (forall i :: at <= i < to - 1 ==> Foreign(inbound(i), expected))
            && match got.error
               case ReceiveFailed => at < to && inbound(to - 1).ReceiveError?
               case InvalidJson => at < to && inbound(to - 1).Message? && NoMessage(inbound(to - 1).payload)
               case UnexpectedMessage => to == at + budget && (budget > 0 ==> Foreign(inbound(to - 1), expected))
               case _ => false
    decreases budget
  {
    if budget > 0 && Skipped(inbound(at), expected) {
      SilentWait(inbound, at + 1, expected, budget - 1);
    }
  }

  /** A success means the five replies arrived, in order and each without error code. */
  lemma SuccessfulReplies(env: Env, inbound: nat -> Incoming, at: nat, sendOk: nat -> bool, sends: nat, stage: nat)
    requires stage < 5 && Handshake(env, Gots(inbound, at), sendOk, sends).result.ok
    ensures exists q, p :: Accepted(inbound, at, stage, q, p)
    ensures StageStart(inbound, at, stage) < StageStart(inbound, at, stage + 1)
  {
    SentCount(env, Gots(inbound, at), sendOk, sends);
    AcceptedReply(env, inbound, at, sendOk, sends, 5, stage);
  }

  /** No stage waits for more than nine messages, so no handshake for more than 45. */
  lemma {:induction false} BoundedReceives(inbound: nat -> Incoming, at: nat, stage: nat)
    requires stage <= 5
    ensures at <= StageStart(inbound, at, stage) <= at + 9 * stage
  {
    if stage > 0 { BoundedReceives(inbound, at, stage - 1); }
  }

  lemma AtMost45Receives(env: Env, inbound: nat -> Incoming, at: nat, sendOk: nat -> bool, sends: nat)
    ensures var o := Handshake(env, Gots(inbound, at), sendOk, sends);
            o.stages <= 5 && StageStart(inbound, at, o.stages) <= at + 45
  {
    hide HelloRefusal, VerifyRefusal, HelloUsername, Gots;
    BoundedReceives(inbound, at, Handshake(env, Gots(inbound, at), sendOk, sends).stages);
  }

  /* ---- noise ---- */

  function Position(at: nat, noise: seq<nat>, stage: nat): nat
    requires stage <= |noise|
  {
    if stage == 0 then at else Position(at, noise, stage - 1) + noise[stage - 1] + 1
  }

  /** From `at` on, the stream holds before the deciding message of each of the first stages the
      stated number, at most eight, of well-formed messages of other types. */
  ghost predicate Delivers(inbound: nat -> Incoming, at: nat, noise: seq<nat>, deciding: seq<Incoming>) {
    && |noise| == |deciding| <= 5
    && forall k {:trigger noise[k]} :: 0 <= k < |noise| ==>
         && noise[k] <= MAX_SKIPPED
         && (forall i :: Position(at, noise, k) <= i < Position(at, noise, k) + noise[k] ==> Skipped(inbound(i), Expected(k)))
         && inbound(Position(at, noise, k) + noise[k]) == deciding[k]
         && !Skipped(deciding[k], Expected(k))
  }

  lemma {:induction false} AwaitPastNoise(inbound: nat -> Incoming, at: nat, expected: uint32, noise: nat, budget: nat)
    requires noise < budget
    requires forall i :: at <= i < at + noise ==> Skipped(inbound(i), expected)
    requires !Skipped(inbound(at + noise), expected)
    ensures Await(inbound, at, expected, budget) == (Answer(inbound(at + noise)), at + noise + 1)
    decreases budget
  {
    if noise > 0 { AwaitPastNoise(inbound, at + 1, expected, noise - 1, budget - 1); }
  }

  lemma {:induction false} DeliveredStart(inbound: nat -> Incoming, at: nat, noise: seq<nat>, deciding: seq<Incoming>, stage: nat)
    requires Delivers(inbound, at, noise, deciding) && stage <= |noise|
    ensures StageStart(inbound, at, stage) == Position(at, noise, stage)
  {
    if stage > 0 {
      DeliveredStart(inbound, at, noise, deciding, stage - 1);
      DeliveredAwait(inbound, at, noise, deciding, stage - 1);
      hide Delivers, Skipped, Answer, Expected, Await;
    }
  }

  lemma DeliveredAwait(inbound: nat -> Incoming, at: nat, noise: seq<nat>, deciding: seq<Incoming>, k: nat)
    requires Delivers(inbound, at, noise, deciding) && k < |noise|
    ensures Await(inbound, Position(at, noise, k), Expected(k), MAX_SKIPPED + 1)
         == (Answer(deciding[k]), Position(at, noise, k) + noise[k] + 1)
  {
    hide Skipped, Answer, Expected, Position, Await;
    assert noise[k] <= MAX_SKIPPED;
    AwaitPastNoise(inbound, Position(at, noise, k), Expected(k), noise[k], MAX_SKIPPED + 1);
  }

  lemma DeliveredGot(inbound: nat -> Incoming, at: nat, noise: seq<nat>, deciding: seq<Incoming>, stage: nat)
    requires Delivers(inbound, at, noise, deciding) && stage < |noise|
    ensures StageGot(inbound, at, stage) == Answer(deciding[stage])
  {
    DeliveredStart(inbound, at, noise, deciding, stage);
    DeliveredAwait(inbound, at, noise, deciding, stage);
  }

  ghost predicate Agree(a: seq<Got>, b: seq<Got>, n: nat) {
    |a| == |b| == 5 && n <= 5 && forall k :: 0 <= k < n ==> a[k] == b[k]
  }

  lemma {:induction false} PassedAlike(env: Env, a: seq<Got>, b: seq<Got>, sendOk: nat -> bool, sends: nat, stage: nat)
    requires stage <= 5 && Agree(a, b, stage) && Passed(env, a, sendOk, sends, stage)
    ensures Passed(env, b, sendOk, sends, stage)
  {
    if stage > 0 {
      hide HelloRefusal, VerifyRefusal;
      PassedAlike(env, a, b, sendOk, sends, stage - 1);
    }
  }

  lemma {:induction false} SentAlike(env: Env, a: seq<Got>, b: seq<Got>, count: nat)
    requires count <= 5 && |a| == |b| == 5 && (count >= 2 ==> HelloRefusal(env, a[0]).None? && a[0] == b[0])
    ensures SentUpTo(env, a, count) == SentUpTo(env, b, count)
  {
    if count > 0 { SentAlike(env, a, b, count - 1); }
  }

  /** A handshake looks at no reply beyond the stages it reaches. */
  lemma LooksNoFurther(env: Env, a: seq<Got>, b: seq<Got>, sendOk: nat -> bool, sends: nat)
    requires |a| == 5 && Agree(a, b, Handshake(env, a, sendOk, sends).stages)
    ensures Handshake(env, a, sendOk, sends) == Handshake(env, b, sendOk, sends)
  {
    if env.controllerId != "" {
      var d := Depth(env, a, sendOk, sends, 0);
      PassedEarlier(env, a, sendOk, sends, d, if d > 3 then 3 else 0);
      hide HelloRefusal, VerifyRefusal, HelloUsername, Passed, Depth;
      PassedAlike(env, a, b, sendOk, sends, d);
      SentAlike(env, a, b, d);
      if d == 5 {
        Completed(env, a, sendOk, sends);
        Completed(env, b, sendOk, sends);
      } else if !sendOk(sends + d) {
        Unsent(env, a, sendOk, sends, d);
        Unsent(env, b, sendOk, sends, d);
      } else {
        RefusedAt(env, a, sendOk, sends, d);
        SentAlike(env, a, b, d + 1);
        Refused(env, a, sendOk, sends, d);
        Refused(env, b, sendOk, sends, d);
      }
    }
  }

  lemma RefusedAt(env: Env, gots: seq<Got>, sendOk: nat -> bool, sends: nat, d: nat)
    requires |gots| == 5 && d < 5 && Passed(env, gots, sendOk, sends, d) && !Passed(env, gots, sendOk, sends, d + 1) && sendOk(sends + d)
    requires d > 0 ==> HelloRefusal(env, gots[0]).None?
    ensures StageRefusal(env, gots, d).Some?
  {
    hide HelloRefusal, VerifyRefusal;
  }

  /** Streams that differ only in such noise, at the stages the handshake reaches, make no difference
      to the result or the messages sent; what follows those stages makes none either. */
  lemma NoiseInsensitive(env: Env, sendOk: nat -> bool, sends: nat, deciding: seq<Incoming>,
                         a: nat -> Incoming, atA: nat, noiseA: seq<nat>,
                         b: nat -> Incoming, atB: nat, noiseB: seq<nat>)
    requires Delivers(a, atA, noiseA, deciding) && Delivers(b, atB, noiseB, deciding)
    requires Handshake(env, Gots(a, atA), sendOk, sends).stages <= |deciding|
    ensures Handshake(env, Gots(a, atA), sendOk, sends) == Handshake(env, Gots(b, atB), sendOk, sends)
  {
    forall k | 0 <= k < |deciding| ensures StageGot(a, atA, k) == StageGot(b, atB, k) {
      DeliveredGot(a, atA, noiseA, deciding, k);
      DeliveredGot(b, atB, noiseB, deciding, k);
    }
    hide Handshake, StageGot;
    LooksNoFurther(env, Gots(a, atA), Gots(b, atB), sendOk, sends);
  }

  /** Eight is the limit: nine such messages end the stage without a reply. */
  lemma {:induction false} NineAreTooMany(inbound: nat -> Incoming, at: nat, expected: uint32, budget: nat)
    requires forall i :: at <= i < at + budget ==> Skipped(inbound(i), expected)
    ensures Await(inbound, at, expected, budget) == (NoReply(UnexpectedMessage), at + budget)
    decreases budget
  {
    if budget > 0 { NineAreTooMany(inbound, at + 1, expected, budget - 1); }
  }
}
