/** The messages exchanged with the controller, as parsed records, and the transport they travel
    on. What the controller sends and which sends succeed are oracles over the whole session. */
module Protocol {
  import opened Wrappers
  import opened FixedWidth
  import opened Config

  const SET_REQUEST: uint32 := 4096
  const GET_REQUEST: uint32 := 24576
  const NOTIFY_REQUEST: uint32 := 80
  const NOTIFY_REQUEST_V2: uint32 := 0x100007
  const EVENT_PORTAL_AUTH: uint32 := 128
  const FORGET_REQUEST: uint32 := 16384
  const FORGET_REQUEST_NO_RESET: uint32 := 131072
  const PRE_CONNECT_INFO_RESPONSE: uint32 := 0x100000
  const DEVICE_VERIFY_RESPONSE: uint32 := 0x100002
  const SYSTEM_NEGOTIATION: uint32 := 0x100005
  const VERIFY_RESULT_ACK: uint32 := 0x100009
  const INIT_SYNC_RESULT_ACK: uint32 := 0x10000A

  /** What the configuration parsers make of a message. */
  datatype ConfigParse = ConfigError(error: string) | ConfigUpdate(update: Update)

  /** Body members, by the reader that is applied to them: `versionNumber` and `sequenceNumber` are
      configVersion and sequenceId as JSON numbers, the others also accept numbers in strings. */
  datatype Body = Body(
    randomKey: Option<string>,
    username: Option<string>,
    auth: Option<string>,
    versionNumber: Option<int64>,
    sequenceNumber: Option<int64>,
    sequenceId: Option<int64>,
    configVersion: Option<int64>,
    configVersionInc: Option<int64>,
    noReply: Option<int64>)

  datatype Payload =
    | NotJson
    | Json(
        headerType: Option<int64>,
        headerError: Option<int64>,
        headerSeq: Option<int64>,
        body: Option<Body>,          // None when the body is no JSON object
        config: ConfigParse,
        portal: ConfigParse)
  {
    // ecsp_header_type
    function Type(): Option<uint32>
      requires Json?
    {
      if headerType.None? || headerType.value < 0 then None else Some(CastU32(headerType.value))
    }

    // ecsp_header_error
    function Error(): int32
      requires Json?
    {
      CastI32(headerError.GetOr(0))
    }

    // ecsp_header_seq
    function Seq(): Option<uint32>
      requires Json?
    {
      if headerSeq.None? || headerSeq.value < 0 then None else Some(CastU32(headerSeq.value))
    }
  }

  /** Type and sequence number are cut to 32 bits, and absent when negative; the error code is 0 when
      absent, and cut to 32 bits with a sign. */
  lemma HeaderNumbers(p: Payload)
    requires p.Json?
    ensures p.Type() == if p.headerType.Some? && p.headerType.value >= 0 then Some(p.headerType.value % TWO_32) else None
    ensures p.Seq() == if p.headerSeq.Some? && p.headerSeq.value >= 0 then Some(p.headerSeq.value % TWO_32) else None
    ensures (p.Error() - p.headerError.GetOr(0)) % TWO_32 == 0
  {
    var n := p.headerError.GetOr(0);
    assert (n % TWO_32 - n) % TWO_32 == 0;
    if n % TWO_32 >= 0x8000_0000 { assert (n % TWO_32 - n - TWO_32) % TWO_32 == 0; }
  }

  datatype Incoming = ReceiveError(timeout: bool) | Message(payload: Payload)

  datatype Outbound =
    | PreConnectInfo(seqNo: uint32, dest: string, rebuild: bool)
    | DeviceVerifyInfo(seqNo: uint32, dest: string, auth: string, randomKey: string)
    | SystemVerifyResult(seqNo: uint32, dest: string)
    | DeviceNegotiation(seqNo: uint32, dest: string, configVersion: uint32)
    | InitSyncResult(seqNo: uint32, dest: string)
    | InformRequest(seqNo: uint32, dest: string, needReply: bool, uptime: uint64)
    | SetResponse(replyTo: Option<uint32>, dest: string, sequenceId: int64, errcode: int64, version: int64)
    | GetResponse(replyTo: Option<uint32>, dest: string, sequenceId: int64)
    | NotifyReply(replyTo: Option<uint32>, dest: string, v2: bool)
    | PortalAuthResponse(replyTo: Option<uint32>, dest: string, errcode: int64)
    | ForgetResponse(dest: string, noReset: bool)
  {
    /** Messages the device numbers itself, as opposed to replies. */
    predicate Numbered() {
      PreConnectInfo? || DeviceVerifyInfo? || SystemVerifyResult? || DeviceNegotiation? || InitSyncResult? || InformRequest?
    }
  }

  class Transport {
    const inbound: nat -> Incoming
    const sendOk: nat -> bool
    var received: nat
    var sends: nat
    var sent: seq<Outbound>

    constructor (inbound: nat -> Incoming, sendOk: nat -> bool)
      ensures this.inbound == inbound && this.sendOk == sendOk && received == 0 && sends == 0 && sent == []
    {
      this.inbound, this.sendOk := inbound, sendOk;
      received, sends, sent := 0, 0, [];
    }

    method ReceivePayload() returns (r: Incoming)
      modifies this`received
      ensures r == inbound(old(received)) && received == old(received) + 1
    {
      r := inbound(received);
      received := received + 1;
    }

    method SendPayload(m: Outbound) returns (ok: bool)
      modifies this`sends, this`sent
      ensures ok == sendOk(old(sends)) && sends == old(sends) + 1
      ensures sent == if ok then old(sent) + [m] else old(sent)
    {
      ok := sendOk(sends);
      sends := sends + 1;
      if ok {
        sent := sent + [m];
      }
    }
  }
}
