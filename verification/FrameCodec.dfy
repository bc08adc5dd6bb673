/** Length-prefixed frames: a four-byte big-endian length followed by the payload. */
module FrameCodec {
  import opened FixedWidth

  const LENGTH_SIZE: nat := 4
  const MAX_TCP_PAYLOAD: nat := 8 * 1024 * 1024

  datatype FrameError = NoError | TooShort | EmptyPayload | PayloadTooLarge | LengthMismatch

  datatype DecodeResult = DecodeResult(error: FrameError, declared: uint32, actual: nat, payload: seq<uint8>)

  function BigEndian(n: uint32): (b: seq<uint8>)
    ensures |b| == LENGTH_SIZE
  {
    [n / 0x100_0000, n / 0x1_0000 % 256, n / 256 % 256, n % 256]
  }

  function FromBigEndian(b: seq<uint8>): uint32
    requires |b| >= LENGTH_SIZE
  {
    var b0: int, b1: int, b2: int := b[0], b[1], b[2];
    b0 * 0x100_0000 + b1 * 0x1_0000 + b2 * 256 + b[3]
  }

  lemma BigEndianRoundTrip(n: uint32, b: seq<uint8>)
    requires |b| == LENGTH_SIZE
    ensures FromBigEndian(b) == n <==> b == BigEndian(n)
  {
    assert n == n / 256 * 256 + n % 256;
    assert n / 256 == n / 256 / 256 * 256 + n / 256 % 256;
    assert n / 0x1_0000 == n / 256 / 256 && n / 0x100_0000 == n / 0x1_0000 / 256;
    if FromBigEndian(b) == n {
      var b0: int, b1: int, b2: int := b[0], b[1], b[2];
      var high: int := b0 * 0x1_0000 + b1 * 256 + b2;
      assert n == high * 256 + b[3];
      assert n / 256 == high && n % 256 == b[3];
      assert high / 256 == b0 * 256 + b1 && high % 256 == b[2];
    }
  }

  // the length is cast to 32 bits
  function EncodeFrame(payload: seq<uint8>): seq<uint8> {
    BigEndian(CastU32(|payload|)) + payload
  }

  function DecodeFrame(frame: seq<uint8>, maxPayload: nat): DecodeResult {
    if |frame| < LENGTH_SIZE then DecodeResult(TooShort, 0, 0, [])
    else
      var declared := FromBigEndian(frame);
      var actual := |frame| - LENGTH_SIZE;
      if declared == 0 then DecodeResult(EmptyPayload, declared, actual, [])
      else if declared > maxPayload then DecodeResult(PayloadTooLarge, declared, actual, [])
      else if declared != actual then DecodeResult(LengthMismatch, declared, actual, [])
      else DecodeResult(NoError, declared, actual, frame[LENGTH_SIZE..])
  }

  /** A frame is accepted with a payload exactly when it is the encoding of that payload and the
      payload is not empty, within the limit and countable in 32 bits. */
  lemma DecodesExactlyEncodings(frame: seq<uint8>, maxPayload: nat, payload: seq<uint8>)
    ensures DecodeFrame(frame, maxPayload).error.NoError? && DecodeFrame(frame, maxPayload).payload == payload
            <==> 1 <= |payload| <= maxPayload && |payload| < TWO_32 && frame == EncodeFrame(payload)
  {
    if |frame| >= LENGTH_SIZE {
      var prefix := frame[..LENGTH_SIZE];
      assert FromBigEndian(prefix) == FromBigEndian(frame);
      assert frame == prefix + frame[LENGTH_SIZE..];
      BigEndianRoundTrip(CastU32(|payload|), prefix);
      if frame == EncodeFrame(payload) {
        assert frame[LENGTH_SIZE..] == payload;
        assert prefix == BigEndian(CastU32(|payload|));
      }
    }
  }

  /** What is wrong with a frame that is refused, and what the refusal reports. */
  lemma RefusesExactly(frame: seq<uint8>, maxPayload: nat)
    ensures var r := DecodeFrame(frame, maxPayload);
            && (r.error.TooShort? <==> |frame| < 4)
            && (!r.error.NoError? ==> r.payload == [])
            && (|frame| >= 4 ==>
                  && frame[..4] == BigEndian(r.declared) && r.actual == |frame| - 4
                  && (r.error.EmptyPayload? <==> frame[..4] == [0, 0, 0, 0])
                  && (r.error.PayloadTooLarge? <==> r.declared > 0 && r.declared > maxPayload)
                  && (r.error.LengthMismatch? <==> 0 < r.declared <= maxPayload && r.declared != r.actual))
  {
    if |frame| >= 4 {
      assert FromBigEndian(frame[..4]) == FromBigEndian(frame);
      BigEndianRoundTrip(FromBigEndian(frame), frame[..4]);
      BigEndianRoundTrip(0, frame[..4]);
      assert BigEndian(0) == [0, 0, 0, 0];
      hide BigEndian, FromBigEndian;
    }
  }

  /** Through a transport with the TCP limit, exactly the payloads of 1 byte to 8 MiB survive. */
  lemma FrameRoundTrip(payload: seq<uint8>)
    ensures var decoded := DecodeFrame(EncodeFrame(payload), MAX_TCP_PAYLOAD);
            decoded.error.NoError? && decoded.payload == payload <==> 1 <= |payload| <= MAX_TCP_PAYLOAD
  {
    DecodesExactlyEncodings(EncodeFrame(payload), MAX_TCP_PAYLOAD, payload);
  }
}
