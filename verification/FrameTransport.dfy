/** The TLS frame transport: short reads and writes are retried until a whole frame has moved.
    The TLS library is an oracle that may move any positive number of bytes, block or fail. */
module FrameTransport {
  import opened FixedWidth
  import opened FrameCodec

  datatype IoEvent = Progress(bytes: nat) | WouldBlock | Closed | Broken

  /** What the peer has sent, and what each successive read call does. */
  datatype Link = Link(incoming: seq<uint8>, schedule: nat -> IoEvent)

  datatype Cursor = Cursor(at: nat, readCalls: nat)

  /** Bytes one successful read call delivers: at least one, at most what is asked and what is there. */
  function Chunk(bytes: nat, asked: nat, there: nat): (n: nat)
    requires asked > 0 && there > 0
    ensures 1 <= n <= asked && n <= there
  {
    Min(if bytes == 0 then 1 else bytes, Min(asked, there))
  }

  datatype ReadStatus = Complete | TimedOut | Failed

  datatype ReadOutcome = ReadOutcome(status: ReadStatus, cursor: Cursor)

  function ReadExactly(link: Link, c: Cursor, size: nat): (r: ReadOutcome)
    requires c.at <= |link.incoming|
    ensures c.at <= r.cursor.at <= |link.incoming|
    ensures r.status.Complete? ==> r.cursor.at == c.at + size
    decreases size
  {
    if size == 0 then ReadOutcome(Complete, c)
    else
      var next := Cursor(c.at, c.readCalls + 1);
      match link.schedule(c.readCalls)
      case Progress(n) =>
        if c.at == |link.incoming| then ReadOutcome(Failed, next)
        else
          var got := Chunk(n, size, |link.incoming| - c.at);
          ReadExactly(link, Cursor(c.at + got, c.readCalls + 1), size - got)
      case WouldBlock => ReadOutcome(TimedOut, next)
      case Closed => ReadOutcome(Failed, next)
      case Broken => ReadOutcome(Failed, next)
  }

  datatype ReceiveResult = Received(payload: seq<uint8>) | Timeout | ReceiveFailed

  datatype ReceiveOutcome = ReceiveOutcome(result: ReceiveResult, cursor: Cursor)

  function Unread(r: ReadOutcome): ReceiveOutcome {
    ReceiveOutcome(if r.status.TimedOut? then Timeout else ReceiveFailed, r.cursor)
  }

  /** receive_payload, from the bytes and the read schedule. */
  function Receive(link: Link, c: Cursor): (r: ReceiveOutcome)
    requires c.at <= |link.incoming|
    ensures c.at <= r.cursor.at <= |link.incoming|
  {
    var head := ReadExactly(link, c, LENGTH_SIZE);
    if !head.status.Complete? then Unread(head)
    else
      var length := FromBigEndian(link.incoming[c.at..c.at + LENGTH_SIZE]);
      if length == 0 || length > MAX_TCP_PAYLOAD then ReceiveOutcome(ReceiveFailed, head.cursor)
      else
        var body := ReadExactly(link, head.cursor, length);
        if !body.status.Complete? then Unread(body)
        else
          var decoded := DecodeFrame(link.incoming[c.at..c.at + LENGTH_SIZE + length], MAX_TCP_PAYLOAD);
          ReceiveOutcome(if decoded.error.NoError? then Received(decoded.payload) else ReceiveFailed, body.cursor)
  }

  datatype WriteOutcome = WriteOutcome(ok: bool, calls: nat, bytes: nat)

  /** What the write calls from position `calls` on do with `size` bytes; once they run out, the
      connection is broken. */
  function Writes(schedule: seq<IoEvent>, calls: nat, size: nat): (r: WriteOutcome)
    requires calls <= |schedule|
    ensures calls <= r.calls <= |schedule| && r.bytes <= size && (r.ok <==> r.bytes == size)
    decreases |schedule| - calls
  {
    if size == 0 then WriteOutcome(true, calls, 0)
    else if calls == |schedule| then WriteOutcome(false, calls, 0)
    else
      match schedule[calls]
      case Progress(n) =>
        var moved := Chunk(n, size, size);
        var rest := Writes(schedule, calls + 1, size - moved);
        WriteOutcome(rest.ok, rest.calls, moved + rest.bytes)
      case WouldBlock => Writes(schedule, calls + 1, size)
      case _ => WriteOutcome(false, calls + 1, 0)
  }

  predicate Moves(e: IoEvent) { e.Progress? || e.WouldBlock? }

  /** Writing goes on as long as calls make progress or block, and stops short only at a closed or broken
      connection. */
  lemma {:induction false} WritesUntilBroken(schedule: seq<IoEvent>, calls: nat, size: nat)
    requires calls <= |schedule|
    ensures var r := Writes(schedule, calls, size);
            && (forall i :: calls <= i < (if r.ok then r.calls else r.calls - 1) ==> Moves(schedule[i]))
            && (!r.ok ==> r.calls == |schedule| || (calls < r.calls && !Moves(schedule[r.calls - 1])))
    decreases |schedule| - calls
  {
    hide Chunk;
    if size > 0 && calls < |schedule| && Moves(schedule[calls]) {
      WritesUntilBroken(schedule, calls + 1, match schedule[calls] case Progress(n) => size - Chunk(n, size, size) case _ => size);
    }
  }

  /** A prefix that announces no payload, or more than 8 MiB, ends the call with nothing more read. */
  lemma BadLengthFails(link: Link, c: Cursor)
    requires c.at <= |link.incoming| && ReadExactly(link, c, 4).status.Complete?
    requires var prefix := link.incoming[c.at..c.at + 4]; prefix == [0, 0, 0, 0] || FromBigEndian(prefix) > 8 * 1024 * 1024
    ensures Receive(link, c) == ReceiveOutcome(ReceiveFailed, ReadExactly(link, c, 4).cursor)
  {
    hide ReadExactly;
  }

  class TlsFrameTransport {
    const link: Link
    const writeSchedule: seq<IoEvent>   // when it runs out, the connection is broken
    var at: nat
    var readCalls: nat
    var writeCalls: nat
    var outgoing: seq<uint8>

    ghost predicate Valid()
      reads this
    {
      at <= |link.incoming|
    }

    constructor (link: Link, writeSchedule: seq<IoEvent>)
      ensures Valid() && this.link == link && this.writeSchedule == writeSchedule
      ensures at == 0 && readCalls == 0 && writeCalls == 0 && outgoing == []
    {
      this.link, this.writeSchedule := link, writeSchedule;
      at, readCalls, writeCalls, outgoing := 0, 0, 0, [];
    }

    // ssl_read_exact, filling buffer[start..start + size]
    method ReadExact(buffer: array<uint8>, start: nat, size: nat) returns (status: ReadStatus)
      requires Valid() && start + size <= buffer.Length
      modifies this`at, this`readCalls, buffer
      ensures Valid()
      ensures ReadOutcome(status, Cursor(at, readCalls)) == ReadExactly(link, old(Cursor(at, readCalls)), size)
      ensures forall i :: 0 <= i < start || start + size <= i < buffer.Length ==> buffer[i] == old(buffer[i])
      ensures status.Complete? ==> at == old(at) + size
                                   && forall i :: start <= i < start + size ==> buffer[i] == link.incoming[old(at) + (i - start)]
    {
      hide Chunk;
      var offset := 0;
      ghost var from := at;
      while offset < size
        invariant 0 <= offset <= size && Valid() && at == from + offset
        invariant ReadExactly(link, Cursor(at, readCalls), size - offset) == ReadExactly(link, old(Cursor(at, readCalls)), size)
        invariant forall i :: start <= i < start + offset ==> buffer[i] == link.incoming[from + (i - start)]
        invariant forall i :: 0 <= i < start || start + size <= i < buffer.Length ==> buffer[i] == old(buffer[i])
      {
        var event := link.schedule(readCalls);
        readCalls := readCalls + 1;
        if event.WouldBlock? {
          return TimedOut;
        }
        if !event.Progress? || at == |link.incoming| {
          return Failed;
        }
        var rc := Chunk(event.bytes, size - offset, |link.incoming| - at);
        forall i | start + offset <= i < start + offset + rc {
          buffer[i] := link.incoming[at + (i - start - offset)];
        }
        offset := offset + rc;
        at := at + rc;
      }
      return Complete;
    }

    method ReceivePayload() returns (result: ReceiveResult)
      requires Valid()
      modifies this`at, this`readCalls
      ensures Valid()
      ensures ReceiveOutcome(result, Cursor(at, readCalls)) == Receive(link, old(Cursor(at, readCalls)))
    {
      hide ReadExactly, DecodeFrame, FromBigEndian;
      ghost var start := at;
      var prefix := new uint8[LENGTH_SIZE];
      var status := ReadExact(prefix, 0, LENGTH_SIZE);
      if !status.Complete? {
        return if status.TimedOut? then Timeout else ReceiveFailed;
      }
      assert prefix[..] == link.incoming[start..start + LENGTH_SIZE];
      var length := FromBigEndian(prefix[..]);
      if length == 0 || length > MAX_TCP_PAYLOAD {
        return ReceiveFailed;
      }
      var frame := new uint8[LENGTH_SIZE + length];
      forall i | 0 <= i < LENGTH_SIZE {
        frame[i] := prefix[i];
      }
      status := ReadExact(frame, LENGTH_SIZE, length);
      if !status.Complete? {
        return if status.TimedOut? then Timeout else ReceiveFailed;
      }
      assert frame[..] == link.incoming[start..start + LENGTH_SIZE + length];
      var decoded := DecodeFrame(frame[..], MAX_TCP_PAYLOAD);
      return if decoded.error.NoError? then Received(decoded.payload) else ReceiveFailed;
    }

    // ssl_write_all: a blocked write is tried again
    method WriteAll(buffer: seq<uint8>) returns (ok: bool)
      requires writeCalls <= |writeSchedule|
      modifies this`writeCalls, this`outgoing
      ensures var w := Writes(writeSchedule, old(writeCalls), |buffer|);
              ok == w.ok && writeCalls == w.calls && outgoing == old(outgoing) + buffer[..w.bytes]
    {
      hide Chunk;
      ghost var whole := Writes(writeSchedule, writeCalls, |buffer|);
      var offset := 0;
      while offset < |buffer|
        invariant 0 <= offset <= |buffer| && writeCalls <= |writeSchedule|
        invariant outgoing == old(outgoing) + buffer[..offset]
        invariant var rest := Writes(writeSchedule, writeCalls, |buffer| - offset);
                  whole == WriteOutcome(rest.ok, rest.calls, offset + rest.bytes)
        decreases |writeSchedule| - writeCalls
      {
        if writeCalls == |writeSchedule| {
          return false;
        }
        var event := writeSchedule[writeCalls];
        writeCalls := writeCalls + 1;
        match event {
          case Progress(n) =>
            var rc := Chunk(n, |buffer| - offset, |buffer| - offset);
            assert buffer[..offset] + buffer[offset..offset + rc] == buffer[..offset + rc];
            outgoing := outgoing + buffer[offset..offset + rc];
            offset := offset + rc;
          case WouldBlock =>
          case _ => return false;
        }
      }
      assert buffer[..|buffer|] == buffer;
      return true;
    }

    /** A reported success put exactly one whole frame on the wire; a failure at most a part of it. */
    method SendPayload(payload: seq<uint8>) returns (ok: bool)
      requires writeCalls <= |writeSchedule|
      modifies this`writeCalls, this`outgoing
      ensures var w := Writes(writeSchedule, old(writeCalls), |EncodeFrame(payload)|);
              ok == w.ok && writeCalls == w.calls && outgoing == old(outgoing) + EncodeFrame(payload)[..w.bytes]
      ensures ok ==> outgoing == old(outgoing) + EncodeFrame(payload)
    {
      hide EncodeFrame;
      ok := WriteAll(EncodeFrame(payload));
      assert EncodeFrame(payload)[..|EncodeFrame(payload)|] == EncodeFrame(payload);
    }
  }

  /* ---- the stream ---- */

  function Frames(payloads: seq<seq<uint8>>): seq<uint8> {
    if payloads == [] then [] else EncodeFrame(payloads[0]) + Frames(payloads[1..])
  }

  ghost predicate Sendable(payloads: seq<seq<uint8>>) {
    forall i :: 0 <= i < |payloads| ==> 1 <= |payloads[i]| <= MAX_TCP_PAYLOAD
  }

  /** The results of n successive receive calls. */
  function ReceiveMany(link: Link, c: Cursor, n: nat): (results: seq<ReceiveResult>)
    requires c.at <= |link.incoming|
    ensures |results| == n
    decreases n
  {
    if n == 0 then [] else
    var r := Receive(link, c);
    [r.result] + ReceiveMany(link, r.cursor, n - 1)
  }

  function Payloads(results: seq<ReceiveResult>): seq<seq<uint8>> {
    if results == [] then []
    else (if results[0].Received? then [results[0].payload] else []) + Payloads(results[1..])
  }

  /** No read call of the connection closes it or fails. */
  ghost predicate Healthy(link: Link) {
    forall i: nat :: link.schedule(i).Progress? || link.schedule(i).WouldBlock?
  }

  /** In n calls from here, no timeout strikes after part of a frame has been read. */
  ghost predicate NoTornFrame(link: Link, c: Cursor, n: nat)
    requires c.at <= |link.incoming|
    decreases n
  {
    n == 0 ||
    var r := Receive(link, c);
    (r.result.Timeout? ==> r.cursor.at == c.at) && NoTornFrame(link, r.cursor, n - 1)
  }

  lemma {:induction false} HealthyRead(link: Link, c: Cursor, size: nat)
    requires Healthy(link) && c.at + size <= |link.incoming|
    ensures !ReadExactly(link, c, size).status.Failed?
    decreases size
  {
    if size > 0 {
      var event := link.schedule(c.readCalls);
      if event.Progress? {
        var got := Chunk(event.bytes, size, |link.incoming| - c.at);
        HealthyRead(link, Cursor(c.at + got, c.readCalls + 1), size - got);
      }
    }
  }

  /** At a frame boundary a call delivers the next payload and stops at the next boundary, or times out. */
  lemma ReceiveNext(link: Link, c: Cursor, payload: seq<uint8>, rest: seq<uint8>)
    requires Healthy(link) && c.at <= |link.incoming| && 1 <= |payload| <= MAX_TCP_PAYLOAD
    requires link.incoming[c.at..] == EncodeFrame(payload) + rest
    ensures var r := Receive(link, c);
            r.result.Timeout? || (r.result == Received(payload) && link.incoming[r.cursor.at..] == rest)
  {
    hide ReadExactly, DecodeFrame, FromBigEndian, EncodeFrame, Healthy;
    FrameAhead(link.incoming, c.at, payload, rest);
    FrameRoundTrip(payload);
    HealthyRead(link, c, LENGTH_SIZE);
    var head := ReadExactly(link, c, LENGTH_SIZE);
    if head.status.Complete? {
      HealthyRead(link, head.cursor, |payload|);
    }
  }

  // the bytes ahead, cut as the reader cuts them
  lemma FrameAhead(incoming: seq<uint8>, at: nat, payload: seq<uint8>, rest: seq<uint8>)
    requires at <= |incoming| && |payload| < TWO_32 && incoming[at..] == EncodeFrame(payload) + rest
    ensures var n := LENGTH_SIZE + |payload|;
            && at + n <= |incoming| && FromBigEndian(incoming[at..at + LENGTH_SIZE]) == |payload|
            && incoming[at..at + n] == EncodeFrame(payload) && incoming[at + n..] == rest
  {
    var frame, ahead := EncodeFrame(payload), incoming[at..];
    assert ahead[..|frame|] == frame && ahead[|frame|..] == rest;
    assert incoming[at..at + |frame|] == ahead[..|frame|] && incoming[at + |frame|..] == ahead[|frame|..];
    assert incoming[at..at + LENGTH_SIZE] == frame[..LENGTH_SIZE] == BigEndian(CastU32(|payload|));
    BigEndianRoundTrip(|payload|, frame[..LENGTH_SIZE]);
  }

  lemma {:induction false} AtEndNothing(link: Link, c: Cursor, n: nat)
    requires c.at == |link.incoming|
    ensures Payloads(ReceiveMany(link, c, n)) == []
    decreases n
  {
    if n > 0 {
      var r := Receive(link, c);
      assert !r.result.Received?;
      AtEndNothing(link, r.cursor, n - 1);
      assert ReceiveMany(link, c, n)[1..] == ReceiveMany(link, r.cursor, n - 1);
    }
  }

  /** Until `k` payloads have been received, every call receives one or times out. */
  ghost predicate NoErrorBefore(results: seq<ReceiveResult>, k: nat) {
    results == [] || k == 0
    || (results[0].Received? && NoErrorBefore(results[1..], k - 1))
    || (results[0].Timeout? && NoErrorBefore(results[1..], k))
  }

  /** However the bytes are split, the payloads received so far are the first ones sent, in order,
      and no call fails before all of them have been received. */
  lemma {:induction false} StreamRoundTrip(link: Link, c: Cursor, payloads: seq<seq<uint8>>, n: nat)
    requires Healthy(link) && Sendable(payloads)
    requires c.at <= |link.incoming| && link.incoming[c.at..] == Frames(payloads)
    requires NoTornFrame(link, c, n)
    ensures Payloads(ReceiveMany(link, c, n)) <= payloads
    ensures NoErrorBefore(ReceiveMany(link, c, n), |payloads|)
    decreases n
  {
    hide Receive, EncodeFrame;
    if payloads == [] {
      AtEndNothing(link, c, n);
    } else if n > 0 {
      var r := Receive(link, c);
      assert ReceiveMany(link, c, n)[1..] == ReceiveMany(link, r.cursor, n - 1);
      ReceiveNext(link, c, payloads[0], Frames(payloads[1..]));
      if r.result.Received? {
        StreamRoundTrip(link, r.cursor, payloads[1..], n - 1);
        assert payloads == [payloads[0]] + payloads[1..];
      } else {
        StreamRoundTrip(link, r.cursor, payloads, n - 1);
      }
    }
  }

  /* ---- exactly when everything arrives ---- */

  /** The calls that do not time out. */
  function Finished(results: seq<ReceiveResult>): nat {
    if results == [] then 0 else (if results[0].Timeout? then 0 else 1) + Finished(results[1..])
  }

  lemma {:induction false} NoErrorCount(results: seq<ReceiveResult>, k: nat)
    requires NoErrorBefore(results, k)
    ensures |Payloads(results)| >= k || |Payloads(results)| == Finished(results)
    decreases |results|
  {
    if results != [] && k > 0 {
      NoErrorCount(results[1..], if results[0].Received? then k - 1 else k);
    }
  }

  lemma {:induction false} PayloadsFinish(results: seq<ReceiveResult>)
    ensures |Payloads(results)| <= Finished(results)
  {
    if results != [] { PayloadsFinish(results[1..]); }
  }

  /** A received payload takes exactly the bytes of its frame. */
  lemma ReceivedTakesItsFrame(link: Link, c: Cursor)
    requires c.at <= |link.incoming|
    ensures var r := Receive(link, c); r.result.Received? ==> r.cursor.at == c.at + |EncodeFrame(r.result.payload)|
  {
    hide ReadExactly, FromBigEndian;
  }

  /** The frames of the payloads received, and a byte more when a frame was torn, fit in the bytes there were. */
  lemma {:induction false} TornFramesCost(link: Link, c: Cursor, n: nat)
    requires c.at <= |link.incoming|
    ensures |Frames(Payloads(ReceiveMany(link, c, n)))| + (if NoTornFrame(link, c, n) then 0 else 1) <= |link.incoming| - c.at
    decreases n
  {
    hide Receive, EncodeFrame;
    if n > 0 {
      var r := Receive(link, c);
      var later := ReceiveMany(link, r.cursor, n - 1);
      assert ReceiveMany(link, c, n)[1..] == later;
      TornFramesCost(link, r.cursor, n - 1);
      ReceivedTakesItsFrame(link, c);
      if r.result.Received? {
        assert ([r.result.payload] + Payloads(later))[1..] == Payloads(later);
      } else {
        assert [] + Payloads(later) == Payloads(later);
      }
    }
  }

  /** Whatever the splitting and the timing: n calls deliver everything that was sent, in order,
      exactly when no timeout tears a frame and at least as many calls as payloads do not time out. */
  lemma StreamExactly(link: Link, c: Cursor, payloads: seq<seq<uint8>>, n: nat)
    requires Healthy(link) && Sendable(payloads)
    requires c.at <= |link.incoming| && link.incoming[c.at..] == Frames(payloads)
    ensures Payloads(ReceiveMany(link, c, n)) == payloads
            <==> NoTornFrame(link, c, n) && Finished(ReceiveMany(link, c, n)) >= |payloads|
  {
    var results := ReceiveMany(link, c, n);
    TornFramesCost(link, c, n);
    PayloadsFinish(results);
    if NoTornFrame(link, c, n) {
      StreamRoundTrip(link, c, payloads, n);
      NoErrorCount(results, |payloads|);
    }
    hide ReceiveMany, Frames, Payloads;
  }

  /** Without timeouts, as many calls as payloads return the payloads themselves. */
  lemma {:induction false} StreamComplete(link: Link, c: Cursor, payloads: seq<seq<uint8>>)
    requires (forall i: nat :: link.schedule(i).Progress?) && Sendable(payloads)
    requires c.at <= |link.incoming| && link.incoming[c.at..] == Frames(payloads)
    ensures |ReceiveMany(link, c, |payloads|)| == |payloads|
    ensures forall i :: 0 <= i < |payloads| ==> ReceiveMany(link, c, |payloads|)[i] == Received(payloads[i])
    decreases |payloads|
  {
    hide Receive, EncodeFrame;
    if payloads != [] {
      var r := Receive(link, c);
      NeverTimesOut(link, c);
      ReceiveNext(link, c, payloads[0], Frames(payloads[1..]));
      StreamComplete(link, r.cursor, payloads[1..]);
    }
  }

  lemma NeverTimesOut(link: Link, c: Cursor)
    requires forall i: nat :: link.schedule(i).Progress?
    requires c.at <= |link.incoming|
    ensures !Receive(link, c).result.Timeout?
  {
    NoTimeoutRead(link, c, LENGTH_SIZE);
    var head := ReadExactly(link, c, LENGTH_SIZE);
    if head.status.Complete? {
      NoTimeoutRead(link, head.cursor, FromBigEndian(link.incoming[c.at..c.at + LENGTH_SIZE]));
    }
  }

  lemma {:induction false} NoTimeoutRead(link: Link, c: Cursor, size: nat)
    requires forall i: nat :: link.schedule(i).Progress?
    requires c.at <= |link.incoming|
    ensures !ReadExactly(link, c, size).status.TimedOut?
    decreases size
  {
    if size > 0 && c.at < |link.incoming| {
      var got := Chunk(link.schedule(c.readCalls).bytes, size, |link.incoming| - c.at);
      NoTimeoutRead(link, Cursor(c.at + got, c.readCalls + 1), size - got);
    }
  }

  /** A torn frame in the small: a timeout inside a frame loses the bytes already read. */
  lemma TornFrameIsLost()
    ensures var link := Link(EncodeFrame([7]), i => if i == 1 then WouldBlock else Progress(2));
            Healthy(link) && Payloads(ReceiveMany(link, Cursor(0, 0), 2)) == []
  {
    var link := Link(EncodeFrame([7]), i => if i == 1 then WouldBlock else Progress(2));
    assert link.incoming == [0, 0, 0, 1, 7];
    assert ReadExactly(link, Cursor(0, 0), 4) == ReadExactly(link, Cursor(2, 1), 2) == ReadOutcome(TimedOut, Cursor(2, 2));
    assert ReadExactly(link, Cursor(2, 2), 4) == ReadExactly(link, Cursor(4, 3), 2);
    assert ReadExactly(link, Cursor(4, 3), 2) == ReadExactly(link, Cursor(5, 4), 1) == ReadOutcome(Failed, Cursor(5, 5));
    assert Receive(link, Cursor(2, 2)) == ReceiveOutcome(ReceiveFailed, Cursor(5, 5));
    assert Receive(link, Cursor(0, 0)) == ReceiveOutcome(Timeout, Cursor(2, 2));
    hide Receive, ReadExactly;
    NothingReceived(link);
  }

  lemma NothingReceived(link: Link)
    requires |link.incoming| == 5
    requires Receive(link, Cursor(0, 0)) == ReceiveOutcome(Timeout, Cursor(2, 2))
    requires Receive(link, Cursor(2, 2)) == ReceiveOutcome(ReceiveFailed, Cursor(5, 5))
    ensures Payloads(ReceiveMany(link, Cursor(0, 0), 2)) == []
  {
    hide Receive;
    assert ReceiveMany(link, Cursor(5, 5), 0) == [];
    assert ReceiveMany(link, Cursor(2, 2), 1) == [ReceiveFailed];
    assert ReceiveMany(link, Cursor(0, 0), 2) == [Timeout, ReceiveFailed];
    assert [Timeout, ReceiveFailed][1..] == [ReceiveFailed] && [ReceiveFailed][1..] == [];
    assert Payloads([ReceiveFailed]) == [];
  }
}
