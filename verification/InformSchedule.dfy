/** When the managed session sends INFORM_REQUEST, and with which sequence number. */
module InformSchedule {
  import opened FixedWidth

  const MIN_INTERVAL_MS: uint32 := 500

  datatype Schedule = Schedule(started: bool, initialSent: bool, nextSeq: uint32, startedAt: uint64, nextDue: uint64)

  const NOT_STARTED := Schedule(false, false, 1, 0, 0)

  datatype Scheduled = Idle | Due(needReply: bool, seqNo: uint32, uptime: uint64, nextDue: uint64)

  function Interval(configured: uint32): uint32 { if configured < MIN_INTERVAL_MS then MIN_INTERVAL_MS else configured }

  function Begin(lastSeq: uint32, startedAt: uint64): Schedule {
    Schedule(true, false, CastU32(lastSeq + 1), startedAt, startedAt)
  }

  // the addition to the due time is in 64 bits
  function AfterPoll(s: Schedule, interval: uint32, now: uint64): Schedule {
    if !s.started || now < s.nextDue then s
    else s.(initialSent := true, nextSeq := CastU32(s.nextSeq + 1), nextDue := WrapU64(now + interval))
  }

  function Polled(s: Schedule, interval: uint32, now: uint64): Scheduled {
    if !s.started || now < s.nextDue then Idle
    else Due(!s.initialSent, s.nextSeq, if now > s.startedAt then (now - s.startedAt) / 1000 else 0, WrapU64(now + interval))
  }

  class InformScheduler {
    const intervalMs: uint32
    var started: bool
    var initialSent: bool
    var nextSeq: uint32
    var startedAt: uint64
    var nextDue: uint64

    function View(): Schedule
      reads this
    {
      Schedule(started, initialSent, nextSeq, startedAt, nextDue)
    }

    constructor (configured: uint32)
      ensures intervalMs == Interval(configured) && View() == NOT_STARTED
    {
      intervalMs := Interval(configured);
      started, initialSent, nextSeq, startedAt, nextDue := false, false, 1, 0, 0;
    }

    method Start(lastSeq: uint32, startedAtMs: uint64)
      modifies this
      ensures View() == Begin(lastSeq, startedAtMs)
    {
      started := true;
      initialSent := false;
      nextSeq := CastU32(lastSeq + 1);
      startedAt := startedAtMs;
      nextDue := startedAtMs;
    }

    method Poll(now: uint64) returns (scheduled: Scheduled)
      modifies this
      ensures scheduled == Polled(old(View()), intervalMs, now) && View() == AfterPoll(old(View()), intervalMs, now)
    {
      if !started || now < nextDue {
        return Idle;
      }
      var needReply, seqNo := !initialSent, nextSeq;
      var uptime := if now > startedAt then (now - startedAt) / 1000 else 0;
      nextSeq := CastU32(nextSeq + 1);
      initialSent := true;
      nextDue := WrapU64(now + intervalMs);
      return Due(needReply, seqNo, uptime, nextDue);
    }
  }

  /* ---- whole runs over a clock ---- */

  /** An inform with the clock reading it fired at. */
  type Fired = (uint64, Scheduled)

  /** The informs fired when the scheduler is polled at the given readings, which may jump either way. */
  function Informs(s: Schedule, interval: uint32, clock: seq<uint64>): seq<Fired>
    decreases |clock|
  {
    if clock == [] then []
    else
      var rest := Informs(AfterPoll(s, interval, clock[0]), interval, clock[1..]);
      var now := Polled(s, interval, clock[0]);
      if now.Idle? then rest else [(clock[0], now)] + rest
  }

  ghost predicate NoOverflow(clock: seq<uint64>, interval: uint32) {
    forall i :: 0 <= i < |clock| ==> clock[i] + interval < TWO_64
  }

  ghost predicate Spaced(f: seq<Fired>, interval: uint32, from: uint64) {
    && (forall i :: 0 <= i < |f| ==> f[i].0 >= from)
    && (forall i, j :: 0 <= i < j < |f| ==> f[j].0 >= f[i].0 + interval)
  }

  /** Every inform reports the whole seconds since the start, or 0 before it, and the reading at which the
      next one is due. */
  lemma {:induction false} UptimesCount(s: Schedule, interval: uint32, clock: seq<uint64>)
    ensures forall f :: f in Informs(s, interval, clock) ==>
              && f.1.Due? && f.1.nextDue == (f.0 + interval) % TWO_64
              && f.1.uptime == (if f.0 < s.startedAt then 0 else (f.0 - s.startedAt) / 1000)
    decreases |clock|
  {
    if clock != [] { UptimesCount(AfterPoll(s, interval, clock[0]), interval, clock[1..]); }
  }

  /** Any two informs are an interval apart, and none comes before the due time. */
  lemma {:induction false} Spacing(s: Schedule, interval: uint32, clock: seq<uint64>)
    requires s.started && NoOverflow(clock, interval)
    ensures Spaced(Informs(s, interval, clock), interval, s.nextDue)
    decreases |clock|
  {
    if clock != [] {
      var now, next := clock[0], AfterPoll(s, interval, clock[0]);
      Spacing(next, interval, clock[1..]);
      if now >= s.nextDue {
        assert next.nextDue == now + interval;
      }
    }
  }

  lemma NextMultiple(n: nat, interval: nat, gap: int)
    requires n > 0 && (n - 1) * interval <= gap - interval
    ensures n * interval <= gap
  {
  }

  lemma {:induction false} SpanBound(s: Schedule, interval: uint32, clock: seq<uint64>, latest: uint64)
    requires s.started && NoOverflow(clock, interval) && forall i :: 0 <= i < |clock| ==> clock[i] <= latest
    ensures var n := |Informs(s, interval, clock)|; n > 0 ==> (n - 1) * interval <= latest - s.nextDue
    decreases |clock|
  {
    if clock != [] {
      var now, next := clock[0], AfterPoll(s, interval, clock[0]);
      SpanBound(next, interval, clock[1..], latest);
      if now >= s.nextDue {
        var n := |Informs(next, interval, clock[1..])|;
        assert next.nextDue == now + interval;
        if n > 0 { NextMultiple(n, interval, latest - s.nextDue); }
      }
    }
  }

  lemma Quotient(n: nat, interval: nat, gap: nat)
    requires interval > 0 && n * interval <= gap
    ensures n <= gap / interval
  {
    Ordered(gap / interval + 1, n, interval);
  }

  lemma Ordered(m: nat, n: nat, interval: nat)
    ensures m <= n ==> m * interval <= n * interval
  {
    if m <= n { assert n * interval == m * interval + (n - m) * interval; }
  }

  /** One inform per interval since the start, and one more; none before the start. */
  function Allowance(startedAt: uint64, interval: uint32, latest: uint64): nat
    requires interval > 0
  {
    if latest < startedAt then 0 else 1 + (latest - startedAt) / interval
  }

  /** Up to the largest reading, at most one inform per interval since the start, and one more. */
  lemma AtMostOnePerInterval(configured: uint32, lastSeq: uint32, startedAt: uint64, clock: seq<uint64>, latest: uint64)
    requires NoOverflow(clock, Interval(configured)) && forall i :: 0 <= i < |clock| ==> clock[i] <= latest
    ensures Interval(configured) >= 500 && Interval(configured) >= configured
    ensures var n := |Informs(Begin(lastSeq, startedAt), Interval(configured), clock)|;
            n <= Allowance(startedAt, Interval(configured), latest)
  {
    var s, interval := Begin(lastSeq, startedAt), Interval(configured);
    var n := |Informs(s, interval, clock)|;
    SpanBound(s, interval, clock, latest);
    Spacing(s, interval, clock);
    if n > 0 {
      FiredIsReading(s, interval, clock, 0);
      Quotient(n - 1, interval, latest - startedAt);
    }
  }

  lemma {:induction false} FiredIsReading(s: Schedule, interval: uint32, clock: seq<uint64>, i: nat)
    requires i < |Informs(s, interval, clock)|
    ensures Informs(s, interval, clock)[i].0 in clock && Informs(s, interval, clock)[i].1.Due?
    decreases |clock|
  {
    var next := AfterPoll(s, interval, clock[0]);
    if Polled(s, interval, clock[0]).Idle? {
      FiredIsReading(next, interval, clock[1..], i);
    } else if i > 0 {
      FiredIsReading(next, interval, clock[1..], i - 1);
    }
  }

  lemma CastStep(a: uint32, i: nat)
    requires i > 0
    ensures (CastU32(a + 1) + (i - 1)) % TWO_32 == (a + i) % TWO_32
  {
    if a + 1 == TWO_32 {
      assert a + i == i - 1 + TWO_32;
    }
  }

  /** Sequence numbers run on without gap or repeat, modulo 2^32, and only the first inform asks for
      a reply. This needs nothing of the clock. */
  lemma {:induction false} Numbering(s: Schedule, interval: uint32, clock: seq<uint64>, i: nat)
    requires i < |Informs(s, interval, clock)|
    ensures var inform := Informs(s, interval, clock)[i].1;
            inform.Due? && inform.seqNo == (s.nextSeq + i) % TWO_32 && (inform.needReply <==> !s.initialSent && i == 0)
    decreases |clock|
  {
    hide CastU32, WrapU64;
    var next := AfterPoll(s, interval, clock[0]);
    if Polled(s, interval, clock[0]).Idle? {
      Numbering(next, interval, clock[1..], i);
    } else if i > 0 {
      Numbering(next, interval, clock[1..], i - 1);
      CastStep(s.nextSeq, i);
    }
  }

  /** Informs are not withheld, overflow or not: a reading that fires none lies before the start or
      within an interval of the inform before it. */
  lemma {:induction false} NotWithheld(s: Schedule, interval: uint32, clock: seq<uint64>, now: uint64)
    requires s.started
    ensures var before, f := Informs(s, interval, clock), Informs(s, interval, clock + [now]);
            || (|f| == |before| + 1 && f[|before|].0 == now)
            || (f == before && now < if before == [] then s.nextDue else before[|before| - 1].0 + interval)
    decreases |clock|
  {
    if clock == [] {
      assert ([] + [now])[1..] == [];
    } else {
      assert (clock + [now])[1..] == clock[1..] + [now] && (clock + [now])[0] == clock[0];
      NotWithheld(AfterPoll(s, interval, clock[0]), interval, clock[1..], now);
    }
  }

  /* ---- exactly when the spacing holds ---- */

  ghost predicate ReadsUpTo(clock: seq<uint64>, latest: uint64) { forall i :: 0 <= i < |clock| ==> clock[i] <= latest }

  lemma {:induction false} NoneBeforeStart(s: Schedule, interval: uint32, clock: seq<uint64>, latest: uint64)
    requires ReadsUpTo(clock, latest) && latest < s.nextDue
    ensures Informs(s, interval, clock) == []
    decreases |clock|
  {
    if clock != [] { NoneBeforeStart(s, interval, clock[1..], latest); }
  }

  /** When the due time wraps, the next poll at the same reading fires at once. */
  lemma WrappedDueTime(lastSeq: uint32, startedAt: uint64, interval: uint32, latest: uint64)
    requires latest + interval >= TWO_64 && latest >= startedAt
    ensures var f := Informs(Begin(lastSeq, startedAt), interval, [latest, latest]);
            |f| == 2 && f[0].0 == f[1].0 == latest
  {
    var s := AfterPoll(Begin(lastSeq, startedAt), interval, latest);
    assert s.nextDue == latest + interval - TWO_64;
    assert [latest, latest][1..] == [latest] && [latest][1..] == [];
    assert Informs(s, interval, [latest]) == [(latest, Polled(s, interval, latest))];
  }

  /** Informs are spaced for every clock that reads no later than `latest` exactly when the due time
      computed at that reading does not overflow, or the reading is before the start anyway. */
  lemma SpacedExactly(lastSeq: uint32, startedAt: uint64, interval: uint32, latest: uint64)
    requires interval >= MIN_INTERVAL_MS
    ensures (forall clock :: ReadsUpTo(clock, latest) ==> Spaced(Informs(Begin(lastSeq, startedAt), interval, clock), interval, startedAt))
            <==> latest + interval < TWO_64 || latest < startedAt
  {
    var s := Begin(lastSeq, startedAt);
    if latest + interval < TWO_64 || latest < startedAt {
      forall clock | ReadsUpTo(clock, latest) ensures Spaced(Informs(s, interval, clock), interval, startedAt) {
        if latest < startedAt {
          NoneBeforeStart(s, interval, clock, latest);
        } else {
          Spacing(s, interval, clock);
        }
      }
    } else {
      var clock := [latest, latest];
      WrappedDueTime(lastSeq, startedAt, interval, latest);
      assert ReadsUpTo(clock, latest);
      var f := Informs(s, interval, clock);
      hide Informs;
      assert !Spaced(f, interval, startedAt) by {
        assert f[1].0 < f[0].0 + interval;
      }
    }
  }

  function Repeated(reading: uint64, k: nat): seq<uint64> { seq(k, _ => reading) }

  lemma {:induction false} WrappedAlwaysFires(s: Schedule, interval: uint32, latest: uint64, k: nat)
    requires s.started && s.nextDue <= latest && latest + interval >= TWO_64
    ensures |Informs(s, interval, Repeated(latest, k))| == k
    decreases k
  {
    if k > 0 {
      var next := AfterPoll(s, interval, latest);
      assert next.nextDue == latest + interval - TWO_64;
      assert Repeated(latest, k)[1..] == Repeated(latest, k - 1);
      WrappedAlwaysFires(next, interval, latest, k - 1);
    }
  }

  /** The bound on the number of informs holds for the same readings as the spacing, and no others. */
  lemma CountedExactly(configured: uint32, lastSeq: uint32, startedAt: uint64, latest: uint64)
    ensures var (s, interval) := (Begin(lastSeq, startedAt), Interval(configured));
            (forall clock :: ReadsUpTo(clock, latest) ==> |Informs(s, interval, clock)| <= Allowance(startedAt, interval, latest))
            <==> latest + interval < TWO_64 || latest < startedAt
  {
    var (s, interval) := (Begin(lastSeq, startedAt), Interval(configured));
    forall clock | ReadsUpTo(clock, latest) && (latest + interval < TWO_64 || latest < startedAt)
      ensures |Informs(s, interval, clock)| <= Allowance(startedAt, interval, latest)
    {
      if latest < startedAt {
        NoneBeforeStart(s, interval, clock, latest);
      } else {
        AtMostOnePerInterval(configured, lastSeq, startedAt, clock, latest);
      }
    }
    if latest + interval >= TWO_64 && latest >= startedAt {
      var k := 1 + Allowance(startedAt, interval, latest);
      hide Allowance;
      WrappedAlwaysFires(s, interval, latest, k);
      assert ReadsUpTo(Repeated(latest, k), latest);
    }
  }
}
