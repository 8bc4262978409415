/** The bounded event log of the trace engine, for one caller at a time. */
module TraceLog {
  import opened Words

  const TRACE_MAX_EVENTS := 1024
  const TRACE_SEVERITY_CRITICAL: Word := 2

  /** A call of `trace_log_event`: its two arguments and the time stamp counter it reads. */
  datatype Call = Call(kind: Word, data: Word, tsc: Word)

  /** The fields of an event slot that are ever written. */
  datatype Slot = Slot(timestamp: Word, kind: Byte, data: Word)

  const EMPTY := Slot(0, 0, 0)

  /** `rdtsc` leaves only the low half of the counter in RAX. */
  function Low32(tsc: Word): Word { tsc & 0xffff_ffff }

  /** What a call stores: the type is truncated to a byte. */
  function Recorded(c: Call): Slot {
    Slot(Low32(c.tsc), LowByte(c.kind), c.data)
  }

  datatype LogView = LogView(slots: seq<Slot>, writeIndex: nat, eventCount: nat, critical: nat)

  /** The log right after `trace_init`. */
  function FreshLog(): LogView {
    LogView(seq(TRACE_MAX_EVENTS, _ => EMPTY), 0, 0, 0)
  }

  class EventLog {
    const events: array<Slot>
    var writeIndex: nat
    var eventCount: nat
    var critical: nat

    ghost predicate Valid()
      reads this
    {
      events.Length == TRACE_MAX_EVENTS && writeIndex <= TRACE_MAX_EVENTS
    }

    ghost function View(): LogView
      reads this, events
    {
      LogView(events[..], writeIndex, eventCount, critical)
    }

    constructor ()
      ensures Valid() && View() == FreshLog() && fresh(events)
    {
      events := new Slot[TRACE_MAX_EVENTS](_ => EMPTY);
      writeIndex, eventCount, critical := 0, 0, 0;
    }

    /** The part of `trace_init` that concerns the log. */
    method Reset()
      requires Valid()
      modifies this, events
      ensures Valid() && View() == FreshLog()
    {
      forall i | 0 <= i < events.Length {
        events[i] := EMPTY;
      }
      writeIndex, eventCount, critical := 0, 0, 0;
    }

    /** `trace_log_event`. */
    method LogEvent(c: Call) returns (rax: nat)
      requires Valid()
      modifies this, events
      ensures Valid()
      ensures View() == LogStep(old(View()), c)
      ensures rax == if old(writeIndex) < 1024 then 0 else 0xffff_ffff
    {
      if writeIndex >= TRACE_MAX_EVENTS {
        return RAX_MINUS_ONE;
      }
      events[writeIndex] := Slot(Low32(c.tsc), LowByte(c.kind), c.data);
      writeIndex := writeIndex + 1;
      eventCount := eventCount + 1;
      if c.kind == TRACE_SEVERITY_CRITICAL {
        critical := critical + 1;
      }
      rax := 0;
    }
  }

  // ----- whole histories -----

  function LogStep(s: LogView, c: Call): LogView {
    if s.writeIndex < TRACE_MAX_EVENTS && s.writeIndex < |s.slots| then
      LogView(s.slots[s.writeIndex := Recorded(c)], s.writeIndex + 1, s.eventCount + 1,
              s.critical + if c.kind == TRACE_SEVERITY_CRITICAL then 1 else 0)
    else s
  }

  /** The log after a history of calls since `trace_init`. */
  function LogRun(calls: seq<Call>): LogView {
    if calls == [] then FreshLog() else LogStep(LogRun(calls[..|calls| - 1]), calls[|calls| - 1])
  }

  function CountCritical(calls: seq<Call>, n: nat): nat
    requires n <= |calls|
  {
    if n == 0 then 0
    else CountCritical(calls, n - 1) + if calls[n - 1].kind == TRACE_SEVERITY_CRITICAL then 1 else 0
  }

  function Accepted(n: nat): nat {
    if n < TRACE_MAX_EVENTS then n else TRACE_MAX_EVENTS
  }

  /** The log holds exactly the first 1024 calls, in order, and nothing else. */
  ghost predicate HoldsPrefix(s: LogView, calls: seq<Call>) {
    var n := Accepted(|calls|);
    && |s.slots| == TRACE_MAX_EVENTS
    && s.writeIndex == n && s.eventCount == n
    && (forall k | 0 <= k < n :: s.slots[k] == Recorded(calls[k]))
    && (forall k | n <= k < TRACE_MAX_EVENTS :: s.slots[k] == EMPTY)
    && s.critical == CountCritical(calls, n)
  }

  lemma StepHoldsPrefix(s: LogView, calls: seq<Call>, c: Call)
    requires HoldsPrefix(s, calls)
    ensures HoldsPrefix(LogStep(s, c), calls + [c])
  {
    CountCriticalOfPrefix(calls, calls + [c], Accepted(|calls|));
  }

  lemma {:induction false} LogIsHistoryPrefix(calls: seq<Call>)
    ensures HoldsPrefix(LogRun(calls), calls)
  {
    if calls != [] {
      var before, last := calls[..|calls| - 1], calls[|calls| - 1];
      LogIsHistoryPrefix(before);
      StepHoldsPrefix(LogRun(before), before, last);
      assert before + [last] == calls;
    }
  }

  lemma {:induction false} CountCriticalOfPrefix(a: seq<Call>, b: seq<Call>, n: nat)
    requires n <= |a| && n <= |b| && forall k | 0 <= k < n :: a[k] == b[k]
    ensures CountCritical(a, n) == CountCritical(b, n)
  {
    if n != 0 {
      CountCriticalOfPrefix(a, b, n - 1);
    }
  }

  /** A call succeeds exactly if fewer than 1024 came before it; one that fails changes nothing. */
  lemma FullLogRejects(calls: seq<Call>, c: Call)
    ensures LogRun(calls).writeIndex < TRACE_MAX_EVENTS <==> |calls| < TRACE_MAX_EVENTS
    ensures |calls| >= TRACE_MAX_EVENTS ==> LogRun(calls + [c]) == LogRun(calls)
  {
    LogIsHistoryPrefix(calls);
    assert (calls + [c])[..|calls|] == calls;
  }
}
