/** What the log holds, in numbers: the slots of the first 1024 calls and the counters. */
module LogReference {
  import opened Words
  import opened WordIntegers
  import opened TraceLog
  import opened ConcurrentLog
  import opened ConcurrentLogTheorems

  /** The slot has the low half of the counter, the low byte of the type, and the data. */
  ghost predicate Holds(s: Slot, c: Call) {
    && s.timestamp as int == c.tsc as int % 0x1_0000_0000
    && s.kind as int == c.kind as int % 256
    && s.data == c.data
  }

  /** The positions below n of the calls of type 2. */
  ghost function CriticalCalls(calls: seq<Call>, n: nat): set<nat>
    requires n <= |calls|
  {
    set k: nat | k < n && calls[k].kind as int == 2
  }

  /** The log is that of these calls: the first 1024 in their order, and nothing else. */
  ghost predicate IsLogOf(s: LogView, calls: seq<Call>) {
    var n := if |calls| < 1024 then |calls| else 1024;
    && |s.slots| == 1024 && s.writeIndex == n && s.eventCount == n
    && s.critical == |CriticalCalls(calls, n)|
    && forall k | 0 <= k < 1024 :: if k < n then Holds(s.slots[k], calls[k]) else s.slots[k] == Slot(0, 0, 0)
  }

  lemma RecordedHolds(c: Call)
    ensures Holds(Recorded(c), c)
  {
    LowHalfInt(c.tsc);
    LowByteInt(c.kind);
  }

  lemma CriticalIsTwo(kind: Word)
    ensures kind == TRACE_SEVERITY_CRITICAL <==> kind as int == 2
  {
    IntAndBack(kind);
  }

  lemma OneMoreCall(calls: seq<Call>, n: nat)
    requires 0 < n <= |calls|
    ensures |CriticalCalls(calls, n)| == |CriticalCalls(calls, n - 1)| + if calls[n - 1].kind as int == 2 then 1 else 0
  {
    var before := CriticalCalls(calls, n - 1);
    assert CriticalCalls(calls, n) == if calls[n - 1].kind as int == 2 then before + {n - 1} else before;
  }

  lemma {:induction false} CountIsSize(calls: seq<Call>, n: nat)
    requires n <= |calls|
    ensures CountCritical(calls, n) == |CriticalCalls(calls, n)|
  {
    if n != 0 {
      CountIsSize(calls, n - 1);
      CriticalIsTwo(calls[n - 1].kind);
      OneMoreCall(calls, n);
    }
  }

  lemma PrefixIsLog(s: LogView, calls: seq<Call>)
    requires HoldsPrefix(s, calls)
    ensures IsLogOf(s, calls)
  {
    var n := Accepted(|calls|);
    CountIsSize(calls, n);
    forall k | 0 <= k < n
      ensures Holds(s.slots[k], calls[k])
    {
      RecordedHolds(calls[k]);
    }
  }

  /** One call: a slot is filled and the counters go up while there is one left; then nothing changes. */
  lemma StepInNumbers(v: LogView, c: Call)
    requires |v.slots| == 1024
    ensures var w := LogStep(v, c);
            if v.writeIndex < 1024 then
              && |w.slots| == 1024 && Holds(w.slots[v.writeIndex], c)
              && (forall k | 0 <= k < 1024 && k != v.writeIndex :: w.slots[k] == v.slots[k])
              && w.writeIndex == v.writeIndex + 1 && w.eventCount == v.eventCount + 1
              && w.critical == v.critical + if c.kind as int == 2 then 1 else 0
            else w == v
  {
    RecordedHolds(c);
    CriticalIsTwo(c.kind);
  }

  /** One caller's log. */
  lemma LogInNumbers(calls: seq<Call>)
    ensures IsLogOf(LogRun(calls), calls)
  {
    LogIsHistoryPrefix(calls);
    PrefixIsLog(LogRun(calls), calls);
  }

  /** The log of any number of loggers whose checks did not overlap, once no call is under way. */
  lemma SerialLogInNumbers(n: nat, run: seq<Action>)
    requires Quiescent(Run(n, run)) && !Run(n, run).overlapped
    ensures var s := Run(n, run);
            IsLogOf(LogView(s.slots, s.writeIndex, s.eventCount, s.critical), Calls(s.handed))
  {
    SerialRunsRefineSequentialLog(n, run);
    LogInNumbers(Calls(Run(n, run).handed));
  }
}
