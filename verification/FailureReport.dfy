/** What a failed integrity check leaves in the log, in numbers. */
module FailureReport {
  import opened Words
  import opened WordIntegers
  import opened TraceLog
  import opened TraceEngine
  import opened LogReference

  lemma FailureInts(code: nat, tsc: Word)
    requires code <= 3
    ensures var c := FailureEvent(code, tsc); c.kind as int == 5 && c.data as int == code && c.tsc == tsc
  {
    WordInt(code);
  }

  lemma Small(n: nat)
    requires n < 256
    ensures n % 256 == n
  {
  }

  lemma KindOfSlot(s: Slot, c: Call, kind: nat)
    requires Holds(s, c) && c.kind as int == kind < 256
    ensures s.kind as int == kind
  {
    Small(kind);
  }

  /** A failed integrity check is logged with type 5 and the number of the region as data, and is not
      critical. */
  lemma FailureLogged(v: LogView, code: nat, tsc: Word)
    requires v.writeIndex < 1024 && |v.slots| == 1024 && code <= 3
    ensures var c, w := FailureEvent(code, tsc), LogStep(v, FailureEvent(code, tsc));
            && |w.slots| == 1024 && Holds(w.slots[v.writeIndex], c) && c.tsc == tsc
            && w.slots[v.writeIndex].kind as int == 5 && w.slots[v.writeIndex].data as int == code
            && w.critical == v.critical
  {
    var c := FailureEvent(code, tsc);
    FailureInts(code, tsc);
    StepInNumbers(v, c);
    KindOfSlot(LogStep(v, c).slots[v.writeIndex], c, 5);
  }
}
