/** `trace_log_event` run by any number of loggers at once.

    The routine is not atomic: it loads and checks the write index, stores the three fields of the
    slot one after the other, and then increments the write index, the event count and, for a
    critical event, the critical count, each with a `lock inc`. A step of the machine below is one
    of these memory operations by one logger; a run is any sequence of steps by any loggers.
 */
module ConcurrentLog {
  import opened Words
  import opened TraceLog

  /** Where a logger stands: it has just done what the stage is named after. */
  datatype Stage = Idle | Checked | StampStored | TypeStored | DataStored | Indexed | Counted

  /** A logger, the index it loaded and the call it serves. */
  datatype Logger = Logger(stage: Stage, index: nat, call: Call)

  /** A call that passed the check, with the index it loaded. */
  datatype Ticket = Ticket(index: nat, call: Call)

  datatype State = State(
    slots: seq<Slot>, writeIndex: nat, eventCount: nat, critical: nat, loggers: seq<Logger>,
    // history: the calls that passed the check, those that returned 0, and whether a logger ever
    // passed the check while another one was between its check and its index increment
    handed: seq<Ticket>, finished: seq<Ticket>, overlapped: bool)

  /** Between the check and the increment of the write index. */
  predicate InFlight(l: Logger) {
    l.stage.Checked? || l.stage.StampStored? || l.stage.TypeStored? || l.stage.DataStored?
  }

  predicate BetweenIncrements(l: Logger) {
    l.stage.Indexed?
  }

  predicate BeforeReturn(l: Logger) {
    l.stage.Counted?
  }

  predicate PendingCritical(l: Logger) {
    !l.stage.Idle? && l.call.kind == TRACE_SEVERITY_CRITICAL
  }

  function Count(ls: seq<Logger>, p: Logger -> bool): nat {
    if ls == [] then 0 else Count(ls[..|ls| - 1], p) + if p(ls[|ls| - 1]) then 1 else 0
  }

  lemma {:induction false} CountUpdate(ls: seq<Logger>, p: Logger -> bool, i: nat, l: Logger)
    requires i < |ls|
    ensures Count(ls[i := l], p) == Count(ls, p) - (if p(ls[i]) then 1 else 0) + (if p(l) then 1 else 0)
  {
    var last := |ls| - 1;
    if i < last {
      assert ls[i := l][..last] == ls[..last][i := l];
      CountUpdate(ls[..last], p, i, l);
    } else {
      assert ls[i := l][..last] == ls[..last];
    }
  }

  lemma {:induction false} CountBound(ls: seq<Logger>, p: Logger -> bool, i: nat)
    requires i < |ls|
    ensures Count(ls, p) + (if p(ls[i]) then 0 else 1) <= |ls|
    ensures p(ls[i]) ==> 0 < Count(ls, p)
  {
    var last := |ls| - 1;
    if i < last {
      CountBound(ls[..last], p, i);
    } else if last > 0 {
      CountBound(ls[..last], p, 0);
    }
  }

  lemma {:induction false} CountPair(ls: seq<Logger>, p: Logger -> bool, i: nat, j: nat)
    requires i < j < |ls| && p(ls[i]) && p(ls[j])
    ensures 2 <= Count(ls, p)
  {
    var last := |ls| - 1;
    if j < last {
      CountPair(ls[..last], p, i, j);
    } else {
      CountBound(ls[..last], p, i);
    }
  }

  lemma {:induction false} CountWitness(ls: seq<Logger>, p: Logger -> bool) returns (i: nat)
    requires 0 < Count(ls, p)
    ensures i < |ls| && p(ls[i])
  {
    i := |ls| - 1;
    if !p(ls[i]) {
      i := CountWitness(ls[..i], p);
    }
  }

  // ----- the machine -----

  datatype Action = Action(who: nat, call: Call)

  function Start(loggers: nat): State {
    State(FreshLog().slots, 0, 0, 0, seq(loggers, _ => Logger(Idle, 0, Call(0, 0, 0))), [], [], false)
  }

  function StoreAt(slots: seq<Slot>, i: nat, s: Slot): seq<Slot> {
    if i < |slots| then slots[i := s] else slots
  }

  function SlotAt(slots: seq<Slot>, i: nat): Slot {
    if i < |slots| then slots[i] else EMPTY
  }

  /** The next memory operation of logger a.who, who begins the call a.call if idle. */
  function Step(s: State, a: Action): State
    requires a.who < |s.loggers|
  {
    var l := s.loggers[a.who];
    match l.stage
    case Idle =>
      if s.writeIndex >= TRACE_MAX_EVENTS then s
      else s.(loggers := s.loggers[a.who := Logger(Checked, s.writeIndex, a.call)],
              handed := s.handed + [Ticket(s.writeIndex, a.call)],
              overlapped := s.overlapped || Count(s.loggers, InFlight) > 0)
    case Checked =>
      s.(slots := StoreAt(s.slots, l.index, SlotAt(s.slots, l.index).(timestamp := Low32(l.call.tsc))),
         loggers := s.loggers[a.who := l.(stage := StampStored)])
    case StampStored =>
      s.(slots := StoreAt(s.slots, l.index, SlotAt(s.slots, l.index).(kind := LowByte(l.call.kind))),
         loggers := s.loggers[a.who := l.(stage := TypeStored)])
    case TypeStored =>
      s.(slots := StoreAt(s.slots, l.index, SlotAt(s.slots, l.index).(data := l.call.data)),
         loggers := s.loggers[a.who := l.(stage := DataStored)])
    case DataStored =>
      s.(writeIndex := s.writeIndex + 1, loggers := s.loggers[a.who := l.(stage := Indexed)])
    case Indexed =>
      s.(eventCount := s.eventCount + 1, loggers := s.loggers[a.who := l.(stage := Counted)])
    case Counted =>
      s.(critical := s.critical + if l.call.kind == TRACE_SEVERITY_CRITICAL then 1 else 0,
         finished := s.finished + [Ticket(l.index, l.call)],
         loggers := s.loggers[a.who := l.(stage := Idle)])
  }

  /** The state after the steps of run; steps of unknown loggers are skipped. */
  function After(s: State, run: seq<Action>): (s': State)
    ensures |s'.loggers| == |s.loggers|
  {
    if run == [] then s
    else
      var t, a := After(s, run[..|run| - 1]), run[|run| - 1];
      if a.who < |t.loggers| then Step(t, a) else t
  }

  /** A whole run of n loggers since `trace_init`. */
  function Run(n: nat, run: seq<Action>): (s: State)
    ensures |s.loggers| == n
  {
    After(Start(n), run)
  }

  // ----- safety and conservation -----

  /** Every slot that is worked on is one of the table; what is stored for good is below the write
      index. */
  ghost predicate IndicesOk(s: State) {
    && |s.slots| == TRACE_MAX_EVENTS
    && (forall i | 0 <= i < |s.loggers| && !s.loggers[i].stage.Idle? ::
          s.loggers[i].index < TRACE_MAX_EVENTS && s.loggers[i].index <= s.writeIndex)
    && (forall i | 0 <= i < |s.loggers| && (s.loggers[i].stage.Indexed? || s.loggers[i].stage.Counted?) ::
          s.loggers[i].index < s.writeIndex)
    && (forall k | 0 <= k < |s.finished| :: s.finished[k].index < s.writeIndex)
    && (forall k | 0 <= k < |s.handed| :: s.handed[k].index < TRACE_MAX_EVENTS)
  }

  ghost predicate Safe(s: State) {
    IndicesOk(s) && s.writeIndex + Count(s.loggers, InFlight) <= TRACE_MAX_EVENTS - 1 + |s.loggers|
  }

  function Calls(ts: seq<Ticket>): (cs: seq<Call>)
    ensures |cs| == |ts|
  {
    seq(|ts|, k requires 0 <= k < |ts| => ts[k].call)
  }

  function CriticalAmong(ts: seq<Ticket>): nat {
    CountCritical(Calls(ts), |ts|)
  }

  ghost predicate Conserved(s: State) {
    && s.writeIndex == s.eventCount + Count(s.loggers, BetweenIncrements)
    && s.eventCount == |s.finished| + Count(s.loggers, BeforeReturn)
    && |s.handed| == s.writeIndex + Count(s.loggers, InFlight)
    && CriticalConserved(s)
  }

  ghost predicate CriticalConserved(s: State) {
    CriticalAmong(s.handed) == s.critical + Count(s.loggers, PendingCritical)
  }

  lemma StepCounts(s: State, a: Action, p: Logger -> bool)
    requires a.who < |s.loggers|
    ensures var l, l' := s.loggers[a.who], Step(s, a).loggers[a.who];
            Count(Step(s, a).loggers, p) == Count(s.loggers, p) - (if p(l) then 1 else 0) + (if p(l') then 1 else 0)
  {
    CountUpdate(s.loggers, p, a.who, Step(s, a).loggers[a.who]);
  }

  lemma StepKeepsIndices(s: State, a: Action)
    requires IndicesOk(s) && a.who < |s.loggers|
    ensures IndicesOk(Step(s, a))
  {
  }

  lemma StepKeepsSafe(s: State, a: Action)
    requires Safe(s) && a.who < |s.loggers|
    ensures Safe(Step(s, a))
  {
    StepKeepsIndices(s, a);
    StepCounts(s, a, InFlight);
    CountBound(s.loggers, InFlight, a.who);
  }

  lemma StepConservesCritical(s: State, a: Action)
    requires CriticalConserved(s) && a.who < |s.loggers|
    ensures CriticalConserved(Step(s, a))
  {
    StepCounts(s, a, PendingCritical);
    var l, s' := s.loggers[a.who], Step(s, a);
    match l.stage
    case Idle =>
      OneMoreCritical(s.handed, Ticket(s.writeIndex, a.call));
    case Counted =>
      assert s'.handed == s.handed && !PendingCritical(s'.loggers[a.who]);
    case _ =>
      assert s'.handed == s.handed && PendingCritical(s'.loggers[a.who]) == PendingCritical(l);
  }

  lemma OneMoreCritical(ts: seq<Ticket>, t: Ticket)
    ensures CriticalAmong(ts + [t]) == CriticalAmong(ts) + if t.call.kind == TRACE_SEVERITY_CRITICAL then 1 else 0
  {
    CountCriticalOfPrefix(Calls(ts), Calls(ts + [t]), |ts|);
  }

  lemma StepConserves(s: State, a: Action)
    requires Conserved(s) && a.who < |s.loggers|
    ensures Conserved(Step(s, a))
  {
    StepCounts(s, a, InFlight);
    StepCounts(s, a, BetweenIncrements);
    StepCounts(s, a, BeforeReturn);
    StepConservesCritical(s, a);
  }

  lemma {:induction false} StartCounts(n: nat, p: Logger -> bool)
    requires !p(Logger(Idle, 0, Call(0, 0, 0)))
    ensures Count(seq(n, _ => Logger(Idle, 0, Call(0, 0, 0))), p) == 0
  {
    if n != 0 {
      var ls := seq(n, _ => Logger(Idle, 0, Call(0, 0, 0)));
      assert ls[..n - 1] == seq(n - 1, _ => Logger(Idle, 0, Call(0, 0, 0)));
      StartCounts(n - 1, p);
    }
  }

  // ----- when the log keeps every event -----

  /** No two calls were handed the same slot. */
  ghost predicate Distinct(handed: seq<Ticket>) {
    forall j, k | 0 <= j < k < |handed| :: handed[j].index != handed[k].index
  }

  /** The fields of its slot that a logger has stored. */
  ghost predicate Written(slot: Slot, l: Logger) {
    && (l.stage.StampStored? || l.stage.TypeStored? || l.stage.DataStored? ==> slot.timestamp == Low32(l.call.tsc))
    && (l.stage.TypeStored? || l.stage.DataStored? ==> slot.kind == LowByte(l.call.kind))
    && (l.stage.DataStored? ==> slot.data == l.call.data)
  }

  /** The state of a log whose calls never overlapped: tickets count up, at most one logger is in
      flight, and it works on the last ticket; all earlier slots hold their events. */
  ghost predicate Orderly(s: State) {
    && Count(s.loggers, InFlight) <= 1
    && (forall k | 0 <= k < |s.handed| :: s.handed[k].index == k)
    && (forall i | 0 <= i < |s.loggers| && InFlight(s.loggers[i]) ::
          && s.loggers[i].index == s.writeIndex == |s.handed| - 1
          && s.loggers[i].call == s.handed[s.writeIndex].call
          && Written(SlotAt(s.slots, s.writeIndex), s.loggers[i]))
    && s.writeIndex <= |s.handed|
    && (forall k | 0 <= k < s.writeIndex :: SlotAt(s.slots, k) == Recorded(s.handed[k].call))
    && (forall k | |s.handed| <= k < TRACE_MAX_EVENTS :: SlotAt(s.slots, k) == EMPTY)
  }

  lemma Alone(ls: seq<Logger>, i: nat)
    requires i < |ls| && InFlight(ls[i]) && Count(ls, InFlight) <= 1
    ensures forall j | 0 <= j < |ls| && j != i :: !InFlight(ls[j])
  {
    forall j | 0 <= j < |ls| && j != i
      ensures !InFlight(ls[j])
    {
      if InFlight(ls[j]) {
        CountPair(ls, InFlight, if i < j then i else j, if i < j then j else i);
      }
    }
  }

  /** A check while nobody is in flight keeps the order; a check while somebody is in flight hands
      out the slot of that logger a second time. */
  lemma CheckKeepsOrder(s: State, a: Action)
    requires Safe(s) && Conserved(s) && Orderly(s) && a.who < |s.loggers| && s.loggers[a.who].stage.Idle?
    ensures !Step(s, a).overlapped ==> Orderly(Step(s, a))
    ensures !s.overlapped && Step(s, a).overlapped ==> !Distinct(Step(s, a).handed)
  {
    StepCounts(s, a, InFlight);
    var s' := Step(s, a);
    if s.writeIndex < TRACE_MAX_EVENTS {
      var n := |s.handed|;
      if Count(s.loggers, InFlight) > 0 {
        var i := CountWitness(s.loggers, InFlight);
        assert s'.handed[n - 1].index == s'.handed[n].index;
      } else {
        forall i | 0 <= i < |s.loggers|
          ensures !InFlight(s.loggers[i])
        {
          CountBound(s.loggers, InFlight, i);
        }
      }
    }
  }

  /** A logger in flight stores a field of its own slot or increments the write index past it. */
  lemma FlightStepKeepsOrder(s: State, a: Action)
    requires Safe(s) && Conserved(s) && Orderly(s) && a.who < |s.loggers| && InFlight(s.loggers[a.who])
    ensures Orderly(Step(s, a))
  {
    StepCounts(s, a, InFlight);
    Alone(s.loggers, a.who);
    var l, s' := s.loggers[a.who], Step(s, a);
    if l.stage.DataStored? {
      var slot := SlotAt(s.slots, s.writeIndex);
      assert slot == Slot(slot.timestamp, slot.kind, slot.data) == Recorded(l.call);
    } else {
      forall k | 0 <= k < TRACE_MAX_EVENTS && k != s.writeIndex
        ensures SlotAt(s'.slots, k) == SlotAt(s.slots, k)
      {
      }
    }
  }

  lemma OtherStepKeepsOrder(s: State, a: Action)
    requires Safe(s) && Conserved(s) && Orderly(s) && a.who < |s.loggers| && !s.loggers[a.who].stage.Idle?
    ensures Orderly(Step(s, a))
  {
    if InFlight(s.loggers[a.who]) {
      FlightStepKeepsOrder(s, a);
    } else {
      StepCounts(s, a, InFlight);
    }
  }

  ghost predicate WasHanded(handed: seq<Ticket>, i: nat) {
    exists k :: 0 <= k < |handed| && handed[k].index == i
  }

  /** A slot nobody was handed has not been stored to; loggers were handed what they work on. */
  ghost predicate OnlyHandedStored(s: State) {
    && (forall i | 0 <= i < TRACE_MAX_EVENTS && !WasHanded(s.handed, i) :: SlotAt(s.slots, i) == EMPTY)
    && (forall i | 0 <= i < |s.loggers| && !s.loggers[i].stage.Idle? :: WasHanded(s.handed, s.loggers[i].index))
  }

  lemma StepStoresOnlyHanded(s: State, a: Action)
    requires Safe(s) && OnlyHandedStored(s) && a.who < |s.loggers|
    ensures OnlyHandedStored(Step(s, a))
  {
    var s' := Step(s, a);
    forall i: nat | WasHanded(s.handed, i)
      ensures WasHanded(s'.handed, i)
    {
      var k :| 0 <= k < |s.handed| && s.handed[k].index == i;
      assert s'.handed[k].index == i;
    }
    if s'.handed != s.handed {
      assert s'.handed[|s.handed|].index == s.writeIndex;
    }
  }

  /** Once two calls were handed one slot, that is on record; before, the log is in order. */
  ghost predicate OverlapOnRecord(s: State) {
    if s.overlapped then !Distinct(s.handed) else Orderly(s)
  }

  lemma StepKeepsRecord(s: State, a: Action)
    requires Safe(s) && Conserved(s) && OverlapOnRecord(s) && a.who < |s.loggers|
    ensures OverlapOnRecord(Step(s, a))
  {
    var s' := Step(s, a);
    if s.overlapped {
      var j, k :| 0 <= j < k < |s.handed| && s.handed[j].index == s.handed[k].index;
      assert s'.handed[j].index == s'.handed[k].index;
    } else if s.loggers[a.who].stage.Idle? {
      CheckKeepsOrder(s, a);
    } else {
      OtherStepKeepsOrder(s, a);
    }
  }

  /** What holds of every reachable state. */
  ghost predicate Inv(s: State) {
    Safe(s) && Conserved(s) && OnlyHandedStored(s) && OverlapOnRecord(s)
  }

  lemma StepKeepsInv(s: State, a: Action)
    requires Inv(s) && a.who < |s.loggers|
    ensures Inv(Step(s, a))
  {
    StepKeepsSafe(s, a);
    StepConserves(s, a);
    StepStoresOnlyHanded(s, a);
    StepKeepsRecord(s, a);
  }

  lemma {:induction false} RunKeepsInv(s: State, run: seq<Action>)
    requires Inv(s)
    ensures Inv(After(s, run))
  {
    if run != [] {
      var t, a := After(s, run[..|run| - 1]), run[|run| - 1];
      RunKeepsInv(s, run[..|run| - 1]);
      if a.who < |t.loggers| {
        StepKeepsInv(t, a);
      }
    }
  }

  lemma ReachableInv(n: nat, run: seq<Action>)
    ensures Inv(Run(n, run))
  {
    StartCounts(n, InFlight);
    StartCounts(n, BetweenIncrements);
    StartCounts(n, BeforeReturn);
    StartCounts(n, PendingCritical);
    RunKeepsInv(Start(n), run);
  }
}
