/** What every run of any number of concurrent loggers guarantees, and exactly when the log loses
    an event.
 */
module ConcurrentLogTheorems {
  import opened TraceLog
  import opened ConcurrentLog

  /** No call is under way. */
  ghost predicate Quiescent(s: State) {
    forall i | 0 <= i < |s.loggers| :: s.loggers[i].stage.Idle?
  }

  /** Every slot a logger works on is one of the 1024; the write index runs past the table by less
      than the number of loggers; and a finished call stored below the write index. */
  lemma StoresStayInTable(n: nat, run: seq<Action>)
    ensures var s := Run(n, run);
            && (forall i | 0 <= i < n && !s.loggers[i].stage.Idle? :: s.loggers[i].index < TRACE_MAX_EVENTS)
            && s.writeIndex + Count(s.loggers, InFlight) <= TRACE_MAX_EVENTS - 1 + n
            && (forall k | 0 <= k < |s.finished| :: s.finished[k].index < s.writeIndex)
  {
    ReachableInv(n, run);
  }

  lemma {:induction false} QuiescentCounts(ls: seq<Logger>, p: Logger -> bool)
    requires forall i | 0 <= i < |ls| :: !p(ls[i])
    ensures Count(ls, p) == 0
  {
    if ls != [] {
      QuiescentCounts(ls[..|ls| - 1], p);
    }
  }

  /** At every moment the write index is ahead of the event count by exactly the loggers between
      the two increments; once no call is under way, both equal the number of calls that returned
      0, which are all that passed the check, and the critical count counts the critical ones. */
  lemma CountsAreConserved(n: nat, run: seq<Action>)
    ensures var s := Run(n, run);
            && s.writeIndex - s.eventCount == Count(s.loggers, BetweenIncrements)
            && (Quiescent(s) ==>
                  && s.writeIndex == s.eventCount == |s.finished| == |s.handed|
                  && s.critical == CriticalAmong(s.handed))
  {
    ReachableInv(n, run);
    var s := Run(n, run);
    if Quiescent(s) {
      QuiescentCounts(s.loggers, InFlight);
      QuiescentCounts(s.loggers, BetweenIncrements);
      QuiescentCounts(s.loggers, BeforeReturn);
      QuiescentCounts(s.loggers, PendingCritical);
    }
  }

  /** Two calls are handed the same slot exactly if some call passed the check while another one
      was between its check and its index increment. */
  lemma SlotSharedIffOverlap(n: nat, run: seq<Action>)
    ensures Run(n, run).overlapped <==> !Distinct(Run(n, run).handed)
  {
    ReachableInv(n, run);
  }

  /** A run whose calls did not overlap in that way leaves exactly the log that one caller making
      the same calls in that order would have left. */
  lemma SerialRunsRefineSequentialLog(n: nat, run: seq<Action>)
    requires Quiescent(Run(n, run)) && !Run(n, run).overlapped
    ensures var s := Run(n, run);
            LogView(s.slots, s.writeIndex, s.eventCount, s.critical) == LogRun(Calls(s.handed))
  {
    ReachableInv(n, run);
    CountsAreConserved(n, run);
    var s := Run(n, run);
    var cs := Calls(s.handed);
    LogIsHistoryPrefix(cs);
    TicketsFit(s);
    assert s.slots == LogRun(cs).slots by {
      forall k | 0 <= k < TRACE_MAX_EVENTS
        ensures s.slots[k] == LogRun(cs).slots[k]
      {
        assert SlotAt(s.slots, k) == s.slots[k];
      }
    }
  }

  lemma TicketsFit(s: State)
    requires Inv(s) && !s.overlapped && Quiescent(s)
    ensures |s.handed| == s.writeIndex <= TRACE_MAX_EVENTS
  {
    QuiescentCounts(s.loggers, InFlight);
    if s.handed != [] {
      assert s.handed[|s.handed| - 1].index == |s.handed| - 1;
    }
  }

  // ----- a lost event leaves a hole -----

  function Indices(ts: seq<Ticket>): set<nat> {
    set k | 0 <= k < |ts| :: ts[k].index
  }

  lemma {:induction false} IndicesBound(ts: seq<Ticket>)
    ensures |Indices(ts)| <= |ts|
  {
    if ts != [] {
      var before, last := ts[..|ts| - 1], ts[|ts| - 1];
      IndicesBound(before);
      assert Indices(ts) == Indices(before) + {last.index};
    }
  }

  function Below(n: nat): set<nat> {
    if n == 0 then {} else Below(n - 1) + {n - 1}
  }

  lemma {:induction false} BelowSize(n: nat)
    ensures |Below(n)| == n && forall i: nat :: i in Below(n) <==> i < n
  {
    if n != 0 {
      BelowSize(n - 1);
    }
  }

  /** If n tickets cover all indices below n, no two of them are for the same index. */
  lemma CoverIsDistinct(ts: seq<Ticket>)
    requires forall i: nat | i < |ts| :: WasHanded(ts, i)
    ensures Distinct(ts)
  {
    if j, k :| 0 <= j < k < |ts| && ts[j].index == ts[k].index {
      var rest := ts[..k] + ts[k + 1..];
      forall i: nat | i < |ts|
        ensures i in Indices(rest)
      {
        assert WasHanded(ts, i);
        var t :| 0 <= t < |ts| && ts[t].index == i;
        var r := if t < k then t else if t == k then j else t - 1;
        assert rest[r].index == i;
      }
      IndicesBound(rest);
      BelowSize(|ts|);
      SubsetSize(Below(|ts|), Indices(rest));
    }
  }

  lemma SubsetSize(a: set<nat>, b: set<nat>)
    requires a <= b
    ensures |a| <= |b|
  {
    assert b == a + (b - a);
  }

  /** Once no call is under way, the counters claim an event that no slot holds exactly if two
      checks overlapped: some index below the write index was handed to nobody, and if it is an
      index of the table, that slot is still empty. */
  lemma HoleIffOverlap(n: nat, run: seq<Action>)
    requires Quiescent(Run(n, run))
    ensures var s := Run(n, run);
            && (s.overlapped <==> exists i: nat :: i < s.writeIndex && !WasHanded(s.handed, i))
            && (forall i: nat | i < TRACE_MAX_EVENTS && !WasHanded(s.handed, i) :: SlotAt(s.slots, i) == EMPTY)
  {
    ReachableInv(n, run);
    CountsAreConserved(n, run);
    var s := Run(n, run);
    if s.overlapped {
      if forall i: nat | i < s.writeIndex :: WasHanded(s.handed, i) {
        CoverIsDistinct(s.handed);
      }
    } else {
      forall i: nat | i < s.writeIndex
        ensures WasHanded(s.handed, i)
      {
        assert s.handed[i].index == i;
      }
    }
  }

  // ----- the bound on the write index is reached -----

  ghost predicate Reachable(n: nat, s: State) {
    exists run :: Run(n, run) == s
  }

  lemma StepReachable(n: nat, s: State, a: Action)
    requires Reachable(n, s) && a.who < n && |s.loggers| == n
    ensures Reachable(n, Step(s, a))
  {
    var run :| Run(n, run) == s;
    assert (run + [a])[..|run|] == run;
    assert Run(n, run + [a]) == Step(s, a);
  }

  /** The stages of all loggers: those below j are at one, the others at another. */
  ghost predicate SplitAt(s: State, j: nat, low: Stage, high: Stage) {
    forall i | 0 <= i < |s.loggers| :: s.loggers[i].stage == if i < j then low else high
  }

  lemma ReachSteps(n: nat, s: State, who: nat, c: Call, k: nat) returns (t: State)
    requires Reachable(n, s) && who < n && |s.loggers| == n
    requires s.loggers[who].stage.Checked? && (k == 4 || k == 6)
    ensures Reachable(n, t) && |t.loggers| == n && t.writeIndex == s.writeIndex + 1
    ensures forall i | 0 <= i < n && i != who :: t.loggers[i] == s.loggers[i]
    ensures t.loggers[who].stage == if k == 4 then Indexed else Idle
  {
    var a := Action(who, c);
    t := s;
    for i := 0 to 4
      invariant Reachable(n, t) && |t.loggers| == n
      invariant t.writeIndex == s.writeIndex + if i == 4 then 1 else 0
      invariant forall i | 0 <= i < n && i != who :: t.loggers[i] == s.loggers[i]
      invariant t.loggers[who].stage == [Checked, StampStored, TypeStored, DataStored, Indexed][i]
    {
      StepReachable(n, t, a);
      t := Step(t, a);
    }
    if k == 6 {
      StepReachable(n, t, a);
      t := Step(t, a);
      StepReachable(n, t, a);
      t := Step(t, a);
    }
  }

  lemma {:induction false} ReachFilled(n: nat, c: Call, w: nat) returns (s: State)
    requires 0 < n && w < TRACE_MAX_EVENTS
    ensures Reachable(n, s) && |s.loggers| == n && SplitAt(s, 0, Idle, Idle) && s.writeIndex == w
  {
    if w == 0 {
      s := Start(n);
      assert Run(n, []) == s;
    } else {
      s := ReachFilled(n, c, w - 1);
      StepReachable(n, s, Action(0, c));
      s := ReachSteps(n, Step(s, Action(0, c)), 0, c, 6);
    }
  }

  lemma {:induction false} ReachChecked(n: nat, c: Call, j: nat) returns (s: State)
    requires 0 < n && j <= n
    ensures Reachable(n, s) && |s.loggers| == n && SplitAt(s, j, Checked, Idle) && s.writeIndex == TRACE_MAX_EVENTS - 1
  {
    if j == 0 {
      s := ReachFilled(n, c, TRACE_MAX_EVENTS - 1);
    } else {
      s := ReachChecked(n, c, j - 1);
      StepReachable(n, s, Action(j - 1, c));
      s := Step(s, Action(j - 1, c));
    }
  }

  lemma {:induction false} ReachIndexed(n: nat, c: Call, j: nat) returns (s: State)
    requires 0 < n && j <= n
    ensures Reachable(n, s) && |s.loggers| == n && SplitAt(s, j, Indexed, Checked)
    ensures s.writeIndex == TRACE_MAX_EVENTS - 1 + j
  {
    if j == 0 {
      s := ReachChecked(n, c, n);
    } else {
      s := ReachIndexed(n, c, j - 1);
      s := ReachSteps(n, s, j - 1, c, 4);
    }
  }

  /** With n loggers the write index can indeed reach 1023 + n, so the check alone does not keep it
      within the table unless there is only one logger. */
  lemma BoundIsReached(n: nat)
    requires 0 < n
    ensures exists run :: Run(n, run).writeIndex == TRACE_MAX_EVENTS - 1 + n
  {
    var s := ReachIndexed(n, Call(0, 0, 0), n);
    var run :| Run(n, run) == s;
  }
}
