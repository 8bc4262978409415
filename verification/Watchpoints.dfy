/** The four watchpoint slots of the trace engine. */
module Watchpoints {
  import opened Words

  const SLOTS := 4

  datatype Watchpoint = Watchpoint(address: nat, size: nat, kind: nat)

  const UNUSED := Watchpoint(0, 0, 0)

  predicate SizeOk(size: nat) {
    size == 1 || size == 2 || size == 4 || size == 8
  }

  /** The index of the first slot from k on whose address is 0, or the length of the table. */
  function FirstFree(t: seq<Watchpoint>, k: nat): (i: nat)
    requires k <= |t|
    decreases |t| - k
  {
    if k == |t| || t[k].address == 0 then k else FirstFree(t, k + 1)
  }

  /** Whether the request succeeds on the table t. */
  predicate Succeeds(t: seq<Watchpoint>, w: Watchpoint) {
    SizeOk(w.size) && FirstFree(t, 0) < |t|
  }

  /** The table after the request w. */
  function SetStep(t: seq<Watchpoint>, w: Watchpoint): (t': seq<Watchpoint>)
    ensures |t'| == |t|
  {
    var i := FirstFree(t, 0);
    if SizeOk(w.size) && i < |t| then t[i := w] else t
  }

  class WatchpointTable {
    const slots: array<Watchpoint>

    ghost predicate Valid()
      reads this
    {
      slots.Length == SLOTS
    }

    /** The table as the program is loaded: all zero. */
    constructor ()
      ensures Valid() && slots[..] == Loaded() && fresh(slots)
    {
      slots := new Watchpoint[SLOTS](_ => UNUSED);
    }

    /** `trace_set_watchpoint`. */
    method Set(w: Watchpoint) returns (rax: nat)
      requires Valid()
      modifies slots
      ensures slots[..] == SetStep(old(slots[..]), w)
      ensures rax == if Succeeds(old(slots[..]), w) then 0 else 0xffff_ffff
    {
      if !SizeOk(w.size) {
        return RAX_MINUS_ONE;
      }
      var i := 0;
      while i < SLOTS
        invariant i <= SLOTS && FirstFree(slots[..], i) == FirstFree(slots[..], 0)
      {
        if slots[i].address == 0 {
          slots[i] := w;
          return 0;
        }
        i := i + 1;
      }
      rax := RAX_MINUS_ONE;
    }
  }

  // ----- whole runs -----

  function Loaded(): seq<Watchpoint> {
    seq(SLOTS, _ => UNUSED)
  }

  /** What may happen to the engine after it is loaded. `trace_init` leaves the table alone. */
  datatype Event = Request(w: Watchpoint) | TraceInit

  function TableAfter(run: seq<Event>): seq<Watchpoint> {
    if run == [] then Loaded()
    else
      var t := TableAfter(run[..|run| - 1]);
      match run[|run| - 1]
      case Request(w) => SetStep(t, w)
      case TraceInit => t
  }

  predicate Occupying(e: Event) {
    e.Request? && SizeOk(e.w.size) && e.w.address != 0
  }

  /** The requests of a run that ask for a slot: a supported size and a nonzero address. */
  function Wanted(run: seq<Event>): seq<Watchpoint> {
    if run == [] then []
    else
      var before, e := Wanted(run[..|run| - 1]), run[|run| - 1];
      if Occupying(e) then before + [e.w] else before
  }

  function Kept(n: nat): nat {
    if n < SLOTS then n else SLOTS
  }

  /** The occupied slots are a prefix without gaps: the first four wanted requests, in order. */
  ghost predicate HoldsFirst(t: seq<Watchpoint>, ws: seq<Watchpoint>) {
    && |t| == SLOTS
    && (forall k | 0 <= k < |ws| :: ws[k].address != 0)
    && (forall k | 0 <= k < Kept(|ws|) :: t[k] == ws[k])
    && (forall k | Kept(|ws|) <= k < SLOTS :: t[k].address == 0)
  }

  lemma {:induction false} FirstFreeIs(t: seq<Watchpoint>, k: nat, n: nat)
    requires k <= n <= |t|
    requires forall j | k <= j < n :: t[j].address != 0
    requires n < |t| ==> t[n].address == 0
    ensures FirstFree(t, k) == n
    decreases n - k
  {
    if k < n {
      FirstFreeIs(t, k + 1, n);
    }
  }

  /** After every run the table holds exactly the first four wanted requests of the run. */
  lemma {:induction false} TableHoldsFirstFour(run: seq<Event>)
    ensures HoldsFirst(TableAfter(run), Wanted(run))
    ensures FirstFree(TableAfter(run), 0) == Kept(|Wanted(run)|)
  {
    if run != [] {
      var before := run[..|run| - 1];
      TableHoldsFirstFour(before);
    }
    FirstFreeIs(TableAfter(run), 0, Kept(|Wanted(run)|));
  }

  /** So a request succeeds exactly if its size is 1, 2, 4 or 8 and fewer than four were wanted
      before it; a success never overwrites an occupied slot. */
  lemma SucceedsIffSlotLeft(run: seq<Event>, w: Watchpoint)
    ensures Succeeds(TableAfter(run), w) <==> w.size in {1, 2, 4, 8} && |Wanted(run)| < 4
    ensures forall k | 0 <= k < |TableAfter(run)| :: TableAfter(run)[k].address != 0 ==>
              SetStep(TableAfter(run), w)[k] == TableAfter(run)[k]
  {
    TableHoldsFirstFour(run);
  }
}
