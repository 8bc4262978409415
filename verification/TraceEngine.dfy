/** The trace engine: its table of baselines, its counters and its log, and the calls
    `trace_init` and `trace_check_integrity`.
 */
module TraceEngine {
  import opened Words
  import opened Folds
  import opened FlatMemory
  import opened MemoryBus
  import opened IntegrityHash
  import opened HashKernel
  import opened RegionIntegrity
  import TraceLog

  const TRACE_EVENT_INTEGRITY_FAIL: Word := 5

  lemma HashIsSized()
    ensures Sized(HASH)
  {
  }

  /** The property of the hash that the region theorems rest on. */
  lemma HashDetectsOneByte()
    ensures Sized(HASH) && DetectsOneByte(HASH)
  {
    forall d, e, j | DifferOnlyAt(d, e, j)
      ensures HASH.of(d) != HASH.of(e)
    {
      SingleByteTamperDetected(d, e, j);
      LaneBytesInjective(Digest(d), Digest(e));
    }
  }

  /** `compare_memory` accumulates the differences of all bytes. */
  lemma OrAccumulates(acc: Byte, x: Byte, y: Byte)
    ensures (acc | (x ^ y)) == 0 <==> acc == 0 && x == y
  {
  }

  /** `compare_memory`. */
  method CompareMemory(mem: Memory, p: nat, q: nat, n: nat) returns (eax: nat)
    requires p + n <= mem.cells.Length && q + n <= mem.cells.Length
    ensures eax == if mem.cells[p..p + n] == mem.cells[q..q + n] then 1 else 0
  {
    var bl: Byte := 0;
    var i := 0;
    while i < n
      invariant i <= n
      invariant bl == 0 <==> mem.cells[p..p + i] == mem.cells[q..q + i]
    {
      OrAccumulates(bl, mem.cells[p + i], mem.cells[q + i]);
      bl := bl | (mem.cells[p + i] ^ mem.cells[q + i]);
      assert mem.cells[p..p + (i + 1)] == mem.cells[p..p + i] + [mem.cells[p + i]];
      assert mem.cells[q..q + (i + 1)] == mem.cells[q..q + i] + [mem.cells[q + i]];
      i := i + 1;
    }
    eax := if bl == 0 then 1 else 0;
  }

  /** The event that reports that check number `code` failed. */
  function FailureEvent(code: nat, tsc: Word): TraceLog.Call
    requires code <= 3
  {
    TraceLog.Call(TRACE_EVENT_INTEGRITY_FAIL, code as Word, tsc)
  }

  class Engine {
    const mem: Memory
    const layout: Layout
    const log: TraceLog.EventLog
    const table: array<IntegrityEntry>
    var checks: nat
    var failures: nat

    ghost predicate Valid()
      reads this, mem.cells, log, table
    {
      && WellFormed(mem.cells[..], table[..], layout) && log.Valid()
      && mem.cells as object != log.events && mem.cells as object != table && log.events as object != table
    }

    /** The engine as it is loaded: an empty table. */
    constructor (mem: Memory, layout: Layout)
      requires layout.Fits(mem.cells.Length)
      ensures Valid() && this.mem == mem && this.layout == layout && fresh(log) && fresh(log.events) && fresh(table)
      ensures table[..] == seq(ENTRIES, _ => NO_ENTRY) && checks == failures == 0
    {
      this.mem, this.layout := mem, layout;
      log := new TraceLog.EventLog();
      table := new IntegrityEntry[ENTRIES](_ => NO_ENTRY);
      checks, failures := 0, 0;
    }

    /** `.find_loop`: the first of the five entries with this tag. */
    method FindEntry(tag: nat) returns (i: nat)
      requires table.Length == ENTRIES
      ensures i == FirstMatch(table[..], tag, 0)
    {
      i := 0;
      while i < ENTRIES && table[i].tag != tag
        invariant i <= ENTRIES && FirstMatch(table[..], tag, i) == FirstMatch(table[..], tag, 0)
      {
        i := i + 1;
      }
    }

    /** The hash call of `.found`; its result is not looked at. */
    method HashEntry(e: IntegrityEntry)
      requires layout.Fits(mem.cells.Length) && Mapped(e, mem.cells.Length)
      modifies mem, mem.cells
      ensures mem.cells[..] == Hashed(old(mem.cells[..]), e, layout, HASH)
    {
      var rax := HashBlocks(mem, e.address, e.size, layout.hashBuffer);
    }

    /** `.found`: hash the region, compare with the baseline. */
    method CheckEntry(e: IntegrityEntry, i: nat) returns (eax: nat)
      requires layout.Fits(mem.cells.Length) && i < ENTRIES && Mapped(e, mem.cells.Length)
      modifies mem, mem.cells
      ensures mem.cells[..] == Hashed(old(mem.cells[..]), e, layout, HASH)
      ensures eax == if Block(mem.cells[..], layout.hashBuffer) == Block(old(mem.cells[..]), layout.HashAt(i)) then 1
                     else 0
    {
      ghost var m := mem.cells[..];
      HashEntry(e);
      HashIsSized();
      BaselineKept(m, e, layout, HASH, i);
      eax := CompareMemory(mem, layout.hashBuffer, layout.HashAt(i), HASH_SIZE);
    }

    /** `check_region_integrity`. */
    method CheckRegion(tag: nat) returns (eax: nat)
      requires Valid()
      modifies mem, mem.cells
      ensures Valid()
      ensures eax == Verdict(old(mem.cells[..]), table[..], layout, HASH, tag)
      ensures mem.cells[..] == AfterCheck(old(mem.cells[..]), table[..], layout, HASH, tag)
    {
      var i := FindEntry(tag);
      if i == ENTRIES {
        return 1;
      }
      assert Mapped(table[..][i], |mem.cells[..]|);
      eax := CheckEntry(table[i], i);
    }

    /** `trace_check_integrity`. */
    method CheckIntegrity(tsc: Word) returns (rax: nat)
      requires Valid()
      modifies this, mem, mem.cells, log, log.events
      ensures Valid() && table[..] == old(table[..])
      ensures var (code, m) := Checks(old(mem.cells[..]), table[..], layout, HASH);
              && mem.cells[..] == m
              && rax == (if code == 0 then 0 else 0xffff_ffff)
              && checks == old(checks) + 1
              && failures == old(failures) + (if code == 0 then 0 else 1)
              && log.View() == if code == 0 then old(log.View())
                               else TraceLog.LogStep(old(log.View()), FailureEvent(code, tsc))
    {
      checks := checks + 1;
      var eax := CheckRegion(TAG_IDT);
      if eax == 0 {
        rax := Report(1, tsc);
        return;
      }
      eax := CheckRegion(TAG_GDT);
      if eax == 0 {
        rax := Report(2, tsc);
        return;
      }
      eax := CheckRegion(TAG_SYSC);
      if eax == 0 {
        rax := Report(3, tsc);
        return;
      }
      rax := 0;
    }

    /** The three failure exits. A full log drops the event, but the failure is counted. */
    method Report(code: nat, tsc: Word) returns (rax: nat)
      requires log.Valid() && code <= 3
      modifies this`failures, log, log.events
      ensures log.Valid() && log.View() == TraceLog.LogStep(old(log.View()), FailureEvent(code, tsc))
      ensures rax == 0xffff_ffff && failures == old(failures) + 1
    {
      var logged := log.LogEvent(FailureEvent(code, tsc));
      failures := failures + 1;
      rax := RAX_MINUS_ONE;
    }

    /** `trace_init` with `compute_baseline_hashes`: three entries without an address, and only the
        hash of the first one zeroed. */
    method Init()
      requires Valid()
      modifies this, mem, mem.cells, log, log.events, table
      ensures Valid() && log.View() == TraceLog.FreshLog() && checks == failures == 0
      ensures table[..] == BaselineTable(old(table[..]))
      ensures mem.cells[..] == InitEffect(old(mem.cells[..]), layout)
    {
      log.Reset();
      checks, failures := 0, 0;
      ghost var es := table[..];
      table[0] := IntegrityEntry(TAG_IDT, 0, 256);
      mem.StoreBytes(layout.HashAt(0), Zeros(HASH_SIZE));
      table[1] := IntegrityEntry(TAG_GDT, 0, 256);
      table[2] := IntegrityEntry(TAG_SYSC, 0, 256);
      assert table[..] == BaselineTable(es);
      assert forall i | 0 <= i < ENTRIES :: Mapped(es[i], mem.cells.Length);
    }
  }

  /** Four characters in a quadword, the first one lowest. */
  function Spelled(tag: string): nat
    requires |tag| == 4
  {
    tag[0] as int + 0x100 * (tag[1] as int) + 0x1_0000 * (tag[2] as int) + 0x100_0000 * (tag[3] as int)
  }

  lemma TagsAreSpelled()
    ensures TAG_IDT == Spelled("IDT ") && TAG_GDT == Spelled("GDT ") && TAG_SYSC == Spelled("SYSC")
  {
  }

  /** With all three baselines recorded, the check passes on unchanged memory, and a single changed
      byte is reported as the first region it lies in. */
  lemma SingleChangeReported(m: seq<Byte>, m': seq<Byte>, es: seq<IntegrityEntry>, layout: Layout, a: nat)
    requires Armed(m, es, layout, HASH, TAG_IDT) && Armed(m, es, layout, HASH, TAG_GDT)
    requires Armed(m, es, layout, HASH, TAG_SYSC)
    requires WellFormed(m', es, layout) && ChangedAt(m, m', a, layout)
    ensures Checks(m, es, layout, HASH).0 == 0
    ensures Checks(m', es, layout, HASH).0
         == if Inside(a, es[FirstMatch(es, Spelled("IDT "), 0)]) then 1
            else if Inside(a, es[FirstMatch(es, Spelled("GDT "), 0)]) then 2
            else if Inside(a, es[FirstMatch(es, Spelled("SYSC"), 0)]) then 3
            else 0
  {
    TagsAreSpelled();
    HashDetectsOneByte();
    UnchangedMemoryPasses(m, es, layout, HASH);
    ChangedByteReported(m, m', es, layout, HASH, a);
  }
}
