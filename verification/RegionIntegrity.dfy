/** What the region checks of the trace engine decide, for any hash whose value changes when one
    byte of its input does.

    A table entry names a tag, an address and a size; its baseline hash and the buffer for the
    current hash lie in the same memory as the regions.
 */
module RegionIntegrity {
  import opened Words
  import opened Folds
  import opened FlatMemory
  import opened IntegrityHash
  import opened HashKernel

  const ENTRIES := 5
  const ENTRY_SIZE := 56
  const HASH_OFFSET := 24
  const HASH_SIZE := 32

  /** The tags are four characters in a quadword, the first one lowest. */
  const TAG_IDT := 0x2054_4449
  const TAG_GDT := 0x2054_4447
  const TAG_SYSC := 0x4353_5953

  datatype IntegrityEntry = IntegrityEntry(tag: nat, address: nat, size: nat)

  /** Where the static buffers lie: the baseline table and the buffer for the current hash. */
  datatype Layout = Layout(table: nat, hashBuffer: nat) {
    function HashAt(i: nat): nat {
      table + ENTRY_SIZE * i + HASH_OFFSET
    }

    ghost predicate Fits(memSize: nat) {
      && 0 < hashBuffer && hashBuffer + HASH_SIZE <= memSize && table + ENTRY_SIZE * ENTRIES <= memSize
      && (hashBuffer + HASH_SIZE <= table || table + ENTRY_SIZE * ENTRIES <= hashBuffer)
    }

    predicate InHashBuffer(a: nat) {
      hashBuffer <= a < hashBuffer + HASH_SIZE
    }

    predicate InTable(a: nat) {
      table <= a < table + ENTRY_SIZE * ENTRIES
    }
  }

  ghost predicate Sized(h: Hash) {
    |h.empty| == HASH_SIZE && forall d :: |h.of(d)| == HASH_SIZE
  }

  ghost predicate DetectsOneByte(h: Hash) {
    forall d, e, j :: DifferOnlyAt(d, e, j) ==> h.of(d) != h.of(e)
  }

  // ----- one region check -----

  /** The region of an entry is mapped, unless the hash will not read it. */
  ghost predicate Mapped(e: IntegrityEntry, memSize: nat) {
    e.size < TWO_TO_64 && (e.address != 0 ==> e.address + e.size <= memSize)
  }

  /** The table and the memory a check works on are as the program lays them out. */
  ghost predicate WellFormed(m: seq<Byte>, es: seq<IntegrityEntry>, layout: Layout) {
    && layout.Fits(|m|) && |es| == ENTRIES
    && forall i | 0 <= i < |es| :: Mapped(es[i], |m|)
  }

  /** The first entry from k on with this tag, or the length of the table. */
  function FirstMatch(es: seq<IntegrityEntry>, tag: nat, k: nat): (i: nat)
    requires k <= |es|
    ensures k <= i <= |es| && (i < |es| ==> es[i].tag == tag)
    ensures forall j | k <= j < i :: es[j].tag != tag
    decreases |es| - k
  {
    if k == |es| || es[k].tag == tag then k else FirstMatch(es, tag, k + 1)
  }

  function Block(m: seq<Byte>, at: nat): seq<Byte>
    requires at + HASH_SIZE <= |m|
  {
    m[at..at + HASH_SIZE]
  }

  function Region(m: seq<Byte>, e: IntegrityEntry): seq<Byte>
    requires e.address + e.size <= |m|
  {
    m[e.address..e.address + e.size]
  }

  /** Memory after entry e was hashed. For a null address with a nonzero size the hash is refused,
      and the current-hash buffer keeps what it held. */
  function Hashed(m: seq<Byte>, e: IntegrityEntry, layout: Layout, h: Hash): (r: seq<Byte>)
    requires e.address == 0 || e.address + e.size <= |m|
    ensures |r| == |m|
  {
    if Refused(e.address, e.size, layout.hashBuffer) then m
    else Overlay(m, layout.hashBuffer, HashResult(m, e.address, e.size, h))
  }

  /** Memory after `check_region_integrity` for this tag. */
  ghost function AfterCheck(m: seq<Byte>, es: seq<IntegrityEntry>, layout: Layout, h: Hash, tag: nat): (r: seq<Byte>)
    requires WellFormed(m, es, layout)
    ensures |r| == |m|
  {
    var i := FirstMatch(es, tag, 0);
    if i == |es| then m else Hashed(m, es[i], layout, h)
  }

  /** What `check_region_integrity` returns: 1 if the region is intact or has no entry. */
  ghost function Verdict(m: seq<Byte>, es: seq<IntegrityEntry>, layout: Layout, h: Hash, tag: nat): nat
    requires WellFormed(m, es, layout)
  {
    var i := FirstMatch(es, tag, 0);
    if i == |es| then 1
    else if Block(Hashed(m, es[i], layout, h), layout.hashBuffer) == Block(m, layout.HashAt(i)) then 1
    else 0
  }

  /** `trace_check_integrity`: the failure code, which is 0 if all three regions pass and else the
      number of the first that fails, and the memory afterwards. Each check runs on the memory the
      one before it left. */
  ghost function Checks(m: seq<Byte>, es: seq<IntegrityEntry>, layout: Layout, h: Hash): (r: (nat, seq<Byte>))
    requires WellFormed(m, es, layout)
  {
    var m1 := AfterCheck(m, es, layout, h, TAG_IDT);
    var m2 := AfterCheck(m1, es, layout, h, TAG_GDT);
    if Verdict(m, es, layout, h, TAG_IDT) == 0 then (1, m1)
    else if Verdict(m1, es, layout, h, TAG_GDT) == 0 then (2, m2)
    else (if Verdict(m2, es, layout, h, TAG_SYSC) == 0 then 3 else 0, AfterCheck(m2, es, layout, h, TAG_SYSC))
  }

  /** Writing the current-hash buffer leaves the baseline hashes alone. */
  lemma BaselineKept(m: seq<Byte>, e: IntegrityEntry, layout: Layout, h: Hash, i: nat)
    requires layout.Fits(|m|) && i < ENTRIES && Mapped(e, |m|) && Sized(h)
    ensures Block(Hashed(m, e, layout, h), layout.HashAt(i)) == Block(m, layout.HashAt(i))
  {
  }

  // ----- what a check establishes -----

  /** The tag has an entry with an address whose baseline is the hash of `original`. */
  ghost predicate Recorded(m: seq<Byte>, es: seq<IntegrityEntry>, layout: Layout, h: Hash, tag: nat,
                           original: seq<Byte>)
  {
    && WellFormed(m, es, layout)
    && var i := FirstMatch(es, tag, 0);
       i < |es| && es[i].address != 0 && Mapped(es[i], |m|) && Block(m, layout.HashAt(i)) == h.of(original)
  }

  /** The check compares exactly the hash of the region as it is with the recorded one. */
  lemma VerdictComparesHashes(m: seq<Byte>, es: seq<IntegrityEntry>, layout: Layout, h: Hash, tag: nat,
                              original: seq<Byte>)
    requires Recorded(m, es, layout, h, tag, original) && Sized(h)
    ensures Verdict(m, es, layout, h, tag)
         == if h.of(Region(m, es[FirstMatch(es, tag, 0)])) == h.of(original) then 1 else 0
  {
  }

  /** A recorded region passes while it is unchanged and fails once exactly one byte has changed. */
  lemma RegionTamperDetected(m: seq<Byte>, es: seq<IntegrityEntry>, layout: Layout, h: Hash, tag: nat,
                             original: seq<Byte>, j: nat)
    requires Recorded(m, es, layout, h, tag, original) && Sized(h) && DetectsOneByte(h)
    ensures Region(m, es[FirstMatch(es, tag, 0)]) == original ==> Verdict(m, es, layout, h, tag) == 1
    ensures DifferOnlyAt(original, Region(m, es[FirstMatch(es, tag, 0)]), j) ==> Verdict(m, es, layout, h, tag) == 0
  {
    VerdictComparesHashes(m, es, layout, h, tag, original);
  }

  // ----- what all three checks establish -----

  ghost predicate Inside(a: nat, e: IntegrityEntry) {
    e.address <= a < e.address + e.size
  }

  /** The tag has an entry with an address, whose region does not overlap the current-hash buffer
      and whose baseline was recorded from the region as it is in m. */
  ghost predicate Armed(m: seq<Byte>, es: seq<IntegrityEntry>, layout: Layout, h: Hash, tag: nat) {
    && WellFormed(m, es, layout)
    && var i := FirstMatch(es, tag, 0);
       && i < |es| && es[i].address != 0 && Mapped(es[i], |m|)
       && (es[i].address + es[i].size <= layout.hashBuffer || layout.hashBuffer + HASH_SIZE <= es[i].address)
       && Block(m, layout.HashAt(i)) == h.of(Region(m, es[i]))
  }

  /** Memory m' is m, except for the current-hash buffer and, if a is an address, the byte there. */
  ghost predicate ChangedAt(m: seq<Byte>, m': seq<Byte>, a: nat, layout: Layout) {
    && |m'| == |m| && layout.Fits(|m|)
    && !layout.InTable(a) && !layout.InHashBuffer(a) && (a < |m| ==> m'[a] != m[a])
    && forall k | 0 <= k < |m| && k != a && !layout.InHashBuffer(k) :: m'[k] == m[k]
  }

  lemma CheckKeepsChange(m: seq<Byte>, m': seq<Byte>, es: seq<IntegrityEntry>, layout: Layout, h: Hash,
                         tag: nat, a: nat)
    requires WellFormed(m', es, layout) && ChangedAt(m, m', a, layout) && Sized(h)
    ensures WellFormed(AfterCheck(m', es, layout, h, tag), es, layout)
    ensures ChangedAt(m, AfterCheck(m', es, layout, h, tag), a, layout)
  {
  }

  lemma BaselineUnchanged(m: seq<Byte>, m': seq<Byte>, a: nat, layout: Layout, i: nat)
    requires ChangedAt(m, m', a, layout) && i < ENTRIES
    ensures Block(m', layout.HashAt(i)) == Block(m, layout.HashAt(i))
  {
  }

  /** An armed region fails exactly if the changed byte lies in it. */
  lemma VerdictOnChange(m: seq<Byte>, m': seq<Byte>, es: seq<IntegrityEntry>, layout: Layout, h: Hash, tag: nat, a: nat)
    requires Armed(m, es, layout, h, tag) && WellFormed(m', es, layout) && ChangedAt(m, m', a, layout)
    requires Sized(h) && DetectsOneByte(h)
    ensures Verdict(m', es, layout, h, tag) == if Inside(a, es[FirstMatch(es, tag, 0)]) then 0 else 1
  {
    var e := es[FirstMatch(es, tag, 0)];
    BaselineUnchanged(m, m', a, layout, FirstMatch(es, tag, 0));
    SliceOfChange(m, m', a, e.address, e.size);
    RegionTamperDetected(m', es, layout, h, tag, Region(m, e), if Inside(a, e) then a - e.address else 0);
  }

  /** With all three regions armed, a single changed byte is reported as the first region it lies
      in, and no failure is reported if it lies in none. */
  lemma ChangedByteReported(m: seq<Byte>, m': seq<Byte>, es: seq<IntegrityEntry>, layout: Layout, h: Hash, a: nat)
    requires Armed(m, es, layout, h, TAG_IDT) && Armed(m, es, layout, h, TAG_GDT) && Armed(m, es, layout, h, TAG_SYSC)
    requires WellFormed(m', es, layout) && ChangedAt(m, m', a, layout) && Sized(h) && DetectsOneByte(h)
    ensures Checks(m', es, layout, h).0
         == if Inside(a, es[FirstMatch(es, TAG_IDT, 0)]) then 1
            else if Inside(a, es[FirstMatch(es, TAG_GDT, 0)]) then 2
            else if Inside(a, es[FirstMatch(es, TAG_SYSC, 0)]) then 3
            else 0
  {
    var m1 := AfterCheck(m', es, layout, h, TAG_IDT);
    CheckKeepsChange(m, m', es, layout, h, TAG_IDT, a);
    CheckKeepsChange(m, m1, es, layout, h, TAG_GDT, a);
    VerdictOnChange(m, m', es, layout, h, TAG_IDT, a);
    VerdictOnChange(m, m1, es, layout, h, TAG_GDT, a);
    VerdictOnChange(m, AfterCheck(m1, es, layout, h, TAG_GDT), es, layout, h, TAG_SYSC, a);
  }

  /** With all three regions armed and nothing changed, the check passes. */
  lemma UnchangedMemoryPasses(m: seq<Byte>, es: seq<IntegrityEntry>, layout: Layout, h: Hash)
    requires Armed(m, es, layout, h, TAG_IDT) && Armed(m, es, layout, h, TAG_GDT) && Armed(m, es, layout, h, TAG_SYSC)
    requires Sized(h) && DetectsOneByte(h)
    ensures Checks(m, es, layout, h).0 == 0
  {
    ChangedByteReported(m, m, es, layout, h, |m|);
  }

  // ----- the baselines that are shipped -----

  /** The table that `compute_baseline_hashes` sets up. */
  function BaselineTable(es: seq<IntegrityEntry>): seq<IntegrityEntry>
    requires |es| == ENTRIES
  {
    [IntegrityEntry(TAG_IDT, 0, 256), IntegrityEntry(TAG_GDT, 0, 256), IntegrityEntry(TAG_SYSC, 0, 256), es[3], es[4]]
  }

  /** Its entries have no address, so the hash is refused and both sides of each comparison keep
      the zeros they were loaded with: the check always passes and changes nothing, whatever
      happens to the memory outside the static buffers. */
  lemma ShippedBaselinesAlwaysPass(m: seq<Byte>, es: seq<IntegrityEntry>, layout: Layout, h: Hash)
    requires WellFormed(m, es, layout) && es == BaselineTable(es)
    requires Block(m, layout.hashBuffer) == Block(m, layout.HashAt(0)) == Block(m, layout.HashAt(1))
          == Block(m, layout.HashAt(2))
    ensures Checks(m, es, layout, h) == (0, m)
  {
    assert FirstMatch(es, TAG_IDT, 0) == 0;
    assert FirstMatch(es, TAG_GDT, 0) == FirstMatch(es, TAG_GDT, 1) == 1;
    assert FirstMatch(es, TAG_SYSC, 0) == FirstMatch(es, TAG_SYSC, 1) == FirstMatch(es, TAG_SYSC, 2) == 2;
  }

  // ----- the shipped table over runs -----

  /** What may happen to the engine and its memory after it was loaded. */
  datatype EngineEvent =
    | Initialized
    | Checked
    | Stored(addr: nat, bytes: seq<Byte>)

  datatype EngineState = EngineState(mem: seq<Byte>, table: seq<IntegrityEntry>)

  const NO_ENTRY := IntegrityEntry(0, 0, 0)

  /** The table and the buffers as they are loaded. */
  ghost predicate LoadedStatics(m: seq<Byte>, layout: Layout) {
    && layout.Fits(|m|)
    && forall a | 0 <= a < |m| && (layout.InHashBuffer(a) || layout.InTable(a)) :: m[a] == 0
  }

  /** Memory after `trace_init`: only the first baseline hash is zeroed. */
  function InitEffect(m: seq<Byte>, layout: Layout): (r: seq<Byte>)
    ensures |r| == |m|
  {
    Overlay(m, layout.HashAt(0), Zeros(HASH_SIZE))
  }

  /** The range has no byte in common with the table and the buffer. */
  predicate ApartFromStatics(layout: Layout, addr: nat, n: nat) {
    && (addr + n <= layout.table || layout.table + ENTRY_SIZE * ENTRIES <= addr)
    && (addr + n <= layout.hashBuffer || layout.hashBuffer + HASH_SIZE <= addr)
  }

  /** One event; a store to the engine's own buffers is none. */
  ghost function EngineStep(s: EngineState, e: EngineEvent, layout: Layout, h: Hash): (s': EngineState)
    requires WellFormed(s.mem, s.table, layout)
    ensures WellFormed(s'.mem, s'.table, layout)
  {
    match e
    case Initialized => EngineState(InitEffect(s.mem, layout), BaselineTable(s.table))
    case Checked => EngineState(Checks(s.mem, s.table, layout, h).1, s.table)
    case Stored(addr, bytes) =>
      if ApartFromStatics(layout, addr, |bytes|) then EngineState(Overlay(s.mem, addr, bytes), s.table) else s
  }

  ghost function EngineRun(m: seq<Byte>, layout: Layout, h: Hash, run: seq<EngineEvent>): (s: EngineState)
    requires layout.Fits(|m|)
    ensures WellFormed(s.mem, s.table, layout)
  {
    if run == [] then EngineState(m, seq(ENTRIES, _ => NO_ENTRY))
    else EngineStep(EngineRun(m, layout, h, run[..|run| - 1]), run[|run| - 1], layout, h)
  }

  /** All hashes are zero, and no entry has an address. */
  ghost predicate Blank(s: EngineState, layout: Layout) {
    && WellFormed(s.mem, s.table, layout)
    && Block(s.mem, layout.hashBuffer) == Zeros(HASH_SIZE)
    && (forall i | 0 <= i < ENTRIES :: Block(s.mem, layout.HashAt(i)) == Zeros(HASH_SIZE))
    && s.table[3] == s.table[4] == NO_ENTRY
    && (s.table == seq(ENTRIES, _ => NO_ENTRY) || s.table == BaselineTable(s.table))
  }

  lemma BlankPasses(s: EngineState, layout: Layout, h: Hash)
    requires Blank(s, layout)
    ensures Checks(s.mem, s.table, layout, h) == (0, s.mem)
  {
    if s.table == BaselineTable(s.table) {
      ShippedBaselinesAlwaysPass(s.mem, s.table, layout, h);
    } else {
      assert forall i | 0 <= i < ENTRIES :: s.table[i].tag == 0;
    }
  }

  lemma InitKeepsBlank(s: EngineState, layout: Layout)
    requires Blank(s, layout)
    ensures Blank(EngineState(InitEffect(s.mem, layout), BaselineTable(s.table)), layout)
  {
    OverlayRead(s.mem, layout.HashAt(0), Zeros(HASH_SIZE), layout.hashBuffer, HASH_SIZE);
    forall i | 0 <= i < ENTRIES
      ensures Block(InitEffect(s.mem, layout), layout.HashAt(i)) == Zeros(HASH_SIZE)
    {
      OverlayRead(s.mem, layout.HashAt(0), Zeros(HASH_SIZE), layout.HashAt(i), HASH_SIZE);
    }
  }

  lemma StoreKeepsBlank(s: EngineState, layout: Layout, addr: nat, bytes: seq<Byte>)
    requires Blank(s, layout) && ApartFromStatics(layout, addr, |bytes|)
    ensures Blank(EngineState(Overlay(s.mem, addr, bytes), s.table), layout)
  {
  }

  lemma StepKeepsBlank(s: EngineState, e: EngineEvent, layout: Layout, h: Hash)
    requires Blank(s, layout)
    ensures Blank(EngineStep(s, e, layout, h), layout)
  {
    match e
    case Initialized => InitKeepsBlank(s, layout);
    case Checked => BlankPasses(s, layout, h);
    case Stored(addr, bytes) =>
      if ApartFromStatics(layout, addr, |bytes|) {
        StoreKeepsBlank(s, layout, addr, bytes);
      }
  }

  /** So as the engine is shipped, every check passes: from load on, after any initializations, checks
      and stores elsewhere, whatever they do to memory. */
  lemma {:induction false} ShippedChecksAlwaysPass(m: seq<Byte>, layout: Layout, h: Hash, run: seq<EngineEvent>)
    requires LoadedStatics(m, layout)
    ensures var s := EngineRun(m, layout, h, run);
            Blank(s, layout) && Checks(s.mem, s.table, layout, h) == (0, s.mem)
  {
    if run != [] {
      ShippedChecksAlwaysPass(m, layout, h, run[..|run| - 1]);
      StepKeepsBlank(EngineRun(m, layout, h, run[..|run| - 1]), run[|run| - 1], layout, h);
    }
    BlankPasses(EngineRun(m, layout, h, run), layout, h);
  }

  // ----- regions that are recorded -----

  /** The tag has an entry with an address whose region is apart from the engine's own buffers. */
  ghost predicate Recordable(m: seq<Byte>, es: seq<IntegrityEntry>, layout: Layout, tag: nat) {
    && WellFormed(m, es, layout)
    && var i := FirstMatch(es, tag, 0);
       i < |es| && es[i].address != 0 && Mapped(es[i], |m|) && ApartFromStatics(layout, es[i].address, es[i].size)
  }

  /** Memory with the baseline of the tag set to the hash of its region. */
  ghost function Recording(m: seq<Byte>, es: seq<IntegrityEntry>, layout: Layout, h: Hash, tag: nat): (r: seq<Byte>)
    requires Recordable(m, es, layout, tag)
    ensures |r| == |m|
  {
    var i := FirstMatch(es, tag, 0);
    Overlay(m, layout.HashAt(i), h.of(Region(m, es[i])))
  }

  /** Recording a region arms it and leaves armed regions armed. */
  lemma RecordingArms(m: seq<Byte>, es: seq<IntegrityEntry>, layout: Layout, h: Hash, tag: nat, other: nat)
    requires Recordable(m, es, layout, tag) && Recordable(m, es, layout, other) && Sized(h)
    ensures Armed(Recording(m, es, layout, h, tag), es, layout, h, tag)
    ensures Armed(m, es, layout, h, other) ==> Armed(Recording(m, es, layout, h, tag), es, layout, h, other)
  {
    var i, j := FirstMatch(es, tag, 0), FirstMatch(es, other, 0);
    var bs := h.of(Region(m, es[i]));
    OverlayRead(m, layout.HashAt(i), bs, es[i].address, es[i].size);
    OverlayRead(m, layout.HashAt(i), bs, es[j].address, es[j].size);
    OverlayRead(m, layout.HashAt(i), bs, layout.HashAt(i), HASH_SIZE);
    OverlayRead(m, layout.HashAt(i), bs, layout.HashAt(j), HASH_SIZE);
  }

  /** So whatever memory holds, recording the three regions one after the other arms them all. */
  lemma RecordingArmsAll(m: seq<Byte>, es: seq<IntegrityEntry>, layout: Layout, h: Hash) returns (m': seq<Byte>)
    requires Recordable(m, es, layout, TAG_IDT) && Recordable(m, es, layout, TAG_GDT)
    requires Recordable(m, es, layout, TAG_SYSC) && Sized(h)
    ensures Armed(m', es, layout, h, TAG_IDT) && Armed(m', es, layout, h, TAG_GDT) && Armed(m', es, layout, h, TAG_SYSC)
  {
    var m1 := Recording(m, es, layout, h, TAG_IDT);
    RecordingArms(m, es, layout, h, TAG_IDT, TAG_IDT);
    var m2 := Recording(m1, es, layout, h, TAG_GDT);
    RecordingArms(m1, es, layout, h, TAG_GDT, TAG_IDT);
    m' := Recording(m2, es, layout, h, TAG_SYSC);
    RecordingArms(m2, es, layout, h, TAG_SYSC, TAG_IDT);
    RecordingArms(m2, es, layout, h, TAG_SYSC, TAG_GDT);
  }

  /** And there are such regions. */
  lemma ArmedExample(h: Hash) returns (m: seq<Byte>, es: seq<IntegrityEntry>, layout: Layout)
    requires Sized(h)
    ensures Armed(m, es, layout, h, TAG_IDT) && Armed(m, es, layout, h, TAG_GDT) && Armed(m, es, layout, h, TAG_SYSC)
  {
    layout := Layout(64, 400);
    es := [IntegrityEntry(TAG_IDT, 500, 16), IntegrityEntry(TAG_GDT, 600, 16), IntegrityEntry(TAG_SYSC, 700, 16),
           NO_ENTRY, NO_ENTRY];
    assert FirstMatch(es, TAG_IDT, 0) == 0;
    assert FirstMatch(es, TAG_GDT, 0) == FirstMatch(es, TAG_GDT, 1) == 1;
    assert FirstMatch(es, TAG_SYSC, 0) == FirstMatch(es, TAG_SYSC, 1) == FirstMatch(es, TAG_SYSC, 2) == 2;
    m := RecordingArmsAll(Zeros(1024), es, layout, h);
  }
}
