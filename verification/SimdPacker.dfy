/** The marshalling kernels of `simd_packer.asm`: copy into and out of the enclave, the aligned
    copy, zeroing, and the hash loop. Registers are method parameters and local variables; memory
    is the byte array behind `MemoryBus.Memory`.
 */
module SimdPacker {
  import opened Words
  import opened FlatMemory
  import opened MemoryBus

  // ----- the block plans of the copy loops -----

  /** `simd_pack_256bit` from offset off on: 32-byte vectors, one 16-byte vector if it fits, then
      bytes. */
  function PackPlan(p: Plan, off: nat, size: nat): Plan {
    TailPlan(Upto(p, 32, off, size), End(32, off, size), size)
  }

  function TailPlan(p: Plan, off: nat, size: nat): Plan {
    if off + 16 <= size then Upto(After(p, off, 16), 1, off + 16, size) else Upto(p, 1, off, size)
  }

  /** `simd_pack_512bit`: 64-byte vectors, and `simd_pack_256bit` for what remains. */
  function WidePlan(size: nat): Plan {
    PackPlan(Upto(Nothing, 64, 0, size), End(64, 0, size), size)
  }

  /** `simd_unpack_data` and `simd_secure_memcpy`: 32-byte vectors, then bytes. */
  function StreamPlan(size: nat): Plan {
    Upto(Upto(Nothing, 32, 0, size), 1, End(32, 0, size), size)
  }

  // ----- the stack -----

  datatype StackSlot = ReturnAddress | FramePointer

  /** How a call ends: it returns a value in RAX to its caller, or its `ret` takes something that
      is not a return address, and control never comes back to the caller. */
  datatype Outcome = Returned(rax: nat) | Lost

  // ----- the loops -----

  /** The vector loop of the copy kernels, from offset off on. */
  method VectorLoop(mem: Memory, dest: nat, src: nat, size: nat, off: nat, w: nat, aligned: bool,
                    ghost m: seq<Byte>, ghost l: seq<Access>, ghost p: Plan) returns (rbx: nat)
    requires w == 32 || w == 64
    requires aligned ==> w == 32 && Aligned32(dest + off) && Aligned32(src + off)
    requires mem.Copying(m, l, dest, src, size, p, aligned) && off <= size
    modifies mem, mem.cells
    ensures rbx == End(w, off, size) <= size
    ensures mem.Copying(m, l, dest, src, size, Upto(p, w, off, size), aligned)
  {
    rbx := off;
    ghost var q := p;
    while w <= size - rbx
      invariant off <= rbx <= size
      invariant aligned ==> Aligned32(dest + rbx) && Aligned32(src + rbx)
      invariant mem.Copying(m, l, dest, src, size, q, aligned)
      invariant Upto(q, w, rbx, size) == Upto(p, w, off, size) && End(w, rbx, size) == End(w, off, size)
    {
      mem.CopyStep(dest, src, rbx, w, aligned, m, l, size, q, aligned);
      q := After(q, rbx, w);
      rbx := rbx + w;
    }
  }

  /** The `rep movsb` tail, skipped when nothing remains. */
  method ByteTail(mem: Memory, dest: nat, src: nat, size: nat, rbx: nat,
                  ghost m: seq<Byte>, ghost l: seq<Access>, ghost p: Plan, ghost mode: bool)
    requires mem.Copying(m, l, dest, src, size, p, mode) && rbx <= size
    modifies mem, mem.cells
    ensures mem.Copying(m, l, dest, src, size, Upto(p, 1, rbx, size), mode)
  {
    if size - rbx != 0 {
      mem.RepMovsb(dest, src, rbx, size, m, l, p, mode);
    }
  }

  /** `.pack_remaining` of `simd_pack_256bit`. */
  method PackTail(mem: Memory, dest: nat, src: nat, size: nat, rbx: nat,
                  ghost m: seq<Byte>, ghost l: seq<Access>, ghost p: Plan)
    requires mem.Copying(m, l, dest, src, size, p, false) && rbx <= size
    modifies mem, mem.cells
    ensures mem.Copying(m, l, dest, src, size, TailPlan(p, rbx, size), false)
  {
    var next := rbx + 16;
    if next <= size {
      assert TailPlan(p, rbx, size) == Upto(After(p, rbx, 16), 1, next, size);
      mem.CopyStep(dest, src, rbx, 16, false, m, l, size, p, false);
      ByteTail(mem, dest, src, size, next, m, l, After(p, rbx, 16), false);
    } else {
      ByteTail(mem, dest, src, size, rbx, m, l, p, false);
    }
  }

  /** `simd_pack_256bit` with r12 and r13 at offset off. `popped` is the slot that its `ret` takes. */
  method Pack256(mem: Memory, dest: nat, src: nat, size: nat, off: nat, stack: seq<StackSlot>,
                 ghost m: seq<Byte>, ghost l: seq<Access>, ghost p: Plan) returns (rax: nat, popped: StackSlot)
    requires stack != [] && mem.Copying(m, l, dest, src, size, p, false) && off <= size
    modifies mem, mem.cells
    ensures mem.Copying(m, l, dest, src, size, PackPlan(p, off, size), false)
    ensures rax == size - off && popped == stack[|stack| - 1]
  {
    var frame := stack + [FramePointer];
    var rbx := VectorLoop(mem, dest, src, size, off, 32, false, m, l, p);
    PackTail(mem, dest, src, size, rbx, m, l, Upto(p, 32, off, size));
    rax := size - off;
    frame := frame[..|frame| - 1];
    popped := frame[|frame| - 1];
  }

  /** `simd_pack_512bit`. What remains after the 64-byte vectors is left to `simd_pack_256bit` by
      a jump, which finds the saved frame pointer of this frame where its return address belongs. */
  method Pack512(mem: Memory, dest: nat, src: nat, size: nat, stack: seq<StackSlot>,
                 ghost m: seq<Byte>, ghost l: seq<Access>) returns (rax: nat, popped: StackSlot)
    requires stack != [] && mem.Copying(m, l, dest, src, size, Nothing, false)
    modifies mem, mem.cells
    ensures mem.Copying(m, l, dest, src, size, WidePlan(size), false)
    ensures End(64, 0, size) == size ==> rax == 0 && popped == stack[|stack| - 1]
    ensures End(64, 0, size) != size ==> rax == size - End(64, 0, size) && popped == FramePointer
  {
    var frame := stack + [FramePointer];
    var rbx := VectorLoop(mem, dest, src, size, 0, 64, false, m, l, Nothing);
    var r14 := size - rbx;
    if r14 == 0 {
      rax := r14;
      frame := frame[..|frame| - 1];
      popped := frame[|frame| - 1];
    } else {
      rax, popped := Pack256(mem, dest, src, size, rbx, frame, m, l, Upto(Nothing, 64, 0, size));
    }
  }

  // ----- the exported copy routines -----

  /** `simd_pack_data`. `avx512` is what `check_avx512_support` reports. */
  method PackData(mem: Memory, dest: nat, src: nat, size: nat, flags: nat, avx512: bool) returns (r: Outcome)
    requires size < TWO_TO_64
    requires dest != 0 && src != 0 && 0 < size < TWO_TO_63 ==>
               dest + size <= mem.cells.Length && src + size <= mem.cells.Length
    modifies mem, mem.cells
    ensures dest == 0 || src == 0 || size >= TWO_TO_63 ==>
              r == Returned(0xffff_ffff) && mem.cells[..] == old(mem.cells[..]) && mem.log == old(mem.log)
    ensures dest != 0 && src != 0 && size == 0 ==>
              r == Returned(0) && mem.cells[..] == old(mem.cells[..]) && mem.log == old(mem.log)
    ensures dest != 0 && src != 0 && 0 < size < TWO_TO_63 ==>
              var wide := flags % 2 == 1 && avx512;
              && mem.Copying(old(mem.cells[..]), old(mem.log), dest, src, size,
                             PlanOf(if wide then Wide else Pack, size), false)
              && r == if !wide then Returned(size) else if size % 64 == 0 then Returned(0) else Lost
  {
    if dest == 0 || src == 0 {
      return Returned(RAX_MINUS_ONE);
    }
    if size == 0 {
      return Returned(0);
    }
    if Signed(size) < 0 {
      return Returned(RAX_MINUS_ONE);
    }
    ghost var m, l := mem.cells[..], mem.log;
    var stack := [ReturnAddress];
    var rax, popped;
    if flags % 2 == 1 && avx512 {
      EndIsRounding(size);
      rax, popped := Pack512(mem, dest, src, size, stack, m, l);
    } else {
      rax, popped := Pack256(mem, dest, src, size, 0, stack, m, l, Nothing);
    }
    r := if popped == ReturnAddress then Returned(rax) else Lost;
  }

  /** `simd_unpack_data`. Invalid arguments fall through to the exit of size 0, so they yield 0. */
  method UnpackData(mem: Memory, dest: nat, src: nat, size: nat) returns (rax: nat)
    requires size < TWO_TO_64
    requires dest != 0 && src != 0 && 0 < size < TWO_TO_63 ==>
               dest + size <= mem.cells.Length && src + size <= mem.cells.Length
    modifies mem, mem.cells
    ensures dest == 0 || src == 0 || size == 0 || size >= TWO_TO_63 ==>
              rax == 0 && mem.cells[..] == old(mem.cells[..]) && mem.log == old(mem.log)
    ensures dest != 0 && src != 0 && 0 < size < TWO_TO_63 ==>
              && rax == size
              && mem.Copying(old(mem.cells[..]), old(mem.log), dest, src, size, PlanOf(Stream, size), false)
  {
    if dest == 0 || src == 0 || size == 0 || Signed(size) < 0 {
      return 0;
    }
    ghost var m, l := mem.cells[..], mem.log;
    var rbx := VectorLoop(mem, dest, src, size, 0, 32, false, m, l, Nothing);
    ByteTail(mem, dest, src, size, rbx, m, l, Upto(Nothing, 32, 0, size), false);
    rax := size;
  }

  /** `simd_secure_memcpy`. It checks nothing; a size of 2^63 or more looks negative to both vector
      loops and goes to the byte tail as a whole. */
  method SecureMemcpy(mem: Memory, dest: nat, src: nat, size: nat) returns (rax: nat)
    requires size < TWO_TO_64 && dest + size <= mem.cells.Length && src + size <= mem.cells.Length
    modifies mem, mem.cells
    ensures rax == size
    ensures mem.Copying(old(mem.cells[..]), old(mem.log), dest, src, size,
                        PlanOf(if size < TWO_TO_63 then Stream else Bytewise, size), dest % 32 == 0 && src % 32 == 0)
    ensures forall k | |old(mem.log)| <= k < |mem.log| && mem.log[k].width == 32 ::
              mem.log[k].aligned <==> dest % 32 == 0 && src % 32 == 0
  {
    ghost var m, l := mem.cells[..], mem.log;
    var aligned := dest % 32 == 0 && src % 32 == 0;
    var rbx := 0;
    ghost var p := Nothing;
    if Signed(size) >= 0 {
      Aligned32IsMultiple(dest);
      Aligned32IsMultiple(src);
      rbx := VectorLoop(mem, dest, src, size, 0, 32, aligned, m, l, Nothing);
      p := Upto(Nothing, 32, 0, size);
    }
    ByteTail(mem, dest, src, size, rbx, m, l, p, aligned);
    VectorsAreAligned(dest, src, Upto(p, 1, rbx, size), aligned);
    rax := size;
  }

  // ----- which calls are memmoves -----

  datatype Kernel = Pack | Wide | Stream | Bytewise

  function PlanOf(k: Kernel, size: nat): Plan {
    match k
    case Pack => PackPlan(Nothing, 0, size)
    case Wide => WidePlan(size)
    case Stream => StreamPlan(size)
    case Bytewise => Upto(Nothing, 1, 0, size)
  }

  /** The sizes above 1 that one single vector carries. */
  predicate OneVector(k: Kernel, size: nat) {
    match k
    case Pack => size == 16 || size == 32
    case Wide => size == 16 || size == 32 || size == 64
    case Stream => size == 32
    case Bytewise => false
  }

  lemma PackPlanTiles(p: Plan, off: nat, size: nat)
    requires Tiles(p, off) && off <= size
    ensures Tiles(PackPlan(p, off, size), size)
    ensures AtMostOneBlock(PackPlan(p, off, size)) <==>
              || (p.Nothing? && (size <= off + 1 || size == off + 16 || size == off + 32))
              || (AtMostOneBlock(p) && size == off)
  {
    UptoTiles(p, 32, off, size);
    var q, v := Upto(p, 32, off, size), End(32, off, size);
    if v + 16 <= size {
      UptoTiles(After(q, v, 16), 1, v + 16, size);
    } else {
      UptoTiles(q, 1, v, size);
    }
  }

  lemma PlanTiles(k: Kernel, size: nat)
    ensures Tiles(PlanOf(k, size), size)
    ensures AtMostOneBlock(PlanOf(k, size)) <==> size <= 1 || OneVector(k, size)
  {
    match k
    case Pack =>
      PackPlanTiles(Nothing, 0, size);
    case Wide =>
      UptoTiles(Nothing, 64, 0, size);
      PackPlanTiles(Upto(Nothing, 64, 0, size), End(64, 0, size), size);
    case Stream =>
      UptoTiles(Nothing, 32, 0, size);
      UptoTiles(Upto(Nothing, 32, 0, size), 1, End(32, 0, size), size);
    case Bytewise =>
      UptoTiles(Nothing, 1, 0, size);
  }

  lemma {:induction false} EndIsRoundingFrom(lo: nat, hi: nat)
    requires lo <= hi
    ensures End(64, lo, hi) == hi <==> (hi - lo) % 64 == 0
    decreases hi - lo
  {
    if lo + 64 <= hi {
      EndIsRoundingFrom(lo + 64, hi);
    }
  }

  lemma EndIsRounding(size: nat)
    ensures End(64, 0, size) == size <==> size % 64 == 0
  {
    EndIsRoundingFrom(0, size);
  }

  /** If the destination does not start inside the source, a copy leaves exactly the original
      source bytes at the destination and changes nothing else. */
  lemma KernelMoves(k: Kernel, m: seq<Byte>, dest: nat, src: nat, size: nat)
    requires dest + size <= |m| && src + size <= |m| && ForwardSafe(dest, src, size)
    ensures CopyBlocks(m, dest, src, PlanOf(k, size)) == Moved(m, dest, src, size)
  {
    PlanTiles(k, size);
    ForwardCopyIsMove(m, dest, src, PlanOf(k, size), size);
  }

  /** And that is exactly when it is a memmove on every memory, apart from the sizes that a single
      vector carries. */
  lemma KernelIsMemmoveIff(k: Kernel, memSize: nat, dest: nat, src: nat, size: nat)
    requires dest + size <= memSize && src + size <= memSize
    ensures (forall m: seq<Byte> | |m| == memSize ::
               CopyBlocks(m, dest, src, PlanOf(k, size)) == Moved(m, dest, src, size))
       <==> ForwardSafe(dest, src, size) || OneVector(k, size)
  {
    PlanTiles(k, size);
    var zero: Byte, one: Byte := 0, 1;
    CopyBlocksIsMoveIff(zero, one, memSize, dest, src, PlanOf(k, size), size);
  }

  // ----- zeroing -----

  /** `simd_zero_memory`. A null buffer or size 0 leaves RAX as it was on entry. */
  method ZeroMemory(mem: Memory, buffer: nat, size: nat, raxOnEntry: nat) returns (rax: nat)
    requires size < TWO_TO_64 && (buffer != 0 ==> buffer + size <= mem.cells.Length)
    modifies mem, mem.cells
    ensures buffer == 0 || size == 0 ==> rax == raxOnEntry && mem.cells[..] == old(mem.cells[..])
    ensures buffer != 0 && size != 0 ==>
              rax == size && mem.cells[..] == Overlay(old(mem.cells[..]), buffer, Zeros(size))
    ensures Disciplined(old(mem.log), mem.log, Range(buffer, size), Range(0, 0))
  {
    if buffer == 0 || size == 0 {
      return raxOnEntry;
    }
    ghost var m, l := mem.cells[..], mem.log;
    var rbx := 0;
    while 32 <= Signed(size - rbx)
      invariant rbx <= size
      invariant mem.cells[..] == Overlay(m, buffer, Zeros(rbx))
      invariant Disciplined(l, mem.log, Range(buffer, size), Range(0, 0))
      decreases size - rbx
    {
      OverlayAdjacent(m, buffer, Zeros(rbx), Zeros(32));
      StoreWithin(mem, buffer, rbx, Zeros(32), size, l);
      assert Zeros(rbx) + Zeros(32) == Zeros(rbx + 32);
      rbx := rbx + 32;
    }
    if size - rbx != 0 {
      OverlayAdjacent(m, buffer, Zeros(rbx), Zeros(size - rbx));
      StoreWithin(mem, buffer, rbx, Zeros(size - rbx), size, l);
      assert Zeros(rbx) + Zeros(size - rbx) == Zeros(size);
    }
    rax := size;
  }

  method StoreWithin(mem: Memory, buffer: nat, off: nat, bs: seq<Byte>, size: nat, ghost l: seq<Access>)
    requires off + |bs| <= size && buffer + size <= mem.cells.Length
    requires Disciplined(l, mem.log, Range(buffer, size), Range(0, 0))
    modifies mem, mem.cells
    ensures mem.cells[..] == Overlay(old(mem.cells[..]), buffer + off, bs)
    ensures Disciplined(l, mem.log, Range(buffer, size), Range(0, 0))
  {
    mem.StoreBytes(buffer + off, bs);
  }
}
