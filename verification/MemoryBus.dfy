/** The memory as the kernels see it: an array of bytes, addressed from 0. Every load and every store
    of the copy, zeroing and hash kernels is recorded. Address 0 is the null pointer.
 */
module MemoryBus {
  import opened Words
  import opened FlatMemory

  /** One operand of an instruction. An aligned operand is that of a 32-byte `vmovdqa`, which
      faults unless its address is a multiple of 32. */
  datatype Access =
    | Load(addr: nat, width: nat, aligned: bool)
    | Store(addr: nat, width: nat, aligned: bool)

  datatype Range = Range(start: nat, len: nat) {
    predicate Covers(addr: nat, w: nat) {
      start <= addr && addr + w <= start + len
    }
  }

  ghost predicate Aligned32(addr: nat) {
    addr == 0 || (32 <= addr && Aligned32(addr - 32))
  }

  lemma {:induction false} Aligned32IsMultiple(addr: nat)
    ensures Aligned32(addr) <==> addr % 32 == 0
  {
    if 32 <= addr {
      Aligned32IsMultiple(addr - 32);
    }
  }

  /** The access stays inside its range, and an aligned operand does not fault. */
  ghost predicate Allowed(a: Access, writable: Range, readable: Range) {
    && (a.aligned ==> a.width == 32 && Aligned32(a.addr))
    && (if a.Load? then readable else writable).Covers(a.addr, a.width)
  }

  /** after is before and then only loads from readable and stores to writable. */
  ghost predicate Disciplined(before: seq<Access>, after: seq<Access>, writable: Range, readable: Range) {
    before <= after && forall k :: |before| <= k < |after| ==> Allowed(after[k], writable, readable)
  }

  lemma DisciplineChains(l0: seq<Access>, l1: seq<Access>, l2: seq<Access>, writable: Range, readable: Range)
    requires Disciplined(l0, l1, writable, readable) && Disciplined(l1, l2, writable, readable)
    ensures Disciplined(l0, l2, writable, readable)
  {
  }

  /** A block move inside the ranges keeps the discipline. */
  lemma MoveIsDisciplined(before: seq<Access>, log: seq<Access>, dest: nat, src: nat, n: nat,
                          off: nat, w: nat, aligned: bool)
    requires off + w <= n && (aligned ==> w == 32 && Aligned32(dest + off) && Aligned32(src + off))
    requires Disciplined(before, log, Range(dest, n), Range(src, n))
    ensures Disciplined(before, log + [Load(src + off, w, aligned), Store(dest + off, w, aligned)],
                        Range(dest, n), Range(src, n))
  {
  }

  /** The accesses of a copy that moves the blocks of p, one after the other: each block is loaded and
      then stored. The 32-byte operands are aligned ones or not, as `aligned` says, no others are. */
  function Accesses(dest: nat, src: nat, p: Plan, aligned: bool): seq<Access> {
    match p
    case Nothing => []
    case After(before, start, w) =>
      var a := aligned && w == 32;
      Accesses(dest, src, before, aligned) + [Load(src + start, w, a), Store(dest + start, w, a)]
  }

  lemma {:induction false} VectorsAreAligned(dest: nat, src: nat, p: Plan, aligned: bool)
    ensures forall a | a in Accesses(dest, src, p, aligned) :: a.aligned <==> aligned && a.width == 32
  {
    if p.After? {
      VectorsAreAligned(dest, src, p.before, aligned);
    }
  }

  lemma OneMoreBlock<T>(m: seq<T>, dest: nat, src: nat, p: Plan, off: nat, w: nat, c: seq<T>, d: seq<T>)
    requires c == CopyBlocks(m, dest, src, p) && d == Moved(c, dest + off, src + off, w)
    ensures d == CopyBlocks(m, dest, src, After(p, off, w))
  {
  }

  lemma OneMoreAccess(l: seq<Access>, dest: nat, src: nat, p: Plan, off: nat, w: nat, mode: bool, log: seq<Access>)
    requires var a := mode && w == 32;
             log == l + Accesses(dest, src, p, mode) + [Load(src + off, w, a), Store(dest + off, w, a)]
    ensures log == l + Accesses(dest, src, After(p, off, w), mode)
  {
  }

  class Memory {
    const cells: array<Byte>
    ghost var log: seq<Access>

    constructor (size: nat)
      ensures fresh(cells) && cells.Length == size && log == []
    {
      cells := new Byte[size];
      log := [];
    }

    /** A register load of w bytes at src followed by the store of the register at dest. */
    method MoveBlock(dest: nat, src: nat, w: nat, aligned: bool)
      requires dest + w <= cells.Length && src + w <= cells.Length
      requires aligned ==> w == 32 && Aligned32(dest) && Aligned32(src)
      modifies this, cells
      ensures cells[..] == Moved(old(cells[..]), dest, src, w)
      ensures log == old(log) + [Load(src, w, aligned), Store(dest, w, aligned)]
    {
      var register := cells[src..src + w];
      forall i | 0 <= i < w {
        cells[dest + i] := register[i];
      }
      ghost var moved := Moved(old(cells[..]), dest, src, w);
      forall a | 0 <= a < cells.Length
        ensures cells[a] == moved[a]
      {
        if dest <= a < dest + w {
          assert cells[dest + (a - dest)] == register[a - dest];
        }
      }
      log := log + [Load(src, w, aligned), Store(dest, w, aligned)];
    }

    /** A copy of n bytes from src to dest, begun when memory was m and the log was l, has moved
        exactly the blocks of p and touched nothing outside the two ranges. */
    ghost predicate Copying(m: seq<Byte>, l: seq<Access>, dest: nat, src: nat, n: nat, p: Plan, aligned: bool)
      reads this, cells
    {
      && dest + n <= cells.Length && src + n <= cells.Length && |m| == cells.Length
      && cells[..] == CopyBlocks(m, dest, src, p)
      && log == l + Accesses(dest, src, p, aligned)
      && Disciplined(l, log, Range(dest, n), Range(src, n))
    }

    /** The block of width w at offset off of such a copy. */
    method CopyStep(dest: nat, src: nat, off: nat, w: nat, aligned: bool,
                    ghost m: seq<Byte>, ghost l: seq<Access>, ghost n: nat, ghost p: Plan, ghost mode: bool)
      requires Copying(m, l, dest, src, n, p, mode) && off + w <= n
      requires aligned ==> Aligned32(dest + off) && Aligned32(src + off)
      requires aligned == (mode && w == 32)
      modifies this, cells
      ensures Copying(m, l, dest, src, n, After(p, off, w), mode)
    {
      ghost var c := cells[..];
      MoveIsDisciplined(l, log, dest, src, n, off, w, aligned);
      MoveBlock(dest + off, src + off, w, aligned);
      OneMoreBlock(m, dest, src, p, off, w, c, cells[..]);
      OneMoreAccess(l, dest, src, p, off, w, mode, log);
    }

    /** `rep movsb` with the registers set to offset off: one byte at a time, upwards. */
    method RepMovsb(dest: nat, src: nat, off: nat, n: nat,
                    ghost m: seq<Byte>, ghost l: seq<Access>, ghost p: Plan, ghost mode: bool)
      requires Copying(m, l, dest, src, n, p, mode) && off <= n
      modifies this, cells
      ensures Copying(m, l, dest, src, n, Upto(p, 1, off, n), mode)
    {
      ghost var q := p;
      for i := off to n
        invariant Copying(m, l, dest, src, n, q, mode) && Upto(q, 1, i, n) == Upto(p, 1, off, n)
      {
        CopyStep(dest, src, i, 1, false, m, l, n, q, mode);
        q := After(q, i, 1);
      }
    }

    /** A load of one byte. */
    method LoadByte(addr: nat) returns (b: Byte)
      requires addr < cells.Length
      modifies this`log
      ensures b == cells[addr]
      ensures log == old(log) + [Load(addr, 1, false)]
    {
      b := cells[addr];
      log := log + [Load(addr, 1, false)];
    }

    /** A store of the bytes bs at addr. */
    method StoreBytes(addr: nat, bs: seq<Byte>)
      requires addr + |bs| <= cells.Length
      modifies this, cells
      ensures cells[..] == Overlay(old(cells[..]), addr, bs)
      ensures log == old(log) + [Store(addr, |bs|, false)]
    {
      forall i | 0 <= i < |bs| {
        cells[addr + i] := bs[i];
      }
      log := log + [Store(addr, |bs|, false)];
    }
  }
}
