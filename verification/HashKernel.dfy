/** `simd_hash_blocks` as a loop over memory, proved against `IntegrityHash.Digest`. */
module HashKernel {
  import opened Words
  import opened Folds
  import opened FlatMemory
  import opened MemoryBus
  import opened IntegrityHash

  /** Whether the call is refused: no place for the result, or no data for a nonzero size. */
  predicate Refused(data: nat, size: nat, out: nat) {
    out == 0 || (data == 0 && size != 0)
  }

  /** The 32 bytes that an accepted call writes. */
  function HashResult(m: seq<Byte>, data: nat, size: nat, h: Hash): seq<Byte>
    requires data == 0 || data + size <= |m|
  {
    if data == 0 then h.empty else h.of(m[data..data + size])
  }

  method HashBlocks(mem: Memory, data: nat, size: nat, out: nat) returns (rax: nat)
    requires size < TWO_TO_64
    requires !Refused(data, size, out) ==> data + size <= mem.cells.Length && out + 32 <= mem.cells.Length
    modifies mem, mem.cells
    ensures Refused(data, size, out) ==>
              rax == 0xffff_ffff && mem.cells[..] == old(mem.cells[..]) && mem.log == old(mem.log)
    ensures !Refused(data, size, out) ==>
              && rax == 0
              && mem.cells[..] == Overlay(old(mem.cells[..]), out, HashResult(old(mem.cells[..]), data, size, HASH))
    ensures Disciplined(old(mem.log), mem.log, Range(out, 32), Range(data, size))
  {
    if out == 0 {
      return RAX_MINUS_ONE;
    }
    if data == 0 {
      if size != 0 {
        return RAX_MINUS_ONE;
      }
      StoreLanes(mem, out, NULL_DIGEST, Range(data, size));
      return 0;
    }
    HashData(mem, data, size, out);
    rax := 0;
  }

  /** The accepted call with data: absorb every byte, finalize each lane, store. */
  method HashData(mem: Memory, data: nat, size: nat, out: nat)
    requires size < TWO_TO_64 && data + size <= mem.cells.Length && out + 32 <= mem.cells.Length
    modifies mem, mem.cells
    ensures mem.cells[..] == Overlay(old(mem.cells[..]), out, DigestBytes(old(mem.cells[..])[data..data + size]))
    ensures Disciplined(old(mem.log), mem.log, Range(out, 32), Range(data, size))
  {
    ghost var d, l := mem.cells[data..data + size], mem.log;
    var lanes := AbsorbAll(mem, data, size, out, Seeds(size), Lane0, Lane1, Lane2, Lane3);
    FoldsAreState(d, size, lanes);
    ghost var l1 := mem.log;
    StoreLanes(mem, out, Finalize(lanes), Range(data, size));
    DisciplineChains(l, l1, mem.log, Range(out, 32), Range(data, size));
  }

  lemma FoldsAreState(d: seq<Byte>, size: nat, lanes: Lanes)
    requires size == |d|
    requires lanes == Lanes(Fold(Lane0, Seeds(size).l0, d, size), Fold(Lane1, Seeds(size).l1, d, size),
                            Fold(Lane2, Seeds(size).l2, d, size), Fold(Lane3, Seeds(size).l3, d, size))
    ensures Finalize(lanes) == Digest(d)
  {
  }

  type LaneStep = (Word, Byte, nat) -> Word

  /** `.hash_loop`: byte after byte, each of the four lane registers takes its step. */
  method AbsorbAll(mem: Memory, data: nat, size: nat, ghost out: nat, seeds: Lanes,
                   lane0: LaneStep, lane1: LaneStep, lane2: LaneStep, lane3: LaneStep) returns (lanes: Lanes)
    requires data + size <= mem.cells.Length
    modifies mem`log
    ensures var d := mem.cells[data..data + size];
            lanes == Lanes(Fold(lane0, seeds.l0, d, size), Fold(lane1, seeds.l1, d, size),
                           Fold(lane2, seeds.l2, d, size), Fold(lane3, seeds.l3, d, size))
    ensures Disciplined(old(mem.log), mem.log, Range(out, 32), Range(data, size))
  {
    ghost var d := mem.cells[data..data + size];
    var r8, r9, r10, r11 := seeds.l0, seeds.l1, seeds.l2, seeds.l3;
    var rbx := 0;
    while rbx < size
      invariant rbx <= size && mem.cells[data..data + size] == d
      invariant r8 == Fold(lane0, seeds.l0, d, rbx)
      invariant r9 == Fold(lane1, seeds.l1, d, rbx)
      invariant r10 == Fold(lane2, seeds.l2, d, rbx)
      invariant r11 == Fold(lane3, seeds.l3, d, rbx)
      invariant Disciplined(old(mem.log), mem.log, Range(out, 32), Range(data, size))
    {
      var al := mem.LoadByte(data + rbx);
      assert al == mem.cells[data..data + size][rbx];
      r8 := lane0(r8, al, rbx);
      r9 := lane1(r9, al, rbx);
      r10 := lane2(r10, al, rbx);
      r11 := lane3(r11, al, rbx);
      rbx := rbx + 1;
    }
    lanes := Lanes(r8, r9, r10, r11);
  }

  /** The four stores of `.hash_finalize` and `.hash_zero`. */
  method StoreLanes(mem: Memory, out: nat, lanes: Lanes, ghost readable: Range)
    requires out + 32 <= mem.cells.Length
    modifies mem, mem.cells
    ensures mem.cells[..] == Overlay(old(mem.cells[..]), out, LaneBytes(lanes))
    ensures Disciplined(old(mem.log), mem.log, Range(out, 32), readable)
  {
    StoreFour(mem, out, LittleEndian(lanes.l0), LittleEndian(lanes.l1),
              LittleEndian(lanes.l2), LittleEndian(lanes.l3), readable);
  }

  method StoreFour(mem: Memory, out: nat, b0: seq<Byte>, b1: seq<Byte>, b2: seq<Byte>, b3: seq<Byte>,
                   ghost readable: Range)
    requires |b0| == |b1| == |b2| == |b3| == 8 && out + 32 <= mem.cells.Length
    modifies mem, mem.cells
    ensures mem.cells[..] == Overlay(old(mem.cells[..]), out, b0 + b1 + b2 + b3)
    ensures Disciplined(old(mem.log), mem.log, Range(out, 32), readable)
  {
    ghost var m := mem.cells[..];
    mem.StoreBytes(out, b0);
    OverlayAdjacent(m, out, b0, b1);
    mem.StoreBytes(out + 8, b1);
    OverlayAdjacent(m, out, b0 + b1, b2);
    mem.StoreBytes(out + 16, b2);
    OverlayAdjacent(m, out, b0 + b1 + b2, b3);
    mem.StoreBytes(out + 24, b3);
  }
}
