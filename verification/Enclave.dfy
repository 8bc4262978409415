/** The enclave of `main.cpp`: a megabyte of memory, into which messages are packed and reversed in
    place, and out of which their bytes are unpacked.
 */
module Enclave {
  import opened Words
  import opened FlatMemory
  import opened MemoryBus
  import opened SimdPacker

  const ENCLAVE_SIZE := 0x10_0000
  const DATA_BUFFER_SIZE := 0x1_0000

  // ----- what messages leave behind -----

  function Reversed<T>(s: seq<T>): (r: seq<T>)
    ensures |r| == |s|
  {
    seq(|s|, i requires 0 <= i < |s| => s[|s| - 1 - i])
  }

  /** The contents after the messages that were accepted, the first one first. */
  function AfterSends(msgs: seq<seq<Byte>>): (contents: seq<Byte>)
    ensures |contents| == ENCLAVE_SIZE
  {
    if msgs == [] then Zeros(ENCLAVE_SIZE)
    else Overlay(AfterSends(msgs[..|msgs| - 1]), 0, Reversed(msgs[|msgs| - 1]))
  }

  /** Message j is the latest one longer than k. */
  ghost predicate LatestOver(msgs: seq<seq<Byte>>, j: nat, k: nat) {
    j < |msgs| && k < |msgs[j]| && forall i | j < i < |msgs| :: |msgs[i]| <= k
  }

  /** b is what the messages leave at k: it comes from the latest message longer than k, counted from
      its end, or is 0 if no message was that long. */
  ghost predicate LeftAt(msgs: seq<seq<Byte>>, k: nat, b: Byte) {
    && (forall j: nat | LatestOver(msgs, j, k) :: b == msgs[j][|msgs[j]| - 1 - k])
    && ((forall j | 0 <= j < |msgs| :: |msgs[j]| <= k) ==> b == 0)
  }

  lemma {:induction false} ContentsAreHistory(msgs: seq<seq<Byte>>, k: nat)
    requires k < ENCLAVE_SIZE
    ensures LeftAt(msgs, k, AfterSends(msgs)[k])
  {
    if msgs != [] {
      var before, last := msgs[..|msgs| - 1], msgs[|msgs| - 1];
      ContentsAreHistory(before, k);
      forall j: nat | LatestOver(msgs, j, k)
        ensures AfterSends(msgs)[k] == msgs[j][|msgs[j]| - 1 - k]
      {
        if j < |before| {
          assert |msgs[|before|]| <= k;
          assert LatestOver(before, j, k);
        }
      }
    }
  }

  lemma MessageAbsorbed(msgs: seq<seq<Byte>>, msg: seq<Byte>)
    ensures AfterSends(msgs + [msg]) == Overlay(AfterSends(msgs), 0, Reversed(msg))
  {
    assert (msgs + [msg])[..|msgs|] == msgs;
  }

  lemma ReversedTwice<T>(s: seq<T>)
    ensures Reversed(Reversed(s)) == s
  {
  }

  // ----- the swap loop -----

  /** s with its first and last i items reversed. */
  function EndsReversed<T>(s: seq<T>, i: nat): (r: seq<T>)
    ensures |r| == |s|
  {
    seq(|s|, k requires 0 <= k < |s| => if k < i || |s| - i <= k then s[|s| - 1 - k] else s[k])
  }

  /** One swap of the stretch s at `at` in m. */
  lemma SwapStep<T>(m: seq<T>, at: nat, s: seq<T>, i: nat)
    requires at + |s| <= |m| && i < |s| / 2
    ensures var c, p, q := Overlay(m, at, EndsReversed(s, i)), at + i, at + |s| - 1 - i;
            c[p := c[q]][q := c[p]] == Overlay(m, at, EndsReversed(s, i + 1))
  {
  }

  lemma AllSwapped<T>(s: seq<T>)
    ensures EndsReversed(s, 0) == s && EndsReversed(s, |s| / 2) == Reversed(s)
  {
  }

  /** `std::swap` of byte i with its mirror image, for each i in the first half. */
  method ReverseInPlace(mem: Memory, at: nat, n: nat)
    requires at + n <= mem.cells.Length
    modifies mem.cells
    ensures mem.cells[..] == Overlay(old(mem.cells[..]), at, Reversed(old(mem.cells[..])[at..at + n]))
  {
    ghost var m := mem.cells[..];
    ghost var s := m[at..at + n];
    AllSwapped(s);
    var i := 0;
    while i < n / 2
      invariant i <= n / 2
      invariant mem.cells[..] == Overlay(m, at, EndsReversed(s, i))
    {
      SwapStep(m, at, s, i);
      var low, high := at + i, at + n - 1 - i;
      mem.cells[low], mem.cells[high] := mem.cells[high], mem.cells[low];
      i := i + 1;
    }
  }

  // ----- the enclave -----

  /** How `send_data` ends: with a code, or not at all, when the packing kernel does not return. */
  datatype Sent = Code(code: int) | NeverReturns

  /** The kernel that packing uses. */
  function PackKernel(avx512: bool): Kernel {
    if avx512 then Wide else Pack
  }

  /** Memory once the message at src has been packed to `at`. */
  function Packed(m: seq<Byte>, at: nat, src: nat, n: nat, avx512: bool): (r: seq<Byte>)
    ensures |r| == |m|
  {
    CopyBlocks(m, at, src, PlanOf(PackKernel(avx512), n))
  }

  /** Memory after an accepted message: packed, then reversed in place. */
  function SendEffect(m: seq<Byte>, at: nat, src: nat, n: nat, avx512: bool): (r: seq<Byte>)
    requires at + n <= |m|
    ensures |r| == |m|
  {
    var packed := Packed(m, at, src, n, avx512);
    Overlay(packed, at, Reversed(packed[at..at + n]))
  }

  /** Memory after n bytes have been unpacked from `at` to dest. */
  function ReceiveEffect(m: seq<Byte>, at: nat, dest: nat, n: nat): (r: seq<Byte>)
    ensures |r| == |m|
  {
    CopyBlocks(m, dest, at, PlanOf(Stream, n))
  }

  class EnclaveBuffer {
    const mem: Memory
    /** The fields of the buffer, and those of the hypervisor state that concern it. */
    var data: nat
    var size: nat
    var active: bool
    var base: nat
    var transferred: nat

    ghost predicate Valid()
      reads this
    {
      && (data != 0 ==> size == ENCLAVE_SIZE && data + ENCLAVE_SIZE <= mem.cells.Length)
      && (active ==> data != 0)
    }

    constructor (mem: Memory)
      ensures Valid() && this.mem == mem && data == 0 && !active && transferred == 0
    {
      this.mem := mem;
      data, size, active, base, transferred := 0, 0, false, 0, 0;
    }

    /** `EnclaveBuffer::allocate`; `block` is what the allocator returns. */
    method Allocate(block: nat) returns (ok: bool)
      requires block != 0 ==> block + ENCLAVE_SIZE <= mem.cells.Length
      modifies this`data, this`size, mem, mem.cells
      ensures data == block && ok == (block != 0)
      ensures size == if block != 0 then 0x10_0000 else old(size)
      ensures mem.cells[..] == if block != 0 then Overlay(old(mem.cells[..]), block, Zeros(ENCLAVE_SIZE))
                               else old(mem.cells[..])
    {
      data := block;
      if data == 0 {
        return false;
      }
      size := ENCLAVE_SIZE;
      mem.StoreBytes(data, Zeros(ENCLAVE_SIZE));
      ok := true;
    }

    /** `EnclaveBuffer::zero`. */
    method Zero(raxOnEntry: nat) returns (ok: bool)
      requires data != 0 ==> 0 < size < TWO_TO_63 && data + size <= mem.cells.Length
      modifies mem, mem.cells
      ensures ok == (data != 0)
      ensures mem.cells[..] == if data != 0 then Overlay(old(mem.cells[..]), data, Zeros(size)) else old(mem.cells[..])
    {
      if data == 0 {
        return false;
      }
      var rax := ZeroMemory(mem, data, size, raxOnEntry);
      ok := Signed(rax) == size;
    }

    /** `enclave::init`. Zeroing never fails, so -2 is never returned. */
    method Init(block: nat, rax: nat) returns (code: int)
      requires Valid() && (block != 0 ==> block + ENCLAVE_SIZE <= mem.cells.Length)
      modifies this, mem, mem.cells
      ensures code == if block != 0 then 0 else -1
      ensures data == block && active == (old(active) || block != 0) && transferred == old(transferred)
      ensures block == 0 ==> mem.cells[..] == old(mem.cells[..])
      ensures block != 0 ==> Valid() && base == block
      ensures block != 0 ==> mem.cells[..] == Overlay(old(mem.cells[..]), block, Zeros(ENCLAVE_SIZE))
    {
      var ok := Allocate(block);
      if !ok {
        return -1;
      }
      ok := Zero(rax);
      assert ok;
      base := data;
      active := true;
      code := 0;
    }

    /** `enclave::cleanup`: what the enclave held is wiped before its memory is given back. */
    method Cleanup(rax: nat)
      requires Valid()
      modifies this, mem, mem.cells
      ensures Valid() && !active && data == 0 && transferred == old(transferred)
      ensures mem.cells[..] == if old(data) != 0 then Overlay(old(mem.cells[..]), old(data), Zeros(ENCLAVE_SIZE))
                               else old(mem.cells[..])
    {
      var wiped := Zero(rax);
      if data != 0 {
        data, size := 0, 0;
      }
      active := false;
    }

    /** `enclave::send_data`. The result of packing is never negative as a 64-bit number, so -3 is
        never returned. */
    method SendData(src: nat, n: nat, avx512: bool) returns (r: Sent)
      requires Valid() && n < TWO_TO_64
      requires active && src != 0 && 0 < n <= DATA_BUFFER_SIZE ==> src + n <= mem.cells.Length
      modifies this`transferred, mem, mem.cells
      ensures r == if !active || src == 0 || n == 0 then Code(-1)
                   else if n > 0x1_0000 then Code(-2)
                   else if avx512 && n % 64 != 0 then NeverReturns
                   else Code(0)
      ensures r.Code? && r.code != 0 ==> mem.cells[..] == old(mem.cells[..])
      ensures r == NeverReturns ==> mem.cells[..] == Packed(old(mem.cells[..]), data, src, n, avx512)
      ensures r != Code(0) ==> transferred == old(transferred)
      ensures r == Code(0) ==>
                && transferred == (old(transferred) + n) % TWO_TO_64
                && mem.cells[..] == SendEffect(old(mem.cells[..]), data, src, n, avx512)
    {
      if !active || src == 0 || n == 0 {
        return Code(-1);
      }
      if n > DATA_BUFFER_SIZE {
        return Code(-2);
      }
      var outcome := PackData(mem, data, src, n, 1, avx512);
      if outcome == Lost {
        return NeverReturns;
      }
      assert Signed(outcome.rax) >= 0;
      transferred := (transferred + n) % TWO_TO_64;
      ReverseInPlace(mem, data, n);
      r := Code(0);
    }

    /** `enclave::receive_data`. Again -3 is never returned. */
    method ReceiveData(dest: nat, n: nat) returns (code: int)
      requires Valid() && n < TWO_TO_64
      requires active && dest != 0 && 0 < n <= DATA_BUFFER_SIZE ==> dest + n <= mem.cells.Length
      modifies mem, mem.cells
      ensures code == if !active || dest == 0 || n == 0 then -1 else if n > 0x1_0000 then -2 else 0
      ensures mem.cells[..] == if code == 0 then ReceiveEffect(old(mem.cells[..]), data, dest, n)
                               else old(mem.cells[..])
    {
      if !active || dest == 0 || n == 0 {
        return -1;
      }
      if n > DATA_BUFFER_SIZE {
        return -2;
      }
      var rax := UnpackData(mem, dest, data, n);
      assert Signed(rax) >= 0;
      code := 0;
    }
  }
}
