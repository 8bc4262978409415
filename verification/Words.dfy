/** Machine words and bytes, and the reversible word operations the hash is built from.

    Words are 64-bit bit-vectors, so `add` and `imul` wrap. Each operation is a named function
    with literal constants, and each has its inverse beside it. Proofs about compositions then
    reason about the names; only the lemmas of this file look at bits.
 */
module Words {
  type Word = bv64
  type Byte = bv8

  const TWO_TO_63 := 0x8000_0000_0000_0000
  const TWO_TO_64 := 0x1_0000_0000_0000_0000

  /** What `mov eax, -1` leaves in RAX: writing EAX clears the upper half. */
  const RAX_MINUS_ONE := 0xffff_ffff

  /** A register value read as a signed number, as `jl`, `jge` and an `int64_t` read it. */
  function Signed(x: int): int {
    if x < TWO_TO_63 then x else x - TWO_TO_64
  }

  /** n zero bytes. */
  function Zeros(n: nat): (bs: seq<Byte>)
    ensures |bs| == n
  {
    seq(n, _ => 0)
  }

  /** A counter register as a word. */
  function IndexWord(k: nat): Word {
    (k % TWO_TO_64) as Word
  }

  // ----- xor and addition of a key -----

  function Xor(x: Word, k: Word): Word { x ^ k }
  function Add(x: Word, k: Word): Word { x + k }
  function Sub(x: Word, k: Word): Word { x - k }

  lemma XorUndone(x: Word, k: Word)
    ensures Xor(Xor(x, k), k) == x && Xor(Xor(x, k), x) == k
  {
  }

  lemma AddKeyUndone(x: Word, k: Word)
    ensures Sub(Add(x, k), k) == x
  {
    assert Sub(x + k, k) == x;
  }

  lemma SubKeyUndone(x: Word, k: Word)
    ensures Add(Sub(x, k), k) == x
  {
    assert Add(x - k, k) == x;
  }

  lemma AddBaseUndone(x: Word, k: Word)
    ensures Sub(Add(x, k), x) == k
  {
    assert Sub(x + k, x) == k;
  }

  lemma AddUndone(x: Word, k: Word)
    ensures Sub(Add(x, k), k) == x && Add(Sub(x, k), k) == x && Sub(Add(x, k), x) == k
  {
    AddKeyUndone(x, k);
    SubKeyUndone(x, k);
    AddBaseUndone(x, k);
  }

  // ----- multiplication by an odd constant -----

  function MulPrime(x: Word): Word { x * 0x100000001b3 }
  function DivPrime(x: Word): Word { x * 0xce965057aff6957b }
  function MulMix1(x: Word): Word { x * 0xff51afd7ed558ccd }
  function DivMix1(x: Word): Word { x * 0x4f74430c22a54005 }
  function MulMix2(x: Word): Word { x * 0xc4ceb9fe1a85ec53 }
  function DivMix2(x: Word): Word { x * 0x9cb4b2f8129337db }

  lemma MulPrimeUndone(x: Word)
    ensures DivPrime(MulPrime(x)) == x && MulPrime(DivPrime(x)) == x
  {
    assert DivPrime(x * 0x100000001b3) == x;
    assert MulPrime(x * 0xce965057aff6957b) == x;
  }

  lemma MulMix1Undone(x: Word)
    ensures DivMix1(MulMix1(x)) == x && MulMix1(DivMix1(x)) == x
  {
    assert DivMix1(x * 0xff51afd7ed558ccd) == x;
    assert MulMix1(x * 0x4f74430c22a54005) == x;
  }

  lemma MulMix2Undone(x: Word)
    ensures DivMix2(MulMix2(x)) == x && MulMix2(DivMix2(x)) == x
  {
    assert DivMix2(x * 0xc4ceb9fe1a85ec53) == x;
    assert MulMix2(x * 0x9cb4b2f8129337db) == x;
  }

  // ----- shifts and rotations -----

  /** `mov rcx, rax; shr rcx, 33; xor rax, rcx`, which undoes itself. */
  function XorShift(x: Word): Word { x ^ (x >> 33) }

  lemma XorShiftUndone(x: Word)
    ensures XorShift(XorShift(x)) == x
  {
    assert XorShift(x ^ (x >> 33)) == x;
  }

  function Rol13(x: Word): Word { (x << 13) | (x >> 51) }
  function Ror13(x: Word): Word { (x >> 13) | (x << 51) }
  function Rol29(x: Word): Word { (x << 29) | (x >> 35) }
  function Ror29(x: Word): Word { (x >> 29) | (x << 35) }
  function Rol37(x: Word): Word { (x << 37) | (x >> 27) }
  function Ror37(x: Word): Word { (x >> 37) | (x << 27) }
  function Rol43(x: Word): Word { (x << 43) | (x >> 21) }
  function Ror43(x: Word): Word { (x >> 43) | (x << 21) }

  lemma RotationsUndone(x: Word)
    ensures Ror13(Rol13(x)) == x && Rol13(Ror13(x)) == x
    ensures Ror29(Rol29(x)) == x && Rol29(Ror29(x)) == x
    ensures Ror37(Rol37(x)) == x && Rol37(Ror37(x)) == x
    ensures Ror43(Rol43(x)) == x
  {
  }

  // ----- the top bit -----

  function FlipTop(x: Word): Word { x ^ 0x8000_0000_0000_0000 }

  lemma FlipTopIsAdd(x: Word)
    ensures FlipTop(x) == x + 0x8000_0000_0000_0000
  {
  }

  lemma FlipTopXor(x: Word, k: Word)
    ensures Xor(k, FlipTop(x)) == FlipTop(Xor(k, x))
  {
    assert Xor(k, x ^ 0x8000_0000_0000_0000) == (k ^ x) ^ 0x8000_0000_0000_0000;
  }

  lemma FlipTopCancels(x: Word, y: Word)
    ensures Xor(FlipTop(x), FlipTop(y)) == Xor(x, y)
  {
    assert Xor(x ^ 0x8000_0000_0000_0000, y ^ 0x8000_0000_0000_0000) == x ^ y;
  }

  /** Multiplying by an odd number carries the top bit to the top bit. */
  lemma FlipTopMulPrime(x: Word)
    ensures MulPrime(FlipTop(x)) == FlipTop(MulPrime(x))
  {
    FlipTopIsAdd(x);
    FlipTopIsAdd(x * 0x100000001b3);
    assert MulPrime(x + 0x8000_0000_0000_0000) == x * 0x100000001b3 + 0x8000_0000_0000_0000;
  }

  // ----- bytes of a word -----

  function LowByte(w: Word): Byte { (w & 0xff) as Byte }
  function FifthByte(w: Word): Byte { ((w >> 32) & 0xff) as Byte }

  lemma LowByteOfByte(b: Byte)
    ensures LowByte(b as Word) == b
  {
  }

  lemma FifthByteOfShifted(b: Byte)
    ensures FifthByte((b as Word) << 32) == b
  {
  }

  /** The eight bytes that `mov [mem], rax` stores, lowest first. */
  function LittleEndian(w: Word): (bs: seq<Byte>)
    ensures |bs| == 8
  {
    [ (w & 0xff) as Byte, ((w >> 8) & 0xff) as Byte,
      ((w >> 16) & 0xff) as Byte, ((w >> 24) & 0xff) as Byte,
      ((w >> 32) & 0xff) as Byte, ((w >> 40) & 0xff) as Byte,
      ((w >> 48) & 0xff) as Byte, ((w >> 56) & 0xff) as Byte ]
  }

  /** The word that `mov rax, [mem]` loads from eight bytes. */
  function FromLittleEndian(bs: seq<Byte>): Word
    requires |bs| == 8
  {
    (bs[0] as Word) | ((bs[1] as Word) << 8) | ((bs[2] as Word) << 16) | ((bs[3] as Word) << 24) |
    ((bs[4] as Word) << 32) | ((bs[5] as Word) << 40) | ((bs[6] as Word) << 48) | ((bs[7] as Word) << 56)
  }

  lemma LittleEndianRoundTrip(w: Word)
    ensures FromLittleEndian(LittleEndian(w)) == w
  {
  }
}
