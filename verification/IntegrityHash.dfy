/** The 256-bit integrity hash of `simd_hash_blocks`: four 64-bit lanes, one step per byte, and
    a MurmurHash3-style finalizer.

    A lane is its step folded over the data. Detection rests on two facts about a step: it can be
    undone, and it reveals its byte. Lanes 0, 1 and 2 have both; lane 3 has the second only.
 */
module IntegrityHash {
  import opened Words
  import opened Folds

  // ----- the four lane steps -----

  function Key0(b: Byte, i: Word): Word { Add(b as Word, i) }
  function Key1(b: Byte, i: Word): Word { Xor(i << 8, b as Word) }
  function Key2(b: Byte, i: Word): Word { Xor((b as Word) << 32, i) }

  function Step0(x: Word, b: Byte, i: Word): Word { Rol13(MulPrime(Xor(x, Key0(b, i)))) }
  function Step1(x: Word, b: Byte, i: Word): Word { Rol29(MulPrime(Add(x, Key1(b, i)))) }
  function Step2(x: Word, b: Byte, i: Word): Word { Rol37(MulPrime(Xor(x, Key2(b, i)))) }
  function Step3(x: Word, b: Byte, i: Word): Word { Rol43(Xor(x, MulPrime(Xor(Key0(b, i), x)))) }

  function Back0(y: Word, b: Byte, i: Word): Word { Xor(DivPrime(Ror13(y)), Key0(b, i)) }
  function Back1(y: Word, b: Byte, i: Word): Word { Sub(DivPrime(Ror29(y)), Key1(b, i)) }
  function Back2(y: Word, b: Byte, i: Word): Word { Xor(DivPrime(Ror37(y)), Key2(b, i)) }

  lemma Step0Undone(x: Word, b: Byte, i: Word)
    ensures Back0(Step0(x, b, i), b, i) == x && Step0(Back0(x, b, i), b, i) == x
  {
    var k := Key0(b, i);
    RotationsUndone(MulPrime(Xor(x, k)));
    MulPrimeUndone(Xor(x, k));
    XorUndone(x, k);
    XorUndone(DivPrime(Ror13(x)), k);
    MulPrimeUndone(Ror13(x));
    RotationsUndone(x);
  }

  lemma Step1Undone(x: Word, b: Byte, i: Word)
    ensures Back1(Step1(x, b, i), b, i) == x && Step1(Back1(x, b, i), b, i) == x
  {
    var k := Key1(b, i);
    RotationsUndone(MulPrime(Add(x, k)));
    MulPrimeUndone(Add(x, k));
    AddUndone(x, k);
    AddUndone(DivPrime(Ror29(x)), k);
    MulPrimeUndone(Ror29(x));
    RotationsUndone(x);
  }

  lemma Step2Undone(x: Word, b: Byte, i: Word)
    ensures Back2(Step2(x, b, i), b, i) == x && Step2(Back2(x, b, i), b, i) == x
  {
    var k := Key2(b, i);
    RotationsUndone(MulPrime(Xor(x, k)));
    MulPrimeUndone(Xor(x, k));
    XorUndone(x, k);
    XorUndone(DivPrime(Ror37(x)), k);
    MulPrimeUndone(Ror37(x));
    RotationsUndone(x);
  }

  // ----- a step reveals its byte -----

  function Byte0(x: Word, y: Word, i: Word): Byte { LowByte(Sub(Xor(DivPrime(Ror13(y)), x), i)) }
  function Byte1(x: Word, y: Word, i: Word): Byte { LowByte(Xor(Sub(DivPrime(Ror29(y)), x), i << 8)) }
  function Byte2(x: Word, y: Word, i: Word): Byte { FifthByte(Xor(Xor(DivPrime(Ror37(y)), x), i)) }
  function Byte3(x: Word, y: Word, i: Word): Byte {
    LowByte(Sub(Xor(DivPrime(Xor(Ror43(y), x)), x), i))
  }

  lemma Step0RevealsByte(x: Word, b: Byte, i: Word)
    ensures Byte0(x, Step0(x, b, i), i) == b
  {
    var k := Key0(b, i);
    RotationsUndone(MulPrime(Xor(x, k)));
    MulPrimeUndone(Xor(x, k));
    XorUndone(x, k);
    AddUndone(b as Word, i);
    LowByteOfByte(b);
  }

  lemma Step1RevealsByte(x: Word, b: Byte, i: Word)
    ensures Byte1(x, Step1(x, b, i), i) == b
  {
    var k := Key1(b, i);
    RotationsUndone(MulPrime(Add(x, k)));
    MulPrimeUndone(Add(x, k));
    AddUndone(x, k);
    XorUndone(i << 8, b as Word);
    LowByteOfByte(b);
  }

  lemma Step2RevealsByte(x: Word, b: Byte, i: Word)
    ensures Byte2(x, Step2(x, b, i), i) == b
  {
    var k := Key2(b, i);
    RotationsUndone(MulPrime(Xor(x, k)));
    MulPrimeUndone(Xor(x, k));
    XorUndone(x, k);
    XorUndone((b as Word) << 32, i);
    FifthByteOfShifted(b);
  }

  lemma Step3RevealsByte(x: Word, b: Byte, i: Word)
    ensures Byte3(x, Step3(x, b, i), i) == b
  {
    var k := Key0(b, i);
    var m := MulPrime(Xor(k, x));
    RotationsUndone(Xor(x, m));
    XorUndone(x, m);
    XorUndone(m, x);
    MulPrimeUndone(Xor(k, x));
    XorUndone(k, x);
    AddUndone(b as Word, i);
    LowByteOfByte(b);
  }

  /** Lane 3 forgets the top bit of its state at every step. */
  lemma Step3ForgetsTopBit(x: Word, b: Byte, i: Word)
    ensures Step3(FlipTop(x), b, i) == Step3(x, b, i)
  {
    var k := Key0(b, i);
    FlipTopXor(x, k);
    FlipTopMulPrime(Xor(k, x));
    FlipTopCancels(x, MulPrime(Xor(k, x)));
  }

  // ----- the lanes as steps over the data -----

  function Lane0(x: Word, b: Byte, k: nat): Word { Step0(x, b, IndexWord(k)) }
  function Lane1(x: Word, b: Byte, k: nat): Word { Step1(x, b, IndexWord(k)) }
  function Lane2(x: Word, b: Byte, k: nat): Word { Step2(x, b, IndexWord(k)) }
  function Lane3(x: Word, b: Byte, k: nat): Word { Step3(x, b, IndexWord(k)) }

  function Unlane0(y: Word, b: Byte, k: nat): Word { Back0(y, b, IndexWord(k)) }
  function Unlane1(y: Word, b: Byte, k: nat): Word { Back1(y, b, IndexWord(k)) }
  function Unlane2(y: Word, b: Byte, k: nat): Word { Back2(y, b, IndexWord(k)) }

  lemma LanesUndone()
    ensures Undoes(Unlane0, Lane0) && Undoes(Unlane1, Lane1) && Undoes(Unlane2, Lane2)
  {
    forall x, b, k
      ensures Unlane0(Lane0(x, b, k), b, k) == x
      ensures Unlane1(Lane1(x, b, k), b, k) == x
      ensures Unlane2(Lane2(x, b, k), b, k) == x
    {
      Step0Undone(x, b, IndexWord(k));
      Step1Undone(x, b, IndexWord(k));
      Step2Undone(x, b, IndexWord(k));
    }
  }

  lemma LanesRevealByte()
    ensures RevealsItem(Lane0) && RevealsItem(Lane1) && RevealsItem(Lane2) && RevealsItem(Lane3)
  {
    forall x, b, k
      ensures Byte0(x, Lane0(x, b, k), IndexWord(k)) == b && Byte1(x, Lane1(x, b, k), IndexWord(k)) == b
      ensures Byte2(x, Lane2(x, b, k), IndexWord(k)) == b && Byte3(x, Lane3(x, b, k), IndexWord(k)) == b
    {
      Step0RevealsByte(x, b, IndexWord(k));
      Step1RevealsByte(x, b, IndexWord(k));
      Step2RevealsByte(x, b, IndexWord(k));
      Step3RevealsByte(x, b, IndexWord(k));
    }
    RevealsItemFrom(Lane0, (x, y, k) => Byte0(x, y, IndexWord(k)));
    RevealsItemFrom(Lane1, (x, y, k) => Byte1(x, y, IndexWord(k)));
    RevealsItemFrom(Lane2, (x, y, k) => Byte2(x, y, IndexWord(k)));
    RevealsItemFrom(Lane3, (x, y, k) => Byte3(x, y, IndexWord(k)));
  }

  // ----- the finalizer -----

  function Fmix64(x: Word): Word {
    XorShift(MulMix2(XorShift(MulMix1(XorShift(x)))))
  }

  function Unmix64(y: Word): Word {
    XorShift(DivMix1(XorShift(DivMix2(XorShift(y)))))
  }

  /** The finalizer is a bijection on words. */
  lemma Fmix64Undone(x: Word)
    ensures Unmix64(Fmix64(x)) == x && Fmix64(Unmix64(x)) == x
  {
    XorShiftUndone(MulMix2(XorShift(MulMix1(XorShift(x)))));
    MulMix2Undone(XorShift(MulMix1(XorShift(x))));
    XorShiftUndone(MulMix1(XorShift(x)));
    MulMix1Undone(XorShift(x));
    XorShiftUndone(x);
    XorShiftUndone(DivMix1(XorShift(DivMix2(XorShift(x)))));
    MulMix1Undone(XorShift(DivMix2(XorShift(x))));
    XorShiftUndone(DivMix2(XorShift(x)));
    MulMix2Undone(XorShift(x));
  }

  // ----- the digest -----

  datatype Lanes = Lanes(l0: Word, l1: Word, l2: Word, l3: Word)

  function Seed0(n: Word): Word { Xor(0x243f6a8885a308d3, n) }
  function Seed1(n: Word): Word { Xor(0x13198a2e03707344, n << 17) }
  const SEED2: Word := 0xa4093822299f31d0
  const SEED3: Word := 0x082efa98ec4e6c89

  function Seeds(size: nat): Lanes {
    Lanes(Seed0(IndexWord(size)), Seed1(IndexWord(size)), SEED2, SEED3)
  }

  /** The four lane registers after the first k bytes. */
  function StateAt(data: seq<Byte>, k: nat): Lanes
    requires k <= |data|
  {
    var s := Seeds(|data|);
    Lanes(Fold(Lane0, s.l0, data, k), Fold(Lane1, s.l1, data, k),
          Fold(Lane2, s.l2, data, k), Fold(Lane3, s.l3, data, k))
  }

  function Finalize(s: Lanes): Lanes {
    Lanes(Fmix64(s.l0), Fmix64(s.l1), Fmix64(s.l2), Fmix64(s.l3))
  }

  function Digest(data: seq<Byte>): Lanes {
    Finalize(StateAt(data, |data|))
  }

  /** What is written for a null buffer of size 0: the constants, without seed or finalizer. */
  const NULL_DIGEST := Lanes(0x243f6a8885a308d3, 0x13198a2e03707344, 0xa4093822299f31d0, 0x082efa98ec4e6c89)

  function LaneBytes(d: Lanes): (bs: seq<Byte>)
    ensures |bs| == 32
  {
    LittleEndian(d.l0) + LittleEndian(d.l1) + LittleEndian(d.l2) + LittleEndian(d.l3)
  }

  function DigestBytes(data: seq<Byte>): (bs: seq<Byte>)
    ensures |bs| == 32
  {
    LaneBytes(Digest(data))
  }

  /** A hash as its users see it: the bytes for a region, and those for no region at all. */
  datatype Hash = Hash(of: seq<Byte> -> seq<Byte>, empty: seq<Byte>)

  const HASH := Hash(DigestBytes, LaneBytes(NULL_DIGEST))

  function WordAt(bs: seq<Byte>, k: nat): Word
    requires k + 8 <= |bs|
  {
    FromLittleEndian(bs[k..k + 8])
  }

  /** The lanes can be read back from the 32 bytes. */
  lemma LaneBytesReadBack(d: Lanes)
    ensures Lanes(WordAt(LaneBytes(d), 0), WordAt(LaneBytes(d), 8),
                  WordAt(LaneBytes(d), 16), WordAt(LaneBytes(d), 24)) == d
  {
    var b0, b1, b2, b3 := LittleEndian(d.l0), LittleEndian(d.l1), LittleEndian(d.l2), LittleEndian(d.l3);
    Quarters(b0, b1, b2, b3);
    LittleEndianRoundTrip(d.l0);
    LittleEndianRoundTrip(d.l1);
    LittleEndianRoundTrip(d.l2);
    LittleEndianRoundTrip(d.l3);
  }

  lemma LaneBytesInjective(d: Lanes, e: Lanes)
    ensures LaneBytes(d) == LaneBytes(e) <==> d == e
  {
    LaneBytesReadBack(d);
    LaneBytesReadBack(e);
  }

  lemma Quarters(b0: seq<Byte>, b1: seq<Byte>, b2: seq<Byte>, b3: seq<Byte>)
    requires |b0| == |b1| == |b2| == |b3| == 8
    ensures var bs := b0 + b1 + b2 + b3;
            bs[0..8] == b0 && bs[8..16] == b1 && bs[16..24] == b2 && bs[24..32] == b3
  {
  }

  // ----- the theorems about detection -----

  lemma FinalizerSeparates(x: Word, y: Word)
    ensures Fmix64(x) == Fmix64(y) <==> x == y
  {
    Fmix64Undone(x);
    Fmix64Undone(y);
  }

  /** Lanes of the digest are equal where the lane registers are. */
  lemma DigestSeparates(d: seq<Byte>, e: seq<Byte>)
    ensures Digest(d).l0 == Digest(e).l0 <==> StateAt(d, |d|).l0 == StateAt(e, |e|).l0
    ensures Digest(d).l1 == Digest(e).l1 <==> StateAt(d, |d|).l1 == StateAt(e, |e|).l1
    ensures Digest(d).l2 == Digest(e).l2 <==> StateAt(d, |d|).l2 == StateAt(e, |e|).l2
    ensures Digest(d).l3 == Digest(e).l3 <==> StateAt(d, |d|).l3 == StateAt(e, |e|).l3
  {
    var s, t := StateAt(d, |d|), StateAt(e, |e|);
    FinalizerSeparates(s.l0, t.l0);
    FinalizerSeparates(s.l1, t.l1);
    FinalizerSeparates(s.l2, t.l2);
    FinalizerSeparates(s.l3, t.l3);
  }

  /** Changing one byte, anywhere, changes each of the lanes 0, 1 and 2 of the digest. */
  lemma SingleByteTamperDetected(d: seq<Byte>, e: seq<Byte>, j: nat)
    requires DifferOnlyAt(d, e, j)
    ensures Digest(d).l0 != Digest(e).l0
    ensures Digest(d).l1 != Digest(e).l1
    ensures Digest(d).l2 != Digest(e).l2
  {
    LanesUndone();
    LanesRevealByte();
    var s := Seeds(|d|);
    OneItemSeparates(Lane0, Unlane0, s.l0, d, e, j);
    OneItemSeparates(Lane1, Unlane1, s.l1, d, e, j);
    OneItemSeparates(Lane2, Unlane2, s.l2, d, e, j);
    DigestSeparates(d, e);
  }

  /** Buffers of one length that share everything from k on agree in a lane 0, 1 or 2 of the
      digest exactly if they agree in that lane register at k. */
  lemma SuffixDecidedAtCut(d: seq<Byte>, e: seq<Byte>, k: nat)
    requires |d| == |e| && k <= |d| && d[k..] == e[k..]
    ensures Digest(d).l0 == Digest(e).l0 <==> StateAt(d, k).l0 == StateAt(e, k).l0
    ensures Digest(d).l1 == Digest(e).l1 <==> StateAt(d, k).l1 == StateAt(e, k).l1
    ensures Digest(d).l2 == Digest(e).l2 <==> StateAt(d, k).l2 == StateAt(e, k).l2
  {
    forall j | k <= j < |d|
      ensures d[j] == e[j]
    {
      assert d[j] == d[k..][j - k] == e[k..][j - k] == e[j];
    }
    LanesUndone();
    var s := Seeds(|d|);
    CommonStretch(Lane0, Unlane0, s.l0, d, e, k, |d|);
    CommonStretch(Lane1, Unlane1, s.l1, d, e, k, |d|);
    CommonStretch(Lane2, Unlane2, s.l2, d, e, k, |d|);
    DigestSeparates(d, e);
  }

  /** The backward loop recovers the seed of lanes 0, 1 and 2 from the digest and the data. */
  lemma SeedRecovered(d: seq<Byte>)
    ensures Rewind(Unlane0, Unmix64(Digest(d).l0), d, |d|) == Seeds(|d|).l0
    ensures Rewind(Unlane1, Unmix64(Digest(d).l1), d, |d|) == Seeds(|d|).l1
    ensures Rewind(Unlane2, Unmix64(Digest(d).l2), d, |d|) == Seeds(|d|).l2
  {
    LanesUndone();
    var t, s := StateAt(d, |d|), Seeds(|d|);
    Fmix64Undone(t.l0);
    Fmix64Undone(t.l1);
    Fmix64Undone(t.l2);
    RewindUndoesFold(Lane0, Unlane0, s.l0, d, |d|);
    RewindUndoesFold(Lane1, Unlane1, s.l1, d, |d|);
    RewindUndoesFold(Lane2, Unlane2, s.l2, d, |d|);
  }

  // ----- what lane 3 does and does not detect -----

  /** A changed last byte shows in lane 3 as well, so in all four lanes. */
  lemma LastByteTamperDetectedByLane3(d: seq<Byte>, e: seq<Byte>)
    requires d != [] && DifferOnlyAt(d, e, |d| - 1)
    ensures Digest(d).l3 != Digest(e).l3
  {
    LanesRevealByte();
    LastItemSeparates(Lane3, Seeds(|d|).l3, d, e);
    DigestSeparates(d, e);
  }

  /** Before the last byte that argument is not available for lane 3: lane states that differ in the
      top bit alone become equal with the next byte, whatever the data. */
  lemma {:induction false} Lane3MergesStates(x: Word, data: seq<Byte>, k: nat)
    requires 0 < k <= |data|
    ensures Fold(Lane3, FlipTop(x), data, k) == Fold(Lane3, x, data, k)
  {
    if k == 1 {
      Step3ForgetsTopBit(x, data[0], IndexWord(0));
    } else {
      Lane3MergesStates(x, data, k - 1);
    }
  }

  /** So the step of lane 3 cannot be undone. */
  lemma Lane3HasNoInverse(back: (Word, Byte, nat) -> Word)
    ensures !Undoes(back, Lane3)
  {
    Step3ForgetsTopBit(0, 0, IndexWord(0));
    FlipTopIsAdd(0);
    var y := Lane3(0, 0, 0);
    assert Lane3(FlipTop(0), 0, 0) == y;
    assert back(Lane3(FlipTop(0), 0, 0), 0, 0) != FlipTop(0) || back(y, 0, 0) != 0;
  }
}
