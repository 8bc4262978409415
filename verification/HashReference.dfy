/** The integrity hash over integers, and that the hash over machine words is this one. */
module HashReference {
  import opened Words
  import opened WordIntegers
  import opened Folds
  import opened IntegrityHash
  import opened HashKernel

  // ----- word operations as integer operations -----

  lemma MulPrimeInt(x: Word)
    ensures MulPrime(x) as int == Times64(x as int, 0x100_0000_01b3)
  {
    var p: Word := 0x100_0000_01b3;
    assert p as int == 0x100_0000_01b3;
    TimesInt(x, p);
    assert MulPrime(x) == Times(x, p);
  }

  /** m rotated left: m * u modulo 2^64 and m / d, where u * d is 2^64. */
  function Rotated(m: nat, u: nat, d: nat): nat
    requires d != 0
  {
    m * u % TWO_TO_64 + m / d
  }

  /** y is x rotated, q the part of x that is shifted out and r the rest. */
  lemma RotationParts<W(!new)>(value: W -> nat, add: (W, W) -> W, times: (W, W) -> W,
                               x: W, y: W, q: W, r: W, up: W, down: W)
    requires forall a, b :: value(add(a, b)) == Plus64(value(a), value(b))
    requires forall a, b :: value(times(a, b)) == Times64(value(a), value(b))
    requires y == add(times(x, up), q) && x == add(times(q, down), r)
    ensures value(y) == Plus64(Times64(value(x), value(up)), value(q))
    ensures value(x) == Plus64(Times64(value(q), value(down)), value(r))
  {
  }

  function Value(x: Word): nat { x as int }

  lemma Arithmetic()
    ensures forall a, b :: Value(Add(a, b)) == Plus64(Value(a), Value(b))
    ensures forall a, b :: Value(Times(a, b)) == Times64(Value(a), Value(b))
  {
    forall a, b
      ensures Value(Add(a, b)) == Plus64(Value(a), Value(b))
    {
      AddInt(a, b);
    }
    forall a, b
      ensures Value(Times(a, b)) == Times64(Value(a), Value(b))
    {
      TimesInt(a, b);
    }
  }

  lemma Wrap(a: nat, q: nat, r: nat)
    requires r < TWO_TO_64 && a == q * TWO_TO_64 + r
    ensures a % TWO_TO_64 == r
  {
  }

  lemma Rol13Parts(x: Word)
    ensures Rol13(x) == Add(Times(x, 0x2000), x >> 51)
  {
  }

  lemma Rol13Split(x: Word)
    ensures x == Add(Times(x >> 51, 0x8_0000_0000_0000), x & 0x7_ffff_ffff_ffff)
  {
  }

  lemma Rol13High(x: Word)
    ensures var q := x >> 51;
            && Octet7(q) == 0 && Octet6(q) == 0 && Octet5(q) == 0 && Octet4(q) == 0 && Octet3(q) == 0
            && Octet2(q) == 0 && Octet1(q) < 0x20
  {
  }

  lemma Rol13Low(x: Word)
    ensures var r := x & 0x7_ffff_ffff_ffff;
            && Octet7(r) == 0 && Octet6(r) < 8
  {
  }

  lemma Rol13Bounds(x: Word)
    ensures Value(x >> 51) < 0x2000 && Value(x & 0x7_ffff_ffff_ffff) < 0x8_0000_0000_0000
    ensures Value(0x2000) == 0x2000 && Value(0x8_0000_0000_0000) == 0x8_0000_0000_0000
  {
    Rol13High(x);
    Below1(x >> 51, 0x20);
    Rol13Low(x);
    Below6(x & 0x7_ffff_ffff_ffff, 8);
  }

  lemma Rotate13(x: nat, y: nat, q: nat, r: nat)
    requires q < 0x2000 && r < 0x8_0000_0000_0000
    requires y == Plus64(Times64(x, 0x2000), q) && x == Plus64(Times64(q, 0x8_0000_0000_0000), r)
    ensures y == Rotated(x, 0x2000, 0x8_0000_0000_0000)
  {
    Wrap(q * 0x8_0000_0000_0000, 0, q * 0x8_0000_0000_0000);
    Wrap(q * 0x8_0000_0000_0000 + r, 0, q * 0x8_0000_0000_0000 + r);
    Wrap(x * 0x2000, q, r * 0x2000);
    Wrap(r * 0x2000 + q, 0, r * 0x2000 + q);
    Quotient13(x, q, r);
  }

  lemma Quotient13(x: nat, q: nat, r: nat)
    requires r < 0x8_0000_0000_0000 && x == q * 0x8_0000_0000_0000 + r
    ensures x / 0x8_0000_0000_0000 == q
  {
  }

  lemma Rol13Int(x: Word)
    ensures Value(Rol13(x)) == Rotated(Value(x), 0x2000, 0x8_0000_0000_0000)
  {
    Arithmetic();
    Rol13Parts(x);
    Rol13Split(x);
    Rol13Bounds(x);
    RotationParts(Value, Add, Times, x, Rol13(x), x >> 51, x & 0x7_ffff_ffff_ffff, 0x2000, 0x8_0000_0000_0000);
    Rotate13(Value(x), Value(Rol13(x)), Value(x >> 51), Value(x & 0x7_ffff_ffff_ffff));
  }

  lemma Rol29Parts(x: Word)
    ensures Rol29(x) == Add(Times(x, 0x2000_0000), x >> 35)
  {
  }

  lemma Rol29Split(x: Word)
    ensures x == Add(Times(x >> 35, 0x8_0000_0000), x & 0x7_ffff_ffff)
  {
  }

  lemma Rol29High(x: Word)
    ensures var q := x >> 35;
            && Octet7(q) == 0 && Octet6(q) == 0 && Octet5(q) == 0 && Octet4(q) == 0 && Octet3(q) < 0x20
  {
  }

  lemma Rol29Low(x: Word)
    ensures var r := x & 0x7_ffff_ffff;
            && Octet7(r) == 0 && Octet6(r) == 0 && Octet5(r) == 0 && Octet4(r) < 8
  {
  }

  lemma Rol29Bounds(x: Word)
    ensures Value(x >> 35) < 0x2000_0000 && Value(x & 0x7_ffff_ffff) < 0x8_0000_0000
    ensures Value(0x2000_0000) == 0x2000_0000 && Value(0x8_0000_0000) == 0x8_0000_0000
  {
    Rol29High(x);
    Below3(x >> 35, 0x20);
    Rol29Low(x);
    Below4(x & 0x7_ffff_ffff, 8);
  }

  lemma Rotate29(x: nat, y: nat, q: nat, r: nat)
    requires q < 0x2000_0000 && r < 0x8_0000_0000
    requires y == Plus64(Times64(x, 0x2000_0000), q) && x == Plus64(Times64(q, 0x8_0000_0000), r)
    ensures y == Rotated(x, 0x2000_0000, 0x8_0000_0000)
  {
    Wrap(q * 0x8_0000_0000, 0, q * 0x8_0000_0000);
    Wrap(q * 0x8_0000_0000 + r, 0, q * 0x8_0000_0000 + r);
    Wrap(x * 0x2000_0000, q, r * 0x2000_0000);
    Wrap(r * 0x2000_0000 + q, 0, r * 0x2000_0000 + q);
    Quotient29(x, q, r);
  }

  lemma Quotient29(x: nat, q: nat, r: nat)
    requires r < 0x8_0000_0000 && x == q * 0x8_0000_0000 + r
    ensures x / 0x8_0000_0000 == q
  {
  }

  lemma Rol29Int(x: Word)
    ensures Value(Rol29(x)) == Rotated(Value(x), 0x2000_0000, 0x8_0000_0000)
  {
    Arithmetic();
    Rol29Parts(x);
    Rol29Split(x);
    Rol29Bounds(x);
    RotationParts(Value, Add, Times, x, Rol29(x), x >> 35, x & 0x7_ffff_ffff, 0x2000_0000, 0x8_0000_0000);
    Rotate29(Value(x), Value(Rol29(x)), Value(x >> 35), Value(x & 0x7_ffff_ffff));
  }

  lemma Rol37Parts(x: Word)
    ensures Rol37(x) == Add(Times(x, 0x20_0000_0000), x >> 27)
  {
  }

  lemma Rol37Split(x: Word)
    ensures x == Add(Times(x >> 27, 0x800_0000), x & 0x7ff_ffff)
  {
  }

  lemma Rol37High(x: Word)
    ensures var q := x >> 27;
            && Octet7(q) == 0 && Octet6(q) == 0 && Octet5(q) == 0 && Octet4(q) < 0x20
  {
  }

  lemma Rol37Low(x: Word)
    ensures var r := x & 0x7ff_ffff;
            && Octet7(r) == 0 && Octet6(r) == 0 && Octet5(r) == 0 && Octet4(r) == 0 && Octet3(r) < 8
  {
  }

  lemma Rol37Bounds(x: Word)
    ensures Value(x >> 27) < 0x20_0000_0000 && Value(x & 0x7ff_ffff) < 0x800_0000
    ensures Value(0x20_0000_0000) == 0x20_0000_0000 && Value(0x800_0000) == 0x800_0000
  {
    Rol37High(x);
    Below4(x >> 27, 0x20);
    Rol37Low(x);
    Below3(x & 0x7ff_ffff, 8);
  }

  lemma Rotate37(x: nat, y: nat, q: nat, r: nat)
    requires q < 0x20_0000_0000 && r < 0x800_0000
    requires y == Plus64(Times64(x, 0x20_0000_0000), q) && x == Plus64(Times64(q, 0x800_0000), r)
    ensures y == Rotated(x, 0x20_0000_0000, 0x800_0000)
  {
    Wrap(q * 0x800_0000, 0, q * 0x800_0000);
    Wrap(q * 0x800_0000 + r, 0, q * 0x800_0000 + r);
    Wrap(x * 0x20_0000_0000, q, r * 0x20_0000_0000);
    Wrap(r * 0x20_0000_0000 + q, 0, r * 0x20_0000_0000 + q);
    Quotient37(x, q, r);
  }

  lemma Quotient37(x: nat, q: nat, r: nat)
    requires r < 0x800_0000 && x == q * 0x800_0000 + r
    ensures x / 0x800_0000 == q
  {
  }

  lemma Rol37Int(x: Word)
    ensures Value(Rol37(x)) == Rotated(Value(x), 0x20_0000_0000, 0x800_0000)
  {
    Arithmetic();
    Rol37Parts(x);
    Rol37Split(x);
    Rol37Bounds(x);
    RotationParts(Value, Add, Times, x, Rol37(x), x >> 27, x & 0x7ff_ffff, 0x20_0000_0000, 0x800_0000);
    Rotate37(Value(x), Value(Rol37(x)), Value(x >> 27), Value(x & 0x7ff_ffff));
  }

  lemma Rol43Parts(x: Word)
    ensures Rol43(x) == Add(Times(x, 0x800_0000_0000), x >> 21)
  {
  }

  lemma Rol43Split(x: Word)
    ensures x == Add(Times(x >> 21, 0x20_0000), x & 0x1f_ffff)
  {
  }

  lemma Rol43High(x: Word)
    ensures var q := x >> 21;
            && Octet7(q) == 0 && Octet6(q) == 0 && Octet5(q) < 8
  {
  }

  lemma Rol43Low(x: Word)
    ensures var r := x & 0x1f_ffff;
            && Octet7(r) == 0 && Octet6(r) == 0 && Octet5(r) == 0 && Octet4(r) == 0 && Octet3(r) == 0
            && Octet2(r) < 0x20
  {
  }

  lemma Rol43Bounds(x: Word)
    ensures Value(x >> 21) < 0x800_0000_0000 && Value(x & 0x1f_ffff) < 0x20_0000
    ensures Value(0x800_0000_0000) == 0x800_0000_0000 && Value(0x20_0000) == 0x20_0000
  {
    Rol43High(x);
    Below5(x >> 21, 8);
    Rol43Low(x);
    Below2(x & 0x1f_ffff, 0x20);
  }

  lemma Rotate43(x: nat, y: nat, q: nat, r: nat)
    requires q < 0x800_0000_0000 && r < 0x20_0000
    requires y == Plus64(Times64(x, 0x800_0000_0000), q) && x == Plus64(Times64(q, 0x20_0000), r)
    ensures y == Rotated(x, 0x800_0000_0000, 0x20_0000)
  {
    Wrap(q * 0x20_0000, 0, q * 0x20_0000);
    Wrap(q * 0x20_0000 + r, 0, q * 0x20_0000 + r);
    Wrap(x * 0x800_0000_0000, q, r * 0x800_0000_0000);
    Wrap(r * 0x800_0000_0000 + q, 0, r * 0x800_0000_0000 + q);
    Quotient43(x, q, r);
  }

  lemma Quotient43(x: nat, q: nat, r: nat)
    requires r < 0x20_0000 && x == q * 0x20_0000 + r
    ensures x / 0x20_0000 == q
  {
  }

  lemma Rol43Int(x: Word)
    ensures Value(Rol43(x)) == Rotated(Value(x), 0x800_0000_0000, 0x20_0000)
  {
    Arithmetic();
    Rol43Parts(x);
    Rol43Split(x);
    Rol43Bounds(x);
    RotationParts(Value, Add, Times, x, Rol43(x), x >> 21, x & 0x1f_ffff, 0x800_0000_0000, 0x20_0000);
    Rotate43(Value(x), Value(Rol43(x)), Value(x >> 21), Value(x & 0x1f_ffff));
  }

  // ----- the shift of the finalizer -----

  lemma Shift33Parts(x: Word)
    ensures x == Add(Times(x >> 33, 0x2_0000_0000), x & 0x1_ffff_ffff)
  {
  }

  lemma Shift33High(x: Word)
    ensures var q := x >> 33;
            && Octet7(q) == 0 && Octet6(q) == 0 && Octet5(q) == 0 && Octet4(q) == 0 && Octet3(q) < 0x80
  {
  }

  lemma Shift33Low(x: Word)
    ensures var r := x & 0x1_ffff_ffff;
            && Octet7(r) == 0 && Octet6(r) == 0 && Octet5(r) == 0 && Octet4(r) < 2
  {
  }

  lemma Shift33Bounds(x: Word)
    ensures Value(x >> 33) < 0x8000_0000 && Value(x & 0x1_ffff_ffff) < 0x2_0000_0000
    ensures Value(0x2_0000_0000) == 0x2_0000_0000
  {
    Shift33High(x);
    Below3(x >> 33, 0x80);
    Shift33Low(x);
    Below4(x & 0x1_ffff_ffff, 2);
  }

  lemma Divide33(x: nat, q: nat, r: nat)
    requires q < 0x8000_0000 && r < 0x2_0000_0000 && x == Plus64(Times64(q, 0x2_0000_0000), r)
    ensures x / 0x2_0000_0000 == q
  {
    Wrap(q * 0x2_0000_0000, 0, q * 0x2_0000_0000);
    Wrap(q * 0x2_0000_0000 + r, 0, q * 0x2_0000_0000 + r);
  }

  lemma Shift33Int(x: Word)
    ensures Value(x >> 33) == Value(x) / 0x2_0000_0000
  {
    Arithmetic();
    Shift33Parts(x);
    Shift33Bounds(x);
    Divide33(Value(x), Value(x >> 33), Value(x & 0x1_ffff_ffff));
  }

  // ----- exclusive or -----

  /** Exclusive or, binary digit by binary digit. */
  function XorInt(a: nat, b: nat): nat {
    if a == 0 && b == 0 then 0
    else 2 * XorInt(a / 2, b / 2) + if a % 2 == b % 2 then 0 else 1
  }

  lemma HalfParts(x: Word)
    ensures x == Add(Times(x >> 1, 2), x & 1)
  {
  }

  lemma HalfHigh(x: Word)
    ensures Octet7(x >> 1) < 0x80
  {
  }

  lemma HalfLow(x: Word)
    ensures Value(x & 1) < 2
  {
  }

  lemma HalfBounds(x: Word)
    ensures Value(x >> 1) < TWO_TO_63 && Value(x & 1) < 2
    ensures Value(2) == 2
  {
    HalfHigh(x);
    Below7(x >> 1, 0x80);
    HalfLow(x);
  }

  lemma Divide2(x: nat, q: nat, r: nat)
    requires q < TWO_TO_63 && r < 2 && x == Plus64(Times64(q, 2), r)
    ensures x / 2 == q && x % 2 == r
  {
    Wrap(q * 2, 0, q * 2);
    Wrap(q * 2 + r, 0, q * 2 + r);
  }

  lemma HalfInt(x: Word)
    ensures Value(x >> 1) == Value(x) / 2 && Value(x & 1) == Value(x) % 2
  {
    Arithmetic();
    HalfParts(x);
    HalfBounds(x);
    Divide2(Value(x), Value(x >> 1), Value(x & 1));
  }

  lemma XorLowBit(x: Word, y: Word)
    ensures Value(Xor(x, y) & 1) == if x & 1 == y & 1 then 0 else 1
  {
    if x & 1 == y & 1 {
      assert Xor(x, y) & 1 == 0;
    } else {
      assert Xor(x, y) & 1 == 1;
    }
  }

  /** An operation that works digit by digit as exclusive or does is exclusive or. */
  lemma {:induction false} XorByHalves<W(!new)>(value: W -> nat, xor: (W, W) -> W, half: W -> W, x: W, y: W)
    requires forall w :: value(half(w)) == value(w) / 2
    requires forall v, w :: half(xor(v, w)) == xor(half(v), half(w))
    requires forall v, w :: value(xor(v, w)) % 2 == if value(v) % 2 == value(w) % 2 then 0 else 1
    requires forall v, w :: value(v) == 0 && value(w) == 0 ==> value(xor(v, w)) == 0
    ensures value(xor(x, y)) == XorInt(value(x), value(y))
    decreases value(x) + value(y)
  {
    if value(x) != 0 || value(y) != 0 {
      XorByHalves(value, xor, half, half(x), half(y));
      assert half(xor(x, y)) == xor(half(x), half(y));
    }
  }

  function Half(x: Word): Word { x >> 1 }

  lemma HalfOfXor(x: Word, y: Word)
    ensures Half(Xor(x, y)) == Xor(Half(x), Half(y))
  {
    assert Half(x ^ y) == (x >> 1) ^ (y >> 1);
  }

  lemma SameLowBit(x: Word, y: Word)
    ensures x & 1 == y & 1 <==> Value(x & 1) == Value(y & 1)
  {
    IntAndBack(x & 1);
    IntAndBack(y & 1);
  }

  lemma LowBitOfXor(x: Word, y: Word)
    ensures Value(Xor(x, y)) % 2 == if Value(x) % 2 == Value(y) % 2 then 0 else 1
  {
    HalfInt(x);
    HalfInt(y);
    HalfInt(Xor(x, y));
    XorLowBit(x, y);
    SameLowBit(x, y);
  }

  lemma XorOfZeros(x: Word, y: Word)
    requires Value(x) == 0 && Value(y) == 0
    ensures Value(Xor(x, y)) == 0
  {
    IntAndBack(x);
    IntAndBack(y);
    assert Xor(0, 0) == 0;
  }

  lemma HalfValue(x: Word)
    ensures Value(Half(x)) == Value(x) / 2
  {
    HalfInt(x);
  }

  lemma HalfLaw()
    ensures forall w :: Value(Half(w)) == Value(w) / 2
  {
    forall w
      ensures Value(Half(w)) == Value(w) / 2
    {
      HalfValue(w);
    }
  }

  lemma HalfXorLaw()
    ensures forall v, w :: Half(Xor(v, w)) == Xor(Half(v), Half(w))
  {
    forall v, w
      ensures Half(Xor(v, w)) == Xor(Half(v), Half(w))
    {
      HalfOfXor(v, w);
    }
  }

  lemma LowBitLaw()
    ensures forall v, w :: Value(Xor(v, w)) % 2 == if Value(v) % 2 == Value(w) % 2 then 0 else 1
  {
    forall v, w
      ensures Value(Xor(v, w)) % 2 == if Value(v) % 2 == Value(w) % 2 then 0 else 1
    {
      LowBitOfXor(v, w);
    }
  }

  lemma ZerosLaw()
    ensures forall v, w :: Value(v) == 0 && Value(w) == 0 ==> Value(Xor(v, w)) == 0
  {
    forall v, w | Value(v) == 0 && Value(w) == 0
      ensures Value(Xor(v, w)) == 0
    {
      XorOfZeros(v, w);
    }
  }

  lemma XorIsInt(x: Word, y: Word)
    ensures Value(Xor(x, y)) == XorInt(Value(x), Value(y))
  {
    HalfLaw();
    HalfXorLaw();
    LowBitLaw();
    ZerosLaw();
    XorByHalves(Value, Xor, Half, x, y);
  }

  // ----- the hash over integers -----

  const PRIME := 0x100_0000_01b3
  const MIX1 := 0xff51_afd7_ed55_8ccd
  const MIX2 := 0xc4ce_b9fe_1a85_ec53

  function RefStep0(x: nat, b: nat, i: nat): nat {
    Rotated(Times64(XorInt(x, Plus64(b, i)), PRIME), 0x2000, 0x8_0000_0000_0000)
  }

  function RefStep1(x: nat, b: nat, i: nat): nat {
    Rotated(Times64(Plus64(x, XorInt(Times64(i, 0x100), b)), PRIME), 0x2000_0000, 0x8_0000_0000)
  }

  function RefStep2(x: nat, b: nat, i: nat): nat {
    Rotated(Times64(XorInt(x, XorInt(Times64(b, 0x1_0000_0000), i)), PRIME), 0x20_0000_0000, 0x800_0000)
  }

  function RefStep3(x: nat, b: nat, i: nat): nat {
    Rotated(XorInt(x, Times64(XorInt(Plus64(b, i), x), PRIME)), 0x800_0000_0000, 0x20_0000)
  }

  function RefShift(x: nat): nat { XorInt(x, x / 0x2_0000_0000) }

  function RefFinish(x: nat): nat {
    RefShift(Times64(RefShift(Times64(RefShift(x), MIX1)), MIX2))
  }

  lemma ByteInt64(b: Byte)
    ensures Value(b as Word) == b as int
  {
  }

  lemma Key0Int(b: Byte, i: Word)
    ensures Value(Key0(b, i)) == Plus64(b as int, Value(i))
  {
    AddInt(b as Word, i);
    ByteInt64(b);
  }

  lemma Shift8IsTimes(i: Word)
    ensures i << 8 == Times(i, 0x100)
  {
  }

  lemma Shift32IsTimes(i: Word)
    ensures i << 32 == Times(i, 0x1_0000_0000)
  {
  }

  lemma Shift17IsTimes(i: Word)
    ensures i << 17 == Times(i, 0x2_0000)
  {
  }

  lemma Key1Int(b: Byte, i: Word)
    ensures Value(Key1(b, i)) == XorInt(Times64(Value(i), 0x100), b as int)
  {
    XorIsInt(i << 8, b as Word);
    Shift8IsTimes(i);
    TimesInt(i, 0x100);
    ByteInt64(b);
  }

  lemma Key2Int(b: Byte, i: Word)
    ensures Value(Key2(b, i)) == XorInt(Times64(b as int, 0x1_0000_0000), Value(i))
  {
    XorIsInt((b as Word) << 32, i);
    Shift32IsTimes(b as Word);
    TimesInt(b as Word, 0x1_0000_0000);
    ByteInt64(b);
  }

  lemma Step0Int(x: Word, b: Byte, i: Word)
    ensures Value(Step0(x, b, i)) == RefStep0(Value(x), b as int, Value(i))
  {
    var k := Key0(b, i);
    Key0Int(b, i);
    XorIsInt(x, k);
    MulPrimeInt(Xor(x, k));
    Rol13Int(MulPrime(Xor(x, k)));
  }

  lemma Step1Int(x: Word, b: Byte, i: Word)
    ensures Value(Step1(x, b, i)) == RefStep1(Value(x), b as int, Value(i))
  {
    var k := Key1(b, i);
    Key1Int(b, i);
    AddInt(x, k);
    MulPrimeInt(Add(x, k));
    Rol29Int(MulPrime(Add(x, k)));
  }

  lemma Step2Int(x: Word, b: Byte, i: Word)
    ensures Value(Step2(x, b, i)) == RefStep2(Value(x), b as int, Value(i))
  {
    var k := Key2(b, i);
    Key2Int(b, i);
    XorIsInt(x, k);
    MulPrimeInt(Xor(x, k));
    Rol37Int(MulPrime(Xor(x, k)));
  }

  lemma Step3Int(x: Word, b: Byte, i: Word)
    ensures Value(Step3(x, b, i)) == RefStep3(Value(x), b as int, Value(i))
  {
    var k := Key0(b, i);
    Key0Int(b, i);
    XorIsInt(k, x);
    MulPrimeInt(Xor(k, x));
    XorIsInt(x, MulPrime(Xor(k, x)));
    Rol43Int(Xor(x, MulPrime(Xor(k, x))));
  }

  lemma ShiftInt(x: Word)
    ensures Value(XorShift(x)) == RefShift(Value(x))
  {
    Shift33Int(x);
    XorIsInt(x, x >> 33);
  }

  lemma MulMix1Int(x: Word)
    ensures Value(MulMix1(x)) == Times64(Value(x), MIX1)
  {
    var c: Word := 0xff51_afd7_ed55_8ccd;
    assert c as int == MIX1;
    TimesInt(x, c);
    assert MulMix1(x) == Times(x, c);
  }

  lemma MulMix2Int(x: Word)
    ensures Value(MulMix2(x)) == Times64(Value(x), MIX2)
  {
    var c: Word := 0xc4ce_b9fe_1a85_ec53;
    assert c as int == MIX2;
    TimesInt(x, c);
    assert MulMix2(x) == Times(x, c);
  }

  lemma FinishInt(x: Word)
    ensures Value(Fmix64(x)) == RefFinish(Value(x))
  {
    var a := MulMix1(XorShift(x));
    var b := MulMix2(XorShift(a));
    ShiftInt(x);
    MulMix1Int(XorShift(x));
    ShiftInt(a);
    MulMix2Int(XorShift(a));
    ShiftInt(b);
  }

  // ----- the whole hash -----

  function RefLane0(x: nat, b: Byte, k: nat): nat { RefStep0(x, b as int, k % TWO_TO_64) }
  function RefLane1(x: nat, b: Byte, k: nat): nat { RefStep1(x, b as int, k % TWO_TO_64) }
  function RefLane2(x: nat, b: Byte, k: nat): nat { RefStep2(x, b as int, k % TWO_TO_64) }
  function RefLane3(x: nat, b: Byte, k: nat): nat { RefStep3(x, b as int, k % TWO_TO_64) }

  /** The four numbers that are stored, for data of less than 2^64 bytes. */
  function RefDigest(data: seq<Byte>): (nat, nat, nat, nat) {
    var n := |data|;
    (RefFinish(Fold(RefLane0, XorInt(0x243f_6a88_85a3_08d3, n), data, n)),
     RefFinish(Fold(RefLane1, XorInt(0x1319_8a2e_0370_7344, Times64(n, 0x2_0000)), data, n)),
     RefFinish(Fold(RefLane2, 0xa409_3822_299f_31d0, data, n)),
     RefFinish(Fold(RefLane3, 0x082e_fa98_ec4e_6c89, data, n)))
  }

  /** A step and its image under `value` keep the two folds together. */
  lemma {:induction false} FoldMaps<S(!new), R(!new), T(!new)>(
    value: S -> R, step: (S, T, nat) -> S, image: (R, T, nat) -> R, seed: S, data: seq<T>, k: nat)
    requires k <= |data|
    requires forall x, b, i :: value(step(x, b, i)) == image(value(x), b, i)
    ensures value(Fold(step, seed, data, k)) == Fold(image, value(seed), data, k)
  {
    if k != 0 {
      FoldMaps(value, step, image, seed, data, k - 1);
    }
  }

  lemma LanesAreRef()
    ensures forall x, b, i :: Value(Lane0(x, b, i)) == RefLane0(Value(x), b, i)
    ensures forall x, b, i :: Value(Lane1(x, b, i)) == RefLane1(Value(x), b, i)
    ensures forall x, b, i :: Value(Lane2(x, b, i)) == RefLane2(Value(x), b, i)
    ensures forall x, b, i :: Value(Lane3(x, b, i)) == RefLane3(Value(x), b, i)
  {
    forall x, b, i
      ensures Value(Lane0(x, b, i)) == RefLane0(Value(x), b, i) && Value(Lane1(x, b, i)) == RefLane1(Value(x), b, i)
      ensures Value(Lane2(x, b, i)) == RefLane2(Value(x), b, i) && Value(Lane3(x, b, i)) == RefLane3(Value(x), b, i)
    {
      IndexInt(i);
      Step0Int(x, b, IndexWord(i));
      Step1Int(x, b, IndexWord(i));
      Step2Int(x, b, IndexWord(i));
      Step3Int(x, b, IndexWord(i));
    }
  }

  lemma Seed0Value(w: Word)
    ensures Value(Seed0(w)) == XorInt(0x243f_6a88_85a3_08d3, Value(w))
  {
    var c: Word := 0x243f_6a88_85a3_08d3;
    assert c as int == 0x243f_6a88_85a3_08d3;
    XorIsInt(c, w);
    assert Seed0(w) == Xor(c, w);
  }

  lemma ShiftedSize(w: Word)
    ensures Value(w << 17) == Times64(Value(w), 0x2_0000)
  {
    var c: Word := 0x2_0000;
    assert c as int == 0x2_0000;
    TimesInt(w, c);
    Shift17IsTimes(w);
  }

  lemma Seed1Value(w: Word)
    ensures Value(Seed1(w)) == XorInt(0x1319_8a2e_0370_7344, Value(w << 17))
  {
    var c: Word := 0x1319_8a2e_0370_7344;
    assert c as int == 0x1319_8a2e_0370_7344;
    XorIsInt(c, w << 17);
    assert Seed1(w) == Xor(c, w << 17);
  }

  lemma Seed1Int(w: Word)
    ensures Value(Seed1(w)) == XorInt(0x1319_8a2e_0370_7344, Times64(Value(w), 0x2_0000))
  {
    ShiftedSize(w);
    Seed1Value(w);
  }

  lemma FixedSeeds()
    ensures Value(SEED2) == 0xa409_3822_299f_31d0 && Value(SEED3) == 0x082e_fa98_ec4e_6c89
  {
  }

  lemma SizeWord(n: nat) returns (w: Word)
    requires n < TWO_TO_64
    ensures Value(w) == n && Seeds(n) == Lanes(Seed0(w), Seed1(w), SEED2, SEED3)
    ensures w == IndexWord(n)
  {
    w := IndexWord(n);
    IndexInt(n);
  }

  lemma SeedInts(s: Lanes, w: Word)
    requires s == Lanes(Seed0(w), Seed1(w), SEED2, SEED3)
    ensures Value(s.l0) == XorInt(0x243f_6a88_85a3_08d3, Value(w))
    ensures Value(s.l1) == XorInt(0x1319_8a2e_0370_7344, Times64(Value(w), 0x2_0000))
    ensures Value(s.l2) == 0xa409_3822_299f_31d0 && Value(s.l3) == 0x082e_fa98_ec4e_6c89
  {
    Seed0Value(w);
    Seed1Int(w);
    FixedSeeds();
  }

  /** The seeds of the four lanes. */
  lemma SeedsInt(n: nat)
    requires n < TWO_TO_64
    ensures var s := Seeds(n);
            && Value(s.l0) == XorInt(0x243f_6a88_85a3_08d3, n)
            && Value(s.l1) == XorInt(0x1319_8a2e_0370_7344, Times64(n, 0x2_0000))
            && Value(s.l2) == 0xa409_3822_299f_31d0 && Value(s.l3) == 0x082e_fa98_ec4e_6c89
  {
    var w := SizeWord(n);
    SeedInts(Seeds(n), w);
  }

  lemma Seed0Xor(x: Word, y: Word)
    ensures Seed0(x) ^ Seed0(y) == x ^ y
  {
  }

  lemma Seed0Injective(x: Word, y: Word)
    requires Seed0(x) == Seed0(y)
    ensures x == y
  {
  }

  lemma SeedPairs(s: Lanes, t: Lanes, x: Word, y: Word)
    requires s.l0 == Seed0(x) && t.l0 == Seed0(y)
    ensures s.l0 ^ t.l0 == x ^ y && (s.l0 == t.l0 ==> x == y)
  {
    Seed0Xor(x, y);
    if Seed0(x) == Seed0(y) {
      Seed0Injective(x, y);
    }
  }

  /** The size reaches the first seed unchanged, so different sizes start differently. */
  lemma SeedsDiffer(n: nat, m: nat)
    requires n < TWO_TO_64 && m < TWO_TO_64
    ensures Seeds(n).l0 ^ Seeds(m).l0 == IndexWord(n) ^ IndexWord(m)
    ensures n != m ==> Seeds(n).l0 != Seeds(m).l0
  {
    var x := SizeWord(n);
    var y := SizeWord(m);
    SeedPairs(Seeds(n), Seeds(m), x, y);
  }

  lemma SeedsOfNothing()
    ensures Seeds(0) == Lanes(0x243f_6a88_85a3_08d3, 0x1319_8a2e_0370_7344,
                              0xa409_3822_299f_31d0, 0x082e_fa98_ec4e_6c89)
  {
  }

  function Values(d: Lanes): (nat, nat, nat, nat) {
    (Value(d.l0), Value(d.l1), Value(d.l2), Value(d.l3))
  }

  /** The hash over machine words is the hash over integers. */
  lemma DigestIsReference(data: seq<Byte>)
    requires |data| < TWO_TO_64
    ensures Values(Digest(data)) == RefDigest(data)
  {
    var n := |data|;
    var s := Seeds(n);
    SeedsInt(n);
    LanesAreRef();
    FoldMaps(Value, Lane0, RefLane0, s.l0, data, n);
    FoldMaps(Value, Lane1, RefLane1, s.l1, data, n);
    FoldMaps(Value, Lane2, RefLane2, s.l2, data, n);
    FoldMaps(Value, Lane3, RefLane3, s.l3, data, n);
    FinishInt(Fold(Lane0, s.l0, data, n));
    FinishInt(Fold(Lane1, s.l1, data, n));
    FinishInt(Fold(Lane2, s.l2, data, n));
    FinishInt(Fold(Lane3, s.l3, data, n));
  }

  // ----- the bytes that are stored -----

  /** The four numbers that 32 bytes hold, each in base 256, lowest digit first. */
  function Numbers(bs: seq<Byte>): (nat, nat, nat, nat)
    requires |bs| == 32
  {
    (LittleInt(bs[0..8]), LittleInt(bs[8..16]), LittleInt(bs[16..24]), LittleInt(bs[24..32]))
  }

  lemma LanesStored(d: Lanes)
    ensures Numbers(LaneBytes(d)) == Values(d)
  {
    Quarters(LittleEndian(d.l0), LittleEndian(d.l1), LittleEndian(d.l2), LittleEndian(d.l3));
    LittleEndianInt(d.l0);
    LittleEndianInt(d.l1);
    LittleEndianInt(d.l2);
    LittleEndianInt(d.l3);
  }

  /** The 32 bytes for a region hold the four numbers of the integer hash. */
  lemma StoredIsReference(data: seq<Byte>)
    requires |data| < TWO_TO_64
    ensures |HASH.of(data)| == 32 && Numbers(HASH.of(data)) == RefDigest(data)
  {
    LanesStored(Digest(data));
    DigestIsReference(data);
  }

  lemma NullDigestInts()
    ensures Values(NULL_DIGEST) == (0x243f_6a88_85a3_08d3, 0x1319_8a2e_0370_7344,
                                    0xa409_3822_299f_31d0, 0x082e_fa98_ec4e_6c89)
  {
  }

  lemma EmptyStored() returns (d: Lanes)
    ensures d == NULL_DIGEST && HASH.empty == LaneBytes(d)
  {
    d := NULL_DIGEST;
  }

  /** The 32 bytes for no region at all. */
  lemma StoredForNothing()
    ensures |HASH.empty| == 32
    ensures Numbers(HASH.empty) == (0x243f_6a88_85a3_08d3, 0x1319_8a2e_0370_7344,
                                    0xa409_3822_299f_31d0, 0x082e_fa98_ec4e_6c89)
  {
    var d := EmptyStored();
    NullDigestInts();
    LanesStored(d);
  }

  /** What an accepted call of `simd_hash_blocks` stores. */
  lemma HashBlocksStores(m: seq<Byte>, data: nat, size: nat)
    requires size < TWO_TO_64 && (data == 0 || data + size <= |m|)
    ensures var bs := HashResult(m, data, size, HASH);
            && |bs| == 32
            && Numbers(bs) == if data == 0 then (0x243f_6a88_85a3_08d3, 0x1319_8a2e_0370_7344,
                                                 0xa409_3822_299f_31d0, 0x082e_fa98_ec4e_6c89)
                              else RefDigest(m[data..data + size])
  {
    if data == 0 {
      StoredForNothing();
    } else {
      StoredIsReference(m[data..data + size]);
    }
  }
}
