/** Machine words as integers. A word is the number that its eight bytes are in base 256, and addition
    and multiplication of words are those of integers modulo 2^64.

    The first is about bits and is proved byte by byte. The second follows by counting: whatever counts
    up from 0 by adding 1 is a homomorphism (`Counting`), and counting to n gives n modulo 2^64.
 */
module WordIntegers {
  import opened Words
  import opened C = Counting

  function Octet0(x: Word): Byte { (x & 0xff) as Byte }
  function Octet1(x: Word): Byte { ((x >> 8) & 0xff) as Byte }
  function Octet2(x: Word): Byte { ((x >> 16) & 0xff) as Byte }
  function Octet3(x: Word): Byte { ((x >> 24) & 0xff) as Byte }
  function Octet4(x: Word): Byte { ((x >> 32) & 0xff) as Byte }
  function Octet5(x: Word): Byte { ((x >> 40) & 0xff) as Byte }
  function Octet6(x: Word): Byte { ((x >> 48) & 0xff) as Byte }
  function Octet7(x: Word): Byte { ((x >> 56) & 0xff) as Byte }

  function Octets(x: Word): int {
    Octet0(x) as int + 0x100 * (Octet1(x) as int) + 0x1_0000 * (Octet2(x) as int) + 0x100_0000 * (Octet3(x) as int)
    + 0x1_0000_0000 * (Octet4(x) as int) + 0x100_0000_0000 * (Octet5(x) as int)
    + 0x1_0000_0000_0000 * (Octet6(x) as int) + 0x100_0000_0000_0000 * (Octet7(x) as int)
  }

  /** The top byte apart from the others; and so on down to the lowest. */
  lemma Peel7(x: Word)
    ensures x as int == (x & 0x00ff_ffff_ffff_ffff) as int + 0x0100_0000_0000_0000 * (Octet7(x) as int)
  {
    assert x as int == (x & 0xff00_0000_0000_0000) as int + (x & 0x00ff_ffff_ffff_ffff) as int;
  }

  lemma Peel6(x: Word)
    ensures (x & 0x00ff_ffff_ffff_ffff) as int
            == (x & 0x0000_ffff_ffff_ffff) as int + 0x0001_0000_0000_0000 * (Octet6(x) as int)
  {
    assert (x & 0x00ff_ffff_ffff_ffff) as int
        == (x & 0x00ff_0000_0000_0000) as int + (x & 0x0000_ffff_ffff_ffff) as int;
  }

  lemma Peel5(x: Word)
    ensures (x & 0x0000_ffff_ffff_ffff) as int
            == (x & 0x0000_00ff_ffff_ffff) as int + 0x0000_0100_0000_0000 * (Octet5(x) as int)
  {
    assert (x & 0x0000_ffff_ffff_ffff) as int
        == (x & 0x0000_ff00_0000_0000) as int + (x & 0x0000_00ff_ffff_ffff) as int;
  }

  lemma Peel4(x: Word)
    ensures (x & 0x0000_00ff_ffff_ffff) as int
            == (x & 0x0000_0000_ffff_ffff) as int + 0x0000_0001_0000_0000 * (Octet4(x) as int)
  {
    assert (x & 0x0000_00ff_ffff_ffff) as int
        == (x & 0x0000_00ff_0000_0000) as int + (x & 0x0000_0000_ffff_ffff) as int;
  }

  lemma Peel3(x: Word)
    ensures (x & 0x0000_0000_ffff_ffff) as int
            == (x & 0x0000_0000_00ff_ffff) as int + 0x0000_0000_0100_0000 * (Octet3(x) as int)
  {
    assert (x & 0x0000_0000_ffff_ffff) as int
        == (x & 0x0000_0000_ff00_0000) as int + (x & 0x0000_0000_00ff_ffff) as int;
  }

  lemma Peel2(x: Word)
    ensures (x & 0x0000_0000_00ff_ffff) as int
            == (x & 0x0000_0000_0000_ffff) as int + 0x0000_0000_0001_0000 * (Octet2(x) as int)
  {
    assert (x & 0x0000_0000_00ff_ffff) as int
        == (x & 0x0000_0000_00ff_0000) as int + (x & 0x0000_0000_0000_ffff) as int;
  }

  lemma Peel1(x: Word)
    ensures (x & 0x0000_0000_0000_ffff) as int
            == (x & 0x0000_0000_0000_00ff) as int + 0x0000_0000_0000_0100 * (Octet1(x) as int)
  {
    assert (x & 0x0000_0000_0000_ffff) as int
        == (x & 0x0000_0000_0000_ff00) as int + (x & 0x0000_0000_0000_00ff) as int;
  }

  lemma IntIsOctets(x: Word)
    ensures x as int == Octets(x)
  {
    Peel7(x);
    Peel6(x);
    Peel5(x);
    Peel4(x);
    Peel3(x);
    Peel2(x);
    Peel1(x);
    assert (x & 0xff) as int == Octet0(x) as int;
  }

  // ----- bounds -----

  lemma ByteBound(b: Byte, c: Byte)
    requires b < c
    ensures b as int < c as int
  {
  }

  lemma Below7(x: Word, c: Byte)
    requires Octet7(x) < c
    ensures x as int < 0x100_0000_0000_0000 * (c as int)
  {
    ByteBound(Octet7(x), c);
    IntIsOctets(x);
  }

  lemma Below6(x: Word, c: Byte)
    requires Octet7(x) == 0 && Octet6(x) < c
    ensures x as int < 0x1_0000_0000_0000 * (c as int)
  {
    ByteBound(Octet6(x), c);
    IntIsOctets(x);
  }

  lemma Below5(x: Word, c: Byte)
    requires Octet7(x) == 0 && Octet6(x) == 0 && Octet5(x) < c
    ensures x as int < 0x100_0000_0000 * (c as int)
  {
    ByteBound(Octet5(x), c);
    IntIsOctets(x);
  }

  lemma Below4(x: Word, c: Byte)
    requires Octet7(x) == 0 && Octet6(x) == 0 && Octet5(x) == 0 && Octet4(x) < c
    ensures x as int < 0x1_0000_0000 * (c as int)
  {
    ByteBound(Octet4(x), c);
    IntIsOctets(x);
  }

  lemma Below3(x: Word, c: Byte)
    requires Octet7(x) == 0 && Octet6(x) == 0 && Octet5(x) == 0 && Octet4(x) == 0 && Octet3(x) < c
    ensures x as int < 0x100_0000 * (c as int)
  {
    ByteBound(Octet3(x), c);
    IntIsOctets(x);
  }

  lemma Below2(x: Word, c: Byte)
    requires Octet7(x) == 0 && Octet6(x) == 0 && Octet5(x) == 0 && Octet4(x) == 0 && Octet3(x) == 0
    requires Octet2(x) < c
    ensures x as int < 0x1_0000 * (c as int)
  {
    ByteBound(Octet2(x), c);
    IntIsOctets(x);
  }

  lemma Below1(x: Word, c: Byte)
    requires Octet7(x) == 0 && Octet6(x) == 0 && Octet5(x) == 0 && Octet4(x) == 0 && Octet3(x) == 0
    requires Octet2(x) == 0 && Octet1(x) < c
    ensures x as int < 0x100 * (c as int)
  {
    ByteBound(Octet1(x), c);
    IntIsOctets(x);
  }

  // ----- a byte appended -----

  lemma AppendedOctets(y: Word, b: Byte)
    ensures Octet0((y << 8) | (b as Word)) == b
    ensures Octet1((y << 8) | (b as Word)) == Octet0(y)
    ensures Octet2((y << 8) | (b as Word)) == Octet1(y)
    ensures Octet3((y << 8) | (b as Word)) == Octet2(y)
    ensures Octet4((y << 8) | (b as Word)) == Octet3(y)
    ensures Octet5((y << 8) | (b as Word)) == Octet4(y)
    ensures Octet6((y << 8) | (b as Word)) == Octet5(y)
    ensures Octet7((y << 8) | (b as Word)) == Octet6(y)
  {
  }

  lemma AppendIsSum(y: Word, b: Byte)
    ensures (y << 8) | (b as Word) == y * 0x100 + b as Word
  {
  }

  lemma NoTopOctet(y: Word)
    requires y < 0x100_0000_0000_0000
    ensures Octet7(y) == 0
  {
  }

  lemma AppendOctetInt(y: Word, b: Byte)
    requires y < 0x100_0000_0000_0000
    ensures ((y << 8) | (b as Word)) as int == 0x100 * (y as int) + b as int
  {
    AppendedOctets(y, b);
    NoTopOctet(y);
    IntIsOctets(y);
    IntIsOctets((y << 8) | (b as Word));
  }

  lemma TopOctet(y: Word)
    requires y as int < 0x100_0000_0000_0000
    ensures y < 0x100_0000_0000_0000
  {
  }

  lemma NextByteInt(b: Byte)
    requires b != 255
    ensures (b + 1) as int == b as int + 1 && (b + 1) as Word == b as Word + 1
  {
  }

  // ----- counting -----

  function Next(x: Word): Word { x + 1 }
  function Times(x: Word, y: Word): Word { x * y }

  lemma PlusOne(x: Word, y: Word)
    ensures Add(x, y + 1) == Next(x + y)
  {
  }

  lemma TimesOne(x: Word, y: Word)
    ensures Times(x, y + 1) == Add(x * y, x)
  {
  }

  lemma Names(x: Word, y: Word)
    ensures Next(y) == y + 1 && Add(x, y) == x + y && Times(x, y) == x * y
  {
  }

  lemma PlusLaw(x: Word, y: Word)
    ensures Add(x, Next(y)) == Next(Add(x, y))
  {
    Names(x, y);
    PlusOne(x, y);
  }

  lemma TimesLaw(x: Word, y: Word)
    ensures Times(x, Next(y)) == Add(Times(x, y), x)
  {
    Names(x, y);
    TimesOne(x, y);
  }

  lemma ZeroLaw(x: Word)
    ensures Add(x, 0) == x && Times(x, 0) == 0
  {
  }

  lemma AddZero()
    ensures forall x: Word :: Add(x, 0) == x
  {
    forall x: Word
      ensures Add(x, 0) == x
    {
      ZeroLaw(x);
    }
  }

  lemma AddNext()
    ensures forall x: Word, y: Word :: Add(x, Next(y)) == Next(Add(x, y))
  {
    forall x: Word, y: Word
      ensures Add(x, Next(y)) == Next(Add(x, y))
    {
      PlusLaw(x, y);
    }
  }

  lemma TimesZero()
    ensures forall x: Word :: Times(x, 0) == 0
  {
    forall x: Word
      ensures Times(x, 0) == 0
    {
      ZeroLaw(x);
    }
  }

  lemma TimesNext()
    ensures forall x: Word, y: Word :: Times(x, Next(y)) == Add(Times(x, y), x)
  {
    forall x: Word, y: Word
      ensures Times(x, Next(y)) == Add(Times(x, y), x)
    {
      TimesLaw(x, y);
    }
  }

  lemma WordSums()
    ensures Sums(Next, 0 as Word, Add)
  {
    AddZero();
    AddNext();
  }

  lemma WordProducts()
    ensures Products(Next, 0 as Word, Add, Times)
  {
    TimesZero();
    TimesNext();
  }

  /** c counts up from 0, wrapping around. */
  ghost predicate CountsUp(c: nat -> Word) {
    Counts(c, Next, 0 as Word)
  }

  lemma CountSum(c: nat -> Word, a: nat, b: nat)
    requires CountsUp(c)
    ensures c(a + b) == Add(c(a), c(b))
  {
    WordSums();
    C.Sum(c, Next, 0 as Word, Add, a, b);
  }

  lemma CountProduct(c: nat -> Word, a: nat, b: nat)
    requires CountsUp(c)
    ensures c(a * b) == Times(c(a), c(b))
  {
    WordSums();
    WordProducts();
    C.Product(c, Next, 0 as Word, Add, Times, a, b);
  }

  /** The byte that is counted to in r steps. */
  lemma {:induction false} CountByte(c: nat -> Word, r: nat) returns (b: Byte)
    requires CountsUp(c) && r < 256
    ensures c(r) == b as Word && b as int == r
  {
    if r == 0 {
      b := 0;
    } else {
      var d := CountByte(c, r - 1);
      assert Follows(c, Next, r - 1);
      NextByteInt(d);
      b := d + 1;
    }
  }

  lemma LastByte(b: Byte)
    requires b as int == 255
    ensures Next(b as Word) == 0x100
  {
    assert (b as int) as Byte == b;
  }

  lemma Count256(c: nat -> Word)
    requires CountsUp(c)
    ensures c(256) == 0x100
  {
    var b := CountByte(c, 255);
    LastByte(b);
    assert Follows(c, Next, 255);
  }

  lemma AppendLaw(y: Word, b: Byte)
    ensures Add(Times(0x100, y), b as Word) == Append(y, b)
  {
  }

  function Append(y: Word, b: Byte): Word { (y << 8) | (b as Word) }

  lemma CountShifted(c: nat -> Word, q: nat)
    requires CountsUp(c)
    ensures c(256 * q) == Times(0x100, c(q))
  {
    CountProduct(c, 256, q);
    Count256(c);
  }

  lemma Assemble(n: Word, m: Word, k: Word, y: Word, b: Byte)
    requires n == Add(m, k) && m == Times(0x100, y) && k == b as Word
    ensures n == Append(y, b)
  {
    AppendLaw(y, b);
  }

  lemma CountAppended(c: nat -> Word, q: nat, r: nat, b: Byte)
    requires CountsUp(c) && c(r) == b as Word
    ensures c(256 * q + r) == Append(c(q), b)
  {
    CountSum(c, 256 * q, r);
    CountShifted(c, q);
    Assemble(c(256 * q + r), c(256 * q), c(r), c(q), b);
  }

  lemma AppendInt(y: Word, b: Byte)
    requires y as int < 0x100_0000_0000_0000
    ensures Append(y, b) as int == 0x100 * (y as int) + b as int
  {
    TopOctet(y);
    AppendOctetInt(y, b);
  }

  lemma LastDigit(n: nat, q: nat, r: nat)
    requires 0 < n < TWO_TO_64 && q == n / 256 && r == n % 256
    ensures n == 256 * q + r && r < 256 && q < n && q < 0x100_0000_0000_0000
  {
  }

  /** Counting to n gives n, as long as it does not wrap around. */
  lemma {:induction false} CountInt(c: nat -> Word, n: nat)
    requires CountsUp(c) && n < TWO_TO_64
    ensures c(n) as int == n
    decreases n
  {
    if n != 0 {
      var q, r := n / 256, n % 256;
      LastDigit(n, q, r);
      CountInt(c, q);
      var b := CountByte(c, r);
      CountAppended(c, q, r, b);
      AppendInt(c(q), b);
    }
  }

  // ----- words as integers -----

  function Counted(n: nat): Word {
    if n == 0 then 0 else Next(Counted(n - 1))
  }

  lemma CountedCounts()
    ensures CountsUp(Counted)
  {
    forall n: nat
      ensures Follows(Counted, Next, n)
    {
    }
  }

  lemma IntAndBack(x: Word)
    ensures (x as int) as Word == x
  {
  }

  /** A word that fits is its own number. */
  lemma WordInt(n: nat)
    requires n < TWO_TO_64
    ensures (n as Word) as int == n
  {
    CountedCounts();
    CountInt(Counted, n);
    IntAndBack(Counted(n));
  }

  lemma IndexInt(n: nat)
    ensures IndexWord(n) as int == n % TWO_TO_64
  {
    WordInt(n % TWO_TO_64);
  }

  lemma CountWord(c: nat -> Word, n: nat)
    requires CountsUp(c) && n < TWO_TO_64
    ensures c(n) == n as Word
  {
    CountInt(c, n);
    IntAndBack(c(n));
  }

  lemma CountWraps(c: nat -> Word)
    requires CountsUp(c)
    ensures c(TWO_TO_64) == 0
  {
    CountTop(c);
    CountSum(c, TWO_TO_63, TWO_TO_63);
    Doubled();
  }

  lemma CountTop(c: nat -> Word)
    requires CountsUp(c)
    ensures c(TWO_TO_63) == 0x8000_0000_0000_0000
  {
    var top: Word := 0x8000_0000_0000_0000;
    assert top as int == TWO_TO_63;
    CountWord(c, TWO_TO_63);
    IntAndBack(top);
  }

  lemma Doubled()
    ensures Add(0x8000_0000_0000_0000, 0x8000_0000_0000_0000) == 0
  {
  }

  /** Counting to n gives n modulo 2^64. */
  lemma CountModulo(c: nat -> Word, n: nat)
    requires CountsUp(c)
    ensures c(n) as int == n % TWO_TO_64
  {
    var q, r := n / TWO_TO_64, n % TWO_TO_64;
    CountProduct(c, TWO_TO_64, q);
    CountWraps(c);
    CountSum(c, TWO_TO_64 * q, r);
    CountInt(c, r);
    ZeroLeft(c(q), c(r));
  }

  lemma ZeroLeft(x: Word, y: Word)
    ensures Add(Times(0, x), y) == y
  {
  }

  /** Every word is counted to. */
  lemma CountOf(c: nat -> Word, x: Word) returns (a: nat)
    requires CountsUp(c)
    ensures a == x as int && c(a) == x
  {
    a := x as int;
    CountWord(c, a);
    IntAndBack(x);
  }

  lemma ModuloOf(c: nat -> Word, n: nat, p: Word)
    requires CountsUp(c) && c(n) == p
    ensures p as int == n % TWO_TO_64
  {
    CountModulo(c, n);
  }

  function Sum(a: nat, b: nat): nat { a + b }
  function Product(a: nat, b: nat): nat { a * b }

  /** Sum and product modulo 2^64. */
  function Plus64(a: nat, b: nat): nat { (a + b) % TWO_TO_64 }
  function Times64(a: nat, b: nat): nat { a * b % TWO_TO_64 }

  /** An operation on words that agrees with f on what is counted is f modulo 2^64. */
  lemma OperationInt(c: nat -> Word, op: (Word, Word) -> Word, f: (nat, nat) -> nat, g: (nat, nat) -> nat,
                     x: Word, y: Word)
    requires CountsUp(c) && forall a, b :: c(f(a, b)) == op(c(a), c(b)) && g(a, b) == f(a, b) % TWO_TO_64
    ensures op(x, y) as int == g(x as int, y as int)
  {
    var a := CountOf(c, x);
    var b := CountOf(c, y);
    ModuloOf(c, f(a, b), op(x, y));
  }

  /** Addition of words is addition modulo 2^64. */
  lemma AddInt(x: Word, y: Word)
    ensures Add(x, y) as int == Plus64(x as int, y as int)
  {
    CountedCounts();
    forall a, b
      ensures Counted(Sum(a, b)) == Add(Counted(a), Counted(b)) && Plus64(a, b) == Sum(a, b) % TWO_TO_64
    {
      CountSum(Counted, a, b);
    }
    OperationInt(Counted, Add, Sum, Plus64, x, y);
  }

  /** Multiplication of words is multiplication modulo 2^64. */
  lemma TimesInt(x: Word, y: Word)
    ensures Times(x, y) as int == Times64(x as int, y as int)
  {
    CountedCounts();
    forall a, b
      ensures Counted(Product(a, b)) == Times(Counted(a), Counted(b)) && Times64(a, b) == Product(a, b) % TWO_TO_64
    {
      CountProduct(Counted, a, b);
    }
    OperationInt(Counted, Times, Product, Times64, x, y);
  }

  // ----- stored bytes -----

  /** The number with these digits in base 256, lowest first. */
  function LittleInt(bs: seq<Byte>): nat
    requires |bs| == 8
  {
    bs[0] as int + 0x100 * (bs[1] as int) + 0x1_0000 * (bs[2] as int) + 0x100_0000 * (bs[3] as int)
    + 0x1_0000_0000 * (bs[4] as int) + 0x100_0000_0000 * (bs[5] as int)
    + 0x1_0000_0000_0000 * (bs[6] as int) + 0x100_0000_0000_0000 * (bs[7] as int)
  }

  lemma OctetsOf(w: Word)
    ensures LittleEndian(w) == [Octet0(w), Octet1(w), Octet2(w), Octet3(w), Octet4(w), Octet5(w), Octet6(w), Octet7(w)]
  {
  }

  /** A stored quadword is its number in base 256. */
  lemma LittleEndianInt(w: Word)
    ensures w as int == LittleInt(LittleEndian(w))
  {
    OctetsOf(w);
    IntIsOctets(w);
  }

  lemma OctetsLoaded(bs: seq<Byte>)
    requires |bs| == 8
    ensures var w := FromLittleEndian(bs);
            && Octet0(w) == bs[0] && Octet1(w) == bs[1] && Octet2(w) == bs[2] && Octet3(w) == bs[3]
            && Octet4(w) == bs[4] && Octet5(w) == bs[5] && Octet6(w) == bs[6] && Octet7(w) == bs[7]
  {
  }

  /** Eight bytes that are loaded are stored back unchanged. */
  lemma LoadedBytes(bs: seq<Byte>)
    requires |bs| == 8
    ensures LittleEndian(FromLittleEndian(bs)) == bs
  {
    OctetsLoaded(bs);
    OctetsOf(FromLittleEndian(bs));
  }

  lemma LoadedInt(bs: seq<Byte>)
    requires |bs| == 8
    ensures FromLittleEndian(bs) as int == LittleInt(bs)
  {
    LoadedBytes(bs);
    LittleEndianInt(FromLittleEndian(bs));
  }

  // ----- low parts of a word -----

  /** The part of x above its low half. */
  lemma HighHalf(x: Word) returns (q: nat)
    ensures x as int == 0x1_0000_0000 * q + (x & 0xffff_ffff) as int
  {
    q := Octet4(x) as int + 0x100 * (Octet5(x) as int) + 0x1_0000 * (Octet6(x) as int)
         + 0x100_0000 * (Octet7(x) as int);
    Peel7(x);
    Peel6(x);
    Peel5(x);
    Peel4(x);
  }

  lemma LowHalfOctets(x: Word)
    ensures var y := x & 0xffff_ffff; Octet7(y) == 0 && Octet6(y) == 0 && Octet5(y) == 0 && Octet4(y) < 1
  {
  }

  lemma LowHalfBound(x: Word)
    ensures (x & 0xffff_ffff) as int < 0x1_0000_0000
  {
    LowHalfOctets(x);
    Below4(x & 0xffff_ffff, 1);
  }

  lemma Remainder32(n: nat, q: nat, r: nat)
    requires r < 0x1_0000_0000 && n == 0x1_0000_0000 * q + r
    ensures n % 0x1_0000_0000 == r
  {
  }

  lemma LowHalfInt(x: Word)
    ensures (x & 0xffff_ffff) as int == x as int % 0x1_0000_0000
  {
    var q := HighHalf(x);
    LowHalfBound(x);
    Remainder32(x as int, q, (x & 0xffff_ffff) as int);
  }

  /** The part of x above its low byte. */
  lemma HighBytes(x: Word) returns (q: nat)
    ensures x as int == 0x100 * q + Octet0(x) as int
  {
    q := Octet1(x) as int + 0x100 * (Octet2(x) as int) + 0x1_0000 * (Octet3(x) as int)
         + 0x100_0000 * (Octet4(x) as int) + 0x1_0000_0000 * (Octet5(x) as int)
         + 0x100_0000_0000 * (Octet6(x) as int) + 0x1_0000_0000_0000 * (Octet7(x) as int);
    IntIsOctets(x);
  }

  lemma Remainder8(n: nat, q: nat, r: nat)
    requires r < 0x100 && n == 0x100 * q + r
    ensures n % 0x100 == r
  {
  }

  lemma LowByteIsOctet(x: Word)
    ensures LowByte(x) == Octet0(x)
  {
  }

  lemma LowByteInt(x: Word)
    ensures LowByte(x) as int == x as int % 0x100
  {
    var q := HighBytes(x);
    LowByteIsOctet(x);
    Remainder8(x as int, q, Octet0(x) as int);
  }
}
