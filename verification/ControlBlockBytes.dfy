/** The page that `kernova_prepare_vmcb` leaves, byte by byte at its addresses. */
module ControlBlockBytes {
  import opened Words
  import opened WordIntegers
  import opened ByteWrites
  import opened Vmcb

  /** The number in the quadword at o. */
  function Quadword(page: seq<Byte>, o: nat): nat
    requires o + 8 <= |page|
  {
    LittleInt(page[o..o + 8])
  }

  /** A segment state at o: selector 0, the attributes, limit 0xffff and base 0. */
  predicate SegmentAt(page: seq<Byte>, o: nat, attributes: Byte)
    requires o + 16 <= |page|
  {
    page[o..o + 16] == [0, 0, attributes, 0, 0xff, 0xff, 0, 0, 0, 0, 0, 0, 0, 0, 0, 0]
  }

  predicate ControlsAt(page: seq<Byte>, guest: nat)
    requires |page| == 4096
  {
    && Quadword(page, 0x00c) == 0x100_0000
    && page[0x058..0x05c] == [1, 0, 0, 0] && page[0x05c] == 1
    && Quadword(page, 0x0c8) == Plus64(guest, 3)
  }

  predicate SegmentsAt(page: seq<Byte>)
    requires |page| == 4096
  {
    && SegmentAt(page, 0x400, 0x93) && SegmentAt(page, 0x410, 0x9b) && SegmentAt(page, 0x420, 0x93)
    && SegmentAt(page, 0x430, 0x93) && SegmentAt(page, 0x440, 0x93) && SegmentAt(page, 0x450, 0x93)
    && SegmentAt(page, 0x460, 0x82) && SegmentAt(page, 0x470, 0x82) && SegmentAt(page, 0x480, 0x82)
    && SegmentAt(page, 0x490, 0x8b)
  }

  /** EFER, CR4, CR3, CR0, DR7, DR6, RFLAGS. */
  predicate ModeAt(page: seq<Byte>)
    requires |page| == 4096
  {
    && Quadword(page, 0x4d0) == 0 && Quadword(page, 0x548) == 0 && Quadword(page, 0x550) == 0
    && Quadword(page, 0x558) == 0x10 && Quadword(page, 0x560) == 0x400 && Quadword(page, 0x568) == 0xffff_0ff0
    && Quadword(page, 0x570) == 2
  }

  /** RIP, RSP, RAX. */
  predicate EntryAt(page: seq<Byte>, guest: nat)
    requires |page| == 4096
  {
    && Quadword(page, 0x578) == guest
    && Quadword(page, 0x5d8) == Plus64(guest, 4080) && Quadword(page, 0x5f8) == 0
  }

  /** Whether address a belongs to one of these. */
  predicate Occupied(a: nat) {
    || 0x00c <= a < 0x014 || 0x058 <= a < 0x05d || 0x0c8 <= a < 0x0d0 || 0x400 <= a < 0x4a0
    || 0x4d0 <= a < 0x4d8 || 0x548 <= a < 0x580 || 0x5d8 <= a < 0x5e0 || 0x5f8 <= a < 0x600
  }

  /** The page is the control block of a guest at this address. */
  ghost predicate IsControlBlock(page: seq<Byte>, guest: nat) {
    && |page| == 4096 && ControlsAt(page, guest) && SegmentsAt(page) && ModeAt(page) && EntryAt(page, guest)
    && forall a: nat | a < 4096 && !Occupied(a) :: page[a] == 0
  }

  // ----- the quadwords -----

  lemma QuadwordHolds(guestPa: Word, o: nat, v: Word)
    requires U64(o, v) in Fields(guestPa) && o + 8 <= 4096
    ensures Quadword(VmcbImage(guestPa), o) == v as int
  {
    U64ReadsBack(guestPa, o, v);
    LoadedInt(VmcbImage(guestPa)[o..o + 8]);
  }

  lemma PartsOfFields(guestPa: Word)
    ensures forall w :: w in ControlFields(guestPa) ==> w in Fields(guestPa)
    ensures forall w :: w in SegmentFields() ==> w in Fields(guestPa)
    ensures forall w :: w in RegisterFields(guestPa) ==> w in Fields(guestPa)
  {
  }

  lemma AddNumber(x: Word, c: Word, n: nat)
    requires c as int == n
    ensures Add(x, c) as int == Plus64(x as int, n)
  {
    AddInt(x, c);
  }

  lemma AddressWords(guestPa: Word)
    ensures guestPa + 3 == Add(guestPa, 3) && guestPa + 4096 - 16 == Add(guestPa, 4080)
  {
  }

  lemma AddressFields(guestPa: Word, next: Word, top: Word)
    requires next == guestPa + 3 && top == guestPa + 4096 - 16
    ensures U64(0x0c8, next) in ControlFields(guestPa) && U64(0x5d8, top) in RegisterFields(guestPa)
  {
  }

  lemma OffsetInts()
    ensures (3 as Word) as int == 3 && (4080 as Word) as int == 4080
  {
  }

  lemma NextInstruction(guestPa: Word) returns (v: Word)
    ensures U64(0x0c8, v) in ControlFields(guestPa) && v as int == Plus64(guestPa as int, 3)
  {
    v := Add(guestPa, 3);
    AddressWords(guestPa);
    AddressFields(guestPa, Add(guestPa, 3), Add(guestPa, 4080));
    OffsetInts();
    AddNumber(guestPa, 3, 3);
  }

  lemma StackTop(guestPa: Word) returns (v: Word)
    ensures U64(0x5d8, v) in RegisterFields(guestPa) && v as int == Plus64(guestPa as int, 4080)
  {
    v := Add(guestPa, 4080);
    AddressWords(guestPa);
    AddressFields(guestPa, Add(guestPa, 3), Add(guestPa, 4080));
    OffsetInts();
    AddNumber(guestPa, 4080, 4080);
  }

  lemma LiteralInts()
    ensures (0 as Word) as int == 0 && (0x100_0000 as Word) as int == 0x100_0000
    ensures (0x10 as Word) as int == 0x10 && (0x400 as Word) as int == 0x400
    ensures (0xffff_0ff0 as Word) as int == 0xffff_0ff0 && (2 as Word) as int == 2
  {
  }

  lemma ModeHolds(guestPa: Word)
    ensures ModeAt(VmcbImage(guestPa))
  {
    PartsOfFields(guestPa);
    QuadwordHolds(guestPa, 0x4d0, 0);
    QuadwordHolds(guestPa, 0x548, 0);
    QuadwordHolds(guestPa, 0x550, 0);
    QuadwordHolds(guestPa, 0x558, 0x10);
    QuadwordHolds(guestPa, 0x560, 0x400);
    QuadwordHolds(guestPa, 0x568, 0xffff_0ff0);
    QuadwordHolds(guestPa, 0x570, 2);
    LiteralInts();
  }

  lemma EntryHolds(guestPa: Word)
    ensures EntryAt(VmcbImage(guestPa), guestPa as int)
  {
    PartsOfFields(guestPa);
    var top := StackTop(guestPa);
    QuadwordHolds(guestPa, 0x578, guestPa);
    QuadwordHolds(guestPa, 0x5d8, top);
    QuadwordHolds(guestPa, 0x5f8, 0);
    LiteralInts();
  }

  // ----- the other fields -----

  lemma SmallFields()
    ensures U32(0x058, 1) == Write(0x058, [1, 0, 0, 0]) && U8(0x05c, 1) == Write(0x05c, [1])
  {
  }

  lemma SmallFieldsHold(guestPa: Word)
    ensures VmcbImage(guestPa)[0x058..0x05c] == [1, 0, 0, 0] && VmcbImage(guestPa)[0x05c] == 1
  {
    PartsOfFields(guestPa);
    SmallFields();
    FieldReadsBack(guestPa, U32(0x058, 1));
    FieldReadsBack(guestPa, U8(0x05c, 1));
    assert VmcbImage(guestPa)[0x05c] == VmcbImage(guestPa)[0x05c..0x05d][0];
  }

  lemma ControlQuadwords(guestPa: Word)
    ensures Quadword(VmcbImage(guestPa), 0x00c) == 0x100_0000
    ensures Quadword(VmcbImage(guestPa), 0x0c8) == Plus64(guestPa as int, 3)
  {
    PartsOfFields(guestPa);
    QuadwordHolds(guestPa, 0x00c, 0x100_0000);
    var next := NextInstruction(guestPa);
    QuadwordHolds(guestPa, 0x0c8, next);
    LiteralInts();
  }

  lemma ControlsHold(guestPa: Word)
    ensures ControlsAt(VmcbImage(guestPa), guestPa as int)
  {
    SmallFieldsHold(guestPa);
    ControlQuadwords(guestPa);
  }

  lemma SegmentBytes(o: nat, attrib: Word, attributes: Byte)
    requires LittleEndian(attrib) == [attributes, 0, 0, 0, 0, 0, 0, 0]
    ensures Segment(o, 0, attrib, 0xffff, 0)
         == Write(o, [0, 0, attributes, 0, 0xff, 0xff, 0, 0, 0, 0, 0, 0, 0, 0, 0, 0])
  {
    ZeroBytes();
    LimitBytes();
  }

  lemma ZeroBytes()
    ensures LittleEndian(0) == [0, 0, 0, 0, 0, 0, 0, 0]
  {
  }

  lemma LimitBytes()
    ensures LittleEndian(0xffff) == [0xff, 0xff, 0, 0, 0, 0, 0, 0]
  {
  }

  lemma AttributeBytes()
    ensures LittleEndian(0x93) == [0x93, 0, 0, 0, 0, 0, 0, 0] && LittleEndian(0x9b) == [0x9b, 0, 0, 0, 0, 0, 0, 0]
    ensures LittleEndian(0x82) == [0x82, 0, 0, 0, 0, 0, 0, 0] && LittleEndian(0x8b) == [0x8b, 0, 0, 0, 0, 0, 0, 0]
  {
  }

  lemma SegmentHolds(guestPa: Word, o: nat, attrib: Word, attributes: Byte)
    requires Segment(o, 0, attrib, 0xffff, 0) in Fields(guestPa) && o + 16 <= 4096
    requires LittleEndian(attrib) == [attributes, 0, 0, 0, 0, 0, 0, 0]
    ensures SegmentAt(VmcbImage(guestPa), o, attributes)
  {
    SegmentBytes(o, attrib, attributes);
    FieldReadsBack(guestPa, Segment(o, 0, attrib, 0xffff, 0));
  }

  lemma SegmentsHold(guestPa: Word)
    ensures SegmentsAt(VmcbImage(guestPa))
  {
    PartsOfFields(guestPa);
    AttributeBytes();
    SegmentHolds(guestPa, 0x400, 0x93, 0x93);
    SegmentHolds(guestPa, 0x410, 0x9b, 0x9b);
    SegmentHolds(guestPa, 0x420, 0x93, 0x93);
    SegmentHolds(guestPa, 0x430, 0x93, 0x93);
    SegmentHolds(guestPa, 0x440, 0x93, 0x93);
    SegmentHolds(guestPa, 0x450, 0x93, 0x93);
    SegmentHolds(guestPa, 0x460, 0x82, 0x82);
    SegmentHolds(guestPa, 0x470, 0x82, 0x82);
    SegmentHolds(guestPa, 0x480, 0x82, 0x82);
    SegmentHolds(guestPa, 0x490, 0x8b, 0x8b);
  }

  /** Fields cover occupied addresses only. */
  lemma FieldsOccupy(guestPa: Word, w: Write<Byte>, a: nat)
    requires w in Fields(guestPa) && w.Covers(a)
    ensures Occupied(a)
  {
  }

  /** The whole page. */
  lemma ImageIsControlBlock(guestPa: Word)
    ensures IsControlBlock(VmcbImage(guestPa), guestPa as int)
  {
    ControlsHold(guestPa);
    SegmentsHold(guestPa);
    ModeHolds(guestPa);
    EntryHolds(guestPa);
    forall a: nat | a < 4096 && !Occupied(a)
      ensures VmcbImage(guestPa)[a] == 0
    {
      forall w | w in Fields(guestPa)
        ensures !w.Covers(a)
      {
        if w.Covers(a) {
          FieldsOccupy(guestPa, w, a);
        }
      }
      OtherBytesAreZero(guestPa, a);
    }
  }

  // ----- there is one such page -----

  lemma SameNumber(p: seq<Byte>, q: seq<Byte>)
    requires |p| == |q| == 8 && LittleInt(p) == LittleInt(q)
    ensures p == q
  {
    LoadedInt(p);
    LoadedInt(q);
    IntAndBack(FromLittleEndian(p));
    IntAndBack(FromLittleEndian(q));
    LoadedBytes(p);
    LoadedBytes(q);
  }

  lemma SameSlice(p: seq<Byte>, q: seq<Byte>, o: nat, n: nat)
    requires o + n <= |p| && o + n <= |q| && p[o..o + n] == q[o..o + n]
    ensures forall a: nat | o <= a < o + n :: p[a] == q[a]
  {
    forall a: nat | o <= a < o + n
      ensures p[a] == q[a]
    {
      assert p[a] == p[o..o + n][a - o] && q[a] == q[o..o + n][a - o];
    }
  }

  lemma SameQuadword(p: seq<Byte>, q: seq<Byte>, o: nat)
    requires o + 8 <= |p| && o + 8 <= |q| && Quadword(p, o) == Quadword(q, o)
    ensures forall a: nat | o <= a < o + 8 :: p[a] == q[a]
  {
    SameNumber(p[o..o + 8], q[o..o + 8]);
    SameSlice(p, q, o, 8);
  }

  lemma SameControls(p: seq<Byte>, q: seq<Byte>, guest: nat)
    requires |p| == |q| == 4096 && ControlsAt(p, guest) && ControlsAt(q, guest)
    ensures forall a: nat | 0x00c <= a < 0x014 || 0x058 <= a < 0x05d || 0x0c8 <= a < 0x0d0 :: p[a] == q[a]
  {
    SameQuadword(p, q, 0x00c);
    SameSlice(p, q, 0x058, 4);
    SameQuadword(p, q, 0x0c8);
  }

  lemma SameSegment(p: seq<Byte>, q: seq<Byte>, o: nat, attributes: Byte)
    requires o + 16 <= |p| && o + 16 <= |q| && SegmentAt(p, o, attributes) && SegmentAt(q, o, attributes)
    ensures forall a: nat | o <= a < o + 16 :: p[a] == q[a]
  {
    SameSlice(p, q, o, 16);
  }

  lemma SameSegments(p: seq<Byte>, q: seq<Byte>)
    requires |p| == |q| == 4096 && SegmentsAt(p) && SegmentsAt(q)
    ensures forall a: nat | 0x400 <= a < 0x4a0 :: p[a] == q[a]
  {
    SameSegment(p, q, 0x400, 0x93);
    SameSegment(p, q, 0x410, 0x9b);
    SameSegment(p, q, 0x420, 0x93);
    SameSegment(p, q, 0x430, 0x93);
    SameSegment(p, q, 0x440, 0x93);
    SameSegment(p, q, 0x450, 0x93);
    SameSegment(p, q, 0x460, 0x82);
    SameSegment(p, q, 0x470, 0x82);
    SameSegment(p, q, 0x480, 0x82);
    SameSegment(p, q, 0x490, 0x8b);
  }

  lemma SameRegisters(p: seq<Byte>, q: seq<Byte>, guest: nat)
    requires |p| == |q| == 4096 && ModeAt(p) && ModeAt(q) && EntryAt(p, guest) && EntryAt(q, guest)
    ensures forall a: nat | 0x4d0 <= a < 0x4d8 || 0x548 <= a < 0x580 || 0x5d8 <= a < 0x5e0 || 0x5f8 <= a < 0x600 ::
              p[a] == q[a]
  {
    SameQuadword(p, q, 0x4d0);
    SameQuadword(p, q, 0x548);
    SameQuadword(p, q, 0x550);
    SameQuadword(p, q, 0x558);
    SameQuadword(p, q, 0x560);
    SameQuadword(p, q, 0x568);
    SameQuadword(p, q, 0x570);
    SameQuadword(p, q, 0x578);
    SameQuadword(p, q, 0x5d8);
    SameQuadword(p, q, 0x5f8);
  }

  ghost predicate Agree(p: seq<Byte>, q: seq<Byte>, from: nat, until: nat) {
    |p| == |q| == 4096 && forall a: nat | from <= a < until && a < 4096 :: p[a] == q[a]
  }

  lemma PartsAgree(p: seq<Byte>, q: seq<Byte>, guest: nat)
    requires IsControlBlock(p, guest) && IsControlBlock(q, guest)
    ensures Agree(p, q, 0x00c, 0x014) && Agree(p, q, 0x058, 0x05d) && Agree(p, q, 0x0c8, 0x0d0)
    ensures Agree(p, q, 0x400, 0x4a0)
    ensures Agree(p, q, 0x4d0, 0x4d8) && Agree(p, q, 0x548, 0x580) && Agree(p, q, 0x5d8, 0x5e0)
    ensures Agree(p, q, 0x5f8, 0x600)
  {
    SameControls(p, q, guest);
    SameSegments(p, q);
    SameRegisters(p, q, guest);
  }

  lemma RestAgrees(p: seq<Byte>, q: seq<Byte>, guest: nat)
    requires IsControlBlock(p, guest) && IsControlBlock(q, guest)
    ensures |p| == |q| == 4096 && forall a: nat | a < 4096 && !Occupied(a) :: p[a] == q[a]
  {
  }

  lemma SameControlBlock(p: seq<Byte>, q: seq<Byte>, guest: nat)
    requires IsControlBlock(p, guest) && IsControlBlock(q, guest)
    ensures p == q
  {
    RestAgrees(p, q, guest);
    PartsAgree(p, q, guest);
    AgreeEverywhere(p, q);
  }

  lemma AgreeEverywhere(p: seq<Byte>, q: seq<Byte>)
    requires |p| == |q| == 4096 && forall a: nat | a < 4096 && !Occupied(a) :: p[a] == q[a]
    requires Agree(p, q, 0x00c, 0x014) && Agree(p, q, 0x058, 0x05d) && Agree(p, q, 0x0c8, 0x0d0)
    requires Agree(p, q, 0x400, 0x4a0)
    requires Agree(p, q, 0x4d0, 0x4d8) && Agree(p, q, 0x548, 0x580) && Agree(p, q, 0x5d8, 0x5e0)
    requires Agree(p, q, 0x5f8, 0x600)
    ensures p == q
  {
    forall a: nat | a < 4096
      ensures p[a] == q[a]
    {
      assert !Occupied(a) ==> p[a] == q[a];
    }
  }

  /** The description leaves no byte open: a page is the control block of the guest exactly if it is the
      one that is prepared. */
  lemma ControlBlockIff(page: seq<Byte>, guestPa: Word)
    ensures IsControlBlock(page, guestPa as int) <==> page == VmcbImage(guestPa)
  {
    ImageIsControlBlock(guestPa);
    if IsControlBlock(page, guestPa as int) {
      SameControlBlock(page, VmcbImage(guestPa), guestPa as int);
    }
  }
}
