/** The 4096-byte virtual machine control block that the driver fills before it lets the processor
    enter a guest, and the guest page. Offsets are those of Appendix B of the AMD64 Architecture
    Programmer's Manual, Volume 2.
 */
module Vmcb {
  import opened Words
  import opened FlatMemory
  import opened ByteWrites

  const PAGE_SIZE := 4096

  const CONTROL_INTERCEPT := 0x00c
  const CONTROL_ASID := 0x058
  const CONTROL_TLB_CONTROL := 0x05c
  const CONTROL_EXIT_CODE := 0x070
  const CONTROL_EXIT_INFO1 := 0x078
  const CONTROL_EXIT_INFO2 := 0x080
  const CONTROL_N_RIP := 0x0c8

  const SAVE_ES := 0x400
  const SAVE_CS := 0x410
  const SAVE_SS := 0x420
  const SAVE_DS := 0x430
  const SAVE_FS := 0x440
  const SAVE_GS := 0x450
  const SAVE_GDTR := 0x460
  const SAVE_LDTR := 0x470
  const SAVE_IDTR := 0x480
  const SAVE_TR := 0x490
  const SAVE_EFER := 0x4d0
  const SAVE_CR4 := 0x548
  const SAVE_CR3 := 0x550
  const SAVE_CR0 := 0x558
  const SAVE_DR7 := 0x560
  const SAVE_DR6 := 0x568
  const SAVE_RFLAGS := 0x570
  const SAVE_RIP := 0x578
  const SAVE_RSP := 0x5d8
  const SAVE_RAX := 0x5f8

  // ----- the four kinds of write -----

  function U8(offset: nat, v: Byte): Write<Byte> { Write(offset, [v]) }
  function U32(offset: nat, v: Word): Write<Byte> { Write(offset, LittleEndian(v)[..4]) }
  function U64(offset: nat, v: Word): Write<Byte> { Write(offset, LittleEndian(v)) }

  /** A packed segment state: selector, attributes, limit, base. */
  function Segment(offset: nat, selector: Word, attrib: Word, limit: Word, base: Word): Write<Byte> {
    Write(offset,
          LittleEndian(selector)[..2] + LittleEndian(attrib)[..2] + LittleEndian(limit)[..4] + LittleEndian(base))
  }

  // ----- the block by ascending offset -----

  function ControlFields(guestPa: Word): seq<Write<Byte>> {
    [ U64(CONTROL_INTERCEPT, 0x100_0000), U32(CONTROL_ASID, 1), U8(CONTROL_TLB_CONTROL, 1),
      U64(CONTROL_N_RIP, guestPa + 3) ]
  }

  function SegmentFields(): seq<Write<Byte>> {
    [ Segment(SAVE_ES, 0, 0x93, 0xffff, 0), Segment(SAVE_CS, 0, 0x9b, 0xffff, 0),
      Segment(SAVE_SS, 0, 0x93, 0xffff, 0), Segment(SAVE_DS, 0, 0x93, 0xffff, 0),
      Segment(SAVE_FS, 0, 0x93, 0xffff, 0), Segment(SAVE_GS, 0, 0x93, 0xffff, 0),
      Segment(SAVE_GDTR, 0, 0x82, 0xffff, 0), Segment(SAVE_LDTR, 0, 0x82, 0xffff, 0),
      Segment(SAVE_IDTR, 0, 0x82, 0xffff, 0), Segment(SAVE_TR, 0, 0x8b, 0xffff, 0) ]
  }

  function RegisterFields(guestPa: Word): seq<Write<Byte>> {
    [ U64(SAVE_EFER, 0), U64(SAVE_CR4, 0), U64(SAVE_CR3, 0), U64(SAVE_CR0, 0x10), U64(SAVE_DR7, 0x400),
      U64(SAVE_DR6, 0xffff_0ff0), U64(SAVE_RFLAGS, 0x2), U64(SAVE_RIP, guestPa),
      U64(SAVE_RSP, guestPa + 4096 - 16), U64(SAVE_RAX, 0) ]
  }

  function Fields(guestPa: Word): seq<Write<Byte>> {
    ControlFields(guestPa) + SegmentFields() + RegisterFields(guestPa)
  }

  /** What `kernova_prepare_vmcb` makes of the page. */
  function VmcbImage(guestPa: Word): (page: seq<Byte>)
    ensures |page| == PAGE_SIZE
  {
    Apply(Zeros(PAGE_SIZE), Fields(guestPa))
  }

  /** What `kernova_prepare_guest_page` makes of the page: nop, nop, and hlt from there on. */
  function GuestImage(): (page: seq<Byte>)
    ensures |page| == PAGE_SIZE
  {
    seq(PAGE_SIZE, i => if i == 0 || i == 1 then 0x90 else 0xf4)
  }

  // ----- the layout -----

  lemma PartsAscend(guestPa: Word)
    ensures Ascending(ControlFields(guestPa))
    ensures Ascending(SegmentFields())
    ensures Ascending(RegisterFields(guestPa))
  {
  }

  /** No two fields overlap. */
  lemma FieldsAreDisjoint(guestPa: Word)
    ensures Disjoint(Fields(guestPa)) && Consistent(Fields(guestPa))
  {
    PartsAscend(guestPa);
    AscendingConcat(ControlFields(guestPa), SegmentFields());
    AscendingConcat(ControlFields(guestPa) + SegmentFields(), RegisterFields(guestPa));
    AscendingIsDisjoint(Fields(guestPa));
    DisjointIsConsistent(Fields(guestPa));
  }

  lemma FieldsFit(guestPa: Word)
    ensures forall w | w in Fields(guestPa) :: w.offset + |w.bytes| <= PAGE_SIZE
  {
  }

  /** Every field of the block reads back what was written for it. */
  lemma FieldReadsBack(guestPa: Word, w: Write<Byte>)
    requires w in Fields(guestPa)
    ensures w.offset + |w.bytes| <= PAGE_SIZE
    ensures VmcbImage(guestPa)[w.offset..w.offset + |w.bytes|] == w.bytes
  {
    FieldsFit(guestPa);
    FieldsAreDisjoint(guestPa);
    ReadsBack(Zeros(PAGE_SIZE), Fields(guestPa), w);
  }

  /** Every byte that belongs to no field is 0. */
  lemma OtherBytesAreZero(guestPa: Word, a: nat)
    requires a < PAGE_SIZE && forall w | w in Fields(guestPa) :: !w.Covers(a)
    ensures VmcbImage(guestPa)[a] == 0
  {
    UncoveredByte(Zeros(PAGE_SIZE), Fields(guestPa), a);
  }

  /** `vmcb_read_u64`. */
  function ReadU64(page: seq<Byte>, offset: nat): Word
    requires offset + 8 <= |page|
  {
    FromLittleEndian(page[offset..offset + 8])
  }

  lemma U64ReadsBack(guestPa: Word, offset: nat, v: Word)
    requires U64(offset, v) in Fields(guestPa) && offset + 8 <= PAGE_SIZE
    ensures ReadU64(VmcbImage(guestPa), offset) == v
  {
    FieldReadsBack(guestPa, U64(offset, v));
    LittleEndianRoundTrip(v);
  }

  /** The guest starts at its page with the stack at the page's end, and the address after its hlt
      is the next one. */
  lemma GuestAddresses(guestPa: Word)
    ensures ReadU64(VmcbImage(guestPa), SAVE_RIP) == guestPa
    ensures ReadU64(VmcbImage(guestPa), SAVE_RSP) == guestPa + 4096 - 16
    ensures ReadU64(VmcbImage(guestPa), CONTROL_N_RIP) == guestPa + 3
  {
    var c, g, r := ControlFields(guestPa), SegmentFields(), RegisterFields(guestPa);
    assert c[3] in c + g + r && r[7] in c + g + r && r[8] in c + g + r;
    U64ReadsBack(guestPa, SAVE_RIP, guestPa);
    U64ReadsBack(guestPa, SAVE_RSP, guestPa + 4096 - 16);
    U64ReadsBack(guestPa, CONTROL_N_RIP, guestPa + 3);
  }

  // ----- the code -----

  /** The calls of the `vmcb_write_` helpers in `kernova_prepare_vmcb`, one after the other: the
      control fields but for the last, the segments in ascending order, the registers, and the last
      control field. */
  function ControlCalls(): seq<Write<Byte>> {
    [ U64(CONTROL_INTERCEPT, 0x100_0000), U32(CONTROL_ASID, 1), U8(CONTROL_TLB_CONTROL, 1) ]
  }

  function RegisterCalls(guestPa: Word): seq<Write<Byte>> {
    [ U64(SAVE_EFER, 0), U64(SAVE_CR0, 0x10), U64(SAVE_CR3, 0), U64(SAVE_CR4, 0), U64(SAVE_DR6, 0xffff_0ff0),
      U64(SAVE_DR7, 0x400), U64(SAVE_RFLAGS, 0x2), U64(SAVE_RIP, guestPa), U64(SAVE_RSP, guestPa + 4096 - 16),
      U64(SAVE_RAX, 0), U64(CONTROL_N_RIP, guestPa + 3) ]
  }

  function Calls(guestPa: Word): seq<Write<Byte>> {
    ControlCalls() + SegmentFields() + RegisterCalls(guestPa)
  }

  lemma CallsWriteTheFields(guestPa: Word)
    ensures forall w :: w in Fields(guestPa) <==> w in Calls(guestPa)
  {
    var c, g, r := ControlFields(guestPa), SegmentFields(), RegisterFields(guestPa);
    assert ControlCalls() == [c[0], c[1], c[2]];
    assert RegisterCalls(guestPa) == [r[0], r[3], r[2], r[1], r[5], r[4], r[6], r[7], r[8], r[9], c[3]];
    SameMembers(c, g, r);
  }

  lemma SameMembers<T>(c: seq<T>, g: seq<T>, r: seq<T>)
    requires |c| == 4 && |r| == 10
    ensures forall w :: w in c + g + r <==>
              w in [c[0], c[1], c[2]] + g + [r[0], r[3], r[2], r[1], r[5], r[4], r[6], r[7], r[8], r[9], c[3]]
  {
  }

  /** One of the `vmcb_write_` helpers. */
  method Put(page: array<Byte>, w: Write<Byte>)
    requires page.Length == PAGE_SIZE && w.offset + |w.bytes| <= PAGE_SIZE
    modifies page
    ensures page[..] == Overlay(old(page[..]), w.offset, w.bytes)
  {
    forall i | 0 <= i < |w.bytes| {
      page[w.offset + i] := w.bytes[i];
    }
  }

  /** A sequence of such calls. */
  method PutAll(page: array<Byte>, ws: seq<Write<Byte>>)
    requires page.Length == PAGE_SIZE && forall w | w in ws :: w.offset + |w.bytes| <= PAGE_SIZE
    modifies page
    ensures page[..] == Apply(old(page[..]), ws)
  {
    for k := 0 to |ws|
      invariant page[..] == Apply(old(page[..]), ws[..k])
    {
      Put(page, ws[k]);
      assert ws[..k + 1][..k] == ws[..k];
    }
    assert ws[..|ws|] == ws;
  }

  /** `kernova_prepare_vmcb`. */
  method PrepareVmcb(page: array<Byte>, guestPa: Word)
    requires page.Length == PAGE_SIZE
    modifies page
    ensures page[..] == VmcbImage(guestPa)
  {
    forall i | 0 <= i < page.Length {
      page[i] := 0;
    }
    CallsWriteTheFields(guestPa);
    FieldsFit(guestPa);
    FieldsAreDisjoint(guestPa);
    assert page[..] == Zeros(PAGE_SIZE);
    PutAll(page, Calls(guestPa));
    OrderIrrelevant(Zeros(PAGE_SIZE), Fields(guestPa), Calls(guestPa));
  }

  /** `kernova_prepare_guest_page`. */
  method PrepareGuestPage(page: array<Byte>)
    requires page.Length == PAGE_SIZE
    modifies page
    ensures page[..] == GuestImage()
  {
    forall i | 0 <= i < page.Length {
      page[i] := 0xf4;
    }
    page[0] := 0x90;
    page[1] := 0x90;
    page[2] := 0xf4;
  }
}
