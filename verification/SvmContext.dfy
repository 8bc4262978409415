/** The AMD SVM part of the kernel driver on values: what each operation makes of the context, the
    live pages and the two model-specific registers. The class in `SvmDriver` implements it.

    One processor is assumed: nobody else writes EFER or VM_HSAVE_PA, and all calls see the same
    registers. Allocation results, VM_CR, the module parameter and what VMRUN leaves in the pages of the
    context are arbitrary inputs.
 */
module SvmContext {
  import opened Words
  import opened Vmcb

  const EPERM := -1
  const ENOMEM := -12
  const ENODEV := -19
  const EINVAL := -22
  const EOPNOTSUPP := -95

  const STATE_UNINITIALIZED := 0
  const STATE_CAPS_READY := 1
  const STATE_BACKEND_INITIALIZED := 2
  const STATE_VM_CREATED := 3
  const STATE_LAUNCH_BLOCKED := 4
  const STATE_VMEXIT_RECEIVED := 5
  const STATE_ERROR := 6

  /** `struct kernova_amd_svm_context`; a page pointer is a page number, 0 if null. */
  datatype Svm = Svm(
    vmcb: nat, hostSave: nat, guest: nat, vmcbPa: nat, hostSavePa: nat, guestPa: nat,
    originalEfer: Word, originalHsave: nat, eferSaved: bool, hsaveSaved: bool,
    initialized: bool, vmCreated: bool, exit: Exit)

  /** The three exit fields of the control block. */
  datatype Exit = Exit(code: Word, info1: Word, info2: Word)

  const NO_EXIT := Exit(0, 0, 0)

  const ZERO_SVM := Svm(0, 0, 0, 0, 0, 0, 0, 0, false, false, false, false, NO_EXIT)

  /** What a page was last filled with. `Bytes` says what that means byte by byte. */
  datatype Content =
    | Zeroed
    | GuestCode
    | ControlBlock(guestPa: nat)
    | Raw(bytes: seq<Byte>)

  function Bytes(c: Content): seq<Byte> {
    match c
    case Zeroed => Zeros(PAGE_SIZE)
    case GuestCode => GuestImage()
    case ControlBlock(guestPa) => VmcbImage(IndexWord(guestPa))
    case Raw(bytes) => bytes
  }

  /** The registers EFER and VM_HSAVE_PA and the allocated pages. */
  datatype Machine = Machine(efer: Word, hsavePa: nat, pages: map<nat, Content>)

  datatype System = System(svm: Svm, machine: Machine)

  /** What the page allocator answers: nothing, or a page. Pages are numbered by frame. */
  datatype Grant = Denied | Granted(page: nat)

  /** `virt_to_phys` of a page. */
  function Phys(page: nat): nat { PAGE_SIZE * page }

  /** The allocator never hands out the null page or a page that is still allocated. */
  predicate Grantable(g: Grant, m: Machine) {
    g.Granted? ==> g.page != 0 && g.page !in m.pages
  }

  function WithSvme(efer: Word): Word { efer | 0x1000 }
  predicate SvmDisabled(vmCr: Word) { vmCr & 0x10 != 0 }

  function Alloc(m: Machine, g: Grant): Machine
    requires g.Granted?
  {
    m.(pages := m.pages[g.page := Zeroed])
  }

  function Free(m: Machine, page: nat): Machine {
    if page == 0 then m else m.(pages := m.pages - {page})
  }

  // ----- the operations -----

  /** `kernova_amd_svm_init`. */
  function Init(s: System, svmSupported: bool, vmCr: Word, g: Grant): (System, int) {
    if !svmSupported then (s, ENODEV)
    else if SvmDisabled(vmCr) then (s, EOPNOTSUPP)
    else if s.svm.initialized then (s, 0)
    else if g.Denied? then (s, ENOMEM)
    else
      (System(s.svm.(hostSave := g.page, hostSavePa := Phys(g.page),
                     originalEfer := s.machine.efer, eferSaved := true,
                     originalHsave := s.machine.hsavePa, hsaveSaved := true, initialized := true),
              Alloc(s.machine, g).(efer := WithSvme(s.machine.efer), hsavePa := Phys(g.page))), 0)
  }

  /** The first half of `kernova_amd_svm_create_vm`: a page for the control block if there is none. */
  function TakeVmcb(s: System, g: Grant): (System, int) {
    if s.svm.vmcb != 0 then (s, 0)
    else if g.Denied? then (s, ENOMEM)
    else (System(s.svm.(vmcb := g.page, vmcbPa := Phys(g.page)), Alloc(s.machine, g)), 0)
  }

  /** The second half: a page for the guest; if that fails the control block is given back. */
  function TakeGuest(s: System, g: Grant): (System, int) {
    if s.svm.guest != 0 then (s, 0)
    else if g.Denied? then (System(s.svm.(vmcb := 0), Free(s.machine, s.svm.vmcb)), ENOMEM)
    else (System(s.svm.(guest := g.page, guestPa := Phys(g.page)), Alloc(s.machine, g)), 0)
  }

  /** `kernova_amd_svm_create_vm`. */
  function Create(s: System, guestSize: nat, g: Grant, h: Grant): (System, int) {
    if !s.svm.initialized then (s, EINVAL)
    else if guestSize > PAGE_SIZE then (s, EINVAL)
    else
      var (t, r) := TakePages(s, g, h);
      if r != 0 then (t, r) else (Prepare(t), 0)
  }

  function TakePages(s: System, g: Grant, h: Grant): (System, int) {
    var (t, r) := TakeVmcb(s, g);
    if r != 0 then (t, r) else TakeGuest(t, h)
  }

  /** Both pages are filled and the machine counts as created. */
  function Prepare(s: System): System {
    var pages := s.machine.pages[s.svm.guest := GuestCode][s.svm.vmcb := ControlBlock(s.svm.guestPa)];
    System(s.svm.(vmCreated := true), s.machine.(pages := pages))
  }

  /** The fields of the run request that the driver fills. */
  datatype RunReply = RunReply(status: int, runtimeState: nat, exit: Exit)

  /** Whether `kernova_amd_svm_run` reaches the VMRUN instruction. */
  predicate Enters(s: System, flags: nat, allow: bool) {
    s.svm.initialized && s.svm.vmCreated && allow && flags % 2 == 1
  }

  /** What VMRUN leaves behind: the control block, the guest page and the host save area are written by
      the processor and the guest as they like; the exit fields are those of the control block. */
  datatype Vmexit = Vmexit(page: seq<Byte>, guest: seq<Byte>, hostSave: seq<Byte>, exit: Exit)

  function ExitFields(page: seq<Byte>): Exit
    requires |page| == PAGE_SIZE
  {
    Exit(ReadU64(page, CONTROL_EXIT_CODE), ReadU64(page, CONTROL_EXIT_INFO1), ReadU64(page, CONTROL_EXIT_INFO2))
  }

  predicate Leaves(v: Vmexit, page: seq<Byte>) {
    v.page == page
  }

  /** Whole pages are left, and v.exit == ExitFields(v.page). The equation is about bytes of words. It
      is stated behind the trigger `Leaves`, so that only a proof that mentions `Leaves(v, v.page)`
      looks at them. */
  ghost predicate Honest(v: Vmexit) {
    && |v.page| == |v.guest| == |v.hostSave| == PAGE_SIZE
    && forall page {:trigger Leaves(v, page)} | |page| == PAGE_SIZE && Leaves(v, page) :: v.exit == ExitFields(page)
  }

  /** The pages after VMRUN. */
  function Scribbled(pages: map<nat, Content>, svm: Svm, v: Vmexit): map<nat, Content> {
    pages[svm.hostSave := Raw(v.hostSave)][svm.guest := Raw(v.guest)][svm.vmcb := Raw(v.page)]
  }

  /** `kernova_amd_svm_run`. */
  function RunVm(s: System, flags: nat, allow: bool, v: Vmexit): (System, int, RunReply) {
    if !s.svm.initialized || !s.svm.vmCreated then (s, EINVAL, RunReply(EINVAL, STATE_ERROR, NO_EXIT))
    else if !allow || flags % 2 != 1 then (s, EPERM, RunReply(EPERM, STATE_LAUNCH_BLOCKED, NO_EXIT))
    else
      (System(s.svm.(exit := v.exit), s.machine.(pages := Scribbled(s.machine.pages, s.svm, v))),
       0, RunReply(0, STATE_VMEXIT_RECEIVED, v.exit))
  }

  /** `kernova_amd_svm_destroy`. */
  function Destroy(s: System): System {
    var hsave := if s.svm.hsaveSaved then s.svm.originalHsave else s.machine.hsavePa;
    var efer := if s.svm.eferSaved then s.svm.originalEfer else s.machine.efer;
    var m := Machine(efer, hsave, s.machine.pages);
    System(ZERO_SVM, Free(Free(Free(m, s.svm.guest), s.svm.vmcb), s.svm.hostSave))
  }

  // ----- the invariant -----

  /** The pages the context holds. */
  function Held(svm: Svm): set<nat> {
    {svm.vmcb, svm.hostSave, svm.guest} - {0}
  }

  /** A page pointer that is not null goes with its physical address and is no other pointer. */
  ghost predicate PointersOk(svm: Svm) {
    && (svm.hostSave != 0 ==> svm.hostSave != svm.vmcb && svm.hostSave != svm.guest)
    && (svm.vmcb != 0 ==> svm.vmcb != svm.guest && svm.vmcbPa == Phys(svm.vmcb))
    && (svm.guest != 0 ==> svm.guestPa == Phys(svm.guest))
    && (svm.hostSave != 0 ==> svm.hostSavePa == Phys(svm.hostSave))
  }

  /** The allocated pages are those of the base machine, untouched, and the pages held here. */
  ghost predicate PagesOk(s: System, base: Machine) {
    && 0 !in base.pages
    && s.machine.pages.Keys == base.pages.Keys + Held(s.svm) && base.pages.Keys !! Held(s.svm)
    && (forall p | p in base.pages :: s.machine.pages[p] == base.pages[p])
  }

  /** While initialized, the registers' former values are saved and SVM is enabled with the host
      save area in place; otherwise the registers have those values and the context is all zero. */
  ghost predicate RegistersOk(s: System, base: Machine) {
    && (s.svm.initialized <==> s.svm.hostSave != 0)
    && (s.svm.initialized <==> s.svm.eferSaved) && (s.svm.initialized <==> s.svm.hsaveSaved)
    && (if s.svm.initialized then
          && s.svm.originalEfer == base.efer && s.svm.originalHsave == base.hsavePa
          && s.machine.efer == WithSvme(base.efer) && s.machine.hsavePa == s.svm.hostSavePa
        else
          s.svm == ZERO_SVM && s.machine.efer == base.efer && s.machine.hsavePa == base.hsavePa)
  }

  ghost predicate Core(s: System, base: Machine) {
    PointersOk(s.svm) && PagesOk(s, base) && RegistersOk(s, base)
  }

  /** The driver invariant; `base` is the machine as it was before the module was loaded. */
  ghost predicate Inv(s: System, base: Machine) {
    && Core(s, base)
    && (s.svm.vmCreated <==> s.svm.vmcb != 0) && (s.svm.vmCreated <==> s.svm.guest != 0)
    && (s.svm.vmCreated ==> s.svm.initialized)
  }

  lemma InitKeepsInv(s: System, base: Machine, svmSupported: bool, vmCr: Word, g: Grant)
    requires Inv(s, base) && Grantable(g, s.machine)
    ensures Inv(Init(s, svmSupported, vmCr, g).0, base)
  {
  }

  lemma TakeVmcbKeepsCore(s: System, base: Machine, g: Grant)
    requires Core(s, base) && s.svm.initialized && Grantable(g, s.machine)
    ensures Core(TakeVmcb(s, g).0, base) && TakeVmcb(s, g).0.svm.initialized
  {
  }

  lemma TakeGuestKeepsCore(s: System, base: Machine, g: Grant)
    requires Core(s, base) && s.svm.initialized && Grantable(g, s.machine)
    ensures Core(TakeGuest(s, g).0, base) && TakeGuest(s, g).0.svm.initialized
  {
  }

  lemma CreateKeepsInv(s: System, base: Machine, guestSize: nat, g: Grant, h: Grant)
    requires Inv(s, base) && Grantable(g, s.machine) && Grantable(h, TakeVmcb(s, g).0.machine)
    ensures Inv(Create(s, guestSize, g, h).0, base)
  {
    if s.svm.initialized && guestSize <= PAGE_SIZE {
      var t := TakeVmcb(s, g).0;
      TakeVmcbKeepsCore(s, base, g);
      TakeGuestKeepsCore(t, base, h);
    }
  }

  lemma RunKeepsInv(s: System, base: Machine, flags: nat, allow: bool, v: Vmexit)
    requires Inv(s, base)
    ensures Inv(RunVm(s, flags, allow, v).0, base)
  {
  }

  /** Destroying gives the machine back as it was before the driver touched it, and doing it again
      changes nothing. */
  lemma DestroyRestores(s: System, base: Machine)
    requires Inv(s, base)
    ensures Destroy(s) == System(ZERO_SVM, base)
    ensures Inv(Destroy(s), base) && Destroy(Destroy(s)) == Destroy(s)
  {
  }
}
