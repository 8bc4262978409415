/** The AMD SVM driver as it runs: a context whose fields are assigned, pages that are allocated,
    filled in place and freed, and model-specific registers that are written. Every method is
    proved against the corresponding function of `SvmContext` or `Ioctl`.
 */
module SvmDriver {
  import opened Words
  import opened Vmcb
  import opened SvmContext
  import opened Ioctl

  /** The model-specific registers EFER and VM_HSAVE_PA. */
  class Registers {
    var efer: Word
    var hsavePa: nat

    constructor (efer: Word, hsavePa: nat)
      ensures this.efer == efer && this.hsavePa == hsavePa
    {
      this.efer, this.hsavePa := efer, hsavePa;
    }
  }

  /** The allocated pages. A page is freed only while it is allocated. */
  class PageTable {
    var frames: map<nat, array<Byte>>
    ghost var contents: map<nat, Content>

    ghost predicate Valid()
      reads this, frames.Values
    {
      && frames.Keys == contents.Keys
      && (forall p {:trigger Filled(p)} | p in frames :: Filled(p))
      && (forall p, q {:trigger Apart(frames, p, q)} | p in frames && q in frames && p != q :: Apart(frames, p, q))
    }

    /** The page holds what it is said to hold. */
    ghost predicate Filled(p: nat)
      requires p in frames && frames.Keys == contents.Keys
      reads this, frames.Values
    {
      frames[p].Length == PAGE_SIZE && frames[p][..] == Bytes(contents[p])
    }

    static predicate Apart(frames: map<nat, array<Byte>>, p: nat, q: nat)
      requires p in frames && q in frames
    {
      frames[p] != frames[q]
    }

    constructor ()
      ensures Valid() && contents == map[] && fresh(frames.Values)
    {
      frames, contents := map[], map[];
    }

    /** `kernova_alloc_page`, given the allocator's answer: a zeroed page. */
    method AllocPage(g: Grant) returns (page: nat)
      requires Valid() && g.Granted? && g.page !in contents
      modifies this
      ensures Valid() && contents == old(contents)[g.page := Zeroed] && page == g.page
      ensures frames.Keys == old(frames.Keys) + {page} && fresh(frames.Values - old(frames.Values))
      ensures forall p | p in old(frames) :: frames[p] == old(frames[p])
    {
      page := g.page;
      var frame := new Byte[PAGE_SIZE](_ => 0);
      assert frame[..] == Zeros(PAGE_SIZE);
      frames := frames[page := frame];
      contents := contents[page := Zeroed];
      forall p | p in frames
        ensures Filled(p)
      {
        if p != page {
          assert old(Filled(p));
        }
      }
      forall p, q | p in frames && q in frames && p != q
        ensures Apart(frames, p, q)
      {
        if p != page && q != page {
          assert Apart(old(frames), p, q);
        }
      }
    }

    /** `kernova_free_page` on a pointer that is null or an allocated page. */
    method FreePage(page: nat)
      requires Valid() && (page != 0 ==> page in frames)
      modifies this
      ensures Valid() && contents == if page == 0 then old(contents) else old(contents) - {page}
      ensures frames == (if page == 0 then old(frames) else old(frames) - {page}) && frames.Values <= old(frames.Values)
    {
      if page != 0 {
        frames := frames - {page};
        contents := contents - {page};
        forall p | p in frames
          ensures Filled(p)
        {
          assert old(Filled(p));
        }
        forall p, q | p in frames && q in frames && p != q
          ensures Apart(frames, p, q)
        {
          assert Apart(old(frames), p, q);
        }
      }
    }

    /** The guest page is filled in place. */
    method FillGuest(page: nat)
      requires Valid() && page in frames
      modifies this`contents, frames[page]
      ensures Valid() && contents == old(contents)[page := GuestCode]
    {
      assert Filled(page);
      PrepareGuestPage(frames[page]);
      contents := contents[page := GuestCode];
      forall p | p in frames
        ensures Filled(p)
      {
        assert p == page || (old(Filled(p)) && Apart(frames, p, page));
      }
    }

    /** The control block is filled in place. */
    method FillVmcb(page: nat, guestPa: nat)
      requires Valid() && page in frames
      modifies this`contents, frames[page]
      ensures Valid() && contents == old(contents)[page := ControlBlock(guestPa)]
    {
      assert Filled(page);
      PrepareVmcb(frames[page], IndexWord(guestPa));
      contents := contents[page := ControlBlock(guestPa)];
      forall p | p in frames
        ensures Filled(p)
      {
        assert p == page || (old(Filled(p)) && Apart(frames, p, page));
      }
    }

    /** A page is written from outside the driver. */
    method Overwrite(page: nat, bytes: seq<Byte>)
      requires Valid() && page in frames && |bytes| == PAGE_SIZE
      modifies this`contents, frames[page]
      ensures Valid() && contents == old(contents)[page := Raw(bytes)]
    {
      assert Filled(page);
      var a := frames[page];
      forall i | 0 <= i < a.Length {
        a[i] := bytes[i];
      }
      contents := contents[page := Raw(bytes)];
      assert a[..] == bytes;
      forall p | p in frames
        ensures Filled(p)
      {
        assert p == page || (old(Filled(p)) && Apart(frames, p, page));
      }
    }

    /** VMRUN: the processor and the guest leave the three pages as v says. */
    method Vmrun(vmcb: nat, guest: nat, hostSave: nat, v: Vmexit)
      requires Valid() && vmcb in frames && guest in frames && hostSave in frames && Honest(v)
      modifies this`contents, frames[vmcb], frames[guest], frames[hostSave]
      ensures Valid()
      ensures contents == old(contents)[hostSave := Raw(v.hostSave)][guest := Raw(v.guest)][vmcb := Raw(v.page)]
    {
      Overwrite(hostSave, v.hostSave);
      Overwrite(guest, v.guest);
      Overwrite(vmcb, v.page);
    }

    /** The driver reads the exit fields from the control block. */
    method ReadExit(vmcb: nat, ghost v: Vmexit) returns (exit: Exit)
      requires Valid() && vmcb in frames && contents[vmcb] == Raw(v.page) && Honest(v)
      ensures exit == v.exit
    {
      assert Filled(vmcb);
      var a := frames[vmcb];
      assert Leaves(v, a[..]);
      exit := Exit(ReadU64(a[..], CONTROL_EXIT_CODE), ReadU64(a[..], CONTROL_EXIT_INFO1),
                   ReadU64(a[..], CONTROL_EXIT_INFO2));
    }
  }

  lemma NewInStages<T>(v0: set<T>, v1: set<T>, v2: set<T>)
    ensures v2 - v0 <= (v1 - v0) + (v2 - v1)
  {
  }

  /** The driver's state: `struct kernova_driver_state`, and the pages and registers it works on. */
  class Driver {
    const cpu: Cpu
    const pages: PageTable
    const regs: Registers
    var caps: Caps
    var svm: Svm

    ghost function Sys(): System
      reads this, pages, regs
    {
      System(svm, Machine(regs.efer, regs.hsavePa, pages.contents))
    }

    ghost function View(): Ioctl.Driver
      reads this, pages, regs
    {
      Ioctl.Driver(cpu, caps, Sys())
    }

    /** Every page pointer that is not null is an allocated page of its own. */
    ghost predicate Live()
      reads this, pages
    {
      && (svm.vmcb != 0 ==> svm.vmcb in pages.contents) && (svm.guest != 0 ==> svm.guest in pages.contents)
      && (svm.hostSave != 0 ==> svm.hostSave in pages.contents)
      && (svm.vmcb != 0 ==> svm.vmcb != svm.guest && svm.vmcb != svm.hostSave)
      && (svm.guest != 0 ==> svm.guest != svm.hostSave)
      && (svm.vmCreated ==> svm.vmcb != 0)
    }

    /** And the pages that VMRUN uses are there, if a virtual machine is. */
    ghost predicate Ready()
      reads this, pages
    {
      Live() && (svm.vmCreated ==> svm.guest != 0) && (svm.initialized ==> svm.hostSave != 0)
    }

    /** `kernova_module_init`. */
    constructor (cpu: Cpu, pages: PageTable, regs: Registers, allow: bool)
      requires pages.Valid()
      ensures this.pages == pages && this.regs == regs && pages.Valid()
      ensures View() == Loaded(cpu, Machine(regs.efer, regs.hsavePa, pages.contents), allow)
    {
      this.cpu, this.pages, this.regs := cpu, pages, regs;
      svm := ZERO_SVM;
      caps := Caps(0, 0, 0, [], 0, 0, false, false, false, false, false, false, false, NO_EXIT);
      new;
      RefreshCaps(allow);
    }

    // ----- the capabilities -----

    /** `kernova_detect_cpu`. */
    method DetectCpu() returns (c: Caps)
      ensures c == CapsOf(cpu, ZERO_SVM, false)
    {
      c := Caps(0, 0, 0, [], 0, 0, false, false, false, false, false, false, false, NO_EXIT);
      c := c.(abiVersion := ABI_VERSION, driverLoaded := true, runtimeState := STATE_CAPS_READY);
      c := c.(vendor := cpu.vendor);
      if cpu.svm {
        c := c.(backendFlags := c.backendFlags + BACKEND_AMD_SVM, svmSupported := true);
      }
      if cpu.vmx {
        c := c.(backendFlags := c.backendFlags + BACKEND_INTEL_VMX, vmxSupported := true);
      }
      if cpu.maxExtendedLeaf >= 0x8000_000a && c.svmSupported {
        c := c.(svmRevision := cpu.svmLeafEax % 256, svmAsidCount := cpu.svmLeafEbx);
      }
      if c.backendFlags == 0 {
        c := c.(backendFlags := BACKEND_USERSPACE_FALLBACK);
      }
    }

    /** `kernova_amd_svm_fill_caps`. */
    method FillSvmCaps(allow: bool)
      modifies this`caps
      ensures caps == old(caps).(
                svmInitialized := svm.initialized, vmCreated := svm.vmCreated, vmrunEnabled := allow,
                lastVmexitValid := svm.exit.code != 0, exit := svm.exit,
                runtimeState := if svm.vmCreated then STATE_VM_CREATED
                                else if svm.initialized then STATE_BACKEND_INITIALIZED
                                else old(caps).runtimeState)
    {
      caps := caps.(svmInitialized := svm.initialized, vmCreated := svm.vmCreated, vmrunEnabled := allow);
      caps := caps.(lastVmexitValid := svm.exit.code != 0, exit := svm.exit);
      if svm.vmCreated {
        caps := caps.(runtimeState := STATE_VM_CREATED);
      } else if svm.initialized {
        caps := caps.(runtimeState := STATE_BACKEND_INITIALIZED);
      }
    }

    /** `kernova_intel_vmx_fill_caps`: the flag is set once more. */
    method FillVmxCaps()
      modifies this`caps
      ensures caps == old(caps).(backendFlags :=
                if old(caps).vmxSupported && old(caps).backendFlags / 2 % 2 == 0
                then old(caps).backendFlags + BACKEND_INTEL_VMX else old(caps).backendFlags)
    {
      if caps.vmxSupported && caps.backendFlags / 2 % 2 == 0 {
        caps := caps.(backendFlags := caps.backendFlags + BACKEND_INTEL_VMX);
      }
    }

    /** `kernova_refresh_caps_locked`. */
    method RefreshCaps(allow: bool)
      modifies this`caps
      ensures caps == CapsOf(cpu, svm, allow)
    {
      var current := DetectCpu();
      caps := current;
      FillSvmCaps(allow);
      FillVmxCaps();
    }

    // ----- the operations -----

    /** `kernova_amd_svm_init`. */
    method InitSvm(vmCr: Word, g: Grant) returns (ret: int)
      requires pages.Valid() && (g.Granted? ==> g.page !in pages.contents)
      modifies this`svm, pages, regs
      ensures pages.Valid() && fresh(pages.frames.Values - old(pages.frames.Values))
      ensures (Sys(), ret) == Init(old(Sys()), caps.svmSupported, vmCr, g)
    {
      if !caps.svmSupported {
        return ENODEV;
      }
      if SvmDisabled(vmCr) {
        return EOPNOTSUPP;
      }
      if svm.initialized {
        return 0;
      }
      if g.Denied? {
        return ENOMEM;
      }
      var page := pages.AllocPage(g);
      var ctx := svm.(hostSave := page, hostSavePa := Phys(page));
      ctx := ctx.(originalEfer := regs.efer, eferSaved := true);
      ctx := ctx.(originalHsave := regs.hsavePa, hsaveSaved := true);
      regs.efer := WithSvme(ctx.originalEfer);
      regs.hsavePa := ctx.hostSavePa;
      svm := ctx.(initialized := true);
      ret := 0;
    }

    /** `kernova_amd_svm_create_vm`. */
    method CreateMachine(guestSize: nat, g: Grant, h: Grant) returns (ret: int)
      requires pages.Valid() && Live()
      requires Grantable(g, Sys().machine) && Grantable(h, TakeVmcb(Sys(), g).0.machine)
      modifies this`svm, pages, pages.frames.Values
      ensures pages.Valid() && fresh(pages.frames.Values - old(pages.frames.Values))
      ensures (Sys(), ret) == Create(old(Sys()), guestSize, g, h)
    {
      if !svm.initialized || guestSize > PAGE_SIZE {
        return EINVAL;
      }
      ret := AllocatePages(g, h);
      if ret != 0 {
        return;
      }
      PrepareMachine();
    }

    method AllocatePages(g: Grant, h: Grant) returns (ret: int)
      requires pages.Valid() && Live()
      requires Grantable(g, Sys().machine) && Grantable(h, TakeVmcb(Sys(), g).0.machine)
      modifies this`svm, pages
      ensures pages.Valid() && fresh(pages.frames.Values - old(pages.frames.Values))
      ensures (Sys(), ret) == TakePages(old(Sys()), g, h)
      ensures ret == 0 ==> Live() && svm.vmcb != 0 && svm.guest != 0
    {
      ghost var v0 := pages.frames.Values;
      ret := TakeVmcbPage(g);
      ghost var v1 := pages.frames.Values;
      if ret == 0 {
        ret := TakeGuestPage(h);
      }
      NewInStages(v0, v1, pages.frames.Values);
    }

    method PrepareMachine()
      requires pages.Valid() && Live() && svm.vmcb != 0 && svm.guest != 0
      modifies this`svm, pages`contents, pages.frames.Values
      ensures pages.Valid() && Sys() == Prepare(old(Sys()))
    {
      pages.FillGuest(svm.guest);
      pages.FillVmcb(svm.vmcb, svm.guestPa);
      svm := svm.(vmCreated := true);
    }

    method TakeVmcbPage(g: Grant) returns (ret: int)
      requires pages.Valid() && Live() && Grantable(g, Sys().machine)
      modifies this`svm, pages
      ensures pages.Valid() && fresh(pages.frames.Values - old(pages.frames.Values))
      ensures Live() && (Sys(), ret) == TakeVmcb(old(Sys()), g)
      ensures ret == 0 ==> svm.vmcb != 0
    {
      if svm.vmcb == 0 {
        if g.Denied? {
          return ENOMEM;
        }
        var page := pages.AllocPage(g);
        svm := svm.(vmcb := page, vmcbPa := Phys(page));
      }
      ret := 0;
    }

    method TakeGuestPage(g: Grant) returns (ret: int)
      requires pages.Valid() && Live() && svm.vmcb != 0 && Grantable(g, Sys().machine)
      modifies this`svm, pages
      ensures pages.Valid() && fresh(pages.frames.Values - old(pages.frames.Values))
      ensures (Sys(), ret) == TakeGuest(old(Sys()), g)
      ensures ret == 0 ==> Live() && svm.vmcb != 0 && svm.guest != 0
    {
      if svm.guest == 0 {
        if g.Denied? {
          pages.FreePage(svm.vmcb);
          svm := svm.(vmcb := 0);
          return ENOMEM;
        }
        var page := pages.AllocPage(g);
        svm := svm.(guest := page, guestPa := Phys(page));
      }
      ret := 0;
    }

    /** `kernova_amd_svm_run`. */
    method RunMachine(flags: nat, allow: bool, v: Vmexit) returns (ret: int, reply: RunReply)
      requires pages.Valid() && Ready() && Honest(v)
      modifies this`svm, pages`contents, pages.frames.Values
      ensures pages.Valid()
      ensures (Sys(), ret, reply) == RunVm(old(Sys()), flags, allow, v)
    {
      reply := RunReply(0, STATE_UNINITIALIZED, NO_EXIT);
      if !svm.initialized || !svm.vmCreated {
        reply := reply.(status := EINVAL, runtimeState := STATE_ERROR);
        return EINVAL, reply;
      }
      if !allow || flags % 2 != 1 {
        reply := reply.(status := EPERM, runtimeState := STATE_LAUNCH_BLOCKED);
        return EPERM, reply;
      }
      pages.Vmrun(svm.vmcb, svm.guest, svm.hostSave, v);
      var exit := pages.ReadExit(svm.vmcb, v);
      svm := svm.(exit := exit);
      reply := reply.(runtimeState := STATE_VMEXIT_RECEIVED, exit := exit);
      ret := 0;
    }

    /** `kernova_amd_svm_destroy`. */
    method DestroyMachine()
      requires pages.Valid() && Live()
      modifies this`svm, pages, regs
      ensures pages.Valid() && pages.frames.Values <= old(pages.frames.Values)
      ensures Sys() == Destroy(old(Sys()))
    {
      if svm.hsaveSaved {
        regs.hsavePa := svm.originalHsave;
      }
      if svm.eferSaved {
        regs.efer := svm.originalEfer;
      }
      FreePages();
      svm := ZERO_SVM;
    }

    method FreePages()
      requires pages.Valid() && Live()
      modifies pages
      ensures pages.Valid() && pages.frames.Values <= old(pages.frames.Values)
      ensures Sys().machine == Free(Free(Free(old(Sys().machine), svm.guest), svm.vmcb), svm.hostSave)
    {
      pages.FreePage(svm.guest);
      pages.FreePage(svm.vmcb);
      pages.FreePage(svm.hostSave);
    }

    // ----- the ioctl dispatcher -----

    /** The driver invariant of `SvmContext` is all that the calls need. */
    lemma InvGivesReady(base: Machine)
      requires Inv(Sys(), base)
      ensures Ready()
    {
    }

    /** The case INIT_BACKEND of the dispatcher, after the first refresh. */
    method OnInitBackend(flags: nat, env: Env) returns (reply: Reply)
      requires pages.Valid() && Possible(View(), env)
      modifies this, pages, regs
      ensures pages.Valid() && fresh(pages.frames.Values - old(pages.frames.Values))
      ensures (View(), reply) == InitCase(old(View()), flags, env)
    {
      if env.copyInFaults {
        return Silent(EFAULT);
      }
      var ret := ENODEV;
      if flags % 2 == 1 {
        ret := InitSvm(env.vmCr, env.first);
      }
      RefreshCaps(env.allowLast);
      reply := Silent(ret);
    }

    /** The case CREATE_VM. */
    method OnCreateVm(flags: nat, guestSize: nat, env: Env) returns (reply: Reply)
      requires pages.Valid() && Live() && Possible(View(), env)
      modifies this, pages, pages.frames.Values
      ensures pages.Valid() && fresh(pages.frames.Values - old(pages.frames.Values))
      ensures (View(), reply) == CreateCase(old(View()), flags, guestSize, env)
    {
      if env.copyInFaults {
        return Silent(EFAULT);
      }
      var ret := ENODEV;
      if flags % 2 == 1 {
        ret := CreateMachine(guestSize, env.first, env.second);
      }
      RefreshCaps(env.allowLast);
      reply := Silent(ret);
    }

    /** The case RUN_VM. The reply is copied out whether or not the machine ran. */
    method OnRunVm(flags: nat, env: Env) returns (reply: Reply)
      requires pages.Valid() && Ready() && Honest(env.exit)
      modifies this, pages`contents, pages.frames.Values
      ensures pages.Valid()
      ensures (View(), reply) == RunCase(old(View()), flags, env)
    {
      if env.copyInFaults {
        return Silent(EFAULT);
      }
      var ret, run := RunMachine(flags, env.allowGate, env.exit);
      reply := if env.copyOutFaults then Silent(EFAULT) else Reply(ret, NoCaps, RunCopy(run));
      RefreshCaps(env.allowLast);
    }

    /** The case DESTROY_VM. */
    method OnDestroyVm(env: Env)
      requires pages.Valid() && Live()
      modifies this, pages, regs
      ensures pages.Valid() && fresh(pages.frames.Values - old(pages.frames.Values))
      ensures View() == Refresh(old(View()).(sys := Destroy(old(Sys()))), env.allowLast)
    {
      DestroyMachine();
      RefreshCaps(env.allowLast);
    }

    /** `kernova_ioctl`: one call under the mutex. */
    method HandleIoctl(q: Request, env: Env) returns (reply: Reply)
      requires pages.Valid() && Ready() && Possible(View(), env) && Honest(env.exit)
      modifies this, pages, regs, pages.frames.Values
      ensures pages.Valid() && fresh(pages.frames.Values - old(pages.frames.Values))
      ensures (View(), reply) == Call(old(View()), q, env)
    {
      if q.WrongMagic? {
        return Silent(ENOTTY);
      }
      RefreshCaps(env.allowFirst);
      reply := OnCommand(q, env);
    }

    /** The switch over the commands. */
    method OnCommand(q: Request, env: Env) returns (reply: Reply)
      requires pages.Valid() && Ready() && Possible(View(), env) && Honest(env.exit)
      modifies this, pages, regs, pages.frames.Values
      ensures pages.Valid() && fresh(pages.frames.Values - old(pages.frames.Values))
      ensures (View(), reply) == Dispatch(old(View()), q, env)
    {
      match q
      case QueryCaps =>
        reply := if env.copyOutFaults then Silent(EFAULT) else Reply(0, CapsCopy(caps), NoRun);
      case InitBackend(flags) =>
        reply := OnInitBackend(flags, env);
      case CreateVm(flags, guestSize) =>
        reply := OnCreateVm(flags, guestSize, env);
      case Run(flags) =>
        reply := OnRunVm(flags, env);
      case DestroyVm =>
        OnDestroyVm(env);
        reply := Silent(0);
      case _ =>
        reply := Silent(ENOTTY);
    }
  }
}
