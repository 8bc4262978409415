/** What the driver's calls answer and what they leave in registers and pages, in the numbers and
    bytes of its interface.
 */
module DriverReference {
  import opened Words
  import opened WordIntegers
  import opened Vmcb
  import opened ControlBlockBytes
  import opened SvmContext
  import opened Ioctl
  import opened DriverRuns

  // ----- the registers -----

  lemma SvmeBit(efer: Word)
    ensures WithSvme(efer) & 0x1000 == 0x1000
    ensures WithSvme(efer) & 0xffff_ffff_ffff_efff == efer & 0xffff_ffff_ffff_efff
  {
  }

  /** Bit 12 of EFER is set, and the other bits are those of the machine before the driver was loaded. */
  ghost predicate SvmEnabled(efer: Word, base: Word) {
    efer & 0x1000 == 0x1000 && efer & 0xffff_ffff_ffff_efff == base & 0xffff_ffff_ffff_efff
  }

  /** After every run: SVM is enabled with the host save area in place while the context is initialized,
      and the registers are as they were before otherwise. */
  lemma RegistersAfterRun(cpu: Cpu, base: Machine, allow: bool, run: seq<Entry>)
    requires 0 !in base.pages
    ensures var s := Play(Loaded(cpu, base, allow), run).driver.sys;
            if s.svm.initialized then
              && SvmEnabled(s.machine.efer, base.efer)
              && s.svm.hostSave in s.machine.pages && s.machine.hsavePa == 4096 * s.svm.hostSave
            else s.machine.efer == base.efer && s.machine.hsavePa == base.hsavePa
  {
    ReachableInv(cpu, base, allow, run);
    SvmeBit(base.efer);
  }

  /** A created machine is at the addresses of two live pages. */
  lemma AddressesAfterRun(cpu: Cpu, base: Machine, allow: bool, run: seq<Entry>)
    requires 0 !in base.pages
    ensures var s := Play(Loaded(cpu, base, allow), run).driver.sys;
            s.svm.vmCreated ==>
              && s.svm.vmcb in s.machine.pages && s.svm.vmcbPa == 4096 * s.svm.vmcb
              && s.svm.guest in s.machine.pages && s.svm.guestPa == 4096 * s.svm.guest
              && s.svm.vmcb != s.svm.guest && s.svm.vmcb !in base.pages && s.svm.guest !in base.pages
  {
    ReachableInv(cpu, base, allow, run);
  }

  lemma Bit4OfByte(b: Byte)
    ensures b & 0x10 != 0 <==> b as int / 16 % 2 == 1
  {
  }

  lemma Bit4OfWord(w: Word)
    ensures w & 0x10 != 0 <==> LowByte(w) & 0x10 != 0
  {
  }

  lemma Sixteenth(n: nat, m: nat, b: nat)
    requires b < 16 && n == 16 * m + b
    ensures n / 16 == m
  {
  }

  lemma SameParity(m: nat, q: nat, a: nat)
    requires m == 16 * q + a
    ensures m % 2 == a % 2
  {
  }

  lemma Bit4OfInt(n: nat)
    ensures n % 256 / 16 % 2 == n / 16 % 2
  {
    var q, r := n / 256, n % 256;
    Sixteenth(n, 16 * q + r / 16, r % 16);
    SameParity(16 * q + r / 16, q, r / 16);
  }

  /** SVM is disabled exactly if bit 4 of VM_CR is 1. */
  lemma DisabledIffBit4(vmCr: Word)
    ensures SvmDisabled(vmCr) <==> vmCr as int / 16 % 2 == 1
  {
    Bit4OfWord(vmCr);
    Bit4OfByte(LowByte(vmCr));
    LowByteInt(vmCr);
    Bit4OfInt(vmCr as int);
  }

  // ----- the answers -----

  /** The return value of a call. */
  function Return(d: Driver, q: Request, env: Env): int {
    var svm := d.sys.svm;
    match q
    case QueryCaps => if env.copyOutFaults then -14 else 0
    case InitBackend(flags) =>
      if env.copyInFaults then -14
      else if flags % 2 == 0 || !d.cpu.svm then -19
      else if env.vmCr as int / 16 % 2 == 1 then -95
      else if svm.initialized || env.first.Granted? then 0
      else -12
    case CreateVm(flags, size) =>
      if env.copyInFaults then -14
      else if flags % 2 == 0 then -19
      else if !svm.initialized || size > 4096 then -22
      else if svm.vmCreated || (env.first.Granted? && env.second.Granted?) then 0
      else -12
    case Run(flags) =>
      if env.copyInFaults || env.copyOutFaults then -14
      else if !svm.vmCreated then -22
      else if !env.allowGate || flags % 2 == 0 then -1
      else 0
    case DestroyVm => 0
    case UnknownCommand => -25
    case WrongMagic => -25
  }

  /** The struct that RUN_VM copies out, if it does. */
  function RunAnswer(d: Driver, q: Request, env: Env): RunCopy {
    if !q.Run? || env.copyInFaults || env.copyOutFaults then NoRun
    else if !d.sys.svm.vmCreated then RunCopy(RunReply(-22, 6, Exit(0, 0, 0)))
    else if !env.allowGate || q.flags % 2 == 0 then RunCopy(RunReply(-1, 4, Exit(0, 0, 0)))
    else RunCopy(RunReply(0, 5, env.exit.exit))
  }

  lemma InitReturns(d: Driver, flags: nat, env: Env)
    ensures Call(d, InitBackend(flags), env).1.ret == Return(d, InitBackend(flags), env)
  {
    DisabledIffBit4(env.vmCr);
  }

  lemma CreateReturns(d: Driver, flags: nat, size: nat, env: Env, base: Machine)
    requires Inv(d.sys, base) && Possible(d, env)
    ensures Call(d, CreateVm(flags, size), env).1.ret == Return(d, CreateVm(flags, size), env)
  {
  }

  /** What every call answers, in a state that the driver can be in. */
  lemma CallAnswers(d: Driver, q: Request, env: Env, base: Machine)
    requires Inv(d.sys, base) && Possible(d, env)
    ensures var r := Call(d, q, env).1;
            r.ret == Return(d, q, env) && r.run == RunAnswer(d, q, env)
            && (r.caps.CapsCopy? <==> q.QueryCaps? && !env.copyOutFaults)
  {
    match q
    case InitBackend(flags) => InitReturns(d, flags, env);
    case CreateVm(flags, size) => CreateReturns(d, flags, size, env, base);
    case _ =>
  }

  // ----- the capabilities -----

  /** What the snapshot says about processor, context and parameter. */
  ghost predicate Describes(c: Caps, cpu: Cpu, svm: Svm, allow: bool) {
    var leaf := cpu.svm && cpu.maxExtendedLeaf >= 0x8000_000a;
    && c.abiVersion == 0x1_0000 && c.driverLoaded && c.vendor == cpu.vendor
    && c.backendFlags == (if cpu.svm || cpu.vmx then (if cpu.svm then 1 else 0) + (if cpu.vmx then 2 else 0) else 4)
    && c.runtimeState == (if svm.vmCreated then 3 else if svm.initialized then 2 else 1)
    && c.svmRevision == (if leaf then cpu.svmLeafEax % 256 else 0)
    && c.svmAsidCount == (if leaf then cpu.svmLeafEbx else 0)
    && c.svmSupported == cpu.svm && c.vmxSupported == cpu.vmx
    && c.svmInitialized == svm.initialized && c.vmCreated == svm.vmCreated && c.vmrunEnabled == allow
    && (c.lastVmexitValid <==> svm.exit.code != 0) && c.exit == svm.exit
  }

  lemma CapsDescribe(cpu: Cpu, svm: Svm, allow: bool)
    ensures Describes(CapsOf(cpu, svm, allow), cpu, svm, allow)
  {
  }

  /** A query answers what the processor and the context are then. */
  lemma QueryAnswers(d: Driver, env: Env)
    requires !env.copyOutFaults
    ensures Describes(Call(d, QueryCaps, env).1.caps.caps, d.cpu, d.sys.svm, env.allowFirst)
  {
    CapsDescribe(d.cpu, d.sys.svm, env.allowFirst);
  }

  // ----- the exit -----

  /** The exit fields are stored at 0x70, 0x78 and 0x80 of the control block. */
  ghost predicate ExitIn(e: Exit, page: seq<Byte>) {
    && |page| == 4096
    && LittleEndian(e.code) == page[0x70..0x78]
    && LittleEndian(e.info1) == page[0x78..0x80]
    && LittleEndian(e.info2) == page[0x80..0x88]
  }

  lemma ExitFieldsIn(page: seq<Byte>)
    requires |page| == 4096
    ensures ExitIn(ExitFields(page), page)
  {
    LoadedBytes(page[0x70..0x78]);
    LoadedBytes(page[0x78..0x80]);
    LoadedBytes(page[0x80..0x88]);
  }

  lemma HonestExit(v: Vmexit)
    requires Honest(v)
    ensures ExitIn(v.exit, v.page)
  {
    assert Leaves(v, v.page);
    ExitFieldsIn(v.page);
  }

  /** VMRUN left an exit code that is not 0. */
  ghost predicate LeftCode(v: Vmexit) {
    |v.page| == 4096 && exists a :: 0x70 <= a < 0x78 && v.page[a] != 0
  }

  lemma ZeroStored(w: Word)
    ensures w == 0 <==> LittleEndian(w) == [0, 0, 0, 0, 0, 0, 0, 0]
  {
    LittleEndianRoundTrip(w);
    ZeroBytes();
  }

  lemma CodeIsBytes(v: Vmexit)
    requires Honest(v)
    ensures v.exit.code != 0 <==> LeftCode(v)
  {
    HonestExit(v);
    ZeroStored(v.exit.code);
    if LittleEndian(v.exit.code) != [0, 0, 0, 0, 0, 0, 0, 0] {
      var k :| 0 <= k < 8 && LittleEndian(v.exit.code)[k] != 0;
      assert v.page[0x70..0x78][k] == v.page[0x70 + k];
    } else {
      forall a | 0x70 <= a < 0x78
        ensures v.page[a] == 0
      {
        assert v.page[a] == v.page[0x70..0x78][a - 0x70];
      }
    }
  }

  /** A RUN_VM that enters the guest returns and records the exit that is in the control block, and
      counts it as valid exactly if its code there is not 0. */
  lemma RunRecordsExit(d: Driver, flags: nat, env: Env)
    requires Honest(env.exit) && Call(d, Run(flags), env).1.ret == 0
    ensures var (d', r) := Call(d, Run(flags), env);
            && r.run.RunCopy? && ExitIn(r.run.run.exit, env.exit.page)
            && ExitIn(d'.sys.svm.exit, env.exit.page) && d'.caps.exit == d'.sys.svm.exit
            && (d'.caps.lastVmexitValid <==> LeftCode(env.exit))
  {
    HonestExit(env.exit);
    CodeIsBytes(env.exit);
  }

  // ----- the exit over runs -----

  /** Event k is the last VMRUN, and nothing was destroyed since. */
  ghost predicate LastVmrun(h: seq<Event>, k: nat) {
    k < |h| && h[k].Vmrun? && forall j | k < j < |h| :: h[j].Prepared?
  }

  lemma {:induction false} LastExitOf(h: seq<Event>, k: nat)
    requires LastVmrun(h, k)
    ensures LastExit(h) == h[k].left.exit.code
  {
    if k < |h| - 1 {
      LastExitOf(h[..|h| - 1], k);
    }
  }

  lemma {:induction false} HistoryIsHonest(start: Driver, run: seq<Entry>)
    requires forall e | e in run :: Honest(e.env.exit)
    ensures forall v | v in Play(start, run).history && v.Vmrun? :: Honest(v.left)
  {
    if run != [] {
      assert run[|run| - 1] in run && forall e | e in run[..|run| - 1] :: e in run;
      HistoryIsHonest(start, run[..|run| - 1]);
    }
  }

  /** After every run the capabilities report a valid exit exactly if the last VMRUN since the last
      destroy left a code other than 0 in the control block. */
  lemma ValidIffCodeLeft(cpu: Cpu, base: Machine, allow: bool, run: seq<Entry>)
    requires 0 !in base.pages && forall e | e in run :: Honest(e.env.exit)
    ensures var s := Play(Loaded(cpu, base, allow), run);
            s.driver.caps.lastVmexitValid <==>
              exists k: nat :: LastVmrun(s.history, k) && LeftCode(s.history[k].left)
  {
    var s := Play(Loaded(cpu, base, allow), run);
    ReachableRemembers(cpu, base, allow, run);
    CapsNeverStale(cpu, base, allow, run);
    HistoryIsHonest(Loaded(cpu, base, allow), run);
    if LastExit(s.history) != 0 {
      var k := LastExitWitness(s.history);
      CodeIsBytes(s.history[k].left);
      assert LastVmrun(s.history, k);
    }
    forall k: nat | LastVmrun(s.history, k) && LeftCode(s.history[k].left)
      ensures LastExit(s.history) != 0
    {
      LastExitOf(s.history, k);
      CodeIsBytes(s.history[k].left);
    }
  }

  // ----- the pages of a new machine -----

  lemma GuestBytes()
    ensures Bytes(GuestCode) == seq(4096, a => if a < 2 then 0x90 else 0xf4)
  {
  }

  lemma ImageOf(page: seq<Byte>, w: Word, n: nat)
    requires page == VmcbImage(w) && w as int == n
    ensures IsControlBlock(page, n)
  {
    ImageIsControlBlock(w);
  }

  lemma ImageWord(guestPa: nat) returns (w: Word)
    ensures Bytes(ControlBlock(guestPa)) == VmcbImage(w) && w as int == guestPa % TWO_TO_64
  {
    w := IndexWord(guestPa);
    IndexInt(guestPa);
  }

  /** The two contents that are prepared, as bytes: the control block of a guest at this address, and
      two nops and hlt. */
  lemma PreparedBytes(guestPa: nat)
    ensures IsControlBlock(Bytes(ControlBlock(guestPa)), guestPa % TWO_TO_64)
    ensures Bytes(GuestCode) == seq(4096, a => if a < 2 then 0x90 else 0xf4)
  {
    GuestBytes();
    var w := ImageWord(guestPa);
    ImageOf(Bytes(ControlBlock(guestPa)), w, guestPa % TWO_TO_64);
  }

  /** Page p is live and holds c. */
  ghost predicate Filled(m: Machine, p: nat, c: Content) {
    p in m.pages && m.pages[p] == c
  }

  lemma CreatedContents(d: Driver, flags: nat, size: nat, env: Env, base: Machine)
    requires Inv(d.sys, base) && Possible(d, env) && Call(d, CreateVm(flags, size), env).1.ret == 0
    ensures var s := Call(d, CreateVm(flags, size), env).0.sys;
            && s.svm.vmCreated
            && Filled(s.machine, s.svm.vmcb, ControlBlock(4096 * s.svm.guest))
            && Filled(s.machine, s.svm.guest, GuestCode)
  {
    CallKeepsInv(d, CreateVm(flags, size), env, base);
  }

  lemma FilledBytes(s: System)
    requires Filled(s.machine, s.svm.vmcb, ControlBlock(4096 * s.svm.guest))
    requires Filled(s.machine, s.svm.guest, GuestCode)
    ensures IsControlBlock(Bytes(s.machine.pages[s.svm.vmcb]), 4096 * s.svm.guest % TWO_TO_64)
    ensures Bytes(s.machine.pages[s.svm.guest]) == seq(4096, a => if a < 2 then 0x90 else 0xf4)
  {
    PreparedBytes(4096 * s.svm.guest);
  }

  /** A creation that succeeds leaves the two pages filled: the control block of a guest at the
      address of the other page, and there two nops and hlt. */
  lemma CreatedPages(d: Driver, flags: nat, size: nat, env: Env, base: Machine)
    requires Inv(d.sys, base) && Possible(d, env) && Call(d, CreateVm(flags, size), env).1.ret == 0
    ensures var s := Call(d, CreateVm(flags, size), env).0.sys;
            && s.svm.vmCreated && s.svm.vmcb in s.machine.pages && s.svm.guest in s.machine.pages
            && IsControlBlock(Bytes(s.machine.pages[s.svm.vmcb]), 4096 * s.svm.guest % TWO_TO_64)
            && Bytes(s.machine.pages[s.svm.guest]) == seq(4096, a => if a < 2 then 0x90 else 0xf4)
  {
    CreatedContents(d, flags, size, env, base);
    FilledBytes(Call(d, CreateVm(flags, size), env).0.sys);
  }
}
