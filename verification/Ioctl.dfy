/** The ioctl interface of the kernel driver on values: every call is one step under the driver's
    mutex. Which theorems hold over all sequences of calls is the subject of `DriverRuns`.
 */
module Ioctl {
  import opened Words
  import opened SvmContext

  const EFAULT := -14
  const ENOTTY := -25

  const ABI_VERSION := 0x0001_0000
  const BACKEND_AMD_SVM := 1
  const BACKEND_INTEL_VMX := 2
  const BACKEND_USERSPACE_FALLBACK := 4

  /** What the processor reports about itself; it does not change while the driver is loaded. */
  datatype Cpu = Cpu(vendor: seq<Byte>, svm: bool, vmx: bool, maxExtendedLeaf: nat, svmLeafEax: nat, svmLeafEbx: nat)

  /** `struct kernova_caps` without the driver's name and the reserved fields. */
  datatype Caps = Caps(
    abiVersion: nat, backendFlags: nat, runtimeState: nat, vendor: seq<Byte>, svmRevision: nat, svmAsidCount: nat,
    driverLoaded: bool, svmSupported: bool, vmxSupported: bool, svmInitialized: bool, vmCreated: bool,
    vmrunEnabled: bool, lastVmexitValid: bool, exit: Exit)

  /** What the capabilities mean: facts about the processor, the state of the SVM context, and the
      module parameter as it was when they were last computed. */
  function CapsOf(cpu: Cpu, svm: Svm, allow: bool): Caps {
    var hasLeaf := cpu.svm && cpu.maxExtendedLeaf >= 0x8000_000a;
    Caps(ABI_VERSION,
         if cpu.svm && cpu.vmx then BACKEND_AMD_SVM + BACKEND_INTEL_VMX
         else if cpu.svm then BACKEND_AMD_SVM
         else if cpu.vmx then BACKEND_INTEL_VMX
         else BACKEND_USERSPACE_FALLBACK,
         if svm.vmCreated then STATE_VM_CREATED
         else if svm.initialized then STATE_BACKEND_INITIALIZED
         else STATE_CAPS_READY,
         cpu.vendor,
         if hasLeaf then cpu.svmLeafEax % 256 else 0, if hasLeaf then cpu.svmLeafEbx else 0,
         true, cpu.svm, cpu.vmx, svm.initialized, svm.vmCreated, allow,
         svm.exit.code != 0, svm.exit)
  }

  datatype Request =
    | QueryCaps
    | InitBackend(flags: nat)
    | CreateVm(flags: nat, guestSize: nat)
    | Run(flags: nat)
    | DestroyVm
    | UnknownCommand
    | WrongMagic

  /** Everything a call depends on besides the state of the driver: user-memory faults, the module
      parameter at each of the three moments it may be read, the contents of VM_CR, the answers of
      the page allocator, and the control block as VMRUN leaves it. */
  datatype Env = Env(
    copyInFaults: bool, copyOutFaults: bool, allowFirst: bool, allowGate: bool, allowLast: bool,
    vmCr: Word, first: Grant, second: Grant, exit: Vmexit)

  datatype Driver = Driver(cpu: Cpu, caps: Caps, sys: System)

  /** What reaches user space: the return value, and the struct that was copied out, if one was. */
  datatype Reply = Reply(ret: int, caps: CapsCopy, run: RunCopy)
  datatype CapsCopy = NoCaps | CapsCopy(caps: Caps)
  datatype RunCopy = NoRun | RunCopy(run: RunReply)

  function Silent(ret: int): Reply {
    Reply(ret, NoCaps, NoRun)
  }

  function Refresh(d: Driver, allow: bool): Driver {
    d.(caps := CapsOf(d.cpu, d.sys.svm, allow))
  }

  /** The answers of the allocator are possible ones. */
  predicate Possible(d: Driver, env: Env) {
    && Grantable(env.first, d.sys.machine)
    && Grantable(env.second, TakeVmcb(d.sys, env.first).0.machine)
  }

  // ----- the cases of the dispatcher, on the driver after the first refresh -----

  function InitCase(d: Driver, flags: nat, env: Env): (Driver, Reply) {
    if env.copyInFaults then (d, Silent(EFAULT))
    else
      var (sys, ret) :=
        if flags % 2 == 1 then Init(d.sys, d.caps.svmSupported, env.vmCr, env.first) else (d.sys, ENODEV);
      (Refresh(d.(sys := sys), env.allowLast), Silent(ret))
  }

  function CreateCase(d: Driver, flags: nat, guestSize: nat, env: Env): (Driver, Reply) {
    if env.copyInFaults then (d, Silent(EFAULT))
    else
      var (sys, ret) := if flags % 2 == 1 then Create(d.sys, guestSize, env.first, env.second) else (d.sys, ENODEV);
      (Refresh(d.(sys := sys), env.allowLast), Silent(ret))
  }

  /** The request is copied out whether or not the machine ran. */
  function RunCase(d: Driver, flags: nat, env: Env): (Driver, Reply) {
    if env.copyInFaults then (d, Silent(EFAULT))
    else
      var (sys, ret, run) := RunVm(d.sys, flags, env.allowGate, env.exit);
      (Refresh(d.(sys := sys), env.allowLast),
       if env.copyOutFaults then Silent(EFAULT) else Reply(ret, NoCaps, RunCopy(run)))
  }

  /** `kernova_ioctl`. */
  function Call(d: Driver, q: Request, env: Env): (Driver, Reply) {
    if q.WrongMagic? then (d, Silent(ENOTTY)) else Dispatch(Refresh(d, env.allowFirst), q, env)
  }

  function Dispatch(d: Driver, q: Request, env: Env): (Driver, Reply) {
    match q
    case QueryCaps => (d, if env.copyOutFaults then Silent(EFAULT) else Reply(0, CapsCopy(d.caps), NoRun))
    case InitBackend(flags) => InitCase(d, flags, env)
    case CreateVm(flags, guestSize) => CreateCase(d, flags, guestSize, env)
    case Run(flags) => RunCase(d, flags, env)
    case DestroyVm => (Refresh(d.(sys := Destroy(d.sys)), env.allowLast), Silent(0))
    case _ => (d, Silent(ENOTTY))
  }

  /** The driver right after the module is loaded. */
  function Loaded(cpu: Cpu, base: Machine, allow: bool): Driver {
    Driver(cpu, CapsOf(cpu, ZERO_SVM, allow), System(ZERO_SVM, base))
  }
}
