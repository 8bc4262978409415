/** The userspace side of the driver, `KernelDriverBackend`, together with the driver it talks to.
    The backend is assumed to be the driver's only client.
 */
module Backend {
  import opened SvmContext
  import opened Ioctl
  import opened DriverRuns

  const GUEST_SIZE := 4096

  /** The three fields of the backend object; a descriptor is open or it is not. */
  datatype Flags = Flags(open: bool, initialized: bool, configured: bool)

  const CLOSED := Flags(false, false, false)

  /** The backend and the driver, and the ioctl calls made so far. */
  datatype Joint = Joint(flags: Flags, driver: Ioctl.Driver, calls: seq<Entry>)

  function Issue(j: Joint, q: Request, env: Env): (Joint, Reply) {
    var (d, r) := Call(j.driver, q, env);
    (j.(driver := d, calls := j.calls + [Entry(q, env)]), r)
  }

  // ----- the operations -----

  /** `available`: the device is opened unless it is open. */
  function Available(j: Joint, openOk: bool): Joint {
    if j.flags.open then j else j.(flags := j.flags.(open := openOk))
  }

  /** The backend that is asked for: the one the processor has, SVM if it has both. */
  function BackendFor(caps: Caps): nat {
    if caps.svmSupported then BACKEND_AMD_SVM else BACKEND_INTEL_VMX
  }

  /** `init`. */
  function InitOp(j: Joint, openOk: bool, env: Env, env': Env): (Joint, int) {
    var j := Available(j, openOk);
    if j.flags.open then InitOpened(j, env, env') else (j, -1)
  }

  function InitOpened(j: Joint, env: Env, env': Env): (Joint, int) {
    var (j1, r1) := Issue(j, QueryCaps, env);
    if r1.ret != 0 || r1.caps.NoCaps? then (j1, -2) else InitWith(j1, r1.caps.caps, env')
  }

  function InitWith(j: Joint, caps: Caps, env: Env): (Joint, int) {
    if caps.svmSupported || caps.vmxSupported then InitFor(j, BackendFor(caps), env) else (j, -3)
  }

  function InitFor(j: Joint, flags: nat, env: Env): (Joint, int) {
    var (j', r) := Issue(j, InitBackend(flags), env);
    if r.ret != 0 then (j', -4) else (j'.(flags := j'.flags.(initialized := true)), 0)
  }

  /** `setup_guest`. */
  function SetupOp(j: Joint, env: Env, env': Env): (Joint, int) {
    if j.flags.open && j.flags.initialized then SetupInitialized(j, env, env') else (j, -1)
  }

  function SetupInitialized(j: Joint, env: Env, env': Env): (Joint, int) {
    var (j1, r1) := Issue(j, QueryCaps, env);
    if r1.ret != 0 || r1.caps.NoCaps? then (j1, -2) else SetupWith(j1, r1.caps.caps, env')
  }

  function SetupWith(j: Joint, caps: Caps, env: Env): (Joint, int) {
    SetupFor(j, BackendFor(caps), env)
  }

  function SetupFor(j: Joint, flags: nat, env: Env): (Joint, int) {
    var (j', r) := Issue(j, CreateVm(flags, GUEST_SIZE), env);
    if r.ret != 0 then (j', -3) else (j'.(flags := j'.flags.(configured := true)), 0)
  }

  /** `launch`; `enabled` is what the environment variables say. */
  function LaunchOp(j: Joint, enabled: bool, env: Env): (Joint, int) {
    if !j.flags.open || !j.flags.configured then (j, -1)
    else
      var (j1, r) := Issue(j, Run(if enabled then 1 else 0), env);
      if r.ret == 0 then (j1, 0)
      else (j1, if r.run.RunCopy? && r.run.run.status != 0 then r.run.run.status else -2)
  }

  /** What `status` reports of the hardware. */
  datatype Status = Status(available: bool, supported: bool, validated: bool)

  /** `status`. */
  function StatusOp(j: Joint, env: Env): (Joint, Status) {
    if !j.flags.open then (j, Status(false, false, false))
    else
      var (j1, r) := Issue(j, QueryCaps, env);
      if r.ret != 0 || r.caps.NoCaps? then (j1, Status(true, false, false))
      else
        var caps := r.caps.caps;
        (j1, Status(caps.driverLoaded, caps.svmSupported || caps.vmxSupported, caps.lastVmexitValid))
  }

  /** `shutdown`. */
  function ShutdownOp(j: Joint, env: Env): Joint {
    var j1 := if j.flags.open then Issue(j, DestroyVm, env).0 else j;
    j1.(flags := CLOSED)
  }

  // ----- all operations, in any order -----

  datatype Op =
    | OpAvailable(openOk: bool)
    | OpInit(openOk: bool, env: Env, env': Env)
    | OpSetup(env: Env, env': Env)
    | OpLaunch(enabled: bool, env: Env)
    | OpStatus(env: Env)
    | OpShutdown(env: Env)

  function Do(j: Joint, op: Op): Joint {
    match op
    case OpAvailable(openOk) => Available(j, openOk)
    case OpInit(openOk, e, e') => InitOp(j, openOk, e, e').0
    case OpSetup(e, e') => SetupOp(j, e, e').0
    case OpLaunch(enabled, e) => LaunchOp(j, enabled, e).0
    case OpStatus(e) => StatusOp(j, e).0
    case OpShutdown(e) => ShutdownOp(j, e)
  }

  /** The allocator's answers during the operation are possible ones. A query allocates nothing, so
      what is possible after it is what was possible before. */
  predicate PossibleOp(j: Joint, op: Op) {
    match op
    case OpAvailable(_) => true
    case OpInit(_, e, e') => Possible(j.driver, e) && Possible(j.driver, e')
    case OpSetup(e, e') => Possible(j.driver, e) && Possible(j.driver, e')
    case OpLaunch(_, e) => Possible(j.driver, e)
    case OpStatus(e) => Possible(j.driver, e)
    case OpShutdown(e) => Possible(j.driver, e)
  }

  function After(cpu: Cpu, base: Machine, allow: bool, ops: seq<Op>): Joint {
    if ops == [] then Joint(CLOSED, Loaded(cpu, base, allow), [])
    else
      var j, op := After(cpu, base, allow, ops[..|ops| - 1]), ops[|ops| - 1];
      if PossibleOp(j, op) then Do(j, op) else j
  }

  // ----- the two sides agree -----

  /** The flags of the backend are those of the driver's context; a configured backend is
      initialized, and an initialized one has the device open. */
  ghost predicate Agree(j: Joint, base: Machine) {
    && Inv(j.driver.sys, base)
    && (j.flags.initialized <==> j.driver.sys.svm.initialized)
    && (j.flags.configured <==> j.driver.sys.svm.vmCreated)
    && (j.flags.configured ==> j.flags.initialized)
    && (j.flags.initialized ==> j.flags.open)
  }

  lemma QueryAgrees(j: Joint, base: Machine, env: Env)
    requires Agree(j, base)
    ensures var j' := Issue(j, QueryCaps, env).0;
            Agree(j', base) && j'.flags == j.flags && j'.driver.sys == j.driver.sys
  {
  }

  lemma InitForAgrees(j: Joint, base: Machine, flags: nat, env: Env)
    requires Agree(j, base) && j.flags.open && Possible(j.driver, env)
    ensures Agree(InitFor(j, flags, env).0, base)
  {
    InitKeepsInv(j.driver.sys, base, j.driver.cpu.svm, env.vmCr, env.first);
  }

  lemma SetupForAgrees(j: Joint, base: Machine, flags: nat, env: Env)
    requires Agree(j, base) && j.flags.initialized && Possible(j.driver, env)
    ensures Agree(SetupFor(j, flags, env).0, base)
  {
    CreateKeepsInv(j.driver.sys, base, GUEST_SIZE, env.first, env.second);
  }

  lemma InitAgrees(j: Joint, base: Machine, openOk: bool, env: Env, env': Env)
    requires Agree(j, base) && PossibleOp(j, OpInit(openOk, env, env'))
    ensures Agree(InitOp(j, openOk, env, env').0, base)
  {
    var a := Available(j, openOk);
    QueryAgrees(a, base, env);
    var (b, r) := Issue(a, QueryCaps, env);
    if a.flags.open && r.caps.CapsCopy? {
      InitForAgrees(b, base, BackendFor(r.caps.caps), env');
    }
  }

  lemma SetupAgrees(j: Joint, base: Machine, env: Env, env': Env)
    requires Agree(j, base) && PossibleOp(j, OpSetup(env, env'))
    ensures Agree(SetupOp(j, env, env').0, base)
  {
    QueryAgrees(j, base, env);
    var (b, r) := Issue(j, QueryCaps, env);
    if j.flags.initialized && r.caps.CapsCopy? {
      SetupForAgrees(b, base, BackendFor(r.caps.caps), env');
    }
  }

  lemma LaunchAgrees(j: Joint, base: Machine, enabled: bool, env: Env)
    requires Agree(j, base)
    ensures Agree(LaunchOp(j, enabled, env).0, base)
  {
    RunKeepsInv(j.driver.sys, base, if enabled then 1 else 0, env.allowGate, env.exit);
  }

  /** Shutting down from any state in which the two agree closes the backend and gives the machine
      back as it was before the driver touched it. */
  lemma ShutdownRestores(j: Joint, base: Machine, env: Env)
    requires Agree(j, base)
    ensures ShutdownOp(j, env).flags == CLOSED
    ensures ShutdownOp(j, env).driver.sys == System(ZERO_SVM, base)
    ensures Agree(ShutdownOp(j, env), base)
  {
    DestroyRestores(j.driver.sys, base);
    if !j.flags.open {
      assert !j.driver.sys.svm.initialized && j.driver.sys.machine.pages.Keys == base.pages.Keys;
      assert j.driver.sys.machine.pages == base.pages;
    }
  }

  lemma DoAgrees(j: Joint, base: Machine, op: Op)
    requires Agree(j, base) && PossibleOp(j, op)
    ensures Agree(Do(j, op), base)
  {
    match op
    case OpAvailable(_) =>
    case OpInit(openOk, e, e') => InitAgrees(j, base, openOk, e, e');
    case OpSetup(e, e') => SetupAgrees(j, base, e, e');
    case OpLaunch(enabled, e) => LaunchAgrees(j, base, enabled, e);
    case OpStatus(e) =>
    case OpShutdown(e) => ShutdownRestores(j, base, e);
  }

  lemma {:induction false} AlwaysAgree(cpu: Cpu, base: Machine, allow: bool, ops: seq<Op>)
    requires 0 !in base.pages
    ensures Agree(After(cpu, base, allow, ops), base)
  {
    if ops != [] {
      AlwaysAgree(cpu, base, allow, ops[..|ops| - 1]);
      var j := After(cpu, base, allow, ops[..|ops| - 1]);
      if PossibleOp(j, ops[|ops| - 1]) {
        DoAgrees(j, base, ops[|ops| - 1]);
      }
    }
  }
}
