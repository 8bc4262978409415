/** The part of `hypervisor_init` that brings up hardware virtualization through the kernel driver,
    and when it counts the hardware as validated.
 */
module Hypervisor {
  import opened Words
  import opened SvmContext
  import opened Ioctl
  import opened DriverRuns
  import opened Backend
  import opened BackendRuns

  /** The environment variables KERNOVA_STRICT_VMX and KERNOVA_ENABLE_HARDWARE_BACKEND. */
  datatype Settings = Settings(strict: bool, enable: bool)

  /** What each of the ioctl calls depends on, in order. */
  datatype Envs = Envs(status: Env, query: Env, init: Env, query': Env, create: Env, run: Env, last: Env)

  /** The code that is returned, and whether the hardware counts as validated. */
  datatype Outcome = Outcome(joint: Joint, code: int, validated: bool)

  /** From the selection of the kernel driver, whose device is open, on. */
  function BringUp(j: Joint, st: Settings, validated: bool, e: Envs): Outcome {
    var (j1, status) := StatusOp(j, e.status);
    Initialize(j1, st, status.available, validated, e)
  }

  function Initialize(j: Joint, st: Settings, available: bool, validated: bool, e: Envs): Outcome {
    var (j1, r) := InitOp(j, true, e.query, e.init);
    if r != 0 then Outcome(j1, if st.strict then -3 else 0, validated)
    else Setup(j1, st, available, validated, e)
  }

  function Setup(j: Joint, st: Settings, available: bool, validated: bool, e: Envs): Outcome {
    var (j1, r) := SetupOp(j, e.query', e.create);
    if r != 0 then Outcome(j1, if st.strict then -4 else 0, validated)
    else Launch(j1, st, available, validated, e)
  }

  function Launch(j: Joint, st: Settings, available: bool, validated: bool, e: Envs): Outcome {
    if st.enable && available then
      var (j1, r) := LaunchOp(j, st.enable || st.strict, e.run);
      if r != 0 && st.strict then Outcome(j1, -5, validated) else Conclude(j1, e.last)
    else Conclude(j, e.last)
  }

  function Conclude(j: Joint, env: Env): Outcome {
    var (j1, status) := StatusOp(j, env);
    Outcome(j1, 0, status.validated)
  }

  /** The allocator's answers are possible ones. */
  predicate PossibleBringUp(j: Joint, e: Envs) {
    PossibleOp(j, OpStatus(e.status)) && PossibleInitialize(StatusOp(j, e.status).0, e)
  }

  predicate PossibleInitialize(j: Joint, e: Envs) {
    PossibleOp(j, OpInit(true, e.query, e.init)) && PossibleSetup(InitOp(j, true, e.query, e.init).0, e)
  }

  predicate PossibleSetup(j: Joint, e: Envs) {
    PossibleOp(j, OpSetup(e.query', e.create)) && PossibleLaunch(SetupOp(j, e.query', e.create).0, e)
  }

  predicate PossibleLaunch(j: Joint, e: Envs) {
    && PossibleOp(j, OpLaunch(true, e.run)) && PossibleOp(j, OpStatus(e.last))
    && PossibleOp(LaunchOp(j, true, e.run).0, OpStatus(e.last))
  }

  // ----- what a bring-up decides -----

  /** A strict launch that is attempted and not reported as a success ends the bring-up. */
  predicate LaunchGivesUp(st: Settings, available: bool, e: Envs) {
    && st.strict && st.enable && available
    && !(e.run.allowGate && !e.run.copyInFaults && !e.run.copyOutFaults)
  }

  /** The bring-up ends before it asks whether the hardware was validated. */
  predicate EndsEarly(j: Joint, st: Settings, e: Envs) {
    || !InitSucceeds(j, true, e.query, e.init) || !Creatable(j, e.query', e.create)
    || LaunchGivesUp(st, j.flags.open, e)
  }

  /** The exit code that is recorded when the question is asked. */
  function ExitAtEnd(j: Joint, st: Settings, available: bool, e: Envs): Word {
    if st.enable && available && e.run.allowGate && !e.run.copyInFaults then e.run.exit.exit.code
    else j.driver.sys.svm.exit.code
  }

  lemma LaunchDecides(j: Joint, base: Machine, st: Settings, available: bool, v: bool, e: Envs)
    requires Agree(j, base) && j.flags.configured
    ensures var o := Launch(j, st, available, v, e);
            if LaunchGivesUp(st, available, e) then o.code == -5 && o.validated == v
            else
              && o.code == 0 && o.joint.driver.sys.svm.exit.code == ExitAtEnd(j, st, available, e)
              && (o.validated <==> ExitAtEnd(j, st, available, e) != 0 && !e.last.copyOutFaults)
  {
    LaunchReports(j, base, true, e.run);
  }

  lemma SetupDecides(j: Joint, base: Machine, st: Settings, available: bool, v: bool, e: Envs)
    requires Agree(j, base) && j.flags.initialized && PossibleSetup(j, e)
    ensures var o := Setup(j, st, available, v, e);
            if !Creatable(j, e.query', e.create) then o.code == (if st.strict then -4 else 0) && o.validated == v
            else if LaunchGivesUp(st, available, e) then o.code == -5 && o.validated == v
            else
              && o.code == 0 && o.joint.driver.sys.svm.exit.code == ExitAtEnd(j, st, available, e)
              && (o.validated <==> ExitAtEnd(j, st, available, e) != 0 && !e.last.copyOutFaults)
  {
    SetupReports(j, base, e.query', e.create);
    SetupAgrees(j, base, e.query', e.create);
    var (j1, r) := SetupOp(j, e.query', e.create);
    if r == 0 {
      LaunchDecides(j1, base, st, available, v, e);
    }
  }

  /** What `status` says about the hardware, in terms of the device, the answer, the processor and the
      context. */
  lemma StatusReports(j: Joint, env: Env)
    ensures var (j', status) := StatusOp(j, env);
            && j'.flags == j.flags && j'.driver.cpu == j.driver.cpu && j'.driver.sys == j.driver.sys
            && status.available == j.flags.open
            && (status.supported <==> j.flags.open && !env.copyOutFaults && (j.driver.cpu.svm || j.driver.cpu.vmx))
            && (status.validated <==> j.flags.open && !env.copyOutFaults && j.driver.sys.svm.exit.code != 0)
  {
  }

  /** What a bring-up returns, and when the hardware counts as validated afterwards: if the bring-up
      ends early, exactly if it did before; otherwise exactly if a nonzero exit is recorded and the
      answer arrives. */
  lemma BringUpDecides(j: Joint, base: Machine, st: Settings, v: bool, e: Envs)
    requires Agree(j, base) && PossibleBringUp(j, e)
    ensures var o := BringUp(j, st, v, e);
            && (o.validated <==>
                  if EndsEarly(j, st, e) then v else ExitAtEnd(j, st, j.flags.open, e) != 0 && !e.last.copyOutFaults)
            && (!EndsEarly(j, st, e) ==> o.joint.driver.sys.svm.exit.code == ExitAtEnd(j, st, j.flags.open, e))
            && o.code == if !EndsEarly(j, st, e) then 0
                         else if LaunchReached(j, e) then -5
                         else if !st.strict then 0
                         else if InitSucceeds(j, true, e.query, e.init) then -4
                         else -3
  {
    StatusReports(j, e.status);
    DoAgrees(j, base, OpStatus(e.status));
    var j1 := StatusOp(j, e.status).0;
    InitReports(j1, true, e.query, e.init);
    InitAgrees(j1, base, true, e.query, e.init);
    var (j2, r) := InitOp(j1, true, e.query, e.init);
    if r == 0 {
      SetupDecides(j2, base, st, j.flags.open, v, e);
    }
  }

  predicate LaunchReached(j: Joint, e: Envs) {
    InitSucceeds(j, true, e.query, e.init) && Creatable(j, e.query', e.create)
  }

  /** The flag can outlive what it stands for: after a validated bring-up and a shutdown, a second
      bring-up without strict mode whose first query faults returns 0 and leaves the flag set, although
      no exit is recorded and no machine exists. */
  lemma FlagCanBeStale(j: Joint, base: Machine, st: Settings, env: Env, e: Envs)
    requires Agree(j, base) && !st.strict && e.query.copyOutFaults
    ensures var reopened := Available(ShutdownOp(j, env), true);
            var o := BringUp(reopened, st, true, e);
            && o.code == 0 && o.validated
            && o.joint.driver.sys.svm.exit.code == 0 && !o.joint.driver.sys.svm.vmCreated
  {
    ShutdownRestores(j, base, env);
    var reopened := Available(ShutdownOp(j, env), true);
    StatusReports(reopened, e.status);
    InitReports(StatusOp(reopened, e.status).0, true, e.query, e.init);
  }
}
