/** `KernelDriverBackend` as it runs: three fields, and ioctl calls into the driver of `SvmDriver`.
    Every method is proved against the corresponding function of `Backend` and keeps the agreement of
    the two sides.
 */
module KernelBackend {
  import opened SvmContext
  import opened Ioctl
  import opened DriverRuns
  import opened Backend
  import SvmDriver

  class KernelDriverBackend {
    /** Whether the device is open, that is, fd_ is not negative. */
    var open: bool
    var initialized: bool
    var configured: bool
    const driver: SvmDriver.Driver
    /** The calls made so far, and the machine as it was before the module was loaded. */
    ghost var calls: seq<Entry>
    ghost const base: Machine

    ghost function View(): Joint
      reads this, driver, driver.pages, driver.regs
    {
      Joint(Flags(open, initialized, configured), driver.View(), calls)
    }

    ghost predicate Valid()
      reads this, driver, driver.pages, driver.pages.frames.Values, driver.regs
    {
      driver.pages.Valid() && Agree(View(), base)
    }

    /** The static object, beside a driver that was just loaded. */
    constructor (driver: SvmDriver.Driver, ghost base: Machine)
      requires driver.pages.Valid() && 0 !in base.pages && driver.Sys() == System(ZERO_SVM, base)
      ensures this.driver == driver && this.base == base && Valid() && View() == Joint(CLOSED, driver.View(), [])
    {
      this.driver, this.base := driver, base;
      open, initialized, configured, calls := false, false, false, [];
    }

    /** The ioctl system call. */
    method SendIoctl(q: Request, env: Env) returns (reply: Reply)
      requires driver.pages.Valid() && driver.Ready() && Possible(driver.View(), env) && Honest(env.exit)
      modifies this`calls, driver, driver.pages, driver.regs, driver.pages.frames.Values
      ensures driver.pages.Valid() && fresh(driver.pages.frames.Values - old(driver.pages.frames.Values))
      ensures (View(), reply) == Issue(old(View()), q, env)
    {
      reply := driver.HandleIoctl(q, env);
      calls := calls + [Entry(q, env)];
    }

    /** The query that precedes every other call. It leaves the driver as it was. */
    method Query(env: Env) returns (reply: Reply)
      requires driver.pages.Valid() && driver.Ready() && Possible(driver.View(), env) && Honest(env.exit)
      modifies this`calls, driver, driver.pages, driver.regs, driver.pages.frames.Values
      ensures driver.pages.Valid() && fresh(driver.pages.frames.Values - old(driver.pages.frames.Values))
      ensures (View(), reply) == Issue(old(View()), QueryCaps, env)
      ensures driver.Ready() && driver.Sys() == old(driver.Sys()) && (reply.ret == 0 <==> reply.caps.CapsCopy?)
    {
      reply := SendIoctl(QueryCaps, env);
    }

    method MakeAvailable(openOk: bool) returns (ok: bool)
      modifies this`open
      ensures View() == Available(old(View()), openOk) && ok == open
    {
      if open {
        return true;
      }
      open := openOk;
      ok := open;
    }

    method Init(openOk: bool, env: Env, env': Env) returns (code: int)
      requires Valid() && PossibleOp(View(), OpInit(openOk, env, env')) && Honest(env.exit) && Honest(env'.exit)
      modifies this, driver, driver.pages, driver.regs, driver.pages.frames.Values
      ensures Valid() && fresh(driver.pages.frames.Values - old(driver.pages.frames.Values))
      ensures (View(), code) == InitOp(old(View()), openOk, env, env')
    {
      InitAgrees(View(), base, openOk, env, env');
      driver.InvGivesReady(base);
      code := OpenAndInit(openOk, env, env');
    }

    method OpenAndInit(openOk: bool, env: Env, env': Env) returns (code: int)
      requires driver.pages.Valid() && driver.Ready() && Possible(driver.View(), env) && Possible(driver.View(), env')
      requires Honest(env.exit) && Honest(env'.exit)
      modifies this, driver, driver.pages, driver.regs, driver.pages.frames.Values
      ensures driver.pages.Valid() && fresh(driver.pages.frames.Values - old(driver.pages.frames.Values))
      ensures (View(), code) == InitOp(old(View()), openOk, env, env')
    {
      var ok := MakeAvailable(openOk);
      if !ok {
        return -1;
      }
      code := InitDriver(env, env');
    }

    /** `init` with the device open. */
    method InitDriver(env: Env, env': Env) returns (code: int)
      requires driver.pages.Valid() && driver.Ready() && Possible(driver.View(), env) && Possible(driver.View(), env')
      requires Honest(env.exit) && Honest(env'.exit)
      modifies this, driver, driver.pages, driver.regs, driver.pages.frames.Values
      ensures driver.pages.Valid() && fresh(driver.pages.frames.Values - old(driver.pages.frames.Values))
      ensures (View(), code) == InitOpened(old(View()), env, env')
    {
      ghost var v0 := driver.pages.frames.Values;
      var answer := Query(env);
      if answer.ret != 0 {
        return -2;
      }
      ghost var v1 := driver.pages.frames.Values;
      assert View() == Issue(old(View()), QueryCaps, env).0;
      code := InitFound(answer.caps.caps, env');
      SvmDriver.NewInStages(v0, v1, driver.pages.frames.Values);
    }

    method InitFound(caps: Caps, env: Env) returns (code: int)
      requires driver.pages.Valid() && driver.Ready() && Possible(driver.View(), env) && Honest(env.exit)
      modifies this, driver, driver.pages, driver.regs, driver.pages.frames.Values
      ensures driver.pages.Valid() && fresh(driver.pages.frames.Values - old(driver.pages.frames.Values))
      ensures (View(), code) == InitWith(old(View()), caps, env)
    {
      var flags := BACKEND_INTEL_VMX;
      if caps.svmSupported {
        flags := BACKEND_AMD_SVM;
      } else if !caps.vmxSupported {
        return -3;
      }
      code := RequestInit(flags, env);
    }

    /** The second call of `init`. */
    method RequestInit(flags: nat, env: Env) returns (code: int)
      requires driver.pages.Valid() && driver.Ready() && Possible(driver.View(), env) && Honest(env.exit)
      modifies this, driver, driver.pages, driver.regs, driver.pages.frames.Values
      ensures driver.pages.Valid() && fresh(driver.pages.frames.Values - old(driver.pages.frames.Values))
      ensures (View(), code) == InitFor(old(View()), flags, env)
    {
      var answer := SendIoctl(InitBackend(flags), env);
      if answer.ret != 0 {
        return -4;
      }
      initialized := true;
      code := 0;
    }

    method SetupGuest(env: Env, env': Env) returns (code: int)
      requires Valid() && PossibleOp(View(), OpSetup(env, env')) && Honest(env.exit) && Honest(env'.exit)
      modifies this, driver, driver.pages, driver.regs, driver.pages.frames.Values
      ensures Valid() && fresh(driver.pages.frames.Values - old(driver.pages.frames.Values))
      ensures (View(), code) == SetupOp(old(View()), env, env')
    {
      SetupAgrees(View(), base, env, env');
      driver.InvGivesReady(base);
      if !open || !initialized {
        return -1;
      }
      code := SetupDriver(env, env');
    }

    /** `setup_guest` with the backend initialized. */
    method SetupDriver(env: Env, env': Env) returns (code: int)
      requires driver.pages.Valid() && driver.Ready() && Possible(driver.View(), env) && Possible(driver.View(), env')
      requires Honest(env.exit) && Honest(env'.exit)
      modifies this, driver, driver.pages, driver.regs, driver.pages.frames.Values
      ensures driver.pages.Valid() && fresh(driver.pages.frames.Values - old(driver.pages.frames.Values))
      ensures (View(), code) == SetupInitialized(old(View()), env, env')
    {
      ghost var v0 := driver.pages.frames.Values;
      var answer := Query(env);
      if answer.ret != 0 {
        return -2;
      }
      ghost var v1 := driver.pages.frames.Values;
      assert View() == Issue(old(View()), QueryCaps, env).0;
      code := SetupFound(answer.caps.caps, env');
      SvmDriver.NewInStages(v0, v1, driver.pages.frames.Values);
    }

    method SetupFound(caps: Caps, env: Env) returns (code: int)
      requires driver.pages.Valid() && driver.Ready() && Possible(driver.View(), env) && Honest(env.exit)
      modifies this, driver, driver.pages, driver.regs, driver.pages.frames.Values
      ensures driver.pages.Valid() && fresh(driver.pages.frames.Values - old(driver.pages.frames.Values))
      ensures (View(), code) == SetupWith(old(View()), caps, env)
    {
      var flags := if caps.svmSupported then BACKEND_AMD_SVM else BACKEND_INTEL_VMX;
      code := RequestVm(flags, env);
    }

    /** The second call of `setup_guest`. */
    method RequestVm(flags: nat, env: Env) returns (code: int)
      requires driver.pages.Valid() && driver.Ready() && Possible(driver.View(), env) && Honest(env.exit)
      modifies this, driver, driver.pages, driver.regs, driver.pages.frames.Values
      ensures driver.pages.Valid() && fresh(driver.pages.frames.Values - old(driver.pages.frames.Values))
      ensures (View(), code) == SetupFor(old(View()), flags, env)
    {
      var answer := SendIoctl(CreateVm(flags, GUEST_SIZE), env);
      if answer.ret != 0 {
        return -3;
      }
      configured := true;
      code := 0;
    }

    method Launch(enabled: bool, env: Env) returns (code: int)
      requires Valid() && PossibleOp(View(), OpLaunch(enabled, env)) && Honest(env.exit)
      modifies this, driver, driver.pages, driver.regs, driver.pages.frames.Values
      ensures Valid() && fresh(driver.pages.frames.Values - old(driver.pages.frames.Values))
      ensures (View(), code) == LaunchOp(old(View()), enabled, env)
    {
      LaunchAgrees(View(), base, enabled, env);
      driver.InvGivesReady(base);
      if !open || !configured {
        return -1;
      }
      var flags := 0;
      if enabled {
        flags := 1;
      }
      var answer := SendIoctl(Run(flags), env);
      if answer.ret != 0 {
        return if answer.run.RunCopy? && answer.run.run.status != 0 then answer.run.run.status else -2;
      }
      code := 0;
    }

    method GetStatus(env: Env) returns (status: Status)
      requires Valid() && PossibleOp(View(), OpStatus(env)) && Honest(env.exit)
      modifies this`calls, driver, driver.pages, driver.regs, driver.pages.frames.Values
      ensures Valid() && fresh(driver.pages.frames.Values - old(driver.pages.frames.Values))
      ensures (View(), status) == StatusOp(old(View()), env)
    {
      DoAgrees(View(), base, OpStatus(env));
      driver.InvGivesReady(base);
      status := Status(open, false, false);
      if !open {
        return;
      }
      var answer := Query(env);
      if answer.ret != 0 {
        return;
      }
      var caps := answer.caps.caps;
      status := Status(caps.driverLoaded, caps.svmSupported || caps.vmxSupported, caps.lastVmexitValid);
    }

    method Shutdown(env: Env)
      requires Valid() && PossibleOp(View(), OpShutdown(env)) && Honest(env.exit)
      modifies this, driver, driver.pages, driver.regs, driver.pages.frames.Values
      ensures Valid() && fresh(driver.pages.frames.Values - old(driver.pages.frames.Values))
      ensures View() == ShutdownOp(old(View()), env)
    {
      ShutdownRestores(View(), base, env);
      driver.InvGivesReady(base);
      if open {
        Close(env);
      }
      ResetFlags();
    }

    method ResetFlags()
      requires driver.pages.Valid()
      modifies this`initialized, this`configured
      ensures driver.pages.Valid() && !initialized && !configured
    {
      initialized := false;
      configured := false;
    }

    method Close(env: Env)
      requires driver.pages.Valid() && driver.Ready() && Possible(driver.View(), env) && Honest(env.exit)
      modifies this, driver, driver.pages, driver.regs, driver.pages.frames.Values
      ensures driver.pages.Valid() && fresh(driver.pages.frames.Values - old(driver.pages.frames.Values))
      ensures View() == var j := Issue(old(View()), DestroyVm, env).0; j.(flags := j.flags.(open := false))
    {
      var answer := SendIoctl(DestroyVm, env);
      open := false;
    }
  }
}
