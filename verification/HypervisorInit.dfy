/** The bring-up of `Hypervisor` as it runs, on the backend object of `KernelBackend`. */
module HypervisorInit {
  import opened SvmContext
  import opened Ioctl
  import opened Backend
  import opened Hypervisor
  import KernelBackend

  class HypervisorState {
    /** `hardware_virtualization_validated`. */
    var validated: bool
    const backend: KernelBackend.KernelDriverBackend

    ghost function View(): Joint
      reads backend, backend.driver, backend.driver.pages, backend.driver.regs
    {
      backend.View()
    }

    constructor (backend: KernelBackend.KernelDriverBackend)
      ensures this.backend == backend && !validated
    {
      this.backend := backend;
      validated := false;
    }

    // ----- `hypervisor_init` from the selection of the kernel driver on -----

    method Start(st: Settings, e: Envs) returns (code: int)
      requires backend.Valid() && PossibleBringUp(View(), e) && HonestExits(e)
      modifies this`validated, backend, backend.driver, backend.driver.pages, backend.driver.regs,
               backend.driver.pages.frames.Values
      ensures backend.Valid()
      ensures Outcome(View(), code, validated) == BringUp(old(View()), st, old(validated), e)
    {
      var status := backend.GetStatus(e.status);
      code := InitializeBackend(st, status.available, e);
    }

    method InitializeBackend(st: Settings, available: bool, e: Envs) returns (code: int)
      requires backend.Valid() && PossibleInitialize(View(), e) && HonestExits(e)
      modifies this`validated, backend, backend.driver, backend.driver.pages, backend.driver.regs,
               backend.driver.pages.frames.Values
      ensures backend.Valid()
      ensures Outcome(View(), code, validated) == Initialize(old(View()), st, available, old(validated), e)
    {
      var r := backend.Init(true, e.query, e.init);
      if r != 0 {
        return if st.strict then -3 else 0;
      }
      code := SetupGuest(st, available, e);
    }

    method SetupGuest(st: Settings, available: bool, e: Envs) returns (code: int)
      requires backend.Valid() && PossibleSetup(View(), e) && HonestExits(e)
      modifies this`validated, backend, backend.driver, backend.driver.pages, backend.driver.regs,
               backend.driver.pages.frames.Values
      ensures backend.Valid()
      ensures Outcome(View(), code, validated) == Setup(old(View()), st, available, old(validated), e)
    {
      var r := backend.SetupGuest(e.query', e.create);
      if r != 0 {
        return if st.strict then -4 else 0;
      }
      code := TryLaunch(st, available, e);
    }

    /** The launch, which is attempted only if it is asked for and the driver was available. */
    method TryLaunch(st: Settings, available: bool, e: Envs) returns (code: int)
      requires backend.Valid() && PossibleLaunch(View(), e) && HonestExits(e)
      modifies this`validated, backend, backend.driver, backend.driver.pages, backend.driver.regs,
               backend.driver.pages.frames.Values
      ensures backend.Valid()
      ensures Outcome(View(), code, validated) == Launch(old(View()), st, available, old(validated), e)
    {
      if st.enable && available {
        var r := backend.Launch(st.enable || st.strict, e.run);
        if r != 0 && st.strict {
          return -5;
        }
      }
      code := CheckStatus(e.last);
    }

    /** The last status decides whether the hardware counts as validated. */
    method CheckStatus(env: Env) returns (code: int)
      requires backend.Valid() && PossibleOp(View(), OpStatus(env)) && Honest(env.exit)
      modifies this`validated, backend`calls, backend.driver, backend.driver.pages, backend.driver.regs,
               backend.driver.pages.frames.Values
      ensures backend.Valid()
      ensures Outcome(View(), code, validated) == Conclude(old(View()), env)
    {
      var status := backend.GetStatus(env);
      validated := status.validated;
      code := 0;
    }
  }

  ghost predicate HonestExits(e: Envs) {
    && Honest(e.status.exit) && Honest(e.query.exit) && Honest(e.init.exit) && Honest(e.query'.exit)
    && Honest(e.create.exit) && Honest(e.run.exit) && Honest(e.last.exit)
  }
}
