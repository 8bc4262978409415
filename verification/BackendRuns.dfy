/** What holds of the backend and the driver together over every sequence of backend operations. */
module BackendRuns {
  import opened SvmContext
  import opened Ioctl
  import opened DriverRuns
  import opened Backend

  /** The driver is where the calls issued so far bring it. */
  ghost predicate Faithful(start: Ioctl.Driver, j: Joint) {
    Play(start, j.calls).driver == j.driver
  }

  /** The driver events of those calls. */
  function History(start: Ioctl.Driver, j: Joint): seq<Event> {
    Play(start, j.calls).history
  }

  lemma IssueReplays(start: Ioctl.Driver, j: Joint, q: Request, env: Env)
    requires Faithful(start, j) && Possible(j.driver, env)
    ensures Faithful(start, Issue(j, q, env).0)
    ensures History(start, Issue(j, q, env).0) == History(start, j) + Events(j.driver, Entry(q, env))
  {
    var calls := j.calls + [Entry(q, env)];
    assert calls[..|calls| - 1] == j.calls && calls[|calls| - 1] == Entry(q, env);
  }

  /** The operation brings j to j', by calls that are replayed like all others. It adds a VMRUN only
      as a launch by a configured backend with the hardware enabled, and then nothing else, and it
      destroys the context only as a shutdown. */
  ghost predicate Advances(start: Ioctl.Driver, j: Joint, op: Op, j': Joint) {
    && Faithful(start, j')
    && History(start, j) <= History(start, j')
    && forall k | |History(start, j)| <= k < |History(start, j')| ::
         AddedBy(History(start, j')[k], j.flags, op) && (op.OpLaunch? ==> k == |History(start, j)|)
  }

  predicate AddedBy(v: Event, flags: Flags, op: Op) {
    match v
    case Vmrun(_, _, _, _) => op.OpLaunch? && op.enabled && flags == Flags(true, true, true)
    case Destroyed => op.OpShutdown?
    case Prepared(_, _) => op.OpSetup?
  }

  lemma DoReplays(start: Ioctl.Driver, j: Joint, base: Machine, op: Op)
    requires Faithful(start, j) && Agree(j, base) && PossibleOp(j, op)
    ensures Advances(start, j, op, Do(j, op))
  {
    match op
    case OpAvailable(_) =>
    case OpInit(openOk, e, e') => InitReplays(start, j, openOk, e, e');
    case OpSetup(e, e') => SetupReplays(start, j, e, e');
    case OpLaunch(enabled, e) => LaunchReplays(start, j, base, enabled, e);
    case OpStatus(e) => QueryReplays(start, j, e);
    case OpShutdown(e) => ShutdownReplays(start, j, e);
  }

  lemma QueryReplays(start: Ioctl.Driver, j: Joint, env: Env)
    requires Faithful(start, j) && Possible(j.driver, env)
    ensures var j' := Issue(j, QueryCaps, env).0;
            Faithful(start, j') && History(start, j') == History(start, j) && j'.driver.sys == j.driver.sys
  {
    IssueReplays(start, j, QueryCaps, env);
  }

  lemma InitForReplays(start: Ioctl.Driver, j: Joint, flags: nat, env: Env)
    requires Faithful(start, j) && Possible(j.driver, env)
    ensures Faithful(start, InitFor(j, flags, env).0)
    ensures History(start, InitFor(j, flags, env).0) == History(start, j)
  {
    IssueReplays(start, j, InitBackend(flags), env);
  }

  lemma SetupForReplays(start: Ioctl.Driver, j: Joint, flags: nat, env: Env)
    requires Faithful(start, j) && Possible(j.driver, env)
    ensures Faithful(start, SetupFor(j, flags, env).0)
    ensures var h, h' := History(start, j), History(start, SetupFor(j, flags, env).0);
            h' == h || exists v: Event :: v.Prepared? && h' == h + [v]
  {
    IssueReplays(start, j, CreateVm(flags, GUEST_SIZE), env);
  }

  lemma InitReplays(start: Ioctl.Driver, j: Joint, openOk: bool, env: Env, env': Env)
    requires Faithful(start, j) && PossibleOp(j, OpInit(openOk, env, env'))
    ensures Advances(start, j, OpInit(openOk, env, env'), InitOp(j, openOk, env, env').0)
  {
    OpenedReplays(start, Available(j, openOk), env, env');
  }

  lemma OpenedReplays(start: Ioctl.Driver, j: Joint, env: Env, env': Env)
    requires Faithful(start, j) && Possible(j.driver, env) && Possible(j.driver, env')
    ensures Faithful(start, InitOpened(j, env, env').0)
    ensures History(start, InitOpened(j, env, env').0) == History(start, j)
  {
    QueryReplays(start, j, env);
    var (b, r) := Issue(j, QueryCaps, env);
    if r.caps.CapsCopy? {
      InitForReplays(start, b, BackendFor(r.caps.caps), env');
    }
  }

  lemma SetupReplays(start: Ioctl.Driver, j: Joint, env: Env, env': Env)
    requires Faithful(start, j) && PossibleOp(j, OpSetup(env, env'))
    ensures Advances(start, j, OpSetup(env, env'), SetupOp(j, env, env').0)
  {
    QueryReplays(start, j, env);
    var (b, r) := Issue(j, QueryCaps, env);
    if r.caps.CapsCopy? {
      SetupForReplays(start, b, BackendFor(r.caps.caps), env');
    }
  }

  lemma LaunchReplays(start: Ioctl.Driver, j: Joint, base: Machine, enabled: bool, env: Env)
    requires Faithful(start, j) && Agree(j, base) && Possible(j.driver, env)
    ensures Advances(start, j, OpLaunch(enabled, env), LaunchOp(j, enabled, env).0)
  {
    RunReplays(start, j, if enabled then 1 else 0, env);
  }

  lemma RunReplays(start: Ioctl.Driver, j: Joint, flags: nat, env: Env)
    requires Faithful(start, j) && Possible(j.driver, env)
    ensures var j' := Issue(j, Run(flags), env).0;
            && Faithful(start, j')
            && (History(start, j') == History(start, j)
                || (flags % 2 == 1 && exists v: Event :: v.Vmrun? && History(start, j') == History(start, j) + [v]))
  {
    IssueReplays(start, j, Run(flags), env);
  }

  lemma ShutdownReplays(start: Ioctl.Driver, j: Joint, env: Env)
    requires Faithful(start, j) && Possible(j.driver, env)
    ensures Advances(start, j, OpShutdown(env), ShutdownOp(j, env))
  {
    IssueReplays(start, j, DestroyVm, env);
  }

  /** So every theorem about driver runs applies to the driver as the backend uses it. */
  lemma {:induction false} AlwaysFaithful(cpu: Cpu, base: Machine, allow: bool, ops: seq<Op>)
    requires 0 !in base.pages
    ensures Faithful(Loaded(cpu, base, allow), After(cpu, base, allow, ops))
  {
    if ops != [] {
      var before := ops[..|ops| - 1];
      AlwaysFaithful(cpu, base, allow, before);
      AlwaysAgree(cpu, base, allow, before);
      var j := After(cpu, base, allow, before);
      if PossibleOp(j, ops[|ops| - 1]) {
        DoReplays(Loaded(cpu, base, allow), j, base, ops[|ops| - 1]);
      }
    }
  }

  function HistoryOf(cpu: Cpu, base: Machine, allow: bool, ops: seq<Op>): seq<Event> {
    History(Loaded(cpu, base, allow), After(cpu, base, allow, ops))
  }

  /** What the last operation of a run adds to the history. */
  lemma LastOpAdds(cpu: Cpu, base: Machine, allow: bool, before: seq<Op>, op: Op)
    requires 0 !in base.pages
    ensures var h, h' := HistoryOf(cpu, base, allow, before), HistoryOf(cpu, base, allow, before + [op]);
            && h <= h'
            && forall k | |h| <= k < |h'| && h'[k].Vmrun? ::
                 && op.OpLaunch? && op.enabled && k == |h|
                 && After(cpu, base, allow, before).flags == Flags(true, true, true)
  {
    assert (before + [op])[..|before|] == before;
    var j := After(cpu, base, allow, before);
    AlwaysAgree(cpu, base, allow, before);
    AlwaysFaithful(cpu, base, allow, before);
    if PossibleOp(j, op) {
      DoReplays(Loaded(cpu, base, allow), j, base, op);
    }
  }

  lemma {:induction false} LaunchOf(cpu: Cpu, base: Machine, allow: bool, ops: seq<Op>, k: nat) returns (i: nat)
    requires 0 !in base.pages
    requires k < |HistoryOf(cpu, base, allow, ops)| && HistoryOf(cpu, base, allow, ops)[k].Vmrun?
    ensures i < |ops| && ops[i].OpLaunch? && ops[i].enabled
    ensures After(cpu, base, allow, ops[..i]).flags == Flags(true, true, true)
    ensures |HistoryOf(cpu, base, allow, ops[..i])| == k
  {
    assert ops != [];
    var before := ops[..|ops| - 1];
    assert before + [ops[|ops| - 1]] == ops;
    LastOpAdds(cpu, base, allow, before, ops[|ops| - 1]);
    if k < |HistoryOf(cpu, base, allow, before)| {
      i := LaunchOf(cpu, base, allow, before, k);
      assert before[..i] == ops[..i];
    } else {
      i := |ops| - 1;
    }
  }

  /** Every VMRUN was executed by one launch of a fully configured backend with the hardware
      enabled, and then only on an initialized driver, with the module parameter set and the privilege
      requested, on a control block that was prepared by event p, has not been destroyed since, and is
      as it was prepared or as the VMRUN before left it. */
  lemma VmrunComesFromLaunch(cpu: Cpu, base: Machine, allow: bool, ops: seq<Op>, k: nat) returns (i: nat, p: nat)
    requires 0 !in base.pages
    requires k < |HistoryOf(cpu, base, allow, ops)| && HistoryOf(cpu, base, allow, ops)[k].Vmrun?
    ensures i < |ops| && ops[i].OpLaunch? && ops[i].enabled
    ensures After(cpu, base, allow, ops[..i]).flags == Flags(true, true, true)
    ensures |HistoryOf(cpu, base, allow, ops[..i])| == k
    ensures Proper(HistoryOf(cpu, base, allow, ops)[k].gate)
    ensures RunsPrepared(HistoryOf(cpu, base, allow, ops), p, k)
  {
    i := LaunchOf(cpu, base, allow, ops, k);
    p := VmrunIsGated(cpu, base, allow, After(cpu, base, allow, ops).calls, k);
  }

  /** The status says that the hardware was validated exactly if the device is open, the answer
      arrives, and the last VMRUN since the context was last destroyed returned a nonzero code. */
  lemma ValidatedIffNonzeroExit(cpu: Cpu, base: Machine, allow: bool, ops: seq<Op>, env: Env)
    requires 0 !in base.pages
    ensures var j := After(cpu, base, allow, ops);
            StatusOp(j, env).1.validated <==>
              j.flags.open && !env.copyOutFaults && LastExit(HistoryOf(cpu, base, allow, ops)) != 0
  {
    AlwaysFaithful(cpu, base, allow, ops);
    ReachableRemembers(cpu, base, allow, After(cpu, base, allow, ops).calls);
  }

  /** In particular some launch with the hardware enabled executed that VMRUN, and no shutdown has
      destroyed the context since. */
  lemma ValidatedMeansLaunched(cpu: Cpu, base: Machine, allow: bool, ops: seq<Op>, env: Env) returns (i: nat, k: nat)
    requires 0 !in base.pages && StatusOp(After(cpu, base, allow, ops), env).1.validated
    ensures i < |ops| && ops[i].OpLaunch? && ops[i].enabled
    ensures After(cpu, base, allow, ops[..i]).flags == Flags(true, true, true)
    ensures var h := HistoryOf(cpu, base, allow, ops);
            && |HistoryOf(cpu, base, allow, ops[..i])| == k < |h|
            && h[k].Vmrun? && h[k].left.exit.code != 0 && Proper(h[k].gate)
            && forall n | k < n < |h| :: !h[n].Destroyed?
  {
    ValidatedIffNonzeroExit(cpu, base, allow, ops, env);
    k := LastExitWitness(HistoryOf(cpu, base, allow, ops));
    var p;
    i, p := VmrunComesFromLaunch(cpu, base, allow, ops, k);
  }

  /** Shutting down after any operations closes the backend and restores every page and register. */
  lemma ShutdownAfterAnyRun(cpu: Cpu, base: Machine, allow: bool, ops: seq<Op>, env: Env)
    requires 0 !in base.pages
    ensures var j := ShutdownOp(After(cpu, base, allow, ops), env);
            j.flags == CLOSED && j.driver.sys == System(ZERO_SVM, base)
  {
    AlwaysAgree(cpu, base, allow, ops);
    ShutdownRestores(After(cpu, base, allow, ops), base, env);
  }

  // ----- what the operations report, in terms of what they depend on -----

  predicate InitSucceeds(j: Joint, openOk: bool, env: Env, env': Env) {
    && (j.flags.open || openOk) && !env.copyOutFaults && j.driver.cpu.svm && !env'.copyInFaults
    && !SvmDisabled(env'.vmCr) && (j.driver.sys.svm.initialized || env'.first.Granted?)
  }

  /** The driver can create a machine, once it is initialized. */
  predicate Creatable(j: Joint, env: Env, env': Env) {
    && !env.copyOutFaults && j.driver.cpu.svm && !env'.copyInFaults
    && (j.driver.sys.svm.vmCreated || (env'.first.Granted? && env'.second.Granted?))
  }

  /** The launch enters the guest. */
  predicate LaunchEnters(j: Joint, enabled: bool, env: Env) {
    j.flags.configured && !env.copyInFaults && enabled && env.allowGate
  }

  /** Everything but the context's flags and pages is as before. */
  predicate OnlyContext(j: Joint, j': Joint) {
    j'.driver.cpu == j.driver.cpu && j'.driver.sys.svm.exit == j.driver.sys.svm.exit
  }

  lemma QueryReports(j: Joint, env: Env)
    ensures var (j', r) := Issue(j, QueryCaps, env);
            && j'.flags == j.flags && j'.driver.cpu == j.driver.cpu && j'.driver.sys == j.driver.sys
            && (r.ret == 0 <==> !env.copyOutFaults) && (r.caps.CapsCopy? <==> r.ret == 0)
            && (r.ret == 0 ==>
                  && r.caps.caps.svmSupported == j.driver.cpu.svm
                  && r.caps.caps.vmxSupported == j.driver.cpu.vmx)
  {
  }

  lemma InitForReports(j: Joint, flags: nat, env: Env)
    ensures var (j', r) := InitFor(j, flags, env);
            && OnlyContext(j, j') && j'.driver.sys.svm.vmCreated == j.driver.sys.svm.vmCreated
            && r == (if flags % 2 == 1 && !env.copyInFaults && j.driver.cpu.svm && !SvmDisabled(env.vmCr)
                        && (j.driver.sys.svm.initialized || env.first.Granted?) then 0 else -4)
            && j'.flags == if r == 0 then j.flags.(initialized := true) else j.flags
  {
  }

  /** What `init` returns. */
  lemma InitReports(j: Joint, openOk: bool, env: Env, env': Env)
    ensures var (j', code) := InitOp(j, openOk, env, env');
            && OnlyContext(j, j') && j'.driver.sys.svm.vmCreated == j.driver.sys.svm.vmCreated
            && code == (if !j.flags.open && !openOk then -1
                        else if env.copyOutFaults then -2
                        else if !j.driver.cpu.svm && !j.driver.cpu.vmx then -3
                        else if InitSucceeds(j, openOk, env, env') then 0
                        else -4)
            && (code == 0 ==> j'.flags.initialized && j'.flags.open)
  {
    var a := Available(j, openOk);
    QueryReports(a, env);
    var (b, r) := Issue(a, QueryCaps, env);
    if r.caps.CapsCopy? {
      InitForReports(b, BackendFor(r.caps.caps), env');
    }
  }

  lemma SetupForReports(j: Joint, base: Machine, flags: nat, env: Env)
    requires Agree(j, base) && j.flags.initialized && Possible(j.driver, env)
    ensures var (j', r) := SetupFor(j, flags, env);
            && OnlyContext(j, j')
            && r == (if flags % 2 == 1 && !env.copyInFaults
                        && (j.driver.sys.svm.vmCreated || (env.first.Granted? && env.second.Granted?)) then 0 else -3)
            && j'.flags == if r == 0 then j.flags.(configured := true) else j.flags
  {
    if !env.copyInFaults && flags % 2 == 1 && Create(j.driver.sys, GUEST_SIZE, env.first, env.second).1 != 0 {
      FailedCreation(j.driver.sys, base, GUEST_SIZE, env.first, env.second);
    }
  }

  /** What `setup_guest` returns. */
  lemma SetupReports(j: Joint, base: Machine, env: Env, env': Env)
    requires Agree(j, base) && PossibleOp(j, OpSetup(env, env'))
    ensures var (j', code) := SetupOp(j, env, env');
            && OnlyContext(j, j')
            && code == (if !j.flags.initialized then -1
                        else if env.copyOutFaults then -2
                        else if Creatable(j, env, env') then 0
                        else -3)
            && (code == 0 ==> j'.flags.configured)
  {
    QueryReports(j, env);
    QueryAgrees(j, base, env);
    var (b, r) := Issue(j, QueryCaps, env);
    if j.flags.initialized && r.caps.CapsCopy? {
      SetupForReports(b, base, BackendFor(r.caps.caps), env');
    }
  }

  /** When a launch reports success, which code tells what went wrong, and what exit is recorded. The
      code -1 is ambiguous: it is also EPERM. */
  lemma LaunchReports(j: Joint, base: Machine, enabled: bool, env: Env)
    requires Agree(j, base)
    ensures var code := LaunchOp(j, enabled, env).1;
            && (code == 0 <==>
                  j.flags.configured && !env.copyInFaults && !env.copyOutFaults && enabled && env.allowGate)
            && (code == -2 <==> j.flags.configured && (env.copyInFaults || env.copyOutFaults))
            && (code != 0 && code != -2 ==> code == -1)
            && LaunchOp(j, enabled, env).0.driver.sys.svm.exit
               == if LaunchEnters(j, enabled, env) then env.exit.exit else j.driver.sys.svm.exit
  {
  }
}
