/** What holds over every sequence of ioctl calls. */
module DriverRuns {
  import opened Words
  import opened Vmcb
  import opened SvmContext
  import opened Ioctl

  /** One call of a run with everything it depended on. */
  datatype Entry = Entry(request: Request, env: Env)

  /** What a call did that matters later: it prepared a virtual machine with this control block and
      guest, executed VMRUN, or destroyed the context. Of a VMRUN it is recorded what the control block
      and the guest page held before, and what was left behind. */
  datatype Event =
    | Prepared(page: nat, guestPa: nat)
    | Vmrun(gate: Gate, entryPage: Content, guestPage: Content, left: Vmexit)
    | Destroyed

  /** The circumstances under which VMRUN was executed. */
  datatype Gate = Gate(initialized: bool, vmCreated: bool, pageLive: bool, parameter: bool, requested: bool,
                       address: nat, page: nat, guestPa: nat)

  function ContentAt(m: Machine, page: nat): Content {
    if page in m.pages then m.pages[page] else Zeroed
  }

  /** The events of a call on driver d. */
  function Events(d: Driver, e: Entry): seq<Event>
  {
    var s := d.sys;
    match e.request
    case CreateVm(flags, size) =>
      var (t, ret) := Create(s, size, e.env.first, e.env.second);
      if !e.env.copyInFaults && flags % 2 == 1 && ret == 0 then [Prepared(t.svm.vmcb, t.svm.guestPa)] else []
    case Run(flags) =>
      if !e.env.copyInFaults && Enters(s, flags, e.env.allowGate) then
        [Vmrun(Gate(s.svm.initialized, s.svm.vmCreated, s.svm.vmcb in s.machine.pages, e.env.allowGate, flags % 2 == 1,
                    s.svm.vmcbPa, s.svm.vmcb, s.svm.guestPa),
               ContentAt(s.machine, s.svm.vmcb), ContentAt(s.machine, s.svm.guest), e.env.exit)]
      else []
    case DestroyVm => [Destroyed]
    case _ => []
  }

  /** The driver and its history after some calls. */
  datatype Story = Story(driver: Driver, history: seq<Event>)

  /** A run of calls. An entry whose allocator answers are impossible when it comes is no call. */
  function Play(start: Driver, run: seq<Entry>): Story {
    if run == [] then Story(start, [])
    else
      var s, e := Play(start, run[..|run| - 1]), run[|run| - 1];
      if Possible(s.driver, e.env) then
        Story(Call(s.driver, e.request, e.env).0, s.history + Events(s.driver, e))
      else s
  }

  lemma PlayExtends(start: Driver, run: seq<Entry>, e: Entry)
    ensures var s := Play(start, run);
            Play(start, run + [e]) == if Possible(s.driver, e.env)
                                      then Story(Call(s.driver, e.request, e.env).0, s.history + Events(s.driver, e))
                                      else s
  {
    assert (run + [e])[..|run|] == run;
  }

  // ----- the context, the pages and the registers -----

  lemma CallKeepsInv(d: Driver, q: Request, env: Env, base: Machine)
    requires Inv(d.sys, base) && Possible(d, env)
    ensures Inv(Call(d, q, env).0.sys, base)
  {
    match q
    case InitBackend(flags) => InitKeepsInv(d.sys, base, d.cpu.svm, env.vmCr, env.first);
    case CreateVm(flags, size) => CreateKeepsInv(d.sys, base, size, env.first, env.second);
    case Run(flags) => RunKeepsInv(d.sys, base, flags, env.allowGate, env.exit);
    case DestroyVm => DestroyRestores(d.sys, base);
    case _ =>
  }

  /** After every run the flags and pointers of the context agree, the allocated pages are exactly
      those of the base machine and the distinct pages held, and the registers are the saved values
      with SVM enabled, or untouched. */
  lemma {:induction false} ReachableInv(cpu: Cpu, base: Machine, allow: bool, run: seq<Entry>)
    requires 0 !in base.pages
    ensures Inv(Play(Loaded(cpu, base, allow), run).driver.sys, base)
  {
    if run != [] {
      ReachableInv(cpu, base, allow, run[..|run| - 1]);
      var d, e := Play(Loaded(cpu, base, allow), run[..|run| - 1]).driver, run[|run| - 1];
      if Possible(d, e.env) {
        CallKeepsInv(d, e.request, e.env, base);
      }
    }
  }

  /** Destroying after any run gives back every page and both registers as they were before the
      module was loaded; destroying again changes nothing. */
  lemma DestroyAfterAnyRun(cpu: Cpu, base: Machine, allow: bool, run: seq<Entry>, env: Env)
    requires 0 !in base.pages
    ensures var d := Play(Loaded(cpu, base, allow), run).driver;
            && Call(d, DestroyVm, env).0.sys == System(ZERO_SVM, base)
            && Call(Call(d, DestroyVm, env).0, DestroyVm, env).0 == Call(d, DestroyVm, env).0
  {
    ReachableInv(cpu, base, allow, run);
    DestroyRestores(Play(Loaded(cpu, base, allow), run).driver.sys, base);
  }

  /** CREATE_VM takes a page for the control block, finds none for the guest, and gives the first one
      back; its physical address stays in the context. */
  predicate LeavesStaleAddress(d: Driver, q: Request, env: Env) {
    && q.CreateVm? && !env.copyInFaults && q.flags % 2 == 1 && q.guestSize <= PAGE_SIZE
    && d.sys.svm.initialized && !d.sys.svm.vmCreated
    && env.first.Granted? && env.second.Denied? && Phys(env.first.page) != d.sys.svm.vmcbPa
  }

  /** A call other than RUN_VM that fails leaves pages, registers and context exactly as they were,
      unless it leaves a stale address; then that is all it leaves. */
  lemma FailureLeavesNoTraceIff(d: Driver, q: Request, env: Env, base: Machine)
    requires Inv(d.sys, base) && Possible(d, env) && !q.Run? && Call(d, q, env).1.ret != 0
    ensures Call(d, q, env).0.sys != d.sys <==> LeavesStaleAddress(d, q, env)
    ensures LeavesStaleAddress(d, q, env) ==>
              && Call(d, q, env).1.ret == ENOMEM
              && Call(d, q, env).0.sys == System(d.sys.svm.(vmcbPa := Phys(env.first.page)), d.sys.machine)
  {
    if q.CreateVm? && !env.copyInFaults && q.flags % 2 == 1 {
      FailedCreation(d.sys, base, q.guestSize, env.first, env.second);
    }
  }

  lemma FailedCreation(s: System, base: Machine, size: nat, g: Grant, h: Grant)
    requires Inv(s, base) && Grantable(g, s.machine) && Create(s, size, g, h).1 != 0
    ensures var t := Create(s, size, g, h).0;
            t == if s.svm.initialized && size <= PAGE_SIZE && !s.svm.vmCreated && g.Granted? && h.Denied?
                 then System(s.svm.(vmcbPa := Phys(g.page)), s.machine) else s
  {
    if s.svm.initialized && size <= PAGE_SIZE && g.Granted? {
      assert s.machine.pages[g.page := Zeroed] - {g.page} == s.machine.pages;
    }
  }

  /** RUN_VM fails although the guest has run exactly if the answer cannot be copied out; without
      running the guest it changes nothing. */
  lemma FailedRunIff(d: Driver, flags: nat, env: Env)
    ensures var (d', r) := Call(d, Run(flags), env);
            && (Events(d, Entry(Run(flags), env)) != [] && r.ret != 0 <==>
                  Enters(d.sys, flags, env.allowGate) && !env.copyInFaults && env.copyOutFaults)
            && (Events(d, Entry(Run(flags), env)) == [] ==> d'.sys == d.sys && r.ret != 0)
  {
  }

  /** A run that leaves a stale address: pages 1 and 2 are granted for the host save area and the
      control block, and none for the guest. The machine is as after INIT_BACKEND, the context has the
      address of a page that is free. */
  lemma StaleAddressExample(cpu: Cpu, env: Env)
    requires cpu.svm && !env.copyInFaults && env.vmCr == 0
    ensures var start := Loaded(cpu, Machine(0, 0, map[]), false);
            var initialize := Entry(InitBackend(1), env.(first := Granted(1), second := Denied));
            var create := Entry(CreateVm(1, 4096), env.(first := Granted(2), second := Denied));
            var s, t := Play(start, [initialize]).driver, Play(start, [initialize, create]).driver;
            && s.sys.svm.initialized && Call(s, create.request, create.env).1.ret == ENOMEM
            && t.sys.machine == s.sys.machine && s.sys.svm.vmcbPa == 0
            && t.sys.svm.vmcb == 0 && t.sys.svm.vmcbPa == Phys(2) && 2 !in t.sys.machine.pages
  {
    var start := Loaded(cpu, Machine(0, 0, map[]), false);
    var initialize := Entry(InitBackend(1), env.(first := Granted(1), second := Denied));
    var create := Entry(CreateVm(1, 4096), env.(first := Granted(2), second := Denied));
    assert !SvmDisabled(0);
    PlayExtends(start, [], initialize);
    assert [] + [initialize] == [initialize];
    PlayExtends(start, [initialize], create);
    assert [initialize] + [create] == [initialize, create];
    var s := Play(start, [initialize]).driver;
    assert s.sys.machine.pages == map[1 := Zeroed];
    InitKeepsInv(start.sys, start.sys.machine, true, 0, Granted(1));
    FailedCreation(s.sys, Machine(0, 0, map[]), 4096, Granted(2), Denied);
  }

  /** Creating a machine again takes no pages: the two that are held are prepared anew. */
  lemma CreationReusesPages(s: System, base: Machine, size: nat, g: Grant, h: Grant)
    requires Inv(s, base) && s.svm.vmCreated && size <= PAGE_SIZE
    ensures var (t, ret) := Create(s, size, g, h);
            && ret == 0 && t.svm == s.svm && t.machine.pages.Keys == s.machine.pages.Keys
            && ContentAt(t.machine, s.svm.vmcb) == ControlBlock(s.svm.guestPa)
            && ContentAt(t.machine, s.svm.guest) == GuestCode
            && forall p | p in s.machine.pages && p != s.svm.vmcb && p != s.svm.guest ::
                 t.machine.pages[p] == s.machine.pages[p]
  {
  }

  // ----- the capabilities -----

  /** The module parameter as the last refresh of the call saw it: the second one, if the request
      could be copied in, else the first. */
  function LastSample(q: Request, env: Env): bool {
    match q
    case DestroyVm => env.allowLast
    case InitBackend(_) => if env.copyInFaults then env.allowFirst else env.allowLast
    case CreateVm(_, _) => if env.copyInFaults then env.allowFirst else env.allowLast
    case Run(_) => if env.copyInFaults then env.allowFirst else env.allowLast
    case _ => env.allowFirst
  }

  /** After every call with the right magic, whether it succeeded, failed or faulted, the snapshot
      says what the context is now. */
  lemma CapsAgreeAfterCall(d: Driver, q: Request, env: Env)
    requires !q.WrongMagic?
    ensures var d' := Call(d, q, env).0;
            d'.cpu == d.cpu && d'.caps == CapsOf(d.cpu, d'.sys.svm, LastSample(q, env))
  {
  }

  /** So after every run its state and flags are those of the context, and none is stale. */
  lemma {:induction false} CapsNeverStale(cpu: Cpu, base: Machine, allow: bool, run: seq<Entry>)
    ensures var d := Play(Loaded(cpu, base, allow), run).driver;
            d.cpu == cpu && d.caps == CapsOf(cpu, d.sys.svm, d.caps.vmrunEnabled)
  {
    if run != [] {
      CapsNeverStale(cpu, base, allow, run[..|run| - 1]);
      var d, e := Play(Loaded(cpu, base, allow), run[..|run| - 1]).driver, run[|run| - 1];
      if Possible(d, e.env) && !e.request.WrongMagic? {
        CapsAgreeAfterCall(d, e.request, e.env);
      }
    }
  }

  // ----- VMRUN -----

  /** The exit code of the last VMRUN since the context was last destroyed; 0 if there was none. */
  function LastExit(history: seq<Event>): Word {
    if history == [] then 0 as Word
    else
      match history[|history| - 1]
      case Vmrun(_, _, _, left) => left.exit.code
      case Destroyed => 0 as Word
      case Prepared(_, _) => LastExit(history[..|history| - 1])
  }

  /** VMRUN was executed on an initialized backend, with the parameter set and the privilege
      requested, on the physical address of a live page. */
  predicate Proper(g: Gate) {
    g.initialized && g.vmCreated && g.pageLive && g.parameter && g.requested && g.address == Phys(g.page)
  }

  /** VMRUN v, coming directly after event u, was given what u left: what was prepared, or what the
      VMRUN before it left behind. It cannot come after a destruction. */
  predicate Follows(u: Event, v: Event)
    requires v.Vmrun?
  {
    match u
    case Prepared(page, guestPa) =>
      && v.gate.page == page && v.gate.guestPa == guestPa
      && v.entryPage == ControlBlock(guestPa) && v.guestPage == GuestCode
    case Vmrun(g, _, _, left) =>
      && v.gate.page == g.page && v.gate.guestPa == g.guestPa
      && v.entryPage == Raw(left.page) && v.guestPage == Raw(left.guest)
    case Destroyed => false
  }

  ghost predicate Chained(history: seq<Event>, k: nat)
    requires k < |history|
  {
    history[k].Vmrun? ==> 0 < k && Follows(history[k - 1], history[k])
  }

  /** What the last event says about the present state. */
  ghost predicate Present(s: System, v: Event) {
    match v
    case Prepared(page, guestPa) => Holding(s, page, guestPa, ControlBlock(guestPa), GuestCode)
    case Vmrun(g, _, _, left) => Holding(s, g.page, g.guestPa, Raw(left.page), Raw(left.guest))
    case Destroyed => !s.svm.vmCreated
  }

  ghost predicate Holding(s: System, page: nat, guestPa: nat, control: Content, guest: Content) {
    && s.svm.vmCreated && s.svm.vmcb == page && s.svm.guestPa == guestPa
    && ContentAt(s.machine, s.svm.vmcb) == control && ContentAt(s.machine, s.svm.guest) == guest
  }

  /** What the history says about itself and about the present state. */
  ghost predicate Remembers(s: Story) {
    && s.driver.sys.svm.exit.code == LastExit(s.history)
    && (forall k | 0 <= k < |s.history| && s.history[k].Vmrun? :: Proper(s.history[k].gate))
    && (forall k | 0 <= k < |s.history| :: Chained(s.history, k))
    && (if s.history == [] then !s.driver.sys.svm.vmCreated
        else Present(s.driver.sys, s.history[|s.history| - 1]))
  }

  /** What an event says about the context before and after the call. */
  ghost predicate Effect(s: System, t: System, v: Event) {
    && Present(t, v)
    && match v
       case Destroyed => t.svm.exit == NO_EXIT
       case Vmrun(g, entry, guest, left) =>
         Proper(g) && t.svm.exit.code == left.exit.code && Holding(s, g.page, g.guestPa, entry, guest)
       case Prepared(_, _) => t.svm.exit == s.svm.exit
  }

  lemma LoudCall(d: Driver, e: Entry, base: Machine)
    requires Inv(d.sys, base) && Possible(d, e.env) && Events(d, e) != []
    ensures |Events(d, e)| == 1 && Effect(d.sys, Call(d, e.request, e.env).0.sys, Events(d, e)[0])
  {
  }

  /** A call without an event leaves the exit fields alone and creates no virtual machine; if one
      exists, it leaves the whole context and its pages alone. */
  lemma QuietCall(d: Driver, e: Entry, base: Machine)
    requires Inv(d.sys, base) && Possible(d, e.env) && Events(d, e) == []
    ensures var t := Call(d, e.request, e.env).0.sys;
            && t.svm.exit == d.sys.svm.exit && t.svm.vmCreated == d.sys.svm.vmCreated
            && (d.sys.svm.vmCreated ==> t == d.sys)
  {
    if e.request.CreateVm? && !e.env.copyInFaults && e.request.flags % 2 == 1 {
      FailedCreation(d.sys, base, e.request.guestSize, e.env.first, e.env.second);
    }
  }

  lemma RemembersQuiet(s: Story, t: Story)
    requires Remembers(s) && t.history == s.history && t.driver.sys.svm.exit == s.driver.sys.svm.exit
    requires t.driver.sys.svm.vmCreated == s.driver.sys.svm.vmCreated
    requires s.driver.sys.svm.vmCreated ==> t.driver.sys == s.driver.sys
    ensures Remembers(t)
  {
  }

  lemma RemembersLoud(s: Story, t: Story, v: Event)
    requires Remembers(s) && t.history == s.history + [v] && Effect(s.driver.sys, t.driver.sys, v)
    ensures Remembers(t)
  {
    var n := |s.history|;
    assert t.history[..n] == s.history && t.history[n] == v;
    forall k | 0 <= k < n
      ensures Chained(t.history, k)
    {
      assert Chained(s.history, k);
    }
  }

  lemma CallRemembers(s: Story, e: Entry, base: Machine)
    requires Inv(s.driver.sys, base) && Possible(s.driver, e.env) && Remembers(s)
    ensures Remembers(Story(Call(s.driver, e.request, e.env).0, s.history + Events(s.driver, e)))
  {
    var t, vs := Call(s.driver, e.request, e.env).0, Events(s.driver, e);
    if vs == [] {
      QuietCall(s.driver, e, base);
      RemembersQuiet(s, Story(t, s.history + vs));
    } else {
      LoudCall(s.driver, e, base);
      RemembersLoud(s, Story(t, s.history + vs), vs[0]);
    }
  }

  lemma {:induction false} ReachableRemembers(cpu: Cpu, base: Machine, allow: bool, run: seq<Entry>)
    requires 0 !in base.pages
    ensures Remembers(Play(Loaded(cpu, base, allow), run))
  {
    if run != [] {
      var before := run[..|run| - 1];
      ReachableRemembers(cpu, base, allow, before);
      ReachableInv(cpu, base, allow, before);
      var s, e := Play(Loaded(cpu, base, allow), before), run[|run| - 1];
      if Possible(s.driver, e.env) {
        CallRemembers(s, e, base);
      }
    }
  }

  /** Event p prepared a machine, and all events from there up to k are VMRUNs of this machine: the
      first is given the prepared pages, each other one what the one before it left. */
  ghost predicate RunsPrepared(history: seq<Event>, p: nat, k: nat) {
    && p < k < |history| && history[p].Prepared?
    && forall q | p < q <= k ::
         && history[q].Vmrun? && Follows(history[q - 1], history[q])
         && history[q].gate.page == history[p].page && history[q].gate.guestPa == history[p].guestPa
  }

  lemma {:induction false} PreparationOf(history: seq<Event>, k: nat) returns (p: nat)
    requires k < |history| && history[k].Vmrun? && forall j | 0 <= j < |history| :: Chained(history, j)
    ensures RunsPrepared(history, p, k)
  {
    assert Chained(history, k);
    if history[k - 1].Prepared? {
      p := k - 1;
    } else {
      p := PreparationOf(history, k - 1);
    }
  }

  /** Over every run, VMRUN is executed only on an initialized backend, on the physical address of a
      live page, with the module parameter set and the privilege requested; and that page is the
      control block of a machine that was prepared before and has not been destroyed since, as it was
      prepared or as the VMRUN before left it. */
  lemma VmrunIsGated(cpu: Cpu, base: Machine, allow: bool, run: seq<Entry>, k: nat) returns (p: nat)
    requires 0 !in base.pages
    requires k < |Play(Loaded(cpu, base, allow), run).history| && Play(Loaded(cpu, base, allow), run).history[k].Vmrun?
    ensures var h := Play(Loaded(cpu, base, allow), run).history;
            Proper(h[k].gate) && RunsPrepared(h, p, k)
  {
    ReachableRemembers(cpu, base, allow, run);
    p := PreparationOf(Play(Loaded(cpu, base, allow), run).history, k);
  }

  /** A virtual machine exists exactly if the last event is not a destruction and there was one. */
  lemma CreatedIffHistory(cpu: Cpu, base: Machine, allow: bool, run: seq<Entry>)
    requires 0 !in base.pages
    ensures var s := Play(Loaded(cpu, base, allow), run);
            s.driver.sys.svm.vmCreated <==> s.history != [] && !s.history[|s.history| - 1].Destroyed?
  {
    ReachableRemembers(cpu, base, allow, run);
  }

  lemma {:induction false} LastExitWitness(h: seq<Event>) returns (k: nat)
    requires LastExit(h) != 0
    ensures k < |h| && h[k].Vmrun? && h[k].left.exit.code == LastExit(h)
    ensures forall j | k < j < |h| :: !h[j].Destroyed? && !h[j].Vmrun?
  {
    k := |h| - 1;
    if h[k].Prepared? {
      k := LastExitWitness(h[..k]);
    }
  }

  /** If the capabilities report a valid exit, a VMRUN since the context was last destroyed returned
      that nonzero exit code. */
  lemma ValidExitWasReturned(cpu: Cpu, base: Machine, allow: bool, run: seq<Entry>) returns (k: nat)
    requires 0 !in base.pages && Play(Loaded(cpu, base, allow), run).driver.caps.lastVmexitValid
    ensures var s := Play(Loaded(cpu, base, allow), run);
            && k < |s.history| && s.history[k].Vmrun? && Proper(s.history[k].gate)
            && s.history[k].left.exit.code == s.driver.caps.exit.code != 0
            && forall j | k < j < |s.history| :: !s.history[j].Destroyed?
  {
    ReachableRemembers(cpu, base, allow, run);
    CapsNeverStale(cpu, base, allow, run);
    k := LastExitWitness(Play(Loaded(cpu, base, allow), run).history);
  }
}
