/** What the flag `hardware_virtualization_validated` means over every sequence of bring-ups through the
    kernel driver and shutdowns.
 */
module HypervisorRuns {
  import opened SvmContext
  import opened Ioctl
  import opened DriverRuns
  import opened Backend
  import opened BackendRuns
  import opened Hypervisor

  /** The joint state is one that the driver calls made so far explain. */
  ghost predicate Sound(start: Ioctl.Driver, base: Machine, j: Joint) {
    Faithful(start, j) && Agree(j, base)
  }

  /** The history of j' goes on from that of j without a destruction. */
  ghost predicate GoesOn(start: Ioctl.Driver, j: Joint, j': Joint) {
    && History(start, j) <= History(start, j')
    && forall k | |History(start, j)| <= k < |History(start, j')| :: !History(start, j')[k].Destroyed?
  }

  ghost predicate HasDestroyed(h: seq<Event>, n: nat) {
    exists k :: n <= k < |h| && h[k].Destroyed?
  }

  lemma GoesOnAndOn(start: Ioctl.Driver, j: Joint, j': Joint, j'': Joint)
    requires GoesOn(start, j, j') && GoesOn(start, j', j'')
    ensures GoesOn(start, j, j'')
  {
  }

  lemma DoGoesOn(start: Ioctl.Driver, base: Machine, j: Joint, op: Op)
    requires Sound(start, base, j) && PossibleOp(j, op) && !op.OpShutdown?
    ensures Sound(start, base, Do(j, op)) && GoesOn(start, j, Do(j, op))
  {
    DoReplays(start, j, base, op);
    DoAgrees(j, base, op);
  }

  lemma LaunchGoesOn(start: Ioctl.Driver, base: Machine, j: Joint, st: Settings, available: bool, v: bool, e: Envs)
    requires Sound(start, base, j) && PossibleLaunch(j, e)
    ensures var j' := Launch(j, st, available, v, e).joint;
            Sound(start, base, j') && GoesOn(start, j, j')
  {
    var j1 := LaunchOp(j, true, e.run).0;
    DoGoesOn(start, base, j, OpLaunch(true, e.run));
    DoGoesOn(start, base, j, OpStatus(e.last));
    DoGoesOn(start, base, j1, OpStatus(e.last));
    GoesOnAndOn(start, j, j1, StatusOp(j1, e.last).0);
  }

  lemma SetupGoesOn(start: Ioctl.Driver, base: Machine, j: Joint, st: Settings, available: bool, v: bool, e: Envs)
    requires Sound(start, base, j) && PossibleSetup(j, e)
    ensures var j' := Setup(j, st, available, v, e).joint;
            Sound(start, base, j') && GoesOn(start, j, j')
  {
    var j1 := SetupOp(j, e.query', e.create).0;
    DoGoesOn(start, base, j, OpSetup(e.query', e.create));
    LaunchGoesOn(start, base, j1, st, available, v, e);
    GoesOnAndOn(start, j, j1, Launch(j1, st, available, v, e).joint);
  }

  lemma InitializeGoesOn(start: Ioctl.Driver, base: Machine, j: Joint, st: Settings, available: bool, v: bool, e: Envs)
    requires Sound(start, base, j) && PossibleInitialize(j, e)
    ensures var j' := Initialize(j, st, available, v, e).joint;
            Sound(start, base, j') && GoesOn(start, j, j')
  {
    var j1 := InitOp(j, true, e.query, e.init).0;
    DoGoesOn(start, base, j, OpInit(true, e.query, e.init));
    SetupGoesOn(start, base, j1, st, available, v, e);
    GoesOnAndOn(start, j, j1, Setup(j1, st, available, v, e).joint);
  }

  /** After a bring-up the driver is still where its calls bring it, and nothing was destroyed. */
  lemma BringUpGoesOn(start: Ioctl.Driver, base: Machine, j: Joint, st: Settings, v: bool, e: Envs)
    requires Sound(start, base, j) && PossibleBringUp(j, e)
    ensures var j' := BringUp(j, st, v, e).joint;
            Sound(start, base, j') && GoesOn(start, j, j')
  {
    var (j1, status) := StatusOp(j, e.status);
    DoGoesOn(start, base, j, OpStatus(e.status));
    InitializeGoesOn(start, base, j1, st, status.available, v, e);
    GoesOnAndOn(start, j, j1, Initialize(j1, st, status.available, v, e).joint);
  }

  /** After any backend operations, hardware that counts as validated after a bring-up either did so
      before, and the bring-up ended early, or has executed a VMRUN of a prepared machine that returned a
      nonzero code, and the machine has not been destroyed since. */
  lemma ValidatedMeansVmrun(cpu: Cpu, base: Machine, allow: bool, ops: seq<Op>, st: Settings, v: bool, e: Envs)
      returns (k: nat, p: nat)
    requires 0 !in base.pages && PossibleBringUp(After(cpu, base, allow, ops), e)
    requires BringUp(After(cpu, base, allow, ops), st, v, e).validated
    ensures var j := After(cpu, base, allow, ops);
            var h := History(Loaded(cpu, base, allow), BringUp(j, st, v, e).joint);
            if EndsEarly(j, st, e) then v
            else
              && k < |h| && h[k].Vmrun? && h[k].left.exit.code != 0 && Proper(h[k].gate) && RunsPrepared(h, p, k)
              && !HasDestroyed(h, k)
  {
    k, p := 0, 0;
    var start, j := Loaded(cpu, base, allow), After(cpu, base, allow, ops);
    AlwaysFaithful(cpu, base, allow, ops);
    AlwaysAgree(cpu, base, allow, ops);
    BringUpGoesOn(start, base, j, st, v, e);
    BringUpDecides(j, base, st, v, e);
    var calls := BringUp(j, st, v, e).joint.calls;
    ReachableRemembers(cpu, base, allow, calls);
    if !EndsEarly(j, st, e) {
      k := LastExitWitness(Play(start, calls).history);
      p := VmrunIsGated(cpu, base, allow, calls, k);
    }
  }

  // ----- runs -----

  /** `hypervisor_init`, whose device can be opened or not, and `hypervisor_shutdown`. */
  datatype Session =
    | Started(openOk: bool, st: Settings, e: Envs)
    | Stopped(env: Env)

  datatype World = World(joint: Joint, validated: bool)

  /** A start brings up the kernel driver; if its device cannot be opened, another backend is selected
      and the start is no step here. Neither is a session with impossible allocator answers. */
  predicate Happens(w: World, a: Session) {
    match a
    case Started(openOk, _, e) =>
      Available(w.joint, openOk).flags.open && PossibleBringUp(Available(w.joint, openOk), e)
    case Stopped(env) => PossibleOp(w.joint, OpShutdown(env))
  }

  function Next(w: World, a: Session): World {
    if !Happens(w, a) then w
    else
      match a
      case Started(openOk, st, e) =>
        var o := BringUp(Available(w.joint, openOk), st, w.validated, e);
        World(o.joint, o.validated)
      case Stopped(env) => World(ShutdownOp(w.joint, env), w.validated)
  }

  function Sessions(cpu: Cpu, base: Machine, allow: bool, run: seq<Session>): World {
    if run == [] then World(Joint(CLOSED, Loaded(cpu, base, allow), []), false)
    else Next(Sessions(cpu, base, allow, run[..|run| - 1]), run[|run| - 1])
  }

  /** The session asks whether the hardware was validated. */
  predicate Asks(w: World, a: Session) {
    a.Started? && Happens(w, a) && !EndsEarly(Available(w.joint, a.openOk), a.st, a.e)
  }

  /** The session destroys the context. */
  predicate Destroys(w: World, a: Session) {
    a.Stopped? && Happens(w, a) && w.joint.flags.open
  }

  /** What one session does to the history and to the flag. */
  ghost predicate SessionEffect(start: Ioctl.Driver, w: World, a: Session) {
    var h, h' := History(start, w.joint), History(start, Next(w, a).joint);
    && h <= h' && (HasDestroyed(h', |h|) <==> Destroys(w, a))
    && (Next(w, a).validated <==> if Asks(w, a) then LastExit(h') != 0 && !a.e.last.copyOutFaults else w.validated)
  }

  lemma StartEffect(cpu: Cpu, base: Machine, allow: bool, w: World, a: Session)
    requires 0 !in base.pages && Sound(Loaded(cpu, base, allow), base, w.joint) && a.Started? && Happens(w, a)
    ensures Sound(Loaded(cpu, base, allow), base, Next(w, a).joint)
    ensures SessionEffect(Loaded(cpu, base, allow), w, a)
  {
    var start, j := Loaded(cpu, base, allow), Available(w.joint, a.openOk);
    assert Sound(start, base, j) && History(start, j) == History(start, w.joint);
    BringUpGoesOn(start, base, j, a.st, w.validated, a.e);
    BringUpDecides(j, base, a.st, w.validated, a.e);
    ReachableRemembers(cpu, base, allow, BringUp(j, a.st, w.validated, a.e).joint.calls);
  }

  lemma StopEffect(cpu: Cpu, base: Machine, allow: bool, w: World, a: Session)
    requires Sound(Loaded(cpu, base, allow), base, w.joint) && a.Stopped? && Happens(w, a)
    ensures Sound(Loaded(cpu, base, allow), base, Next(w, a).joint)
    ensures SessionEffect(Loaded(cpu, base, allow), w, a)
  {
    var start, j := Loaded(cpu, base, allow), w.joint;
    ShutdownRestores(j, base, a.env);
    IssueReplays(start, j, DestroyVm, a.env);
    if j.flags.open {
      var h := History(start, j);
      assert History(start, ShutdownOp(j, a.env)) == h + [Destroyed];
      assert (h + [Destroyed])[|h|].Destroyed?;
    }
  }

  lemma {:induction false} SessionsSound(cpu: Cpu, base: Machine, allow: bool, run: seq<Session>)
    requires 0 !in base.pages
    ensures Sound(Loaded(cpu, base, allow), base, Sessions(cpu, base, allow, run).joint)
  {
    if run == [] {
      AlwaysAgree(cpu, base, allow, []);
    } else {
      SessionsSound(cpu, base, allow, run[..|run| - 1]);
      var w, a := Sessions(cpu, base, allow, run[..|run| - 1]), run[|run| - 1];
      if Happens(w, a) {
        if a.Started? {
          StartEffect(cpu, base, allow, w, a);
        } else {
          StopEffect(cpu, base, allow, w, a);
        }
      }
    }
  }

  lemma NextSession(cpu: Cpu, base: Machine, allow: bool, run: seq<Session>, a: Session)
    ensures Sessions(cpu, base, allow, run + [a]) == Next(Sessions(cpu, base, allow, run), a)
  {
    assert (run + [a])[..|run|] == run;
  }

  lemma LastSession(cpu: Cpu, base: Machine, allow: bool, run: seq<Session>, a: Session)
    requires 0 !in base.pages
    ensures Sessions(cpu, base, allow, run + [a]) == Next(Sessions(cpu, base, allow, run), a)
    ensures SessionEffect(Loaded(cpu, base, allow), Sessions(cpu, base, allow, run), a)
  {
    NextSession(cpu, base, allow, run, a);
    SessionsSound(cpu, base, allow, run);
    var w := Sessions(cpu, base, allow, run);
    if Happens(w, a) {
      if a.Started? {
        StartEffect(cpu, base, allow, w, a);
      } else {
        StopEffect(cpu, base, allow, w, a);
      }
    }
  }

  /** Session c - 1 is the last one of the run that asked; c is 0 if none did. */
  ghost predicate LastAsked(cpu: Cpu, base: Machine, allow: bool, run: seq<Session>, c: nat) {
    && c <= |run|
    && (0 < c ==> Asks(Sessions(cpu, base, allow, run[..c - 1]), run[c - 1]))
    && forall i | c <= i < |run| :: !Asks(Sessions(cpu, base, allow, run[..i]), run[i])
  }

  lemma StillLastAsked(cpu: Cpu, base: Machine, allow: bool, run: seq<Session>, a: Session, c: nat)
    requires LastAsked(cpu, base, allow, run, c) && !Asks(Sessions(cpu, base, allow, run), a)
    ensures LastAsked(cpu, base, allow, run + [a], c) && (run + [a])[..c] == run[..c]
  {
    assert forall i | 0 <= i <= |run| :: (run + [a])[..i] == run[..i];
    assert run[..|run|] == run;
  }

  function HistoryAt(cpu: Cpu, base: Machine, allow: bool, run: seq<Session>): seq<Event> {
    History(Loaded(cpu, base, allow), Sessions(cpu, base, allow, run).joint)
  }

  /** The flag says what the last session that asked was told: that the last VMRUN until then, not
      destroyed until then, returned a nonzero code. Shutdowns and bring-ups that end early since then
      make no difference. */
  lemma {:induction false} FlagDecidedByLastAsked(cpu: Cpu, base: Machine, allow: bool, run: seq<Session>)
      returns (c: nat)
    requires 0 !in base.pages
    ensures LastAsked(cpu, base, allow, run, c)
    ensures Sessions(cpu, base, allow, run).validated <==>
              0 < c && !run[c - 1].e.last.copyOutFaults && LastExit(HistoryAt(cpu, base, allow, run[..c])) != 0
  {
    c := 0;
    if run != [] {
      var before, a := run[..|run| - 1], run[|run| - 1];
      assert before + [a] == run;
      LastSession(cpu, base, allow, before, a);
      if Asks(Sessions(cpu, base, allow, before), a) {
        c := |run|;
        assert run[..c] == run;
      } else {
        c := FlagDecidedByLastAsked(cpu, base, allow, before);
        StillLastAsked(cpu, base, allow, before, a, c);
      }
    }
  }

  /** One of the sessions from c on stops an open backend. */
  ghost predicate StoppedSince(cpu: Cpu, base: Machine, allow: bool, run: seq<Session>, c: nat) {
    exists i :: c <= i < |run| && Destroys(Sessions(cpu, base, allow, run[..i]), run[i])
  }

  lemma StoppedSinceExtends(cpu: Cpu, base: Machine, allow: bool, run: seq<Session>, a: Session, c: nat)
    requires c <= |run|
    ensures StoppedSince(cpu, base, allow, run + [a], c) <==>
              StoppedSince(cpu, base, allow, run, c) || Destroys(Sessions(cpu, base, allow, run), a)
  {
    var more := run + [a];
    assert forall i | 0 <= i <= |run| :: more[..i] == run[..i];
    assert run[..|run|] == run && more[|run|] == a;
    if i :| c <= i < |run| && Destroys(Sessions(cpu, base, allow, run[..i]), run[i]) {
      assert Destroys(Sessions(cpu, base, allow, more[..i]), more[i]);
    }
  }

  /** The history from the first c sessions on has a destruction exactly if one of the later sessions
      stops an open backend. */
  lemma {:induction false} DestroyedByStops(cpu: Cpu, base: Machine, allow: bool, run: seq<Session>, c: nat)
    requires 0 !in base.pages && c <= |run|
    ensures HistoryAt(cpu, base, allow, run[..c]) <= HistoryAt(cpu, base, allow, run)
    ensures HasDestroyed(HistoryAt(cpu, base, allow, run), |HistoryAt(cpu, base, allow, run[..c])|)
       <==> StoppedSince(cpu, base, allow, run, c)
    decreases |run|
  {
    if c == |run| {
      assert run[..c] == run;
    } else {
      var before, a := run[..|run| - 1], run[|run| - 1];
      assert before + [a] == run && before[..c] == run[..c];
      DestroyedByStops(cpu, base, allow, before, c);
      LastSession(cpu, base, allow, before, a);
      StoppedSinceExtends(cpu, base, allow, before, a, c);
      DestroyedInEither(HistoryAt(cpu, base, allow, run[..c]), HistoryAt(cpu, base, allow, before),
                        HistoryAt(cpu, base, allow, run));
    }
  }

  lemma DestroyedInEither(h0: seq<Event>, h: seq<Event>, h': seq<Event>)
    requires h0 <= h <= h'
    ensures HasDestroyed(h', |h0|) <==> HasDestroyed(h, |h0|) || HasDestroyed(h', |h|)
  {
    if k :| |h0| <= k < |h| && h[k].Destroyed? {
      assert h'[k].Destroyed?;
    }
    if k :| |h0| <= k < |h'| && h'[k].Destroyed? {
      assert k < |h| ==> h[k].Destroyed?;
    }
  }

  /** So if the flag is set, some VMRUN of a prepared machine returned a nonzero code, and until the
      last session that asked it was not destroyed. It has been destroyed since exactly if a later
      session stopped the open backend. */
  lemma FlagMeans(cpu: Cpu, base: Machine, allow: bool, run: seq<Session>) returns (c: nat, k: nat, p: nat)
    requires 0 !in base.pages && Sessions(cpu, base, allow, run).validated
    ensures LastAsked(cpu, base, allow, run, c) && 0 < c
    ensures var h := HistoryAt(cpu, base, allow, run);
            && k < |HistoryAt(cpu, base, allow, run[..c])| <= |h|
            && h[k].Vmrun? && h[k].left.exit.code != 0 && Proper(h[k].gate) && RunsPrepared(h, p, k)
            && (HasDestroyed(h, k) <==> StoppedSince(cpu, base, allow, run, c))
  {
    c := FlagDecidedByLastAsked(cpu, base, allow, run);
    var h0, h := HistoryAt(cpu, base, allow, run[..c]), HistoryAt(cpu, base, allow, run);
    k := LastExitWitness(h0);
    DestroyedByStops(cpu, base, allow, run, c);
    SessionsSound(cpu, base, allow, run);
    p := VmrunIsGated(cpu, base, allow, Sessions(cpu, base, allow, run).joint.calls, k);
    if HasDestroyed(h, k) {
      var n :| k <= n < |h| && h[n].Destroyed?;
      assert |h0| <= n;
    }
    if HasDestroyed(h, |h0|) {
      var n :| |h0| <= n < |h| && h[n].Destroyed?;
    }
  }

  // ----- a run that leaves the flag set without a machine -----

  const NO_MEMORY := Machine(0, 0, map[])
  const LENIENT := Settings(false, true)

  /** A bring-up in which everything succeeds: pages 1, 2 and 3 are granted. */
  function Smooth(env: Env): Envs {
    var q := env.(first := Denied, second := Denied);
    Envs(q, q, q.(first := Granted(1)), q, q.(first := Granted(2), second := Granted(3)), q, q)
  }

  predicate Favourable(cpu: Cpu, env: Env) {
    && cpu.svm && env.vmCr == 0 && env.allowGate && !env.copyInFaults && !env.copyOutFaults
    && env.exit.exit.code != 0
  }

  /** INIT on a fresh driver takes page 1 and nothing else. */
  lemma SmoothInit(cpu: Cpu, env: Env)
    requires Favourable(cpu, env)
    ensures var j := Joint(CLOSED.(open := true), Loaded(cpu, NO_MEMORY, false), []);
            var e := Smooth(env);
            var (j', r) := InitOp(StatusOp(j, e.status).0, true, e.query, e.init);
            r == 0 && j'.driver.sys.machine.pages == map[1 := Zeroed] && j'.driver.sys.svm.vmcb == 0
  {
    assert !SvmDisabled(0);
    var j := Joint(CLOSED.(open := true), Loaded(cpu, NO_MEMORY, false), []);
    var e := Smooth(env);
    var j1 := StatusOp(j, e.status).0;
    StatusReports(j, e.status);
    InitReports(j1, true, e.query, e.init);
    QueryReports(j1, e.query);
  }

  lemma SmoothIsPossible(cpu: Cpu, env: Env)
    requires Favourable(cpu, env)
    ensures PossibleBringUp(Joint(CLOSED.(open := true), Loaded(cpu, NO_MEMORY, false), []), Smooth(env))
  {
    SmoothInit(cpu, env);
  }

  /** From any state in which the flag is set: after a shutdown and a bring-up whose first query faults
      it is still set, but the context is destroyed. */
  lemma FlagSurvives(w: World, base: Machine, q: Env, f: Envs)
    requires Agree(w.joint, base) && w.validated && q.first.Denied? && q.second.Denied?
    requires f == Envs(q, q.(copyOutFaults := true), q, q, q, q, q)
    ensures var w' := Next(Next(w, Stopped(q)), Started(true, LENIENT, f));
            w'.validated && !w'.joint.driver.sys.svm.vmCreated && w'.joint.driver.sys.svm.exit.code == 0
  {
    FlagCanBeStale(w.joint, base, LENIENT, q, f);
    DeniedIsPossible(Available(ShutdownOp(w.joint, q), true), q, f);
  }

  /** So there is a run of three sessions, a bring-up that validates the hardware, a shutdown, and a
      failing bring-up, after which the flag is set without a machine. */
  lemma FlagOutlivesMachine(cpu: Cpu, env: Env)
    requires Favourable(cpu, env)
    ensures var q := env.(first := Denied, second := Denied);
            var up := Started(true, LENIENT, Smooth(env));
            var failing := Started(true, LENIENT, Envs(q, q.(copyOutFaults := true), q, q, q, q, q));
            var w := Sessions(cpu, NO_MEMORY, false, [up, Stopped(q), failing]);
            w.validated && !w.joint.driver.sys.svm.vmCreated && w.joint.driver.sys.svm.exit.code == 0
  {
    var q := env.(first := Denied, second := Denied);
    var up := Started(true, LENIENT, Smooth(env));
    var f := Envs(q, q.(copyOutFaults := true), q, q, q, q, q);
    var w := Sessions(cpu, NO_MEMORY, false, []);
    SessionsSound(cpu, NO_MEMORY, false, []);
    SmoothIsPossible(cpu, env);
    SmoothValidates(cpu, env, w.joint);
    ThreeSessions(cpu, NO_MEMORY, false, up, Stopped(q), Started(true, LENIENT, f));
    SessionsSound(cpu, NO_MEMORY, false, [up]);
    FlagSurvives(Next(w, up), NO_MEMORY, q, f);
  }

  lemma ThreeSessions(cpu: Cpu, base: Machine, allow: bool, a: Session, b: Session, c: Session)
    ensures Sessions(cpu, base, allow, [a]) == Next(Sessions(cpu, base, allow, []), a)
    ensures Sessions(cpu, base, allow, [a, b, c]) == Next(Next(Sessions(cpu, base, allow, [a]), b), c)
  {
    NextSession(cpu, base, allow, [], a);
    NextSession(cpu, base, allow, [a], b);
    NextSession(cpu, base, allow, [a, b], c);
    assert [] + [a] == [a] && [a] + [b] == [a, b] && [a, b] + [c] == [a, b, c];
  }

  lemma SmoothValidates(cpu: Cpu, env: Env, j: Joint)
    requires Favourable(cpu, env) && j == Joint(CLOSED, Loaded(cpu, NO_MEMORY, false), []) && Agree(j, NO_MEMORY)
    ensures BringUp(Available(j, true), LENIENT, false, Smooth(env)).validated
  {
    assert !SvmDisabled(0);
    SmoothIsPossible(cpu, env);
    BringUpDecides(Available(j, true), NO_MEMORY, LENIENT, false, Smooth(env));
  }

  /** Where the allocator grants nothing, its answers are possible. */
  lemma DeniedIsPossible(j: Joint, q: Env, e: Envs)
    requires q.first.Denied? && q.second.Denied?
    requires e == Envs(q, q.(copyOutFaults := true), q, q, q, q, q)
    ensures PossibleBringUp(j, e)
  {
  }
}
