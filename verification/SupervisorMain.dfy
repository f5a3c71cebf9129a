/** The candidate supervisor from a parsed request to its result frame. */
module SupervisorMain {
  import opened Options
  import opened Words
  import opened ProcessTree
  import opened Supervisor
  import Capture

  datatype Flag =
    | RequestValidated | ProgramDescriptorValidated | FixtureDescriptorValidated
    | RuntimeSnapshotValidated | WorkspaceBaselineValidated | AllowedToolsValidated | PolicyValidated
    | ChildNoNewPrivs | ChildPreexecDumpableDisabled | ChildSeccompInstalled
    | PrimaryReaped | AllDescendantsReaped | SolePid1
    | StdoutOverflow | StderrOverflow | WallLimitReached | CpuLimitReached
    | WorkspaceSnapshotWritten | WorkspaceSnapshotOverflow

  datatype Outcome =
    | Normal | Nonzero | Signal | WallTimeout | CpuLimit | StdoutOverflowed | StderrOverflowed
    | SnapshotOverflowed | SupervisorError

  datatype ProcessStatus = NotReaped | Exited | Signaled

  // ---------- the wait status word ----------

  predicate WifExited(status: int) { status % 128 == 0 }
  function WexitStatus(status: int): nat { status / 256 % 256 }
  predicate WifSignaled(status: int) { 0 < status % 128 < 127 }
  function WtermSig(status: int): nat { status % 128 }

  // ---------- the environment of one run ----------

  datatype CleanupTurn = CleanupTurn(waits: seq<WaitResult>, now: U64)

  /** What build_workspace_snapshot and the write of its buffer came to. */
  datatype SnapshotRun = SnapshotRun(result: int, used: nat, overflow: bool, buffered: bool, written: bool)

  /** Clock readings are zero when the clock cannot be read. */
  datatype Environment = Environment(
    limits: Limits,
    programValid: bool, fixtureValid: bool, snapshotDescriptorOpen: bool, handlersInstalled: bool,
    pipesCreated: bool,
    started: U64,
    forkedPid: int,
    stdoutTotal: nat, stderrTotal: nat,
    rounds: seq<Round>,
    cleanupClock: U64, cleanup: seq<CleanupTurn>,
    lastStdout: seq<Capture.ReadEvent>, lastStderr: seq<Capture.ReadEvent>, lastReady: seq<ReadyEvent>,
    finished: U64,
    soleInit: bool,
    snapshot: SnapshotRun,
    signalled: bool) {
    function Deadline(): U64 { SaturatingAdd(started, limits.wall) }

    predicate Prepared() {
      programValid && fixtureValid && snapshotDescriptorOpen && handlersInstalled && pipesCreated && started != 0
    }

    /** The parent's branch of a fork that was attempted and succeeded. */
    predicate Launched() { Prepared() && forkedPid > 0 }
  }

  datatype Report = Result(
    outcome: Outcome, status: ProcessStatus, exitCode: int, signal: nat, flags: set<Flag>,
    stdoutObserved: nat, stderrObserved: nat, tally: Tally, wallUsec: nat, cumulativeCpu: U64, snapshotBytes: nat)

  // ---------- the run as a function of its environment ----------

  function Idle(): Loop {
    Loop(FRESH, Stream(0, 0, 0, false, false), Stream(0, 0, 0, false, false), ReadyPipe(false, false, false),
         true, false, false, false, 0, 0)
  }

  function Begun(env: Environment): (s: Loop)
    ensures s.Valid()
  {
    Loop(FRESH, Stream(env.limits.stdoutCap, env.stdoutTotal, 0, true, false),
         Stream(env.limits.stderrCap, env.stderrTotal, 0, true, false), ReadyPipe(true, false, false),
         false, false, false, false, 0, 0)
  }

  datatype Swept = Swept(tally: Tally, error: bool)

  /** The bounded second attempt to reap everything.  None when `turns` runs out
      before the attempt is over. */
  function SweptUp(t: Tally, primary: nat, deadline: U64, turns: seq<CleanupTurn>): Option<Swept>
    decreases |turns|
  {
    if t.allReaped then Some(Swept(t, false))
    else if turns == [] then None
    else
      var next := Tallied(primary, t, Consumed(turns[0].waits));
      if ReapFails(turns[0].waits) || turns[0].now >= deadline then Some(Swept(next, true))
      else SweptUp(next, primary, deadline, turns[1..])
  }

  function LastDrain(s: Stream, schedule: seq<Capture.ReadEvent>): (r: Stream)
    requires s.Valid()
    ensures r.Valid()
  {
    OnDrain(s, schedule).next.(open := false)
  }

  /** After the loop, the second sweep, and the last drains. */
  function Settled(env: Environment): (r: Option<Loop>)
  {
    if !env.Launched() then Some(Idle()) else
      var e := Looped(Begun(env), env.forkedPid, env.limits, env.Deadline(), env.rounds);
      if !e.exited then None else
        var sweep := SweptUp(e.state.tally, env.forkedPid,
                             SaturatingAdd(env.cleanupClock, CLEANUP_TIMEOUT_USEC), env.cleanup);
        if sweep.None? then None else
          Some(e.state.(tally := sweep.value.tally,
                        infrastructureError := e.state.infrastructureError || sweep.value.error,
                        out := LastDrain(e.state.out, env.lastStdout),
                        err := LastDrain(e.state.err, env.lastStderr),
                        ready := OnReady(e.state.ready, env.lastReady).next.(open := false)))
  }

  /** Exact V2 resource and process precedence. */
  function ClassifyOutcome(flags: set<Flag>, status: ProcessStatus, exitCode: int): Outcome {
    if WorkspaceSnapshotOverflow in flags then SnapshotOverflowed
    else if StdoutOverflow in flags then StdoutOverflowed
    else if StderrOverflow in flags then StderrOverflowed
    else if CpuLimitReached in flags then CpuLimit
    else if WallLimitReached in flags then WallTimeout
    else match status
      case Signaled => Signal
      case Exited => if exitCode == 0 then Normal else Nonzero
      case NotReaped => SupervisorError
  }

  predicate SnapshotDelivered(s: SnapshotRun) {
    s.result >= 0 && s.buffered && s.used > 0 && s.written
  }

  predicate SnapshotOverflows(s: SnapshotRun, cap: nat) {
    s.result == 1 || s.overflow || s.used == cap + 1
  }

  /** The final readings, and what follows from them and the settled loop. */
  datatype Verdict = Verdict(env: Environment, s: Loop) {
    predicate ClockOk() { env.finished != 0 && env.finished >= env.started }

    function Finished(): U64 { if ClockOk() then env.finished else env.started }

    function Cpu(): U64 { Later(s.cumulativeCpu, SaturatingAdd(s.tally.user, s.tally.system)) }

    predicate Attested() { s.ready.seen && !s.ready.invalid }

    predicate Quiescent() { s.tally.allReaped && s.tally.primaryReaped }

    predicate Sole() { Quiescent() && env.soleInit }

    predicate Delivered() { Sole() && SnapshotDelivered(env.snapshot) }

    predicate TooBig() { SnapshotOverflows(env.snapshot, env.limits.snapshotCap) }

    function Status(): ProcessStatus {
      if s.tally.primaryReaped && WifExited(s.tally.primaryStatus) then Exited
      else if s.tally.primaryReaped && WifSignaled(s.tally.primaryStatus) then Signaled
      else NotReaped
    }

    function ExitCode(): int { if Status().Exited? then WexitStatus(s.tally.primaryStatus) else -1 }

    predicate Raised(flag: Flag) {
      match flag
      case RequestValidated => true
      case ProgramDescriptorValidated => env.programValid
      case FixtureDescriptorValidated => env.fixtureValid
      case RuntimeSnapshotValidated | WorkspaceBaselineValidated | AllowedToolsValidated | PolicyValidated => false
      case ChildNoNewPrivs | ChildPreexecDumpableDisabled | ChildSeccompInstalled => Attested()
      case PrimaryReaped => s.tally.primaryReaped
      case AllDescendantsReaped => Quiescent()
      case SolePid1 => Sole()
      case StdoutOverflow => s.out.overflow
      case StderrOverflow => s.err.overflow
      case WallLimitReached => s.wallLimitReached || Finished() >= env.Deadline()
      case CpuLimitReached => s.cpuLimitReached || Cpu() >= env.limits.cpu
      case WorkspaceSnapshotWritten => Delivered() && !TooBig()
      case WorkspaceSnapshotOverflow => Delivered() && TooBig()
    }

    function Flags(): (r: set<Flag>)
      ensures forall f :: f in r <==> Raised(f)
    {
      set f: Flag | Raised(f)
    }

    predicate Error() {
      || s.infrastructureError || !ClockOk()
      || (env.Launched() && (!Attested() || !Sole()))
      || (s.tally.primaryReaped && Status().NotReaped?)
      || (Sole() && !Delivered()) || env.signalled
    }

    function Report(): Report {
      Result(
        if Error() then SupervisorError else ClassifyOutcome(Flags(), Status(), ExitCode()),
        Status(), ExitCode(), if Status().Signaled? then WtermSig(s.tally.primaryStatus) else 0, Flags(),
        s.out.observed, s.err.observed, s.tally, Finished() - env.started, Cpu(),
        if Delivered() then env.snapshot.used else 0)
    }
  }

  function ReportOf(env: Environment): Option<Report> {
    var s := Settled(env);
    if s.None? then None else Some(Verdict(env, s.value).Report())
  }

  // ---------- every run reports ----------

  /** The second sweep ends no later than the first reading at its deadline. */
  lemma {:induction false} SweepEndsBy(t: Tally, primary: nat, deadline: U64, turns: seq<CleanupTurn>, c: nat)
    requires c < |turns| && turns[c].now >= deadline
    ensures SweptUp(t, primary, deadline, turns).Some?
    decreases |turns|
  {
    if c > 0 {
      SweepEndsBy(Tallied(primary, t, Consumed(turns[0].waits)), primary, deadline, turns[1..], c - 1);
    }
  }

  /** The loop's part of a run that comes to its end: round `i` reads the wall
      deadline, `bound` is past every cleanup deadline latched by then, and round
      `j` reads `bound` or more and, if no child is left, every pipe to its end. */
  ghost predicate LoopTimesOut(env: Environment, bound: U64, i: nat, j: nat) {
    && i <= j < |env.rounds|
    && Reading(env.rounds[i], env.Deadline()) >= env.Deadline()
    && (forall k :: 0 <= k <= i ==>
          SaturatingAdd(Reading(env.rounds[k], env.Deadline()), CLEANUP_TIMEOUT_USEC) <= bound)
    && Reading(env.rounds[j], env.Deadline()) >= bound
    && (NoChildrenBy(env.rounds, j) ==> ReadsToEnd(env.rounds[j], env.stdoutTotal, env.stderrTotal))
  }

  ghost predicate LoopDrains(env: Environment, j: nat) {
    j < |env.rounds| && NoChildrenBy(env.rounds, j) && ReadsToEnd(env.rounds[j], env.stdoutTotal, env.stderrTotal)
  }

  /** A supervisor whose clock advances, or whose pipes come to their end once no
      child is left, reports whatever else happens. */
  lemma EveryRunReports(env: Environment, bound: U64, i: nat, j: nat, c: nat)
    requires LoopTimesOut(env, bound, i, j) || LoopDrains(env, j)
    requires c < |env.cleanup| && env.cleanup[c].now >= SaturatingAdd(env.cleanupClock, CLEANUP_TIMEOUT_USEC)
    ensures ReportOf(env).Some?
  {
    if env.Launched() {
      var s, deadline := Begun(env), env.Deadline();
      if LoopDrains(env, j) {
        LoopEndsOnceDrained(s, env.forkedPid, env.limits, deadline, env.rounds, j);
      } else {
        LoopEndsBy(s, env.forkedPid, env.limits, deadline, env.rounds, bound, i, j);
      }
      SweepEndsBy(Looped(s, env.forkedPid, env.limits, deadline, env.rounds).state.tally, env.forkedPid,
                  SaturatingAdd(env.cleanupClock, CLEANUP_TIMEOUT_USEC), env.cleanup, c);
    }
  }

  /** A launched supervisor whose primary leaves no child behind, and whose reads
      of stdout all fail, is still in its loop after any number of rounds. */
  lemma ReadErrorsNeverReport(env: Environment, last: WaitResult)
    requires env.Launched() && last.Collected? && last.pid == env.forkedPid
    requires forall k :: 0 <= k < |env.rounds| ==>
               && env.rounds[k].waits == (if k == 0 then [last, NoChildren] else [NoChildren])
               && env.rounds[k].stdout == [Capture.Failed]
    ensures ReportOf(env).None?
  {
    ReadErrorsNeverEnd(Begun(env), env.forkedPid, env.limits, env.Deadline(), env.rounds, last);
  }

  /** So is one whose clock cannot be read while a child never ends. */
  lemma UnreadableClockNeverReports(env: Environment)
    requires env.Launched() && env.Deadline() < U64_MAX
    requires forall k :: 0 <= k < |env.rounds| ==> env.rounds[k].waits == [NothingYet] && env.rounds[k].now == 0
    ensures ReportOf(env).None?
  {
    UnreadableClockNeverEnds(Begun(env), env.forkedPid, env.limits, env.Deadline(), env.rounds);
  }

  // ---------- what every report promises ----------

  /** The attestations a result without supervisor error must carry. */
  predicate Attestation(f: Flag) {
    match f
    case RequestValidated | ProgramDescriptorValidated | FixtureDescriptorValidated => true
    case ChildNoNewPrivs | ChildPreexecDumpableDisabled | ChildSeccompInstalled => true
    case PrimaryReaped | AllDescendantsReaped | SolePid1 => true
    case _ => false
  }

  ghost predicate FullyAttested(r: Report) {
    && (forall f :: Attestation(f) ==> f in r.flags)
    && r.status != NotReaped
    && (WorkspaceSnapshotWritten in r.flags <==> WorkspaceSnapshotOverflow !in r.flags)
  }

  /** Nothing is settled without an error unless the child was launched. */
  lemma SettledWithoutLaunch(env: Environment)
    ensures var s := Settled(env); s.Some? ==> env.Launched() || s.value.infrastructureError
  {
  }

  lemma NoErrorMeansRaised(v: Verdict)
    requires v.env.Launched() || v.s.infrastructureError
    requires !v.Error()
    ensures forall f :: Attestation(f) ==> v.Raised(f)
    ensures v.Status() != NotReaped
    ensures v.Raised(WorkspaceSnapshotWritten) <==> !v.Raised(WorkspaceSnapshotOverflow)
  {
  }

  lemma NoErrorMeansFullyAttested(env: Environment)
    ensures var r := ReportOf(env);
            r.Some? && r.value.outcome != SupervisorError ==> FullyAttested(r.value)
  {
    SettledWithoutLaunch(env);
    var s := Settled(env);
    if s.Some? {
      var v := Verdict(env, s.value);
      if !v.Error() {
        NoErrorMeansRaised(v);
        assert v.Report().flags == v.Flags() && v.Report().status == v.Status();
      }
    }
  }

  lemma UnusedFlagsStayClear(env: Environment)
    ensures var r := ReportOf(env);
            r.Some? ==> RuntimeSnapshotValidated !in r.value.flags && WorkspaceBaselineValidated !in r.value.flags
                        && AllowedToolsValidated !in r.value.flags && PolicyValidated !in r.value.flags
  {
  }

  /** What the loop keeps about its two limits. */
  ghost predicate LimitsKept(s: Loop, limits: Limits, deadline: U64, finished: U64) {
    && (s.cpuLimitReached ==> s.cumulativeCpu >= limits.cpu)
    && (s.wallLimitReached ==> s.infrastructureError || finished >= deadline)
  }

  lemma RoundKeepsLimits(s: Loop, primary: nat, limits: Limits, deadline: U64, r: Round, finished: U64)
    requires s.Valid() && LimitsKept(s, limits, deadline, finished) && r.now <= finished
    ensures var t := AfterRound(s, primary, limits, deadline, r).state;
            && LimitsKept(t, limits, deadline, finished)
            && t.cumulativeCpu >= s.cumulativeCpu
            && t.cumulativeCpu >= SaturatingAdd(t.tally.user, t.tally.system)
  {
  }

  lemma {:induction false} LoopKeepsLimits(s: Loop, primary: nat, limits: Limits, deadline: U64,
                                           rounds: seq<Round>, finished: U64)
    requires s.Valid() && LimitsKept(s, limits, deadline, finished)
    requires forall k :: 0 <= k < |rounds| ==> rounds[k].now <= finished
    ensures var e := Looped(s, primary, limits, deadline, rounds);
            LimitsKept(e.state, limits, deadline, finished) && e.state.cumulativeCpu >= s.cumulativeCpu
    decreases |rounds|
  {
    if rounds != [] {
      var t := AfterRound(s, primary, limits, deadline, rounds[0]);
      RoundKeepsLimits(s, primary, limits, deadline, rounds[0], finished);
      if !t.exit {
        LoopKeepsLimits(t.state, primary, limits, deadline, rounds[1..], finished);
      }
    }
  }

  lemma CpuOfVerdict(v: Verdict)
    requires v.s.cpuLimitReached ==> v.s.cumulativeCpu >= v.env.limits.cpu
    ensures v.Raised(CpuLimitReached) <==> v.Cpu() >= v.env.limits.cpu
    ensures v.Cpu() >= SaturatingAdd(v.s.tally.user, v.s.tally.system)
  {
  }

  lemma SettledKeepsCpuLimit(env: Environment)
    ensures var s := Settled(env); s.Some? && s.value.cpuLimitReached ==> s.value.cumulativeCpu >= env.limits.cpu
  {
    if env.Launched() {
      forall k | 0 <= k < |env.rounds| ensures env.rounds[k].now <= U64_MAX {
      }
      LoopKeepsLimits(Begun(env), env.forkedPid, env.limits, env.Deadline(), env.rounds, U64_MAX);
    }
  }

  /** The CPU flag is exact, and the reported total covers what wait4 accounted. */
  lemma CpuFlagIsExact(env: Environment)
    ensures var r := ReportOf(env);
            r.Some? ==>
              && (CpuLimitReached in r.value.flags <==> r.value.cumulativeCpu >= env.limits.cpu)
              && r.value.cumulativeCpu >= SaturatingAdd(r.value.tally.user, r.value.tally.system)
  {
    SettledKeepsCpuLimit(env);
    var s := Settled(env);
    if s.Some? {
      var v := Verdict(env, s.value);
      CpuOfVerdict(v);
      assert ReportOf(env) == Some(v.Report());
      assert v.Report().flags == v.Flags() && v.Report().cumulativeCpu == v.Cpu() && v.Report().tally == v.s.tally;
    }
  }

  /** Under a clock that never runs backwards and a deadline that does not
      saturate, the wall flag of a result without error is exact. */
  lemma WallFlagIsExact(env: Environment)
    requires forall k :: 0 <= k < |env.rounds| ==> env.rounds[k].now <= env.finished
    requires env.started + env.limits.wall <= U64_MAX
    ensures var r := ReportOf(env);
            r.Some? && r.value.outcome != SupervisorError ==>
              (WallLimitReached in r.value.flags <==> r.value.wallUsec >= env.limits.wall)
  {
    var s := Settled(env);
    if s.Some? {
      SettledWithoutLaunch(env);
      if env.Launched() {
        LoopKeepsLimits(Begun(env), env.forkedPid, env.limits, env.Deadline(), env.rounds, env.finished);
        assert s.value.wallLimitReached ==> s.value.infrastructureError || env.finished >= env.Deadline();
      }
      var v := Verdict(env, s.value);
      assert !v.Error() ==> (v.Raised(WallLimitReached) <==> v.Finished() >= env.Deadline());
    }
  }

  lemma NormalVerdict(v: Verdict)
    requires v.env.Launched() || v.s.infrastructureError
    requires !v.Error() && ClassifyOutcome(v.Flags(), v.Status(), v.ExitCode()) == Normal
    ensures forall f :: v.Raised(f) <==> Attestation(f) || f == WorkspaceSnapshotWritten
    ensures v.Status() == Exited && v.ExitCode() == 0 && !v.env.signalled
  {
    NoErrorMeansRaised(v);
    NormalMeansClear(v.Flags(), v.Status(), v.ExitCode());
    assert !v.Raised(WorkspaceSnapshotOverflow) && !v.Raised(StdoutOverflow) && !v.Raised(StderrOverflow)
           && !v.Raised(CpuLimitReached) && !v.Raised(WallLimitReached);
  }

  /** A normal outcome is claimed only when nothing at all went wrong. */
  lemma NormalOutcome(env: Environment)
    ensures var r := ReportOf(env);
            r.Some? && r.value.outcome == Normal ==>
              && (forall f :: f in r.value.flags <==> Attestation(f) || f == WorkspaceSnapshotWritten)
              && r.value.status == Exited && r.value.exitCode == 0 && !env.signalled
  {
    SettledWithoutLaunch(env);
    var s := Settled(env);
    if s.Some? {
      var v := Verdict(env, s.value);
      var r := v.Report();
      assert ReportOf(env) == Some(r) && r.flags == v.Flags() && r.status == v.Status() && r.exitCode == v.ExitCode();
      if r.outcome == Normal {
        NormalVerdict(v);
      }
    }
  }

  /** Resource outcomes in the order they take precedence. */
  const PRECEDENCE: seq<(Flag, Outcome)> :=
    [(WorkspaceSnapshotOverflow, SnapshotOverflowed), (StdoutOverflow, StdoutOverflowed),
     (StderrOverflow, StderrOverflowed), (CpuLimitReached, CpuLimit), (WallLimitReached, WallTimeout)]

  predicate FirstRaised(flags: set<Flag>, k: nat)
    requires k < |PRECEDENCE|
  {
    PRECEDENCE[k].0 in flags && forall j :: 0 <= j < k ==> PRECEDENCE[j].0 !in flags
  }

  /** The outcome is that of the first resource flag raised; without one, that of
      the process. */
  lemma OutcomeIsFirstRaised(flags: set<Flag>, status: ProcessStatus, exitCode: int)
    ensures var outcome := ClassifyOutcome(flags, status, exitCode);
      && (forall k :: 0 <= k < |PRECEDENCE| && FirstRaised(flags, k) ==> outcome == PRECEDENCE[k].1)
      && ((forall k :: 0 <= k < |PRECEDENCE| ==> PRECEDENCE[k].0 !in flags) ==>
            && (outcome == Signal <==> status == Signaled)
            && (outcome == SupervisorError <==> status == NotReaped)
            && (outcome == Normal <==> status == Exited && exitCode == 0)
            && (outcome == Nonzero <==> status == Exited && exitCode != 0))
  {
    assert PRECEDENCE[0].0 == WorkspaceSnapshotOverflow && PRECEDENCE[1].0 == StdoutOverflow
           && PRECEDENCE[2].0 == StderrOverflow && PRECEDENCE[3].0 == CpuLimitReached && PRECEDENCE[4].0 == WallLimitReached;
  }

  lemma NormalMeansClear(flags: set<Flag>, status: ProcessStatus, exitCode: int)
    ensures ClassifyOutcome(flags, status, exitCode) == Normal <==>
              && WorkspaceSnapshotOverflow !in flags && StdoutOverflow !in flags && StderrOverflow !in flags
              && CpuLimitReached !in flags && WallLimitReached !in flags && status == Exited && exitCode == 0
  {
  }
}
