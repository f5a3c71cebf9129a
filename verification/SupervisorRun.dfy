/** The candidate supervisor as the program runs it, step by step, proved to
    compute the functions of modules Supervisor and SupervisorMain.  Signals sent
    by kill(2) have no effect of their own here: whatever they cause reaches the
    supervisor through wait4, which the environment decides. */
module SupervisorRun {
  import opened Options
  import opened Words
  import opened ProcessTree
  import opened Supervisor
  import opened SupervisorMain
  import opened SupervisorTree
  import opened SupervisorReport
  import opened SupervisorOutcome
  import Capture

  lemma FrontSplits(results: seq<WaitResult>, used: nat)
    requires 0 < used <= |results|
    ensures results[..used] == [results[0]] + results[1..][..used - 1]
  {
  }

  lemma {:induction false} UsedIsConsumed(results: seq<WaitResult>, used: nat)
    requires used <= |results|
    requires forall i :: 0 <= i < used - 1 ==> results[i].Collected? || results[i].Interrupted?
    requires used < |results| ==> used > 0 && !results[used - 1].Collected? && !results[used - 1].Interrupted?
    ensures results[..used] == Consumed(results)
  {
    if results != [] && (results[0].Collected? || results[0].Interrupted?) {
      var rest := results[1..];
      if used == 0 {
        assert false;
      } else {
        UsedIsConsumed(rest, used - 1);
        FrontSplits(results, used);
      }
    }
  }

  class Supervision {
    const primaryPid: nat
    const limits: Limits
    const deadline: U64
    const reaper: SupervisorState
    var out: Stream
    var err: Stream
    var ready: ReadyPipe
    var infrastructureError: bool
    var terminating: bool
    var wallLimitReached: bool
    var cpuLimitReached: bool
    var cleanupDeadline: U64
    var cumulativeCpu: U64

    ghost predicate Valid()
      reads this, reaper
    {
      reaper.primaryPid == primaryPid && out.Valid() && err.Valid()
    }

    ghost function View(): Loop
      reads this, reaper
    {
      Loop(reaper.tally, out, err, ready, infrastructureError, terminating, wallLimitReached, cpuLimitReached,
           cleanupDeadline, cumulativeCpu)
    }

    constructor (env: Environment)
      requires env.Launched()
      ensures Valid() && View() == Begun(env) && fresh(reaper)
      ensures primaryPid == env.forkedPid && limits == env.limits && deadline == env.Deadline()
    {
      primaryPid, limits, deadline := env.forkedPid, env.limits, env.Deadline();
      reaper := new SupervisorState(env.forkedPid);
      out := Stream(env.limits.stdoutCap, env.stdoutTotal, 0, true, false);
      err := Stream(env.limits.stderrCap, env.stderrTotal, 0, true, false);
      ready := ReadyPipe(true, false, false);
      infrastructureError, terminating, wallLimitReached, cpuLimitReached := false, false, false, false;
      cleanupDeadline, cumulativeCpu := 0, 0;
    }

    method Reap(waits: seq<WaitResult>) returns (failed: bool)
      requires Valid()
      modifies reaper
      ensures Valid() && View() == old(View()).(tally := Tallied(primaryPid, old(reaper.tally), Consumed(waits)))
      ensures failed == ReapFails(waits)
    {
      var status, used := reaper.ReapAvailable(waits);
      UsedIsConsumed(waits, used);
      failed := status != 0;
    }

    method Account(liveCpu: int)
      modifies this`cumulativeCpu, this`cpuLimitReached
      ensures cumulativeCpu == Later(old(cumulativeCpu), CpuSample(reaper.tally, liveCpu))
      ensures cpuLimitReached == (old(cpuLimitReached) || cumulativeCpu >= limits.cpu)
    {
      var totalCpu := CpuSample(reaper.tally, liveCpu);
      if totalCpu > cumulativeCpu {
        cumulativeCpu := totalCpu;
      }
      if cumulativeCpu >= limits.cpu {
        cpuLimitReached := true;
      }
    }

    /** The first reason to stop latches termination and its cleanup deadline. */
    method Latch(signal: bool, now: U64)
      modifies this`terminating, this`cleanupDeadline
      ensures var latch := reaper.tally.primaryReaped || out.overflow || err.overflow || wallLimitReached
                           || cpuLimitReached || signal || infrastructureError;
              && terminating == (old(terminating) || latch)
              && cleanupDeadline == if latch && !old(terminating) then SaturatingAdd(now, CLEANUP_TIMEOUT_USEC)
                                    else old(cleanupDeadline)
    {
      if (reaper.tally.primaryReaped || out.overflow || err.overflow || wallLimitReached || cpuLimitReached
          || signal || infrastructureError) && !terminating {
        terminating := true;
        cleanupDeadline := SaturatingAdd(now, CLEANUP_TIMEOUT_USEC);
      }
    }

    /** Reaping and CPU accounting. */
    method Meter(r: Round)
      requires Valid()
      modifies this`infrastructureError, this`cumulativeCpu, this`cpuLimitReached, reaper
      ensures Valid() && reaper.tally == Tallied(primaryPid, old(reaper.tally), Consumed(r.waits))
      ensures cumulativeCpu == Later(old(cumulativeCpu), CpuSample(reaper.tally, r.liveCpu))
      ensures cpuLimitReached == (old(cpuLimitReached) || cumulativeCpu >= limits.cpu)
      ensures infrastructureError == (old(infrastructureError) || ReapFails(r.waits) || r.liveCpu < 0)
    {
      var reapFailed := Reap(r.waits);
      infrastructureError := infrastructureError || reapFailed || r.liveCpu < 0;
      Account(r.liveCpu);
    }

    /** The clock, read once; an unreadable clock counts as the deadline. */
    method ReadClock(reading: U64) returns (now: U64)
      modifies this`infrastructureError, this`wallLimitReached
      ensures now == if reading == 0 then deadline else reading
      ensures infrastructureError == (old(infrastructureError) || reading == 0)
      ensures wallLimitReached == (old(wallLimitReached) || now >= deadline)
    {
      now := reading;
      if now == 0 {
        infrastructureError := true;
        now := deadline;
      }
      if now >= deadline {
        wallLimitReached := true;
      }
    }

    method Observe(r: Round) returns (now: U64)
      requires Valid()
      modifies this, reaper
      ensures Valid() && View() == Observed(old(View()), primaryPid, limits, deadline, r)
      ensures now == if r.now == 0 then deadline else r.now
    {
      Meter(r);
      now := ReadClock(r.now);
      Latch(r.signal, now);
    }

    method DrainAll(r: Round)
      requires Valid()
      modifies this
      ensures Valid() && View() == Drains(old(View()), r)
    {
      if r.pollFailed {
        infrastructureError := true;
      }
      var o := OnDrain(out, r.stdout);
      out := o.next;
      if o.status < 0 {
        infrastructureError := true;
        return;
      }
      var e := OnDrain(err, r.stderr);
      err := e.next;
      if e.status < 0 {
        infrastructureError := true;
        return;
      }
      var status;
      ready, status := DrainReady(ready, r.ready);
      if status != 0 {
        infrastructureError := true;
      }
    }

    /** The body of the for(;;) loop; `exit` is a break. */
    method Iterate(r: Round) returns (exit: bool)
      requires Valid()
      modifies this, reaper
      ensures Valid() && Turn(View(), exit) == AfterRound(old(View()), primaryPid, limits, deadline, r)
    {
      var now := Observe(r);
      if terminating && !reaper.tally.allReaped {
        if now >= cleanupDeadline {
          infrastructureError := true;
          return true;
        }
      }
      DrainAll(r);
      exit := reaper.tally.allReaped && !out.open && !err.open && !ready.open;
    }

    method RunLoop(rounds: seq<Round>) returns (exited: bool, used: nat)
      requires Valid()
      modifies this, reaper
      ensures Valid() && LoopEnd(View(), exited, used) == Looped(old(View()), primaryPid, limits, deadline, rounds)
    {
      exited, used := false, 0;
      ghost var goal := Looped(View(), primaryPid, limits, deadline, rounds);
      while used < |rounds| && !exited
        invariant Valid() && used <= |rounds|
        invariant exited ==> goal == LoopEnd(View(), true, used)
        invariant !exited ==> goal == var e := Looped(View(), primaryPid, limits, deadline, rounds[used..]);
                                      e.(used := e.used + used)
        decreases |rounds| - used, !exited
      {
        assert rounds[used..][1..] == rounds[used + 1..];
        exited := Iterate(rounds[used]);
        used := used + 1;
      }
    }

    /** The bounded attempt to reap what the loop left behind. */
    method Sweep(finalDeadline: U64, turns: seq<CleanupTurn>) returns (done: bool)
      requires Valid()
      modifies this`infrastructureError, reaper
      ensures Valid()
      ensures var s := SweptUp(old(reaper.tally), primaryPid, finalDeadline, turns);
              && done == s.Some?
              && (done ==> View() == old(View()).(tally := s.value.tally,
                                                  infrastructureError := old(infrastructureError) || s.value.error))
    {
      var i := 0;
      while !reaper.tally.allReaped
        invariant Valid() && i <= |turns|
        invariant SweptUp(reaper.tally, primaryPid, finalDeadline, turns[i..])
                  == SweptUp(old(reaper.tally), primaryPid, finalDeadline, turns)
        invariant View() == old(View()).(tally := reaper.tally)
        decreases |turns| - i
      {
        if i == |turns| {
          return false;
        }
        assert turns[i..][1..] == turns[i + 1..];
        var failed := Reap(turns[i].waits);
        if failed || turns[i].now >= finalDeadline {
          infrastructureError := true;
          return true;
        }
        i := i + 1;
      }
      done := true;
    }

    method DrainWhatIsLeft(env: Environment)
      requires Valid()
      modifies this
      ensures Valid()
      ensures View() == old(View()).(out := LastDrain(old(out), env.lastStdout), err := LastDrain(old(err), env.lastStderr),
                                     ready := OnReady(old(ready), env.lastReady).next.(open := false))
    {
      out := CloseStream(out, env.lastStdout);
      err := CloseStream(err, env.lastStderr);
      if ready.open {
        var status;
        ready, status := DrainReady(ready, env.lastReady);
      }
      ready := ready.(open := false);
    }
  }

  method CloseStream(s: Stream, schedule: seq<Capture.ReadEvent>) returns (r: Stream)
    requires s.Valid()
    ensures r == LastDrain(s, schedule)
  {
    r := s;
    if r.open {
      r := OnDrain(r, schedule).next;
      if r.open {
        r := r.(open := false);
      }
    }
  }

  method Settle(env: Environment) returns (settled: Option<Loop>)
    ensures settled == Settled(env)
  {
    if !env.Launched() {
      return Some(Idle());
    }
    var run := new Supervision(env);
    var exited, used := run.RunLoop(env.rounds);
    if !exited {
      return None;
    }
    var done := run.Sweep(SaturatingAdd(env.cleanupClock, CLEANUP_TIMEOUT_USEC), env.cleanup);
    if !done {
      return None;
    }
    run.DrainWhatIsLeft(env);
    settled := Some(Loop(run.reaper.tally, run.out, run.err, run.ready, run.infrastructureError, run.terminating,
                         run.wallLimitReached, run.cpuLimitReached, run.cleanupDeadline, run.cumulativeCpu));
  }

  method DecodeStatus(v: Verdict) returns (status: ProcessStatus, exitCode: int, signal: nat)
    ensures status == v.Status() && exitCode == v.ExitCode()
    ensures signal == if v.Status().Signaled? then WtermSig(v.s.tally.primaryStatus) else 0
  {
    var t := v.s.tally;
    status, exitCode, signal := NotReaped, -1, 0;
    if t.primaryReaped {
      if WifExited(t.primaryStatus) {
        status, exitCode := Exited, WexitStatus(t.primaryStatus);
      } else if WifSignaled(t.primaryStatus) {
        status, signal := Signaled, WtermSig(t.primaryStatus);
      }
    }
  }

  /** `if (c) flags |= flag;` */
  function With(flags: set<Flag>, c: bool, flag: Flag): (r: set<Flag>)
    ensures forall f :: f in r <==> f in flags || (c && f == flag)
  {
    if c then flags + {flag} else flags
  }

  /** The flags settled before the limits are judged. */
  predicate AboutDescriptors(f: Flag) {
    match f
    case RequestValidated | ProgramDescriptorValidated | FixtureDescriptorValidated => true
    case ChildNoNewPrivs | ChildPreexecDumpableDisabled | ChildSeccompInstalled => true
    case _ => false
  }

  predicate AboutSnapshot(f: Flag) {
    f == WorkspaceSnapshotWritten || f == WorkspaceSnapshotOverflow
  }

  method RaiseDescriptorFlags(v: Verdict) returns (flags: set<Flag>)
    ensures forall f :: f in flags <==> v.Raised(f) && AboutDescriptors(f)
  {
    flags := {RequestValidated};
    flags := With(flags, v.env.programValid, ProgramDescriptorValidated);
    flags := With(flags, v.env.fixtureValid, FixtureDescriptorValidated);
    flags := With(flags, v.Attested(), ChildNoNewPrivs);
    flags := With(flags, v.Attested(), ChildPreexecDumpableDisabled);
    flags := With(flags, v.Attested(), ChildSeccompInstalled);
  }

  predicate AboutLimits(f: Flag) {
    f == StdoutOverflow || f == StderrOverflow || f == WallLimitReached || f == CpuLimitReached
  }

  method RaiseLimitFlags(v: Verdict, raised: set<Flag>) returns (flags: set<Flag>)
    requires forall f :: f in raised <==> v.Raised(f) && AboutDescriptors(f)
    ensures forall f :: f in flags <==> v.Raised(f) && (AboutDescriptors(f) || AboutLimits(f))
  {
    var s := v.s;
    flags := raised;
    flags := With(flags, s.out.overflow, StdoutOverflow);
    flags := With(flags, s.err.overflow, StderrOverflow);
    flags := With(flags, s.wallLimitReached || v.Finished() >= v.env.Deadline(), WallLimitReached);
    flags := With(flags, s.cpuLimitReached || v.Cpu() >= v.env.limits.cpu, CpuLimitReached);
  }

  method RaiseFlags(v: Verdict) returns (flags: set<Flag>)
    ensures forall f :: f in flags <==> v.Raised(f) && !AboutSnapshot(f)
    ensures (StdoutOverflow in flags <==> v.s.out.overflow) && (StderrOverflow in flags <==> v.s.err.overflow)
    ensures PrimaryReaped in flags <==> v.s.tally.primaryReaped
    ensures AllDescendantsReaped in flags <==> v.s.tally.primaryReaped && v.s.tally.allReaped
  {
    flags := RaiseDescriptorFlags(v);
    flags := RaiseLimitFlags(v, flags);
    flags := With(flags, v.s.tally.primaryReaped, PrimaryReaped);
    flags := With(flags, v.Quiescent(), AllDescendantsReaped);
    flags := With(flags, v.Sole(), SolePid1);
  }

  /** The snapshot is taken only of a namespace known to be quiet. */
  method DeliverSnapshot(v: Verdict, raised: set<Flag>) returns (flags: set<Flag>, bytes: nat, failed: bool)
    requires forall f :: f in raised <==> v.Raised(f) && !AboutSnapshot(f)
    ensures flags == v.Flags()
    ensures bytes == if v.Delivered() then v.env.snapshot.used else 0
    ensures failed == (v.Sole() && !v.Delivered())
  {
    flags, bytes, failed := raised, 0, false;
    assert SolePid1 in raised <==> v.Raised(SolePid1);
    if SolePid1 in raised {
      if SnapshotDelivered(v.env.snapshot) {
        bytes := v.env.snapshot.used;
        flags := With(flags, v.TooBig(), WorkspaceSnapshotOverflow);
        flags := With(flags, !v.TooBig(), WorkspaceSnapshotWritten);
      } else {
        failed := true;
      }
    }
    forall f ensures f in flags <==> v.Raised(f) {
    }
  }

  /** What a launched supervisor's report says of its environment, field by field. */
  ghost predicate Told(env: Environment, r: Report)
    requires env.Launched()
  {
    && OutputTold(env, r)
    && EndTold(env.forkedPid, Returned(env), r)
    && FactsTold(env, Returned(env), r)
    && SnapshotTold(env, r)
    && CpuTold(Rounds(env), Returned(env), r)
    && (WallLimitReached in r.flags <==> TimedOut(env))
    && (r.outcome != SupervisorError ==> Clean(env) && OutcomeTold(env, r))
    && (Clean(env) && (forall k :: 0 <= k < |Rounds(env)| ==> ReadsHold(Rounds(env)[k])) ==> r.outcome != SupervisorError)
  }

  lemma EverythingIsTold(env: Environment)
    requires env.Launched()
    ensures var r := ReportOf(env); r.Some? ==> Told(env, r.value)
  {
    OutputIsExact(env);
    EndIsThePrimarys(env);
    FactsAreTold(env);
    CpuIsTold(env);
    OutcomeIsTold(env);
    if ReportOf(env).Some? {
      ErrorIff(env);
    }
  }

  /** What any report promises, launched or not. */
  ghost predicate Promised(env: Environment, r: Report) {
    && (r.outcome != SupervisorError ==> FullyAttested(r))
    && (r.outcome == Normal ==>
          && (forall f :: f in r.flags <==> Attestation(f) || f == WorkspaceSnapshotWritten)
          && r.status == Exited && r.exitCode == 0 && !env.signalled)
    && (CpuLimitReached in r.flags <==> r.cumulativeCpu >= env.limits.cpu)
    && r.cumulativeCpu >= SaturatingAdd(r.tally.user, r.tally.system)
    && (r.outcome != SupervisorError ==>
          && env.programValid && env.fixtureValid && env.snapshotDescriptorOpen && env.handlersInstalled
          && env.pipesCreated && env.started != 0 && env.forkedPid > 0)
  }

  lemma EverythingIsPromised(env: Environment)
    ensures var r := ReportOf(env); (!env.Launched() ==> r.Some?) && (r.Some? ==> Promised(env, r.value))
  {
    NoErrorMeansFullyAttested(env);
    NormalOutcome(env);
    CpuFlagIsExact(env);
    if !env.Launched() {
      NotLaunched(env);
    }
  }

  /** From the last readings to the result frame. */
  method Judge(v: Verdict) returns (report: Report)
    ensures report == v.Report()
  {
    var env, s := v.env, v.s;
    var error := s.infrastructureError || !v.ClockOk();
    var raised := RaiseFlags(v);
    if env.Launched() && (!v.Attested() || !v.Sole()) {
      error := true;
    }
    var status, exitCode, signal := DecodeStatus(v);
    if s.tally.primaryReaped && status.NotReaped? {
      error := true;
    }
    var flags, snapshotBytes, failed := DeliverSnapshot(v, raised);
    if failed || env.signalled {
      error := true;
    }
    var outcome := if error then SupervisorError else ClassifyOutcome(flags, status, exitCode);
    report := Result(outcome, status, exitCode, signal, flags, s.out.observed, s.err.observed, s.tally,
                     v.Finished() - env.started, v.Cpu(), snapshotBytes);
  }

  /** main after the request has been accepted.  None when the environment's
      script ends before the supervisor does. */
  method Supervise(env: Environment) returns (report: Option<Report>)
    ensures report == ReportOf(env) && (!env.Launched() ==> report.Some?)
    ensures report.Some? ==> Promised(env, report.value)
    ensures report.Some? && env.Launched() ==> Told(env, report.value)
  {
    var settled := Settle(env);
    if settled.None? {
      return None;
    }
    var r := Judge(Verdict(env, settled.value));
    report := Some(r);
    EverythingIsPromised(env);
    if env.Launched() {
      EverythingIsTold(env);
    }
  }
}
