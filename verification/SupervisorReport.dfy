/** Every field of the candidate supervisor's report in terms of what its
    environment did: the child's output, its exit, the clock, and the calls that
    failed. */
module SupervisorReport {
  import opened Options
  import opened Words
  import opened ProcessTree
  import opened Supervisor
  import opened SupervisorMain
  import opened SupervisorTree
  import Capture

  // ---------- the wait status word ----------

  /** The status word of a normal exit, and of a death by signal with or without a
      core dump. */
  function ExitWord(code: nat): int { 256 * code }
  function SignalWord(signal: nat, core: bool): int { signal + if core then 128 else 0 }

  lemma ExitWordDecodes(code: nat)
    requires code < 256
    ensures WifExited(ExitWord(code)) && WexitStatus(ExitWord(code)) == code && !WifSignaled(ExitWord(code))
  {
  }

  lemma SignalWordDecodes(signal: nat, core: bool)
    requires 1 <= signal <= 126
    ensures var w := SignalWord(signal, core); WifSignaled(w) && WtermSig(w) == signal && !WifExited(w)
  {
  }

  // ---------- the child's output ----------

  /** A closed stream has been read to its end or one octet past its cap. */
  predicate StreamTrue(s: Stream) {
    && s.observed <= s.total && s.observed <= s.cap + 1
    && if s.open then s.observed <= s.cap && !s.overflow
       else s.observed == Min(s.total, s.cap + 1) && (s.overflow <==> s.total > s.cap)
  }

  lemma DrainKeepsTrue(s: Stream, schedule: seq<Capture.ReadEvent>)
    requires StreamTrue(s)
    ensures StreamTrue(OnDrain(s, schedule).next)
  {
    if s.open {
      Capture.DrainedMeaning(s.cap, s.total, s.observed, schedule);
    }
  }

  predicate StreamsTrue(s: Loop, env: Environment) {
    && StreamTrue(s.out) && s.out.cap == env.limits.stdoutCap && s.out.total == env.stdoutTotal
    && StreamTrue(s.err) && s.err.cap == env.limits.stderrCap && s.err.total == env.stderrTotal
  }

  lemma RoundKeepsStreams(s: Loop, env: Environment, r: Round)
    requires s.Valid() && StreamsTrue(s, env) && env.Launched()
    ensures StreamsTrue(AfterRound(s, env.forkedPid, env.limits, env.Deadline(), r).state, env)
  {
    DrainKeepsTrue(s.out, r.stdout);
    DrainKeepsTrue(s.err, r.stderr);
  }

  /** A loop that ends without an error has closed every pipe and reaped everything. */
  lemma RoundEnds(s: Loop, primary: nat, limits: Limits, deadline: U64, r: Round)
    requires s.Valid()
    ensures var t := AfterRound(s, primary, limits, deadline, r);
            && (s.infrastructureError ==> t.state.infrastructureError)
            && (t.exit && !t.state.infrastructureError ==> Finished(t.state))
  {
  }

  lemma {:induction false} LoopKeepsStreams(s: Loop, env: Environment, rounds: seq<Round>)
    requires s.Valid() && StreamsTrue(s, env) && env.Launched()
    ensures var e := Looped(s, env.forkedPid, env.limits, env.Deadline(), rounds);
            && StreamsTrue(e.state, env) && (s.infrastructureError ==> e.state.infrastructureError)
            && (e.exited && !e.state.infrastructureError ==> Finished(e.state))
    decreases |rounds|
  {
    if rounds != [] {
      var t := AfterRound(s, env.forkedPid, env.limits, env.Deadline(), rounds[0]);
      RoundKeepsStreams(s, env, rounds[0]);
      RoundEnds(s, env.forkedPid, env.limits, env.Deadline(), rounds[0]);
      if !t.exit {
        LoopKeepsStreams(t.state, env, rounds[1..]);
      }
    }
  }

  predicate OutputSettled(env: Environment, s: Loop) {
    && (s.out.overflow ==> env.stdoutTotal > env.limits.stdoutCap)
    && (s.err.overflow ==> env.stderrTotal > env.limits.stderrCap)
    && s.out.observed <= Min(env.stdoutTotal, env.limits.stdoutCap + 1)
    && s.err.observed <= Min(env.stderrTotal, env.limits.stderrCap + 1)
    && (!s.infrastructureError ==> StreamsTrue(s, env) && Finished(s))
  }

  /** What is settled after a loop that ended without an error is where it ended. */
  lemma SettledStreams(env: Environment)
    requires env.Launched() && Settled(env).Some?
    ensures var s := Settled(env).value;
            && OutputSettled(env, s)
            && (!s.infrastructureError ==>
                  s == Looped(Begun(env), env.forkedPid, env.limits, env.Deadline(), env.rounds).state)
  {
    var e := Looped(Begun(env), env.forkedPid, env.limits, env.Deadline(), env.rounds);
    LoopKeepsStreams(Begun(env), env, env.rounds);
    DrainKeepsTrue(e.state.out, env.lastStdout);
    DrainKeepsTrue(e.state.err, env.lastStderr);
    if Finished(e.state) {
      assert OnReady(e.state.ready, env.lastReady).next == e.state.ready;
    }
  }

  /** The report is that of the verdict on the settled loop. */
  lemma VerdictOf(env: Environment) returns (v: Verdict)
    requires ReportOf(env).Some?
    ensures Settled(env).Some? && v == Verdict(env, Settled(env).value) && ReportOf(env).value == v.Report()
  {
    v := Verdict(env, Settled(env).value);
  }

  lemma ReportedFlags(v: Verdict)
    ensures forall f :: f in v.Report().flags <==> v.Raised(f)
    ensures v.Report().outcome != SupervisorError ==> !v.Error()
  {
  }

  /** Overflow flags and counts, in an error-free report and in any. */
  predicate OutputTold(env: Environment, r: Report) {
    && (StdoutOverflow in r.flags ==> env.stdoutTotal > env.limits.stdoutCap)
    && (StderrOverflow in r.flags ==> env.stderrTotal > env.limits.stderrCap)
    && r.stdoutObserved <= Min(env.stdoutTotal, env.limits.stdoutCap + 1)
    && r.stderrObserved <= Min(env.stderrTotal, env.limits.stderrCap + 1)
    && (r.outcome != SupervisorError ==>
          && (StdoutOverflow in r.flags <==> env.stdoutTotal > env.limits.stdoutCap)
          && (StderrOverflow in r.flags <==> env.stderrTotal > env.limits.stderrCap)
          && r.stdoutObserved == Min(env.stdoutTotal, env.limits.stdoutCap + 1)
          && r.stderrObserved == Min(env.stderrTotal, env.limits.stderrCap + 1))
  }

  lemma VerdictOutput(v: Verdict)
    requires OutputSettled(v.env, v.s)
    ensures OutputTold(v.env, v.Report())
  {
    var r := v.Report();
    ReportedFlags(v);
    assert v.Raised(StdoutOverflow) == v.s.out.overflow && v.Raised(StderrOverflow) == v.s.err.overflow;
    assert r.stdoutObserved == v.s.out.observed && r.stderrObserved == v.s.err.observed;
  }

  /** What the report says of the child's output: an overflow flag is set only if
      more than the cap was written, and the counts never exceed what was; without
      an error flag and count are exact. */
  lemma OutputIsExact(env: Environment)
    requires env.Launched()
    ensures var r := ReportOf(env); r.Some? ==> OutputTold(env, r.value)
  {
    if ReportOf(env).Some? {
      var v := VerdictOf(env);
      SettledStreams(env);
      VerdictOutput(v);
    }
  }

  // ---------- how the child ended ----------

  /** The status, code and signal are those of the last child collected under the
      primary's pid. */
  ghost predicate EndTold(primary: nat, waits: seq<WaitResult>, r: Report) {
    && (PrimaryReaped in r.flags <==> exists k :: 0 <= k < |waits| && CollectsPrimary(primary, waits, k))
    && (PrimaryReaped !in r.flags ==> r.status == NotReaped && r.exitCode == -1 && r.signal == 0)
    && (forall k, code: nat :: 0 <= k < |waits| && LastPrimary(primary, waits, k) && code < 256
                               && waits[k].status == ExitWord(code) ==>
          r.status == Exited && r.exitCode == code && r.signal == 0)
    && (forall k, signal: nat, core :: 0 <= k < |waits| && LastPrimary(primary, waits, k) && 1 <= signal <= 126
                                       && waits[k].status == SignalWord(signal, core) ==>
          r.status == Signaled && r.exitCode == -1 && r.signal == signal)
  }

  lemma OneLast(primary: nat, waits: seq<WaitResult>, j: nat, k: nat)
    requires j < |waits| && k < |waits| && LastPrimary(primary, waits, j) && LastPrimary(primary, waits, k)
    ensures j == k
  {
  }

  /** The recorded status is that of the last collection, whichever that was. */
  lemma LastRecorded(primary: nat, waits: seq<WaitResult>, k: nat)
    requires k < |waits| && LastPrimary(primary, waits, k)
    ensures var t := Tallied(primary, FRESH, waits); t.primaryReaped && waits[k].status == t.primaryStatus
  {
    RecordedIsReturned(primary, waits);
    var t := Tallied(primary, FRESH, waits);
    var j :| 0 <= j < |waits| && LastPrimary(primary, waits, j) && waits[j].status == t.primaryStatus;
    OneLast(primary, waits, j, k);
  }

  lemma DecodedEnd(v: Verdict)
    ensures var r, t := v.Report(), v.s.tally;
            && (PrimaryReaped in r.flags <==> t.primaryReaped)
            && (!t.primaryReaped ==> r.status == NotReaped && r.exitCode == -1 && r.signal == 0)
            && (forall code: nat :: t.primaryReaped && code < 256 && t.primaryStatus == ExitWord(code) ==>
                  r.status == Exited && r.exitCode == code && r.signal == 0)
            && (forall signal: nat, core :: t.primaryReaped && 1 <= signal <= 126 && t.primaryStatus == SignalWord(signal, core) ==>
                  r.status == Signaled && r.exitCode == -1 && r.signal == signal)
  {
    ReportedFlags(v);
    assert v.Raised(PrimaryReaped) == v.s.tally.primaryReaped;
    assert v.Report().status == v.Status() && v.Report().exitCode == v.ExitCode();
  }

  lemma VerdictEnd(v: Verdict, primary: nat, waits: seq<WaitResult>)
    requires v.s.tally == Tallied(primary, FRESH, waits)
    ensures EndTold(primary, waits, v.Report())
  {
    DecodedEnd(v);
    RecordedIsReturned(primary, waits);
    forall k | 0 <= k < |waits| && LastPrimary(primary, waits, k)
      ensures v.s.tally.primaryReaped && waits[k].status == v.s.tally.primaryStatus
    {
      LastRecorded(primary, waits, k);
    }
  }

  lemma EndIsThePrimarys(env: Environment)
    requires env.Launched()
    ensures var r := ReportOf(env); r.Some? ==> EndTold(env.forkedPid, Returned(env), r.value)
  {
    if ReportOf(env).Some? {
      var v := VerdictOf(env);
      ReportedTally(env);
      VerdictEnd(v, env.forkedPid, Returned(env));
    }
  }

  // ---------- flags about processes and the snapshot ----------

  /** The flags and numbers that report a fact of the environment. */
  ghost predicate FactsTold(env: Environment, waits: seq<WaitResult>, r: Report)
    requires env.forkedPid >= 0
  {
    && RequestValidated in r.flags
    && (ProgramDescriptorValidated in r.flags <==> env.programValid)
    && (FixtureDescriptorValidated in r.flags <==> env.fixtureValid)
    && (AllDescendantsReaped in r.flags <==> PrimaryReaped in r.flags && NoChildren in waits)
    && (SolePid1 in r.flags <==> AllDescendantsReaped in r.flags && env.soleInit)
    && r.wallUsec == (if 0 < env.finished && env.started <= env.finished then env.finished - env.started else 0)
    && r.tally == Tallied(env.forkedPid, FRESH, waits)
  }

  /** The snapshot is claimed only of a namespace known to be quiet, and as one of
      two things. */
  ghost predicate SnapshotTold(env: Environment, r: Report) {
    var taken := && SolePid1 in r.flags && env.snapshot.result >= 0 && env.snapshot.buffered
                 && env.snapshot.used > 0 && env.snapshot.written;
    var full := env.snapshot.result == 1 || env.snapshot.overflow || env.snapshot.used == env.limits.snapshotCap + 1;
    && (WorkspaceSnapshotWritten in r.flags <==> taken && !full)
    && (WorkspaceSnapshotOverflow in r.flags <==> taken && full)
    && r.snapshotBytes == (if taken then env.snapshot.used else 0)
  }

  lemma VerdictFacts(v: Verdict, waits: seq<WaitResult>)
    requires v.env.forkedPid >= 0 && v.s.tally == Tallied(v.env.forkedPid, FRESH, waits)
    ensures FactsTold(v.env, waits, v.Report())
  {
    var r := v.Report();
    RecordedIsReturned(v.env.forkedPid, waits);
    ReportedFlags(v);
    assert r.tally == v.s.tally && r.wallUsec == v.Finished() - v.env.started;
    assert PrimaryReaped in r.flags <==> v.s.tally.primaryReaped;
    assert AllDescendantsReaped in r.flags <==> v.Quiescent();
    assert SolePid1 in r.flags <==> v.Sole();
    assert RequestValidated in r.flags <==> v.Raised(RequestValidated);
    assert ProgramDescriptorValidated in r.flags <==> v.Raised(ProgramDescriptorValidated);
    assert FixtureDescriptorValidated in r.flags <==> v.Raised(FixtureDescriptorValidated);
  }

  lemma VerdictSnapshot(v: Verdict)
    ensures SnapshotTold(v.env, v.Report())
  {
    ReportedFlags(v);
    assert SolePid1 in v.Report().flags <==> v.Sole();
    assert WorkspaceSnapshotWritten in v.Report().flags <==> v.Raised(WorkspaceSnapshotWritten);
    assert WorkspaceSnapshotOverflow in v.Report().flags <==> v.Raised(WorkspaceSnapshotOverflow);
  }

  lemma FactsAreTold(env: Environment)
    requires env.Launched()
    ensures var r := ReportOf(env); r.Some? ==> FactsTold(env, Returned(env), r.value) && SnapshotTold(env, r.value)
  {
    if ReportOf(env).Some? {
      var v := VerdictOf(env);
      ReportedTally(env);
      VerdictFacts(v, Returned(env));
      VerdictSnapshot(v);
    }
  }

  // ---------- CPU time ----------

  /** CPU accounted so far and CPU of the living, clipped. */
  function Sample(waits: seq<WaitResult>, live: int): nat {
    Min(Sum(UserTimes(waits)) + Sum(SystemTimes(waits)) + (if 0 <= live <= U64_MAX then live else 0), U64_MAX)
  }

  lemma SampleIs(primary: nat, waits: seq<WaitResult>, live: int)
    ensures CpuSample(Tallied(primary, FRESH, waits), live) == Sample(waits, live)
  {
    TotalsAreClippedSums(primary, waits);
  }

  lemma RoundSample(s: Loop, primary: nat, limits: Limits, deadline: U64, r: Round)
    requires s.Valid()
    ensures var t := AfterRound(s, primary, limits, deadline, r).state;
            && t.tally == Tallied(primary, s.tally, Consumed(r.waits))
            && t.cumulativeCpu == Later(s.cumulativeCpu, CpuSample(t.tally, r.liveCpu))
  {
  }

  /** The samples of successive rounds, after `waits` have been collected. */
  function Samples(waits: seq<WaitResult>, rounds: seq<Round>): seq<nat>
    decreases |rounds|
  {
    if rounds == [] then []
    else
      var now := waits + Consumed(rounds[0].waits);
      [Sample(now, rounds[0].liveCpu)] + Samples(now, rounds[1..])
  }

  function Largest(base: nat, xs: seq<nat>): nat
    decreases |xs|
  {
    if xs == [] then base else Largest(if xs[0] > base then xs[0] else base, xs[1..])
  }

  lemma {:induction false} LargestIsOne(base: nat, xs: seq<nat>)
    ensures base <= Largest(base, xs) && forall k :: 0 <= k < |xs| ==> xs[k] <= Largest(base, xs)
    ensures Largest(base, xs) == base || Largest(base, xs) in xs
    decreases |xs|
  {
    if xs != [] {
      var next := if xs[0] > base then xs[0] else base;
      LargestIsOne(next, xs[1..]);
      forall k | 0 <= k < |xs| ensures xs[k] <= Largest(base, xs) {
        assert k > 0 ==> xs[k] == xs[1..][k - 1];
      }
    }
  }

  lemma {:induction false} LoopCpu(s: Loop, primary: nat, limits: Limits, deadline: U64, rounds: seq<Round>, waits: seq<WaitResult>)
    requires s.Valid() && s.tally == Tallied(primary, FRESH, waits)
    ensures var e := Looped(s, primary, limits, deadline, rounds);
            e.state.cumulativeCpu == Largest(s.cumulativeCpu, Samples(waits, rounds[..e.used]))
    decreases |rounds|
  {
    if rounds != [] {
      var e, t := Looped(s, primary, limits, deadline, rounds), AfterRound(s, primary, limits, deadline, rounds[0]);
      var now := waits + Consumed(rounds[0].waits);
      RoundSample(s, primary, limits, deadline, rounds[0]);
      TalliedTogether(primary, FRESH, waits, Consumed(rounds[0].waits));
      SampleIs(primary, now, rounds[0].liveCpu);
      var done := rounds[..e.used];
      SamplesStep(waits, done, s.cumulativeCpu);
      if t.exit {
        assert done[1..] == [];
      } else {
        LoopCpu(t.state, primary, limits, deadline, rounds[1..], now);
        assert done[1..] == rounds[1..][..e.used - 1];
      }
    }
  }

  lemma SamplesStep(waits: seq<WaitResult>, rounds: seq<Round>, base: nat)
    requires rounds != []
    ensures var now := waits + Consumed(rounds[0].waits);
            var sample := Sample(now, rounds[0].liveCpu);
            Largest(base, Samples(waits, rounds)) == Largest(if sample > base then sample else base, Samples(now, rounds[1..]))
  {
    var now := waits + Consumed(rounds[0].waits);
    var xs := Samples(waits, rounds);
    assert xs[0] == Sample(now, rounds[0].liveCpu) && xs[1..] == Samples(now, rounds[1..]);
  }

  /** Sample `k` is of everything collected up to round `k` and of what lived then. */
  lemma {:induction false} SampleOfRound(waits: seq<WaitResult>, rounds: seq<Round>, k: nat)
    requires k < |rounds|
    ensures |Samples(waits, rounds)| == |rounds|
    ensures Samples(waits, rounds)[k] == Sample(waits + LoopWaits(rounds[..k + 1]), rounds[k].liveCpu)
    decreases |rounds|
  {
    var now := waits + Consumed(rounds[0].waits);
    assert rounds[..k + 1][0] == rounds[0] && rounds[..k + 1][1..] == rounds[1..][..k];
    assert waits + (Consumed(rounds[0].waits) + LoopWaits(rounds[1..][..k])) == now + LoopWaits(rounds[1..][..k]);
    if k > 0 {
      SampleOfRound(now, rounds[1..], k - 1);
      assert rounds[1..][..k - 1 + 1] == rounds[1..][..k];
    } else {
      assert rounds[1..][..0] == [] && now + [] == now;
      if |rounds| > 1 {
        SampleOfRound(now, rounds[1..], 0);
      }
    }
  }

  /** The rounds the loop went through. */
  function Rounds(env: Environment): (r: seq<Round>)
    requires env.Launched()
    ensures r <= env.rounds
  {
    env.rounds[..Looped(Begun(env), env.forkedPid, env.limits, env.Deadline(), env.rounds).used]
  }

  /** The CPU total is the largest of the loop's samples and the final accounting:
      never less than any of them, and one of them. */
  ghost predicate CpuTold(rounds: seq<Round>, waits: seq<WaitResult>, r: Report) {
    && Sample(waits, 0) <= r.cumulativeCpu
    && (forall k :: 0 <= k < |rounds| ==> Sample(LoopWaits(rounds[..k + 1]), rounds[k].liveCpu) <= r.cumulativeCpu)
    && (r.cumulativeCpu == Sample(waits, 0)
        || exists k :: 0 <= k < |rounds| && r.cumulativeCpu == Sample(LoopWaits(rounds[..k + 1]), rounds[k].liveCpu))
  }

  lemma VerdictCpu(v: Verdict, primary: nat, rounds: seq<Round>, waits: seq<WaitResult>)
    requires v.s.tally == Tallied(primary, FRESH, waits)
    requires v.s.cumulativeCpu == Largest(0, Samples([], rounds))
    ensures CpuTold(rounds, waits, v.Report())
  {
    var xs := Samples([], rounds);
    assert v.Report().cumulativeCpu == v.Cpu();
    SampleIs(primary, waits, 0);
    LargestIsOne(0, xs);
    forall k | 0 <= k < |rounds| ensures |xs| == |rounds| && xs[k] == Sample(LoopWaits(rounds[..k + 1]), rounds[k].liveCpu) {
      SampleOfRound([], rounds, k);
      assert [] + LoopWaits(rounds[..k + 1]) == LoopWaits(rounds[..k + 1]);
    }
    if v.s.cumulativeCpu in xs {
      var k :| 0 <= k < |xs| && xs[k] == v.s.cumulativeCpu;
      SamplesLength([], rounds);
    }
  }

  lemma {:induction false} SamplesLength(waits: seq<WaitResult>, rounds: seq<Round>)
    ensures |Samples(waits, rounds)| == |rounds|
    decreases |rounds|
  {
    if rounds != [] {
      SamplesLength(waits + Consumed(rounds[0].waits), rounds[1..]);
    }
  }

  lemma CpuIsTold(env: Environment)
    requires env.Launched()
    ensures var r := ReportOf(env); r.Some? ==> CpuTold(Rounds(env), Returned(env), r.value)
  {
    if ReportOf(env).Some? {
      var v := VerdictOf(env);
      ReportedTally(env);
      LoopCpu(Begun(env), env.forkedPid, env.limits, env.Deadline(), env.rounds, []);
      VerdictCpu(v, env.forkedPid, Rounds(env), Returned(env));
    }
  }
}
