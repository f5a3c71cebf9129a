/** When the candidate supervisor reports an error, and otherwise which outcome. */
module SupervisorOutcome {
  import opened Options
  import opened Words
  import opened ProcessTree
  import opened Supervisor
  import opened SupervisorMain
  import opened SupervisorTree
  import opened SupervisorReport
  import Capture

  // ---------- the child's attestation ----------

  /** All messages the rounds' drains take until the pipe ends. */
  function Messages(rounds: seq<Round>): seq<bool> {
    if rounds == [] then []
    else Heard(rounds[0].ready) + if ReadyToEnd(rounds[0].ready) then [] else Messages(rounds[1..])
  }

  /** What messages make of the two attestation variables. */
  function Take(seen: bool, invalid: bool, messages: seq<bool>): (bool, bool)
    decreases |messages|
  {
    if messages == [] then (seen, invalid)
    else if !messages[0] || seen then Take(seen, true, messages[1..])
    else Take(true, invalid, messages[1..])
  }

  lemma {:induction false} TakeConcat(seen: bool, invalid: bool, xs: seq<bool>, ys: seq<bool>)
    ensures Take(seen, invalid, xs + ys) == var p := Take(seen, invalid, xs); Take(p.0, p.1, ys)
    decreases |xs|
  {
    if xs == [] {
      assert xs + ys == ys;
    } else {
      assert (xs + ys)[1..] == xs[1..] + ys;
      if !xs[0] || seen {
        TakeConcat(seen, true, xs[1..], ys);
      } else {
        TakeConcat(true, invalid, xs[1..], ys);
      }
    }
  }

  /** Attested is exactly one proper message. */
  lemma {:induction false} TakeExactly(seen: bool, invalid: bool, messages: seq<bool>)
    ensures var p := Take(seen, invalid, messages);
            p.0 && !p.1 <==> !invalid && messages == (if seen then [] else [true])
    decreases |messages|
  {
    if messages != [] {
      assert messages == [messages[0]] + messages[1..];
      if !messages[0] || seen {
        TakeExactly(seen, true, messages[1..]);
      } else {
        TakeExactly(true, invalid, messages[1..]);
      }
    }
  }

  lemma {:induction false} DrainTakes(p: ReadyPipe, events: seq<ReadyEvent>)
    requires p.open
    ensures var q := OnReady(p, events).next;
            (q.seen, q.invalid) == Take(p.seen, p.invalid, Heard(events)) && q.open == !ReadyToEnd(events)
    decreases |events|
  {
    if events != [] {
      match events[0]
      case Message(proper) =>
        DrainTakes(if !proper || p.seen then p.(invalid := true) else p.(seen := true), events[1..]);
        assert Heard(events)[0] == proper && Heard(events)[1..] == Heard(events[1..]);
      case ReadInterrupted => DrainTakes(p, events[1..]);
      case _ =>
    }
  }

  // ---------- trouble ----------

  /** Nothing the supervisor asked of its environment in this round failed, reads apart. */
  predicate RoundClean(r: Round) {
    Failed !in Consumed(r.waits) && r.liveCpu >= 0 && r.now > 0 && !r.pollFailed
  }

  /** A round without an error was clean, gave up nothing, and drained what was open. */
  lemma RoundWithoutError(s: Loop, primary: nat, limits: Limits, deadline: U64, r: Round)
    requires s.Valid()
    ensures var t := AfterRound(s, primary, limits, deadline, r);
            !t.state.infrastructureError ==>
              && !s.infrastructureError && RoundClean(r)
              && t.state.ready == OnReady(s.ready, r.ready).next
  {
    FailedIsLast(r.waits);
  }

  lemma {:induction false} LoopWithoutError(s: Loop, primary: nat, limits: Limits, deadline: U64, rounds: seq<Round>)
    requires s.Valid()
    ensures var e := Looped(s, primary, limits, deadline, rounds);
            !e.state.infrastructureError ==>
              !s.infrastructureError && forall k :: 0 <= k < e.used ==> RoundClean(rounds[k])
    decreases |rounds|
  {
    if rounds != [] {
      var e, t := Looped(s, primary, limits, deadline, rounds), AfterRound(s, primary, limits, deadline, rounds[0]);
      RoundWithoutError(s, primary, limits, deadline, rounds[0]);
      if !t.exit {
        LoopWithoutError(t.state, primary, limits, deadline, rounds[1..]);
        forall k | 0 <= k < e.used && !e.state.infrastructureError ensures RoundClean(rounds[k]) {
          assert k > 0 ==> rounds[k] == rounds[1..][k - 1];
        }
      }
    }
  }

  /** What the attestation variables make of the messages of the first rounds is
      what they make of those of one round and then the others. */
  lemma TakeRounds(p: ReadyPipe, rounds: seq<Round>)
    requires rounds != [] && p.open
    ensures var q := OnReady(p, rounds[0].ready).next;
            Take(p.seen, p.invalid, Messages(rounds)) == Take(q.seen, q.invalid, if q.open then Messages(rounds[1..]) else [])
  {
    var later := if ReadyToEnd(rounds[0].ready) then [] else Messages(rounds[1..]);
    DrainTakes(p, rounds[0].ready);
    TakeConcat(p.seen, p.invalid, Heard(rounds[0].ready), later);
  }

  /** A loop that ends without an error has attested by the messages it took. */
  lemma {:induction false} LoopAttests(s: Loop, primary: nat, limits: Limits, deadline: U64, rounds: seq<Round>)
    requires s.Valid()
    ensures var e := Looped(s, primary, limits, deadline, rounds);
            !e.state.infrastructureError ==>
              (e.state.ready.seen, e.state.ready.invalid) ==
              Take(s.ready.seen, s.ready.invalid, if s.ready.open then Messages(rounds[..e.used]) else [])
    decreases |rounds|
  {
    if rounds != [] {
      var e, t := Looped(s, primary, limits, deadline, rounds), AfterRound(s, primary, limits, deadline, rounds[0]);
      var done := rounds[..e.used];
      RoundWithoutError(s, primary, limits, deadline, rounds[0]);
      if s.ready.open {
        TakeRounds(s.ready, done);
      }
      if t.exit {
        assert done[1..] == [];
      } else {
        LoopWithoutError(t.state, primary, limits, deadline, rounds[1..]);
        LoopAttests(t.state, primary, limits, deadline, rounds[1..]);
        assert done[1..] == rounds[1..][..e.used - 1];
      }
    }
  }

  // ---------- when there is no error ----------

  /** No read of this round fails. */
  predicate ReadsHold(r: Round) {
    Capture.Failed !in r.stdout && Capture.Failed !in r.stderr && ReadFailed !in r.ready
  }

  lemma {:induction false} DrainHolds(cap: nat, total: nat, observed: nat, schedule: seq<Capture.ReadEvent>)
    requires observed <= cap && observed <= total && Capture.Failed !in schedule
    ensures Capture.Drained(cap, total, observed, schedule).status >= 0
    decreases |schedule|
  {
    if schedule != [] {
      match schedule[0]
      case Interrupted => DrainHolds(cap, total, observed, schedule[1..]);
      case Ready(size) =>
        if observed < total {
          var seen := observed + Capture.Delivered(size, Min(cap + 1 - observed, Capture.BLOCK_BYTES), total - observed);
          if seen <= cap {
            DrainHolds(cap, total, seen, schedule[1..]);
          }
        }
      case WouldBlock =>
    }
  }

  lemma {:induction false} ReadyHolds(p: ReadyPipe, events: seq<ReadyEvent>)
    requires ReadFailed !in events
    ensures OnReady(p, events).status == 0
    decreases |events|
  {
    if p.open && events != [] {
      match events[0]
      case Message(proper) => ReadyHolds(if !proper || p.seen then p.(invalid := true) else p.(seen := true), events[1..]);
      case ReadInterrupted => ReadyHolds(p, events[1..]);
      case _ =>
    }
  }

  lemma DrainsHold(s: Loop, r: Round)
    requires s.Valid() && ReadsHold(r)
    ensures Drains(s, r).infrastructureError <==> s.infrastructureError || r.pollFailed
  {
    if s.out.open {
      DrainHolds(s.out.cap, s.out.total, s.out.observed, r.stdout);
    }
    if s.err.open {
      DrainHolds(s.err.cap, s.err.total, s.err.observed, r.stderr);
    }
    ReadyHolds(s.ready, r.ready);
  }

  /** A clean round whose reads hold makes no error but by giving up. */
  lemma RoundStaysClean(s: Loop, primary: nat, limits: Limits, deadline: U64, r: Round)
    requires s.Valid() && RoundClean(r) && ReadsHold(r) && !s.infrastructureError
    ensures var t := AfterRound(s, primary, limits, deadline, r);
            t.state.infrastructureError ==> t.exit && !t.state.tally.allReaped
  {
    FailedIsLast(r.waits);
    DrainsHold(Observed(s, primary, limits, deadline, r), r);
  }

  lemma {:induction false} LoopStaysClean(s: Loop, primary: nat, limits: Limits, deadline: U64, rounds: seq<Round>)
    requires s.Valid() && !s.infrastructureError
    requires forall k :: 0 <= k < Looped(s, primary, limits, deadline, rounds).used ==> RoundClean(rounds[k]) && ReadsHold(rounds[k])
    ensures var e := Looped(s, primary, limits, deadline, rounds);
            e.state.infrastructureError ==> !e.state.tally.allReaped
    decreases |rounds|
  {
    if rounds != [] {
      var e, t := Looped(s, primary, limits, deadline, rounds), AfterRound(s, primary, limits, deadline, rounds[0]);
      assert e.used > 0 && RoundClean(rounds[0]) && ReadsHold(rounds[0]);
      RoundStaysClean(s, primary, limits, deadline, rounds[0]);
      if !t.exit {
        forall k | 0 <= k < e.used - 1 ensures RoundClean(rounds[1..][k]) && ReadsHold(rounds[1..][k]) {
          assert rounds[1..][k] == rounds[k + 1];
        }
        LoopStaysClean(t.state, primary, limits, deadline, rounds[1..]);
      }
    }
  }

  /** The primary was collected, and its last status is an exit or a signal. */
  ghost predicate EndsProperly(primary: nat, waits: seq<WaitResult>) {
    exists k :: 0 <= k < |waits| && LastPrimary(primary, waits, k) && waits[k].status % 128 != 127
  }

  /** Nothing went wrong around the supervisor: the rounds, the child's one
      message, the reaping, the clock, the snapshot, no signal. */
  ghost predicate Clean(env: Environment)
    requires env.Launched()
  {
    && (forall k :: 0 <= k < |Rounds(env)| ==> RoundClean(Rounds(env)[k]))
    && Messages(Rounds(env)) == [true]
    && NoChildren in LoopWaits(Rounds(env))
    && EndsProperly(env.forkedPid, Returned(env))
    && env.started <= env.finished && env.soleInit && !env.signalled
    && env.snapshot.result >= 0 && env.snapshot.buffered && env.snapshot.used > 0 && env.snapshot.written
  }

  /** What a settled loop has of it. */
  ghost predicate LoopClean(env: Environment, s: Loop)
    requires env.Launched()
  {
    && (!s.infrastructureError ==>
          && (forall k :: 0 <= k < |Rounds(env)| ==> RoundClean(Rounds(env)[k]))
          && (s.ready.seen && !s.ready.invalid <==> Messages(Rounds(env)) == [true])
          && NoChildren in LoopWaits(Rounds(env)))
    && ((forall k :: 0 <= k < |Rounds(env)| ==> RoundClean(Rounds(env)[k]) && ReadsHold(Rounds(env)[k])) ==>
          !s.infrastructureError || NoChildren !in LoopWaits(Rounds(env)))
  }

  lemma SettledClean(env: Environment)
    requires env.Launched() && Settled(env).Some?
    ensures LoopClean(env, Settled(env).value)
  {
    var e, rounds := Looped(Begun(env), env.forkedPid, env.limits, env.Deadline(), env.rounds), Rounds(env);
    SettledStreams(env);
    LoopTally(Begun(env), env.forkedPid, env.limits, env.Deadline(), env.rounds);
    AllReapedByNoChildren(env.forkedPid, FRESH, LoopWaits(rounds));
    LoopWithoutError(Begun(env), env.forkedPid, env.limits, env.Deadline(), env.rounds);
    LoopAttests(Begun(env), env.forkedPid, env.limits, env.Deadline(), env.rounds);
    TakeExactly(false, false, Messages(rounds));
    if forall k :: 0 <= k < |rounds| ==> RoundClean(rounds[k]) && ReadsHold(rounds[k]) {
      forall k | 0 <= k < e.used ensures RoundClean(env.rounds[k]) && ReadsHold(env.rounds[k]) {
        assert rounds[k] == env.rounds[k];
      }
      LoopStaysClean(Begun(env), env.forkedPid, env.limits, env.Deadline(), env.rounds);
    }
  }

  lemma ProperlyEnded(primary: nat, waits: seq<WaitResult>)
    ensures var t := Tallied(primary, FRESH, waits);
            t.primaryReaped && t.primaryStatus % 128 != 127 <==> EndsProperly(primary, waits)
  {
    RecordedIsReturned(primary, waits);
    if EndsProperly(primary, waits) {
      var k :| 0 <= k < |waits| && LastPrimary(primary, waits, k) && waits[k].status % 128 != 127;
      LastRecorded(primary, waits, k);
    }
  }

  lemma VerdictClean(v: Verdict, waits: seq<WaitResult>)
    requires v.env.Launched() && v.s.tally == Tallied(v.env.forkedPid, FRESH, waits)
    ensures !v.Error() <==>
              && !v.s.infrastructureError && v.s.ready.seen && !v.s.ready.invalid
              && NoChildren in waits && EndsProperly(v.env.forkedPid, waits)
              && v.env.started <= v.env.finished && v.env.soleInit && !v.env.signalled
              && v.env.snapshot.result >= 0 && v.env.snapshot.buffered && v.env.snapshot.used > 0 && v.env.snapshot.written
  {
    RecordedIsReturned(v.env.forkedPid, waits);
    ProperlyEnded(v.env.forkedPid, waits);
  }

  lemma ErrorOutcome(v: Verdict)
    requires v.env.Launched()
    ensures v.Report().outcome == SupervisorError <==> v.Error()
  {
    if !v.Error() {
      NoErrorMeansRaised(v);
    }
  }

  /** A launched supervisor reports no error only if nothing went wrong; and if
      nothing did, not even a read, it reports none. */
  lemma ErrorIff(env: Environment)
    requires env.Launched() && ReportOf(env).Some?
    ensures ReportOf(env).value.outcome != SupervisorError ==> Clean(env)
    ensures Clean(env) && (forall k :: 0 <= k < |Rounds(env)| ==> ReadsHold(Rounds(env)[k])) ==>
              ReportOf(env).value.outcome != SupervisorError
  {
    var v := VerdictOf(env);
    ReportedTally(env);
    SettledClean(env);
    VerdictClean(v, Returned(env));
    ErrorOutcome(v);
    assert NoChildren in LoopWaits(Rounds(env)) ==> NoChildren in Returned(env);
  }

  /** A supervisor that never launched reports an error and nothing of a child. */
  lemma NotLaunched(env: Environment)
    requires !env.Launched()
    ensures var r := ReportOf(env);
            && r.Some? && r.value.outcome == SupervisorError && r.value.status == NotReaped
            && r.value.stdoutObserved == 0 == r.value.stderrObserved && r.value.snapshotBytes == 0
            && PrimaryReaped !in r.value.flags && ChildSeccompInstalled !in r.value.flags
  {
  }

  // ---------- the wall limit and the outcome ----------

  lemma {:induction false} LoopWall(s: Loop, primary: nat, limits: Limits, deadline: U64, rounds: seq<Round>)
    requires s.Valid()
    ensures var e := Looped(s, primary, limits, deadline, rounds);
            e.state.wallLimitReached <==>
              s.wallLimitReached || exists k :: 0 <= k < e.used && (rounds[k].now == 0 || rounds[k].now >= deadline)
    decreases |rounds|
  {
    if rounds != [] {
      var e, t := Looped(s, primary, limits, deadline, rounds), AfterRound(s, primary, limits, deadline, rounds[0]);
      assert e.used > 0;
      if !t.exit {
        LoopWall(t.state, primary, limits, deadline, rounds[1..]);
        assert forall k :: 0 < k < e.used ==> rounds[k] == rounds[1..][k - 1];
      }
    }
  }

  /** Some round could not read the clock or read the deadline, or the last
      reading has reached it. */
  ghost predicate TimedOut(env: Environment)
    requires env.Launched()
  {
    var deadline := Min(env.started + env.limits.wall, U64_MAX);
    || (exists k :: 0 <= k < |Rounds(env)| && (Rounds(env)[k].now == 0 || Rounds(env)[k].now >= deadline))
    || (if env.started <= env.finished then env.finished else env.started) >= deadline
  }

  lemma VerdictWall(v: Verdict)
    requires v.env.Launched()
    ensures v.Raised(WallLimitReached) <==>
              v.s.wallLimitReached
              || (if v.env.started <= v.env.finished then v.env.finished else v.env.started)
                 >= Min(v.env.started + v.env.limits.wall, U64_MAX)
  {
    assert v.env.Deadline() == Min(v.env.started + v.env.limits.wall, U64_MAX);
  }

  lemma SettledWall(env: Environment)
    requires env.Launched() && Settled(env).Some?
    ensures Verdict(env, Settled(env).value).Raised(WallLimitReached) <==> TimedOut(env)
  {
    var rounds := Rounds(env);
    LoopWall(Begun(env), env.forkedPid, env.limits, env.Deadline(), env.rounds);
    assert forall k :: 0 <= k < |rounds| ==> rounds[k] == env.rounds[k];
    assert env.Deadline() == Min(env.started + env.limits.wall, U64_MAX);
    VerdictWall(Verdict(env, Settled(env).value));
  }

  /** The outcome of a run without an error: what was too much, in order of
      precedence, or else how the primary ended. */
  ghost predicate OutcomeTold(env: Environment, r: Report)
    requires env.Launched()
  {
    r.outcome ==
      if env.snapshot.result == 1 || env.snapshot.overflow || env.snapshot.used == env.limits.snapshotCap + 1
      then SnapshotOverflowed
      else if env.stdoutTotal > env.limits.stdoutCap then StdoutOverflowed
      else if env.stderrTotal > env.limits.stderrCap then StderrOverflowed
      else if r.cumulativeCpu >= env.limits.cpu then CpuLimit
      else if TimedOut(env) then WallTimeout
      else if r.status == Signaled then Signal
      else if r.exitCode == 0 then Normal else Nonzero
  }

  lemma VerdictOutcome(v: Verdict)
    requires v.Report().outcome != SupervisorError
    ensures var r := v.Report(); r.outcome == ClassifyOutcome(r.flags, r.status, r.exitCode)
  {
  }

  lemma OutcomeIsTold(env: Environment)
    requires env.Launched()
    ensures var r := ReportOf(env); r.Some? && r.value.outcome != SupervisorError ==> OutcomeTold(env, r.value)
    ensures var r := ReportOf(env); r.Some? ==> (WallLimitReached in r.value.flags <==> TimedOut(env))
  {
    if ReportOf(env).Some? {
      var v := VerdictOf(env);
      var r := v.Report();
      SettledWall(env);
      ReportedFlags(v);
      assert WallLimitReached in r.flags <==> v.Raised(WallLimitReached);
      if r.outcome != SupervisorError {
        VerdictOutcome(v);
        OutputIsExact(env);
        FactsAreTold(env);
        CpuFlagIsExact(env);
        ErrorIff(env);
        NoErrorMeansFullyAttested(env);
        OutcomeIsFirstRaised(r.flags, r.status, r.exitCode);
      }
    }
  }

  // ---------- why termination latches ----------

  /** Termination latches in exactly the rounds with a reason for it: the primary
      is collected, a stream has overflowed, the clock is unreadable or at the
      deadline, the CPU limit is reached, a signal, or an error. */
  lemma LatchedIff(s: Loop, primary: nat, limits: Limits, deadline: U64, r: Round)
    requires s.Valid()
    ensures var t := AfterRound(s, primary, limits, deadline, r).state;
            t.terminating <==>
              || s.terminating || t.tally.primaryReaped || s.out.overflow || s.err.overflow
              || s.wallLimitReached || r.now == 0 || r.now >= deadline
              || s.cpuLimitReached || t.cumulativeCpu >= limits.cpu
              || r.signal || s.infrastructureError || Failed in Consumed(r.waits) || r.liveCpu < 0
  {
    FailedIsLast(r.waits);
  }
}
