/** What the candidate supervisor reports about the process tree it reaped. */
module SupervisorTree {
  import opened Options
  import opened Words
  import opened ProcessTree
  import opened Supervisor
  import opened SupervisorMain

  // ---------- the wait4 results of a whole run ----------

  function LoopWaits(rounds: seq<Round>): seq<WaitResult> {
    if rounds == [] then [] else Consumed(rounds[0].waits) + LoopWaits(rounds[1..])
  }

  function SweepWaits(t: Tally, primary: nat, deadline: U64, turns: seq<CleanupTurn>): seq<WaitResult>
    decreases |turns|
  {
    if t.allReaped || turns == [] then [] else
      var waits := Consumed(turns[0].waits);
      if ReapFails(turns[0].waits) || turns[0].now >= deadline then waits
      else waits + SweepWaits(Tallied(primary, t, waits), primary, deadline, turns[1..])
  }

  /** Everything `wait4` returned to the supervisor, in the loop and in the sweep. */
  function Returned(env: Environment): seq<WaitResult>
    requires env.Launched()
  {
    var e := Looped(Begun(env), env.forkedPid, env.limits, env.Deadline(), env.rounds);
    LoopWaits(env.rounds[..e.used]) +
    SweepWaits(e.state.tally, env.forkedPid, SaturatingAdd(env.cleanupClock, CLEANUP_TIMEOUT_USEC), env.cleanup)
  }

  lemma {:induction false} TalliedTogether(primary: nat, t: Tally, a: seq<WaitResult>, b: seq<WaitResult>)
    ensures Tallied(primary, t, a + b) == Tallied(primary, Tallied(primary, t, a), b)
    decreases |b|
  {
    if b == [] {
      assert a + b == a;
    } else {
      var n := |b| - 1;
      assert (a + b)[..|a + b| - 1] == a + b[..n];
      TalliedTogether(primary, t, a, b[..n]);
    }
  }

  lemma {:induction false} LoopTally(s: Loop, primary: nat, limits: Limits, deadline: U64, rounds: seq<Round>)
    requires s.Valid()
    ensures var e := Looped(s, primary, limits, deadline, rounds);
            e.state.tally == Tallied(primary, s.tally, LoopWaits(rounds[..e.used]))
    decreases |rounds|
  {
    if rounds != [] {
      var e, t := Looped(s, primary, limits, deadline, rounds), AfterRound(s, primary, limits, deadline, rounds[0]);
      RoundMoves(s, primary, limits, deadline, rounds);
      var first, rest := Consumed(rounds[0].waits), rounds[..e.used][1..];
      TalliedTogether(primary, s.tally, first, LoopWaits(rest));
      if t.exit {
        assert rest == [];
      } else {
        LoopTally(t.state, primary, limits, deadline, rounds[1..]);
        assert rest == rounds[1..][..e.used - 1];
      }
    }
  }

  lemma {:induction false} SweepTally(t: Tally, primary: nat, deadline: U64, turns: seq<CleanupTurn>)
    ensures var s := SweptUp(t, primary, deadline, turns);
            s.Some? ==> s.value.tally == Tallied(primary, t, SweepWaits(t, primary, deadline, turns))
    decreases |turns|
  {
    if !t.allReaped && turns != [] {
      var waits := Consumed(turns[0].waits);
      var next := Tallied(primary, t, waits);
      SweepTally(next, primary, deadline, turns[1..]);
      TalliedTogether(primary, t, waits, SweepWaits(next, primary, deadline, turns[1..]));
    }
  }

  lemma FailedIsLast(waits: seq<WaitResult>)
    ensures ReapFails(waits) <==> Failed in Consumed(waits)
  {
    var c := Consumed(waits);
    assert c != [] && c[|c| - 1].Failed? ==> c[|c| - 1] in c;
  }

  /** A turn of the sweep that does not stop it. */
  predicate Quiet(turn: CleanupTurn, deadline: U64) {
    Failed !in Consumed(turn.waits) && turn.now < deadline
  }

  function TurnWaits(turns: seq<CleanupTurn>): seq<WaitResult> {
    if turns == [] then [] else Consumed(turns[0].waits) + TurnWaits(turns[1..])
  }

  lemma TurnsTogether(turns: seq<CleanupTurn>, n: nat)
    requires n < |turns|
    ensures TurnWaits(turns[..n + 1]) == Consumed(turns[0].waits) + TurnWaits(turns[1..][..n])
  {
    assert turns[..n + 1][1..] == turns[1..][..n];
  }

  /** The sweep took `n` turns. */
  predicate SweptFor(t: Tally, primary: nat, deadline: U64, turns: seq<CleanupTurn>, n: nat, s: Swept) {
    && n <= |turns| && s.tally == Tallied(primary, t, TurnWaits(turns[..n]))
    && (forall k :: 0 <= k < n - 1 ==> Quiet(turns[k], deadline))
    && (n > 0 ==> !t.allReaped && NoChildren !in TurnWaits(turns[..n - 1]))
    && (if s.error then n > 0 && !Quiet(turns[n - 1], deadline)
        else s.tally.allReaped && (n > 0 ==> Quiet(turns[n - 1], deadline)))
  }

  lemma SweepStep(t: Tally, primary: nat, deadline: U64, turns: seq<CleanupTurn>, m: nat, s: Swept)
    requires turns != [] && !t.allReaped && Quiet(turns[0], deadline)
    requires SweptFor(Tallied(primary, t, Consumed(turns[0].waits)), primary, deadline, turns[1..], m, s)
    ensures SweptFor(t, primary, deadline, turns, m + 1, s)
  {
    var waits := Consumed(turns[0].waits);
    TurnsTogether(turns, m);
    TalliedTogether(primary, t, waits, TurnWaits(turns[1..][..m]));
    assert forall k :: 0 < k <= m ==> turns[k] == turns[1..][k - 1];
    if m > 0 {
      TurnsTogether(turns, m - 1);
      AllReapedByNoChildren(primary, t, waits);
    }
  }

  /** The sweep takes turns until nothing is left to reap, or until a turn in which
      wait4 fails or the deadline is read: that turn is its last, and an error. */
  lemma {:induction false} SweepStops(t: Tally, primary: nat, deadline: U64, turns: seq<CleanupTurn>) returns (n: nat)
    requires SweptUp(t, primary, deadline, turns).Some?
    ensures SweptFor(t, primary, deadline, turns, n, SweptUp(t, primary, deadline, turns).value)
    decreases |turns|
  {
    n := 0;
    assert TurnWaits(turns[..0]) == [];
    if !t.allReaped {
      FailedIsLast(turns[0].waits);
      if Quiet(turns[0], deadline) {
        var m := SweepStops(Tallied(primary, t, Consumed(turns[0].waits)), primary, deadline, turns[1..]);
        SweepStep(t, primary, deadline, turns, m, SweptUp(t, primary, deadline, turns).value);
        n := m + 1;
      } else {
        TurnsTogether(turns, 0);
        assert TurnWaits(turns[..1]) == Consumed(turns[0].waits);
        n := 1;
      }
    }
  }

  /** A report's totals are those of all the results together. */
  lemma ReportedTally(env: Environment)
    requires env.Launched()
    ensures var r := ReportOf(env); r.Some? ==> r.value.tally == Tallied(env.forkedPid, FRESH, Returned(env))
  {
    var e := Looped(Begun(env), env.forkedPid, env.limits, env.Deadline(), env.rounds);
    var deadline := SaturatingAdd(env.cleanupClock, CLEANUP_TIMEOUT_USEC);
    LoopTally(Begun(env), env.forkedPid, env.limits, env.Deadline(), env.rounds);
    SweepTally(e.state.tally, env.forkedPid, deadline, env.cleanup);
    TalliedTogether(env.forkedPid, FRESH, LoopWaits(env.rounds[..e.used]),
                    SweepWaits(e.state.tally, env.forkedPid, deadline, env.cleanup));
  }

  // ---------- over a real process tree ----------

  /** The supervisor's calls of `wait4` are the first `k` events of a run of the
      tree below PID 1, and got the answers that run allows. */
  ghost predicate Reaps(env: Environment, ns: seq<Namespace>, events: seq<Event>, k: nat) {
    && env.Launched() && Run(env.forkedPid, ns, events) && k <= |events|
    && Waits(events, k) == Returned(env)
  }

  lemma VerdictReaped(v: Verdict)
    ensures AllDescendantsReaped in v.Report().flags <==> v.s.tally.allReaped && v.s.tally.primaryReaped
    ensures v.Report().tally == v.s.tally
  {
    assert v.Report().flags == v.Flags();
    assert AllDescendantsReaped in v.Flags() <==> v.Raised(AllDescendantsReaped);
  }

  /** A report that claims all descendants reaped is right: the primary has been
      collected and PID 1 is alone from the last call of `wait4` on, whatever
      else happens.  Every report without supervisor error makes that claim. */
  lemma ReapedMeansAlone(env: Environment, ns: seq<Namespace>, events: seq<Event>, k: nat, j: nat)
    requires Reaps(env, ns, events, k) && k <= j <= |events|
    ensures var r := ReportOf(env);
            r.Some? ==>
              && (AllDescendantsReaped in r.value.flags <==> NoChildren in Returned(env))
              && (AllDescendantsReaped in r.value.flags ==> r.value.tally.primaryReaped && OnlyInit(ns[j]))
              && (r.value.outcome != SupervisorError ==> AllDescendantsReaped in r.value.flags)
  {
    ReportedTally(env);
    NoErrorMeansFullyAttested(env);
    RecordedIsReturned(env.forkedPid, Returned(env));
    var r := ReportOf(env);
    if r.Some? {
      VerdictReaped(Verdict(env, Settled(env).value));
      if TallyAfter(env.forkedPid, events, k).allReaped {
        AllReapedIsFinal(env.forkedPid, ns, events, k, j);
      }
    }
  }

  /** The reported count is the number of processes collected, each once, up to
      the counter's width, and the CPU totals are the clipped sums over them. */
  lemma ReportCountsProcesses(env: Environment, ns: seq<Namespace>, events: seq<Event>, k: nat)
    requires Reaps(env, ns, events, k)
    ensures var r, births := ReportOf(env), CollectedBirths(env.forkedPid, ns, events, k);
            && (forall i, j :: 0 <= i < j < |births| ==> births[i] != births[j])
            && (r.Some? ==>
                  && r.value.tally.descendants == Min(|births|, U32_MAX)
                  && r.value.tally.user == Min(Sum(UserTimes(Returned(env))), U64_MAX)
                  && r.value.tally.system == Min(Sum(SystemTimes(Returned(env))), U64_MAX)
                  && |UserTimes(Returned(env))| == |births| == |SystemTimes(Returned(env))|)
  {
    ReportedTally(env);
    CountedExactlyOnce(env.forkedPid, ns, events, k);
    TotalsAreClippedSums(env.forkedPid, Returned(env));
  }
}
