/** The candidate supervisor's main loop and result, with the environment (wait4,
    procfs, the clock, the pipes, signals) chosen demonically. */
module Supervisor {
  import opened Words
  import opened ProcessTree
  import Capture

  const CLEANUP_TIMEOUT_USEC: U64 := 1_000_000

  datatype Limits = Limits(wall: U64, cpu: U64, stdoutCap: nat, stderrCap: nat, snapshotCap: nat)

  // ---------- pipes ----------

  /** One capture as the loop sees it; its octets are module Capture's concern. */
  datatype Stream = Stream(cap: nat, total: nat, observed: nat, open: bool, overflow: bool) {
    predicate Valid() {
      observed <= total && (open ==> observed <= cap && !overflow)
    }
  }

  datatype Step<+S> = Step(next: S, status: int)

  function OnDrain(s: Stream, schedule: seq<Capture.ReadEvent>): (r: Step<Stream>)
    requires s.Valid()
    ensures r.next.Valid() && r.next.cap == s.cap && r.next.total == s.total
    ensures !s.open ==> r == Step(s, 0)
  {
    if !s.open then Step(s, 0) else
      var p := Capture.Drained(s.cap, s.total, s.observed, schedule);
      Capture.DrainedMeaning(s.cap, s.total, s.observed, schedule);
      Step(Stream(s.cap, s.total, p.observed, p.open, p.overflow), p.status)
  }

  /** A read of the readiness pipe: `Message(true)` is the single octet 'R'. */
  datatype ReadyEvent = Message(proper: bool) | Closed | ReadInterrupted | ReadBlocked | ReadFailed

  datatype ReadyPipe = ReadyPipe(open: bool, seen: bool, invalid: bool)

  function OnReady(p: ReadyPipe, events: seq<ReadyEvent>): Step<ReadyPipe>
    decreases |events|
  {
    if !p.open || events == [] then Step(p, 0) else
      match events[0]
      case Message(proper) =>
        OnReady(if !proper || p.seen then p.(invalid := true) else p.(seen := true), events[1..])
      case Closed => Step(p.(open := false), 0)
      case ReadInterrupted => OnReady(p, events[1..])
      case ReadBlocked => Step(p, 0)
      case ReadFailed => Step(p, -1)
  }

  /** The messages a drain takes from the pipe before it stops. */
  function Heard(events: seq<ReadyEvent>): seq<bool>
    decreases |events|
  {
    if events == [] then [] else
      match events[0]
      case Message(proper) => [proper] + Heard(events[1..])
      case ReadInterrupted => Heard(events[1..])
      case _ => []
  }

  /** The child attests by exactly one octet 'R': nothing else, and nothing more. */
  lemma {:induction false} ReadyExactlyOnce(p: ReadyPipe, events: seq<ReadyEvent>)
    requires p.open
    ensures var q := OnReady(p, events).next;
            q.seen && !q.invalid <==> !p.invalid && Heard(events) == (if p.seen then [] else [true])
    decreases |events|
  {
    if events != [] {
      match events[0]
      case Message(proper) =>
        ReadyExactlyOnce(if !proper || p.seen then p.(invalid := true) else p.(seen := true), events[1..]);
        assert Heard(events)[0] == proper && Heard(events)[1..] == Heard(events[1..]);
      case ReadInterrupted => ReadyExactlyOnce(p, events[1..]);
      case _ =>
    }
  }

  method DrainReady(pipe: ReadyPipe, events: seq<ReadyEvent>) returns (p: ReadyPipe, status: int)
    ensures Step(p, status) == OnReady(pipe, events)
  {
    p, status := pipe, 0;
    var i := 0;
    while p.open && i < |events|
      invariant i <= |events| && status == 0
      invariant OnReady(p, events[i..]) == OnReady(pipe, events)
    {
      assert events[i..][1..] == events[i + 1..];
      match events[i] {
        case Message(proper) =>
          if !proper || p.seen {
            p := p.(invalid := true);
          } else {
            p := p.(seen := true);
          }
        case Closed => p := p.(open := false); return p, 0;
        case ReadInterrupted =>
        case ReadBlocked => return p, 0;
        case ReadFailed => return p, -1;
      }
      i := i + 1;
    }
  }

  // ---------- one iteration of the loop ----------

  /** Everything the environment decides during one iteration.  `now` is zero
      when the clock cannot be read. */
  datatype Round = Round(
    waits: seq<WaitResult>,
    liveCpu: int,           // negative when procfs cannot be read
    now: U64,
    signal: bool,
    pollFailed: bool,
    stdout: seq<Capture.ReadEvent>,
    stderr: seq<Capture.ReadEvent>,
    ready: seq<ReadyEvent>)

  datatype Loop = Loop(
    tally: Tally,
    out: Stream,
    err: Stream,
    ready: ReadyPipe,
    infrastructureError: bool,
    terminating: bool,
    wallLimitReached: bool,
    cpuLimitReached: bool,
    cleanupDeadline: U64,
    cumulativeCpu: U64) {
    predicate Valid() {
      out.Valid() && err.Valid()
    }
  }

  /** The wait4 results a call of reap_available consumes. */
  function Consumed(waits: seq<WaitResult>): (r: seq<WaitResult>)
    ensures r <= waits
    ensures forall i :: 0 <= i < |r| - 1 ==> r[i].Collected? || r[i].Interrupted?
  {
    if waits == [] then []
    else if waits[0].Collected? || waits[0].Interrupted? then [waits[0]] + Consumed(waits[1..])
    else [waits[0]]
  }

  predicate ReapFails(waits: seq<WaitResult>) {
    var c := Consumed(waits);
    c != [] && c[|c| - 1].Failed?
  }

  function CpuSample(t: Tally, live: int): U64 {
    SaturatingAdd(SaturatingAdd(t.user, t.system), if 0 <= live <= U64_MAX then live else 0)
  }

  function Later(a: U64, b: U64): U64 { if a > b then a else b }

  /** The time a round goes by: an unreadable clock is taken for the deadline. */
  function Reading(r: Round, deadline: U64): U64 { if r.now == 0 then deadline else r.now }

  /** Reaping, CPU accounting, the clock, and the termination latch. */
  function Observed(s: Loop, primary: nat, limits: Limits, deadline: U64, r: Round): Loop {
    var tally := Tallied(primary, s.tally, Consumed(r.waits));
    var cpu := Later(s.cumulativeCpu, CpuSample(tally, r.liveCpu));
    var error := s.infrastructureError || ReapFails(r.waits) || r.liveCpu < 0 || r.now == 0;
    var now := Reading(r, deadline);
    var wall := s.wallLimitReached || now >= deadline;
    var cpuLimit := s.cpuLimitReached || cpu >= limits.cpu;
    var latch := tally.primaryReaped || s.out.overflow || s.err.overflow || wall || cpuLimit || r.signal || error;
    s.(tally := tally, cumulativeCpu := cpu, infrastructureError := error,
       wallLimitReached := wall, cpuLimitReached := cpuLimit,
       terminating := s.terminating || latch,
       cleanupDeadline := if latch && !s.terminating then SaturatingAdd(now, CLEANUP_TIMEOUT_USEC) else s.cleanupDeadline)
  }

  predicate GivesUp(s: Loop, deadline: U64, r: Round) {
    s.terminating && !s.tally.allReaped && Reading(r, deadline) >= s.cleanupDeadline
  }

  /** The drains run left to right and stop at the first that fails. */
  function Drains(s: Loop, r: Round): Loop
    requires s.Valid()
  {
    var out := OnDrain(s.out, r.stdout);
    if out.status < 0 then s.(out := out.next, infrastructureError := true) else
      var err := OnDrain(s.err, r.stderr);
      if err.status < 0 then s.(out := out.next, err := err.next, infrastructureError := true) else
        var ready := OnReady(s.ready, r.ready);
        s.(out := out.next, err := err.next, ready := ready.next,
           infrastructureError := s.infrastructureError || r.pollFailed || ready.status != 0)
  }

  predicate Finished(s: Loop) {
    s.tally.allReaped && !s.out.open && !s.err.open && !s.ready.open
  }

  datatype Turn = Turn(state: Loop, exit: bool)

  function AfterRound(s: Loop, primary: nat, limits: Limits, deadline: U64, r: Round): (t: Turn)
    requires s.Valid()
    ensures t.state.Valid()
  {
    var seen := Observed(s, primary, limits, deadline, r);
    if GivesUp(seen, deadline, r) then Turn(seen.(infrastructureError := true), true) else
      var drained := Drains(seen, r);
      Turn(drained, Finished(drained))
  }

  datatype LoopEnd = LoopEnd(state: Loop, exited: bool, used: nat)

  function Looped(s: Loop, primary: nat, limits: Limits, deadline: U64, rounds: seq<Round>): (e: LoopEnd)
    requires s.Valid()
    ensures e.state.Valid() && e.used <= |rounds|
    decreases |rounds|
  {
    if rounds == [] then LoopEnd(s, false, 0) else
      var t := AfterRound(s, primary, limits, deadline, rounds[0]);
      if t.exit then LoopEnd(t.state, true, 1) else
        var e := Looped(t.state, primary, limits, deadline, rounds[1..]);
        e.(used := e.used + 1)
  }

  // ---------- the loop ends ----------

  /** Reads enough to take `total` octets and then find the end of file. */
  predicate ReadyForGood(schedule: seq<Capture.ReadEvent>, total: nat)
    decreases |schedule|
  {
    schedule != [] && match schedule[0]
      case Interrupted => ReadyForGood(schedule[1..], total)
      case Ready(_) => total == 0 || ReadyForGood(schedule[1..], total - 1)
      case _ => false
  }

  predicate ReadyToEnd(events: seq<ReadyEvent>) {
    events != [] && (events[0].Closed? || ((events[0].Message? || events[0].ReadInterrupted?) && ReadyToEnd(events[1..])))
  }

  /** With no writer left every pipe can be read to its end. */
  predicate ReadsToEnd(r: Round, outTotal: nat, errTotal: nat) {
    ReadyForGood(r.stdout, outTotal) && ReadyForGood(r.stderr, errTotal) && ReadyToEnd(r.ready)
  }

  /** Some call of wait4 made by round `k` found no child left. */
  predicate NoChildrenBy(rounds: seq<Round>, k: nat)
    requires k < |rounds|
  {
    exists j :: 0 <= j <= k && NoChildren in Consumed(rounds[j].waits)
  }

  lemma {:induction false} ReadyForLess(schedule: seq<Capture.ReadEvent>, total: nat, less: nat)
    requires ReadyForGood(schedule, total) && less <= total
    ensures ReadyForGood(schedule, less)
    decreases |schedule|
  {
    if schedule[0].Interrupted? {
      ReadyForLess(schedule[1..], total, less);
    } else if less > 0 {
      ReadyForLess(schedule[1..], total - 1, less - 1);
    }
  }

  lemma {:induction false} DrainedToEnd(cap: nat, total: nat, observed: nat, schedule: seq<Capture.ReadEvent>)
    requires observed <= cap && observed <= total && ReadyForGood(schedule, total - observed)
    ensures !Capture.Drained(cap, total, observed, schedule).open
    decreases |schedule|
  {
    if schedule[0].Interrupted? {
      DrainedToEnd(cap, total, observed, schedule[1..]);
    } else if observed < total {
      var n := Capture.Delivered(schedule[0].size, Min(cap + 1 - observed, Capture.BLOCK_BYTES), total - observed);
      if observed + n <= cap {
        ReadyForLess(schedule[1..], total - observed - 1, total - observed - n);
        DrainedToEnd(cap, total, observed + n, schedule[1..]);
      }
    }
  }

  lemma {:induction false} ReadyReadToEnd(p: ReadyPipe, events: seq<ReadyEvent>)
    requires ReadyToEnd(events)
    ensures OnReady(p, events).status == 0 && !OnReady(p, events).next.open
    decreases |events|
  {
    if p.open {
      match events[0]
      case Message(proper) =>
        ReadyReadToEnd(if !proper || p.seen then p.(invalid := true) else p.(seen := true), events[1..]);
      case ReadInterrupted => ReadyReadToEnd(p, events[1..]);
      case _ =>
    }
  }

  /** Whatever a stream has already taken, reads for its whole length close it. */
  lemma DrainCloses(s: Stream, schedule: seq<Capture.ReadEvent>)
    requires s.Valid() && ReadyForGood(schedule, s.total)
    ensures OnDrain(s, schedule).status >= 0 && !OnDrain(s, schedule).next.open
  {
    if s.open {
      ReadyForLess(schedule, s.total, s.total - s.observed);
      DrainedToEnd(s.cap, s.total, s.observed, schedule);
      Capture.DrainedMeaning(s.cap, s.total, s.observed, schedule);
    }
  }

  lemma DrainsClose(s: Loop, r: Round)
    requires s.Valid() && ReadsToEnd(r, s.out.total, s.err.total)
    ensures var d := Drains(s, r); !d.out.open && !d.err.open && !d.ready.open && d.tally == s.tally
  {
    DrainCloses(s.out, r.stdout);
    DrainCloses(s.err, r.stderr);
    ReadyReadToEnd(s.ready, r.ready);
  }

  lemma {:induction false} AllReapedByNoChildren(primary: nat, t: Tally, waits: seq<WaitResult>)
    ensures Tallied(primary, t, waits).allReaped <==> t.allReaped || NoChildren in waits
  {
    if waits != [] {
      var n := |waits| - 1;
      AllReapedByNoChildren(primary, t, waits[..n]);
      assert waits == waits[..n] + [waits[n]];
    }
  }

  /** The first reading at or past the deadline latches `terminating`, and the
      latch fixes the cleanup deadline one second after its own reading. */
  lemma LatchedByDeadline(s: Loop, primary: nat, limits: Limits, deadline: U64, r: Round)
    requires s.Valid()
    ensures var t := AfterRound(s, primary, limits, deadline, r).state;
            && (r.now == 0 || r.now >= deadline ==> t.terminating)
            && (s.terminating ==> t.terminating && t.cleanupDeadline == s.cleanupDeadline)
            && (t.terminating && !s.terminating
                ==> t.cleanupDeadline == Min((if r.now == 0 then deadline else r.now) + 1_000_000, U64_MAX))
  {
  }

  /** With everything reaped, the round that reads every pipe to its end is the
      last, whatever the clock says. */
  lemma ExitsWhenDrained(s: Loop, primary: nat, limits: Limits, deadline: U64, r: Round)
    requires s.Valid() && ReadsToEnd(r, s.out.total, s.err.total)
    requires Observed(s, primary, limits, deadline, r).tally.allReaped
    ensures AfterRound(s, primary, limits, deadline, r).exit
  {
    DrainsClose(Observed(s, primary, limits, deadline, r), r);
  }

  /** With something left to reap, a round is the last iff its reading is at or
      past the cleanup deadline of a latched termination, whatever the pipes hold. */
  lemma ExitsAtCleanupDeadline(s: Loop, primary: nat, limits: Limits, deadline: U64, r: Round)
    requires s.Valid()
    requires !Observed(s, primary, limits, deadline, r).tally.allReaped
    ensures var t := AfterRound(s, primary, limits, deadline, r);
            t.exit <==> t.state.terminating && Reading(r, deadline) >= t.state.cleanupDeadline
  {
  }

  /** What one round does to the loop's end. */
  lemma RoundMoves(s: Loop, primary: nat, limits: Limits, deadline: U64, rounds: seq<Round>)
    requires s.Valid() && rounds != []
    ensures var t := AfterRound(s, primary, limits, deadline, rounds[0]).state;
            && t.out.total == s.out.total && t.err.total == s.err.total
            && t.tally == Tallied(primary, s.tally, Consumed(rounds[0].waits))
            && (t.tally.allReaped <==> s.tally.allReaped || NoChildrenBy(rounds, 0))
  {
    AllReapedByNoChildren(primary, s.tally, Consumed(rounds[0].waits));
    assert NoChildrenBy(rounds, 0) <==> NoChildren in Consumed(rounds[0].waits);
  }

  lemma NoChildrenLater(rounds: seq<Round>, j: nat)
    requires 0 < j < |rounds|
    ensures NoChildrenBy(rounds, j) <==> NoChildrenBy(rounds, 0) || NoChildrenBy(rounds[1..], j - 1)
  {
    if NoChildrenBy(rounds, j) {
      var m :| 0 <= m <= j && NoChildren in Consumed(rounds[m].waits);
      if m > 0 {
        assert NoChildren in Consumed(rounds[1..][m - 1].waits);
      }
    }
    if NoChildrenBy(rounds[1..], j - 1) {
      var m :| 0 <= m <= j - 1 && NoChildren in Consumed(rounds[1..][m].waits);
      assert NoChildren in Consumed(rounds[m + 1].waits);
    }
  }

  /** A round that finds termination latched and its cleanup deadline reached ends
      the loop, if it reads every pipe to its end should everything be reaped. */
  lemma EndsInRound(s: Loop, primary: nat, limits: Limits, deadline: U64, r: Round)
    requires s.Valid()
    requires var t := AfterRound(s, primary, limits, deadline, r).state;
             && t.terminating && Reading(r, deadline) >= t.cleanupDeadline
             && (t.tally.allReaped ==> ReadsToEnd(r, s.out.total, s.err.total))
    ensures AfterRound(s, primary, limits, deadline, r).exit
  {
    if Observed(s, primary, limits, deadline, r).tally.allReaped {
      ExitsWhenDrained(s, primary, limits, deadline, r);
    } else {
      ExitsAtCleanupDeadline(s, primary, limits, deadline, r);
    }
  }

  /** Every run of the loop ends: by the round `j` whose reading has reached
      `bound`, if the wall deadline was read at round `i` (or termination had
      already latched), no latch by then set a later cleanup deadline, and round
      `j`, should everything be reaped by then, reads every pipe to its end. */
  lemma {:induction false} LoopEndsBy(s: Loop, primary: nat, limits: Limits, deadline: U64, rounds: seq<Round>,
                                      bound: U64, i: nat, j: nat)
    requires s.Valid() && i <= j < |rounds|
    requires if s.terminating then s.cleanupDeadline <= bound
             else Reading(rounds[i], deadline) >= deadline
                  && forall k :: 0 <= k <= i ==> SaturatingAdd(Reading(rounds[k], deadline), CLEANUP_TIMEOUT_USEC) <= bound
    requires Reading(rounds[j], deadline) >= bound
    requires s.tally.allReaped || NoChildrenBy(rounds, j) ==> ReadsToEnd(rounds[j], s.out.total, s.err.total)
    ensures var e := Looped(s, primary, limits, deadline, rounds); e.exited && e.used <= j + 1
    decreases |rounds|
  {
    var r, t := rounds[0], AfterRound(s, primary, limits, deadline, rounds[0]);
    LatchedByDeadline(s, primary, limits, deadline, r);
    RoundMoves(s, primary, limits, deadline, rounds);
    if j > 0 {
      NoChildrenLater(rounds, j);
    }
    if t.exit {
    } else if j > 0 {
      LoopEndsBy(t.state, primary, limits, deadline, rounds[1..], bound, if i > 0 then i - 1 else 0, j - 1);
    } else {
      EndsInRound(s, primary, limits, deadline, r);
    }
  }

  /** Whatever the clock says, every run ends by a round that reads every pipe to
      its end once `wait4` has found no child left. */
  lemma {:induction false} LoopEndsOnceDrained(s: Loop, primary: nat, limits: Limits, deadline: U64,
                                               rounds: seq<Round>, j: nat)
    requires s.Valid() && j < |rounds|
    requires s.tally.allReaped || NoChildrenBy(rounds, j)
    requires ReadsToEnd(rounds[j], s.out.total, s.err.total)
    ensures var e := Looped(s, primary, limits, deadline, rounds); e.exited && e.used <= j + 1
    decreases |rounds|
  {
    var t := AfterRound(s, primary, limits, deadline, rounds[0]);
    RoundMoves(s, primary, limits, deadline, rounds);
    if t.exit {
    } else if j > 0 {
      NoChildrenLater(rounds, j);
      LoopEndsOnceDrained(t.state, primary, limits, deadline, rounds[1..], j - 1);
    } else {
      ExitsWhenDrained(s, primary, limits, deadline, rounds[0]);
    }
  }

  /** Once everything is reaped the cleanup deadline is no longer consulted, and a
      read that keeps failing keeps its pipe open for ever. */
  lemma {:induction false} FailedReadsGoOn(s: Loop, primary: nat, limits: Limits, deadline: U64, rounds: seq<Round>)
    requires s.Valid() && s.tally.allReaped && s.out.open
    requires forall k :: 0 <= k < |rounds| ==> rounds[k].waits == [NoChildren] && rounds[k].stdout == [Capture.Failed]
    ensures !Looped(s, primary, limits, deadline, rounds).exited
    decreases |rounds|
  {
    if rounds != [] {
      assert Consumed([NoChildren]) == [NoChildren];
      AllReapedByNoChildren(primary, s.tally, [NoChildren]);
      FailedReadsGoOn(AfterRound(s, primary, limits, deadline, rounds[0]).state, primary, limits, deadline, rounds[1..]);
    }
  }

  /** The round that collects the primary and finds no other child. */
  lemma LastChildReaped(s: Loop, primary: nat, limits: Limits, deadline: U64, r: Round, last: WaitResult)
    requires s.Valid() && s.out.open && last.Collected?
    requires r.waits == [last, NoChildren] && r.stdout == [Capture.Failed]
    ensures var t := AfterRound(s, primary, limits, deadline, r);
            !t.exit && t.state.tally.allReaped && t.state.out.open
  {
    assert r.waits[1..] == [NoChildren] && Consumed(r.waits[1..]) == [NoChildren];
    assert Consumed(r.waits) == r.waits && r.waits[1] == NoChildren;
    AllReapedByNoChildren(primary, s.tally, r.waits);
  }

  /** The assumption about reads cannot be dropped: from the start, a primary that
      is collected in the first round and leaves no other child behind, and a read
      of stdout that fails every time, keep the loop going for ever. */
  lemma ReadErrorsNeverEnd(s: Loop, primary: nat, limits: Limits, deadline: U64, rounds: seq<Round>, last: WaitResult)
    requires s.Valid() && s.out.open && last.Collected?
    requires forall k :: 0 <= k < |rounds| ==>
               && rounds[k].waits == (if k == 0 then [last, NoChildren] else [NoChildren])
               && rounds[k].stdout == [Capture.Failed]
    ensures !Looped(s, primary, limits, deadline, rounds).exited
  {
    if rounds != [] {
      LastChildReaped(s, primary, limits, deadline, rounds[0], last);
      FailedReadsGoOn(AfterRound(s, primary, limits, deadline, rounds[0]).state, primary, limits, deadline, rounds[1..]);
    }
  }

  /** Nor can the clock's advance: an unreadable clock is taken for the deadline,
      which never reaches a cleanup deadline set one second after it. */
  lemma {:induction false} UnreadableClockNeverEnds(s: Loop, primary: nat, limits: Limits, deadline: U64, rounds: seq<Round>)
    requires s.Valid() && !s.tally.allReaped && deadline < U64_MAX
    requires s.terminating ==> s.cleanupDeadline > deadline
    requires forall k :: 0 <= k < |rounds| ==> rounds[k].waits == [NothingYet] && rounds[k].now == 0
    ensures !Looped(s, primary, limits, deadline, rounds).exited
    decreases |rounds|
  {
    if rounds != [] {
      assert Consumed([NothingYet]) == [NothingYet];
      AllReapedByNoChildren(primary, s.tally, [NothingYet]);
      UnreadableClockNeverEnds(AfterRound(s, primary, limits, deadline, rounds[0]).state, primary, limits, deadline, rounds[1..]);
    }
  }
}
