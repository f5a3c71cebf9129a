/** Reaping the namespace: the wait4 loop of PID 1 against a process tree that
    evolves on its own. */
module ProcessTree {
  import opened Words

  // ---------- what the supervisor records ----------

  datatype WaitResult =
    | Collected(pid: nat, status: int, user: U64, system: U64)
    | NothingYet
    | Interrupted
    | NoChildren
    | Failed

  datatype Tally = Tally(primaryReaped: bool, primaryStatus: int, allReaped: bool,
                         descendants: nat, user: U64, system: U64)

  const FRESH := Tally(false, 0, false, 0, 0, 0)

  function OnWait(primary: nat, t: Tally, r: WaitResult): Tally {
    match r
    case Collected(pid, status, user, system) =>
      var counted := t.(descendants := if t.descendants != U32_MAX then t.descendants + 1 else U32_MAX,
                        user := SaturatingAdd(t.user, user), system := SaturatingAdd(t.system, system));
      if pid == primary then counted.(primaryReaped := true, primaryStatus := status) else counted
    case NoChildren => t.(allReaped := true)
    case _ => t
  }

  function Tallied(primary: nat, t: Tally, results: seq<WaitResult>): Tally {
    if results == [] then t
    else OnWait(primary, Tallied(primary, t, results[..|results| - 1]), results[|results| - 1])
  }

  class SupervisorState {
    const primaryPid: nat
    var tally: Tally

    constructor (primaryPid: nat)
      ensures this.primaryPid == primaryPid && tally == FRESH
    {
      this.primaryPid, tally := primaryPid, FRESH;
    }

    /** reap_available: `results` is what the coming wait4 calls will return, and
        `used` how many of them were made.  The loop stops at the first call that
        finds nothing to collect, and reports only an unexpected failure. */
    method ReapAvailable(results: seq<WaitResult>) returns (status: int, used: nat)
      modifies this
      ensures used <= |results| && tally == Tallied(primaryPid, old(tally), results[..used])
      ensures forall i :: 0 <= i < used - 1 ==> results[i].Collected? || results[i].Interrupted?
      ensures used < |results| ==> used > 0 && !results[used - 1].Collected? && !results[used - 1].Interrupted?
      ensures status == if used > 0 && results[used - 1].Failed? then -1 else 0
    {
      used := 0;
      while used < |results|
        invariant used <= |results| && tally == Tallied(primaryPid, old(tally), results[..used])
        invariant forall i :: 0 <= i < used ==> results[i].Collected? || results[i].Interrupted?
      {
        var r := results[used];
        assert results[..used + 1][..used] == results[..used];
        used := used + 1;
        tally := OnWait(primaryPid, tally, r);
        match r {
          case Collected(_, _, _, _) =>
          case Interrupted =>
          case NothingYet => return 0, used;
          case NoChildren => return 0, used;
          case Failed => return -1, used;
        }
      }
      status := 0;
    }
  }

  // ---------- the namespace ----------

  /** `birth` identifies a process for good; its pid may be used again once it is
      gone.  An older process is never a descendant of a younger one. */
  datatype Process = Process(birth: nat, parent: nat, zombie: bool)

  datatype Namespace = Namespace(table: map<nat, Process>, clock: nat)

  datatype Event =
    | Fork(parent: nat, child: nat)
    | Exit(pid: nat, heir: nat)      // SIGKILL included; children go to `heir`
    | ReapedElsewhere(pid: nat)      // by a parent other than PID 1
    | Wait(result: WaitResult)

  predicate Alive(n: Namespace, pid: nat) {
    pid in n.table && !n.table[pid].zombie
  }

  /** After the primary is forked PID 1 forks no more.  Orphans are adopted by
      some older living process: PID 1 or a nearer subreaper. */
  predicate Enabled(n: Namespace, e: Event) {
    match e
    case Fork(parent, child) => parent != 1 && Alive(n, parent) && child > 1 && child !in n.table
    case Exit(pid, heir) =>
      pid != 1 && Alive(n, pid) && Alive(n, heir) && n.table[heir].birth < n.table[pid].birth
    case ReapedElsewhere(pid) => pid != 1 && pid in n.table && n.table[pid].zombie && n.table[pid].parent != 1
    case Wait(Collected(pid, _, _, _)) =>
      pid != 1 && pid in n.table && n.table[pid].zombie && n.table[pid].parent == 1
    case Wait(NoChildren) => forall pid :: pid in n.table && pid != 1 ==> n.table[pid].parent != 1
    case Wait(_) => true
  }

  function Orphaned(p: Process, exits: bool, orphan: bool, heir: nat): Process {
    if exits then p.(zombie := true) else if orphan then p.(parent := heir) else p
  }

  function After(n: Namespace, e: Event): Namespace
    requires Enabled(n, e)
  {
    match e
    case Fork(parent, child) => Namespace(n.table[child := Process(n.clock, parent, false)], n.clock + 1)
    case Exit(pid, heir) =>
      n.(table := map p | p in n.table :: Orphaned(n.table[p], p == pid, n.table[p].parent == pid, heir))
    case ReapedElsewhere(pid) => n.(table := n.table - {pid})
    case Wait(Collected(pid, _, _, _)) => n.(table := n.table - {pid})
    case Wait(_) => n
  }

  /** PID 1 and the primary it has just forked. */
  function Start(primary: nat): Namespace {
    Namespace(map[1 := Process(0, 0, false), primary := Process(1, 1, false)], 2)
  }

  /** A run: the namespaces passed through and the events between them. */
  ghost predicate Run(primary: nat, ns: seq<Namespace>, events: seq<Event>) {
    && primary > 1 && |ns| == |events| + 1 && ns[0] == Start(primary)
    && forall i :: 0 <= i < |events| ==> Enabled(ns[i], events[i]) && ns[i + 1] == After(ns[i], events[i])
  }

  /** What wait4 returned during the first `k` events. */
  function Waits(events: seq<Event>, k: nat): seq<WaitResult>
    requires k <= |events|
  {
    if k == 0 then [] else Waits(events, k - 1) + if events[k - 1].Wait? then [events[k - 1].result] else []
  }

  ghost predicate Collects(e: Event) {
    e.Wait? && e.result.Collected?
  }

  /** Births of the processes PID 1 collected during the first `k` events. */
  ghost function CollectedBirths(primary: nat, ns: seq<Namespace>, events: seq<Event>, k: nat): seq<nat>
    requires Run(primary, ns, events) && k <= |events|
  {
    if k == 0 then [] else
      CollectedBirths(primary, ns, events, k - 1) +
      if Collects(events[k - 1]) then [ns[k - 1].table[events[k - 1].result.pid].birth] else []
  }

  function TallyAfter(primary: nat, events: seq<Event>, k: nat): Tally
    requires k <= |events|
  {
    Tallied(primary, FRESH, Waits(events, k))
  }

  lemma TallyStep(primary: nat, events: seq<Event>, k: nat)
    requires 0 < k <= |events|
    ensures TallyAfter(primary, events, k) ==
            var t := TallyAfter(primary, events, k - 1);
            if events[k - 1].Wait? then OnWait(primary, t, events[k - 1].result) else t
  {
    var before, now := Waits(events, k - 1), Waits(events, k);
    if events[k - 1].Wait? {
      assert now[..|now| - 1] == before;
    } else {
      assert now == before;
    }
  }

  // ---------- what every run keeps ----------

  /** Parents live, and are older than their children. */
  ghost predicate WellFounded(n: Namespace) {
    && Alive(n, 1) && n.table[1] == Process(0, 0, false) && 0 !in n.table && n.clock > 0
    && forall p :: p in n.table && p != 1 ==> n.table[p].birth < n.clock && HasOlderParent(n, p)
  }

  ghost predicate HasOlderParent(n: Namespace, p: nat)
    requires p in n.table
  {
    Alive(n, n.table[p].parent) && n.table[n.table[p].parent].birth < n.table[p].birth
  }

  lemma ForkKeepsOrder(n: Namespace, parent: nat, child: nat)
    requires WellFounded(n) && Enabled(n, Fork(parent, child))
    ensures WellFounded(After(n, Fork(parent, child)))
  {
    var m := After(n, Fork(parent, child));
    forall p | p in m.table && p != 1 ensures HasOlderParent(m, p) {
      assert p != child ==> HasOlderParent(n, p);
    }
  }

  lemma ExitKeepsOrder(n: Namespace, pid: nat, heir: nat)
    requires WellFounded(n) && Enabled(n, Exit(pid, heir))
    ensures WellFounded(After(n, Exit(pid, heir)))
  {
    var m := After(n, Exit(pid, heir));
    assert forall p :: p in n.table ==> m.table[p].birth == n.table[p].birth;
    forall p | p in m.table && p != 1 ensures HasOlderParent(m, p) {
      assert HasOlderParent(n, p);
    }
  }

  lemma RemovalKeepsOrder(n: Namespace, pid: nat)
    requires WellFounded(n) && pid != 1 && pid in n.table && n.table[pid].zombie
    ensures WellFounded(n.(table := n.table - {pid}))
  {
    var m := n.(table := n.table - {pid});
    forall p | p in m.table && p != 1 ensures HasOlderParent(m, p) {
      assert HasOlderParent(n, p);
    }
  }

  lemma WellFoundedAfter(n: Namespace, e: Event)
    requires WellFounded(n) && Enabled(n, e)
    ensures WellFounded(After(n, e))
  {
    match e
    case Fork(parent, child) => ForkKeepsOrder(n, parent, child);
    case Exit(pid, heir) => ExitKeepsOrder(n, pid, heir);
    case ReapedElsewhere(pid) => RemovalKeepsOrder(n, pid);
    case Wait(r) => if r.Collected? { RemovalKeepsOrder(n, r.pid); }
  }

  /** Following parents upwards from any process ends at a child of PID 1. */
  lemma {:induction false} SomeChildOfInit(n: Namespace, pid: nat) returns (child: nat)
    requires WellFounded(n) && pid in n.table && pid != 1
    ensures child in n.table && child != 1 && n.table[child].parent == 1
    decreases n.table[pid].birth
  {
    child := pid;
    assert HasOlderParent(n, pid);
    if n.table[pid].parent != 1 {
      child := SomeChildOfInit(n, n.table[pid].parent);
    }
  }

  ghost predicate OnlyInit(n: Namespace) {
    n.table.Keys == {1}
  }

  /** The primary is a child of PID 1 until PID 1 collects it. */
  ghost predicate PrimaryAwaited(primary: nat, n: Namespace) {
    primary in n.table && n.table[primary].birth == 1 && n.table[primary].parent == 1
  }

  ghost predicate Kept(primary: nat, n: Namespace, t: Tally) {
    && WellFounded(n)
    && (t.primaryReaped || PrimaryAwaited(primary, n))
    && (t.allReaped ==> t.primaryReaped && OnlyInit(n))
  }

  lemma PrimaryStaysAwaited(primary: nat, n: Namespace, e: Event)
    requires primary > 1 && WellFounded(n) && Enabled(n, e) && PrimaryAwaited(primary, n)
    ensures PrimaryAwaited(primary, After(n, e)) || (e.Wait? && e.result.Collected? && e.result.pid == primary)
  {
    match e
    case Exit(pid, heir) => assert n.table[primary].parent != pid;
    case _ =>
  }

  lemma AloneStaysAlone(n: Namespace, e: Event)
    requires WellFounded(n) && Enabled(n, e) && OnlyInit(n)
    ensures OnlyInit(After(n, e))
  {
    assert forall pid :: pid in n.table.Keys <==> pid == 1;
  }

  lemma NoChildrenMeansAlone(n: Namespace)
    requires WellFounded(n) && Enabled(n, Wait(NoChildren))
    ensures OnlyInit(n)
  {
    if pid :| pid in n.table && pid != 1 {
      var child := SomeChildOfInit(n, pid);
      assert false;
    }
  }

  lemma StepKeeps(primary: nat, n: Namespace, e: Event, t: Tally)
    requires primary > 1 && Enabled(n, e) && Kept(primary, n, t)
    ensures Kept(primary, After(n, e), if e.Wait? then OnWait(primary, t, e.result) else t)
  {
    WellFoundedAfter(n, e);
    if !t.primaryReaped {
      PrimaryStaysAwaited(primary, n, e);
    }
    if t.allReaped {
      AloneStaysAlone(n, e);
    } else if e.Wait? && e.result.NoChildren? {
      NoChildrenMeansAlone(n);
    }
  }

  lemma {:induction false} EveryRunKeeps(primary: nat, ns: seq<Namespace>, events: seq<Event>, k: nat)
    requires Run(primary, ns, events) && k <= |events|
    ensures Kept(primary, ns[k], TallyAfter(primary, events, k))
  {
    if k > 0 {
      EveryRunKeeps(primary, ns, events, k - 1);
      TallyStep(primary, events, k);
      StepKeeps(primary, ns[k - 1], events[k - 1], TallyAfter(primary, events, k - 1));
    }
  }

  lemma {:induction false} AllReapedStaysSet(primary: nat, events: seq<Event>, i: nat, j: nat)
    requires i <= j <= |events| && TallyAfter(primary, events, i).allReaped
    ensures TallyAfter(primary, events, j).allReaped
    decreases j - i
  {
    if i < j {
      AllReapedStaysSet(primary, events, i, j - 1);
      TallyStep(primary, events, j);
    }
  }

  /** Once `all_reaped` is set the primary has been reaped, PID 1 is alone, and it
      stays alone however the run continues. */
  lemma AllReapedIsFinal(primary: nat, ns: seq<Namespace>, events: seq<Event>, i: nat, j: nat)
    requires Run(primary, ns, events) && i <= j <= |events|
    requires TallyAfter(primary, events, i).allReaped
    ensures TallyAfter(primary, events, i).primaryReaped && OnlyInit(ns[j])
  {
    EveryRunKeeps(primary, ns, events, i);
    AllReapedStaysSet(primary, events, i, j);
    EveryRunKeeps(primary, ns, events, j);
  }

  predicate CollectsPrimary(primary: nat, results: seq<WaitResult>, k: nat)
    requires k < |results|
  {
    results[k].Collected? && results[k].pid == primary
  }

  predicate LastPrimary(primary: nat, results: seq<WaitResult>, k: nat)
    requires k < |results|
  {
    CollectsPrimary(primary, results, k) && forall j :: k < j < |results| ==> !CollectsPrimary(primary, results, j)
  }

  /** The two flags say what was returned, and the recorded status is that of the
      last child collected under the primary's pid. */
  lemma {:induction false} RecordedIsReturned(primary: nat, results: seq<WaitResult>)
    ensures var t := Tallied(primary, FRESH, results);
      && (t.allReaped <==> NoChildren in results)
      && (t.primaryReaped <==> exists k :: 0 <= k < |results| && CollectsPrimary(primary, results, k))
      && (t.primaryReaped ==>
            exists k :: 0 <= k < |results| && LastPrimary(primary, results, k) && results[k].status == t.primaryStatus)
  {
    if results != [] {
      var n := |results| - 1;
      var front := results[..n];
      RecordedIsReturned(primary, front);
      assert results == front + [results[n]];
      assert forall k :: 0 <= k < n ==> CollectsPrimary(primary, front, k) == CollectsPrimary(primary, results, k);
      var before := Tallied(primary, FRESH, front);
      if CollectsPrimary(primary, results, n) {
        assert LastPrimary(primary, results, n);
      } else if before.primaryReaped {
        var k :| 0 <= k < n && LastPrimary(primary, front, k) && front[k].status == before.primaryStatus;
        assert LastPrimary(primary, results, k);
      }
    }
  }

  // ---------- the CPU totals ----------

  function UserTimes(results: seq<WaitResult>): seq<U64> {
    if results == [] then [] else
      var r := results[|results| - 1];
      UserTimes(results[..|results| - 1]) + if r.Collected? then [r.user] else []
  }

  function SystemTimes(results: seq<WaitResult>): seq<U64> {
    if results == [] then [] else
      var r := results[|results| - 1];
      SystemTimes(results[..|results| - 1]) + if r.Collected? then [r.system] else []
  }

  /** Both totals are the sums over all collected processes, clipped once at the
      64-bit bound rather than at each addition. */
  lemma {:induction false} TotalsAreClippedSums(primary: nat, results: seq<WaitResult>)
    ensures var t := Tallied(primary, FRESH, results);
            && t.user == Min(Sum(UserTimes(results)), U64_MAX)
            && t.system == Min(Sum(SystemTimes(results)), U64_MAX)
            && t.descendants == Min(|UserTimes(results)|, U32_MAX)
            && |UserTimes(results)| == |SystemTimes(results)|
  {
    if results != [] {
      var before, r := results[..|results| - 1], results[|results| - 1];
      TotalsAreClippedSums(primary, before);
      if r.Collected? {
        assert UserTimes(results)[..|UserTimes(before)|] == UserTimes(before);
        assert SystemTimes(results)[..|SystemTimes(before)|] == SystemTimes(before);
      } else {
        assert UserTimes(results) == UserTimes(before) && SystemTimes(results) == SystemTimes(before);
      }
    }
  }

  /** Collected processes are gone for good, so none is collected twice. */
  ghost predicate GoneForGood(n: Namespace, births: seq<nat>) {
    && (forall i :: 0 <= i < |births| ==> births[i] < n.clock && !IsBirth(n, births[i]))
    && forall i, j :: 0 <= i < j < |births| ==> births[i] != births[j]
  }

  ghost predicate IsBirth(n: Namespace, birth: nat) {
    exists p :: p in n.table && n.table[p].birth == birth
  }

  ghost predicate DistinctBirths(n: Namespace) {
    && (forall p :: p in n.table ==> n.table[p].birth < n.clock)
    && forall p, q :: p in n.table && q in n.table && p != q ==> n.table[p].birth != n.table[q].birth
  }

  /** A step brings no birth back, and collecting a process removes its birth. */
  lemma BirthsAfter(n: Namespace, e: Event)
    requires DistinctBirths(n) && Enabled(n, e)
    ensures DistinctBirths(After(n, e)) && n.clock <= After(n, e).clock
    ensures forall b: nat :: b < n.clock && !IsBirth(n, b) ==> !IsBirth(After(n, e), b)
    ensures Collects(e) ==> !IsBirth(After(n, e), n.table[e.result.pid].birth)
  {
    var m := After(n, e);
    forall p | p in m.table
      ensures if p in n.table && !e.Fork? then m.table[p].birth == n.table[p].birth
              else e.Fork? && (if p == e.child then m.table[p].birth == n.clock else m.table[p] == n.table[p])
    {
    }
  }

  lemma GoneForGoodAfter(n: Namespace, e: Event, births: seq<nat>)
    requires DistinctBirths(n) && Enabled(n, e) && GoneForGood(n, births)
    ensures GoneForGood(After(n, e), births + if Collects(e) then [n.table[e.result.pid].birth] else [])
  {
    BirthsAfter(n, e);
    if Collects(e) {
      assert IsBirth(n, n.table[e.result.pid].birth);
    }
  }

  /** One CPU sample per process PID 1 collected, and no process twice. */
  lemma {:induction false} CountedExactlyOnce(primary: nat, ns: seq<Namespace>, events: seq<Event>, k: nat)
    requires Run(primary, ns, events) && k <= |events|
    ensures var births := CollectedBirths(primary, ns, events, k);
            && |births| == |UserTimes(Waits(events, k))|
            && GoneForGood(ns[k], births) && DistinctBirths(ns[k])
  {
    if k > 0 {
      CountedExactlyOnce(primary, ns, events, k - 1);
      BirthsAfter(ns[k - 1], events[k - 1]);
      GoneForGoodAfter(ns[k - 1], events[k - 1], CollectedBirths(primary, ns, events, k - 1));
      var before, now := Waits(events, k - 1), Waits(events, k);
      if events[k - 1].Wait? {
        assert now[..|now| - 1] == before;
      } else {
        assert now == before;
      }
    }
  }
}
