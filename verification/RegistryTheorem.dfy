/** Joint validation as one predicate over the run grid and the lineage graph. */
module RegistryTheorem {
  import opened Collections
  import opened Words
  import opened Lineage
  import opened Registry
  import opened RegistryRuns

  predicate CohortsRunsValid(r: Registry, policy: Policy, specs: map<Id, RunSpec>) {
    forall id :: id in CohortMap(r.cohorts) ==>
      var c := CohortMap(r.cohorts)[id];
      CohortRunsValid(c, RunsOf(r.runs, id), specs, policy.Required(c.profile))
  }

  /** What the validator's passes establish together. */
  ghost predicate Accepted(r: Registry, policy: Policy, specs: map<Id, RunSpec>) {
    && IdentifiersValid(r) && Rankable(ArmMap(r.arms))
    && specs.Keys == RunIds(r.runs)
    && RunsValid(r.runs, CohortMap(r.cohorts), specs)
    && CohortsRunsValid(r, policy, specs)
    && FreshAcrossProfiles(r.runs, specs, CohortMap(r.cohorts))
  }

  // ---------- one cohort's runs ----------

  /** Runs of one cohort, of its arms, each in a cell of its own, with their documents. */
  predicate Sound(c: Cohort, entries: seq<Run>, specs: map<Id, RunSpec>) {
    && Distinct(c.armIds) && WithSpecs(entries, specs)
    && (forall k :: 0 <= k < |entries| ==> entries[k].cohort == c.id && entries[k].arm in c.armIds)
    && OwnCells(entries)
  }

  predicate OwnCells(entries: seq<Run>) {
    forall i, j :: 0 <= i < j < |entries| ==> CellOf(entries[i]) != CellOf(entries[j])
  }

  predicate HasCell(entries: seq<Run>, arm: Id, q: nat) {
    exists k :: 0 <= k < |entries| && entries[k].arm == arm && entries[k].replicate == q
  }

  predicate GridOf(c: Cohort, entries: seq<Run>, n: nat) {
    && (forall k :: 0 <= k < |entries| ==> entries[k].replicate < n)
    && forall a, q :: 0 <= a < |c.armIds| && 0 <= q < n ==> HasCell(entries, c.armIds[a], q)
  }

  lemma {:induction false} UsableAll(entries: seq<Run>, specs: map<Id, RunSpec>)
    requires WithSpecs(entries, specs)
    ensures Usable(entries, specs) == entries
  {
    if entries != [] {
      UsableAll(entries[..|entries| - 1], specs);
      assert entries == entries[..|entries| - 1] + [entries[|entries| - 1]];
    }
  }

  lemma {:induction false} CellCount(entries: seq<Run>, c: Id, arm: Id, q: nat)
    requires OwnCells(entries) && forall k :: 0 <= k < |entries| ==> entries[k].cohort == c
    ensures multiset(ReplicatesOf(entries, arm))[q] == if HasCell(entries, arm, q) then 1 else 0
  {
    if entries != [] {
      var n := |entries| - 1;
      var front, e := entries[..n], entries[n];
      CellCount(front, c, arm, q);
      assert forall k :: 0 <= k < n ==> front[k] == entries[k];
      assert HasCell(entries, arm, q) <==> HasCell(front, arm, q) || (e.arm == arm && e.replicate == q);
      if e.arm == arm && HasCell(front, arm, q) {
        var k :| 0 <= k < n && front[k].arm == arm && front[k].replicate == q;
        assert CellOf(entries[k]) != CellOf(entries[n]);
      }
    }
  }

  lemma RangeCount(n: nat, q: nat)
    ensures multiset(Range(n))[q] == if q < n then 1 else 0
  {
    RepeatedMeans(Range(n));
    if q < n {
      assert Range(n)[q] == q;
    }
  }

  /** The arm's replicate numbers hold `q` as often as 0 to n-1 do iff it has a run
      there exactly when it should. */
  predicate CellsAgree(entries: seq<Run>, arm: Id, n: nat, q: nat) {
    multiset(ReplicatesOf(entries, arm))[q] == multiset(Range(n))[q] <==> (HasCell(entries, arm, q) <==> q < n)
  }

  lemma ReplicatedIsGrid(c: Cohort, entries: seq<Run>, specs: map<Id, RunSpec>, n: nat)
    requires Sound(c, entries, specs) && ArmsReplicate(c, entries, n)
    requires forall arm, q: nat :: CellsAgree(entries, arm, n, q)
    ensures GridOf(c, entries, n)
  {
    forall k | 0 <= k < |entries| ensures entries[k].replicate < n {
      assert entries[k].arm in c.armIds;
      var a :| 0 <= a < |c.armIds| && c.armIds[a] == entries[k].arm;
      assert HasCell(entries, entries[k].arm, entries[k].replicate);
      assert CellsAgree(entries, c.armIds[a], n, entries[k].replicate);
    }
    forall a, q | 0 <= a < |c.armIds| && 0 <= q < n ensures HasCell(entries, c.armIds[a], q) {
      assert CellsAgree(entries, c.armIds[a], n, q);
    }
  }

  lemma ArmsReplicateMeans(c: Cohort, entries: seq<Run>, specs: map<Id, RunSpec>, n: nat)
    requires Sound(c, entries, specs)
    ensures ArmsReplicate(c, entries, n) <==> GridOf(c, entries, n)
  {
    forall arm, q: nat ensures CellsAgree(entries, arm, n, q) {
      CellCount(entries, c.id, arm, q);
      RangeCount(n, q);
    }
    if ArmsReplicate(c, entries, n) {
      ReplicatedIsGrid(c, entries, specs, n);
    }
    if GridOf(c, entries, n) {
      forall a | 0 <= a < |c.armIds| ensures multiset(ReplicatesOf(entries, c.armIds[a])) == multiset(Range(n)) {
        var found, wanted := multiset(ReplicatesOf(entries, c.armIds[a])), multiset(Range(n));
        forall q: nat ensures found[q] == wanted[q] {
          assert CellsAgree(entries, c.armIds[a], n, q);
        }
      }
    }
  }

  // ---------- a replicate has one run per arm ----------

  function CountIn(entries: seq<Run>, arms: set<Id>, q: nat): nat {
    if entries == [] then 0
    else
      var e := entries[|entries| - 1];
      CountIn(entries[..|entries| - 1], arms, q) + if e.arm in arms && e.replicate == q then 1 else 0
  }

  lemma {:induction false} CountAll(entries: seq<Run>, arms: set<Id>, q: nat)
    requires forall k :: 0 <= k < |entries| ==> entries[k].arm in arms
    ensures |AtReplicate(entries, q)| == CountIn(entries, arms, q)
  {
    if entries != [] {
      CountAll(entries[..|entries| - 1], arms, q);
    }
  }

  lemma {:induction false} CountOneMore(entries: seq<Run>, arms: set<Id>, a: Id, q: nat)
    requires a !in arms
    ensures CountIn(entries, arms + {a}, q) == CountIn(entries, arms, q) + multiset(ReplicatesOf(entries, a))[q]
  {
    if entries != [] {
      CountOneMore(entries[..|entries| - 1], arms, a, q);
    }
  }

  lemma {:induction false} CountNone(entries: seq<Run>, q: nat)
    ensures CountIn(entries, {}, q) == 0
  {
    if entries != [] {
      CountNone(entries[..|entries| - 1], q);
    }
  }

  lemma {:induction false} CountPrefix(c: Cohort, entries: seq<Run>, specs: map<Id, RunSpec>, n: nat, q: nat, k: nat)
    requires Sound(c, entries, specs) && GridOf(c, entries, n) && q < n && k <= |c.armIds|
    ensures CountIn(entries, Elements(c.armIds[..k]), q) == k
    decreases k
  {
    if k == 0 {
      CountNone(entries, q);
    } else {
      var a := c.armIds[k - 1];
      assert c.armIds[..k][..k - 1] == c.armIds[..k - 1];
      CountPrefix(c, entries, specs, n, q, k - 1);
      CountOneMore(entries, Elements(c.armIds[..k - 1]), a, q);
      CellCount(entries, c.id, a, q);
    }
  }

  lemma GridIsFull(c: Cohort, entries: seq<Run>, specs: map<Id, RunSpec>, n: nat)
    requires Sound(c, entries, specs) && GridOf(c, entries, n)
    ensures Full(entries, |c.armIds|, n)
  {
    assert c.armIds[..|c.armIds|] == c.armIds;
    forall q | 0 <= q < n ensures |AtReplicate(entries, q)| == |c.armIds| {
      CountAll(entries, Elements(c.armIds), q);
      CountPrefix(c, entries, specs, n, q, |c.armIds|);
    }
  }

  predicate SeedsShared(entries: seq<Run>, specs: map<Id, RunSpec>)
    requires WithSpecs(entries, specs)
  {
    forall j, k :: 0 <= j < |entries| && 0 <= k < |entries| && entries[j].replicate == entries[k].replicate ==>
      specs[entries[j].id].seeds == specs[entries[k].id].seeds
  }

  predicate SeedsFresh(entries: seq<Run>, specs: map<Id, RunSpec>)
    requires WithSpecs(entries, specs)
  {
    forall f: Field, j, k :: 0 <= j < |entries| && 0 <= k < |entries| && entries[j].replicate != entries[k].replicate ==>
      specs[entries[j].id].seeds.Of(f) != specs[entries[k].id].seeds.Of(f)
  }

  lemma CohortRunsMean(c: Cohort, entries: seq<Run>, specs: map<Id, RunSpec>, n: nat)
    requires Sound(c, entries, specs)
    ensures CohortRunsValid(c, entries, specs, n) <==>
              GridOf(c, entries, n) && SeedsShared(entries, specs) && SeedsFresh(entries, specs)
  {
    UsableAll(entries, specs);
    ArmsReplicateMeans(c, entries, specs, n);
    if GridOf(c, entries, n) {
      GridIsFull(c, entries, specs, n);
      PairedMeans(c, entries, specs, n);
    }
  }

  lemma PairedMeans(c: Cohort, entries: seq<Run>, specs: map<Id, RunSpec>, n: nat)
    requires Sound(c, entries, specs) && GridOf(c, entries, n)
    ensures SeedsShared(entries, specs) <==> (entries != [] ==> Paired(entries, specs, n))
    ensures SeedsFresh(entries, specs) <==> FieldsFresh(entries, specs, n)
  {
    if entries != [] && SeedsShared(entries, specs) {
      var a :| 0 <= a < |c.armIds| && c.armIds[a] == entries[0].arm;
      forall r | 0 <= r < n ensures PairedAt(entries, specs, r) {
        assert HasCell(entries, c.armIds[a], r);
      }
    }
    if entries != [] && Paired(entries, specs, n) {
      forall j, k | 0 <= j < |entries| && 0 <= k < |entries| && entries[j].replicate == entries[k].replicate
        ensures specs[entries[j].id].seeds == specs[entries[k].id].seeds
      {
        assert PairedAt(entries, specs, entries[j].replicate);
      }
    }
  }

  // ---------- the declarative predicate ----------

  predicate InGrid(r: Registry, policy: Policy, e: Run) {
    exists k :: 0 <= k < |r.cohorts| && r.cohorts[k].id == e.cohort && e.arm in r.cohorts[k].armIds
                && e.profile == r.cohorts[k].profile && e.replicate < policy.Required(e.profile)
  }

  ghost predicate CellFilled(r: Registry, c: Id, arm: Id, q: nat) {
    exists e :: e in r.runs && CellOf(e) == (c, arm, q)
  }

  predicate Agrees(e: Run, specs: map<Id, RunSpec>) {
    e.id in specs && e.profile == specs[e.id].profile && e.replicate == specs[e.id].replicate
  }

  predicate RunsDistinct(runs: seq<Run>) {
    forall i :: 0 <= i < |runs| ==> NewRun(runs, i)
  }

  /** The runs are exactly the grid of cohort, arm and replicate. */
  ghost predicate GridExact(r: Registry, policy: Policy) {
    && (forall e :: e in r.runs ==> InGrid(r, policy, e))
    && (forall k, a, q :: 0 <= k < |r.cohorts| && 0 <= a < |r.cohorts[k].armIds| && 0 <= q < policy.Required(r.cohorts[k].profile) ==>
          CellFilled(r, r.cohorts[k].id, r.cohorts[k].armIds[a], q))
    && RunsDistinct(r.runs)
  }

  predicate AllAgree(runs: seq<Run>, specs: map<Id, RunSpec>) {
    forall e :: e in runs ==> Agrees(e, specs)
  }

  /** Within a cohort: one seed tuple per replicate, and no training-affecting
      field repeated between replicates. */
  predicate SeedsExact(runs: seq<Run>, specs: map<Id, RunSpec>)
    requires AllAgree(runs, specs)
  {
    forall x, y :: x in runs && y in runs && x.cohort == y.cohort ==>
      if x.replicate == y.replicate then specs[x.id].seeds == specs[y.id].seeds
      else FieldsDiffer(specs[x.id].seeds, specs[y.id].seeds)
  }

  predicate FieldsDiffer(s: Seeds, t: Seeds) {
    forall f: Field :: s.Of(f) != t.Of(f)
  }

  /** Across profiles no training-affecting seed is used again. */
  predicate ProfilesFresh(runs: seq<Run>, specs: map<Id, RunSpec>)
    requires AllAgree(runs, specs)
  {
    forall x, y :: x in runs && y in runs && x.profile != y.profile ==> FieldsDiffer(specs[x.id].seeds, specs[y.id].seeds)
  }

  ghost predicate Exact(r: Registry, policy: Policy, specs: map<Id, RunSpec>) {
    && IdentifiersValid(r) && Rankable(ArmMap(r.arms))
    && Ordered(r.runs) && specs.Keys == RunIds(r.runs) && AllAgree(r.runs, specs)
    && GridExact(r, policy) && SeedsExact(r.runs, specs) && ProfilesFresh(r.runs, specs)
  }

  // ---------- accepted is exact ----------

  lemma {:induction false} RunsOfMeaning(runs: seq<Run>, c: Id)
    ensures forall e :: e in RunsOf(runs, c) <==> e in runs && e.cohort == c
    ensures RunsDistinct(runs) ==> OwnCells(RunsOf(runs, c))
  {
    if runs != [] {
      var n := |runs| - 1;
      var front, last := runs[..n], runs[n];
      RunsOfMeaning(front, c);
      assert runs == front + [last];
      if RunsDistinct(runs) {
        forall i | 0 <= i < n ensures NewRun(front, i) {
          assert NewRun(runs, i);
          assert forall j :: 0 <= j <= i ==> front[j] == runs[j];
        }
        assert NewRun(runs, n);
        var rest := RunsOf(front, c);
        forall j | 0 <= j < |rest| ensures CellOf(rest[j]) != CellOf(last) {
          assert rest[j] in front;
        }
      }
    }
  }

  /** The hypotheses shared by both readings. */
  ghost predicate Common(r: Registry, specs: map<Id, RunSpec>) {
    && IdentifiersValid(r) && RunsDistinct(r.runs) && AllAgree(r.runs, specs)
    && forall e :: e in r.runs ==> RunValid(e, CohortMap(r.cohorts), specs)
  }

  lemma CohortIsSound(r: Registry, specs: map<Id, RunSpec>, k: nat)
    requires Common(r, specs) && k < |r.cohorts|
    ensures var c := r.cohorts[k];
            c.id in CohortMap(r.cohorts) && CohortMap(r.cohorts)[c.id] == c && Sound(c, RunsOf(r.runs, c.id), specs)
  {
    var c := r.cohorts[k];
    AscendingCohortMap(r.cohorts, k);
    RunsOfMeaning(r.runs, c.id);
    assert CohortValid(c, ArmSet(r.arms));
    var entries := RunsOf(r.runs, c.id);
    forall j | 0 <= j < |entries| ensures entries[j].cohort == c.id && entries[j].arm in c.armIds && entries[j].id in specs {
      assert entries[j] in entries;
      assert RunValid(entries[j], CohortMap(r.cohorts), specs) && Agrees(entries[j], specs);
    }
  }

  /** What CohortRunsMean asks of cohort k, said of the runs themselves. */
  ghost predicate CohortExact(r: Registry, policy: Policy, specs: map<Id, RunSpec>, k: nat)
    requires AllAgree(r.runs, specs) && k < |r.cohorts|
  {
    var c := r.cohorts[k];
    && (forall e :: e in r.runs && e.cohort == c.id ==> e.replicate < policy.Required(c.profile))
    && (forall a, q :: 0 <= a < |c.armIds| && 0 <= q < policy.Required(c.profile) ==> CellFilled(r, c.id, c.armIds[a], q))
    && forall x, y :: x in r.runs && y in r.runs && x.cohort == c.id && y.cohort == c.id ==>
         if x.replicate == y.replicate then specs[x.id].seeds == specs[y.id].seeds
         else FieldsDiffer(specs[x.id].seeds, specs[y.id].seeds)
  }

  lemma GridOfMeans(r: Registry, specs: map<Id, RunSpec>, k: nat, n: nat)
    requires Common(r, specs) && k < |r.cohorts|
    ensures var c := r.cohorts[k];
            GridOf(c, RunsOf(r.runs, c.id), n) <==>
              && (forall e :: e in r.runs && e.cohort == c.id ==> e.replicate < n)
              && forall a, q :: 0 <= a < |c.armIds| && 0 <= q < n ==> CellFilled(r, c.id, c.armIds[a], q)
  {
    var c := r.cohorts[k];
    var entries := RunsOf(r.runs, c.id);
    RunsOfMeaning(r.runs, c.id);
    forall arm, q ensures HasCell(entries, arm, q) <==> CellFilled(r, c.id, arm, q) {
      if j :| 0 <= j < |entries| && entries[j].arm == arm && entries[j].replicate == q {
        assert entries[j] in entries && entries[j] in r.runs && CellOf(entries[j]) == (c.id, arm, q);
      }
      if e :| e in r.runs && CellOf(e) == (c.id, arm, q) {
        assert e in entries;
        var j :| 0 <= j < |entries| && entries[j] == e;
      }
    }
    forall j | 0 <= j < |entries| ensures entries[j] in r.runs && entries[j].cohort == c.id {
      assert entries[j] in entries;
    }
    if GridOf(c, entries, n) {
      forall e | e in r.runs && e.cohort == c.id ensures e.replicate < n {
        assert e in entries;
      }
    }
  }

  lemma SeedsMean(r: Registry, specs: map<Id, RunSpec>, k: nat)
    requires Common(r, specs) && k < |r.cohorts| && WithSpecs(RunsOf(r.runs, r.cohorts[k].id), specs)
    ensures var c := r.cohorts[k];
            SeedsShared(RunsOf(r.runs, c.id), specs) && SeedsFresh(RunsOf(r.runs, c.id), specs) <==>
              forall x, y :: x in r.runs && y in r.runs && x.cohort == c.id && y.cohort == c.id ==>
                if x.replicate == y.replicate then specs[x.id].seeds == specs[y.id].seeds
                else FieldsDiffer(specs[x.id].seeds, specs[y.id].seeds)
  {
    var c := r.cohorts[k];
    var entries := RunsOf(r.runs, c.id);
    RunsOfMeaning(r.runs, c.id);
    forall j | 0 <= j < |entries| ensures entries[j] in r.runs && entries[j].cohort == c.id {
      assert entries[j] in entries;
    }
    forall e | e in r.runs && e.cohort == c.id ensures exists j :: 0 <= j < |entries| && entries[j] == e {
      assert e in entries;
    }
    if SeedsShared(entries, specs) && SeedsFresh(entries, specs) {
      forall x, y | x in r.runs && y in r.runs && x.cohort == c.id && y.cohort == c.id
        ensures if x.replicate == y.replicate then specs[x.id].seeds == specs[y.id].seeds
                else FieldsDiffer(specs[x.id].seeds, specs[y.id].seeds)
      {
        var i :| 0 <= i < |entries| && entries[i] == x;
        var j :| 0 <= j < |entries| && entries[j] == y;
      }
    }
  }

  lemma CohortExactMeans(r: Registry, policy: Policy, specs: map<Id, RunSpec>, k: nat)
    requires Common(r, specs) && k < |r.cohorts|
    ensures var c := r.cohorts[k];
            CohortRunsValid(c, RunsOf(r.runs, c.id), specs, policy.Required(c.profile)) <==> CohortExact(r, policy, specs, k)
  {
    var c := r.cohorts[k];
    CohortIsSound(r, specs, k);
    CohortRunsMean(c, RunsOf(r.runs, c.id), specs, policy.Required(c.profile));
    GridOfMeans(r, specs, k, policy.Required(c.profile));
    SeedsMean(r, specs, k);
  }

  lemma CohortsMean(r: Registry, policy: Policy, specs: map<Id, RunSpec>)
    requires Common(r, specs)
    ensures CohortsRunsValid(r, policy, specs) <==> forall k :: 0 <= k < |r.cohorts| ==> CohortExact(r, policy, specs, k)
  {
    forall k | 0 <= k < |r.cohorts|
      ensures var c := r.cohorts[k];
        && c.id in CohortMap(r.cohorts) && CohortMap(r.cohorts)[c.id] == c
        && (CohortRunsValid(c, RunsOf(r.runs, c.id), specs, policy.Required(c.profile)) <==> CohortExact(r, policy, specs, k))
    {
      CohortIsSound(r, specs, k);
      CohortExactMeans(r, policy, specs, k);
    }
    forall id | id in CohortMap(r.cohorts) ensures exists k :: 0 <= k < |r.cohorts| && r.cohorts[k].id == id {
      CohortMapMeaning(r.cohorts, id);
    }
  }

  lemma RunsAreKnown(r: Registry, specs: map<Id, RunSpec>, e: Run)
    requires IdentifiersValid(r) && e in r.runs && RunValid(e, CohortMap(r.cohorts), specs)
    ensures exists k :: 0 <= k < |r.cohorts| && r.cohorts[k].id == e.cohort && e.arm in r.cohorts[k].armIds
                        && e.profile == r.cohorts[k].profile && CohortMap(r.cohorts)[e.cohort] == r.cohorts[k]
  {
    CohortMapMeaning(r.cohorts, e.cohort);
  }

  lemma GridAndSeeds(r: Registry, policy: Policy, specs: map<Id, RunSpec>)
    requires Common(r, specs)
    ensures (forall k :: 0 <= k < |r.cohorts| ==> CohortExact(r, policy, specs, k)) <==>
              GridExact(r, policy) && SeedsExact(r.runs, specs)
  {
    forall e | e in r.runs
      ensures exists k :: 0 <= k < |r.cohorts| && r.cohorts[k].id == e.cohort && e.arm in r.cohorts[k].armIds
                          && e.profile == r.cohorts[k].profile
    {
      RunsAreKnown(r, specs, e);
    }
    if forall k :: 0 <= k < |r.cohorts| ==> CohortExact(r, policy, specs, k) {
      forall e | e in r.runs ensures InGrid(r, policy, e) {
        var k :| 0 <= k < |r.cohorts| && r.cohorts[k].id == e.cohort && e.arm in r.cohorts[k].armIds
                 && e.profile == r.cohorts[k].profile;
        assert CohortExact(r, policy, specs, k);
      }
      forall k, a, q | 0 <= k < |r.cohorts| && 0 <= a < |r.cohorts[k].armIds| && 0 <= q < policy.Required(r.cohorts[k].profile)
        ensures CellFilled(r, r.cohorts[k].id, r.cohorts[k].armIds[a], q)
      {
        assert CohortExact(r, policy, specs, k);
      }
      forall x, y | x in r.runs && y in r.runs && x.cohort == y.cohort
        ensures if x.replicate == y.replicate then specs[x.id].seeds == specs[y.id].seeds
                else FieldsDiffer(specs[x.id].seeds, specs[y.id].seeds)
      {
        var k :| 0 <= k < |r.cohorts| && r.cohorts[k].id == x.cohort && x.arm in r.cohorts[k].armIds
                 && x.profile == r.cohorts[k].profile;
        assert CohortExact(r, policy, specs, k);
      }
    }
    if GridExact(r, policy) && SeedsExact(r.runs, specs) {
      forall k | 0 <= k < |r.cohorts| ensures CohortExact(r, policy, specs, k) {
        GridGivesCohort(r, policy, specs, k);
      }
    }
  }

  lemma GridGivesCohort(r: Registry, policy: Policy, specs: map<Id, RunSpec>, k: nat)
    requires Common(r, specs) && GridExact(r, policy) && SeedsExact(r.runs, specs) && k < |r.cohorts|
    ensures CohortExact(r, policy, specs, k)
  {
    var c := r.cohorts[k];
    forall e | e in r.runs && e.cohort == c.id ensures e.replicate < policy.Required(c.profile) {
      assert InGrid(r, policy, e);
    }
  }

  lemma FreshMeans(r: Registry, specs: map<Id, RunSpec>)
    requires Common(r, specs)
    ensures FreshAcrossProfiles(r.runs, specs, CohortMap(r.cohorts)) <==> ProfilesFresh(r.runs, specs)
  {
    var cohorts := CohortMap(r.cohorts);
    forall j | 0 <= j < |r.runs|
      ensures var e := r.runs[j]; e.cohort in cohorts && e.id in specs && cohorts[e.cohort].profile == e.profile
    {
      assert r.runs[j] in r.runs;
      assert RunValid(r.runs[j], cohorts, specs) && Agrees(r.runs[j], specs);
    }
    if FreshAcrossProfiles(r.runs, specs, cohorts) {
      forall x, y | x in r.runs && y in r.runs && x.profile != y.profile
        ensures FieldsDiffer(specs[x.id].seeds, specs[y.id].seeds)
      {
        var i :| 0 <= i < |r.runs| && r.runs[i] == x;
        var j :| 0 <= j < |r.runs| && r.runs[j] == y;
      }
    }
  }

  lemma AcceptedIsCommon(r: Registry, policy: Policy, specs: map<Id, RunSpec>)
    requires Accepted(r, policy, specs)
    ensures Common(r, specs)
  {
    forall e | e in r.runs ensures RunValid(e, CohortMap(r.cohorts), specs) && Agrees(e, specs) {
      var i :| 0 <= i < |r.runs| && r.runs[i] == e;
      SeenMeans(r.runs, CohortMap(r.cohorts), e);
      assert e.id in RunIds(r.runs);
    }
  }

  lemma ExactIsCommon(r: Registry, policy: Policy, specs: map<Id, RunSpec>)
    requires Exact(r, policy, specs)
    ensures Common(r, specs)
  {
    forall e | e in r.runs ensures RunValid(e, CohortMap(r.cohorts), specs) {
      assert InGrid(r, policy, e) && Agrees(e, specs);
      var k :| 0 <= k < |r.cohorts| && r.cohorts[k].id == e.cohort && e.arm in r.cohorts[k].armIds
               && e.profile == r.cohorts[k].profile && e.replicate < policy.Required(e.profile);
      AscendingCohortMap(r.cohorts, k);
    }
  }

  /** Joint validation accepts exactly the registries whose runs are the grid of
      cohort, arm and replicate, with seeds paired across arms and fresh
      otherwise, and whose source-arm links admit a decreasing rank. */
  lemma AcceptedIsExact(r: Registry, policy: Policy, specs: map<Id, RunSpec>)
    ensures Accepted(r, policy, specs) <==> Exact(r, policy, specs)
  {
    if Accepted(r, policy, specs) {
      AcceptedIsCommon(r, policy, specs);
      CohortsMean(r, policy, specs);
      GridAndSeeds(r, policy, specs);
      FreshMeans(r, specs);
    }
    if Exact(r, policy, specs) {
      ExactIsCommon(r, policy, specs);
      CohortsMean(r, policy, specs);
      GridAndSeeds(r, policy, specs);
      FreshMeans(r, specs);
      forall i | 0 <= i < |r.runs| ensures RunValid(r.runs[i], CohortMap(r.cohorts), specs) && NewRun(r.runs, i) {
        assert r.runs[i] in r.runs;
      }
    }
  }
}
