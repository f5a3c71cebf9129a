/** The runs of a campaign registry: exactly the grid of cohort, arm and
    replicate, seeds paired across arms and fresh everywhere else. */
module RegistryRuns {
  import opened Collections
  import opened Words
  import opened Lineage
  import opened Registry

  type Cell = (Id, Id, nat)

  function CellOf(e: Run): Cell {
    (e.cohort, e.arm, e.replicate)
  }

  // ---------- the first pass ----------

  /** The lexicographic order runs are listed in. */
  predicate InOrder(a: Run, b: Run) {
    || a.cohort < b.cohort
    || (a.cohort == b.cohort && (a.arm < b.arm || (a.arm == b.arm && (a.replicate < b.replicate ||
        (a.replicate == b.replicate && a.id <= b.id)))))
  }

  predicate Ordered(runs: seq<Run>) {
    forall i, j :: 0 <= i < j < |runs| ==> InOrder(runs[i], runs[j])
  }

  predicate RunValid(e: Run, cohorts: map<Id, Cohort>, specs: map<Id, RunSpec>) {
    && e.cohort in cohorts && e.arm in cohorts[e.cohort].armIds && e.profile == cohorts[e.cohort].profile
    && (e.id in specs ==> e.profile == specs[e.id].profile && e.replicate == specs[e.id].replicate)
  }

  predicate NewRun(runs: seq<Run>, i: nat)
    requires i < |runs|
  {
    forall j :: 0 <= j < i ==> runs[j].id != runs[i].id && CellOf(runs[j]) != CellOf(runs[i])
  }

  predicate RunsValid(runs: seq<Run>, cohorts: map<Id, Cohort>, specs: map<Id, RunSpec>) {
    && Ordered(runs)
    && forall i :: 0 <= i < |runs| ==> RunValid(runs[i], cohorts, specs) && NewRun(runs, i)
  }

  function RunIds(runs: seq<Run>): set<Id> {
    if runs == [] then {} else RunIds(runs[..|runs| - 1]) + {runs[|runs| - 1].id}
  }

  /** The cells of the runs whose cohort is known. */
  function KnownCells(runs: seq<Run>, cohorts: map<Id, Cohort>): set<Cell> {
    if runs == [] then {}
    else
      var e := runs[|runs| - 1];
      KnownCells(runs[..|runs| - 1], cohorts) + if e.cohort in cohorts then {CellOf(e)} else {}
  }

  function RunsOf(runs: seq<Run>, cohort: Id): seq<Run> {
    if runs == [] then []
    else
      var e := runs[|runs| - 1];
      RunsOf(runs[..|runs| - 1], cohort) + if e.cohort == cohort then [e] else []
  }

  /** The runs listed under each known cohort. */
  function GroupRuns(runs: seq<Run>, cohorts: map<Id, Cohort>): (r: map<Id, seq<Run>>)
    ensures r.Keys == cohorts.Keys
  {
    if runs == [] then map c | c in cohorts :: []
    else
      var before := GroupRuns(runs[..|runs| - 1], cohorts);
      var e := runs[|runs| - 1];
      if e.cohort in cohorts then before[e.cohort := before[e.cohort] + [e]] else before
  }

  lemma {:induction false} GroupRunsMeaning(runs: seq<Run>, cohorts: map<Id, Cohort>, c: Id)
    requires c in cohorts
    ensures GroupRuns(runs, cohorts)[c] == RunsOf(runs, c)
  {
    if runs != [] {
      GroupRunsMeaning(runs[..|runs| - 1], cohorts, c);
    }
  }

  lemma {:induction false} SeenMeans(runs: seq<Run>, cohorts: map<Id, Cohort>, e: Run)
    ensures e.id in RunIds(runs) <==> exists j :: 0 <= j < |runs| && runs[j].id == e.id
    ensures e.cohort in cohorts ==>
              (CellOf(e) in KnownCells(runs, cohorts) <==> exists j :: 0 <= j < |runs| && CellOf(runs[j]) == CellOf(e))
  {
    if runs != [] {
      SeenMeans(runs[..|runs| - 1], cohorts, e);
      assert forall j :: 0 <= j < |runs| - 1 ==> runs[..|runs| - 1][j] == runs[j];
    }
  }

  lemma NewRunMeans(runs: seq<Run>, i: nat, cohorts: map<Id, Cohort>)
    requires i < |runs| && runs[i].cohort in cohorts
    ensures NewRun(runs, i) <==>
              runs[i].id !in RunIds(runs[..i]) && CellOf(runs[i]) !in KnownCells(runs[..i], cohorts)
  {
    SeenMeans(runs[..i], cohorts, runs[i]);
    assert forall j :: 0 <= j < i ==> runs[..i][j] == runs[j];
  }

  method CheckRun(e: Run, again: bool, cohorts: map<Id, Cohort>, cells: set<Cell>, specs: map<Id, RunSpec>)
    returns (errors: seq<Issue>, after: set<Cell>)
    ensures after == cells + if e.cohort in cohorts then {CellOf(e)} else {}
    ensures errors == [] <==> !again && RunValid(e, cohorts, specs) && CellOf(e) !in cells
  {
    errors, after := if again then [DuplicateRun(e.id)] else [], cells;
    if e.cohort !in cohorts {
      errors := errors + [UnknownCohort(e.id)];
      return;
    }
    var c := cohorts[e.cohort];
    if e.arm !in c.armIds {
      errors := errors + [ForeignArm(e.id)];
    }
    if e.profile != c.profile {
      errors := errors + [ProfileMismatch(e.id)];
    }
    if CellOf(e) in cells {
      errors := errors + [DuplicateCell(e.id)];
    }
    after := cells + {CellOf(e)};
    if e.id in specs && (e.profile != specs[e.id].profile || e.replicate != specs[e.id].replicate) {
      errors := errors + [SpecMismatch(e.id)];
    }
  }

  method RunErrors(runs: seq<Run>, cohorts: map<Id, Cohort>, specs: map<Id, RunSpec>)
    returns (cohortRuns: map<Id, seq<Run>>, errors: seq<Issue>)
    ensures errors == [] <==> RunsValid(runs, cohorts, specs)
    ensures cohortRuns == GroupRuns(runs, cohorts)
  {
    cohortRuns, errors := map c | c in cohorts :: [], [];
    var ids: set<Id>, cells: set<Cell> := {}, {};
    ghost var fine := RunsValid(runs, cohorts, specs);
    for i := 0 to |runs|
      invariant ids == RunIds(runs[..i]) && cells == KnownCells(runs[..i], cohorts)
      invariant cohortRuns == GroupRuns(runs[..i], cohorts)
      invariant fine ==> errors == []
      invariant errors == [] ==> forall k :: 0 <= k < i ==> RunValid(runs[k], cohorts, specs) && NewRun(runs, k)
    {
      var e := runs[i];
      assert runs[..i + 1][..i] == runs[..i];
      var found, after := CheckRun(e, e.id in ids, cohorts, cells, specs);
      if e.cohort in cohorts {
        NewRunMeans(runs, i, cohorts);
        cohortRuns := cohortRuns[e.cohort := cohortRuns[e.cohort] + [e]];
      }
      if fine {
        assert RunValid(runs[i], cohorts, specs) && NewRun(runs, i);
      }
      ids, cells := ids + {e.id}, after;
      errors := errors + found;
    }
    assert runs[..|runs|] == runs;
    if !Ordered(runs) {
      errors := errors + [RunOrder];
    }
  }

  // ---------- the second pass ----------

  function Usable(entries: seq<Run>, specs: map<Id, RunSpec>): (r: seq<Run>)
    ensures forall k :: 0 <= k < |r| ==> r[k].id in specs
  {
    if entries == [] then []
    else
      var e := entries[|entries| - 1];
      Usable(entries[..|entries| - 1], specs) + if e.id in specs then [e] else []
  }

  function ReplicatesOf(entries: seq<Run>, arm: Id): seq<nat> {
    if entries == [] then []
    else
      var e := entries[|entries| - 1];
      ReplicatesOf(entries[..|entries| - 1], arm) + if e.arm == arm then [e.replicate] else []
  }

  function AtReplicate(entries: seq<Run>, r: nat): seq<Run> {
    if entries == [] then []
    else
      var e := entries[|entries| - 1];
      AtReplicate(entries[..|entries| - 1], r) + if e.replicate == r then [e] else []
  }

  predicate WithSpecs(entries: seq<Run>, specs: map<Id, RunSpec>) {
    forall k :: 0 <= k < |entries| ==> entries[k].id in specs
  }

  function SeedsAt(entries: seq<Run>, specs: map<Id, RunSpec>, r: nat): set<Seeds>
    requires WithSpecs(entries, specs)
  {
    set k | 0 <= k < |entries| && entries[k].replicate == r :: specs[entries[k].id].seeds
  }

  /** The replicate has one seed tuple, shared by all its runs. */
  predicate PairedAt(entries: seq<Run>, specs: map<Id, RunSpec>, r: nat)
    requires WithSpecs(entries, specs)
  {
    && (exists k :: 0 <= k < |entries| && entries[k].replicate == r)
    && forall j, k :: 0 <= j < |entries| && 0 <= k < |entries| && entries[j].replicate == entries[k].replicate == r ==>
         specs[entries[j].id].seeds == specs[entries[k].id].seeds
  }

  predicate Paired(entries: seq<Run>, specs: map<Id, RunSpec>, n: nat)
    requires WithSpecs(entries, specs)
  {
    forall r :: 0 <= r < n ==> PairedAt(entries, specs, r)
  }

  /** Different replicates differ in every training-affecting field. */
  predicate FieldsFresh(entries: seq<Run>, specs: map<Id, RunSpec>, n: nat)
    requires WithSpecs(entries, specs)
  {
    forall f: Field, j, k :: 0 <= j < |entries| && 0 <= k < |entries| ==>
      (entries[j].replicate < n && entries[k].replicate < n && entries[j].replicate != entries[k].replicate ==>
         specs[entries[j].id].seeds.Of(f) != specs[entries[k].id].seeds.Of(f))
  }

  /** Each replicate has as many runs as the cohort has arms. */
  predicate Full(entries: seq<Run>, arms: nat, n: nat) {
    forall r :: 0 <= r < n ==> |AtReplicate(entries, r)| == arms
  }

  predicate ArmsReplicate(c: Cohort, entries: seq<Run>, n: nat) {
    forall k :: 0 <= k < |c.armIds| ==> multiset(ReplicatesOf(entries, c.armIds[k])) == multiset(Range(n))
  }

  predicate CohortRunsValid(c: Cohort, entries: seq<Run>, specs: map<Id, RunSpec>, n: nat) {
    var usable := Usable(entries, specs);
    && ArmsReplicate(c, entries, n)
    && (usable != [] ==> Paired(usable, specs, n) && (Full(usable, |c.armIds|, n) ==> FieldsFresh(usable, specs, n)))
  }

  lemma SingletonMeans<T>(s: set<T>)
    ensures |s| == 1 <==> s != {} && forall x, y :: x in s && y in s ==> x == y
  {
    if s != {} {
      var x :| x in s;
      assert s == {x} + (s - {x});
      if forall y :: y in s ==> x == y {
        assert s == {x};
      }
      if |s| == 1 {
        assert |s - {x}| == 0;
        assert s == {x};
      }
    }
  }

  lemma OneSeedMeans(entries: seq<Run>, specs: map<Id, RunSpec>, r: nat)
    requires WithSpecs(entries, specs)
    ensures |SeedsAt(entries, specs, r)| == 1 <==> PairedAt(entries, specs, r)
  {
    var s := SeedsAt(entries, specs, r);
    SingletonMeans(s);
    forall k | 0 <= k < |entries| && entries[k].replicate == r ensures specs[entries[k].id].seeds in s {
    }
  }

  method CheckArms(c: Cohort, entries: seq<Run>, n: nat) returns (errors: seq<Issue>)
    ensures errors == [] <==> ArmsReplicate(c, entries, n)
  {
    errors := [];
    for k := 0 to |c.armIds|
      invariant errors == [] <==>
                  forall j :: 0 <= j < k ==> multiset(ReplicatesOf(entries, c.armIds[j])) == multiset(Range(n))
    {
      if multiset(ReplicatesOf(entries, c.armIds[k])) != multiset(Range(n)) {
        errors := errors + [Replicates(c.id, c.armIds[k])];
      }
    }
  }

  predicate Ready(usable: seq<Run>, specs: map<Id, RunSpec>, q: nat, arms: nat)
    requires WithSpecs(usable, specs)
  {
    |SeedsAt(usable, specs, q)| == 1 && |AtReplicate(usable, q)| == arms
  }

  /** Pairs the seeds of each replicate; `tuples` are those of the replicates
      that have a run for every arm. */
  method CheckPairing(c: Cohort, usable: seq<Run>, specs: map<Id, RunSpec>, n: nat)
    returns (errors: seq<Issue>, tuples: seq<Seeds>)
    requires WithSpecs(usable, specs)
    ensures errors == [] <==> Paired(usable, specs, n)
    ensures |tuples| <= n
    ensures |tuples| == n ==> forall r :: 0 <= r < n ==> SeedsAt(usable, specs, r) == {tuples[r]}
    ensures Paired(usable, specs, n) ==> (|tuples| == n <==> Full(usable, |c.armIds|, n))
  {
    errors, tuples := [], [];
    for r := 0 to n
      invariant errors == [] <==> forall q :: 0 <= q < r ==> |SeedsAt(usable, specs, q)| == 1
      invariant |tuples| <= r
      invariant |tuples| == r ==> forall q :: 0 <= q < r ==> SeedsAt(usable, specs, q) == {tuples[q]}
      invariant |tuples| == r <==> forall q :: 0 <= q < r ==> Ready(usable, specs, q, |c.armIds|)
    {
      var seeds := SeedsAt(usable, specs, r);
      assert Ready(usable, specs, r, |c.armIds|) <==> |seeds| == 1 && |AtReplicate(usable, r)| == |c.armIds|;
      if |seeds| != 1 {
        errors := errors + [Unpaired(c.id, r)];
      } else if |AtReplicate(usable, r)| == |c.armIds| {
        var s :| s in seeds;
        SingletonMeans(seeds);
        assert seeds == {s};
        tuples := tuples + [s];
      }
    }
    forall q | 0 <= q < n ensures |SeedsAt(usable, specs, q)| == 1 <==> PairedAt(usable, specs, q) {
      OneSeedMeans(usable, specs, q);
    }
    if Paired(usable, specs, n) && Full(usable, |c.armIds|, n) {
      forall q | 0 <= q < n ensures Ready(usable, specs, q, |c.armIds|) {
        assert PairedAt(usable, specs, q) && |AtReplicate(usable, q)| == |c.armIds|;
      }
    }
    if forall q :: 0 <= q < n ==> Ready(usable, specs, q, |c.armIds|) {
      forall q | 0 <= q < n ensures |AtReplicate(usable, q)| == |c.armIds| {
        assert Ready(usable, specs, q, |c.armIds|);
      }
    }
  }

  function FieldValues(tuples: seq<Seeds>, f: Field): (r: seq<int>)
    ensures |r| == |tuples| && forall k :: 0 <= k < |r| ==> r[k] == tuples[k].Of(f)
  {
    seq(|tuples|, k requires 0 <= k < |tuples| => tuples[k].Of(f))
  }

  predicate FieldDiffers(tuples: seq<Seeds>, f: Field) {
    forall j, k :: 0 <= j < k < |tuples| ==> tuples[j].Of(f) != tuples[k].Of(f)
  }

  method CheckField(c: Cohort, tuples: seq<Seeds>, f: Field) returns (errors: seq<Issue>)
    ensures errors == [] <==> FieldDiffers(tuples, f)
  {
    DistinctByCount(FieldValues(tuples, f));
    errors := if |Elements(FieldValues(tuples, f))| != |tuples| then [RepeatedField(c.id, f)] else [];
  }

  method CheckTuples(c: Cohort, tuples: seq<Seeds>) returns (errors: seq<Issue>)
    ensures FieldDiffers(tuples, Training) ==> errors == []
  {
    DistinctByCount(tuples);
    errors := if |Elements(tuples)| != |tuples| then [RepeatedSeeds(c.id)] else [];
  }

  function FieldIndex(f: Field): (k: nat)
    ensures k < |TRAINING_FIELDS| && TRAINING_FIELDS[k] == f
  {
    match f case ModelInitialization => 0 case DataOrder => 1 case Training => 2 case OperatorSelection => 3
  }

  /** Whole tuples first, then every training-affecting field by itself. */
  method CheckFields(c: Cohort, tuples: seq<Seeds>) returns (errors: seq<Issue>)
    ensures errors == [] <==> forall f :: FieldDiffers(tuples, f)
  {
    errors := CheckTuples(c, tuples);
    ghost var fine := forall f :: FieldDiffers(tuples, f);
    for i := 0 to |TRAINING_FIELDS|
      invariant fine ==> errors == []
      invariant errors == [] ==> forall f :: FieldIndex(f) < i ==> FieldDiffers(tuples, f)
    {
      var found := CheckField(c, tuples, TRAINING_FIELDS[i]);
      errors := errors + found;
    }
  }

  /** Distinct tuples are distinct runs: every run's seeds are its replicate's tuple. */
  lemma TuplesSpeakForRuns(usable: seq<Run>, specs: map<Id, RunSpec>, n: nat, tuples: seq<Seeds>)
    requires WithSpecs(usable, specs) && |tuples| == n
    requires forall r :: 0 <= r < n ==> SeedsAt(usable, specs, r) == {tuples[r]}
    ensures (forall f :: FieldDiffers(tuples, f)) <==> FieldsFresh(usable, specs, n)
  {
    forall k | 0 <= k < |usable| && usable[k].replicate < n
      ensures specs[usable[k].id].seeds == tuples[usable[k].replicate]
    {
      assert specs[usable[k].id].seeds in SeedsAt(usable, specs, usable[k].replicate);
    }
    if forall f :: FieldDiffers(tuples, f) {
      forall f: Field, j, k | 0 <= j < |usable| && 0 <= k < |usable| && usable[j].replicate < n && usable[k].replicate < n
                              && usable[j].replicate != usable[k].replicate
        ensures specs[usable[j].id].seeds.Of(f) != specs[usable[k].id].seeds.Of(f)
      {
        assert FieldDiffers(tuples, f);
        var q, r := usable[j].replicate, usable[k].replicate;
        assert tuples[q].Of(f) != tuples[r].Of(f);
      }
    }
    if FieldsFresh(usable, specs, n) {
      forall f, q, r | 0 <= q < r < n ensures tuples[q].Of(f) != tuples[r].Of(f) {
        assert tuples[q] in SeedsAt(usable, specs, q) && tuples[r] in SeedsAt(usable, specs, r);
        var j :| 0 <= j < |usable| && usable[j].replicate == q && specs[usable[j].id].seeds == tuples[q];
        var k :| 0 <= k < |usable| && usable[k].replicate == r && specs[usable[k].id].seeds == tuples[r];
        assert specs[usable[j].id].seeds.Of(f) != specs[usable[k].id].seeds.Of(f);
      }
    }
  }

  method CohortErrors(c: Cohort, entries: seq<Run>, specs: map<Id, RunSpec>, n: nat) returns (errors: seq<Issue>)
    ensures errors == [] <==> CohortRunsValid(c, entries, specs, n)
  {
    errors := CheckArms(c, entries, n);
    var usable := Usable(entries, specs);
    if usable == [] {
      return;
    }
    var unpaired, tuples := CheckPairing(c, usable, specs, n);
    errors := errors + unpaired;
    if |tuples| == n {
      var repeated := CheckFields(c, tuples);
      errors := errors + repeated;
      TuplesSpeakForRuns(usable, specs, n, tuples);
    }
  }

  // ---------- freshness across profiles ----------

  function SeedsIn(runs: seq<Run>, specs: map<Id, RunSpec>, cohorts: map<Id, Cohort>, p: Profile, f: Field): set<int> {
    set k | 0 <= k < |runs| && runs[k].cohort in cohorts && cohorts[runs[k].cohort].profile == p && runs[k].id in specs
      :: specs[runs[k].id].seeds.Of(f)
  }

  predicate FreshAcrossProfiles(runs: seq<Run>, specs: map<Id, RunSpec>, cohorts: map<Id, Cohort>) {
    forall f: Field, j, k :: 0 <= j < |runs| && 0 <= k < |runs| ==>
      (runs[j].cohort in cohorts && runs[k].cohort in cohorts && runs[j].id in specs && runs[k].id in specs
       && cohorts[runs[j].cohort].profile != cohorts[runs[k].cohort].profile ==>
         specs[runs[j].id].seeds.Of(f) != specs[runs[k].id].seeds.Of(f))
  }

  predicate Apart(runs: seq<Run>, specs: map<Id, RunSpec>, cohorts: map<Id, Cohort>, p: Profile, q: Profile, f: Field) {
    SeedsIn(runs, specs, cohorts, p, f) * SeedsIn(runs, specs, cohorts, q, f) == {}
  }

  predicate AllApart(runs: seq<Run>, specs: map<Id, RunSpec>, cohorts: map<Id, Cohort>, p: Profile, q: Profile) {
    forall f :: Apart(runs, specs, cohorts, p, q, f)
  }

  method ReusedBetween(runs: seq<Run>, specs: map<Id, RunSpec>, cohorts: map<Id, Cohort>, p: Profile, q: Profile)
    returns (errors: seq<Issue>)
    ensures errors == [] <==> AllApart(runs, specs, cohorts, p, q)
  {
    errors := [];
    for i := 0 to |TRAINING_FIELDS|
      invariant errors == [] <==> forall f :: FieldIndex(f) < i ==> Apart(runs, specs, cohorts, p, q, f)
    {
      var f := TRAINING_FIELDS[i];
      assert FieldIndex(f) == i;
      var reused := SeedsIn(runs, specs, cohorts, p, f) * SeedsIn(runs, specs, cohorts, q, f);
      assert reused == {} <==> Apart(runs, specs, cohorts, p, q, f);
      if reused != {} {
        errors := errors + [Reused(p, q, f)];
      }
    }
  }

  /** In the order of their names. */
  const PROFILES: seq<Profile> := [Confirmation, RunnerUp, Screening]

  method FreshnessErrors(runs: seq<Run>, specs: map<Id, RunSpec>, cohorts: map<Id, Cohort>) returns (errors: seq<Issue>)
    ensures errors == [] <==> FreshAcrossProfiles(runs, specs, cohorts)
  {
    errors := [];
    for i := 0 to |PROFILES|
      invariant errors == [] <==>
                  forall a, b :: 0 <= a < b < |PROFILES| && a < i ==> AllApart(runs, specs, cohorts, PROFILES[a], PROFILES[b])
    {
      for j := i + 1 to |PROFILES|
        invariant errors == [] <==>
                    && (forall a, b :: 0 <= a < b < |PROFILES| && a < i ==>
                          AllApart(runs, specs, cohorts, PROFILES[a], PROFILES[b]))
                    && forall b :: i < b < j ==> AllApart(runs, specs, cohorts, PROFILES[i], PROFILES[b])
      {
        var reused := ReusedBetween(runs, specs, cohorts, PROFILES[i], PROFILES[j]);
        errors := errors + reused;
      }
    }
    ApartMeansFresh(runs, specs, cohorts);
    assert PROFILES[0] == Confirmation && PROFILES[1] == RunnerUp && PROFILES[2] == Screening;
    assert errors == [] <==>
             && AllApart(runs, specs, cohorts, PROFILES[0], PROFILES[1])
             && AllApart(runs, specs, cohorts, PROFILES[0], PROFILES[2])
             && AllApart(runs, specs, cohorts, PROFILES[1], PROFILES[2]);
  }

  lemma ApartMeansFresh(runs: seq<Run>, specs: map<Id, RunSpec>, cohorts: map<Id, Cohort>)
    ensures FreshAcrossProfiles(runs, specs, cohorts) <==>
              && AllApart(runs, specs, cohorts, Confirmation, RunnerUp)
              && AllApart(runs, specs, cohorts, Confirmation, Screening)
              && AllApart(runs, specs, cohorts, RunnerUp, Screening)
  {
    forall p, q, f | p != q && FreshAcrossProfiles(runs, specs, cohorts) ensures Apart(runs, specs, cohorts, p, q, f) {
    }
    if AllApart(runs, specs, cohorts, Confirmation, RunnerUp) && AllApart(runs, specs, cohorts, Confirmation, Screening)
       && AllApart(runs, specs, cohorts, RunnerUp, Screening) {
      forall f: Field, j, k | 0 <= j < |runs| && 0 <= k < |runs| && runs[j].cohort in cohorts && runs[k].cohort in cohorts
                              && runs[j].id in specs && runs[k].id in specs
                              && cohorts[runs[j].cohort].profile != cohorts[runs[k].cohort].profile
        ensures specs[runs[j].id].seeds.Of(f) != specs[runs[k].id].seeds.Of(f)
      {
        var p, q := cohorts[runs[j].cohort].profile, cohorts[runs[k].cohort].profile;
        var x, y := specs[runs[j].id].seeds.Of(f), specs[runs[k].id].seeds.Of(f);
        var xs, ys := SeedsIn(runs, specs, cohorts, p, f), SeedsIn(runs, specs, cohorts, q, f);
        assert x in xs && y in ys;
        assert AllApart(runs, specs, cohorts, p, q) || AllApart(runs, specs, cohorts, q, p);
        assert Apart(runs, specs, cohorts, p, q, f) || Apart(runs, specs, cohorts, q, p, f);
        assert xs * ys == ys * xs == {};
        assert x !in xs * ys;
      }
    }
  }
}
