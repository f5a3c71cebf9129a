/** An acceptable registry, read off its records field by field, and the validator
    proved to accept exactly these. */
module RegistryMeaning {
  import opened Collections
  import opened Words
  import opened Options
  import opened Lineage
  import opened Registry
  import opened RegistryRuns
  import opened RegistryTheorem

  // ---------- identifiers and lineage ----------

  predicate Listed(r: Registry) {
    && (forall i, j :: 0 <= i < j < |r.arms| ==> r.arms[i].id < r.arms[j].id)
    && (forall i, j :: 0 <= i < j < |r.cohorts| ==> r.cohorts[i].id < r.cohorts[j].id)
  }

  predicate IsArm(r: Registry, id: Id) {
    exists k :: 0 <= k < |r.arms| && r.arms[k].id == id
  }

  /** A cohort lists declared arms in ascending order. */
  predicate ListsArms(r: Registry, c: Cohort) {
    && (forall i, j :: 0 <= i < j < |c.armIds| ==> c.armIds[i] < c.armIds[j])
    && (forall i :: 0 <= i < |c.armIds| ==> IsArm(r, c.armIds[i]))
  }

  predicate NoArmInBoth(c: Cohort, d: Cohort) {
    forall i, j :: 0 <= i < |c.armIds| && 0 <= j < |d.armIds| ==> c.armIds[i] != d.armIds[j]
  }

  predicate TakesPart(r: Registry, id: Id) {
    exists c :: 0 <= c < |r.cohorts| && id in r.cohorts[c].armIds
  }

  /** Arms and cohorts are listed in ascending order; an arm is in one cohort of a
      profile at most, and in some cohort at least. */
  predicate Identified(r: Registry) {
    && Listed(r)
    && (forall c :: 0 <= c < |r.cohorts| ==> ListsArms(r, r.cohorts[c]))
    && (forall c, d :: 0 <= c < d < |r.cohorts| && r.cohorts[c].profile == r.cohorts[d].profile ==>
          NoArmInBoth(r.cohorts[c], r.cohorts[d]))
    && (forall k :: 0 <= k < |r.arms| ==> TakesPart(r, r.arms[k].id))
  }

  /** Every source is a declared arm of smaller rank. */
  predicate RankedBy(r: Registry, rank: map<Id, nat>) {
    && (forall k :: 0 <= k < |r.arms| ==> r.arms[k].id in rank)
    && forall k :: 0 <= k < |r.arms| && r.arms[k].source.Some? ==>
         && IsArm(r, r.arms[k].source.value)
         && r.arms[k].source.value in rank && rank[r.arms[k].source.value] < rank[r.arms[k].id]
  }

  ghost predicate Ranked(r: Registry) {
    exists rank :: RankedBy(r, rank)
  }

  // ---------- runs ----------

  function Needed(policy: Policy, profile: Profile): nat {
    match profile
    case Screening => policy.screening
    case Confirmation => policy.confirmation
    case RunnerUp => policy.runnerUp
  }

  /** The run belongs in the registry, and its document agrees with it. */
  ghost predicate Placed(r: Registry, policy: Policy, specs: map<Id, RunSpec>, e: Run) {
    && (exists c :: 0 <= c < |r.cohorts| && r.cohorts[c].id == e.cohort && r.cohorts[c].profile == e.profile
                    && e.arm in r.cohorts[c].armIds)
    && e.replicate < Needed(policy, e.profile)
    && e.id in specs && specs[e.id].profile == e.profile && specs[e.id].replicate == e.replicate
  }

  predicate Filled(r: Registry, cohort: Id, arm: Id, q: nat) {
    exists k :: 0 <= k < |r.runs| && r.runs[k].cohort == cohort && r.runs[k].arm == arm && r.runs[k].replicate == q
  }

  /** By cohort, arm and replicate, with identifiers of their own. */
  predicate RunsListed(runs: seq<Run>) {
    forall i, j :: 0 <= i < j < |runs| ==>
      var x, y := runs[i], runs[j];
      && x.id != y.id
      && (x.cohort < y.cohort
          || (x.cohort == y.cohort && (x.arm < y.arm || (x.arm == y.arm && x.replicate < y.replicate))))
  }

  predicate Documented(runs: seq<Run>, specs: map<Id, RunSpec>) {
    && (forall k :: 0 <= k < |runs| ==> runs[k].id in specs)
    && (forall id :: id in specs ==> exists k :: 0 <= k < |runs| && runs[k].id == id)
  }

  /** One run for each arm and replicate of each cohort, and one document for each run. */
  ghost predicate Gridded(r: Registry, policy: Policy, specs: map<Id, RunSpec>) {
    && RunsListed(r.runs) && Documented(r.runs, specs)
    && (forall k :: 0 <= k < |r.runs| ==> Placed(r, policy, specs, r.runs[k]))
    && (forall c, i, q :: 0 <= c < |r.cohorts| && 0 <= i < |r.cohorts[c].armIds|
                          && 0 <= q < Needed(policy, r.cohorts[c].profile) ==>
          Filled(r, r.cohorts[c].id, r.cohorts[c].armIds[i], q))
  }

  // ---------- seeds ----------

  /** Each of the four seeds that affect training is another. */
  predicate FreshSeeds(s: Seeds, t: Seeds) {
    && s.modelInitialization != t.modelInitialization
    && s.dataOrder != t.dataOrder
    && s.training != t.training
    && s.operatorSelection != t.operatorSelection
  }

  /** Runs of one replicate share all five seeds; runs of different replicates of a
      cohort, and runs of different profiles, share none that affects training. */
  predicate SeededPair(x: Run, y: Run, s: Seeds, t: Seeds) {
    && (x.cohort == y.cohort && x.replicate == y.replicate ==> s == t)
    && (x.cohort == y.cohort && x.replicate != y.replicate ==> FreshSeeds(s, t))
    && (x.profile != y.profile ==> FreshSeeds(s, t))
  }

  predicate Seeded(r: Registry, specs: map<Id, RunSpec>)
    requires Documented(r.runs, specs)
  {
    forall i, j :: 0 <= i < |r.runs| && 0 <= j < |r.runs| ==>
      SeededPair(r.runs[i], r.runs[j], specs[r.runs[i].id].seeds, specs[r.runs[j].id].seeds)
  }

  ghost predicate Acceptable(r: Registry, policy: Policy, specs: map<Id, RunSpec>) {
    Identified(r) && Ranked(r) && Gridded(r, policy, specs) && Seeded(r, specs)
  }

  // ---------- the passes find exactly this ----------

  lemma FieldsDifferMeans(s: Seeds, t: Seeds)
    ensures FieldsDiffer(s, t) <==> FreshSeeds(s, t)
  {
    assert FieldsDiffer(s, t) ==>
             && s.Of(ModelInitialization) != t.Of(ModelInitialization) && s.Of(DataOrder) != t.Of(DataOrder)
             && s.Of(Training) != t.Of(Training) && s.Of(OperatorSelection) != t.Of(OperatorSelection);
  }

  /** Another evaluation seed alone does not make a fresh run. */
  lemma EvaluationSeedIsNotEnough(s: Seeds, evaluation: int)
    ensures !FieldsDiffer(s, s.(evaluation := evaluation))
  {
    FieldsDifferMeans(s, s.(evaluation := evaluation));
  }

  lemma ArmSetMeans(r: Registry, id: Id)
    ensures id in ArmSet(r.arms) <==> IsArm(r, id)
  {
  }

  lemma CohortValidMeans(r: Registry, c: Cohort)
    ensures CohortValid(c, ArmSet(r.arms)) <==> ListsArms(r, c)
  {
    forall id ensures id in ArmSet(r.arms) <==> IsArm(r, id) {
      ArmSetMeans(r, id);
    }
  }

  lemma DisjointMeans(c: Cohort, d: Cohort)
    ensures Disjoint(c, d) <==> (c.profile == d.profile ==> NoArmInBoth(c, d))
  {
  }

  lemma AllUsedMeans(r: Registry)
    ensures AllUsed(ArmSet(r.arms), r.cohorts) <==> forall k :: 0 <= k < |r.arms| ==> TakesPart(r, r.arms[k].id)
  {
    forall k | 0 <= k < |r.arms| ensures r.arms[k].id in ArmSet(r.arms) {
    }
    forall a ensures TakesPart(r, a) <==> exists c :: 0 <= c < |r.cohorts| && a in r.cohorts[c].armIds {
    }
  }

  lemma IdentifiedMeans(r: Registry)
    ensures IdentifiersValid(r) <==> Identified(r)
  {
    forall c | 0 <= c < |r.cohorts| ensures CohortValid(r.cohorts[c], ArmSet(r.arms)) <==> ListsArms(r, r.cohorts[c]) {
      CohortValidMeans(r, r.cohorts[c]);
    }
    forall c, d | 0 <= c < d < |r.cohorts|
      ensures Disjoint(r.cohorts[c], r.cohorts[d]) <==>
                (r.cohorts[c].profile == r.cohorts[d].profile ==> NoArmInBoth(r.cohorts[c], r.cohorts[d]))
    {
      DisjointMeans(r.cohorts[c], r.cohorts[d]);
    }
    AllUsedMeans(r);
  }

  lemma {:induction false} AscendingArmMap(arms: seq<Arm>, k: nat)
    requires (forall i, j :: 0 <= i < j < |arms| ==> arms[i].id < arms[j].id) && k < |arms|
    ensures arms[k].id in ArmMap(arms) && ArmMap(arms)[arms[k].id] == arms[k]
  {
    if k < |arms| - 1 {
      AscendingArmMap(arms[..|arms| - 1], k);
    }
  }

  lemma RankedIfRankable(r: Registry)
    requires Listed(r) && Rankable(ArmMap(r.arms))
    ensures Ranked(r)
  {
    var arms := ArmMap(r.arms);
    var rank :| Ranks(arms, rank);
    forall k | 0 <= k < |r.arms|
      ensures r.arms[k].id in rank
      ensures r.arms[k].source.Some? ==>
                && IsArm(r, r.arms[k].source.value)
                && r.arms[k].source.value in rank && rank[r.arms[k].source.value] < rank[r.arms[k].id]
    {
      AscendingArmMap(r.arms, k);
      assert SourceKnown(arms, r.arms[k].id);
      if r.arms[k].source.Some? {
        ArmMapMeaning(r.arms, r.arms[k].source.value);
      }
    }
    assert RankedBy(r, rank);
  }

  lemma RankableIfRanked(r: Registry)
    requires Listed(r) && Ranked(r)
    ensures Rankable(ArmMap(r.arms))
  {
    var arms := ArmMap(r.arms);
    var rank :| RankedBy(r, rank);
    var exactly := map a | a in arms :: if a in rank then rank[a] else 0;
    forall a | a in arms
      ensures SourceKnown(arms, a) && (arms[a].source.Some? ==> exactly[arms[a].source.value] < exactly[a])
    {
      ArmMapMeaning(r.arms, a);
      var k :| 0 <= k < |r.arms| && r.arms[k].id == a;
      AscendingArmMap(r.arms, k);
      if arms[a].source.Some? {
        ArmMapMeaning(r.arms, arms[a].source.value);
      }
    }
    assert Ranks(arms, exactly);
  }

  lemma DocumentsMean(r: Registry, specs: map<Id, RunSpec>)
    ensures specs.Keys == RunIds(r.runs) <==> Documented(r.runs, specs)
  {
    forall id ensures id in RunIds(r.runs) <==> exists k :: 0 <= k < |r.runs| && r.runs[k].id == id {
      RunIdsMean(r.runs, id);
    }
    if specs.Keys == RunIds(r.runs) {
      forall k | 0 <= k < |r.runs| ensures r.runs[k].id in specs {
        assert r.runs[k].id in RunIds(r.runs);
      }
    }
  }

  lemma {:induction false} RunIdsMean(runs: seq<Run>, id: Id)
    ensures id in RunIds(runs) <==> exists k :: 0 <= k < |runs| && runs[k].id == id
  {
    if runs != [] {
      var n := |runs| - 1;
      RunIdsMean(runs[..n], id);
      assert forall k :: 0 <= k < n ==> runs[..n][k] == runs[k];
    }
  }

  lemma OrderMeans(runs: seq<Run>)
    ensures Ordered(runs) && RunsDistinct(runs) <==> RunsListed(runs)
  {
    if Ordered(runs) && RunsDistinct(runs) {
      forall i, j | 0 <= i < j < |runs|
        ensures InOrder(runs[i], runs[j]) && runs[i].id != runs[j].id && CellOf(runs[i]) != CellOf(runs[j])
      {
        assert NewRun(runs, j);
      }
    }
  }

  lemma PlacesMean(r: Registry, policy: Policy, specs: map<Id, RunSpec>, e: Run)
    ensures InGrid(r, policy, e) && Agrees(e, specs) <==> Placed(r, policy, specs, e)
  {
    assert forall p :: policy.Required(p) == Needed(policy, p);
  }

  lemma FilledMeans(r: Registry, cohort: Id, arm: Id, q: nat)
    ensures CellFilled(r, cohort, arm, q) <==> Filled(r, cohort, arm, q)
  {
    if CellFilled(r, cohort, arm, q) {
      var e :| e in r.runs && CellOf(e) == (cohort, arm, q);
    }
    if Filled(r, cohort, arm, q) {
      var k :| 0 <= k < |r.runs| && r.runs[k].cohort == cohort && r.runs[k].arm == arm && r.runs[k].replicate == q;
      assert CellOf(r.runs[k]) == (cohort, arm, q);
    }
  }

  lemma AllPlacedMeans(r: Registry, policy: Policy, specs: map<Id, RunSpec>)
    ensures AllAgree(r.runs, specs) && (forall e :: e in r.runs ==> InGrid(r, policy, e)) <==>
              forall k :: 0 <= k < |r.runs| ==> Placed(r, policy, specs, r.runs[k])
  {
    forall e ensures InGrid(r, policy, e) && Agrees(e, specs) <==> Placed(r, policy, specs, e) {
      PlacesMean(r, policy, specs, e);
    }
    if AllAgree(r.runs, specs) && (forall e :: e in r.runs ==> InGrid(r, policy, e)) {
      forall k | 0 <= k < |r.runs| ensures Placed(r, policy, specs, r.runs[k]) {
        assert r.runs[k] in r.runs;
      }
    }
  }

  lemma AllFilledMeans(r: Registry, policy: Policy)
    ensures (forall k, a, q :: 0 <= k < |r.cohorts| && 0 <= a < |r.cohorts[k].armIds|
                               && 0 <= q < policy.Required(r.cohorts[k].profile) ==>
               CellFilled(r, r.cohorts[k].id, r.cohorts[k].armIds[a], q)) <==>
            forall c, i, q :: 0 <= c < |r.cohorts| && 0 <= i < |r.cohorts[c].armIds|
                              && 0 <= q < Needed(policy, r.cohorts[c].profile) ==>
              Filled(r, r.cohorts[c].id, r.cohorts[c].armIds[i], q)
  {
    forall cohort, arm, q ensures CellFilled(r, cohort, arm, q) <==> Filled(r, cohort, arm, q) {
      FilledMeans(r, cohort, arm, q);
    }
    forall p ensures policy.Required(p) == Needed(policy, p) {
    }
  }

  lemma GridMeans(r: Registry, policy: Policy, specs: map<Id, RunSpec>)
    ensures Ordered(r.runs) && specs.Keys == RunIds(r.runs) && AllAgree(r.runs, specs) && GridExact(r, policy) <==>
              Gridded(r, policy, specs)
  {
    DocumentsMean(r, specs);
    OrderMeans(r.runs);
    AllPlacedMeans(r, policy, specs);
    AllFilledMeans(r, policy);
  }

  lemma PairMeans(x: Run, y: Run, s: Seeds, t: Seeds)
    ensures SeededPair(x, y, s, t) <==>
              && (x.cohort == y.cohort ==> if x.replicate == y.replicate then s == t else FieldsDiffer(s, t))
              && (x.profile != y.profile ==> FieldsDiffer(s, t))
  {
    FieldsDifferMeans(s, t);
  }

  lemma SeededIfExact(r: Registry, specs: map<Id, RunSpec>)
    requires AllAgree(r.runs, specs) && Documented(r.runs, specs)
    requires SeedsExact(r.runs, specs) && ProfilesFresh(r.runs, specs)
    ensures Seeded(r, specs)
  {
    forall i, j | 0 <= i < |r.runs| && 0 <= j < |r.runs|
      ensures SeededPair(r.runs[i], r.runs[j], specs[r.runs[i].id].seeds, specs[r.runs[j].id].seeds)
    {
      var x, y := r.runs[i], r.runs[j];
      assert x in r.runs && y in r.runs;
      PairMeans(x, y, specs[x.id].seeds, specs[y.id].seeds);
    }
  }

  lemma SeededPairOf(r: Registry, specs: map<Id, RunSpec>, x: Run, y: Run)
    requires Documented(r.runs, specs) && Seeded(r, specs) && x in r.runs && y in r.runs
    ensures x.id in specs && y.id in specs && SeededPair(x, y, specs[x.id].seeds, specs[y.id].seeds)
  {
    var i :| 0 <= i < |r.runs| && r.runs[i] == x;
    var j :| 0 <= j < |r.runs| && r.runs[j] == y;
  }

  lemma ExactIfSeeded(r: Registry, specs: map<Id, RunSpec>)
    requires AllAgree(r.runs, specs) && Documented(r.runs, specs) && Seeded(r, specs)
    ensures SeedsExact(r.runs, specs)
    ensures ProfilesFresh(r.runs, specs)
  {
    forall x, y | x in r.runs && y in r.runs && x.cohort == y.cohort
      ensures if x.replicate == y.replicate then specs[x.id].seeds == specs[y.id].seeds
              else FieldsDiffer(specs[x.id].seeds, specs[y.id].seeds)
    {
      SeededPairOf(r, specs, x, y);
      PairMeans(x, y, specs[x.id].seeds, specs[y.id].seeds);
    }
    forall x, y | x in r.runs && y in r.runs && x.profile != y.profile
      ensures FieldsDiffer(specs[x.id].seeds, specs[y.id].seeds)
    {
      SeededPairOf(r, specs, x, y);
      PairMeans(x, y, specs[x.id].seeds, specs[y.id].seeds);
    }
  }

  /** The passes accept a registry iff it is acceptable. */
  lemma AcceptedIffAcceptable(r: Registry, policy: Policy, specs: map<Id, RunSpec>)
    ensures Accepted(r, policy, specs) <==> Acceptable(r, policy, specs)
  {
    AcceptedIsExact(r, policy, specs);
    IdentifiedMeans(r);
    GridMeans(r, policy, specs);
    if Identified(r) && Ranked(r) {
      RankableIfRanked(r);
    }
    if Identified(r) && Rankable(ArmMap(r.arms)) {
      RankedIfRankable(r);
    }
    if AllAgree(r.runs, specs) && Gridded(r, policy, specs) {
      if SeedsExact(r.runs, specs) && ProfilesFresh(r.runs, specs) {
        SeededIfExact(r, specs);
      }
      if Seeded(r, specs) {
        ExactIfSeeded(r, specs);
      }
    }
  }

  // ---------- the validator ----------

  method CohortsErrors(r: Registry, policy: Policy, specs: map<Id, RunSpec>, cohorts: map<Id, Cohort>,
                       cohortRuns: map<Id, seq<Run>>) returns (errors: seq<Issue>)
    requires cohorts == CohortMap(r.cohorts) && cohortRuns == GroupRuns(r.runs, cohorts)
    ensures errors == [] <==> CohortsRunsValid(r, policy, specs)
  {
    errors := [];
    var left := cohorts.Keys;
    while left != {}
      invariant left <= cohorts.Keys
      invariant errors == [] <==> forall id :: id in cohorts.Keys - left ==>
                  CohortRunsValid(cohorts[id], RunsOf(r.runs, id), specs, policy.Required(cohorts[id].profile))
      decreases |left|
    {
      var id :| id in left;
      left := left - {id};
      GroupRunsMeaning(r.runs, cohorts, id);
      var found := CohortErrors(cohorts[id], cohortRuns[id], specs, policy.Required(cohorts[id].profile));
      errors := errors + found;
    }
  }

  /** The whole of it; a registry whose documents do not match its runs is
      checked against no documents. */
  method ValidateRegistry(r: Registry, policy: Policy, documents: map<Id, RunSpec>) returns (errors: seq<Issue>)
    ensures errors == [] <==> Acceptable(r, policy, documents)
  {
    AcceptedIffAcceptable(r, policy, documents);
    var arms, cohorts;
    arms, cohorts, errors := IdentifierErrors(r);
    var lineage := ArmLineageErrors(arms);
    errors := errors + seq(|lineage|, k requires 0 <= k < |lineage| => InLineage(lineage[k]));
    var specs := documents;
    if documents.Keys != RunIds(r.runs) {
      errors := errors + [Documents];
      specs := map[];
    }
    var cohortRuns, runErrors := RunErrors(r.runs, cohorts, specs);
    errors := errors + runErrors;
    var grid := CohortsErrors(r, policy, specs, cohorts, cohortRuns);
    var reused := FreshnessErrors(r.runs, specs, cohorts);
    errors := errors + grid + reused;
  }
}
