/** The joint checks of a campaign registry, and the one declarative predicate
    they amount to: identifiers, the run grid, seed pairing and freshness. */
module Registry {
  import opened Collections
  import opened Words
  import opened Lineage

  datatype Profile = Screening | Confirmation | RunnerUp

  /** The seed fields that affect training; the evaluation seed is the fifth. */
  datatype Field = ModelInitialization | DataOrder | Training | OperatorSelection

  const TRAINING_FIELDS: seq<Field> := [ModelInitialization, DataOrder, Training, OperatorSelection]

  datatype Seeds = Seeds(modelInitialization: int, dataOrder: int, training: int, operatorSelection: int,
                         evaluation: int) {
    function Of(f: Field): int {
      match f
      case ModelInitialization => modelInitialization
      case DataOrder => dataOrder
      case Training => training
      case OperatorSelection => operatorSelection
    }
  }

  datatype Cohort = Cohort(id: Id, profile: Profile, armIds: seq<Id>)
  datatype Run = Run(id: Id, cohort: Id, arm: Id, replicate: nat, profile: Profile)
  datatype RunSpec = RunSpec(profile: Profile, replicate: nat, seeds: Seeds)
  datatype Registry = Registry(arms: seq<Arm>, cohorts: seq<Cohort>, runs: seq<Run>)

  /** How many seeds the policy requires of each profile. */
  datatype Policy = Policy(screening: nat, confirmation: nat, runnerUp: nat) {
    function Required(p: Profile): nat {
      match p case Screening => screening case Confirmation => confirmation case RunnerUp => runnerUp
    }
  }

  datatype Issue =
    | DuplicateArm(id: Id) | ArmOrder | DuplicateCohort(id: Id) | CohortOrder
    | MembersOrder(cohort: Id) | UndeclaredArm(cohort: Id, arm: Id) | RepeatedMember(cohort: Id, arm: Id)
    | UnusedArms
    | InLineage(issue: LineageIssue)
    | DuplicateRun(id: Id) | RunOrder | UnknownCohort(id: Id) | ForeignArm(id: Id) | ProfileMismatch(id: Id)
    | DuplicateCell(id: Id) | SpecMismatch(id: Id)
    | Replicates(cohort: Id, arm: Id) | Unpaired(cohort: Id, replicate: nat) | RepeatedSeeds(cohort: Id)
    | RepeatedField(cohort: Id, field: Field) | Reused(left: Profile, right: Profile, field: Field)
    | Documents

  // ---------- identifiers ----------

  predicate Sorted(ids: seq<Id>) {
    forall i, j :: 0 <= i < j < |ids| ==> ids[i] <= ids[j]
  }

  predicate ArmsAscend(arms: seq<Arm>) {
    forall i, j :: 0 <= i < j < |arms| ==> arms[i].id < arms[j].id
  }

  predicate CohortsAscend(cohorts: seq<Cohort>) {
    forall i, j :: 0 <= i < j < |cohorts| ==> cohorts[i].id < cohorts[j].id
  }

  predicate HasArm(arms: seq<Arm>, a: Id) {
    exists k :: 0 <= k < |arms| && arms[k].id == a
  }

  predicate HasCohort(cohorts: seq<Cohort>, c: Id) {
    exists k :: 0 <= k < |cohorts| && cohorts[k].id == c
  }

  /** An arm and a profile it takes part in. */
  type Member = (Id, Profile)

  predicate Participates(cohorts: seq<Cohort>, m: Member) {
    exists k :: 0 <= k < |cohorts| && cohorts[k].profile == m.1 && m.0 in cohorts[k].armIds
  }

  predicate Declared(c: Cohort, arms: set<Id>) {
    forall k :: 0 <= k < |c.armIds| ==> c.armIds[k] in arms
  }

  predicate Disjoint(c: Cohort, d: Cohort) {
    c.profile == d.profile ==> forall k :: 0 <= k < |d.armIds| ==> d.armIds[k] !in c.armIds
  }

  predicate CohortValid(c: Cohort, arms: set<Id>) {
    Sorted(c.armIds) && Declared(c, arms) && Distinct(c.armIds)
  }

  /** No arm takes part twice in one profile. */
  predicate CohortsValid(cohorts: seq<Cohort>, arms: set<Id>) {
    && (forall k :: 0 <= k < |cohorts| ==> CohortValid(cohorts[k], arms))
    && forall j, k :: 0 <= j < k < |cohorts| ==> Disjoint(cohorts[j], cohorts[k])
  }

  predicate AllUsed(arms: set<Id>, cohorts: seq<Cohort>) {
    forall a :: a in arms ==> exists k :: 0 <= k < |cohorts| && a in cohorts[k].armIds
  }

  function ArmSet(arms: seq<Arm>): set<Id> {
    set k | 0 <= k < |arms| :: arms[k].id
  }

  predicate IdentifiersValid(r: Registry) {
    && ArmsAscend(r.arms) && CohortsAscend(r.cohorts)
    && CohortsValid(r.cohorts, ArmSet(r.arms)) && AllUsed(ArmSet(r.arms), r.cohorts)
  }

  /** The last arm of each identifier. */
  function ArmMap(arms: seq<Arm>): map<Id, Arm> {
    if arms == [] then map[]
    else
      var a := arms[|arms| - 1];
      ArmMap(arms[..|arms| - 1])[a.id := a]
  }

  lemma {:induction false} ArmMapMeaning(arms: seq<Arm>, id: Id)
    ensures id in ArmMap(arms) <==> HasArm(arms, id)
  {
    if arms != [] {
      var n := |arms| - 1;
      ArmMapMeaning(arms[..n], id);
      assert forall k :: 0 <= k < n ==> arms[..n][k] == arms[k];
    }
  }

  lemma ArmMapKeys(arms: seq<Arm>)
    ensures ArmMap(arms).Keys == ArmSet(arms)
  {
    forall a ensures a in ArmMap(arms) <==> a in ArmSet(arms) {
      ArmMapMeaning(arms, a);
    }
  }

  method CollectArms(arms: seq<Arm>) returns (byId: map<Id, Arm>, errors: seq<Issue>)
    ensures errors == [] <==> ArmsAscend(arms)
    ensures byId == ArmMap(arms)
  {
    byId, errors := map[], [];
    for i := 0 to |arms|
      invariant byId == ArmMap(arms[..i])
      invariant ArmsAscend(arms) ==> errors == []
    {
      ArmMapMeaning(arms[..i], arms[i].id);
      if arms[i].id in byId {
        errors := errors + [DuplicateArm(arms[i].id)];
      }
      assert arms[..i + 1][..i] == arms[..i];
      byId := byId[arms[i].id := arms[i]];
    }
    assert arms[..|arms|] == arms;
    if !ArmsAscend(arms) {
      errors := errors + [ArmOrder];
    }
  }

  /** One cohort's arms: declared, and new in the cohort's profile. */
  method CheckMembers(c: Cohort, arms: set<Id>, seen: set<Member>) returns (errors: seq<Issue>, after: set<Member>)
    ensures forall m :: m in after <==> m in seen || (m.1 == c.profile && m.0 in c.armIds)
    ensures errors == [] <==> Declared(c, arms) && Distinct(c.armIds)
                              && forall k :: 0 <= k < |c.armIds| ==> (c.armIds[k], c.profile) !in seen
  {
    errors, after := [], seen;
    for k := 0 to |c.armIds|
      invariant forall m :: m in after <==>
                  m in seen || (m.1 == c.profile && exists j :: 0 <= j < k && c.armIds[j] == m.0)
      invariant errors == [] <==> forall j :: 0 <= j < k ==>
                  && c.armIds[j] in arms && (c.armIds[j], c.profile) !in seen
                  && forall h :: 0 <= h < j ==> c.armIds[h] != c.armIds[j]
    {
      var key := (c.armIds[k], c.profile);
      if c.armIds[k] !in arms {
        errors := errors + [UndeclaredArm(c.id, c.armIds[k])];
      }
      if key in after {
        errors := errors + [RepeatedMember(c.id, c.armIds[k])];
      }
      after := after + {key};
    }
  }

  predicate EarlierDisjoint(cohorts: seq<Cohort>, i: nat)
    requires i < |cohorts|
  {
    forall j :: 0 <= j < i ==> Disjoint(cohorts[j], cohorts[i])
  }

  /** The last cohort of each identifier. */
  function CohortMap(cohorts: seq<Cohort>): map<Id, Cohort> {
    if cohorts == [] then map[]
    else
      var c := cohorts[|cohorts| - 1];
      CohortMap(cohorts[..|cohorts| - 1])[c.id := c]
  }

  lemma {:induction false} CohortMapMeaning(cohorts: seq<Cohort>, id: Id)
    ensures id in CohortMap(cohorts) <==> HasCohort(cohorts, id)
    ensures id in CohortMap(cohorts) ==>
              exists k :: 0 <= k < |cohorts| && cohorts[k].id == id && CohortMap(cohorts)[id] == cohorts[k]
  {
    if cohorts != [] {
      var n := |cohorts| - 1;
      CohortMapMeaning(cohorts[..n], id);
      assert forall k :: 0 <= k < n ==> cohorts[..n][k] == cohorts[k];
    }
  }

  lemma AscendingCohortMap(cohorts: seq<Cohort>, k: nat)
    requires CohortsAscend(cohorts) && k < |cohorts|
    ensures cohorts[k].id in CohortMap(cohorts) && CohortMap(cohorts)[cohorts[k].id] == cohorts[k]
  {
    CohortMapMeaning(cohorts, cohorts[k].id);
  }

  method CollectCohorts(cohorts: seq<Cohort>, arms: set<Id>)
    returns (byId: map<Id, Cohort>, members: set<Member>, errors: seq<Issue>)
    ensures errors == [] <==> CohortsAscend(cohorts) && CohortsValid(cohorts, arms)
    ensures forall m :: m in members <==> Participates(cohorts, m)
    ensures byId == CohortMap(cohorts)
  {
    byId, members, errors := map[], {}, [];
    ghost var fine := CohortsAscend(cohorts) && CohortsValid(cohorts, arms);
    for i := 0 to |cohorts|
      invariant byId == CohortMap(cohorts[..i])
      invariant forall m :: m in members <==> Participates(cohorts[..i], m)
      invariant errors == [] ==>
                  forall k :: 0 <= k < i ==> CohortValid(cohorts[k], arms) && EarlierDisjoint(cohorts, k)
      invariant fine ==> errors == []
    {
      var c := cohorts[i];
      var found, after := CheckCohort(c, arms, members, c.id in byId);
      PrefixesGrow(cohorts, i);
      CohortMapMeaning(cohorts[..i], c.id);
      assert cohorts[..i + 1][..i] == cohorts[..i];
      SeenIsEarlier(cohorts, i, members);
      if fine {
        FaultsShow(cohorts, i, arms);
      }
      byId, members := byId[c.id := c], after;
      errors := errors + found;
    }
    assert cohorts[..|cohorts|] == cohorts;
    if !CohortsAscend(cohorts) {
      errors := errors + [CohortOrder];
    }
  }

  method CheckCohort(c: Cohort, arms: set<Id>, seen: set<Member>, again: bool)
    returns (errors: seq<Issue>, after: set<Member>)
    ensures forall m :: m in after <==> m in seen || (m.1 == c.profile && m.0 in c.armIds)
    ensures errors == [] <==> !again && CohortValid(c, arms)
                              && forall k :: 0 <= k < |c.armIds| ==> (c.armIds[k], c.profile) !in seen
  {
    var found;
    found, after := CheckMembers(c, arms, seen);
    errors := if again then [DuplicateCohort(c.id)] else [];
    if !Sorted(c.armIds) {
      errors := errors + [MembersOrder(c.id)];
    }
    errors := errors + found;
  }

  lemma FaultsShow(cohorts: seq<Cohort>, i: nat, arms: set<Id>)
    requires i < |cohorts| && CohortsAscend(cohorts) && CohortsValid(cohorts, arms)
    ensures CohortValid(cohorts[i], arms) && EarlierDisjoint(cohorts, i) && !HasCohort(cohorts[..i], cohorts[i].id)
  {
  }

  lemma PrefixesGrow(cohorts: seq<Cohort>, i: nat)
    requires i < |cohorts|
    ensures forall c :: HasCohort(cohorts[..i + 1], c) <==> HasCohort(cohorts[..i], c) || c == cohorts[i].id
    ensures forall m :: Participates(cohorts[..i + 1], m) <==>
              Participates(cohorts[..i], m) || (cohorts[i].profile == m.1 && m.0 in cohorts[i].armIds)
    ensures forall c :: HasCohort(cohorts[..i], c) <==> exists k :: 0 <= k < i && cohorts[k].id == c
  {
    var before, now := cohorts[..i], cohorts[..i + 1];
    assert now[i] == cohorts[i] && forall k :: 0 <= k < i ==> now[k] == before[k] == cohorts[k];
    forall c ensures HasCohort(now, c) <==> HasCohort(before, c) || c == cohorts[i].id {
      if k :| 0 <= k < |before| && before[k].id == c {
        assert now[k].id == c;
      }
      if c == cohorts[i].id {
        assert now[i].id == c;
      }
    }
    forall m: Member
      ensures Participates(now, m) <==>
                Participates(before, m) || (cohorts[i].profile == m.1 && m.0 in cohorts[i].armIds)
    {
      if k :| 0 <= k < |before| && before[k].profile == m.1 && m.0 in before[k].armIds {
        assert now[k].profile == m.1 && m.0 in now[k].armIds;
      }
      if cohorts[i].profile == m.1 && m.0 in cohorts[i].armIds {
        assert now[i].profile == m.1 && m.0 in now[i].armIds;
      }
    }
  }

  lemma SeenIsEarlier(cohorts: seq<Cohort>, i: nat, members: set<Member>)
    requires i < |cohorts| && forall m :: m in members <==> Participates(cohorts[..i], m)
    ensures EarlierDisjoint(cohorts, i) <==>
              forall k :: 0 <= k < |cohorts[i].armIds| ==> (cohorts[i].armIds[k], cohorts[i].profile) !in members
  {
    var c := cohorts[i];
    forall k | 0 <= k < |c.armIds|
      ensures (c.armIds[k], c.profile) in members <==>
                exists j :: 0 <= j < i && cohorts[j].profile == c.profile && c.armIds[k] in cohorts[j].armIds
    {
      assert forall j :: 0 <= j < i ==> cohorts[..i][j] == cohorts[j];
    }
  }

  method IdentifierErrors(r: Registry) returns (arms: map<Id, Arm>, cohorts: map<Id, Cohort>, errors: seq<Issue>)
    ensures errors == [] <==> IdentifiersValid(r)
    ensures arms == ArmMap(r.arms) && cohorts == CohortMap(r.cohorts)
  {
    var members, found;
    arms, errors := CollectArms(r.arms);
    ArmMapKeys(r.arms);
    cohorts, members, found := CollectCohorts(r.cohorts, arms.Keys);
    errors := errors + found;
    var unused := arms.Keys - set m | m in members :: m.0;
    UnusedMeans(arms.Keys, r.cohorts, members);
    if unused != {} {
      errors := errors + [UnusedArms];
    }
  }

  lemma UnusedMeans(arms: set<Id>, cohorts: seq<Cohort>, members: set<Member>)
    requires forall m :: m in members <==> Participates(cohorts, m)
    ensures arms - (set m | m in members :: m.0) == {} <==> AllUsed(arms, cohorts)
  {
    var used := set m | m in members :: m.0;
    forall a ensures a in used <==> exists k :: 0 <= k < |cohorts| && a in cohorts[k].armIds {
      if k :| 0 <= k < |cohorts| && a in cohorts[k].armIds {
        var m := (a, cohorts[k].profile);
        assert Participates(cohorts, m) && m in members && m.0 == a;
      }
    }
    forall a | a in arms ensures a in used <==> a !in arms - used {
    }
  }
}
