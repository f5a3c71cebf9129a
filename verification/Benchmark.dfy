/** Benchmark specifications, what the generator writes into one, and what a
    valid set of them is.  A digest is the value it was taken of, so that it is
    equal exactly where a collision-free digest is. */
module Benchmark {
  import opened Options
  import opened Words

  datatype Suite = Static | Interactive | OtherSuite(name: string)

  datatype Split =
    | Train | OperatorSelection | MethodDevelopment | ShadowValidation | SealedId | SealedOod
    | OtherSplit(name: string)

  const SPLITS: seq<Split> := [Train, OperatorSelection, MethodDevelopment, ShadowValidation, SealedId, SealedOod]

  /** Positions in EDGE_CASE_TAGS; anything from TAG_COUNT on is no required tag. */
  type Tag = nat

  const TAG_COUNT := 10
  const OPERATOR_COUNT := 12
  const SCHEMA_COUNT := 6
  const CONTRACT_COUNT := 6
  const PYTHON_OPERATOR := 11

  /** An operator with its field, threshold and mode parameters. */
  datatype OperatorNode = OperatorNode(operator: nat, field: nat, threshold: nat, mode: nat)

  datatype Graph = Graph(nodes: seq<OperatorNode>, dependencies: seq<(nat, nat)>) {
    /** What the constructor of a normalized graph insists on. */
    predicate WellFormed() {
      forall k :: 0 <= k < |dependencies| ==> dependencies[k].0 < dependencies[k].1 < |nodes|
    }
  }

  /** A filesystem schema of one family: the base it varies and the layout number. */
  datatype Schema = Schema(base: nat, layout: nat)

  datatype Digest =
    | OfGraph(graph: Graph)
    | OfFamily(seed: int, suite: Suite, family: nat)
    | OfSignature(suite: Suite, operators: seq<nat>, utilities: set<nat>, schema: Schema, python: bool, contract: nat)
    | OfSpec(seed: int, suite: Suite, graphHash: Digest)
    | Other(text: string)

  datatype SpecId = SpecId(suite: Suite, token: Digest)
  datatype Family = Family(suite: Suite, token: Digest)
  datatype FixtureId = FixtureId(spec: SpecId, index: nat)

  datatype Fixture = Fixture(id: FixtureId, seed: nat, tags: seq<Tag>, variant: nat, contract: nat)

  datatype Spec = Spec(
    id: SpecId, suite: Suite, split: Split, family: Family, signature: Digest,
    graph: Graph, graphHash: Digest, utilities: set<nat>, schema: Schema, python: bool, contract: nat,
    tags: set<Tag>, fixtures: seq<Fixture>, maxActions: Option<int>)

  datatype SplitCounts = SplitCounts(train: nat, operatorSelection: nat, methodDevelopment: nat,
                                     shadowValidation: nat, sealedId: nat, sealedOod: nat) {
    function Of(split: Split): nat {
      match split
      case Train => train
      case OperatorSelection => operatorSelection
      case MethodDevelopment => methodDevelopment
      case ShadowValidation => shadowValidation
      case SealedId => sealedId
      case SealedOod => sealedOod
      case OtherSplit(_) => 0
    }
  }

  datatype Config = Config(seed: int, fixtureCount: int, familySize: int, static_: SplitCounts, interactive: SplitCounts) {
    /** What the constructor accepts. */
    predicate Accepted() {
      fixtureCount >= 5 && familySize >= 1
    }

    function CountsFor(suite: Suite): SplitCounts {
      if suite == Static then static_ else interactive
    }
  }

  /** The numbers read off digests that nothing depends on being distinct. */
  datatype Oracle = Oracle(offset: SpecId -> nat, fixtureSeed: FixtureId -> nat)

  // ---------- fixtures ----------

  function FixtureAt(o: Oracle, id: SpecId, contract: nat, index: nat): Fixture {
    var first := (o.offset(id) + index * 2) % TAG_COUNT;
    var seed := o.fixtureSeed(FixtureId(id, index));
    Fixture(FixtureId(id, index), seed, [first, (first + 1) % TAG_COUNT], seed % 17, contract)
  }

  function FixturesOf(o: Oracle, id: SpecId, contract: nat, count: nat): (r: seq<Fixture>)
    ensures |r| == count && forall k :: 0 <= k < count ==> r[k] == FixtureAt(o, id, contract, k)
  {
    if count == 0 then [] else FixturesOf(o, id, contract, count - 1) + [FixtureAt(o, id, contract, count - 1)]
  }

  predicate Required(t: Tag) {
    t < TAG_COUNT
  }

  function RequiredTags(): set<Tag> {
    set t: Tag | 0 <= t < TAG_COUNT && Required(t)
  }

  function Covered(fixtures: seq<Fixture>): set<Tag> {
    set k, t | 0 <= k < |fixtures| && t in fixtures[k].tags :: t
  }

  lemma WindowNear(offset: nat, t: Tag) returns (k: nat)
    requires offset < TAG_COUNT && t < TAG_COUNT
    ensures k < 5
    ensures var first := (offset + k * 2) % TAG_COUNT; t == first || t == (first + 1) % TAG_COUNT
  {
    k := (if t >= offset then t - offset else t + TAG_COUNT - offset) / 2;
  }

  lemma WindowFor(offset: nat, t: Tag) returns (k: nat)
    requires t < TAG_COUNT
    ensures k < 5
    ensures var first := (offset + k * 2) % TAG_COUNT; t == first || t == (first + 1) % TAG_COUNT
  {
    k := WindowNear(offset % TAG_COUNT, t);
    RemainderStep(offset, k * 2, TAG_COUNT);
  }

  /** Five two-tag windows in a row, from any offset, meet all ten tags. */
  lemma FiveWindowsCoverAllTags(o: Oracle, id: SpecId, contract: nat, count: nat)
    requires count >= 5
    ensures Covered(FixturesOf(o, id, contract, count)) == RequiredTags()
  {
    var fixtures := FixturesOf(o, id, contract, count);
    forall t: Tag | t < TAG_COUNT ensures t in Covered(fixtures) {
      var k := WindowFor(o.offset(id), t);
      assert t in fixtures[k].tags;
    }
  }

  // ---------- one specification ----------

  /** The choices a family makes once for all its members. */
  datatype Plan = Plan(suite: Suite, split: Split, index: nat, chosen: seq<nat>, base: nat, contract: nat) {
    predicate Valid() {
      && (suite == Static || suite == Interactive) && split in SPLITS
      && 2 <= |chosen| <= 5 && base < SCHEMA_COUNT && contract < CONTRACT_COUNT
      && (forall k :: 0 <= k < |chosen| ==> chosen[k] < OPERATOR_COUNT)
      && (forall j, k :: 0 <= j < k < |chosen| ==> chosen[j] != chosen[k])
    }

    function Utilities(): set<nat> {
      set k | 0 <= k < |chosen| :: chosen[k]
    }

    predicate Python() {
      PYTHON_OPERATOR in chosen
    }

    function Signature(): Digest {
      OfSignature(suite, chosen, Utilities(), Schema(base, index), Python(), contract)
    }
  }

  function NodesOf(p: Plan, graphIndex: nat, member: nat): (r: seq<OperatorNode>)
    ensures |r| == |p.chosen|
    ensures forall k :: 0 <= k < |r| ==>
              r[k] == OperatorNode(p.chosen[k], (p.index + k) % 7, graphIndex + 1, (member + k) % 5)
  {
    seq(|p.chosen|, k requires 0 <= k < |p.chosen| =>
      OperatorNode(p.chosen[k], (p.index + k) % 7, graphIndex + 1, (member + k) % 5))
  }

  function DependenciesOf(size: nat): (r: seq<(nat, nat)>)
    requires size >= 1
    ensures forall k :: 0 <= k < |r| ==> r[k].0 < r[k].1 < size
    ensures |r| == if size > 3 then size else size - 1
    ensures forall k :: 0 <= k < |r| ==> r[k] == if k < size - 1 then (k, k + 1) else (0, size - 1)
  {
    var chain := seq(size - 1, k requires 0 <= k < size - 1 => (k, k + 1));
    if size > 3 then chain + [(0, size - 1)] else chain
  }

  function GraphOf(p: Plan, graphIndex: nat, member: nat): (r: Graph)
    requires p.Valid()
    ensures r.WellFormed() && r.nodes != [] && r.nodes[0].threshold == graphIndex + 1
  {
    Graph(NodesOf(p, graphIndex, member), DependenciesOf(|p.chosen|))
  }

  function SpecOf(c: Config, o: Oracle, p: Plan, graphIndex: nat, member: nat): Spec
    requires c.Accepted() && p.Valid()
  {
    var graph := GraphOf(p, graphIndex, member);
    var id := SpecId(p.suite, OfSpec(c.seed, p.suite, OfGraph(graph)));
    var fixtures := FixturesOf(o, id, p.contract, c.fixtureCount);
    Spec(id, p.suite, p.split, Family(p.suite, OfFamily(c.seed, p.suite, p.index)), p.Signature(),
         graph, OfGraph(graph), p.Utilities(), Schema(p.base, p.index), p.Python(), p.contract,
         Covered(fixtures), fixtures, if p.suite == Interactive then Some(8) else None)
  }

  // ---------- what a valid benchmark is ----------

  predicate DistinctFixtures(fixtures: seq<Fixture>) {
    forall j, k :: 0 <= j < k < |fixtures| ==> fixtures[j].id != fixtures[k].id
  }

  function Missing(s: Spec): set<Tag> {
    RequiredTags() - Covered(s.fixtures)
  }

  predicate SpecValid(s: Spec) {
    && !s.suite.OtherSuite? && !s.split.OtherSplit?
    && s.graphHash == OfGraph(s.graph)
    && DistinctFixtures(s.fixtures) && |s.fixtures| >= 5
    && Missing(s) == {} && s.tags == Covered(s.fixtures)
    && (s.suite == Interactive ==> s.maxActions == Some(8))
    && (s.suite == Static ==> s.maxActions == None)
  }

  function CountOf(specs: seq<Spec>, suite: Suite, split: Split): nat {
    if specs == [] then 0
    else
      var s := specs[|specs| - 1];
      CountOf(specs[..|specs| - 1], suite, split) + (if s.suite == suite && s.split == split then 1 else 0)
  }

  predicate UniqueIds(specs: seq<Spec>) {
    forall i, j :: 0 <= i < j < |specs| ==> specs[i].id != specs[j].id
  }

  predicate UniqueGraphs(specs: seq<Spec>) {
    forall i, j :: 0 <= i < j < |specs| ==> specs[i].graphHash != specs[j].graphHash
  }

  predicate FamiliesConfined(specs: seq<Spec>) {
    forall i, j :: 0 <= i < |specs| && 0 <= j < |specs| ==>
      (specs[i].suite == specs[j].suite && specs[i].family == specs[j].family ==> specs[i].split == specs[j].split)
  }

  predicate OneSignaturePerFamily(specs: seq<Spec>) {
    forall i, j :: 0 <= i < |specs| && 0 <= j < |specs| ==>
      (specs[i].suite == specs[j].suite && specs[i].family == specs[j].family ==> specs[i].signature == specs[j].signature)
  }

  predicate SignaturesConfined(specs: seq<Spec>) {
    forall i, j :: 0 <= i < |specs| && 0 <= j < |specs| ==>
      (specs[i].suite == specs[j].suite && specs[i].signature == specs[j].signature ==> specs[i].split == specs[j].split)
  }

  predicate CountsMatch(specs: seq<Spec>, c: Config) {
    forall k :: 0 <= k < |SPLITS| ==>
      && CountOf(specs, Static, SPLITS[k]) == c.static_.Of(SPLITS[k])
      && CountOf(specs, Interactive, SPLITS[k]) == c.interactive.Of(SPLITS[k])
  }

  predicate ValidBenchmark(specs: seq<Spec>, config: Option<Config>) {
    && UniqueIds(specs) && UniqueGraphs(specs)
    && (forall i :: 0 <= i < |specs| ==> SpecValid(specs[i]))
    && FamiliesConfined(specs) && OneSignaturePerFamily(specs) && SignaturesConfined(specs)
    && (config.Some? ==> CountsMatch(specs, config.value))
  }
}
