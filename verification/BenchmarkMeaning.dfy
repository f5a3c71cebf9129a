/** A valid benchmark and a generated one, read off the records field by field. */
module BenchmarkMeaning {
  import opened Options
  import opened Words
  import opened Benchmark

  // ---------- a valid benchmark ----------

  /** Some fixture has the tag. */
  predicate HasTag(s: Spec, t: Tag) {
    exists k :: 0 <= k < |s.fixtures| && t in s.fixtures[k].tags
  }

  ghost predicate SpecReads(s: Spec) {
    && (s.suite == Static || s.suite == Interactive)
    && (s.split == Train || s.split == OperatorSelection || s.split == MethodDevelopment
        || s.split == ShadowValidation || s.split == SealedId || s.split == SealedOod)
    && s.graphHash == OfGraph(s.graph)
    && |s.fixtures| >= 5
    && (forall j, k :: 0 <= j < k < |s.fixtures| ==> s.fixtures[j].id != s.fixtures[k].id)
    && (forall t: Tag :: t < 10 ==> HasTag(s, t))
    && (forall t: Tag :: t in s.tags <==> HasTag(s, t))
    && s.maxActions == (if s.suite == Interactive then Some(8) else None)
  }

  /** Identifiers and graphs are unique; a family has one split and one signature,
      and a signature one split. */
  ghost predicate PairReads(s: Spec, t: Spec) {
    && s.id != t.id && s.graphHash != t.graphHash
    && (s.suite == t.suite && s.family == t.family ==> s.split == t.split && s.signature == t.signature)
    && (s.suite == t.suite && s.signature == t.signature ==> s.split == t.split)
  }

  /** The suite and split of each specification. */
  function Cells(specs: seq<Spec>): seq<(Suite, Split)> {
    seq(|specs|, k requires 0 <= k < |specs| => (specs[k].suite, specs[k].split))
  }

  /** How many specifications a suite has in a split. */
  function Size(specs: seq<Spec>, suite: Suite, split: Split): nat {
    multiset(Cells(specs))[(suite, split)]
  }

  ghost predicate SizesRead(specs: seq<Spec>, suite: Suite, n: SplitCounts) {
    && Size(specs, suite, Train) == n.train
    && Size(specs, suite, OperatorSelection) == n.operatorSelection
    && Size(specs, suite, MethodDevelopment) == n.methodDevelopment
    && Size(specs, suite, ShadowValidation) == n.shadowValidation
    && Size(specs, suite, SealedId) == n.sealedId
    && Size(specs, suite, SealedOod) == n.sealedOod
  }

  ghost predicate Reads(specs: seq<Spec>, config: Option<Config>) {
    && (forall k :: 0 <= k < |specs| ==> SpecReads(specs[k]))
    && (forall j, k :: 0 <= j < k < |specs| ==> PairReads(specs[j], specs[k]))
    && (config.Some? ==>
          SizesRead(specs, Static, config.value.static_) && SizesRead(specs, Interactive, config.value.interactive))
  }

  lemma CoveredMeans(s: Spec, t: Tag)
    ensures t in Covered(s.fixtures) <==> HasTag(s, t)
    ensures t in Missing(s) <==> t < 10 && !HasTag(s, t)
  {
  }

  lemma SpecValidMeans(s: Spec)
    ensures SpecValid(s) <==> SpecReads(s)
  {
    forall t: Tag
      ensures t in Covered(s.fixtures) <==> HasTag(s, t)
      ensures t in Missing(s) <==> t < 10 && !HasTag(s, t)
    {
      CoveredMeans(s, t);
    }
    if Missing(s) != {} {
      var t :| t in Missing(s);
      assert t < 10 && !HasTag(s, t);
    }
  }

  lemma {:induction false} CountIsSize(specs: seq<Spec>, suite: Suite, split: Split)
    ensures CountOf(specs, suite, split) == Size(specs, suite, split)
  {
    if specs != [] {
      var n := |specs| - 1;
      CountIsSize(specs[..n], suite, split);
      assert Cells(specs) == Cells(specs[..n]) + [(specs[n].suite, specs[n].split)];
    }
  }

  lemma SizesMean(specs: seq<Spec>, c: Config)
    ensures CountsMatch(specs, c) <==> SizesRead(specs, Static, c.static_) && SizesRead(specs, Interactive, c.interactive)
  {
    forall suite, split ensures CountOf(specs, suite, split) == Size(specs, suite, split) {
      CountIsSize(specs, suite, split);
    }
    assert SPLITS[0] == Train && SPLITS[1] == OperatorSelection && SPLITS[2] == MethodDevelopment
           && SPLITS[3] == ShadowValidation && SPLITS[4] == SealedId && SPLITS[5] == SealedOod;
  }

  lemma PairsMean(specs: seq<Spec>)
    ensures UniqueIds(specs) && UniqueGraphs(specs) && FamiliesConfined(specs) && OneSignaturePerFamily(specs)
            && SignaturesConfined(specs) <==>
              forall j, k :: 0 <= j < k < |specs| ==> PairReads(specs[j], specs[k])
  {
    if forall j, k :: 0 <= j < k < |specs| ==> PairReads(specs[j], specs[k]) {
      forall i, j | 0 <= i < |specs| && 0 <= j < |specs| && specs[i].suite == specs[j].suite
        ensures specs[i].family == specs[j].family ==>
                  specs[i].split == specs[j].split && specs[i].signature == specs[j].signature
        ensures specs[i].signature == specs[j].signature ==> specs[i].split == specs[j].split
      {
        assert i == j || PairReads(specs[if i < j then i else j], specs[if i < j then j else i]);
      }
    }
  }

  lemma ValidMeans(specs: seq<Spec>, config: Option<Config>)
    ensures ValidBenchmark(specs, config) <==> Reads(specs, config)
  {
    PairsMean(specs);
    forall k | 0 <= k < |specs| ensures SpecValid(specs[k]) <==> SpecReads(specs[k]) {
      SpecValidMeans(specs[k]);
    }
    if config.Some? {
      SizesMean(specs, config.value);
    }
  }

  // ---------- a generated specification ----------

  function Operators(g: Graph): (r: seq<nat>)
    ensures |r| == |g.nodes| && forall i :: 0 <= i < |r| ==> r[i] == g.nodes[i].operator
  {
    seq(|g.nodes|, i requires 0 <= i < |g.nodes| => g.nodes[i].operator)
  }

  /** Two to five different operators in a chain, closed by an edge from first to
      last beyond three, and all with the threshold that is the graph's own. */
  ghost predicate GraphReads(g: Graph, k: nat) {
    && 2 <= |g.nodes| <= 5
    && (forall i :: 0 <= i < |g.nodes| ==> g.nodes[i].operator < 12 && g.nodes[i].threshold == k + 1)
    && (forall i, j :: 0 <= i < j < |g.nodes| ==> g.nodes[i].operator != g.nodes[j].operator)
    && (forall i :: 0 <= i < |g.nodes| ==>
          && g.nodes[i].field == (g.nodes[0].field + i) % 7
          && g.nodes[i].mode == (g.nodes[0].mode + i) % 5)
    && (forall e :: e in g.dependencies <==>
          (0 <= e.0 && e.1 == e.0 + 1 && e.1 < |g.nodes|) || (|g.nodes| > 3 && e.0 == 0 && e.1 == |g.nodes| - 1))
    && forall i, j :: 0 <= i < j < |g.dependencies| ==> g.dependencies[i] != g.dependencies[j]
  }

  /** What is said of a specification agrees with its graph and its family. */
  ghost predicate LabelsRead(seed: int, s: Spec) {
    && (forall u :: u in s.utilities <==> exists i :: 0 <= i < |s.graph.nodes| && s.graph.nodes[i].operator == u)
    && (s.python <==> exists i :: 0 <= i < |s.graph.nodes| && s.graph.nodes[i].operator == 11)
    && s.schema.base < 6 && s.contract < 6
    && s.signature == OfSignature(s.suite, Operators(s.graph), s.utilities, s.schema, s.python, s.contract)
    && s.graphHash == OfGraph(s.graph)
    && s.id == SpecId(s.suite, OfSpec(seed, s.suite, OfGraph(s.graph)))
    && s.family == Family(s.suite, OfFamily(seed, s.suite, s.schema.layout))
    && s.graph.nodes != [] && s.graph.nodes[0].field == s.schema.layout % 7
  }

  /** The fixtures slide a window of two tags on by two. */
  ghost predicate FixturesRead(s: Spec, count: int) {
    && |s.fixtures| == count
    && forall i :: 0 <= i < |s.fixtures| ==>
         var f := s.fixtures[i];
         && f.id == FixtureId(s.id, i) && f.contract == s.contract && f.variant == f.seed % 17
         && |f.tags| == 2 && f.tags[0] < 10 && f.tags[1] == (f.tags[0] + 1) % 10
         && (i > 0 ==> |s.fixtures[i - 1].tags| == 2 && f.tags[0] == (s.fixtures[i - 1].tags[0] + 2) % 10)
  }

  lemma DependenciesMean(size: nat, e: (nat, nat))
    requires size >= 1
    ensures e in DependenciesOf(size) <==> (e.1 == e.0 + 1 && e.1 < size) || (size > 3 && e.0 == 0 && e.1 == size - 1)
  {
    var r := DependenciesOf(size);
    if e.1 == e.0 + 1 && e.1 < size {
      assert r[e.0] == e;
    }
    if size > 3 && e.0 == 0 && e.1 == size - 1 {
      assert r[size - 1] == e;
    }
  }

  lemma ChainReads(g: Graph)
    requires g.nodes != [] && g.dependencies == DependenciesOf(|g.nodes|)
    ensures forall e :: e in g.dependencies <==>
              (0 <= e.0 && e.1 == e.0 + 1 && e.1 < |g.nodes|) || (|g.nodes| > 3 && e.0 == 0 && e.1 == |g.nodes| - 1)
    ensures forall i, j :: 0 <= i < j < |g.dependencies| ==> g.dependencies[i] != g.dependencies[j]
  {
    forall e ensures e in g.dependencies <==>
                       (0 <= e.0 && e.1 == e.0 + 1 && e.1 < |g.nodes|) || (|g.nodes| > 3 && e.0 == 0 && e.1 == |g.nodes| - 1)
    {
      DependenciesMean(|g.nodes|, e);
    }
  }

  lemma NodesRead(p: Plan, graphIndex: nat, member: nat)
    requires p.Valid()
    ensures var nodes := NodesOf(p, graphIndex, member);
            forall i :: 0 <= i < |nodes| ==>
              nodes[i].field == (nodes[0].field + i) % 7 && nodes[i].mode == (nodes[0].mode + i) % 5
  {
    var nodes := NodesOf(p, graphIndex, member);
    forall i | 0 <= i < |nodes|
      ensures nodes[i].field == (nodes[0].field + i) % 7 && nodes[i].mode == (nodes[0].mode + i) % 5
    {
      RemainderStep(p.index, i, 7);
      RemainderStep(member, i, 5);
    }
  }

  lemma GraphOfReads(p: Plan, graphIndex: nat, member: nat)
    requires p.Valid()
    ensures GraphReads(GraphOf(p, graphIndex, member), graphIndex)
  {
    ChainReads(GraphOf(p, graphIndex, member));
    NodesRead(p, graphIndex, member);
  }

  lemma SpecOfReads(c: Config, o: Oracle, p: Plan, graphIndex: nat, member: nat)
    requires c.Accepted() && p.Valid()
    ensures var s := SpecOf(c, o, p, graphIndex, member);
            LabelsRead(c.seed, s) && FixturesRead(s, c.fixtureCount)
  {
    var s := SpecOf(c, o, p, graphIndex, member);
    assert Operators(s.graph) == p.chosen;
    forall u ensures u in p.Utilities() <==> exists i :: 0 <= i < |s.graph.nodes| && s.graph.nodes[i].operator == u {
      if u in p.Utilities() {
        var i :| 0 <= i < |p.chosen| && p.chosen[i] == u;
        assert s.graph.nodes[i].operator == u;
      }
    }
    if 11 in p.chosen {
      var i :| 0 <= i < |p.chosen| && p.chosen[i] == 11;
      assert s.graph.nodes[i].operator == 11;
    }
    forall i | 0 < i < |s.fixtures| ensures s.fixtures[i].tags[0] == (s.fixtures[i - 1].tags[0] + 2) % 10 {
      var first := o.offset(s.id) + (i - 1) * 2;
      RemainderStep(first, 2, 10);
    }
  }
}
