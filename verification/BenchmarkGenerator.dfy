/** The generator: families as indivisible blocks, shuffled per split, every
    member with a semantic threshold of its own. */
module BenchmarkGenerator {
  import opened Options
  import opened Words
  import opened Benchmark
  import opened BenchmarkBlocks
  import opened BenchmarkMeaning
  import opened Collections
  import BenchmarkValidator
  import Sampler

  // ---------- what has been generated ----------

  /** Every specification comes from a family's plan and its own graph index;
      a family index stands for one plan. */
  datatype Origin = Origin(plan: Plan, member: nat)

  ghost predicate Made(c: Config, o: Oracle, offset: nat, specs: seq<Spec>, origins: seq<Origin>)
    requires c.Accepted()
  {
    && |origins| == |specs|
    && (forall k :: 0 <= k < |specs| ==>
          origins[k].plan.Valid() && specs[k] == SpecOf(c, o, origins[k].plan, offset + k, origins[k].member))
  }

  predicate PlansAgree(origins: seq<Origin>) {
    forall j, k :: 0 <= j < |origins| && 0 <= k < |origins| ==>
      (origins[j].plan.suite == origins[k].plan.suite && origins[j].plan.index == origins[k].plan.index
       ==> origins[j].plan == origins[k].plan)
  }

  ghost predicate Generated(c: Config, o: Oracle, offset: nat, specs: seq<Spec>, origins: seq<Origin>)
    requires c.Accepted()
  {
    Made(c, o, offset, specs, origins) && PlansAgree(origins)
  }

  // ---------- the generator ----------

  method FixtureSpecs(o: Oracle, id: SpecId, count: nat, contract: nat) returns (fixtures: seq<Fixture>)
    ensures fixtures == FixturesOf(o, id, contract, count)
  {
    fixtures := [];
    for index := 0 to count
      invariant fixtures == FixturesOf(o, id, contract, index)
    {
      var first := (o.offset(id) + index * 2) % TAG_COUNT;
      var tags := [first, (first + 1) % TAG_COUNT];
      var seed := o.fixtureSeed(FixtureId(id, index));
      fixtures := fixtures + [Fixture(FixtureId(id, index), seed, tags, seed % 17, contract)];
    }
  }

  /** Two to five operators, sampled without repetition. */
  method DrawOperators(rng: Sampler.StableSampler) returns (chosen: seq<nat>, ghost cs: seq<nat>)
    requires Sampler.Productive(rng.stream) && rng.Logged()
    modifies rng
    ensures rng.Logged() && 2 <= |cs| <= 5 && |chosen| == |cs| && Sampler.Upward(12, cs)
    ensures rng.drawn == old(rng.drawn) + ([Sampler.Draw(4, |cs| - 2)] + Sampler.Draws(12, cs))
    ensures forall k :: 0 <= k < |chosen| ==>
              chosen[k] < OPERATOR_COUNT && chosen[k] == Sampler.SampleSwaps(Range(12), 0, cs)[k]
    ensures forall j, k :: 0 <= j < k < |chosen| ==> chosen[j] != chosen[k]
  {
    Room();
    var extra := rng.RandBelow(4);
    var operators := Range(OPERATOR_COUNT);
    var sample;
    sample, cs := rng.Sample(operators, 2 + extra.value);
    Sampler.SampleArranges(operators, 0, cs);
    chosen := sample.value;
  }

  method PlanFamily(rng: Sampler.StableSampler, suite: Suite, split: Split, index: nat) returns (p: Plan, ghost cs: seq<nat>)
    requires Sampler.Productive(rng.stream) && rng.Logged()
    requires (suite == Static || suite == Interactive) && split in SPLITS
    modifies rng
    ensures rng.Logged() && p.Valid() && 2 <= |cs| <= 5 && Sampled(Block(p, cs, []))
    ensures p.suite == suite && p.split == split && p.index == index
    ensures rng.drawn == old(rng.drawn) + PlanDraws(p, cs)
  {
    var chosen;
    chosen, cs := DrawOperators(rng);
    Room();
    var base := rng.Choice(Range(SCHEMA_COUNT));
    var contract := rng.Choice(Range(CONTRACT_COUNT));
    p := Plan(suite, split, index, chosen, base.value, contract.value);
  }

  lemma Room()
    ensures Sampler.Space() > 100
  {
  }

  /** The members of one family, from the first graph index on. */
  method GenerateMembers(c: Config, o: Oracle, p: Plan, members: nat, graphIndex: nat) returns (specs: seq<Spec>)
    requires c.Accepted() && p.Valid()
    ensures |specs| == members && forall m :: 0 <= m < members ==> specs[m] == SpecOf(c, o, p, graphIndex + m, m)
  {
    specs := [];
    for member := 0 to members
      invariant |specs| == member
      invariant forall m :: 0 <= m < member ==> specs[m] == SpecOf(c, o, p, graphIndex + m, m)
    {
      var graph := GraphOf(p, graphIndex + member, member);
      var id := SpecId(p.suite, OfSpec(c.seed, p.suite, OfGraph(graph)));
      var fixtures := FixtureSpecs(o, id, c.fixtureCount, p.contract);
      specs := specs + [Spec(
        id, p.suite, p.split, Family(p.suite, OfFamily(c.seed, p.suite, p.index)), p.Signature(),
        graph, OfGraph(graph), p.Utilities(), Schema(p.base, p.index), p.Python(), p.contract,
        Covered(fixtures), fixtures, if p.suite == Interactive then Some(8) else None)];
    }
  }

  /** All families so far have an index below `next`, and this suite. */
  ghost predicate Below(origins: seq<Origin>, suite: Suite, next: nat) {
    forall k :: 0 <= k < |origins| ==> origins[k].plan.suite == suite && origins[k].plan.index < next
  }

  function OriginsOf(p: Plan, members: nat): (r: seq<Origin>)
    ensures |r| == members && forall m :: 0 <= m < members ==> r[m] == Origin(p, m)
  {
    seq(members, m requires 0 <= m < members => Origin(p, m))
  }

  lemma MadeConcat(c: Config, o: Oracle, offset: nat, xs: seq<Spec>, xo: seq<Origin>, ys: seq<Spec>, yo: seq<Origin>)
    requires c.Accepted() && Made(c, o, offset, xs, xo) && Made(c, o, offset + |xs|, ys, yo)
    ensures Made(c, o, offset, xs + ys, xo + yo)
  {
    var all, from := xs + ys, xo + yo;
    forall k | 0 <= k < |all|
      ensures from[k].plan.Valid() && all[k] == SpecOf(c, o, from[k].plan, offset + k, from[k].member)
    {
      if k >= |xs| {
        assert all[k] == ys[k - |xs|] && from[k] == yo[k - |xs|];
        assert offset + |xs| + (k - |xs|) == offset + k;
      }
    }
  }

  lemma AddPlan(origins: seq<Origin>, p: Plan, n: nat)
    requires PlansAgree(origins) && Below(origins, p.suite, p.index)
    ensures PlansAgree(origins + OriginsOf(p, n)) && Below(origins + OriginsOf(p, n), p.suite, p.index + 1)
  {
    var from := origins + OriginsOf(p, n);
    forall k | 0 <= k < |from| ensures if k < |origins| then from[k] == origins[k] else from[k].plan == p {
    }
  }

  lemma AddFamily(c: Config, o: Oracle, offset: nat, specs: seq<Spec>, origins: seq<Origin>,
                  p: Plan, block: seq<Spec>, graphIndex: nat)
    requires graphIndex == offset + |specs|
    requires c.Accepted() && p.Valid() && Generated(c, o, offset, specs, origins) && Below(origins, p.suite, p.index)
    requires forall m :: 0 <= m < |block| ==> block[m] == SpecOf(c, o, p, graphIndex + m, m)
    ensures Generated(c, o, offset, specs + block, origins + OriginsOf(p, |block|))
    ensures Below(origins + OriginsOf(p, |block|), p.suite, p.index + 1)
  {
    MadeConcat(c, o, offset, specs, origins, block, OriginsOf(p, |block|));
    AddPlan(origins, p, |block|);
  }

  /** One more family: a plan from fresh draws, and its members. */
  method GenerateFamily(c: Config, o: Oracle, rng: Sampler.StableSampler, suite: Suite, split: Split, members: nat,
                        familyIndex: nat, graphIndex: nat, ghost make: Maker) returns (specs: seq<Spec>, ghost b: Block)
    requires c.Accepted() && make == MakerOf(c, o) && Sampler.Productive(rng.stream) && rng.Logged()
    requires (suite == Static || suite == Interactive) && split in SPLITS
    modifies rng
    ensures b.Valid() && b.specs == specs && |specs| == members && BuiltBlock(make, b, graphIndex)
    ensures b.plan.suite == suite && b.plan.split == split && b.plan.index == familyIndex
    ensures rng.Logged() && rng.drawn == old(rng.drawn) + PlanDraws(b.plan, b.cs)
  {
    var plan;
    ghost var cs;
    plan, cs := PlanFamily(rng, suite, split, familyIndex);
    specs := GenerateMembers(c, o, plan, members, graphIndex);
    b := Block(plan, cs, specs);
    FamilyIsBuilt(c, o, make, b, graphIndex);
  }

  lemma FamilyIsBuilt(c: Config, o: Oracle, make: Maker, b: Block, graphIndex: nat)
    requires c.Accepted() && make == MakerOf(c, o) && b.Valid() && Sampled(b)
    requires forall m :: 0 <= m < |b.specs| ==> b.specs[m] == SpecOf(c, o, b.plan, graphIndex + m, m)
    ensures BuiltBlock(make, b, graphIndex)
  {
  }

  /** The first families of a split, and the draws their plans took. */
  ghost predicate FamiliesSoFar(suite: Suite, split: Split, sizes: seq<nat>, first: nat, bs: seq<Block>,
                                draws: seq<Sampler.Draw>) {
    SplitBlocks(suite, split, sizes, first, bs) && draws == BlockDraws(bs)
  }

  lemma OneMoreFamily(suite: Suite, split: Split, sizes: seq<nat>, first: nat, bs: seq<Block>, draws: seq<Sampler.Draw>,
                      b: Block)
    requires |bs| < |sizes| && FamiliesSoFar(suite, split, sizes[..|bs|], first, bs, draws)
    requires b.Valid() && |b.specs| == sizes[|bs|]
    requires b.plan.index == first + |bs| && b.plan.suite == suite && b.plan.split == split
    ensures FamiliesSoFar(suite, split, sizes[..|bs| + 1], first, bs + [b], draws + PlanDraws(b.plan, b.cs))
  {
    BlocksSnoc(bs, b);
  }

  /** Their members. */
  ghost predicate MembersSoFar(make: Maker, graphIndex: nat, bs: seq<Block>, specs: seq<Spec>) {
    Built(make, bs, graphIndex) && specs == SpecsOf(bs)
  }

  lemma MoreMembers(make: Maker, graphIndex: nat, bs: seq<Block>, specs: seq<Spec>, b: Block)
    requires MembersSoFar(make, graphIndex, bs, specs) && BuiltBlock(make, b, graphIndex + |specs|)
    ensures MembersSoFar(make, graphIndex, bs + [b], specs + b.specs)
  {
    assert (bs + [b])[..|bs|] == bs;
    BuiltSnoc(make, bs, b, graphIndex);
  }

  /** The next family of a split, after the first `i`. */
  method NextFamily(c: Config, o: Oracle, rng: Sampler.StableSampler, suite: Suite, split: Split, sizes: seq<nat>,
                    familyIndex: nat, graphIndex: nat, i: nat, ghost make: Maker,
                    before: seq<Spec>, ghost bs: seq<Block>, ghost draws: seq<Sampler.Draw>)
    returns (specs: seq<Spec>, ghost more: seq<Block>, ghost drawn: seq<Sampler.Draw>)
    requires c.Accepted() && make == MakerOf(c, o) && Sampler.Productive(rng.stream) && rng.Logged()
    requires (suite == Static || suite == Interactive) && split in SPLITS
    requires i == |bs| < |sizes| && FamiliesSoFar(suite, split, sizes[..i], familyIndex, bs, draws)
    requires MembersSoFar(make, graphIndex, bs, before)
    modifies rng
    ensures |more| == i + 1 && FamiliesSoFar(suite, split, sizes[..i + 1], familyIndex, more, drawn)
    ensures MembersSoFar(make, graphIndex, more, specs)
    ensures rng.Logged() && |draws| <= |drawn| && rng.drawn == old(rng.drawn) + drawn[|draws|..] && draws <= drawn
  {
    var family;
    ghost var b;
    family, b := GenerateFamily(c, o, rng, suite, split, sizes[i], familyIndex + i, graphIndex + |before|, make);
    OneMoreFamily(suite, split, sizes, familyIndex, bs, draws, b);
    MoreMembers(make, graphIndex, bs, before, b);
    specs, more, drawn := before + family, bs + [b], draws + PlanDraws(b.plan, b.cs);
  }

  /** The families of one split, in the order of their sizes. */
  method GenerateFamilies(c: Config, o: Oracle, rng: Sampler.StableSampler, suite: Suite, split: Split, sizes: seq<nat>,
                          familyIndex: nat, graphIndex: nat, ghost make: Maker)
    returns (specs: seq<Spec>, ghost bs: seq<Block>, ghost draws: seq<Sampler.Draw>)
    requires c.Accepted() && make == MakerOf(c, o) && Sampler.Productive(rng.stream) && rng.Logged()
    requires (suite == Static || suite == Interactive) && split in SPLITS
    modifies rng
    ensures FamiliesSoFar(suite, split, sizes, familyIndex, bs, draws) && MembersSoFar(make, graphIndex, bs, specs)
    ensures rng.Logged() && rng.drawn == old(rng.drawn) + draws
  {
    specs, bs, draws := [], [], [];
    for i := 0 to |sizes|
      invariant |bs| == i && FamiliesSoFar(suite, split, sizes[..i], familyIndex, bs, draws)
      invariant MembersSoFar(make, graphIndex, bs, specs)
      invariant rng.Logged() && rng.drawn == old(rng.drawn) + draws
    {
      specs, bs, draws := NextFamily(c, o, rng, suite, split, sizes, familyIndex, graphIndex, i, make, specs, bs, draws);
    }
    assert sizes[..|sizes|] == sizes;
  }

  /** The split's family sizes in shuffled order. */
  method ShuffledSizes(c: Config, rng: Sampler.StableSampler, count: nat) returns (sizes: seq<nat>, ghost order: seq<nat>)
    requires c.Accepted() && count <= Sampler.Space() && Sampler.Productive(rng.stream) && rng.Logged()
    modifies rng
    ensures Shuffled(c, count, order, sizes) && |order| <= |sizes|
    ensures rng.Logged() && rng.drawn == old(rng.drawn) + Sampler.Draws(|sizes|, order)
  {
    var parts := PartitionCount(count, c.familySize);
    PartitionConserves(count, c.familySize);
    PartsAreFew(count, parts);
    var a := new nat[|parts|](k requires 0 <= k < |parts| => parts[k]);
    assert a[..] == parts;
    order := rng.Shuffle(a);
    sizes := a[..];
  }

  /** One split, and how it came about. */
  method GenerateSplit(c: Config, o: Oracle, rng: Sampler.StableSampler, suite: Suite, split: Split, count: nat,
                       family: nat, graphIndex: nat, ghost make: Maker)
    returns (specs: seq<Spec>, families: nat, ghost part: Part)
    requires c.Accepted() && make == MakerOf(c, o) && Sampler.Productive(rng.stream) && rng.Logged()
    requires (suite == Static || suite == Interactive) && split in SPLITS && count <= Sampler.Space()
    modifies rng
    ensures Shuffled(c, count, part.order, part.sizes) && |part.order| <= |part.sizes|
    ensures SplitBlocks(suite, split, part.sizes, family, part.blocks)
    ensures Built(make, part.blocks, graphIndex) && specs == SpecsOf(part.blocks) && families == |part.blocks|
    ensures rng.Logged()
    ensures rng.drawn == old(rng.drawn) + (Sampler.Draws(|part.sizes|, part.order) + BlockDraws(part.blocks))
  {
    var sizes;
    ghost var order, bs, draws;
    sizes, order := ShuffledSizes(c, rng, count);
    specs, bs, draws := GenerateFamilies(c, o, rng, suite, split, sizes, family, graphIndex, make);
    families, part := |sizes|, Part(order, sizes, bs);
  }

  predicate Affordable(c: SplitCounts) {
    forall k :: 0 <= k < |SPLITS| ==> c.Of(SPLITS[k]) <= Sampler.Space()
  }

  /** Each part's draws are no more than its families, and its plans are valid. */
  predicate PartsDrawable(parts: seq<Part>) {
    forall i :: 0 <= i < |parts| ==> |parts[i].order| <= |parts[i].sizes| && BlocksValid(parts[i].blocks)
  }

  /** The draws of all the splits are what the stream gives. */
  ghost predicate Drawn(stream: nat -> nat, parts: seq<Part>)
    requires PartsDrawable(parts)
  {
    exists marks :: Sampler.Produced(stream, PartDraws(parts), marks)
  }

  /** How a suite came about: every split was partitioned and shuffled, every family
      planned, and the stream gave exactly the draws this took. */
  ghost predicate Happened(c: Config, suite: Suite, stream: nat -> nat, parts: seq<Part>)
    requires c.Accepted()
  {
    && |parts| == 6 && PartsShuffled(c, suite, parts) && PartsHold(suite, parts)
    && PartsDrawable(parts) && Drawn(stream, parts)
  }

  /** The first splits of a suite, and the draws they took. */
  ghost predicate SplitsSoFar(suite: Suite, parts: seq<Part>, draws: seq<Sampler.Draw>) {
    PartsHold(suite, parts) && PartsDrawable(parts) && draws == PartDraws(parts)
  }

  lemma OneMoreSplit(suite: Suite, parts: seq<Part>, draws: seq<Sampler.Draw>, part: Part)
    requires |parts| < |SPLITS| && SplitsSoFar(suite, parts, draws) && |part.order| <= |part.sizes|
    requires SplitBlocks(suite, SPLITS[|parts|], part.sizes, |AllBlocks(parts)|, part.blocks)
    ensures SplitsSoFar(suite, parts + [part], draws + (Sampler.Draws(|part.sizes|, part.order) + BlockDraws(part.blocks)))
  {
    PartsSnoc(suite, parts, part);
    DrawsOfLast(parts, part);
  }

  /** What they made. */
  ghost predicate SpecsSoFar(make: Maker, offset: nat, parts: seq<Part>, families: nat, specs: seq<Spec>) {
    Built(make, AllBlocks(parts), offset) && specs == SpecsOf(AllBlocks(parts)) && families == |AllBlocks(parts)|
  }

  lemma MoreSpecs(make: Maker, offset: nat, parts: seq<Part>, families: nat, specs: seq<Spec>, part: Part)
    requires SpecsSoFar(make, offset, parts, families, specs) && Built(make, part.blocks, offset + |specs|)
    ensures SpecsSoFar(make, offset, parts + [part], families + |part.blocks|, specs + SpecsOf(part.blocks))
  {
    assert (parts + [part])[..|parts|] == parts;
    SpecsConcat(AllBlocks(parts), part.blocks);
    BuiltConcat(make, AllBlocks(parts), part.blocks, offset);
  }

  method GenerateSuite(c: Config, o: Oracle, stream: nat -> nat, suite: Suite, offset: nat)
    returns (specs: seq<Spec>, ghost parts: seq<Part>)
    requires c.Accepted() && Sampler.Productive(stream) && Affordable(c.CountsFor(suite))
    requires suite == Static || suite == Interactive
    ensures Happened(c, suite, stream, parts)
    ensures Built(MakerOf(c, o), AllBlocks(parts), offset) && specs == SpecsOf(AllBlocks(parts))
  {
    var rng := new Sampler.StableSampler(stream);
    var family := 0;
    ghost var make, draws := MakerOf(c, o), [];
    specs, parts := [], [];
    for i := 0 to |SPLITS|
      invariant fresh(rng) && rng.stream == stream && rng.Logged() && rng.drawn == draws
      invariant |parts| == i && PartsShuffled(c, suite, parts)
      invariant SplitsSoFar(suite, parts, draws) && SpecsSoFar(make, offset, parts, family, specs)
    {
      var more, families;
      ghost var part;
      more, families, part := GenerateSplit(c, o, rng, suite, SPLITS[i], c.CountsFor(suite).Of(SPLITS[i]), family,
                                            offset + |specs|, make);
      ShuffledSnoc(c, suite, parts, part);
      OneMoreSplit(suite, parts, draws, part);
      MoreSpecs(make, offset, parts, family, specs, part);
      specs, family := specs + more, family + families;
      draws := draws + (Sampler.Draws(|part.sizes|, part.order) + BlockDraws(part.blocks));
      parts := parts + [part];
    }
  }

  // ---------- where the specifications come from ----------

  function OriginsOfBlocks(bs: seq<Block>): (r: seq<Origin>)
    ensures |r| == |SpecsOf(bs)|
  {
    if bs == [] then [] else OriginsOfBlocks(bs[..|bs| - 1]) + OriginsOf(bs[|bs| - 1].plan, |bs[|bs| - 1].specs|)
  }

  lemma {:induction false} BlocksAreGenerated(c: Config, o: Oracle, make: Maker, bs: seq<Block>, offset: nat, suite: Suite)
    requires c.Accepted() && make == MakerOf(c, o) && Numbered(bs, suite) && Built(make, bs, offset)
    ensures Generated(c, o, offset, SpecsOf(bs), OriginsOfBlocks(bs)) && Below(OriginsOfBlocks(bs), suite, |bs|)
  {
    if bs != [] {
      var n := |bs| - 1;
      BlocksAreGenerated(c, o, make, bs[..n], offset, suite);
      MadeByPlan(c, o, make, bs[n], offset + |SpecsOf(bs[..n])|);
      AddFamily(c, o, offset, SpecsOf(bs[..n]), OriginsOfBlocks(bs[..n]), bs[n].plan, bs[n].specs, offset + |SpecsOf(bs[..n])|);
    }
  }

  lemma MadeByPlan(c: Config, o: Oracle, make: Maker, b: Block, graphIndex: nat)
    requires c.Accepted() && make == MakerOf(c, o) && b.Valid() && BuiltBlock(make, b, graphIndex)
    ensures forall m :: 0 <= m < |b.specs| ==> b.specs[m] == SpecOf(c, o, b.plan, graphIndex + m, m)
  {
    forall m | 0 <= m < |b.specs| ensures b.specs[m] == SpecOf(c, o, b.plan, graphIndex + m, m) {
      assert b.specs[m] == MemberAt(make, b.plan, graphIndex, m);
    }
  }

  lemma {:induction false} SuiteOfBlocks(c: Config, bs: seq<Block>, suite: Suite)
    requires Numbered(bs, suite) && Labelled(c, bs)
    ensures forall s :: s in SpecsOf(bs) ==> s.suite == suite
  {
    if bs != [] {
      SuiteOfBlocks(c, bs[..|bs| - 1], suite);
      assert BlockLabelled(c, bs[|bs| - 1]);
    }
  }

  // ---------- generated benchmarks are valid ----------

  lemma GeneratedSpecIsValid(c: Config, o: Oracle, p: Plan, graphIndex: nat, member: nat)
    requires c.Accepted() && p.Valid()
    ensures SpecValid(SpecOf(c, o, p, graphIndex, member))
  {
    var s := SpecOf(c, o, p, graphIndex, member);
    FiveWindowsCoverAllTags(o, s.id, p.contract, c.fixtureCount);
  }

  lemma GeneratedIsUnique(c: Config, o: Oracle, specs: seq<Spec>, origins: seq<Origin>)
    requires c.Accepted() && Generated(c, o, 0, specs, origins)
    ensures UniqueIds(specs) && UniqueGraphs(specs)
  {
    forall j, k | 0 <= j < k < |specs|
      ensures specs[j].id != specs[k].id && specs[j].graphHash != specs[k].graphHash
    {
      assert specs[j].graph.nodes[0].threshold == j + 1 && specs[k].graph.nodes[0].threshold == k + 1;
    }
  }

  lemma GeneratedFamiliesHold(c: Config, o: Oracle, specs: seq<Spec>, origins: seq<Origin>)
    requires c.Accepted() && Generated(c, o, 0, specs, origins)
    ensures FamiliesConfined(specs) && OneSignaturePerFamily(specs) && SignaturesConfined(specs)
  {
    forall j, k | 0 <= j < |specs| && 0 <= k < |specs| && specs[j].suite == specs[k].suite
                  && (specs[j].family == specs[k].family || specs[j].signature == specs[k].signature)
      ensures specs[j].split == specs[k].split && specs[j].signature == specs[k].signature
    {
      assert origins[j].plan.index == origins[k].plan.index;
    }
  }

  lemma Joined(c: Config, o: Oracle, xs: seq<Spec>, xo: seq<Origin>, ys: seq<Spec>, yo: seq<Origin>)
    requires c.Accepted() && Generated(c, o, 0, xs, xo) && Generated(c, o, |xs|, ys, yo)
    requires forall j :: 0 <= j < |xs| ==> xs[j].suite == Static
    requires forall k :: 0 <= k < |ys| ==> ys[k].suite == Interactive
    ensures Generated(c, o, 0, xs + ys, xo + yo)
  {
    MadeConcat(c, o, 0, xs, xo, ys, yo);
    assert forall j :: 0 <= j < |xo| ==> xo[j].plan.suite == xs[j].suite;
    assert forall k :: 0 <= k < |yo| ==> yo[k].plan.suite == ys[k].suite;
    AgreeAcrossSuites(xo, yo);
  }

  lemma AgreeAcrossSuites(xo: seq<Origin>, yo: seq<Origin>)
    requires PlansAgree(xo) && PlansAgree(yo)
    requires forall j :: 0 <= j < |xo| ==> xo[j].plan.suite == Static
    requires forall k :: 0 <= k < |yo| ==> yo[k].plan.suite == Interactive
    ensures PlansAgree(xo + yo)
  {
    var from := xo + yo;
    forall j, k | 0 <= j < |from| && 0 <= k < |from| && from[j].plan.suite == from[k].plan.suite
                  && from[j].plan.index == from[k].plan.index
      ensures from[j].plan == from[k].plan
    {
      assert j < |xo| <==> k < |xo|;
      if j >= |xo| {
        assert from[j] == yo[j - |xo|] && from[k] == yo[k - |xo|];
      }
    }
  }

  lemma {:induction false} CountOtherSuite(xs: seq<Spec>, suite: Suite, other: Suite, split: Split)
    requires suite != other && forall k :: 0 <= k < |xs| ==> xs[k].suite == suite
    ensures CountOf(xs, other, split) == 0
  {
    if xs != [] {
      CountOtherSuite(xs[..|xs| - 1], suite, other, split);
    }
  }

  lemma SuitesMakeABenchmark(c: Config, o: Oracle, xs: seq<Spec>, xo: seq<Origin>, ys: seq<Spec>, yo: seq<Origin>)
    requires c.Accepted() && Generated(c, o, 0, xs, xo) && Generated(c, o, |xs|, ys, yo)
    requires forall j :: 0 <= j < |xs| ==> xs[j].suite == Static
    requires forall k :: 0 <= k < |ys| ==> ys[k].suite == Interactive
    requires forall k :: 0 <= k < |SPLITS| ==> CountOf(xs, Static, SPLITS[k]) == c.static_.Of(SPLITS[k])
    requires forall k :: 0 <= k < |SPLITS| ==> CountOf(ys, Interactive, SPLITS[k]) == c.interactive.Of(SPLITS[k])
    ensures ValidBenchmark(xs + ys, Some(c))
  {
    var specs, origins := xs + ys, xo + yo;
    Joined(c, o, xs, xo, ys, yo);
    GeneratedIsUnique(c, o, specs, origins);
    GeneratedFamiliesHold(c, o, specs, origins);
    forall k | 0 <= k < |specs| ensures SpecValid(specs[k]) {
      GeneratedSpecIsValid(c, o, origins[k].plan, k, origins[k].member);
    }
    forall k | 0 <= k < |SPLITS|
      ensures CountOf(specs, Static, SPLITS[k]) == c.static_.Of(SPLITS[k])
      ensures CountOf(specs, Interactive, SPLITS[k]) == c.interactive.Of(SPLITS[k])
    {
      CountConcat(xs, ys, Static, SPLITS[k]);
      CountConcat(xs, ys, Interactive, SPLITS[k]);
      CountOtherSuite(xs, Static, Interactive, SPLITS[k]);
      CountOtherSuite(ys, Interactive, Static, SPLITS[k]);
    }
  }

  method ValidateGenerated(specs: seq<Spec>, c: Config) returns (issues: seq<BenchmarkValidator.Issue>)
    ensures issues == [] <==> Reads(specs, Some(c))
  {
    issues := BenchmarkValidator.ValidateSpecs(specs, Some(c));
  }

  /** What follows from how a suite came about. */
  lemma SuiteFacts(c: Config, o: Oracle, make: Maker, suite: Suite, stream: nat -> nat, parts: seq<Part>, offset: nat)
    requires c.Accepted() && make == MakerOf(c, o) && Happened(c, suite, stream, parts)
    requires Built(make, AllBlocks(parts), offset)
    ensures Numbered(AllBlocks(parts), suite) && Labelled(c, AllBlocks(parts))
    ensures forall k :: 0 <= k < |SPLITS| ==>
              CountOf(SpecsOf(AllBlocks(parts)), suite, SPLITS[k]) == c.CountsFor(suite).Of(SPLITS[k])
    ensures forall k :: 0 <= k < |AllBlocks(parts)| ==> 1 <= |AllBlocks(parts)[k].specs| <= c.familySize
  {
    PartsAreNumbered(suite, parts);
    GeneratorLabels(c, o);
    BuiltIsLabelled(c, make, AllBlocks(parts), offset);
    forall k | 0 <= k < |SPLITS|
      ensures CountOf(SpecsOf(AllBlocks(parts)), suite, SPLITS[k]) == c.CountsFor(suite).Of(SPLITS[k])
    {
      CountOfParts(c, suite, parts, k);
      ShuffledFacts(c, suite, parts, k);
    }
    forall i | 0 <= i < |parts| ensures forall k :: 0 <= k < |parts[i].sizes| ==> 1 <= parts[i].sizes[k] <= c.familySize {
      ShuffledFacts(c, suite, parts, i);
    }
    SuiteFamiliesFit(c.familySize, suite, parts);
  }

  lemma FamilyFits(c: Config, bs: seq<Block>, suite: Suite, f: Family)
    requires Numbered(bs, suite) && Labelled(c, bs) && c.familySize >= 0
    requires forall k :: 0 <= k < |bs| ==> 1 <= |bs[k].specs| <= c.familySize
    ensures FamilyCount(SpecsOf(bs), f) <= c.familySize
    ensures FamilyCount(SpecsOf(bs), f) > 0 ==> f.suite == suite
  {
    if k :| 0 <= k < |bs| && f == FamilyOf(c.seed, suite, k) {
      FamilyCountOfBlocks(c, bs, suite, k);
    } else {
      NoOtherFamily(c, bs, suite, f);
    }
  }

  /** Every configuration the constructor accepts, whatever the sampler draws,
      gives a benchmark in which the validator has nothing to find, in families
      of at most the configured size that are, draw by draw, those the two
      streams give. */
  method GenerateBenchmark(c: Config, o: Oracle, staticStream: nat -> nat, interactiveStream: nat -> nat)
    returns (specs: seq<Spec>, issues: seq<BenchmarkValidator.Issue>, ghost first: seq<Part>, ghost second: seq<Part>)
    requires c.Accepted() && Affordable(c.static_) && Affordable(c.interactive)
    requires Sampler.Productive(staticStream) && Sampler.Productive(interactiveStream)
    ensures Reads(specs, Some(c)) && issues == []
    ensures forall k :: 0 <= k < |specs| ==> SpecMade(c, specs[k], k)
    ensures Happened(c, Static, staticStream, first) && Happened(c, Interactive, interactiveStream, second)
    ensures Built(MakerOf(c, o), AllBlocks(first), 0)
    ensures Built(MakerOf(c, o), AllBlocks(second), |SpecsOf(AllBlocks(first))|)
    ensures specs == SpecsOf(AllBlocks(first)) + SpecsOf(AllBlocks(second))
    ensures forall f :: FamilyCount(specs, f) <= c.familySize
  {
    var xs, ys;
    xs, first := GenerateSuite(c, o, staticStream, Static, 0);
    ys, second := GenerateSuite(c, o, interactiveStream, Interactive, |xs|);
    specs := xs + ys;
    HistoriesMakeABenchmark(c, o, MakerOf(c, o), staticStream, interactiveStream, first, second);
    issues := ValidateGenerated(specs, c);
  }

  /** Specification `k` as the generator writes it. */
  ghost predicate SpecMade(c: Config, s: Spec, k: nat) {
    && s.graph.WellFormed() && GraphReads(s.graph, k)
    && LabelsRead(c.seed, s) && FixturesRead(s, c.fixtureCount)
  }

  lemma SpecsMade(c: Config, o: Oracle, specs: seq<Spec>, origins: seq<Origin>)
    requires c.Accepted() && Generated(c, o, 0, specs, origins)
    ensures forall k :: 0 <= k < |specs| ==> SpecMade(c, specs[k], k)
  {
    forall k | 0 <= k < |specs| ensures SpecMade(c, specs[k], k) {
      OneSpecMade(c, o, origins[k].plan, k, origins[k].member, specs[k]);
    }
  }

  lemma OneSpecMade(c: Config, o: Oracle, p: Plan, k: nat, member: nat, s: Spec)
    requires c.Accepted() && p.Valid() && s == SpecOf(c, o, p, k, member)
    ensures SpecMade(c, s, k)
  {
    GraphOfReads(p, k, member);
    SpecOfReads(c, o, p, k, member);
    SpecOfGraph(c, o, p, k, member);
  }

  lemma SpecOfGraph(c: Config, o: Oracle, p: Plan, graphIndex: nat, member: nat)
    requires c.Accepted() && p.Valid()
    ensures SpecOf(c, o, p, graphIndex, member).graph == GraphOf(p, graphIndex, member)
  {
  }

  lemma HistoriesMakeABenchmark(c: Config, o: Oracle, make: Maker, s: nat -> nat, t: nat -> nat,
                                first: seq<Part>, second: seq<Part>)
    requires c.Accepted() && make == MakerOf(c, o)
    requires Happened(c, Static, s, first) && Happened(c, Interactive, t, second)
    requires Built(make, AllBlocks(first), 0) && Built(make, AllBlocks(second), |SpecsOf(AllBlocks(first))|)
    ensures var specs := SpecsOf(AllBlocks(first)) + SpecsOf(AllBlocks(second));
      && Reads(specs, Some(c))
      && (forall k :: 0 <= k < |specs| ==> SpecMade(c, specs[k], k))
      && forall f :: FamilyCount(specs, f) <= c.familySize
  {
    SuiteFacts(c, o, make, Static, s, first, 0);
    SuiteFacts(c, o, make, Interactive, t, second, |SpecsOf(AllBlocks(first))|);
    BlocksMakeABenchmark(c, o, make, AllBlocks(first), AllBlocks(second));
  }

  lemma BlocksMakeABenchmark(c: Config, o: Oracle, make: Maker, bs: seq<Block>, ds: seq<Block>)
    requires c.Accepted() && make == MakerOf(c, o) && Built(make, bs, 0) && Built(make, ds, |SpecsOf(bs)|)
    requires Numbered(bs, Static) && Labelled(c, bs) && Numbered(ds, Interactive) && Labelled(c, ds)
    requires forall k :: 0 <= k < |SPLITS| ==> CountOf(SpecsOf(bs), Static, SPLITS[k]) == c.static_.Of(SPLITS[k])
    requires forall k :: 0 <= k < |SPLITS| ==> CountOf(SpecsOf(ds), Interactive, SPLITS[k]) == c.interactive.Of(SPLITS[k])
    requires forall k :: 0 <= k < |bs| ==> 1 <= |bs[k].specs| <= c.familySize
    requires forall k :: 0 <= k < |ds| ==> 1 <= |ds[k].specs| <= c.familySize
    ensures Reads(SpecsOf(bs) + SpecsOf(ds), Some(c))
    ensures forall k :: 0 <= k < |SpecsOf(bs) + SpecsOf(ds)| ==> SpecMade(c, (SpecsOf(bs) + SpecsOf(ds))[k], k)
    ensures forall f :: FamilyCount(SpecsOf(bs) + SpecsOf(ds), f) <= c.familySize
  {
    BlocksAreGenerated(c, o, make, bs, 0, Static);
    BlocksAreGenerated(c, o, make, ds, |SpecsOf(bs)|, Interactive);
    SuiteOfBlocks(c, bs, Static);
    SuiteOfBlocks(c, ds, Interactive);
    SuitesMakeABenchmark(c, o, SpecsOf(bs), OriginsOfBlocks(bs), SpecsOf(ds), OriginsOfBlocks(ds));
    ValidMeans(SpecsOf(bs) + SpecsOf(ds), Some(c));
    Joined(c, o, SpecsOf(bs), OriginsOfBlocks(bs), SpecsOf(ds), OriginsOfBlocks(ds));
    SpecsMade(c, o, SpecsOf(bs) + SpecsOf(ds), OriginsOfBlocks(bs) + OriginsOfBlocks(ds));
    forall f ensures FamilyCount(SpecsOf(bs) + SpecsOf(ds), f) <= c.familySize {
      FamilyFits(c, bs, Static, f);
      FamilyFits(c, ds, Interactive, f);
      FamilyCountConcat(SpecsOf(bs), SpecsOf(ds), f);
    }
  }
}
