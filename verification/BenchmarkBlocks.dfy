/** What the generator makes of its draws: families as blocks, their sizes the
    shuffled partition of each split's count, their plans drawn one by one. */
module BenchmarkBlocks {
  import opened Words
  import opened Benchmark
  import opened Collections
  import opened Sampler

  // ---------- partitions ----------

  function Total(parts: seq<nat>): nat {
    if parts == [] then 0 else Total(parts[..|parts| - 1]) + parts[|parts| - 1]
  }

  /** Whole families, then what is left over. */
  function PartitionCount(count: nat, familySize: nat): seq<nat>
    requires familySize >= 1
  {
    var whole: seq<nat> := seq(count / familySize, _ => familySize);
    if count % familySize != 0 then whole + [count % familySize] else whole
  }

  lemma {:induction false} TotalOfEqualParts(n: nat, size: nat)
    ensures Total(seq(n, _ => size)) == n * size
  {
    if n > 0 {
      var s: seq<nat> := seq(n, _ => size);
      assert s[..n - 1] == seq(n - 1, _ => size);
      TotalOfEqualParts(n - 1, size);
      assert n * size == (n - 1) * size + size;
    }
  }

  /** A partition conserves the count, in as few families as the size allows, all
      but the last of them full. */
  lemma PartitionConserves(count: nat, familySize: nat)
    requires familySize >= 1
    ensures var parts := PartitionCount(count, familySize);
      && Total(parts) == count
      && (|parts| - 1) * familySize < count + (if count == 0 then 1 else 0) && count <= |parts| * familySize
      && (forall k :: 0 <= k < |parts| ==> 1 <= parts[k] <= familySize)
      && (forall k :: 0 <= k < |parts| - 1 ==> parts[k] == familySize)
  {
    var q, r := count / familySize, count % familySize;
    var whole: seq<nat> := seq(q, _ => familySize);
    assert count == q * familySize + r;
    TotalOfEqualParts(q, familySize);
    assert (whole + [r])[..q] == whole;
    assert (q + 1) * familySize == q * familySize + familySize;
    assert (q - 1) * familySize == q * familySize - familySize;
  }

  lemma {:induction false} TotalOfUpdate(s: seq<nat>, i: nat, x: nat)
    requires i < |s|
    ensures Total(s[i := x]) == Total(s) - s[i] + x
  {
    var n := |s| - 1;
    if i < n {
      assert s[i := x][..n] == s[..n][i := x];
      TotalOfUpdate(s[..n], i, x);
    } else {
      assert s[i := x][..n] == s[..n];
    }
  }

  /** A shuffle moves family sizes and never changes their sum. */
  lemma {:induction false} ShuffleConserves(s: seq<nat>, n: nat, cs: seq<nat>)
    requires n <= |s| && Sampler.Downward(n, cs)
    ensures Total(Sampler.ShuffleSwaps(s, n, cs)) == Total(s)
    decreases |cs|
  {
    if cs != [] {
      var t := Sampler.Swap(s, n - 1, cs[0]);
      TotalOfUpdate(s, n - 1, s[cs[0]]);
      TotalOfUpdate(s[n - 1 := s[cs[0]]], cs[0], s[n - 1]);
      ShuffleConserves(t, n - 1, cs[1..]);
    }
  }

  lemma {:induction false} PartsAreFew(count: nat, parts: seq<nat>)
    requires Total(parts) == count && forall k :: 0 <= k < |parts| ==> 1 <= parts[k]
    ensures |parts| <= count
  {
    if parts != [] {
      PartsAreFew(Total(parts[..|parts| - 1]), parts[..|parts| - 1]);
    }
  }

  // ---------- one family ----------

  /** A family: its plan, the draws its operators were sampled by, and its members. */
  datatype Block = Block(plan: Plan, cs: seq<nat>, specs: seq<Spec>) {
    predicate Valid() {
      plan.Valid() && 2 <= |cs| <= 5
    }
  }

  /** The number of operators, the operators, the base schema, the contract. */
  function PlanDraws(p: Plan, cs: seq<nat>): seq<Draw>
    requires 2 <= |cs| <= 5
  {
    [Draw(4, |cs| - 2)] + Draws(12, cs) + [Draw(6, p.base), Draw(6, p.contract)]
  }

  predicate BlocksValid(bs: seq<Block>) {
    forall k :: 0 <= k < |bs| ==> bs[k].Valid()
  }

  function BlockDraws(bs: seq<Block>): seq<Draw>
    requires BlocksValid(bs)
  {
    if bs == [] then []
    else
      var last := bs[|bs| - 1];
      BlockDraws(bs[..|bs| - 1]) + PlanDraws(last.plan, last.cs)
  }

  /** The members of all the families in turn. */
  function SpecsOf(bs: seq<Block>): seq<Spec> {
    if bs == [] then [] else SpecsOf(bs[..|bs| - 1]) + bs[|bs| - 1].specs
  }

  /** What makes a specification of a plan, a graph index and a member's number. */
  type Maker = (Plan, nat, nat) -> Spec

  const SOME_PLAN := Plan(Static, Train, 0, [0, 1], 0, 0)

  /** The generator's, on valid plans. */
  function MakerOf(c: Config, o: Oracle): Maker
    requires c.Accepted()
  {
    (p: Plan, graphIndex: nat, member: nat) => SpecOf(c, o, if p.Valid() then p else SOME_PLAN, graphIndex, member)
  }

  predicate SampledAt(chosen: seq<nat>, cs: seq<nat>, i: nat) {
    i < |chosen| && i < |cs| && Upward(12, cs) && chosen[i] == SampleSwaps(Range(12), 0, cs)[i]
  }

  /** The chosen operators are the front of the twelve after the swaps of the draws. */
  predicate Sampled(b: Block) {
    |b.plan.chosen| == |b.cs| && forall i :: 0 <= i < |b.cs| ==> SampledAt(b.plan.chosen, b.cs, i)
  }

  function MemberAt(make: Maker, p: Plan, graphIndex: nat, m: nat): Spec {
    make(p, graphIndex + m, m)
  }

  /** The operators are those sampled, and each member is made of the family's plan
      and the next graph index. */
  predicate BuiltBlock(make: Maker, b: Block, graphIndex: nat) {
    && Sampled(b)
    && forall m {:trigger MemberAt(make, b.plan, graphIndex, m)} :: 0 <= m < |b.specs| ==>
         b.specs[m] == MemberAt(make, b.plan, graphIndex, m)
  }

  predicate Built(make: Maker, bs: seq<Block>, graphIndex: nat) {
    if bs == [] then true
    else
      var front := bs[..|bs| - 1];
      Built(make, front, graphIndex) && BuiltBlock(make, bs[|bs| - 1], graphIndex + |SpecsOf(front)|)
  }

  lemma BlocksSnoc(bs: seq<Block>, b: Block)
    requires BlocksValid(bs) && b.Valid()
    ensures BlocksValid(bs + [b]) && SpecsOf(bs + [b]) == SpecsOf(bs) + b.specs
    ensures BlockDraws(bs + [b]) == BlockDraws(bs) + PlanDraws(b.plan, b.cs)
  {
    assert (bs + [b])[..|bs|] == bs;
  }

  lemma {:induction false} SpecsConcat(xs: seq<Block>, ys: seq<Block>)
    ensures SpecsOf(xs + ys) == SpecsOf(xs) + SpecsOf(ys)
    decreases |ys|
  {
    if ys == [] {
      assert xs + ys == xs;
    } else {
      var front, last := ys[..|ys| - 1], ys[|ys| - 1];
      assert (xs + ys)[..|xs + ys| - 1] == xs + front;
      SpecsConcat(xs, front);
    }
  }

  lemma BuiltSnoc(make: Maker, bs: seq<Block>, b: Block, graphIndex: nat)
    requires Built(make, bs, graphIndex) && BuiltBlock(make, b, graphIndex + |SpecsOf(bs)|)
    ensures Built(make, bs + [b], graphIndex)
  {
    assert (bs + [b])[..|bs|] == bs;
  }

  lemma {:induction false} BuiltConcat(make: Maker, xs: seq<Block>, ys: seq<Block>, graphIndex: nat)
    requires Built(make, xs, graphIndex) && Built(make, ys, graphIndex + |SpecsOf(xs)|)
    ensures Built(make, xs + ys, graphIndex)
    decreases |ys|
  {
    if ys == [] {
      assert xs + ys == xs;
    } else {
      var front, last := ys[..|ys| - 1], ys[|ys| - 1];
      BuiltConcat(make, xs, front, graphIndex);
      SpecsConcat(xs, front);
      BuiltSnoc(make, xs + front, last, graphIndex);
      assert (xs + front) + [last] == xs + ys;
    }
  }

  // ---------- one suite ----------

  /** A split: the draws of its shuffle, the shuffled sizes of its families, and the
      families. */
  datatype Part = Part(order: seq<nat>, sizes: seq<nat>, blocks: seq<Block>)

  /** The shuffle is one of the split's partition: every draw in its range. */
  predicate OrderValid(c: Config, count: nat, order: seq<nat>)
    requires c.Accepted()
  {
    var parts := PartitionCount(count, c.familySize);
    Downward(|parts|, order) && |order| == if parts == [] then 0 else |parts| - 1
  }

  predicate Shuffled(c: Config, count: nat, order: seq<nat>, sizes: seq<nat>)
    requires c.Accepted()
  {
    && OrderValid(c, count, order)
    && sizes == ShuffleSwaps(PartitionCount(count, c.familySize), |PartitionCount(count, c.familySize)|, order)
  }

  /** The families of one split have these sizes and are numbered on from `first`. */
  predicate SplitBlocks(suite: Suite, split: Split, sizes: seq<nat>, first: nat, bs: seq<Block>) {
    && |bs| == |sizes| && BlocksValid(bs)
    && forall j :: 0 <= j < |bs| ==>
         && |bs[j].specs| == sizes[j] && bs[j].plan.index == first + j
         && bs[j].plan.suite == suite && bs[j].plan.split == split
  }

  function AllBlocks(parts: seq<Part>): seq<Block> {
    if parts == [] then [] else AllBlocks(parts[..|parts| - 1]) + parts[|parts| - 1].blocks
  }

  /** Split after split, the families numbered through. */
  predicate PartsHold(suite: Suite, parts: seq<Part>) {
    parts != [] ==>
      var n := |parts| - 1;
      && n < |SPLITS| && PartsHold(suite, parts[..n]) && |parts[n].order| <= |parts[n].sizes|
      && SplitBlocks(suite, SPLITS[n], parts[n].sizes, |AllBlocks(parts[..n])|, parts[n].blocks)
  }

  /** Every draw of a suite: for each split its shuffle, then its families' plans. */
  function PartDraws(parts: seq<Part>): seq<Draw>
    requires forall i :: 0 <= i < |parts| ==> |parts[i].order| <= |parts[i].sizes| && BlocksValid(parts[i].blocks)
  {
    if parts == [] then []
    else
      var last := parts[|parts| - 1];
      PartDraws(parts[..|parts| - 1]) + (Draws(|last.sizes|, last.order) + BlockDraws(last.blocks))
  }

  lemma {:induction false} PartsAreDrawn(suite: Suite, parts: seq<Part>)
    requires PartsHold(suite, parts)
    ensures forall i :: 0 <= i < |parts| ==> |parts[i].order| <= |parts[i].sizes| && BlocksValid(parts[i].blocks)
  {
    if parts != [] {
      PartsAreDrawn(suite, parts[..|parts| - 1]);
    }
  }

  lemma PartsSnoc(suite: Suite, parts: seq<Part>, part: Part)
    requires |parts| < |SPLITS| && PartsHold(suite, parts) && |part.order| <= |part.sizes|
    requires SplitBlocks(suite, SPLITS[|parts|], part.sizes, |AllBlocks(parts)|, part.blocks)
    ensures PartsHold(suite, parts + [part]) && AllBlocks(parts + [part]) == AllBlocks(parts) + part.blocks
  {
    assert (parts + [part])[..|parts|] == parts;
  }

  lemma DrawsOfLast(parts: seq<Part>, part: Part)
    requires forall i :: 0 <= i < |parts| ==> |parts[i].order| <= |parts[i].sizes| && BlocksValid(parts[i].blocks)
    requires |part.order| <= |part.sizes| && BlocksValid(part.blocks)
    ensures PartDraws(parts + [part]) == PartDraws(parts) + (Draws(|part.sizes|, part.order) + BlockDraws(part.blocks))
  {
    assert (parts + [part])[..|parts|] == parts;
  }

  /** Blocks of one suite, numbered from 0. */
  predicate Numbered(bs: seq<Block>, suite: Suite) {
    BlocksValid(bs) && forall k :: 0 <= k < |bs| ==> bs[k].plan.index == k && bs[k].plan.suite == suite
  }

  lemma {:induction false} PartsAreNumbered(suite: Suite, parts: seq<Part>)
    requires PartsHold(suite, parts)
    ensures Numbered(AllBlocks(parts), suite)
  {
    if parts != [] {
      PartsAreNumbered(suite, parts[..|parts| - 1]);
    }
  }

  // ---------- the members of a family ----------

  function FamilyCount(specs: seq<Spec>, f: Family): nat {
    if specs == [] then 0
    else FamilyCount(specs[..|specs| - 1], f) + (if specs[|specs| - 1].family == f then 1 else 0)
  }

  lemma {:induction false} FamilyCountConcat(xs: seq<Spec>, ys: seq<Spec>, f: Family)
    ensures FamilyCount(xs + ys, f) == FamilyCount(xs, f) + FamilyCount(ys, f)
    decreases |ys|
  {
    if ys == [] {
      assert xs + ys == xs;
    } else {
      assert (xs + ys)[..|xs + ys| - 1] == xs + ys[..|ys| - 1];
      FamilyCountConcat(xs, ys[..|ys| - 1], f);
    }
  }

  lemma {:induction false} FamilyCountUniform(specs: seq<Spec>, g: Family, f: Family)
    requires forall s :: s in specs ==> s.family == g
    ensures FamilyCount(specs, f) == if f == g then |specs| else 0
  {
    if specs != [] {
      FamilyCountUniform(specs[..|specs| - 1], g, f);
    }
  }

  function FamilyOf(seed: int, suite: Suite, index: nat): Family {
    Family(suite, OfFamily(seed, suite, index))
  }

  /** Every member bears its family's suite, split and name. */
  predicate Labelled(c: Config, bs: seq<Block>) {
    forall k :: 0 <= k < |bs| ==> BlockLabelled(c, bs[k])
  }

  predicate BlockLabelled(c: Config, b: Block) {
    forall s :: s in b.specs ==>
      s.suite == b.plan.suite && s.split == b.plan.split && s.family == FamilyOf(c.seed, b.plan.suite, b.plan.index)
  }

  /** The maker puts the plan's labels on every specification. */
  ghost predicate Labels(make: Maker, c: Config) {
    forall p: Plan, g: nat, m: nat :: p.Valid() ==>
      var s := make(p, g, m);
      s.suite == p.suite && s.split == p.split && s.family == FamilyOf(c.seed, p.suite, p.index)
  }

  lemma GeneratorLabels(c: Config, o: Oracle)
    requires c.Accepted()
    ensures Labels(MakerOf(c, o), c)
  {
    var make := MakerOf(c, o);
    forall p: Plan, g: nat, m: nat | p.Valid()
      ensures var s := make(p, g, m);
              s.suite == p.suite && s.split == p.split && s.family == FamilyOf(c.seed, p.suite, p.index)
    {
      assert make(p, g, m) == SpecOf(c, o, p, g, m);
    }
  }

  lemma {:induction false} BuiltIsLabelled(c: Config, make: Maker, bs: seq<Block>, graphIndex: nat)
    requires Labels(make, c) && BlocksValid(bs) && Built(make, bs, graphIndex)
    ensures Labelled(c, bs)
  {
    if bs != [] {
      var n := |bs| - 1;
      BuiltIsLabelled(c, make, bs[..n], graphIndex);
      var b, first := bs[n], graphIndex + |SpecsOf(bs[..n])|;
      forall m | 0 <= m < |b.specs| ensures b.specs[m] == make(b.plan, first + m, m) {
        assert b.specs[m] == MemberAt(make, b.plan, first, m);
      }
    }
  }

  /** The members the blocks have under a number. */
  function MembersAt(bs: seq<Block>, index: nat): nat {
    if bs == [] then 0
    else MembersAt(bs[..|bs| - 1], index) + if index == |bs| - 1 then |bs[|bs| - 1].specs| else 0
  }

  lemma {:induction false} MembersAtIs(bs: seq<Block>, index: nat)
    ensures MembersAt(bs, index) == if index < |bs| then |bs[index].specs| else 0
  {
    if bs != [] {
      MembersAtIs(bs[..|bs| - 1], index);
    }
  }

  lemma LastFamily(c: Config, bs: seq<Block>, suite: Suite, f: Family)
    requires bs != [] && Numbered(bs, suite) && Labelled(c, bs)
    ensures var n := |bs| - 1;
            FamilyCount(SpecsOf(bs), f) == FamilyCount(SpecsOf(bs[..n]), f)
              + if f == FamilyOf(c.seed, suite, n) then |bs[n].specs| else 0
  {
    var n := |bs| - 1;
    FamilyCountConcat(SpecsOf(bs[..n]), bs[n].specs, f);
    assert BlockLabelled(c, bs[n]);
    FamilyCountUniform(bs[n].specs, FamilyOf(c.seed, suite, n), f);
  }

  lemma {:induction false} FamilyCountIsMembers(c: Config, bs: seq<Block>, suite: Suite, index: nat)
    requires Numbered(bs, suite) && Labelled(c, bs)
    ensures FamilyCount(SpecsOf(bs), FamilyOf(c.seed, suite, index)) == MembersAt(bs, index)
  {
    if bs != [] {
      FamilyCountIsMembers(c, bs[..|bs| - 1], suite, index);
      LastFamily(c, bs, suite, FamilyOf(c.seed, suite, index));
    }
  }

  /** Family `index` has the members of its block. */
  lemma FamilyCountOfBlocks(c: Config, bs: seq<Block>, suite: Suite, index: nat)
    requires Numbered(bs, suite) && Labelled(c, bs) && index < |bs|
    ensures FamilyCount(SpecsOf(bs), FamilyOf(c.seed, suite, index)) == |bs[index].specs|
  {
    FamilyCountIsMembers(c, bs, suite, index);
    MembersAtIs(bs, index);
  }

  /** A family that is none of the suite's has no members in it. */
  lemma {:induction false} NoOtherFamily(c: Config, bs: seq<Block>, suite: Suite, f: Family)
    requires Numbered(bs, suite) && Labelled(c, bs) && forall k :: 0 <= k < |bs| ==> f != FamilyOf(c.seed, suite, k)
    ensures FamilyCount(SpecsOf(bs), f) == 0
  {
    if bs != [] {
      var n := |bs| - 1;
      NoOtherFamily(c, bs[..n], suite, f);
      LastFamily(c, bs, suite, f);
    }
  }

  lemma {:induction false} ShuffleKeepsValues(s: seq<nat>, n: nat, cs: seq<nat>)
    requires n <= |s| && Downward(n, cs)
    ensures multiset(ShuffleSwaps(s, n, cs)) == multiset(s)
    decreases |cs|
  {
    if cs != [] {
      var t := Swap(s, n - 1, cs[0]);
      SwapKeepsValues(s, n - 1, cs[0]);
      ShuffleKeepsValues(t, n - 1, cs[1..]);
      assert ShuffleSwaps(s, n, cs) == ShuffleSwaps(t, n - 1, cs[1..]);
    }
  }

  lemma SwapKeepsValues(s: seq<nat>, i: nat, j: nat)
    requires i < |s| && j < |s|
    ensures multiset(Swap(s, i, j)) == multiset(s)
  {
  }

  /** The sizes of a split's families are the parts of its partition, reordered. */
  lemma ShuffledSizesAreTheParts(c: Config, count: nat, order: seq<nat>, sizes: seq<nat>)
    requires c.Accepted() && Shuffled(c, count, order, sizes)
    ensures multiset(sizes) == multiset(PartitionCount(count, c.familySize)) && Total(sizes) == count
    ensures forall k :: 0 <= k < |sizes| ==> 1 <= sizes[k] <= c.familySize
  {
    var all := PartitionCount(count, c.familySize);
    ShuffleKeepsValues(all, |all|, order);
    ShuffleConserves(all, |all|, order);
    PartitionConserves(count, c.familySize);
    forall k | 0 <= k < |sizes| ensures 1 <= sizes[k] <= c.familySize {
      assert sizes[k] in multiset(sizes);
      assert sizes[k] in multiset(all);
      var j :| 0 <= j < |all| && all[j] == sizes[k];
    }
  }

  predicate PartShuffled(c: Config, suite: Suite, i: nat, part: Part)
    requires c.Accepted() && i < |SPLITS|
  {
    Shuffled(c, c.CountsFor(suite).Of(SPLITS[i]), part.order, part.sizes)
  }

  /** Every split's sizes are its count partitioned and shuffled. */
  predicate PartsShuffled(c: Config, suite: Suite, parts: seq<Part>)
    requires c.Accepted()
  {
    |parts| <= |SPLITS| && forall i :: 0 <= i < |parts| ==> PartShuffled(c, suite, i, parts[i])
  }

  lemma ShuffledSnoc(c: Config, suite: Suite, parts: seq<Part>, part: Part)
    requires c.Accepted() && |parts| < |SPLITS| && PartsShuffled(c, suite, parts)
    requires PartShuffled(c, suite, |parts|, part)
    ensures PartsShuffled(c, suite, parts + [part])
  {
    forall i | 0 <= i < |parts + [part]| ensures PartShuffled(c, suite, i, (parts + [part])[i]) {
      assert i < |parts| ==> (parts + [part])[i] == parts[i];
    }
  }

  lemma ShuffledFacts(c: Config, suite: Suite, parts: seq<Part>, i: nat)
    requires c.Accepted() && PartsShuffled(c, suite, parts) && i < |parts|
    ensures Total(parts[i].sizes) == c.CountsFor(suite).Of(SPLITS[i])
    ensures forall k :: 0 <= k < |parts[i].sizes| ==> 1 <= parts[i].sizes[k] <= c.familySize
  {
    assert PartShuffled(c, suite, i, parts[i]);
    ShuffledSizesAreTheParts(c, c.CountsFor(suite).Of(SPLITS[i]), parts[i].order, parts[i].sizes);
  }

  lemma {:induction false} SuiteFamiliesFit(familySize: int, suite: Suite, parts: seq<Part>)
    requires PartsHold(suite, parts)
    requires forall i :: 0 <= i < |parts| ==> forall k :: 0 <= k < |parts[i].sizes| ==> 1 <= parts[i].sizes[k] <= familySize
    ensures forall k :: 0 <= k < |AllBlocks(parts)| ==> 1 <= |AllBlocks(parts)[k].specs| <= familySize
  {
    if parts != [] {
      SuiteFamiliesFit(familySize, suite, parts[..|parts| - 1]);
    }
  }

  // ---------- the members of a split ----------

  lemma {:induction false} CountConcat(xs: seq<Spec>, ys: seq<Spec>, suite: Suite, split: Split)
    ensures CountOf(xs + ys, suite, split) == CountOf(xs, suite, split) + CountOf(ys, suite, split)
    decreases |ys|
  {
    if ys == [] {
      assert xs + ys == xs;
    } else {
      assert (xs + ys)[..|xs + ys| - 1] == xs + ys[..|ys| - 1];
      CountConcat(xs, ys[..|ys| - 1], suite, split);
    }
  }

  lemma {:induction false} CountUniform(xs: seq<Spec>, s: Suite, p: Split, suite: Suite, split: Split)
    requires forall x :: x in xs ==> x.suite == s && x.split == p
    ensures CountOf(xs, suite, split) == if s == suite && p == split then |xs| else 0
  {
    if xs != [] {
      CountUniform(xs[..|xs| - 1], s, p, suite, split);
    }
  }

  lemma {:induction false} CountOfSplitBlocks(c: Config, suite: Suite, p: Split, sizes: seq<nat>, first: nat,
                                              bs: seq<Block>, split: Split)
    requires SplitBlocks(suite, p, sizes, first, bs) && Labelled(c, bs)
    ensures CountOf(SpecsOf(bs), suite, split) == if p == split then Total(sizes) else 0
    decreases |bs|
  {
    if bs != [] {
      var n := |bs| - 1;
      CountOfSplitBlocks(c, suite, p, sizes[..n], first, bs[..n], split);
      CountConcat(SpecsOf(bs[..n]), bs[n].specs, suite, split);
      assert BlockLabelled(c, bs[n]);
      CountUniform(bs[n].specs, suite, p, suite, split);
    }
  }

  lemma SplitsAreDistinct(j: nat, k: nat)
    requires j < |SPLITS| && k < |SPLITS|
    ensures SPLITS[j] == SPLITS[k] ==> j == k
  {
  }

  lemma CountWithSplit(c: Config, suite: Suite, p: Split, sizes: seq<nat>, xs: seq<Block>, ys: seq<Block>, split: Split)
    requires SplitBlocks(suite, p, sizes, |xs|, ys) && Labelled(c, ys)
    ensures CountOf(SpecsOf(xs + ys), suite, split) ==
            CountOf(SpecsOf(xs), suite, split) + if p == split then Total(sizes) else 0
  {
    SpecsConcat(xs, ys);
    CountConcat(SpecsOf(xs), SpecsOf(ys), suite, split);
    CountOfSplitBlocks(c, suite, p, sizes, |xs|, ys, split);
  }

  lemma LabelledParts(c: Config, xs: seq<Block>, ys: seq<Block>)
    requires Labelled(c, xs + ys)
    ensures Labelled(c, xs) && Labelled(c, ys)
  {
    forall k | 0 <= k < |xs| ensures BlockLabelled(c, xs[k]) {
      assert BlockLabelled(c, (xs + ys)[k]);
    }
    forall k | 0 <= k < |ys| ensures BlockLabelled(c, ys[k]) {
      assert BlockLabelled(c, (xs + ys)[|xs| + k]);
    }
  }

  lemma {:induction false} CountOfParts(c: Config, suite: Suite, parts: seq<Part>, k: nat)
    requires PartsHold(suite, parts) && k < |SPLITS| && Labelled(c, AllBlocks(parts))
    ensures CountOf(SpecsOf(AllBlocks(parts)), suite, SPLITS[k]) == if k < |parts| then Total(parts[k].sizes) else 0
  {
    if parts != [] {
      var n := |parts| - 1;
      LabelledParts(c, AllBlocks(parts[..n]), parts[n].blocks);
      CountOfParts(c, suite, parts[..n], k);
      CountWithSplit(c, suite, SPLITS[n], parts[n].sizes, AllBlocks(parts[..n]), parts[n].blocks, SPLITS[k]);
      SplitsAreDistinct(k, n);
    }
  }
}
