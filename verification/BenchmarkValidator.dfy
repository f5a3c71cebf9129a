/** The validator: every finding is reported, nothing else is, and there is none
    exactly when the benchmark is valid. */
module BenchmarkValidator {
  import opened Options
  import opened Words
  import opened Benchmark
  import opened BenchmarkMeaning
  import opened Collections

  datatype Issue =
    | DuplicateId(id: SpecId, count: nat)
    | DuplicateGraph(hash: Digest, count: nat)
    | UnknownSuite(id: SpecId)
    | UnknownSplit(id: SpecId)
    | HashMismatch(id: SpecId)
    | DuplicateFixture(id: SpecId)
    | TooFewFixtures(id: SpecId)
    | MissingTags(id: SpecId, missing: set<Tag>)
    | DeclaredTagsDiffer(id: SpecId)
    | InteractiveActions(id: SpecId)
    | StaticActions(id: SpecId)
    | FamilyLeak(suite: Suite, family: Family)
    | ManySignatures(suite: Suite, family: Family)
    | SignatureLeak(suite: Suite, signature: Digest)
    | CountMismatch(suite: Suite, split: Split, expected: nat, found: nat)

  // ---------- the projections the validator counts and groups by ----------

  function Each<A, B>(s: seq<A>, f: A -> B): (r: seq<B>)
    ensures |r| == |s| && forall k :: 0 <= k < |s| ==> r[k] == f(s[k])
    ensures forall a :: a in s ==> f(a) in r
  {
    assert forall k :: 0 <= k < |s| ==> f(s[k]) == seq(|s|, i requires 0 <= i < |s| => f(s[i]))[k];
    seq(|s|, k requires 0 <= k < |s| => f(s[k]))
  }

  function IdOf(s: Spec): SpecId { s.id }
  function HashOf(s: Spec): Digest { s.graphHash }
  function CellOf(s: Spec): (Suite, Split) { (s.suite, s.split) }
  function FamilyKey(s: Spec): (Suite, Family) { (s.suite, s.family) }
  function SignatureKey(s: Spec): (Suite, Digest) { (s.suite, s.signature) }
  function SplitOf(s: Spec): Split { s.split }
  function SignatureOf(s: Spec): Digest { s.signature }

  function Tally<K>(specs: seq<Spec>, key: Spec -> K): multiset<K> {
    multiset(Each(specs, key))
  }

  /** The values seen under each key. */
  function Added<K, V>(m: map<K, set<V>>, key: K, value: V): map<K, set<V>> {
    m[key := (if key in m then m[key] else {}) + {value}]
  }

  function Grouped<K, V>(specs: seq<Spec>, key: Spec -> K, value: Spec -> V): map<K, set<V>> {
    if specs == [] then map[]
    else
      var s := specs[|specs| - 1];
      Added(Grouped(specs[..|specs| - 1], key, value), key(s), value(s))
  }

  // ---------- what is to be found ----------

  predicate SpecFinding(x: Issue, s: Spec) {
    match x
    case UnknownSuite(id) => id == s.id && s.suite.OtherSuite?
    case UnknownSplit(id) => id == s.id && s.split.OtherSplit?
    case HashMismatch(id) => id == s.id && s.graphHash != OfGraph(s.graph)
    case DuplicateFixture(id) => id == s.id && !DistinctFixtures(s.fixtures)
    case TooFewFixtures(id) => id == s.id && |s.fixtures| < 5
    case MissingTags(id, missing) => id == s.id && missing == Missing(s) && missing != {}
    case DeclaredTagsDiffer(id) => id == s.id && s.tags != Covered(s.fixtures)
    case InteractiveActions(id) => id == s.id && s.suite == Interactive && s.maxActions != Some(8)
    case StaticActions(id) => id == s.id && s.suite == Static && s.maxActions != None
    case _ => false
  }

  ghost predicate Clash<K(!new), V(!new)>(specs: seq<Spec>, key: Spec -> K, value: Spec -> V, k: K) {
    exists i, j :: 0 <= i < |specs| && 0 <= j < |specs|
                   && key(specs[i]) == k && key(specs[j]) == k && value(specs[i]) != value(specs[j])
  }

  ghost predicate SomeSpecFinding(x: Issue, specs: seq<Spec>) {
    exists k :: 0 <= k < |specs| && SpecFinding(x, specs[k])
  }

  ghost predicate Finding(x: Issue, specs: seq<Spec>, config: Option<Config>) {
    match x
    case DuplicateId(id, count) => count == Tally(specs, IdOf)[id] && count > 1
    case DuplicateGraph(hash, count) => count == Tally(specs, HashOf)[hash] && count > 1
    case FamilyLeak(suite, family) => Clash(specs, FamilyKey, SplitOf, (suite, family))
    case ManySignatures(suite, family) => Clash(specs, FamilyKey, SignatureOf, (suite, family))
    case SignatureLeak(suite, signature) => Clash(specs, SignatureKey, SplitOf, (suite, signature))
    case CountMismatch(suite, split, expected, found) =>
      && config.Some? && (suite == Static || suite == Interactive) && !split.OtherSplit?
      && expected == config.value.CountsFor(suite).Of(split) && found == CountOf(specs, suite, split)
      && expected != found
    case _ => SomeSpecFinding(x, specs)
  }

  // ---------- groups and counts ----------

  lemma {:induction false} GroupedMeaning<K, V>(specs: seq<Spec>, key: Spec -> K, value: Spec -> V, k: K)
    ensures var g := Grouped(specs, key, value);
      && (k in g <==> exists i :: 0 <= i < |specs| && key(specs[i]) == k)
      && (k in g ==> forall v :: v in g[k] <==> exists i :: 0 <= i < |specs| && key(specs[i]) == k && value(specs[i]) == v)
  {
    if specs != [] {
      var n := |specs| - 1;
      GroupedMeaning(specs[..n], key, value, k);
      assert forall i :: 0 <= i < n ==> specs[..n][i] == specs[i];
    }
  }

  lemma MoreThanOne<V>(s: set<V>)
    ensures |s| > 1 <==> exists u, v :: u in s && v in s && u != v
  {
    if |s| > 1 {
      var u :| u in s;
      var rest := s - {u};
      assert |rest| > 0;
      var v :| v in rest;
    }
    if u, v :| u in s && v in s && u != v {
      assert {u, v} <= s;
      Larger({u, v}, s);
      assert |{u, v}| == 2;
    }
  }

  lemma {:induction false} Larger<V>(a: set<V>, b: set<V>)
    requires a <= b
    ensures |a| <= |b|
  {
    if a != {} {
      var x :| x in a;
      Larger(a - {x}, b - {x});
    }
  }

  lemma CrowdedIsClash<K(!new), V(!new)>(specs: seq<Spec>, key: Spec -> K, value: Spec -> V, k: K)
    ensures var g := Grouped(specs, key, value); k in g && |g[k]| > 1 <==> Clash(specs, key, value, k)
  {
    var g := Grouped(specs, key, value);
    GroupedMeaning(specs, key, value, k);
    if k in g {
      MoreThanOne(g[k]);
      if Clash(specs, key, value, k) {
        var i, j :| 0 <= i < |specs| && 0 <= j < |specs|
                    && key(specs[i]) == k && key(specs[j]) == k && value(specs[i]) != value(specs[j]);
        assert value(specs[i]) in g[k] && value(specs[j]) in g[k];
      }
    }
  }

  method Repeated<K(==)>(counts: multiset<K>) returns (r: seq<(K, nat)>)
    ensures forall k, n :: (k, n) in r <==> counts[k] == n && n > 1
  {
    r := [];
    var left := set k | k in counts;
    ghost var seen := {};
    while left != {}
      invariant left + seen == set k | k in counts
      invariant forall k, n :: (k, n) in r <==> k in seen && counts[k] == n && n > 1
      decreases |left|
    {
      var k :| k in left;
      left, seen := left - {k}, seen + {k};
      if counts[k] > 1 {
        r := r + [(k, counts[k])];
      }
    }
  }

  method Crowded<K(==), V(==)>(groups: map<K, set<V>>) returns (r: seq<K>)
    ensures forall k :: k in r <==> k in groups && |groups[k]| > 1
  {
    r := [];
    var left := groups.Keys;
    ghost var seen := {};
    while left != {}
      invariant left + seen == groups.Keys
      invariant forall k :: k in r <==> k in seen && |groups[k]| > 1
      decreases |left|
    {
      var k :| k in left;
      left, seen := left - {k}, seen + {k};
      if |groups[k]| > 1 {
        r := r + [k];
      }
    }
  }

  // ---------- the validator ----------

  function When(c: bool, x: Issue): (r: seq<Issue>)
    ensures forall y :: y in r <==> c && y == x
  {
    if c then [x] else []
  }

  function FixtureIds(fixtures: seq<Fixture>): (r: seq<FixtureId>)
    ensures |r| == |fixtures| && forall k :: 0 <= k < |r| ==> r[k] == fixtures[k].id
  {
    seq(|fixtures|, k requires 0 <= k < |fixtures| => fixtures[k].id)
  }

  method HasDuplicates(fixtures: seq<Fixture>) returns (duplicate: bool)
    ensures duplicate <==> !DistinctFixtures(fixtures)
  {
    var ids := FixtureIds(fixtures);
    DistinctByCount(ids);
    duplicate := |ids| != |Elements(ids)|;
  }

  method CheckFixtureCount(s: Spec) returns (issues: seq<Issue>)
    ensures forall x :: x in issues <==> SpecFinding(x, s) && (x.DuplicateFixture? || x.TooFewFixtures?)
  {
    var duplicate := HasDuplicates(s.fixtures);
    issues := When(duplicate, DuplicateFixture(s.id));
    issues := issues + When(|s.fixtures| < 5, TooFewFixtures(s.id));
  }

  method CheckTags(s: Spec) returns (issues: seq<Issue>)
    ensures forall x :: x in issues <==> SpecFinding(x, s) && (x.MissingTags? || x.DeclaredTagsDiffer?)
  {
    issues := When(Missing(s) != {}, MissingTags(s.id, Missing(s)));
    issues := issues + When(s.tags != Covered(s.fixtures), DeclaredTagsDiffer(s.id));
  }

  method CheckSpec(s: Spec) returns (issues: seq<Issue>)
    ensures forall x :: x in issues <==> SpecFinding(x, s)
  {
    issues := When(s.suite.OtherSuite?, UnknownSuite(s.id));
    issues := issues + When(s.split.OtherSplit?, UnknownSplit(s.id));
    issues := issues + When(s.graphHash != OfGraph(s.graph), HashMismatch(s.id));
    var fixtures := CheckFixtureCount(s);
    var tags := CheckTags(s);
    issues := issues + fixtures + tags;
    issues := issues + When(s.suite == Interactive && s.maxActions != Some(8), InteractiveActions(s.id));
    issues := issues + When(s.suite == Static && s.maxActions != None, StaticActions(s.id));
  }

  lemma TallySnoc<K>(specs: seq<Spec>, n: nat, key: Spec -> K)
    requires n < |specs|
    ensures Tally(specs[..n + 1], key) == Tally(specs[..n], key) + multiset{key(specs[n])}
  {
    assert Each(specs[..n + 1], key) == Each(specs[..n], key) + [key(specs[n])];
  }

  lemma {:induction false} TallyIsCount(specs: seq<Spec>, suite: Suite, split: Split)
    ensures Tally(specs, CellOf)[(suite, split)] == CountOf(specs, suite, split)
  {
    if specs != [] {
      var n := |specs| - 1;
      TallyIsCount(specs[..n], suite, split);
      TallySnoc(specs, n, CellOf);
      assert specs[..n + 1] == specs;
    }
  }

  datatype Scan = Scan(
    counts: multiset<(Suite, Split)>,
    families: map<(Suite, Family), set<Split>>,
    familySignatures: map<(Suite, Family), set<Digest>>,
    signatures: map<(Suite, Digest), set<Split>>)

  function ScanOf(specs: seq<Spec>): Scan {
    Scan(Tally(specs, CellOf), Grouped(specs, FamilyKey, SplitOf), Grouped(specs, FamilyKey, SignatureOf),
         Grouped(specs, SignatureKey, SplitOf))
  }

  /** One specification seen. */
  function Noted(scan: Scan, s: Spec): Scan {
    Scan(scan.counts + multiset{CellOf(s)}, Added(scan.families, FamilyKey(s), s.split),
         Added(scan.familySignatures, FamilyKey(s), s.signature),
         Added(scan.signatures, SignatureKey(s), s.split))
  }

  lemma ScanNext(specs: seq<Spec>, i: nat)
    requires i < |specs|
    ensures ScanOf(specs[..i + 1]) == Noted(ScanOf(specs[..i]), specs[i])
  {
    TallySnoc(specs, i, CellOf);
    assert specs[..i + 1][..i] == specs[..i];
  }

  lemma SomeNext(specs: seq<Spec>, i: nat)
    requires i < |specs|
    ensures forall x :: SomeSpecFinding(x, specs[..i + 1]) <==> SomeSpecFinding(x, specs[..i]) || SpecFinding(x, specs[i])
  {
    var before, now := specs[..i], specs[..i + 1];
    assert now[i] == specs[i] && forall k :: 0 <= k < i ==> now[k] == before[k];
    forall x ensures SomeSpecFinding(x, now) <==> SomeSpecFinding(x, before) || SpecFinding(x, specs[i]) {
      if k :| 0 <= k < |before| && SpecFinding(x, before[k]) {
        assert SpecFinding(x, now[k]);
      }
      if SpecFinding(x, specs[i]) {
        assert SpecFinding(x, now[i]);
      }
    }
  }

  /** The single pass over the specifications. */
  method ScanSpecs(specs: seq<Spec>) returns (scan: Scan, issues: seq<Issue>)
    ensures scan == ScanOf(specs)
    ensures forall x :: x in issues <==> SomeSpecFinding(x, specs)
  {
    issues := [];
    scan := Scan(multiset{}, map[], map[], map[]);
    assert specs[..0] == [];
    for i := 0 to |specs|
      invariant scan == ScanOf(specs[..i])
      invariant forall x :: x in issues <==> SomeSpecFinding(x, specs[..i])
    {
      ScanNext(specs, i);
      SomeNext(specs, i);
      scan := Noted(scan, specs[i]);
      var found := CheckSpec(specs[i]);
      issues := issues + found;
    }
    assert specs[..|specs|] == specs;
  }

  predicate AboutDuplicates(x: Issue) { x.DuplicateId? || x.DuplicateGraph? }

  function IdIssue(r: (SpecId, nat)): Issue { DuplicateId(r.0, r.1) }
  function HashIssue(r: (Digest, nat)): Issue { DuplicateGraph(r.0, r.1) }
  function LeakIssue(k: (Suite, Family)): Issue { FamilyLeak(k.0, k.1) }
  function ManyIssue(k: (Suite, Family)): Issue { ManySignatures(k.0, k.1) }
  function SignatureIssue(k: (Suite, Digest)): Issue { SignatureLeak(k.0, k.1) }

  method CheckDuplicates(specs: seq<Spec>) returns (issues: seq<Issue>)
    ensures forall x :: x in issues <==> AboutDuplicates(x) && Finding(x, specs, None)
  {
    var ids := Repeated(Tally(specs, IdOf));
    var hashes := Repeated(Tally(specs, HashOf));
    issues := Each(ids, IdIssue) + Each(hashes, HashIssue);
    forall x ensures x in issues <==> AboutDuplicates(x) && Finding(x, specs, None) {
      if x.DuplicateId? && (x.id, x.count) in ids {
        assert IdIssue((x.id, x.count)) == x;
      }
      if x.DuplicateGraph? && (x.hash, x.count) in hashes {
        assert HashIssue((x.hash, x.count)) == x;
      }
    }
  }

  lemma ReportedIffClash<K(!new), V(!new)>(specs: seq<Spec>, key: Spec -> K, value: Spec -> V,
                                           crowded: seq<K>, report: K -> Issue, k: K)
    requires var g := Grouped(specs, key, value); forall q :: q in crowded <==> q in g && |g[q]| > 1
    requires forall q :: report(q) == report(k) ==> q == k
    ensures report(k) in Each(crowded, report) <==> Clash(specs, key, value, k)
  {
    CrowdedIsClash(specs, key, value, k);
  }

  method CheckFamilies(specs: seq<Spec>, families: map<(Suite, Family), set<Split>>) returns (issues: seq<Issue>)
    requires families == Grouped(specs, FamilyKey, SplitOf)
    ensures forall x :: x in issues <==> x.FamilyLeak? && Finding(x, specs, None)
  {
    var crowded := Crowded(families);
    issues := Each(crowded, LeakIssue);
    forall suite, family
      ensures LeakIssue((suite, family)) in issues <==> Clash(specs, FamilyKey, SplitOf, (suite, family))
    {
      ReportedIffClash(specs, FamilyKey, SplitOf, crowded, LeakIssue, (suite, family));
    }
  }

  method CheckFamilySignatures(specs: seq<Spec>, groups: map<(Suite, Family), set<Digest>>) returns (issues: seq<Issue>)
    requires groups == Grouped(specs, FamilyKey, SignatureOf)
    ensures forall x :: x in issues <==> x.ManySignatures? && Finding(x, specs, None)
  {
    var crowded := Crowded(groups);
    issues := Each(crowded, ManyIssue);
    forall suite, family
      ensures ManyIssue((suite, family)) in issues <==> Clash(specs, FamilyKey, SignatureOf, (suite, family))
    {
      ReportedIffClash(specs, FamilyKey, SignatureOf, crowded, ManyIssue, (suite, family));
    }
  }

  method CheckSignatures(specs: seq<Spec>, groups: map<(Suite, Digest), set<Split>>) returns (issues: seq<Issue>)
    requires groups == Grouped(specs, SignatureKey, SplitOf)
    ensures forall x :: x in issues <==> x.SignatureLeak? && Finding(x, specs, None)
  {
    var crowded := Crowded(groups);
    issues := Each(crowded, SignatureIssue);
    forall suite, signature
      ensures SignatureIssue((suite, signature)) in issues <==> Clash(specs, SignatureKey, SplitOf, (suite, signature))
    {
      ReportedIffClash(specs, SignatureKey, SplitOf, crowded, SignatureIssue, (suite, signature));
    }
  }

  function Compared(specs: seq<Spec>, scan: Scan, c: Config, suite: Suite, i: nat): (r: seq<Issue>)
    requires scan == ScanOf(specs) && i < |SPLITS| && (suite == Static || suite == Interactive)
    ensures forall x :: x in r <==>
              x.CountMismatch? && Finding(x, specs, Some(c)) && x.suite == suite && x.split == SPLITS[i]
  {
    var expected, found := c.CountsFor(suite).Of(SPLITS[i]), scan.counts[(suite, SPLITS[i])];
    TallyIsCount(specs, suite, SPLITS[i]);
    RankOfSplit(i);
    When(expected != found, CountMismatch(suite, SPLITS[i], expected, found))
  }

  function Rank(split: Split): (r: nat)
    ensures r < |SPLITS| ==> SPLITS[r] == split
    ensures r < |SPLITS| <==> !split.OtherSplit?
  {
    match split
    case Train => 0
    case OperatorSelection => 1
    case MethodDevelopment => 2
    case ShadowValidation => 3
    case SealedId => 4
    case SealedOod => 5
    case OtherSplit(_) => 6
  }

  lemma RankOfSplit(i: nat)
    requires i < |SPLITS|
    ensures Rank(SPLITS[i]) == i
  {
  }

  method CheckSuiteCounts(specs: seq<Spec>, scan: Scan, c: Config, suite: Suite) returns (issues: seq<Issue>)
    requires scan == ScanOf(specs) && (suite == Static || suite == Interactive)
    ensures forall x :: x in issues <==> x.CountMismatch? && Finding(x, specs, Some(c)) && x.suite == suite
  {
    issues := [];
    for i := 0 to |SPLITS|
      invariant forall x :: x in issues <==>
                  x.CountMismatch? && Finding(x, specs, Some(c)) && x.suite == suite && Rank(x.split) < i
    {
      RankOfSplit(i);
      issues := issues + Compared(specs, scan, c, suite, i);
    }
  }

  predicate AboutGroups(x: Issue) { x.FamilyLeak? || x.ManySignatures? || x.SignatureLeak? }

  method CheckGroups(specs: seq<Spec>, scan: Scan) returns (issues: seq<Issue>)
    requires scan == ScanOf(specs)
    ensures forall x :: x in issues <==> AboutGroups(x) && Finding(x, specs, None)
  {
    var families := CheckFamilies(specs, scan.families);
    var many := CheckFamilySignatures(specs, scan.familySignatures);
    var signatures := CheckSignatures(specs, scan.signatures);
    issues := families + many + signatures;
    forall x ensures x in issues <==> AboutGroups(x) && Finding(x, specs, None) {
      assert x in issues <==> x in families || x in many || x in signatures;
    }
  }

  method CheckCounts(specs: seq<Spec>, scan: Scan, c: Config) returns (issues: seq<Issue>)
    requires scan == ScanOf(specs)
    ensures forall x :: x in issues <==> x.CountMismatch? && Finding(x, specs, Some(c))
  {
    var static_ := CheckSuiteCounts(specs, scan, c, Static);
    var interactive := CheckSuiteCounts(specs, scan, c, Interactive);
    issues := static_ + interactive;
  }

  predicate AboutOneSpec(x: Issue) {
    !AboutDuplicates(x) && !AboutGroups(x) && !x.CountMismatch?
  }

  lemma KindsOfFinding(x: Issue, specs: seq<Spec>, config: Option<Config>)
    ensures SomeSpecFinding(x, specs) ==> AboutOneSpec(x)
    ensures AboutOneSpec(x) ==> (Finding(x, specs, config) <==> SomeSpecFinding(x, specs))
    ensures AboutDuplicates(x) || AboutGroups(x) ==> Finding(x, specs, config) == Finding(x, specs, None)
    ensures config.None? && x.CountMismatch? ==> !Finding(x, specs, config)
  {
  }

  /** Reports exactly the findings. */
  method ValidateSpecs(specs: seq<Spec>, config: Option<Config>) returns (issues: seq<Issue>)
    ensures forall x :: x in issues <==> Finding(x, specs, config)
    ensures issues == [] <==> Reads(specs, config)
  {
    SilentIffValid(specs, config);
    var duplicates := CheckDuplicates(specs);
    var scan, found := ScanSpecs(specs);
    var groups := CheckGroups(specs, scan);
    var counts := [];
    if config.Some? {
      counts := CheckCounts(specs, scan, config.value);
    }
    issues := duplicates + found + groups + counts;
    forall x ensures x in issues <==> Finding(x, specs, config) {
      KindsOfFinding(x, specs, config);
      assert x in issues <==> x in duplicates || x in found || x in groups || x in counts;
    }
    assert issues != [] ==> issues[0] in issues;
  }

  // ---------- no finding is validity ----------

  lemma NoRepeats<K(!new)>(specs: seq<Spec>, key: Spec -> K)
    ensures (forall k :: Tally(specs, key)[k] <= 1) <==>
              forall i, j :: 0 <= i < j < |specs| ==> key(specs[i]) != key(specs[j])
  {
    var keys := Each(specs, key);
    RepeatedMeans(keys);
    assert Distinct(keys) <==> forall i, j :: 0 <= i < j < |specs| ==> key(specs[i]) != key(specs[j]);
    forall k ensures k in keys <==> multiset(keys)[k] > 0 {
    }
    if Distinct(keys) {
      forall k ensures multiset(keys)[k] <= 1 {
        if k in keys {
          assert multiset(keys)[k] == 1;
        } else {
          assert multiset(keys)[k] == 0;
        }
      }
    }
    if forall k :: multiset(keys)[k] <= 1 {
      forall k | k in keys ensures multiset(keys)[k] == 1 {
        assert multiset(keys)[k] > 0;
      }
      assert Distinct(keys);
    }
    assert Tally(specs, key) == multiset(keys);
  }

  lemma NoDuplicateIds(specs: seq<Spec>, config: Option<Config>)
    ensures (forall x: Issue :: x.DuplicateId? ==> !Finding(x, specs, config)) <==> UniqueIds(specs)
  {
    NoRepeats(specs, IdOf);
    assert UniqueIds(specs) <==> forall i, j :: 0 <= i < j < |specs| ==> IdOf(specs[i]) != IdOf(specs[j]);
    forall id ensures Finding(DuplicateId(id, Tally(specs, IdOf)[id]), specs, config) <==> Tally(specs, IdOf)[id] > 1 {
    }
  }

  lemma NoDuplicateGraphs(specs: seq<Spec>, config: Option<Config>)
    ensures (forall x: Issue :: x.DuplicateGraph? ==> !Finding(x, specs, config)) <==> UniqueGraphs(specs)
  {
    NoRepeats(specs, HashOf);
    assert UniqueGraphs(specs) <==> forall i, j :: 0 <= i < j < |specs| ==> HashOf(specs[i]) != HashOf(specs[j]);
    forall h ensures Finding(DuplicateGraph(h, Tally(specs, HashOf)[h]), specs, config) <==> Tally(specs, HashOf)[h] > 1 {
    }
  }

  lemma NoSpecFinding(s: Spec)
    ensures (forall x :: !SpecFinding(x, s)) <==> SpecValid(s)
  {
    if !SpecValid(s) {
      var x := if s.suite.OtherSuite? then UnknownSuite(s.id) else if s.split.OtherSplit? then UnknownSplit(s.id)
               else if s.graphHash != OfGraph(s.graph) then HashMismatch(s.id)
               else if !DistinctFixtures(s.fixtures) then DuplicateFixture(s.id)
               else if |s.fixtures| < 5 then TooFewFixtures(s.id)
               else if Missing(s) != {} then MissingTags(s.id, Missing(s))
               else if s.tags != Covered(s.fixtures) then DeclaredTagsDiffer(s.id)
               else if s.suite == Interactive then InteractiveActions(s.id) else StaticActions(s.id);
      assert SpecFinding(x, s);
    }
  }

  lemma NoSpecFindings(specs: seq<Spec>, config: Option<Config>)
    ensures (forall x: Issue :: AboutOneSpec(x) ==> !Finding(x, specs, config)) <==>
              forall k :: 0 <= k < |specs| ==> SpecValid(specs[k])
  {
    forall k | 0 <= k < |specs| ensures (forall x :: !SpecFinding(x, specs[k])) <==> SpecValid(specs[k]) {
      NoSpecFinding(specs[k]);
    }
    if k :| 0 <= k < |specs| && !SpecValid(specs[k]) {
      var x :| SpecFinding(x, specs[k]);
      assert SomeSpecFinding(x, specs) && AboutOneSpec(x);
    }
  }

  lemma NoGroupFindings(specs: seq<Spec>, config: Option<Config>)
    ensures (forall x: Issue :: AboutGroups(x) ==> !Finding(x, specs, config)) <==>
              FamiliesConfined(specs) && OneSignaturePerFamily(specs) && SignaturesConfined(specs)
  {
    forall i, j | 0 <= i < |specs| && 0 <= j < |specs| && specs[i].suite == specs[j].suite
      ensures specs[i].family == specs[j].family && specs[i].split != specs[j].split ==>
                Finding(FamilyLeak(specs[i].suite, specs[i].family), specs, config)
      ensures specs[i].family == specs[j].family && specs[i].signature != specs[j].signature ==>
                Finding(ManySignatures(specs[i].suite, specs[i].family), specs, config)
      ensures specs[i].signature == specs[j].signature && specs[i].split != specs[j].split ==>
                Finding(SignatureLeak(specs[i].suite, specs[i].signature), specs, config)
    {
      assert FamilyKey(specs[i]) == (specs[i].suite, specs[i].family) && SplitOf(specs[i]) == specs[i].split;
    }
  }

  lemma CountFinding(specs: seq<Spec>, c: Config, suite: Suite, split: Split)
    requires (suite == Static || suite == Interactive) && !split.OtherSplit?
    ensures (exists e, f :: Finding(CountMismatch(suite, split, e, f), specs, Some(c))) <==>
              c.CountsFor(suite).Of(split) != CountOf(specs, suite, split)
  {
    var e, f := c.CountsFor(suite).Of(split), CountOf(specs, suite, split);
    assert Finding(CountMismatch(suite, split, e, f), specs, Some(c)) <==> e != f;
  }

  lemma NoCountFindings(specs: seq<Spec>, config: Option<Config>)
    ensures (forall x: Issue :: x.CountMismatch? ==> !Finding(x, specs, config)) <==>
              (config.Some? ==> CountsMatch(specs, config.value))
  {
    if config.Some? {
      var c := config.value;
      if forall x: Issue :: x.CountMismatch? ==> !Finding(x, specs, config) {
        forall k | 0 <= k < |SPLITS|
          ensures CountOf(specs, Static, SPLITS[k]) == c.static_.Of(SPLITS[k])
          ensures CountOf(specs, Interactive, SPLITS[k]) == c.interactive.Of(SPLITS[k])
        {
          RankOfSplit(k);
          CountFinding(specs, c, Static, SPLITS[k]);
          CountFinding(specs, c, Interactive, SPLITS[k]);
        }
      }
      if CountsMatch(specs, c) {
        forall x: Issue | x.CountMismatch? ensures !Finding(x, specs, config) {
          assert Rank(x.split) < |SPLITS| ==> SPLITS[Rank(x.split)] == x.split;
        }
      }
    }
  }

  /** The validator is silent exactly on valid benchmarks. */
  lemma SilentIffValid(specs: seq<Spec>, config: Option<Config>)
    ensures (forall x :: !Finding(x, specs, config)) <==> ValidBenchmark(specs, config)
    ensures ValidBenchmark(specs, config) <==> Reads(specs, config)
  {
    ValidMeans(specs, config);
    NoDuplicateIds(specs, config);
    NoDuplicateGraphs(specs, config);
    NoSpecFindings(specs, config);
    NoGroupFindings(specs, config);
    NoCountFindings(specs, config);
    assert forall x: Issue :: AboutDuplicates(x) || AboutOneSpec(x) || AboutGroups(x) || x.CountMismatch?;
  }
}
