/** The counter-based sampler: rejection sampling without bias, and a shuffle and
    a sample that reach every outcome by exactly one sequence of draws. */
module Sampler {
  import opened Collections
  import opened Options
  import opened Words

  // ---------- rejection sampling ----------

  /** 2 to the power 256. */
  function Space(): (r: nat)
    ensures r > 1
  {
    0x1_0000_0000_0000_0000_0000_0000_0000_0000_0000_0000_0000_0000_0000_0000_0000_0000
  }

  /** The number of candidates that are not rejected. */
  function Limit(space: nat, bound: nat): nat
    requires bound > 0
  {
    space - space % bound
  }

  /** Candidates below `limit` that fall on residue r. */
  ghost function Landing(limit: nat, bound: nat, r: nat): set<nat>
    requires bound > 0
  {
    set c: nat | c < limit && c % bound == r
  }

  /** One more block of `bound` candidates holds one more of each residue. */
  lemma LandingStep(q: nat, bound: nat, r: nat)
    requires r < bound
    ensures var low := q * bound;
            Landing(low + bound, bound, r) == Landing(low, bound, r) + {low + r} && low + r !in Landing(low, bound, r)
  {
    var low := q * bound;
    DivModUnique(low + r, bound, q, r);
    forall c | c in Landing(low + bound, bound, r) ensures c in Landing(low, bound, r) || c == low + r {
      if c >= low {
        DivModUnique(c, bound, q, c - low);
      }
    }
  }

  lemma {:induction false} LandingCount(n: nat, bound: nat, r: nat)
    requires r < bound
    ensures |Landing(n * bound, bound, r)| == n
  {
    if n == 0 {
      assert Landing(0, bound, r) == {};
    } else {
      LandingCount(n - 1, bound, r);
      LandingStep(n - 1, bound, r);
      assert n * bound == (n - 1) * bound + bound;
    }
  }

  lemma LimitIsMultiple(space: nat, bound: nat)
    requires 0 < bound <= space
    ensures Limit(space, bound) == (space / bound) * bound
    ensures 2 * Limit(space, bound) > space
  {
    assert space / bound >= 1;
    if 2 * bound <= space {
      assert space % bound < bound;
    } else {
      DivModUnique(space, bound, 1, space - bound);
    }
  }

  /** No residue is favoured: each is reached by exactly limit / bound of the
      candidates that are accepted. */
  lemma EveryResidueEqually(bound: nat, r: nat)
    requires r < bound <= Space()
    ensures |Landing(Limit(Space(), bound), bound, r)| == Limit(Space(), bound) / bound
  {
    var n := Space() / bound;
    LimitIsMultiple(Space(), bound);
    LandingCount(n, bound, r);
    DivModUnique(n * bound, bound, n, 0);
  }

  // ---------- shuffles and samples as functions of their draws ----------

  /** k different elements of s, in some order. */
  predicate Arrangement<T(==)>(s: seq<T>, t: seq<T>, k: nat) {
    |t| == k && Distinct(t) && forall i :: 0 <= i < |t| ==> t[i] in s
  }

  function Swap<T>(s: seq<T>, i: nat, j: nat): (r: seq<T>)
    requires i < |s| && j < |s|
    ensures |r| == |s|
  {
    s[i := s[j]][j := s[i]]
  }

  /** Draw k of a shuffle of n elements picks among the first n - k. */
  predicate Downward(n: nat, cs: seq<nat>) {
    (cs != [] ==> |cs| < n) && forall k :: 0 <= k < |cs| ==> cs[k] < n - k
  }

  /** Draw k of a sample from n elements picks among the last n - k. */
  predicate Upward(n: nat, cs: seq<nat>) {
    |cs| <= n && forall k :: 0 <= k < |cs| ==> cs[k] < n - k
  }

  /** Swap position n - 1 with the first draw, n - 2 with the second, and so on. */
  function ShuffleSwaps<T>(s: seq<T>, n: nat, cs: seq<nat>): (r: seq<T>)
    requires n <= |s| && Downward(n, cs)
    ensures |r| == |s| && forall k :: n <= k < |s| ==> r[k] == s[k]
    decreases |cs|
  {
    if cs == [] then s else ShuffleSwaps(Swap(s, n - 1, cs[0]), n - 1, cs[1..])
  }

  /** Swap position i with i plus the first draw, i + 1 with i + 1 plus the second, and so on. */
  function SampleSwaps<T>(s: seq<T>, i: nat, cs: seq<nat>): (r: seq<T>)
    requires i <= |s| && Upward(|s| - i, cs)
    ensures |r| == |s| && forall k :: 0 <= k < i ==> r[k] == s[k]
    decreases |cs|
  {
    if cs == [] then s else SampleSwaps(Swap(s, i, i + cs[0]), i + 1, cs[1..])
  }

  lemma {:induction false} ShuffleSnoc<T>(s: seq<T>, n: nat, cs: seq<nat>, c: nat)
    requires n <= |s| && Downward(n, cs) && |cs| + 1 < n && c < n - |cs|
    ensures Downward(n, cs + [c])
    ensures ShuffleSwaps(s, n, cs + [c]) == Swap(ShuffleSwaps(s, n, cs), n - 1 - |cs|, c)
    decreases |cs|
  {
    if cs != [] {
      assert (cs + [c])[1..] == cs[1..] + [c];
      ShuffleSnoc(Swap(s, n - 1, cs[0]), n - 1, cs[1..], c);
    }
  }

  lemma {:induction false} SampleSnoc<T>(s: seq<T>, i: nat, cs: seq<nat>, c: nat)
    requires i <= |s| && Upward(|s| - i, cs) && c < |s| - i - |cs|
    ensures Upward(|s| - i, cs + [c])
    ensures SampleSwaps(s, i, cs + [c]) == Swap(SampleSwaps(s, i, cs), i + |cs|, i + |cs| + c)
    decreases |cs|
  {
    if cs != [] {
      assert (cs + [c])[1..] == cs[1..] + [c];
      SampleSnoc(Swap(s, i, i + cs[0]), i + 1, cs[1..], c);
    }
  }

  lemma SwapKeepsElements<T>(s: seq<T>, i: nat, j: nat)
    requires i < |s| && j < |s|
    ensures forall x :: x in Swap(s, i, j) <==> x in s
    ensures Distinct(s) ==> Distinct(Swap(s, i, j))
  {
    var t := Swap(s, i, j);
    forall x | x in s ensures x in t {
      var k :| 0 <= k < |s| && s[k] == x;
      assert t[if k == i then j else if k == j then i else k] == x;
    }
  }

  /** On distinct values two different draw sequences never give the same shuffle. */
  lemma {:induction false} ShuffleInjective<T>(s: seq<T>, n: nat, cs: seq<nat>, ds: seq<nat>)
    requires Distinct(s) && n <= |s| && Downward(n, cs) && Downward(n, ds) && |cs| == |ds|
    requires ShuffleSwaps(s, n, cs) == ShuffleSwaps(s, n, ds)
    ensures cs == ds
    decreases |cs|
  {
    if cs != [] {
      assert ShuffleSwaps(s, n, cs)[n - 1] == s[cs[0]] && ShuffleSwaps(s, n, ds)[n - 1] == s[ds[0]];
      assert cs[0] == ds[0];
      SwapKeepsElements(s, n - 1, cs[0]);
      ShuffleInjective(Swap(s, n - 1, cs[0]), n - 1, cs[1..], ds[1..]);
      assert cs == [cs[0]] + cs[1..] && ds == [ds[0]] + ds[1..];
    }
  }

  /** The draws that produce t. */
  lemma {:induction false} ShuffleSurjective<T>(s: seq<T>, n: nat, t: seq<T>) returns (cs: seq<nat>)
    requires Distinct(s) && n <= |s| && Arrangement(s, t, |s|) && forall k :: n <= k < |s| ==> t[k] == s[k]
    ensures Downward(n, cs) && |cs| == (if n == 0 then 0 else n - 1) && ShuffleSwaps(s, n, cs) == t
    decreases n
  {
    if n == 0 {
      cs := [];
    } else {
      assert t[n - 1] in s;
      var j :| 0 <= j < |s| && s[j] == t[n - 1];
      if n == 1 {
        cs := [];
        assert ShuffleSwaps(s, n, cs) == t;
      } else {
        var u := Swap(s, n - 1, j);
        SwapKeepsElements(s, n - 1, j);
        var rest := ShuffleSurjective(u, n - 1, t);
        cs := [j] + rest;
        assert cs[1..] == rest;
      }
    }
  }

  /** Every arrangement of distinct values comes from exactly one sequence of draws. */
  lemma ShuffleBijective<T>(s: seq<T>, t: seq<T>) returns (cs: seq<nat>)
    requires Distinct(s) && Arrangement(s, t, |s|)
    ensures Downward(|s|, cs) && |cs| == (if s == [] then 0 else |s| - 1) && ShuffleSwaps(s, |s|, cs) == t
    ensures forall ds :: Downward(|s|, ds) && |ds| == |cs| && ShuffleSwaps(s, |s|, ds) == t ==> ds == cs
  {
    cs := ShuffleSurjective(s, |s|, t);
    forall ds | Downward(|s|, ds) && |ds| == |cs| && ShuffleSwaps(s, |s|, ds) == t ensures ds == cs {
      ShuffleInjective(s, |s|, ds, cs);
    }
  }

  lemma {:induction false} ShuffleArranges<T>(s: seq<T>, n: nat, cs: seq<nat>)
    requires Distinct(s) && n <= |s| && Downward(n, cs)
    ensures Arrangement(s, ShuffleSwaps(s, n, cs), |s|)
    decreases |cs|
  {
    if cs != [] {
      SwapKeepsElements(s, n - 1, cs[0]);
      ShuffleArranges(Swap(s, n - 1, cs[0]), n - 1, cs[1..]);
    }
  }

  lemma {:induction false} SampleInjective<T>(s: seq<T>, i: nat, cs: seq<nat>, ds: seq<nat>)
    requires Distinct(s) && i <= |s| && Upward(|s| - i, cs) && Upward(|s| - i, ds) && |cs| == |ds|
    requires SampleSwaps(s, i, cs)[..i + |cs|] == SampleSwaps(s, i, ds)[..i + |cs|]
    ensures cs == ds
    decreases |cs|
  {
    if cs != [] {
      var x, y := SampleSwaps(s, i, cs), SampleSwaps(s, i, ds);
      assert x[i] == x[..i + |cs|][i] == y[..i + |cs|][i] == y[i];
      assert x[i] == s[i + cs[0]] && y[i] == s[i + ds[0]];
      assert cs[0] == ds[0];
      SwapKeepsElements(s, i, i + cs[0]);
      SampleInjective(Swap(s, i, i + cs[0]), i + 1, cs[1..], ds[1..]);
      assert cs == [cs[0]] + cs[1..] && ds == [ds[0]] + ds[1..];
    }
  }

  lemma {:induction false} SampleSurjective<T>(s: seq<T>, i: nat, t: seq<T>) returns (cs: seq<nat>)
    requires Distinct(s) && i <= |t| <= |s| && Arrangement(s, t, |t|) && forall k :: 0 <= k < i ==> t[k] == s[k]
    ensures Upward(|s| - i, cs) && |cs| == |t| - i && SampleSwaps(s, i, cs)[..|t|] == t
    decreases |t| - i
  {
    if i == |t| {
      cs := [];
    } else {
      assert t[i] in s;
      var j :| 0 <= j < |s| && s[j] == t[i];
      SwapKeepsElements(s, i, j);
      var rest := SampleSurjective(Swap(s, i, j), i + 1, t);
      cs := [j - i] + rest;
      assert cs[1..] == rest;
    }
  }

  /** Every ordered selection of distinct values comes from exactly one sequence of draws. */
  lemma SampleBijective<T>(s: seq<T>, t: seq<T>) returns (cs: seq<nat>)
    requires Distinct(s) && |t| <= |s| && Arrangement(s, t, |t|)
    ensures Upward(|s|, cs) && |cs| == |t| && SampleSwaps(s, 0, cs)[..|t|] == t
    ensures forall ds :: Upward(|s|, ds) && |ds| == |t| && SampleSwaps(s, 0, ds)[..|t|] == t ==> ds == cs
  {
    cs := SampleSurjective(s, 0, t);
    forall ds | Upward(|s|, ds) && |ds| == |t| && SampleSwaps(s, 0, ds)[..|t|] == t ensures ds == cs {
      SampleInjective(s, 0, ds, cs);
    }
  }

  lemma {:induction false} SampleArranges<T>(s: seq<T>, i: nat, cs: seq<nat>)
    requires Distinct(s) && i <= |s| && Upward(|s| - i, cs)
    ensures Arrangement(s, SampleSwaps(s, i, cs), |s|)
    decreases |cs|
  {
    if cs != [] {
      SwapKeepsElements(s, i, i + cs[0]);
      SampleArranges(Swap(s, i, i + cs[0]), i + 1, cs[1..]);
    }
  }

  // ---------- the sampler ----------

  datatype Draw = Draw(bound: nat, result: nat)

  /** The draws of a shuffle or a sample: draw k is among n - k. */
  function Draws(n: nat, cs: seq<nat>): (r: seq<Draw>)
    requires |cs| <= n
    ensures |r| == |cs|
  {
    if cs == [] then [] else Draws(n, cs[..|cs| - 1]) + [Draw(n - |cs| + 1, cs[|cs| - 1])]
  }

  predicate Low(stream: nat -> nat, k: nat) {
    2 * stream(k) < Space()
  }

  ghost predicate LowFrom(stream: nat -> nat, n: nat) {
    exists k :: k >= n && Low(stream, k)
  }

  /** The digests never stay in the upper half of their range for good. */
  ghost predicate Productive(stream: nat -> nat) {
    && (forall n :: stream(n) < Space())
    && forall n :: LowFrom(stream, n)
  }

  /** From counter `from` on, the stream's first candidate below the bound's limit
      is the one before `to`, and the draw is that candidate reduced. */
  ghost predicate Gives(stream: nat -> nat, from: nat, d: Draw, to: nat) {
    && 0 < d.bound && from < to
    && (forall k :: from <= k < to - 1 ==> stream(k) >= Limit(Space(), d.bound))
    && stream(to - 1) < Limit(Space(), d.bound) && d.result == stream(to - 1) % d.bound
  }

  ghost predicate GivenAt(stream: nat -> nat, log: seq<Draw>, marks: seq<nat>, k: nat) {
    k < |log| && k < |marks| && Gives(stream, if k == 0 then 0 else marks[k - 1], log[k], marks[k])
  }

  /** The log is what the stream gives, draw after draw; `marks` are the counter
      values after each. */
  ghost predicate Produced(stream: nat -> nat, log: seq<Draw>, marks: seq<nat>) {
    |marks| == |log| && forall k :: 0 <= k < |log| ==> GivenAt(stream, log, marks, k)
  }

  lemma ProducedSnoc(stream: nat -> nat, log: seq<Draw>, marks: seq<nat>, d: Draw, to: nat)
    requires Produced(stream, log, marks) && Gives(stream, if marks == [] then 0 else marks[|marks| - 1], d, to)
    ensures Produced(stream, log + [d], marks + [to])
  {
    var more, after := log + [d], marks + [to];
    forall k | 0 <= k < |more| ensures GivenAt(stream, more, after, k) {
      assert k < |log| ==> GivenAt(stream, log, marks, k);
    }
  }

  /** The stream decides every draw: of two logs with the same bounds, and so of
      two runs of a program that asks by what it was given, both say the same. */
  lemma {:induction false} ProducedOnce(stream: nat -> nat, xs: seq<Draw>, ms: seq<nat>, ys: seq<Draw>, ns: seq<nat>, k: nat)
    requires Produced(stream, xs, ms) && Produced(stream, ys, ns) && |xs| == |ys| && k < |xs|
    requires forall k :: 0 <= k < |xs| ==> xs[k].bound == ys[k].bound
    ensures xs[k] == ys[k] && ms[k] == ns[k]
  {
    if k > 0 {
      ProducedOnce(stream, xs, ms, ys, ns, k - 1);
    }
    assert GivenAt(stream, xs, ms, k) && GivenAt(stream, ys, ns, k);
    GivesOnce(stream, if k == 0 then 0 else ms[k - 1], xs[k], ms[k], ys[k], ns[k]);
  }

  lemma GivesOnce(stream: nat -> nat, from: nat, d: Draw, m: nat, e: Draw, n: nat)
    requires Gives(stream, from, d, m) && Gives(stream, from, e, n) && d.bound == e.bound
    ensures d == e && m == n
  {
  }

  lemma DrawsSnoc(n: nat, cs: seq<nat>, c: nat)
    requires |cs| < n
    ensures Draws(n, cs + [c]) == Draws(n, cs) + [Draw(n - |cs|, c)]
  {
    assert (cs + [c])[..|cs|] == cs;
  }

  class StableSampler {
    /** The 256-bit digest of the key followed by each counter value. */
    const stream: nat -> nat
    var counter: nat
    ghost var drawn: seq<Draw>
    ghost var marks: seq<nat>

    ghost predicate Logged()
      reads this
    {
      Produced(stream, drawn, marks) && counter == if marks == [] then 0 else marks[|marks| - 1]
    }

    constructor (stream: nat -> nat)
      ensures counter == 0 && drawn == [] && this.stream == stream && Logged()
    {
      this.stream, counter, drawn, marks := stream, 0, [], [];
    }

    method Uint256() returns (r: nat)
      modifies this`counter
      ensures counter == old(counter) + 1 && r == stream(old(counter))
    {
      r := stream(counter);
      counter := counter + 1;
    }

    /** The first candidate under the limit, reduced; raises on a bound that is not positive. */
    method RandBelow(bound: int) returns (r: Option<nat>)
      requires Productive(stream) && bound <= Space()
      modifies this
      ensures r.None? <==> bound <= 0
      ensures r.None? ==> counter == old(counter) && drawn == old(drawn)
      ensures r.Some? ==>
                && old(counter) < counter && r.value == stream(counter - 1) % bound && r.value < bound
                && stream(counter - 1) < Limit(Space(), bound)
                && (forall k :: old(counter) <= k < counter - 1 ==> stream(k) >= Limit(Space(), bound))
                && drawn == old(drawn) + [Draw(bound, r.value)]
      ensures old(Logged()) ==> Logged()
    {
      if bound <= 0 {
        return None;
      }
      var limit := Limit(Space(), bound);
      LimitIsMultiple(Space(), bound);
      ghost var start := counter;
      assert LowFrom(stream, counter);
      ghost var stop :| stop >= counter && Low(stream, stop);
      while true
        invariant start <= counter <= stop
        invariant forall k :: start <= k < counter ==> stream(k) >= limit
        invariant drawn == old(drawn) && marks == old(marks)
        decreases stop - counter
      {
        var candidate := Uint256();
        if candidate < limit {
          if old(Logged()) {
            ProducedSnoc(stream, drawn, marks, Draw(bound, candidate % bound), counter);
          }
          drawn, marks := drawn + [Draw(bound, candidate % bound)], marks + [counter];
          return Some(candidate % bound);
        }
      }
    }

    /** Raises on an empty sequence. */
    method Choice<T>(values: seq<T>) returns (r: Option<T>)
      requires Productive(stream) && |values| <= Space()
      modifies this
      ensures r.None? <==> values == []
      ensures values == [] ==> counter == old(counter) && drawn == old(drawn)
      ensures r.Some? ==> exists k :: 0 <= k < |values| && r.value == values[k] && drawn == old(drawn) + [Draw(|values|, k)]
      ensures old(Logged()) ==> Logged()
    {
      if values == [] {
        return None;
      }
      var k := RandBelow(|values|);
      return Some(values[k.value]);
    }

    /** Fisher-Yates in place. */
    method Shuffle<T>(a: array<T>) returns (ghost cs: seq<nat>)
      requires Productive(stream) && a.Length <= Space()
      modifies this, a
      ensures Downward(a.Length, cs) && |cs| == (if a.Length == 0 then 0 else a.Length - 1)
      ensures a[..] == ShuffleSwaps(old(a[..]), a.Length, cs)
      ensures drawn == old(drawn) + Draws(a.Length, cs)
      ensures old(Logged()) ==> Logged()
    {
      cs := [];
      var index := a.Length - 1;
      while index > 0
        invariant a.Length == 0 ==> index == -1
        invariant a.Length > 0 ==> index >= 0 && |cs| == a.Length - 1 - index
        invariant Downward(a.Length, cs) && (a.Length == 0 ==> cs == [])
        invariant a[..] == ShuffleSwaps(old(a[..]), a.Length, cs)
        invariant drawn == old(drawn) + Draws(a.Length, cs)
        invariant old(Logged()) ==> Logged()
      {
        var other := RandBelow(index + 1);
        ShuffleSnoc(old(a[..]), a.Length, cs, other.value);
        DrawsSnoc(a.Length, cs, other.value);
        a[index], a[other.value] := a[other.value], a[index];
        cs := cs + [other.value];
        index := index - 1;
      }
    }

    /** The loop of sample over its pool. */
    method SelectFront<T>(pool: array<T>, count: nat) returns (ghost cs: seq<nat>)
      requires Productive(stream) && count <= pool.Length <= Space()
      modifies this, pool
      ensures Upward(pool.Length, cs) && |cs| == count
      ensures pool[..] == SampleSwaps(old(pool[..]), 0, cs)
      ensures drawn == old(drawn) + Draws(pool.Length, cs)
      ensures old(Logged()) ==> Logged()
    {
      cs := [];
      var index := 0;
      while index < count
        invariant 0 <= index == |cs| <= count && Upward(pool.Length, cs)
        invariant pool[..] == SampleSwaps(old(pool[..]), 0, cs)
        invariant drawn == old(drawn) + Draws(pool.Length, cs)
        invariant old(Logged()) ==> Logged()
      {
        var below := RandBelow(pool.Length - index);
        SampleSnoc(old(pool[..]), 0, cs, below.value);
        DrawsSnoc(pool.Length, cs, below.value);
        var other := index + below.value;
        pool[index], pool[other] := pool[other], pool[index];
        cs := cs + [below.value];
        index := index + 1;
      }
    }

    /** Raises when the count is outside the population. */
    method Sample<T>(values: seq<T>, count: int) returns (r: Option<seq<T>>, ghost cs: seq<nat>)
      requires Productive(stream) && |values| <= Space()
      modifies this
      ensures r.None? <==> count < 0 || count > |values|
      ensures r.None? ==> counter == old(counter) && drawn == old(drawn)
      ensures r.Some? ==> Upward(|values|, cs) && |cs| == count
                          && r.value == SampleSwaps(values, 0, cs)[..count]
                          && drawn == old(drawn) + Draws(|values|, cs)
      ensures old(Logged()) ==> Logged()
    {
      if count < 0 || count > |values| {
        return None, [];
      }
      var pool := new T[|values|](k requires 0 <= k < |values| => values[k]);
      assert pool[..] == values;
      cs := SelectFront(pool, count);
      r := Some(pool[..count]);
      assert pool[..count] == pool[..][..count];
    }
  }
}
