/** The source-arm lineage check of a campaign registry: it is silent exactly
    when the links admit a rank that strictly decreases towards every source. */
module Lineage {
  import opened Options
  import opened Words

  /** Identifiers are only compared, so numbers stand for them. */
  type Id = nat

  datatype Arm = Arm(id: Id, source: Option<Id>)

  datatype LineageIssue = UnknownSource(arm: Id, source: Id) | SelfSource(arm: Id) | Cycle(arm: Id)

  /** The n-th source of an arm; None once the chain has ended. */
  function Ancestor(arms: map<Id, Arm>, a: Id, n: nat): Option<Id> {
    if n == 0 then Some(a)
    else
      var before := Ancestor(arms, a, n - 1);
      if before.Some? && before.value in arms then arms[before.value].source else None
  }

  predicate Inside(arms: map<Id, Arm>, current: Option<Id>) {
    current.Some? && current.value in arms
  }

  /** The chain from a leaves the declared arms after exactly n links. */
  predicate LeavesAt(arms: map<Id, Arm>, a: Id, n: nat) {
    !Inside(arms, Ancestor(arms, a, n)) && forall k :: 0 <= k < n ==> Inside(arms, Ancestor(arms, a, k))
  }

  ghost predicate Leaves(arms: map<Id, Arm>, a: Id) {
    exists n :: LeavesAt(arms, a, n)
  }

  predicate SourceKnown(arms: map<Id, Arm>, a: Id)
    requires a in arms
  {
    arms[a].source.Some? ==> arms[a].source.value in arms
  }

  predicate Ranks(arms: map<Id, Arm>, rank: map<Id, nat>) {
    && rank.Keys == arms.Keys
    && forall a :: a in arms ==>
         SourceKnown(arms, a) && (arms[a].source.Some? ==> rank[arms[a].source.value] < rank[a])
  }

  ghost predicate Rankable(arms: map<Id, Arm>) {
    exists rank :: Ranks(arms, rank)
  }

  // ---------- ranks and chains ----------

  lemma {:induction false} AncestorFromSource(arms: map<Id, Arm>, a: Id, n: nat)
    requires a in arms && arms[a].source.Some?
    ensures Ancestor(arms, a, n + 1) == Ancestor(arms, arms[a].source.value, n)
  {
    if n == 0 {
      assert Ancestor(arms, a, 0) == Some(a);
    } else {
      AncestorFromSource(arms, a, n - 1);
    }
  }

  lemma LeavesOnce(arms: map<Id, Arm>, a: Id, m: nat, n: nat)
    requires LeavesAt(arms, a, m) && LeavesAt(arms, a, n)
    ensures m == n
  {
  }

  /** Chains that all leave, over known sources, are a rank. */
  lemma ChainsAreARank(arms: map<Id, Arm>)
    requires forall a :: a in arms ==> SourceKnown(arms, a) && Leaves(arms, a)
    ensures Rankable(arms)
  {
    var rank := map a | a in arms :: Steps(arms, a);
    forall a | a in arms && arms[a].source.Some? ensures rank[arms[a].source.value] < rank[a] {
      var s := arms[a].source.value;
      var n := rank[a];
      assert LeavesAt(arms, a, n) && Inside(arms, Ancestor(arms, a, 0)) && n > 0;
      forall k | 0 <= k < n ensures Ancestor(arms, s, k) == Ancestor(arms, a, k + 1) {
        AncestorFromSource(arms, a, k);
      }
      assert LeavesAt(arms, s, n - 1);
      LeavesOnce(arms, s, n - 1, rank[s]);
    }
    assert Ranks(arms, rank);
  }

  ghost function Steps(arms: map<Id, Arm>, a: Id): (n: nat)
    requires Leaves(arms, a)
    ensures LeavesAt(arms, a, n)
  {
    var n :| LeavesAt(arms, a, n);
    n
  }

  lemma {:induction false} RankedChainLeaves(arms: map<Id, Arm>, rank: map<Id, nat>, a: Id)
    requires Ranks(arms, rank) && a in arms
    ensures Leaves(arms, a)
    decreases rank[a]
  {
    if arms[a].source.None? {
      assert Ancestor(arms, a, 0) == Some(a) && Ancestor(arms, a, 1) == None;
      assert LeavesAt(arms, a, 1);
    } else {
      var s := arms[a].source.value;
      RankedChainLeaves(arms, rank, s);
      var n: nat :| LeavesAt(arms, s, n);
      forall k | 0 <= k <= n ensures Ancestor(arms, a, k + 1) == Ancestor(arms, s, k) {
        AncestorFromSource(arms, a, k);
      }
      forall k | 0 <= k < n + 1 ensures Inside(arms, Ancestor(arms, a, k)) {
        assert k > 0 ==> Ancestor(arms, a, (k - 1) + 1) == Ancestor(arms, s, k - 1);
      }
      assert Ancestor(arms, a, n + 1) == Ancestor(arms, s, n);
      assert LeavesAt(arms, a, n + 1);
    }
  }

  /** A chain that comes back to an arm it has passed never leaves. */
  lemma {:induction false} ReturningNeverLeaves(arms: map<Id, Arm>, a: Id, seen: set<Id>, n: nat)
    requires a in seen && seen <= arms.Keys
    requires forall x :: x in seen ==> arms[x].source.Some? && arms[x].source.value in seen
    ensures Ancestor(arms, a, n).Some? && Ancestor(arms, a, n).value in seen
  {
    if n > 0 {
      ReturningNeverLeaves(arms, a, seen, n - 1);
    }
  }

  // ---------- the check ----------

  /** Follows one chain until it leaves the declared arms or repeats itself. */
  method WalkLineage(arms: map<Id, Arm>, a: Id) returns (cycle: bool)
    requires a in arms
    ensures cycle <==> !Leaves(arms, a)
  {
    var seen: set<Id> := {};
    var current := Some(a);
    ghost var n := 0;
    while current.Some? && current.value in arms
      invariant current == Ancestor(arms, a, n)
      invariant forall k :: 0 <= k < n ==> Inside(arms, Ancestor(arms, a, k))
      invariant seen <= arms.Keys && (if n == 0 then seen == {} else a in seen)
      invariant forall x :: x in seen ==>
                  arms[x].source == current || (arms[x].source.Some? && arms[x].source.value in seen)
      decreases |arms.Keys - seen|
    {
      if current.value in seen {
        forall m ensures !LeavesAt(arms, a, m) {
          ReturningNeverLeaves(arms, a, seen, m);
        }
        return true;
      }
      Shrinks(arms.Keys, seen, current.value);
      seen := seen + {current.value};
      current := arms[current.value].source;
      n := n + 1;
    }
    assert LeavesAt(arms, a, n);
    return false;
  }

  lemma Shrinks(all: set<Id>, seen: set<Id>, x: Id)
    requires x in all && x !in seen
    ensures |all - (seen + {x})| < |all - seen|
  {
    assert all - seen == (all - (seen + {x})) + {x};
  }

  method ArmLineageErrors(arms: map<Id, Arm>) returns (errors: seq<LineageIssue>)
    ensures errors == [] <==> Rankable(arms)
  {
    errors := [];
    var left := arms.Keys;
    while left != {}
      invariant left <= arms.Keys
      invariant errors == [] <==> forall a :: a in arms.Keys - left ==> SourceKnown(arms, a) && arms[a].source != Some(a)
      decreases |left|
    {
      var a :| a in left;
      left := left - {a};
      var source := arms[a].source;
      if source.Some? && source.value !in arms {
        errors := errors + [UnknownSource(a, source.value)];
      }
      if source == Some(a) {
        errors := errors + [SelfSource(a)];
      }
    }
    ghost var direct := errors;
    left := arms.Keys;
    while left != {}
      invariant left <= arms.Keys
      invariant errors == [] <==> direct == [] && forall a :: a in arms.Keys - left ==> Leaves(arms, a)
      decreases |left|
    {
      var a :| a in left;
      left := left - {a};
      var cycle := WalkLineage(arms, a);
      if cycle {
        errors := errors + [Cycle(a)];
      }
    }
    SilentIffRankable(arms);
  }

  lemma SilentIffRankable(arms: map<Id, Arm>)
    ensures Rankable(arms) <==>
              forall a :: a in arms ==> SourceKnown(arms, a) && arms[a].source != Some(a) && Leaves(arms, a)
  {
    if Rankable(arms) {
      var rank :| Ranks(arms, rank);
      forall a | a in arms ensures Leaves(arms, a) {
        RankedChainLeaves(arms, rank, a);
      }
    }
    if forall a :: a in arms ==> SourceKnown(arms, a) && arms[a].source != Some(a) && Leaves(arms, a) {
      ChainsAreARank(arms);
    }
  }
}
