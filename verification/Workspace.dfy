/** The workspace tree and the list of archive entries it stands for. */
module Workspace {
  import opened Words

  type Octets = seq<Byte>

  const SLASH: Byte := 47
  const INPUT: Octets := [105, 110, 112, 117, 116]  // "input"

  /** `children` are in the order the directory happens to enumerate them. */
  datatype Node =
    | Directory(mode: nat, children: seq<Child>)
    | Regular(mode: nat, content: Octets)
    | Symlink(mode: nat, target: Octets)
    | Special(mode: nat)

  datatype Child = Child(name: Octets, node: Node)

  predicate ValidName(name: Octets) {
    name != [] && forall i :: 0 <= i < |name| ==> name[i] != 0 && name[i] != SLASH
  }

  predicate DistinctNames(cs: seq<Child>) {
    forall i, j :: 0 <= i < j < |cs| ==> cs[i].name != cs[j].name
  }

  predicate ValidTree(n: Node) {
    n.Directory? ==>
      && DistinctNames(n.children)
      && (forall i :: 0 <= i < |n.children| ==> ValidName(n.children[i].name))
      && (forall i :: 0 <= i < |n.children| ==> ValidTree(n.children[i].node))
  }

  // ---------- strcmp order ----------

  predicate Before(a: Octets, b: Octets) {
    if a == [] then b != []
    else b != [] && (a[0] < b[0] || (a[0] == b[0] && Before(a[1..], b[1..])))
  }

  /** The octets decide at the first position where they differ; a name comes
      before its extensions. */
  predicate DecidesAt(a: Octets, b: Octets, k: nat) {
    k <= |a| && k < |b| && a[..k] == b[..k] && (k == |a| || a[k] < b[k])
  }

  lemma {:induction false} BeforeMeans(a: Octets, b: Octets)
    ensures Before(a, b) <==> exists k :: DecidesAt(a, b, k)
  {
    if a == [] {
      assert b != [] ==> DecidesAt(a, b, 0);
    } else if b != [] {
      BeforeMeans(a[1..], b[1..]);
      assert a == [a[0]] + a[1..] && b == [b[0]] + b[1..];
      if k: nat :| DecidesAt(a, b, k) {
        if k > 0 {
          assert a[..k][0] == b[..k][0] && a[..k][1..] == a[1..][..k - 1] && b[..k][1..] == b[1..][..k - 1];
          assert DecidesAt(a[1..], b[1..], k - 1);
        } else {
          assert a[0] < b[0];
        }
      }
      if a[0] < b[0] {
        assert DecidesAt(a, b, 0);
      } else if a[0] == b[0] && Before(a[1..], b[1..]) {
        var k: nat :| DecidesAt(a[1..], b[1..], k);
        assert a[..k + 1] == [a[0]] + a[1..][..k] && b[..k + 1] == [b[0]] + b[1..][..k];
        assert DecidesAt(a, b, k + 1);
      }
    }
  }

  lemma {:induction false} BeforeIsTotal(a: Octets, b: Octets)
    ensures a == b || Before(a, b) || Before(b, a)
    ensures !(Before(a, b) && Before(b, a)) && !Before(a, a)
  {
    if a != [] && b != [] && a[0] == b[0] {
      BeforeIsTotal(a[1..], b[1..]);
      assert a == [a[0]] + a[1..] && b == [b[0]] + b[1..];
    }
    if a != [] {
      BeforeIsTotal(a[1..], a[1..]);
    }
  }

  lemma {:induction false} BeforeIsTransitive(a: Octets, b: Octets, c: Octets)
    requires Before(a, b) && Before(b, c)
    ensures Before(a, c)
  {
    if a != [] && a[0] == b[0] == c[0] {
      BeforeIsTransitive(a[1..], b[1..], c[1..]);
    }
  }

  predicate Ascending(cs: seq<Child>) {
    forall i, j :: 0 <= i < j < |cs| ==> Before(cs[i].name, cs[j].name)
  }

  function Insert(c: Child, cs: seq<Child>): (r: seq<Child>)
    ensures multiset(r) == multiset(cs) + multiset{c}
  {
    if cs == [] || Before(c.name, cs[0].name) then [c] + cs
    else
      assert cs == [cs[0]] + cs[1..];
      [cs[0]] + Insert(c, cs[1..])
  }

  /** qsort with compare_names. */
  function Sorted(cs: seq<Child>): (r: seq<Child>)
    ensures multiset(r) == multiset(cs)
  {
    if cs == [] then []
    else
      assert cs == [cs[0]] + cs[1..];
      Insert(cs[0], Sorted(cs[1..]))
  }

  lemma SortedHasSameMembers(cs: seq<Child>)
    ensures forall c :: c in Sorted(cs) <==> c in cs
  {
    forall c ensures c in Sorted(cs) <==> c in cs {
      assert c in multiset(Sorted(cs)) <==> c in multiset(cs);
    }
  }

  lemma {:induction false} InsertKeepsAscending(c: Child, cs: seq<Child>)
    requires Ascending(cs) && forall d :: d in cs ==> d.name != c.name
    ensures Ascending(Insert(c, cs))
  {
    if cs != [] {
      BeforeIsTotal(c.name, cs[0].name);
      if Before(c.name, cs[0].name) {
        forall j | 0 < j < |cs| ensures Before(c.name, cs[j].name) {
          BeforeIsTransitive(c.name, cs[0].name, cs[j].name);
        }
      } else {
        var rest := Insert(c, cs[1..]);
        InsertKeepsAscending(c, cs[1..]);
        forall j | 0 <= j < |rest| ensures Before(cs[0].name, rest[j].name) {
          assert rest[j] in multiset(rest);
          assert rest[j] == c || rest[j] in cs[1..];
        }
      }
    }
  }

  lemma {:induction false} SortedIsAscending(cs: seq<Child>)
    requires DistinctNames(cs)
    ensures Ascending(Sorted(cs)) && multiset(Sorted(cs)) == multiset(cs)
  {
    if cs != [] {
      SortedIsAscending(cs[1..]);
      SortedHasSameMembers(cs[1..]);
      forall d | d in Sorted(cs[1..]) ensures d.name != cs[0].name {
        var k :| 0 <= k < |cs[1..]| && cs[1..][k] == d;
        assert cs[k + 1] == d;
      }
      InsertKeepsAscending(cs[0], Sorted(cs[1..]));
    }
  }

  // ---------- paths and entries ----------

  function Join(parent: Octets, name: Octets): Octets {
    if parent == [] then name else parent + [SLASH] + name
  }

  datatype Kind = DirectoryKind | RegularKind | SymlinkKind | SpecialKind

  /** What one archive entry records; `mode` is already masked with 07777. */
  datatype Item = Item(kind: Kind, mode: nat, payload: Octets)

  datatype Entry = Entry(path: Octets, item: Item, depth: nat)

  function ItemOf(n: Node): (r: Item)
    ensures r.mode < 4096
  {
    match n
    case Directory(mode, _) => Item(DirectoryKind, mode % 4096, [])
    case Regular(mode, content) => Item(RegularKind, mode % 4096, content)
    case Symlink(mode, target) => Item(SymlinkKind, mode % 4096, target)
    case Special(mode) => Item(SpecialKind, mode % 4096, [])
  }

  predicate Skipped(name: Octets, depth: nat) {
    depth == 0 && name == INPUT
  }

  /** Pre-order, each directory's names in ascending order, without the
      top-level input subtree. */
  function Listing(n: Node, path: Octets, depth: nat): seq<Entry>
    decreases n, 1, 0
  {
    [Entry(path, ItemOf(n), depth)] +
    if n.Directory? then
      SortedHasSameMembers(n.children);
      ListingOf(n, Sorted(n.children), path, depth)
    else []
  }

  function ListingOf(parent: Node, cs: seq<Child>, path: Octets, depth: nat): seq<Entry>
    requires parent.Directory? && forall c :: c in cs ==> c in parent.children
    decreases parent, 0, |cs|
  {
    if cs == [] then []
    else
      assert cs[0] in parent.children;
      (if Skipped(cs[0].name, depth) then [] else Listing(cs[0].node, Join(path, cs[0].name), depth + 1))
      + ListingOf(parent, cs[1..], path, depth)
  }
}
