/** What the artifact inventory says about the tree. */
module InventoryMeaning {
  import opened Collections
  import opened Options
  import opened Words
  import opened Workspace
  import opened Routes
  import opened Inventory
  import ArchiveReading
  import Projection

  // ---------- what the recursive inventory holds ----------

  datatype Shape = AFile | ADirectory | ALink | ASpecial

  function ShapeOf(n: Node): Shape {
    match n
    case Regular(_, _) => AFile
    case Directory(_, _) => ADirectory
    case Symlink(_, _) => ALink
    case Special(_) => ASpecial
  }

  /** Where an entry of each shape is recorded. */
  predicate Notes(f: Found, k: Shape, p: Octets) {
    match k
    case AFile => p in f.files
    case ADirectory => p in f.directories
    case ALink => NotASymlink(p) in f.issues
    case ASpecial => NotRegular(p) in f.issues
  }

  lemma PlusNotes(a: Found, b: Found, k: Shape, p: Octets)
    ensures Notes(a.Plus(b), k, p) <==> Notes(a, k, p) || Notes(b, k, p)
  {
  }

  lemma HereNotes(n: Node, path: Octets, k: Shape, p: Octets)
    ensures Notes(Here(n, path), k, p) <==> ShapeOf(n) == k && p == path
  {
  }

  lemma {:induction false} OwnMeans(cs: seq<Child>, path: Octets, k: Shape, p: Octets)
    ensures Notes(Own(cs, path), k, p) <==> exists c :: c in cs && ShapeOf(c.node) == k && p == Join(path, c.name)
  {
    if cs != [] {
      var front, last := cs[..|cs| - 1], cs[|cs| - 1];
      OwnMeans(front, path, k, p);
      PlusNotes(Own(front, path), Here(last.node, Join(path, last.name)), k, p);
      HereNotes(last.node, Join(path, last.name), k, p);
      assert cs == front + [last];
    }
  }

  lemma {:induction false} BelowMeans(parent: Node, cs: seq<Child>, path: Octets, k: Shape, p: Octets)
    requires parent.Directory? && forall c :: c in cs ==> c in parent.children
    ensures Notes(Below(parent, cs, path), k, p) <==>
              exists c :: c in cs && c.node.Directory? && Notes(InventoryOf(c.node, Join(path, c.name)), k, p)
    decreases |cs|
  {
    if cs != [] {
      BelowMeans(parent, cs[1..], path, k, p);
      assert cs == [cs[0]] + cs[1..];
      BelowCons(parent, cs, path);
      PlusNotes(DeepOf(cs[0], path), Below(parent, cs[1..], path), k, p);
    }
  }

  predicate FoundUnder(c: Child, path: Octets, k: Shape, p: Octets) {
    || (ShapeOf(c.node) == k && p == Join(path, c.name))
    || (c.node.Directory? && Notes(InventoryOf(c.node, Join(path, c.name)), k, p))
  }

  /** A path is found among a directory's own entries or below one of them. */
  lemma FoundAt(n: Node, path: Octets, k: Shape, p: Octets)
    requires n.Directory?
    ensures Notes(InventoryOf(n, path), k, p) <==> exists c :: c in n.children && FoundUnder(c, path, k, p)
  {
    var cs := Sorted(n.children);
    SortedHasSameMembers(n.children);
    OwnMeans(cs, path, k, p);
    BelowMeans(n, cs, path, k, p);
    PlusNotes(Own(cs, path), Below(n, cs, path), k, p);
  }

  predicate EndsAt(n: Node, route: Route, k: Shape) {
    route != [] && NodeAt(n, route).Some? && ShapeOf(NodeAt(n, route).value) == k
  }

  lemma {:induction false} RouteIsFound(n: Node, path: Octets, route: Route, k: Shape)
    requires n.Directory? && EndsAt(n, route, k)
    ensures Notes(InventoryOf(n, path), k, Projection.Extend(path, route))
    decreases |route|
  {
    var p := Projection.Extend(path, route);
    var c := n.children[Find(n.children, route[0])];
    assert c in n.children && c.name == route[0];
    assert NodeAt(c.node, route[1..]) == NodeAt(n, route);
    assert p == Projection.Extend(Join(path, c.name), route[1..]);
    if route[1..] != [] {
      RouteIsFound(c.node, Join(path, c.name), route[1..], k);
    }
    assert FoundUnder(c, path, k, p);
    FoundAt(n, path, k, p);
  }

  lemma {:induction false} FoundIsRoute(n: Node, path: Octets, k: Shape, p: Octets) returns (route: Route)
    requires ValidTree(n) && n.Directory? && Notes(InventoryOf(n, path), k, p)
    ensures EndsAt(n, route, k) && Projection.Extend(path, route) == p
    decreases n
  {
    FoundAt(n, path, k, p);
    var c :| c in n.children && FoundUnder(c, path, k, p);
    var rest: Route := [];
    if !(ShapeOf(c.node) == k && p == Join(path, c.name)) {
      rest := FoundIsRoute(c.node, Join(path, c.name), k, p);
    }
    route := [c.name] + rest;
    assert route[1..] == rest;
    ChildAt(n, c, rest);
  }

  lemma FoundIffRoute(root: Node, k: Shape, p: Octets)
    requires ValidTree(root) && root.Directory?
    ensures Notes(InventoryOf(root, []), k, p) <==> exists route :: EndsAt(root, route, k) && Text(route) == p
  {
    if Notes(InventoryOf(root, []), k, p) {
      var route := FoundIsRoute(root, [], k, p);
      ArchiveReading.RouteIsValid(root, route);
      ArchiveReading.ExtendIsText(route);
    }
    if route :| EndsAt(root, route, k) && Text(route) == p {
      RouteIsFound(root, [], route, k);
      ArchiveReading.RouteIsValid(root, route);
      ArchiveReading.ExtendIsText(route);
    }
  }

  // ---------- each finding once ----------

  lemma DistinctTogether<T>(a: seq<T>, b: seq<T>)
    requires Distinct(a) && Distinct(b) && forall x :: x in a ==> x !in b
    ensures Distinct(a + b)
  {
    var s := a + b;
    forall i, j | 0 <= i < j < |s| ensures s[i] != s[j] {
      assert i < |a| <= j ==> s[i] in a && s[j] in b;
    }
  }

  lemma SortedNamesDistinct(cs: seq<Child>)
    requires DistinctNames(cs)
    ensures DistinctNames(Sorted(cs))
  {
    SortedIsAscending(cs);
    var s := Sorted(cs);
    forall i, j | 0 <= i < j < |s| ensures s[i].name != s[j].name {
      BeforeIsTotal(s[i].name, s[j].name);
    }
  }

  /** The children in order of their names, and what they make of the inventory. */
  lemma Parts(n: Node, path: Octets) returns (cs: seq<Child>)
    requires ValidTree(n) && n.Directory?
    ensures DistinctNames(cs) && forall c :: c in cs ==> c in n.children && ValidName(c.name)
    ensures InventoryOf(n, path).issues == Own(cs, path).issues + Below(n, cs, path).issues
  {
    cs := Sorted(n.children);
    SortedHasSameMembers(n.children);
    SortedNamesDistinct(n.children);
  }

  function PathOf(x: Issue): Octets {
    match x case NotASymlink(p) => p case NotRegular(p) => p case TooManyEntries => []
  }

  lemma ExtendInjective(path: Octets, r: Route, s: Route)
    requires Projection.ValidRoute(r) && Projection.ValidRoute(s) && Projection.Extend(path, r) == Projection.Extend(path, s)
    ensures r == s
  {
    if path == [] {
      Projection.PathInjective(r, s);
    } else {
      Projection.ExtendIsTail(path, r);
      Projection.ExtendIsTail(path, s);
      assert Projection.Tail(r) == (path + Projection.Tail(r))[|path|..] && Projection.Tail(s) == (path + Projection.Tail(s))[|path|..];
      Projection.TailInjective(r, s);
    }
  }

  lemma {:induction false} OwnIssue(cs: seq<Child>, path: Octets, x: Issue) returns (c: Child)
    requires x in Own(cs, path).issues
    ensures c in cs && x != TooManyEntries && PathOf(x) == Join(path, c.name)
  {
    var front, last := cs[..|cs| - 1], cs[|cs| - 1];
    assert cs == front + [last];
    if x in Own(front, path).issues {
      c := OwnIssue(front, path, x);
    } else {
      c := last;
    }
  }

  lemma {:induction false} BelowIssues(parent: Node, cs: seq<Child>, path: Octets, x: Issue) returns (k: nat)
    requires parent.Directory? && forall c :: c in cs ==> c in parent.children
    requires x in Below(parent, cs, path).issues
    ensures k < |cs| && cs[k].node.Directory? && x in InventoryOf(cs[k].node, Join(path, cs[k].name)).issues
    decreases |cs|
  {
    BelowCons(parent, cs, path);
    if x in DeepOf(cs[0], path).issues {
      k := 0;
    } else {
      k := BelowIssues(parent, cs[1..], path, x);
      k := k + 1;
    }
  }

  /** Issues below a directory are about paths of more than one name. */
  lemma {:induction false} BelowIssueRoute(n: Node, cs: seq<Child>, path: Octets, x: Issue) returns (k: nat, route: Route)
    requires ValidTree(n) && n.Directory? && forall c :: c in cs ==> c in n.children
    requires x in Below(n, cs, path).issues
    ensures k < |cs| && x != TooManyEntries && |route| > 1 && route[0] == cs[k].name
    ensures Projection.ValidRoute(route) && Projection.Extend(path, route) == PathOf(x)
    decreases n, 0
  {
    k := BelowIssues(n, cs, path, x);
    assert cs[k] in n.children;
    var rest := IssueRoute(cs[k].node, Join(path, cs[k].name), x);
    route := [cs[k].name] + rest;
    assert route[1..] == rest;
  }

  /** Every issue is about a path of valid names. */
  lemma {:induction false} IssueRoute(n: Node, path: Octets, x: Issue) returns (route: Route)
    requires ValidTree(n) && n.Directory? && x in InventoryOf(n, path).issues
    ensures x != TooManyEntries && route != [] && Projection.ValidRoute(route) && Projection.Extend(path, route) == PathOf(x)
    decreases n, 1
  {
    var cs := Parts(n, path);
    if x in Own(cs, path).issues {
      var c := OwnIssue(cs, path, x);
      route := [c.name];
      assert route[1..] == [];
    } else {
      var k;
      k, route := BelowIssueRoute(n, cs, path, x);
    }
  }

  lemma {:induction false} OwnIssuesDistinct(cs: seq<Child>, path: Octets)
    requires DistinctNames(cs) && forall c :: c in cs ==> ValidName(c.name)
    ensures Distinct(Own(cs, path).issues)
  {
    if cs != [] {
      var front, last := cs[..|cs| - 1], cs[|cs| - 1];
      assert cs == front + [last];
      OwnIssuesDistinct(front, path);
      forall x | x in Own(front, path).issues ensures PathOf(x) != Join(path, last.name) {
        var c := OwnIssue(front, path, x);
        if c.name != last.name {
          OneNameEach(path, c.name, last.name);
        }
      }
      DistinctTogether(Own(front, path).issues, Here(last.node, Join(path, last.name)).issues);
    }
  }

  lemma OneNameEach(path: Octets, a: Octets, b: Octets)
    requires ValidName(a) && ValidName(b) && a != b
    ensures Join(path, a) != Join(path, b)
  {
    if path != [] {
      assert a == (path + [SLASH] + a)[|path| + 1..] && b == (path + [SLASH] + b)[|path| + 1..];
    }
  }

  /** An issue below the first child is not below the others. */
  lemma NotBelowOthers(n: Node, cs: seq<Child>, path: Octets, x: Issue)
    requires ValidTree(n) && n.Directory? && DistinctNames(cs) && forall c :: c in cs ==> c in n.children
    requires cs != [] && cs[0].node.Directory? && x in InventoryOf(cs[0].node, Join(path, cs[0].name)).issues
    ensures x !in Below(n, cs[1..], path).issues
  {
    if x in Below(n, cs[1..], path).issues {
      assert cs[0] in n.children;
      var rest := IssueRoute(cs[0].node, Join(path, cs[0].name), x);
      var r := [cs[0].name] + rest;
      assert r[1..] == rest;
      var k, s := BelowIssueRoute(n, cs[1..], path, x);
      ExtendInjective(path, r, s);
      assert false;
    }
  }

  /** Nor is an issue about an entry of the directory itself below any of them. */
  lemma NotOwnAndBelow(n: Node, cs: seq<Child>, path: Octets, x: Issue)
    requires ValidTree(n) && n.Directory? && forall c :: c in cs ==> c in n.children && ValidName(c.name)
    requires x in Own(cs, path).issues
    ensures x !in Below(n, cs, path).issues
  {
    if x in Below(n, cs, path).issues {
      var c := OwnIssue(cs, path, x);
      var k, r := BelowIssueRoute(n, cs, path, x);
      assert [c.name][1..] == [];
      ExtendInjective(path, r, [c.name]);
      assert false;
    }
  }

  lemma {:induction false} BelowIssuesDistinct(n: Node, cs: seq<Child>, path: Octets)
    requires ValidTree(n) && n.Directory? && DistinctNames(cs) && forall c :: c in cs ==> c in n.children
    ensures Distinct(Below(n, cs, path).issues)
    decreases n, 0, |cs|
  {
    if cs != [] {
      var c := cs[0];
      assert c in n.children;
      BelowCons(n, cs, path);
      BelowIssuesDistinct(n, cs[1..], path);
      if c.node.Directory? {
        IssuesDistinct(c.node, Join(path, c.name));
        forall x | x in DeepOf(c, path).issues ensures x !in Below(n, cs[1..], path).issues {
          NotBelowOthers(n, cs, path, x);
        }
        DistinctTogether(DeepOf(c, path).issues, Below(n, cs[1..], path).issues);
      }
    }
  }

  lemma {:induction false} IssuesDistinct(n: Node, path: Octets)
    requires ValidTree(n) && n.Directory?
    ensures Distinct(InventoryOf(n, path).issues)
    decreases n, 1, 0
  {
    var cs := Parts(n, path);
    OwnIssuesDistinct(cs, path);
    BelowIssuesDistinct(n, cs, path);
    forall x | x in Own(cs, path).issues ensures x !in Below(n, cs, path).issues {
      NotOwnAndBelow(n, cs, path, x);
    }
    DistinctTogether(Own(cs, path).issues, Below(n, cs, path).issues);
  }

  // ---------- the tree ----------

  ghost predicate ReachesFile(root: Node, p: Octets) {
    exists route :: Text(route) == p && match NodeAt(root, route) { case Some(Regular(_, _)) => true case _ => false }
  }

  ghost predicate ReachesDirectory(root: Node, p: Octets) {
    exists route :: Text(route) == p && route != []
                    && match NodeAt(root, route) { case Some(Directory(_, _)) => true case _ => false }
  }

  ghost predicate ReachesLink(root: Node, p: Octets) {
    exists route :: Text(route) == p && match NodeAt(root, route) { case Some(Symlink(_, _)) => true case _ => false }
  }

  ghost predicate ReachesSpecial(root: Node, p: Octets) {
    exists route :: Text(route) == p && match NodeAt(root, route) { case Some(Special(_)) => true case _ => false }
  }

  /** The inventory is exactly the regular files and the directories below the
      root, with one issue for every symbolic link and one for every other node
      that is neither, and no issue besides. */
  lemma InventoryIsTheTree(root: Node)
    requires ValidTree(root) && root.Directory?
    ensures var f := InventoryOf(root, []);
      && (forall p :: p in f.files <==> ReachesFile(root, p))
      && (forall p :: p in f.directories <==> ReachesDirectory(root, p))
      && (forall p :: NotASymlink(p) in f.issues <==> ReachesLink(root, p))
      && (forall p :: NotRegular(p) in f.issues <==> ReachesSpecial(root, p))
      && TooManyEntries !in f.issues
      && forall i, j :: 0 <= i < j < |f.issues| ==> f.issues[i] != f.issues[j]
  {
    var f := InventoryOf(root, []);
    forall p
      ensures p in f.files <==> ReachesFile(root, p)
      ensures p in f.directories <==> ReachesDirectory(root, p)
      ensures NotASymlink(p) in f.issues <==> ReachesLink(root, p)
      ensures NotRegular(p) in f.issues <==> ReachesSpecial(root, p)
    {
      ReachesMeans(root, p);
      FoundIffRoute(root, AFile, p);
      FoundIffRoute(root, ADirectory, p);
      FoundIffRoute(root, ALink, p);
      FoundIffRoute(root, ASpecial, p);
    }
    IssuesDistinct(root, []);
    if TooManyEntries in f.issues {
      var route := IssueRoute(root, [], TooManyEntries);
      assert false;
    }
  }

  lemma ReachesMeans(root: Node, p: Octets)
    requires root.Directory?
    ensures ReachesFile(root, p) <==> exists route :: EndsAt(root, route, AFile) && Text(route) == p
    ensures ReachesDirectory(root, p) <==> exists route :: EndsAt(root, route, ADirectory) && Text(route) == p
    ensures ReachesLink(root, p) <==> exists route :: EndsAt(root, route, ALink) && Text(route) == p
    ensures ReachesSpecial(root, p) <==> exists route :: EndsAt(root, route, ASpecial) && Text(route) == p
  {
    forall route: Route
      ensures EndsAt(root, route, AFile) <==> match NodeAt(root, route) { case Some(Regular(_, _)) => true case _ => false }
      ensures EndsAt(root, route, ADirectory) <==>
                route != [] && match NodeAt(root, route) { case Some(Directory(_, _)) => true case _ => false }
      ensures EndsAt(root, route, ALink) <==> match NodeAt(root, route) { case Some(Symlink(_, _)) => true case _ => false }
      ensures EndsAt(root, route, ASpecial) <==> match NodeAt(root, route) { case Some(Special(_)) => true case _ => false }
    {
    }
  }

  // ---------- how many ----------

  /** The entries of all directories from this node down. */
  function EntriesBelow(n: Node): nat {
    match n
    case Directory(_, children) => EntriesOf(children)
    case _ => 0
  }

  function EntriesOf(cs: seq<Child>): nat {
    if cs == [] then 0 else 1 + EntriesBelow(cs[0].node) + EntriesOf(cs[1..])
  }

  lemma {:induction false} EntriesOfInsert(c: Child, cs: seq<Child>)
    ensures EntriesOf(Insert(c, cs)) == 1 + EntriesBelow(c.node) + EntriesOf(cs)
  {
    if cs == [] || Before(c.name, cs[0].name) {
      assert ([c] + cs)[1..] == cs;
    } else {
      EntriesOfInsert(c, cs[1..]);
      assert ([cs[0]] + Insert(c, cs[1..]))[1..] == Insert(c, cs[1..]);
    }
  }

  lemma {:induction false} EntriesOfSorted(cs: seq<Child>)
    ensures EntriesOf(Sorted(cs)) == EntriesOf(cs)
  {
    if cs != [] {
      EntriesOfSorted(cs[1..]);
      EntriesOfInsert(cs[0], Sorted(cs[1..]));
    }
  }

  lemma {:induction false} BelowCounts(parent: Node, cs: seq<Child>, path: Octets)
    requires parent.Directory? && forall c :: c in cs ==> c in parent.children
    ensures |cs| + Below(parent, cs, path).entries == EntriesOf(cs)
    decreases parent, 0, |cs|
  {
    if cs != [] {
      var c := cs[0];
      assert c in parent.children;
      if c.node.Directory? {
        EntriesAreCounted(c.node, Join(path, c.name));
      }
      BelowCounts(parent, cs[1..], path);
      BelowCons(parent, cs, path);
    }
  }

  /** Every entry of every directory is counted once. */
  lemma {:induction false} EntriesAreCounted(n: Node, path: Octets)
    requires n.Directory?
    ensures InventoryOf(n, path).entries == EntriesBelow(n)
    decreases n, 1, 0
  {
    var cs := Sorted(n.children);
    SortedHasSameMembers(n.children);
    EntriesOfSorted(n.children);
    OwnCounts(cs, path);
    BelowCounts(n, cs, path);
  }
}
