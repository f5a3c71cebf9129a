/** What an archive says about the tree: equal archives are equal views of the
    workspace outside `input`, whatever order directories enumerate in. */
module Projection {
  import opened Options
  import opened Words
  import opened Workspace
  import opened Routes
  import Archive

  /** Following a route of names from a node. */
  function Lookup(n: Node, route: Route): (r: Option<Item>)
    ensures r.Some? ==> r.value.mode < 4096
    decreases |route|
  {
    if route == [] then Some(ItemOf(n))
    else if !n.Directory? then None
    else
      var k := Find(n.children, route[0]);
      if k < |n.children| then Lookup(n.children[k].node, route[1..]) else None
  }

  predicate OutsideInput(route: Route) {
    route != [] ==> route[0] != INPUT
  }

  predicate Visible(route: Route, depth: nat) {
    depth == 0 ==> OutsideInput(route)
  }

  ghost predicate SameFrom(a: Node, b: Node, depth: nat) {
    forall route :: Visible(route, depth) ==> Lookup(a, route) == Lookup(b, route)
  }

  /** The two workspaces have the same paths, types, modes and payloads outside `input`. */
  ghost predicate SameProjection(a: Node, b: Node) {
    SameFrom(a, b, 0)
  }

  // ---------- routes and joined paths ----------

  predicate ValidRoute(route: Route) {
    forall i :: 0 <= i < |route| ==> ValidName(route[i])
  }

  function Extend(path: Octets, route: Route): Octets
    decreases |route|
  {
    if route == [] then path else Extend(Join(path, route[0]), route[1..])
  }

  function Tail(route: Route): Octets {
    if route == [] then [] else [SLASH] + route[0] + Tail(route[1..])
  }

  lemma {:induction false} ExtendIsTail(path: Octets, route: Route)
    requires path != []
    ensures Extend(path, route) == path + Tail(route)
    decreases |route|
  {
    if route == [] {
      assert path + [] == path;
    } else {
      ExtendIsTail(Join(path, route[0]), route[1..]);
      assert path + [SLASH] + route[0] + Tail(route[1..]) == path + ([SLASH] + route[0] + Tail(route[1..]));
    }
  }

  function FirstSlash(s: Octets): nat {
    if s == [] || s[0] == SLASH then 0 else 1 + FirstSlash(s[1..])
  }

  lemma {:induction false} FirstSlashEndsName(a: Octets, x: Octets)
    requires forall i :: 0 <= i < |a| ==> a[i] != SLASH
    requires x == [] || x[0] == SLASH
    ensures FirstSlash(a + x) == |a|
  {
    if a == [] {
      assert a + x == x;
    } else {
      assert (a + x)[1..] == a[1..] + x;
      FirstSlashEndsName(a[1..], x);
    }
  }

  lemma NameEndsAtSlash(a: Octets, x: Octets, b: Octets, y: Octets)
    requires ValidName(a) && ValidName(b) && a + x == b + y
    requires (x == [] || x[0] == SLASH) && (y == [] || y[0] == SLASH)
    ensures a == b && x == y
  {
    FirstSlashEndsName(a, x);
    FirstSlashEndsName(b, y);
    assert a == (a + x)[..|a|] && b == (b + y)[..|b|];
    assert x == (a + x)[|a|..] && y == (b + y)[|b|..];
  }

  lemma {:induction false} TailInjective(r: Route, s: Route)
    requires ValidRoute(r) && ValidRoute(s) && Tail(r) == Tail(s)
    ensures r == s
    decreases |r|
  {
    if r != [] && s != [] {
      assert Tail(r)[1..] == r[0] + Tail(r[1..]) && Tail(s)[1..] == s[0] + Tail(s[1..]);
      NameEndsAtSlash(r[0], Tail(r[1..]), s[0], Tail(s[1..]));
      TailInjective(r[1..], s[1..]);
      assert r == [r[0]] + r[1..] && s == [s[0]] + s[1..];
    }
  }

  /** A joined path determines its components. */
  lemma PathInjective(r: Route, s: Route)
    requires ValidRoute(r) && ValidRoute(s) && Extend([], r) == Extend([], s)
    ensures r == s
  {
    if r != [] {
      ExtendIsTail(r[0], r[1..]);
    }
    if s != [] {
      ExtendIsTail(s[0], s[1..]);
    }
    if r != [] && s != [] {
      NameEndsAtSlash(r[0], Tail(r[1..]), s[0], Tail(s[1..]));
      TailInjective(r[1..], s[1..]);
      assert r == [r[0]] + r[1..] && s == [s[0]] + s[1..];
    }
  }

  // ---------- the listing and the view say the same ----------

  lemma {:induction false} InListingOf(parent: Node, cs: seq<Child>, path: Octets, depth: nat, j: nat, e: Entry)
    requires parent.Directory? && forall c :: c in cs ==> c in parent.children
    requires j < |cs| && !Skipped(cs[j].name, depth) && e in Listing(cs[j].node, Join(path, cs[j].name), depth + 1)
    ensures e in ListingOf(parent, cs, path, depth)
    decreases |cs|
  {
    if j > 0 {
      InListingOf(parent, cs[1..], path, depth, j - 1, e);
    }
  }

  lemma {:induction false} FromListingOf(parent: Node, cs: seq<Child>, path: Octets, depth: nat, e: Entry) returns (j: nat)
    requires parent.Directory? && forall c :: c in cs ==> c in parent.children
    requires e in ListingOf(parent, cs, path, depth)
    ensures j < |cs| && !Skipped(cs[j].name, depth) && e in Listing(cs[j].node, Join(path, cs[j].name), depth + 1)
    decreases |cs|
  {
    if !Skipped(cs[0].name, depth) && e in Listing(cs[0].node, Join(path, cs[0].name), depth + 1) {
      j := 0;
    } else {
      j := FromListingOf(parent, cs[1..], path, depth, e);
      j := j + 1;
    }
  }

  lemma ChildIsListed(n: Node, path: Octets, depth: nat, k: nat, e: Entry)
    requires n.Directory? && k < |n.children|
    requires var c := n.children[k];
             !Skipped(c.name, depth) && e in Listing(c.node, Join(path, c.name), depth + 1)
    ensures e in Listing(n, path, depth)
  {
    SortedHasSameMembers(n.children);
    var cs := Sorted(n.children);
    assert n.children[k] in cs;
    var j :| 0 <= j < |cs| && cs[j] == n.children[k];
    InListingOf(n, cs, path, depth, j, e);
  }

  lemma {:induction false} LookupIsListed(n: Node, path: Octets, depth: nat, route: Route, e: Entry)
    requires Visible(route, depth) && Lookup(n, route) == Some(e.item)
    requires e.path == Extend(path, route) && e.depth == depth + |route|
    ensures e in Listing(n, path, depth)
    decreases |route|
  {
    if route == [] {
      assert Listing(n, path, depth)[0] == Entry(path, ItemOf(n), depth);
    } else {
      var c := n.children[Find(n.children, route[0])];
      assert c.name == route[0] && !Skipped(c.name, depth);
      LookupIsListed(c.node, Join(path, c.name), depth + 1, route[1..], e);
      ChildIsListed(n, path, depth, Find(n.children, route[0]), e);
    }
  }

  lemma ListedBelow(n: Node, path: Octets, depth: nat, e: Entry) returns (k: nat)
    requires ValidTree(n) && e in Listing(n, path, depth) && e != Entry(path, ItemOf(n), depth)
    ensures n.Directory? && k < |n.children| && Find(n.children, n.children[k].name) == k
    ensures var c := n.children[k];
            !Skipped(c.name, depth) && ValidName(c.name) && e in Listing(c.node, Join(path, c.name), depth + 1)
  {
    var cs := Sorted(n.children);
    SortedHasSameMembers(n.children);
    var j := FromListingOf(n, cs, path, depth, e);
    assert cs[j] in n.children;
    k :| 0 <= k < |n.children| && n.children[k] == cs[j];
    FindUnique(n.children, k);
  }

  lemma {:induction false} ListedIsLookup(n: Node, path: Octets, depth: nat, e: Entry) returns (route: Route)
    requires ValidTree(n) && e in Listing(n, path, depth)
    ensures Visible(route, depth) && ValidRoute(route)
    ensures Lookup(n, route) == Some(e.item) && e.path == Extend(path, route)
    decreases n
  {
    if e == Entry(path, ItemOf(n), depth) {
      route := [];
    } else {
      var k := ListedBelow(n, path, depth, e);
      var c := n.children[k];
      var rest := ListedIsLookup(c.node, Join(path, c.name), depth + 1, e);
      route := [c.name] + rest;
      assert route[1..] == rest;
    }
  }

  lemma {:induction false} LookupRouteIsValid(n: Node, route: Route)
    requires ValidTree(n) && Lookup(n, route).Some?
    ensures ValidRoute(route)
    decreases |route|
  {
    if route != [] {
      LookupRouteIsValid(n.children[Find(n.children, route[0])].node, route[1..]);
      assert route == [route[0]] + route[1..];
    }
  }

  /** Two trees with the same listing, up to depths, have the same projection. */
  predicate SameRecords(xs: seq<Entry>, ys: seq<Entry>) {
    |xs| == |ys| && forall k :: 0 <= k < |xs| ==> xs[k].path == ys[k].path && xs[k].item == ys[k].item
  }

  lemma SeenInBoth(a: Node, b: Node, route: Route)
    requires ValidTree(a) && ValidTree(b) && SameRecords(Listing(a, [], 0), Listing(b, [], 0))
    requires OutsideInput(route) && Lookup(a, route).Some?
    ensures Lookup(b, route) == Lookup(a, route)
  {
    var e := Entry(Extend([], route), Lookup(a, route).value, |route|);
    LookupIsListed(a, [], 0, route, e);
    var k :| 0 <= k < |Listing(a, [], 0)| && Listing(a, [], 0)[k] == e;
    var twin := Listing(b, [], 0)[k];
    var other := ListedIsLookup(b, [], 0, twin);
    LookupRouteIsValid(a, route);
    PathInjective(route, other);
  }

  lemma SameRecordsSameProjection(a: Node, b: Node)
    requires ValidTree(a) && ValidTree(b) && SameRecords(Listing(a, [], 0), Listing(b, [], 0))
    ensures SameProjection(a, b)
  {
    forall route | OutsideInput(route) ensures Lookup(a, route) == Lookup(b, route) {
      if Lookup(a, route).Some? {
        SeenInBoth(a, b, route);
      } else if Lookup(b, route).Some? {
        SeenInBoth(b, a, route);
      }
    }
  }

  // ---------- the archive determines the listing ----------

  predicate Codable(e: Entry) {
    Archive.Archivable(e) && e.item.mode < 4096
  }

  predicate Encodable(es: seq<Entry>) {
    forall i :: 0 <= i < |es| ==> Codable(es[i])
  }

  lemma Widths()
    ensures Pow256(4) == 0x1_0000_0000 && Pow256(8) == 0x1_0000_0000_0000_0000
  {
    assert Pow256(4) == 256 * (256 * (256 * (256 * Pow256(0))));
    assert Pow256(8) == 256 * (256 * (256 * (256 * Pow256(4))));
  }

  lemma HeaderFields(e: Entry, x: Octets)
    requires Codable(e)
    ensures var s := Archive.EncodedHeader(e) + x;
      && s[0] == Archive.Code(e.item.kind) && FromLittleEndian(s[4..8]) == e.item.mode
      && FromLittleEndian(s[8..12]) == |e.path| && FromLittleEndian(s[12..20]) == |e.item.payload|
      && s[20..20 + |e.path|] == e.path && s[20 + |e.path|..] == x
  {
    var s := Archive.EncodedHeader(e) + x;
    Widths();
    LittleEndianRoundTrip(e.item.mode, 4);
    LittleEndianRoundTrip(|e.path|, 4);
    LittleEndianRoundTrip(|e.item.payload|, 8);
    assert s[4..8] == LittleEndian(e.item.mode, 4);
    assert s[8..12] == LittleEndian(|e.path|, 4);
    assert s[12..20] == LittleEndian(|e.item.payload|, 8);
  }

  lemma EntryInjective(d: Entry, e: Entry, x: Octets, y: Octets)
    requires Codable(d) && Codable(e)
    requires Archive.EncodedHeader(d) + (d.item.payload + x) == Archive.EncodedHeader(e) + (e.item.payload + y)
    ensures d.item == e.item && d.path == e.path && x == y
  {
    var p, q := d.item.payload, e.item.payload;
    HeaderFields(d, p + x);
    HeaderFields(e, q + y);
    assert p == (p + x)[..|p|] && q == (q + y)[..|q|];
    assert x == (p + x)[|p|..] && y == (q + y)[|q|..];
  }

  lemma {:induction false} EncodedInjective(xs: seq<Entry>, ys: seq<Entry>)
    requires |xs| == |ys| && Encodable(xs) && Encodable(ys) && Archive.Encoded(xs) == Archive.Encoded(ys)
    ensures SameRecords(xs, ys)
    decreases |xs|
  {
    if xs != [] {
      EncodedFirst(xs);
      EncodedFirst(ys);
      EntryInjective(xs[0], ys[0], Archive.Encoded(xs[1..]), Archive.Encoded(ys[1..]));
      EncodedInjective(xs[1..], ys[1..]);
      forall k | 0 <= k < |xs| ensures xs[k].path == ys[k].path && xs[k].item == ys[k].item {
        if k > 0 {
          assert xs[k] == xs[1..][k - 1] && ys[k] == ys[1..][k - 1];
        }
      }
    }
  }

  lemma EncodedFirst(xs: seq<Entry>)
    requires xs != [] && Encodable(xs)
    ensures Codable(xs[0]) && Encodable(xs[1..])
    ensures Archive.Encoded(xs) == Archive.EncodedHeader(xs[0]) + (xs[0].item.payload + Archive.Encoded(xs[1..]))
  {
    forall i | 0 <= i < |xs[1..]| ensures Codable(xs[1..][i]) {
      assert Codable(xs[i + 1]);
    }
    var h, p, r := Archive.EncodedHeader(xs[0]), xs[0].item.payload, Archive.Encoded(xs[1..]);
    assert h + p + r == h + (p + r);
  }

  lemma ArchiveInjective(xs: seq<Entry>, ys: seq<Entry>)
    requires Encodable(xs) && Encodable(ys) && |xs| <= Archive.MAX_ENTRIES && |ys| <= Archive.MAX_ENTRIES
    requires Archive.FullArchive(xs) == Archive.FullArchive(ys)
    ensures SameRecords(xs, ys)
  {
    var s := Archive.FullArchive(xs);
    Widths();
    LittleEndianRoundTrip(|xs|, 4);
    LittleEndianRoundTrip(|ys|, 4);
    assert s[12..16] == LittleEndian(|xs|, 4) && s[12..16] == LittleEndian(|ys|, 4);
    assert s[16..] == Archive.Encoded(xs) && s[16..] == Archive.Encoded(ys);
    EncodedInjective(xs, ys);
  }

  // ---------- the view determines the listing ----------

  function Kept(cs: seq<Child>, depth: nat): seq<Child> {
    if cs == [] then []
    else (if Skipped(cs[0].name, depth) then [] else [cs[0]]) + Kept(cs[1..], depth)
  }

  lemma {:induction false} KeptMeaning(cs: seq<Child>, depth: nat)
    ensures forall c :: c in Kept(cs, depth) <==> c in cs && !Skipped(c.name, depth)
    ensures Ascending(cs) ==> Ascending(Kept(cs, depth))
  {
    if cs != [] {
      var rest := Kept(cs[1..], depth);
      KeptMeaning(cs[1..], depth);
      if Ascending(cs) {
        forall j | 0 <= j < |rest| ensures Before(cs[0].name, rest[j].name) {
          assert rest[j] in cs[1..];
        }
      }
    }
  }

  lemma {:induction false} KeptListing(parent: Node, cs: seq<Child>, path: Octets, depth: nat)
    requires parent.Directory? && forall c :: c in cs ==> c in parent.children
    requires forall c :: c in Kept(cs, depth) ==> c in parent.children
    ensures ListingOf(parent, Kept(cs, depth), path, depth) == ListingOf(parent, cs, path, depth)
    decreases |cs|
  {
    if cs != [] {
      var rest := Kept(cs[1..], depth);
      if Skipped(cs[0].name, depth) {
        assert Kept(cs, depth) == rest;
      } else {
        assert Kept(cs, depth)[1..] == rest && Kept(cs, depth)[0] == cs[0];
      }
      KeptListing(parent, cs[1..], path, depth);
    }
  }

  ghost predicate HasName(cs: seq<Child>, name: Octets) {
    exists i :: 0 <= i < |cs| && cs[i].name == name
  }

  predicate SameNames(cs: seq<Child>, ds: seq<Child>) {
    |cs| == |ds| && forall i :: 0 <= i < |cs| ==> cs[i].name == ds[i].name
  }

  lemma FirstIsLeast(cs: seq<Child>, name: Octets)
    requires Ascending(cs) && HasName(cs, name)
    ensures cs[0].name == name || Before(cs[0].name, name)
  {
  }

  lemma TailNames(cs: seq<Child>, name: Octets)
    requires Ascending(cs) && cs != []
    ensures HasName(cs[1..], name) <==> HasName(cs, name) && name != cs[0].name
  {
    BeforeIsTotal(name, name);
    if i :| 0 <= i < |cs| && cs[i].name == name {
      assert i > 0 ==> cs[1..][i - 1].name == name;
    }
    if i :| 0 <= i < |cs[1..]| && cs[1..][i].name == name {
      assert cs[i + 1].name == name;
    }
  }

  lemma {:induction false} AscendingUnique(cs: seq<Child>, ds: seq<Child>)
    requires Ascending(cs) && Ascending(ds)
    requires forall name :: HasName(cs, name) <==> HasName(ds, name)
    ensures SameNames(cs, ds)
    decreases |cs|
  {
    if cs != [] {
      assert HasName(cs, cs[0].name);
      FirstIsLeast(ds, cs[0].name);
      assert HasName(ds, ds[0].name);
      FirstIsLeast(cs, ds[0].name);
      BeforeIsTotal(cs[0].name, ds[0].name);
      forall name ensures HasName(cs[1..], name) <==> HasName(ds[1..], name) {
        TailNames(cs, name);
        TailNames(ds, name);
      }
      AscendingUnique(cs[1..], ds[1..]);
      assert forall i :: 0 < i < |cs| ==> cs[i] == cs[1..][i - 1];
      assert forall i :: 0 < i < |ds| ==> ds[i] == ds[1..][i - 1];
    } else if ds != [] {
      assert HasName(ds, ds[0].name);
    }
  }

  lemma ChildLookup(n: Node, c: Child, route: Route)
    requires ValidTree(n) && n.Directory? && c in n.children
    ensures Lookup(n, [c.name] + route) == Lookup(c.node, route)
  {
    var k :| 0 <= k < |n.children| && n.children[k] == c;
    FindUnique(n.children, k);
    assert ([c.name] + route)[1..] == route;
  }

  /** The children an archive shows, in the order it shows them. */
  function Shown(n: Node, depth: nat): seq<Child>
    requires n.Directory?
  {
    Kept(Sorted(n.children), depth)
  }

  lemma ShownMeaning(n: Node, path: Octets, depth: nat)
    requires ValidTree(n) && n.Directory?
    ensures forall c :: c in Shown(n, depth) <==> c in n.children && !Skipped(c.name, depth)
    ensures Ascending(Shown(n, depth))
    ensures Listing(n, path, depth) == [Entry(path, ItemOf(n), depth)] + ListingOf(n, Shown(n, depth), path, depth)
  {
    SortedHasSameMembers(n.children);
    SortedIsAscending(n.children);
    KeptMeaning(Sorted(n.children), depth);
    KeptListing(n, Sorted(n.children), path, depth);
  }

  lemma ShownNames(n: Node, depth: nat, name: Octets)
    requires ValidTree(n) && n.Directory?
    requires forall c :: c in Shown(n, depth) <==> c in n.children && !Skipped(c.name, depth)
    ensures HasName(Shown(n, depth), name) <==> Visible([name], depth) && Lookup(n, [name]).Some?
  {
    if i :| 0 <= i < |Shown(n, depth)| && Shown(n, depth)[i].name == name {
      assert Shown(n, depth)[i] in n.children;
      ChildLookup(n, Shown(n, depth)[i], []);
      assert [name] + [] == [name];
    }
    if Visible([name], depth) && Lookup(n, [name]).Some? {
      var c := n.children[Find(n.children, name)];
      assert c in Shown(n, depth);
    }
  }

  lemma {:induction false} ListingsOfAgree(a: Node, cs: seq<Child>, b: Node, ds: seq<Child>, path: Octets, depth: nat)
    requires a.Directory? && forall c :: c in cs ==> c in a.children
    requires b.Directory? && forall d :: d in ds ==> d in b.children
    requires SameNames(cs, ds)
    requires forall i :: 0 <= i < |cs| ==>
               Listing(cs[i].node, Join(path, cs[i].name), depth + 1) == Listing(ds[i].node, Join(path, cs[i].name), depth + 1)
    ensures ListingOf(a, cs, path, depth) == ListingOf(b, ds, path, depth)
    decreases |cs|
  {
    if cs != [] {
      ListingsOfAgree(a, cs[1..], b, ds[1..], path, depth);
    }
  }

  lemma ChildViewsAgree(a: Node, b: Node, depth: nat, c: Child, d: Child)
    requires ValidTree(a) && ValidTree(b) && a.Directory? && b.Directory? && SameFrom(a, b, depth)
    requires c in a.children && d in b.children && c.name == d.name && !Skipped(c.name, depth)
    ensures SameFrom(c.node, d.node, depth + 1)
  {
    forall route ensures Lookup(c.node, route) == Lookup(d.node, route) {
      ChildLookup(a, c, route);
      ChildLookup(b, d, route);
      assert Visible([c.name] + route, depth);
    }
  }

  lemma ShownChildrenAgree(a: Node, b: Node, depth: nat)
    requires ValidTree(a) && ValidTree(b) && a.Directory? && b.Directory? && SameFrom(a, b, depth)
    ensures SameNames(Shown(a, depth), Shown(b, depth))
    ensures forall i :: 0 <= i < |Shown(a, depth)| ==>
              && Shown(a, depth)[i] in a.children
              && SameFrom(Shown(a, depth)[i].node, Shown(b, depth)[i].node, depth + 1)
  {
    var cs, ds := Shown(a, depth), Shown(b, depth);
    ShownMeaning(a, [], depth);
    ShownMeaning(b, [], depth);
    forall name ensures HasName(cs, name) <==> HasName(ds, name) {
      ShownNames(a, depth, name);
      ShownNames(b, depth, name);
    }
    AscendingUnique(cs, ds);
    forall i | 0 <= i < |cs| ensures cs[i] in a.children && SameFrom(cs[i].node, ds[i].node, depth + 1) {
      ChildViewsAgree(a, b, depth, cs[i], ds[i]);
    }
  }

  lemma {:induction false} SameViewSameListing(a: Node, b: Node, path: Octets, depth: nat)
    requires ValidTree(a) && ValidTree(b) && SameFrom(a, b, depth)
    ensures Listing(a, path, depth) == Listing(b, path, depth)
    decreases a
  {
    assert Lookup(a, []) == Lookup(b, []);
    if a.Directory? {
      var cs, ds := Shown(a, depth), Shown(b, depth);
      ShownMeaning(a, path, depth);
      ShownMeaning(b, path, depth);
      ShownChildrenAgree(a, b, depth);
      forall i | 0 <= i < |cs|
        ensures Listing(cs[i].node, Join(path, cs[i].name), depth + 1) == Listing(ds[i].node, Join(path, cs[i].name), depth + 1)
      {
        assert cs[i] in a.children && ds[i] in b.children;
        SameViewSameListing(cs[i].node, ds[i].node, Join(path, cs[i].name), depth + 1);
      }
      ListingsOfAgree(a, cs, b, ds, path, depth);
    }
  }

  // ---------- the two main results ----------

  lemma ListedEntriesAreCodable(root: Node)
    requires ValidTree(root) && Archive.WithinLimits(Listing(root, [], 0))
    ensures Encodable(Listing(root, [], 0))
  {
    var es := Listing(root, [], 0);
    forall i | 0 <= i < |es| ensures Codable(es[i]) {
      assert es[i] in es;
      var route := ListedIsLookup(root, [], 0, es[i]);
    }
  }

  /** A WRITTEN archive determines the workspace projection: two trees are
      archived to the same octets iff they agree on every path outside `input`. */
  lemma ArchiveIsProjection(cap: nat, a: Node, b: Node)
    requires cap <= Archive.MAX_CAP && a.Directory? && b.Directory? && ValidTree(a) && ValidTree(b)
    ensures Archive.Snapshot(cap, a).Some? && Archive.Snapshot(cap, b).Some?
    ensures Archive.SaysWritten(cap, a) && Archive.SaysWritten(cap, b) ==>
              (Archive.Snapshot(cap, a).value.buffer.bytes == Archive.Snapshot(cap, b).value.buffer.bytes
               <==> SameProjection(a, b))
  {
    Archive.SnapshotIsExact(cap, a);
    Archive.SnapshotIsExact(cap, b);
    var xs, ys := Listing(a, [], 0), Listing(b, [], 0);
    if Archive.WithinLimits(xs) && Archive.WithinLimits(ys) && Archive.FullArchive(xs) == Archive.FullArchive(ys) {
      ListedEntriesAreCodable(a);
      ListedEntriesAreCodable(b);
      ArchiveInjective(xs, ys);
      SameRecordsSameProjection(a, b);
    }
    if SameProjection(a, b) {
      SameViewSameListing(a, b, [], 0);
    }
  }

  /** The same tree with every directory enumerated in another order. */
  ghost predicate Reordered(a: Node, b: Node) {
    if !a.Directory? then a == b
    else
      && b.Directory? && b.mode == a.mode
      && (forall i :: 0 <= i < |a.children| ==>
            exists j :: 0 <= j < |b.children| && b.children[j].name == a.children[i].name
                        && Reordered(a.children[i].node, b.children[j].node))
      && (forall j :: 0 <= j < |b.children| ==> HasName(a.children, b.children[j].name))
  }

  lemma {:induction false} ReorderedSameLookup(a: Node, b: Node, route: Route)
    requires ValidTree(a) && ValidTree(b) && Reordered(a, b)
    ensures Lookup(a, route) == Lookup(b, route)
    decreases |route|
  {
    if route != [] && a.Directory? {
      var i := Find(a.children, route[0]);
      if i < |a.children| {
        var j :| 0 <= j < |b.children| && b.children[j].name == a.children[i].name
                 && Reordered(a.children[i].node, b.children[j].node);
        FindUnique(b.children, j);
        ReorderedSameLookup(a.children[i].node, b.children[j].node, route[1..]);
      } else {
        assert !HasName(a.children, route[0]);
      }
    }
  }

  lemma ReorderedSameListing(a: Node, b: Node)
    requires ValidTree(a) && ValidTree(b) && Reordered(a, b)
    ensures Listing(a, [], 0) == Listing(b, [], 0)
  {
    forall route ensures Lookup(a, route) == Lookup(b, route) {
      ReorderedSameLookup(a, b, route);
    }
    SameViewSameListing(a, b, [], 0);
  }

  /** Enumeration order never shows: not in a written archive, and not in what
      an overflow leaves behind either. */
  lemma EnumerationOrderIsInvisible(cap: nat, a: Node, b: Node)
    requires ValidTree(a) && ValidTree(b) && Reordered(a, b)
    ensures Archive.Snapshot(cap, a) == Archive.Snapshot(cap, b)
  {
    ReorderedSameListing(a, b);
  }
}
