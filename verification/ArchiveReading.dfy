/** What a reader gets out of a written archive: a decoder of the format that
    knows nothing of the writer, and the tree it recovers node by node. */
module ArchiveReading {
  import opened Options
  import opened Words
  import opened Workspace
  import opened Routes
  import Archive
  import Projection

  // ---------- the decoder ----------

  datatype Rec = Rec(code: nat, mode: nat, path: Octets, payload: Octets)

  /** Exactly `n` records, and nothing after them. */
  function Records(s: Octets, n: nat): Option<seq<Rec>> {
    if n == 0 then if s == [] then Some([]) else None
    else if |s| < 20 || s[1..4] != [0, 0, 0] then None
    else
      var p, q := FromLittleEndian(s[8..12]), FromLittleEndian(s[12..20]);
      if |s| < 20 + p + q then None
      else
        var rest := Records(s[20 + p + q..], n - 1);
        if rest.None? then None
        else Some([Rec(s[0] as nat, FromLittleEndian(s[4..8]), s[20..20 + p], s[20 + p..20 + p + q])] + rest.value)
  }

  /** "CBDSWSN1", version 1, the number of records, and the records. */
  function Decoded(s: Octets): Option<seq<Rec>> {
    if |s| < 16 || s[..8] != [67, 66, 68, 83, 87, 83, 78, 49] || FromLittleEndian(s[8..12]) != 1 then None
    else Records(s[16..], FromLittleEndian(s[12..16]))
  }

  function RecOf(e: Entry): Rec {
    Rec(Archive.Code(e.item.kind) as nat, e.item.mode, e.path, e.item.payload)
  }

  predicate Holds(recs: seq<Rec>, es: seq<Entry>) {
    |recs| == |es| && forall i :: 0 <= i < |es| ==> recs[i] == RecOf(es[i])
  }

  lemma FirstRecord(e: Entry, x: Octets, n: nat)
    requires Projection.Codable(e) && n > 0
    ensures var s := Archive.EncodedHeader(e) + (e.item.payload + x);
            var rest := Records(x, n - 1);
            Records(s, n) == if rest.None? then None else Some([RecOf(e)] + rest.value)
  {
    var h, p := Archive.EncodedHeader(e), e.item.payload;
    var s := h + (p + x);
    Projection.HeaderFields(e, p + x);
    assert s[1..4] == [0, 0, 0];
    assert s[20 + |e.path|..20 + |e.path| + |p|] == p && s[20 + |e.path| + |p|..] == x;
  }

  /** The octets are one record for each entry. */
  predicate ReadsAs(s: Octets, es: seq<Entry>) {
    var recs := Records(s, |es|);
    recs.Some? && Holds(recs.value, es)
  }

  lemma ReadsFirst(es: seq<Entry>, x: Octets)
    requires es != [] && Projection.Codable(es[0]) && ReadsAs(x, es[1..])
    ensures ReadsAs(Archive.EncodedHeader(es[0]) + (es[0].item.payload + x), es)
  {
    FirstRecord(es[0], x, |es|);
  }

  lemma {:induction false} RecordsOfEncoded(es: seq<Entry>)
    requires Projection.Encodable(es)
    ensures ReadsAs(Archive.Encoded(es), es)
    decreases |es|
  {
    if es != [] {
      Projection.EncodedFirst(es);
      RecordsOfEncoded(es[1..]);
      ReadsFirst(es, Archive.Encoded(es[1..]));
    }
  }

  /** Decoding the archive of a listing gives its entries back. */
  lemma DecodedArchive(es: seq<Entry>)
    requires Projection.Encodable(es) && |es| <= Archive.MAX_ENTRIES
    ensures Decoded(Archive.FullArchive(es)).Some? && Holds(Decoded(Archive.FullArchive(es)).value, es)
  {
    var s := Archive.FullArchive(es);
    Projection.Widths();
    LittleEndianRoundTrip(1, 4);
    LittleEndianRoundTrip(|es|, 4);
    assert s[..8] == [67, 66, 68, 83, 87, 83, 78, 49] && s[8..12] == LittleEndian(1, 4);
    assert s[12..16] == LittleEndian(|es|, 4) && s[16..] == Archive.Encoded(es);
    RecordsOfEncoded(es);
  }

  // ---------- the routes a walk visits ----------

  function Under(name: Octets, routes: seq<Route>): (r: seq<Route>)
    ensures |r| == |routes| && forall i :: 0 <= i < |r| ==> r[i] == [name] + routes[i]
  {
    seq(|routes|, i requires 0 <= i < |routes| => [name] + routes[i])
  }

  function Visited(n: Node, depth: nat): seq<Route>
    decreases n, 1, 0
  {
    [[]] +
    if n.Directory? then
      SortedHasSameMembers(n.children);
      VisitedIn(n, Sorted(n.children), depth)
    else []
  }

  function VisitedIn(parent: Node, cs: seq<Child>, depth: nat): seq<Route>
    requires parent.Directory? && forall c :: c in cs ==> c in parent.children
    decreases parent, 0, |cs|
  {
    if cs == [] then []
    else
      assert cs[0] in parent.children;
      (if Skipped(cs[0].name, depth) then [] else Under(cs[0].name, Visited(cs[0].node, depth + 1)))
      + VisitedIn(parent, cs[1..], depth)
  }

  // ---------- the listing follows the routes ----------

  predicate Follows(es: seq<Entry>, n: Node, path: Octets, depth: nat, routes: seq<Route>) {
    |es| == |routes| &&
    forall i :: 0 <= i < |es| ==>
      && NodeAt(n, routes[i]).Some?
      && es[i] == Entry(Projection.Extend(path, routes[i]), ItemOf(NodeAt(n, routes[i]).value), depth + |routes[i]|)
  }

  lemma FollowsUnder(es: seq<Entry>, n: Node, c: Child, path: Octets, depth: nat, routes: seq<Route>)
    requires ValidTree(n) && n.Directory? && c in n.children
    requires Follows(es, c.node, Join(path, c.name), depth + 1, routes)
    ensures Follows(es, n, path, depth, Under(c.name, routes))
  {
    var more := Under(c.name, routes);
    forall i | 0 <= i < |es|
      ensures NodeAt(n, more[i]) == NodeAt(c.node, routes[i])
      ensures Projection.Extend(path, more[i]) == Projection.Extend(Join(path, c.name), routes[i])
    {
      ChildAt(n, c, routes[i]);
      assert more[i][1..] == routes[i];
    }
  }

  lemma {:induction false} ListingFollowsIn(n: Node, cs: seq<Child>, path: Octets, depth: nat)
    requires ValidTree(n) && n.Directory? && forall c :: c in cs ==> c in n.children
    ensures Follows(ListingOf(n, cs, path, depth), n, path, depth, VisitedIn(n, cs, depth))
    decreases n, 0, |cs|
  {
    if cs != [] {
      var c := cs[0];
      assert c in n.children;
      ListingFollowsIn(n, cs[1..], path, depth);
      if !Skipped(c.name, depth) {
        ListingFollows(c.node, Join(path, c.name), depth + 1);
        FollowsUnder(Listing(c.node, Join(path, c.name), depth + 1), n, c, path, depth, Visited(c.node, depth + 1));
      }
    }
  }

  lemma {:induction false} ListingFollows(n: Node, path: Octets, depth: nat)
    requires ValidTree(n)
    ensures Follows(Listing(n, path, depth), n, path, depth, Visited(n, depth))
    decreases n, 1, 0
  {
    if n.Directory? {
      SortedHasSameMembers(n.children);
      ListingFollowsIn(n, Sorted(n.children), path, depth);
    }
  }

  // ---------- exactly the visible routes ----------

  lemma {:induction false} InVisitedIn(n: Node, cs: seq<Child>, depth: nat, route: Route)
    requires n.Directory? && forall c :: c in cs ==> c in n.children
    ensures route in VisitedIn(n, cs, depth) <==>
              route != [] && exists k :: 0 <= k < |cs| && !Skipped(cs[k].name, depth) && route[0] == cs[k].name
                                         && route[1..] in Visited(cs[k].node, depth + 1)
    decreases |cs|
  {
    if cs != [] {
      InVisitedIn(n, cs[1..], depth, route);
      var first := Visited(cs[0].node, depth + 1);
      InUnder(cs[0].name, first, route);
      assert forall k :: 0 < k < |cs| ==> cs[k] == cs[1..][k - 1];
    }
  }

  lemma InUnder(name: Octets, routes: seq<Route>, route: Route)
    ensures route in Under(name, routes) <==> route != [] && route[0] == name && route[1..] in routes
  {
    var all := Under(name, routes);
    if route in all {
      var i :| 0 <= i < |all| && all[i] == route;
      assert route[1..] == routes[i];
    }
    if route != [] && route[0] == name && route[1..] in routes {
      var i :| 0 <= i < |routes| && routes[i] == route[1..];
      assert all[i] == route;
    }
  }

  lemma ThroughChild(n: Node, depth: nat, route: Route)
    requires n.Directory? && route != []
    ensures route in Visited(n, depth) <==>
              exists c :: c in n.children && !Skipped(c.name, depth) && route[0] == c.name
                          && route[1..] in Visited(c.node, depth + 1)
  {
    var cs := Sorted(n.children);
    SortedHasSameMembers(n.children);
    InVisitedIn(n, cs, depth, route);
    assert route in Visited(n, depth) <==> route in VisitedIn(n, cs, depth);
    if c :| c in n.children && !Skipped(c.name, depth) && route[0] == c.name && route[1..] in Visited(c.node, depth + 1) {
      var k :| 0 <= k < |cs| && cs[k] == c;
    }
  }

  /** Names are distinct, so there is one child a route can go through. */
  lemma ThroughNamed(n: Node, depth: nat, route: Route, k: nat)
    requires ValidTree(n) && n.Directory? && route != [] && k == Find(n.children, route[0])
    ensures route in Visited(n, depth) <==>
              k < |n.children| && !Skipped(route[0], depth) && route[1..] in Visited(n.children[k].node, depth + 1)
  {
    ThroughChild(n, depth, route);
    forall c | c in n.children && c.name == route[0] ensures k < |n.children| && c == n.children[k] {
      var j :| 0 <= j < |n.children| && n.children[j] == c;
      FindUnique(n.children, j);
    }
    if k < |n.children| {
      assert n.children[k] in n.children;
    }
  }

  lemma {:induction false} VisitedIsVisible(n: Node, depth: nat, route: Route)
    requires ValidTree(n)
    ensures route in Visited(n, depth) <==> Projection.Visible(route, depth) && NodeAt(n, route).Some?
    decreases |route|
  {
    if route == [] {
      assert Visited(n, depth)[0] == [];
    } else if n.Directory? {
      var k := Find(n.children, route[0]);
      ThroughNamed(n, depth, route, k);
      if k < |n.children| {
        VisitedIsVisible(n.children[k].node, depth + 1, route[1..]);
      }
    }
  }

  // ---------- in order ----------

  lemma {:induction false} NothingPrecedesItself(r: Route)
    ensures !Precedes(r, r)
  {
    if r != [] {
      BeforeIsTotal(r[0], r[0]);
      NothingPrecedesItself(r[1..]);
    }
  }

  lemma {:induction false} InOrderIn(n: Node, cs: seq<Child>, depth: nat)
    requires ValidTree(n) && n.Directory? && Ascending(cs) && forall c :: c in cs ==> c in n.children
    ensures InOrder(VisitedIn(n, cs, depth))
    decreases n, 0, |cs|
  {
    if cs != [] {
      var c := cs[0];
      assert c in n.children;
      InOrderIn(n, cs[1..], depth);
      var rest := VisitedIn(n, cs[1..], depth);
      if !Skipped(c.name, depth) {
        InOrderFrom(c.node, depth + 1);
        UnderInOrder(c.name, Visited(c.node, depth + 1));
        forall j | 0 <= j < |rest| ensures rest[j] != [] && Before(c.name, rest[j][0]) {
          InVisitedIn(n, cs[1..], depth, rest[j]);
        }
      }
    }
  }

  lemma UnderInOrder(name: Octets, routes: seq<Route>)
    requires InOrder(routes)
    ensures InOrder(Under(name, routes))
  {
    var all := Under(name, routes);
    forall i, j | 0 <= i < j < |all| ensures Precedes(all[i], all[j]) {
      assert all[i][1..] == routes[i] && all[j][1..] == routes[j];
    }
  }

  lemma {:induction false} InOrderFrom(n: Node, depth: nat)
    requires ValidTree(n)
    ensures InOrder(Visited(n, depth))
    decreases n, 1, 0
  {
    if n.Directory? {
      var cs := Sorted(n.children);
      SortedHasSameMembers(n.children);
      SortedIsAscending(n.children);
      InOrderIn(n, cs, depth);
      var rest := VisitedIn(n, cs, depth);
      forall j | 0 <= j < |rest| ensures rest[j] != [] {
        InVisitedIn(n, cs, depth, rest[j]);
      }
    }
  }

  // ---------- what the archive holds ----------

  lemma {:induction false} TailIsText(route: Route)
    requires route != []
    ensures Projection.Tail(route) == [47] + Text(route)
  {
    if |route| == 1 {
      assert Projection.Tail(route[1..]) == [];
      assert [SLASH] + route[0] + [] == [47] + Text(route);
    } else {
      TailIsText(route[1..]);
      assert [SLASH] + route[0] + Projection.Tail(route[1..]) == [47] + (route[0] + [47] + Text(route[1..]));
    }
  }

  lemma ExtendIsText(route: Route)
    requires Projection.ValidRoute(route)
    ensures Projection.Extend([], route) == Text(route)
  {
    if route != [] {
      Projection.ExtendIsTail(route[0], route[1..]);
      if |route| > 1 {
        TailIsText(route[1..]);
        assert route[0] + ([47] + Text(route[1..])) == route[0] + [47] + Text(route[1..]);
      } else {
        assert route[0] + [] == route[0];
      }
    }
  }

  lemma {:induction false} RouteIsValid(n: Node, route: Route)
    requires ValidTree(n) && NodeAt(n, route).Some?
    ensures Projection.ValidRoute(route)
    decreases |route|
  {
    if route != [] {
      RouteIsValid(n.children[Find(n.children, route[0])].node, route[1..]);
      assert route == [route[0]] + route[1..];
    }
  }

  /** The routes to all nodes outside the top-level name "input", each once, a
      directory before its entries and siblings in order of their names. */
  ghost predicate AllRoutes(root: Node, routes: seq<Route>) {
    && InOrder(routes)
    && forall route :: route in routes <==>
         NodeAt(root, route).Some? && (route == [] || route[0] != [105, 110, 112, 117, 116])
  }

  /** The record of one node: its type, permission bits, path, and content or target. */
  predicate Describes(rec: Rec, root: Node, route: Route) {
    rec.path == Text(route) &&
    match NodeAt(root, route)
    case Some(Directory(mode, _)) => rec.code == 1 && rec.mode == mode % 4096 && rec.payload == []
    case Some(Regular(mode, content)) => rec.code == 2 && rec.mode == mode % 4096 && rec.payload == content
    case Some(Symlink(mode, target)) => rec.code == 3 && rec.mode == mode % 4096 && rec.payload == target
    case _ => false
  }

  lemma VisitsAllRoutes(root: Node)
    requires ValidTree(root)
    ensures AllRoutes(root, Visited(root, 0))
  {
    InOrderFrom(root, 0);
    forall route ensures route in Visited(root, 0) <==>
                           NodeAt(root, route).Some? && (route == [] || route[0] != [105, 110, 112, 117, 116])
    {
      VisitedIsVisible(root, 0, route);
    }
  }

  lemma EntryDescribes(e: Entry, root: Node, route: Route)
    requires ValidTree(root) && NodeAt(root, route).Some? && Archive.Archivable(e)
    requires e == Entry(Projection.Extend([], route), ItemOf(NodeAt(root, route).value), |route|)
    ensures Describes(RecOf(e), root, route)
  {
    RouteIsValid(root, route);
    ExtendIsText(route);
  }

  /** The octets decode to one record for each of the routes. */
  ghost predicate HoldsRoutes(bytes: Octets, root: Node, routes: seq<Route>) {
    var recs := Decoded(bytes);
    && AllRoutes(root, routes) && recs.Some? && |recs.value| == |routes|
    && forall i :: 0 <= i < |routes| ==> Describes(recs.value[i], root, routes[i])
  }

  ghost predicate HoldsTree(bytes: Octets, root: Node) {
    exists routes :: HoldsRoutes(bytes, root, routes)
  }

  /** A written archive decodes to one record for every node outside `input`, in
      pre-order, with that node's type, mode, path and content. */
  lemma WrittenArchiveHoldsTheTree(cap: nat, root: Node) returns (routes: seq<Route>)
    requires cap <= Archive.MAX_CAP && root.Directory? && ValidTree(root) && Archive.SaysWritten(cap, root)
    ensures Archive.Snapshot(cap, root).Some?
    ensures HoldsRoutes(Archive.Snapshot(cap, root).value.buffer.bytes, root, routes)
  {
    routes := Visited(root, 0);
    var es := Listing(root, [], 0);
    VisitsAllRoutes(root);
    ListingFollows(root, [], 0);
    Archive.SnapshotIsExact(cap, root);
    Projection.ListedEntriesAreCodable(root);
    DecodedArchive(es);
    var recs := Decoded(Archive.FullArchive(es)).value;
    forall i | 0 <= i < |routes| ensures Describes(recs[i], root, routes[i]) {
      assert Archive.Archivable(es[i]) && recs[i] == RecOf(es[i]);
      EntryDescribes(es[i], root, routes[i]);
    }
  }

  // ---------- when it is written ----------

  /** What a node contributes to the sizes that are limited. */
  function PayloadAt(root: Node, route: Route): nat {
    match NodeAt(root, route)
    case Some(Regular(_, content)) => |content|
    case Some(Symlink(_, target)) => |target|
    case _ => 0
  }

  function PayloadsAt(root: Node, routes: seq<Route>): nat {
    if routes == [] then 0 else PayloadAt(root, routes[0]) + PayloadsAt(root, routes[1..])
  }

  function PathsLength(routes: seq<Route>): nat {
    if routes == [] then 0 else |Text(routes[0])| + PathsLength(routes[1..])
  }

  /** One node is within the limits on depth, path, content and target. */
  predicate NodeFits(root: Node, route: Route) {
    && |route| <= 64 && |Text(route)| <= 4096
    && match NodeAt(root, route)
       case Some(Directory(_, _)) => true
       case Some(Regular(_, content)) => |content| <= 1024 * 1024
       case Some(Symlink(_, target)) => |target| <= 4096
       case _ => false
  }

  lemma SizesOfOne(e: Entry, root: Node, route: Route)
    requires ValidTree(root) && Follows([e], root, [], 0, [route])
    ensures |e.item.payload| == PayloadAt(root, route) && |e.path| == |Text(route)|
    ensures Archive.Archivable(e) <==> NodeFits(root, route)
  {
    assert [e][0] == e && [route][0] == route;
    RouteIsValid(root, route);
    ExtendIsText(route);
  }

  predicate AllFit(root: Node, routes: seq<Route>) {
    forall i :: 0 <= i < |routes| ==> NodeFits(root, routes[i])
  }

  lemma FitStep(root: Node, routes: seq<Route>)
    requires routes != []
    ensures AllFit(root, routes) <==> NodeFits(root, routes[0]) && AllFit(root, routes[1..])
  {
    assert forall i :: 0 < i < |routes| ==> routes[i] == routes[1..][i - 1];
  }

  lemma {:induction false} Sizes(es: seq<Entry>, root: Node, routes: seq<Route>)
    requires ValidTree(root) && Follows(es, root, [], 0, routes)
    ensures Archive.Payloads(es) == PayloadsAt(root, routes)
    ensures |Archive.Encoded(es)| == 20 * |routes| + PathsLength(routes) + PayloadsAt(root, routes)
    ensures Archive.AllArchivable(es) <==> AllFit(root, routes)
    decreases |es|
  {
    if es != [] {
      assert Follows(es[1..], root, [], 0, routes[1..]);
      Sizes(es[1..], root, routes[1..]);
      SizesOfOne(es[0], root, routes[0]);
      Archive.ArchivableStep(es);
      FitStep(root, routes);
    }
  }

  /** WRITTEN is said iff every node fits, there are at most 4096 of them with at
      most 16 MiB of content together, and the archive is no longer than the cap. */
  lemma WrittenIffWithinLimits(cap: nat, root: Node) returns (routes: seq<Route>)
    requires cap <= Archive.MAX_CAP && root.Directory? && ValidTree(root)
    ensures AllRoutes(root, routes)
    ensures Archive.SaysWritten(cap, root) <==>
              && AllFit(root, routes) && |routes| <= 4096 && PayloadsAt(root, routes) <= 16 * 1024 * 1024
              && 16 + 20 * |routes| + PathsLength(routes) + PayloadsAt(root, routes) <= cap
  {
    routes := Visited(root, 0);
    VisitsAllRoutes(root);
    ListingFollows(root, [], 0);
    Sizes(Listing(root, [], 0), root, routes);
    Archive.SnapshotIsExact(cap, root);
  }

  // ---------- equal archives ----------

  /** Both absent, or of one type with equal permission bits and equal content. */
  predicate Alike(x: Option<Node>, y: Option<Node>) {
    match (x, y)
    case (None, None) => true
    case (Some(Directory(m, _)), Some(Directory(n, _))) => m % 4096 == n % 4096
    case (Some(Regular(m, c)), Some(Regular(n, d))) => m % 4096 == n % 4096 && c == d
    case (Some(Symlink(m, s)), Some(Symlink(n, t))) => m % 4096 == n % 4096 && s == t
    case _ => false
  }

  lemma {:induction false} LookupIsItem(n: Node, route: Route)
    ensures Projection.Lookup(n, route) == match NodeAt(n, route) { case None => None case Some(m) => Some(ItemOf(m)) }
    decreases |route|
  {
    if route != [] && n.Directory? && Find(n.children, route[0]) < |n.children| {
      LookupIsItem(n.children[Find(n.children, route[0])].node, route[1..]);
    }
  }

  lemma NoSpecialIn(cap: nat, root: Node, route: Route)
    requires cap <= Archive.MAX_CAP && root.Directory? && ValidTree(root) && Archive.SaysWritten(cap, root)
    requires Projection.OutsideInput(route) && NodeAt(root, route).Some?
    ensures !NodeAt(root, route).value.Special?
  {
    var routes := WrittenIffWithinLimits(cap, root);
    assert route in routes;
    var i :| 0 <= i < |routes| && routes[i] == route;
    assert NodeFits(root, routes[i]);
  }

  /** Two written archives are the same octets iff the two trees have, at every
      route outside `input`, both nothing or nodes that are alike. */
  lemma EqualArchivesIffAlike(cap: nat, a: Node, b: Node)
    requires cap <= Archive.MAX_CAP && a.Directory? && b.Directory? && ValidTree(a) && ValidTree(b)
    requires Archive.SaysWritten(cap, a) && Archive.SaysWritten(cap, b)
    ensures Archive.Snapshot(cap, a).Some? && Archive.Snapshot(cap, b).Some?
    ensures Archive.Snapshot(cap, a).value.buffer.bytes == Archive.Snapshot(cap, b).value.buffer.bytes <==>
              forall route: Route :: route == [] || route[0] != [105, 110, 112, 117, 116] ==>
                Alike(NodeAt(a, route), NodeAt(b, route))
  {
    Projection.ArchiveIsProjection(cap, a, b);
    forall route: Route | Projection.OutsideInput(route)
      ensures Alike(NodeAt(a, route), NodeAt(b, route)) <==> Projection.Lookup(a, route) == Projection.Lookup(b, route)
    {
      LookupIsItem(a, route);
      LookupIsItem(b, route);
      if NodeAt(a, route).Some? {
        NoSpecialIn(cap, a, route);
      }
      if NodeAt(b, route).Some? {
        NoSpecialIn(cap, b, route);
      }
    }
  }
}
