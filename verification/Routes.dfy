/** Routes of names through a workspace tree, and the order a pre-order walk
    visits them in. */
module Routes {
  import opened Options
  import opened Words
  import opened Workspace

  type Route = seq<Octets>

  /** The position of the child called `name`, or |cs|. */
  function Find(cs: seq<Child>, name: Octets): (k: nat)
    ensures k <= |cs| && (k < |cs| ==> cs[k].name == name)
    ensures forall i :: 0 <= i < k ==> cs[i].name != name
  {
    if cs == [] || cs[0].name == name then 0 else 1 + Find(cs[1..], name)
  }

  /** The node a route of names ends at. */
  function NodeAt(n: Node, route: Route): Option<Node>
    decreases |route|
  {
    if route == [] then Some(n)
    else if !n.Directory? then None
    else
      var k := Find(n.children, route[0]);
      if k < |n.children| then NodeAt(n.children[k].node, route[1..]) else None
  }

  /** The names of a route separated by slashes. */
  function Text(route: Route): Octets {
    if route == [] then []
    else if |route| == 1 then route[0]
    else route[0] + [47] + Text(route[1..])
  }

  /** A directory before everything in it, siblings by name. */
  predicate Precedes(r: Route, s: Route) {
    s != [] && (r == [] || Before(r[0], s[0]) || (r[0] == s[0] && Precedes(r[1..], s[1..])))
  }

  predicate InOrder(routes: seq<Route>) {
    forall i, j :: 0 <= i < j < |routes| ==> Precedes(routes[i], routes[j])
  }

  lemma FindUnique(cs: seq<Child>, k: nat)
    requires DistinctNames(cs) && k < |cs|
    ensures Find(cs, cs[k].name) == k
  {
    assert forall i :: 0 <= i < k ==> cs[i].name != cs[k].name;
  }

  lemma ChildAt(n: Node, c: Child, route: Route)
    requires ValidTree(n) && n.Directory? && c in n.children
    ensures NodeAt(n, [c.name] + route) == NodeAt(c.node, route)
  {
    var k :| 0 <= k < |n.children| && n.children[k] == c;
    FindUnique(n.children, k);
    assert ([c.name] + route)[1..] == route;
  }
}
