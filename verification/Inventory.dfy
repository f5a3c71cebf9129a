/** The artifact inventory: a traversal with an explicit stack of open
    descriptors, against the recursive inventory of the tree. */
module Inventory {
  import opened Words
  import opened Workspace

  datatype Issue = NotASymlink(path: Octets) | NotRegular(path: Octets) | TooManyEntries

  /** Relative paths; the root directory's own is empty. */
  datatype Found = Found(files: set<Octets>, directories: set<Octets>, issues: seq<Issue>, entries: nat) {
    function Plus(other: Found): Found {
      Found(files + other.files, directories + other.directories, issues + other.issues, entries + other.entries)
    }
  }

  const NOTHING := Found({}, {}, [], 0)

  // ---------- the recursive inventory ----------

  /** One entry by itself, looked at without following it. */
  function Here(node: Node, path: Octets): Found {
    match node
    case Regular(_, _) => Found({path}, {}, [], 1)
    case Directory(_, _) => Found({}, {path}, [], 1)
    case Symlink(_, _) => Found({}, {}, [NotASymlink(path)], 1)
    case Special(_) => Found({}, {}, [NotRegular(path)], 1)
  }

  function Own(cs: seq<Child>, path: Octets): Found {
    if cs == [] then NOTHING
    else
      var c := cs[|cs| - 1];
      Own(cs[..|cs| - 1], path).Plus(Here(c.node, Join(path, c.name)))
  }

  /** A directory's own entries, in order of their names, then everything below
      its directories in the same order. */
  function InventoryOf(n: Node, path: Octets): Found
    requires n.Directory?
    decreases n, 1, 0
  {
    var cs := Sorted(n.children);
    SortedHasSameMembers(n.children);
    Own(cs, path).Plus(Below(n, cs, path))
  }

  function Below(parent: Node, cs: seq<Child>, path: Octets): Found
    requires parent.Directory? && forall c :: c in cs ==> c in parent.children
    decreases parent, 0, |cs|
  {
    if cs == [] then NOTHING
    else
      assert cs[0] in parent.children;
      (if cs[0].node.Directory? then InventoryOf(cs[0].node, Join(path, cs[0].name)) else NOTHING)
      .Plus(Below(parent, cs[1..], path))
  }

  lemma PlusAssociates(a: Found, b: Found, c: Found)
    ensures a.Plus(b).Plus(c) == a.Plus(b.Plus(c))
    ensures a.Plus(NOTHING) == a && NOTHING.Plus(a) == a
  {
  }

  // ---------- the stack ----------

  datatype Frame = Frame(descriptor: nat, path: Octets, node: Node)

  /** What the frames still have to contribute, top of the stack first. */
  function Pending(stack: seq<Frame>): Found
    requires forall k :: 0 <= k < |stack| ==> stack[k].node.Directory?
  {
    if stack == [] then NOTHING
    else
      var top := stack[|stack| - 1];
      InventoryOf(top.node, top.path).Plus(Pending(stack[..|stack| - 1]))
  }

  function Descriptors(stack: seq<Frame>): set<nat> {
    set k | 0 <= k < |stack| :: stack[k].descriptor
  }

  predicate OwnDescriptors(stack: seq<Frame>) {
    forall j, k :: 0 <= j < k < |stack| ==> stack[j].descriptor != stack[k].descriptor
  }

  predicate AllDirectories(stack: seq<Frame>) {
    forall k :: 0 <= k < |stack| ==> stack[k].node.Directory?
  }

  function Reversed(frames: seq<Frame>): (r: seq<Frame>)
    ensures |r| == |frames| && forall k :: 0 <= k < |r| ==> r[k] == frames[|frames| - 1 - k]
  {
    if frames == [] then [] else Reversed(frames[1..]) + [frames[0]]
  }

  /** The frames of a directory's child directories contribute what is below it. */
  predicate FramesOf(frames: seq<Frame>, cs: seq<Child>, path: Octets) {
    if cs == [] then frames == []
    else
      var c := cs[|cs| - 1];
      if c.node.Directory? then
        frames != [] && frames[|frames| - 1].node == c.node && frames[|frames| - 1].path == Join(path, c.name)
        && FramesOf(frames[..|frames| - 1], cs[..|cs| - 1], path)
      else FramesOf(frames, cs[..|cs| - 1], path)
  }

  /** Contributions of frames in the order they are given. */
  function InOrder(frames: seq<Frame>): Found
    requires AllDirectories(frames)
  {
    if frames == [] then NOTHING
    else
      var last := frames[|frames| - 1];
      InOrder(frames[..|frames| - 1]).Plus(InventoryOf(last.node, last.path))
  }

  function DeepOf(c: Child, path: Octets): Found {
    if c.node.Directory? then InventoryOf(c.node, Join(path, c.name)) else NOTHING
  }

  lemma BelowCons(parent: Node, cs: seq<Child>, path: Octets)
    requires parent.Directory? && cs != [] && forall c :: c in cs ==> c in parent.children
    ensures Below(parent, cs, path) == DeepOf(cs[0], path).Plus(Below(parent, cs[1..], path))
  {
  }

  lemma {:induction false} BelowSnoc(parent: Node, front: seq<Child>, c: Child, path: Octets)
    requires parent.Directory? && c in parent.children && forall d :: d in front ==> d in parent.children
    ensures Below(parent, front + [c], path) == Below(parent, front, path).Plus(DeepOf(c, path))
    decreases |front|
  {
    BelowCons(parent, front + [c], path);
    if front == [] {
      assert (front + [c])[1..] == [];
    } else {
      assert (front + [c])[1..] == front[1..] + [c];
      BelowSnoc(parent, front[1..], c, path);
      BelowCons(parent, front, path);
      PlusAssociates(DeepOf(front[0], path), Below(parent, front[1..], path), DeepOf(c, path));
    }
  }

  lemma {:induction false} FramesContribute(parent: Node, frames: seq<Frame>, cs: seq<Child>, path: Octets)
    requires parent.Directory? && AllDirectories(frames) && FramesOf(frames, cs, path)
    requires forall c :: c in cs ==> c in parent.children
    ensures InOrder(frames) == Below(parent, cs, path)
    decreases |cs|
  {
    if cs != [] {
      var front, c := cs[..|cs| - 1], cs[|cs| - 1];
      assert forall d :: d in front ==> d in cs;
      assert cs == front + [c];
      BelowSnoc(parent, front, c, path);
      if c.node.Directory? {
        FramesContribute(parent, frames[..|frames| - 1], front, path);
        assert InOrder(frames) == InOrder(frames[..|frames| - 1]).Plus(DeepOf(c, path));
      } else {
        FramesContribute(parent, frames, front, path);
        PlusAssociates(InOrder(frames), NOTHING, NOTHING);
      }
    }
  }

  /** Pushing frames in reverse puts their contributions first, in order. */
  lemma {:induction false} PushReversed(stack: seq<Frame>, frames: seq<Frame>)
    requires AllDirectories(stack) && AllDirectories(frames)
    ensures AllDirectories(stack + Reversed(frames))
    ensures Pending(stack + Reversed(frames)) == InOrder(frames).Plus(Pending(stack))
    decreases |frames|
  {
    if frames == [] {
      assert stack + Reversed(frames) == stack;
    } else {
      var front, last := frames[..|frames| - 1], frames[|frames| - 1];
      assert Reversed(frames) == [last] + Reversed(front);
      assert stack + Reversed(frames) == (stack + [last]) + Reversed(front);
      assert (stack + [last])[..|stack|] == stack;
      PushReversed(stack + [last], front);
      PlusAssociates(InOrder(front), InventoryOf(last.node, last.path), Pending(stack));
    }
  }

  // ---------- descriptors ----------

  class DescriptorTable {
    var open: set<nat>

    /** open and dup: a descriptor that was not open. */
    method Open() returns (d: nat)
      modifies this
      ensures d !in old(open) && open == old(open) + {d}
    {
      d := Unused(open);
      open := open + {d};
    }

    method Close(d: nat)
      requires d in open
      modifies this
      ensures open == old(open) - {d}
    {
      open := open - {d};
    }
  }

  function Numbers(n: nat): set<nat> {
    if n == 0 then {} else Numbers(n - 1) + {n - 1}
  }

  /** The lowest descriptor not open. */
  method Unused(open: set<nat>) returns (d: nat)
    ensures d !in open
  {
    d := 0;
    while d in open
      invariant Numbers(d) <= open && forall k :: k in Numbers(d) ==> k < d
      decreases |open - Numbers(d)|
    {
      assert open - Numbers(d) == (open - (Numbers(d) + {d})) + {d};
      d := d + 1;
    }
  }

  // ---------- the traversal ----------

  /** Counts entries as they are listed, and stops at the first beyond the ceiling. */
  method ScanEntries(children: seq<Child>, seen: nat, maximum: nat) returns (names: seq<Child>, now: nat, excess: bool)
    requires seen <= maximum
    ensures excess <==> seen + |children| > maximum
    ensures !excess ==> names == children && now == seen + |children|
  {
    names, now := [], seen;
    for k := 0 to |children|
      invariant names == children[..k] && now == seen + k <= maximum
    {
      now := now + 1;
      if now > maximum {
        return names, now, true;
      }
      names := names + [children[k]];
    }
    assert children[..|children|] == children;
    return names, now, false;
  }

  lemma {:induction false} OwnCounts(cs: seq<Child>, path: Octets)
    ensures Own(cs, path).entries == |cs|
  {
    if cs != [] {
      OwnCounts(cs[..|cs| - 1], path);
    }
  }

  lemma SortedLength(cs: seq<Child>)
    ensures |Sorted(cs)| == |cs|
  {
    assert |multiset(Sorted(cs))| == |multiset(cs)|;
  }

  /** Records each entry in name order and opens its child directories. */
  method LookAtEntries(table: DescriptorTable, cs: seq<Child>, path: Octets) returns (own: Found, frames: seq<Frame>)
    modifies table
    ensures own == Own(cs, path) && FramesOf(frames, cs, path) && AllDirectories(frames) && |frames| <= |cs|
    ensures OwnDescriptors(frames) && Descriptors(frames) !! old(table.open)
    ensures table.open == old(table.open) + Descriptors(frames)
  {
    own, frames := NOTHING, [];
    for k := 0 to |cs|
      invariant own == Own(cs[..k], path) && FramesOf(frames, cs[..k], path) && AllDirectories(frames) && |frames| <= k
      invariant OwnDescriptors(frames) && Descriptors(frames) !! old(table.open)
      invariant table.open == old(table.open) + Descriptors(frames)
    {
      var c := cs[k];
      var relative := Join(path, c.name);
      assert cs[..k + 1][..k] == cs[..k];
      own := own.Plus(Here(c.node, relative));
      if c.node.Directory? {
        var d := table.Open();
        var frame := Frame(d, relative, c.node);
        OneMoreDescriptor(frames, frame);
        assert (frames + [frame])[..|frames|] == frames;
        frames := frames + [frame];
      }
    }
    assert cs[..|cs|] == cs;
  }

  lemma OneMoreDescriptor(frames: seq<Frame>, frame: Frame)
    ensures Descriptors(frames + [frame]) == Descriptors(frames) + {frame.descriptor}
    ensures OwnDescriptors(frames) && frame.descriptor !in Descriptors(frames) ==> OwnDescriptors(frames + [frame])
  {
    var more := frames + [frame];
    assert forall k :: 0 <= k < |frames| ==> more[k] == frames[k];
    assert more[|frames|] == frame;
  }

  method CloseAll(table: DescriptorTable, stack: seq<Frame>)
    requires Descriptors(stack) <= table.open && OwnDescriptors(stack)
    modifies table
    ensures table.open == old(table.open) - Descriptors(stack)
  {
    for k := 0 to |stack|
      invariant table.open == old(table.open) - Descriptors(stack[..k])
    {
      assert stack[..k + 1] == stack[..k] + [stack[k]];
      OneMoreDescriptor(stack[..k], stack[k]);
      assert stack[k].descriptor in Descriptors(stack);
      table.Close(stack[k].descriptor);
    }
    assert stack[..|stack|] == stack;
  }

  lemma FirstDescriptor(frames: seq<Frame>)
    requires frames != []
    ensures Descriptors(frames) == {frames[0].descriptor} + Descriptors(frames[1..])
    ensures OwnDescriptors(frames) ==> OwnDescriptors(frames[1..]) && frames[0].descriptor !in Descriptors(frames[1..])
  {
    assert forall k :: 0 < k < |frames| ==> frames[k] == frames[1..][k - 1];
  }

  lemma {:induction false} PushDescriptors(stack: seq<Frame>, frames: seq<Frame>)
    requires OwnDescriptors(stack) && OwnDescriptors(frames) && Descriptors(stack) !! Descriptors(frames)
    ensures Descriptors(stack + Reversed(frames)) == Descriptors(stack) + Descriptors(frames)
    ensures OwnDescriptors(stack + Reversed(frames))
    decreases |frames|
  {
    if frames == [] {
      assert stack + Reversed(frames) == stack;
    } else {
      FirstDescriptor(frames);
      PushDescriptors(stack, frames[1..]);
      OneMoreDescriptor(stack + Reversed(frames[1..]), frames[0]);
      assert stack + Reversed(frames) == (stack + Reversed(frames[1..])) + [frames[0]];
    }
  }

  lemma VisitSums(top: Frame, frames: seq<Frame>)
    requires top.node.Directory? && AllDirectories(frames)
    requires FramesOf(frames, Sorted(top.node.children), top.path)
    ensures InventoryOf(top.node, top.path) == Own(Sorted(top.node.children), top.path).Plus(InOrder(frames))
  {
    var cs := Sorted(top.node.children);
    SortedHasSameMembers(top.node.children);
    assert InventoryOf(top.node, top.path) == Own(cs, top.path).Plus(Below(top.node, cs, top.path));
    FramesContribute(top.node, frames, cs, top.path);
  }

  /** What popping one directory and pushing its child directories does. */
  lemma VisitContributes(stack: seq<Frame>, top: Frame, frames: seq<Frame>)
    requires AllDirectories(stack) && top.node.Directory? && AllDirectories(frames)
    requires FramesOf(frames, Sorted(top.node.children), top.path)
    ensures var cs := Sorted(top.node.children);
      && AllDirectories(stack + [top]) && AllDirectories(stack + Reversed(frames))
      && Own(cs, top.path).Plus(Pending(stack + Reversed(frames))) == Pending(stack + [top])
  {
    var cs := Sorted(top.node.children);
    VisitSums(top, frames);
    PushReversed(stack, frames);
    assert (stack + [top])[..|stack|] == stack;
    PlusAssociates(Own(cs, top.path), InOrder(frames), Pending(stack));
  }

  /** One directory below the ceiling: its entries are recorded, its descriptor
      is closed and its child directories take its place on the stack. */
  method Visit(table: DescriptorTable, rest: seq<Frame>, top: Frame, r: Found, ghost base: set<nat>)
    returns (now: Found, stack: seq<Frame>)
    requires AllDirectories(rest) && OwnDescriptors(rest) && top.node.Directory? && AllDirectories(rest + [top])
    requires Descriptors(rest) !! base && top.descriptor !in Descriptors(rest) && top.descriptor !in base
    requires table.open == base + Descriptors(rest) + {top.descriptor}
    modifies table
    ensures AllDirectories(stack) && OwnDescriptors(stack) && Descriptors(stack) !! base
    ensures table.open == base + Descriptors(stack)
    ensures now.Plus(Pending(stack)) == r.Plus(Pending(rest + [top]))
    ensures now.entries == r.entries + |top.node.children|
    ensures Pending(stack).entries + |stack| < Pending(rest + [top]).entries + |rest + [top]|
  {
    var own, frames := LookAtEntries(table, Sorted(top.node.children), top.path);
    VisitContributes(rest, top, frames);
    OwnCounts(Sorted(top.node.children), top.path);
    SortedLength(top.node.children);
    PushDescriptors(rest, frames);
    table.Close(top.descriptor);
    stack := rest + Reversed(frames);
    PlusAssociates(r, own, Pending(stack));
    now := r.Plus(own);
  }

  /** Nothing that is not in the tree, and the issues in their order. */
  predicate PartOf(r: Found, whole: Found) {
    r.files <= whole.files && r.directories <= whole.directories && r.issues <= whole.issues
  }

  lemma Overfull(r: Found, rest: seq<Frame>, top: Frame, whole: Found, maximum: nat)
    requires AllDirectories(rest) && top.node.Directory? && AllDirectories(rest + [top])
    requires r.Plus(Pending(rest + [top])) == whole && r.entries + |top.node.children| > maximum
    ensures whole.entries > maximum && PartOf(r, whole)
  {
    var cs := Sorted(top.node.children);
    assert (rest + [top])[..|rest|] == rest;
    SortedLength(top.node.children);
    OwnCounts(cs, top.path);
  }

  method GiveUp(table: DescriptorTable, rest: seq<Frame>, top: Frame, r: Found) returns (partial: Found)
    requires OwnDescriptors(rest + [top]) && Descriptors(rest + [top]) <= table.open
    modifies table
    ensures table.open == old(table.open) - Descriptors(rest + [top])
    ensures partial == r.(issues := r.issues + [TooManyEntries])
  {
    OneMoreDescriptor(rest, top);
    OwnRest(rest, top);
    table.Close(top.descriptor);
    CloseAll(table, rest);
    partial := r.(issues := r.issues + [TooManyEntries]);
  }

  lemma OwnRest(rest: seq<Frame>, top: Frame)
    requires OwnDescriptors(rest + [top])
    ensures OwnDescriptors(rest) && top.descriptor !in Descriptors(rest)
  {
    assert forall k :: 0 <= k < |rest| ==> (rest + [top])[k] == rest[k];
    assert (rest + [top])[|rest|] == top;
  }

  /** The state of the traversal between two directories. */
  ghost predicate Underway(table: DescriptorTable, stack: seq<Frame>, r: Found, whole: Found, maximum: nat, base: set<nat>)
    reads table
  {
    && AllDirectories(stack) && OwnDescriptors(stack) && Descriptors(stack) !! base
    && table.open == base + Descriptors(stack)
    && r.Plus(Pending(stack)) == whole && r.entries <= maximum
  }

  /** Pops one directory. */
  method Turn(table: DescriptorTable, rest: seq<Frame>, top: Frame, r: Found, maximum: nat,
              ghost whole: Found, ghost base: set<nat>)
    returns (now: Found, stack: seq<Frame>, excess: bool)
    requires Underway(table, rest + [top], r, whole, maximum, base)
    modifies table
    ensures !excess ==> Underway(table, stack, now, whole, maximum, base)
    ensures !excess ==> Pending(stack).entries + |stack| < Pending(rest + [top]).entries + |rest + [top]|
    ensures excess ==> table.open == base && whole.entries > maximum && PartOf(r, whole)
    ensures excess ==> now == r.(issues := r.issues + [TooManyEntries])
  {
    OneMoreDescriptor(rest, top);
    OwnRest(rest, top);
    assert (rest + [top])[|rest|] == top && forall k :: 0 <= k < |rest| ==> (rest + [top])[k] == rest[k];
    var names, seen;
    names, seen, excess := ScanEntries(top.node.children, r.entries, maximum);
    if excess {
      Overfull(r, rest, top, whole, maximum);
      now := GiveUp(table, rest, top, r);
      stack := [];
    } else {
      now, stack := Visit(table, rest, top, r, base);
    }
  }

  /** Empties the stack. */
  method Traverse(table: DescriptorTable, first: Frame, maximum: nat, ghost whole: Found, ghost base: set<nat>)
    returns (r: Found, excess: bool)
    requires Underway(table, [first], NOTHING, whole, maximum, base)
    modifies table
    ensures table.open == base
    ensures excess <==> whole.entries > maximum
    ensures !excess ==> r == whole
    ensures excess ==> r.issues != [] && r.issues[|r.issues| - 1] == TooManyEntries
                       && PartOf(r.(issues := r.issues[..|r.issues| - 1]), whole)
  {
    r, excess := NOTHING, false;
    var stack := [first];
    while stack != []
      invariant Underway(table, stack, r, whole, maximum, base)
      decreases Pending(stack).entries + |stack|
    {
      var top, rest := stack[|stack| - 1], stack[..|stack| - 1];
      assert stack == rest + [top];
      ghost var before := r;
      r, stack, excess := Turn(table, rest, top, r, maximum, whole, base);
      if excess {
        assert r.issues[..|r.issues| - 1] == before.issues;
        return;
      }
    }
    PlusAssociates(r, NOTHING, NOTHING);
  }

  /** The recursive inventory exactly, or an excess exactly when the tree has
      more entries than the ceiling; either way every descriptor is closed. */
  method InventoryDirectory(table: DescriptorTable, root: Node, maximum: nat) returns (r: Found, excess: bool)
    requires root.Directory?
    modifies table
    ensures table.open == old(table.open)
    ensures excess <==> InventoryOf(root, []).entries > maximum
    ensures !excess ==> r == InventoryOf(root, [])
    ensures excess ==> r.issues != [] && r.issues[|r.issues| - 1] == TooManyEntries
                       && PartOf(r.(issues := r.issues[..|r.issues| - 1]), InventoryOf(root, []))
  {
    var d := table.Open();
    FirstFrame(Frame(d, [], root));
    FirstDescriptors(Frame(d, [], root));
    r, excess := Traverse(table, Frame(d, [], root), maximum, InventoryOf(root, []), old(table.open));
  }

  lemma FirstFrame(f: Frame)
    requires f.node.Directory?
    ensures AllDirectories([f]) && NOTHING.Plus(Pending([f])) == InventoryOf(f.node, f.path)
  {
    assert [f][..0] == [];
    PlusAssociates(InventoryOf(f.node, f.path), NOTHING, NOTHING);
  }

  lemma FirstDescriptors(f: Frame)
    ensures Descriptors([f]) == {f.descriptor} && OwnDescriptors([f])
  {
    assert [f][0] == f;
  }
}
