/** The serializer as it runs: one bounded array filled in place by a recursive
    traversal that gives up at the first entry it cannot record. */
module SnapshotWriter {
  import opened Options
  import opened Words
  import opened Workspace
  import Archive
  import ArchiveReading

  const READ_BLOCK := 4096

  // ---------- how a walk unfolds along a directory ----------

  lemma WalkFirst(b: Archive.Buffer, e: Entry, rest: seq<Entry>)
    requires b.Valid()
    ensures Archive.Walk(b, [e] + rest) ==
              var w := Archive.Record(b, e);
              if w.status != Archive.Complete then w else Archive.Walk(w.buffer, rest)
  {
    assert ([e] + rest)[0] == e && ([e] + rest)[1..] == rest;
  }

  lemma DirectoryIsHeaderOnly(b: Archive.Buffer, e: Entry)
    requires b.Valid() && e.depth <= Archive.MAX_DEPTH && e.item.kind.DirectoryKind? && e.item.payload == []
    ensures Archive.Record(b, e) == Archive.RecordHeader(b, e)
  {
    var w := Archive.RecordHeader(b, e);
    assert w.buffer.bytes + [] == w.buffer.bytes;
  }

  lemma ChildFirst(b: Archive.Buffer, dir: Node, cs: seq<Child>, path: Octets, depth: nat)
    requires b.Valid() && dir.Directory? && cs != [] && forall c :: c in cs ==> c in dir.children
    ensures Archive.Walk(b, ListingOf(dir, cs, path, depth)) ==
              if Skipped(cs[0].name, depth) then Archive.Walk(b, ListingOf(dir, cs[1..], path, depth))
              else
                var w := Archive.Walk(b, Listing(cs[0].node, Join(path, cs[0].name), depth + 1));
                if w.status != Archive.Complete then w
                else Archive.Walk(w.buffer, ListingOf(dir, cs[1..], path, depth))
  {
    var rest := ListingOf(dir, cs[1..], path, depth);
    if Skipped(cs[0].name, depth) {
      assert ListingOf(dir, cs, path, depth) == [] + rest;
      assert [] + rest == rest;
    } else {
      Archive.WalkConcat(b, Listing(cs[0].node, Join(path, cs[0].name), depth + 1), rest);
    }
  }

  lemma TooDeep(b: Archive.Buffer, dir: Node, cs: seq<Child>, path: Octets, depth: nat)
    requires b.Valid() && dir.Directory? && cs != [] && forall c :: c in cs ==> c in dir.children
    requires depth >= Archive.MAX_DEPTH
    ensures Archive.Walk(b, ListingOf(dir, cs, path, depth)) == Archive.Written(b.ForceOverflow(), Archive.Overflowed)
  {
    ChildFirst(b, dir, cs, path, depth);
    var first := Listing(cs[0].node, Join(path, cs[0].name), depth + 1);
    assert first == [first[0]] + first[1..];
    WalkFirst(b, first[0], first[1..]);
  }

  // ---------- the buffer ----------

  class SnapshotBuffer {
    var bytes: array<Byte>
    var used: nat
    var entries: nat
    var total: nat
    var overflow: bool

    ghost predicate Valid()
      reads this, bytes
    {
      used <= bytes.Length && View().Valid()
    }

    ghost function View(): (r: Archive.Buffer)
      requires used <= bytes.Length
      reads this, bytes
    {
      Archive.Buffer(bytes[..used], bytes.Length, entries, total, overflow)
    }

    constructor (ceiling: nat)
      ensures Valid() && fresh(bytes)
      ensures View() == Archive.Buffer([], ceiling, 0, 0, false)
    {
      bytes := new Byte[ceiling];
      used, entries, total, overflow := 0, 0, 0, false;
    }

    method Append(source: Octets) returns (failed: bool)
      requires Valid()
      modifies this, bytes
      ensures Valid() && bytes == old(bytes)
      ensures View() == old(View()).Append(source)
      ensures failed == View().overflow
    {
      if overflow {
        return true;
      }
      var amount := Min(|source|, bytes.Length - used);
      forall k | 0 <= k < amount {
        bytes[used + k] := source[k];
      }
      used := used + amount;
      assert bytes[..used] == old(bytes[..used]) + source[..amount];
      overflow := amount != |source|;
      return overflow;
    }

    method ForceOverflow()
      requires Valid()
      modifies this, bytes
      ensures Valid() && bytes == old(bytes)
      ensures View() == old(View()).ForceOverflow()
    {
      forall k | used <= k < bytes.Length {
        bytes[k] := 0;
      }
      used := bytes.Length;
      overflow := true;
      assert bytes[..used] == old(bytes[..used]) + seq(bytes.Length - old(used), _ => 0);
    }

    /** The five appends of a header, each skipped once one has failed. */
    method AppendHeader(e: Entry) returns (failed: bool)
      requires Valid() && !View().overflow
      modifies this, bytes
      ensures Valid() && bytes == old(bytes)
      ensures View() == old(View()).Append(Archive.EncodedHeader(e))
      ensures failed == View().overflow
    {
      ghost var b := View();
      var fixed: Octets := [Archive.Code(e.item.kind), 0, 0, 0];
      var mode := LittleEndian(e.item.mode, 4);
      var pathBytes := LittleEndian(|e.path|, 4);
      var payloadBytes := LittleEndian(|e.item.payload|, 8);
      ghost var rest3 := payloadBytes + e.path;
      ghost var rest2 := pathBytes + rest3;
      ghost var rest1 := mode + rest2;
      assert Archive.EncodedHeader(e) == fixed + rest1;
      Archive.AppendPieces(b, fixed, rest1);
      failed := Append(fixed);
      if failed { return; }
      Archive.AppendPieces(View(), mode, rest2);
      failed := Append(mode);
      if failed { return; }
      Archive.AppendPieces(View(), pathBytes, rest3);
      failed := Append(pathBytes);
      if failed { return; }
      Archive.AppendPieces(View(), payloadBytes, e.path);
      failed := Append(payloadBytes);
      if failed { return; }
      failed := Append(e.path);
    }

    method RecordHeader(e: Entry) returns (status: Archive.Status)
      requires Valid() && !View().overflow
      modifies this, bytes
      ensures Valid() && bytes == old(bytes)
      ensures Archive.Written(View(), status) == Archive.RecordHeader(old(View()), e)
    {
      if |e.path| > Archive.MAX_PATH || entries >= Archive.MAX_ENTRIES {
        ForceOverflow();
        return Archive.Overflowed;
      }
      var failed := AppendHeader(e);
      if failed {
        return Archive.Overflowed;
      }
      entries := entries + 1;
      return Archive.Complete;
    }

    /** The file is read in blocks; each read returns between one octet and
        the whole block. */
    method AppendContent(content: Octets) returns (failed: bool)
      requires Valid() && !View().overflow
      modifies this, bytes
      ensures Valid() && bytes == old(bytes)
      ensures View() == old(View()).Append(content)
      ensures failed == View().overflow
    {
      var done := 0;
      ghost var b := View();
      assert b.bytes + content[..0] == b.bytes;
      while done < |content|
        invariant 0 <= done <= |content| && Valid() && bytes == old(bytes)
        invariant !overflow && View() == b.Append(content[..done])
      {
        var requested := Min(|content| - done, READ_BLOCK);
        var amount :| 1 <= amount <= requested;
        ghost var c := View();
        Archive.AppendPieces(b, content[..done], content[done..done + amount]);
        assert content[..done] + content[done..done + amount] == content[..done + amount];
        failed := Append(content[done..done + amount]);
        if failed {
          assert content[..done + amount] + content[done + amount..] == content;
          Archive.AppendPieces(b, content[..done + amount], content[done + amount..]);
          return;
        }
        done := done + amount;
      }
      assert content[..done] == content;
      failed := false;
    }

    method SnapshotRegular(e: Entry) returns (status: Archive.Status)
      requires Valid() && !View().overflow && e.item.kind.RegularKind? && e.depth <= Archive.MAX_DEPTH
      modifies this, bytes
      ensures Valid() && bytes == old(bytes)
      ensures Archive.Written(View(), status) == Archive.Record(old(View()), e)
    {
      var size := |e.item.payload|;
      if size > Archive.MAX_REGULAR || total > Archive.MAX_TOTAL - size {
        ForceOverflow();
        return Archive.Overflowed;
      }
      total := total + size;
      status := RecordHeader(e);
      if status != Archive.Complete {
        return;
      }
      var failed := AppendContent(e.item.payload);
      status := if failed then Archive.Overflowed else Archive.Complete;
    }

    method SnapshotSymlink(e: Entry) returns (status: Archive.Status)
      requires Valid() && !View().overflow && e.item.kind.SymlinkKind? && e.depth <= Archive.MAX_DEPTH
      modifies this, bytes
      ensures Valid() && bytes == old(bytes)
      ensures Archive.Written(View(), status) == Archive.Record(old(View()), e)
    {
      var size := |e.item.payload|;
      if size > Archive.MAX_TARGET || total > Archive.MAX_TOTAL - size {
        ForceOverflow();
        return Archive.Overflowed;
      }
      total := total + size;
      status := RecordHeader(e);
      if status == Archive.Complete {
        var failed := Append(e.item.payload);
        if failed {
          status := Archive.Overflowed;
        }
      }
    }

    method SnapshotDirectory(dir: Node, path: Octets, depth: nat) returns (status: Archive.Status)
      requires Valid() && !View().overflow && dir.Directory?
      modifies this, bytes
      ensures Valid() && bytes == old(bytes)
      ensures Archive.Written(View(), status) == Archive.Walk(old(View()), Listing(dir, path, depth))
      decreases dir, 1
    {
      var e := Entry(path, ItemOf(dir), depth);
      SortedHasSameMembers(dir.children);
      var names := Sorted(dir.children);
      ghost var below := ListingOf(dir, names, path, depth);
      assert Listing(dir, path, depth) == [e] + below;
      WalkFirst(View(), e, below);
      if depth > Archive.MAX_DEPTH {
        ForceOverflow();
        return Archive.Overflowed;
      }
      DirectoryIsHeaderOnly(View(), e);
      status := RecordHeader(e);
      if status != Archive.Complete {
        return;
      }
      if depth >= Archive.MAX_DEPTH && |names| > 0 {
        TooDeep(View(), dir, names, path, depth);
        ForceOverflow();
        return Archive.Overflowed;
      }
      status := SnapshotChildren(dir, names, path, depth);
    }

    method SnapshotChildren(dir: Node, names: seq<Child>, path: Octets, depth: nat) returns (status: Archive.Status)
      requires Valid() && !View().overflow && dir.Directory?
      requires forall c :: c in names ==> c in dir.children
      requires names != [] ==> depth < Archive.MAX_DEPTH
      modifies this, bytes
      ensures Valid() && bytes == old(bytes)
      ensures Archive.Written(View(), status) == Archive.Walk(old(View()), ListingOf(dir, names, path, depth))
      decreases dir, 0
    {
      ghost var whole := Archive.Walk(View(), ListingOf(dir, names, path, depth));
      var index := 0;
      assert names[0..] == names;
      while index < |names|
        invariant 0 <= index <= |names| && Valid() && bytes == old(bytes)
        invariant !overflow
        invariant Archive.Walk(View(), ListingOf(dir, names[index..], path, depth)) == whole
      {
        assert names[index..][1..] == names[index + 1..];
        status := SnapshotNext(dir, names[index..], path, depth);
        if status != Archive.Complete {
          return;
        }
        index := index + 1;
      }
      status := Archive.Complete;
    }

    /** The first of the remaining names. */
    method SnapshotNext(dir: Node, names: seq<Child>, path: Octets, depth: nat) returns (status: Archive.Status)
      requires Valid() && !View().overflow && dir.Directory? && names != []
      requires forall c :: c in names ==> c in dir.children
      requires depth < Archive.MAX_DEPTH
      modifies this, bytes
      ensures Valid() && bytes == old(bytes)
      ensures status == Archive.Complete ==>
                && !View().overflow
                && Archive.Walk(View(), ListingOf(dir, names[1..], path, depth))
                   == Archive.Walk(old(View()), ListingOf(dir, names, path, depth))
      ensures status != Archive.Complete ==>
                Archive.Written(View(), status) == Archive.Walk(old(View()), ListingOf(dir, names, path, depth))
      decreases dir, 0, |names|, 0
    {
      var c := names[0];
      ChildFirst(View(), dir, names, path, depth);
      status := Archive.Complete;
      if !Skipped(c.name, depth) {
        status := SnapshotChild(dir, c, Join(path, c.name), depth + 1);
      }
    }

    method SnapshotChild(ghost dir: Node, c: Child, path: Octets, depth: nat) returns (status: Archive.Status)
      requires Valid() && !View().overflow && dir.Directory? && c in dir.children && depth <= Archive.MAX_DEPTH
      modifies this, bytes
      ensures Valid() && bytes == old(bytes)
      ensures Archive.Written(View(), status) == Archive.Walk(old(View()), Listing(c.node, path, depth))
      ensures status == Archive.Complete ==> !View().overflow
      decreases dir, 0, 0
    {
      Archive.WalkMeaning(View(), Listing(c.node, path, depth));
      if c.node.Directory? {
        status := SnapshotDirectory(c.node, path, depth);
        return;
      }
      var e := Entry(path, ItemOf(c.node), depth);
      assert Listing(c.node, path, depth) == [e] + [];
      WalkFirst(View(), e, []);
      if c.node.Regular? {
        status := SnapshotRegular(e);
      } else if c.node.Symlink? {
        status := SnapshotSymlink(e);
      } else {
        status := Archive.Failed;
      }
    }

    method StoreCount()
      requires Valid() && used >= 16
      modifies bytes
      ensures Valid()
      ensures View() == Archive.Patched(old(View()))
    {
      var encoded := LittleEndian(entries, 4);
      forall k | 0 <= k < 4 {
        bytes[12 + k] := encoded[k];
      }
      assert bytes[..used] == old(bytes[..used])[..12] + encoded + old(bytes[..used])[16..];
    }
  }

  lemma CompleteHoldsTheTree(cap: nat, root: Node, w: Archive.Written)
    requires ValidTree(root) && Archive.Snapshot(cap, root) == Some(w)
    requires w.status == Archive.Complete && |w.buffer.bytes| <= cap
    ensures ArchiveReading.HoldsTree(w.buffer.bytes, root)
  {
    Archive.PreambleFits(cap);
    var b := Archive.Blank(cap).Append(Archive.Preamble(0));
    Archive.WalkMeaning(b, Listing(root, [], 0));
    var routes := ArchiveReading.WrittenArchiveHoldsTheTree(cap, root);
  }

  /** No buffer when the cap is refused; a complete one decodes to the tree. */
  method BuildWorkspaceSnapshot(cap: nat, root: Node) returns (snapshot: SnapshotBuffer?, status: Archive.Status)
    ensures snapshot == null <==> cap > Archive.MAX_CAP
    ensures snapshot == null ==> status == Archive.Failed && Archive.Snapshot(cap, root) == None
    ensures snapshot != null ==> fresh(snapshot) && snapshot.Valid()
    ensures snapshot != null ==> Archive.Snapshot(cap, root) == Some(Archive.Written(snapshot.View(), status))
    ensures snapshot != null && status == Archive.Complete && snapshot.used <= cap && ValidTree(root) ==>
              ArchiveReading.HoldsTree(snapshot.bytes[..snapshot.used], root)
  {
    if cap > Archive.MAX_CAP {
      return null, Archive.Failed;
    }
    var s := new SnapshotBuffer(cap + 1);
    Archive.PreambleFits(cap);
    var failed := s.Append(Archive.Preamble(0));
    if failed {
      return s, Archive.Overflowed;
    }
    if !root.Directory? {
      return s, Archive.Failed;
    }
    Archive.WalkMeaning(s.View(), Listing(root, [], 0));
    status := s.SnapshotDirectory(root, [], 0);
    if status == Archive.Complete {
      s.StoreCount();
      if s.used <= cap && ValidTree(root) {
        CompleteHoldsTheTree(cap, root, Archive.Written(s.View(), status));
      }
    }
    snapshot := s;
  }
}
