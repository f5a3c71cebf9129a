/** atomic_publish_noreplace as it runs alone, with an exception injected at any
    one operation, before or after that operation's effect. */
module Publication {
  import opened Options
  import opened Words
  import opened Directory

  const READ_CHUNK := 65536

  datatype ReadStep =
    | NamedBefore | OpenIt | FstatBefore | ReadChunk(done: nat) | ReadEnd | FstatAfter | CloseIt | NamedAfter

  /** The operations of one publication; those inside the cleanup code are left
      out, except the fsync that every path ends with. */
  datatype Op =
    | CreateStaged | FstatCreated
    | Fchmod | Write(done: nat) | FsyncStaged | FstatWritten | StatStaged | CloseStaged
    | LinkFinal | ReadFirst(step: ReadStep)
    | StatLinkedStaged | StatLinkedFinal | FsyncLinked | Reachable
    | StatUnlinking | UnlinkStaged | FsyncUnlinked | ReadBack(step: ReadStep) | ReachableAtEnd
    | LastFsync

  datatype Injection = Injection(op: Op, afterEffect: bool)

  predicate SameInode(a: Meta, b: Meta) {
    a.id == b.id && a.regular == b.regular
  }

  /** What a link or unlink cannot change. */
  predicate SameContent(a: Meta, b: Meta) {
    a.(nlink := b.nlink, ctime := b.ctime) == b
  }

  predicate RegularShape(m: Meta, size: nat, links: nat) {
    m.regular && m.mode == MODE_0644 && m.size == size && m.nlink == links
  }

  /** A file the publisher accepts in place of its own. */
  predicate ExactFile(i: Inode, payload: Octets) {
    i.regular && i.nlink == 1 && i.mode == MODE_0644 && i.bytes == payload
  }

  datatype Found = Found(bytes: Octets, meta: Meta)

  class Publication {
    const final: Name
    const staging: Name
    const payload: Octets
    const id: Id
    const injected: Option<Injection>
    ghost const base: Dir

    var dir: Dir
    var descriptorOpen: bool
    var fdOpen: bool
    var temporaryExists: bool
    var published: bool
    var created: Option<Meta>
    var staged: Option<Meta>
    var existing: Option<Meta>

    ghost predicate Valid() {
      base.Resolves() && id !in base.inodes && final != staging
    }

    ghost function LinkCount(hasStaged: bool, hasFinal: bool): nat {
      (if hasStaged then 1 else 0) + (if hasFinal then 1 else 0)
    }

    ghost function NamesAt(hasStaged: bool, hasFinal: bool): map<Name, Id> {
      var n := if hasStaged then base.names[staging := id] else base.names;
      if hasFinal then n[final := id] else n
    }

    /** The directory is as it was, but for these names of the new inode. */
    ghost predicate At(hasStaged: bool, hasFinal: bool)
      reads this
    {
      && (hasStaged ==> staging !in base.names) && (hasFinal ==> final !in base.names)
      && dir.names == NamesAt(hasStaged, hasFinal)
      && (if hasStaged || hasFinal
          then id in dir.inodes && dir.inodes == base.inodes[id := dir.inodes[id]]
               && dir.inodes[id].nlink == LinkCount(hasStaged, hasFinal)
          else dir.inodes == base.inodes)
    }

    ghost predicate Whole()
      reads this
    {
      && id in dir.inodes
      && dir.inodes[id].regular && dir.inodes[id].mode == MODE_0644 && dir.inodes[id].bytes == payload
    }

    /** The content metadata recorded before the link still describes the inode. */
    ghost predicate Recorded()
      reads this
    {
      staged.Some? && dir.StatId(id).Some? && SameContent(staged.value, dir.StatId(id).value)
    }

    ghost predicate Captured()
      reads this
    {
      created.Some? && created.value.id == id && created.value.regular
    }

    constructor (dir: Dir, final: Name, staging: Name, payload: Octets, id: Id, injected: Option<Injection>)
      requires dir.Resolves() && id !in dir.inodes && final != staging
      ensures Valid() && this.dir == dir && base == dir && At(false, false)
      ensures this.final == final && this.staging == staging && this.payload == payload
      ensures this.injected == injected && this.id == id
      ensures !descriptorOpen && !fdOpen && !temporaryExists && !published
      ensures created == None && staged == None && existing == None
    {
      this.dir, this.base := dir, dir;
      this.final, this.staging, this.payload, this.id, this.injected := final, staging, payload, id, injected;
      descriptorOpen, fdOpen, temporaryExists, published := false, false, false, false;
      created, staged, existing := None, None, None;
    }

    predicate Hits(op: Op, afterEffect: bool) {
      injected == Some(Injection(op, afterEffect))
    }

    predicate Injected(op: Op) {
      Hits(op, false) || Hits(op, true)
    }

    predicate StagingOp(op: Op) {
      op.Fchmod? || op.Write? || op.FsyncStaged? || op.FstatWritten? || op.StatStaged? || op.CloseStaged?
    }

    predicate SettlingOp(op: Op) {
      || op.StatLinkedStaged? || op.StatLinkedFinal? || op.FsyncLinked? || op.Reachable?
      || op.StatUnlinking? || op.UnlinkStaged? || op.FsyncUnlinked? || op.ReadBack? || op.ReachableAtEnd?
    }

    // ---------- staging ----------

    method CreateStaging() returns (raised: bool)
      requires Valid() && At(false, false)
      modifies this
      ensures raised <==> staging in base.names || Injected(CreateStaged)
      ensures if staging in base.names || Hits(CreateStaged, false) then dir == old(dir) else At(true, false)
      ensures !raised ==> dir.inodes[id].regular && dir.inodes[id].bytes == []
      ensures unchanged(`descriptorOpen, `fdOpen, `temporaryExists, `published, `created, `staged, `existing)
    {
      if Hits(CreateStaged, false) || staging in dir.names {
        return true;
      }
      var now: int := *;
      dir := dir.Create(staging, id, now);
      return Hits(CreateStaged, true);
    }

    /** A failure here closes the descriptor but leaves the staging name. */
    method CaptureCreated() returns (raised: bool)
      requires Valid() && At(true, false) && dir.inodes[id].regular
      modifies this
      ensures dir == old(dir) && raised == Injected(FstatCreated)
      ensures !raised ==> Captured() && descriptorOpen && fdOpen && temporaryExists
      ensures unchanged(`published, `staged, `existing)
    {
      if Injected(FstatCreated) {
        return true;
      }
      created := dir.StatId(id);
      descriptorOpen, fdOpen, temporaryExists := true, true, true;
      return false;
    }

    method WriteAll() returns (raised: bool)
      requires Valid() && At(true, false) && dir.inodes[id].regular && dir.inodes[id].bytes == []
      requires dir.inodes[id].mode == MODE_0644
      modifies this`dir
      ensures At(true, false) && dir.inodes[id].regular
      ensures raised ==> injected.Some? && injected.value.op.Write?
      ensures !raised ==> Whole()
    {
      var done := 0;
      while done < |payload|
        invariant 0 <= done <= |payload| && At(true, false)
        invariant dir.inodes[id].regular && dir.inodes[id].mode == MODE_0644 && dir.inodes[id].bytes == payload[..done]
      {
        if Hits(Write(done), false) {
          return true;
        }
        var amount :| 1 <= amount <= |payload| - done;
        var now: int := *;
        dir := dir.Append(id, payload[done..done + amount], now);
        assert payload[..done] + payload[done..done + amount] == payload[..done + amount];
        if Hits(Write(done), true) {
          return true;
        }
        done := done + amount;
      }
      return false;
    }

    /** The open inode is the one created, has the staging name and no other, and is
        an ordinary 0644 file of the payload's length. */
    ghost predicate StagedOnce()
      requires created.Some? && id in dir.inodes && dir.Resolves()
      reads this
    {
      var i := dir.inodes[id];
      && created.value.id == id && created.value.regular && i.regular && i.nlink == 1 && i.mode == 420
      && |i.bytes| == |payload| && staging in dir.names && dir.names[staging] == id
    }

    /** fstat, stat, and what they must agree on, in any directory. */
    method AuthenticateStaged() returns (raised: bool)
      requires created.Some? && id in dir.inodes && dir.Resolves()
      modifies this`staged
      ensures raised <==> Injected(FstatWritten) || Injected(StatStaged) || !StagedOnce()
      ensures staged == if raised then old(staged) else dir.StatId(id)
    {
      if Injected(FstatWritten) {
        return true;
      }
      var written := dir.StatId(id).value;
      if !SameInode(written, created.value) || Injected(StatStaged) || staging !in dir.names {
        return true;
      }
      var named := dir.Stat(staging).value;
      if !RegularShape(written, |payload|, 1) || named != written {
        return true;
      }
      staged := Some(named);
      return false;
    }

    lemma StagingResolves(linked: bool)
      requires Valid() && At(true, linked)
      ensures dir.Resolves()
    {
    }

    /** chmod, write, fsync, fstat, and the authentication before the link. */
    method Stage() returns (raised: bool)
      requires Valid() && At(true, false) && Captured() && descriptorOpen && fdOpen
      requires dir.inodes[id].regular && dir.inodes[id].bytes == []
      modifies this`dir, this`staged, this`descriptorOpen, this`fdOpen
      ensures At(true, false) && dir.inodes[id].regular
      ensures raised ==> injected.Some? && StagingOp(injected.value.op)
      ensures raised ==> descriptorOpen && fdOpen == !Hits(CloseStaged, true)
      ensures !raised ==> Whole() && Recorded() && !descriptorOpen && !Hits(CloseStaged, true)
    {
      if Hits(Fchmod, false) {
        return true;
      }
      var now: int := *;
      dir := dir.SetMode(id, MODE_0644, now);
      if Hits(Fchmod, true) {
        return true;
      }
      raised := WriteAll();
      if raised || Injected(FsyncStaged) {
        return true;
      }
      StagingResolves(false);
      raised := AuthenticateStaged();
      if raised {
        return;
      }
      raised := CloseStagedDescriptor();
    }

    method CloseStagedDescriptor() returns (raised: bool)
      requires descriptorOpen && fdOpen
      modifies this`descriptorOpen, this`fdOpen
      ensures raised == Injected(CloseStaged)
      ensures descriptorOpen == raised
      ensures fdOpen == Hits(CloseStaged, false)
    {
      if Hits(CloseStaged, false) {
        return true;
      }
      fdOpen := false;
      if Hits(CloseStaged, true) {
        return true;
      }
      descriptorOpen := false;
      return false;
    }

    // ---------- reading a file back ----------

    function ReadOp(back: bool, step: ReadStep): Op {
      if back then ReadBack(step) else ReadFirst(step)
    }

    predicate ReadInjected(back: bool) {
      injected.Some? && (if back then injected.value.op.ReadBack? else injected.value.op.ReadFirst?)
    }

    /** None when the name is absent; raises unless it is one stable ordinary file
        of at most `maximum` octets. */
    method ReadExisting(back: bool, maximum: nat) returns (raised: bool, found: Option<Found>)
      requires dir.Resolves()
      ensures raised ==> ReadInjected(back)
                         || (final in dir.names && var i := dir.inodes[dir.names[final]];
                             !(i.regular && i.nlink == 1 && i.mode == MODE_0644 && |i.bytes| <= maximum))
      ensures !raised ==> (found.None? <==> final !in dir.names)
      ensures !raised && found.Some? ==>
                var i := dir.inodes[dir.names[final]];
                && i.regular && i.nlink == 1 && i.mode == MODE_0644 && |i.bytes| <= maximum
                && dir.Stat(final) == Some(found.value.meta) && found.value.bytes == i.bytes
    {
      if Injected(ReadOp(back, NamedBefore)) {
        return true, None;
      }
      var namedBefore := dir.Stat(final);
      if namedBefore.None? {
        return false, None;
      }
      if Injected(ReadOp(back, OpenIt)) || !namedBefore.value.regular {
        return true, None;
      }
      var source := dir.names[final];
      if Injected(ReadOp(back, FstatBefore)) {
        return true, None;
      }
      var before := dir.StatId(source).value;
      if !before.regular || before.nlink != 1 || before.mode != MODE_0644 || namedBefore.value != before
         || before.size > maximum {
        return true, None;
      }
      var content := dir.inodes[source].bytes;
      var bytes := [];
      while |bytes| < before.size
        invariant |bytes| <= before.size == |content| && bytes == content[..|bytes|]
      {
        if Injected(ReadOp(back, ReadChunk(|bytes|))) {
          return true, None;
        }
        var requested := Min(READ_CHUNK, before.size - |bytes|);
        var amount :| 1 <= amount <= requested;
        assert requested <= before.size - |bytes|;
        assert content[..|bytes|] + content[|bytes|..|bytes| + amount] == content[..|bytes| + amount];
        bytes := bytes + content[|bytes|..|bytes| + amount];
      }
      if Injected(ReadOp(back, ReadEnd)) || Injected(ReadOp(back, FstatAfter)) || Injected(ReadOp(back, CloseIt))
         || Injected(ReadOp(back, NamedAfter)) {
        return true, None;
      }
      var after, namedAfter := dir.StatId(source).value, dir.Stat(final);
      if namedAfter.None? || before != after || after != namedAfter.value {
        return true, None;
      }
      return false, Some(Found(bytes, after));
    }

    /** Raises unless the final name still reads as expected. */
    method AuthenticateFinal(expected: Meta, asStaged: bool) returns (raised: bool)
      requires dir.Resolves()
      ensures !raised ==> final in dir.names && ExactFile(dir.inodes[dir.names[final]], payload)
      ensures raised ==> ReadInjected(true)
                         || !(final in dir.names && ExactFile(dir.inodes[dir.names[final]], payload)
                              && var m := dir.Stat(final).value;
                                 if asStaged then SameInode(m, expected) && SameContent(m, expected) else m == expected)
    {
      var found;
      raised, found := ReadExisting(true, |payload|);
      if raised || found.None? || found.value.bytes != payload {
        return true;
      }
      var observed := found.value.meta;
      var matches := if asStaged then SameInode(observed, expected) && SameContent(observed, expected)
                     else observed == expected;
      return !matches;
    }

    // ---------- linking ----------

    method LinkOrAccept() returns (raised: bool)
      requires Valid() && At(true, false) && Whole() && Recorded() && !published && existing == None
      modifies this`dir, this`published, this`existing
      ensures Whole()
      ensures final in base.names ==> dir == old(dir) && !published
      ensures final in base.names && !raised ==>
                ExactFile(base.inodes[base.names[final]], payload) && existing.Some? && existing == dir.Stat(final)
      ensures final in base.names && raised ==>
                Injected(LinkFinal) || ReadInjected(false) || !ExactFile(base.inodes[base.names[final]], payload)
      ensures final !in base.names ==> published == !raised && Recorded() && existing == None
      ensures final !in base.names ==> (raised <==> Injected(LinkFinal))
      ensures final !in base.names ==> At(true, !Hits(LinkFinal, false))
    {
      if Hits(LinkFinal, false) {
        return true;
      }
      if final in dir.names {
        if Hits(LinkFinal, true) {
          return true;
        }
        var found;
        assert dir.inodes[dir.names[final]] == base.inodes[base.names[final]];
        raised, found := ReadExisting(false, |payload|);
        if raised || found.None? || found.value.bytes != payload {
          return true;
        }
        existing := Some(found.value.meta);
        return false;
      }
      var now: int := *;
      dir := dir.Link(staging, final, now);
      if Hits(LinkFinal, true) {
        return true;
      }
      published := true;
      return false;
    }

    /** Both names lead to the inode authenticated before the link, which has no
        third name and has not been written since. */
    ghost predicate LinkedTwice()
      requires staged.Some? && dir.Resolves()
      reads this
    {
      && staging in dir.names && final in dir.names && dir.names[staging] == dir.names[final] == staged.value.id
      && var i := dir.inodes[dir.names[final]];
      && i.regular && i.nlink == 2 && i.mode == 420 && |i.bytes| == |payload|
      && staged.value.regular && staged.value.mode == i.mode && staged.value.size == |i.bytes|
      && staged.value.mtime == i.mtime
    }

    method AuthenticateLinked() returns (raised: bool)
      requires staged.Some? && dir.Resolves()
      ensures raised <==>
                Injected(StatLinkedStaged) || Injected(StatLinkedFinal) || Injected(FsyncLinked) || !LinkedTwice()
    {
      if Injected(StatLinkedStaged) || staging !in dir.names || Injected(StatLinkedFinal) || final !in dir.names {
        return true;
      }
      var temporary, linked := dir.Stat(staging).value, dir.Stat(final).value;
      return !RegularShape(temporary, |payload|, 2) || !RegularShape(linked, |payload|, 2)
             || temporary != linked || !SameInode(temporary, staged.value) || !SameContent(temporary, staged.value)
             || Injected(FsyncLinked);
    }

    // ---------- unlinking the staging name ----------

    method UnlinkStaging(linked: bool) returns (raised: bool)
      requires Valid() && At(true, linked) && Captured() && dir.inodes[id].regular
      modifies this`dir
      ensures linked && old(Whole()) ==> Whole()
      ensures linked && old(Recorded()) ==> Recorded()
      ensures raised ==> injected.Some? && SettlingOp(injected.value.op)
      ensures !raised ==> At(false, linked)
      ensures raised ==> At(!Hits(UnlinkStaged, true), linked)
      ensures id in dir.inodes ==> dir.inodes[id].regular
    {
      if Injected(StatUnlinking) || staging !in dir.names || !SameInode(dir.Stat(staging).value, created.value)
         || Hits(UnlinkStaged, false) {
        return true;
      }
      var now: int := *;
      RemoveStaged(linked, now);
      dir := dir.Unlink(staging, now);
      return Hits(UnlinkStaged, true);
    }

    lemma RemoveStaged(linked: bool, now: int)
      requires Valid() && At(true, linked)
      ensures var d := dir.Unlink(staging, now);
        && d.names == NamesAt(false, linked)
        && (if linked
            then d.inodes == base.inodes[id := dir.inodes[id].(nlink := 1, ctime := now)]
            else d.inodes == base.inodes)
    {
    }

    lemma RemoveFinal(hasStaged: bool, now: int)
      requires Valid() && At(hasStaged, true)
      ensures var d := dir.Unlink(final, now);
        && d.names == NamesAt(hasStaged, false)
        && (if hasStaged
            then d.inodes == base.inodes[id := dir.inodes[id].(nlink := 1, ctime := now)]
            else d.inodes == base.inodes)
    {
    }

    // ---------- the inner try, its except clause, and the finally clause ----------

    method Settle() returns (raised: bool)
      requires Valid() && Captured() && temporaryExists && At(true, published) && dir.inodes[id].regular
      requires published ==> Whole() && Recorded()
      requires !published ==> existing.Some? && existing == dir.Stat(final) && final in base.names
                              && ExactFile(base.inodes[base.names[final]], payload)
      modifies this`dir, this`temporaryExists
      ensures !raised ==> At(false, published) && !temporaryExists && (published ==> Whole())
      ensures raised ==> injected.Some? && SettlingOp(injected.value.op)
      ensures raised ==> (At(true, published) && temporaryExists) || At(false, published)
      ensures id in dir.inodes ==> dir.inodes[id].regular
    {
      assert !published ==> dir.names[final] == base.names[final];
      if published {
        StagingResolves(true);
        raised := AuthenticateLinked();
        if raised {
          return;
        }
      }
      if Injected(Reachable) {
        return true;
      }
      raised := UnlinkStaging(published);
      if raised {
        return;
      }
      temporaryExists := false;
      if Injected(FsyncUnlinked) {
        return true;
      }
      StillResolves();
      if published {
        raised := AuthenticateFinal(staged.value, true);
      } else {
        raised := AuthenticateFinal(existing.value, false);
      }
      return raised || Injected(ReachableAtEnd);
    }

    lemma StillResolves()
      requires Valid() && (At(false, true) || At(false, false))
      ensures dir.Resolves()
    {
    }

    method UndoPublication(ghost hasStaged: bool)
      requires Valid() && At(hasStaged, published) && (published ==> staged.Some? && staged.value.id == id)
      requires published ==> staged.value.regular == dir.inodes[id].regular
      requires hasStaged ==> dir.inodes[id].regular
      modifies this`dir
      ensures At(hasStaged, false) && (hasStaged ==> dir.inodes[id].regular)
    {
      if published && final in dir.names && SameInode(dir.Stat(final).value, staged.value) {
        var now: int := *;
        RemoveFinal(hasStaged, now);
        dir := dir.Unlink(final, now);
      }
    }

    method Finish(ghost hasStaged: bool, ghost hasFinal: bool) returns (raised: bool)
      requires Valid() && At(hasStaged, hasFinal) && Captured() && (hasStaged ==> temporaryExists && dir.inodes[id].regular)
      modifies this
      ensures old(descriptorOpen) && !old(fdOpen) ==> raised && dir == old(dir)
      ensures !(old(descriptorOpen) && !old(fdOpen)) ==> At(false, hasFinal) && raised == Injected(LastFsync)
      ensures hasFinal && old(Whole()) ==> Whole()
    {
      if descriptorOpen {
        if !fdOpen {
          return true;
        }
        fdOpen := false;
      }
      if temporaryExists && staging in dir.names && SameInode(dir.Stat(staging).value, created.value) {
        var now: int := *;
        RemoveStaged(hasFinal, now);
        dir := dir.Unlink(staging, now);
      }
      return Injected(LastFsync);
    }

    // ---------- the whole publication ----------

    /** The final name already holds something the publisher would accept. */
    ghost predicate AlreadyPublished() {
      base.Resolves() && final in base.names && ExactFile(base.inodes[base.names[final]], payload)
    }

    /** The faults after which the staging name is never removed: before its inode
        is captured, and a close that reports an error after closing. */
    ghost predicate LeavesStaging() {
      Hits(CreateStaged, true) || Injected(FstatCreated) || Hits(CloseStaged, true)
    }

    /** The fault after which the new final name is never withdrawn: an exception
        between the link taking effect and the publisher noting it. */
    ghost predicate LeavesFinal() {
      Hits(LinkFinal, true) && final !in base.names
    }

    /** The error that surfaces although the publication stands. */
    ghost predicate SurfacesLate() {
      Injected(LastFsync) && (final !in base.names || AlreadyPublished())
    }

    /** The guarded part, with its own undo; the staging name is left to Finish. */
    method Attempt() returns (raised: bool, ghost hasStaged: bool, ghost hasFinal: bool)
      requires Valid() && At(true, false) && Captured() && descriptorOpen && fdOpen && temporaryExists
      requires !published && existing == None && dir.inodes[id].regular && dir.inodes[id].bytes == []
      modifies this
      ensures At(hasStaged, hasFinal) && Captured() && (hasStaged ==> temporaryExists && dir.inodes[id].regular)
      ensures hasFinal ==> Whole()
      ensures (descriptorOpen && !fdOpen) == Hits(CloseStaged, true)
      ensures Hits(CloseStaged, true) ==> raised && hasStaged && !hasFinal
      ensures !raised ==> hasFinal == (final !in base.names)
      ensures !raised && final in base.names ==> AlreadyPublished()
      ensures raised && hasFinal <==> LeavesFinal()
      ensures raised && (final !in base.names || AlreadyPublished()) ==>
                injected.Some? && injected.value.op != LastFsync
    {
      raised := Stage();
      hasStaged, hasFinal := true, false;
      if raised {
        return;
      }
      raised := LinkOrAccept();
      hasFinal := final !in base.names && !Hits(LinkFinal, false);
      if raised {
        return;
      }
      raised := Settle();
      hasStaged := staging in dir.names;
      if raised {
        UndoPublication(hasStaged);
        hasFinal := false;
      }
    }

    /** Success is the whole payload under one name, or nothing when it was there
        already.  Failure leaves the directory exactly as it was, except for
        exactly the faults named above, whose remains are stated too. */
    method AtomicPublishNoreplace() returns (ok: bool)
      requires Valid() && At(false, false) && !published && !descriptorOpen && existing == None
      modifies this
      ensures staging in base.names ==> !ok && dir == base
      ensures ok && final in base.names ==> dir == base && AlreadyPublished()
      ensures ok && final !in base.names ==> At(false, true) && Whole()
      ensures staging !in base.names && LeavesStaging() ==> !ok && At(true, false)
      ensures staging !in base.names && LeavesFinal() ==> !ok && At(false, true) && Whole()
      ensures staging !in base.names && SurfacesLate() ==> !ok
      ensures staging !in base.names && SurfacesLate() && final !in base.names ==> At(false, true) && Whole()
      ensures !ok && !LeavesStaging() && !LeavesFinal() && !SurfacesLate() ==> dir == base
      ensures final in base.names && !LeavesStaging() ==> dir == base
      ensures injected == None && staging !in base.names ==> (ok <==> final !in base.names || AlreadyPublished())
    {
      var raised := CreateStaging();
      if raised {
        return false;
      }
      raised := CaptureCreated();
      if raised {
        return false;
      }
      ghost var hasStaged, hasFinal;
      raised, hasStaged, hasFinal := Attempt();
      var late := Finish(hasStaged, hasFinal);
      return !raised && !late;
    }
  }
}
