/** One directory: names for inodes, and the inodes with their link counts.
    Every function is one system call's effect. */
module Directory {
  import opened Options
  import opened Words

  type Octets = seq<Byte>
  type Name = string
  type Id = nat

  const MODE_0600 := 384
  const MODE_0644 := 420

  datatype Inode = Inode(regular: bool, bytes: Octets, mode: nat, nlink: nat, mtime: int, ctime: int)

  /** What stat reports, for files of one device and one owner. */
  datatype Meta = Meta(id: Id, regular: bool, mode: nat, nlink: nat, size: nat, mtime: int, ctime: int)

  /** An inode is dropped with its last name, and its number may then be used again. */
  datatype Dir = Dir(names: map<Name, Id>, inodes: map<Id, Inode>) {
    predicate Resolves() {
      forall n :: n in names ==> names[n] in inodes
    }

    function StatId(id: Id): (r: Option<Meta>) {
      if id !in inodes then None
      else
        var i := inodes[id];
        Some(Meta(id, i.regular, i.mode, i.nlink, |i.bytes|, i.mtime, i.ctime))
    }

    function Stat(name: Name): (r: Option<Meta>) {
      if name in names then StatId(names[name]) else None
    }

    /** open with O_CREAT and O_EXCL. */
    function Create(name: Name, id: Id, now: int): Dir {
      if name in names || id in inodes then this
      else Dir(names[name := id], inodes[id := Inode(true, [], MODE_0600, 1, now, now)])
    }

    function SetMode(id: Id, mode: nat, now: int): Dir {
      if id !in inodes then this
      else this.(inodes := inodes[id := inodes[id].(mode := mode, ctime := now)])
    }

    function Append(id: Id, data: Octets, now: int): Dir {
      if id !in inodes then this
      else this.(inodes := inodes[id := inodes[id].(bytes := inodes[id].bytes + data, mtime := now, ctime := now)])
    }

    /** Never replaces an existing name. */
    function Link(from: Name, to: Name, now: int): Dir {
      if from !in names || to in names || names[from] !in inodes then this
      else
        var id := names[from];
        Dir(names[to := id], inodes[id := inodes[id].(nlink := inodes[id].nlink + 1, ctime := now)])
    }

    function Unlink(name: Name, now: int): Dir {
      if name !in names || names[name] !in inodes then this
      else
        var id := names[name];
        var n := inodes[id].nlink;
        Dir(names - {name}, if n <= 1 then inodes - {id} else inodes[id := inodes[id].(nlink := n - 1, ctime := now)])
    }
  }
}
