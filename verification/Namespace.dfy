/** Directory operations and the link-count protocol: dirlookup(), dirlink() and ialloc() of
    kernel/fs.c; create(), sys_link(), isdirempty() and sys_unlink() of kernel/sysfile.c. Paths
    have been resolved to a directory and a name by nameiparent(). */
module Namespace {
  import opened Names
  import opened Links
  import opened Wrappers

  /** dirlink() succeeds: the name is new, and there is a free slot or a block for another one. */
  ghost predicate CanAdd(dir: seq<Entry>, name: Name, room: bool) {
    Absent(dir, name) && (room || exists j :: 0 <= j < |dir| && dir[j].inum == 0)
  }

  ghost predicate InodeLeft(fs: Tree, n: nat) { exists i :: 1 <= i < n && i !in fs }

  predicate IsFile(fs: Tree, i: nat) { i in fs && (fs[i].kind.File? || fs[i].kind.Device?) }

  /** A directory with something in it. */
  ghost predicate Occupants(fs: Tree, i: nat) { i in fs && fs[i].kind.Directory? && !Empty(fs[i].dir) }

  /** What a system call comes to: an inode, -1, or the panic of ilock() on an inode that is not
      allocated. */
  datatype Result = Done(ip: nat) | Error | NoInode

  /** dirlookup() finds an inode that is not allocated. */
  ghost predicate Vacant(fs: Tree, d: nat, name: Name)
    requires d in fs
  {
    Lookup(fs[d].dir, name) != 0 && Lookup(fs[d].dir, name) !in fs
  }

  class FileTree {
    const ninodes: nat
    var fs: Tree

    ghost predicate Valid()
      reads this
    {
      Inv(fs, ninodes)
    }

    /** A file system with only the root directory. */
    constructor (n: nat)
      requires n > ROOTINO
      ensures Valid() && Spelled(fs) && ninodes == n && fs == map[ROOTINO := RootOnly()]
    {
      ninodes := n;
      fs := map[ROOTINO := RootOnly()];
      new;
      RootOnlyOk(fs, n);
    }

    /** dirlookup(): the inode and the slot of a name. */
    method Dirlookup(d: nat, name: Name) returns (r: Option<(nat, nat)>)
      requires d in fs && fs[d].kind.Directory?
      ensures r.None? <==> Absent(fs[d].dir, name)
      ensures r.Some? ==> r.value.1 < |fs[d].dir| && fs[d].dir[r.value.1] == Entry(r.value.0, name) && r.value.0 != 0
      ensures Lookup(fs[d].dir, name) == if r.Some? then r.value.0 else 0
    {
      var dir := fs[d].dir;
      var k := 0;
      while k < |dir|
        invariant k <= |dir| && forall j :: 0 <= j < k && dir[j].inum != 0 ==> dir[j].name != name
      {
        if dir[k].inum != 0 && dir[k].name == name {
          LookupFirst(dir, name, k);
          return Some((dir[k].inum, k));
        }
        k := k + 1;
      }
      r := None;
      LookupFirst(dir, name, k);
      assert dir[k..] == [];
    }

    /** dirlink(): a new entry in the first free slot, or at the end if `room` says that there is a
        block for it; fails without a trace if the name exists or there is no room. */
    method Dirlink(d: nat, name: Name, inum: nat, room: bool) returns (ok: bool, ghost k: nat)
      requires d in fs && fs[d].kind.Directory? && inum != 0
      modifies this`fs
      ensures !ok ==> fs == old(fs)
      ensures ok ==> Links.Free(old(fs), d, k, name) && fs == WithEntry(old(fs), d, k, name, inum)
      ensures ok <==> CanAdd(old(fs)[d].dir, name, room)
      ensures ok ==> forall j :: 0 <= j < k ==> old(fs)[d].dir[j].inum != 0
    {
      var found := Dirlookup(d, name);
      k := 0;
      if found.Some? {
        return false, 0;
      }
      var dir := fs[d].dir;
      var j := 0;
      while j < |dir| && dir[j].inum != 0
        invariant 0 <= j <= |dir| && forall x :: 0 <= x < j ==> dir[x].inum != 0
      {
        j := j + 1;
      }
      k := j;
      if j == |dir| && !room {
        return false, k;
      }
      fs := fs[d := fs[d].(dir := Put(dir, j, Entry(inum, name)))];
      ok := true;
    }

    /** isdirempty(). */
    method IsDirEmpty(d: nat) returns (r: bool)
      requires d in fs
      ensures r == Empty(fs[d].dir)
    {
      var k := 2;
      while k < |fs[d].dir|
        invariant 2 <= k && forall j :: 2 <= j < k && j < |fs[d].dir| ==> fs[d].dir[j].inum == 0
      {
        if fs[d].dir[k].inum != 0 {
          return false;
        }
        k := k + 1;
      }
      r := true;
    }

    /** ialloc(): the first free inode. */
    method Ialloc(kind: Kind) returns (r: Option<nat>)
      modifies this`fs
      ensures r.None? ==> fs == old(fs) && forall i :: 1 <= i < ninodes ==> i in fs
      ensures r.Some? ==> 0 < r.value < ninodes && r.value !in old(fs) && fs == old(fs)[r.value := Node(kind, 0, [])]
      ensures r.Some? ==> forall i :: 1 <= i < r.value ==> i in old(fs)
    {
      var i := 1;
      while i < ninodes
        invariant 1 <= i && forall j :: 1 <= j < i ==> j in fs
      {
        if i !in fs {
          fs := fs[i := Node(kind, 0, [])];
          return Some(i);
        }
        i := i + 1;
      }
      r := None;
    }

    /** create(): a new inode with one link and one name, or an existing file, or nothing changes; and it
        panics exactly if the name is that of an inode that is not allocated. `dots` and `room` say
        whether there is a block for "." and "..", and for the name. The link counts stay exact if and
        only if the directory is linked, or a new directory's name is put in one whose ".." names
        nothing; only in the first case is the tree still one. */
    method Create(d: nat, name: Name, kind: Kind, dots: bool, room: bool) returns (r: Result, ghost k: nat)
      requires Valid() && d in fs && fs[d].kind.Directory?
      modifies this`fs
      ensures !r.Done? || !Absent(old(fs)[d].dir, name) ==> fs == old(fs)
      ensures r.NoInode? <==> Vacant(old(fs), d, name)
      ensures r.Done? && !Absent(old(fs)[d].dir, name) ==>
                kind.File? && exists j :: 0 <= j < |fs[d].dir| && fs[d].dir[j] == Entry(r.ip, name) &&
                                          r.ip in fs && (fs[r.ip].kind.File? || fs[r.ip].kind.Device?)
      ensures r.Done? && Absent(old(fs)[d].dir, name) ==>
                && r.ip !in old(fs) && 0 < r.ip < ninodes && Links.Free(old(fs), d, k, name)
                && fs == (if kind.Directory? then AddDir(old(fs), d, k, name, r.ip)
                          else AddNode(old(fs), d, k, name, r.ip, kind))
      ensures r.Done? <==>
                if Absent(old(fs)[d].dir, name) then
                  InodeLeft(old(fs), ninodes) && (kind.Directory? ==> dots) && CanAdd(old(fs)[d].dir, name, room)
                else kind.File? && IsFile(old(fs), Lookup(old(fs)[d].dir, name))
      ensures Spelled(old(fs)) && Spelling(name) ==> Spelled(fs)
      ensures fs != old(fs) ==> (Valid() <==> Linked(old(fs)[d]))
      ensures fs != old(fs) ==> (ExactCounts(fs, ninodes) <==>
                                   Linked(old(fs)[d]) || (kind.Directory? && Dangling(old(fs), d, r.ip)))
    {
      k := 0;
      var found := Dirlookup(d, name);
      if found.Some? {
        var i := found.value.0;
        if i !in fs {
          return NoInode, k;
        }
        if kind.File? && IsFile(fs, i) {
          return Done(i), k;
        }
        return Error, k;
      }
      var made;
      made, k := Make(d, name, kind, dots, room);
      if made.Some? {
        CreateSpelled(old(fs), d, k, name, made.value, kind);
      }
      r := if made.Some? then Done(made.value) else Error;
    }

    /** create() from ialloc() on. */
    method Make(d: nat, name: Name, kind: Kind, dots: bool, room: bool) returns (r: Option<nat>, ghost k: nat)
      requires Valid() && d in fs && fs[d].kind.Directory?
      modifies this`fs
      ensures r.None? ==> fs == old(fs)
      ensures r.Some? ==>
                && r.value !in old(fs) && 0 < r.value < ninodes && Links.Free(old(fs), d, k, name)
                && fs == (if kind.Directory? then AddDir(old(fs), d, k, name, r.value)
                          else AddNode(old(fs), d, k, name, r.value, kind))
                && (Valid() <==> Linked(old(fs)[d]))
                && (ExactCounts(fs, ninodes) <==>
                      Linked(old(fs)[d]) || (kind.Directory? && Dangling(old(fs), d, r.value)))
      ensures r.Some? <==> InodeLeft(old(fs), ninodes) && (kind.Directory? ==> dots) &&
                           CanAdd(old(fs)[d].dir, name, room)
    {
      InoIsPositive(fs, ninodes, d);
      hide *;
      k := 0;
      r := Ialloc(kind);
      if r.None? {
        NoneLeft(fs, ninodes);
        return;
      }
      OneLeft(old(fs), ninodes, r.value);
      fs := fs[r.value := Node(kind, 1, [])];
      var ok;
      if kind.Directory? {
        ok, k := MakeDir(d, name, r.value, dots, room, old(fs));
      } else {
        ok, k := MakeNode(d, name, r.value, kind, room, old(fs));
      }
      if !ok {
        r := None;
      }
    }

    method MakeNode(d: nat, name: Name, ip: nat, kind: Kind, room: bool, ghost before: Tree)
      returns (ok: bool, ghost k: nat)
      requires Inv(before, ninodes) && d in before && before[d].kind.Directory? && ip !in before && 0 < ip < ninodes &&
               !kind.Directory?
      requires fs == before[ip := Node(kind, 1, [])]
      modifies this`fs
      ensures !ok ==> fs == before
      ensures ok <==> CanAdd(before[d].dir, name, room)
      ensures ok ==> Links.Free(before, d, k, name) && fs == AddNode(before, d, k, name, ip, kind) &&
                     (Valid() <==> Linked(before[d]))
      ensures ok ==> (ExactCounts(fs, ninodes) <==> Linked(before[d]))
    {
      hide *;
      ok, k := Dirlink(d, name, ip, room);
      if !ok {
        Drop(before, ip);
        return;
      }
      SameDirectory(before, d, k, name, ip, Node(kind, 1, []));
      NewNode(before, d, k, name, ip, kind);
      AddNodeExact(before, ninodes, d, k, name, ip, kind);
      StillValid(this);
    }

    method MakeDir(d: nat, name: Name, ip: nat, dots: bool, room: bool, ghost before: Tree)
      returns (ok: bool, ghost k: nat)
      requires Inv(before, ninodes) && d in before && before[d].kind.Directory? && ip !in before && 0 < ip < ninodes &&
               d > 0
      requires fs == before[ip := Node(Directory, 1, [])]
      modifies this`fs
      ensures !ok ==> fs == before
      ensures ok <==> dots && CanAdd(before[d].dir, name, room)
      ensures ok ==> Links.Free(before, d, k, name) && fs == AddDir(before, d, k, name, ip) &&
                     (Valid() <==> Linked(before[d]))
      ensures ok ==> (ExactCounts(fs, ninodes) <==> Linked(before[d]) || Dangling(before, d, ip))
    {
      ghost var x := Node(Directory, 1, [Entry(ip, "."), Entry(d, "..")]);
      hide *;
      k := 0;
      ok := Dots(ip, d, dots, before);
      if ok {
        ok, k := Dirlink(d, name, ip, room);
      }
      if !ok {
        Drop(before, ip);
        return;
      }
      SameDirectory(before, d, k, name, ip, x);
      fs := fs[d := fs[d].(nlink := fs[d].nlink + 1)];
      NewDir(before, d, k, name, ip);
      AddDirExact(before, ninodes, d, k, name, ip);
      StillValid(this);
    }

    /** The entries "." and ".." of a new directory. */
    method Dots(ip: nat, d: nat, dots: bool, ghost before: Tree) returns (ok: bool)
      requires ip in fs && fs == before[ip := Node(Directory, 1, [])] && ip != 0 && d != 0
      modifies this`fs
      ensures ok == dots
      ensures ok ==> fs == before[ip := Node(Directory, 1, [Entry(ip, "."), Entry(d, "..")])]
      ensures !ok ==> ip in fs && fs == before[ip := fs[ip]]
    {
      ghost var k;
      ok, k := Dirlink(ip, ".", ip, dots);
      if ok {
        assert fs[ip].dir == [Entry(ip, ".")];
        ok, k := Dirlink(ip, "..", d, dots);
        if ok {
          assert fs[ip].dir == [Entry(ip, "."), Entry(d, "..")];
        }
      }
    }

    /** The failure path of create(): nlink = 0, and iput() frees the inode. */
    method Drop(ghost before: Tree, ip: nat)
      requires ip in fs && ip !in before && fs == before[ip := fs[ip]]
      modifies this`fs
      ensures fs == before
    {
      fs := fs[ip := fs[ip].(nlink := 0)];
      if fs[ip].nlink == 0 {
        fs := fs - {ip};
      }
      assert fs == before;
    }

    /** sys_link() of inode `ip` as `name` in directory `d`, `None` if that was not found: one more
        name and one more link, or nothing changes; and it panics exactly if namei() led to an inode that
        is not allocated. */
    method Link(ip: nat, d: Option<nat>, name: Name, room: bool) returns (r: Result, ghost k: nat)
      requires Valid() && (d.Some? ==> d.value in fs && fs[d.value].kind.Directory?)
      modifies this`fs
      ensures !r.Done? ==> fs == old(fs)
      ensures r.NoInode? <==> ip !in old(fs)
      ensures r.Done? ==> d.Some? && r.ip == ip && ip in old(fs) && Links.Free(old(fs), d.value, k, name) &&
                          fs == AddLink(old(fs), d.value, k, name, ip)
      ensures r.Done? <==> ip in old(fs) && d.Some? && !old(fs)[ip].kind.Directory? &&
                           CanAdd(old(fs)[d.value].dir, name, room)
      ensures Spelled(old(fs)) && Spelling(name) ==> Spelled(fs)
      ensures r.Done? ==> (Valid() <==> Linked(old(fs)[d.value]))
      ensures r.Done? ==> (ExactCounts(fs, ninodes) <==> Linked(old(fs)[d.value]))
    {
      k := 0;
      if ip !in fs {
        return NoInode, k;
      }
      if fs[ip].kind.Directory? {
        return Error, k;
      }
      InoIsPositive(fs, ninodes, ip);
      fs := fs[ip := fs[ip].(nlink := fs[ip].nlink + 1)];
      var ok := false;
      if d.Some? {
        ok, k := Dirlink(d.value, name, ip, room);
      }
      if !ok {
        fs := fs[ip := fs[ip].(nlink := fs[ip].nlink - 1)];
        assert fs == old(fs);
        return Error, k;
      }
      assert fs == AddLink(old(fs), d.value, k, name, ip);
      AddLinkExact(old(fs), ninodes, d.value, k, name, ip);
      LinkSpelled(old(fs), d.value, k, name, ip);
      r := Done(ip);
    }

    /** sys_unlink() of `name` in directory `d`: the name goes, its inode has one link less and is
        freed if that was the last and nobody uses it. "." and ".." and directories that are not empty
        stay. Its panic is not reached. */
    method Unlink(d: nat, name: Name, inUse: bool) returns (ok: bool, ghost at: nat)
      requires Valid() && d in fs && fs[d].kind.Directory?
      modifies this`fs
      ensures Valid()
      ensures Spelled(old(fs)) ==> Spelled(fs)
      ensures !ok ==> fs == old(fs)
      ensures ok ==>
                && name != "." && name != ".." && Occupied(old(fs), d, at) && old(fs)[d].dir[at].name == name
                && old(fs)[d].dir[at].inum in old(fs) && old(fs)[old(fs)[d].dir[at].inum].nlink > 0
                && fs == Unlinked(old(fs), d, at, inUse) && d in fs && Absent(fs[d].dir, name)
      ensures ok <==> name != "." && name != ".." && !Absent(old(fs)[d].dir, name) &&
                      !Occupants(old(fs), Lookup(old(fs)[d].dir, name))
    {
      at := 0;
      if name == "." || name == ".." {
        return false, at;
      }
      var found := Dirlookup(d, name);
      if found.None? {
        return false, at;
      }
      var ip, k := found.value.0, found.value.1;
      Found(fs, ninodes, d, k);
      HasLink(fs, ninodes, d, k);
      if fs[ip].kind.Directory? {
        var empty := IsDirEmpty(ip);
        if !empty {
          return false, at;
        }
      }
      at := k;
      Gone(fs, ninodes, d, k, name);
      hide *;
      if fs[ip].kind.Directory? {
        EraseDir(d, k, ip, inUse);
      } else {
        EraseLink(d, k, ip, inUse);
      }
      Erased(old(fs), fs, ninodes, d, k, inUse);
      UnlinkSpelled(old(fs), ninodes, d, k, inUse);
      ok := true;
    }

    /** sys_unlink() of a file, from the writei() on. */
    method EraseLink(d: nat, k: nat, ip: nat, inUse: bool)
      requires Valid() && Occupied(fs, d, k) && fs[d].dir[k].inum == ip && ip in fs && !fs[ip].kind.Directory? &&
               fs[ip].nlink > 0
      modifies this`fs
      ensures Valid() && fs == Unlinked(old(fs), d, k, inUse)
    {
      EntryFacts(fs, ninodes, d, k);
      RemoveLinkKeepsInv(fs, ninodes, d, k);
      DirNow(fs, d, k);
      hide *;
      fs := fs[d := fs[d].(dir := fs[d].dir[k := Entry(0, "")])];
      fs := fs[ip := fs[ip].(nlink := fs[ip].nlink - 1)];
      IsRemoveLink(old(fs), fs, d, k);
      Release(ip, inUse);
      IsUnlinked(old(fs), d, k, inUse);
    }

    /** ... and of an empty directory. */
    method EraseDir(d: nat, k: nat, ip: nat, inUse: bool)
      requires Valid() && Occupied(fs, d, k) && fs[d].dir[k].inum == ip && ip in fs && fs[ip].kind.Directory? &&
               Empty(fs[ip].dir) && fs[ip].nlink > 0
      modifies this`fs
      ensures Valid() && fs == Unlinked(old(fs), d, k, inUse)
    {
      EntryFacts(fs, ninodes, d, k);
      RemoveDirKeepsInv(fs, ninodes, d, k);
      DirNow(fs, d, k);
      hide *;
      fs := fs[d := fs[d].(dir := fs[d].dir[k := Entry(0, "")])];
      fs := fs[d := fs[d].(nlink := fs[d].nlink - 1)];
      fs := fs[ip := fs[ip].(nlink := fs[ip].nlink - 1)];
      IsRemoveDir(old(fs), fs, d, k);
      Release(ip, inUse);
      IsUnlinked(old(fs), d, k, inUse);
    }

    /** iput(). */
    method Release(ip: nat, inUse: bool)
      requires Inv(fs, ninodes) && ip in fs
      modifies this`fs
      ensures Valid() && fs == if old(fs)[ip].nlink == 0 && !inUse then old(fs) - {ip} else old(fs)
    {
      if fs[ip].nlink == 0 && !inUse {
        FreeKeepsInv(fs, ninodes, ip);
        fs := fs - {ip};
      }
    }
  }

  /** The tree after unlink of entry `k`: one link less, and the inode freed if that was the last and
      nobody uses it. */
  ghost function Unlinked(fs: Tree, d: nat, k: nat, inUse: bool): (fs': Tree)
    requires Occupied(fs, d, k) && fs[d].dir[k].inum in fs && fs[fs[d].dir[k].inum].nlink > 0
  {
    var i := fs[d].dir[k].inum;
    var fs1 := if fs[i].kind.Directory? then RemoveDir(fs, d, k) else RemoveLink(fs, d, k);
    if fs1[i].nlink == 0 && !inUse then fs1 - {i} else fs1
  }

  lemma CreateSpelled(fs: Tree, d: nat, k: nat, name: Name, i: nat, kind: Kind)
    requires d in fs && k <= |fs[d].dir|
    ensures Spelled(fs) && Spelling(name) ==>
              Spelled(AddDir(fs, d, k, name, i)) && Spelled(AddNode(fs, d, k, name, i, kind))
  {
  }

  lemma LinkSpelled(fs: Tree, d: nat, k: nat, name: Name, i: nat)
    requires d in fs && k <= |fs[d].dir| && i in fs && i != d
    ensures Spelled(fs) && Spelling(name) ==> Spelled(AddLink(fs, d, k, name, i))
  {
  }

  lemma UnlinkSpelled(fs: Tree, n: nat, d: nat, k: nat, inUse: bool)
    requires Inv(fs, n) && Occupied(fs, d, k) && fs[d].dir[k].inum in fs && fs[fs[d].dir[k].inum].nlink > 0
    ensures Spelled(fs) ==> Spelled(Unlinked(fs, d, k, inUse))
  {
    EntryFacts(fs, n, d, k);
  }

  lemma NoneLeft(fs: Tree, n: nat)
    requires forall i :: 1 <= i < n ==> i in fs
    ensures !InodeLeft(fs, n)
  {
  }

  lemma OneLeft(fs: Tree, n: nat, i: nat)
    requires 0 < i < n && i !in fs
    ensures InodeLeft(fs, n)
  {
  }

  /** An entry for any other name is in a linked directory, after "." and "..". */
  lemma Found(fs: Tree, n: nat, d: nat, k: nat)
    requires Inv(fs, n) && d in fs && fs[d].kind.Directory? && k < |fs[d].dir| && fs[d].dir[k].inum != 0
    requires fs[d].dir[k].name != "." && fs[d].dir[k].name != ".."
    ensures Occupied(fs, d, k)
  {
    assert NodeOk(fs, d, n);
  }

  lemma Gone(fs: Tree, n: nat, d: nat, k: nat, name: Name)
    requires Inv(fs, n) && Occupied(fs, d, k) && fs[d].dir[k].name == name
    ensures Absent(fs[d].dir[k := Entry(0, "")], name)
  {
    assert NodeOk(fs, d, n);
  }

  lemma SameDirectory(fs: Tree, d: nat, k: nat, name: Name, ip: nat, x: Node)
    requires d in fs && ip !in fs && Links.Free(fs[ip := x], d, k, name)
    ensures Links.Free(fs, d, k, name) && fs[d].kind.Directory? && k <= |fs[d].dir|
    ensures d in WithEntry(fs[ip := x], d, k, name, ip)
  {
  }

  lemma InoIsPositive(fs: Tree, n: nat, d: nat)
    requires Inv(fs, n) && d in fs
    ensures d > 0
  {
    assert NodeOk(fs, d, n);
  }

  lemma StillValid(t: FileTree)
    ensures t.Valid() <==> Inv(t.fs, t.ninodes)
  {
  }

  lemma DirNow(fs: Tree, d: nat, k: nat)
    requires Occupied(fs, d, k)
    ensures d in fs && k < |fs[d].dir| && |""| <= DIRSIZ
  {
  }

  lemma IsUnlinked(fs: Tree, d: nat, k: nat, inUse: bool)
    requires Occupied(fs, d, k) && fs[d].dir[k].inum in fs && fs[fs[d].dir[k].inum].nlink > 0
    ensures var i := fs[d].dir[k].inum;
            var fs1 := if fs[i].kind.Directory? then RemoveDir(fs, d, k) else RemoveLink(fs, d, k);
            i in fs1 && Unlinked(fs, d, k, inUse) == if fs1[i].nlink == 0 && !inUse then fs1 - {i} else fs1
  {
  }

  lemma Erased(fs: Tree, fs': Tree, n: nat, d: nat, k: nat, inUse: bool)
    requires Inv(fs, n) && Occupied(fs, d, k) && fs[d].dir[k].inum in fs && fs[fs[d].dir[k].inum].nlink > 0 &&
             fs' == Unlinked(fs, d, k, inUse)
    ensures d in fs' && fs'[d].dir == fs[d].dir[k := Entry(0, "")]
  {
    EntryFacts(fs, n, d, k);
  }

  lemma IsRemoveDir(fs: Tree, fs': Tree, d: nat, k: nat)
    requires Occupied(fs, d, k) && fs[d].dir[k].inum in fs && fs[fs[d].dir[k].inum].nlink > 0 &&
             fs[d].dir[k].inum != d && fs[d].nlink > 0
    requires var i := fs[d].dir[k].inum;
             var x := fs[d].(dir := fs[d].dir[k := Entry(0, "")]);
             fs' == fs[d := x][d := x.(nlink := x.nlink - 1)][i := fs[i].(nlink := fs[i].nlink - 1)]
    ensures fs' == RemoveDir(fs, d, k)
  {
  }

  lemma IsRemoveLink(fs: Tree, fs': Tree, d: nat, k: nat)
    requires Occupied(fs, d, k) && fs[d].dir[k].inum in fs && fs[fs[d].dir[k].inum].nlink > 0 && fs[d].dir[k].inum != d
    requires var i := fs[d].dir[k].inum;
             fs' == fs[d := fs[d].(dir := fs[d].dir[k := Entry(0, "")])][i := fs[i].(nlink := fs[i].nlink - 1)]
    ensures fs' == RemoveLink(fs, d, k)
  {
  }

  lemma NewNode(fs: Tree, d: nat, k: nat, name: Name, ip: nat, kind: Kind)
    requires d in fs && ip !in fs && k <= |fs[d].dir|
    ensures WithEntry(fs[ip := Node(kind, 1, [])], d, k, name, ip) == AddNode(fs, d, k, name, ip, kind)
  {
  }

  lemma NewDir(fs: Tree, d: nat, k: nat, name: Name, ip: nat)
    requires d in fs && ip !in fs && k <= |fs[d].dir| && fs[d].kind.Directory?
    ensures var fs2 := WithEntry(fs[ip := Node(Directory, 1, [Entry(ip, "."), Entry(d, "..")])], d, k, name, ip);
            d in fs2 && fs2[d := fs2[d].(nlink := fs2[d].nlink + 1)] == AddDir(fs, d, k, name, ip)
  {
  }

  function RootOnly(): (x: Node) { Node(Directory, 1, [Entry(ROOTINO, "."), Entry(ROOTINO, "..")]) }

  lemma RootOnlyOk(fs: Tree, n: nat)
    requires n > ROOTINO && fs == map[ROOTINO := RootOnly()]
    ensures Inv(fs, n)
  {
    NewDirCounts(ROOTINO, ROOTINO, ROOTINO);
    TotalOnly(fs, ROOTINO, n, ROOTINO);
    forall k: nat ensures EntryOk(fs, ROOTINO, k) {
    }
    assert NodeOk(fs, ROOTINO, n) && Above(fs, ROOTINO, 0);
  }

  /** A root directory and an unlinked directory 2, which is still some process's current directory;
      its ".." names inode `q`. */
  function WithUnlinked(q: nat): (fs: Tree) {
    map[ROOTINO := RootOnly(), 2 := Node(Directory, 0, [Entry(2, "."), Entry(q, "..")])]
  }

  lemma WithUnlinkedOk(q: nat, n: nat)
    requires n > 2 && q > 0
    ensures Inv(WithUnlinked(q), n)
  {
    var fs := WithUnlinked(q);
    NewDirCounts(ROOTINO, ROOTINO, ROOTINO);
    NewDirCounts(ROOTINO, ROOTINO, 2);
    TotalOnly(fs, ROOTINO, n, ROOTINO);
    TotalOnly(fs, 2, n, ROOTINO);
    forall k: nat ensures EntryOk(fs, ROOTINO, k) {
    }
    assert NodeOk(fs, ROOTINO, n) && NodeOk(fs, 2, n) && Above(fs, ROOTINO, 0);
  }

  /** Only ".." can name an inode that is not allocated, and only in a directory that is not linked. */
  lemma OnlyDotDotIsVacant(fs: Tree, n: nat, d: nat, name: Name)
    requires Inv(fs, n) && d in fs && fs[d].kind.Directory?
    ensures Vacant(fs, d, name) <==> name == ".." && Parent(fs[d]) !in fs
    ensures Vacant(fs, d, name) ==> !Linked(fs[d])
  {
    assert NodeOk(fs, d, n);
    var dir := fs[d].dir;
    LookupFirst(dir, "..", 1);
    if Lookup(dir, name) != 0 && name != ".." {
      var k := LookupAt(dir, name);
      assert k >= 2 ==> EntryOk(fs, d, k);
    }
  }

  /** The counts are exact, and create() and sys_link() of ".." panic. */
  lemma DotDotIsVacant()
    ensures Inv(WithUnlinked(5), 6) && Vacant(WithUnlinked(5), 2, "..")
  {
    WithUnlinkedOk(5, 6);
    OnlyDotDotIsVacant(WithUnlinked(5), 6, 2, "..");
  }

  /** The counts go wrong when a file is created in the unlinked directory. */
  lemma CreateInUnlinked()
    ensures Inv(WithUnlinked(ROOTINO), 4) && Links.Free(WithUnlinked(ROOTINO), 2, 2, "x")
    ensures !ExactCounts(AddNode(WithUnlinked(ROOTINO), 2, 2, "x", 3, File), 4)
  {
    WithUnlinkedOk(ROOTINO, 4);
    AddNodeExact(WithUnlinked(ROOTINO), 4, 2, 2, "x", 3, File);
  }

  /** They also do for a directory, whose parent is then linked again with its ".."; but not if that
      parent is gone. */
  lemma MkdirInUnlinked()
    ensures Inv(WithUnlinked(ROOTINO), 6) && !ExactCounts(AddDir(WithUnlinked(ROOTINO), 2, 2, "x", 3), 6)
    ensures Inv(WithUnlinked(5), 6) && ExactCounts(AddDir(WithUnlinked(5), 2, 2, "x", 3), 6)
    ensures !Inv(AddDir(WithUnlinked(5), 2, 2, "x", 3), 6)
  {
    WithUnlinkedOk(ROOTINO, 6);
    AddDirExact(WithUnlinked(ROOTINO), 6, 2, 2, "x", 3);
    WithUnlinkedOk(5, 6);
    AddDirExact(WithUnlinked(5), 6, 2, 2, "x", 3);
  }
}
