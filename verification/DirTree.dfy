/** Directories in the bytes of files against directories in the tree of names: what dirlink() and
    sys_unlink() do to the one is what Namespace says of the other. */
module DirTree {
  import opened Inodes
  import opened FileSys
  import opened Names
  import opened Links
  import opened Namespace
  import Dirents

  /** The types of kernel/stat.h. */
  function TypeOf(kind: Kind): (typ: nat)
    ensures typ != 0
  {
    match kind
    case Directory => 1
    case File => 2
    case Device => 3
    case Symlink => 4
  }

  /** Inode `i` of the file system is node `i` of the tree. */
  /** The types of different kinds of inodes differ. */
  lemma TypesDiffer(kind: Kind, kind': Kind)
    ensures TypeOf(kind) == TypeOf(kind') <==> kind == kind'
  {
  }

  ghost predicate ShowsInode(f: Fs, fs: Tree, i: nat) {
    && (i in fs <==> i in f.ino && f.ino[i].typ != 0)
    && (i in fs ==>
          && f.ino[i].typ == TypeOf(fs[i].kind) && f.ino[i].nlink == fs[i].nlink
          && (fs[i].kind.Directory? ==> Dirents.IsDir(f, i) && Dirents.DirOf(f, i) == fs[i].dir))
  }

  /** The file system is the tree. */
  ghost predicate Shows(f: Fs, fs: Tree) { forall i :: ShowsInode(f, fs, i) }

  /** A change of the bytes of one directory is a change of its entries in the tree. */
  lemma OneDirectory(f: Fs, f': Fs, fs: Tree, d: nat, dir: seq<Entry>)
    requires Shows(f, fs) && d in fs && fs[d].kind.Directory? && Dirents.OthersSame(f, f', d)
    requires Dirents.IsDir(f', d) && Dirents.DirOf(f', d) == dir
    ensures Shows(f', fs[d := fs[d].(dir := dir)])
  {
    var fs' := fs[d := fs[d].(dir := dir)];
    hide ByteAt;
    forall i ensures ShowsInode(f', fs', i) {
      assert ShowsInode(f, fs, i);
      if i != d && i in f.ino {
        Dirents.SameEntries(f, f', i, f.ino[i].size / Dirents.DIRENT);
      }
    }
  }

  /** dirlink() on the bytes and on the tree, with the room that there is: they agree on success, on the
      slot and on the entries. */
  method Dirlink(f: FileSystem, t: FileTree, d: nat, name: string, inum: nat) returns (ok: bool, ghost k: nat)
    requires f.Valid() && Shows(f.Now(), t.fs) && d in t.fs && t.fs[d].kind.Directory? && d in f.ino
    requires Dirents.IsName(name) && 0 < inum < 0x1_0000
    modifies f, t`fs
    ensures f.Valid() && Shows(f.Now(), t.fs)
    ensures !ok ==> t.fs == old(t.fs)
    ensures ok ==> Free(old(t.fs), d, k, Truncated(name)) && t.fs == WithEntry(old(t.fs), d, k, Truncated(name), inum)
    ensures !ok && Absent(old(t.fs)[d].dir, Truncated(name)) ==>
              Dirents.NoRoom(old(t.fs)[d].dir, old(f.ino)[d].size, f.bits)
  {
    ghost var g, fs, dir := f.Now(), t.fs, t.fs[d].dir;
    assert ShowsInode(g, fs, d);
    hide *;
    ok, k := Dirents.Dirlink(f, d, name, inum);
    var ok';
    ghost var k';
    ok', k' := t.Dirlink(d, Truncated(name), inum, ok);
    SameOutcome(fs, d, Truncated(name), ok, ok', k, k', g.ino[d].size, f.bits);
    OneDirectory(g, f.Now(), fs, d, Dirents.DirOf(f.Now(), d));
    SameTree(fs, d, k, Truncated(name), inum);
  }

  lemma SameOutcome(fs: Tree, d: nat, name: Name, ok: bool, ok': bool, k: nat, k': nat, size: nat, bits: seq<bool>)
    requires d in fs && (ok ==> Absent(fs[d].dir, name) && Dirents.FirstFree(fs[d].dir, k))
    requires !ok && Absent(fs[d].dir, name) ==> Dirents.NoRoom(fs[d].dir, size, bits)
    requires ok' <==> CanAdd(fs[d].dir, name, ok)
    requires ok' ==> Free(fs, d, k', name) && forall j :: 0 <= j < k' ==> fs[d].dir[j].inum != 0
    ensures ok' == ok && (ok ==> k' == k)
  {
  }

  lemma SameTree(fs: Tree, d: nat, k: nat, name: Name, inum: nat)
    requires d in fs
    ensures fs[d := fs[d].(dir := fs[d].dir)] == fs
    ensures k <= |fs[d].dir| ==>
              WithEntry(fs, d, k, name, inum) == fs[d := fs[d].(dir := Put(fs[d].dir, k, Entry(inum, name)))]
    ensures Free(fs, d, k, name) ==> k <= |fs[d].dir|
  {
  }

  /** sys_unlink()'s writei() on the bytes clears the entry in the tree. */
  method Erase(f: FileSystem, ghost fs: Tree, d: nat, k: nat) returns (ghost fs': Tree)
    requires f.Valid() && Shows(f.Now(), fs) && d in fs && fs[d].kind.Directory? && k < |fs[d].dir|
    modifies f
    ensures f.Valid() && Shows(f.Now(), fs') && fs' == fs[d := fs[d].(dir := fs[d].dir[k := Entry(0, "")])]
  {
    ghost var g := f.Now();
    assert ShowsInode(g, fs, d) && |""| <= DIRSIZ;
    hide *;
    Dirents.Erase(f, d, k);
    OneDirectory(g, f.Now(), fs, d, Dirents.DirOf(f.Now(), d));
    fs' := fs[d := fs[d].(dir := Dirents.DirOf(f.Now(), d))];
  }
}
