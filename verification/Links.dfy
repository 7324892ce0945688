/** What create(), sys_link() and sys_unlink() (kernel/sysfile.c) do to the tree of names, and when
    each of them keeps the link counts exact and the directories a tree. */
module Links {
  import opened Names

  /** A new entry in directory `d`: `k` is a free slot or the end. */
  ghost predicate Free(fs: Tree, d: nat, k: nat, name: Name) {
    && d in fs && fs[d].kind.Directory? && k <= |fs[d].dir| && (k < |fs[d].dir| ==> fs[d].dir[k].inum == 0)
    && Absent(fs[d].dir, name)
  }

  ghost function WithEntry(fs: Tree, d: nat, k: nat, name: Name, i: nat): (fs': Tree)
    requires d in fs && k <= |fs[d].dir|
  {
    fs[d := fs[d].(dir := Put(fs[d].dir, k, Entry(i, name)))]
  }

  /** sys_link(). */
  ghost function AddLink(fs: Tree, d: nat, k: nat, name: Name, i: nat): (fs': Tree)
    requires d in fs && k <= |fs[d].dir| && i in fs
  {
    WithEntry(fs, d, k, name, i)[i := fs[i].(nlink := fs[i].nlink + 1)]
  }

  /** The slots "." and ".." are in use, so a free slot comes after them; and neither name is free. */
  lemma FreeSlot(fs: Tree, n: nat, d: nat, k: nat, name: Name)
    requires Local(fs, n) && Free(fs, d, k, name)
    ensures 2 <= k && name != "." && name != ".."
  {
    assert NodeOk(fs, d, n);
    var dir := fs[d].dir;
    assert dir[0].inum != 0 && dir[1].inum != 0;
  }

  // ---- ".." leads to the root ------------------------------------------------------------------------

  ghost predicate Kept(fs: Tree, fs': Tree, x: nat)
    requires x in fs
  {
    x in fs' && Parent(fs'[x]) == Parent(fs[x])
  }

  lemma {:induction false} StillAbove(fs: Tree, fs': Tree, n: nat, d: nat, k: nat)
    requires Local(fs, n) && d in fs && Linked(fs[d]) && Above(fs, d, k)
    requires forall x :: x in fs && Linked(fs[x]) ==> Kept(fs, fs', x)
    ensures Above(fs', d, k)
    decreases k
  {
    assert NodeOk(fs, d, n) && Kept(fs, fs', d);
    if k > 0 {
      StillAbove(fs, fs', n, Parent(fs[d]), k - 1);
    }
  }

  /** A linked directory was linked before, or is a new one in a linked directory. */
  ghost predicate Grew(fs: Tree, fs': Tree, i: nat, x: nat)
    requires x in fs'
  {
    || (x in fs && Linked(fs[x]))
    || (x == i && i != ROOTINO && Parent(fs'[i]) in fs && Linked(fs[Parent(fs'[i])]))
  }

  lemma StillRooted(fs: Tree, fs': Tree, n: nat, i: nat)
    requires Inv(fs, n)
    requires forall x :: x in fs && Linked(fs[x]) ==> Kept(fs, fs', x)
    requires forall x :: x in fs' && Linked(fs'[x]) ==> Grew(fs, fs', i, x)
    ensures AllRooted(fs')
  {
    forall x | x in fs' && Linked(fs'[x]) ensures Rooted(fs', x) {
      assert Grew(fs, fs', i, x);
      var d := if x in fs && Linked(fs[x]) then x else Parent(fs'[i]);
      assert Rooted(fs, d);
      var k: nat :| Above(fs, d, k);
      StillAbove(fs, fs', n, d, k);
      assert Above(fs', x, if d == x then k else k + 1);
    }
  }

  /** One more entry in a linked directory is one more link, for the inode that it names. */
  lemma EntryTotal(fs: Tree, fs': Tree, n: nat, d: nat, k: nat, name: Name, i: nat, j: nat)
    requires d < n && Free(fs, d, k, name) && name != "." && 0 < i && 0 < j && i != d
    requires d in fs' && fs'[d].dir == Put(fs[d].dir, k, Entry(i, name)) && Linked(fs'[d]) && Linked(fs[d])
    requires forall x: nat :: x != d && x != i ==> Share(fs', x, j) == Share(fs, x, j)
    requires Share(fs', i, j) == Share(fs, i, j)
    ensures Total(fs', j, n) == Total(fs, j, n) + One(i == j)
  {
    CountPut(fs[d].dir, k, Entry(i, name), j);
    TotalChange(fs, fs', j, n, d, i);
  }

  /** sys_link() to a file keeps the counts. */
  lemma AddLinkKeepsLocal(fs: Tree, n: nat, d: nat, k: nat, name: Name, i: nat)
    requires Local(fs, n) && Free(fs, d, k, name) && Linked(fs[d]) && i in fs && !fs[i].kind.Directory?
    ensures Local(AddLink(fs, d, k, name, i), n)
  {
    var fs' := AddLink(fs, d, k, name, i);
    FreeSlot(fs, n, d, k, name);
    assert NodeOk(fs, d, n) && NodeOk(fs, i, n);
    AbsentIs(fs[d].dir, name);
    PutInserts(fs[d].dir, k, Entry(i, name));
    hide DirOk, Distinct, Total, CountIn, Mapping;
    forall j | j in fs' ensures NodeOk(fs', j, n) {
      assert NodeOk(fs, j, n);
      EntryTotal(fs, fs', n, d, k, name, i, j);
      if Linked(fs'[j]) {
        AddedDir(fs, fs', d, k, Entry(i, name), i, j);
      }
    }
  }

  /** Directories do not notice a new entry for something that is no directory. */
  lemma AddedDir(fs: Tree, fs': Tree, d: nat, k: nat, e: Entry, i: nat, j: nat)
    requires d in fs && k <= |fs[d].dir| && (k < |fs[d].dir| ==> fs[d].dir[k].inum == 0) && 2 <= k
    requires i in fs' && fs' == fs[d := fs[d].(dir := Put(fs[d].dir, k, e))][i := fs'[i]] && i != d &&
             !fs'[i].kind.Directory? && i != 0
    requires (i in fs ==> !fs[i].kind.Directory?) && i != ROOTINO && e.inum == i && e.name != "." && e.name != ".."
    requires j in fs && j != 0 && Linked(fs[j]) && DirOk(fs, j) && Distinct(Put(fs[d].dir, k, e))
    ensures DirOk(fs', j)
  {
    assert j != i && EntryOk(fs, j, k);
    forall x: nat ensures EntryOk(fs', j, x) {
      assert EntryOk(fs, j, x);
    }
    if j != ROOTINO {
      var p := Parent(fs[j]);
      var x :| 2 <= x < |fs[p].dir| && fs[p].dir[x].inum == j;
      assert fs'[p].dir[x].inum == j;
    }
  }

  /** create() of a file, device or symbolic link. */
  ghost function AddNode(fs: Tree, d: nat, k: nat, name: Name, i: nat, kind: Kind): (fs': Tree)
    requires d in fs && k <= |fs[d].dir|
  {
    WithEntry(fs, d, k, name, i)[i := Node(kind, 1, [])]
  }

  /** An inode that is not allocated is named nowhere. */
  lemma NotNamed(fs: Tree, n: nat, i: nat, d: nat)
    requires Local(fs, n) && i !in fs && 0 < i
    ensures Share(fs, d, i) == 0
  {
    if d in fs && Linked(fs[d]) {
      assert NodeOk(fs, d, n);
      var dir := fs[d].dir;
      forall k | 0 <= k < |dir| ensures !Counts(dir[k], i) {
        assert EntryOk(fs, d, k);
      }
      CountZero(dir, i);
    }
  }

  lemma NotNamedAtAll(fs: Tree, n: nat, i: nat)
    requires Local(fs, n) && i !in fs && 0 < i
    ensures Total(fs, i, n) == 0
  {
    forall d: nat ensures Share(fs, d, i) == 0 {
      NotNamed(fs, n, i, d);
    }
    TotalOnly(fs, i, n, 0);
  }

  lemma AddNodeKeepsLocal(fs: Tree, n: nat, d: nat, k: nat, name: Name, i: nat, kind: Kind)
    requires Local(fs, n) && Free(fs, d, k, name) && Linked(fs[d]) && i !in fs && 0 < i < n && !kind.Directory?
    ensures Local(AddNode(fs, d, k, name, i, kind), n)
  {
    var fs' := AddNode(fs, d, k, name, i, kind);
    FreeSlot(fs, n, d, k, name);
    assert NodeOk(fs, d, n);
    AbsentIs(fs[d].dir, name);
    PutInserts(fs[d].dir, k, Entry(i, name));
    NotNamedAtAll(fs, n, i);
    forall j | j in fs' ensures NodeOk(fs', j, n) {
      assert j != i ==> NodeOk(fs, j, n);
      EntryTotal(fs, fs', n, d, k, name, i, j);
      if Linked(fs'[j]) {
        AddedDir(fs, fs', d, k, Entry(i, name), i, j);
      }
    }
  }

  /** create() of a directory. */
  ghost function AddDir(fs: Tree, d: nat, k: nat, name: Name, i: nat): (fs': Tree)
    requires d in fs && k <= |fs[d].dir|
  {
    fs[d := Node(Directory, fs[d].nlink + 1,
                 Put(fs[d].dir, k, Entry(i, name)))][i := Node(Directory, 1, [Entry(i, "."), Entry(d, "..")])]
  }

  lemma NewDirCounts(i: nat, d: nat, j: nat)
    ensures CountIn([Entry(i, "."), Entry(d, "..")], j) == One(j == d)
  {
    var dir := [Entry(i, "."), Entry(d, "..")];
    assert dir[..1] == [Entry(i, ".")] && dir[..1][..0] == [];
    assert CountIn(dir[..1], j) == 0;
  }

  lemma AddDirTotal(fs: Tree, n: nat, d: nat, k: nat, name: Name, i: nat, j: nat)
    requires d < n && Free(fs, d, k, name) && name != "." && 0 < i < n && 0 < j && i != d && i !in fs && Linked(fs[d])
    ensures Total(AddDir(fs, d, k, name, i), j, n) == Total(fs, j, n) + One(i == j) + One(d == j)
  {
    var fs' := AddDir(fs, d, k, name, i);
    CountPut(fs[d].dir, k, Entry(i, name), j);
    NewDirCounts(i, d, j);
    TotalChange(fs, fs', j, n, d, i);
  }

  lemma AddDirKeepsLocal(fs: Tree, n: nat, d: nat, k: nat, name: Name, i: nat)
    requires Local(fs, n) && Free(fs, d, k, name) && Linked(fs[d]) && i !in fs && 0 < i < n
    ensures Local(AddDir(fs, d, k, name, i), n)
  {
    var fs' := AddDir(fs, d, k, name, i);
    FreeSlot(fs, n, d, k, name);
    assert NodeOk(fs, d, n);
    AbsentIs(fs[d].dir, name);
    PutInserts(fs[d].dir, k, Entry(i, name));
    NotNamedAtAll(fs, n, i);
    forall j | j in fs' ensures NodeOk(fs', j, n) {
      assert j != i ==> NodeOk(fs, j, n);
      AddDirTotal(fs, n, d, k, name, i, j);
      if Linked(fs'[j]) {
        if j == i {
          NewDirOk(fs, n, d, k, name, i);
        } else {
          AddDirOld(fs, n, d, k, name, i, j);
        }
      }
    }
  }

  lemma NewDirOk(fs: Tree, n: nat, d: nat, k: nat, name: Name, i: nat)
    requires Local(fs, n) && Free(fs, d, k, name) && Linked(fs[d]) && i !in fs && 0 < i < n && 2 <= k
    ensures DirOk(AddDir(fs, d, k, name, i), i)
  {
    var fs' := AddDir(fs, d, k, name, i);
    assert NodeOk(fs, d, n) && fs'[d].dir[k].inum == i;
    forall x: nat ensures EntryOk(fs', i, x) {
    }
  }

  lemma AddDirOld(fs: Tree, n: nat, d: nat, k: nat, name: Name, i: nat, j: nat)
    requires Local(fs, n) && Free(fs, d, k, name) && Linked(fs[d]) && i !in fs && 0 < i < n && 2 <= k && j in fs &&
             Linked(fs[j])
    requires name != "." && name != ".." && Distinct(Put(fs[d].dir, k, Entry(i, name)))
    ensures DirOk(AddDir(fs, d, k, name, i), j)
  {
    var fs' := AddDir(fs, d, k, name, i);
    assert NodeOk(fs, j, n) && NodeOk(fs, d, n);
    forall x: nat ensures EntryOk(fs', j, x) {
      assert EntryOk(fs, j, x);
      AddedEntry(fs, n, d, k, name, i, j, x);
    }
    if j != ROOTINO {
      var p := Parent(fs[j]);
      var x :| 2 <= x < |fs[p].dir| && fs[p].dir[x].inum == j;
      assert fs'[p].dir[x].inum == j;
    }
  }

  lemma AddedEntry(fs: Tree, n: nat, d: nat, k: nat, name: Name, i: nat, j: nat, x: nat)
    requires Free(fs, d, k, name) && Linked(fs[d]) && DirOk(fs, d) && i !in fs && 0 < i && i != ROOTINO && 2 <= k &&
             j in fs && EntryOk(fs, j, x)
    requires name != "." && name != ".."
    ensures EntryOk(AddDir(fs, d, k, name, i), j, x)
  {
    var fs' := AddDir(fs, d, k, name, i);
    if j == d && x == k {
      forall y | 2 <= y < |fs'[d].dir| && y != k ensures fs'[d].dir[y].inum != i {
        assert EntryOk(fs, d, y);
      }
    }
  }

  /** An unlinked directory is named by no linked directory. */
  lemma Unnamed(fs: Tree, n: nat, d: nat, p: nat)
    requires Local(fs, n) && d in fs && fs[d].nlink == 0 && p in fs && Linked(fs[p])
    ensures !NamedIn(fs[p].dir, d)
  {
    assert NodeOk(fs, d, n) && NodeOk(fs, p, n);
    forall k | 2 <= k < |fs[p].dir| ensures fs[p].dir[k].inum != d {
      if fs[p].dir[k].inum == d {
        assert EntryOk(fs, p, k);
        CountSome(fs[p].dir, k, d);
        TotalAtLeast(fs, d, n, p);
        assert false;
      }
    }
  }

  // ---- sys_unlink() ------------------------------------------------------------------------------------

  ghost function Without(fs: Tree, d: nat, k: nat): (fs': Tree)
    requires d in fs && k < |fs[d].dir|
  {
    fs[d := fs[d].(dir := fs[d].dir[k := Entry(0, "")])]
  }

  /** The entry `k` of linked directory `d` names something other than "." and "..". */
  ghost predicate Occupied(fs: Tree, d: nat, k: nat) {
    d in fs && Linked(fs[d]) && 2 <= k < |fs[d].dir| && fs[d].dir[k].inum != 0
  }

  /** unlink of a file: the entry goes and the count goes down. */
  ghost function RemoveLink(fs: Tree, d: nat, k: nat): (fs': Tree)
    requires Occupied(fs, d, k) && fs[d].dir[k].inum in fs && fs[fs[d].dir[k].inum].nlink > 0
  {
    var i := fs[d].dir[k].inum;
    Without(fs, d, k)[i := fs[i].(nlink := fs[i].nlink - 1)]
  }

  /** What an entry names has a link: "unlink: nlink < 1" is not reached. */
  lemma HasLink(fs: Tree, n: nat, d: nat, k: nat)
    requires Local(fs, n) && Occupied(fs, d, k)
    ensures fs[d].dir[k].inum in fs && fs[fs[d].dir[k].inum].nlink > 0
  {
    assert NodeOk(fs, d, n) && EntryOk(fs, d, k);
    var i := fs[d].dir[k].inum;
    assert NodeOk(fs, i, n);
    CountSome(fs[d].dir, k, i);
    TotalAtLeast(fs, i, n, d);
  }

  lemma RemoveTotal(fs: Tree, fs': Tree, n: nat, d: nat, k: nat, i: nat, j: nat)
    requires d < n && Occupied(fs, d, k) && fs[d].dir[k].inum == i && fs[d].dir[k].name != "." && 0 < j && i != d
    requires d in fs' && i in fs' && fs' == fs[d := fs'[d]][i := fs'[i]] && Linked(fs'[d]) &&
             fs'[d].dir == fs[d].dir[k := Entry(0, "")]
    ensures Total(fs', j, n) + One(i == j) + (if i < n then Share(fs, i, j) else 0) == Total(fs, j, n) +
              (if i < n then Share(fs', i, j) else 0)
  {
    hide CountIn, Total;
    CountPut(fs[d].dir, k, Entry(0, ""), j);
    assert forall x: nat :: x != d && x != i ==> Share(fs', x, j) == Share(fs, x, j);
    TotalChange(fs, fs', j, n, d, i);
  }

  lemma RemoveLinkKeepsLocal(fs: Tree, n: nat, d: nat, k: nat)
    requires Local(fs, n) && Occupied(fs, d, k) && fs[d].dir[k].inum in fs && !fs[fs[d].dir[k].inum].kind.Directory?
    ensures fs[fs[d].dir[k].inum].nlink > 0 && Local(RemoveLink(fs, d, k), n)
  {
    HasLink(fs, n, d, k);
    var fs', i := RemoveLink(fs, d, k), fs[d].dir[k].inum;
    EntryFacts(fs, n, d, k);
    hide DirOk, Distinct, Total, CountIn;
    forall j | j in fs' ensures NodeOk(fs', j, n) {
      assert NodeOk(fs, j, n);
      RemoveTotal(fs, fs', n, d, k, i, j);
      if Linked(fs'[j]) {
        RemovedDir(fs, fs', n, d, k, i, j);
      }
    }
  }

  lemma EntryFacts(fs: Tree, n: nat, d: nat, k: nat)
    requires Local(fs, n) && Occupied(fs, d, k)
    ensures var i := fs[d].dir[k].inum;
            && 0 < d < n && 0 < i < n && i in fs && i != ROOTINO && i != d && fs[d].dir[k].name != "." &&
               Distinct(fs[d].dir[k := Entry(0, "")])
            && (fs[i].kind.Directory? ==> Linked(fs[i]) && Parent(fs[i]) == d)
  {
    assert NodeOk(fs, d, n) && EntryOk(fs, d, k) && NodeOk(fs, fs[d].dir[k].inum, n);
    ClearRemoves(fs[d].dir, k);
  }

  /** The other directories when an entry goes, if it did not name them. */
  lemma RemovedDir(fs: Tree, fs': Tree, n: nat, d: nat, k: nat, i: nat, j: nat)
    requires Local(fs, n) && Occupied(fs, d, k) && fs[d].dir[k].inum == i && i in fs && i != d && i != ROOTINO &&
             j in fs && j != i && Linked(fs[j])
    requires d in fs' && i in fs' && fs' == fs[d := fs'[d]][i := fs'[i]] &&
             fs'[d].dir == fs[d].dir[k := Entry(0, "")] && Linked(fs'[d])
    requires Distinct(fs'[d].dir) && fs'[i].kind == fs[i].kind && fs'[i].dir == fs[i].dir &&
             (fs[i].kind.Directory? ==> Empty(fs[i].dir))
    ensures DirOk(fs', j)
  {
    NotTheParent(fs, n, i, j);
    assert NodeOk(fs, j, n) && NodeOk(fs, d, n) && EntryOk(fs, d, k);
    forall x: nat ensures EntryOk(fs', j, x) {
      assert EntryOk(fs, j, x);
      RemovedEntry(fs, fs', d, k, i, j, x);
    }
    if j != ROOTINO {
      StillNamed(fs, fs', d, k, i, j);
    }
  }

  lemma StillNamed(fs: Tree, fs': Tree, d: nat, k: nat, i: nat, j: nat)
    requires d in fs && d in fs' && i in fs' && fs' == fs[d := fs'[d]][i := fs'[i]] && k < |fs[d].dir| &&
             fs'[d].dir == fs[d].dir[k := Entry(0, "")]
    requires j in fs && Parent(fs[j]) in fs && Parent(fs[j]) != i && j != i && i != d && fs[d].dir[k].inum == i &&
             NamedIn(fs[Parent(fs[j])].dir, j)
    ensures NamedIn(fs'[Parent(fs[j])].dir, j)
  {
    var p := Parent(fs[j]);
    var x :| 2 <= x < |fs[p].dir| && fs[p].dir[x].inum == j;
    assert fs'[p].dir[x].inum == j;
  }

  lemma RemovedEntry(fs: Tree, fs': Tree, d: nat, k: nat, i: nat, j: nat, x: nat)
    requires d in fs && d in fs' && i in fs' && i in fs && fs' == fs[d := fs'[d]][i := fs'[i]] &&
             2 <= k < |fs[d].dir| && fs'[d].dir == fs[d].dir[k := Entry(0, "")]
    requires j in fs && j != i && i != d && fs[d].dir[k].inum == i && fs'[i].kind == fs[i].kind && EntryOk(fs, j, x) &&
             EntryOk(fs, d, k)
    requires Linked(fs'[d]) && Linked(fs[d]) && fs'[i].dir == fs[i].dir
    ensures EntryOk(fs', j, x)
  {
  }

  /** An empty directory is nobody's parent. */
  lemma NotTheParent(fs: Tree, n: nat, i: nat, j: nat)
    requires Local(fs, n) && j in fs && Linked(fs[j]) && i in fs && (fs[i].kind.Directory? ==> Empty(fs[i].dir)) &&
             i != ROOTINO
    ensures Parent(fs[j]) != i
  {
    assert NodeOk(fs, j, n);
  }

  /** unlink of an empty directory: its ".." no longer counts. */
  ghost function RemoveDir(fs: Tree, d: nat, k: nat): (fs': Tree)
    requires Occupied(fs, d, k) && fs[d].dir[k].inum in fs && fs[fs[d].dir[k].inum].nlink > 0
  {
    var i := fs[d].dir[k].inum;
    fs[d := Node(Directory, fs[d].nlink - 1, fs[d].dir[k := Entry(0, "")])][i := fs[i].(nlink := fs[i].nlink - 1)]
  }

  /** An empty directory has exactly one link. */
  lemma EmptyHasOne(fs: Tree, n: nat, d: nat, k: nat)
    requires Local(fs, n) && Occupied(fs, d, k) && fs[d].dir[k].inum in fs
    requires fs[fs[d].dir[k].inum].kind.Directory? && Empty(fs[fs[d].dir[k].inum].dir)
    ensures fs[fs[d].dir[k].inum].nlink == 1
  {
    var i := fs[d].dir[k].inum;
    assert NodeOk(fs, d, n) && EntryOk(fs, d, k) && NodeOk(fs, i, n);
    forall x: nat | x != d ensures Share(fs, x, i) == 0 {
      NobodyElse(fs, n, d, k, x);
    }
    forall j | 0 <= j < |fs[d].dir| && j != k ensures !Counts(fs[d].dir[j], i) {
      NotTheParent(fs, n, i, d);
      assert j == 1 ==> fs[d].dir[1].inum == Parent(fs[d]);
    }
    CountOne(fs[d].dir, k, i);
    TotalOnly(fs, i, n, d);
  }

  lemma NobodyElse(fs: Tree, n: nat, d: nat, k: nat, x: nat)
    requires Local(fs, n) && Occupied(fs, d, k) && fs[d].dir[k].inum in fs && x != d
    requires fs[fs[d].dir[k].inum].kind.Directory? && Empty(fs[fs[d].dir[k].inum].dir)
    ensures Share(fs, x, fs[d].dir[k].inum) == 0
  {
    var i := fs[d].dir[k].inum;
    assert NodeOk(fs, d, n) && EntryOk(fs, d, k);
    if x in fs && Linked(fs[x]) {
      assert NodeOk(fs, x, n);
      NotTheParent(fs, n, i, x);
      forall j | 0 <= j < |fs[x].dir| ensures !Counts(fs[x].dir[j], i) {
        assert EntryOk(fs, x, j);
      }
      CountZero(fs[x].dir, i);
    }
  }

  lemma RemoveDirKeepsLocal(fs: Tree, n: nat, d: nat, k: nat)
    requires Local(fs, n) && Occupied(fs, d, k) && fs[d].dir[k].inum in fs
    requires fs[fs[d].dir[k].inum].kind.Directory? && Empty(fs[fs[d].dir[k].inum].dir)
    ensures fs[fs[d].dir[k].inum].nlink == 1 && fs[d].nlink > 1 && Local(RemoveDir(fs, d, k), n)
  {
    EmptyHasOne(fs, n, d, k);
    var fs', i := RemoveDir(fs, d, k), fs[d].dir[k].inum;
    EntryFacts(fs, n, d, k);
    OnlyDotDot(fs, n, i, d);
    TwoLinks(fs, n, d, i);
    hide DirOk, Distinct, Total, CountIn;
    forall j | j in fs' ensures NodeOk(fs', j, n) {
      assert NodeOk(fs, j, n);
      OnlyDotDot(fs, n, i, j);
      RemoveTotal(fs, fs', n, d, k, i, j);
      if Linked(fs'[j]) {
        RemovedDir(fs, fs', n, d, k, i, j);
      }
    }
  }

  /** An empty directory links only to its parent. */
  lemma OnlyDotDot(fs: Tree, n: nat, i: nat, j: nat)
    requires Local(fs, n) && i in fs && Linked(fs[i]) && Empty(fs[i].dir) && 0 < j
    ensures Share(fs, i, j) == One(j == Parent(fs[i]))
  {
    assert NodeOk(fs, i, n);
    var dir := fs[i].dir;
    if j == Parent(fs[i]) {
      CountOne(dir, 1, j);
    } else {
      CountZero(dir, j);
    }
  }

  /** The parent of a directory that is not the root has a link besides that directory's "..". */
  lemma TwoLinks(fs: Tree, n: nat, d: nat, i: nat)
    requires Local(fs, n) && d in fs && Linked(fs[d]) && i in fs && Linked(fs[i]) && Parent(fs[i]) == d && i != d &&
             Empty(fs[i].dir) && i != ROOTINO
    ensures fs[d].nlink > 1
  {
    assert NodeOk(fs, d, n) && NodeOk(fs, i, n);
    OnlyDotDot(fs, n, i, d);
    var p := Parent(fs[d]);
    assert NodeOk(fs, p, n);
    if d == ROOTINO {
      CountSome(fs[d].dir, 1, d);
      TotalBoth(fs, d, n, d, i);
    } else {
      var x :| 2 <= x < |fs[p].dir| && fs[p].dir[x].inum == d;
      assert EntryOk(fs, p, x);
      CountSome(fs[p].dir, x, d);
      assert p != i;
      TotalBoth(fs, d, n, p, i);
    }
  }

  lemma {:induction false} TotalBoth(fs: Tree, j: nat, n: nat, a: nat, b: nat)
    requires a < n && b < n && a != b
    ensures Total(fs, j, n) >= Share(fs, a, j) + Share(fs, b, j)
    decreases n
  {
    if a < n - 1 && b < n - 1 {
      TotalBoth(fs, j, n - 1, a, b);
    } else if a < n - 1 {
      TotalAtLeast(fs, j, n - 1, a);
    } else {
      TotalAtLeast(fs, j, n - 1, b);
    }
  }

  /** iput() frees an inode without links and references. */
  lemma FreeKeepsLocal(fs: Tree, n: nat, i: nat)
    requires Local(fs, n) && i in fs && fs[i].nlink == 0
    ensures Local(fs - {i}, n)
  {
    var fs' := fs - {i};
    NotRoot(fs, i);
    hide DirOk, Total, CountIn;
    forall j | j in fs' ensures NodeOk(fs', j, n) {
      assert NodeOk(fs, j, n);
      FreedTotal(fs, i, j, n);
      if Linked(fs'[j]) {
        FreedDir(fs, n, i, j);
      }
    }
  }

  lemma NotRoot(fs: Tree, i: nat)
    requires ROOTINO in fs && Linked(fs[ROOTINO]) && i in fs && fs[i].nlink == 0
    ensures i != ROOTINO
  {
  }

  lemma FreedTotal(fs: Tree, i: nat, j: nat, n: nat)
    requires i in fs && fs[i].nlink == 0
    ensures Total(fs - {i}, j, n) == Total(fs, j, n)
  {
    TotalChange(fs, fs - {i}, j, n, i, i + 1);
  }

  lemma FreedDir(fs: Tree, n: nat, i: nat, j: nat)
    requires Local(fs, n) && i in fs && fs[i].nlink == 0 && j in fs && Linked(fs[j])
    ensures DirOk(fs - {i}, j)
  {
    var fs' := fs - {i};
    assert NodeOk(fs, i, n) && NodeOk(fs, j, n);
    forall k: nat ensures EntryOk(fs', j, k) {
      assert EntryOk(fs, j, k);
      if 2 <= k < |fs[j].dir| && fs[j].dir[k].inum == i {
        CountSome(fs[j].dir, k, i);
        TotalAtLeast(fs, i, n, j);
      }
    }
  }

  // ---- Each operation keeps the invariant ----------------------------------------------------------------

  /** sys_link() to a file. */
  lemma AddLinkKeepsInv(fs: Tree, n: nat, d: nat, k: nat, name: Name, i: nat)
    requires Inv(fs, n) && Free(fs, d, k, name) && Linked(fs[d]) && i in fs && !fs[i].kind.Directory?
    ensures Inv(AddLink(fs, d, k, name, i), n)
  {
    var fs' := AddLink(fs, d, k, name, i);
    AddLinkKeepsLocal(fs, n, d, k, name, i);
    FreeSlot(fs, n, d, k, name);
    hide Local, AllRooted;
    StillRooted(fs, fs', n, i);
  }

  /** create() of a file, device or symbolic link. */
  lemma AddNodeKeepsInv(fs: Tree, n: nat, d: nat, k: nat, name: Name, i: nat, kind: Kind)
    requires Inv(fs, n) && Free(fs, d, k, name) && Linked(fs[d]) && i !in fs && 0 < i < n && !kind.Directory?
    ensures Inv(AddNode(fs, d, k, name, i, kind), n)
  {
    var fs' := AddNode(fs, d, k, name, i, kind);
    AddNodeKeepsLocal(fs, n, d, k, name, i, kind);
    FreeSlot(fs, n, d, k, name);
    hide Local, AllRooted;
    StillRooted(fs, fs', n, i);
  }

  /** create() of a directory. */
  lemma AddDirKeepsInv(fs: Tree, n: nat, d: nat, k: nat, name: Name, i: nat)
    requires Inv(fs, n) && Free(fs, d, k, name) && Linked(fs[d]) && i !in fs && 0 < i < n
    ensures Inv(AddDir(fs, d, k, name, i), n)
  {
    var fs' := AddDir(fs, d, k, name, i);
    AddDirKeepsLocal(fs, n, d, k, name, i);
    FreeSlot(fs, n, d, k, name);
    assert i != ROOTINO;
    hide Local, AllRooted;
    StillRooted(fs, fs', n, i);
  }

  /** sys_unlink() of a file. */
  lemma RemoveLinkKeepsInv(fs: Tree, n: nat, d: nat, k: nat)
    requires Inv(fs, n) && Occupied(fs, d, k) && fs[d].dir[k].inum in fs && !fs[fs[d].dir[k].inum].kind.Directory?
    ensures fs[fs[d].dir[k].inum].nlink > 0 && Inv(RemoveLink(fs, d, k), n)
  {
    RemoveLinkKeepsLocal(fs, n, d, k);
    var fs', i := RemoveLink(fs, d, k), fs[d].dir[k].inum;
    hide Local, AllRooted;
    StillRooted(fs, fs', n, i);
  }

  /** sys_unlink() of an empty directory. */
  lemma RemoveDirKeepsInv(fs: Tree, n: nat, d: nat, k: nat)
    requires Inv(fs, n) && Occupied(fs, d, k) && fs[d].dir[k].inum in fs
    requires fs[fs[d].dir[k].inum].kind.Directory? && Empty(fs[fs[d].dir[k].inum].dir)
    ensures fs[fs[d].dir[k].inum].nlink == 1 && fs[d].nlink > 1 && Inv(RemoveDir(fs, d, k), n)
  {
    RemoveDirKeepsLocal(fs, n, d, k);
    var fs', i := RemoveDir(fs, d, k), fs[d].dir[k].inum;
    hide Local, AllRooted;
    StillRooted(fs, fs', n, i);
  }

  /** iput() of an inode without links and references. */
  lemma FreeKeepsInv(fs: Tree, n: nat, i: nat)
    requires Inv(fs, n) && i in fs && fs[i].nlink == 0
    ensures Inv(fs - {i}, n)
  {
    FreeKeepsLocal(fs, n, i);
    hide Local, AllRooted;
    StillRooted(fs, fs - {i}, n, i);
  }

  // ---- Exactly when the counts stay right ---------------------------------------------------------------

  /** A new file, or a new link to a file, keeps the counts exact if and only if the directory it is
      put in is linked itself. */
  lemma AddNodeExact(fs: Tree, n: nat, d: nat, k: nat, name: Name, i: nat, kind: Kind)
    requires Inv(fs, n) && Free(fs, d, k, name) && i !in fs && 0 < i < n && !kind.Directory?
    ensures ExactCounts(AddNode(fs, d, k, name, i, kind), n) <==> Linked(fs[d])
    ensures Inv(AddNode(fs, d, k, name, i, kind), n) <==> Linked(fs[d])
  {
    var fs' := AddNode(fs, d, k, name, i, kind);
    if Linked(fs[d]) {
      AddNodeKeepsInv(fs, n, d, k, name, i, kind);
      LocalCounts(fs', n);
    } else {
      NotNamedAtAll(fs, n, i);
      TotalChange(fs, fs', i, n, d, i);
      assert fs'[i].nlink != Total(fs', i, n);
      assert !NodeOk(fs', i, n);
    }
  }

  lemma AddLinkExact(fs: Tree, n: nat, d: nat, k: nat, name: Name, i: nat)
    requires Inv(fs, n) && Free(fs, d, k, name) && i in fs && !fs[i].kind.Directory?
    ensures ExactCounts(AddLink(fs, d, k, name, i), n) <==> Linked(fs[d])
    ensures Inv(AddLink(fs, d, k, name, i), n) <==> Linked(fs[d])
  {
    var fs' := AddLink(fs, d, k, name, i);
    if Linked(fs[d]) {
      AddLinkKeepsInv(fs, n, d, k, name, i);
      LocalCounts(fs', n);
    } else {
      assert NodeOk(fs, i, n);
      TotalChange(fs, fs', i, n, d, i);
      assert fs'[i].nlink != Total(fs', i, n);
      assert !NodeOk(fs', i, n);
    }
  }

  lemma LocalCounts(fs: Tree, n: nat)
    requires Local(fs, n)
    ensures ExactCounts(fs, n)
  {
    forall i | i in fs ensures fs[i].nlink == Total(fs, i, n) {
      assert NodeOk(fs, i, n);
    }
  }

  /** ".." of directory `d` names no inode, and would not name `i` if that came to be. */
  ghost predicate Dangling(fs: Tree, d: nat, i: nat)
    requires d in fs
  {
    Parent(fs[d]) !in fs && Parent(fs[d]) != i
  }

  /** A new directory keeps the counts exact if and only if the directory it is put in is linked, or
      ".." there names nothing. Only in the first case does it stay in the tree. */
  lemma AddDirExact(fs: Tree, n: nat, d: nat, k: nat, name: Name, i: nat)
    requires Inv(fs, n) && Free(fs, d, k, name) && i !in fs && 0 < i < n
    ensures ExactCounts(AddDir(fs, d, k, name, i), n) <==> Linked(fs[d]) || Dangling(fs, d, i)
    ensures Inv(AddDir(fs, d, k, name, i), n) <==> Linked(fs[d])
  {
    var fs' := AddDir(fs, d, k, name, i);
    if Linked(fs[d]) {
      AddDirKeepsInv(fs, n, d, k, name, i);
      LocalCounts(fs', n);
    } else {
      AddDirUnlinked(fs, n, d, k, name, i);
      assert NodeOk(fs, d, n);
      var p := Parent(fs'[d]);
      if p in fs && Linked(fs[p]) {
        Unnamed(fs, n, d, p);
      }
      assert !DirOk(fs', d);
      assert !NodeOk(fs', d, n);
      assert !Local(fs', n);
    }
  }

  lemma AddDirUnlinked(fs: Tree, n: nat, d: nat, k: nat, name: Name, i: nat)
    requires Local(fs, n) && Free(fs, d, k, name) && i !in fs && 0 < i < n && !Linked(fs[d])
    ensures ExactCounts(AddDir(fs, d, k, name, i), n) <==> Dangling(fs, d, i)
  {
    var fs', q := AddDir(fs, d, k, name, i), Parent(fs[d]);
    hide Total, Share;
    forall j | j in fs' ensures fs'[j].nlink == Total(fs', j, n) <==> j != q {
      AddDirUnlinkedAt(fs, n, d, k, name, i, j);
    }
    if q in fs' {
      assert fs'[q].nlink != Total(fs', q, n);
    }
  }

  /** The directory becomes linked, and with it the entry for its old parent. */
  lemma AddDirUnlinkedAt(fs: Tree, n: nat, d: nat, k: nat, name: Name, i: nat, j: nat)
    requires Local(fs, n) && Free(fs, d, k, name) && i !in fs && 0 < i < n && !Linked(fs[d]) && (j in fs || j == i)
    ensures j in AddDir(fs, d, k, name, i)
    ensures AddDir(fs, d, k, name, i)[j].nlink == Total(AddDir(fs, d, k, name, i), j, n) <==> j != Parent(fs[d])
  {
    var fs' := AddDir(fs, d, k, name, i);
    assert NodeOk(fs, d, n) && (j in fs ==> NodeOk(fs, j, n));
    FreeSlot(fs, n, d, k, name);
    if j == i {
      NotNamedAtAll(fs, n, i);
    }
    CountPut(fs[d].dir, k, Entry(i, name), j);
    DottedCount(fs[d].dir, d, j);
    NewDirCounts(i, d, j);
    TotalChange(fs, fs', j, n, d, i);
  }

  /** A directory with nothing but "." and ".." links only to its parent. */
  lemma DottedCount(dir: seq<Entry>, i: nat, j: nat)
    requires Dotted(dir, i) && Empty(dir) && 0 < j
    ensures CountIn(dir, j) == One(j == dir[1].inum)
  {
    if j == dir[1].inum {
      CountOne(dir, 1, j);
    } else {
      CountZero(dir, j);
    }
  }
}
