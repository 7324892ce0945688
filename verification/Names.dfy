/** Directories and link counts (kernel/fs.c, kernel/sysfile.c), as values. */
module Names {
  const DIRSIZ: nat := 14
  const ROOTINO: nat := 1

  /** A directory entry's name: at most DIRSIZ characters count (namecmp(), strncpy()). */
  type Name = n: string | |n| <= DIRSIZ

  function Truncated(s: string): (n: Name) { if |s| <= DIRSIZ then s else s[..DIRSIZ] }

  /** A name as a path can spell it. */
  predicate Spelling(name: string) { name != "" && forall i :: 0 <= i < |name| ==> name[i] != '/' }

  datatype Kind = Directory | File | Device | Symlink

  /** A slot of a directory; it is free if `inum` is 0. */
  datatype Entry = Entry(inum: nat, name: Name)

  datatype Node = Node(kind: Kind, nlink: nat, dir: seq<Entry>)

  /** The inodes that are allocated. */
  type Tree = map<nat, Node>

  // ---- A directory is a finite map -----------------------------------------------------------------

  ghost predicate Distinct(dir: seq<Entry>) {
    forall j, k :: 0 <= j < k < |dir| && dir[j].inum != 0 && dir[k].inum != 0 ==> dir[j].name != dir[k].name
  }

  /** The names of a directory and the inodes they stand for. */
  ghost function Mapping(dir: seq<Entry>): (m: map<Name, nat>) {
    if dir == [] then map[]
    else
      var e := dir[|dir| - 1];
      var m := Mapping(dir[..|dir| - 1]);
      if e.inum != 0 then m[e.name := e.inum] else m
  }

  /** ... says what the slots say. */
  lemma {:induction false} MappingIs(dir: seq<Entry>, n: Name)
    requires Distinct(dir)
    ensures n in Mapping(dir) <==> exists k :: 0 <= k < |dir| && dir[k].inum != 0 && dir[k].name == n
    ensures forall k :: 0 <= k < |dir| && dir[k].inum != 0 && dir[k].name == n ==>
                          n in Mapping(dir) && Mapping(dir)[n] == dir[k].inum
  {
    if dir != [] {
      var l := |dir| - 1;
      MappingIs(dir[..l], n);
      if k :| 0 <= k < |dir| && dir[k].inum != 0 && dir[k].name == n {
        assert k < l ==> dir[..l][k] == dir[k];
      }
      if n in Mapping(dir[..l]) {
        var k :| 0 <= k < l && dir[..l][k].inum != 0 && dir[..l][k].name == n;
        assert dir[k].name == n;
      }
    }
  }

  /** The inode of the first slot with a name; 0 if there is none. */
  ghost function Lookup(dir: seq<Entry>, n: Name): (i: nat) {
    if dir == [] then 0 else if dir[0].inum != 0 && dir[0].name == n then dir[0].inum else Lookup(dir[1..], n)
  }

  lemma {:induction false} LookupFirst(dir: seq<Entry>, n: Name, k: nat)
    requires k <= |dir| && forall j :: 0 <= j < k && dir[j].inum != 0 ==> dir[j].name != n
    ensures Lookup(dir, n) == if k < |dir| && dir[k].inum != 0 && dir[k].name == n then dir[k].inum
                              else Lookup(dir[k..], n)
  {
    if k > 0 {
      LookupFirst(dir[1..], n, k - 1);
      assert dir[1..][k - 1..] == dir[k..];
    } else {
      assert dir[0..] == dir;
    }
  }

  lemma {:induction false} LookupAt(dir: seq<Entry>, n: Name) returns (k: nat)
    requires Lookup(dir, n) != 0
    ensures k < |dir| && dir[k] == Entry(Lookup(dir, n), n)
  {
    if dir[0].inum != 0 && dir[0].name == n {
      k := 0;
    } else {
      k := LookupAt(dir[1..], n);
      k := k + 1;
    }
  }

  /** A directory is the finite map that its slots stand for. */
  lemma {:induction false} LookupIsMapping(dir: seq<Entry>, n: Name)
    requires Distinct(dir)
    ensures Lookup(dir, n) == if n in Mapping(dir) then Mapping(dir)[n] else 0
  {
    MappingIs(dir, n);
    if k :| 0 <= k < |dir| && dir[k].inum != 0 && dir[k].name == n {
      LookupFirst(dir, n, k);
    } else {
      LookupFirst(dir, n, |dir|);
      assert dir[|dir|..] == [];
    }
  }

  ghost predicate Absent(dir: seq<Entry>, n: Name) {
    forall k :: 0 <= k < |dir| && dir[k].inum != 0 ==> dir[k].name != n
  }

  lemma AbsentIs(dir: seq<Entry>, n: Name)
    requires Distinct(dir)
    ensures Absent(dir, n) <==> n !in Mapping(dir)
  {
    MappingIs(dir, n);
  }

  /** Put an entry in a slot, or at the end. */
  function Put(dir: seq<Entry>, k: nat, e: Entry): (r: seq<Entry>)
    requires k <= |dir|
    ensures |r| == (if k < |dir| then |dir| else |dir| + 1) && r[k] == e &&
            forall j :: 0 <= j < |dir| && j != k ==> r[j] == dir[j]
  {
    if k < |dir| then dir[k := e] else dir + [e]
  }

  /** dirlink() into a free slot adds a name, writing zeroes into a slot removes one. */
  lemma PutDistinct(dir: seq<Entry>, k: nat, e: Entry)
    requires Distinct(dir) && k <= |dir| && (k < |dir| ==> dir[k].inum == 0) && e.inum != 0 && e.name !in Mapping(dir)
    ensures Distinct(Put(dir, k, e))
  {
    var r := Put(dir, k, e);
    MappingIs(dir, e.name);
    forall i, j | 0 <= i < j < |r| && r[i].inum != 0 && r[j].inum != 0 ensures r[i].name != r[j].name {
      assert i != k ==> r[i] == dir[i];
      assert j != k ==> r[j] == dir[j];
    }
  }

  lemma PutInserts(dir: seq<Entry>, k: nat, e: Entry)
    requires Distinct(dir) && k <= |dir| && (k < |dir| ==> dir[k].inum == 0) && e.inum != 0 && e.name !in Mapping(dir)
    ensures Distinct(Put(dir, k, e)) && Mapping(Put(dir, k, e)) == Mapping(dir)[e.name := e.inum]
  {
    PutDistinct(dir, k, e);
    var r := Put(dir, k, e);
    hide Distinct, Mapping, Put;
    forall n: Name
      ensures (n in Mapping(r) <==> n in Mapping(dir) || n == e.name) &&
              (n in Mapping(r) ==> Mapping(r)[n] == Mapping(dir)[e.name := e.inum][n])
    {
      PutMaps(dir, k, e, n);
    }
  }

  lemma PutMaps(dir: seq<Entry>, k: nat, e: Entry, n: Name)
    requires Distinct(dir) && k <= |dir| && (k < |dir| ==> dir[k].inum == 0) && e.inum != 0 && e.name !in Mapping(dir)
    requires Distinct(Put(dir, k, e))
    ensures var r := Put(dir, k, e);
            if n == e.name then n in Mapping(r) && Mapping(r)[n] == e.inum
            else (n in Mapping(r) <==> n in Mapping(dir)) && (n in Mapping(r) ==> Mapping(r)[n] == Mapping(dir)[n])
  {
    var r := Put(dir, k, e);
    MappingIs(dir, n);
    MappingIs(r, n);
    assert r[k] == e;
    hide Mapping, Distinct;
    if j :| 0 <= j < |dir| && dir[j].inum != 0 && dir[j].name == n {
      assert r[j] == dir[j];
    }
  }

  lemma ClearRemoves(dir: seq<Entry>, k: nat)
    requires Distinct(dir) && k < |dir| && dir[k].inum != 0
    ensures Distinct(dir[k := Entry(0, "")]) && Mapping(dir[k := Entry(0, "")]) == Mapping(dir) - {dir[k].name}
  {
    var r := dir[k := Entry(0, "")];
    forall n: Name
      ensures (n in Mapping(r) <==> n in Mapping(dir) && n != dir[k].name) &&
              (n in Mapping(r) ==> Mapping(r)[n] == Mapping(dir)[n])
    {
      MappingIs(dir, n);
      MappingIs(r, n);
      if j :| 0 <= j < |r| && r[j].inum != 0 && r[j].name == n {
        assert dir[j] == r[j] && j != k;
      }
      if j :| 0 <= j < |dir| && dir[j].inum != 0 && dir[j].name == n && j != k {
        assert r[j] == dir[j];
      }
    }
  }

  /** Every name in the tree can be spelled in a path. */
  ghost predicate Spelled(fs: Tree) {
    forall d, k :: d in fs && 0 <= k < |fs[d].dir| && fs[d].dir[k].inum != 0 ==> Spelling(fs[d].dir[k].name)
  }

  // ---- Counting links --------------------------------------------------------------------------------

  /** An entry other than "." that names inode `i`. */
  predicate Counts(e: Entry, i: nat) { e.inum == i && e.name != "." }

  function One(b: bool): (n: nat) { if b then 1 else 0 }

  function CountIn(dir: seq<Entry>, i: nat): (n: nat) {
    if dir == [] then 0 else CountIn(dir[..|dir| - 1], i) + One(Counts(dir[|dir| - 1], i))
  }

  predicate Linked(x: Node) { x.kind.Directory? && x.nlink > 0 }

  /** What inode `d` contributes to the links of `i`. */
  function Share(fs: Tree, d: nat, i: nat): (n: nat) {
    if d in fs && Linked(fs[d]) then CountIn(fs[d].dir, i) else 0
  }

  /** The entries other than "." that name `i` in linked directories below inode number `n`. */
  function Total(fs: Tree, i: nat, n: nat): (t: nat) {
    if n == 0 then 0 else Total(fs, i, n - 1) + Share(fs, n - 1, i)
  }

  lemma {:induction false} CountPut(dir: seq<Entry>, k: nat, e: Entry, i: nat)
    requires k <= |dir|
    ensures CountIn(Put(dir, k, e), i) + (if k < |dir| then One(Counts(dir[k], i)) else 0) == CountIn(dir, i) +
              One(Counts(e, i))
    decreases |dir|
  {
    var r := Put(dir, k, e);
    if k == |dir| {
      assert r[..|r| - 1] == dir;
    } else {
      var l := |dir| - 1;
      if k == l {
        assert r[..l] == dir[..l];
      } else {
        CountPut(dir[..l], k, e, i);
        assert r[..l] == Put(dir[..l], k, e);
      }
    }
  }

  lemma {:induction false} CountZero(dir: seq<Entry>, i: nat)
    requires forall k :: 0 <= k < |dir| ==> !Counts(dir[k], i)
    ensures CountIn(dir, i) == 0
  {
    if dir != [] {
      CountZero(dir[..|dir| - 1], i);
    }
  }

  lemma {:induction false} CountOne(dir: seq<Entry>, k: nat, i: nat)
    requires k < |dir| && Counts(dir[k], i) && forall j :: 0 <= j < |dir| && j != k ==> !Counts(dir[j], i)
    ensures CountIn(dir, i) == 1
  {
    var l := |dir| - 1;
    if k == l {
      CountZero(dir[..l], i);
    } else {
      CountOne(dir[..l], k, i);
    }
  }

  lemma {:induction false} CountSome(dir: seq<Entry>, k: nat, i: nat)
    requires k < |dir| && Counts(dir[k], i)
    ensures CountIn(dir, i) > 0
  {
    var l := |dir| - 1;
    if k < l {
      CountSome(dir[..l], k, i);
    }
  }

  /** Only the shares of `a` and `b` differ. */
  lemma {:induction false} TotalChange(fs: Tree, fs': Tree, i: nat, n: nat, a: nat, b: nat)
    requires a != b && forall d: nat :: d != a && d != b ==> Share(fs', d, i) == Share(fs, d, i)
    ensures Total(fs', i, n) + (if a < n then Share(fs, a, i) else 0) + (if b < n then Share(fs, b, i) else 0)
         == Total(fs, i, n) + (if a < n then Share(fs', a, i) else 0) + (if b < n then Share(fs', b, i) else 0)
    decreases n
  {
    if n > 0 {
      TotalChange(fs, fs', i, n - 1, a, b);
    }
  }

  /** All links to `i` are in directory `a`. */
  lemma {:induction false} TotalOnly(fs: Tree, i: nat, n: nat, a: nat)
    requires forall d: nat :: d != a ==> Share(fs, d, i) == 0
    ensures Total(fs, i, n) == if a < n then Share(fs, a, i) else 0
    decreases n
  {
    if n > 0 {
      TotalOnly(fs, i, n - 1, a);
    }
  }

  lemma {:induction false} TotalAtLeast(fs: Tree, i: nat, n: nat, a: nat)
    requires a < n
    ensures Total(fs, i, n) >= Share(fs, a, i)
    decreases n
  {
    if a < n - 1 {
      TotalAtLeast(fs, i, n - 1, a);
    }
  }

  // ---- The invariant ----------------------------------------------------------------------------------

  /** The directory that ".." of a directory names. */
  function Parent(x: Node): (p: nat) { if |x.dir| >= 2 then x.dir[1].inum else 0 }

  /** An entry after "." and "..": what it names is allocated; a directory is named only by the one
      entry of its parent. */
  ghost predicate EntryOk(fs: Tree, d: nat, k: nat)
    requires d in fs
  {
    var dir := fs[d].dir;
    2 <= k < |dir| && dir[k].inum != 0 ==>
      && dir[k].inum in fs && dir[k].inum != ROOTINO && dir[k].name != "." && dir[k].name != ".."
      && (fs[dir[k].inum].kind.Directory? ==>
            && Linked(fs[dir[k].inum]) && Parent(fs[dir[k].inum]) == d && dir[k].inum != d
            && forall j :: 2 <= j < |dir| && dir[j].inum == dir[k].inum ==> j == k)
  }

  ghost predicate DirOk(fs: Tree, d: nat)
    requires d in fs
  {
    var dir := fs[d].dir;
    && |dir| >= 2 && dir[0] == Entry(d, ".") && dir[1].name == ".." && Distinct(dir)
    && Parent(fs[d]) in fs && Parent(fs[d]) != 0 && Linked(fs[Parent(fs[d])])
    && (forall k: nat :: EntryOk(fs, d, k))
    && (d == ROOTINO ==> Parent(fs[d]) == ROOTINO)
    && (d != ROOTINO ==> Parent(fs[d]) != d && NamedIn(fs[Parent(fs[d])].dir, d))
  }

  ghost predicate NamedIn(dir: seq<Entry>, i: nat) { exists k :: 2 <= k < |dir| && dir[k].inum == i }

  /** Apart from "." and ".." the directory is empty. */
  predicate Empty(dir: seq<Entry>) { forall k :: 2 <= k < |dir| ==> dir[k].inum == 0 }

  ghost predicate NodeOk(fs: Tree, i: nat, n: nat)
    requires i in fs
  {
    && 0 < i < n && fs[i].nlink == Total(fs, i, n)
    && (Linked(fs[i]) ==> DirOk(fs, i))
    && (fs[i].kind.Directory? ==> Dotted(fs[i].dir, i))
    && (fs[i].kind.Directory? && !Linked(fs[i]) ==> Empty(fs[i].dir))
    && (!fs[i].kind.Directory? ==> fs[i].dir == [])
  }

  /** The first two slots are "." and "..". */
  ghost predicate Dotted(dir: seq<Entry>, i: nat) {
    |dir| >= 2 && dir[0] == Entry(i, ".") && dir[1].name == ".." && dir[1].inum != 0
  }

  /** The root is `k` levels up. */
  ghost predicate Above(fs: Tree, d: nat, k: nat)
    decreases k
  {
    if k == 0 then d == ROOTINO else d != ROOTINO && d in fs && Above(fs, Parent(fs[d]), k - 1)
  }

  ghost predicate Rooted(fs: Tree, d: nat) { exists k: nat :: Above(fs, d, k) }

  /** nlink is the number of entries other than "." that name the inode in linked directories. */
  ghost predicate ExactCounts(fs: Tree, n: nat) { forall i :: i in fs ==> fs[i].nlink == Total(fs, i, n) }

  /** What the invariant says of each inode. */
  ghost predicate Local(fs: Tree, n: nat) {
    && ROOTINO in fs && Linked(fs[ROOTINO])
    && forall i {:trigger NodeOk(fs, i, n)} :: i in fs ==> NodeOk(fs, i, n)
  }

  ghost predicate AllRooted(fs: Tree) { forall d :: d in fs && Linked(fs[d]) ==> Rooted(fs, d) }

  /** Of the `n` inode numbers, for every inode: nlink is the number of entries other than "." that
      name it in linked directories; slots 0 and 1 of a directory are "." and ".."; linked directories
      form a tree, in which ".." leads from each one to the root. */
  ghost predicate Inv(fs: Tree, n: nat) { Local(fs, n) && AllRooted(fs) }
}
