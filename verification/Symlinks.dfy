/** Following symbolic links: the loop of sys_open() in kernel/sysfile.c. */
module Symlinks {
  import opened Names
  import opened Namespace
  import opened Paths

  const MAXDEPTH: nat := 10
  const MAXPATH: nat := 128

  /** What the symbolic links contain. */
  type Targets = map<nat, string>

  /** What the lookup in sys_open() comes to: an inode, -1, the panic of ilock(), or a 0 stored one
      past the end of `path`, after which anything may happen. */
  datatype Outcome = Opened(i: nat) | Fails | Panicked | Overruns

  predicate IsLink(fs: Tree, i: nat) { i != 0 && i in fs && fs[i].kind.Symlink? }

  /** namei(): the inode that a path names, 0 if there is none. */
  ghost function Named(fs: Tree, path: string, cwd: nat): (i: nat) {
    Resolve(fs, Start(path, cwd), Elements(path))
  }

  /** ilock() panics on the way to the inode that a path names, or there. */
  ghost predicate Panics(fs: Tree, path: string, cwd: nat) {
    Unallocated(fs, Start(path, cwd), Elements(path)) || (Named(fs, path, cwd) != 0 && Named(fs, path, cwd) !in fs)
  }

  /** The contents of a link; nothing if the inode has none. */
  function Content(targets: Targets, i: nat): (s: string) { if i in targets then targets[i] else "" }

  /** Inode `j` is where link `i` points, and the path to it fits in the buffer with its final 0. */
  ghost predicate PointsTo(fs: Tree, targets: Targets, cwd: nat, i: nat, j: nat) {
    IsLink(fs, i) && 0 < |Content(targets, i)| < MAXPATH && j == Named(fs, Content(targets, i), cwd)
  }

  /** The inodes on the way from `path`, each a link to the next, to one that is no link. */
  ghost predicate Chain(fs: Tree, targets: Targets, cwd: nat, path: string, xs: seq<nat>) {
    && xs != [] && xs[0] == Named(fs, path, cwd) && Way(fs, targets, cwd, xs)
    && xs[|xs| - 1] != 0 && xs[|xs| - 1] in fs && !IsLink(fs, xs[|xs| - 1])
  }

  ghost predicate Way(fs: Tree, targets: Targets, cwd: nat, xs: seq<nat>) {
    forall k :: 0 < k < |xs| ==> PointsTo(fs, targets, cwd, xs[k - 1], xs[k])
  }

  /** The way is the same for as long as both go. */
  lemma {:induction false} OneWay(fs: Tree, targets: Targets, cwd: nat, xs: seq<nat>, ys: seq<nat>, k: nat)
    requires Way(fs, targets, cwd, xs) && Way(fs, targets, cwd, ys) && k < |xs| && k < |ys| && xs[0] == ys[0]
    ensures xs[k] == ys[k]
  {
    if k > 0 {
      OneWay(fs, targets, cwd, xs, ys, k - 1);
      assert PointsTo(fs, targets, cwd, xs[k - 1], xs[k]) && PointsTo(fs, targets, cwd, ys[k - 1], ys[k]);
    }
  }

  /** A chain is the longest way: no other one goes on. */
  lemma ChainIsLongest(fs: Tree, targets: Targets, cwd: nat, path: string, xs: seq<nat>, ys: seq<nat>)
    requires Chain(fs, targets, cwd, path, xs) && Way(fs, targets, cwd, ys) && ys != [] && ys[0] == xs[0]
    ensures |ys| <= |xs| && ys == xs[..|ys|]
  {
    forall k | 0 <= k < |xs| && k < |ys| ensures xs[k] == ys[k] {
      OneWay(fs, targets, cwd, xs, ys, k);
    }
    assert |ys| > |xs| ==> PointsTo(fs, targets, cwd, ys[|xs| - 1], ys[|xs|]);
  }

  /** Links that lead in a circle lead nowhere: no inode is on a chain twice. */
  lemma NoCircle(fs: Tree, targets: Targets, cwd: nat, path: string, xs: seq<nat>, a: nat, b: nat)
    requires Chain(fs, targets, cwd, path, xs) && a < b < |xs|
    ensures xs[a] != xs[b]
  {
    var last := a + (|xs| - 1 - b);
    Repeats(fs, targets, cwd, xs, a, b, |xs| - 1 - b);
    assert PointsTo(fs, targets, cwd, xs[last], xs[last + 1]);
  }

  lemma {:induction false} Repeats(fs: Tree, targets: Targets, cwd: nat, xs: seq<nat>, a: nat, b: nat, d: nat)
    requires Way(fs, targets, cwd, xs) && a < b && b + d < |xs|
    ensures xs[a] == xs[b] ==> xs[a + d] == xs[b + d]
  {
    if d > 0 {
      Repeats(fs, targets, cwd, xs, a, b, d - 1);
      assert PointsTo(fs, targets, cwd, xs[a + d - 1], xs[a + d]) &&
             PointsTo(fs, targets, cwd, xs[b + d - 1], xs[b + d]);
    }
  }

  /** The way `ys` from `path` of at most MAXDEPTH links ends with `r`. */
  ghost predicate Ends(fs: Tree, targets: Targets, cwd: nat, path: string, ys: seq<nat>, r: Outcome) {
    && 0 < |ys| <= MAXDEPTH + 1 && ys[0] == Named(fs, path, cwd) && Way(fs, targets, cwd, ys)
    && var last := ys[|ys| - 1];
       match r
       case Opened(i) => i == last != 0 && last in fs && !IsLink(fs, last)
       case Panicked => Panics(fs, LastPath(targets, path, ys), cwd)
       case Overruns => |ys| <= MAXDEPTH && IsLink(fs, last) && |Content(targets, last)| >= MAXPATH
       case Fails =>
         || (last == 0 && !Panics(fs, LastPath(targets, path, ys), cwd))
         || (IsLink(fs, last) && (|ys| == MAXDEPTH + 1 || Content(targets, last) == ""))
  }

  /** The path that names the last inode. */
  function LastPath(targets: Targets, path: string, ys: seq<nat>): (p: string)
    requires ys != []
  {
    if |ys| == 1 then path else Content(targets, ys[|ys| - 2])
  }

  /** There is only one end. */
  lemma OneEnd(fs: Tree, targets: Targets, cwd: nat, path: string, ys: seq<nat>, r: Outcome, zs: seq<nat>, r': Outcome)
    requires Ends(fs, targets, cwd, path, ys, r) && Ends(fs, targets, cwd, path, zs, r')
    ensures ys == zs && r == r'
  {
    EndIsLast(fs, targets, cwd, path, ys, r, zs);
    EndIsLast(fs, targets, cwd, path, zs, r', ys);
    LastIsNamed(fs, targets, cwd, path, ys);
    if Panics(fs, LastPath(targets, path, ys), cwd) {
      PanicIsNowhere(fs, LastPath(targets, path, ys), cwd);
    }
  }

  ghost predicate LastNamed(fs: Tree, targets: Targets, cwd: nat, path: string, ys: seq<nat>) {
    ys != [] && ys[|ys| - 1] == Named(fs, LastPath(targets, path, ys), cwd)
  }

  lemma LastIsNamed(fs: Tree, targets: Targets, cwd: nat, path: string, ys: seq<nat>)
    requires ys != [] && ys[0] == Named(fs, path, cwd) && Way(fs, targets, cwd, ys)
    ensures LastNamed(fs, targets, cwd, path, ys)
  {
    if |ys| > 1 {
      assert PointsTo(fs, targets, cwd, ys[|ys| - 2], ys[|ys| - 1]);
    }
  }

  lemma PanicIsNowhere(fs: Tree, path: string, cwd: nat)
    requires Panics(fs, path, cwd)
    ensures Named(fs, path, cwd) == 0 || Named(fs, path, cwd) !in fs
  {
    if Unallocated(fs, Start(path, cwd), Elements(path)) {
      UnallocatedNowhere(fs, Start(path, cwd), Elements(path));
    }
  }

  /** No way with at most MAXDEPTH links goes further than an end. */
  lemma EndIsLast(fs: Tree, targets: Targets, cwd: nat, path: string, ys: seq<nat>, r: Outcome, zs: seq<nat>)
    requires Ends(fs, targets, cwd, path, ys, r)
    requires 0 < |zs| <= MAXDEPTH + 1 && zs[0] == ys[0] && Way(fs, targets, cwd, zs)
    ensures |zs| <= |ys| && zs == ys[..|zs|]
  {
    forall k | 0 <= k < |ys| && k < |zs| ensures ys[k] == zs[k] {
      OneWay(fs, targets, cwd, ys, zs, k);
    }
    LastIsNamed(fs, targets, cwd, path, ys);
    if r.Panicked? {
      PanicIsNowhere(fs, LastPath(targets, path, ys), cwd);
    }
    assert |zs| > |ys| ==> PointsTo(fs, targets, cwd, zs[|ys| - 1], zs[|ys|]);
  }

  /** The path lookup of sys_open() without O_CREATE: where the one chain of at most MAXDEPTH links ends;
      with O_NOFOLLOW, at the first link. */
  method Follow(t: FileTree, targets: Targets, path: string, cwd: nat, nofollow: bool) returns (r: Outcome)
    requires cwd != 0
    ensures nofollow ==>
              var i := Named(t.fs, path, cwd);
              r == if Panics(t.fs, path, cwd) then Panicked else if i != 0 then Opened(i) else Fails
    ensures !nofollow ==> exists ys :: Ends(t.fs, targets, cwd, path, ys, r)
  {
    var p, depth := path, 0;
    ghost var xs: seq<nat> := [];
    while true
      invariant depth == |xs| <= MAXDEPTH && Way(t.fs, targets, cwd, xs)
      invariant depth == 0 ==> p == path
      invariant depth > 0 ==> !nofollow && xs[0] == Named(t.fs, path, cwd) && IsLink(t.fs, xs[depth - 1])
      invariant depth > 0 ==> p == Content(targets, xs[depth - 1]) && 0 < |p| < MAXPATH
      decreases MAXDEPTH - depth
    {
      var found := Namex(t, p, cwd, false);
      ghost var i := Named(t.fs, p, cwd);
      ghost var ys := xs + [i];
      assert Way(t.fs, targets, cwd, ys) by {
        assert depth > 0 ==> PointsTo(t.fs, targets, cwd, xs[depth - 1], i);
      }
      assert p == LastPath(targets, path, ys) && ys[0] == Named(t.fs, path, cwd);
      if found.NoType? || (found.Inode? && found.ip !in t.fs) {
        assert !nofollow ==> Ends(t.fs, targets, cwd, path, ys, Panicked);
        return Panicked;
      }
      if found.Nothing? {
        assert !nofollow ==> Ends(t.fs, targets, cwd, path, ys, Fails);
        return Fails;
      }
      var ip := found.ip;
      if !IsLink(t.fs, ip) || nofollow {
        assert !nofollow ==> Ends(t.fs, targets, cwd, path, ys, Opened(ip));
        return Opened(ip);
      }
      // readi() of at most MAXPATH bytes
      var len := if |Content(targets, ip)| < MAXPATH then |Content(targets, ip)| else MAXPATH;
      if depth >= MAXDEPTH || len == 0 {
        assert Ends(t.fs, targets, cwd, path, ys, Fails);
        return Fails;
      }
      if len == MAXPATH {
        assert Ends(t.fs, targets, cwd, path, ys, Overruns);
        return Overruns;
      }
      p, depth, xs := Content(targets, ip)[..len], depth + 1, ys;
    }
  }

  /** sys_open() finds an inode exactly at the end of a chain of at most MAXDEPTH links. */
  lemma OpenedIsChain(fs: Tree, targets: Targets, cwd: nat, path: string, ys: seq<nat>, i: nat)
    ensures Ends(fs, targets, cwd, path, ys, Opened(i)) <==>
              Chain(fs, targets, cwd, path, ys) && |ys| <= MAXDEPTH + 1 && i == ys[|ys| - 1]
  {
  }

  /** As long as no link holds MAXPATH bytes or more, which sys_symlink() does not write but a write to
      the link itself can, the 0 stays in the buffer. */
  lemma ShortLinksFit(fs: Tree, targets: Targets, cwd: nat, path: string, ys: seq<nat>, r: Outcome)
    requires Ends(fs, targets, cwd, path, ys, r)
    ensures r.Overruns? <==>
              |ys| <= MAXDEPTH && IsLink(fs, ys[|ys| - 1]) && |Content(targets, ys[|ys| - 1])| >= MAXPATH
  {
    LastIsNamed(fs, targets, cwd, path, ys);
    if r.Panicked? {
      PanicIsNowhere(fs, LastPath(targets, path, ys), cwd);
    }
  }
}
