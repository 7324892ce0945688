/** Path names: skipelem() and namex() of kernel/fs.c. */
module Paths {
  import opened Names
  import opened Namespace
  import opened Wrappers

  /** The elements of a path: what is between slashes, if it is not empty. */
  function Elements(path: string): (es: seq<string>)
    decreases |path|
  {
    if path == "" then []
    else if path[0] == '/' then Elements(path[1..])
    else [path[..Length(path)]] + Elements(path[Length(path)..])
  }

  /** How many characters there are before the first slash. */
  function Length(path: string): (n: nat)
    ensures n <= |path| && (forall i :: 0 <= i < n ==> path[i] != '/') && (n < |path| ==> path[n] == '/')
    ensures path != "" && path[0] != '/' ==> n > 0
  {
    if path == "" || path[0] == '/' then 0 else 1 + Length(path[1..])
  }

  // ---- What the elements of a path are ------------------------------------------------------------------

  /** `gaps[0] es[0] gaps[1] es[1] ... gaps[|es|]`, one after the other. */
  function Joined(gaps: seq<string>, es: seq<string>): (path: string)
    requires |gaps| == |es| + 1
  {
    if es == [] then gaps[0] else gaps[0] + es[0] + Joined(gaps[1..], es[1..])
  }

  predicate Slashes(s: string) { forall i :: 0 <= i < |s| ==> s[i] == '/' }

  /** The gaps hold slashes only, and there is one at least between two names. */
  ghost predicate Separate(gaps: seq<string>, es: seq<string>) {
    && |gaps| == |es| + 1
    && (forall i :: 0 <= i < |gaps| ==> Slashes(gaps[i]))
    && (forall i :: 0 < i < |es| ==> gaps[i] != "")
    && (forall i :: 0 <= i < |es| ==> Spelling(es[i]))
  }

  /** `path` spells the names `es`: with slashes between them, and perhaps before and after. */
  ghost predicate Spells(path: string, es: seq<string>) {
    exists gaps :: Separate(gaps, es) && Joined(gaps, es) == path
  }

  lemma {:induction false} SkipGap(gap: string, rest: string)
    requires Slashes(gap)
    ensures Elements(gap + rest) == Elements(rest)
    decreases |gap|
  {
    if gap == "" {
      assert gap + rest == rest;
    } else {
      assert (gap + rest)[1..] == gap[1..] + rest;
      SkipGap(gap[1..], rest);
    }
  }

  lemma FirstElement(e: string, rest: string)
    requires Spelling(e) && (rest != "" ==> rest[0] == '/')
    ensures Elements(e + rest) == [e] + Elements(rest)
  {
    var n := Length(e + rest);
    assert forall i :: 0 <= i < |e| ==> (e + rest)[i] == e[i];
    assert rest != "" ==> (e + rest)[|e|] == '/';
    assert (e + rest)[..n] == e && (e + rest)[n..] == rest;
  }

  lemma {:induction false} ElementsOfJoin(gaps: seq<string>, es: seq<string>)
    requires Separate(gaps, es)
    ensures Elements(Joined(gaps, es)) == es
    decreases |es|
  {
    if es == [] {
      SkipGap(gaps[0], "");
      assert gaps[0] + "" == gaps[0];
    } else {
      var rest := Joined(gaps[1..], es[1..]);
      ElementsOfJoin(gaps[1..], es[1..]);
      assert rest != "" ==> rest[0] == '/';
      FirstElement(es[0], rest);
      SkipGap(gaps[0], es[0] + rest);
      assert gaps[0] + es[0] + rest == gaps[0] + (es[0] + rest);
    }
  }

  lemma {:induction false} EveryPathIsAJoin(path: string) returns (gaps: seq<string>)
    ensures Separate(gaps, Elements(path)) && Joined(gaps, Elements(path)) == path
    decreases |path|
  {
    if path == "" {
      gaps := [""];
    } else if path[0] == '/' {
      var g := EveryPathIsAJoin(path[1..]);
      gaps := MoreSlash(path, g);
    } else {
      var g := EveryPathIsAJoin(path[Length(path)..]);
      gaps := MoreName(path, g);
    }
  }

  lemma MoreSlash(path: string, g: seq<string>) returns (gaps: seq<string>)
    requires path != "" && path[0] == '/'
    requires var es := Elements(path[1..]); Separate(g, es) && Joined(g, es) == path[1..]
    ensures Separate(gaps, Elements(path)) && Joined(gaps, Elements(path)) == path
  {
    var es := Elements(path);
    gaps := ["/" + g[0]] + g[1..];
    assert gaps[1..] == g[1..];
    assert path == "/" + path[1..];
    if es != [] {
      var rest := Joined(g[1..], es[1..]);
      assert "/" + (g[0] + es[0] + rest) == ("/" + g[0]) + es[0] + rest;
    }
  }

  lemma MoreName(path: string, g: seq<string>) returns (gaps: seq<string>)
    requires path != "" && path[0] != '/'
    requires var rest := path[Length(path)..]; Separate(g, Elements(rest)) && Joined(g, Elements(rest)) == rest
    ensures Separate(gaps, Elements(path)) && Joined(gaps, Elements(path)) == path
  {
    var n := Length(path);
    var rest := path[n..];
    gaps := [""] + g;
    assert gaps[1..] == g && Elements(path)[1..] == Elements(rest);
    assert path == "" + path[..n] + rest;
    assert Elements(rest) != [] ==> rest[|g[0]|] == Elements(rest)[0][0];
  }

  /** The elements of a path are the names that it spells; and there is one way to read it. */
  lemma ElementsAreSpelled(path: string, es: seq<string>)
    ensures Elements(path) == es <==> Spells(path, es)
  {
    if Elements(path) == es {
      var gaps := EveryPathIsAJoin(path);
    }
    if Spells(path, es) {
      var gaps :| Separate(gaps, es) && Joined(gaps, es) == path;
      ElementsOfJoin(gaps, es);
    }
  }

  /** skipelem(): the first element, cut to DIRSIZ characters, and the path after it without leading
      slashes; nothing if the path has no element. */
  method Skipelem(path: string) returns (r: Option<(string, Name)>)
    ensures r.None? ==> Elements(path) == []
    ensures r.Some? ==>
              && Elements(path) != [] && r.value.1 == Truncated(Elements(path)[0]) &&
                 Elements(r.value.0) == Elements(path)[1..]
              && Spelling(r.value.1) && |r.value.0| < |path| && (r.value.0 == "" <==> |Elements(path)| == 1)
  {
    var p := SkipSlashes(path);
    if p == "" {
      return None;
    }
    var n := 0;
    while n < |p| && p[n] != '/'
      invariant n <= Length(p)
    {
      n := n + 1;
    }
    var elem := p[..n];
    var rest := SkipSlashes(p[n..]);
    assert Elements(p)[1..] == Elements(p[n..]);
    assert forall i :: 0 <= i < n ==> p[i] != '/';
    var name: Name := if n >= DIRSIZ then elem[..DIRSIZ] else elem;
    r := Some((rest, name));
  }

  method SkipSlashes(path: string) returns (p: string)
    ensures Elements(p) == Elements(path) && |p| <= |path| && (p == "" || p[0] != '/')
  {
    p := path;
    while p != "" && p[0] == '/'
      invariant Elements(p) == Elements(path) && |p| <= |path|
      decreases |p|
    {
      p := p[1..];
    }
  }

  /** Follow the elements from inode `d`; 0 if that leads nowhere. */
  ghost function Resolve(fs: Tree, d: nat, es: seq<string>): (i: nat)
    decreases |es|
  {
    if es == [] then d
    else if d !in fs || !fs[d].kind.Directory? then 0
    else
      var next := Lookup(fs[d].dir, Truncated(es[0]));
      if next == 0 then 0 else Resolve(fs, next, es[1..])
  }

  /** The directory that the last element is looked for in. */
  ghost function ResolveParent(fs: Tree, d: nat, es: seq<string>): (i: nat)
    requires es != []
  {
    Resolve(fs, d, es[..|es| - 1])
  }

  lemma ParentStep(fs: Tree, d: nat, es: seq<string>)
    requires |es| > 1
    ensures ResolveParent(fs, d, es) ==
              if d !in fs || !fs[d].kind.Directory? then 0
              else
                var next := Lookup(fs[d].dir, Truncated(es[0]));
                if next == 0 then 0 else ResolveParent(fs, next, es[1..])
  {
    assert es[..|es| - 1][1..] == es[1..][..|es| - 2];
  }

  /** Following the elements from inode `d` comes to an inode that is not allocated while elements are
      left. ilock() panics there. */
  ghost predicate Unallocated(fs: Tree, d: nat, es: seq<string>)
    decreases |es|
  {
    es != [] &&
    if d !in fs then true
    else
      && fs[d].kind.Directory?
      && var next := Lookup(fs[d].dir, Truncated(es[0]));
         next != 0 && Unallocated(fs, next, es[1..])
  }

  lemma {:induction false} UnallocatedNowhere(fs: Tree, d: nat, es: seq<string>)
    requires Unallocated(fs, d, es)
    ensures Resolve(fs, d, es) == 0
    decreases |es|
  {
    if d in fs {
      UnallocatedNowhere(fs, Lookup(fs[d].dir, Truncated(es[0])), es[1..]);
    }
  }

  datatype Found = Inode(ip: nat, name: Name) | Nothing | NoType

  /** A path that begins with a slash is followed from the root. */
  function Start(path: string, cwd: nat): (d: nat) { if path != "" && path[0] == '/' then ROOTINO else cwd }

  /** namex(): with `parent`, the directory that the last element is looked for in, and its name;
      otherwise the inode that the path names. `NoType` is the panic of ilock(). */
  method Namex(t: FileTree, path: string, cwd: nat, parent: bool) returns (r: Found)
    requires cwd != 0
    ensures parent && r.Inode? ==> Spelling(r.name)
    ensures var start := Start(path, cwd);
            var es := Elements(path);
            && (r.NoType? <==> Unallocated(t.fs, start, es))
            && (r.Inode? ==> r.ip != 0)
            && if !parent then (if r.Inode? then r.ip else 0) == Resolve(t.fs, start, es)
               else if es == [] then r.Nothing?
               else
                 var d := ResolveParent(t.fs, start, es);
                 r.NoType? ||
                 r == if d in t.fs && d != 0 && t.fs[d].kind.Directory? then Inode(d, Truncated(es[|es| - 1]))
                      else Nothing
  {
    var ip: nat := Start(path, cwd);
    ghost var start, es := ip, Elements(path);
    var p, name: Name := path, "";
    while true
      invariant ip != 0 && Resolve(t.fs, start, es) == Resolve(t.fs, ip, Elements(p))
      invariant Unallocated(t.fs, start, es) == Unallocated(t.fs, ip, Elements(p))
      invariant parent ==> (es == [] <==> Elements(p) == [])
      invariant parent && es != [] ==>
                  && Elements(p)[|Elements(p)| - 1] == es[|es| - 1]
                  && ResolveParent(t.fs, start, es) == ResolveParent(t.fs, ip, Elements(p))
      decreases |p|
    {
      var e := Skipelem(p);
      if e.None? {
        break;
      }
      ghost var es1 := Elements(p);
      p, name := e.value.0, e.value.1;
      if |es1| > 1 {
        ParentStep(t.fs, ip, es1);
      }
      if ip !in t.fs {
        return NoType;
      }
      if !t.fs[ip].kind.Directory? {
        return Nothing;
      }
      if parent && p == "" {
        LastElement(t.fs, ip, es1);
        return Inode(ip, name);
      }
      var next := t.Dirlookup(ip, name);
      if next.None? {
        return Nothing;
      }
      ip := next.value.0;
    }
    r := if parent then Nothing else Inode(ip, name);
  }

  lemma LastElement(fs: Tree, d: nat, es: seq<string>)
    requires |es| == 1 && d in fs
    ensures !Unallocated(fs, d, es)
  {
    assert es[1..] == [];
  }

  // ---- What the tree of names gives a path --------------------------------------------------------------

  /** A linked directory leads only to inodes that are allocated, so ilock() does not panic. */
  lemma {:induction false} LinkedNeverPanics(fs: Tree, n: nat, d: nat, es: seq<string>)
    requires Inv(fs, n) && d in fs && (Linked(fs[d]) || !fs[d].kind.Directory?)
    ensures !Unallocated(fs, d, es)
    decreases |es|
  {
    if es != [] && fs[d].kind.Directory? {
      var next := Lookup(fs[d].dir, Truncated(es[0]));
      if next != 0 {
        LinkedStep(fs, n, d, Truncated(es[0]));
        LinkedNeverPanics(fs, n, next, es[1..]);
      }
    }
  }

  lemma LinkedStep(fs: Tree, n: nat, d: nat, name: Name)
    requires Inv(fs, n) && d in fs && Linked(fs[d]) && Lookup(fs[d].dir, name) != 0
    ensures var next := Lookup(fs[d].dir, name); next in fs && (Linked(fs[next]) || !fs[next].kind.Directory?)
  {
    assert NodeOk(fs, d, n);
    var k := LookupAt(fs[d].dir, name);
    assert EntryOk(fs, d, k);
  }

  /** The inode that ".." leads to, `k` times over. */
  ghost function Up(fs: Tree, d: nat, k: nat): (i: nat)
    decreases k
  {
    if k == 0 then d else if d in fs && fs[d].kind.Directory? then Up(fs, Parent(fs[d]), k - 1) else d
  }

  ghost predicate CanPanic(fs: Tree, d: nat) { exists es :: Unallocated(fs, d, es) }

  ghost predicate LeadsOut(fs: Tree, d: nat) { exists k: nat :: Up(fs, d, k) !in fs }

  /** Some path from a directory runs into an inode that is not allocated if and only if ".." does. */
  lemma PanicsExactly(fs: Tree, n: nat, d: nat)
    requires Inv(fs, n) && d in fs && fs[d].kind.Directory?
    ensures CanPanic(fs, d) <==> LeadsOut(fs, d)
  {
    if CanPanic(fs, d) {
      var es :| Unallocated(fs, d, es);
      var k := OnlyUp(fs, n, d, es);
      assert LeadsOut(fs, d);
    }
    if LeadsOut(fs, d) {
      var k: nat :| Up(fs, d, k) !in fs;
      var es := Dots(fs, n, d, k);
      assert CanPanic(fs, d);
    }
  }

  lemma {:induction false} OnlyUp(fs: Tree, n: nat, d: nat, es: seq<string>) returns (k: nat)
    requires Inv(fs, n) && Unallocated(fs, d, es)
    ensures Up(fs, d, k) !in fs
    decreases |es|
  {
    if d !in fs {
      return 0;
    }
    if Linked(fs[d]) {
      LinkedNeverPanics(fs, n, d, es);
      assert false;
    }
    assert NodeOk(fs, d, n);
    var dir, name := fs[d].dir, Truncated(es[0]);
    var x := LookupAt(dir, name);
    k := OnlyUp(fs, n, dir[x].inum, es[1..]);
    if x == 1 {
      k := k + 1;
    }
  }

  lemma {:induction false} Dots(fs: Tree, n: nat, d: nat, k: nat) returns (es: seq<string>)
    requires Inv(fs, n) && Up(fs, d, k) !in fs
    ensures Unallocated(fs, d, es)
    decreases k
  {
    if k == 0 || d !in fs {
      es := ["x"];
    } else {
      assert NodeOk(fs, d, n);
      var rest := Dots(fs, n, Parent(fs[d]), k - 1);
      es := [".."] + rest;
      LookupDotDot(fs[d].dir, d);
      assert es[1..] == rest;
    }
  }

  lemma LookupDotDot(dir: seq<Entry>, d: nat)
    requires Dotted(dir, d)
    ensures Lookup(dir, "..") == dir[1].inum
  {
    assert dir[1..][0] == dir[1];
  }

  /** It does happen: the current directory 2 and its parent 5 have been removed, and "../x" is opened. */
  lemma DotDotPanics()
    ensures Inv(WithUnlinked(5), 6) && Unallocated(WithUnlinked(5), 2, ["..", "x"])
  {
    WithUnlinkedOk(5, 6);
    LookupDotDot(WithUnlinked(5)[2].dir, 2);
    assert ["..", "x"][1..] == ["x"];
  }

  /** Every linked directory is reached from the root by the names on the way. */
  lemma {:induction false} NamesOnTheWay(fs: Tree, n: nat, d: nat, k: nat) returns (es: seq<string>)
    requires Inv(fs, n) && Spelled(fs) && d in fs && Linked(fs[d]) && Above(fs, d, k)
    ensures Resolve(fs, ROOTINO, es) == d && |es| == k && forall i :: 0 <= i < k ==> Spelling(es[i])
    decreases k
  {
    if k == 0 {
      es := [];
    } else {
      assert NodeOk(fs, d, n);
      var p := Parent(fs[d]);
      var up := NamesOnTheWay(fs, n, p, k - 1);
      assert NodeOk(fs, p, n);
      var x :| 2 <= x < |fs[p].dir| && fs[p].dir[x].inum == d;
      var name := fs[p].dir[x].name;
      LookupIsMapping(fs[p].dir, name);
      MappingIs(fs[p].dir, name);
      ResolveMore(fs, ROOTINO, up, name);
      es := up + [name];
    }
  }

  /** A slash before every name, and the root is one slash. */
  function Absolute(es: seq<string>): (path: string) {
    if es == [] then "/" else Joined(seq(|es|, i => "/") + [""], es)
  }

  lemma AbsoluteSpells(es: seq<string>)
    requires forall i :: 0 <= i < |es| ==> Spelling(es[i])
    ensures Elements(Absolute(es)) == es && Absolute(es) != "" && Absolute(es)[0] == '/'
  {
    if es == [] {
      assert Elements("/") == Elements("/"[1..]);
    } else {
      ElementsOfJoin(seq(|es|, i => "/") + [""], es);
    }
  }

  /** Every linked directory has a path, as long as it is deep, that namex() follows to it from
      whatever directory is the current one. */
  lemma EveryDirectoryHasAPath(fs: Tree, n: nat, d: nat, k: nat) returns (path: string)
    requires Inv(fs, n) && Spelled(fs) && d in fs && Linked(fs[d]) && Above(fs, d, k)
    ensures |Elements(path)| == k
    ensures forall cwd :: Resolve(fs, Start(path, cwd), Elements(path)) == d
    ensures forall cwd :: !Unallocated(fs, Start(path, cwd), Elements(path))
  {
    var es := NamesOnTheWay(fs, n, d, k);
    AbsoluteSpells(es);
    path := Absolute(es);
    LinkedNeverPanics(fs, n, ROOTINO, es);
  }

  lemma {:induction false} ResolveMore(fs: Tree, d: nat, es: seq<string>, name: Name)
    requires d != 0 && Resolve(fs, d, es) in fs && fs[Resolve(fs, d, es)].kind.Directory? && Resolve(fs, d, es) != 0
    ensures Resolve(fs, d, es + [name]) == Lookup(fs[Resolve(fs, d, es)].dir, name)
    decreases |es|
  {
    if es == [] {
      assert (es + [name])[1..] == [];
    } else {
      assert (es + [name])[1..] == es[1..] + [name];
      ResolveMore(fs, Lookup(fs[d].dir, Truncated(es[0])), es[1..], name);
    }
  }
}
