/** The memory of a new process: allocproc(), proc_pagetable(), freeproc() and kfork() of
    kernel/proc.c. */
module Fork {
  import opened RiscV
  import opened Blocks
  import opened PageTree
  import opened Vm
  import opened Uvm
  import opened Wrappers

  /** All of physical memory. */
  datatype Phys = Phys(role: map<nat, Role>, tables: Tables, bytes: map<nat, Page>)

  ghost function Now(m: PhysMem): (s: Phys)
    reads m
    ensures s.role == m.role && s.tables == m.tables && s.bytes == m.bytes
  {
    Phys(m.role, m.tables, m.bytes)
  }

  /** The uses of the pages and the free list say the same. */
  ghost predicate Used(s: Phys) {
    && (forall p :: p in s.tables <==> p in s.role && s.role[p] == TablePage)
    && (forall p :: p in s.bytes <==> p in s.role && s.role[p] == DataPage)
  }

  ghost predicate Listed(freelist: seq<nat>, role: map<nat, Role>) {
    && (forall i, j :: 0 <= i < j < |freelist| ==> freelist[i] != freelist[j])
    && (forall p :: p in freelist <==> p in role && role[p] == Free)
  }

  lemma ValidParts(m: PhysMem)
    requires m.Valid()
    ensures Used(Now(m)) && Listed(m.freelist, m.role)
  {
  }

  /** Tables and memory as before, and nothing lost, is everything as before. */
  lemma AllBack(s: Phys, s': Phys, f: seq<nat>, f': seq<nat>)
    requires Used(s) && Used(s') && Listed(f, s.role) && Listed(f', s'.role)
    requires s'.tables == s.tables && s'.bytes == s.bytes && NoLeak(s.role, s'.role)
    ensures s' == s && multiset(f') == multiset(f)
  {
    forall p | p in s.role ensures s'.role[p] == s.role[p] {
      assert p in s.tables <==> s.role[p] == TablePage;
      assert p in s.bytes <==> s.role[p] == DataPage;
    }
    assert s'.role == s.role;
    SameElements(f, f');
  }

  lemma {:induction false} SameElements(f: seq<nat>, f': seq<nat>)
    requires forall i, j :: 0 <= i < j < |f| ==> f[i] != f[j]
    requires forall i, j :: 0 <= i < j < |f'| ==> f'[i] != f'[j]
    requires forall p :: p in f <==> p in f'
    ensures multiset(f) == multiset(f')
  {
    forall p ensures multiset(f)[p] == multiset(f')[p] {
      Once(f, p);
      Once(f', p);
    }
  }

  lemma {:induction false} Once(f: seq<nat>, p: nat)
    requires forall i, j :: 0 <= i < j < |f| ==> f[i] != f[j]
    ensures multiset(f)[p] == if p in f then 1 else 0
  {
    if f != [] {
      var l := |f| - 1;
      assert f == f[..l] + [f[l]];
      Once(f[..l], p);
    }
  }

  /** The tree of `v` is all that `t'` has more than `t`. */
  ghost predicate Added(t: Tables, t': Tables, v: Pt) {
    && (forall p :: p in t ==> p in t' && t'[p] == t[p])
    && (forall p :: p in t' && p !in t ==> p in v.node.Values)
    && (forall p :: p in v.node.Values ==> p !in t)
  }

  lemma AddedGone(t: Tables, t': Tables, v: Pt)
    requires Added(t, t', v)
    ensures t' - v.node.Values == t
  {
  }

  lemma AddedMore(t: Tables, t1: Tables, v: Pt, t2: Tables, v': Pt)
    requires Added(t, t1, v) && Extends(t1, v, t2, v')
    ensures Added(t, t2, v')
  {
    forall p | p in v'.node.Values ensures p !in t {
      var n :| n in v'.node && v'.node[n] == p;
      assert n in v.node ==> v.node[n] in v.node.Values;
    }
    forall p | p in t2 && p !in t ensures p in v'.node.Values {
      if p in t1 {
        var n :| n in v.node && v.node[n] == p;
        assert v'.node[n] == p;
      }
    }
  }

  lemma AddedApart(t: Tables, t': Tables, v: Pt, w: Pt)
    requires Added(t, t', v) && Tree(t, w)
    ensures Apart(w, v) && Tree(t', w)
  {
    forall n, k | n in w.node && k in v.node ensures w.node[n] != v.node[k] {
      assert v.node[k] in v.node.Values;
    }
    Elsewhere(t, t', w);
  }

  /** uvmcreate(): an empty page table. */
  method Uvmcreate(m: PhysMem) returns (r: Option<nat>, ghost v: Pt)
    requires m.Valid()
    modifies m
    ensures m.Valid() && NoLeak(old(m.role), m.role) && m.bytes == old(m.bytes)
    ensures r.None? ==> m.tables == old(m.tables) && old(m.freelist) == []
    ensures r.Some? ==>
              && Tree(m.tables, v) && v.root == r.value && v.leaf == map[] && Added(old(m.tables), m.tables, v)
              && |old(m.freelist)| == |m.freelist| + 1
  {
    hide PhysMem.Valid, Tree, NoLeak, Added;
    NoLeakSelf(m.role);
    v := Pt(0, map[], map[]);
    r := m.Kalloc();
    if r.Some? {
      v := Pt(r.value, map[Root := r.value], map[]);
      NewTree(m.tables, r.value);
      NoLeakClaim(old(m.role), r.value, TablePage);
      m.ClaimTable(r.value);
    }
  }

  lemma NewTree(t: Tables, p: nat)
    requires p !in t
    ensures var v := Pt(p, map[Root := p], map[]);
            Tree(t[p := EmptyTable()], v) && Added(t, t[p := EmptyTable()], v)
  {
  }

  /** The mapping of a new process. */
  function Top(trampoline: nat, trapframe: nat): (leaf: map<nat, Pte>)
    ensures forall p :: p in leaf ==> leaf[p].Pte? && !leaf[p].perm.u
  {
    map[TRAMPOLINE := Pte(trampoline, Perm(true, false, true, false)),
        TRAPFRAME := Pte(trapframe, Perm(true, true, false, false))]
  }

  /** mappages() of one page, as proc_pagetable() uses it. */
  method MapTop(m: PhysMem, ghost v: Pt, pagetable: nat, vpn: nat, ppn: nat, perm: Perm, ghost t: Tables)
    returns (ok: bool, ghost v': Pt)
    requires m.Valid() && Tree(m.tables, v) && v.root == pagetable && vpn < MAXPAGE && vpn !in v.leaf &&
             Added(t, m.tables, v)
    modifies m
    ensures m.Valid() && Tree(m.tables, v') && v'.root == pagetable && NoLeak(old(m.role), m.role) &&
            m.bytes == old(m.bytes)
    ensures Added(t, m.tables, v') && v'.leaf == if ok then v.leaf[vpn := Pte(ppn, perm)] else v.leaf
    ensures |old(m.freelist)| <= |m.freelist| + 2 && (!ok ==> |old(m.freelist)| < 2)
  {
    hide *;
    MappedOne(v.leaf, vpn, ppn, perm);
    ok, v' := m.Mappages(v, pagetable, vpn, 1, ppn, perm);
    ExtendsRoot(old(m.tables), v, m.tables, v');
    AddedMore(t, old(m.tables), v, m.tables, v');
  }

  /** uvmfree(pagetable, 0) of a tree that maps nothing. */
  method FreeTree(m: PhysMem, ghost v: Pt, pagetable: nat, ghost t: Tables)
    requires m.Valid() && Tree(m.tables, v) && v.root == pagetable && v.leaf == map[] && Added(t, m.tables, v)
    modifies m
    ensures m.Valid() && NoLeak(old(m.role), m.role) && m.bytes == old(m.bytes) && m.tables == t
  {
    NoPages(v.leaf, m.bytes, 0);
    hide PhysMem.Valid, Tree, NoLeak, Added, Pages;
    AddedGone(t, m.tables, v);
    var ok := Uvmfree(m, v, pagetable, 0);
  }

  /** proc_pagetable(): a page table that maps the trampoline and the trapframe; or nothing has
      changed, and there were fewer than five free pages. */
  method ProcPagetable(m: PhysMem, trampoline: nat, trapframe: nat) returns (r: Option<nat>, ghost v: Pt)
    requires m.Valid()
    modifies m
    ensures m.Valid() && NoLeak(old(m.role), m.role) && m.bytes == old(m.bytes)
    ensures r.None? ==> m.tables == old(m.tables) && |old(m.freelist)| < 5
    ensures r.Some? ==>
              && Tree(m.tables, v) && v.root == r.value && v.leaf == Top(trampoline, trapframe)
              && Added(old(m.tables), m.tables, v) && |old(m.freelist)| <= |m.freelist| + 5
  {
    hide *;
    TopFacts(trampoline, trapframe);
    r, v := Uvmcreate(m);
    if r.None? {
      return;
    }
    ghost var r1 := m.role;
    var ok;
    ok, v := MapTop(m, v, r.value, TRAMPOLINE, trampoline, Perm(true, false, true, false), old(m.tables));
    ghost var r2 := m.role;
    NoLeakTrans(old(m.role), r1, r2);
    if !ok {
      FreeTree(m, v, r.value, old(m.tables));
      NoLeakTrans(old(m.role), r2, m.role);
      return None, v;
    }
    ok, v := MapTrapframe(m, v, r.value, trampoline, trapframe, old(m.tables));
    NoLeakTrans(old(m.role), r2, m.role);
    if !ok {
      r := None;
    }
  }

  /** The second mappages() and its undo. */
  method MapTrapframe(m: PhysMem, ghost v: Pt, pagetable: nat, trampoline: nat, trapframe: nat, ghost t: Tables)
    returns (ok: bool, ghost v': Pt)
    requires m.Valid() && Tree(m.tables, v) && v.root == pagetable && Added(t, m.tables, v)
    requires v.leaf == map[][TRAMPOLINE := Pte(trampoline, Perm(true, false, true, false))]
    modifies m
    ensures m.Valid() && NoLeak(old(m.role), m.role) && m.bytes == old(m.bytes)
    ensures !ok ==> m.tables == t && |old(m.freelist)| < 2
    ensures ok ==>
              && Tree(m.tables, v') && v'.root == pagetable && v'.leaf == Top(trampoline, trapframe) &&
                 Added(t, m.tables, v')
              && |old(m.freelist)| <= |m.freelist| + 2
  {
    hide *;
    TopFacts(trampoline, trapframe);
    ok, v' := MapTop(m, v, pagetable, TRAPFRAME, trapframe, Perm(true, true, false, false), t);
    if !ok {
      ghost var r1 := m.role;
      UnmapTop(m, v', pagetable, TRAMPOLINE, t);
      NoLeakTrans(old(m.role), r1, m.role);
    }
  }

  lemma TopFacts(trampoline: nat, trapframe: nat)
    ensures TRAMPOLINE < MAXPAGE && TRAPFRAME < MAXPAGE
    ensures var one := map[][TRAMPOLINE := Pte(trampoline, Perm(true, false, true, false))];
            && TRAPFRAME !in one && one.Keys == {TRAMPOLINE}
            && one[TRAPFRAME := Pte(trapframe, Perm(true, true, false, false))] == Top(trampoline, trapframe)
  {
  }

  /** Take the trampoline out and free the tree. */
  method UnmapTop(m: PhysMem, ghost v: Pt, pagetable: nat, vpn: nat, ghost t: Tables)
    requires m.Valid() && Tree(m.tables, v) && v.root == pagetable && vpn < MAXPAGE && Added(t, m.tables, v)
    requires v.leaf.Keys == {vpn}
    modifies m
    ensures m.Valid() && NoLeak(old(m.role), m.role) && m.bytes == old(m.bytes) && m.tables == t
  {
    assert Unmapped(v.leaf, vpn, 1) == map[];
    hide *;
    var v1 := m.Uvmunmap(v, pagetable, vpn, 1, false);
    ghost var r1 := m.role;
    AddedUnmapped(t, old(m.tables), v, m.tables, v1);
    FreeTree(m, v1, pagetable, t);
    NoLeakTrans(old(m.role), r1, m.role);
  }

  lemma AddedUnmapped(t: Tables, t1: Tables, v: Pt, t2: Tables, v': Pt)
    requires Added(t, t1, v) && t2.Keys == t1.Keys && v'.node == v.node
    requires forall p :: p in t2 && p !in v.node.Values ==> t2[p] == t1[p]
    ensures Added(t, t2, v')
  {
  }

  /** freeproc(), as far as memory goes: the trapframe, and the page table with the memory that it
      maps. It panics, which is not `ok`, exactly if there is a page table and the size has passed
      MAXVA. */
  method Freeproc(m: PhysMem, ghost v: Pt, trapframe: nat, pagetable: Option<nat>, sz: nat) returns (ok: bool)
    requires m.Valid() && trapframe in m.role && m.role[trapframe] == Limbo
    requires pagetable.Some? ==>
               && Tree(m.tables, v) && v.root == pagetable.value
               && UserSpace(v.leaf, Pages(sz)) && Private(v.leaf, m.bytes, 0, UserPages(Pages(sz)))
    modifies m
    ensures ok <==> pagetable.None? || Pages(sz) <= MAXPAGE
    ensures ok ==> m.Valid() && NoLeak(old(m.role)[trapframe := Free], m.role)
    ensures ok ==> m.tables == if pagetable.Some? then old(m.tables) - v.node.Values else old(m.tables)
    ensures ok ==>
              m.bytes == if pagetable.Some? then old(m.bytes) - Behind(v.leaf, 0, UserPages(Pages(sz)))
                         else old(m.bytes)
  {
    hide *;
    m.Kfree(trapframe);
    NoLeakSelf(m.role);
    ok := true;
    if pagetable.Some? {
      ok := ProcFreepagetable(m, v, pagetable.value, sz);
    }
  }

  /** What kfork() comes to: a child, -1, or the panic of mappages(). */
  datatype Child = Forked(trapframe: nat, pagetable: nat) | TooFewPages | Remaps

  /** The memory of kfork(), from the trapframe of the child on. On success the child has a trapframe
      page of its own and a page table that maps it, and its memory equals the parent's on pages of
      its own. On failure everything is as before, each free page is on the list once, and there were
      too few of them. A parent whose size has passed the trapframe page has no child: with memory, it
      panics. */
  method Kfork(m: PhysMem, ghost vo: Pt, old_: nat, sz: nat, trampoline: nat) returns (r: Child, ghost vn: Pt)
    requires m.Valid() && Tree(m.tables, vo) && vo.root == old_
    requires UserSpace(vo.leaf, Pages(sz)) && Private(vo.leaf, m.bytes, 0, UserPages(Pages(sz)))
    modifies m
    ensures if Pages(sz) <= TRAPFRAME then !r.Remaps? else !r.Forked?
    ensures !r.Remaps? ==> m.Valid() && Tree(m.tables, vo)
    ensures r.TooFewPages? ==>
              Now(m) == old(Now(m)) && multiset(m.freelist) == multiset(old(m.freelist)) &&
                |old(m.freelist)| < 6 + 3 * Needed(Pages(sz))
    ensures r.Forked? ==>
              && r.trapframe in old(m.role) && old(m.role)[r.trapframe] == Free &&
                 NoLeak(old(m.role)[r.trapframe := Limbo], m.role)
              && Tree(m.tables, vn) && vn.root == r.pagetable && Added(old(m.tables), m.tables, vn)
              && Grown(Top(trampoline, r.trapframe), old(m.bytes), vn.leaf, m.bytes, 0, Pages(sz))
              && Copied(vo.leaf, vn.leaf, old(m.bytes), m.bytes, Pages(sz))
              && SameBytes(vo.leaf, vn.leaf, old(m.bytes), m.bytes, sz) && BytesKept(vo.leaf, old(m.bytes), m.bytes)
  {
    hide *;
    ValidParts(m);
    ghost var s, f := Now(m), m.freelist;
    vn := vo;
    var tf := m.Kalloc();
    if tf.None? {
      return TooFewPages, vn;
    }
    ghost var r1 := m.role;
    var pt, freed;
    pt, vn := ProcPagetable(m, trampoline, tf.value);
    ghost var r2 := m.role;
    StillLimbo(r1, r2, tf.value);
    if pt.None? {
      freed := Freeproc(m, vn, tf.value, None, 0);
      LimboBack(s.role, r2, m.role, tf.value);
      ValidParts(m);
      AllBack(s, Now(m), f, m.freelist);
      return TooFewPages, vn;
    }
    AddedApart(s.tables, m.tables, vn, vo);
    ghost var t2 := m.tables;
    CanCopy(vo.leaf, m.bytes, trampoline, tf.value, Pages(sz));
    var c;
    ghost var v2 := vn;
    c, vn := Uvmcopy(m, vo, vn, old_, pt.value, sz, UserPages(Pages(sz)));
    if c.Panics? {
      return Remaps, vn;
    }
    ghost var r3 := m.role;
    ExtendsRoot(t2, v2, m.tables, vn);
    AddedMore(s.tables, t2, v2, m.tables, vn);
    NoLeakTrans(r1, r2, r3);
    if c.NoMemory? {
      StillLimbo(r1, r3, tf.value);
      AddedGone(s.tables, m.tables, vn);
      NoPages(vn.leaf, m.bytes, 0);
      freed := Freeproc(m, vn, tf.value, Some(pt.value), 0);
      LimboBack(s.role, r3, m.role, tf.value);
      ValidParts(m);
      AllBack(s, Now(m), f, m.freelist);
      return TooFewPages, vn;
    }
    r := Forked(tf.value, pt.value);
  }

  /** How many pages uvmcopy() may need memory for: it comes to the trapframe page if it gets that far. */
  function Needed(n: nat): (k: nat) { if n <= TRAPFRAME then n else TRAPFRAME + 1 }

  lemma StillLimbo(r1: map<nat, Role>, r2: map<nat, Role>, p: nat)
    requires NoLeak(r1, r2) && p in r1 && r1[p] == Limbo
    ensures p in r2 && r2[p] == Limbo
  {
  }

  lemma LimboBack(r: map<nat, Role>, r2: map<nat, Role>, r3: map<nat, Role>, p: nat)
    requires p in r && r[p] == Free && NoLeak(r[p := Limbo], r2) && p in r2 && NoLeak(r2[p := Free], r3)
    ensures NoLeak(r, r3)
  {
  }

  lemma CanCopy(leaf: map<nat, Pte>, bytes: map<nat, Page>, trampoline: nat, trapframe: nat, n: nat)
    requires UserSpace(leaf, n) && Private(leaf, bytes, 0, UserPages(n))
    ensures Backed(leaf, bytes, UserPages(n)) && UserSpace(Top(trampoline, trapframe), 0)
    ensures Copyable(leaf, Top(trampoline, trapframe), n, UserPages(n))
    ensures UserPages(n) < n <==> n > TRAPFRAME
    ensures Needed(n) == if UserPages(n) < n then UserPages(n) + 1 else n
    ensures UserPages(Pages(0)) == 0 && Pages(0) == 0 && Private(Top(trampoline, trapframe), bytes, 0, 0)
  {
    PrivateBacked(leaf, bytes, UserPages(n));
  }
}
