/** Physical pages (kernel/kalloc.c) and user page tables (kernel/vm.c). */
module Vm {
  import opened RiscV
  import opened PageTree
  import opened Blocks
  import opened Wrappers

  /** What a physical page is used for; Limbo is between kalloc() and its first use. */
  datatype Role = Free | TablePage | DataPage | Limbo

  type Page = s: seq<Byte> | |s| == PGSIZE witness seq(PGSIZE, _ => 0)

  function ZeroPage(): (p: Page)
    ensures forall i :: 0 <= i < PGSIZE ==> p[i] == 0
  {
    seq(PGSIZE, _ => 0)
  }

  /** The node that walk() is at when it has `level` levels to go. */
  function NodeAt(level: nat, vpn: nat): (n: Node)
    requires level <= 2
  {
    if level == 2 then Root else if level == 1 then L1(Px(2, vpn)) else LeafNode(vpn)
  }

  /** The tree of `v` gained table pages that were not in use, and no other tree changed. */
  ghost predicate Extends(t: Tables, v: Pt, t': Tables, v': Pt) {
    && v'.root == v.root && t.Keys <= t'.Keys
    && (forall n :: n in v.node ==> n in v'.node && v'.node[n] == v.node[n])
    && (forall n :: n in v'.node && n !in v.node ==> v'.node[n] !in t)
    && (forall p :: p in t && p !in v.node.Values ==> p in t' && t'[p] == t[p])
    && (forall p :: p in t' && p !in t ==> p in v'.node.Values)
  }

  /** No page got lost: the pages that are neither free nor in use here are the same. */
  ghost predicate NoLeak(r: map<nat, Role>, r': map<nat, Role>) {
    r'.Keys == r.Keys && forall p :: p in r ==> (r'[p] == Limbo <==> r[p] == Limbo)
  }

  /** `k` pages from `vpn` on, mapped to consecutive physical pages. */
  ghost function Mapped(leaf: map<nat, Pte>, vpn: nat, ppn: nat, k: nat, perm: Perm): (m: map<nat, Pte>) {
    if k == 0 then leaf else Mapped(leaf, vpn, ppn, k - 1, perm)[vpn + k - 1 := Pte(ppn + k - 1, perm)]
  }

  /** The mapping without the `k` pages from `vpn` on. */
  ghost function Unmapped(leaf: map<nat, Pte>, vpn: nat, k: nat): (m: map<nat, Pte>)
    ensures forall p :: p in m <==> p in leaf && !(vpn <= p < vpn + k)
    ensures forall p :: p in m ==> m[p] == leaf[p]
  {
    map p | p in leaf && !(vpn <= p < vpn + k) :: leaf[p]
  }

  /** The physical pages behind the `k` pages from `vpn` on. */
  ghost function Behind(leaf: map<nat, Pte>, vpn: nat, k: nat): (s: set<nat>) {
    if k == 0 then {} else Behind(leaf, vpn, k - 1) + PageBehind(leaf, vpn + k - 1)
  }

  ghost function PageBehind(leaf: map<nat, Pte>, vpn: nat): (s: set<nat>) {
    if vpn in leaf && leaf[vpn].Pte? then {leaf[vpn].ppn} else {}
  }

  /** The number of pages that `sz` bytes take. */
  function Pages(sz: nat): (n: nat)
    ensures n * PGSIZE == PgRoundUp(sz) && sz <= n * PGSIZE < sz + PGSIZE
  {
    PgRoundUp(sz) / PGSIZE
  }

  /** What is at an address, if it is mapped to memory. */
  ghost function Load(leaf: map<nat, Pte>, bytes: map<nat, Page>, a: nat): (b: Option<Byte>) {
    var p := a / PGSIZE;
    if p in leaf && leaf[p].Pte? && leaf[p].ppn in bytes then Some(bytes[leaf[p].ppn][a % PGSIZE]) else None
  }

  /** There is a 0 at every address from `lo` up to `hi`, and what was at the others still is. */
  ghost predicate ZeroesAdded(leaf: map<nat, Pte>, bytes: map<nat, Page>, leaf': map<nat, Pte>, bytes': map<nat, Page>,
                              lo: nat, hi: nat) {
    forall a: nat ::
      if lo <= a < hi then Load(leaf', bytes', a) == Some(0)
      else Load(leaf, bytes, a).Some? ==> Load(leaf', bytes', a) == Load(leaf, bytes, a)
  }

  /** Nothing is at an address from `lo` up to `hi`; what was at the others still is, unless its page
      was one of `freed`. */
  ghost predicate Trimmed(leaf: map<nat, Pte>, bytes: map<nat, Page>, leaf': map<nat, Pte>, bytes': map<nat, Page>,
                          lo: nat, hi: nat, freed: set<nat>) {
    forall a: nat ::
      if lo <= a < hi then Load(leaf', bytes', a) == None
      else PageBehind(leaf, a / PGSIZE) !! freed ==> Load(leaf', bytes', a) == Load(leaf, bytes, a)
  }

  lemma TrimmedInBytes(leaf: map<nat, Pte>, bytes: map<nat, Page>, oldsz: nat, newsz: nat)
    requires newsz <= oldsz && Pages(newsz) <= Pages(oldsz)
    ensures var n := Pages(oldsz) - Pages(newsz);
            var freed := Behind(leaf, Pages(newsz), n);
            Trimmed(leaf, bytes, Unmapped(leaf, Pages(newsz), n), bytes - freed, PgRoundUp(newsz), PgRoundUp(oldsz),
                    freed)
  {
    hide Pages, PgRoundUp, Behind;
    forall a: nat
      ensures PgRoundUp(newsz) <= a < PgRoundUp(oldsz) <==>
                Pages(newsz) <= a / PGSIZE < Pages(newsz) + (Pages(oldsz) - Pages(newsz))
    {
      PageOfByte(a, newsz, oldsz);
    }
  }

  lemma PageOfByte(a: nat, oldsz: nat, newsz: nat)
    requires oldsz <= newsz
    ensures PgRoundUp(oldsz) <= a < PgRoundUp(newsz) <==>
              Pages(oldsz) <= a / PGSIZE < Pages(oldsz) + (Pages(newsz) - Pages(oldsz))
  {
  }

  lemma GrownAt(leaf: map<nat, Pte>, bytes: map<nat, Page>, leaf': map<nat, Pte>, bytes': map<nat, Page>, vpn: nat,
                k: nat, p: nat)
    requires Grown(leaf, bytes, leaf', bytes', vpn, k) && p in leaf && leaf[p].Pte? && leaf[p].ppn in bytes
    ensures p in leaf' && leaf'[p] == leaf[p] && leaf[p].ppn in bytes' && bytes'[leaf[p].ppn] == bytes[leaf[p].ppn]
    ensures !(vpn <= p < vpn + k)
  {
    assert p in Unmapped(leaf', vpn, k);
    assert leaf[p].ppn in bytes' - Behind(leaf', vpn, k);
  }

  lemma ZeroesInBytes(leaf: map<nat, Pte>, bytes: map<nat, Page>, leaf': map<nat, Pte>, bytes': map<nat, Page>,
                      oldsz: nat, newsz: nat, perm: Perm)
    requires oldsz <= newsz && Pages(oldsz) <= Pages(newsz)
    requires Grown(leaf, bytes, leaf', bytes', Pages(oldsz), Pages(newsz) - Pages(oldsz))
    requires Zeroed(leaf', bytes', Pages(oldsz), Pages(newsz) - Pages(oldsz), perm)
    ensures ZeroesAdded(leaf, bytes, leaf', bytes', PgRoundUp(oldsz), PgRoundUp(newsz))
  {
    hide Grown, Pages, PgRoundUp;
    forall a: nat
      ensures if PgRoundUp(oldsz) <= a < PgRoundUp(newsz) then Load(leaf', bytes', a) == Some(0)
              else Load(leaf, bytes, a).Some? ==> Load(leaf', bytes', a) == Load(leaf, bytes, a)
    {
      PageOfByte(a, oldsz, newsz);
      if Load(leaf, bytes, a).Some? {
        GrownAt(leaf, bytes, leaf', bytes', Pages(oldsz), Pages(newsz) - Pages(oldsz), a / PGSIZE);
      }
    }
  }

  /** What allocation does to the mapping and the memory of a range of `k` pages, said so
      that it can be undone: without the range they are what they were. */
  ghost predicate Grown(leaf: map<nat, Pte>, bytes: map<nat, Page>, leaf': map<nat, Pte>, bytes': map<nat, Page>,
                        vpn: nat, k: nat) {
    && Unmapped(leaf', vpn, k) == leaf
    && bytes' - Behind(leaf', vpn, k) == bytes
    && Private(leaf', bytes', vpn, k)
  }

  /** All `k` pages from `vpn` on are mapped, with these permissions, to zeroed memory. */
  ghost predicate Zeroed(leaf: map<nat, Pte>, bytes: map<nat, Page>, vpn: nat, k: nat, perm: Perm) {
    forall p :: vpn <= p < vpn + k ==>
      p in leaf && leaf[p].Pte? && leaf[p].perm == perm && leaf[p].ppn in bytes && bytes[leaf[p].ppn] == ZeroPage()
  }

  /** The mapped pages among the `k` from `vpn` on are memory, each page once. */
  ghost predicate Private(leaf: map<nat, Pte>, bytes: map<nat, Page>, vpn: nat, k: nat) {
    forall i :: 0 <= i < k ==> PrivateAt(leaf, bytes, vpn, i)
  }

  ghost predicate PrivateAt(leaf: map<nat, Pte>, bytes: map<nat, Page>, vpn: nat, i: nat) {
    vpn + i in leaf ==> leaf[vpn + i].Pte? && leaf[vpn + i].ppn in bytes && leaf[vpn + i].ppn !in Behind(leaf, vpn, i)
  }

  class PhysMem {
    var tables: Tables            // the pages used as page tables
    var bytes: map<nat, Page>     // the pages used as memory
    var freelist: seq<nat>        // kmem.freelist

    ghost var role: map<nat, Role>

    /** Every page has exactly one use, and a free page is on the list once. */
    ghost predicate Valid()
      reads this
    {
      && (forall i, j :: 0 <= i < j < |freelist| ==> freelist[i] != freelist[j])
      && (forall p :: p in freelist <==> p in role && role[p] == Free)
      && (forall p :: p in tables <==> p in role && role[p] == TablePage)
      && (forall p :: p in bytes <==> p in role && role[p] == DataPage)
    }

    /** kalloc(): `None` exactly when no page is free. */
    method Kalloc() returns (r: Option<nat>)
      requires Valid()
      modifies this`freelist, this`role
      ensures Valid() && r.None? == (old(freelist) == [])
      ensures r.None? ==> freelist == old(freelist) && role == old(role)
      ensures r.Some? ==>
                && r.value == old(freelist)[0] && freelist == old(freelist)[1..]
                && r.value in old(role) && old(role)[r.value] == Free && role == old(role)[r.value := Limbo]
                && r.value !in tables && r.value !in bytes
    {
      if freelist == [] {
        return None;
      }
      assert freelist[0] in freelist;
      r := Some(freelist[0]);
      role := role[freelist[0] := Limbo];
      freelist := freelist[1..];
    }

    /** kfree(). Its panic, and a double free, are the precondition. */
    method Kfree(p: nat)
      requires Valid() && p in role && role[p] != Free
      modifies this
      ensures Valid() && freelist == [p] + old(freelist)
      ensures role == old(role)[p := Free] && tables == old(tables) - {p} && bytes == old(bytes) - {p}
      ensures old(role)[p] != TablePage ==> tables == old(tables)
      ensures old(role)[p] != DataPage ==> bytes == old(bytes)
    {
      assert p !in tables ==> tables - {p} == tables;
      assert p !in bytes ==> bytes - {p} == bytes;
      tables, bytes := tables - {p}, bytes - {p};
      role := role[p := Free];
      freelist := [p] + freelist;
    }

    /** memset(p, 0, PGSIZE) on a new page that becomes a table, or memory. */
    method ClaimTable(p: nat)
      requires Valid() && p in role && role[p] == Limbo
      modifies this`tables, this`role
      ensures Valid() && tables == old(tables)[p := EmptyTable()] && role == old(role)[p := TablePage]
    {
      tables, role := tables[p := EmptyTable()], role[p := TablePage];
    }

    method ClaimMemory(p: nat, content: Page)
      requires Valid() && p in role && role[p] == Limbo
      modifies this`bytes, this`role
      ensures Valid() && bytes == old(bytes)[p := content] && role == old(role)[p := DataPage]
    {
      bytes, role := bytes[p := content], role[p := DataPage];
    }

    method StoreEntry(t: nat, i: nat, e: Pte)
      requires Valid() && t in tables && i < |tables[t]|
      modifies this`tables
      ensures Valid() && tables == old(tables)[t := old(tables)[t][i := e]]
    {
      tables := tables[t := tables[t][i := e]];
    }

    method StoreBytes(p: nat, content: Page)
      requires Valid() && p in bytes
      modifies this`bytes
      ensures Valid() && bytes == old(bytes)[p := content]
    {
      bytes := bytes[p := content];
    }

    /** The allocation in walk(): a zeroed page becomes the table below `table[i]`. */
    method NewTable(ghost v: Pt, ghost n: Node, table: nat, i: nat) returns (r: Option<nat>, ghost v': Pt)
      requires Valid() && Tree(tables, v) && n in v.node && v.node[n] == table && !n.L0? && i < 512 &&
               Child(n, i) !in v.node
      modifies this`tables, this`freelist, this`role
      ensures Valid() && NoLeak(old(role), role) && r.None? == (old(freelist) == [])
      ensures r.None? ==> v' == v && tables == old(tables) && freelist == old(freelist) && role == old(role)
      ensures r.Some? ==>
                && v' == v.(node := v.node[Child(n, i) := r.value]) && r.value !in old(tables)
                && tables == old(tables)[r.value := EmptyTable()][table :=
                                                                    old(tables)[table][i := Pte(r.value, TablePerm)]]
                && Tree(tables, v') && |old(freelist)| == |freelist| + 1
    {
      hide *;
      NodeIsTable(tables, v, n);
      NoLeakSelf(role);
      r := Kalloc();
      if r.None? {
        return r, v;
      }
      AddTable(tables, v, n, i, r.value);
      NoLeakClaim(old(role), r.value, TablePage);
      ClaimTable(r.value);
      StoreEntry(table, i, Pte(r.value, TablePerm));
      v' := v.(node := v.node[Child(n, i) := r.value]);
    }

    /** walk(): the slot of the leaf entry of page `vpn`, making the tables on the way if `alloc`.
        The mapping does not change. walk()'s panic is the precondition. */
    method Walk(ghost v: Pt, pagetable: nat, vpn: nat, alloc: bool) returns (r: Option<(nat, nat)>, ghost v': Pt)
      requires Valid() && Tree(tables, v) && v.root == pagetable && vpn < MAXPAGE
      modifies this`tables, this`freelist, this`role
      ensures Valid() && Tree(tables, v') && v'.leaf == v.leaf && Extends(old(tables), v, tables, v')
      ensures !alloc ==> v' == v && tables == old(tables) && freelist == old(freelist) && role == old(role)
      ensures r.None? ==> LeafNode(vpn) !in v'.node && (alloc ==> freelist == [] && |old(freelist)| < 2)
      ensures r.Some? ==> LeafNode(vpn) in v'.node && r.value == (v'.node[LeafNode(vpn)], Px(0, vpn))
      ensures NoLeak(old(role), role) && |old(freelist)| <= |freelist| + 2
    {
      var table := pagetable;
      v' := v;
      ExtendsSelf(tables, v);
      NoLeakSelf(role);
      RootIsThere(tables, v);
      hide Valid, Tree, Extends, LeafNode, NoLeak;
      var level := 2;
      while level > 0
        invariant 0 <= level <= 2 && Valid() && Tree(tables, v') && v'.leaf == v.leaf && v'.root == v.root
        invariant Extends(old(tables), v, tables, v') && NoLeak(old(role), role) &&
                  |old(freelist)| <= |freelist| + 2 - level
        invariant NodeAt(level, vpn) in v'.node && v'.node[NodeAt(level, vpn)] == table
        invariant !alloc ==> v' == v && tables == old(tables) && freelist == old(freelist) && role == old(role)
      {
        var i := Px(level, vpn);
        Descend(tables, v', level, vpn);
        var e := tables[table][i];
        if e.Pte? {
          table := e.ppn;
        } else {
          NotBelow(tables, v', level, vpn);
          if !alloc {
            return None, v';
          }
          ghost var t1, r1 := tables, role;
          var p, v'' := NewTable(v', NodeAt(level, vpn), table, i);
          if p.None? {
            return None, v';
          }
          NoLeakTrans(old(role), r1, role);
          ExtendsMore(old(tables), v, t1, v', NodeAt(level, vpn), i, p.value);
          v', table := v'', p.value;
        }
        level := level - 1;
      }
      r := Some((table, Px(0, vpn)));
    }

    /** `*pte = e` for the leaf entry of page `vpn`. */
    method SetPte(ghost v: Pt, t: nat, i: nat, e: Pte, ghost vpn: nat) returns (ghost v': Pt)
      requires Valid() && Tree(tables, v) && vpn < PAGES
      requires LeafNode(vpn) in v.node && (t, i) == (v.node[LeafNode(vpn)], Px(0, vpn))
      modifies this`tables
      ensures Valid() && Tree(tables, v') && tables.Keys == old(tables).Keys
      ensures v' == v.(leaf := if e.Pte? then v.leaf[vpn := e] else v.leaf - {vpn})
      ensures forall p :: p in tables && p != t ==> tables[p] == old(tables)[p]
    {
      hide Tree, LeafNode;
      NodeIsTable(tables, v, LeafNode(vpn));
      SetLeaf(tables, v, vpn, e);
      StoreEntry(t, i, e);
      v' := v.(leaf := if e.Pte? then v.leaf[vpn := e] else v.leaf - {vpn});
    }

    /** One iteration of mappages()'s loop. "remap" is the precondition. */
    method MapOne(ghost v: Pt, pagetable: nat, vpn: nat, ppn: nat, perm: Perm) returns (ok: bool, ghost v': Pt)
      requires Valid() && Tree(tables, v) && v.root == pagetable && vpn < MAXPAGE && vpn !in v.leaf
      modifies this`tables, this`freelist, this`role
      ensures Valid() && Tree(tables, v') && NoLeak(old(role), role) && Extends(old(tables), v, tables, v')
      ensures v'.leaf == if ok then v.leaf[vpn := Pte(ppn, perm)] else v.leaf
      ensures |old(freelist)| <= |freelist| + 2 && (!ok ==> freelist == [] && |old(freelist)| < 2)
    {
      hide Tree, LeafNode;
      var pte, v1 := Walk(v, pagetable, vpn, true);
      if pte.None? {
        return false, v1;
      }
      ghost var t1 := tables;
      v' := SetPte(v1, pte.value.0, pte.value.1, Pte(ppn, perm), vpn);
      ExtendsSet(old(tables), v, t1, v1, tables, v', LeafNode(vpn));
      ok := true;
    }

    /** mappages() of `npages` pages: its panics are the precondition. When a table page is
        missing and there is no memory for it, the pages before that one stay mapped. */
    method Mappages(ghost v: Pt, pagetable: nat, vpn: nat, npages: nat, ppn: nat, perm: Perm)
      returns (ok: bool, ghost v': Pt)
      requires Valid() && Tree(tables, v) && v.root == pagetable && npages > 0 && vpn + npages <= MAXPAGE
      requires forall p :: vpn <= p < vpn + npages ==> p !in v.leaf
      modifies this`tables, this`freelist, this`role
      ensures Valid() && Tree(tables, v') && NoLeak(old(role), role) && Extends(old(tables), v, tables, v')
      ensures ok ==> v'.leaf == Mapped(v.leaf, vpn, ppn, npages, perm)
      ensures |old(freelist)| <= |freelist| + 2 * npages && (!ok ==> |old(freelist)| < 2 * npages)
      ensures !ok ==> freelist == [] && exists k :: 0 <= k < npages && v'.leaf == Mapped(v.leaf, vpn, ppn, k, perm)
    {
      hide Tree, Extends, Valid;
      v', ok := v, true;
      ExtendsSelf(tables, v);
      for k := 0 to npages
        invariant Valid() && Tree(tables, v') && NoLeak(old(role), role) && Extends(old(tables), v, tables, v') &&
                  v'.root == pagetable
        invariant ok && v'.leaf == Mapped(v.leaf, vpn, ppn, k, perm) && |old(freelist)| <= |freelist| + 2 * k
      {
        StillUnmapped(v.leaf, vpn, ppn, k, perm);
        ghost var t1, v1 := tables, v';
        ok, v' := MapOne(v', pagetable, vpn + k, ppn + k, perm);
        ExtendsTrans(old(tables), v, t1, v1, tables, v');
        if !ok {
          return;
        }
      }
    }

    /** One iteration of uvmunmap()'s loop. */
    method UnmapOne(ghost v: Pt, pagetable: nat, vpn: nat, doFree: bool) returns (ghost v': Pt)
      requires Valid() && Tree(tables, v) && v.root == pagetable && vpn < MAXPAGE
      requires doFree && vpn in v.leaf ==> v.leaf[vpn].Pte? && v.leaf[vpn].ppn in bytes
      modifies this
      ensures Valid() && Tree(tables, v') && NoLeak(old(role), role) && tables.Keys == old(tables).Keys
      ensures v' == v.(leaf := v.leaf - {vpn})
      ensures bytes == if doFree && vpn in v.leaf then old(bytes) - {v.leaf[vpn].ppn} else old(bytes)
      ensures freelist == if doFree && vpn in v.leaf then [v.leaf[vpn].ppn] + old(freelist) else old(freelist)
      ensures forall p :: p in tables && p !in v.node.Values ==> tables[p] == old(tables)[p]
    {
      hide Tree, LeafNode, PhysMem.Valid, NoLeak, Extends;
      LeafSlot(tables, v, vpn);
      var pte, v1 := Walk(v, pagetable, vpn, false);
      v' := v;
      RemoveAbsent(v.leaf, vpn);
      if pte.None? {
        return;
      }
      var e := tables[pte.value.0][pte.value.1];
      if e.NoPte? {
        return;
      }
      assert pte.value.0 in v.node.Values;
      if doFree {
        DataIsUsed(this, e.ppn);
        NoLeakFree(role, e.ppn);
        Kfree(e.ppn);
      }
      v' := SetPte(v, pte.value.0, pte.value.1, NoPte, vpn);
    }

    /** uvmunmap(): removes exactly the pages of the range that are mapped and, if `doFree`,
        gives exactly the pages behind them back. */
    method Uvmunmap(ghost v: Pt, pagetable: nat, vpn: nat, npages: nat, doFree: bool) returns (ghost v': Pt)
      requires Valid() && Tree(tables, v) && v.root == pagetable && vpn + npages <= MAXPAGE
      requires doFree ==> Private(v.leaf, bytes, vpn, npages)
      modifies this
      ensures Valid() && Tree(tables, v') && NoLeak(old(role), role) && tables.Keys == old(tables).Keys
      ensures v' == v.(leaf := Unmapped(v.leaf, vpn, npages))
      ensures bytes == if doFree then old(bytes) - Behind(v.leaf, vpn, npages) else old(bytes)
      ensures forall p :: p in tables && p !in v.node.Values ==> tables[p] == old(tables)[p]
    {
      NothingUnmapped(v.leaf, bytes, vpn);
      v' := v;
      hide Tree, Valid, Unmapped, Behind, Private, NoLeak;
      NoLeakSelf(role);
      for k := 0 to npages
        invariant Valid() && Tree(tables, v') && NoLeak(old(role), role) && tables.Keys == old(tables).Keys
        invariant v' == v.(leaf := Unmapped(v.leaf, vpn, k))
        invariant bytes == if doFree then old(bytes) - Behind(v.leaf, vpn, k) else old(bytes)
        invariant forall p :: p in tables && p !in v.node.Values ==> tables[p] == old(tables)[p]
      {
        OneMoreUnmapped(v.leaf, vpn, k);
        if doFree {
          OneMoreFreed(v.leaf, old(bytes), vpn, k, npages);
        }
        ghost var role1 := role;
        v' := UnmapOne(v', pagetable, vpn + k, doFree);
        NoLeakTrans(old(role), role1, role);
      }
    }

    method KallocMemory(content: Page) returns (r: Option<nat>)
      requires Valid()
      modifies this`freelist, this`role, this`bytes
      ensures Valid() && NoLeak(old(role), role)
      ensures r.None? ==> bytes == old(bytes) && old(freelist) == []
      ensures r.Some? ==> r.value !in old(bytes) && bytes == old(bytes)[r.value := content] &&
                          |old(freelist)| == |freelist| + 1
    {
      hide *;
      NoLeakSelf(role);
      r := Kalloc();
      if r.Some? {
        NoLeakClaim(old(role), r.value, DataPage);
        ClaimMemory(r.value, content);
      }
    }

    method KfreeMemory(p: nat, ghost before: map<nat, Page>)
      requires Valid() && p in bytes && p !in before && bytes == before[p := bytes[p]]
      modifies this
      ensures Valid() && NoLeak(old(role), role) && tables == old(tables) && bytes == before
    {
      Kfree(p);
    }

    /** kalloc(), fill the page, mappages(); on failure kfree(). Common to uvmalloc(),
        uvmcopy() and vmfault(). It takes at most the page and two tables, and fails only if
        there are not that many. */
    method AllocOne(ghost v: Pt, pagetable: nat, vpn: nat, perm: Perm, content: Page)
      returns (r: Option<nat>, ghost v': Pt)
      requires Valid() && Tree(tables, v) && v.root == pagetable && vpn < MAXPAGE && vpn !in v.leaf
      modifies this
      ensures Valid() && Tree(tables, v') && NoLeak(old(role), role) && Extends(old(tables), v, tables, v')
      ensures r.None? ==> v'.leaf == v.leaf && bytes == old(bytes)
      ensures r.Some? ==> r.value !in old(bytes) && bytes == old(bytes)[r.value := content] &&
                          v'.leaf == v.leaf[vpn := Pte(r.value, perm)]
      ensures if r.Some? then |old(freelist)| <= |freelist| + 3 else |old(freelist)| < 3
    {
      hide *;
      ExtendsSelf(tables, v);
      v' := v;
      r := KallocMemory(content);
      if r.None? {
        return;
      }
      ghost var r1 := role;
      MappedOne(v.leaf, vpn, r.value, perm);
      var ok;
      ok, v' := Mappages(v, pagetable, vpn, 1, r.value, perm);
      ghost var r2 := role;
      NoLeakTrans(old(role), r1, r2);
      if !ok {
        KfreeMemory(r.value, old(bytes));
        NoLeakTrans(old(role), r2, role);
        r := None;
      }
    }

    /** uvmdealloc(): the pages above the new size are unmapped and free, and nothing is there any more. */
    method Uvmdealloc(ghost v: Pt, pagetable: nat, oldsz: nat, newsz: nat) returns (sz: nat, ghost v': Pt)
      requires Valid() && Tree(tables, v) && v.root == pagetable && Pages(oldsz) <= MAXPAGE
      requires Pages(newsz) < Pages(oldsz) ==> Private(v.leaf, bytes, Pages(newsz), Pages(oldsz) - Pages(newsz))
      modifies this
      ensures Valid() && Tree(tables, v') && NoLeak(old(role), role) && tables.Keys == old(tables).Keys
      ensures sz == if newsz < oldsz then newsz else oldsz
      ensures var n := if Pages(newsz) < Pages(oldsz) then Pages(oldsz) - Pages(newsz) else 0;
              && v' == v.(leaf := Unmapped(v.leaf, Pages(newsz), n))
              && bytes == old(bytes) - Behind(v.leaf, Pages(newsz), n)
              && (newsz < oldsz ==> Trimmed(v.leaf, old(bytes), v'.leaf, bytes, PgRoundUp(newsz), PgRoundUp(oldsz),
                                            Behind(v.leaf, Pages(newsz), n)))
      ensures forall p :: p in tables && p !in v.node.Values ==> tables[p] == old(tables)[p]
    {
      hide *;
      PageCounts(oldsz, newsz);
      NothingUnmapped(v.leaf, bytes, Pages(newsz));
      NoLeakSelf(role);
      v', sz := v, oldsz;
      if newsz >= oldsz {
        return;
      }
      PageCounts(newsz, oldsz);
      TrimmedInBytes(v.leaf, bytes, oldsz, newsz);
      if PgRoundUp(newsz) < PgRoundUp(oldsz) {
        var first, npages := PagesBetween(oldsz, newsz);
        v' := Uvmunmap(v, pagetable, first, npages, true);
      }
      sz := newsz;
    }

    /** The error paths of uvmalloc() and uvmcopy(): unmap and free what was added. */
    method Undo(ghost v: Pt, ghost v1: Pt, pagetable: nat, first: nat, k: nat,
                ghost t: Tables, ghost b: map<nat, Page>, ghost r: map<nat, Role>) returns (ghost v': Pt)
      requires Valid() && Tree(tables, v1) && v1.root == pagetable && first + k <= MAXPAGE
      requires Extends(t, v, tables, v1) && NoLeak(r, role) && Grown(v.leaf, b, v1.leaf, bytes, first, k)
      modifies this
      ensures Valid() && Tree(tables, v') && NoLeak(r, role) && Extends(t, v, tables, v')
      ensures v'.leaf == v.leaf && bytes == b
    {
      hide Tree, Extends, Valid, Grown, NoLeak;
      ghost var t1, r1 := tables, role;
      GrownUndo(v.leaf, b, v1.leaf, bytes, first, k);
      v' := Uvmunmap(v1, pagetable, first, k, true);
      ExtendsUnmap(t, v, t1, v1, tables, v');
      NoLeakTrans(r, r1, role);
    }

    /** uvmalloc()'s loop: all of the pages, or none. */
    method AllocPages(ghost v: Pt, pagetable: nat, first: nat, npages: nat, perm: Perm) returns (ok: bool, ghost v': Pt)
      requires Valid() && Tree(tables, v) && v.root == pagetable && first + npages <= MAXPAGE
      requires forall p :: first <= p < first + npages ==> p !in v.leaf
      modifies this
      ensures Valid() && Tree(tables, v') && NoLeak(old(role), role) && Extends(old(tables), v, tables, v')
      ensures !ok ==> v'.leaf == v.leaf && bytes == old(bytes) && |old(freelist)| < 3 * npages
      ensures ok ==> Grown(v.leaf, old(bytes), v'.leaf, bytes, first, npages) &&
                     Zeroed(v'.leaf, bytes, first, npages, perm)
    {
      v' := v;
      ExtendsSelf(tables, v);
      GrownNone(v.leaf, bytes, first);
      NoLeakSelf(role);
      hide Tree, Extends, Valid, Grown, NoLeak, Zeroed;
      ZeroedNone(v.leaf, bytes, first, perm);
      for k := 0 to npages
        invariant Valid() && Tree(tables, v') && NoLeak(old(role), role) && Extends(old(tables), v, tables, v') &&
                  v'.root == pagetable
        invariant Grown(v.leaf, old(bytes), v'.leaf, bytes, first, k) && Zeroed(v'.leaf, bytes, first, k, perm)
        invariant forall p :: first + k <= p < first + npages ==> p !in v'.leaf
        invariant |old(freelist)| <= |freelist| + 3 * k
      {
        ghost var t1, v1, b1, r1 := tables, v', bytes, role;
        var mem;
        mem, v' := AllocOne(v', pagetable, first + k, perm, ZeroPage());
        ExtendsTrans(old(tables), v, t1, v1, tables, v');
        NoLeakTrans(old(role), r1, role);
        if mem.None? {
          v' := Undo(v, v', pagetable, first, k, old(tables), old(bytes), old(role));
          return false, v';
        }
        GrownMore(v.leaf, old(bytes), v1.leaf, b1, first, k, mem.value, perm, ZeroPage());
        ZeroedMore(v1.leaf, b1, first, k, mem.value, perm);
      }
      ok := true;
    }

    /** uvmalloc(): on success every new page is zeroed memory of its own, mapped with the permissions
        asked for, and there is a 0 at every new address; on failure the mapping and the memory are as
        before, and there were fewer than three free pages for each new one. */
    method Uvmalloc(ghost v: Pt, pagetable: nat, oldsz: nat, newsz: nat, perm: Perm) returns (sz: nat, ghost v': Pt)
      requires Valid() && Tree(tables, v) && v.root == pagetable && newsz <= MAXVA
      requires forall p :: Pages(oldsz) <= p < Pages(newsz) ==> p !in v.leaf
      modifies this
      ensures Valid() && Tree(tables, v') && NoLeak(old(role), role) && Extends(old(tables), v, tables, v')
      ensures newsz < oldsz ==> sz == oldsz && v'.leaf == v.leaf && bytes == old(bytes)
      ensures newsz >= oldsz && sz != newsz ==>
                sz == 0 && v'.leaf == v.leaf && bytes == old(bytes) &&
                  |old(freelist)| < 3 * (Pages(newsz) - Pages(oldsz))
      ensures newsz >= oldsz && sz == newsz > 0 ==>
                && Grown(v.leaf, old(bytes), v'.leaf, bytes, Pages(oldsz), Pages(newsz) - Pages(oldsz))
                && Zeroed(v'.leaf, bytes, Pages(oldsz), Pages(newsz) - Pages(oldsz), perm)
                && ZeroesAdded(v.leaf, old(bytes), v'.leaf, bytes, PgRoundUp(oldsz), PgRoundUp(newsz))
    {
      ExtendsSelf(tables, v);
      NoLeakSelf(role);
      hide *;
      if newsz < oldsz {
        return oldsz, v;
      }
      PagesGrow(oldsz, newsz);
      var ok;
      ok, v' := AllocPages(v, pagetable, Pages(oldsz), Pages(newsz) - Pages(oldsz), perm);
      if ok {
        ZeroesInBytes(v.leaf, old(bytes), v'.leaf, bytes, oldsz, newsz, perm);
      }
      sz := if ok then newsz else 0;
    }
  }

  lemma NothingUnmapped(leaf: map<nat, Pte>, bytes: map<nat, Page>, vpn: nat)
    ensures Unmapped(leaf, vpn, 0) == leaf
    ensures bytes - Behind(leaf, vpn, 0) == bytes
  {
  }

  lemma OneMoreUnmapped(leaf: map<nat, Pte>, vpn: nat, k: nat)
    ensures Unmapped(leaf, vpn, k) - {vpn + k} == Unmapped(leaf, vpn, k + 1)
    ensures vpn + k in leaf <==> vpn + k in Unmapped(leaf, vpn, k)
    ensures vpn + k in leaf ==> Unmapped(leaf, vpn, k)[vpn + k] == leaf[vpn + k]
  {
  }

  lemma OneMoreFreed(leaf: map<nat, Pte>, bytes: map<nat, Page>, vpn: nat, k: nat, n: nat)
    requires Private(leaf, bytes, vpn, n) && k < n
    ensures vpn + k !in leaf ==> bytes - Behind(leaf, vpn, k + 1) == bytes - Behind(leaf, vpn, k)
    ensures vpn + k in leaf ==>
              && leaf[vpn + k].Pte? && leaf[vpn + k].ppn in bytes - Behind(leaf, vpn, k)
              && bytes - Behind(leaf, vpn, k + 1) == bytes - Behind(leaf, vpn, k) - {leaf[vpn + k].ppn}
  {
    assert PrivateAt(leaf, bytes, vpn, k);
    if vpn + k in leaf {
      assert Behind(leaf, vpn, k + 1) == Behind(leaf, vpn, k) + {leaf[vpn + k].ppn};
    }
  }

  lemma PageCounts(oldsz: nat, newsz: nat)
    ensures newsz >= oldsz ==> Pages(newsz) >= Pages(oldsz)
    ensures PgRoundUp(newsz) < PgRoundUp(oldsz) <==> Pages(newsz) < Pages(oldsz)
  {
  }

  /** The pages that the size gives up, as uvmdealloc() computes them. */
  method PagesBetween(oldsz: nat, newsz: nat) returns (first: nat, npages: nat)
    requires Pages(newsz) < Pages(oldsz)
    ensures first == Pages(newsz) && npages == Pages(oldsz) - Pages(newsz)
  {
    first, npages := PgRoundUp(newsz) / PGSIZE, (PgRoundUp(oldsz) - PgRoundUp(newsz)) / PGSIZE;
  }

  lemma PagesGrow(oldsz: nat, newsz: nat)
    requires oldsz <= newsz <= MAXVA
    ensures Pages(oldsz) <= Pages(newsz) <= MAXPAGE
  {
  }

  lemma ZeroedNone(leaf: map<nat, Pte>, bytes: map<nat, Page>, vpn: nat, perm: Perm)
    ensures Zeroed(leaf, bytes, vpn, 0, perm)
  {
  }

  lemma ZeroedMore(leaf: map<nat, Pte>, bytes: map<nat, Page>, vpn: nat, k: nat, x: nat, perm: Perm)
    requires Zeroed(leaf, bytes, vpn, k, perm) && x !in bytes
    ensures Zeroed(leaf[vpn + k := Pte(x, perm)], bytes[x := ZeroPage()], vpn, k + 1, perm)
  {
  }

  lemma GrownNone(leaf: map<nat, Pte>, bytes: map<nat, Page>, vpn: nat)
    ensures Grown(leaf, bytes, leaf, bytes, vpn, 0)
  {
    NothingUnmapped(leaf, bytes, vpn);
  }

  /** What the range of a grown mapping adds can be taken away again. */
  lemma GrownUndo(leaf: map<nat, Pte>, bytes: map<nat, Page>, leaf': map<nat, Pte>, bytes': map<nat, Page>, vpn: nat,
                  k: nat)
    requires Grown(leaf, bytes, leaf', bytes', vpn, k)
    ensures Private(leaf', bytes', vpn, k)
    ensures Unmapped(leaf', vpn, k) == leaf && bytes' - Behind(leaf', vpn, k) == bytes
  {
  }

  lemma {:induction false} BehindSame(leaf: map<nat, Pte>, leaf': map<nat, Pte>, vpn: nat, k: nat)
    requires forall p :: vpn <= p < vpn + k ==> PageBehind(leaf, p) == PageBehind(leaf', p)
    ensures Behind(leaf, vpn, k) == Behind(leaf', vpn, k)
  {
    if k > 0 {
      BehindSame(leaf, leaf', vpn, k - 1);
    }
  }

  lemma {:induction false} BehindIsMemory(leaf: map<nat, Pte>, bytes: map<nat, Page>, vpn: nat, k: nat, n: nat)
    requires Private(leaf, bytes, vpn, n) && k <= n
    ensures forall x :: x in Behind(leaf, vpn, k) ==> x in bytes
  {
    if k > 0 {
      BehindIsMemory(leaf, bytes, vpn, k - 1, n);
      assert PrivateAt(leaf, bytes, vpn, k - 1);
    }
  }

  /** One more page of fresh memory. */
  lemma GrownMore(leaf: map<nat, Pte>, bytes: map<nat, Page>, leaf1: map<nat, Pte>, bytes1: map<nat, Page>,
                  vpn: nat, k: nat, x: nat, perm: Perm, content: Page)
    requires Grown(leaf, bytes, leaf1, bytes1, vpn, k) && vpn + k !in leaf1 && x !in bytes1
    ensures Grown(leaf, bytes, leaf1[vpn + k := Pte(x, perm)], bytes1[x := content], vpn, k + 1)
  {
    var leaf2, bytes2 := leaf1[vpn + k := Pte(x, perm)], bytes1[x := content];
    BehindIsMemory(leaf1, bytes1, vpn, k, k);
    forall i | 0 <= i <= k ensures Behind(leaf2, vpn, i) == Behind(leaf1, vpn, i) {
      BehindSame(leaf1, leaf2, vpn, i);
    }
    assert Behind(leaf2, vpn, k + 1) == Behind(leaf1, vpn, k) + {x};
    assert bytes2 - Behind(leaf2, vpn, k + 1) == bytes1 - Behind(leaf1, vpn, k);
    forall i | 0 <= i <= k ensures PrivateAt(leaf2, bytes2, vpn, i) {
      assert i < k ==> PrivateAt(leaf1, bytes1, vpn, i);
    }
  }

  /** A page that is not mapped adds nothing. */
  lemma GrownSkip(leaf: map<nat, Pte>, bytes: map<nat, Page>, leaf1: map<nat, Pte>, bytes1: map<nat, Page>, vpn: nat,
                  k: nat)
    requires Grown(leaf, bytes, leaf1, bytes1, vpn, k) && vpn + k !in leaf1
    ensures Grown(leaf, bytes, leaf1, bytes1, vpn, k + 1)
  {
    assert Unmapped(leaf1, vpn, k + 1) == Unmapped(leaf1, vpn, k);
    assert Behind(leaf1, vpn, k + 1) == Behind(leaf1, vpn, k);
  }

  lemma ExtendsUnmap(t: Tables, v: Pt, t1: Tables, v1: Pt, t2: Tables, v2: Pt)
    requires Extends(t, v, t1, v1) && t2.Keys == t1.Keys && v2 == v1.(leaf := v2.leaf)
    requires forall p :: p in t2 && p !in v1.node.Values ==> t2[p] == t1[p]
    ensures Extends(t, v, t2, v2)
  {
    ExtendsTrans(t, v, t1, v1, t2, v2);
  }

  lemma NoLeakSelf(r: map<nat, Role>)
    ensures NoLeak(r, r)
  {
  }

  lemma DataIsUsed(m: PhysMem, p: nat)
    requires m.Valid() && p in m.bytes
    ensures p in m.role && m.role[p] == DataPage
  {
  }

  lemma NoLeakFree(r: map<nat, Role>, p: nat)
    requires p in r && r[p] != Limbo
    ensures NoLeak(r, r[p := Free])
  {
  }

  lemma NoLeakClaim(r: map<nat, Role>, p: nat, use: Role)
    requires p in r && !use.Limbo? && !r[p].Limbo?
    ensures NoLeak(r, r[p := Limbo][p := use])
  {
  }

  lemma NoLeakTrans(r: map<nat, Role>, r1: map<nat, Role>, r2: map<nat, Role>)
    requires NoLeak(r, r1) && NoLeak(r1, r2)
    ensures NoLeak(r, r2)
  {
  }

  lemma MappedOne(leaf: map<nat, Pte>, vpn: nat, ppn: nat, perm: Perm)
    ensures Mapped(leaf, vpn, ppn, 0, perm) == leaf
    ensures Mapped(leaf, vpn, ppn, 1, perm) == leaf[vpn := Pte(ppn, perm)]
  {
    assert Mapped(leaf, vpn, ppn, 1, perm) == Mapped(leaf, vpn, ppn, 0, perm)[vpn + 1 - 1 := Pte(ppn + 1 - 1, perm)];
  }

  lemma StillUnmapped(leaf: map<nat, Pte>, vpn: nat, ppn: nat, k: nat, perm: Perm)
    ensures forall p :: p in Mapped(leaf, vpn, ppn, k, perm) <==> p in leaf || vpn <= p < vpn + k
  {
  }

  /** Where the entry of a page is, and that it is what the view says. */
  lemma LeafSlot(t: Tables, v: Pt, vpn: nat)
    requires Tree(t, v) && vpn < PAGES
    ensures LeafNode(vpn) !in v.node ==> vpn !in v.leaf
    ensures LeafNode(vpn) in v.node ==>
              && v.node[LeafNode(vpn)] in t && |t[v.node[LeafNode(vpn)]]| == 512
              && t[v.node[LeafNode(vpn)]][Px(0, vpn)] == if vpn in v.leaf then v.leaf[vpn] else NoPte
    ensures vpn in v.leaf ==> v.leaf[vpn].Pte?
  {
    PageOfSlot(vpn);
    if LeafNode(vpn) in v.node {
      assert EntryOk(t, v, LeafNode(vpn), Px(0, vpn));
    }
  }

  lemma RemoveAbsent(m: map<nat, Pte>, p: nat)
    ensures p !in m ==> m - {p} == m
  {
  }

  lemma ExtendsTrans(t: Tables, v: Pt, t1: Tables, v1: Pt, t2: Tables, v2: Pt)
    requires Extends(t, v, t1, v1) && Extends(t1, v1, t2, v2)
    ensures Extends(t, v, t2, v2)
  {
    assert forall p :: p in t && p !in v.node.Values ==> p !in v1.node.Values by {
      NotGained(t, v, t1, v1);
    }
  }

  lemma NotGained(t: Tables, v: Pt, t1: Tables, v1: Pt)
    requires Extends(t, v, t1, v1)
    ensures forall p :: p in t && p in v1.node.Values ==> p in v.node.Values
  {
    forall p | p in t && p in v1.node.Values ensures p in v.node.Values {
      var n :| n in v1.node && v1.node[n] == p;
      assert n in v.node;
    }
  }

  lemma ExtendsSet(t: Tables, v: Pt, t1: Tables, v1: Pt, t2: Tables, v2: Pt, n: Node)
    requires Extends(t, v, t1, v1) && n in v1.node && t2.Keys == t1.Keys && v2 == v1.(leaf := v2.leaf)
    requires forall p :: p in t1 && p != v1.node[n] ==> t2[p] == t1[p]
    ensures Extends(t, v, t2, v2)
  {
    assert n in v.node ==> v1.node[n] in v.node.Values;
  }

  lemma NodeIsTable(t: Tables, v: Pt, n: Node)
    requires Tree(t, v) && n in v.node
    ensures v.node[n] in t && |t[v.node[n]]| == 512
  {
  }

  lemma RootIsThere(t: Tables, v: Pt)
    requires Tree(t, v)
    ensures Root in v.node && v.node[Root] == v.root
  {
  }

  /** One level down the tree: the entry is there exactly if the lower table is. */
  lemma Descend(t: Tables, v: Pt, level: nat, vpn: nat)
    requires Tree(t, v) && 0 < level <= 2 && NodeAt(level, vpn) in v.node
    ensures var p := v.node[NodeAt(level, vpn)];
            && p in t && |t[p]| == 512
            && Child(NodeAt(level, vpn), Px(level, vpn)) == NodeAt(level - 1, vpn)
            && Present(t[p][Px(level, vpn)], v.node, NodeAt(level - 1, vpn))
  {
    assert EntryOk(t, v, NodeAt(level, vpn), Px(level, vpn));
  }

  /** Without the table on the way there is no leaf table. */
  lemma NotBelow(t: Tables, v: Pt, level: nat, vpn: nat)
    requires Tree(t, v) && 0 < level <= 2 && NodeAt(level - 1, vpn) !in v.node
    ensures LeafNode(vpn) !in v.node
  {
    assert LeafNode(vpn) in v.node ==> NodeOk(v, LeafNode(vpn));
  }

  lemma ExtendsSelf(t: Tables, v: Pt)
    ensures Extends(t, v, t, v)
  {
  }

  lemma ExtendsMore(t: Tables, v: Pt, t1: Tables, v1: Pt, n: Node, i: nat, p: nat)
    requires Extends(t, v, t1, v1) && n in v1.node && !n.L0? && Child(n, i) !in v1.node
    requires p !in t1 && v1.node[n] in t1 && i < |t1[v1.node[n]]|
    ensures Extends(t, v, t1[p := EmptyTable()][v1.node[n] := t1[v1.node[n]][i := Pte(p, TablePerm)]],
                    v1.(node := v1.node[Child(n, i) := p]))
  {
    assert n in v.node ==> v1.node[n] in v.node.Values;
    var node' := v1.node[Child(n, i) := p];
    forall q | q in v1.node.Values + {p} ensures q in node'.Values {
      var k :| if q == p then k == Child(n, i) else k in v1.node && v1.node[k] == q;
      assert node'[k] == q;
    }
  }
}
