/** Copying and tearing down user page tables: uvmcopy(), freewalk(), uvmfree() of kernel/vm.c,
    and proc_freepagetable() of kernel/proc.c. */
module Uvm {
  import opened RiscV
  import opened PageTree
  import opened Vm
  import opened Wrappers

  /** The first `k` pages of the child are those of the parent, with the same permissions and
      contents. */
  ghost predicate Copied(parent: map<nat, Pte>, child: map<nat, Pte>, before: map<nat, Page>, after: map<nat, Page>,
                         k: nat) {
    forall p :: 0 <= p < k ==> SamePage(parent, child, before, after, p)
  }

  ghost predicate SamePage(parent: map<nat, Pte>, child: map<nat, Pte>, before: map<nat, Page>, after: map<nat, Page>,
                           p: nat) {
    && (p in child <==> p in parent)
    && (p in parent ==>
          && parent[p].Pte? && child[p].Pte? && child[p].perm == parent[p].perm
          && parent[p].ppn in before && child[p].ppn in after
          && after[child[p].ppn] == before[parent[p].ppn])
  }

  /** At every address below `sz` there is the same for the child as for the parent. */
  ghost predicate SameBytes(parent: map<nat, Pte>, child: map<nat, Pte>, before: map<nat, Page>, after: map<nat, Page>,
                            sz: nat) {
    forall a: nat :: a < sz ==> Load(child, after, a) == Load(parent, before, a)
  }

  lemma CopiedBytes(parent: map<nat, Pte>, child: map<nat, Pte>, before: map<nat, Page>, after: map<nat, Page>, sz: nat)
    requires Copied(parent, child, before, after, Pages(sz))
    ensures SameBytes(parent, child, before, after, sz)
  {
    forall a: nat | a < sz ensures Load(child, after, a) == Load(parent, before, a) {
      assert a / PGSIZE < Pages(sz);
      assert SamePage(parent, child, before, after, a / PGSIZE);
    }
  }

  /** What is mapped to memory is still there. */
  ghost predicate BytesKept(leaf: map<nat, Pte>, before: map<nat, Page>, after: map<nat, Page>) {
    forall a: nat :: Load(leaf, before, a).Some? ==> Load(leaf, after, a) == Load(leaf, before, a)
  }

  lemma GrownKeeps(leaf: map<nat, Pte>, before: map<nat, Page>, leaf': map<nat, Pte>, after: map<nat, Page>, n: nat,
                   other: map<nat, Pte>)
    requires Grown(leaf, before, leaf', after, 0, n)
    ensures BytesKept(other, before, after)
  {
    var b := after - Behind(leaf', 0, n);
    assert forall x :: x in b ==> x in after && after[x] == b[x];
  }

  /** The first `k` pages of a process are memory where they are mapped. */
  ghost predicate Backed(leaf: map<nat, Pte>, bytes: map<nat, Page>, k: nat) {
    forall p :: p in leaf && p < k ==> leaf[p].Pte? && leaf[p].ppn in bytes
  }

  /** Copying may also end with the panic of walk() or mappages(). */
  datatype Outcome = Done | NoMemory | Panics

  /** uvmcopy() of `n` pages can copy `most` of them: then comes one that it cannot map in the child. */
  ghost predicate Copyable(parent: map<nat, Pte>, child: map<nat, Pte>, n: nat, most: nat) {
    && most <= n && most <= MAXPAGE && (forall p :: 0 <= p < most ==> p !in child)
    && (most < n ==> most == MAXPAGE || (most in parent && most in child))
  }

  /** One iteration of uvmcopy()'s loop. mappages() panics if there is a page there already. */
  method CopyOne(m: PhysMem, ghost vo: Pt, ghost vn: Pt, old_: nat, new_: nat, vpn: nat)
    returns (r: Outcome, ghost x: nat, ghost vn': Pt)
    requires m.Valid() && Tree(m.tables, vo) && Tree(m.tables, vn) && vo.root == old_ && vn.root == new_
    requires vpn < MAXPAGE && (vpn in vn.leaf ==> vpn in vo.leaf)
    requires vpn in vo.leaf && vpn !in vn.leaf ==> vo.leaf[vpn].Pte? && vo.leaf[vpn].ppn in m.bytes
    modifies m
    ensures m.Valid() && Tree(m.tables, vn') && NoLeak(old(m.role), m.role) && Extends(old(m.tables), vn, m.tables, vn')
    ensures r.Panics? <==> vpn in vn.leaf && old(m.freelist) != []
    ensures vpn in vn.leaf ==> !r.Done?
    ensures !r.Done? || vpn !in vo.leaf ==> vn'.leaf == vn.leaf && m.bytes == old(m.bytes)
    ensures vpn !in vo.leaf ==> r.Done?
    ensures r.Done? ==> |old(m.freelist)| <= |m.freelist| + 3
    ensures r.NoMemory? ==> |old(m.freelist)| < 3
    ensures r.Done? && vpn in vo.leaf ==>
              && x !in old(m.bytes) && m.bytes == old(m.bytes)[x := old(m.bytes)[vo.leaf[vpn].ppn]]
              && vn'.leaf == vn.leaf[vpn := Pte(x, vo.leaf[vpn].perm)]
  {
    hide Tree, Extends, PhysMem.Valid, NoLeak, LeafNode;
    LeafSlot(m.tables, vo, vpn);
    ExtendsSelf(m.tables, vn);
    NoLeakSelf(m.role);
    var pte, v1 := m.Walk(vo, old_, vpn, false);
    vn', x := vn, 0;
    if pte.None? {
      return Done, x, vn';
    }
    var e := m.tables[pte.value.0][pte.value.1];
    if e.NoPte? {
      return Done, x, vn';
    }
    LeafSlot(m.tables, vn, vpn);
    var there;
    there, v1 := m.Walk(vn, new_, vpn, false);
    if there.Some? && m.tables[there.value.0][there.value.1].Pte? {
      return if m.freelist == [] then NoMemory else Panics, x, vn';
    }
    var mem;
    mem, vn' := m.AllocOne(vn, new_, vpn, e.perm, m.bytes[e.ppn]);
    r := if mem.Some? then Done else NoMemory;
    x := if mem.Some? then mem.value else 0;
  }

  ghost predicate Apart(v: Pt, w: Pt) { v.node.Values !! w.node.Values }

  /** The state of uvmcopy() after `k` of `n` pages. */
  ghost predicate Copying(m: PhysMem, vo: Pt, vn: Pt, v: Pt, t: Tables, b: map<nat, Page>, r: map<nat, Role>, k: nat,
                          n: nat)
    reads m
  {
    && m.Valid() && Tree(m.tables, vo) && Tree(m.tables, v) && NoLeak(r, m.role) && Extends(t, vn, m.tables, v)
    && Grown(vn.leaf, b, v.leaf, m.bytes, 0, k) && Copied(vo.leaf, v.leaf, b, m.bytes, k)
    && forall p :: k <= p < n ==> p !in v.leaf
  }

  method CopyStep(m: PhysMem, ghost vo: Pt, ghost vn: Pt, ghost v: Pt, old_: nat, new_: nat, k: nat,
                  ghost t: Tables, ghost b: map<nat, Page>, ghost r: map<nat, Role>, ghost most: nat)
    returns (c: Outcome, ghost v': Pt)
    requires Copying(m, vo, vn, v, t, b, r, k, most) && k <= most && k < MAXPAGE
    requires k == most ==> k in vo.leaf && k in vn.leaf
    requires Tree(t, vo) && vo.root == old_ && vn.root == new_ && v.root == new_ && Apart(vo, vn) &&
             Backed(vo.leaf, b, most)
    modifies m
    ensures v'.root == new_
    ensures if k == most then !c.Done? else !c.Panics?
    ensures c.Done? ==> Copying(m, vo, vn, v', t, b, r, k + 1, most)
    ensures c.Done? ==> |old(m.freelist)| <= |m.freelist| + 3
    ensures c.NoMemory? ==> |old(m.freelist)| < 3
    ensures c.NoMemory? ==>
              && m.Valid() && Tree(m.tables, v') && NoLeak(r, m.role) && Extends(t, vn, m.tables, v')
              && Grown(vn.leaf, b, v'.leaf, m.bytes, 0, k)
  {
    hide Tree, Extends, PhysMem.Valid, Grown, NoLeak, Copied, Backed, Apart;
    ghost var t1, b1, r1 := m.tables, m.bytes, m.role;
    StillThere(vn.leaf, b, v.leaf, b1, k);
    if k < most {
      BackedStill(vo.leaf, vn.leaf, b, v.leaf, b1, most, k);
    }
    ghost var x;
    c, x, v' := CopyOne(m, vo, v, old_, new_, k);
    ExtendsTrans(t, vn, t1, v, m.tables, v');
    NoLeakTrans(r, r1, m.role);
    ExtendsRoot(t, vn, m.tables, v');
    if c.Done? {
      ExtendsKeepsOther(t, vn, m.tables, v', vo);
      CopiedOne(vo.leaf, vn.leaf, b, v.leaf, b1, v'.leaf, m.bytes, k, x);
    }
  }

  /** ... or the error path: what was added is gone again. */
  method CopyOrUndo(m: PhysMem, ghost vo: Pt, ghost vn: Pt, ghost v: Pt, old_: nat, new_: nat, k: nat,
                    ghost t: Tables, ghost b: map<nat, Page>, ghost r: map<nat, Role>, ghost most: nat)
    returns (c: Outcome, ghost v': Pt)
    requires Copying(m, vo, vn, v, t, b, r, k, most) && k <= most <= MAXPAGE
    requires k == most < MAXPAGE ==> k in vo.leaf && k in vn.leaf
    requires Tree(t, vo) && vo.root == old_ && vn.root == new_ && v.root == new_ && Apart(vo, vn) &&
             Backed(vo.leaf, b, most)
    modifies m
    ensures v'.root == new_
    ensures if k == most then !c.Done? else !c.Panics?
    ensures c.Done? ==> Copying(m, vo, vn, v', t, b, r, k + 1, most) && |old(m.freelist)| <= |m.freelist| + 3
    ensures c.NoMemory? ==> |old(m.freelist)| < 3 && Undone(m, vo, vn, v', t, b, r)
  {
    hide *;
    if k >= MAXPAGE {
      return Panics, v;
    }
    c, v' := CopyStep(m, vo, vn, v, old_, new_, k, t, b, r, most);
    if c.NoMemory? {
      v' := m.Undo(vn, v', new_, 0, k, t, b, r);
      ExtendsRoot(t, vn, m.tables, v');
      ExtendsKeepsOther(t, vn, m.tables, v', vo);
      IsUndone(m, vo, vn, v', t, b, r);
    }
  }

  /** The child's mapping and all memory are as before. */
  ghost predicate Undone(m: PhysMem, vo: Pt, vn: Pt, v: Pt, t: Tables, b: map<nat, Page>, r: map<nat, Role>)
    reads m
  {
    && m.Valid() && Tree(m.tables, vo) && Tree(m.tables, v) && NoLeak(r, m.role)
    && Extends(t, vn, m.tables, v) && v.leaf == vn.leaf && m.bytes == b
  }

  lemma IsUndone(m: PhysMem, vo: Pt, vn: Pt, v: Pt, t: Tables, b: map<nat, Page>, r: map<nat, Role>)
    requires m.Valid() && Tree(m.tables, vo) && Tree(m.tables, v) && NoLeak(r, m.role)
    requires Extends(t, vn, m.tables, v) && v.leaf == vn.leaf && m.bytes == b
    ensures Undone(m, vo, vn, v, t, b, r)
  {
  }

  /** uvmcopy()'s loop. */
  method CopyPages(m: PhysMem, ghost vo: Pt, ghost vn: Pt, old_: nat, new_: nat, n: nat, ghost most: nat)
    returns (c: Outcome, ghost vn': Pt)
    requires m.Valid() && Tree(m.tables, vo) && Tree(m.tables, vn) && vo.root == old_ && vn.root == new_
    requires Apart(vo, vn) && Copyable(vo.leaf, vn.leaf, n, most) && Backed(vo.leaf, m.bytes, most)
    modifies m
    ensures if most < n then !c.Done? else !c.Panics?
    ensures c.NoMemory? ==> Undone(m, vo, vn, vn', old(m.tables), old(m.bytes), old(m.role))
    ensures c.NoMemory? ==> |old(m.freelist)| < 3 * if most < n then most + 1 else n
    ensures c.Done? ==> Copying(m, vo, vn, vn', old(m.tables), old(m.bytes), old(m.role), n, n)
  {
    hide *;
    vn' := vn;
    CopyableIs(vo.leaf, vn.leaf, n, most);
    CopyingNone(m, vo, vn, most);
    var k := 0;
    while k < n
      invariant k <= most && vn'.root == new_ && |old(m.freelist)| <= |m.freelist| + 3 * k
      invariant Copying(m, vo, vn, vn', old(m.tables), old(m.bytes), old(m.role), k, most)
    {
      c, vn' := CopyOrUndo(m, vo, vn, vn', old_, new_, k, old(m.tables), old(m.bytes), old(m.role), most);
      if !c.Done? {
        return;
      }
      k := k + 1;
    }
    c := Done;
  }

  lemma CopyableIs(parent: map<nat, Pte>, child: map<nat, Pte>, n: nat, most: nat)
    requires Copyable(parent, child, n, most)
    ensures most <= n && most <= MAXPAGE && (most < n && most < MAXPAGE ==> most in parent && most in child)
    ensures forall p :: 0 <= p < most ==> p !in child
  {
  }

  lemma UndoneIs(m: PhysMem, vo: Pt, vn: Pt, v: Pt, t: Tables, b: map<nat, Page>, r: map<nat, Role>)
    requires Undone(m, vo, vn, v, t, b, r)
    ensures m.Valid() && Tree(m.tables, vo) && Tree(m.tables, v) && NoLeak(r, m.role)
    ensures Extends(t, vn, m.tables, v) && v.leaf == vn.leaf && m.bytes == b
  {
  }

  lemma CopyingAll(m: PhysMem, vo: Pt, vn: Pt, v: Pt, t: Tables, b: map<nat, Page>, r: map<nat, Role>, n: nat)
    requires Copying(m, vo, vn, v, t, b, r, n, n)
    ensures m.Valid() && Tree(m.tables, vo) && Tree(m.tables, v) && NoLeak(r, m.role) && Extends(t, vn, m.tables, v)
    ensures Grown(vn.leaf, b, v.leaf, m.bytes, 0, n) && Copied(vo.leaf, v.leaf, b, m.bytes, n)
  {
  }

  /** uvmcopy(): the child gets its own pages, equal in contents and permissions to the parent's, so that
      it reads at every address below `sz` what the parent does; or the child's mapping and all memory
      are as before, and there were fewer than three free pages for each page that it could copy. The
      parent's tree is not touched. If it comes to a page that it cannot map in the child, it panics. */
  method Uvmcopy(m: PhysMem, ghost vo: Pt, ghost vn: Pt, old_: nat, new_: nat, sz: nat, ghost most: nat)
    returns (c: Outcome, ghost vn': Pt)
    requires m.Valid() && Tree(m.tables, vo) && Tree(m.tables, vn) && vo.root == old_ && vn.root == new_
    requires Apart(vo, vn) && Copyable(vo.leaf, vn.leaf, Pages(sz), most) && Backed(vo.leaf, m.bytes, most)
    modifies m
    ensures if most < Pages(sz) then !c.Done? else !c.Panics?
    ensures !c.Panics? ==> m.Valid() && Tree(m.tables, vo) && Tree(m.tables, vn')
    ensures !c.Panics? ==> NoLeak(old(m.role), m.role) && Extends(old(m.tables), vn, m.tables, vn')
    ensures c.NoMemory? ==> vn'.leaf == vn.leaf && m.bytes == old(m.bytes)
    ensures c.NoMemory? ==> |old(m.freelist)| < 3 * if most < Pages(sz) then most + 1 else Pages(sz)
    ensures c.Done? ==>
              && Grown(vn.leaf, old(m.bytes), vn'.leaf, m.bytes, 0, Pages(sz))
              && Copied(vo.leaf, vn'.leaf, old(m.bytes), m.bytes, Pages(sz))
              && SameBytes(vo.leaf, vn'.leaf, old(m.bytes), m.bytes, sz) && BytesKept(vo.leaf, old(m.bytes), m.bytes)
  {
    hide *;
    c, vn' := CopyPages(m, vo, vn, old_, new_, Pages(sz), most);
    if c.Done? {
      CopyingAll(m, vo, vn, vn', old(m.tables), old(m.bytes), old(m.role), Pages(sz));
      CopiedBytes(vo.leaf, vn'.leaf, old(m.bytes), m.bytes, sz);
      GrownKeeps(vn.leaf, old(m.bytes), vn'.leaf, m.bytes, Pages(sz), vo.leaf);
    } else if c.NoMemory? {
      UndoneIs(m, vo, vn, vn', old(m.tables), old(m.bytes), old(m.role));
    }
  }

  lemma CopyingNone(m: PhysMem, vo: Pt, vn: Pt, n: nat)
    requires m.Valid() && Tree(m.tables, vo) && Tree(m.tables, vn) && forall p :: 0 <= p < n ==> p !in vn.leaf
    ensures Copying(m, vo, vn, vn, m.tables, m.bytes, m.role, 0, n)
  {
    GrownNone(vn.leaf, m.bytes, 0);
  }

  lemma ExtendsRoot(t: Tables, v: Pt, t': Tables, v': Pt)
    requires Extends(t, v, t', v')
    ensures v'.root == v.root
  {
  }

  /** The pages that have been copied are all that is new. */
  lemma StillThere(leaf: map<nat, Pte>, bytes: map<nat, Page>, leaf1: map<nat, Pte>, bytes1: map<nat, Page>, k: nat)
    requires Grown(leaf, bytes, leaf1, bytes1, 0, k)
    ensures k in leaf <==> k in leaf1
  {
  }

  /** Memory that was there before the copying started is still there. */
  lemma BackedStill(parent: map<nat, Pte>, leaf: map<nat, Pte>, bytes: map<nat, Page>, leaf1: map<nat, Pte>,
                    bytes1: map<nat, Page>, n: nat, k: nat)
    requires Backed(parent, bytes, n) && Grown(leaf, bytes, leaf1, bytes1, 0, k) && k < n
    ensures k in parent ==> parent[k].Pte? && parent[k].ppn in bytes && parent[k].ppn in bytes1 &&
                            bytes1[parent[k].ppn] == bytes[parent[k].ppn]
  {
    assert forall p :: p in bytes ==> p in bytes1 - Behind(leaf1, 0, k);
  }

  lemma CopiedOne(parent: map<nat, Pte>, leaf: map<nat, Pte>, bytes: map<nat, Page>, leaf1: map<nat, Pte>,
                  bytes1: map<nat, Page>, leaf2: map<nat, Pte>, bytes2: map<nat, Page>, k: nat, x: nat)
    requires Grown(leaf, bytes, leaf1, bytes1, 0, k) && Copied(parent, leaf1, bytes, bytes1, k) && k !in leaf1
    requires k !in parent ==> leaf2 == leaf1 && bytes2 == bytes1
    requires k in parent ==>
               && parent[k].Pte? && parent[k].ppn in bytes && parent[k].ppn in bytes1 &&
                  bytes1[parent[k].ppn] == bytes[parent[k].ppn]
               && x !in bytes1 && bytes2 == bytes1[x := bytes1[parent[k].ppn]] &&
                  leaf2 == leaf1[k := Pte(x, parent[k].perm)]
    ensures Grown(leaf, bytes, leaf2, bytes2, 0, k + 1) && Copied(parent, leaf2, bytes, bytes2, k + 1)
  {
    hide Grown;
    if k in parent {
      GrownMore(leaf, bytes, leaf1, bytes1, 0, k, x, parent[k].perm, bytes1[parent[k].ppn]);
    } else {
      GrownSkip(leaf, bytes, leaf1, bytes1, 0, k);
    }
    forall p | 0 <= p <= k ensures SamePage(parent, leaf2, bytes, bytes2, p) {
      assert p < k ==> SamePage(parent, leaf1, bytes, bytes1, p);
    }
  }

  /** Growing one tree leaves every other tree alone. */
  lemma ExtendsKeepsOther(t: Tables, v: Pt, t': Tables, v': Pt, w: Pt)
    requires Tree(t, w) && Extends(t, v, t', v') && Apart(w, v)
    ensures Tree(t', w)
  {
    forall p | p in w.node.Values ensures p in t' && t'[p] == t[p] {
      var n :| n in w.node && w.node[n] == p;
    }
    Elsewhere(t, t', w);
  }

  /** Node `k` is `n` or below it. */
  ghost predicate Below(k: Node, n: Node) {
    k == n || n.Root? || (n.L1? && k.L0? && k.i2 == n.i2)
  }

  /** ... below one of the first `i` children of `n`. */
  ghost predicate BelowFirst(k: Node, n: Node, i: nat) {
    (n.Root? && !k.Root? && k.i2 < i) || (n.L1? && k.L0? && k.i2 == n.i2 && k.i1 < i)
  }

  /** The table pages of the subtree at `n`, and of its first `i` children. */
  ghost function Under(v: Pt, n: Node): (s: set<nat>) { set k | k in v.node && Below(k, n) :: v.node[k] }

  ghost function UnderFirst(v: Pt, n: Node, i: nat): (s: set<nat>) {
    set k | k in v.node && BelowFirst(k, n, i) :: v.node[k]
  }

  /** A tree without leaves, as far as it does not depend on the contents of the tables. */
  ghost predicate Bare(v: Pt) {
    && v.leaf == map[]
    && (forall n :: n in v.node ==> NodeOk(v, n))
    && (forall n, k :: n in v.node && k in v.node && n != k ==> v.node[n] != v.node[k])
  }

  /** The tables at and below `n` say what the view says. */
  ghost predicate Intact(t: Tables, v: Pt, n: Node) {
    forall k :: k in v.node && Below(k, n) ==> NodeIntact(t, v, k)
  }

  ghost predicate NodeIntact(t: Tables, v: Pt, k: Node) {
    k in v.node && v.node[k] in t && |t[v.node[k]]| == 512 && forall i :: 0 <= i < 512 ==> EntryOk(t, v, k, i)
  }

  /** The roles after the pages in `s` have been freed. */
  ghost function Freed(role: map<nat, Role>, s: set<nat>): (r: map<nat, Role>) {
    map p | p in role :: if p in s then Free else role[p]
  }

  function Height(n: Node): (h: nat) { if n.Root? then 2 else if n.L1? then 1 else 0 }

  /** The tables and the roles in freewalk()'s loop after `i` entries. */
  ghost predicate Freeing(t': Tables, r': map<nat, Role>, v: Pt, n: Node, i: nat, t: Tables, r: map<nat, Role>) {
    && r' == Freed(r, UnderFirst(v, n, i)) && t'.Keys == t.Keys - UnderFirst(v, n, i)
    && (forall p :: p in t' && n in v.node && p != v.node[n] ==> p in t && t'[p] == t[p])
    && n in v.node && v.node[n] in t' && v.node[n] in t && |t[v.node[n]]| == 512 && |t'[v.node[n]]| == 512
    && (forall j :: i <= j < 512 ==> t'[v.node[n]][j] == t[v.node[n]][j])
  }

  /** freewalk(): frees the table pages of a subtree without leaves, each exactly once, and
      nothing else; its panic is not reached. */
  method Freewalk(m: PhysMem, ghost v: Pt, ghost n: Node, pagetable: nat)
    requires m.Valid() && Bare(v) && Intact(m.tables, v, n) && n in v.node && v.node[n] == pagetable
    modifies m
    ensures m.Valid() && m.bytes == old(m.bytes)
    ensures m.role == Freed(old(m.role), Under(v, n)) && m.tables == old(m.tables) - Under(v, n)
    decreases Height(n)
  {
    FreeingNone(m.tables, m.role, v, n);
    hide *;
    var i := 0;
    while i < 512
      invariant i <= 512 && m.Valid() && Freeing(m.tables, m.role, v, n, i, old(m.tables), old(m.role)) &&
                m.bytes == old(m.bytes)
    {
      FreewalkEntry(m, v, n, pagetable, i, old(m.tables), old(m.role));
      i := i + 1;
    }
    StillTable(m, v, n, old(m.tables), old(m.role));
    ghost var t1, r1 := m.tables, m.role;
    m.Kfree(pagetable);
    FreedAll(v, n, old(m.tables), t1, m.tables, old(m.role), r1, m.role);
  }

  /** One iteration of freewalk()'s loop. */
  method FreewalkEntry(m: PhysMem, ghost v: Pt, ghost n: Node, pagetable: nat, i: nat, ghost t: Tables,
                       ghost r: map<nat, Role>)
    requires m.Valid() && Freeing(m.tables, m.role, v, n, i, t, r) && i < 512 && n in v.node && v.node[n] == pagetable
    requires Bare(v) && Intact(t, v, n)
    modifies m
    ensures m.Valid() && Freeing(m.tables, m.role, v, n, i + 1, t, r) && m.bytes == old(m.bytes)
    decreases Height(n), 0
  {
    hide *;
    NextEntry(m.tables, m.role, v, n, i, t, r);
    ghost var t1, r1 := m.tables, m.role;
    var e := m.tables[pagetable][i];
    if e.Pte? && !e.perm.r && !e.perm.w && !e.perm.x {
      Freewalk(m, v, Child(n, i), e.ppn);
      ChildFreed(v, n, i, t, t1, m.tables, r, r1, m.role);
      m.StoreEntry(pagetable, i, NoPte);
    } else if e.Pte? {
      assert false;
    }
  }

  lemma FreeingNone(t: Tables, r: map<nat, Role>, v: Pt, n: Node)
    requires Bare(v) && Intact(t, v, n) && n in v.node
    ensures Freeing(t, r, v, n, 0, t, r)
  {
    assert NodeIntact(t, v, n);
    assert UnderFirst(v, n, 0) == {};
  }

  lemma StillTable(m: PhysMem, v: Pt, n: Node, t: Tables, r: map<nat, Role>)
    requires m.Valid() && Freeing(m.tables, m.role, v, n, 512, t, r)
    ensures n in v.node && v.node[n] in m.role && m.role[v.node[n]] == TablePage
  {
  }

  /** The next entry is clear, or the child there is still whole. */
  lemma NextEntry(t1: Tables, r1: map<nat, Role>, v: Pt, n: Node, i: nat, t: Tables, r: map<nat, Role>)
    requires Freeing(t1, r1, v, n, i, t, r) && i < 512 && Bare(v) && Intact(t, v, n)
    ensures n in v.node && v.node[n] in t1 && |t1[v.node[n]]| == 512
    ensures var e := t1[v.node[n]][i];
            if e.Pte? then
              && !n.L0? && Child(n, i) in v.node && e == Pte(v.node[Child(n, i)], Perm(false, false, false, false))
              && Height(Child(n, i)) < Height(n) && Intact(t1, v, Child(n, i))
            else Freeing(t1, r1, v, n, i + 1, t, r)
  {
    assert NodeIntact(t, v, n) && EntryOk(t, v, n, i);
    if t1[v.node[n]][i].Pte? {
      ChildIntact(v, n, i, t, t1);
    } else {
      forall k | k in v.node && BelowFirst(k, n, i + 1) ensures BelowFirst(k, n, i) {
        assert NodeOk(v, k);
      }
      assert UnderFirst(v, n, i + 1) == UnderFirst(v, n, i);
    }
  }

  lemma ChildIntact(v: Pt, n: Node, i: nat, t: Tables, t1: Tables)
    requires Bare(v) && Intact(t, v, n) && n in v.node && i < 512 && !n.L0? && Child(n, i) in v.node
    requires t1.Keys == t.Keys - UnderFirst(v, n, i)
    requires forall p :: p in t1 && p != v.node[n] ==> p in t && t1[p] == t[p]
    ensures Intact(t1, v, Child(n, i))
  {
    forall k | k in v.node && Below(k, Child(n, i)) ensures NodeIntact(t1, v, k) {
      assert NodeIntact(t, v, k);
      assert !BelowFirst(k, n, i) && k != n;
      assert v.node[k] in t1;
      forall j | 0 <= j < 512 ensures EntryOk(t1, v, k, j) {
        assert EntryOk(t, v, k, j);
      }
    }
  }

  /** Freeing one more child and clearing its entry. */
  lemma ChildFreed(v: Pt, n: Node, i: nat, t: Tables, t1: Tables, t2: Tables, r: map<nat, Role>, r1: map<nat, Role>,
                   r2: map<nat, Role>)
    requires Bare(v) && Freeing(t1, r1, v, n, i, t, r) && i < 512 && !n.L0? && Child(n, i) in v.node
    requires t2 == t1 - Under(v, Child(n, i)) && r2 == Freed(r1, Under(v, Child(n, i)))
    ensures v.node[n] in t2 && i < |t2[v.node[n]]| &&
            Freeing(t2[v.node[n] := t2[v.node[n]][i := NoPte]], r2, v, n, i + 1, t, r)
  {
    OneMoreChild(v, n, i);
    assert v.node[n] in t2;
  }

  lemma OneMoreChild(v: Pt, n: Node, i: nat)
    requires Bare(v) && n in v.node && !n.L0?
    ensures UnderFirst(v, n, i + 1) == UnderFirst(v, n, i) + Under(v, Child(n, i))
    ensures v.node[n] !in UnderFirst(v, n, i + 1)
  {
    assert forall k :: BelowFirst(k, n, i + 1) <==> BelowFirst(k, n, i) || Below(k, Child(n, i));
  }

  /** When all children are gone and the table itself is, so is the subtree. */
  lemma FreedAll(v: Pt, n: Node, t: Tables, t1: Tables, t2: Tables, r: map<nat, Role>, r1: map<nat, Role>, r2: map<nat,
                 Role>)
    requires Bare(v) && Freeing(t1, r1, v, n, 512, t, r) && v.node[n] in r1
    requires t2 == t1 - {v.node[n]} && r2 == r1[v.node[n] := Free]
    ensures r2 == Freed(r, Under(v, n)) && t2 == t - Under(v, n)
  {
    WholeSubtree(v, n);
  }

  lemma WholeSubtree(v: Pt, n: Node)
    requires Bare(v) && n in v.node
    ensures Under(v, n) == UnderFirst(v, n, 512) + {v.node[n]}
  {
    forall k | k in v.node ensures Below(k, n) <==> k == n || BelowFirst(k, n, 512) {
      assert NodeOk(v, k);
    }
    forall p | p in Under(v, n) ensures p in UnderFirst(v, n, 512) + {v.node[n]} {
      var k :| k in v.node && Below(k, n) && v.node[k] == p;
    }
  }

  /** uvmfree(): gives back every page of a process's memory and of its page table; and panics, which is
      not `ok`, exactly if the size is more than can be mapped. */
  method Uvmfree(m: PhysMem, ghost v: Pt, pagetable: nat, sz: nat) returns (ok: bool)
    requires m.Valid() && Tree(m.tables, v) && v.root == pagetable
    requires Private(v.leaf, m.bytes, 0, Pages(sz)) && forall p :: p in v.leaf ==> p < Pages(sz)
    modifies m
    ensures ok <==> Pages(sz) <= MAXPAGE
    ensures ok ==> m.Valid() && m.tables == old(m.tables) - v.node.Values
    ensures ok ==> m.bytes == old(m.bytes) - Behind(v.leaf, 0, Pages(sz)) && NoLeak(old(m.role), m.role)
  {
    if Pages(sz) > MAXPAGE {
      return false;
    }
    hide *;
    NothingMore(v, Pages(sz));
    ghost var v1 := v;
    if sz > 0 {
      v1 := m.Uvmunmap(v, pagetable, 0, Pages(sz), true);
    } else {
      NoLeakSelf(m.role);
      NoPages(v.leaf, m.bytes, sz);
    }
    assert m.tables.Keys == old(m.tables).Keys;
    TreeIntact(m.tables, v1);
    TreePages(m, v1);
    ghost var t1, r1 := m.tables, m.role;
    Freewalk(m, v1, Root, pagetable);
    AllFreed(v, v1, old(m.tables), t1, m.tables, old(m.role), r1, m.role);
    ok := true;
  }

  lemma NothingMore(v: Pt, n: nat)
    requires forall p :: p in v.leaf ==> p < n
    ensures Unmapped(v.leaf, 0, n) == map[] && (n == 0 ==> v.leaf == map[])
  {
  }

  lemma TreeIntact(t: Tables, v: Pt)
    requires Tree(t, v) && v.leaf == map[]
    ensures Bare(v) && Root in v.node && v.node[Root] == v.root && Intact(t, v, Root)
  {
    forall k | k in v.node ensures NodeIntact(t, v, k) {
      assert forall i :: 0 <= i < 512 ==> EntryOk(t, v, k, i);
    }
  }

  lemma TreePages(m: PhysMem, v: Pt)
    requires m.Valid() && Tree(m.tables, v)
    ensures forall p :: p in v.node.Values ==> p in m.role && m.role[p] == TablePage
  {
  }

  lemma NoPages(leaf: map<nat, Pte>, bytes: map<nat, Page>, sz: nat)
    requires sz == 0
    ensures Pages(sz) == 0 && bytes - Behind(leaf, 0, Pages(sz)) == bytes
  {
    NothingUnmapped(leaf, bytes, 0);
  }

  lemma AllFreed(v: Pt, v1: Pt, t: Tables, t1: Tables, t2: Tables, r: map<nat, Role>, r1: map<nat, Role>, r2: map<nat,
                 Role>)
    requires v1.node == v.node && t1.Keys == t.Keys && forall p :: p in t1 && p !in v.node.Values ==> t1[p] == t[p]
    requires t2 == t1 - Under(v1, Root) && NoLeak(r, r1) && r2 == Freed(r1, Under(v1, Root))
    requires forall p :: p in v.node.Values && p in r1 ==> r1[p] == TablePage
    ensures t2 == t - v.node.Values && NoLeak(r, r2)
  {
    assert Under(v1, Root) == v.node.Values;
  }

  const TRAMPOLINE: nat := MAXPAGE - 1   // the page of TRAMPOLINE
  const TRAPFRAME: nat := MAXPAGE - 2    // ... and of TRAPFRAME

  /** The pages of a process of `n` pages that can be memory. Lazy sbrk() does not keep the size below
      the two pages at the top. */
  function UserPages(n: nat): (k: nat) { if n <= TRAPFRAME then n else TRAPFRAME }

  /** A process of `n` pages maps the two pages at the top and nothing else but those, as far as they are
      below. */
  ghost predicate UserSpace(leaf: map<nat, Pte>, n: nat) {
    TRAPFRAME in leaf && TRAMPOLINE in leaf &&
      forall p :: p in leaf ==> p < UserPages(n) || p == TRAPFRAME || p == TRAMPOLINE
  }

  /** proc_freepagetable(): the memory of the process and its page table go back, and the two
      pages that it shares stay; it panics, which is not `ok`, exactly if the size has passed MAXVA. */
  method ProcFreepagetable(m: PhysMem, ghost v: Pt, pagetable: nat, sz: nat) returns (ok: bool)
    requires m.Valid() && Tree(m.tables, v) && v.root == pagetable
    requires UserSpace(v.leaf, Pages(sz)) && Private(v.leaf, m.bytes, 0, UserPages(Pages(sz)))
    modifies m
    ensures ok <==> Pages(sz) <= MAXPAGE
    ensures ok ==> m.Valid() && m.tables == old(m.tables) - v.node.Values
    ensures ok ==> m.bytes == old(m.bytes) - Behind(v.leaf, 0, UserPages(Pages(sz))) && NoLeak(old(m.role), m.role)
  {
    TopPages(v.leaf, m.bytes, Pages(sz));
    hide *;
    var v1 := m.Uvmunmap(v, pagetable, TRAMPOLINE, 1, false);
    ghost var t1, r1 := m.tables, m.role;
    var v2 := m.Uvmunmap(v1, pagetable, TRAPFRAME, 1, false);
    ghost var t2, r2 := m.tables, m.role;
    ok := Uvmfree(m, v2, pagetable, sz);
    if !ok {
      return;
    }
    NoLeakTrans(old(m.role), r1, r2);
    NoLeakTrans(old(m.role), r2, m.role);
    SameOutside(old(m.tables), t1, v.node.Values);
    SameOutside(t1, t2, v.node.Values);
  }

  lemma SameOutside(t: Tables, t1: Tables, s: set<nat>)
    requires t1.Keys == t.Keys && forall p :: p in t1 && p !in s ==> t1[p] == t[p]
    ensures t1 - s == t - s
  {
  }

  lemma TopPages(leaf: map<nat, Pte>, bytes: map<nat, Page>, n: nat)
    requires UserSpace(leaf, n) && Private(leaf, bytes, 0, UserPages(n))
    ensures TRAMPOLINE + 1 <= MAXPAGE && TRAPFRAME + 1 <= MAXPAGE
    ensures var leaf2 := Unmapped(Unmapped(leaf, TRAMPOLINE, 1), TRAPFRAME, 1);
            && (forall p :: p in leaf2 ==> p < n) && Private(leaf2, bytes, 0, n) &&
               Behind(leaf2, 0, n) == Behind(leaf, 0, UserPages(n))
  {
    var leaf2 := Unmapped(Unmapped(leaf, TRAMPOLINE, 1), TRAPFRAME, 1);
    forall i | 0 <= i <= n ensures Behind(leaf2, 0, i) == Behind(leaf, 0, UserPages(i)) {
      BehindSame(leaf, leaf2, 0, UserPages(i));
      NothingAbove(leaf2, UserPages(i), i);
    }
    forall i | 0 <= i < n ensures PrivateAt(leaf2, bytes, 0, i) {
      assert i < UserPages(n) ==> PrivateAt(leaf, bytes, 0, i);
    }
  }

  lemma {:induction false} NothingAbove(leaf: map<nat, Pte>, k: nat, n: nat)
    requires k <= n && forall p :: k <= p < n ==> p !in leaf
    ensures Behind(leaf, 0, n) == Behind(leaf, 0, k)
  {
    if k < n {
      NothingAbove(leaf, k, n - 1);
    }
  }

  lemma PrivateBacked(leaf: map<nat, Pte>, bytes: map<nat, Page>, n: nat)
    requires Private(leaf, bytes, 0, n)
    ensures Backed(leaf, bytes, n)
  {
    forall p | p in leaf && p < n ensures leaf[p].Pte? && leaf[p].ppn in bytes {
      assert PrivateAt(leaf, bytes, 0, p);
    }
  }
}
