/** Three-level page tables (kernel/vm.c) as a tree of table pages, and what it means for
    the tree to represent a finite map from page numbers to leaf entries. */
module PageTree {
  import opened RiscV

  datatype Perm = Perm(r: bool, w: bool, x: bool, u: bool)

  /** A page table entry: PTE_V clear, or a physical page number with its permissions. */
  datatype Pte = NoPte | Pte(ppn: nat, perm: Perm)

  /** The flag bits of an entry: PTE_V, PTE_R, PTE_W, PTE_X, PTE_U. */
  function Flags(p: Perm): (n: nat)
    ensures n < 32
  {
    1 + (if p.r then 2 else 0) + (if p.w then 4 else 0) + (if p.x then 8 else 0) + if p.u then 16 else 0
  }

  /** The 64 bits of an entry, and the entry that they are. */
  function Encode(e: Pte): (n: nat) { if e.NoPte? then 0 else Pa2Pte(e.ppn * PGSIZE) + Flags(e.perm) }

  function Decode(n: nat): (e: Pte) {
    if n % 2 == 0 then NoPte
    else
      var f := PteFlags(n);
      Pte(Pte2Pa(n) / PGSIZE, Perm(f / 2 % 2 == 1, f / 4 % 2 == 1, f / 8 % 2 == 1, f / 16 % 2 == 1))
  }

  /** Entries are stored as numbers without loss. An entry leads to a lower table exactly if it has none
      of PTE_R, PTE_W and PTE_X. */
  lemma EntryRoundTrip(e: Pte)
    ensures Decode(Encode(e)) == e
    ensures e.Pte? ==> (Encode(e) / 2 % 8 == 0 <==> !e.perm.r && !e.perm.w && !e.perm.x)
  {
    if e.Pte? {
      PteRoundTrip(e.ppn * PGSIZE, Flags(e.perm));
      FlagBits(e.perm);
      LowBits(e.ppn, Flags(e.perm));
    }
  }

  /** The bits above PTE_U, which the hardware or nobody uses, do not change what an entry means. */
  lemma OtherBitsIgnored(e: Pte, x: nat)
    requires e.Pte? && x < 32
    ensures Decode(Encode(e) + 32 * x) == e
  {
    var f := Flags(e.perm);
    PteRoundTrip(e.ppn * PGSIZE, f + 32 * x);
    FlagBits(e.perm);
    assert Pa2Pte(e.ppn * PGSIZE) == e.ppn * 0x400;
    Low(e.ppn * 64 + 2 * x, f);
    HighBits(f, x);
  }

  lemma HighBits(f: nat, x: nat)
    requires f < 32
    ensures (f + 32 * x) / 2 % 2 == f / 2 % 2 && (f + 32 * x) / 4 % 2 == f / 4 % 2
    ensures (f + 32 * x) / 8 % 2 == f / 8 % 2 && (f + 32 * x) / 16 % 2 == f / 16 % 2
  {
    assert (f + 32 * x) / 2 == f / 2 + 2 * (8 * x);
    Even(f / 2, 8 * x);
    assert (f + 32 * x) / 4 == f / 4 + 2 * (4 * x);
    Even(f / 4, 4 * x);
    assert (f + 32 * x) / 8 == f / 8 + 2 * (2 * x);
    Even(f / 8, 2 * x);
    assert (f + 32 * x) / 16 == f / 16 + 2 * x;
    Even(f / 16, x);
  }

  lemma Even(a: nat, b: nat)
    ensures (a + 2 * b) % 2 == a % 2
  {
  }

  lemma FlagBits(p: Perm)
    ensures var f := Flags(p);
            && f % 2 == 1 && (f / 2 % 2 == 1 <==> p.r) && (f / 4 % 2 == 1 <==> p.w) && (f / 8 % 2 == 1 <==> p.x)
            && (f / 16 % 2 == 1 <==> p.u) && (f / 2 % 8 == 0 <==> !p.r && !p.w && !p.x)
  {
  }

  lemma LowBits(ppn: nat, f: nat)
    requires f < 32
    ensures var n := Pa2Pte(ppn * PGSIZE) + f; n % 2 == f % 2 && n / 2 % 8 == f / 2 % 8
  {
    assert Pa2Pte(ppn * PGSIZE) == ppn * 0x400;
    Low(ppn * 64, f);
  }

  lemma Low(a: nat, f: nat)
    requires f < 32
    ensures (16 * a + f) % 2 == f % 2 && (16 * a + f) / 2 % 8 == f / 2 % 8
  {
    assert (16 * a + f) / 2 == 8 * a + f / 2;
  }

  /** An entry that points to a lower-level table has only PTE_V set. */
  const TablePerm: Perm := Perm(false, false, false, false)

  /** A table page by its place in the tree. */
  datatype Node = Root | L1(i2: nat) | L0(i2: nat, i1: nat)

  /** A page table: which page is which node, and what it maps. */
  datatype Pt = Pt(root: nat, node: map<Node, nat>, leaf: map<nat, Pte>)

  /** The contents of the table pages. */
  type Tables = map<nat, seq<Pte>>

  const PAGES: nat := 512 * 512 * 512

  function EmptyTable(): (t: seq<Pte>)
    ensures |t| == 512 && forall i :: 0 <= i < 512 ==> t[i] == NoPte
  {
    seq(512, _ => NoPte)
  }

  function Child(n: Node, i: nat): (c: Node)
    requires !n.L0?
  {
    if n.Root? then L1(i) else L0(n.i2, i)
  }

  function LeafNode(vpn: nat): (n: Node) { L0(Px(2, vpn), Px(1, vpn)) }

  function PageAt(n: Node, i: nat): (vpn: nat)
    requires n.L0?
  {
    (n.i2 * 512 + n.i1) * 512 + i
  }

  ghost predicate Present(e: Pte, m: map<Node, nat>, c: Node) {
    if e.Pte? then c in m && e == Pte(m[c], TablePerm) else c !in m
  }

  /** Entry `i` of node `n` says what the view says. */
  ghost predicate EntryOk(tables: Tables, v: Pt, n: Node, i: nat)
    requires n in v.node && v.node[n] in tables && i < |tables[v.node[n]]|
  {
    var e := tables[v.node[n]][i];
    if n.L0? then (if e.Pte? then PageAt(n, i) in v.leaf && v.leaf[PageAt(n, i)] == e else PageAt(n, i) !in v.leaf)
    else Present(e, v.node, Child(n, i))
  }

  ghost predicate NodeOk(v: Pt, n: Node) {
    match n
    case Root => true
    case L1(i) => i < 512
    case L0(i, j) => i < 512 && j < 512 && L1(i) in v.node
  }

  /** The table pages form an unshared tree that represents `v.leaf`. */
  ghost predicate Tree(tables: Tables, v: Pt) {
    && Root in v.node && v.node[Root] == v.root
    && (forall n :: n in v.node ==> NodeOk(v, n) && v.node[n] in tables && |tables[v.node[n]]| == 512)
    && (forall n, m :: n in v.node && m in v.node && n != m ==> v.node[n] != v.node[m])
    && (forall n, i :: n in v.node && 0 <= i < 512 ==> EntryOk(tables, v, n, i))
    && (forall p :: p in v.leaf ==> p < PAGES && LeafNode(p) in v.node && v.leaf[p].Pte?)
  }

  /** The page of a slot in a level-0 table is the page whose indices lead there. */
  lemma SlotOfPage(n: Node, i: nat)
    requires n.L0? && n.i2 < 512 && n.i1 < 512 && i < 512
    ensures PageAt(n, i) < PAGES && LeafNode(PageAt(n, i)) == n && Px(0, PageAt(n, i)) == i
  {
    PageOfIndices(n.i2, n.i1, i);
  }

  lemma PageOfSlot(vpn: nat)
    requires vpn < PAGES
    ensures PageAt(LeafNode(vpn), Px(0, vpn)) == vpn
  {
    IndicesDeterminePage(vpn);
  }

  /** Hang a new, empty table page below node `n`. */
  lemma AddTable(tables: Tables, v: Pt, n: Node, i: nat, p: nat)
    requires Tree(tables, v) && n in v.node && !n.L0? && i < 512 && Child(n, i) !in v.node
    requires p !in tables
    ensures var t := v.node[n];
            Tree(tables[p := EmptyTable()][t := tables[t][i := Pte(p, TablePerm)]],
                 v.(node := v.node[Child(n, i) := p]))
  {
    var t := v.node[n];
    var tables' := tables[p := EmptyTable()][t := tables[t][i := Pte(p, TablePerm)]];
    var v' := v.(node := v.node[Child(n, i) := p]);
    forall m, k | m in v'.node && 0 <= k < 512 ensures EntryOk(tables', v', m, k) {
      if m == Child(n, i) {
        NoEntry(tables, v, m, k);
      } else {
        assert EntryOk(tables, v, m, k);
        OldEntry(tables, v, n, i, p, m, k);
      }
    }
    hide EntryOk, LeafNode;
  }

  /** Nothing hangs below a node that is not there. */
  lemma NoEntry(tables: Tables, v: Pt, m: Node, k: nat)
    requires Tree(tables, v) && m !in v.node && !m.Root? && NodeOk(v, m) && k < 512
    ensures if m.L0? then PageAt(m, k) !in v.leaf else Child(m, k) !in v.node
  {
    hide EntryOk, PageAt, LeafNode;
    if m.L0? {
      SlotOfPage(m, k);
    } else {
      assert Child(m, k) in v.node ==> NodeOk(v, Child(m, k));
    }
  }

  lemma OldEntry(tables: Tables, v: Pt, n: Node, i: nat, p: nat, m: Node, k: nat)
    requires n in v.node && m in v.node && v.node[n] in tables && v.node[m] in tables && i < 512 && k < 512
    requires |tables[v.node[n]]| == 512 && |tables[v.node[m]]| == 512 && EntryOk(tables, v, m, k)
    requires NodeOk(v, n) && NodeOk(v, m) && !n.L0? && Child(n, i) !in v.node && p !in tables
    requires m != n ==> v.node[m] != v.node[n]
    ensures EntryOk(tables[p := EmptyTable()][v.node[n] := tables[v.node[n]][i := Pte(p, TablePerm)]],
                    v.(node := v.node[Child(n, i) := p]), m, k)
  {
    hide PageAt, LeafNode;
  }

  /** Write a leaf entry, or clear it. */
  lemma SetLeaf(tables: Tables, v: Pt, vpn: nat, e: Pte)
    requires Tree(tables, v) && vpn < PAGES && LeafNode(vpn) in v.node
    ensures var t := v.node[LeafNode(vpn)];
            Tree(tables[t := tables[t][Px(0, vpn) := e]],
                 v.(leaf := if e.Pte? then v.leaf[vpn := e] else v.leaf - {vpn}))
  {
    var t := v.node[LeafNode(vpn)];
    var tables' := tables[t := tables[t][Px(0, vpn) := e]];
    var v' := v.(leaf := if e.Pte? then v.leaf[vpn := e] else v.leaf - {vpn});
    forall m, k | m in v'.node && 0 <= k < 512 ensures EntryOk(tables', v', m, k) {
      assert EntryOk(tables, v, m, k);
      SetLeafEntry(tables, v, vpn, e, m, k);
    }
    hide EntryOk, Px;
  }

  lemma SetLeafEntry(tables: Tables, v: Pt, vpn: nat, e: Pte, m: Node, k: nat)
    requires vpn < PAGES && k < 512 && LeafNode(vpn) in v.node && m in v.node && NodeOk(v, m)
    requires v.node[m] in tables && |tables[v.node[m]]| == 512 && EntryOk(tables, v, m, k)
    requires v.node[LeafNode(vpn)] in tables && |tables[v.node[LeafNode(vpn)]]| == 512
    requires m != LeafNode(vpn) ==> v.node[m] != v.node[LeafNode(vpn)]
    ensures var t := v.node[LeafNode(vpn)];
            EntryOk(tables[t := tables[t][Px(0, vpn) := e]],
                    v.(leaf := if e.Pte? then v.leaf[vpn := e] else v.leaf - {vpn}), m, k)
  {
    hide LeafNode, PageAt;
    SameSlot(v, vpn, m, k);
  }

  /** The slot of a page is its own. */
  lemma SameSlot(v: Pt, vpn: nat, m: Node, k: nat)
    requires vpn < PAGES && k < 512 && NodeOk(v, m)
    ensures m.L0? ==> (PageAt(m, k) == vpn <==> m == LeafNode(vpn) && k == Px(0, vpn))
    ensures LeafNode(vpn).L0?
  {
    PageOfSlot(vpn);
    if m.L0? {
      SlotOfPage(m, k);
    }
  }

  /** A tree does not notice changes to pages that are not in it. */
  lemma Elsewhere(tables: Tables, tables': Tables, v: Pt)
    requires Tree(tables, v)
    requires forall t :: t in v.node.Values ==> t in tables' && tables'[t] == tables[t]
    ensures Tree(tables', v)
  {
    forall n | n in v.node ensures v.node[n] in tables' && tables'[v.node[n]] == tables[v.node[n]] {
      assert v.node[n] in v.node.Values;
    }
    forall m, k | m in v.node && 0 <= k < 512 ensures EntryOk(tables', v, m, k) {
      assert EntryOk(tables, v, m, k);
    }
  }
}
