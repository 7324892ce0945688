/** Lazy allocation and copying between kernel and user memory: walkaddr(), vmfault(),
    copyout() and copyin() of kernel/vm.c. */
module UserMem {
  import opened RiscV
  import opened Blocks
  import opened PageTree
  import opened Vm
  import opened Wrappers

  /** The page of an address, and the place in it. */
  function PageOf(a: nat): (p: nat) { a / PGSIZE }
  function OffsetOf(a: nat): (o: nat)
    ensures o < PGSIZE && a == PageOf(a) * PGSIZE + o
  {
    a % PGSIZE
  }

  /** The `n` bytes at `va` lie in one page. */
  predicate Fits(va: nat, n: nat) { n <= PGSIZE - OffsetOf(va) }

  /** A process's page table together with all of physical memory. */
  datatype Space = Space(v: Pt, tables: Tables, bytes: map<nat, Page>, role: map<nat, Role>)

  ghost function Now(m: PhysMem, v: Pt): (s: Space)
    reads m
    ensures s.v == v && s.tables == m.tables && s.bytes == m.bytes && s.role == m.role
  {
    Space(v, m.tables, m.bytes, m.role)
  }

  ghost predicate UserPage(s: Space, p: nat) { p in s.v.leaf && s.v.leaf[p].Pte? && s.v.leaf[p].perm.u }

  /** User pages are memory, and no two of them are the same memory. */
  ghost predicate Owned(s: Space) {
    && (forall p :: UserPage(s, p) ==> s.v.leaf[p].ppn in s.bytes)
    && (forall p, q :: UserPage(s, p) && UserPage(s, q) && p != q ==> s.v.leaf[p].ppn != s.v.leaf[q].ppn)
  }

  /** The byte at address `a` as the process sees it: memory that is not there yet reads as 0. */
  ghost function ByteAt(s: Space, a: nat): (b: Byte)
    requires Owned(s)
  {
    if UserPage(s, PageOf(a)) then s.bytes[s.v.leaf[PageOf(a)].ppn][OffsetOf(a)] else 0
  }

  /** The process sees the same memory. */
  ghost predicate Unseen(s: Space, s': Space) {
    Owned(s) && Owned(s') && forall x: nat :: ByteAt(s', x) == ByteAt(s, x)
  }

  /** The memory after the bytes of `src` from `lo` up to `hi` have been put at their places,
      with src[0] belonging at address `a`, and nothing else. */
  ghost predicate Stored(s: Space, s': Space, a: nat, src: seq<Byte>, lo: nat, hi: nat) {
    && Owned(s) && Owned(s') && lo <= hi <= |src|
    && forall x: nat :: ByteAt(s', x) == if a + lo <= x < a + hi then src[x - a] else ByteAt(s, x)
  }

  /** The bytes `dst` are those at address `a`. */
  ghost predicate Loaded(s: Space, a: nat, dst: seq<Byte>) {
    Owned(s) && forall i :: 0 <= i < |dst| ==> dst[i] == ByteAt(s, a + i)
  }

  /** The process may access all of the `n` bytes at `a` without a fault. */
  ghost predicate Resident(s: Space, a: nat, n: nat) {
    forall x: nat :: a <= x < a + n ==> Reachable(s, x)
  }

  ghost predicate Reachable(s: Space, x: nat) { UserPage(s, PageOf(x)) && PageOf(x) < MAXPAGE }

  /** Page `p` may be copied from, or to if `write`: it is a user page (a writable one), or one
      below `sz` that lazy allocation has not provided yet. */
  ghost predicate Usable(s: Space, p: nat, sz: nat, write: bool) {
    && p < MAXPAGE
    && if p in s.v.leaf then UserPage(s, p) && (write ==> s.v.leaf[p].perm.w) else PageBase(p) < sz
  }

  ghost predicate AllUsable(s: Space, a: nat, n: nat, sz: nat, write: bool) {
    forall x: nat :: a <= x < a + n ==> UsableAt(s, x, sz, write)
  }

  ghost predicate UsableAt(s: Space, x: nat, sz: nat, write: bool) { Usable(s, PageOf(x), sz, write) }

  ghost predicate Alike(s: Space, s': Space, sz: nat) {
    forall p: nat, write: bool :: Usable(s', p, sz, write) == Usable(s, p, sz, write)
  }

  /** Memory that the process does not own is as before, and what it has mapped stays mapped. */
  ghost predicate Others(s: Space, s': Space) {
    && (forall x :: x in s.bytes ==> x in s'.bytes)
    && (forall x :: x in s.bytes && s'.bytes[x] != s.bytes[x] ==> exists p :: UserPage(s, p) && s.v.leaf[p].ppn == x)
    && (forall p :: p in s.v.leaf ==> p in s'.v.leaf && s'.v.leaf[p] == s.v.leaf[p])
    && (forall p :: UserPage(s', p) && p !in s.v.leaf ==> s'.v.leaf[p].ppn !in s.bytes)
  }

  /** What the functions of this module may do to a space: pages and tables are only added,
      none is lost, and no other process notices. */
  ghost predicate Since(s: Space, s': Space) {
    NoLeak(s.role, s'.role) && Extends(s.tables, s.v, s'.tables, s'.v) && Others(s, s')
  }

  /** A process's space is in order. */
  ghost predicate Sane(m: PhysMem, v: Pt, pagetable: nat)
    reads m
  {
    m.Valid() && Tree(m.tables, v) && v.root == pagetable && Owned(Now(m, v))
  }

  lemma SinceSelf(s: Space)
    ensures Since(s, s) && (Owned(s) ==> Unseen(s, s))
  {
  }

  lemma SinceTrans(s: Space, s1: Space, s2: Space)
    requires Since(s, s1) && Since(s1, s2)
    ensures Since(s, s2)
  {
    ExtendsTrans(s.tables, s.v, s1.tables, s1.v, s2.tables, s2.v);
    hide NoLeak, Extends;
    NoLeakTrans(s.role, s1.role, s2.role);
    forall x | x in s.bytes && s2.bytes[x] != s.bytes[x] ensures exists p :: UserPage(s, p) && s.v.leaf[p].ppn == x {
      if s1.bytes[x] == s.bytes[x] {
        var p :| UserPage(s1, p) && s1.v.leaf[p].ppn == x;
        assert UserPage(s, p);
      }
    }
  }

  /** walkaddr(): the physical page of a user page, or nothing. Also whether it is writable. */
  method Walkaddr(m: PhysMem, ghost v: Pt, pagetable: nat, vpn: nat) returns (r: Option<nat>, w: bool)
    requires Sane(m, v, pagetable)
    modifies m
    ensures Sane(m, v, pagetable) && Now(m, v) == old(Now(m, v)) && m.freelist == old(m.freelist)
    ensures r.Some? <==> vpn < MAXPAGE && UserPage(old(Now(m, v)), vpn)
    ensures r.Some? ==> Frame(Now(m, v), vpn, r.value, w)
  {
    hide Tree, PhysMem.Valid, LeafNode, Extends, NoLeak;
    if vpn >= MAXPAGE {
      return None, false;
    }
    LeafSlot(m.tables, v, vpn);
    var pte, v1 := m.Walk(v, pagetable, vpn, false);
    if pte.None? {
      return None, false;
    }
    var e := m.tables[pte.value.0][pte.value.1];
    if e.NoPte? || !e.perm.u {
      return None, false;
    }
    r, w := Some(e.ppn), e.perm.w;
  }

  /** An address below the size of the process that no page table can map. Lazy sbrk() does not keep the
      size below MAXVA. */
  predicate Beyond(a: nat, sz: nat) { PageOf(a) >= MAXPAGE && PageBase(PageOf(a)) < sz }

  /** vmfault(): at most, an absent page below `sz` becomes a page of zeroes, and it does if there
      is memory. The process cannot tell. It panics, in walk(), exactly for an address that is below
      `sz` and not below MAXVA. */
  method Vmfault(m: PhysMem, ghost v: Pt, pagetable: nat, va: nat, sz: nat)
    returns (r: Option<nat>, panics: bool, ghost v': Pt)
    requires Sane(m, v, pagetable)
    modifies m
    ensures panics <==> MAXVA <= va < sz
    ensures panics ==> r.None?
    ensures Sane(m, v', pagetable) && Since(old(Now(m, v)), Now(m, v')) && Unseen(old(Now(m, v)), Now(m, v'))
    ensures Alike(old(Now(m, v)), Now(m, v'), sz)
    ensures r.None? ==> v'.leaf == v.leaf && m.bytes == old(m.bytes) &&
                        (va >= sz || PageOf(va) in v.leaf || |old(m.freelist)| < 3 || panics)
    ensures r.Some? ==>
              && |old(m.freelist)| <= |m.freelist| + 3
              && va < sz && PageOf(va) !in v.leaf && r.value !in old(m.bytes)
              && v'.leaf == v.leaf[PageOf(va) := Pte(r.value, Perm(true, true, false, true))] &&
                 m.bytes == old(m.bytes)[r.value := ZeroPage()]
              && Frame(Now(m, v'), PageOf(va), r.value, true)
  {
    hide *;
    ghost var s := Now(m, v);
    SaneParts(m, v, pagetable);
    v', panics := v, false;
    AlikeLeaf(s, s, sz);
    if va >= sz {
      return None, false, v';
    }
    var vpn := PageOf(va);
    BelowMax(va);
    if vpn >= MAXPAGE {
      return None, true, v';
    }
    LeafSlot(m.tables, v, vpn);
    var pte, v1 := m.Walk(v, pagetable, vpn, false);
    if pte.Some? && m.tables[pte.value.0][pte.value.1].Pte? {
      SaneWhole(m, v, v', pagetable, s);
      AlikeLeaf(s, Now(m, v'), sz);
      return None, false, v';
    }
    r, v' := m.AllocOne(v, pagetable, vpn, Perm(true, true, false, true), ZeroPage());
    if r.Some? {
      ZeroesUnseen(s, Now(m, v'), vpn, r.value);
      ZeroesAlike(s, Now(m, v'), vpn, r.value, va, sz);
    } else {
      NothingNew(s, Now(m, v'));
      AlikeLeaf(s, Now(m, v'), sz);
    }
    SaneWhole(m, v, v', pagetable, s);
  }

  lemma SaneParts(m: PhysMem, v: Pt, pagetable: nat)
    requires Sane(m, v, pagetable)
    ensures m.Valid() && Tree(m.tables, v) && v.root == pagetable && Owned(Now(m, v))
    ensures Now(m, v).v == v && Now(m, v).tables == m.tables && Now(m, v).bytes == m.bytes && Now(m, v).role == m.role
    ensures Since(Now(m, v), Now(m, v)) && Unseen(Now(m, v), Now(m, v))
  {
    SinceSelf(Now(m, v));
  }

  lemma SaneWhole(m: PhysMem, v: Pt, v': Pt, pagetable: nat, s: Space)
    requires m.Valid() && Tree(m.tables, v') && s.v == v && v.root == pagetable && NoLeak(s.role, m.role)
    requires Extends(s.tables, v, m.tables, v') && Others(s, Now(m, v')) && Unseen(s, Now(m, v'))
    ensures Sane(m, v', pagetable) && Since(s, Now(m, v'))
  {
  }

  lemma BelowMax(va: nat)
    ensures (PageOf(va) < MAXPAGE <==> va < MAXVA) && MAXPAGE == PAGES / 2
  {
  }

  lemma NothingNew(s: Space, s': Space)
    requires Owned(s) && s'.v.leaf == s.v.leaf && s'.bytes == s.bytes
    ensures Unseen(s, s') && Others(s, s')
  {
    assert forall p :: UserPage(s', p) <==> UserPage(s, p);
  }

  /** A new page of zeroes is not seen. */
  lemma ZeroesUnseen(s: Space, s': Space, vpn: nat, x: nat)
    requires Owned(s) && vpn !in s.v.leaf && x !in s.bytes
    requires s'.v.leaf == s.v.leaf[vpn := Pte(x, Perm(true, true, false, true))] && s'.bytes == s.bytes[x := ZeroPage()]
    ensures Unseen(s, s') && Others(s, s') && (vpn < MAXPAGE ==> Frame(s', vpn, x, true))
  {
    assert forall p :: UserPage(s', p) <==> UserPage(s, p) || p == vpn;
  }

  lemma AlikeLeaf(s: Space, s': Space, sz: nat)
    requires s'.v.leaf == s.v.leaf
    ensures Alike(s, s', sz)
  {
  }

  lemma ZeroesAlike(s: Space, s': Space, vpn: nat, x: nat, va: nat, sz: nat)
    requires vpn !in s.v.leaf && vpn < MAXPAGE && vpn == PageOf(va) && va < sz
    requires s'.v.leaf == s.v.leaf[vpn := Pte(x, Perm(true, true, false, true))]
    ensures Alike(s, s', sz)
  {
    assert PageBase(vpn) <= va;
    hide PageBase;
  }

  lemma AlikeTrans(s: Space, s1: Space, s2: Space, sz: nat)
    requires Alike(s, s1, sz) && Alike(s1, s2, sz)
    ensures Alike(s, s2, sz)
  {
  }

  /** The physical page to copy to or from: walkaddr(), and vmfault() if that finds nothing. */
  method Resolve(m: PhysMem, ghost v: Pt, pagetable: nat, vpn: nat, sz: nat)
    returns (r: Option<nat>, w: bool, panics: bool, ghost v': Pt)
    requires Sane(m, v, pagetable)
    modifies m
    ensures panics <==> vpn >= MAXPAGE && PageBase(vpn) < sz
    ensures panics ==> r.None?
    ensures Sane(m, v', pagetable) && Since(old(Now(m, v)), Now(m, v')) && Unseen(old(Now(m, v)), Now(m, v'))
    ensures Alike(old(Now(m, v)), Now(m, v'), sz)
    ensures r.Some? ==> Frame(Now(m, v'), vpn, r.value, w) && w == Usable(Now(m, v'), vpn, sz, true)
    ensures r.Some? ==> Usable(Now(m, v'), vpn, sz, false) && |old(m.freelist)| <= |m.freelist| + 3
    ensures vpn < MAXPAGE && UserPage(old(Now(m, v)), vpn) ==> r.Some?
    ensures r.None? && |old(m.freelist)| >= 3 ==> !Usable(Now(m, v'), vpn, sz, false)
  {
    hide *;
    SaneParts(m, v, pagetable);
    v', panics := v, false;
    ghost var s := Now(m, v);
    AlikeLeaf(s, s, sz);
    r, w := Walkaddr(m, v, pagetable, vpn);
    PageStart(vpn);
    BelowMax(PageBase(vpn));
    if r.None? {
      r, panics, v' := Vmfault(m, v, pagetable, PageBase(vpn), sz);
      w := true;
      if r.None? {
        NotUsable(s, Now(m, v'), vpn, sz, |old(m.freelist)|);
      }
    }
    if r.Some? {
      FrameUsable(Now(m, v'), vpn, r.value, w, sz);
    }
  }

  lemma NotUsable(s: Space, s': Space, vpn: nat, sz: nat, pages: nat)
    requires !(vpn < MAXPAGE && UserPage(s, vpn)) && s'.v.leaf == s.v.leaf
    requires PageBase(vpn) >= sz || vpn in s.v.leaf || pages < 3 || vpn >= MAXPAGE
    ensures pages >= 3 ==> !Usable(s', vpn, sz, false)
  {
    hide PageBase;
  }

  lemma FrameUsable(s: Space, vpn: nat, pa: nat, w: bool, sz: nat)
    requires Frame(s, vpn, pa, w)
    ensures Usable(s, vpn, sz, false) && w == Usable(s, vpn, sz, true)
  {
    hide PageBase;
  }

  /** `pa` is the memory behind user page `vpn`, writable if `w`. */
  ghost predicate Frame(s: Space, vpn: nat, pa: nat, w: bool) {
    UserPage(s, vpn) && vpn < MAXPAGE && s.v.leaf[vpn].ppn == pa && s.v.leaf[vpn].perm.w == w && pa in s.bytes
  }

  function PageBase(vpn: nat): (a: nat) { vpn * PGSIZE }

  lemma PageStart(vpn: nat)
    ensures PageOf(PageBase(vpn)) == vpn
  {
  }

  /** A page with the bytes of `src` from `lo` up to `hi` put at offset `o`. */
  function Overwrite(page: Page, o: nat, src: seq<Byte>, lo: nat, hi: nat): (r: Page)
    requires lo <= hi <= |src| && o + (hi - lo) <= PGSIZE
    ensures forall i :: 0 <= i < PGSIZE ==> r[i] == if o <= i < o + (hi - lo) then src[lo + i - o] else page[i]
  {
    page[..o] + src[lo..hi] + page[o + (hi - lo)..]
  }

  /** va0 = PGROUNDDOWN(va), as a page number, and va - va0. */
  method Split(va: nat) returns (vpn: nat, o: nat)
    ensures vpn == PageOf(va) && o == OffsetOf(va)
  {
    vpn, o := PgRoundDown(va) / PGSIZE, va - PgRoundDown(va);
  }

  /** How much of `n` bytes at `va` lies in the page of `va`. */
  function ChunkSize(va: nat, n: nat): (c: nat)
    requires n > 0
    ensures 0 < c <= n && Fits(va, c)
  {
    var rest := PGSIZE - (va - PgRoundDown(va));
    if rest > n then n else rest
  }

  /** One iteration of copyout()'s loop: the bytes of `src` from `lo` up to `hi`, in one page. */
  method PutChunk(m: PhysMem, ghost v: Pt, pagetable: nat, sz: nat, a: nat, src: seq<Byte>, lo: nat, hi: nat)
    returns (ok: bool, ghost v': Pt)
    requires Sane(m, v, pagetable) && lo < hi <= |src| && Fits(a + lo, hi - lo)
    modifies m
    ensures Sane(m, v', pagetable) && Since(old(Now(m, v)), Now(m, v'))
    ensures ok ==> Stored(old(Now(m, v)), Now(m, v'), a, src, lo, hi) && Resident(Now(m, v'), a + lo, hi - lo)
    ensures !ok ==> Unseen(old(Now(m, v)), Now(m, v'))
    ensures Alike(old(Now(m, v)), Now(m, v'), sz)
    ensures ok ==> Usable(Now(m, v'), PageOf(a + lo), sz, true) && |old(m.freelist)| <= |m.freelist| + 3
    ensures !ok && (|old(m.freelist)| >= 3 || Reachable(old(Now(m, v)), a + lo)) ==>
              !Usable(Now(m, v'), PageOf(a + lo), sz, true)
  {
    hide *;
    SaneParts(m, v, pagetable);
    v', ok := v, false;
    var vpn, o := Split(a + lo);
    ghost var s := Now(m, v);
    AlikeLeaf(s, s, sz);
    ReachablePage(s, a + lo);
    if vpn >= MAXPAGE {
      NotBeyond(s, vpn, sz);
      return;
    }
    var pa0, w, panics;
    pa0, w, panics, v' := Resolve(m, v, pagetable, vpn, sz);
    WritableUsable(Now(m, v'), vpn, sz);
    if pa0.None? || !w {
      return;
    }
    ghost var s1 := Now(m, v');
    SaneParts(m, v', pagetable);
    FrameBytes(s1, vpn, pa0.value, w);
    FitsAt(a + lo, hi - lo, o);
    m.StoreBytes(pa0.value, Overwrite(m.bytes[pa0.value], o, src, lo, hi));
    PutStored(m, v', pagetable, old(Now(m, v)), s1, pa0.value, a, src, lo, hi);
    AlikeLeaf(s1, Now(m, v'), sz);
    AlikeTrans(s, s1, Now(m, v'), sz);
    AlikeUse(s1, Now(m, v'), sz, vpn);
    ok := true;
  }

  lemma NotBeyond(s: Space, vpn: nat, sz: nat)
    requires vpn >= MAXPAGE
    ensures !Usable(s, vpn, sz, true)
  {
  }

  lemma WritableUsable(s: Space, vpn: nat, sz: nat)
    ensures Usable(s, vpn, sz, true) ==> Usable(s, vpn, sz, false)
  {
  }

  lemma AlikeUse(s: Space, s': Space, sz: nat, vpn: nat)
    requires Alike(s, s', sz)
    ensures Usable(s', vpn, sz, true) == Usable(s, vpn, sz, true) &&
            Usable(s', vpn, sz, false) == Usable(s, vpn, sz, false)
  {
  }

  lemma FrameBytes(s: Space, vpn: nat, pa: nat, w: bool)
    requires Frame(s, vpn, pa, w)
    ensures pa in s.bytes
  {
  }

  lemma FitsAt(va: nat, n: nat, o: nat)
    requires Fits(va, n) && o == OffsetOf(va)
    ensures o + n <= PGSIZE
  {
  }

  /** Writing into a page puts the bytes there and nowhere else. */
  lemma PutStored(m: PhysMem, v: Pt, pagetable: nat, s: Space, s1: Space, x: nat, a: nat, src: seq<Byte>, lo: nat,
                  hi: nat)
    requires m.Valid() && Tree(m.tables, v) && v.root == pagetable && s1.v == v && s1.tables == m.tables &&
             s1.role == m.role
    requires Since(s, s1) && Unseen(s, s1) && Frame(s1, PageOf(a + lo), x, true) && lo < hi <= |src| &&
             Fits(a + lo, hi - lo)
    requires m.bytes == s1.bytes[x := Overwrite(s1.bytes[x], OffsetOf(a + lo), src, lo, hi)]
    ensures Sane(m, v, pagetable) && Since(s, Now(m, v)) && Stored(s, Now(m, v), a, src, lo, hi) &&
            Resident(Now(m, v), a + lo, hi - lo)
  {
    hide Tree, NoLeak, Extends, PhysMem.Valid;
    var va, n, s2 := a + lo, hi - lo, Now(m, v);
    assert forall p :: UserPage(s2, p) <==> UserPage(s1, p);
    forall y: nat
      ensures ByteAt(s2, y) == if va <= y < va + n then src[y - a] else ByteAt(s1, y)
      ensures va <= y < va + n ==> PageOf(y) == PageOf(va)
    {
      SamePage(va, y, n);
    }
  }

  /** Addresses within a page. */
  lemma SamePage(a: nat, y: nat, n: nat)
    requires Fits(a, n)
    ensures a <= y < a + n <==> PageOf(y) == PageOf(a) && OffsetOf(a) <= OffsetOf(y) < OffsetOf(a) + n
    ensures a <= y < a + n ==> OffsetOf(y) == OffsetOf(a) + (y - a)
  {
    var p, o := PageOf(a), OffsetOf(a);
    var q, r := PageOf(y), OffsetOf(y);
    assert a == p * PGSIZE + o && y == q * PGSIZE + r;
  }

  /** One iteration of copyout()'s loop, in terms of the whole run. */
  method CopyoutStep(m: PhysMem, ghost v: Pt, pagetable: nat, sz: nat, dstva: nat, src: seq<Byte>, done: nat,
                     ghost s: Space)
    returns (ok: bool, done': nat, ghost v': Pt)
    requires Sane(m, v, pagetable) && Since(s, Now(m, v)) && done < |src|
    requires Stored(s, Now(m, v), dstva, src, 0, done) && Resident(Now(m, v), dstva, done)
    requires Alike(s, Now(m, v), sz) && AllUsable(s, dstva, done, sz, true)
    modifies m
    ensures Sane(m, v', pagetable) && Since(s, Now(m, v')) && done' <= |src| &&
            Stored(s, Now(m, v'), dstva, src, 0, done')
    ensures Alike(s, Now(m, v'), sz)
    ensures ok ==> done < done' && Resident(Now(m, v'), dstva, done') && AllUsable(s, dstva, done', sz, true)
    ensures ok ==> |old(m.freelist)| <= |m.freelist| + 3 * (done' - done)
    ensures AllUsable(s, dstva, |src|, sz, true) && (Resident(s, dstva, |src|) || |old(m.freelist)| >= 3) ==> ok
  {
    hide *;
    ghost var s1 := Now(m, v);
    ResidentAt(s, s1, dstva, |src|, dstva + done);
    done' := done + ChunkSize(dstva + done, |src| - done);
    ok, v' := PutChunk(m, v, pagetable, sz, dstva, src, done, done');
    SinceTrans(s, s1, Now(m, v'));
    AlikeTrans(s, s1, Now(m, v'), sz);
    AlikeUse(s, Now(m, v'), sz, PageOf(dstva + done));
    UsableThere(s, dstva, |src|, sz, true, dstva + done);
    if ok {
      UsableMore(s, dstva, done, done', sz, true);
      StoredMore(s, s1, Now(m, v'), dstva, src, done, done');
      ResidentMore(s1, Now(m, v'), dstva, done, done');
    } else {
      StoredUnseen(s, s1, Now(m, v'), dstva, src, done);
      done' := done;
    }
  }

  /** copyout(): on success exactly the bytes at `dstva` change, to those of `src`; on failure
      a prefix of them may have. No other process's memory changes. It succeeds exactly where the
      process could write, if there is memory for the pages that are missing. It never panics,
      because it checks the address first. */
  method Copyout(m: PhysMem, ghost v: Pt, pagetable: nat, sz: nat, dstva: nat, src: seq<Byte>)
    returns (ok: bool, ghost v': Pt, ghost n: nat)
    requires Sane(m, v, pagetable)
    modifies m
    ensures Sane(m, v', pagetable) && Since(old(Now(m, v)), Now(m, v'))
    ensures n <= |src| && Stored(old(Now(m, v)), Now(m, v'), dstva, src, 0, n)
    ensures ok ==> n == |src| && Resident(Now(m, v'), dstva, |src|) && AllUsable(old(Now(m, v)), dstva, |src|, sz, true)
    ensures AllUsable(old(Now(m, v)), dstva, |src|, sz, true) &&
            (Resident(old(Now(m, v)), dstva, |src|) || |old(m.freelist)| >= 3 * |src|)
            ==> ok
  {
    v' := v;
    var done: nat := 0;
    hide *;
    ghost var s := Now(m, v);
    SaneParts(m, v, pagetable);
    NoneStored(s, dstva, src);
    AlikeLeaf(s, s, sz);
    UsableNone(s, dstva, sz, true);
    ok := true;
    while ok && done < |src|
      invariant done <= |src| && Sane(m, v', pagetable) && Since(s, Now(m, v'))
      invariant Stored(s, Now(m, v'), dstva, src, 0, done)
      invariant Alike(s, Now(m, v'), sz)
      invariant ok ==> Resident(Now(m, v'), dstva, done) && AllUsable(s, dstva, done, sz, true) &&
                       |old(m.freelist)| <= |m.freelist| + 3 * done
      invariant AllUsable(s, dstva, |src|, sz, true) &&
                (Resident(s, dstva, |src|) || |old(m.freelist)| >= 3 * |src|)
                ==> ok
      decreases ok, |src| - done
    {
      ok, done, v' := CopyoutStep(m, v', pagetable, sz, dstva, src, done, s);
    }
    n := done;
  }

  lemma UsableNone(s: Space, a: nat, sz: nat, write: bool)
    ensures AllUsable(s, a, 0, sz, write)
  {
  }

  lemma UsableThere(s: Space, a: nat, n: nat, sz: nat, write: bool, x: nat)
    requires a <= x < a + n
    ensures AllUsable(s, a, n, sz, write) ==> Usable(s, PageOf(x), sz, write)
  {
    hide Usable;
    assert UsableAt(s, x, sz, write) ==> Usable(s, PageOf(x), sz, write);
  }

  /** One page more. */
  lemma UsableMore(s: Space, a: nat, d: nat, d': nat, sz: nat, write: bool)
    requires AllUsable(s, a, d, sz, write) && d <= d' && Fits(a + d, d' - d) && Usable(s, PageOf(a + d), sz, write)
    ensures AllUsable(s, a, d', sz, write)
  {
    hide Usable, PageOf, Fits;
    forall x: nat | a <= x < a + d' ensures UsableAt(s, x, sz, write) {
      if x >= a + d {
        SamePage(a + d, x, d' - d);
      }
    }
  }

  lemma NoneStored(s: Space, a: nat, src: seq<Byte>)
    requires Owned(s)
    ensures Stored(s, s, a, src, 0, 0) && Resident(s, a, 0)
  {
  }

  /** Putting one chunk after another is putting them together. */
  lemma StoredMore(s: Space, s1: Space, s2: Space, a: nat, src: seq<Byte>, d: nat, d': nat)
    requires Stored(s, s1, a, src, 0, d) && Stored(s1, s2, a, src, d, d')
    ensures Stored(s, s2, a, src, 0, d')
  {
  }

  lemma StoredUnseen(s: Space, s1: Space, s2: Space, a: nat, src: seq<Byte>, d: nat)
    requires Stored(s, s1, a, src, 0, d) && Unseen(s1, s2)
    ensures Stored(s, s2, a, src, 0, d)
  {
  }

  lemma ResidentMore(s1: Space, s2: Space, a: nat, d: nat, d': nat)
    requires Resident(s1, a, d) && d <= d' && Resident(s2, a + d, d' - d) && Since(s1, s2)
    ensures Resident(s2, a, d')
  {
    hide Extends, NoLeak, PageOf;
    forall x: nat | a <= x < a + d' ensures Reachable(s2, x) {
      assert x < a + d ==> Reachable(s1, x);
    }
  }

  /** One iteration of copyin()'s loop. */
  method GetChunk(m: PhysMem, ghost v: Pt, pagetable: nat, sz: nat, va: nat, c: nat)
    returns (ok: bool, dst: seq<Byte>, panics: bool, ghost v': Pt)
    requires Sane(m, v, pagetable) && 0 < c && Fits(va, c)
    modifies m
    ensures panics <==> Beyond(va, sz)
    ensures panics ==> !ok
    ensures Sane(m, v', pagetable) && Since(old(Now(m, v)), Now(m, v')) && Unseen(old(Now(m, v)), Now(m, v'))
    ensures ok ==> |dst| == c && Loaded(old(Now(m, v)), va, dst)
    ensures Alike(old(Now(m, v)), Now(m, v'), sz)
    ensures ok ==> Usable(Now(m, v'), PageOf(va), sz, false) && |old(m.freelist)| <= |m.freelist| + 3
    ensures !ok ==> !Reachable(old(Now(m, v)), va) &&
                    (|old(m.freelist)| >= 3 ==> !Usable(Now(m, v'), PageOf(va), sz, false))
  {
    hide *;
    ghost var s := Now(m, v);
    var vpn, o := Split(va);
    ReachablePage(s, va);
    BeyondIs(va, sz);
    var pa0, w;
    pa0, w, panics, v' := Resolve(m, v, pagetable, vpn, sz);
    if pa0.None? {
      return false, [], panics, v';
    }
    FitsAt(va, c, o);
    FrameBytes(Now(m, v'), vpn, pa0.value, w);
    SaneParts(m, v', pagetable);
    GetLoaded(s, Now(m, v'), va, c, pa0.value, w);
    dst := Slice(m.bytes[pa0.value], o, c);
    ok := true;
  }

  lemma BeyondIs(va: nat, sz: nat)
    ensures Beyond(va, sz) <==> PageOf(va) >= MAXPAGE && PageBase(PageOf(va)) < sz
  {
  }

  lemma ReachablePage(s: Space, va: nat)
    ensures Reachable(s, va) ==> PageOf(va) < MAXPAGE && UserPage(s, PageOf(va))
  {
  }

  function Slice(page: Page, o: nat, c: nat): (dst: seq<Byte>)
    requires o + c <= PGSIZE
    ensures |dst| == c && forall i :: 0 <= i < c ==> dst[i] == page[o + i]
  {
    page[o..o + c]
  }

  lemma GetLoaded(s: Space, s1: Space, a: nat, c: nat, x: nat, w: bool)
    requires Unseen(s, s1) && Fits(a, c) && Frame(s1, PageOf(a), x, w)
    ensures Loaded(s, a, Slice(s1.bytes[x], OffsetOf(a), c))
  {
    var dst := Slice(s1.bytes[x], OffsetOf(a), c);
    forall i | 0 <= i < c ensures dst[i] == ByteAt(s, a + i) {
      SamePage(a, a + i, c);
      assert ByteAt(s1, a + i) == dst[i];
    }
  }

  /** One iteration of copyin()'s loop, in terms of the whole run. */
  method CopyinStep(m: PhysMem, ghost v: Pt, pagetable: nat, sz: nat, srcva: nat, done: nat, len: nat, ghost s: Space)
    returns (ok: bool, dst: seq<Byte>, panics: bool, ghost v': Pt)
    requires Sane(m, v, pagetable) && Since(s, Now(m, v)) && Unseen(s, Now(m, v)) && done < len
    requires Alike(s, Now(m, v), sz) && AllUsable(s, srcva, done, sz, false)
    modifies m
    ensures Sane(m, v', pagetable) && Since(s, Now(m, v')) && Unseen(s, Now(m, v'))
    ensures ok ==> 0 < |dst| <= len - done && Loaded(s, srcva + done, dst)
    ensures Alike(s, Now(m, v'), sz)
    ensures ok ==> AllUsable(s, srcva, done + |dst|, sz, false) && |old(m.freelist)| <= |m.freelist| + 3 * |dst|
    ensures Reachable(s, srcva + done) || (UsableAt(s, srcva + done, sz, false) && |old(m.freelist)| >= 3) ==> ok
    ensures panics <==> Beyond(srcva + done, sz)
    ensures panics ==> !ok
  {
    hide *;
    ghost var s1 := Now(m, v);
    var va := srcva + done;
    var c := ChunkSize(va, len - done);
    StillReachable(s, s1, va);
    ok, dst, panics, v' := GetChunk(m, v, pagetable, sz, va, c);
    SinceTrans(s, s1, Now(m, v'));
    UnseenTrans(s, s1, Now(m, v'));
    AlikeTrans(s, s1, Now(m, v'), sz);
    AlikeUse(s, Now(m, v'), sz, PageOf(va));
    UsableAtIs(s, va, sz, false);
    if ok {
      LoadedBefore(s, s1, va, dst);
      UsableMore(s, srcva, done, done + |dst|, sz, false);
    }
  }

  lemma UnseenTrans(s: Space, s1: Space, s2: Space)
    requires Unseen(s, s1) && Unseen(s1, s2)
    ensures Unseen(s, s2)
  {
  }

  lemma UsableAtIs(s: Space, x: nat, sz: nat, write: bool)
    ensures UsableAt(s, x, sz, write) <==> Usable(s, PageOf(x), sz, write)
  {
  }

  lemma StillReachable(s: Space, s1: Space, x: nat)
    requires Since(s, s1)
    ensures Reachable(s, x) ==> Reachable(s1, x)
  {
    hide Extends, NoLeak, PageOf;
  }

  lemma ResidentAt(s: Space, s1: Space, a: nat, n: nat, x: nat)
    requires Since(s, s1) && a <= x < a + n
    ensures Resident(s, a, n) ==> Reachable(s1, x)
  {
    hide Extends, NoLeak, PageOf;
    assert Resident(s, a, n) ==> Reachable(s, x);
  }

  lemma LoadedBefore(s: Space, s1: Space, a: nat, dst: seq<Byte>)
    requires Unseen(s, s1) && Loaded(s1, a, dst)
    ensures Loaded(s, a, dst)
  {
  }

  /** copyin(): the bytes at `srcva`, and nothing changes for the process. It succeeds exactly where
      the process could read, if there is memory for the pages that are missing. It panics only if the
      range reaches from what the process could read to MAXVA or beyond, and the size does too; and
      then it does, if there is memory. */
  method Copyin(m: PhysMem, ghost v: Pt, pagetable: nat, sz: nat, srcva: nat, len: nat)
    returns (ok: bool, dst: seq<Byte>, panics: bool, ghost v': Pt)
    requires Sane(m, v, pagetable)
    modifies m
    ensures Sane(m, v', pagetable) && Since(old(Now(m, v)), Now(m, v')) && Unseen(old(Now(m, v)), Now(m, v'))
    ensures |dst| <= len && Loaded(old(Now(m, v)), srcva, dst) && (ok ==> |dst| == len)
    ensures ok ==> AllUsable(old(Now(m, v)), srcva, len, sz, false)
    ensures Resident(old(Now(m, v)), srcva, len) ==> ok
    ensures AllUsable(old(Now(m, v)), srcva, len, sz, false) && |old(m.freelist)| >= 3 * len ==> ok
    ensures panics ==> !ok && Overreaches(old(Now(m, v)), srcva, len, sz)
    ensures Overreaches(old(Now(m, v)), srcva, len, sz) &&
            (Resident(old(Now(m, v)), srcva, Room(srcva)) || |old(m.freelist)| >= 3 * Room(srcva))
            ==> panics
  {
    hide *;
    v', dst, panics := v, [], false;
    ghost var s := Now(m, v);
    SaneParts(m, v, pagetable);
    NoneLoaded(s, srcva);
    AlikeLeaf(s, s, sz);
    UsableNone(s, srcva, sz, false);
    ok := true;
    while ok && |dst| < len
      invariant |dst| <= len && Sane(m, v', pagetable) && Since(s, Now(m, v')) && Unseen(s, Now(m, v')) &&
                Loaded(s, srcva, dst)
      invariant Alike(s, Now(m, v'), sz)
      invariant ok ==> AllUsable(s, srcva, |dst|, sz, false) && |old(m.freelist)| <= |m.freelist| + 3 * |dst|
      invariant Readable(s, srcva, len, sz, |old(m.freelist)|) ==> ok
      invariant panics ==> !ok && Overreaches(s, srcva, len, sz)
      invariant Readable(s, srcva, Room(srcva), sz, |old(m.freelist)|) && Overreaches(s, srcva, len, sz) ==>
                  ok || panics
      decreases ok, len - |dst|
    {
      var chunk;
      NextReadable(s, srcva, |dst|, len, sz, |old(m.freelist)|, |m.freelist|);
      NextReadable(s, srcva, |dst|, Room(srcva), sz, |old(m.freelist)|, |m.freelist|);
      AtTheTop(s, srcva, |dst|, len, sz);
      ok, chunk, panics, v' := CopyinStep(m, v', pagetable, sz, srcva, |dst|, len, s);
      if ok {
        LoadedMore(s, srcva, dst, chunk);
        dst := dst + chunk;
      }
    }
    ReadableIs(s, srcva, len, sz, |old(m.freelist)|);
    ReadableIs(s, srcva, Room(srcva), sz, |old(m.freelist)|);
    NotThrough(s, srcva, len, sz);
  }

  lemma ReadableIs(s: Space, a: nat, n: nat, sz: nat, pages: nat)
    ensures Resident(s, a, n) || (AllUsable(s, a, n, sz, false) && pages >= 3 * n) ==> Readable(s, a, n, sz, pages)
  {
  }

  lemma NotThrough(s: Space, a: nat, len: nat, sz: nat)
    ensures AllUsable(s, a, len, sz, false) ==> !Overreaches(s, a, len, sz)
    ensures Overreaches(s, a, len, sz) ==> AllUsable(s, a, Room(a), sz, false)
  {
    BelowMax(a + Room(a));
    assert AllUsable(s, a, len, sz, false) && Room(a) < len ==> UsableAt(s, a + Room(a), sz, false);
    hide PageOf;
  }

  /** How far it is from `a` to MAXVA. */
  function Room(a: nat): (n: nat) { if a < MAXVA then MAXVA - a else 0 }

  /** The process could read all that is below MAXVA, and its size and the range go on. */
  ghost predicate Overreaches(s: Space, a: nat, len: nat, sz: nat) {
    Room(a) < len && AllUsable(s, a, Room(a), sz, false) && Beyond(a + Room(a), sz)
  }

  /** The process could read `n` bytes, and there is memory for the pages that are missing. */
  ghost predicate Readable(s: Space, a: nat, n: nat, sz: nat, pages: nat) {
    Resident(s, a, n) || (AllUsable(s, a, n, sz, false) && pages >= 3 * n)
  }

  lemma NextReadable(s: Space, a: nat, done: nat, n: nat, sz: nat, pages: nat, left: nat)
    requires Readable(s, a, n, sz, pages) ==> pages <= left + 3 * done
    ensures Readable(s, a, n, sz, pages) && done < n ==>
              Reachable(s, a + done) || (UsableAt(s, a + done, sz, false) && left >= 3)
  {
    hide Reachable, UsableAt;
  }

  /** What was read is below MAXVA, and the next address is too unless all of that was read. */
  lemma AtTheTop(s: Space, a: nat, done: nat, len: nat, sz: nat)
    requires AllUsable(s, a, done, sz, false) && done < len
    ensures done <= Room(a)
    ensures Beyond(a + done, sz) ==> done == Room(a) && Overreaches(s, a, len, sz)
    ensures done == Room(a) && Overreaches(s, a, len, sz) ==> Beyond(a + done, sz)
  {
    BelowMax(a + done);
    if done > 0 {
      BelowMax(a + done - 1);
      assert UsableAt(s, a + done - 1, sz, false);
    }
    hide PageOf;
  }

  lemma NoneLoaded(s: Space, a: nat)
    requires Owned(s)
    ensures Loaded(s, a, [])
  {
  }

  lemma LoadedMore(s: Space, a: nat, dst: seq<Byte>, chunk: seq<Byte>)
    requires Loaded(s, a, dst) && Loaded(s, a + |dst|, chunk)
    ensures Loaded(s, a, dst + chunk) && |dst + chunk| == |dst| + |chunk|
  {
    forall i | 0 <= i < |dst + chunk| ensures (dst + chunk)[i] == ByteAt(s, a + i) {
      assert i >= |dst| ==> chunk[i - |dst|] == ByteAt(s, a + |dst| + (i - |dst|));
    }
  }

  /** copyin() of what copyout() has put there succeeds and returns it, however the range is
      split into pages. */
  method RoundTrip(m: PhysMem, ghost v: Pt, pagetable: nat, sz: nat, va: nat, src: seq<Byte>)
    returns (ok: bool, dst: seq<Byte>, ghost v': Pt)
    requires Sane(m, v, pagetable)
    modifies m
    ensures Sane(m, v', pagetable)
    ensures ok ==> dst == src && Stored(old(Now(m, v)), Now(m, v'), va, src, 0, |src|)
    ensures AllUsable(old(Now(m, v)), va, |src|, sz, true) && |old(m.freelist)| >= 3 * |src| ==> ok
  {
    hide *;
    ghost var n;
    ok, v', n := Copyout(m, v, pagetable, sz, va, src);
    if !ok {
      return ok, [], v';
    }
    ghost var s1 := Now(m, v');
    var panics;
    ok, dst, panics, v' := Copyin(m, v', pagetable, sz, va, |src|);
    assert ok;
    ReadBack(old(Now(m, v)), s1, Now(m, v'), va, src, dst);
  }

  lemma ReadBack(s: Space, s1: Space, s2: Space, a: nat, src: seq<Byte>, dst: seq<Byte>)
    requires Stored(s, s1, a, src, 0, |src|) && Loaded(s1, a, dst) && |dst| == |src| && Unseen(s1, s2)
    ensures dst == src && Stored(s, s2, a, src, 0, |src|)
  {
    forall i | 0 <= i < |src| ensures dst[i] == src[i] {
      assert ByteAt(s1, a + i) == src[i];
    }
  }
}
