/** The Kernighan & Ritchie allocator of user/umalloc.c. Addresses are in units of
    sizeof(Header); 0 is the null pointer. */
module Malloc {
  import opened RiscV
  import opened Wrappers

  /** The address of the static header `base`, which is below the heap. */
  const BASE: nat := 1

  /** The headers in memory; the free list from `base` on; the blocks handed out by malloc();
      and for each unit obtained from sbrk() the block that it is in. */
  datatype Heap = Heap(size: map<nat, nat>, ptr: map<nat, nat>, ring: seq<nat>, live: map<nat, nat>, tag: map<nat, nat>)

  ghost predicate Sorted(ring: seq<nat>) { forall i, j :: 0 <= i < j < |ring| ==> ring[i] < ring[j] }

  /** The free list is circular and in the order of addresses. */
  ghost predicate Linked(ring: seq<nat>, ptr: map<nat, nat>) {
    && |ring| > 0 && ring[0] == BASE && Sorted(ring)
    && (forall i: nat :: i < |ring| ==> LinkOk(ring, ptr, i))
  }

  ghost predicate LinkOk(ring: seq<nat>, ptr: map<nat, nat>, i: nat)
    requires i < |ring|
  {
    ring[i] in ptr && ptr[ring[i]] == ring[if i + 1 < |ring| then i + 1 else 0]
  }

  ghost predicate IsBlock(h: Heap, a: nat) { (a in h.ring && a != BASE) || a in h.live }

  ghost predicate UnitOk(h: Heap, u: nat) {
    u in h.tag ==> u > BASE && IsBlock(h, h.tag[u]) && h.tag[u] in h.size && h.tag[u] <= u < h.tag[u] + h.size[h.tag[u]]
  }

  ghost predicate Covers(h: Heap, a: nat, u: nat) {
    IsBlock(h, a) && a in h.size && a <= u < a + h.size[a] ==> u in h.tag && h.tag[u] == a
  }

  ghost predicate BlockOk(h: Heap, a: nat) {
    && (IsBlock(h, a) ==> a in h.size && h.size[a] > 0 && a > BASE)
    && (a in h.live ==> a !in h.ring && a in h.size && h.size[a] == h.live[a])
  }

  /** Every unit obtained from sbrk() is in exactly one block, free or live. */
  ghost predicate Inv(h: Heap) {
    && Linked(h.ring, h.ptr) && BASE in h.size && h.size[BASE] == 0
    && (forall u: nat :: UnitOk(h, u))
    && (forall a: nat :: BlockOk(h, a))
    && (forall a: nat, u: nat :: Covers(h, a, u))
  }

  /** The free block at `i` ends before the next one starts. */
  ghost predicate Apart(h: Heap, i: nat) {
    i + 1 < |h.ring| && h.ring[i] in h.size ==> h.ring[i] + h.size[h.ring[i]] != h.ring[i + 1]
  }

  /** No two free blocks are adjacent, but possibly the ones at `x` and `y` and their successors. */
  ghost predicate CoalescedBut(h: Heap, x: int, y: int) {
    forall i: nat :: i != x && i != y ==> Apart(h, i)
  }

  ghost predicate Coalesced(h: Heap) { forall i: nat :: Apart(h, i) }

  /** Free blocks do not overlap. */
  lemma InOrder(h: Heap, i: nat)
    requires Inv(h) && i + 1 < |h.ring|
    ensures h.ring[i] in h.size && h.ring[i] + h.size[h.ring[i]] <= h.ring[i + 1]
  {
    var a, b := h.ring[i], h.ring[i + 1];
    assert i > 0 ==> a != BASE by { assert h.ring[0] < h.ring[i + 1]; assert i > 0 ==> h.ring[0] < h.ring[i]; }
    assert BlockOk(h, a) && BlockOk(h, b) && b in h.ring && h.ring[0] < b;
    assert Covers(h, a, b) && Covers(h, b, b);
  }

  function Insert(ring: seq<nat>, t: nat, b: nat): (r: seq<nat>)
    requires t < |ring|
    ensures |r| == |ring| + 1
    ensures forall i :: 0 <= i < |r| ==> r[i] == if i <= t then ring[i] else if i == t + 1 then b else ring[i - 1]
  {
    ring[..t + 1] + [b] + ring[t + 1..]
  }

  function Remove(ring: seq<nat>, j: nat): (r: seq<nat>)
    requires j < |ring|
    ensures |r| == |ring| - 1
    ensures forall i :: 0 <= i < |r| ==> r[i] == if i < j then ring[i] else ring[i + 1]
  {
    ring[..j] + ring[j + 1..]
  }

  lemma InsertMembers(ring: seq<nat>, t: nat, b: nat, a: nat)
    requires t < |ring|
    ensures a in Insert(ring, t, b) <==> a in ring || a == b
  {
    var r := Insert(ring, t, b);
    if a in ring {
      var i :| 0 <= i < |ring| && ring[i] == a;
      assert r[if i <= t then i else i + 1] == a;
    }
    assert r[t + 1] == b;
  }

  lemma RemoveMembers(ring: seq<nat>, j: nat, a: nat)
    requires j < |ring| && Sorted(ring)
    ensures a in Remove(ring, j) <==> a in ring && a != ring[j]
  {
    var r := Remove(ring, j);
    if a in ring && a != ring[j] {
      var i :| 0 <= i < |ring| && ring[i] == a;
      assert r[if i < j then i else i - 1] == a;
    }
  }

  /** Put a live block on the list, after the free block at `t`. */
  ghost function Freed(h: Heap, t: nat, b: nat): (h': Heap)
    requires t < |h.ring| && h.ring[t] in h.ptr
  {
    h.(ptr := h.ptr[b := h.ptr[h.ring[t]]][h.ring[t] := b], ring := Insert(h.ring, t, b), live := h.live - {b})
  }

  /** The place for `b` on the list. */
  ghost predicate Place(h: Heap, t: nat, b: nat) {
    t < |h.ring| && h.ring[t] < b && (t + 1 < |h.ring| ==> b < h.ring[t + 1])
  }

  lemma FreedKeepsInv(h: Heap, t: nat, b: nat)
    requires Inv(h) && b in h.live && Place(h, t, b)
    ensures LinkOk(h.ring, h.ptr, t) && Inv(Freed(h, t, b))
  {
    assert BlockOk(h, b);
    FreedLinked(h, t, b);
    var h' := Freed(h, t, b);
    forall a: nat ensures IsBlock(h', a) <==> IsBlock(h, a) {
      InsertMembers(h.ring, t, b, a);
    }
    forall a: nat ensures BlockOk(h', a) {
      InsertMembers(h.ring, t, b, a);
      assert BlockOk(h, a);
    }
    hide Linked;
    forall u: nat ensures UnitOk(h', u) {
      assert UnitOk(h, u);
    }
    forall a: nat, u: nat ensures Covers(h', a, u) {
      assert Covers(h, a, u);
    }
  }

  lemma FreedLinked(h: Heap, t: nat, b: nat)
    requires Linked(h.ring, h.ptr) && b !in h.ring && Place(h, t, b)
    ensures LinkOk(h.ring, h.ptr, t) && Linked(Freed(h, t, b).ring, Freed(h, t, b).ptr)
  {
    assert LinkOk(h.ring, h.ptr, t);
    var h' := Freed(h, t, b);
    InsertSorted(h.ring, t, b);
    hide Sorted, Freed, LinkOk, Insert;
    forall i: nat | i < |h'.ring| ensures LinkOk(h'.ring, h'.ptr, i) {
      FreedLink(h, t, b, i);
    }
    FreedShape(h, t, b);
  }

  lemma FreedShape(h: Heap, t: nat, b: nat)
    requires t < |h.ring| && h.ring[t] in h.ptr
    ensures Freed(h, t, b).ring == Insert(h.ring, t, b) && h.ring[0] == Freed(h, t, b).ring[0]
  {
  }

  lemma InsertSorted(ring: seq<nat>, t: nat, b: nat)
    requires Sorted(ring) && t < |ring| && ring[t] < b && (t + 1 < |ring| ==> b < ring[t + 1])
    ensures Sorted(Insert(ring, t, b))
  {
    var r := Insert(ring, t, b);
    forall i, j | 0 <= i < j < |r| ensures r[i] < r[j] {
      assert i < t ==> ring[i] < ring[t];
      assert j > t + 2 ==> ring[t + 1] < ring[j - 1];
    }
  }

  lemma FreedLink(h: Heap, t: nat, b: nat, i: nat)
    requires Linked(h.ring, h.ptr) && b !in h.ring && Place(h, t, b) && h.ring[t] in h.ptr && i < |h.ring| + 1
    ensures |Freed(h, t, b).ring| == |h.ring| + 1 && LinkOk(Freed(h, t, b).ring, Freed(h, t, b).ptr, i)
  {
    hide Linked, Freed, Place, LinkOk;
    FreedLength(h, t, b);
    if i < t {
      FreedBefore(h, t, b, i);
    } else if i > t + 1 {
      FreedAfter(h, t, b, i);
    } else {
      FreedHere(h, t, b, i);
    }
  }

  lemma FreedLength(h: Heap, t: nat, b: nat)
    requires Place(h, t, b) && h.ring[t] in h.ptr
    ensures |Freed(h, t, b).ring| == |h.ring| + 1
  {
  }

  lemma FreedBefore(h: Heap, t: nat, b: nat, i: nat)
    requires Linked(h.ring, h.ptr) && b !in h.ring && Place(h, t, b) && h.ring[t] in h.ptr && i < t
    ensures LinkOk(Freed(h, t, b).ring, Freed(h, t, b).ptr, i)
  {
    assert LinkOk(h.ring, h.ptr, i) && h.ring[i] < h.ring[t] && h.ring[i] in h.ring;
  }

  lemma FreedAfter(h: Heap, t: nat, b: nat, i: nat)
    requires Linked(h.ring, h.ptr) && b !in h.ring && Place(h, t, b) && h.ring[t] in h.ptr && t + 1 < i <= |h.ring|
    ensures LinkOk(Freed(h, t, b).ring, Freed(h, t, b).ptr, i)
  {
    assert LinkOk(h.ring, h.ptr, i - 1) && h.ring[t] < h.ring[i - 1] && h.ring[i - 1] in h.ring;
  }

  lemma FreedHere(h: Heap, t: nat, b: nat, i: nat)
    requires Linked(h.ring, h.ptr) && b !in h.ring && Place(h, t, b) && h.ring[t] in h.ptr && t <= i <= t + 1
    ensures LinkOk(Freed(h, t, b).ring, Freed(h, t, b).ptr, i)
  {
    assert LinkOk(h.ring, h.ptr, t);
    hide Linked;
  }

  lemma FreedCoalesced(h: Heap, t: nat, b: nat)
    requires Inv(h) && Coalesced(h) && t < |h.ring|
    ensures LinkOk(h.ring, h.ptr, t) && CoalescedBut(Freed(h, t, b), t, t + 1)
  {
    assert LinkOk(h.ring, h.ptr, t);
    var h' := Freed(h, t, b);
    forall i: nat | i != t && i != t + 1 ensures Apart(h', i) {
      assert Apart(h, if i < t then i else i - 1);
    }
  }

  /** Join the free block at `i` with its successor, which starts where it ends. */
  ghost function Merged(h: Heap, i: nat): (h': Heap)
    requires i + 1 < |h.ring| && h.ring[i] in h.size && h.ring[i + 1] in h.size && h.ring[i + 1] in h.ptr
  {
    var a, b := h.ring[i], h.ring[i + 1];
    h.(size := h.size[a := h.size[a] + h.size[b]], ptr := h.ptr[a := h.ptr[b]], ring := Remove(h.ring, i + 1),
       tag := map u | u in h.tag :: if h.tag[u] == b then a else h.tag[u])
  }

  lemma MergedLinked(h: Heap, i: nat)
    requires Linked(h.ring, h.ptr) && i + 1 < |h.ring| && h.ring[i] in h.size && h.ring[i + 1] in h.size
    ensures LinkOk(h.ring, h.ptr, i + 1) && Linked(Merged(h, i).ring, Merged(h, i).ptr)
  {
    assert LinkOk(h.ring, h.ptr, i + 1);
    var h' := Merged(h, i);
    RemoveSorted(h.ring, i + 1);
    forall k: nat | k < |h'.ring| ensures LinkOk(h'.ring, h'.ptr, k) {
      MergedLink(h, i, k);
    }
  }

  lemma RemoveSorted(ring: seq<nat>, j: nat)
    requires Sorted(ring) && j < |ring|
    ensures Sorted(Remove(ring, j))
  {
  }

  lemma MergedLink(h: Heap, i: nat, k: nat)
    requires Linked(h.ring, h.ptr) && i + 1 < |h.ring| && h.ring[i] in h.size && h.ring[i + 1] in h.size &&
             h.ring[i + 1] in h.ptr && k + 1 < |h.ring|
    ensures |Merged(h, i).ring| == |h.ring| - 1 && LinkOk(Merged(h, i).ring, Merged(h, i).ptr, k)
  {
    assert LinkOk(h.ring, h.ptr, i + 1) && LinkOk(h.ring, h.ptr, if k <= i then k else k + 1);
    assert h.ring[if k <= i then k else k + 1] == h.ring[i] ==> k == i;
  }

  lemma MergedKeepsInv(h: Heap, i: nat)
    requires Inv(h) && i + 1 < |h.ring| && h.ring[i] in h.size && h.ring[i + 1] in h.size &&
             h.ring[i] + h.size[h.ring[i]] == h.ring[i + 1]
    ensures LinkOk(h.ring, h.ptr, i + 1) && Inv(Merged(h, i))
  {
    MergedLinked(h, i);
    var h' := Merged(h, i);
    var a, b := h.ring[i], h.ring[i + 1];
    assert a in h.ring && b in h.ring && BlockOk(h, a) && BlockOk(h, b);
    assert a != BASE && b != BASE by { assert h.ring[0] < b; }
    forall c: nat ensures IsBlock(h', c) <==> IsBlock(h, c) && c != b {
      RemoveMembers(h.ring, i + 1, c);
    }
    forall c: nat ensures BlockOk(h', c) {
      RemoveMembers(h.ring, i + 1, c);
      assert BlockOk(h, c);
    }
    hide Linked;
    forall u: nat ensures UnitOk(h', u) {
      assert UnitOk(h, u);
    }
    forall c: nat, u: nat ensures Covers(h', c, u) {
      assert Covers(h, c, u) && Covers(h, b, u) && UnitOk(h, u);
    }
  }

  lemma MergedCoalesced(h: Heap, i: nat, x: int)
    requires Inv(h) && i + 1 < |h.ring| && h.ring[i] in h.size && h.ring[i + 1] in h.size &&
             h.ring[i] + h.size[h.ring[i]] == h.ring[i + 1]
    requires CoalescedBut(h, x, i) && x <= i
    ensures LinkOk(h.ring, h.ptr, i + 1) && CoalescedBut(Merged(h, i), x, x)
  {
    assert LinkOk(h.ring, h.ptr, i + 1);
    var h' := Merged(h, i);
    forall k: nat | k != x ensures Apart(h', k) {
      assert Apart(h, if k < i then k else k + 1) || k + 1 == x;
    }
  }

  /** Two blocks that share a unit are the same block, so live blocks never overlap each other or a
      free block; and every unit obtained from sbrk() is in a block. */
  lemma BlocksPartition(h: Heap, a: nat, b: nat, u: nat)
    requires Inv(h)
    ensures IsBlock(h, a) && IsBlock(h, b) ==>
              && a in h.size && b in h.size
              && (a <= u < a + h.size[a] && b <= u < b + h.size[b] ==> a == b && u in h.tag)
    ensures u in h.tag ==> IsBlock(h, h.tag[u]) && h.tag[u] in h.size && h.tag[u] <= u < h.tag[u] + h.size[h.tag[u]]
  {
    assert BlockOk(h, a) && BlockOk(h, b) && Covers(h, a, u) && Covers(h, b, u) && UnitOk(h, u);
  }

  // ---- free() -----------------------------------------------------------------------------------

  ghost predicate Adjacent(h: Heap, i: nat) {
    i + 1 < |h.ring| && h.ring[i] in h.size && h.ring[i + 1] in h.size && h.ring[i + 1] in h.ptr
    && h.ring[i] + h.size[h.ring[i]] == h.ring[i + 1]
  }

  ghost function Tidied(h: Heap, i: nat): (h': Heap) { if Adjacent(h, i) then Merged(h, i) else h }

  /** free() as three steps: put the block on the list, join it with the next one, join the
      previous one with it. */
  ghost function Joined(h: Heap, t: nat, b: nat): (h': Heap)
    requires t < |h.ring| && h.ring[t] in h.ptr
  {
    Tidied(Tidied(Freed(h, t, b), t + 1), t)
  }

  lemma TidiedKeepsInv(h: Heap, i: nat, x: int)
    requires Inv(h) && CoalescedBut(h, x, i) && x <= i
    ensures Inv(Tidied(h, i)) && if x == i then Coalesced(Tidied(h, i)) else CoalescedBut(Tidied(h, i), x, x)
    ensures Tidied(h, i).live == h.live && Tidied(h, i).tag.Keys == h.tag.Keys
    ensures |Tidied(h, i).ring| > i ==> |h.ring| > i && Tidied(h, i).ring[i] == h.ring[i]
    ensures |h.ring| > i ==> |Tidied(h, i).ring| > i
  {
    if Adjacent(h, i) {
      MergedKeepsInv(h, i);
      MergedCoalesced(h, i, x);
      if x == i {
        MergedApart(h, i);
      }
    } else {
      NotAdjacent(h, i);
    }
  }

  lemma MergedApart(h: Heap, i: nat)
    requires Inv(h) && Adjacent(h, i) && CoalescedBut(h, i, i)
    ensures Apart(Merged(h, i), i)
  {
    assert Apart(h, i + 1);
  }

  lemma NotAdjacent(h: Heap, i: nat)
    requires Inv(h) && !Adjacent(h, i)
    ensures Apart(h, i)
  {
    if i + 1 < |h.ring| {
      assert LinkOk(h.ring, h.ptr, i + 1);
      InOrder(h, i);
      assert h.ring[0] < h.ring[i + 1];
      assert h.ring[i + 1] in h.ring && BlockOk(h, h.ring[i + 1]);
    }
  }

  lemma MiddleInv(h: Heap, t: nat, b: nat)
    requires Inv(h) && Coalesced(h) && b in h.live && Place(h, t, b)
    ensures LinkOk(h.ring, h.ptr, t) && Inv(Tidied(Freed(h, t, b), t + 1)) &&
            Joined(h, t, b) == Tidied(Tidied(Freed(h, t, b), t + 1), t)
  {
    FreedKeepsInv(h, t, b);
    FreedCoalesced(h, t, b);
    TidiedKeepsInv(Freed(h, t, b), t + 1, t);
  }

  lemma JoinedKeepsInv(h: Heap, t: nat, b: nat)
    requires Inv(h) && Coalesced(h) && b in h.live && Place(h, t, b)
    ensures LinkOk(h.ring, h.ptr, t)
    ensures var h' := Joined(h, t, b);
            && Inv(h') && Coalesced(h') && h'.live == h.live - {b} && h'.tag.Keys == h.tag.Keys
            && t < |h'.ring| && h'.ring[t] == h.ring[t]
  {
    FreedKeepsInv(h, t, b);
    FreedCoalesced(h, t, b);
    var h1 := Freed(h, t, b);
    TidiedKeepsInv(h1, t + 1, t);
    var h2 := Tidied(h1, t + 1);
    TidiedKeepsInv(h2, t, t);
  }

  // ---- malloc() ---------------------------------------------------------------------------------

  /** Take the whole free block at `j`. */
  ghost function Taken(h: Heap, j: nat): (h': Heap)
    requires 0 < j < |h.ring| && h.ring[j] in h.ptr && h.ring[j] in h.size
  {
    h.(ptr := h.ptr[h.ring[j - 1] := h.ptr[h.ring[j]]], ring := Remove(h.ring, j),
       live := h.live[h.ring[j] := h.size[h.ring[j]]])
  }

  lemma TakenKeepsInv(h: Heap, j: nat)
    requires Inv(h) && Coalesced(h) && 0 < j < |h.ring|
    ensures LinkOk(h.ring, h.ptr, j) && h.ring[j] in h.size && h.ring[j] !in h.live && Inv(Taken(h, j)) &&
            Coalesced(Taken(h, j))
  {
    var a := h.ring[j];
    assert LinkOk(h.ring, h.ptr, j) && h.ring[0] < a && a in h.ring && BlockOk(h, a);
    var h' := Taken(h, j);
    RemoveSorted(h.ring, j);
    forall k: nat | k < |h'.ring| ensures LinkOk(h'.ring, h'.ptr, k) {
      TakenLink(h, j, k);
    }
    forall c: nat ensures IsBlock(h', c) <==> IsBlock(h, c) {
      RemoveMembers(h.ring, j, c);
    }
    forall c: nat ensures BlockOk(h', c) {
      RemoveMembers(h.ring, j, c);
      assert BlockOk(h, c);
    }
    TakenCoalesced(h, j);
    hide Linked, Coalesced;
    forall u: nat ensures UnitOk(h', u) {
      assert UnitOk(h, u);
    }
    forall c: nat, u: nat ensures Covers(h', c, u) {
      assert Covers(h, c, u);
    }
  }

  lemma TakenCoalesced(h: Heap, j: nat)
    requires Inv(h) && Coalesced(h) && 0 < j < |h.ring| && h.ring[j] in h.ptr && h.ring[j] in h.size
    ensures Coalesced(Taken(h, j))
  {
    var h' := Taken(h, j);
    TakenApart(h, j);
    forall k: nat ensures Apart(h', k) {
      assert Apart(h, if k < j then k else k + 1);
    }
  }

  lemma TakenApart(h: Heap, j: nat)
    requires Inv(h) && 0 < j < |h.ring|
    ensures j + 1 < |h.ring| && h.ring[j - 1] in h.size ==> h.ring[j - 1] + h.size[h.ring[j - 1]] != h.ring[j + 1]
  {
    if j + 1 < |h.ring| {
      InOrder(h, j - 1);
      assert h.ring[j] < h.ring[j + 1];
    }
  }

  lemma TakenLink(h: Heap, j: nat, k: nat)
    requires Linked(h.ring, h.ptr) && 0 < j < |h.ring| && h.ring[j] in h.ptr && h.ring[j] in h.size && k + 1 < |h.ring|
    ensures |Taken(h, j).ring| == |h.ring| - 1 && LinkOk(Taken(h, j).ring, Taken(h, j).ptr, k)
  {
    var at := if k < j then k else k + 1;
    assert LinkOk(h.ring, h.ptr, j) && LinkOk(h.ring, h.ptr, at);
    assert h.ring[at] == h.ring[j - 1] ==> at == j - 1;
  }

  /** Take the last `n` units of the free block at `j`. */
  ghost function Split(h: Heap, j: nat, n: nat): (h': Heap)
    requires j < |h.ring| && h.ring[j] in h.size && 0 < n < h.size[h.ring[j]]
  {
    var a := h.ring[j];
    var c := a + (h.size[a] - n);
    h.(size := h.size[a := h.size[a] - n][c := n], live := h.live[c := n],
       tag := map u | u in h.tag :: if h.tag[u] == a && u >= c then c else h.tag[u])
  }

  lemma SplitKeepsInv(h: Heap, j: nat, n: nat)
    requires Inv(h) && Coalesced(h) && j < |h.ring| && h.ring[j] in h.size && 0 < n < h.size[h.ring[j]]
    ensures h.ring[j] + (h.size[h.ring[j]] - n) !in h.live && Inv(Split(h, j, n)) && Coalesced(Split(h, j, n)) &&
            Split(h, j, n).tag.Keys == h.tag.Keys
  {
    var h', a := Split(h, j, n), h.ring[j];
    var c := a + (h.size[a] - n);
    assert a in h.ring && BlockOk(h, a) && a != BASE;
    assert Covers(h, a, c);
    assert !IsBlock(h, c) by { assert Covers(h, c, c) && BlockOk(h, c); }
    assert c != BASE;
    forall x: nat ensures BlockOk(h', x) {
      assert BlockOk(h, x);
    }
    SplitApart(h, j, n);
    hide Linked, Sorted, LinkOk;
    forall u: nat ensures UnitOk(h', u) {
      assert UnitOk(h, u) && Covers(h, a, u);
    }
    forall x: nat, u: nat ensures Covers(h', x, u) {
      assert Covers(h, x, u) && Covers(h, a, u) && UnitOk(h, u);
    }
  }

  lemma SplitApart(h: Heap, j: nat, n: nat)
    requires Inv(h) && Coalesced(h) && j < |h.ring| && h.ring[j] in h.size && 0 < n < h.size[h.ring[j]]
    requires h.ring[j] + (h.size[h.ring[j]] - n) !in h.ring
    ensures Coalesced(Split(h, j, n))
  {
    var h' := Split(h, j, n);
    forall i: nat ensures Apart(h', i) {
      assert Apart(h, i);
      if i == j && i + 1 < |h.ring| {
        InOrder(h, i);
      } else if i < |h.ring| {
        assert h.ring[i] in h.ring;
        assert h.ring[i] == h.ring[j] ==> i == j;
      }
    }
  }

  /** The units from `p` up to `p + n`. */
  ghost function Units(p: nat, n: nat): (s: set<nat>) { set u: nat | p <= u < p + n && Within(u, p, n) }
  ghost predicate Within(u: nat, p: nat, n: nat) { p <= u < p + n }

  /** A block fresh from sbrk(), about to be freed. */
  ghost function Extended(h: Heap, p: nat, n: nat): (h': Heap) {
    h.(size := h.size[p := n], live := h.live[p := n],
       tag := map u | u in h.tag.Keys + Units(p, n) :: if u in Units(p, n) then p else h.tag[u])
  }

  lemma ExtendedKeepsInv(h: Heap, p: nat, n: nat)
    requires Inv(h) && Coalesced(h) && n > 0 && p > BASE && forall u :: u in h.tag ==> u < p
    ensures Inv(Extended(h, p, n)) && Coalesced(Extended(h, p, n)) && p !in h.live &&
            Extended(h, p, n).tag.Keys == h.tag.Keys + Units(p, n)
  {
    var h' := Extended(h, p, n);
    assert !IsBlock(h, p) by { assert BlockOk(h, p) && Covers(h, p, p); }
    forall x: nat ensures BlockOk(h', x) {
      assert BlockOk(h, x);
    }
    forall i: nat ensures Apart(h', i) {
      assert Apart(h, i);
      assert i < |h.ring| ==> h.ring[i] in h.ring;
    }
    hide Linked, Sorted, LinkOk;
    forall u: nat ensures UnitOk(h', u) {
      assert UnitOk(h, u);
    }
    forall x: nat, u: nat ensures Covers(h', x, u) {
      assert Covers(h, x, u) && BlockOk(h, x);
    }
  }

  /** Where the scan of the list is: `p` is at index `j`, `freep` at `jf`, and every block that
      the scan has passed since `freep` is too small. */
  ghost predicate Lap(h: Heap, freep: nat, prevp: nat, p: nat, jf: nat, j: nat, n: nat) {
    && jf < |h.ring| && h.ring[jf] == freep && j < |h.ring| && h.ring[j] == p
    && prevp == h.ring[if j == 0 then |h.ring| - 1 else j - 1]
    && forall k: nat :: k < |h.ring| && Passed(k, jf, j) ==> TooSmall(h, k, n)
  }

  ghost predicate Passed(k: nat, jf: nat, j: nat) { if jf < j then jf < k < j else k > jf || k < j }

  ghost predicate TooSmall(h: Heap, k: nat, n: nat) { k < |h.ring| && h.ring[k] in h.size && h.size[h.ring[k]] < n }

  /** No free block has `n` units. */
  ghost predicate NoneFits(h: Heap, n: nat) { forall k: nat :: k < |h.ring| ==> TooSmall(h, k, n) }

  ghost function Remaining(h: Heap, jf: nat, j: nat): (r: int) { if jf < j then |h.ring| - j + jf else jf - j }

  lemma LapStart(h: Heap, freep: nat, jf: nat, n: nat)
    requires Linked(h.ring, h.ptr) && jf < |h.ring| && h.ring[jf] == freep
    ensures freep in h.ptr && Lap(h, freep, freep, h.ptr[freep], jf, if jf + 1 < |h.ring| then jf + 1 else 0, n)
  {
    assert LinkOk(h.ring, h.ptr, jf);
  }

  lemma LapStep(h: Heap, freep: nat, prevp: nat, p: nat, jf: nat, j: nat, n: nat)
    requires Linked(h.ring, h.ptr) && Lap(h, freep, prevp, p, jf, j, n) && p != freep && p in h.size && h.size[p] < n
    ensures p in h.ptr
    ensures var j' := if j + 1 < |h.ring| then j + 1 else 0;
            Lap(h, freep, p, h.ptr[p], jf, j', n) && 0 <= Remaining(h, jf, j') < Remaining(h, jf, j)
  {
    assert LinkOk(h.ring, h.ptr, j);
    var j' := if j + 1 < |h.ring| then j + 1 else 0;
    forall k: nat | k < |h.ring| && Passed(k, jf, j') ensures TooSmall(h, k, n) {
      assert k == j || Passed(k, jf, j);
    }
  }

  lemma LapEnd(h: Heap, freep: nat, prevp: nat, jf: nat, j: nat, n: nat)
    requires Linked(h.ring, h.ptr) && Lap(h, freep, prevp, freep, jf, j, n) && freep in h.size && h.size[freep] < n
    ensures NoneFits(h, n)
  {
    assert j == jf;
    forall k: nat | k < |h.ring| ensures TooSmall(h, k, n) {
      assert k == j || Passed(k, jf, j);
    }
  }

  /** Some free block has `n` units. */
  ghost predicate Room(h: Heap, n: nat) { exists k: nat :: k < |h.ring| && Big(h, k, n) }
  ghost predicate Big(h: Heap, k: nat, n: nat) { k < |h.ring| && h.ring[k] in h.size && h.size[h.ring[k]] >= n }

  /** The first `if` of free() does what joining with the next block does. */
  lemma UpperStep(h: Heap, t: nat, b: nat)
    requires Inv(h) && b in h.live && Place(h, t, b)
    ensures LinkOk(h.ring, h.ptr, t) && b in h.size && h.ring[t] != b
    ensures var nx := h.ptr[h.ring[t]];
            var h2 := Tidied(Freed(h, t, b), t + 1);
            var up := b + h.size[b] == nx;
            && (up ==> nx in h.size && nx in h.ptr)
            && h2.size == (if up then h.size[b := h.size[b] + h.size[nx]] else h.size)
            && h2.ptr == (if up then h.ptr[b := h.ptr[nx]] else h.ptr[b := nx])[h.ring[t] := b]
            && |h2.ring| > t + 1 && h2.ring[t] == h.ring[t] && h2.ring[t + 1] == b
  {
    assert LinkOk(h.ring, h.ptr, t) && BlockOk(h, b);
    var h1 := Freed(h, t, b);
    var nx := h.ptr[h.ring[t]];
    if t + 1 < |h.ring| {
      assert LinkOk(h.ring, h.ptr, t + 1) && h.ring[t + 1] in h.ring && h.ring[0] < h.ring[t + 1] &&
             BlockOk(h, h.ring[t + 1]);
      UpperThere(h, t, b, nx);
    } else {
      assert nx == BASE && b > BASE;
    }
  }

  lemma UpperThere(h: Heap, t: nat, b: nat, nx: nat)
    requires t + 1 < |h.ring| && h.ring[t + 1] == nx && h.ring[t] in h.ptr && h.ptr[h.ring[t]] == nx && nx in h.size &&
             nx in h.ptr
    requires b in h.size && h.ring[t] < b < nx
    ensures var h2 := Tidied(Freed(h, t, b), t + 1);
            var up := b + h.size[b] == nx;
            && h2.size == (if up then h.size[b := h.size[b] + h.size[nx]] else h.size)
            && h2.ptr == (if up then h.ptr[b := h.ptr[nx]] else h.ptr[b := nx])[h.ring[t] := b]
            && |h2.ring| > t + 1 && h2.ring[t] == h.ring[t] && h2.ring[t + 1] == b
  {
    var h1 := Freed(h, t, b);
    assert h1.ring[t + 1] == b && h1.ring[t + 2] == nx;
  }

  /** The second one does what joining the previous block does. */
  lemma LowerStep(h2: Heap, t: nat, b: nat, ptr: map<nat, nat>, n: nat)
    requires Inv(h2) && t + 1 < |h2.ring| && h2.ring[t + 1] == b && b in ptr && h2.ptr == ptr[h2.ring[t] := b]
    ensures var p := h2.ring[t];
            && p in h2.size && b in h2.size
            && var low := p + h2.size[p] == b;
            && Tidied(h2, t).size == (if low then h2.size[p := h2.size[p] + h2.size[b]] else h2.size)
            && Tidied(h2, t).ptr == (if low then ptr[p := ptr[b]] else ptr[p := b])
            && (h2.size[b] >= n ==> Room(Tidied(h2, t), n))
  {
    InOrder(h2, t);
    assert h2.ring[0] < b && b in h2.ring && BlockOk(h2, b) && LinkOk(h2.ring, h2.ptr, t + 1);
    if h2.size[b] >= n {
      assert Big(Tidied(h2, t), if Adjacent(h2, t) then t else t + 1, n);
    }
  }

  class Allocator {
    var brk: nat                  // the program break, in bytes
    var size: map<nat, nat>       // s.size of every header
    var ptr: map<nat, nat>        // s.ptr of every header
    var freep: nat

    ghost var ring: seq<nat>
    ghost var live: map<nat, nat>
    ghost var tag: map<nat, nat>

    ghost function Now(): (h: Heap)
      reads this
      ensures h.size == size && h.ptr == ptr && h.ring == ring && h.live == live && h.tag == tag
    {
      Heap(size, ptr, ring, live, tag)
    }

    /** Before the first call nothing is set up; afterwards the list is in order and coalesced. */
    ghost predicate Valid()
      reads this
    {
      if freep == 0 then live == map[] && tag == map[]
      else Inv(Now()) && Coalesced(Now()) && freep in ring
    }

    /** All that the allocator has is memory of the process. */
    ghost predicate InMemory()
      reads this
    {
      Below(tag.Keys, brk)
    }

    /** The loop of free(): the place on the list for a block. */
    method FindPlace(bp: nat) returns (p: nat, ghost t: nat)
      requires Linked(ring, ptr) && freep in ring && bp > BASE && bp !in ring
      ensures Place(Now(), t, bp) && ring[t] == p
    {
      ghost var goal := Goal(ring, bp);
      p := freep;
      t :| 0 <= t < |ring| && ring[t] == freep;
      assert LinkOk(ring, ptr, t);
      while !(bp > p && bp < ptr[p])
        invariant t < |ring| && ring[t] == p && LinkOk(ring, ptr, t)
        decreases if t <= goal then goal - t else goal - t + |ring|
      {
        if p >= ptr[p] && (bp > p || bp < ptr[p]) {
          break;
        }
        NotYet(ring, ptr, bp, t, goal);
        p := ptr[p];
        t := if t + 1 < |ring| then t + 1 else 0;
        assert LinkOk(ring, ptr, t);
      }
    }

    /** free.c's first `if`: join the block with the free block after it, or link it to that. */
    method JoinNext(p: nat, bp: nat)
      requires p in ptr && bp in size && (bp + size[bp] == ptr[p] ==> ptr[p] in size && ptr[p] in ptr)
      modifies this`size, this`ptr
      ensures var up := bp + old(size)[bp] == old(ptr)[p];
              && size == (if up then old(size)[bp := old(size)[bp] + old(size)[old(ptr)[p]]] else old(size))
              && ptr == if up then old(ptr)[bp := old(ptr)[old(ptr)[p]]] else old(ptr)[bp := old(ptr)[p]]
    {
      if bp + size[bp] == ptr[p] {
        size := size[bp := size[bp] + size[ptr[p]]];
        ptr := ptr[bp := ptr[ptr[p]]];
      } else {
        ptr := ptr[bp := ptr[p]];
      }
    }

    /** ... and the second one: join the free block before it with it, or link that to it. */
    method JoinPrevious(p: nat, bp: nat)
      requires p in size && bp in size && bp in ptr
      modifies this`size, this`ptr
      ensures var low := p + old(size)[p] == bp;
              && size == (if low then old(size)[p := old(size)[p] + old(size)[bp]] else old(size))
              && ptr == if low then old(ptr)[p := old(ptr)[bp]] else old(ptr)[p := bp]
    {
      if p + size[p] == bp {
        size := size[p := size[p] + size[bp]];
        ptr := ptr[p := ptr[bp]];
      } else {
        ptr := ptr[p := bp];
      }
    }

    /** free(): the block is no longer live; its units are free, joined with free neighbours on
        both sides; no other block changes hands. */
    method Free(ap: nat)
      requires Valid() && freep != 0 && ap > 0 && ap - 1 in live
      modifies this
      ensures Valid() && freep != 0 && live == old(live) - {ap - 1} && tag.Keys == old(tag).Keys
      ensures Room(Now(), old(live)[ap - 1]) && brk == old(brk)
    {
      hide *;
      var bp := ap - 1;
      ghost var h := Now();
      CanFree(this, bp);
      var p, t := FindPlace(bp);
      ghost var n := h.live[bp];
      JoinedKeepsInv(h, t, bp);
      UpperStep(h, t, bp);
      MiddleInv(h, t, bp);
      ghost var h2, h' := Tidied(Freed(h, t, bp), t + 1), Joined(h, t, bp);
      JoinNext(p, bp);
      LowerStep(h2, t, bp, ptr, n);
      JoinPrevious(p, bp);
      ring, live, tag := h'.ring, h'.live, h'.tag;
      freep := p;
      StillValid(this, h', p, t);
    }

    /** sbrk(): growproc() with an int. `room` says whether there is memory. The break rises by exactly
        `n` or not at all, and never passes MAXVA; it falls exactly for a negative `n` that does not reach
        below 0. That one wraps around, and then uvmdealloc() does nothing. */
    method Sbrk(n: int, room: bool) returns (r: Option<nat>)
      requires -INT_SIZE <= n < INT_SIZE && brk < WRAP
      modifies this`brk
      ensures r.Some? ==> r.value == old(brk)
      ensures n > 0 ==> brk == if r.Some? then old(brk) + n else old(brk)
      ensures n > 0 ==> (r.Some? <==> room && old(brk) + n <= MAXVA)
      ensures n <= 0 ==> r.Some? && brk == if old(brk) + n < 0 then old(brk) else old(brk) + n
    {
      var addr := brk;
      if n > 0 {
        if !room || brk + n > MAXVA {
          return None;
        }
        brk := brk + n;
      } else if n < 0 {
        var newsz := (brk + n) % WRAP;
        if newsz < brk {
          brk := newsz;
        }
      }
      r := Some(addr);
    }

    /** morecore(): the memory that sbrk() returns, at least 4096 units of it, is free. It is memory of
        the process if and only if its size in bytes fits in the int that sbrk() takes. */
    method Morecore(n: nat, room: bool) returns (r: nat)
      requires Valid() && freep != 0 && n > 0 && InMemory()
      modifies this
      ensures Valid() && freep != 0 && live == old(live)
      ensures r == 0 <==> NoMemory(old(brk), ToInt(16 * Fetch(n)), room)
      ensures r == 0 ==> Now() == old(Now()) && freep == old(freep) && InMemory()
      ensures r != 0 ==> r == freep && tag.Keys == old(tag).Keys + Units(old(brk) / 16, Fetch(n)) && Room(Now(), n)
      ensures r != 0 ==> (InMemory() <==> 16 * Fetch(n) < INT_SIZE)
    {
      var nu := n;
      if nu < 4096 {
        nu := 4096;
      }
      assert nu == Fetch(n);
      hide *;
      InMemoryIs(this);
      ghost var units := tag.Keys;
      Obtained(this);
      var p := Sbrk(ToInt(16 * nu), room);
      if p.None? {
        InMemoryIs(this);
        return 0;
      }
      NotAbove(old(brk), ToInt(16 * nu), room);
      r := AddCore(p.value / 16, nu, n);
      StillBelow(units, old(brk), nu, brk);
      InMemoryIs(this);
    }

    /** ... put on the list. */
    method AddCore(hp: nat, nu: nat, ghost n: nat) returns (r: nat)
      requires Valid() && freep != 0 && n <= nu && nu > 0 && hp > BASE && forall u :: u in tag ==> u < hp
      modifies this
      ensures Valid() && r == freep != 0 && live == old(live) && brk == old(brk)
      ensures tag.Keys == old(tag).Keys + Units(hp, nu) && Room(Now(), n)
    {
      ghost var h := Now();
      ExtendedKeepsInv(h, hp, nu);
      size := size[hp := nu];
      ghost var h' := Extended(h, hp, nu);
      live, tag := h'.live, h'.tag;
      Free(hp + 1);
      assert h.live[hp := nu] - {hp} == h.live;
      RoomLess(Now(), nu, n);
      r := freep;
    }

    /** The inner `if` of malloc(): unlink an exact fit, or cut off the tail of a larger block. */
    method Take(prevp: nat, p: nat, n: nat, ghost jf: nat, ghost j: nat) returns (r: nat)
      requires Valid() && freep != 0 && n > 0 && Lap(Now(), freep, prevp, p, jf, j, n) && p in size && size[p] >= n
      modifies this
      ensures Valid() && freep != 0 && r > 0 && r - 1 !in old(live) && live == old(live)[r - 1 := n] &&
              tag.Keys == old(tag).Keys
      ensures brk == old(brk)
    {
      hide *;
      ghost var h := Now();
      CanTake(this, prevp, p, jf, j, n);
      if size[p] == n {
        TakenKeepsInv(h, j);
        ghost var h' := Taken(h, j);
        TakenShape(h, j);
        ptr := ptr[prevp := ptr[p]];
        ring, live := h'.ring, h'.live;
        freep := prevp;
        StillValid(this, h', prevp, j - 1);
        r := p + 1;
      } else {
        SplitKeepsInv(h, j, n);
        ghost var h' := Split(h, j, n);
        SplitShape(h, j, n);
        size := size[p := size[p] - n];
        var q := p + size[p];
        size := size[q := n];
        live, tag := h'.live, h'.tag;
        freep := prevp;
        StillValid(this, h', prevp, j - 1);
        r := q + 1;
      }
    }

    /** malloc(): a block of its own with room for `nbytes`, or null when no free block fits and
        sbrk() fails too. sbrk() is called at most once, and only when no free block fits; `room` says
        whether it finds memory. The blocks are memory of the process as long as the request is below
        2 GB less two units, and not if a larger one makes sbrk() "succeed". */
    method Malloc(nbytes: nat, room: bool) returns (r: nat, ghost calls: nat)
      requires Valid() && InMemory() && nbytes < 0x1_0000_0000
      modifies this
      ensures Valid() && freep != 0 && calls <= 1
      ensures if r == 0 then calls == 1 && live == old(live)
              else r - 1 !in old(live) && live == old(live)[r - 1 := Nunits(nbytes)]
      ensures calls == 1 ==> (r == 0 <==> NoMemory(old(brk), ToInt(16 * Fetch(Nunits(nbytes))), room))
      ensures tag.Keys == old(tag).Keys + if calls == 1 && r != 0 then Units(old(brk) / 16, Fetch(Nunits(nbytes)))
                                          else {}
      ensures calls == 1 && old(freep) != 0 ==> NoneFits(old(Now()), Nunits(nbytes))
      ensures InMemory() <==> calls == 0 || r == 0 || nbytes <= LARGEST
    {
      var n := Nunits(nbytes);
      LargestFits(nbytes);
      if freep == 0 {
        freep := BASE;
        ptr, size := ptr[BASE := BASE], size[BASE := 0];
        ring := [BASE];
        EmptyInv(Now());
      }
      hide *;
      InMemoryIs(this);
      r, calls := Search(n, room);
    }

    /** The loop of malloc(). */
    method Search(n: nat, room: bool) returns (r: nat, ghost calls: nat)
      requires Valid() && freep != 0 && n > 0 && InMemory()
      modifies this
      ensures Valid() && freep != 0 && calls <= 1
      ensures r == 0 ==> calls == 1 && live == old(live)
      ensures r != 0 ==> r - 1 !in old(live) && live == old(live)[r - 1 := n]
      ensures calls == 1 ==> (r == 0 <==> NoMemory(old(brk), ToInt(16 * Fetch(n)), room))
      ensures tag.Keys == old(tag).Keys + if calls == 1 && r != 0 then Units(old(brk) / 16, Fetch(n)) else {}
      ensures calls == 1 ==> NoneFits(old(Now()), n)
      ensures InMemory() <==> calls == 0 || r == 0 || 16 * Fetch(n) < INT_SIZE
    {
      calls := 0;
      var prevp := freep;
      ghost var jf: nat, j: nat := Begin(this, n);
      hide *;
      var p := ptr[prevp];
      while true
        invariant Valid() && freep != 0 && calls <= 1 && live == old(live) && Lap(Now(), freep, prevp, p, jf, j, n)
        invariant calls == 0 ==> Now() == old(Now()) && brk == old(brk)
        invariant calls == 1 ==> Room(Now(), n) && NoneFits(old(Now()), n) &&
                                 !NoMemory(old(brk), ToInt(16 * Fetch(n)), room)
        invariant tag.Keys == old(tag).Keys + if calls == 1 then Units(old(brk) / 16, Fetch(n)) else {}
        invariant InMemory() <==> calls == 0 || 16 * Fetch(n) < INT_SIZE
        decreases 1 - calls, Remaining(Now(), jf, j)
      {
        AtBlock(this, prevp, p, jf, j, n);
        if size[p] >= n {
          InMemoryIs(this);
          r := Take(prevp, p, n, jf, j);
          InMemoryIs(this);
          return;
        }
        if p == freep {
          LapOver(this, prevp, jf, j, n);
          if calls == 1 {
            assert false;
          }
          calls := 1;
          p := Morecore(n, room);
          if p == 0 {
            return 0, 1;
          }
          jf, j := Begin(this, n);
        } else {
          LapStep(Now(), freep, prevp, p, jf, j, n);
          j := if j + 1 < |ring| then j + 1 else 0;
        }
        prevp, p := p, ptr[p];
      }
    }
  }

  // ---- sbrk() takes an int ------------------------------------------------------------------------

  const INT_SIZE: int := 0x8000_0000
  const WRAP: nat := 0x1_0000_0000_0000_0000

  /** The largest request whose size in bytes fits. */
  const LARGEST: nat := 0x7FFF_FFE0

  /** What arrives when `x` is passed as an int. */
  function ToInt(x: nat): (n: int)
    ensures -INT_SIZE <= n < INT_SIZE
  {
    var y := x % 0x1_0000_0000;
    if y < INT_SIZE then y else y - 0x1_0000_0000
  }

  predicate NoMemory(brk: nat, n: int, room: bool) { n > 0 && (!room || brk + n > MAXVA) }

  /** The break after growproc(n). */
  function Moved(brk: nat, n: int): (b: nat) { if brk + n < 0 then brk else brk + n }

  /** All units that the allocator has are below the break. */
  ghost predicate Below(units: set<nat>, brk: nat) {
    brk % 16 == 0 && BASE < brk / 16 && brk <= MAXVA && forall u :: u in units ==> u < brk / 16
  }

  lemma InMemoryIs(m: Allocator)
    ensures m.InMemory() <==> Below(m.tag.Keys, m.brk)
  {
  }

  lemma Obtained(m: Allocator)
    requires Below(m.tag.Keys, m.brk)
    ensures m.brk / 16 > BASE && forall u :: u in m.tag ==> u < m.brk / 16
  {
  }

  lemma NotAbove(brk: nat, n: int, room: bool)
    requires !NoMemory(brk, n, room)
    ensures brk <= MAXVA ==> Moved(brk, n) <= MAXVA
  {
  }

  /** The new units are below the break exactly if the size arrived as it was. */
  lemma StillBelow(units: set<nat>, brk: nat, nu: nat, brk': nat)
    requires Below(units, brk) && nu >= 4096 && brk' == Moved(brk, ToInt(16 * nu)) && (brk <= MAXVA ==> brk' <= MAXVA)
    ensures Below(units + Units(brk / 16, nu), brk') <==> 16 * nu < INT_SIZE
  {
    var last := brk / 16 + nu - 1;
    assert Within(last, brk / 16, nu) && last in Units(brk / 16, nu);
    var y := 16 * nu % 0x1_0000_0000;
    assert 16 * nu >= INT_SIZE ==> ToInt(16 * nu) < 16 * nu;
    if 16 * nu < INT_SIZE {
      assert y == 16 * nu && brk' == brk + 16 * nu && brk' / 16 == brk / 16 + nu;
      assert brk' % 16 == 0;
    } else {
      assert brk' < brk + 16 * nu;
      assert brk' / 16 <= last;
    }
  }

  /** In terms of the request. */
  lemma LargestFits(nbytes: nat)
    ensures 16 * Fetch(Nunits(nbytes)) < INT_SIZE <==> nbytes <= LARGEST
  {
    var n := Nunits(nbytes);
    assert 16 * (n - 1) == (nbytes + 15) / 16 * 16;
  }

  /** It does happen: for 0x80000000 bytes sbrk() gets a negative number, for 0xFFFFFFF0 bytes a 0. */
  lemma HugeRequests()
    ensures ToInt(16 * Fetch(Nunits(0x8000_0000))) == -0x7FFF_FFF0
    ensures ToInt(16 * Fetch(Nunits(0xFFFF_FFF0))) == 0
  {
  }

  /** The units of a request: a header and the bytes, rounded up. */
  function Nunits(nbytes: nat): (n: nat)
    ensures n > 0 && nbytes <= (n - 1) * 16 < nbytes + 16
  {
    (nbytes + 16 - 1) / 16 + 1
  }

  lemma EmptyInv(h: Heap)
    requires h.ring == [BASE] && h.live == map[] && h.tag == map[] && BASE in h.ptr && h.ptr[BASE] == BASE &&
             BASE in h.size && h.size[BASE] == 0
    ensures Inv(h) && Coalesced(h)
  {
  }

  /** The scan starts after `freep`. */
  lemma Begin(m: Allocator, n: nat) returns (jf: nat, j: nat)
    requires m.Valid() && m.freep != 0
    ensures m.freep in m.ptr && Lap(m.Now(), m.freep, m.freep, m.ptr[m.freep], jf, j, n) &&
            0 <= Remaining(m.Now(), jf, j)
  {
    jf :| 0 <= jf < |m.ring| && m.ring[jf] == m.freep;
    LapStart(m.Now(), m.freep, jf, n);
    j := if jf + 1 < |m.ring| then jf + 1 else 0;
  }

  lemma AtBlock(m: Allocator, prevp: nat, p: nat, jf: nat, j: nat, n: nat)
    requires m.Valid() && m.freep != 0 && Lap(m.Now(), m.freep, prevp, p, jf, j, n)
    ensures p in m.size && p in m.ptr && Linked(m.ring, m.ptr) && j < |m.ring| && 0 <= Remaining(m.Now(), jf, j)
  {
    assert LinkOk(m.ring, m.ptr, j) && p in m.ring && BlockOk(m.Now(), p);
  }

  lemma LapOver(m: Allocator, prevp: nat, jf: nat, j: nat, n: nat)
    requires m.Valid() && m.freep != 0 && Lap(m.Now(), m.freep, prevp, m.freep, jf, j, n) && m.freep in m.size &&
             m.size[m.freep] < n
    ensures NoneFits(m.Now(), n) && !Room(m.Now(), n)
  {
    LapEnd(m.Now(), m.freep, prevp, jf, j, n);
    forall k: nat | k < |m.ring| ensures !Big(m.Now(), k, n) {
      assert TooSmall(m.Now(), k, n);
    }
  }

  lemma CanTake(m: Allocator, prevp: nat, p: nat, jf: nat, j: nat, n: nat)
    requires m.Valid() && m.freep != 0 && n > 0 && Lap(m.Now(), m.freep, prevp, p, jf, j, n) && p in m.size &&
             m.size[p] >= n
    ensures 0 < j < |m.ring| && m.ring[j] == p && m.ring[j - 1] == prevp && p in m.ptr && Inv(m.Now()) &&
            Coalesced(m.Now())
  {
    assert LinkOk(m.ring, m.ptr, j);
  }

  lemma TakenShape(h: Heap, j: nat)
    requires Inv(h) && 0 < j < |h.ring| && h.ring[j] in h.ptr && h.ring[j] in h.size
    ensures var h' := Taken(h, j);
            && h'.size == h.size && h'.ptr == h.ptr[h.ring[j - 1] := h.ptr[h.ring[j]]] && h'.tag == h.tag
            && h'.live == h.live[h.ring[j] := h.size[h.ring[j]]] && j - 1 < |h'.ring| && h'.ring[j - 1] == h.ring[j - 1]
  {
  }

  lemma SplitShape(h: Heap, j: nat, n: nat)
    requires 0 < j < |h.ring| && h.ring[j] in h.size && 0 < n < h.size[h.ring[j]]
    ensures var h' := Split(h, j, n);
            var a := h.ring[j];
            && h'.size == h.size[a := h.size[a] - n][a + (h.size[a] - n) := n] && h'.ptr == h.ptr && h'.ring == h.ring
            && h'.live == h.live[a + (h.size[a] - n) := n]
  {
  }

  function Fetch(n: nat): (nu: nat)
    ensures nu >= n && nu >= 4096 && (nu == n || nu == 4096)
  {
    if n < 4096 then 4096 else n
  }

  lemma RoomLess(h: Heap, n: nat, n': nat)
    requires Room(h, n) && n' <= n
    ensures Room(h, n')
  {
    var k: nat :| k < |h.ring| && Big(h, k, n);
    assert Big(h, k, n');
  }

  lemma CanFree(m: Allocator, b: nat)
    requires m.Valid() && m.freep != 0 && b in m.live
    ensures Inv(m.Now()) && Coalesced(m.Now()) && Linked(m.ring, m.ptr) && m.freep in m.ring
    ensures b > BASE && b !in m.ring && b in m.size && m.size[b] == m.live[b]
  {
    assert BlockOk(m.Now(), b);
  }

  lemma StillValid(m: Allocator, h: Heap, p: nat, t: nat)
    requires m.size == h.size && m.ptr == h.ptr && m.ring == h.ring && m.live == h.live && m.tag == h.tag &&
             m.freep == p
    requires Inv(h) && Coalesced(h) && t < |h.ring| && h.ring[t] == p
    ensures m.Valid() && m.freep != 0 && m.Now() == h
  {
    assert h.ring[0] == BASE;
    assert t > 0 ==> h.ring[0] < h.ring[t];
  }

  /** The index of the last free block below `b`. */
  ghost function Goal(ring: seq<nat>, b: nat): (g: nat)
    requires |ring| > 0 && ring[0] < b && b !in ring && Sorted(ring)
    ensures g < |ring| && ring[g] < b && (g + 1 < |ring| ==> b < ring[g + 1])
  {
    GoalFrom(ring, b, |ring| - 1)
  }

  ghost function GoalFrom(ring: seq<nat>, b: nat, k: nat): (g: nat)
    requires k < |ring| && ring[0] < b && b !in ring && (k + 1 < |ring| ==> b < ring[k + 1])
    ensures g < |ring| && ring[g] < b && (g + 1 < |ring| ==> b < ring[g + 1])
  {
    if ring[k] < b then k else assert ring[k] in ring; GoalFrom(ring, b, k - 1)
  }

  lemma NotYet(ring: seq<nat>, ptr: map<nat, nat>, b: nat, t: nat, goal: nat)
    requires Linked(ring, ptr) && t < |ring| && goal < |ring| && ring[goal] < b &&
             (goal + 1 < |ring| ==> b < ring[goal + 1])
    requires LinkOk(ring, ptr, t) && !(b > ring[t] && b < ptr[ring[t]]) &&
             !(ring[t] >= ptr[ring[t]] && (b > ring[t] || b < ptr[ring[t]]))
    ensures t != goal
  {
  }
}
