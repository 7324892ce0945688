/** The buffer cache of kernel/bio.c. */
module Bio {
  import opened Params
  import opened Blocks
  import Lru

  datatype Buf = Buf(valid: bool, dev: nat, blockno: nat, locked: bool, refcnt: nat, data: Block)

  predicate NeverUsed(b: Buf) { b.dev == 0 && !b.valid && !b.locked && b.refcnt == 0 }

  /** The list head is the node after the last buffer. */
  const HEAD: nat := NBUF

  predicate Caches(b: Buf, dev: nat, blockno: nat) { b.dev == dev && b.blockno == blockno }

  /** Node `ring[p]` moved to the most recently used end, the others in their order. */
  ghost function ToFront(ring: seq<nat>, p: nat): (r: seq<nat>)
    requires 0 < p < |ring|
  {
    [HEAD, ring[p]] + (ring[..p] + ring[p + 1..])[1..]
  }

  /** The cache as its callers see it. */
  datatype View = View(
    at: map<nat, nat>,             // cached block -> its buffer
    waiting: multiset<nat>,        // blocks that processes wait for in acquiresleep()
    held: set<nat>,                // blocks whose buffer some process has locked
    pins: set<nat>,                // blocks that the log keeps in the cache
    refs: set<nat>,                // blocks that somebody has a reference to
    contents: map<nat, Block>)     // latest content of every block

  ghost function Without(refs: set<nat>, b: Buf): set<nat> {
    if b.refcnt == 0 then refs - {b.blockno} else refs
  }

  /** Every used buffer is the only one for its block. */
  ghost predicate Indexed(buf: seq<Buf>, at: map<nat, nat>) {
    && (forall n :: n in at ==> at[n] < |buf| && Caches(buf[at[n]], ROOTDEV, n))
    && (forall i :: 0 <= i < |buf| ==> NeverUsed(buf[i]) || (buf[i].blockno in at && at[buf[i].blockno] == i))
  }

  /** What holds of the buffer `b` of block `n`: the reference count is exactly the
      processes that wait, the one that has it locked and the log's pin; its data is the
      block's latest content; and if nobody has it locked or pinned, it is what is on
      the disk. */
  ghost predicate Entry(b: Buf, n: nat, v: View, disk: map<nat, Block>) {
    && b.refcnt == v.waiting[n] + (if n in v.held then 1 else 0) + (if n in v.pins then 1 else 0)
    && (b.refcnt > 0 <==> n in v.refs)
    && (b.locked <==> n in v.held)
    && (b.valid ==> n in v.contents && v.contents[n] == b.data)
    && (!b.valid ==> n !in v.pins)
    && (n in disk && n in v.contents && (!b.valid || n !in v.held + v.pins) ==> v.contents[n] == disk[n])
  }

  ghost predicate Table(buf: seq<Buf>, v: View, disk: map<nat, Block>) {
    && Indexed(buf, v.at)
    && (forall n :: n in v.at ==> Entry(buf[v.at[n]], n, v, disk))
    && Accounts(v, disk)
  }

  /** A block that somebody has a reference to is cached, and one that is not cached is on the disk. */
  ghost predicate Accounts(v: View, disk: map<nat, Block>) {
    && (forall n :: n in v.held || n in v.pins || n in v.waiting ==> n in v.refs)
    && (forall n :: n in v.refs ==> n in v.at)
    && v.contents.Keys == disk.Keys
    && (forall n :: n in disk && n !in v.at ==> v.contents[n] == disk[n])
  }

  /** Replace the buffer of a cached block: only that block's entry has to be checked. */
  lemma UpdateEntry(buf: seq<Buf>, v: View, disk: map<nat, Block>, n: nat, x: Buf, v': View, disk': map<nat, Block>)
    requires Table(buf, v, disk) && n in v.at && Caches(x, ROOTDEV, n)
    requires v'.at == v.at && v'.contents.Keys == disk'.Keys == disk.Keys
    requires Entry(x, n, v', disk')
    requires forall m :: m != n && m in v.at ==> v.waiting[m] == v'.waiting[m]
    requires forall m :: m != n ==> (m in v.held <==> m in v'.held) && (m in v.pins <==> m in v'.pins)
    requires forall m :: m != n ==> (m in v.refs <==> m in v'.refs) && (m in v'.waiting ==> m in v.waiting)
    requires forall m :: m != n && m in disk ==> v.contents[m] == v'.contents[m] && disk[m] == disk'[m]
    ensures Table(buf[v.at[n] := x], v', disk')
  {
    var buf' := buf[v.at[n] := x];
    forall m | m in v.at && m != n ensures Entry(buf'[v.at[m]], m, v', disk') {
      assert Entry(buf[v.at[m]], m, v, disk);
      assert v.at[m] != v.at[n];
    }
  }

  /** When no process holds or waits for a buffer, only the log has references. */
  lemma QuietRefs(buf: seq<Buf>, v: View, disk: map<nat, Block>)
    requires Table(buf, v, disk) && v.held == {} && v.waiting == multiset{}
    ensures v.refs == v.pins
  {
    forall n | n in v.refs ensures n in v.pins {
      assert Entry(buf[v.at[n]], n, v, disk);
    }
  }

  /** If fewer than NBUF blocks are referenced, some buffer is not. */
  lemma Room(buf: seq<Buf>, v: View, disk: map<nat, Block>)
    requires Table(buf, v, disk) && |v.refs| < |buf|
    ensures exists i :: 0 <= i < |buf| && buf[i].refcnt == 0
  {
    if forall i :: 0 <= i < |buf| ==> buf[i].refcnt != 0 {
      forall i | 0 <= i < |buf| ensures buf[i].blockno in v.refs {
        assert Entry(buf[i], buf[i].blockno, v, disk);
      }
      DistinctBlocks(buf, v.at, |buf|);
      CardinalityLeq(set i | 0 <= i < |buf| :: buf[i].blockno, v.refs);
    }
  }

  /** ... and if NBUF blocks are, none is; nor is any other block cached. */
  lemma NoRoom(buf: seq<Buf>, v: View, disk: map<nat, Block>, i: nat)
    requires Table(buf, v, disk) && |v.refs| >= |buf| && i < |buf|
    ensures buf[i].refcnt != 0 && buf[i].dev != 0 && buf[i].blockno in v.refs
  {
    var s := set j | 0 <= j < |buf| && buf[j].refcnt != 0 :: j;
    forall n | n in v.refs ensures n in v.at && v.at[n] in s {
      assert Entry(buf[v.at[n]], n, v, disk);
    }
    Injected(v.refs, v.at, s);
    if i !in s {
      CardinalityLeq(s, Upto(|buf|) - {i});
    }
    assert Entry(buf[i], buf[i].blockno, v, disk);
  }

  lemma {:induction false} Injected(a: set<nat>, at: map<nat, nat>, s: set<nat>)
    requires forall n :: n in a ==> n in at && at[n] in s
    requires forall m, n :: m in a && n in a && m != n ==> at[m] != at[n]
    ensures |a| <= |s|
    decreases |a|
  {
    if a != {} {
      var n :| n in a;
      Injected(a - {n}, at, s - {at[n]});
    }
  }

  ghost function Upto(n: nat): (s: set<nat>)
    ensures |s| == n && forall j :: j in s <==> 0 <= j < n
  {
    if n == 0 then {} else Upto(n - 1) + {n - 1}
  }

  lemma {:induction false} DistinctBlocks(buf: seq<Buf>, at: map<nat, nat>, k: nat)
    requires k <= |buf|
    requires forall i :: 0 <= i < |buf| ==> buf[i].blockno in at && at[buf[i].blockno] == i
    ensures |set i | 0 <= i < k :: buf[i].blockno| == k
  {
    if k > 0 {
      DistinctBlocks(buf, at, k - 1);
      assert (set i | 0 <= i < k :: buf[i].blockno) == (set i | 0 <= i < k - 1 :: buf[i].blockno) +
               {buf[k - 1].blockno};
    }
  }

  lemma {:induction false} CardinalityLeq(a: set<nat>, b: set<nat>)
    requires a <= b
    ensures |a| <= |b|
  {
    assert b == a + (b - a);
  }

  lemma Emptied(m: nat, n: nat)
    ensures {} + {m} + {n} - {n} - {m} == {}
  {
  }

  lemma Emptied2(m: nat, n: nat)
    ensures {} + {m} + {n} - {m} - {n} == {}
  {
  }

  lemma OneMore(s: set<nat>, n: nat)
    ensures |s + {n}| <= |s| + 1
  {
  }

  lemma RefsCached(buf: seq<Buf>, v: View, disk: map<nat, Block>)
    requires Table(buf, v, disk)
    ensures v.refs <= v.at.Keys
  {
  }

  lemma FewerPins(pins: set<nat>, n: nat)
    ensures |pins - {n}| <= |pins|
  {
    CardinalityLeq(pins - {n}, pins);
  }

  /** A block that nobody has locked or pinned is what is on the disk. */
  lemma CleanWhenFree(buf: seq<Buf>, v: View, disk: map<nat, Block>, n: nat)
    requires Table(buf, v, disk) && n in disk && n !in v.held && n !in v.pins
    ensures v.contents[n] == disk[n]
  {
    if n in v.at {
      assert Entry(buf[v.at[n]], n, v, disk);
    }
  }

  /** Where the blocks are cached when buffer `b` is taken for block `n`. */
  ghost function Reassigned(buf: seq<Buf>, at: map<nat, nat>, b: nat, n: nat): map<nat, nat>
    requires b < |buf|
  {
    (if buf[b].dev == 0 then at else at - {buf[b].blockno})[n := b]
  }

  lemma RecycledIndex(buf: seq<Buf>, at: map<nat, nat>, b: nat, n: nat)
    requires Indexed(buf, at) && b < |buf| && n !in at && (buf[b].dev == 0 ==> NeverUsed(buf[b]))
    ensures Indexed(buf[b := buf[b].(dev := ROOTDEV, blockno := n, valid := false, refcnt := 1)],
                    Reassigned(buf, at, b, n))
  {
  }

  lemma NotInUse(buf: seq<Buf>, v: View, disk: map<nat, Block>, b: nat)
    requires Table(buf, v, disk) && b < |buf| && buf[b].refcnt == 0
    ensures if buf[b].dev == 0 then NeverUsed(buf[b])
            else var m := buf[b].blockno; m in v.at && v.at[m] == b && m !in v.refs && m !in v.held && m !in v.pins &&
                                          !buf[b].locked && (m in disk ==> v.contents[m] == disk[m])
  {
    if !NeverUsed(buf[b]) {
      assert Entry(buf[b], buf[b].blockno, v, disk);
    }
  }

  lemma OtherBuffer(buf: seq<Buf>, at: map<nat, nat>, b: nat, n: nat, m: nat)
    requires Indexed(buf, at) && b < |buf| && m in Reassigned(buf, at, b, n) && m != n
    requires buf[b].dev == 0 ==> NeverUsed(buf[b])
    ensures m in at && Reassigned(buf, at, b, n)[m] == at[m] < |buf| && at[m] != b
  {
  }

  lemma SameEntry(x: Buf, m: nat, v: View, v': View, disk: map<nat, Block>, n: nat)
    requires Entry(x, m, v, disk) && m != n
    requires v' == v.(at := v'.at, waiting := v.waiting + multiset{n}, refs := v.refs + {n})
    ensures Entry(x, m, v', disk)
  {
  }

  lemma NewEntry(x: Buf, n: nat, v: View, disk: map<nat, Block>, v': View)
    requires x.refcnt == 1 && !x.valid && !x.locked && n !in v.held && n !in v.pins && v.waiting[n] == 0
    requires n in disk && n in v.contents ==> v.contents[n] == disk[n]
    requires v' == v.(at := v'.at, waiting := v.waiting + multiset{n}, refs := v.refs + {n})
    ensures Entry(x, n, v', disk)
  {
  }

  lemma RecycledAccounts(buf: seq<Buf>, v: View, disk: map<nat, Block>, b: nat, n: nat, v': View)
    requires Accounts(v, disk) && b < |buf| && n !in v.at
    requires buf[b].dev != 0 ==>
               var m := buf[b].blockno; m !in v.refs && m !in v.held && m !in v.pins &&
                                        (m in disk ==> v.contents[m] == disk[m])
    requires v' == v.(at := Reassigned(buf, v.at, b, n), waiting := v.waiting + multiset{n}, refs := v.refs + {n})
    ensures Accounts(v', disk)
  {
  }

  /** A recycled buffer: nothing is lost, because its data is on the disk. */
  lemma Recycle(buf: seq<Buf>, v: View, disk: map<nat, Block>, b: nat, n: nat, v': View)
    requires Table(buf, v, disk) && b < |buf| && buf[b].refcnt == 0 && n !in v.at
    requires v' == v.(at := Reassigned(buf, v.at, b, n), waiting := v.waiting + multiset{n}, refs := v.refs + {n})
    ensures Table(buf[b := buf[b].(dev := ROOTDEV, blockno := n, valid := false, refcnt := 1)], v', disk)
  {
    var buf' := buf[b := buf[b].(dev := ROOTDEV, blockno := n, valid := false, refcnt := 1)];
    NotInUse(buf, v, disk, b);
    RecycledIndex(buf, v.at, b, n);
    NewEntry(buf'[b], n, v, disk, v');
    RecycledAccounts(buf, v, disk, b, n, v');
    hide Indexed, Entry, Accounts;
    forall m | m in v'.at && m != n ensures Entry(buf'[v'.at[m]], m, v', disk) {
      OtherBuffer(buf, v.at, b, n, m);
      SameEntry(buf[v.at[m]], m, v, v', disk, n);
    }
  }

  /** The list is in the order in which the buffers were last released, the latest first. */
  ghost predicate ByRelease(ring: seq<nat>, released: seq<nat>, clock: nat) {
    && |ring| == NBUF + 2 && |released| == NBUF
    && (forall p :: 0 < p <= NBUF ==> ring[p] < NBUF)
    && (forall p, q :: 0 < p < q <= NBUF ==> released[ring[p]] > released[ring[q]])
    && forall b :: 0 <= b < NBUF ==> released[b] < clock
  }

  /** Where the nodes behind the foremost one were. */
  function Was(p: nat, x: nat): (y: nat)
    requires x > 0
  {
    if x <= p then x - 1 else x
  }

  lemma FrontAt(ring: seq<nat>, p: nat, x: nat)
    requires |ring| == NBUF + 2 && 0 < p <= NBUF && 0 < x <= NBUF
    ensures |ToFront(ring, p)| == |ring|
    ensures ToFront(ring, p)[x] == if x == 1 then ring[p] else ring[Was(p, x)]
  {
  }

  lemma Foremost(ring: seq<nat>, ring': seq<nat>, released: seq<nat>, clock: nat, b: nat)
    requires ByRelease(ring, released, clock) && b < NBUF && ring[0] == HEAD
    requires exists p :: 0 < p <= NBUF && ring[p] == b && ring' == ToFront(ring, p)
    ensures ByRelease(ring', released[b := clock], clock + 1)
  {
    var p :| 0 < p <= NBUF && ring[p] == b && ring' == ToFront(ring, p);
    hide ToFront, Was;
    FrontAt(ring, p, 1);
    forall x | 0 < x <= NBUF
      ensures ring'[x] == (if x == 1 then b else ring[Was(p, x)]) && ring'[x] < NBUF
      ensures x > 1 ==> 0 < Was(p, x) <= NBUF && ring[Was(p, x)] != b && released[ring[Was(p, x)]] < clock
    {
      FrontAt(ring, p, x);
      if x > 1 {
        WasIs(p, x, x);
        OlderThan(ring, released, clock, p, Was(p, x));
      }
    }
    forall x, y | 0 < x < y <= NBUF ensures released[b := clock][ring'[x]] > released[b := clock][ring'[y]] {
      if x > 1 {
        WasIs(p, x, y);
        assert released[ring[Was(p, x)]] > released[ring[Was(p, y)]];
      }
    }
  }

  lemma WasIs(p: nat, x: nat, y: nat)
    requires 0 < p <= NBUF && 1 < x <= NBUF && 0 < y
    ensures 0 < Was(p, x) <= NBUF && Was(p, x) != p && (x < y ==> Was(p, x) < Was(p, y))
  {
  }

  lemma OlderThan(ring: seq<nat>, released: seq<nat>, clock: nat, p: nat, y: nat)
    requires ByRelease(ring, released, clock) && 0 < p <= NBUF && 0 < y <= NBUF && y != p
    ensures ring[y] != ring[p] && released[ring[y]] < clock
  {
    assert if y < p then released[ring[y]] > released[ring[p]] else released[ring[p]] > released[ring[y]];
  }

  lemma SetTwice(s: seq<Buf>, i: nat, x: Buf, y: Buf)
    requires i < |s|
    ensures s[i := x][i := y] == s[i := y]
  {
  }

  class BCache {
    var buf: seq<Buf>
    var next: seq<nat>
    var prev: seq<nat>
    var disk: map<nat, Block>            // the device behind virtio_disk_rw()

    ghost const blocks: set<nat>         // the block numbers of the device
    ghost var ring: seq<nat>             // head, most recent, ..., least recent, head
    ghost var released: seq<nat>         // when brelse() last left each buffer without references
    ghost var clock: nat
    ghost var v: View
    ghost var writes: seq<(nat, Block)>  // what the device was told to write, in order

    ghost predicate Valid()
      reads this
    {
      && |buf| == NBUF && ListOfAll(ring, next, prev) && ByRelease(ring, released, clock)
      && disk.Keys == v.contents.Keys == blocks && Table(buf, v, disk)
    }

    /** binit(), on a zeroed kernel image. */
    constructor (disk: map<nat, Block>)
      ensures Valid() && this.disk == disk && blocks == disk.Keys && writes == []
      ensures v == View(map[], multiset{}, {}, {}, {}, disk)
    {
      buf := seq(NBUF, _ => Buf(false, 0, 0, false, 0, ZeroBlock()));
      this.disk := disk;
      blocks := disk.Keys;
      v, writes := View(map[], multiset{}, {}, {}, {}, disk), [];
      released, clock := seq(NBUF, i => i), NBUF;
      new;
      next, prev := seq(NBUF + 1, _ => HEAD), seq(NBUF + 1, _ => HEAD);
      ring := [HEAD, HEAD];
      for b := 0 to NBUF
        invariant |ring| == b + 2 && |next| == NBUF + 1
        invariant Lru.Linked(ring, HEAD, next, prev)
        invariant forall i: nat :: i < NBUF ==> (i in ring <==> i < b)
        invariant forall p :: 0 < p <= b ==> ring[p] == b - p
        invariant released == seq(NBUF, i => i) && clock == NBUF
        invariant |buf| == NBUF && forall i :: 0 <= i < NBUF ==> NeverUsed(buf[i])
        invariant this.disk == disk && v == View(map[], multiset{}, {}, {}, {}, disk) && writes == []
      {
        LinkAtFront(b);
      }
    }

    /** Link a node in right behind the head (bio.c:47-51 and bio.c:130-133). */
    method LinkAtFront(b: nat)
      requires Lru.Linked(ring, HEAD, next, prev) && b < |next| && b !in ring
      modifies this`next, this`prev, this`ring
      ensures ring == [HEAD, b] + old(ring)[1..] && forall x :: x in ring <==> x == b || x in old(ring)
      ensures |next| == |old(next)| && Lru.Linked(ring, HEAD, next, prev)
    {
      Lru.PushFront(ring, HEAD, next, prev, b);
      next := next[b := next[HEAD]];
      prev := prev[b := HEAD];
      prev := prev[next[HEAD] := b];
      next := next[HEAD := b];
      assert ring == [HEAD] + ring[1..];
      ring := [HEAD, b] + ring[1..];
    }

    /** Take a node out of the list (bio.c:128-129). */
    method Unlink(b: nat, ghost p: nat)
      requires Lru.Linked(ring, HEAD, next, prev) && 0 < p < |ring| - 1 && b == ring[p]
      modifies this`next, this`prev, this`ring
      ensures ring == old(ring)[..p] + old(ring)[p + 1..] && forall x :: x in ring <==> x != b && x in old(ring)
      ensures |next| == |old(next)| && Lru.Linked(ring, HEAD, next, prev)
    {
      Lru.Unlink(ring, HEAD, next, prev, p);
      prev := prev[next[b] := prev[b]];
      next := next[prev[b] := next[b]];
      ring := ring[..p] + ring[p + 1..];
    }

    method MoveToFront(b: nat)
      requires ListOfAll(ring, next, prev) && b < NBUF
      modifies this`next, this`prev, this`ring
      ensures ListOfAll(ring, next, prev)
      ensures exists p :: 0 < p <= NBUF && old(ring)[p] == b && ring == ToFront(old(ring), p)
    {
      assert b in ring;
      ghost var p :| 0 < p <= NBUF && ring[p] == b;
      Unlink(b, p);
      LinkAtFront(b);
    }

    /** The first scan of bget(): the buffer that caches the block, or the head. */
    method Find(dev: nat, blockno: nat) returns (b: nat)
      requires Valid() && dev == ROOTDEV
      ensures if blockno in v.at then b == v.at[blockno] < NBUF else b == HEAD
    {
      b := next[HEAD];
      ghost var p := 1;
      assert next[ring[0]] == ring[1];
      while b != HEAD && !Caches(buf[b], dev, blockno)
        invariant 0 < p < |ring| && b == ring[p]
        invariant forall q :: 0 < q < p ==> !Caches(buf[ring[q]], dev, blockno)
        decreases |ring| - p
      {
        b, p := next[b], p + 1;
      }
      assert blockno in v.at ==> v.at[blockno] in ring;
    }

    /** The buffer bget() recycles: unreferenced, with no unreferenced one released longer ago. */
    ghost predicate LeastRecentlyUsed(b: nat)
      requires |buf| == NBUF == |released|
      reads this
    {
      && b < NBUF && buf[b].refcnt == 0
      && forall c: nat :: c < NBUF && buf[c].refcnt == 0 ==> released[b] <= released[c]
    }

    /** The second scan: the least recently used unreferenced buffer. */
    method FindUnused() returns (b: nat)
      requires Valid() && |v.refs| < NBUF
      ensures LeastRecentlyUsed(b)
    {
      Room(buf, v, disk);
      ghost var free :| 0 <= free < NBUF && buf[free].refcnt == 0;
      b := prev[HEAD];
      ghost var p := NBUF;
      assert prev[ring[p + 1]] == ring[p];
      while b != HEAD && buf[b].refcnt != 0
        invariant 0 <= p < |ring| - 1 && b == ring[p]
        invariant forall q :: p < q <= NBUF ==> buf[ring[q]].refcnt != 0
        decreases p
      {
        assert prev[ring[p - 1 + 1]] == ring[p - 1];
        b, p := prev[b], p - 1;
      }
      assert free in ring;
      forall c: nat | c < NBUF && buf[c].refcnt == 0 ensures released[b] <= released[c] {
        assert c in ring;
        var q :| 0 < q <= NBUF && ring[q] == c;
        assert q < p ==> released[ring[q]] > released[ring[p]];
      }
    }

    /** bio.c:79-82. */
    method Reassign(b: nat, n: nat)
      requires Valid() && b < NBUF && buf[b].refcnt == 0 && n !in v.at
      modifies this`buf, this`v
      ensures Valid() && n in v.at && v.at[n] == b && n !in v.held && !buf[b].locked
      ensures v == old(v).(at := v.at, waiting := old(v).waiting + multiset{n}, refs := old(v).refs + {n})
      ensures buf == old(buf)[b := old(buf)[b].(dev := ROOTDEV, blockno := n, valid := false, refcnt := 1)]
    {
      ghost var v' := v.(at := Reassigned(buf, v.at, b, n), waiting := v.waiting + multiset{n}, refs := v.refs + {n});
      Recycle(buf, v, disk, b, n, v');
      v, buf := v', buf[b := buf[b].(dev := ROOTDEV, blockno := n, valid := false, refcnt := 1)];
    }

    /** Overwrite one buffer, with the proof that the invariant is kept. */
    method Update(b: nat, x: Buf, ghost v': View)
      requires Valid() && b < NBUF && buf[b].dev != 0 && Caches(x, buf[b].dev, buf[b].blockno)
      requires Entry(x, x.blockno, v', disk) && v'.at == v.at && v'.contents.Keys == disk.Keys
      requires forall m :: m != x.blockno ==> v.waiting[m] == v'.waiting[m]
      requires forall m :: m != x.blockno ==>
                             (m in v.held <==> m in v'.held) && (m in v.pins <==> m in v'.pins) &&
                               (m in v.refs <==> m in v'.refs)
      requires forall m :: m != x.blockno && m in disk ==> v.contents[m] == v'.contents[m]
      modifies this`buf, this`v
      ensures Valid() && v == v' && buf == old(buf)[b := x]
    {
      UpdateEntry(buf, v, disk, x.blockno, x, v', disk);
      buf, v := buf[b := x], v';
    }

    /** bio.c:68. */
    method AddRef(b: nat, n: nat)
      requires Valid() && n in v.at && v.at[n] == b
      modifies this`buf, this`v
      ensures Valid() && v == old(v).(waiting := old(v).waiting + multiset{n}, refs := old(v).refs + {n})
      ensures b < NBUF && buf == old(buf)[b := old(buf)[b].(refcnt := old(buf)[b].refcnt + 1)]
      ensures Caches(buf[b], ROOTDEV, n) && (buf[b].locked <==> n in v.held)
    {
      Update(b, buf[b].(refcnt := buf[b].refcnt + 1), v.(waiting := v.waiting + multiset{n}, refs := v.refs + {n}));
    }

    /** bget() up to the point where bcache.lock is released: the caller now waits for the
        buffer. "bget: no buffers" is the precondition. */
    method Get(dev: nat, blockno: nat) returns (b: nat)
      requires Valid() && dev == ROOTDEV
      requires blockno in v.at || |v.refs| < NBUF
      modifies this`buf, this`v
      ensures Valid() && blockno in v.at && b == v.at[blockno] < NBUF
      ensures Caches(buf[b], dev, blockno) && (buf[b].locked <==> blockno in v.held)
      ensures v == old(v).(at := v.at, waiting := old(v).waiting + multiset{blockno}, refs := old(v).refs + {blockno})
      ensures buf == old(buf)[b := buf[b]]
      ensures if blockno in old(v).at then v.at == old(v).at && buf[b] == old(buf)[b].(refcnt := old(buf)[b].refcnt + 1)
              else
                && old(LeastRecentlyUsed(b))
                && buf[b] == old(buf)[b].(dev := dev, blockno := blockno, valid := false, refcnt := 1)
    {
      hide Table, ListOfAll, ByRelease;
      b := Find(dev, blockno);
      if b == HEAD {
        b := FindUnused();
        Reassign(b, blockno);
      } else {
        AddRef(b, blockno);
      }
    }

    /** acquiresleep() on the buffer, when the lock is free. */
    method Lock(b: nat)
      requires Valid() && b < NBUF && buf[b].dev != 0 && buf[b].blockno in v.waiting && !buf[b].locked
      modifies this`buf, this`v
      ensures Valid() && buf == old(buf)[b := old(buf)[b].(locked := true)]
      ensures v == old(v).(waiting := old(v).waiting - multiset{buf[b].blockno}, held := old(v).held + {buf[b].blockno})
    {
      ghost var n := buf[b].blockno;
      ghost var v' := v.(waiting := v.waiting - multiset{n}, held := v.held + {n});
      Update(b, buf[b].(locked := true), v');
    }

    /** The rest of bread(): read the disk if the buffer is not valid. */
    method Fill(b: nat)
      requires Valid() && b < NBUF && buf[b].dev != 0 && buf[b].locked && buf[b].blockno in disk
      modifies this`buf, this`v
      ensures Valid() && v == old(v) &&
              buf == old(buf)[b := old(buf)[b].(valid := true, data := v.contents[buf[b].blockno])]
    {
      if !buf[b].valid {
        Update(b, buf[b].(valid := true, data := disk[buf[b].blockno]), v);
      }
    }

    /** bread() as one process sees it: a locked buffer with the block's latest content. */
    method Read(blockno: nat) returns (b: nat)
      requires Valid() && blockno in disk && blockno !in v.held
      requires blockno in v.at || |v.refs| < NBUF
      modifies this`buf, this`v
      ensures Valid() && v == old(v).(at := v.at, held := old(v).held + {blockno}, refs := old(v).refs + {blockno})
      ensures blockno in v.at && b == v.at[blockno] < NBUF
      ensures buf[b] == Buf(true, ROOTDEV, blockno, true, buf[b].refcnt, v.contents[blockno]) &&
              buf == old(buf)[b := buf[b]]
      ensures !old(buf)[b].locked
    {
      hide Table, ListOfAll, ByRelease;
      b := Get(ROOTDEV, blockno);
      SetTwice(old(buf), b, buf[b], buf[b].(locked := true));
      Lock(b);
      SetTwice(old(buf), b, buf[b], buf[b].(valid := true, data := v.contents[blockno]));
      Fill(b);
    }

    /** A process that has the buffer locked overwrites it (memmove to b->data). */
    method SetData(b: nat, data: Block)
      requires Valid() && b < NBUF && buf[b].locked && buf[b].valid
      modifies this`buf, this`v
      ensures Valid() && buf == old(buf)[b := old(buf)[b].(data := data)]
      ensures v == old(v).(contents := old(v).contents[buf[b].blockno := data])
    {
      Update(b, buf[b].(data := data), v.(contents := v.contents[buf[b].blockno := data]));
    }

    /** bwrite(): the disk gets the buffer's data. */
    method Write(b: nat)
      requires Valid() && b < NBUF && buf[b].locked && buf[b].valid
      modifies this`disk, this`writes
      ensures Valid() && disk == old(disk)[buf[b].blockno := buf[b].data]
      ensures writes == old(writes) + [(buf[b].blockno, buf[b].data)]
    {
      UpdateEntry(buf, v, disk, buf[b].blockno, buf[b], v, disk[buf[b].blockno := buf[b].data]);
      assert buf[v.at[buf[b].blockno] := buf[b]] == buf;
      disk := disk[buf[b].blockno := buf[b].data];
      writes := writes + [(buf[b].blockno, buf[b].data)];
    }

    /** brelse(): requires what its callers owe it - a changed buffer was written to the
        disk or is pinned by the log. */
    method Release(b: nat)
      requires Valid() && b < NBUF && buf[b].locked
      requires var n := buf[b].blockno; n in disk ==> n in v.pins || v.contents[n] == disk[n]
      modifies this`buf, this`v, this`next, this`prev, this`ring, this`released, this`clock
      ensures Valid()
      ensures buf == old(buf)[b := old(buf)[b].(locked := false, refcnt := old(buf)[b].refcnt - 1)]
      ensures v == old(v).(held := old(v).held - {buf[b].blockno}, refs := Without(old(v).refs, buf[b]))
      ensures if buf[b].refcnt > 0 then ring == old(ring) && released == old(released)
              else
                && released == old(released)[b := old(clock)] && clock == old(clock) + 1
                && exists p :: 0 < p <= NBUF && old(ring)[p] == b && ring == ToFront(old(ring), p)
    {
      hide Table, ListOfAll, ByRelease;
      Unlock(b);
      if buf[b].refcnt == 0 {
        Freshen(b);
      }
    }

    /** brelse() up to the test: releasesleep(), and one reference less. */
    method Unlock(b: nat)
      requires Valid() && b < NBUF && buf[b].locked
      requires var n := buf[b].blockno; n in disk ==> n in v.pins || v.contents[n] == disk[n]
      modifies this`buf, this`v
      ensures Valid() && old(buf)[b].refcnt > 0
      ensures buf == old(buf)[b := old(buf)[b].(locked := false, refcnt := old(buf)[b].refcnt - 1)]
      ensures v == old(v).(held := old(v).held - {buf[b].blockno}, refs := Without(old(v).refs, buf[b]))
    {
      hide ListOfAll, ByRelease;
      assert Entry(buf[b], buf[b].blockno, v, disk);
      Update(b, buf[b].(locked := false, refcnt := buf[b].refcnt - 1),
             v.(held := v.held - {buf[b].blockno}, refs := Without(v.refs, buf[b].(refcnt := buf[b].refcnt - 1))));
    }

    /** The rest of brelse(): the buffer is now the most recently used one. */
    method Freshen(b: nat)
      requires ListOfAll(ring, next, prev) && ByRelease(ring, released, clock) && b < NBUF
      modifies this`next, this`prev, this`ring, this`released, this`clock
      ensures ListOfAll(ring, next, prev) && ByRelease(ring, released, clock)
      ensures released == old(released)[b := old(clock)] && clock == old(clock) + 1
      ensures exists p :: 0 < p <= NBUF && old(ring)[p] == b && ring == ToFront(old(ring), p)
    {
      HeadFirst(ring, next, prev);
      hide *;
      MoveToFront(b);
      Foremost(old(ring), ring, released, clock, b);
      released, clock := released[b := clock], clock + 1;
    }

    /** bpin() and bunpin(), called by the log. */
    method Pin(b: nat)
      requires Valid() && b < NBUF && buf[b].valid && buf[b].blockno !in v.pins
      modifies this`buf, this`v
      ensures Valid() && buf == old(buf)[b := old(buf)[b].(refcnt := old(buf)[b].refcnt + 1)]
      ensures v == old(v).(pins := old(v).pins + {buf[b].blockno}, refs := old(v).refs + {buf[b].blockno})
    {
      Update(b, buf[b].(refcnt := buf[b].refcnt + 1),
             v.(pins := v.pins + {buf[b].blockno}, refs := v.refs + {buf[b].blockno}));
    }

    method Unpin(b: nat)
      requires Valid() && b < NBUF && buf[b].dev != 0 && buf[b].blockno in v.pins
      requires buf[b].locked || v.contents[buf[b].blockno] == disk[buf[b].blockno]
      modifies this`buf, this`v
      ensures Valid() && buf == old(buf)[b := old(buf)[b].(refcnt := old(buf)[b].refcnt - 1)]
      ensures v == old(v).(pins := old(v).pins - {buf[b].blockno}, refs := Without(old(v).refs, buf[b]))
    {
      assert Entry(buf[b], buf[b].blockno, v, disk);
      Update(b, buf[b].(refcnt := buf[b].refcnt - 1),
             v.(pins := v.pins - {buf[b].blockno}, refs := Without(v.refs, buf[b].(refcnt := buf[b].refcnt - 1))));
    }

    // ---- Copying a block to another, as the log does ------------------------------------

    /** The process has locked the buffer of block `n` and its data is valid. */
    ghost predicate Owns(b: nat, n: nat)
      reads this
    {
      && b < |buf| && buf[b].locked && buf[b].valid && Caches(buf[b], ROOTDEV, n)
      && n in v.contents && buf[b].data == v.contents[n]
    }

    /** No process holds or waits for a buffer. */
    ghost predicate Quiet()
      reads this
    {
      v.held == {} && v.waiting == multiset{}
    }

    /** ... and the log leaves one unpinned. */
    ghost predicate Idle()
      reads this
    {
      Quiet() && |v.pins| < NBUF
    }

    /** Whether bget() finds a buffer for the block, or panics: there is one for it already, or one
        without references. */
    method CanGet(blockno: nat) returns (r: bool)
      requires Valid()
      ensures r <==> blockno in v.at || exists i :: 0 <= i < NBUF && buf[i].refcnt == 0
    {
      var b := Find(ROOTDEV, blockno);
      if b != HEAD {
        return true;
      }
      var i := 0;
      while i < NBUF && buf[i].refcnt != 0
        invariant 0 <= i <= NBUF && forall j :: 0 <= j < i ==> buf[j].refcnt != 0
      {
        i := i + 1;
      }
      r := i < NBUF;
    }

    /** The two bread()s of write_log() and install_trans(). */
    method ReadPair(m: nat, n: nat) returns (a: nat, b: nat)
      requires Valid() && m != n && m in disk && n in disk && m !in v.held && n !in v.held
      requires m in v.refs || |v.refs| < NBUF
      requires n in v.refs || |v.refs| + 1 < NBUF
      modifies this`buf, this`v
      ensures Valid() && v == old(v).(at := v.at, held := old(v).held + {m} + {n}, refs := old(v).refs + {m} + {n})
      ensures a != b && Owns(a, m) && Owns(b, n)
    {
      hide Table, ListOfAll, ByRelease;
      RefsCached(buf, v, disk);
      OneMore(v.refs, m);
      a := Read(m);
      RefsCached(buf, v, disk);
      b := Read(n);
    }

    /** memmove() one buffer to another and write it to the disk. */
    method Transfer(to: nat, from: nat, ghost m: nat, ghost n: nat)
      requires Valid() && to != from && Owns(to, m) && Owns(from, n)
      modifies this`buf, this`v, this`disk, this`writes
      ensures Valid() && Owns(to, m) && Owns(from, n)
      ensures v == old(v).(contents := old(v).contents[m := old(v).contents[n]])
      ensures disk == old(disk)[m := old(v).contents[n]]
      ensures writes == old(writes) + [(m, old(v).contents[n])]
    {
      SetData(to, buf[from].data);
      Write(to);
    }

    /** The two brelse()s. */
    method ReleasePair(a: nat, b: nat, ghost m: nat, ghost n: nat)
      requires Valid() && a != b && Owns(a, m) && Owns(b, n)
      requires m in v.pins || v.contents[m] == disk[m]
      requires n in v.pins || v.contents[n] == disk[n]
      modifies this`buf, this`v, this`next, this`prev, this`ring, this`released, this`clock
      ensures Valid() && v == old(v).(held := old(v).held - {m} - {n}, refs := v.refs)
    {
      hide Table, ListOfAll, ByRelease;
      Release(a);
      Release(b);
    }

    /** The body of the loop in write_log(). */
    method CopyToLog(to: nat, from: nat)
      requires Valid() && Idle() && to != from && to in disk && from in v.pins && from in disk
      modifies this
      ensures Valid() && Idle() && v.pins == old(v).pins
      ensures v.contents == old(v).contents[to := old(v).contents[from]]
      ensures disk == old(disk)[to := old(v).contents[from]]
      ensures writes == old(writes) + [(to, old(v).contents[from])]
    {
      hide Table, ListOfAll, ByRelease;
      QuietRefs(buf, v, disk);
      var a, b := ReadPair(to, from);
      Transfer(a, b, to, from);
      ReleasePair(b, a, from, to);
      Emptied(to, from);
    }

    /** The body of the loop in install_trans(). */
    method CopyHome(from: nat, to: nat, recovering: bool)
      requires Valid() && Idle() && to != from && to in disk && from in disk && from !in v.pins
      requires if recovering then to !in v.pins && |v.pins| + 1 < NBUF else to in v.pins
      modifies this
      ensures Valid() && Idle() && v.pins == old(v).pins - (if recovering then {} else {to})
      ensures v.contents == old(v).contents[to := old(v).contents[from]]
      ensures disk == old(disk)[to := old(v).contents[from]]
      ensures writes == old(writes) + [(to, old(v).contents[from])]
    {
      hide Table, ListOfAll, ByRelease;
      QuietRefs(buf, v, disk);
      CleanWhenFree(buf, v, disk, from);
      var lbuf, dbuf := ReadPair(from, to);
      TransferHome(dbuf, lbuf, to, from, recovering);
      ReleasePair(lbuf, dbuf, from, to);
      Emptied2(from, to);
    }

    /** ... between the bread()s and the brelse()s. */
    method TransferHome(dbuf: nat, lbuf: nat, ghost to: nat, ghost from: nat, recovering: bool)
      requires Valid() && dbuf != lbuf && Owns(dbuf, to) && Owns(lbuf, from) && (!recovering ==> to in v.pins)
      modifies this`buf, this`v, this`disk, this`writes
      ensures Valid() && Owns(dbuf, to) && Owns(lbuf, from)
      ensures v == old(v).(contents := old(v).contents[to := old(v).contents[from]], refs := v.refs,
                           pins := old(v).pins - if recovering then {} else {to})
      ensures disk == old(disk)[to := old(v).contents[from]]
      ensures writes == old(writes) + [(to, old(v).contents[from])]
    {
      hide Table, ListOfAll, ByRelease;
      Transfer(dbuf, lbuf, to, from);
      if !recovering {
        Unpin(dbuf);
        FewerPins(old(v).pins, to);
      }
    }

    /** Overwrite, write and release a buffer that was just read. */
    method Store(b: nat, data: Block, ghost n: nat)
      requires Valid() && Owns(b, n)
      modifies this
      ensures Valid() && v == old(v).(contents := old(v).contents[n := data], held := old(v).held - {n}, refs := v.refs)
      ensures disk == old(disk)[n := data] && writes == old(writes) + [(n, data)]
    {
      hide Table, ListOfAll, ByRelease;
      SetData(b, data);
      Write(b);
      Release(b);
    }
  }

  lemma HeadFirst(ring: seq<nat>, next: seq<nat>, prev: seq<nat>)
    requires ListOfAll(ring, next, prev)
    ensures |ring| == NBUF + 2 && ring[0] == HEAD
  {
  }

  ghost predicate ListOfAll(ring: seq<nat>, next: seq<nat>, prev: seq<nat>) {
    && |ring| == NBUF + 2 && |next| == NBUF + 1
    && Lru.Linked(ring, HEAD, next, prev)
    && (forall b: nat :: b < NBUF ==> b in ring)
  }

  /** What the invariant says of any two buffers: they do not cache the same block; a valid one has
      the block's latest content; and one without references is not wanted by the log, and has
      nothing that the disk does not have. */
  lemma CacheIsSound(c: BCache, i: nat, j: nat)
    requires c.Valid() && i < NBUF && j < NBUF
    ensures i != j && c.buf[i].dev == c.buf[j].dev != 0 ==> c.buf[i].blockno != c.buf[j].blockno
    ensures var b := c.buf[i];
            && (b.valid && b.blockno in c.disk ==> b.data == c.v.contents[b.blockno])
            && (b.refcnt == 0 && b.dev != 0 ==> b.blockno !in c.v.pins)
            && (b.refcnt == 0 && b.valid && b.blockno in c.disk ==> b.data == c.disk[b.blockno])
  {
    assert !NeverUsed(c.buf[i]) ==> Entry(c.buf[i], c.buf[i].blockno, c.v, c.disk);
  }
}
