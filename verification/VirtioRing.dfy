/** virtio_disk_rw(), virtio_disk_intr() and the device as a step system over the shared rings, under
    every interleaving of any number of requests. Ring indices are 16 bits and wrap.
    The driver holds vdisk_lock from one step to the next where the code does; the device may
    act between any two steps and may finish requests in any order. */
module VirtioRing {
  import opened Blocks
  import opened Params
  import opened Virtio
  import opened Wrappers

  /** The length of a struct virtio_blk_req, and of a sector of the device. */
  const HEADER: nat := 16
  const SECTOR: nat := 512

  /** How far the request whose chain starts at a descriptor has come. */
  datatype Stage = Idle | Formatted | Queued | Taken | Wrote | Completed | Acked

  datatype Lock = NoOne | Submitting(h: nat) | Handling

  datatype BlkReq = BlkReq(write: bool, sector: nat)

  /** Where a block starts, computed with 32 bits. */
  function Sector(blockno: nat): (r: nat) { blockno * (BSIZE / SECTOR) % 0x1_0000_0000 }

  /** What is in memory and in the device: `data` has the contents of the buffers and `disk` those of
      the blocks; what is not in them has zeroes. `availSeen` and `usedSeen` are how far the device and the
      driver have looked; `busy` are the buffers with b->disk == 1; `waiting` are the requests that
      sleep in virtio_disk_rw(), with their idx[0]; `wrote` is a used entry not announced yet. */
  datatype Shared = Shared(desc: seq<Desc>, free: seq<bool>, ops: seq<BlkReq>, infoB: seq<int>, status: seq<nat>,
                           avail: seq<nat>, availIdx: nat, availSeen: nat, used: seq<nat>, usedIdx: nat, usedSeen: nat,
                           busy: set<nat>, waiting: map<nat, nat>, lock: Lock, wrote: int,
                           data: map<nat, Block>, disk: map<nat, Block>)

  function At(m: map<nat, Block>, i: nat): (b: Block) { if i in m then m[i] else ZeroBlock() }

  /** For the proof: the stage and the request of each head, the rest of its chain, the head that
      owns each descriptor, and the two queues with the number of entries removed from them. */
  datatype Track = Track(stage: seq<Stage>, req: seq<Request>, mid: seq<nat>, last: seq<nat>, owner: seq<int>,
                         aq: seq<nat>, gone: nat, uq: seq<nat>, seen: nat)

  datatype State = State(m: Shared, t: Track)

  const NONE: int := -1

  function Inc(idx: nat): (r: nat) { (idx + 1) % WRAP }

  function Rest(q: seq<nat>): (r: seq<nat>) { if q == [] then [] else q[1..] }

  // ---- The device ------------------------------------------------------------------------------

  /** The descriptors of the chain that begins at `i`, as the flags lead from one to the next. */
  ghost function Chain(desc: seq<Desc>, i: nat, n: nat): (c: seq<Desc>)
    decreases n
  {
    if n == 0 || i >= |desc| then []
    else [desc[i]] + if desc[i].more then Chain(desc, desc[i].next, n - 1) else []
  }

  /** Three buffers, of which the first is a header that the device reads and the last a status byte
      that it writes; the other one it may write exactly if the header asks for a read. */
  ghost predicate WellFormed(c: seq<Desc>, ops: seq<BlkReq>) {
    && |c| == 3
    && c[0].addr.Command? && c[0].addr.i < |ops| && c[0].len == HEADER && !c[0].writable
    && ops[c[0].addr.i].sector % (BSIZE / SECTOR) == 0
    && c[1].addr.Data? && c[1].len == BSIZE && (c[1].writable <==> !ops[c[0].addr.i].write)
    && c[2].addr.Status? && c[2].len == 1 && c[2].writable
  }

  /** What the device makes of the chain at `h`: the descriptors and the header, nothing else. */
  ghost function Decoded(m: Shared, h: nat): (r: Option<Request>) {
    var c := Chain(m.desc, h, NUM);
    if !WellFormed(c, m.ops) then None
    else
      var op := m.ops[c[0].addr.i];
      Some(Request(c[1].addr.b, op.write, op.sector / (BSIZE / SECTOR)))
  }

  /** What the device may write to, of the chain at `h`. */
  ghost function Writable(desc: seq<Desc>, h: nat): (w: set<Addr>) {
    set d | d in Chain(desc, h, NUM) && d.writable :: d.addr
  }

  /** The device does the request of the chain at `h`: a block of the disk goes to the buffer or the
      other way, and 0 to the status byte. */
  ghost function Served(m: Shared, h: nat): (m': Shared)
    requires Decoded(m, h).Some?
  {
    var r, st := Decoded(m, h).value, Chain(m.desc, h, NUM)[2].addr.i;
    var m1 := m.(status := if st < |m.status| then m.status[st := 0] else m.status);
    if r.write then m1.(disk := m.disk[r.blockno := At(m.data, r.b)])
    else m1.(data := m.data[r.b := At(m.disk, r.blockno)])
  }

  // ---- Steps -----------------------------------------------------------------------------------

  /** virtio_disk_rw() up to the write into the avail ring. */
  ghost predicate Format(s: State, s': State, h: nat, m: nat, l: nat, r: Request) {
    && s.m.lock.NoOne? && |s.m.desc| == NUM && |s.m.free| == NUM && |s.m.ops| == NUM && |s.m.infoB| == NUM &&
       |s.m.status| == NUM && |s.m.avail| == NUM
    && |s.t.stage| == NUM && |s.t.req| == NUM && |s.t.mid| == NUM && |s.t.last| == NUM && |s.t.owner| == NUM
    && Three(s.m.free, h, m, l) && r.b !in s.m.busy && r.b !in s.m.waiting
    && s'.m == s.m.(free := s.m.free[h := false][m := false][l := false],
                    ops := s.m.ops[h := BlkReq(r.write, Sector(r.blockno))],
                    desc := s.m.desc[h := Desc(Command(h), HEADER, true, false, m)]
                            [m := Desc(Data(r.b), BSIZE, true, !r.write, l)][l := Desc(Status(h), 1, false, true, 0)],
                    status := s.m.status[h := 0xff], infoB := s.m.infoB[h := r.b], busy := s.m.busy + {r.b},
                    avail := s.m.avail[s.m.availIdx % NUM := h], lock := Submitting(h))
    && s'.t == s.t.(stage := s.t.stage[h := Formatted], req := s.t.req[h := r], mid := s.t.mid[h := m],
                    last := s.t.last[h := l], owner := s.t.owner[h := h][m := h][l := h])
  }

  /** disk.avail->idx += 1, and sleep. */
  ghost predicate Publish(s: State, s': State, h: nat) {
    && s.m.lock == Submitting(h) && h < |s.t.stage| && h < |s.t.req|
    && s'.m == s.m.(availIdx := Inc(s.m.availIdx), waiting := s.m.waiting[s.t.req[h].b := h], lock := NoOne)
    && s'.t == s.t.(stage := s.t.stage[h := Queued], aq := s.t.aq + [h])
  }

  /** The device takes the next chain from the avail ring. */
  ghost predicate DeviceTakes(s: State, s': State, h: nat) {
    && s.m.availSeen != s.m.availIdx && |s.m.avail| == NUM && h == s.m.avail[s.m.availSeen % NUM] && h < |s.t.stage|
    && s'.m == s.m.(availSeen := Inc(s.m.availSeen))
    && s'.t == s.t.(stage := s.t.stage[h := Taken], aq := Rest(s.t.aq), gone := s.t.gone + 1)
  }

  /** The device does a request that it has taken, and writes a used entry. */
  ghost predicate DeviceWrites(s: State, s': State, h: nat) {
    && s.m.wrote == NONE && h < |s.t.stage| && s.t.stage[h].Taken? && |s.m.used| == NUM && Decoded(s.m, h).Some?
    && s'.m == Served(s.m, h).(used := s.m.used[s.m.usedIdx % NUM := h], wrote := h)
    && s'.t == s.t.(stage := s.t.stage[h := Wrote])
  }

  ghost predicate DeviceAnnounces(s: State, s': State, h: nat) {
    && s.m.wrote == h && h < |s.t.stage|
    && s'.m == s.m.(usedIdx := Inc(s.m.usedIdx), wrote := NONE)
    && s'.t == s.t.(stage := s.t.stage[h := Completed], uq := s.t.uq + [h])
  }

  /** virtio_disk_intr() takes and releases the lock. */
  ghost predicate Interrupt(s: State, s': State) {
    || (s.m.lock.NoOne? && s' == s.(m := s.m.(lock := Handling)))
    || (s.m.lock.Handling? && s.m.usedSeen == s.m.usedIdx && s' == s.(m := s.m.(lock := NoOne)))
  }

  /** One iteration of its loop. */
  ghost predicate Acknowledge(s: State, s': State, h: nat) {
    && s.m.lock.Handling? && s.m.usedSeen != s.m.usedIdx && |s.m.used| == NUM && h == s.m.used[s.m.usedSeen % NUM]
    && h < |s.m.infoB| && h < |s.t.stage|
    && s'.m == s.m.(busy := if s.m.infoB[h] >= 0 then s.m.busy - {s.m.infoB[h]} else s.m.busy,
                            usedSeen := Inc(s.m.usedSeen))
    && s'.t == s.t.(stage := s.t.stage[h := Acked], uq := Rest(s.t.uq), seen := s.t.seen + 1)
  }

  /** virtio_disk_rw() wakes up, finds b->disk == 0, frees the chain and returns. */
  ghost predicate Return(s: State, s': State, b: nat, h: nat, m: nat, l: nat) {
    && s.m.lock.NoOne? && b in s.m.waiting && b !in s.m.busy && h == s.m.waiting[b]
    && Chained(s.m.desc, h, m, l) && |s.m.desc| == |s.m.free| == |s.m.infoB| == |s.t.stage| == |s.t.owner|
    && s'.m == s.m.(infoB := s.m.infoB[h := NONE], waiting := s.m.waiting - {b},
                    desc := s.m.desc[h := CLEAR][m := CLEAR][l := CLEAR],
                    free := s.m.free[h := true][m := true][l := true])
    && s'.t == s.t.(stage := s.t.stage[h := Idle], owner := s.t.owner[h := NONE][m := NONE][l := NONE])
  }

  /** The holder of a buffer for which no request is under way changes its contents. */
  ghost predicate Fill(s: State, s': State, b: nat, v: Block) {
    b !in s.m.busy && b !in s.m.waiting && s' == s.(m := s.m.(data := s.m.data[b := v]))
  }

  ghost predicate Next(s: State, s': State) {
    || (exists h, m, l, r :: Format(s, s', h, m, l, r))
    || (exists h :: Publish(s, s', h)) || (exists h :: DeviceTakes(s, s', h)) || (exists h :: DeviceWrites(s, s', h))
    || (exists h :: DeviceAnnounces(s, s', h)) || Interrupt(s, s') || (exists h :: Acknowledge(s, s', h))
    || (exists b, h, m, l :: Return(s, s', b, h, m, l)) || (exists b, v :: Fill(s, s', b, v))
  }

  ghost predicate Init(s: State) {
    && |s.m.desc| == |s.m.free| == |s.m.ops| == |s.m.infoB| == |s.m.status| == |s.m.avail| == |s.m.used| == NUM
    && |s.t.stage| == |s.t.req| == |s.t.mid| == |s.t.last| == |s.t.owner| == NUM
    && (forall i :: 0 <= i < NUM ==> s.m.free[i] && s.m.desc[i] == CLEAR && s.m.infoB[i] == NONE)
    && (forall i :: 0 <= i < NUM ==> s.t.stage[i].Idle? && s.t.owner[i] == NONE)
    && s.m.availIdx == s.m.availSeen == s.m.usedIdx == s.m.usedSeen == 0 && s.m.busy == {} && s.m.waiting == map[]
    && s.m.lock.NoOne? && s.m.wrote == NONE && s.t.aq == [] && s.t.uq == [] && s.t.gone == s.t.seen == 0
  }

  ghost predicate Run(run: seq<State>) {
    && |run| > 0 && Init(run[0])
    && forall i :: 0 < i < |run| ==> Next(run[i - 1], run[i])
  }

  // ---- The invariant ----------------------------------------------------------------------------

  ghost predicate Sized(s: State) {
    && |s.m.desc| == |s.m.free| == |s.m.ops| == |s.m.infoB| == |s.m.status| == |s.m.avail| == |s.m.used| == NUM
    && |s.t.stage| == |s.t.req| == |s.t.mid| == |s.t.last| == |s.t.owner| == NUM
  }

  /** A ring holds a queue: entry `k` of the queue is `k` places after the `gone` that were removed. */
  ghost predicate Holds(ring: seq<nat>, q: seq<nat>, gone: nat) {
    && |ring| == NUM && |q| <= NUM
    && (forall k :: 0 <= k < |q| ==> q[k] < NUM && ring[(gone + k) % NUM] == q[k])
    && (forall j, k :: 0 <= j < k < |q| ==> q[j] != q[k])
  }

  ghost predicate Rings(s: State) {
    && Holds(s.m.avail, s.t.aq, s.t.gone) && Holds(s.m.used, s.t.uq, s.t.seen)
    && s.m.availIdx == (s.t.gone + |s.t.aq|) % WRAP && s.m.availSeen == s.t.gone % WRAP
    && s.m.usedIdx == (s.t.seen + |s.t.uq|) % WRAP && s.m.usedSeen == s.t.seen % WRAP
    && (s.m.lock.Submitting? ==> s.m.lock.h < NUM && s.m.avail[(s.t.gone + |s.t.aq|) % NUM] == s.m.lock.h)
    && (s.m.wrote == NONE || (0 <= s.m.wrote < NUM && s.m.used[(s.t.seen + |s.t.uq|) % NUM] == s.m.wrote))
  }

  /** The chain of a request, as the device will read it. */
  ghost predicate ChainOk(s: State, h: nat)
    requires Sized(s) && h < NUM
  {
    var m, l, r := s.t.mid[h], s.t.last[h], s.t.req[h];
    && m < NUM && l < NUM && h != m && h != l && m != l
    && s.m.desc[h] == Desc(Command(h), HEADER, true, false, m)
    && s.m.desc[m] == Desc(Data(r.b), BSIZE, true, !r.write, l)
    && s.m.desc[l] == Desc(Status(h), 1, false, true, 0) && s.m.ops[h] == BlkReq(r.write, Sector(r.blockno))
    && s.t.owner[h] == h && s.t.owner[m] == h && s.t.owner[l] == h && s.m.infoB[h] == r.b
  }

  ghost predicate HeadOk(s: State, h: nat)
    requires Sized(s) && h < NUM
  {
    var st, b := s.t.stage[h], s.t.req[h].b;
    && (st.Queued? <==> h in s.t.aq) && (st.Completed? <==> h in s.t.uq)
    && (st.Formatted? <==> s.m.lock == Submitting(h)) && (st.Wrote? <==> s.m.wrote == h)
    && (!st.Idle? ==> ChainOk(s, h)) && (st.Idle? ==> s.m.infoB[h] == NONE)
    && (st.Wrote? || st.Completed? || st.Acked? ==> s.m.status[h] == 0)
    && (!st.Idle? ==> (b in s.m.busy <==> !st.Acked?))
    && (st.Formatted? ==> b !in s.m.waiting)
    && (!st.Idle? && !st.Formatted? ==> b in s.m.waiting && s.m.waiting[b] == h)
  }

  /** Every descriptor is free, or is one of the three of one chain. */
  ghost predicate SlotOk(s: State, i: nat)
    requires Sized(s) && i < NUM
  {
    var h := s.t.owner[i];
    && (s.m.free[i] <==> h == NONE) && (s.m.free[i] ==> s.m.desc[i] == CLEAR)
    && (h != NONE ==> 0 <= h < NUM && !s.t.stage[h].Idle? && (i == h || i == s.t.mid[h] || i == s.t.last[h]))
    && (!s.t.stage[i].Idle? ==> h == i)
  }

  ghost predicate BufOk(s: State, b: nat)
    requires Sized(s)
  {
    && (b in s.m.waiting ==> s.m.waiting[b] < NUM && !s.t.stage[s.m.waiting[b]].Idle? &&
                             !s.t.stage[s.m.waiting[b]].Formatted? && s.t.req[s.m.waiting[b]].b == b)
    && (b in s.m.busy && b !in s.m.waiting ==> s.m.lock.Submitting? && s.m.lock.h < NUM && s.t.req[s.m.lock.h].b == b)
  }

  ghost predicate Inv(s: State) {
    && Sized(s) && Rings(s)
    && (forall h: nat :: h < NUM ==> HeadOk(s, h) && SlotOk(s, h))
    && (forall b: nat :: BufOk(s, b))
  }

  // ---- Queues and rings ---------------------------------------------------------------------------

  lemma {:induction false} Pigeons(q: seq<nat>, s: set<nat>)
    requires (forall k :: 0 <= k < |q| ==> q[k] in s) && (forall j, k :: 0 <= j < k < |q| ==> q[j] != q[k])
    ensures |q| <= |s|
  {
    if q != [] {
      var n := |q| - 1;
      Pigeons(q[..n], s - {q[n]});
    }
  }

  /** A queue without `h` is not full. */
  lemma NotFull(q: seq<nat>, h: nat)
    requires (forall k :: 0 <= k < |q| ==> q[k] < NUM) && (forall j, k :: 0 <= j < k < |q| ==> q[j] != q[k]) &&
             h < NUM && h !in q
    ensures |q| < NUM
  {
    var all: set<nat> := {0, 1, 2, 3, 4, 5, 6, 7};
    assert forall k :: 0 <= k < |q| ==> q[k] in q;
    Pigeons(q, all - {h});
    assert |all| == 8 && h in all;
  }

  lemma Positions(g: nat, j: nat, k: nat)
    requires j < k < j + NUM
    ensures (g + j) % NUM != (g + k) % NUM
  {
  }

  lemma Wrapped(n: nat)
    ensures (n % WRAP) % NUM == n % NUM && Inc(n % WRAP) == (n + 1) % WRAP
  {
    Eights(0x2000 * (n / WRAP), n % WRAP);
    assert (n + 1) % WRAP == (n % WRAP + 1) % WRAP;
  }

  lemma Eights(a: nat, r: nat)
    ensures (NUM * a + r) % NUM == r % NUM
  {
  }

  /** The next place in the ring is not one of the queue's. */
  lemma RoomInRing(ring: seq<nat>, q: seq<nat>, gone: nat, h: nat)
    requires Holds(ring, q, gone) && h < NUM && h !in q
    ensures |q| < NUM && Holds(ring[(gone + |q|) % NUM := h], q, gone)
  {
    NotFull(q, h);
    var ring' := ring[(gone + |q|) % NUM := h];
    forall k | 0 <= k < |q| ensures ring'[(gone + k) % NUM] == q[k] {
      Positions(gone, k, |q|);
    }
  }

  lemma Push(ring: seq<nat>, q: seq<nat>, gone: nat, h: nat)
    requires Holds(ring, q, gone) && h < NUM && h !in q && ring[(gone + |q|) % NUM] == h
    ensures Holds(ring, q + [h], gone)
  {
    NotFull(q, h);
    assert forall k :: 0 <= k < |q| ==> q[k] in q;
  }

  lemma Pop(ring: seq<nat>, q: seq<nat>, gone: nat)
    requires Holds(ring, q, gone) && q != []
    ensures Holds(ring, q[1..], gone + 1) && ring[gone % NUM] == q[0] && q[0] !in q[1..]
  {
    var q' := q[1..];
    forall k | 0 <= k < |q'| ensures q'[k] < NUM && ring[(gone + 1 + k) % NUM] == q'[k] {
      assert ring[(gone + (k + 1)) % NUM] == q[k + 1];
    }
    assert ring[(gone + 0) % NUM] == q[0];
  }

  lemma FirstOut(q: seq<nat>)
    requires q != []
    ensures q[0] in q && forall i :: i != q[0] ==> (i in q[1..] <==> i in q)
  {
    assert q == [q[0]] + q[1..];
  }

  /** The 16-bit indices are equal exactly when the queue is empty. */
  lemma EmptyWhenEqual(gone: nat, n: nat)
    requires n <= NUM
    ensures (gone + n) % WRAP == gone % WRAP <==> n == 0
  {
  }

  // ---- Every step keeps the invariant --------------------------------------------------------------

  lemma InitInv(s: State)
    requires Init(s)
    ensures Inv(s)
  {
  }

  lemma FormatKeepsInv(s: State, s': State, h: nat, m: nat, l: nat, r: Request)
    requires Inv(s) && Format(s, s', h, m, l, r)
    ensures Inv(s')
  {
    assert SlotOk(s, h) && SlotOk(s, m) && SlotOk(s, l) && HeadOk(s, h);
    FormatRings(s, s', h, m, l, r);
    hide Rings;
    forall i: nat | i < NUM ensures HeadOk(s', i) {
      FormatHead(s, s', h, m, l, r, i);
    }
    forall i: nat | i < NUM ensures SlotOk(s', i) {
      assert SlotOk(s, i) && (s.t.owner[i] != NONE ==> SlotOk(s, s.t.owner[i]));
      FormatSlot(s, s', h, m, l, r, i);
    }
    forall b: nat ensures BufOk(s', b) {
      assert BufOk(s, b);
      FormatBuf(s, s', h, m, l, r, b);
    }
  }

  lemma FormatRings(s: State, s': State, h: nat, m: nat, l: nat, r: Request)
    requires Sized(s) && Rings(s) && Format(s, s', h, m, l, r) && h < NUM && SlotOk(s, h) && HeadOk(s, h)
    ensures Sized(s') && Rings(s')
  {
    hide HeadOk, SlotOk;
    NotQueued(s, h);
    RoomInRing(s.m.avail, s.t.aq, s.t.gone, h);
    Wrapped(s.t.gone + |s.t.aq|);
  }

  /** A free descriptor is not the head of a request. */
  lemma NotQueued(s: State, h: nat)
    requires Sized(s) && h < NUM && SlotOk(s, h) && HeadOk(s, h) && s.m.free[h]
    ensures h !in s.t.aq
  {
  }

  lemma FormatSlot(s: State, s': State, h: nat, m: nat, l: nat, r: Request, i: nat)
    requires Sized(s) && Sized(s') && Format(s, s', h, m, l, r) && i < NUM && h < NUM
    requires SlotOk(s, i) && SlotOk(s, h) && SlotOk(s, m) && SlotOk(s, l) &&
             (s.t.owner[i] != NONE ==> SlotOk(s, s.t.owner[i]))
    ensures SlotOk(s', i)
  {
  }

  lemma FormatBuf(s: State, s': State, h: nat, m: nat, l: nat, r: Request, b: nat)
    requires Sized(s) && Sized(s') && Format(s, s', h, m, l, r) && h < NUM && SlotOk(s, h) && BufOk(s, b)
    ensures BufOk(s', b)
  {
  }

  lemma FormatHead(s: State, s': State, h: nat, m: nat, l: nat, r: Request, i: nat)
    requires Sized(s) && Format(s, s', h, m, l, r) && i < NUM && HeadOk(s, i) && HeadOk(s, h) && SlotOk(s, i) &&
             SlotOk(s, h) && SlotOk(s, m) && SlotOk(s, l)
    requires forall b: nat :: BufOk(s, b)
    requires !s.t.stage[i].Idle? ==> SlotOk(s, s.t.mid[i]) && SlotOk(s, s.t.last[i])
    ensures HeadOk(s', i)
  {
    assert BufOk(s, r.b);
  }

  lemma PublishKeepsInv(s: State, s': State, h: nat)
    requires Inv(s) && Publish(s, s', h)
    ensures Inv(s')
  {
    assert HeadOk(s, h);
    Push(s.m.avail, s.t.aq, s.t.gone, h);
    Wrapped(s.t.gone + |s.t.aq|);
    assert Rings(s');
    forall i: nat | i < NUM ensures HeadOk(s', i) && SlotOk(s', i) {
      assert HeadOk(s, i) && SlotOk(s, i);
    }
    forall b: nat ensures BufOk(s', b) {
      assert BufOk(s, b);
    }
  }

  lemma DeviceTakesRings(s: State, s': State, h: nat)
    requires Sized(s) && Rings(s) && DeviceTakes(s, s', h)
    ensures Sized(s') && Rings(s') && s.t.aq != [] && h == s.t.aq[0] < NUM && h in s.t.aq && h !in s'.t.aq
    ensures forall i :: i != h ==> (i in s'.t.aq <==> i in s.t.aq)
  {
    EmptyWhenEqual(s.t.gone, |s.t.aq|);
    Pop(s.m.avail, s.t.aq, s.t.gone);
    Wrapped(s.t.gone);
    FirstOut(s.t.aq);
    hide Holds;
  }

  lemma DeviceTakesKeepsInv(s: State, s': State, h: nat)
    requires Inv(s) && DeviceTakes(s, s', h)
    ensures Inv(s') && s.t.aq != [] && h == s.t.aq[0]
  {
    DeviceTakesRings(s, s', h);
    hide Rings;
    assert HeadOk(s, h);
    forall i: nat | i < NUM ensures HeadOk(s', i) && SlotOk(s', i) {
      assert HeadOk(s, i) && SlotOk(s, i);
    }
    forall b: nat ensures BufOk(s', b) {
      assert BufOk(s, b);
    }
  }

  lemma ThreeLong(desc: seq<Desc>, h: nat, m: nat, l: nat)
    requires Chained(desc, h, m, l)
    ensures Chain(desc, h, NUM) == [desc[h], desc[m], desc[l]]
  {
    assert Chain(desc, l, NUM - 2) == [desc[l]];
    assert Chain(desc, m, NUM - 1) == [desc[m]] + Chain(desc, l, NUM - 2);
  }

  lemma Sectors(blockno: nat)
    ensures Sector(blockno) % (BSIZE / SECTOR) == 0 && Sector(blockno) / (BSIZE / SECTOR) == blockno % 0x8000_0000
  {
  }

  /** The request as the device gets it: only 31 bits of the block number fit. */
  function Sent(r: Request): (r': Request) { r.(blockno := r.blockno % 0x8000_0000) }

  lemma Decodes(s: State, h: nat)
    requires Sized(s) && h < NUM && ChainOk(s, h)
    ensures Decoded(s.m, h) == Some(Sent(s.t.req[h])) && Chain(s.m.desc, h, NUM)[2].addr == Status(h)
    ensures Writable(s.m.desc, h) == {Status(h)} + if s.t.req[h].write then {} else {Data(s.t.req[h].b)}
  {
    var m, l := s.t.mid[h], s.t.last[h];
    ThreeLong(s.m.desc, h, m, l);
    Sectors(s.t.req[h].blockno);
    hide Sector;
    var c := [s.m.desc[h], s.m.desc[m], s.m.desc[l]];
    assert c[0] in c && c[1] in c && c[2] in c;
  }

  /** All but the contents of a buffer or a block. */
  lemma ServedIs(s: State, s': State, h: nat)
    requires Sized(s) && h < NUM && ChainOk(s, h) && DeviceWrites(s, s', h)
    ensures s'.m == s.m.(status := s.m.status[h := 0], used := s.m.used[s.m.usedIdx % NUM := h], wrote := h,
                         data := s'.m.data, disk := s'.m.disk)
  {
    Decodes(s, h);
  }

  lemma DeviceWritesRings(s: State, s': State, h: nat)
    requires Sized(s) && h < NUM && Rings(s) && HeadOk(s, h) && DeviceWrites(s, s', h)
    ensures Sized(s') && Rings(s')
  {
    ServedIs(s, s', h);
    assert h !in s.t.uq && s'.t == s.t.(stage := s.t.stage[h := Wrote]);
    hide DeviceWrites, HeadOk, Decoded, Served, Chain;
    RoomInRing(s.m.used, s.t.uq, s.t.seen, h);
    Wrapped(s.t.seen + |s.t.uq|);
  }

  lemma DeviceWritesHead(s: State, s': State, h: nat, i: nat)
    requires Sized(s) && h < NUM && i < NUM && HeadOk(s, h) && HeadOk(s, i) && SlotOk(s, i) && s.t.stage[h].Taken?
    requires s.m.wrote == NONE && s'.t == s.t.(stage := s.t.stage[h := Wrote])
    requires s'.m == s.m.(status := s.m.status[h := 0], used := s'.m.used, wrote := h, data := s'.m.data,
                          disk := s'.m.disk)
    requires Sized(s')
    ensures HeadOk(s', i) && SlotOk(s', i)
  {
  }

  lemma DeviceWritesBuf(s: State, s': State, h: nat, b: nat)
    requires Sized(s) && Sized(s') && h < NUM && BufOk(s, b) && s.t.stage[h].Taken?
    requires s'.t == s.t.(stage := s.t.stage[h := Wrote])
    requires s'.m == s.m.(status := s.m.status[h := 0], used := s'.m.used, wrote := h, data := s'.m.data,
                          disk := s'.m.disk)
    ensures BufOk(s', b)
  {
  }

  lemma DeviceWritesKeepsInv(s: State, s': State, h: nat)
    requires Inv(s) && DeviceWrites(s, s', h)
    ensures Inv(s')
  {
    assert HeadOk(s, h);
    DeviceWritesRings(s, s', h);
    ServedIs(s, s', h);
    hide Rings, Decoded, Served, HeadOk, SlotOk, BufOk, ChainOk;
    forall i: nat | i < NUM ensures HeadOk(s', i) && SlotOk(s', i) {
      DeviceWritesHead(s, s', h, i);
    }
    forall b: nat ensures BufOk(s', b) {
      DeviceWritesBuf(s, s', h, b);
    }
  }

  lemma DeviceAnnouncesKeepsInv(s: State, s': State, h: nat)
    requires Inv(s) && DeviceAnnounces(s, s', h)
    ensures Inv(s')
  {
    assert HeadOk(s, h);
    Push(s.m.used, s.t.uq, s.t.seen, h);
    Wrapped(s.t.seen + |s.t.uq|);
    assert Rings(s');
    forall i: nat | i < NUM ensures HeadOk(s', i) && SlotOk(s', i) {
      assert HeadOk(s, i) && SlotOk(s, i);
    }
    forall b: nat ensures BufOk(s', b) {
      assert BufOk(s, b);
    }
  }

  lemma InterruptKeepsInv(s: State, s': State)
    requires Inv(s) && Interrupt(s, s')
    ensures Inv(s')
  {
    forall i: nat | i < NUM ensures HeadOk(s', i) && SlotOk(s', i) {
      assert HeadOk(s, i) && SlotOk(s, i);
    }
    forall b: nat ensures BufOk(s', b) {
      assert BufOk(s, b);
    }
  }

  lemma AcknowledgeRings(s: State, s': State, h: nat)
    requires Sized(s) && Rings(s) && Acknowledge(s, s', h)
    ensures Sized(s') && Rings(s') && s.t.uq != [] && h == s.t.uq[0] < NUM && h in s.t.uq && h !in s'.t.uq
    ensures forall i :: i != h ==> (i in s'.t.uq <==> i in s.t.uq)
  {
    EmptyWhenEqual(s.t.seen, |s.t.uq|);
    Pop(s.m.used, s.t.uq, s.t.seen);
    Wrapped(s.t.seen);
    FirstOut(s.t.uq);
    hide Holds;
  }

  lemma AcknowledgeKeepsInv(s: State, s': State, h: nat)
    requires Inv(s) && Acknowledge(s, s', h)
    ensures Inv(s') && s.t.uq != [] && h == s.t.uq[0]
  {
    AcknowledgeRings(s, s', h);
    hide Rings;
    assert HeadOk(s, h);
    forall i: nat | i < NUM ensures HeadOk(s', i) && SlotOk(s', i) {
      assert HeadOk(s, i) && SlotOk(s, i);
    }
    forall b: nat ensures BufOk(s', b) {
      assert BufOk(s, b);
    }
  }

  lemma ReturnKeepsInv(s: State, s': State, b: nat, h: nat, m: nat, l: nat)
    requires Inv(s) && Return(s, s', b, h, m, l)
    ensures Inv(s') && s.t.stage[h].Acked? && s.m.free == s'.m.free[h := false][m := false][l := false]
  {
    assert BufOk(s, b) && HeadOk(s, h) && m == s.t.mid[h] && l == s.t.last[h] && SlotOk(s, h) && SlotOk(s, m) &&
           SlotOk(s, l);
    forall i: nat | i < NUM ensures HeadOk(s', i) {
      ReturnHead(s, s', b, h, m, l, i);
    }
    forall i: nat | i < NUM ensures SlotOk(s', i) {
      assert SlotOk(s, i) && HeadOk(s, i);
      ReturnSlot(s, s', b, h, m, l, i);
    }
    forall c: nat ensures BufOk(s', c) {
      assert BufOk(s, c);
      ReturnBuf(s, s', b, h, m, l, c);
    }
    hide HeadOk, SlotOk, BufOk;
  }

  lemma ReturnSlot(s: State, s': State, b: nat, h: nat, m: nat, l: nat, i: nat)
    requires Sized(s) && Return(s, s', b, h, m, l) && i < NUM && h < NUM && HeadOk(s, h) && SlotOk(s, i)
    requires BufOk(s, b) && m == s.t.mid[h] && l == s.t.last[h]
    ensures SlotOk(s', i)
  {
  }

  lemma ReturnBuf(s: State, s': State, b: nat, h: nat, m: nat, l: nat, c: nat)
    requires Sized(s) && Return(s, s', b, h, m, l) && h < NUM && HeadOk(s, h) && BufOk(s, b) && BufOk(s, c)
    ensures BufOk(s', c)
  {
  }

  lemma ReturnHead(s: State, s': State, b: nat, h: nat, m: nat, l: nat, i: nat)
    requires Sized(s) && Return(s, s', b, h, m, l) && i < NUM && h < NUM && HeadOk(s, i) && HeadOk(s, h) && BufOk(s, b)
    requires !s.t.stage[i].Idle? ==> SlotOk(s, i) && SlotOk(s, s.t.mid[i]) && SlotOk(s, s.t.last[i])
    ensures HeadOk(s', i)
  {
  }

  lemma FillKeepsInv(s: State, s': State, b: nat, v: Block)
    requires Inv(s) && Fill(s, s', b, v)
    ensures Inv(s')
  {
    forall i: nat | i < NUM ensures HeadOk(s', i) && SlotOk(s', i) {
      assert HeadOk(s, i) && SlotOk(s, i);
    }
    forall c: nat ensures BufOk(s', c) {
      assert BufOk(s, c);
    }
  }

  lemma NextKeepsInv(s: State, s': State)
    requires Inv(s) && Next(s, s')
    ensures Inv(s')
  {
    hide Inv, Format, Publish, DeviceTakes, DeviceWrites, DeviceAnnounces, Interrupt, Acknowledge, Return, Fill;
    if h, m, l, r :| Format(s, s', h, m, l, r) {
      FormatKeepsInv(s, s', h, m, l, r);
    } else if h :| Publish(s, s', h) {
      PublishKeepsInv(s, s', h);
    } else if h :| DeviceTakes(s, s', h) {
      DeviceTakesKeepsInv(s, s', h);
    } else if h :| DeviceWrites(s, s', h) {
      DeviceWritesKeepsInv(s, s', h);
    } else if h :| DeviceAnnounces(s, s', h) {
      DeviceAnnouncesKeepsInv(s, s', h);
    } else if Interrupt(s, s') {
      InterruptKeepsInv(s, s');
    } else if h :| Acknowledge(s, s', h) {
      AcknowledgeKeepsInv(s, s', h);
    } else if b, h, m, l :| Return(s, s', b, h, m, l) {
      ReturnKeepsInv(s, s', b, h, m, l);
    } else {
      var b, v :| Fill(s, s', b, v);
      FillKeepsInv(s, s', b, v);
    }
  }

  /** The invariant holds in every state of every run. */
  lemma {:induction false} RunKeepsInv(run: seq<State>, i: nat)
    requires Run(run) && i < |run|
    ensures Inv(run[i])
  {
    if i == 0 {
      InitInv(run[0]);
    } else {
      RunKeepsInv(run, i - 1);
      NextKeepsInv(run[i - 1], run[i]);
    }
  }

  // ---- What follows -----------------------------------------------------------------------------

  /** Free descriptors and the chains of three of the requests in progress partition the table. */
  lemma Partition(run: seq<State>, i: nat, d: nat)
    requires Run(run) && i < |run| && d < NUM
    ensures var s := run[i];
            && Sized(s)
            && if s.m.free[d] then s.m.desc[d] == CLEAR && s.m.infoB[d] == NONE &&
                                   forall h: nat :: h < NUM && !s.t.stage[h].Idle? ==>
                                                      d != h && d != s.t.mid[h] && d != s.t.last[h]
               else exists h: nat :: h < NUM && !s.t.stage[h].Idle? && Chained(s.m.desc, h, s.t.mid[h], s.t.last[h])
                                     && (d == h || d == s.t.mid[h] || d == s.t.last[h])
  {
    RunKeepsInv(run, i);
    var s := run[i];
    assert SlotOk(s, d);
    if s.m.free[d] {
      assert HeadOk(s, d);
      forall h: nat | h < NUM && !s.t.stage[h].Idle? ensures d != h && d != s.t.mid[h] && d != s.t.last[h] {
        assert HeadOk(s, h);
      }
    } else {
      assert HeadOk(s, s.t.owner[d]);
    }
  }

  /** The device takes the heads in the order in which they were published, although the index wraps
      at 16 bits. From the chain it reads the request that was made, exactly if its block number fits
      in 31 bits; and the chain lets it write the status byte and, for a read alone, the buffer. */
  lemma DeviceSeesRequests(run: seq<State>, i: nat, s': State, h: nat)
    requires Run(run) && i < |run| && DeviceTakes(run[i], s', h)
    ensures run[i].t.aq != [] && h == run[i].t.aq[0] < NUM && Sized(run[i]) && run[i].t.stage[h].Queued?
    ensures var r := run[i].t.req[h];
            && Decoded(s'.m, h) == Some(Sent(r)) && (Sent(r) == r <==> r.blockno < 0x8000_0000)
            && Writable(s'.m.desc, h) == {Status(h)} + if r.write then {} else {Data(r.b)}
  {
    RunKeepsInv(run, i);
    DeviceTakesKeepsInv(run[i], s', h);
    assert run[i].t.aq[0] in run[i].t.aq && HeadOk(run[i], h) && HeadOk(s', h);
    Decodes(s', h);
  }

  /** When there is an entry that the driver has not seen, it names a chain in use that the device
      has finished without error, and its info.b is the buffer of that request. */
  lemma UsedEntriesAreLive(run: seq<State>, i: nat)
    requires Run(run) && i < |run|
    ensures var s := run[i];
            && Sized(s)
            && (s.m.usedSeen != s.m.usedIdx ==>
                  var h := s.m.used[s.m.usedSeen % NUM];
                  h < NUM && s.t.stage[h].Completed? && s.m.infoB[h] == s.t.req[h].b && s.m.infoB[h] >= 0 &&
                    s.m.status[h] == 0)
  {
    RunKeepsInv(run, i);
    var s := run[i];
    if s.m.usedSeen != s.m.usedIdx {
      EmptyWhenEqual(s.t.seen, |s.t.uq|);
      Pop(s.m.used, s.t.uq, s.t.seen);
      Wrapped(s.t.seen);
      assert s.t.uq[0] in s.t.uq && HeadOk(s, s.t.uq[0]);
    }
  }

  /** A request returns only after the device has finished it and the driver has seen that; and it
      frees exactly its own three descriptors. */
  lemma ReturnsWhenDone(run: seq<State>, i: nat, s': State, b: nat, h: nat, m: nat, l: nat)
    requires Run(run) && i < |run| && Return(run[i], s', b, h, m, l)
    ensures var s := run[i];
            && Sized(s) && h < NUM && s.t.stage[h].Acked? && s.t.req[h].b == b && s.m.status[h] == 0
            && m == s.t.mid[h] && l == s.t.last[h] && !s.m.free[h] && !s.m.free[m] && !s.m.free[l]
  {
    RunKeepsInv(run, i);
    var s := run[i];
    assert BufOk(s, b) && HeadOk(s, h) && SlotOk(s, h) && SlotOk(s, s.t.mid[h]) && SlotOk(s, s.t.last[h]);
  }

  /** No entry of the avail ring that the device has not read is overwritten. */
  lemma AvailIsNotOverwritten(run: seq<State>, i: nat, s': State, h: nat, m: nat, l: nat, r: Request, k: nat)
    requires Run(run) && i < |run| && Format(run[i], s', h, m, l, r) && k < |run[i].t.aq|
    ensures s'.m.avail[(run[i].t.gone + k) % NUM] == run[i].m.avail[(run[i].t.gone + k) % NUM] == run[i].t.aq[k]
  {
    RunKeepsInv(run, i);
    FormatKeepsInv(run[i], s', h, m, l, r);
    var s := run[i];
    assert s'.t.aq[k] == s.t.aq[k] && s.m.avail[(s.t.gone + k) % NUM] == s.t.aq[k] &&
           s'.m.avail[(s'.t.gone + k) % NUM] == s'.t.aq[k];
  }

  // ---- What a request comes to ---------------------------------------------------------------------

  /** The request at `h` has not been done yet, and has been done. */
  predicate Pending(st: Stage) { st.Formatted? || st.Queued? || st.Taken? }
  predicate Done(st: Stage) { st.Wrote? || st.Completed? || st.Acked? }

  /** A buffer has one request at a time. */
  lemma OneRequest(s: State, h: nat, h2: nat)
    requires Inv(s) && h < NUM && h2 < NUM && h != h2 && !s.t.stage[h].Idle? && !s.t.stage[h2].Idle?
    ensures s.t.req[h].b != s.t.req[h2].b
  {
    assert HeadOk(s, h) && HeadOk(s, h2);
  }

  /** The request at `h` and its buffer are as they were, if it has not returned. */
  ghost predicate Undisturbed(s: State, s': State, h: nat) {
    && Sized(s) && Sized(s') && h < NUM && At(s'.m.data, s.t.req[h].b) == At(s.m.data, s.t.req[h].b)
    && (!s'.t.stage[h].Idle? ==>
          && s'.t.req[h] == s.t.req[h] && s'.t.mid[h] == s.t.mid[h] && s'.t.last[h] == s.t.last[h]
          && (Pending(s.t.stage[h]) <==> Pending(s'.t.stage[h])))
  }

  lemma SubmitsAnother(s: State, s': State, h: nat, h2: nat)
    requires Sized(s) && Sized(s') && h < NUM && HeadOk(s, h) && SlotOk(s, h) && !s.t.stage[h].Idle?
    requires (exists m, l, r :: Format(s, s', h2, m, l, r)) || Publish(s, s', h2)
    ensures Undisturbed(s, s', h)
  {
  }

  lemma DriverGoesOn(s: State, s': State, h: nat)
    requires Sized(s) && Sized(s') && h < NUM && HeadOk(s, h) && !s.t.stage[h].Idle?
    requires (exists h2 :: DeviceAnnounces(s, s', h2)) || Interrupt(s, s') || (exists b, v :: Fill(s, s', b, v)) ||
             exists b, h2, m, l :: Return(s, s', b, h2, m, l)
    ensures Undisturbed(s, s', h)
  {
  }

  lemma Passes(s: State, s': State, h: nat, h2: nat)
    requires Sized(s) && Sized(s') && h < NUM && h2 < NUM && !s.t.stage[h].Idle?
    requires (DeviceTakes(s, s', h2) && s.t.stage[h2].Queued?) || (Acknowledge(s, s', h2) && s.t.stage[h2].Completed?)
    ensures Undisturbed(s, s', h)
  {
  }

  /** A step of another request, or of the driver or the holder of another buffer, changes neither the
      request at `h` nor its buffer. */
  lemma StepOfOthers(s: State, s': State, h: nat)
    requires Inv(s) && Next(s, s') && h < NUM && !s.t.stage[h].Idle? && !DeviceWrites(s, s', h)
    ensures Undisturbed(s, s', h)
  {
    NextKeepsInv(s, s');
    assert HeadOk(s, h) && SlotOk(s, h);
    hide Inv, HeadOk, SlotOk, Format, Publish, DeviceTakes, DeviceWrites, DeviceAnnounces, Interrupt, Acknowledge,
         Return, Fill, Undisturbed;
    if h2, m, l, r :| Format(s, s', h2, m, l, r) {
      SubmitsAnother(s, s', h, h2);
    } else if h2 :| Publish(s, s', h2) {
      SubmitsAnother(s, s', h, h2);
    } else if h2 :| DeviceTakes(s, s', h2) {
      TakesQueued(s, s', h2);
      Passes(s, s', h, h2);
    } else if h2 :| DeviceWrites(s, s', h2) {
      OtherServed(s, s', h, h2);
    } else if h2 :| Acknowledge(s, s', h2) {
      AcknowledgesCompleted(s, s', h2);
      Passes(s, s', h, h2);
    } else {
      DriverGoesOn(s, s', h);
    }
  }

  lemma TakesQueued(s: State, s': State, h: nat)
    requires Inv(s) && DeviceTakes(s, s', h)
    ensures h < NUM && s.t.stage[h].Queued?
  {
    DeviceTakesRings(s, s', h);
    assert HeadOk(s, h);
  }

  lemma AcknowledgesCompleted(s: State, s': State, h: nat)
    requires Inv(s) && Acknowledge(s, s', h)
    ensures h < NUM && s.t.stage[h].Completed?
  {
    AcknowledgeRings(s, s', h);
    assert HeadOk(s, h);
  }

  lemma OtherServed(s: State, s': State, h: nat, h2: nat)
    requires Inv(s) && h < NUM && h != h2 && !s.t.stage[h].Idle? && DeviceWrites(s, s', h2)
    ensures Undisturbed(s, s', h)
  {
    OneRequest(s, h, h2);
    assert HeadOk(s, h2);
    Decodes(s, h2);
    hide Decoded;
  }

  lemma ServedIsDone(s: State, s': State, h: nat)
    requires Sized(s) && h < NUM && DeviceWrites(s, s', h)
    ensures s.t.stage[h].Taken? && s'.t == s.t.(stage := s.t.stage[h := Wrote])
  {
  }

  /** A request at `h` begins with Format. */
  lemma IdleOrFormatted(s: State, s': State, h: nat)
    requires Inv(s) && Next(s, s') && h < NUM && s.t.stage[h].Idle?
    ensures Sized(s') && (s'.t.stage[h].Idle? || exists m, l :: Format(s, s', h, m, l, s'.t.req[h]))
  {
    NextKeepsInv(s, s');
    hide Inv;
    if h2, m2, l2, r :| Format(s, s', h2, m2, l2, r) {
      assert h2 == h ==> s'.t.req[h] == r;
    } else if h2 :| Publish(s, s', h2) {
      assert HeadOk(s, h) by { Heads(s, h); }
    } else if h2 :| DeviceTakes(s, s', h2) {
      TakesQueued(s, s', h2);
    } else if h2 :| DeviceWrites(s, s', h2) {
    } else if h2 :| DeviceAnnounces(s, s', h2) {
      assert HeadOk(s, h) by { Heads(s, h); }
    } else if Interrupt(s, s') {
    } else if h2 :| Acknowledge(s, s', h2) {
      AcknowledgesCompleted(s, s', h2);
    } else if b, h2, m2, l2 :| Return(s, s', b, h2, m2, l2) {
    } else {
      var b, v :| Fill(s, s', b, v);
    }
  }

  lemma Heads(s: State, h: nat)
    requires Inv(s) && h < NUM
    ensures Sized(s) && HeadOk(s, h)
  {
  }

  lemma StepOfRun(run: seq<State>, j: nat)
    requires Run(run) && 0 < j < |run|
    ensures Inv(run[j - 1]) && Sized(run[j - 1]) && Next(run[j - 1], run[j])
  {
    RunKeepsInv(run, j - 1);
  }

  lemma IdleAtFirst(run: seq<State>, h: nat)
    requires Run(run) && h < NUM
    ensures Sized(run[0]) && run[0].t.stage[h].Idle?
  {
  }

  lemma FormatIs(s: State, s': State, h: nat, m: nat, l: nat, r: Request)
    requires Format(s, s', h, m, l, r)
    ensures h < NUM && |s'.t.stage| == |s'.t.mid| == |s'.t.last| == NUM
    ensures s'.t.stage[h].Formatted? && s'.t.mid[h] == m && s'.t.last[h] == l && s'.m.data == s.m.data
  {
  }

  lemma Indices(s: State)
    requires Sized(s)
    ensures |s.t.stage| == |s.t.req| == |s.t.mid| == |s.t.last| == NUM
  {
  }

  lemma PendingOrDone(st: Stage)
    ensures (Pending(st) || Done(st)) <==> !st.Idle?
    ensures !Pending(st) || !Done(st)
    ensures (st.Formatted? || st.Taken? ==> Pending(st)) && (st.Wrote? ==> Done(st))
  {
  }

  lemma UndisturbedIs(s: State, s': State, h: nat)
    requires Undisturbed(s, s', h)
    ensures |s.t.req| == |s'.t.req| == |s.t.mid| == |s'.t.mid| == |s.t.last| == |s'.t.last|
    ensures |s.t.stage| == |s'.t.stage| == |s.t.req|
    ensures h < |s.t.req| && At(s'.m.data, s.t.req[h].b) == At(s.m.data, s.t.req[h].b)
    ensures !s'.t.stage[h].Idle? ==>
              && s'.t.req[h] == s.t.req[h] && s'.t.mid[h] == s.t.mid[h] && s'.t.last[h] == s.t.last[h]
              && (Pending(s.t.stage[h]) <==> Pending(s'.t.stage[h]))
  {
  }

  /** Until the device does it, a request and the contents of its buffer are as they were made. */
  lemma {:induction false} AsSubmitted(run: seq<State>, j: nat, h: nat) returns (i: nat, m: nat, l: nat)
    requires Run(run) && j < |run| && h < NUM && Sized(run[j]) && Pending(run[j].t.stage[h])
    ensures i < j && Format(run[i], run[i + 1], h, m, l, run[j].t.req[h])
    ensures m == run[j].t.mid[h] && l == run[j].t.last[h]
    ensures var b := run[j].t.req[h].b; At(run[j].m.data, b) == At(run[i].m.data, b)
    decreases j
  {
    hide *;
    if j == 0 {
      IdleAtFirst(run, h);
      PendingOrDone(run[j].t.stage[h]);
      assert false;
    } else {
      var s, s' := run[j - 1], run[j];
      StepOfRun(run, j);
      Indices(s);
      Indices(s');
      PendingOrDone(s'.t.stage[h]);
      PendingOrDone(s.t.stage[h]);
      if s.t.stage[h].Idle? {
        IdleOrFormatted(s, s', h);
        m, l :| Format(s, s', h, m, l, s'.t.req[h]);
        FormatIs(s, s', h, m, l, s'.t.req[h]);
        i := j - 1;
      } else {
        if DeviceWrites(s, s', h) {
          ServedIsDone(s, s', h);
          assert false;
        }
        StepOfOthers(s, s', h);
        UndisturbedIs(s, s', h);
        i, m, l := AsSubmitted(run, j - 1, h);
      }
    }
  }

  /** Since the device did it, the buffer of a request has not changed. */
  lemma {:induction false} AsServed(run: seq<State>, j: nat, h: nat) returns (k: nat)
    requires Run(run) && j < |run| && h < NUM && Sized(run[j]) && Done(run[j].t.stage[h])
    ensures k < j && DeviceWrites(run[k], run[k + 1], h) && Sized(run[k]) && run[k].t.req[h] == run[j].t.req[h]
    ensures run[k].t.mid[h] == run[j].t.mid[h] && run[k].t.last[h] == run[j].t.last[h]
    ensures var b := run[j].t.req[h].b; At(run[j].m.data, b) == At(run[k + 1].m.data, b)
    decreases j
  {
    hide *;
    if j == 0 {
      IdleAtFirst(run, h);
      PendingOrDone(run[j].t.stage[h]);
      assert false;
    } else {
      var s, s' := run[j - 1], run[j];
      StepOfRun(run, j);
      Indices(s);
      Indices(s');
      PendingOrDone(s'.t.stage[h]);
      PendingOrDone(s.t.stage[h]);
      if DeviceWrites(s, s', h) {
        ServedIsDone(s, s', h);
        k := j - 1;
      } else {
        if s.t.stage[h].Idle? {
          IdleOrFormatted(s, s', h);
          var m, l :| Format(s, s', h, m, l, s'.t.req[h]);
          FormatIs(s, s', h, m, l, s'.t.req[h]);
          assert false;
        }
        StepOfOthers(s, s', h);
        UndisturbedIs(s, s', h);
        k := AsServed(run, j - 1, h);
      }
    }
  }

  /** The step in which the device does a request changes nothing but the one block, or the buffer. */
  lemma ServedExactly(s: State, s': State, h: nat)
    requires Inv(s) && h < NUM && DeviceWrites(s, s', h)
    ensures var r := Sent(s.t.req[h]);
            if r.write then s'.m.disk == s.m.disk[r.blockno := At(s.m.data, r.b)] && s'.m.data == s.m.data
            else s'.m.data == s.m.data[r.b := At(s.m.disk, r.blockno)] && s'.m.disk == s.m.disk
  {
    assert HeadOk(s, h);
    Decodes(s, h);
    hide Decoded;
  }

  lemma AckedIsDone(s: State, s': State, b: nat, h: nat, m: nat, l: nat)
    requires Return(s, s', b, h, m, l) && h < |s.t.stage| && s.t.stage[h].Acked?
    ensures Done(s.t.stage[h]) && s'.m.data == s.m.data
  {
  }

  lemma SentSame(r: Request)
    ensures Sent(r) == r.(blockno := Sent(r).blockno)
  {
  }

  lemma Updated(m: map<nat, Block>, i: nat, v: Block)
    ensures At(m[i := v], i) == v
  {
  }

  /** When virtio_disk_rw() returns, its request has been done, at a time since it was made, and on the
      block that it names: a write put there what the buffer held when the request was made, which it
      still holds; after a read the buffer holds what was there. */
  lemma RequestIsCarriedOut(run: seq<State>, j: nat, s': State, b: nat, h: nat, m: nat, l: nat)
    returns (i: nat, k: nat, r: Request)
    requires Run(run) && j < |run| && Return(run[j], s', b, h, m, l)
    ensures i < k < j && Format(run[i], run[i + 1], h, m, l, r) && r.b == b && DeviceWrites(run[k], run[k + 1], h)
    ensures var blockno := Sent(r).blockno;
            if r.write then
              && run[k + 1].m.disk == run[k].m.disk[blockno := At(run[i].m.data, b)]
              && At(s'.m.data, b) == At(run[i].m.data, b)
            else
              && run[k + 1].m.disk == run[k].m.disk
              && At(s'.m.data, b) == At(run[k].m.disk, blockno)
  {
    hide *;
    ReturnsWhenDone(run, j, s', b, h, m, l);
    AckedIsDone(run[j], s', b, h, m, l);
    k := AsServed(run, j, h);
    RunKeepsInv(run, k);
    ServedIsDone(run[k], run[k + 1], h);
    ServedExactly(run[k], run[k + 1], h);
    Indices(run[k]);
    Indices(run[j]);
    PendingOrDone(run[k].t.stage[h]);
    var m2, l2;
    i, m2, l2 := AsSubmitted(run, k, h);
    r := run[j].t.req[h];
    SentSame(r);
    Updated(run[k].m.data, b, At(run[k].m.disk, Sent(r).blockno));
  }
}
