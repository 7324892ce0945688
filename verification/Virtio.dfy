/** The descriptors of the virtio disk driver (kernel/virtio_disk.c; sections 2.6 and 5.2 of OASIS
    virtio v1.1), and how the driver allocates and frees them. */
module Virtio {
  const NUM: nat := 8
  const WRAP: nat := 0x1_0000

  /** What a descriptor points to: a command header, a buffer's data, or a status byte. */
  datatype Addr = Null | Command(i: nat) | Data(b: nat) | Status(i: nat)

  /** A descriptor: `more` is VRING_DESC_F_NEXT, `writable` VRING_DESC_F_WRITE. */
  datatype Desc = Desc(addr: Addr, len: nat, more: bool, writable: bool, next: nat)

  datatype Request = Request(b: nat, write: bool, blockno: nat)

  const CLEAR: Desc := Desc(Null, 0, false, false, 0)

  // ---- Descriptors: alloc_desc(), alloc3_desc(), free_desc(), free_chain() ------------------------

  /** `h`, `m` and `t` are a chain of three. */
  predicate Chained(desc: seq<Desc>, h: nat, m: nat, t: nat) {
    && h < |desc| && m < |desc| && t < |desc| && h != m && h != t && m != t
    && desc[h].more && desc[h].next == m && desc[m].more && desc[m].next == t && !desc[t].more
  }

  class Table {
    var desc: seq<Desc>
    var free: seq<bool>

    ghost predicate Valid()
      reads this
    {
      |desc| == NUM && |free| == NUM
    }

    /** alloc_desc(): the first free descriptor, -1 if there is none. */
    method AllocDesc() returns (r: int)
      requires Valid()
      modifies this`free
      ensures Valid()
      ensures r == -1 ==> free == old(free) && forall i :: 0 <= i < NUM ==> !free[i]
      ensures r != -1 ==> 0 <= r < NUM && old(free)[r] && free == old(free)[r := false] &&
                          forall i :: 0 <= i < r ==> !old(free)[i]
    {
      for i := 0 to NUM
        invariant forall j :: 0 <= j < i ==> !free[j]
        invariant free == old(free)
      {
        if free[i] {
          free := free[i := false];
          return i;
        }
      }
      r := -1;
    }

    /** free_desc(): its panics are the precondition. */
    method FreeDesc(i: nat)
      requires Valid() && i < NUM && !free[i]
      modifies this
      ensures Valid() && desc == old(desc)[i := CLEAR] && free == old(free)[i := true]
    {
      desc := desc[i := CLEAR];
      free := free[i := true];
    }

    /** alloc3_desc(): three descriptors; or there are not three, and nothing has changed. */
    method Alloc3Desc() returns (ok: bool, idx: seq<nat>)
      requires Valid() && forall i :: 0 <= i < NUM && free[i] ==> desc[i] == CLEAR
      modifies this
      ensures Valid() && desc == old(desc) && |idx| == 3
      ensures ok ==> Three(old(free), idx[0], idx[1], idx[2]) &&
                     free == old(free)[idx[0] := false][idx[1] := false][idx[2] := false]
      ensures !ok ==> free == old(free) && forall h: nat, m: nat, t: nat :: !Three(free, h, m, t)
    {
      idx := [0, 0, 0];
      var i := 0;
      while i < 3
        invariant i <= 3 && |idx| == 3 && Valid() && desc == old(desc) && Picked(old(free), free, idx, 0, i)
      {
        var r := AllocDesc();
        if r < 0 {
          TooFew(old(free), free, idx, i);
          PutAllBack(idx, i, old(free), old(desc));
          return false, idx;
        }
        PickOne(old(free), free[r := true], idx, i, r);
        idx := idx[i := r];
        i := i + 1;
      }
      ok := true;
      assert free == old(free)[idx[0] := false][idx[1] := false][idx[2] := false];
    }

    /** The inner loop of alloc3_desc(). */
    method PutAllBack(idx: seq<nat>, i: nat, ghost free0: seq<bool>, ghost desc0: seq<Desc>)
      requires Valid() && Picked(free0, free, idx, 0, i) && desc == desc0 &&
               forall x :: 0 <= x < NUM && free0[x] ==> desc0[x] == CLEAR
      modifies this
      ensures Valid() && desc == desc0 && free == free0
    {
      var j := 0;
      while j < i
        invariant j <= i && Valid() && Picked(free0, free, idx, j, i) && desc == desc0
      {
        PutBack(free0, free, idx, j, i);
        FreeDesc(idx[j]);
        j := j + 1;
      }
    }

    /** free_chain(): exactly the three descriptors of the chain are free and clear. */
    method FreeChain(h: nat, ghost m: nat, ghost t: nat)
      requires Valid() && Chained(desc, h, m, t) && !free[h] && !free[m] && !free[t]
      modifies this
      ensures Valid() && desc == old(desc)[h := CLEAR][m := CLEAR][t := CLEAR] &&
              free == old(free)[h := true][m := true][t := true]
    {
      var i, more := h, true;
      ghost var n := 0;
      while more
        invariant n <= 3 && Valid() && (more <==> n < 3) && (more ==> i == [h, m, t][n])
        invariant desc == Cleared(old(desc), [h, m, t], n) && free == Released(old(free), [h, m, t], n)
        decreases 3 - n
      {
        var nxt := desc[i].next;
        more := desc[i].more;
        FreeDesc(i);
        if more {
          i := nxt;
        }
        n := n + 1;
      }
      assert Cleared(old(desc), [h, m, t], 1) == old(desc)[h := CLEAR] &&
             Released(old(free), [h, m, t], 1) == old(free)[h := true];
      assert Cleared(old(desc), [h, m, t], 2) == old(desc)[h := CLEAR][m := CLEAR];
      assert Released(old(free), [h, m, t], 2) == old(free)[h := true][m := true];
    }
  }

  /** The descriptors idx[lo..hi] have been taken out of `free0`. */
  ghost predicate Picked(free0: seq<bool>, free: seq<bool>, idx: seq<nat>, lo: nat, hi: nat) {
    && lo <= hi <= |idx| && |free| == |free0|
    && (forall j :: lo <= j < hi ==> idx[j] < |free| && free0[idx[j]] && !free[idx[j]])
    && (forall j, k :: lo <= j < k < hi ==> idx[j] != idx[k])
    && (forall x :: 0 <= x < |free| && free[x] ==> free0[x])
    && (forall x :: 0 <= x < |free| && free0[x] && !free[x] ==> Among(idx, lo, hi, x))
  }

  ghost predicate Among(idx: seq<nat>, lo: nat, hi: nat, x: nat) { exists j :: lo <= j < hi <= |idx| && idx[j] == x }

  lemma PickOne(free0: seq<bool>, free: seq<bool>, idx: seq<nat>, i: nat, r: nat)
    requires Picked(free0, free, idx, 0, i) && i < |idx| && r < |free| && free[r]
    ensures Picked(free0, free[r := false], idx[i := r], 0, i + 1)
  {
    var idx', free' := idx[i := r], free[r := false];
    forall x | 0 <= x < |free| && free0[x] && !free'[x] ensures Among(idx', 0, i + 1, x) {
      if x == r {
        assert idx'[i] == x;
      } else {
        var j :| 0 <= j < i && idx[j] == x;
        assert idx'[j] == x;
      }
    }
  }

  lemma PutBack(free0: seq<bool>, free: seq<bool>, idx: seq<nat>, j: nat, i: nat)
    requires Picked(free0, free, idx, j, i) && j < i
    ensures Picked(free0, free[idx[j] := true], idx, j + 1, i)
  {
    var free' := free[idx[j] := true];
    forall x | 0 <= x < |free| && free0[x] && !free'[x] ensures Among(idx, j + 1, i, x) {
      var k :| j <= k < i && idx[k] == x;
    }
  }

  /** When nothing is left and fewer than three were found, there were never three. */
  lemma TooFew(free0: seq<bool>, free: seq<bool>, idx: seq<nat>, i: nat)
    requires Picked(free0, free, idx, 0, i) && i < 3 && forall x :: 0 <= x < |free| ==> !free[x]
    ensures forall h: nat, m: nat, t: nat :: !Three(free0, h, m, t)
  {
    forall h: nat, m: nat, t: nat ensures !Three(free0, h, m, t) {
      if h < |free| && m < |free| && t < |free| && free0[h] && free0[m] && free0[t] {
        assert Among(idx, 0, i, h) && Among(idx, 0, i, m) && Among(idx, 0, i, t);
      }
    }
  }

  ghost function Cleared(desc: seq<Desc>, idx: seq<nat>, n: nat): (d: seq<Desc>)
    requires n <= |idx| && forall j :: 0 <= j < |idx| ==> idx[j] < |desc|
    ensures |d| == |desc|
  {
    if n == 0 then desc else Cleared(desc, idx, n - 1)[idx[n - 1] := CLEAR]
  }

  ghost function Released(free: seq<bool>, idx: seq<nat>, n: nat): (f: seq<bool>)
    requires n <= |idx| && forall j :: 0 <= j < |idx| ==> idx[j] < |free|
    ensures |f| == |free|
  {
    if n == 0 then free else Released(free, idx, n - 1)[idx[n - 1] := true]
  }

  /** Three different free descriptors. */
  predicate Three(free: seq<bool>, h: nat, m: nat, t: nat) {
    h < |free| && m < |free| && t < |free| && h != m && h != t && m != t && free[h] && free[m] && free[t]
  }
}
