/** Circular doubly linked lists through index arrays, as kernel/bio.c keeps its buffers:
    `next` and `prev` are the pointer fields, and the list head is a node of its own. */
module Lru {
  /** The nodes from the head round to the head again, in `next` order. */
  ghost predicate Linked(ring: seq<nat>, head: nat, next: seq<nat>, prev: seq<nat>) {
    && |ring| >= 2 && ring[0] == ring[|ring| - 1] == head
    && |next| == |prev| && head < |next|
    && (forall i :: 0 < i < |ring| - 1 ==> ring[i] < |next| && ring[i] != head)
    && (forall i, j :: 0 < i < j < |ring| - 1 ==> ring[i] != ring[j])
    && (forall i {:trigger next[ring[i]]} :: 0 <= i < |ring| - 1 ==> next[ring[i]] == ring[i + 1])
    && (forall i {:trigger prev[ring[i]]} :: 0 < i < |ring| ==> prev[ring[i]] == ring[i - 1])
  }

  /** Take node `ring[p]` out: two pointer writes. */
  lemma Unlink(ring: seq<nat>, head: nat, next: seq<nat>, prev: seq<nat>, p: nat)
    requires Linked(ring, head, next, prev) && 0 < p < |ring| - 1
    ensures var b := ring[p];
            && prev[b] == ring[p - 1] < |next| && next[b] == ring[p + 1] < |prev|
            && Linked(ring[..p] + ring[p + 1..], head, next[prev[b] := next[b]], prev[next[b] := prev[b]])
  {
    var b := ring[p];
    var r, n', p' := ring[..p] + ring[p + 1..], next[prev[b] := next[b]], prev[next[b] := prev[b]];
    assert forall i :: 0 <= i < |r| ==> r[i] == ring[if i < p then i else i + 1];
    forall i {:trigger n'[r[i]]} | 0 <= i < |r| - 1 ensures n'[r[i]] == r[i + 1] {
      if i < p - 1 {
        assert next[ring[i]] == ring[i + 1];
      } else if i > p - 1 {
        assert next[ring[i + 1]] == ring[i + 2];
      }
    }
    forall i {:trigger p'[r[i]]} | 0 < i < |r| ensures p'[r[i]] == r[i - 1] {
      if i < p {
        assert prev[ring[i]] == ring[i - 1];
      } else if i > p {
        assert prev[ring[i + 1]] == ring[i];
      }
    }
  }

  /** Insert a node right behind the head: four pointer writes. */
  lemma PushFront(ring: seq<nat>, head: nat, next: seq<nat>, prev: seq<nat>, b: nat)
    requires Linked(ring, head, next, prev) && b < |next| && b !in ring
    ensures next[head] == ring[1] < |next|
    ensures Linked([head, b] + ring[1..], head, next[b := next[head]][head := b], prev[b := head][next[head] := b])
  {
    assert next[ring[0]] == ring[1];
    var r, n', p' := [head, b] + ring[1..], next[b := next[head]][head := b], prev[b := head][next[head] := b];
    assert forall i :: 2 <= i < |r| ==> r[i] == ring[i - 1];
    forall i {:trigger n'[r[i]]} | 0 <= i < |r| - 1 ensures n'[r[i]] == r[i + 1] {
      if i > 1 {
        assert next[ring[i - 1]] == ring[i];
      }
    }
    forall i {:trigger p'[r[i]]} | 0 < i < |r| ensures p'[r[i]] == r[i - 1] {
      if i > 2 {
        assert prev[ring[i - 1]] == ring[i - 2];
        assert ring[1] != ring[i - 1];
      }
    }
  }
}
