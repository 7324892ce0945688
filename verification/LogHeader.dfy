/** struct logheader (kernel/log.c): a count and that many block numbers, stored as words
    at the front of the header block; what follows them is left as it was. */
module LogHeader {
  import opened Params
  import opened Blocks

  ghost predicate Storable(bl: seq<nat>) {
    |bl| <= LOGBLOCKS && forall i :: 0 <= i < |bl| ==> bl[i] < 0x1_0000_0000
  }

  /** write_head()'s loop, from entry 0 up to entry `k`. */
  ghost function SetEntries(b: Block, bl: seq<nat>, k: nat): (r: Block)
    requires Storable(bl) && k <= |bl|
    ensures GetWord(r, 0) == GetWord(b, 0)
    ensures forall i: nat :: i < k ==> GetWord(r, i + 1) == bl[i]
  {
    if k == 0 then b else SetWord(SetEntries(b, bl, k - 1), k, bl[k - 1])
  }

  ghost function SetHead(b: Block, bl: seq<nat>): (r: Block)
    requires Storable(bl)
    ensures HasHead(r) && HeadBlocks(r) == bl
  {
    SetEntries(SetWord(b, 0, |bl|), bl, |bl|)
  }

  ghost predicate HasHead(b: Block) { GetWord(b, 0) <= LOGBLOCKS }

  ghost function HeadBlocks(b: Block): (bl: seq<nat>)
    requires HasHead(b)
    ensures |bl| == GetWord(b, 0) && forall i :: 0 <= i < |bl| ==> bl[i] == GetWord(b, i + 1)
  {
    seq(GetWord(b, 0), i requires 0 <= i < GetWord(b, 0) => GetWord(b, i + 1))
  }
}
