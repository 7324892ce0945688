/** Sv39 address arithmetic of kernel/riscv.h, on numbers: shifts are divisions and
    multiplications by powers of two, and `|` of disjoint fields is addition. */
module RiscV {
  const PGSIZE: nat := 4096
  const MAXVA: nat := 0x40_0000_0000
  const MAXPAGE: nat := 0x400_0000     // MAXVA / PGSIZE

  function PgRoundDown(a: nat): (r: nat)
    ensures r % PGSIZE == 0 && r <= a < r + PGSIZE
  {
    a / PGSIZE * PGSIZE
  }

  function PgRoundUp(a: nat): (r: nat)
    ensures r % PGSIZE == 0 && a <= r < a + PGSIZE
  {
    PgRoundDown(a + PGSIZE - 1)
  }

  /** The 9-bit index of page `vpn` at a level of the tree (PX of its address). */
  function Px(level: nat, vpn: nat): (r: nat)
    requires level <= 2
    ensures r < 512
  {
    if level == 0 then vpn % 512 else if level == 1 then vpn / 512 % 512 else vpn / 0x4_0000 % 512
  }

  function Pa2Pte(pa: nat): (r: nat) { pa / 0x1000 * 0x400 }
  function Pte2Pa(pte: nat): (r: nat) { pte / 0x400 * 0x1000 }
  function PteFlags(pte: nat): (r: nat) { pte % 0x400 }

  /** A page-aligned address and its flags survive the trip through a PTE. */
  lemma PteRoundTrip(pa: nat, flags: nat)
    requires pa % PGSIZE == 0 && flags < 0x400
    ensures Pte2Pa(Pa2Pte(pa) + flags) == pa
    ensures PteFlags(Pa2Pte(pa) + flags) == flags
  {
  }

  /** The three indices determine the page. */
  lemma IndicesDeterminePage(vpn: nat)
    requires vpn < 512 * 512 * 512
    ensures vpn == (Px(2, vpn) * 512 + Px(1, vpn)) * 512 + Px(0, vpn)
  {
    assert vpn / 0x4_0000 == vpn / 512 / 512;
  }

  /** ... and every triple of indices is the indices of some page of the tree. */
  lemma PageOfIndices(i: nat, j: nat, k: nat)
    requires i < 512 && j < 512 && k < 512
    ensures var vpn := (i * 512 + j) * 512 + k;
            Px(2, vpn) == i && Px(1, vpn) == j && Px(0, vpn) == k
  {
    var vpn := (i * 512 + j) * 512 + k;
    assert vpn / 512 == i * 512 + j;
    assert vpn / 0x4_0000 == vpn / 512 / 512 == i;
  }
}
