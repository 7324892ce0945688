/** Directories as files: struct dirent (kernel/fs.h), and dirlookup() and dirlink() of kernel/fs.c over
    readi() and writei(). */
module Dirents {
  import opened Params
  import opened Blocks
  import opened Inodes
  import opened FileSys
  import opened FileOps
  import N = Names

  const DIRENT: nat := 16

  // ---- struct dirent -----------------------------------------------------------------------------

  /** The characters of a C string that are its own. */
  ghost predicate IsName(s: string) { forall k :: 0 <= k < |s| ==> 0 < s[k] as int < 256 }

  ghost predicate Encodable(e: N.Entry) { e.inum < 0x1_0000 && IsName(e.name) }

  /** strncpy() to de.name: the name, filled up with zeroes. */
  function NameBytes(s: string, n: nat): (d: seq<Byte>)
    requires forall k :: 0 <= k < |s| ==> s[k] as int < 256
    ensures |d| == n && forall k :: 0 <= k < n ==> d[k] == if k < |s| then s[k] as int else 0
  {
    if n == 0 then [] else NameBytes(s, n - 1) + [if n - 1 < |s| then s[n - 1] as int else 0]
  }

  function Encode(e: N.Entry): (d: seq<Byte>)
    requires e.inum < 0x1_0000 && forall k :: 0 <= k < |e.name| ==> e.name[k] as int < 256
    ensures |d| == DIRENT
  {
    [e.inum % 0x100, e.inum / 0x100] + NameBytes(e.name, N.DIRSIZ)
  }

  /** The name in de.name: up to the first 0, if there is one. */
  function NameOf(d: seq<Byte>): (s: string)
    ensures |s| <= |d| && (forall k :: 0 <= k < |s| ==> s[k] as int == d[k] != 0) && (|s| < |d| ==> d[|s|] == 0)
  {
    if d == [] || d[0] == 0 then "" else [d[0] as char] + NameOf(d[1..])
  }

  function Decode(d: seq<Byte>): (e: N.Entry)
    requires |d| == DIRENT
  {
    var lo: int, hi: int := d[0], d[1];
    N.Entry(lo + 0x100 * hi, NameOf(d[2..]))
  }

  /** An entry that is written is read back. */
  lemma EntryRoundTrip(e: N.Entry)
    requires Encodable(e)
    ensures Decode(Encode(e)) == e
  {
    var d := Encode(e)[2..];
    assert d == NameBytes(e.name, N.DIRSIZ);
    OneName(d, NameOf(d), e.name);
  }

  lemma {:induction false} OneName(d: seq<Byte>, s: string, t: string)
    requires |s| <= |d| && (forall k :: 0 <= k < |s| ==> s[k] as int == d[k] != 0) && (|s| < |d| ==> d[|s|] == 0)
    requires |t| <= |d| && (forall k :: 0 <= k < |t| ==> t[k] as int == d[k] != 0) && (|t| < |d| ==> d[|t|] == 0)
    ensures s == t
    decreases |s|
  {
    if s != "" && t != "" {
      OneName(d[1..], s[1..], t[1..]);
      assert s == [s[0]] + s[1..] && t == [t[0]] + t[1..];
    }
  }

  // ---- A directory's entries ------------------------------------------------------------------------

  ghost function BytesAt(f: Fs, i: nat, pos: nat, n: nat): (d: seq<Byte>)
    ensures |d| == n && forall x :: 0 <= x < n ==> d[x] == ByteAt(f, i, pos + x)
  {
    if n == 0 then [] else BytesAt(f, i, pos, n - 1) + [ByteAt(f, i, pos + n - 1)]
  }

  ghost function EntryAt(f: Fs, i: nat, k: nat): (e: N.Entry) { Decode(BytesAt(f, i, DIRENT * k, DIRENT)) }

  ghost function Entries(f: Fs, i: nat, n: nat): (dir: seq<N.Entry>)
    ensures |dir| == n && forall k :: 0 <= k < n ==> dir[k] == EntryAt(f, i, k)
  {
    seq(n, (k: nat) => EntryAt(f, i, k))
  }

  /** The slots of directory `i`. */
  ghost function DirOf(f: Fs, i: nat): (dir: seq<N.Entry>)
    requires i in f.ino
  {
    Entries(f, i, f.ino[i].size / DIRENT)
  }

  /** The size of a directory is that of its slots. */
  ghost predicate IsDir(f: Fs, i: nat) { i in f.ino && f.ino[i].size % DIRENT == 0 }

  lemma SmallDir(f: Fs, i: nat)
    requires Inv(f) && i in f.ino
    ensures f.ino[i].size <= MAXBYTES < 0x1_0000_0000 - DIRENT
  {
    assert Filled(f, i, BlocksOf(f.ino[i].size));
  }

  /** readi() of one entry. The panics "dirlookup read" and "dirlink read" are not reached. */
  method ReadEntry(fs: FileSystem, dp: nat, k: nat) returns (e: N.Entry)
    requires fs.Valid() && IsDir(fs.Now(), dp) && DIRENT * k < fs.ino[dp].size
    modifies fs`ino, fs`blk, fs`bits, fs`own, fs`logged, fs`peak
    ensures fs.Valid() && fs.Now() == old(fs.Now()) && fs.logged == old(fs.logged)
    ensures k < |DirOf(fs.Now(), dp)| && e == DirOf(fs.Now(), dp)[k]
  {
    SmallDir(fs.Now(), dp);
    WholeSlot(fs.ino[dp].size, k);
    hide Inv, FileSystem.Valid;
    var tot, dst := Readi(fs, dp, DIRENT * k, DIRENT, DIRENT);
    assert dst == BytesAt(fs.Now(), dp, DIRENT * k, DIRENT);
    e := Decode(dst);
  }

  lemma WholeSlot(size: nat, k: nat)
    requires size % DIRENT == 0 && DIRENT * k < size
    ensures DIRENT * (k + 1) <= size && k < size / DIRENT
  {
  }

  /** dirlookup(): the first slot with the name; the number of slots if there is none. */
  method Dirlookup(fs: FileSystem, dp: nat, name: string) returns (inum: nat, k: nat)
    requires fs.Valid() && IsDir(fs.Now(), dp)
    modifies fs`ino, fs`blk, fs`bits, fs`own, fs`logged, fs`peak
    ensures fs.Valid() && fs.Now() == old(fs.Now()) && fs.logged == old(fs.logged)
    ensures inum == N.Lookup(DirOf(fs.Now(), dp), N.Truncated(name))
    ensures inum == 0 <==> N.Absent(DirOf(fs.Now(), dp), N.Truncated(name))
    ensures inum != 0 ==> k < |DirOf(fs.Now(), dp)| && DirOf(fs.Now(), dp)[k] == N.Entry(inum, N.Truncated(name))
  {
    hide *;
    DirIs(fs.Now(), dp);
    ghost var f, dir, n := fs.Now(), DirOf(fs.Now(), dp), N.Truncated(name);
    k := 0;
    Slots(f, dp);
    NoneScanned(dir, n);
    while DIRENT * k < fs.ino[dp].size
      invariant fs.Valid() && fs.Now() == f && fs.logged == old(fs.logged) && k <= |dir|
      invariant Scanned(dir, n, k)
      decreases |dir| - k
    {
      var e := ReadEntry(fs, dp, k);
      ScanOne(dir, n, k);
      if e.inum != 0 && e.name == N.Truncated(name) {
        return e.inum, k;
      }
      k := k + 1;
    }
    AllSlots(fs.ino[dp].size, |dir|, k);
    ScannedAll(dir, n);
    inum := 0;
  }

  /** The first `k` slots do not have the name. */
  ghost predicate Scanned(dir: seq<N.Entry>, n: N.Name, k: nat) {
    k <= |dir| && forall j :: 0 <= j < k && dir[j].inum != 0 ==> dir[j].name != n
  }

  lemma ScanOne(dir: seq<N.Entry>, n: N.Name, k: nat)
    requires Scanned(dir, n, k) && k < |dir|
    ensures if dir[k].inum != 0 && dir[k].name == n then N.Lookup(dir, n) == dir[k].inum && !N.Absent(dir, n)
            else Scanned(dir, n, k + 1)
  {
    N.LookupFirst(dir, n, k);
  }

  lemma ScannedAll(dir: seq<N.Entry>, n: N.Name)
    requires Scanned(dir, n, |dir|)
    ensures N.Lookup(dir, n) == 0 && N.Absent(dir, n)
  {
    N.LookupFirst(dir, n, |dir|);
  }

  lemma NoneScanned(dir: seq<N.Entry>, n: N.Name)
    ensures Scanned(dir, n, 0)
  {
  }

  lemma DirIs(f: Fs, i: nat)
    requires IsDir(f, i)
    ensures i in f.ino
  {
  }

  /** dirlink(): the name and inode number go into the first free slot, or a new one at the end. It fails
      without a trace if the name is there already, or there is no block for a new slot. */
  method Dirlink(fs: FileSystem, dp: nat, name: string, inum: nat) returns (ok: bool, ghost k: nat)
    requires fs.Valid() && IsDir(fs.Now(), dp) && IsName(name) && 0 < inum < 0x1_0000
    modifies fs
    ensures fs.Valid() && IsDir(fs.Now(), dp) && OthersSame(old(fs.Now()), fs.Now(), dp)
    ensures Recorded(old(fs.Now()), fs.Now(), fs.bmapstart, fs.inodestart, dp, old(fs.logged), fs.logged)
    ensures old(fs.Synced()) ==> fs.Synced()
    ensures var dir := old(DirOf(fs.Now(), dp));
            var n := N.Truncated(name);
            && (!ok ==> DirOf(fs.Now(), dp) == dir)
            && (ok ==> N.Absent(dir, n) && FirstFree(dir, k) && DirOf(fs.Now(), dp) == N.Put(dir, k, N.Entry(inum, n)))
            && (!ok && N.Absent(dir, n) ==> NoRoom(dir, old(fs.ino)[dp].size, fs.bits))
  {
    hide *;
    DirIs(fs.Now(), dp);
    ghost var f, dir := fs.Now(), DirOf(fs.Now(), dp);
    Untouched(f, dp);
    IsSynced(fs);
    var found, at := Dirlookup(fs, dp, name);
    IsSynced(fs);
    k := 0;
    if found != 0 {
      RecordedSelf(f, fs.bmapstart, fs.inodestart, dp, fs.logged);
      return false, k;
    }
    at := FindFree(fs, dp);
    IsSynced(fs);
    k := at;
    ok := PutEntry(fs, dp, name, inum, at);
  }

  /** The first slot that is free, or the end. */
  ghost predicate FirstFree(dir: seq<N.Entry>, k: nat) {
    k <= |dir| && (forall j :: 0 <= j < k ==> dir[j].inum != 0) && (k < |dir| ==> dir[k].inum == 0)
  }

  /** There is no free slot, and the directory cannot grow. */
  ghost predicate NoRoom(dir: seq<N.Entry>, size: nat, bits: seq<bool>) {
    (forall j :: 0 <= j < |dir| ==> dir[j].inum != 0) &&
      (size + DIRENT > MAXBYTES || forall c :: 0 <= c < |bits| ==> bits[c])
  }

  lemma Untouched(f: Fs, dp: nat)
    requires dp in f.ino
    ensures OthersSame(f, f, dp)
  {
  }

  /** The second loop of dirlink(). */
  method FindFree(fs: FileSystem, dp: nat) returns (k: nat)
    requires fs.Valid() && IsDir(fs.Now(), dp)
    modifies fs`ino, fs`blk, fs`bits, fs`own, fs`logged, fs`peak
    ensures fs.Valid() && fs.Now() == old(fs.Now()) && fs.logged == old(fs.logged)
    ensures FirstFree(DirOf(fs.Now(), dp), k)
  {
    hide *;
    DirIs(fs.Now(), dp);
    ghost var f, dir := fs.Now(), DirOf(fs.Now(), dp);
    Slots(f, dp);
    k := 0;
    while DIRENT * k < fs.ino[dp].size
      invariant fs.Valid() && fs.Now() == f && fs.logged == old(fs.logged) && k <= |dir|
      invariant forall j :: 0 <= j < k ==> dir[j].inum != 0
      decreases |dir| - k
    {
      var e := ReadEntry(fs, dp, k);
      if e.inum == 0 {
        IsFirstFree(dir, k);
        return;
      }
      k := k + 1;
    }
    AllSlots(fs.ino[dp].size, |dir|, k);
    IsFirstFree(dir, k);
  }

  lemma AllSlots(size: nat, n: nat, k: nat)
    requires n * DIRENT == size && k <= n && DIRENT * k >= size
    ensures k == n
  {
  }

  lemma IsFirstFree(dir: seq<N.Entry>, k: nat)
    requires k <= |dir| && (forall j :: 0 <= j < k ==> dir[j].inum != 0) && (k < |dir| ==> dir[k].inum == 0)
    ensures FirstFree(dir, k)
  {
  }

  /** strncpy() and writei() of the entry. */
  method PutEntry(fs: FileSystem, dp: nat, name: string, inum: nat, k: nat) returns (ok: bool)
    requires fs.Valid() && IsDir(fs.Now(), dp) && IsName(name) && 0 < inum < 0x1_0000 &&
             FirstFree(DirOf(fs.Now(), dp), k)
    modifies fs
    ensures fs.Valid() && IsDir(fs.Now(), dp) && OthersSame(old(fs.Now()), fs.Now(), dp)
    ensures Recorded(old(fs.Now()), fs.Now(), fs.bmapstart, fs.inodestart, dp, old(fs.logged), fs.logged)
    ensures old(fs.Synced()) ==> fs.Synced()
    ensures var dir := old(DirOf(fs.Now(), dp));
            && (ok ==> DirOf(fs.Now(), dp) == N.Put(dir, k, N.Entry(inum, N.Truncated(name))))
            && (!ok ==> DirOf(fs.Now(), dp) == dir && NoRoom(dir, old(fs.ino)[dp].size, fs.bits))
  {
    NameIsEncodable(name, inum);
    hide *;
    ghost var f := fs.Now();
    DirIs(f, dp);
    FreeIs(DirOf(f, dp), k);
    ok := WriteSlot(fs, dp, k, N.Entry(inum, N.Truncated(name)));
    if !ok {
      NoneLeft(DirOf(f, dp), k, f.ino[dp].size, fs.bits);
    }
  }

  /** sys_unlink(): zeroes over the entry. Its panic is not reached. */
  method Erase(fs: FileSystem, dp: nat, k: nat)
    requires fs.Valid() && IsDir(fs.Now(), dp) && k < |DirOf(fs.Now(), dp)|
    modifies fs
    ensures fs.Valid() && IsDir(fs.Now(), dp) && OthersSame(old(fs.Now()), fs.Now(), dp)
    ensures Recorded(old(fs.Now()), fs.Now(), fs.bmapstart, fs.inodestart, dp, old(fs.logged), fs.logged)
    ensures old(fs.Synced()) ==> fs.Synced()
    ensures DirOf(fs.Now(), dp) == old(DirOf(fs.Now(), dp))[k := N.Entry(0, "")]
  {
    NameIsEncodable("", 0);
    assert N.Truncated("") == "";
    ghost var dir := DirOf(fs.Now(), dp);
    assert N.Put(dir, k, N.Entry(0, "")) == dir[k := N.Entry(0, "")];
    hide *;
    DirIs(fs.Now(), dp);
    var ok := WriteSlot(fs, dp, k, N.Entry(0, ""));
  }

  /** writei() of an entry to slot `k`. It fails only if that is a new slot for which there is no block, or
      no room in the file. */
  method WriteSlot(fs: FileSystem, dp: nat, k: nat, e: N.Entry) returns (ok: bool)
    requires fs.Valid() && IsDir(fs.Now(), dp) && k <= |DirOf(fs.Now(), dp)| && Encodable(e)
    modifies fs
    ensures fs.Valid() && IsDir(fs.Now(), dp) && OthersSame(old(fs.Now()), fs.Now(), dp)
    ensures Recorded(old(fs.Now()), fs.Now(), fs.bmapstart, fs.inodestart, dp, old(fs.logged), fs.logged)
    ensures old(fs.Synced()) ==> fs.Synced()
    ensures ok ==> DirOf(fs.Now(), dp) == N.Put(old(DirOf(fs.Now(), dp)), k, e)
    ensures !ok ==> DirOf(fs.Now(), dp) == old(DirOf(fs.Now(), dp))
    ensures !ok ==> k == |old(DirOf(fs.Now(), dp))| && CannotGrow(old(fs.ino)[dp].size, fs.bits)
  {
    var de := Encode(e);
    ghost var f := fs.Now();
    DirIs(f, dp);
    SlotRange(fs, dp, k);
    var pos := DIRENT * k;
    hide *;
    var r, torn;
    ghost var kept;
    r, torn, kept := fs.Writei(dp, pos, de, 0, 16, 16);
    ok := r == 16;
    Concluded(fs, f, kept, dp, k, e, de, r, torn);
    if r == -1 {
      RecordedSelf(f, fs.bmapstart, fs.inodestart, dp, fs.logged);
    } else {
      WrittenRecorded(f, kept, dp, pos, de, 0, r, fs.bmapstart, fs.inodestart, old(fs.logged), fs.logged);
    }
  }

  /** The directory has no block for another slot, or is as large as a file can be. */
  ghost predicate CannotGrow(size: nat, bits: seq<bool>) {
    size + DIRENT > MAXBYTES || forall c :: 0 <= c < |bits| ==> bits[c]
  }

  lemma NoneLeft(dir: seq<N.Entry>, k: nat, size: nat, bits: seq<bool>)
    requires FirstFree(dir, k) && k == |dir| && CannotGrow(size, bits)
    ensures NoRoom(dir, size, bits)
  {
  }

  lemma FreeIs(dir: seq<N.Entry>, k: nat)
    requires FirstFree(dir, k)
    ensures k <= |dir|
  {
  }

  /** What writei() of an entry at slot `k` comes to. */
  lemma Concluded(fs: FileSystem, f: Fs, kept: Fs, dp: nat, k: nat, e: N.Entry, de: seq<Byte>, r: int, torn: bool)
    requires fs.Valid() && IsDir(f, dp) && k <= |DirOf(f, dp)| && Encodable(e) && de == Encode(e)
    requires DIRENT * k <= f.ino[dp].size <= MAXBYTES
    requires if k < |DirOf(f, dp)| then DIRENT * k + DIRENT <= f.ino[dp].size else DIRENT * k == f.ino[dp].size
    requires r == -1 ==> fs.Now() == f && (DIRENT * k > f.ino[dp].size || DIRENT * k + 16 > MAXBYTES)
    requires r != -1 ==> 0 <= r <= 16 && Written(f, kept, dp, DIRENT * k, de, 0, 0 + r)
    requires if 0 <= r < 16 then fs.Stopped(dp, DIRENT * k, 0, 0 + r, 16, 16, torn) else !torn
    requires !torn ==> fs.Now() == kept
    ensures IsDir(fs.Now(), dp) && OthersSame(f, fs.Now(), dp)
    ensures r == 16 ==> DirOf(fs.Now(), dp) == N.Put(DirOf(f, dp), k, e)
    ensures r != 16 ==> DirOf(fs.Now(), dp) == DirOf(f, dp) && k == |DirOf(f, dp)| &&
                        CannotGrow(f.ino[dp].size, fs.bits)
  {
    hide Inv, FileSystem.Valid, FileSystem.Stopped, Written, DirOf, IsDir, OthersSame, ByteAt, SlotAt, BlockNo, Offset,
         CutShort, Encode, Decode, N.Put;
    DirIs(f, dp);
    if r == -1 {
      Untouched(f, dp);
    } else {
      if r < 16 {
        StoppedIs(fs, dp, DIRENT * k, 0, r, 16, 16, torn);
        NotCut(DIRENT * k, r, 16);
        InOneBlock(k, r);
        AtTheEnd(fs, f, dp, k, de);
      } else {
        EntryWritten(f, fs.Now(), dp, k, e, de);
      }
      OthersAreSame(f, fs.Now(), dp, DIRENT * k, de, r);
    }
  }

  lemma Slots(f: Fs, i: nat)
    requires IsDir(f, i)
    ensures |DirOf(f, i)| * DIRENT == f.ino[i].size
  {
  }

  lemma NameIsEncodable(name: string, inum: nat)
    requires IsName(name) && inum < 0x1_0000
    ensures Encodable(N.Entry(inum, N.Truncated(name)))
  {
  }

  lemma SlotRange(fs: FileSystem, dp: nat, k: nat)
    requires fs.Valid() && IsDir(fs.Now(), dp) && k <= |DirOf(fs.Now(), dp)|
    ensures DIRENT * k <= fs.ino[dp].size <= MAXBYTES && DIRENT * k < 0x1_0000_0000
    ensures if k < |DirOf(fs.Now(), dp)| then DIRENT * k + DIRENT <= fs.ino[dp].size else DIRENT * k == fs.ino[dp].size
  {
    SmallDir(fs.Now(), dp);
    Slots(fs.Now(), dp);
  }

  /** An entry lies in one block, so it is written as a whole or not at all. */
  lemma InOneBlock(k: nat, r: nat)
    requires r < DIRENT && (r > 0 ==> Offset(DIRENT * k + r) == 0)
    ensures r == 0
  {
    var m := k / 64;
    var o := DIRENT * (k % 64) + r;
    assert DIRENT * k + r == m * BSIZE + o && o < BSIZE;
  }

  lemma AtTheEnd(fs: FileSystem, f: Fs, dp: nat, k: nat, de: seq<Byte>)
    requires fs.Valid() && IsDir(f, dp) && k <= |DirOf(f, dp)| && Written(f, fs.Now(), dp, DIRENT * k, de, 0, 0)
    requires (forall c :: 0 <= c < |fs.bits| ==> fs.bits[c]) && SlotAt(fs.Now(), dp, BlockNo(DIRENT * k)) == 0
    requires if k < |DirOf(f, dp)| then DIRENT * k + DIRENT <= f.ino[dp].size else DIRENT * k == f.ino[dp].size
    ensures IsDir(fs.Now(), dp) && DirOf(fs.Now(), dp) == DirOf(f, dp) && k == |DirOf(f, dp)|
    ensures CannotGrow(f.ino[dp].size, fs.bits)
  {
    var f' := fs.Now();
    assert Filled(f', dp, BlocksOf(f'.ino[dp].size));
    BlockBelow(DIRENT * k, f'.ino[dp].size);
    hide SlotAt, BlockNo, Inv, FileSystem.Valid, ByteAt;
    SameEntries(f, f', dp, f.ino[dp].size / DIRENT);
  }

  lemma BlockBelow(pos: nat, size: nat)
    ensures pos < size ==> BlockNo(pos) < BlocksOf(size)
  {
  }

  lemma SameEntries(f: Fs, f': Fs, i: nat, n: nat)
    requires forall pos: nat :: ByteAt(f', i, pos) == ByteAt(f, i, pos)
    ensures Entries(f', i, n) == Entries(f, i, n)
  {
    hide ByteAt;
    forall k: nat | k < n ensures EntryAt(f', i, k) == EntryAt(f, i, k) {
      assert BytesAt(f', i, DIRENT * k, DIRENT) == BytesAt(f, i, DIRENT * k, DIRENT);
    }
  }

  /** Sixteen bytes at the place of slot `k` are the new entry there, and no other entry changes. */
  lemma EntryWritten(f: Fs, f': Fs, dp: nat, k: nat, e: N.Entry, de: seq<Byte>)
    requires IsDir(f, dp) && k <= |DirOf(f, dp)| && Encodable(e) && de == Encode(e) &&
             Written(f, f', dp, DIRENT * k, de, 0, DIRENT)
    ensures IsDir(f', dp) && DirOf(f', dp) == N.Put(DirOf(f, dp), k, e)
  {
    hide ByteAt, Decode;
    var dir, dir' := DirOf(f, dp), DirOf(f', dp);
    Slots(f, dp);
    NewSize(f.ino[dp].size, |dir|, k);
    assert |dir'| == |N.Put(dir, k, e)|;
    forall j: nat | j < |dir'| ensures dir'[j] == N.Put(dir, k, e)[j] {
      var d := BytesAt(f', dp, DIRENT * j, DIRENT);
      if j == k {
        assert d == de;
        EntryRoundTrip(e);
      } else {
        assert d == BytesAt(f, dp, DIRENT * j, DIRENT);
      }
    }
  }

  lemma NewSize(size: nat, n: nat, k: nat)
    requires n * DIRENT == size && k <= n
    ensures var m := Max(size, DIRENT * k + DIRENT); m % DIRENT == 0 && m / DIRENT == if k < n then n else n + 1
  {
  }

  /** No file but `dp` has changed, and its inode only in size and blocks. */
  ghost predicate OthersSame(f: Fs, f': Fs, dp: nat) {
    && f'.ino.Keys == f.ino.Keys && dp in f.ino
    && f'.ino[dp] == f.ino[dp].(size := f'.ino[dp].size, addrs := f'.ino[dp].addrs)
    && (forall j :: j in f.ino && j != dp ==> j in f'.ino && f'.ino[j] == f.ino[j])
    && forall j, pos: nat :: j in f.ino && j != dp ==> ByteAt(f', j, pos) == ByteAt(f, j, pos)
  }

  lemma OthersAreSame(f: Fs, f': Fs, dp: nat, off: nat, de: seq<Byte>, hi: nat)
    requires Written(f, f', dp, off, de, 0, hi)
    ensures OthersSame(f, f', dp)
  {
    hide ByteAt;
  }
}
