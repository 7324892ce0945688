/** The table of inodes in memory: iget(), idup(), ilock() and iput() of kernel/fs.c. */
module Itable {
  import opened Inodes
  import opened FileSys
  import opened Truncate

  const NINODE: nat := 50

  datatype Slot = Slot(ref: nat, inum: nat, valid: bool)

  /** Every inode in use has one slot, with as many references as `users` has. */
  ghost predicate Counted(slots: seq<Slot>, users: multiset<nat>) {
    && (forall j, k :: 0 <= j < k < |slots| && slots[j].ref > 0 && slots[k].ref > 0 ==> slots[j].inum != slots[k].inum)
    && (forall k :: 0 <= k < |slots| && slots[k].ref > 0 ==> users[slots[k].inum] == slots[k].ref)
    && (forall n :: n in users ==> Held(slots, n))
  }

  ghost predicate Held(slots: seq<Slot>, n: nat) {
    exists k :: 0 <= k < |slots| && slots[k].ref > 0 && slots[k].inum == n
  }

  /** An inode that has been read is allocated. */
  ghost predicate Loaded(slots: seq<Slot>, ino: map<nat, Inode>) {
    forall k :: 0 <= k < |slots| && slots[k].ref > 0 && slots[k].valid ==>
                  slots[k].inum in ino && ino[slots[k].inum].typ != 0
  }

  lemma OneMore(slots: seq<Slot>, users: multiset<nat>, k: nat)
    requires Counted(slots, users) && k < |slots| && slots[k].ref > 0
    ensures Counted(slots[k := slots[k].(ref := slots[k].ref + 1)], users + multiset{slots[k].inum})
  {
    var slots', users' := slots[k := slots[k].(ref := slots[k].ref + 1)], users + multiset{slots[k].inum};
    forall n | n in users' ensures Held(slots', n) {
      if n == slots[k].inum {
        assert slots'[k].inum == n;
      } else {
        var j :| 0 <= j < |slots| && slots[j].ref > 0 && slots[j].inum == n;
        assert slots'[j] == slots[j];
      }
    }
  }

  lemma NewOne(slots: seq<Slot>, users: multiset<nat>, k: nat, n: nat)
    requires Counted(slots, users) && k < |slots| && slots[k].ref == 0 && !Held(slots, n)
    ensures Counted(slots[k := Slot(1, n, false)], users + multiset{n})
  {
    var slots', users' := slots[k := Slot(1, n, false)], users + multiset{n};
    assert n !in users;
    forall m | m in users' ensures Held(slots', m) {
      if m == n {
        assert slots'[k].inum == m;
      } else {
        var j :| 0 <= j < |slots| && slots[j].ref > 0 && slots[j].inum == m;
        assert slots'[j] == slots[j];
      }
    }
  }

  lemma OneLess(slots: seq<Slot>, users: multiset<nat>, k: nat, valid: bool)
    requires Counted(slots, users) && k < |slots| && slots[k].ref > 0
    ensures Counted(slots[k := slots[k].(ref := slots[k].ref - 1, valid := valid)], users - multiset{slots[k].inum})
  {
    var slots', users' := slots[k := slots[k].(ref := slots[k].ref - 1, valid := valid)],
                          users - multiset{slots[k].inum};
    forall n | n in users' ensures Held(slots', n) {
      var j :| 0 <= j < |slots| && slots[j].ref > 0 && slots[j].inum == n;
      assert j != k ==> slots'[j] == slots[j];
      assert j == k ==> slots'[j].ref > 0 && slots'[j].inum == n;
    }
  }

  lemma Locked(slots: seq<Slot>, users: multiset<nat>, k: nat)
    requires Counted(slots, users) && k < |slots| && slots[k].ref > 0
    ensures Counted(slots[k := slots[k].(valid := true)], users)
  {
    var slots' := slots[k := slots[k].(valid := true)];
    assert forall j :: 0 <= j < |slots| ==> slots'[j].ref == slots[j].ref && slots'[j].inum == slots[j].inum;
    forall n | n in users ensures Held(slots', n) {
      var j :| 0 <= j < |slots| && slots[j].ref > 0 && slots[j].inum == n;
      assert slots'[j].inum == n && slots'[j].ref > 0;
    }
  }

  lemma LastOne(slots: seq<Slot>, users: multiset<nat>, k: nat)
    requires Counted(slots, users) && k < |slots| && slots[k].ref > 0
    ensures users[slots[k].inum] == slots[k].ref
    ensures forall j :: 0 <= j < |slots| && j != k && slots[j].ref > 0 ==> slots[j].inum != slots[k].inum
  {
  }

  class Table {
    const fs: FileSystem
    var slots: seq<Slot>
    ghost var users: multiset<nat>    // the references that processes have

    ghost predicate Valid()
      reads this, fs
    {
      fs.Valid() && |slots| == NINODE && Counted(slots, users) && Loaded(slots, fs.ino)
    }

    /** iinit(), on a zeroed kernel image. */
    constructor (fs: FileSystem)
      requires fs.Valid()
      ensures Valid() && this.fs == fs && users == multiset{}
    {
      this.fs := fs;
      slots := seq(NINODE, _ => Slot(0, 0, false));
      users := multiset{};
    }

    /** iget(): the slot of the inode, with one more reference. It panics exactly if the inode is not in the
        table and no slot is free; that is not `ok`. */
    method Iget(inum: nat) returns (ok: bool, k: nat)
      requires Valid()
      modifies this
      ensures Valid()
      ensures ok <==> Held(old(slots), inum) || exists j :: 0 <= j < NINODE && old(slots)[j].ref == 0
      ensures !ok ==> slots == old(slots) && users == old(users)
      ensures ok ==> k < NINODE && slots[k].ref > 0 && slots[k].inum == inum && users == old(users) + multiset{inum}
    {
      hide Counted, Inv, FileSystem.Valid;
      k := 0;
      var empty: nat := NINODE;
      while k < NINODE
        invariant k <= NINODE && empty <= NINODE && slots == old(slots) && users == old(users) && Valid()
        invariant forall j :: 0 <= j < k && slots[j].ref > 0 ==> slots[j].inum != inum
        invariant if empty == NINODE then forall j :: 0 <= j < k ==> slots[j].ref > 0 else slots[empty].ref == 0
      {
        if slots[k].ref > 0 && slots[k].inum == inum {
          OneMore(slots, users, k);
          slots := slots[k := slots[k].(ref := slots[k].ref + 1)];
          users := users + multiset{inum};
          return true, k;
        }
        if empty == NINODE && slots[k].ref == 0 {
          empty := k;
        }
        k := k + 1;
      }
      if empty == NINODE {
        return false, 0;
      }
      NewOne(slots, users, empty, inum);
      slots := slots[empty := Slot(1, inum, false)];
      users := users + multiset{inum};
      return true, empty;
    }

    /** idup(). */
    method Idup(k: nat)
      requires Valid() && k < NINODE && slots[k].ref > 0
      modifies this
      ensures Valid() && users == old(users) + multiset{slots[k].inum} && slots[k].inum == old(slots)[k].inum
    {
      hide Counted, Inv, FileSystem.Valid;
      OneMore(slots, users, k);
      users := users + multiset{slots[k].inum};
      slots := slots[k := slots[k].(ref := slots[k].ref + 1)];
    }

    /** ilock(), as far as the table goes. It looks at the type only when it reads the inode, but what the
        table holds is allocated: so it panics, which is not `ok`, exactly if the inode is free. */
    method Ilock(k: nat) returns (ok: bool)
      requires Valid() && k < NINODE && slots[k].ref > 0 && slots[k].inum in fs.ino
      modifies this
      ensures Valid() && users == old(users)
      ensures ok <==> fs.ino[old(slots)[k].inum].typ != 0
      ensures slots == if ok then old(slots)[k := old(slots)[k].(valid := true)] else old(slots)
    {
      hide Inv, FileSystem.Valid;
      Locked(slots, users, k);
      if !slots[k].valid {
        if fs.ino[slots[k].inum].typ == 0 {
          return false;
        }
        slots := slots[k := slots[k].(valid := true)];
      }
      assert slots == slots[k := slots[k].(valid := true)];
      ok := true;
    }

    /** iput(): one reference less. The inode and its blocks are freed exactly if it was the last one in
        the whole system, the inode has been read, and it has no links; otherwise no file changes. What
        changes is logged. */
    method Iput(k: nat)
      requires Valid() && k < NINODE && slots[k].ref > 0
      modifies this, fs
      ensures Valid() && users == old(users) - multiset{old(slots)[k].inum}
      ensures var n := old(slots)[k].inum;
              if old(users)[n] == 1 && old(slots)[k].valid && n in old(fs.ino) && old(fs.ino)[n].nlink == 0
              then fs.Now() == Released(old(fs.Now()), n)
              else fs.Now() == old(fs.Now())
      ensures var n := old(slots)[k].inum;
              Frees(old(fs.Now()), fs.Now(), fs.bmapstart, fs.inodestart, n, old(LogNow(fs)), LogNow(fs))
      ensures old(fs.Synced()) ==> fs.Synced()
    {
      hide Counted, Inv, FileSystem.Valid, Released, Frees, FileSystem.Synced;
      NothingFreed(fs.Now(), fs.bmapstart, fs.inodestart, slots[k].inum, LogNow(fs));
      var n := slots[k].inum;
      LastOne(slots, users, k);
      OneLess(slots, users, k, slots[k].valid);
      OneLess(slots, users, k, false);
      ghost var slots0 := slots;
      users := users - multiset{n};
      if slots[k].ref == 1 && slots[k].valid && fs.ino[n].nlink == 0 {
        ReleasedTypes(fs.Now(), n);
        var refs := Truncate.Iput(fs, n, 1);
        slots := slots[k := slots[k].(valid := false)];
        slots := slots[k := slots[k].(ref := slots[k].ref - 1)];
        assert slots == slots0[k := slots0[k].(ref := slots0[k].ref - 1, valid := false)];
      } else {
        slots := slots[k := slots[k].(ref := slots[k].ref - 1)];
      }
    }
  }

  lemma ReleasedTypes(f: Fs, n: nat)
    requires n in f.ino
    ensures forall j :: j in f.ino && j != n ==> j in Released(f, n).ino && Released(f, n).ino[j].typ == f.ino[j].typ
  {
  }
}
