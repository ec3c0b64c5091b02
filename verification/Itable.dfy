/** The in-memory inode table, kernel/fs.c: iget, idup, ilock, iunlock, iput, iupdate and ialloc. A
    method is one critical section under itable.lock, or one step of a process that holds an
    inode's sleep-lock; other processes may run between any two calls. */
module Itable {
  import opened Prelude

  const NINODE: nat := 50

  type Pid = nat

  datatype Key = Key(dev: nat, inum: nat)

  /** struct dinode; rest stands for the device numbers, the size and the addresses. */
  datatype Dinode = Dinode(typ: nat, nlink: nat, rest: seq<nat>)

  datatype Entry = Entry(key: Key, ref: nat, holder: Option<Pid>, valid: bool, node: Dinode)

  /** References are counted, a lock holder has a reference, entries in use have different keys,
      and a valid entry that its holder is not changing is the inode on disk. */
  ghost predicate TableOk(es: seq<Entry>, uses: seq<multiset<Pid>>, disk: map<Key, Dinode>, dirty: set<nat>) {
    && |es| == |uses| == NINODE
    && (forall i | 0 <= i < NINODE :: es[i].ref == |uses[i]|)
    && (forall i | 0 <= i < NINODE && es[i].holder.Some? :: es[i].holder.value in uses[i])
    && (forall i, j | 0 <= i < j < NINODE && es[i].ref > 0 && es[j].ref > 0 :: es[i].key != es[j].key)
    && (forall i | 0 <= i < NINODE && es[i].ref > 0 && es[i].valid && i !in dirty :: OnDisk(es[i], disk))
    && (forall i | i in dirty :: i < NINODE && es[i].holder.Some?)
  }

  ghost predicate OnDisk(e: Entry, disk: map<Key, Dinode>) {
    e.key in disk && e.node == disk[e.key] && e.node.typ != 0
  }

  class Table {
    var entries: seq<Entry>
    /** Inodes as bread and log_write show them. */
    var disk: map<Key, Dinode>
    /** Who has how many pointers to each entry. */
    var uses: seq<multiset<Pid>>
    /** The entries that their lock holder has changed and not yet copied to disk. */
    var dirty: set<nat>

    ghost predicate Valid()
      reads this
    {
      |entries| == |uses| == NINODE && TableOk(entries, uses, disk, dirty)
    }

    /** iinit: no entry is in use. */
    constructor (inodes: map<Key, Dinode>)
      ensures Valid() && disk == inodes && forall i | 0 <= i < NINODE :: entries[i].ref == 0
    {
      entries := seq(NINODE, _ => Entry(Key(0, 0), 0, None, false, Dinode(0, 0, [])));
      disk := inodes;
      uses := seq(NINODE, _ => multiset{});
      dirty := {};
    }

    /** The entry for inode k with one more reference, or NINODE where iget panics. */
    method IGet(t: Pid, k: Key) returns (i: nat)
      requires Valid()
      modifies this`entries, this`uses
      ensures Valid() && i <= NINODE
      ensures i == NINODE <==> forall x | 0 <= x < NINODE :: old(entries)[x].ref > 0 && old(entries)[x].key != k
      ensures i == NINODE ==> entries == old(entries) && uses == old(uses)
      ensures i < NINODE && old(entries)[i].ref == 0 ==>
                forall x | 0 <= x < NINODE :: old(entries)[x].ref == 0 || old(entries)[x].key != k
      ensures i < NINODE ==>
                && uses == old(uses)[i := old(uses)[i] + multiset{t}] && entries == old(entries)[i := entries[i]]
                && entries[i].key == k
                && entries[i] == (if old(entries)[i].ref > 0 then old(entries)[i].(ref := old(entries)[i].ref + 1)
                                  else old(entries)[i].(key := k, ref := 1, valid := false))
    {
      hide TableOk;
      var empty: nat := NINODE;
      i := 0;
      while i < NINODE
        invariant 0 <= i <= NINODE && empty <= NINODE && entries == old(entries) && uses == old(uses)
        invariant forall x | 0 <= x < i :: entries[x].ref == 0 || entries[x].key != k
        invariant empty < NINODE ==> entries[empty].ref == 0
        invariant empty == NINODE ==> forall x | 0 <= x < i :: entries[x].ref > 0
      {
        if entries[i].ref > 0 && entries[i].key == k {
          Reference(entries, uses, disk, dirty, i, t);
          entries := entries[i := entries[i].(ref := entries[i].ref + 1)];
          uses := uses[i := uses[i] + multiset{t}];
          return;
        }
        if empty == NINODE && entries[i].ref == 0 {
          empty := i;
        }
        i := i + 1;
      }
      if empty == NINODE {
        return NINODE;
      }
      i := empty;
      Recycle(entries, uses, disk, dirty, i, t, k);
      entries := entries[i := entries[i].(key := k, ref := 1, valid := false)];
      uses := uses[i := uses[i] + multiset{t}];
    }

    method IDup(t: Pid, i: nat)
      requires Valid() && i < NINODE && t in uses[i]
      modifies this`entries, this`uses
      ensures Valid() && entries == old(entries)[i := old(entries)[i].(ref := old(entries)[i].ref + 1)]
      ensures uses == old(uses)[i := old(uses)[i] + multiset{t}]
    {
      hide TableOk;
      InUse(entries, uses, disk, dirty, i, t);
      Reference(entries, uses, disk, dirty, i, t);
      entries := entries[i := entries[i].(ref := entries[i].ref + 1)];
      uses := uses[i := uses[i] + multiset{t}];
    }

    /** ilock, the sleep-lock: a try that succeeds when nobody has it. */
    method Lock(t: Pid, i: nat) returns (ok: bool)
      requires Valid() && i < NINODE && t in uses[i]
      modifies this`entries
      ensures Valid() && ok == old(entries)[i].holder.None?
      ensures entries == if ok then old(entries)[i := old(entries)[i].(holder := Some(t))] else old(entries)
      ensures ok && entries[i].valid ==> OnDisk(entries[i], disk)
    {
      hide TableOk;
      ok := entries[i].holder.None?;
      if ok {
        Acquire(entries, uses, disk, dirty, i, t);
        entries := entries[i := entries[i].(holder := Some(t))];
      }
    }

    /** ilock, the rest: the holder reads the inode unless it is valid; false where ilock panics.
        Whatever happened to the inode before, the fields are those on disk. */
    method Load(t: Pid, i: nat) returns (ok: bool)
      requires Valid() && i < NINODE && entries[i].holder == Some(t) && entries[i].key in disk && i !in dirty
      modifies this`entries
      ensures ok == (disk[old(entries)[i].key].typ != 0)
      ensures entries == old(entries)[i := old(entries)[i].(valid := true, node := disk[old(entries)[i].key])]
      ensures ok ==> Valid() && OnDisk(entries[i], disk)
    {
      hide TableOk;
      HeldUse(entries, uses, disk, dirty, i);
      if !entries[i].valid {
        if disk[entries[i].key].typ != 0 {
          Read(entries, uses, disk, dirty, i);
        }
        entries := entries[i := entries[i].(valid := true, node := disk[entries[i].key])];
      }
      ok := entries[i].node.typ != 0;
    }

    /** The holder changes fields of the inode in memory. */
    method Change(t: Pid, i: nat, node: Dinode)
      requires Valid() && i < NINODE && entries[i].holder == Some(t)
      modifies this`entries, this`dirty
      ensures Valid() && entries == old(entries)[i := old(entries)[i].(node := node)] && dirty == old(dirty) + {i}
    {
      hide TableOk;
      Scribble(entries, uses, disk, dirty, i, node);
      entries := entries[i := entries[i].(node := node)];
      dirty := dirty + {i};
    }

    /** iupdate: the inode on disk becomes the one in memory. */
    method IUpdate(t: Pid, i: nat)
      requires Valid() && i < NINODE && entries[i].holder == Some(t) && entries[i].valid
      modifies this`disk, this`dirty
      ensures Valid() && disk == old(disk)[entries[i].key := entries[i].node]
      ensures dirty == if entries[i].node.typ == 0 then old(dirty) + {i} else old(dirty) - {i}
    {
      hide TableOk;
      Flush(entries, uses, disk, dirty, i);
      disk := disk[entries[i].key := entries[i].node];
      dirty := if entries[i].node.typ == 0 then dirty + {i} else dirty - {i};
    }

    /** iunlock, after every change was copied to disk. */
    method Unlock(t: Pid, i: nat)
      requires Valid() && i < NINODE && entries[i].holder == Some(t) && i !in dirty
      modifies this`entries
      ensures Valid() && entries == old(entries)[i := old(entries)[i].(holder := None)]
    {
      hide TableOk;
      Release(entries, uses, disk, dirty, i);
      entries := entries[i := entries[i].(holder := None)];
    }

    /** iput, first section: the last reference to an inode without links begins to free it. Nobody
        else can have the sleep-lock then, so that taking it does not wait. */
    method IPutBegin(t: Pid, i: nat) returns (freeing: bool)
      requires Valid() && i < NINODE && t in uses[i] && entries[i].holder != Some(t)
      modifies this`entries, this`uses
      ensures Valid()
      ensures freeing == (old(entries)[i].ref == 1 && old(entries)[i].valid && old(entries)[i].node.nlink == 0)
      ensures freeing ==>
                old(entries)[i].holder.None? && entries == old(entries)[i := old(entries)[i].(holder := Some(t))] && uses == old(uses)
      ensures freeing ==> OnDisk(old(entries)[i], disk)
      ensures !freeing ==> entries == old(entries)[i := old(entries)[i].(ref := old(entries)[i].ref - 1)]
      ensures !freeing ==> uses == old(uses)[i := old(uses)[i] - multiset{t}]
    {
      hide TableOk;
      if entries[i].ref == 1 && entries[i].valid && entries[i].node.nlink == 0 {
        Sole(entries, uses, disk, dirty, i, t);
        Acquire(entries, uses, disk, dirty, i, t);
        entries := entries[i := entries[i].(holder := Some(t))];
        return true;
      }
      IPutDrop(t, i);
      return false;
    }

    /** iput, last section. */
    method IPutDrop(t: Pid, i: nat)
      requires Valid() && i < NINODE && t in uses[i] && entries[i].holder != Some(t)
      modifies this`entries, this`uses
      ensures Valid() && entries == old(entries)[i := old(entries)[i].(ref := old(entries)[i].ref - 1)]
      ensures uses == old(uses)[i := old(uses)[i] - multiset{t}]
    {
      hide TableOk;
      InUse(entries, uses, disk, dirty, i, t);
      Unreference(entries, uses, disk, dirty, i, t);
      entries := entries[i := entries[i].(ref := entries[i].ref - 1)];
      uses := uses[i := uses[i] - multiset{t}];
    }

    /** iput, between the two: after itrunc and the update with type 0, the entry is not valid. */
    method IPutInvalidate(t: Pid, i: nat)
      requires Valid() && i < NINODE && entries[i].holder == Some(t)
      modifies this`entries, this`dirty
      ensures Valid() && entries == old(entries)[i := old(entries)[i].(valid := false)] && dirty == old(dirty) - {i}
    {
      hide TableOk;
      Invalidate(entries, uses, disk, dirty, i);
      entries := entries[i := entries[i].(valid := false)];
      dirty := dirty - {i};
    }

    /** One round of ialloc's loop, while it holds the inode's block: claims the inode if it is free. No
        entry in use is touched by it. Other processes may run between two rounds. */
    method IAllocOne(dev: nat, inum: nat, typ: nat) returns (got: bool)
      requires Valid() && typ != 0 && Key(dev, inum) in disk
      modifies this`disk
      ensures Valid() && got == (old(disk)[Key(dev, inum)].typ == 0)
      ensures disk == if got then old(disk)[Key(dev, inum) := Dinode(typ, 0, [])] else old(disk)
    {
      hide TableOk;
      got := disk[Key(dev, inum)].typ == 0;
      if got {
        Claim(entries, uses, disk, dirty, Key(dev, inum), Dinode(typ, 0, []));
        disk := disk[Key(dev, inum) := Dinode(typ, 0, [])];
      }
    }

    /** ialloc with no other process between its rounds: the first free inode, 0 if there is none. */
    method IAlloc(dev: nat, ninodes: nat, typ: nat) returns (inum: nat)
      requires Valid() && typ != 0 && forall n | 1 <= n < ninodes :: Key(dev, n) in disk
      modifies this`disk
      ensures Valid() && inum < (if ninodes == 0 then 1 else ninodes)
      ensures inum == 0 ==> disk == old(disk) && forall n | 1 <= n < ninodes :: disk[Key(dev, n)].typ != 0
      ensures inum != 0 ==>
                && old(disk)[Key(dev, inum)].typ == 0 && (forall n | 1 <= n < inum :: old(disk)[Key(dev, n)].typ != 0)
                && disk == old(disk)[Key(dev, inum) := Dinode(typ, 0, [])]
    {
      hide TableOk;
      inum := 1;
      while inum < ninodes
        invariant 1 <= inum && disk == old(disk)
        invariant forall n | 1 <= n < inum && n < ninodes :: disk[Key(dev, n)].typ != 0
      {
        var got := IAllocOne(dev, inum, typ);
        if got {
          return;
        }
        inum := inum + 1;
      }
      return 0;
    }
  }

  // ---- each step keeps the table in order ----

  lemma InUse(es: seq<Entry>, uses: seq<multiset<Pid>>, disk: map<Key, Dinode>, dirty: set<nat>, i: nat, t: Pid)
    requires TableOk(es, uses, disk, dirty) && i < NINODE && t in uses[i]
    ensures es[i].ref > 0
  {
    assert |uses[i]| >= uses[i][t];
  }

  lemma HeldUse(es: seq<Entry>, uses: seq<multiset<Pid>>, disk: map<Key, Dinode>, dirty: set<nat>, i: nat)
    requires TableOk(es, uses, disk, dirty) && i < NINODE && es[i].holder.Some?
    ensures es[i].ref > 0 && es[i].holder.value in uses[i] && (es[i].valid && i !in dirty ==> OnDisk(es[i], disk))
  {
    InUse(es, uses, disk, dirty, i, es[i].holder.value);
  }

  lemma Reference(es: seq<Entry>, uses: seq<multiset<Pid>>, disk: map<Key, Dinode>, dirty: set<nat>, i: nat, t: Pid)
    requires TableOk(es, uses, disk, dirty) && i < NINODE && es[i].ref > 0
    ensures TableOk(es[i := es[i].(ref := es[i].ref + 1)], uses[i := uses[i] + multiset{t}], disk, dirty)
  {
  }

  lemma Recycle(es: seq<Entry>, uses: seq<multiset<Pid>>, disk: map<Key, Dinode>, dirty: set<nat>, i: nat, t: Pid,
                k: Key)
    requires TableOk(es, uses, disk, dirty) && i < NINODE && es[i].ref == 0
    requires forall x | 0 <= x < NINODE :: es[x].ref == 0 || es[x].key != k
    ensures TableOk(es[i := es[i].(key := k, ref := 1, valid := false)], uses[i := uses[i] + multiset{t}], disk, dirty)
  {
  }

  lemma Acquire(es: seq<Entry>, uses: seq<multiset<Pid>>, disk: map<Key, Dinode>, dirty: set<nat>, i: nat, t: Pid)
    requires TableOk(es, uses, disk, dirty) && i < NINODE && t in uses[i] && es[i].holder.None?
    ensures TableOk(es[i := es[i].(holder := Some(t))], uses, disk, dirty)
    ensures es[i].valid ==> OnDisk(es[i], disk)
  {
    InUse(es, uses, disk, dirty, i, t);
  }

  lemma Read(es: seq<Entry>, uses: seq<multiset<Pid>>, disk: map<Key, Dinode>, dirty: set<nat>, i: nat)
    requires TableOk(es, uses, disk, dirty) && i < NINODE && es[i].key in disk && disk[es[i].key].typ != 0
    ensures TableOk(es[i := es[i].(valid := true, node := disk[es[i].key])], uses, disk, dirty)
  {
  }

  lemma Scribble(es: seq<Entry>, uses: seq<multiset<Pid>>, disk: map<Key, Dinode>, dirty: set<nat>, i: nat,
                 node: Dinode)
    requires TableOk(es, uses, disk, dirty) && i < NINODE && es[i].holder.Some?
    ensures TableOk(es[i := es[i].(node := node)], uses, disk, dirty + {i})
  {
  }

  lemma Flush(es: seq<Entry>, uses: seq<multiset<Pid>>, disk: map<Key, Dinode>, dirty: set<nat>, i: nat)
    requires TableOk(es, uses, disk, dirty) && i < NINODE && es[i].holder.Some? && es[i].valid
    ensures TableOk(es, uses, disk[es[i].key := es[i].node], if es[i].node.typ == 0 then dirty + {i} else dirty - {i})
  {
    HeldUse(es, uses, disk, dirty, i);
  }

  lemma Release(es: seq<Entry>, uses: seq<multiset<Pid>>, disk: map<Key, Dinode>, dirty: set<nat>, i: nat)
    requires TableOk(es, uses, disk, dirty) && i < NINODE && i !in dirty
    ensures TableOk(es[i := es[i].(holder := None)], uses, disk, dirty)
  {
  }

  lemma Invalidate(es: seq<Entry>, uses: seq<multiset<Pid>>, disk: map<Key, Dinode>, dirty: set<nat>, i: nat)
    requires TableOk(es, uses, disk, dirty) && i < NINODE
    ensures TableOk(es[i := es[i].(valid := false)], uses, disk, dirty - {i})
  {
  }

  /** The process with the only reference to an entry is the only one that can have its lock. */
  lemma Sole(es: seq<Entry>, uses: seq<multiset<Pid>>, disk: map<Key, Dinode>, dirty: set<nat>, i: nat, t: Pid)
    requires TableOk(es, uses, disk, dirty) && i < NINODE && t in uses[i] && es[i].ref == 1 && es[i].holder != Some(t)
    ensures es[i].holder.None?
  {
    var rest := uses[i] - multiset{t};
    assert uses[i] == rest + multiset{t};
    assert |rest| == 0;
    assert forall p :: p in uses[i] ==> p == t;
  }

  lemma Unreference(es: seq<Entry>, uses: seq<multiset<Pid>>, disk: map<Key, Dinode>, dirty: set<nat>, i: nat, t: Pid)
    requires TableOk(es, uses, disk, dirty) && i < NINODE && t in uses[i] && es[i].holder != Some(t) && es[i].ref > 0
    ensures TableOk(es[i := es[i].(ref := es[i].ref - 1)], uses[i := uses[i] - multiset{t}], disk, dirty)
  {
    var rest := uses[i] - multiset{t};
    assert uses[i] == rest + multiset{t};
    assert |uses[i]| == |rest| + 1;
  }

  lemma Claim(es: seq<Entry>, uses: seq<multiset<Pid>>, disk: map<Key, Dinode>, dirty: set<nat>, k: Key, node: Dinode)
    requires TableOk(es, uses, disk, dirty) && k in disk && disk[k].typ == 0
    ensures TableOk(es, uses, disk[k := node], dirty)
  {
  }

  /** The window in iput before the final ref--: t1 frees the inode with the entry still in the
      table, t2 claims the same inode number and gets the same entry, and what t2 then locks is the
      new inode. */
  method Reclaimed(tb: Table, t1: Pid, t2: Pid, i: nat, ninodes: nat, typ: nat) returns (j: nat)
    requires tb.Valid() && i < NINODE && typ != 0 && t1 != t2 && tb.uses[i] == multiset{t1}
    requires tb.entries[i].holder.None? && tb.entries[i].valid && tb.entries[i].node.nlink == 0
    requires FirstFrom(tb.disk, tb.entries[i].key, ninodes)
    modifies tb
    ensures tb.Valid() && j == i && tb.uses[i] == multiset{t2}
    ensures tb.entries[i] == Entry(old(tb.entries)[i].key, 1, Some(t2), true, Dinode(typ, 0, []))
  {
    hide TableOk, FirstFrom;
    SoleUse(tb.entries, tb.uses, tb.disk, tb.dirty, i, t1);
    var k := tb.entries[i].key;
    var freeing := tb.IPutBegin(t1, i);
    j := Claimed(tb, t1, t2, i, ninodes, typ);
    tb.IPutInvalidate(t1, i);
    tb.Unlock(t1, i);
    var got := tb.Lock(t2, j);
    var ok := tb.Load(t2, j);
    tb.IPutDrop(t1, i);
    assert multiset{t1} + multiset{t2} - multiset{t1} == multiset{t2};
  }

  /** All inode numbers of the device are on disk, and those below k are taken. */
  ghost predicate FirstFrom(disk: map<Key, Dinode>, k: Key, ninodes: nat) {
    && 1 <= k.inum < ninodes && (forall n | 1 <= n < ninodes :: Key(k.dev, n) in disk)
    && (forall n | 1 <= n < k.inum :: disk[Key(k.dev, n)].typ != 0)
  }

  /** t1 has freed inode i on disk, and t2 allocates it again. */
  method Claimed(tb: Table, t1: Pid, t2: Pid, i: nat, ninodes: nat, typ: nat) returns (j: nat)
    requires tb.Valid() && i < NINODE && typ != 0 && tb.uses[i] == multiset{t1} && tb.entries[i].ref == 1
    requires tb.entries[i].holder == Some(t1) && tb.entries[i].valid && FirstFrom(tb.disk, tb.entries[i].key, ninodes)
    modifies tb
    ensures tb.Valid() && j == i && tb.uses[i] == multiset{t1} + multiset{t2} && tb.entries[i].holder == Some(t1)
    ensures tb.entries[i].key == old(tb.entries)[i].key && tb.entries[i].ref == 2 && tb.entries[i].key in tb.disk
    ensures tb.disk[tb.entries[i].key] == Dinode(typ, 0, [])
  {
    hide TableOk;
    var k := tb.entries[i].key;
    tb.Change(t1, i, tb.entries[i].node.(typ := 0));
    tb.IUpdate(t1, i);
    var inum := tb.IAlloc(k.dev, ninodes, typ);
    assert Key(k.dev, k.inum) == k;
    assert inum == k.inum;
    OneEntry(tb.entries, tb.uses, tb.disk, tb.dirty, i);
    j := tb.IGet(t2, k);
  }

  lemma SoleUse(es: seq<Entry>, uses: seq<multiset<Pid>>, disk: map<Key, Dinode>, dirty: set<nat>, i: nat, t: Pid)
    requires TableOk(es, uses, disk, dirty) && i < NINODE && uses[i] == multiset{t} && es[i].holder.None?
    ensures es[i].ref == 1 && i !in dirty
  {
  }

  /** No other entry in use is for the same inode. */
  lemma OneEntry(es: seq<Entry>, uses: seq<multiset<Pid>>, disk: map<Key, Dinode>, dirty: set<nat>, i: nat)
    requires TableOk(es, uses, disk, dirty) && i < NINODE && es[i].ref > 0
    ensures forall x | 0 <= x < NINODE && x != i && es[x].ref > 0 :: es[x].key != es[i].key
  {
  }

  /** What a process does in one section. */
  datatype Op =
    | DoGet(t: Pid, k: Key)
    | DoDup(t: Pid, i: nat)
    | DoLock(t: Pid, i: nat)
    | DoLoad(t: Pid, i: nat)
    | DoChange(t: Pid, i: nat, node: Dinode)
    | DoUpdate(t: Pid, i: nat)
    | DoUnlock(t: Pid, i: nat)
    | DoPutBegin(t: Pid, i: nat)
    | DoPutInvalidate(t: Pid, i: nat)
    | DoPutDrop(t: Pid, i: nat)
    | DoClaim(dev: nat, inum: nat, typ: nat)

  /** The rules that callers keep to: a reference is used by who has it, fields by the lock's holder,
      the lock is given up after every change was written, and a reference after the lock. */
  predicate May(es: seq<Entry>, uses: seq<multiset<Pid>>, disk: map<Key, Dinode>, dirty: set<nat>, o: Op) {
    && (!o.DoGet? && !o.DoClaim? ==> o.i < |es| && o.i < |uses|)
    && match o
       case DoGet(_, _) => true
       case DoDup(t, i) => t in uses[i]
       case DoLock(t, i) => t in uses[i]
       case DoLoad(t, i) => es[i].holder == Some(t) && es[i].key in disk && i !in dirty
       case DoChange(t, i, _) => es[i].holder == Some(t)
       case DoUpdate(t, i) => es[i].holder == Some(t) && es[i].valid
       case DoUnlock(t, i) => es[i].holder == Some(t) && i !in dirty
       case DoPutBegin(t, i) => t in uses[i] && es[i].holder != Some(t)
       case DoPutInvalidate(t, i) => es[i].holder == Some(t)
       case DoPutDrop(t, i) => t in uses[i] && es[i].holder != Some(t)
       case DoClaim(dev, inum, typ) => typ != 0 && Key(dev, inum) in disk
  }

  /** Any interleaving of such sections of any number of processes: whenever ilock is through, the
      fields its caller sees are those on disk, and of an inode in use. seen has both, for each time. */
  method Interleave(tb: Table, ops: seq<Op>) returns (seen: seq<(Dinode, Dinode)>, panics: bool)
    requires tb.Valid()
    modifies tb
    ensures !panics ==> tb.Valid()
    ensures forall x | x in seen :: x.0 == x.1 && x.0.typ != 0
  {
    hide TableOk;
    seen, panics := [], false;
    var n := 0;
    while n < |ops|
      invariant 0 <= n <= |ops| && tb.Valid() && !panics
      invariant forall x | x in seen :: x.0 == x.1 && x.0.typ != 0
    {
      if May(tb.entries, tb.uses, tb.disk, tb.dirty, ops[n]) {
        match ops[n] {
        case DoGet(t, k) => var i := tb.IGet(t, k);
        case DoDup(t, i) => tb.IDup(t, i);
        case DoLock(t, i) =>
          var ok := tb.Lock(t, i);
          if ok && tb.entries[i].valid {
            seen := seen + [(tb.entries[i].node, tb.disk[tb.entries[i].key])];
          }
        case DoLoad(t, i) =>
          var ok := tb.Load(t, i);
          if !ok {
            panics := true;
            return;
          }
          seen := seen + [(tb.entries[i].node, tb.disk[tb.entries[i].key])];
        case DoChange(t, i, node) => tb.Change(t, i, node);
        case DoUpdate(t, i) => tb.IUpdate(t, i);
        case DoUnlock(t, i) => tb.Unlock(t, i);
        case DoPutBegin(t, i) => var freeing := tb.IPutBegin(t, i);
        case DoPutInvalidate(t, i) => tb.IPutInvalidate(t, i);
        case DoPutDrop(t, i) => tb.IPutDrop(t, i);
        case DoClaim(dev, inum, typ) => var got := tb.IAllocOne(dev, inum, typ);
        }
      }
      n := n + 1;
    }
  }
}
