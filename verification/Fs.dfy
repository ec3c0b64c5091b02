/** Block ownership and file contents in kernel/fs.c: what the free map, the inodes and the
    indirect blocks say about one another, on values. `blk` is the disk as read through the
    buffer cache. */
module FsSpec {
  import opened Blocks

  const NDIRECT: nat := 12
  const MAXFILE: nat := NDIRECT + NWORDS
  const NSLOTS: nat := NDIRECT + 1 + NWORDS
  const IPB: nat := 16

  type Disk = map<nat, Block>

  /** The layout: inode blocks, then the free map, then data from nmeta on. */
  datatype Super = Super(size: nat, ninodes: nat, inodestart: nat, bmapstart: nat, nmeta: nat) {
    predicate Valid() {
      && inodestart + ninodes / IPB < bmapstart
      && bmapstart + (size - 1) / BPB < nmeta <= size < WORD
    }

    /** Block of the free map that holds the bit of b. */
    function BBlock(b: nat): nat {
      b / BPB + bmapstart
    }

    /** Block that holds inode i. */
    function IBlock(i: nat): nat {
      i / IPB + inodestart
    }
  }

  datatype Inode = Inode(typ: int, nlink: int, size: nat, addrs: seq<nat>)

  /** A place that can name a block: address k of inode i for k up to NDIRECT, and beyond that
      entry k - NDIRECT - 1 of its indirect block. */
  datatype Slot = Slot(i: nat, k: nat)

  ghost predicate Wf(sb: Super, blk: Disk, ino: seq<Inode>) {
    && sb.Valid()
    && (forall b: nat :: b < sb.size <==> b in blk)
    && |ino| == sb.ninodes
    && (forall i | 0 <= i < |ino| :: |ino[i].addrs| == NDIRECT + 1 && ino[i].addrs[NDIRECT] < sb.size)
  }

  /** The block a slot names, 0 for none. */
  ghost function Ref(sb: Super, blk: Disk, ino: seq<Inode>, s: Slot): nat
    requires Wf(sb, blk, ino) && s.i < |ino| && s.k < NSLOTS
  {
    var a := ino[s.i].addrs;
    if s.k <= NDIRECT then a[s.k]
    else if a[NDIRECT] == 0 then 0
    else GetWord(blk[a[NDIRECT]], s.k - NDIRECT - 1)
  }

  predicate IsSlot(sb: Super, s: Slot) {
    s.i < sb.ninodes && s.k < NSLOTS
  }

  ghost predicate BitSet(sb: Super, blk: Disk, b: nat) {
    sb.BBlock(b) in blk && GetBit(blk[sb.BBlock(b)], b % BPB)
  }

  /** No block is free. */
  ghost predicate Full(sb: Super, blk: Disk) {
    forall b: nat | b < sb.size :: BitSet(sb, blk, b)
  }

  lemma BBlockInMeta(sb: Super, b: nat)
    requires sb.Valid() && b < sb.size
    ensures sb.BBlock(b) < sb.nmeta
  {
    assert b / BPB <= (sb.size - 1) / BPB;
  }

  /** Each block in use by a slot has that slot as its one owner. */
  ghost predicate Owners(sb: Super, blk: Disk, ino: seq<Inode>, own: map<nat, Slot>)
    requires Wf(sb, blk, ino)
  {
    && (forall b | b in own ::
          sb.nmeta <= b < sb.size && IsSlot(sb, own[b]) && Ref(sb, blk, ino, own[b]) == b)
    && (forall s: Slot {:trigger Ref(sb, blk, ino, s)} | IsSlot(sb, s) && Ref(sb, blk, ino, s) != 0 ::
          Ref(sb, blk, ino, s) in own && own[Ref(sb, blk, ino, s)] == s)
  }

  /** The set bits of the free map are the metadata blocks, the owned blocks and those held. */
  ghost predicate BitsAre(sb: Super, blk: Disk, own: map<nat, Slot>, held: set<nat>) {
    forall b: nat | b < sb.size :: BitSet(sb, blk, b) <==> b < sb.nmeta || b in own || b in held
  }

  /** `held` are blocks allocated and not yet recorded anywhere. */
  ghost predicate Owned(sb: Super, blk: Disk, ino: seq<Inode>, own: map<nat, Slot>, held: set<nat>) {
    && Wf(sb, blk, ino)
    && Owners(sb, blk, ino, own)
    && own.Keys !! held && (forall b | b in held :: sb.nmeta <= b < sb.size)
    && BitsAre(sb, blk, own, held)
  }

  // ---- steps ----

  /** balloc: a clear bit is set and its block zeroed. */
  lemma Allocate(sb: Super, blk: Disk, ino: seq<Inode>, own: map<nat, Slot>, held: set<nat>, b: nat, blk': Disk)
    requires Owned(sb, blk, ino, own, held) && b < sb.size && sb.BBlock(b) in blk && !GetBit(blk[sb.BBlock(b)], b % BPB)
    requires blk' == blk[sb.BBlock(b) := SetBit(blk[sb.BBlock(b)], b % BPB)][b := Zero()]
    ensures Owned(sb, blk', ino, own, held + {b}) && b !in own && b !in held && b >= sb.nmeta
    ensures forall s: Slot | IsSlot(sb, s) :: Ref(sb, blk', ino, s) == Ref(sb, blk, ino, s)
    ensures forall x: nat | sb.nmeta <= x < sb.size && x != b :: blk'[x] == blk[x]
  {
    BBlockInMeta(sb, b);
    assert !BitSet(sb, blk, b);
    assert b !in own && b !in held && b >= sb.nmeta;
    forall s: Slot | IsSlot(sb, s) ensures Ref(sb, blk', ino, s) == Ref(sb, blk, ino, s) {
      IndirectOwned(sb, blk, ino, own, s.i);
    }
    forall x: nat | x < sb.size
      ensures BitSet(sb, blk', x) <==> BitSet(sb, blk, x) || x == b
    {
      BBlockInMeta(sb, x);
    }
  }

  lemma IndirectOwned(sb: Super, blk: Disk, ino: seq<Inode>, own: map<nat, Slot>, i: nat)
    requires Wf(sb, blk, ino) && Owners(sb, blk, ino, own) && i < |ino|
    ensures ino[i].addrs[NDIRECT] != 0 ==>
              ino[i].addrs[NDIRECT] in own && own[ino[i].addrs[NDIRECT]] == Slot(i, NDIRECT)
  {
    var s := Slot(i, NDIRECT);
    assert Ref(sb, blk, ino, s) == ino[i].addrs[NDIRECT];
  }

  /** bfree: a set bit is cleared. */
  lemma Free(sb: Super, blk: Disk, ino: seq<Inode>, b: nat, blk': Disk)
    requires Wf(sb, blk, ino) && b < sb.size && BitSet(sb, blk, b)
    requires forall i | 0 <= i < |ino| :: ino[i].addrs[NDIRECT] == 0 || ino[i].addrs[NDIRECT] >= sb.nmeta
    requires blk' == blk[sb.BBlock(b) := ClearBit(blk[sb.BBlock(b)], b % BPB)]
    ensures Wf(sb, blk', ino)
    ensures forall s: Slot | IsSlot(sb, s) :: Ref(sb, blk', ino, s) == Ref(sb, blk, ino, s)
    ensures forall x: nat | x < sb.size :: BitSet(sb, blk', x) <==> BitSet(sb, blk, x) && x != b
    ensures forall x: nat | sb.nmeta <= x < sb.size :: blk'[x] == blk[x]
  {
    BBlockInMeta(sb, b);
    forall x: nat | x < sb.size ensures BitSet(sb, blk', x) <==> BitSet(sb, blk, x) && x != b {
      BBlockInMeta(sb, x);
    }
  }

  ghost function SetAddr(ino: seq<Inode>, i: nat, k: nat, b: nat): seq<Inode>
    requires i < |ino| && k < |ino[i].addrs|
  {
    ino[i := ino[i].(addrs := ino[i].addrs[k := b])]
  }

  /** A held block is recorded at an empty address of inode i; the indirect block must be zero. */
  lemma RecordAddr(sb: Super, blk: Disk, ino: seq<Inode>, own: map<nat, Slot>, held: set<nat>, s: Slot, b: nat)
    requires Owned(sb, blk, ino, own, held + {b}) && b !in held && IsSlot(sb, s) && s.k <= NDIRECT
    requires ino[s.i].addrs[s.k] == 0 && (s.k == NDIRECT ==> blk[b] == Zero())
    ensures Owned(sb, blk, SetAddr(ino, s.i, s.k, b), own[b := s], held)
    ensures forall t: Slot | IsSlot(sb, t) ::
              Ref(sb, blk, SetAddr(ino, s.i, s.k, b), t) == if t == s then b else Ref(sb, blk, ino, t)
  {
    var ino', own' := SetAddr(ino, s.i, s.k, b), own[b := s];
    assert b in held + {b};
    assert Ref(sb, blk, ino, s) == 0;
    forall t: Slot | IsSlot(sb, t) ensures Ref(sb, blk, ino', t) == if t == s then b else Ref(sb, blk, ino, t) {
    }
  }

  /** A held block is recorded at an empty entry of the indirect block of inode s.i. */
  lemma RecordIndirect(sb: Super, blk: Disk, ino: seq<Inode>, own: map<nat, Slot>, held: set<nat>, s: Slot, b: nat,
                       blk': Disk)
    requires Owned(sb, blk, ino, own, held + {b}) && b !in held && IsSlot(sb, s) && s.k > NDIRECT
    requires ino[s.i].addrs[NDIRECT] != 0 && Ref(sb, blk, ino, s) == 0 && b < WORD
    requires var a := ino[s.i].addrs[NDIRECT]; blk' == blk[a := PutWord(blk[a], s.k - NDIRECT - 1, b)]
    ensures Owned(sb, blk', ino, own[b := s], held)
    ensures forall t: Slot | IsSlot(sb, t) :: Ref(sb, blk', ino, t) == if t == s then b else Ref(sb, blk, ino, t)
  {
    EntryRefs(sb, blk, ino, own, s, b, blk');
    hide Ref, GetWord, PutWord, BitSet;
    IndirectOwned(sb, blk, ino, own, s.i);
    assert b in held + {b};
    BitsKept(sb, blk, blk', ino[s.i].addrs[NDIRECT]);
    assert Owners(sb, blk', ino, own[b := s]);
  }

  lemma EntryRefs(sb: Super, blk: Disk, ino: seq<Inode>, own: map<nat, Slot>, s: Slot, b: nat, blk': Disk)
    requires Wf(sb, blk, ino) && Owners(sb, blk, ino, own) && IsSlot(sb, s) && s.k > NDIRECT
    requires ino[s.i].addrs[NDIRECT] != 0 && b < WORD
    requires var a := ino[s.i].addrs[NDIRECT]; blk' == blk[a := PutWord(blk[a], s.k - NDIRECT - 1, b)]
    ensures Wf(sb, blk', ino)
    ensures forall t: Slot | IsSlot(sb, t) :: Ref(sb, blk', ino, t) == if t == s then b else Ref(sb, blk, ino, t)
  {
    forall t: Slot | IsSlot(sb, t) ensures Ref(sb, blk', ino, t) == if t == s then b else Ref(sb, blk, ino, t) {
      IndirectOwned(sb, blk, ino, own, t.i);
      IndirectOwned(sb, blk, ino, own, s.i);
    }
  }

  lemma BitsKept(sb: Super, blk: Disk, blk': Disk, a: nat)
    requires sb.Valid() && sb.nmeta <= a && forall x | x in blk && x != a :: x in blk' && blk'[x] == blk[x]
    requires forall b: nat :: b < sb.size <==> b in blk
    ensures forall b: nat | b < sb.size :: BitSet(sb, blk', b) == BitSet(sb, blk, b)
  {
    forall b: nat | b < sb.size ensures BitSet(sb, blk', b) == BitSet(sb, blk, b) {
      BBlockInMeta(sb, b);
    }
  }

  /** Changing the bytes of a data block changes no reference. */
  lemma WriteData(sb: Super, blk: Disk, ino: seq<Inode>, own: map<nat, Slot>, held: set<nat>, s: Slot, v: Block)
    requires Owned(sb, blk, ino, own, held) && IsSlot(sb, s) && s.k != NDIRECT && Ref(sb, blk, ino, s) != 0
    ensures var b := Ref(sb, blk, ino, s);
            && Owned(sb, blk[b := v], ino, own, held)
            && forall t: Slot | IsSlot(sb, t) :: Ref(sb, blk[b := v], ino, t) == Ref(sb, blk, ino, t)
  {
    var b := Ref(sb, blk, ino, s);
    var blk' := blk[b := v];
    forall t: Slot | IsSlot(sb, t) ensures Ref(sb, blk', ino, t) == Ref(sb, blk, ino, t) {
      IndirectOwned(sb, blk, ino, own, t.i);
    }
    BitsKept(sb, blk, blk', b);
  }

  // ---- file contents ----

  function FileSlot(i: nat, n: nat): Slot {
    Slot(i, if n < NDIRECT then n else n + 1)
  }

  /** Block n of file i; a block that is not allocated reads as zero. */
  ghost function Data(sb: Super, blk: Disk, ino: seq<Inode>, i: nat, n: nat): Block
    requires Wf(sb, blk, ino) && i < |ino| && n < MAXFILE
  {
    var r := Ref(sb, blk, ino, FileSlot(i, n));
    if r != 0 && r in blk then blk[r] else Zero()
  }

  /** Same block contents for every file. */
  ghost predicate SameData(sb: Super, blk: Disk, ino: seq<Inode>, blk': Disk, ino': seq<Inode>)
    requires Wf(sb, blk, ino) && Wf(sb, blk', ino')
  {
    forall i: nat, n: nat | i < |ino| && n < MAXFILE :: Data(sb, blk', ino', i, n) == Data(sb, blk, ino, i, n)
  }

  /** From one state to the next, empty slots of file i were at most filled with blocks that,
      but for an indirect block, are zero; nothing else about ownership or data changed. */
  ghost predicate Fills(sb: Super, blk: Disk, ino: seq<Inode>, own: map<nat, Slot>,
                        blk': Disk, ino': seq<Inode>, own': map<nat, Slot>, i: nat)
  {
    && Owned(sb, blk, ino, own, {}) && Owned(sb, blk', ino', own', {}) && i < |ino|
    && ino' == ino[i := ino[i].(addrs := ino'[i].addrs)]
    && (forall s: Slot | IsSlot(sb, s) ::
          Ref(sb, blk, ino, s) != 0 || s.i != i ==> Ref(sb, blk', ino', s) == Ref(sb, blk, ino, s))
    && (forall s: Slot | IsSlot(sb, s) && Ref(sb, blk, ino, s) == 0 && s.k != NDIRECT ::
          Ref(sb, blk', ino', s) == 0 || blk'[Ref(sb, blk', ino', s)] == Zero())
    && (forall b | b in own :: b in own' && own'[b] == own[b])
    && (forall b | b in own && own[b].k != NDIRECT :: blk'[b] == blk[b])
  }

  lemma FillsTrans(sb: Super, blk0: Disk, ino0: seq<Inode>, own0: map<nat, Slot>,
                   blk1: Disk, ino1: seq<Inode>, own1: map<nat, Slot>,
                   blk2: Disk, ino2: seq<Inode>, own2: map<nat, Slot>, i: nat)
    requires Fills(sb, blk0, ino0, own0, blk1, ino1, own1, i) && Fills(sb, blk1, ino1, own1, blk2, ino2, own2, i)
    ensures Fills(sb, blk0, ino0, own0, blk2, ino2, own2, i)
  {
  }

  lemma FillsKeepData(sb: Super, blk: Disk, ino: seq<Inode>, own: map<nat, Slot>,
                      blk': Disk, ino': seq<Inode>, own': map<nat, Slot>, i: nat)
    requires Fills(sb, blk, ino, own, blk', ino', own', i)
    ensures SameData(sb, blk, ino, blk', ino')
  {
    forall j: nat, n: nat | j < |ino| && n < MAXFILE ensures Data(sb, blk', ino', j, n) == Data(sb, blk, ino, j, n) {
      var s := FileSlot(j, n);
      assert IsSlot(sb, s);
    }
  }

  /** Writing v to block n of file i changes that block of that file and nothing else. */
  lemma WriteBlock(sb: Super, blk: Disk, ino: seq<Inode>, own: map<nat, Slot>, held: set<nat>, i: nat, n: nat, v: Block)
    requires Owned(sb, blk, ino, own, held) && i < |ino| && n < MAXFILE
    requires Ref(sb, blk, ino, FileSlot(i, n)) != 0
    ensures var blk' := blk[Ref(sb, blk, ino, FileSlot(i, n)) := v];
            && Owned(sb, blk', ino, own, held)
            && (forall t: Slot | IsSlot(sb, t) :: Ref(sb, blk', ino, t) == Ref(sb, blk, ino, t))
            && (forall j: nat, m: nat | j < |ino| && m < MAXFILE ::
                  Data(sb, blk', ino, j, m) == if j == i && m == n then v else Data(sb, blk, ino, j, m))
  {
    hide Ref, BitsAre, Zero;
    var s := FileSlot(i, n);
    WriteData(sb, blk, ino, own, held, s, v);
    OneOwner(sb, blk, ino, own, s);
    var b := Ref(sb, blk, ino, s);
    var blk' := blk[b := v];
    forall j: nat, m: nat | j < |ino| && m < MAXFILE
      ensures Data(sb, blk', ino, j, m) == if j == i && m == n then v else Data(sb, blk, ino, j, m)
    {
      var t := FileSlot(j, m);
      assert IsSlot(sb, t);
      if Ref(sb, blk, ino, t) != 0 {
        OneOwner(sb, blk, ino, own, t);
      }
    }
  }

  /** Every block below the size of file i is allocated. */
  ghost predicate AllocBelow(sb: Super, blk: Disk, ino: seq<Inode>, i: nat)
    requires Wf(sb, blk, ino) && i < |ino|
  {
    forall n: nat {:trigger FileSlot(i, n)} | n * BSIZE < ino[i].size ::
      n < MAXFILE && Ref(sb, blk, ino, FileSlot(i, n)) != 0
  }

  /** The bytes of file i. */
  ghost function Contents(sb: Super, blk: Disk, ino: seq<Inode>, i: nat): (r: seq<byte>)
    requires Wf(sb, blk, ino) && i < |ino| && ino[i].size <= MAXFILE * BSIZE
    ensures |r| == ino[i].size
  {
    seq(ino[i].size, p requires 0 <= p < ino[i].size => Data(sb, blk, ino, i, p / BSIZE)[p % BSIZE])
  }

  // ---- truncation ----

  /** The owners left when the slots of file i from lo up to hi are emptied. */
  ghost function Without(own: map<nat, Slot>, i: nat, lo: nat, hi: nat): map<nat, Slot> {
    map b | b in own && !(own[b].i == i && lo <= own[b].k < hi) :: own[b]
  }

  /** The blocks of the free map that hold the bits of the blocks in slots lo to hi - 1 of file i. */
  ghost function MapsOf(sb: Super, own: map<nat, Slot>, i: nat, lo: nat, hi: nat): set<nat> {
    set b | b in own && own[b].i == i && lo <= own[b].k < hi :: sb.BBlock(b)
  }

  /** The block of the free map that holds the bit of block a, if that is one. */
  function MapOf(sb: Super, a: nat): set<nat> {
    if a == 0 then {} else {sb.BBlock(a)}
  }

  lemma MapsOfNone(sb: Super, own: map<nat, Slot>, i: nat, lo: nat)
    ensures MapsOf(sb, own, i, lo, lo) == {}
  {
  }

  lemma MapsOfNext(sb: Super, blk: Disk, ino: seq<Inode>, own: map<nat, Slot>, i: nat, lo: nat, k: nat)
    requires Wf(sb, blk, ino) && Owners(sb, blk, ino, own) && i < |ino| && lo <= k < NSLOTS
    ensures var a := Ref(sb, blk, ino, Slot(i, k));
            MapsOf(sb, own, i, lo, k + 1) == MapsOf(sb, own, i, lo, k) + MapOf(sb, a)
  {
    var s := Slot(i, k);
    var a := Ref(sb, blk, ino, s);
    assert forall b | b in own :: own[b] == s <==> b == a != 0;
    hide Ref, Wf, Owners;
    assert forall b | b in own :: own[b].i == i && own[b].k == k <==> own[b] == s;
    forall x
      ensures x in MapsOf(sb, own, i, lo, k + 1) <==> x in MapsOf(sb, own, i, lo, k) || (a != 0 && x == sb.BBlock(a))
    {
      if a != 0 {
        assert a in own && own[a] == s;
      }
    }
  }

  /** The indirect block and its entries, if there is one. */
  lemma MapsOfIndirect(sb: Super, blk: Disk, ino: seq<Inode>, own: map<nat, Slot>, i: nat)
    requires Wf(sb, blk, ino) && Owners(sb, blk, ino, own) && i < |ino|
    ensures var a := ino[i].addrs[NDIRECT];
            MapsOf(sb, own, i, NDIRECT, NSLOTS) ==
            if a == 0 then {} else MapsOf(sb, own, i, NDIRECT + 1, NSLOTS) + {sb.BBlock(a)}
  {
    var a := ino[i].addrs[NDIRECT];
    MapsOfNone(sb, own, i, NDIRECT);
    MapsOfNext(sb, blk, ino, own, i, NDIRECT, NDIRECT);
    assert Ref(sb, blk, ino, Slot(i, NDIRECT)) == a;
    MapsOfSplit(sb, own, i, NDIRECT, NDIRECT + 1, NSLOTS);
    if a == 0 {
      assert forall b | b in own :: !(own[b].i == i && NDIRECT <= own[b].k < NSLOTS);
    }
  }

  lemma MapsOfSplit(sb: Super, own: map<nat, Slot>, i: nat, lo: nat, mid: nat, hi: nat)
    requires lo <= mid <= hi
    ensures MapsOf(sb, own, i, lo, hi) == MapsOf(sb, own, i, lo, mid) + MapsOf(sb, own, i, mid, hi)
  {
  }

  /** Those of the direct blocks, and of the rest when the direct blocks are gone, are those of the file. */
  lemma MapsOfAll(sb: Super, blk: Disk, ino: seq<Inode>, own: map<nat, Slot>, i: nat)
    requires Wf(sb, blk, ino) && Owners(sb, blk, ino, own)
    ensures MapsOf(sb, own, i, 0, NDIRECT) + MapsOf(sb, Without(own, i, 0, NDIRECT), i, NDIRECT, NSLOTS) ==
            (set b | b in own && own[b].i == i :: sb.BBlock(b))
  {
    hide Ref, Wf;
    MapsOfSplit(sb, own, i, 0, NDIRECT, NSLOTS);
    assert forall b | b in own :: own[b].k < NSLOTS;
    hide Owners;
    assert MapsOf(sb, Without(own, i, 0, NDIRECT), i, NDIRECT, NSLOTS) == MapsOf(sb, own, i, NDIRECT, NSLOTS);
  }

  /** Freeing the block at address k of file i and clearing the address. */
  lemma FreeAddr(sb: Super, blk: Disk, ino: seq<Inode>, own: map<nat, Slot>, i: nat, k: nat, blk': Disk)
    requires Owned(sb, blk, ino, own, {}) && i < |ino| && k < NDIRECT && ino[i].addrs[k] != 0
    requires Wf(sb, blk', ino)
    requires forall s: Slot | IsSlot(sb, s) :: Ref(sb, blk', ino, s) == Ref(sb, blk, ino, s)
    requires forall x: nat | x < sb.size :: BitSet(sb, blk', x) <==> BitSet(sb, blk, x) && x != ino[i].addrs[k]
    ensures Owned(sb, blk', SetAddr(ino, i, k, 0), Without(own, i, k, k + 1), {})
    ensures forall s: Slot | IsSlot(sb, s) ::
              Ref(sb, blk', SetAddr(ino, i, k, 0), s) == if s == Slot(i, k) then 0 else Ref(sb, blk, ino, s)
  {
    var ino', own' := SetAddr(ino, i, k, 0), Without(own, i, k, k + 1);
    var s0 := Slot(i, k);
    AddrCleared(sb, blk', ino, i, k);
    OneOwner(sb, blk, ino, own, s0);
    DropOwner(own, i, k);
    hide Ref, BitSet, Without;
    assert Owners(sb, blk', ino', own');
    assert BitsAre(sb, blk', own', {});
  }

  lemma DropOwner(own: map<nat, Slot>, i: nat, k: nat)
    ensures forall x :: x in Without(own, i, k, k + 1) <==> x in own && own[x] != Slot(i, k)
    ensures forall x | x in Without(own, i, k, k + 1) :: Without(own, i, k, k + 1)[x] == own[x]
  {
  }

  lemma AddrCleared(sb: Super, blk: Disk, ino: seq<Inode>, i: nat, k: nat)
    requires Wf(sb, blk, ino) && i < |ino| && k < NDIRECT
    ensures Ref(sb, blk, ino, Slot(i, k)) == ino[i].addrs[k]
    ensures Wf(sb, blk, SetAddr(ino, i, k, 0))
    ensures forall s: Slot | IsSlot(sb, s) ::
              Ref(sb, blk, SetAddr(ino, i, k, 0), s) == if s == Slot(i, k) then 0 else Ref(sb, blk, ino, s)
  {
  }

  /** The block a slot names is owned by that slot alone. */
  lemma OneOwner(sb: Super, blk: Disk, ino: seq<Inode>, own: map<nat, Slot>, s: Slot)
    requires Wf(sb, blk, ino) && Owners(sb, blk, ino, own) && IsSlot(sb, s) && Ref(sb, blk, ino, s) != 0
    ensures forall x | x in own :: own[x] == s <==> x == Ref(sb, blk, ino, s)
    ensures Ref(sb, blk, ino, s) in own && own[Ref(sb, blk, ino, s)] == s
  {
  }

  /** The free map while the blocks of file i named by slots NDIRECT + 1 .. hi - 1 are freed. */
  ghost predicate BitsMinus(sb: Super, blk: Disk, own: map<nat, Slot>, i: nat, hi: nat) {
    BitsAre(sb, blk, Without(own, i, NDIRECT + 1, hi), {})
  }

  lemma FreeEntry(sb: Super, blk: Disk, ino: seq<Inode>, own: map<nat, Slot>, i: nat, k: nat, blk': Disk)
    requires Wf(sb, blk, ino) && Owners(sb, blk, ino, own) && BitsMinus(sb, blk, own, i, k)
    requires i < |ino| && NDIRECT < k < NSLOTS
    requires Ref(sb, blk, ino, Slot(i, k)) == 0 ==> blk' == blk
    requires Ref(sb, blk, ino, Slot(i, k)) != 0 ==>
               forall x: nat | x < sb.size :: BitSet(sb, blk', x) <==> BitSet(sb, blk, x) && x != Ref(sb, blk, ino, Slot(i, k))
    ensures BitsMinus(sb, blk', own, i, k + 1)
  {
    hide Ref, BitSet;
    var s := Slot(i, k);
    var o, o' := Without(own, i, NDIRECT + 1, k), Without(own, i, NDIRECT + 1, k + 1);
    if Ref(sb, blk, ino, s) != 0 {
      OneOwner(sb, blk, ino, own, s);
    } else {
      EmptyOwnsNone(sb, blk, ino, own, s);
    }
    forall x: nat | x < sb.size ensures x in o' <==> x in o && x != Ref(sb, blk, ino, s) {
      if x in own {
        assert own[x] == s <==> own[x].i == i && own[x].k == k;
      }
    }
  }

  lemma EmptyOwnsNone(sb: Super, blk: Disk, ino: seq<Inode>, own: map<nat, Slot>, s: Slot)
    requires Wf(sb, blk, ino) && Owners(sb, blk, ino, own) && IsSlot(sb, s) && Ref(sb, blk, ino, s) == 0
    ensures forall x | x in own :: own[x] != s && x != 0
  {
  }

  /** With all entries freed, the indirect block goes too. */
  lemma FreeIndirect(sb: Super, blk: Disk, ino: seq<Inode>, own: map<nat, Slot>, i: nat, blk': Disk)
    requires Wf(sb, blk, ino) && Owners(sb, blk, ino, own) && BitsMinus(sb, blk, own, i, NSLOTS)
    requires i < |ino| && ino[i].addrs[NDIRECT] != 0 && Wf(sb, blk', ino)
    requires forall s: Slot | IsSlot(sb, s) :: Ref(sb, blk', ino, s) == Ref(sb, blk, ino, s)
    requires forall x: nat | x < sb.size :: BitSet(sb, blk', x) <==> BitSet(sb, blk, x) && x != ino[i].addrs[NDIRECT]
    ensures Owned(sb, blk', SetAddr(ino, i, NDIRECT, 0), Without(own, i, NDIRECT, NSLOTS), {})
    ensures forall s: Slot | IsSlot(sb, s) ::
              Ref(sb, blk', SetAddr(ino, i, NDIRECT, 0), s) == if s.i == i && s.k >= NDIRECT then 0 else Ref(sb, blk, ino, s)
  {
    var ino', own' := SetAddr(ino, i, NDIRECT, 0), Without(own, i, NDIRECT, NSLOTS);
    var a := ino[i].addrs[NDIRECT];
    IndirectOwned(sb, blk, ino, own, i);
    forall s: Slot | IsSlot(sb, s)
      ensures Ref(sb, blk', ino', s) == if s.i == i && s.k >= NDIRECT then 0 else Ref(sb, blk, ino, s)
    {
    }
    forall x: nat | x < sb.size ensures x in own' <==> x in Without(own, i, NDIRECT + 1, NSLOTS) && x != a {
    }
  }

  // ---- writing ----

  const FILEBYTES: nat := MAXFILE * BSIZE

  /** Byte p of file i, wherever its size lies. */
  ghost function FileByte(sb: Super, blk: Disk, ino: seq<Inode>, i: nat, p: nat): byte
    requires Wf(sb, blk, ino) && i < |ino| && p < FILEBYTES
  {
    Data(sb, blk, ino, i, p / BSIZE)[p % BSIZE]
  }

  /** b with the bytes from o on replaced by chunk. */
  function PutChunk(b: Block, o: nat, chunk: seq<byte>): (r: Block)
    requires o + |chunk| <= BSIZE
    ensures forall q | 0 <= q < BSIZE :: r[q] == if o <= q < o + |chunk| then chunk[q - o] else b[q]
  {
    b[..o] + chunk + b[o + |chunk|..]
  }

  /** Only block n of file i differs, and holds v. */
  ghost predicate OneBlock(sb: Super, blk: Disk, ino: seq<Inode>, blk': Disk, ino': seq<Inode>, i: nat, n: nat,
                           v: Block)
  {
    && Wf(sb, blk, ino) && Wf(sb, blk', ino') && i < |ino| && n < MAXFILE
    && forall j: nat, m: nat | j < |ino| && m < MAXFILE ::
         Data(sb, blk', ino', j, m) == if j == i && m == n then v else Data(sb, blk, ino, j, m)
  }

  /** File i has `bytes` at off and is otherwise as it was; so is every other file. */
  ghost predicate Wrote(sb: Super, blk: Disk, ino: seq<Inode>, blk': Disk, ino': seq<Inode>, i: nat, off: nat,
                        bytes: seq<byte>)
  {
    && Wf(sb, blk, ino) && Wf(sb, blk', ino') && i < |ino| && off + |bytes| <= FILEBYTES
    && (forall p: nat | p < FILEBYTES ::
          FileByte(sb, blk', ino', i, p) ==
          if off <= p < off + |bytes| then bytes[p - off] else FileByte(sb, blk, ino, i, p))
    && (forall j: nat, m: nat | j < |ino| && j != i && m < MAXFILE ::
          Data(sb, blk', ino', j, m) == Data(sb, blk, ino, j, m))
  }

  lemma WroteNext(sb: Super, blk0: Disk, ino0: seq<Inode>, blk: Disk, ino: seq<Inode>, blk': Disk, ino': seq<Inode>,
                  i: nat, off: nat, bytes: seq<byte>, chunk: seq<byte>)
    requires Wrote(sb, blk0, ino0, blk, ino, i, off, bytes)
    requires off + |bytes| + |chunk| <= FILEBYTES && off + |bytes| < FILEBYTES
    requires (off + |bytes|) % BSIZE + |chunk| <= BSIZE
    requires var q := off + |bytes|;
             OneBlock(sb, blk, ino, blk', ino', i, q / BSIZE,
                      PutChunk(Data(sb, blk, ino, i, q / BSIZE), q % BSIZE, chunk))
    ensures Wrote(sb, blk0, ino0, blk', ino', i, off, bytes + chunk)
  {
    hide Data;
    var q := off + |bytes|;
    forall p: nat | p < FILEBYTES
      ensures FileByte(sb, blk', ino', i, p) ==
              if off <= p < off + |bytes + chunk| then (bytes + chunk)[p - off] else FileByte(sb, blk0, ino0, i, p)
    {
      ChunkByte(q, |chunk|, p);
      assert FileByte(sb, blk, ino, i, p) == if off <= p < q then bytes[p - off] else FileByte(sb, blk0, ino0, i, p);
    }
  }

  /** Where the bytes of a chunk that stays in one block lie. */
  lemma ChunkByte(q: nat, m: nat, p: nat)
    requires q % BSIZE + m <= BSIZE
    ensures q <= p < q + m ==> p / BSIZE == q / BSIZE && p % BSIZE - q % BSIZE == p - q
    ensures p / BSIZE == q / BSIZE && q % BSIZE <= p % BSIZE < q % BSIZE + m ==> q <= p < q + m
  {
  }

  /** The number of blocks that bytes off .. off + n - 1 touch. */
  function Touched(off: nat, n: nat): nat {
    if n == 0 then 0 else (off + n - 1) / BSIZE - off / BSIZE + 1
  }

  /** Every block that bytes lo .. hi - 1 of file i touch is allocated. */
  ghost predicate AllocRange(sb: Super, blk: Disk, ino: seq<Inode>, i: nat, lo: nat, hi: nat)
    requires Wf(sb, blk, ino) && i < |ino|
  {
    forall n: nat {:trigger FileSlot(i, n)} | lo < hi && lo < (n + 1) * BSIZE && n * BSIZE < hi ::
      n < MAXFILE && Ref(sb, blk, ino, FileSlot(i, n)) != 0
  }

  lemma WroteNothing(sb: Super, blk: Disk, ino: seq<Inode>, i: nat, off: nat)
    requires Wf(sb, blk, ino) && i < |ino| && off <= FILEBYTES
    ensures Wrote(sb, blk, ino, blk, ino, i, off, [])
  {
  }

  lemma WroteSame(sb: Super, blk0: Disk, ino0: seq<Inode>, blk: Disk, ino: seq<Inode>, blk': Disk, ino': seq<Inode>,
                  i: nat, off: nat, bytes: seq<byte>)
    requires Wrote(sb, blk0, ino0, blk, ino, i, off, bytes) && Wf(sb, blk', ino') && SameData(sb, blk, ino, blk', ino')
    ensures Wrote(sb, blk0, ino0, blk', ino', i, off, bytes)
  {
    hide Data;
    forall p: nat | p < FILEBYTES ensures FileByte(sb, blk', ino', i, p) == FileByte(sb, blk, ino, i, p) {
    }
  }

  /** c with the bytes from off on replaced by b, growing if need be. */
  function Splice(c: seq<byte>, off: nat, b: seq<byte>): (r: seq<byte>)
    requires off <= |c|
    ensures |r| == if off + |b| > |c| then off + |b| else |c|
    ensures forall p | 0 <= p < |r| :: r[p] == if off <= p < off + |b| then b[p - off] else c[p]
  {
    if off + |b| >= |c| then c[..off] + b else c[..off] + b + c[off + |b|..]
  }

  lemma SpliceSplice(c: seq<byte>, off: nat, a: seq<byte>, b: seq<byte>)
    requires off <= |c|
    ensures Splice(Splice(c, off, a), off + |a|, b) == Splice(c, off, a + b)
  {
  }

  /** Every file has its blocks, up to its size. */
  ghost predicate FilesOk(sb: Super, blk: Disk, ino: seq<Inode>) {
    Wf(sb, blk, ino) && forall i: nat | i < |ino| :: AllocBelow(sb, blk, ino, i)
  }

  lemma SizeBound(sb: Super, blk: Disk, ino: seq<Inode>, i: nat)
    requires Wf(sb, blk, ino) && i < |ino| && AllocBelow(sb, blk, ino, i)
    ensures ino[i].size <= FILEBYTES
  {
    hide Ref;
    var s := FileSlot(i, MAXFILE);
  }

  lemma ContentsByte(sb: Super, blk: Disk, ino: seq<Inode>, i: nat, p: nat)
    requires Wf(sb, blk, ino) && i < |ino| && ino[i].size <= FILEBYTES && p < ino[i].size
    ensures Contents(sb, blk, ino, i)[p] == FileByte(sb, blk, ino, i, p)
  {
  }

  /** What Wrote means for the contents, once the size has been set. */
  lemma WroteContents(sb: Super, blk: Disk, ino: seq<Inode>, blk': Disk, ino': seq<Inode>, i: nat, off: nat,
                      bytes: seq<byte>, tot: nat)
    requires Wrote(sb, blk, ino, blk', ino', i, off, bytes) && off <= ino[i].size <= FILEBYTES && tot <= |bytes|
    requires ino'[i].size == if off + tot > ino[i].size then off + tot else ino[i].size
    ensures Contents(sb, blk', ino', i) == Splice(Contents(sb, blk, ino, i), off, bytes)[..ino'[i].size]
  {
    hide Data, FileByte;
    var c, c' := Contents(sb, blk, ino, i), Contents(sb, blk', ino', i);
    var r := Splice(c, off, bytes);
    forall p | 0 <= p < ino'[i].size ensures c'[p] == r[p] {
      ContentsByte(sb, blk', ino', i, p);
      if p < ino[i].size {
        ContentsByte(sb, blk, ino, i, p);
      }
    }
  }

  lemma OthersContents(sb: Super, blk: Disk, ino: seq<Inode>, blk': Disk, ino': seq<Inode>, i: nat, off: nat,
                       bytes: seq<byte>, j: nat)
    requires Wrote(sb, blk, ino, blk', ino', i, off, bytes) && j < |ino| && j != i
    requires ino'[j] == ino[j] && ino[j].size <= FILEBYTES
    ensures Contents(sb, blk', ino', j) == Contents(sb, blk, ino, j)
  {
    hide Data;
  }
}
