/** kernel/fs.c and the write loop of kernel/file.c: block allocation, inode contents and
    transactions. Panics are preconditions of the step that would raise them. */
module FileSystem {
  import opened Prelude
  import opened Blocks
  import opened FsSpec
  import opened WriteSpec

  /** The bytes of one transaction of filewrite. */
  const MAXCHUNK: nat := 3072

  class Fs {
    const sb: Super
    var blk: Disk          // blocks as read through the buffer cache
    var ino: seq<Inode>    // in-memory inodes
    var dino: seq<Inode>   // inodes as last copied to their blocks by iupdate
    var logged: set<nat>   // distinct blocks logged by the current transaction
    ghost var own: map<nat, Slot>

    ghost predicate Valid(held: set<nat>)
      reads this
    {
      Owned(sb, blk, ino, own, held) && |dino| == |ino|
    }

    ghost function Now(): Snap
      reads this
    {
      Snap(blk, ino, own, logged)
    }

    /** A file system at rest, with no transaction under way. */
    constructor (sb0: Super, blk0: Disk, ino0: seq<Inode>, ghost own0: map<nat, Slot>)
      requires Owned(sb0, blk0, ino0, own0, {})
      ensures Valid({}) && sb == sb0 && dino == ino && Now() == Snap(blk0, ino0, own0, {})
    {
      sb, blk, ino, dino, logged, own := sb0, blk0, ino0, ino0, {}, own0;
    }

    method LogWrite(b: nat)
      modifies this`logged
      ensures logged == old(logged) + {b}
    {
      logged := logged + {b};
    }

    /** The first clear bit of the map block that starts at bit b, if any. */
    method ScanBlock(b: nat) returns (bi: nat)
      requires Wf(sb, blk, ino) && b % BPB == 0 && b < sb.size
      ensures bi <= BPB && forall x: nat | b <= x < b + bi && x < sb.size :: BitSet(sb, blk, x)
      ensures bi < BPB && b + bi < sb.size ==> !BitSet(sb, blk, b + bi)
      ensures bi == BPB || b + bi <= sb.size
    {
      BBlockInMeta(sb, b);
      var bp := blk[sb.BBlock(b)];
      bi := 0;
      while bi < BPB && b + bi < sb.size
        invariant 0 <= bi <= BPB && b + bi <= sb.size
        invariant forall x: nat | b <= x < b + bi :: BitSet(sb, blk, x)
      {
        BitIndex(b, bi);
        if !GetBit(bp, bi) {
          return;
        }
        bi := bi + 1;
      }
    }

    /** Set the bit of r, then bzero(r). */
    method MarkUsed(r: nat)
      requires Valid({}) && r < sb.size && !BitSet(sb, blk, r)
      modifies this`blk, this`logged
      ensures Valid({r}) && 0 < sb.nmeta <= r && r !in own && blk[r] == Zero()
      ensures logged == old(logged) + {sb.BBlock(r), r}
      ensures forall x: nat | sb.nmeta <= x < sb.size && x != r :: blk[x] == old(blk)[x]
      ensures forall s: Slot | IsSlot(sb, s) :: Ref(sb, blk, ino, s) == Ref(sb, old(blk), ino, s)
      ensures LogsAll(old(blk), old(logged), blk, logged, 0)
    {
      BBlockInMeta(sb, r);
      var bm := sb.BBlock(r);
      var bp := SetBit(blk[bm], r % BPB);
      Allocate(sb, blk, ino, own, {}, r, blk[bm := bp][r := Zero()]);
      hide Owned, Wf, Ref, Zero;
      blk := blk[bm := bp];
      LogWrite(bm);
      blk := blk[r := Zero()];
      LogWrite(r);
      assert {} + {r} == {r};
    }

    /** Allocate a zeroed block: the first clear bit of the free map. 0 when there is none. */
    method Balloc() returns (r: nat)
      requires Valid({})
      modifies this`blk, this`logged
      ensures r == 0 ==> blk == old(blk) && logged == old(logged) && Full(sb, blk)
      ensures r == 0 ==> Valid({})
      ensures r != 0 ==> Valid({r}) && sb.nmeta <= r < sb.size && r !in own && blk[r] == Zero()
      ensures r != 0 ==> logged == old(logged) + {sb.BBlock(r), r} && forall x: nat | x < r :: BitSet(sb, old(blk), x)
      ensures forall x: nat | sb.nmeta <= x < sb.size && x != r :: blk[x] == old(blk)[x]
      ensures forall s: Slot | IsSlot(sb, s) :: Ref(sb, blk, ino, s) == Ref(sb, old(blk), ino, s)
      ensures LogsAll(old(blk), old(logged), blk, logged, 0)
    {
      hide Wf, Owners, BitsAre, Ref, BitSet, Zero, LogsAll;
      LogsNone(blk, logged);
      var b := 0;
      while b < sb.size
        invariant b % BPB == 0 && blk == old(blk) && logged == old(logged)
        invariant forall x: nat | x < b && x < sb.size :: BitSet(sb, blk, x)
      {
        var bi := ScanBlock(b);
        if bi < BPB && b + bi < sb.size {
          MarkUsed(b + bi);
          return b + bi;
        }
        b := b + BPB;
      }
      return 0;
    }

    /** ip->addrs[k], allocating a block for it if it is empty; 0 if there is none. */
    method LoadAddr(i: nat, k: nat) returns (addr: nat)
      requires Valid({}) && i < |ino| && k <= NDIRECT
      modifies this`blk, this`ino, this`logged, this`own
      ensures addr == 0 ==> Full(sb, blk)
      ensures Valid({}) && Fills(sb, old(blk), old(ino), old(own), blk, ino, own, i)
      ensures addr == ino[i].addrs[k] == Ref(sb, blk, ino, Slot(i, k))
      ensures old(ino)[i].addrs[k] != 0 || addr == 0 ==> Now() == old(Now())
      ensures OneFill(sb, old(Now()), Now(), i, k)
      ensures LogsAll(old(blk), old(logged), blk, logged, 0)
    {
      hide Full, Owners, BitsAre, Fills, Ref, Zero, OneFill, LogsAll;
      LogsNone(blk, logged);
      RefCases(sb, blk, ino, Slot(i, k));
      addr := ino[i].addrs[k];
      FillsRefl(sb, blk, ino, own, i);
      NoFill(sb, Now(), i, k);
      if addr == 0 {
        addr := Balloc();
        if addr == 0 {
          return;
        }
        RecordAddrFills(sb, old(blk), blk, ino, own, Slot(i, k), addr);
        ino := ino[i := ino[i].(addrs := ino[i].addrs[k := addr])];
        own := own[addr := Slot(i, k)];
        FillsOwned(sb, old(blk), old(ino), old(own), blk, ino, own, i);
        Filled(sb, old(Now()), Now(), i, k, addr);
      }
    }

    /** Entry j of the indirect block of file i, allocating a block for it if it is empty. */
    method LoadEntry(i: nat, j: nat) returns (addr: nat)
      requires Valid({}) && i < |ino| && j < NWORDS && ino[i].addrs[NDIRECT] != 0
      modifies this`blk, this`logged, this`own
      ensures addr == 0 ==> Full(sb, blk)
      ensures Valid({}) && Fills(sb, old(blk), old(ino), old(own), blk, ino, own, i)
      ensures addr == Ref(sb, blk, ino, Slot(i, NDIRECT + 1 + j))
      ensures Ref(sb, old(blk), ino, Slot(i, NDIRECT + 1 + j)) != 0 || addr == 0 ==> Now() == old(Now())
      ensures OneFill(sb, old(Now()), Now(), i, NDIRECT + 1 + j)
      ensures LogsAll(old(blk), old(logged), blk, logged, 0)
    {
      hide Full, Owners, BitsAre, Fills, Ref, PutWord, GetWord, Zero, OneFill, LogsAll;
      LogsNone(blk, logged);
      ghost var s := Slot(i, NDIRECT + 1 + j);
      var a := ino[i].addrs[NDIRECT];
      EntryRef(sb, blk, ino, i, j);
      addr := GetWord(blk[a], j);
      FillsRefl(sb, blk, ino, own, i);
      NoFill(sb, Now(), i, NDIRECT + 1 + j);
      if addr == 0 {
        addr := Balloc();
        if addr == 0 {
          return;
        }
        RecordEntryFills(sb, old(blk), blk, ino, own, s, addr, a, blk[a := PutWord(blk[a], j, addr)]);
        LogsPut(old(blk), old(logged), blk, logged, a, PutWord(blk[a], j, addr));
        blk := blk[a := PutWord(blk[a], j, addr)];
        own := own[addr := s];
        LogWrite(a);
        FillsOwned(sb, old(blk), ino, old(own), blk, ino, own, i);
        Filled(sb, old(Now()), Now(), i, NDIRECT + 1 + j, addr);
      }
    }

    /** The block address of the nth block of file i, allocated if need be; 0 if out of space. */
    method BMap(i: nat, n: nat) returns (addr: nat)
      requires Valid({}) && i < |ino| && n < MAXFILE
      modifies this`blk, this`ino, this`logged, this`own
      ensures addr == 0 ==> Full(sb, blk)
      ensures Valid({}) && Fills(sb, old(blk), old(ino), old(own), blk, ino, own, i)
      ensures SameData(sb, old(blk), old(ino), blk, ino)
      ensures addr == Ref(sb, blk, ino, FileSlot(i, n)) == At(sb, Now(), i, SlotOf(n))
      ensures Ref(sb, old(blk), old(ino), FileSlot(i, n)) != 0 ==> Now() == old(Now())
      ensures Maps(sb, old(Now()), Now(), i, n * BSIZE, 1) && LoggedIs(sb, old(Now()), Now(), i, n * BSIZE, 0)
      ensures LogsAll(old(blk), old(logged), blk, logged, 0)
    {
      hide Full, Owners, BitsAre, Fills, SameData, Ref, OneFill, Maps, LoggedIs, At, LogsAll;
      RefCases(sb, blk, ino, FileSlot(i, n));
      ghost var s0 := Now();
      if n < NDIRECT {
        addr := LoadAddr(i, n);
        FillMaps(sb, s0, Now(), i, n, n);
      } else {
        addr := LoadAddr(i, NDIRECT);
        ghost var s1 := Now();
        FillMaps(sb, s0, s1, i, NDIRECT, n);
        if addr != 0 {
          addr := LoadEntry(i, n - NDIRECT);
          LogsThen(s0.blk, s0.logged, s1.blk, s1.logged, blk, logged, 0);
          FillMaps(sb, s1, Now(), i, n + 1, n);
          FillsThen(sb, s0, s1, Now(), i, n);
        }
      }
      RefCases(sb, blk, ino, FileSlot(i, n));
      RefAt(sb, Now(), i, n);
      FillsKeepData(sb, old(blk), old(ino), old(own), blk, ino, own, i);
    }

    /** Free block b; "freeing free block" is the first precondition. */
    method Bfree(b: nat)
      requires Wf(sb, blk, ino) && b < sb.size && BitSet(sb, blk, b)
      requires forall i | 0 <= i < |ino| :: ino[i].addrs[NDIRECT] == 0 || ino[i].addrs[NDIRECT] >= sb.nmeta
      modifies this`blk, this`logged
      ensures Wf(sb, blk, ino) && logged == old(logged) + {sb.BBlock(b)}
      ensures forall s: Slot | IsSlot(sb, s) :: Ref(sb, blk, ino, s) == Ref(sb, old(blk), ino, s)
      ensures forall x: nat | x < sb.size :: BitSet(sb, blk, x) <==> BitSet(sb, old(blk), x) && x != b
      ensures forall x: nat | sb.nmeta <= x < sb.size :: blk[x] == old(blk)[x]
      ensures LogsAll(old(blk), old(logged), blk, logged, 0)
    {
      var bp := blk[sb.BBlock(b)];
      Free(sb, blk, ino, b, blk[sb.BBlock(b) := ClearBit(bp, b % BPB)]);
      hide Wf, Ref, BitSet;
      blk := blk[sb.BBlock(b) := ClearBit(bp, b % BPB)];
      LogWrite(sb.BBlock(b));
    }

    /** Copy the in-memory inode to its block. */
    method IUpdate(i: nat)
      requires i < |ino| == |dino|
      modifies this`dino, this`logged
      ensures dino == old(dino)[i := ino[i]] && logged == old(logged) + {sb.IBlock(i)}
    {
      dino := dino[i := ino[i]];
      LogWrite(sb.IBlock(i));
    }

    /** The direct block k of file i. */
    method FreeDirect(i: nat, k: nat)
      requires Valid({}) && i < |ino| && k < NDIRECT
      modifies this`blk, this`ino, this`logged, this`own
      ensures Valid({}) && own == Without(old(own), i, k, k + 1)
      ensures ino == old(ino)[i := old(ino)[i].(addrs := old(ino)[i].addrs[k := 0])]
      ensures forall x: nat | sb.nmeta <= x < sb.size :: blk[x] == old(blk)[x]
      ensures forall s: Slot | IsSlot(sb, s) ::
                Ref(sb, blk, ino, s) == if s == Slot(i, k) then 0 else Ref(sb, old(blk), old(ino), s)
      ensures logged == old(logged) + MapOf(sb, Ref(sb, old(blk), old(ino), Slot(i, k)))
      ensures LogsAll(old(blk), old(logged), blk, logged, 0)
    {
      hide Owners, BitsAre, BitSet, Ref, Without, LogsAll;
      WithoutNone(own, i);
      WithoutSlot(sb, blk, ino, own, i, k);
      RefCases(sb, blk, ino, Slot(i, k));
      LogsNone(blk, logged);
      if ino[i].addrs[k] != 0 {
        ghost var blk0 := blk;
        AddrUsed(sb, blk, ino, own, i, k);
        Bfree(ino[i].addrs[k]);
        FreeAddr(sb, blk0, ino, own, i, k, blk);
        own := Without(own, i, k, k + 1);
        ino := ino[i := ino[i].(addrs := ino[i].addrs[k := 0])];
      } else {
        assert ino[i].addrs[k := 0] == ino[i].addrs;
      }
    }

    /** The direct blocks of file i. */
    method TruncDirect(i: nat)
      requires Valid({}) && i < |ino|
      modifies this`blk, this`ino, this`logged, this`own
      ensures Valid({}) && own == Without(old(own), i, 0, NDIRECT) && |ino| == |old(ino)|
      ensures forall j: nat | j < |ino| && j != i :: ino[j] == old(ino)[j]
      ensures ino[i] == old(ino)[i].(addrs := ino[i].addrs) && ino[i].addrs[NDIRECT] == old(ino)[i].addrs[NDIRECT]
      ensures forall k | 0 <= k < NDIRECT :: ino[i].addrs[k] == 0
      ensures forall x: nat | sb.nmeta <= x < sb.size :: blk[x] == old(blk)[x]
      ensures forall s: Slot | IsSlot(sb, s) ::
                Ref(sb, blk, ino, s) == if s.i == i && s.k < NDIRECT then 0 else Ref(sb, old(blk), old(ino), s)
      ensures logged == old(logged) + MapsOf(sb, old(own), i, 0, NDIRECT)
      ensures LogsAll(old(blk), old(logged), blk, logged, 0)
    {
      hide Owners, BitsAre, BitSet, Ref, Without, MapsOf, MapOf, LogsAll;
      ghost var s0 := Now();
      var k := 0;
      WithoutNone(own, i);
      MapsOfNone(sb, own, i, 0);
      LogsNone(blk, logged);
      while k < NDIRECT
        invariant 0 <= k <= NDIRECT && Valid({}) && own == Without(old(own), i, 0, k) && |ino| == |old(ino)|
        invariant forall j: nat | j < |ino| && j != i :: ino[j] == old(ino)[j]
        invariant ino[i] == old(ino)[i].(addrs := ino[i].addrs) && |ino[i].addrs| == |s0.ino[i].addrs| == NDIRECT + 1
        invariant ino[i].addrs[NDIRECT] == old(ino)[i].addrs[NDIRECT]
        invariant forall j | 0 <= j < k :: ino[i].addrs[j] == 0
        invariant forall x: nat | sb.nmeta <= x < sb.size :: blk[x] == old(blk)[x]
        invariant forall s: Slot | IsSlot(sb, s) ::
                    Ref(sb, blk, ino, s) == if s.i == i && s.k < k then 0 else Ref(sb, old(blk), old(ino), s)
        invariant logged == old(logged) + MapsOf(sb, s0.own, i, 0, k)
        invariant LogsAll(s0.blk, s0.logged, blk, logged, 0)
      {
        ghost var blk1, logged1 := blk, logged;
        WithoutMore(own, old(own), i, k);
        MapsOfNext(sb, s0.blk, s0.ino, s0.own, i, 0, k);
        FreeDirect(i, k);
        LogsThen(s0.blk, s0.logged, blk1, logged1, blk, logged, 0);
        k := k + 1;
      }
    }

    /** The indirect block of file i and the blocks it names. */
    method TruncIndirect(i: nat)
      requires Valid({}) && i < |ino|
      modifies this`blk, this`ino, this`logged, this`own
      ensures Valid({}) && own == Without(old(own), i, NDIRECT, NSLOTS) && |ino| == |old(ino)|
      ensures forall j: nat | j < |ino| && j != i :: ino[j] == old(ino)[j]
      ensures ino[i] == old(ino)[i].(addrs := old(ino)[i].addrs[NDIRECT := 0])
      ensures forall x: nat | sb.nmeta <= x < sb.size :: blk[x] == old(blk)[x]
      ensures forall s: Slot | IsSlot(sb, s) ::
                Ref(sb, blk, ino, s) == if s.i == i && s.k >= NDIRECT then 0 else Ref(sb, old(blk), old(ino), s)
      ensures logged == old(logged) + MapsOf(sb, old(own), i, NDIRECT, NSLOTS)
      ensures LogsAll(old(blk), old(logged), blk, logged, 0)
    {
      hide Owners, BitsAre, BitSet, Ref, Without, BitsMinus, MapsOf, LogsAll;
      MapsOfIndirect(sb, blk, ino, own, i);
      LogsNone(blk, logged);
      if ino[i].addrs[NDIRECT] != 0 {
        FreeEntries(i);
        ghost var blk0, logged0 := blk, logged;
        IndirectUsed(sb, blk, ino, own, i);
        Bfree(ino[i].addrs[NDIRECT]);
        LogsThen(old(blk), old(logged), blk0, logged0, blk, logged, 0);
        FreeIndirect(sb, blk0, ino, own, i, blk);
        own := Without(own, i, NDIRECT, NSLOTS);
        ino := ino[i := ino[i].(addrs := ino[i].addrs[NDIRECT := 0])];
      } else {
        NoEntries(sb, blk, ino, own, i);
      }
    }

    method FreeEntries(i: nat)
      requires Valid({}) && i < |ino| && ino[i].addrs[NDIRECT] != 0
      modifies this`blk, this`logged
      ensures Wf(sb, blk, ino) && Owners(sb, blk, ino, own) && BitsMinus(sb, blk, own, i, NSLOTS)
      ensures forall x: nat | sb.nmeta <= x < sb.size :: blk[x] == old(blk)[x]
      ensures forall s: Slot | IsSlot(sb, s) :: Ref(sb, blk, ino, s) == Ref(sb, old(blk), ino, s)
      ensures logged == old(logged) + MapsOf(sb, own, i, NDIRECT + 1, NSLOTS)
      ensures LogsAll(old(blk), old(logged), blk, logged, 0)
    {
      hide Owners, BitsAre, BitSet, Ref, Without, BitsMinus, MapsOf, LogsAll;
      var j := 0;
      MapsOfNone(sb, own, i, NDIRECT + 1);
      LogsNone(blk, logged);
      MinusNone(sb, blk, own, i);
      IndirectInData(sb, blk, ino, own);
      while j < NWORDS
        invariant 0 <= j <= NWORDS && Wf(sb, blk, ino) && Owners(sb, blk, ino, own)
        invariant BitsMinus(sb, blk, own, i, NDIRECT + 1 + j)
        invariant forall x: nat | sb.nmeta <= x < sb.size :: blk[x] == old(blk)[x]
        invariant forall s: Slot | IsSlot(sb, s) :: Ref(sb, blk, ino, s) == Ref(sb, old(blk), ino, s)
        invariant logged == old(logged) + MapsOf(sb, own, i, NDIRECT + 1, NDIRECT + 1 + j)
        invariant LogsAll(old(blk), old(logged), blk, logged, 0)
      {
        ghost var blk0, logged0 := blk, logged;
        EntryRef(sb, blk, ino, i, j);
        MapsOfNext(sb, blk, ino, own, i, NDIRECT + 1, NDIRECT + 1 + j);
        var e := GetWord(blk[ino[i].addrs[NDIRECT]], j);
        if e != 0 {
          EntryUsed(sb, blk, ino, own, i, NDIRECT + 1 + j);
          Bfree(e);
          LogsThen(old(blk), old(logged), blk0, logged0, blk, logged, 0);
          SameRefsOwners(sb, blk0, blk, ino, own);
        }
        FreeEntry(sb, blk0, ino, own, i, NDIRECT + 1 + j, blk);
        j := j + 1;
      }
    }

    /** itrunc: every block of the file is returned, and only those. */
    method ITrunc(i: nat)
      requires Valid({}) && i < |ino|
      modifies this`blk, this`ino, this`dino, this`logged, this`own
      ensures Valid({}) && own == Without(old(own), i, 0, NSLOTS)
      ensures ino == old(ino)[i := old(ino)[i].(addrs := ino[i].addrs, size := 0)] && dino == old(dino)[i := ino[i]]
      ensures forall s: Slot | IsSlot(sb, s) ::
                Ref(sb, blk, ino, s) == if s.i == i then 0 else Ref(sb, old(blk), old(ino), s)
      ensures forall x: nat | sb.nmeta <= x < sb.size :: blk[x] == old(blk)[x]
      ensures old(FilesOk(sb, blk, ino)) ==> FilesOk(sb, blk, ino) && TruncatedFile(sb, old(Now()), Now(), i)
      ensures logged == old(logged) + {sb.IBlock(i)} + (set b | b in old(own) && old(own)[b].i == i :: sb.BBlock(b))
      ensures LogsAll(old(blk), old(logged), blk, logged, 0)
    {
      hide Owners, BitsAre, BitSet, Ref, Without, FilesOk, TruncatedFile, MapsOf, LogsAll;
      ghost var s0 := Now();
      MapsOfAll(sb, blk, ino, own, i);
      TruncDirect(i);
      ghost var s1 := Now();
      TruncIndirect(i);
      LogsThen(s0.blk, s0.logged, s1.blk, s1.logged, blk, logged, 0);
      WithoutBoth(old(own), i);
      SizeIrrelevant(sb, blk, ino, own, i, 0);
      ino := ino[i := ino[i].(size := 0)];
      LogsMore(s0.blk, s0.logged, blk, logged, 0, sb.IBlock(i));
      IUpdate(i);
      assert ino == old(ino)[i := old(ino)[i].(addrs := ino[i].addrs, size := 0)];
      if FilesOk(sb, s0.blk, s0.ino) {
        TruncOthers(sb, s0, Now(), i);
      }
    }

    /** The body of writei's loop at byte q of file i: map the block, copy in the chunk, log it.
        copyin can deliver only the first `got` bytes of the chunk; if that is not all, it has
        delivered those when it fails, and the block is released without being logged. */
    method WriteChunk(i: nat, q: nat, chunk: seq<byte>, got: nat) returns (ok: bool, addr: nat)
      requires Valid({}) && i < |ino| && q < FILEBYTES && 0 < |chunk| && q % BSIZE + |chunk| <= BSIZE && got <= |chunk|
      modifies this`blk, this`ino, this`logged, this`own
      ensures Valid({}) && Chunk(sb, old(Now()), Now(), i, q, chunk[..got], addr, if ok then |chunk| else 0)
      ensures (ok <==> addr != 0 && got == |chunk|) && (addr == 0 ==> Full(sb, blk))
      ensures LogsAll(old(blk), old(logged), blk, logged, if ok || got == 0 then 0 else addr)
    {
      hide Full, Owners, BitsAre, Fills, Ref, SameData, OneBlock, GrowsOnly, Data, Maps, LoggedIs, At, LogsAll;
      ghost var s0 := Now();
      addr := BMap(i, q / BSIZE);
      ghost var s1 := Now();
      FillsGrow(sb, old(blk), old(ino), old(own), blk, ino, own, i);
      MappedAt(sb, s0, s1, i, q);
      if addr == 0 {
        return false, addr;
      }
      RefInBlk(sb, blk, ino, own, FileSlot(i, q / BSIZE));
      var v := PutChunk(blk[addr], q % BSIZE, chunk[..got]);
      WriteBlockOne(sb, old(blk), old(ino), blk, ino, own, i, q / BSIZE, v, blk[addr := v]);
      LogsPut(s0.blk, s0.logged, blk, logged, addr, v);
      blk := blk[addr := v];
      ghost var s2 := Now();
      MapsData(sb, s0, s1, s2, i, q);
      if got < |chunk| {
        assert got == 0 ==> v == s1.blk[addr] && s1.blk[addr := v] == s1.blk;
        return false, addr;
      }
      LogWrite(addr);
      LogOne(sb, s0, s2, Now(), i, q, |chunk|);
      MapsLog(sb, s0, s2, Now(), i, q, 1);
      return true, addr;
    }

    /** writei's loop. tot bytes are written and logged; spill more reached the last block
        before copyin failed. */
    method WriteLoop(i: nat, off: nat, src: seq<byte>, avail: nat) returns (tot: nat, ghost spill: nat)
      requires Valid({}) && i < |ino| && off <= ino[i].size && off + |src| <= FILEBYTES && AllocBelow(sb, blk, ino, i)
      modifies this`blk, this`ino, this`logged, this`own
      ensures Valid({}) && tot + spill <= |src| && Outcome(sb, old(Now()), Now(), i, off, |src|, avail, tot, spill)
      ensures Spliced(sb, old(Now()), Now(), i, off, src[..tot + spill], tot)
      ensures Maps(sb, old(Now()), Now(), i, off, Tried(|src|, avail)) && LoggedIs(sb, old(Now()), Now(), i, off, tot)
      ensures LogsAll(old(blk), old(logged), blk, logged, SpillBlock(sb, Now(), i, off + tot, spill))
    {
      hide Owners, BitsAre, Full, Spliced, Chunk, AllocBelow, Maps, LoggedIs, At, Outcome, LogsAll;
      LogsNone(blk, logged);
      tot, spill := 0, 0;
      ghost var s0, tried := Now(), Tried(|src|, avail);
      LoopStarts(sb, s0, i, off, tried);
      assert src[..0] == [];
      while tot < |src|
        invariant tot <= |src| && tot <= avail && Valid({})
        invariant Spliced(sb, s0, Now(), i, off, src[..tot], tot)
        invariant tot == 0 || tot == |src| || (off + tot) % BSIZE == 0
        invariant Maps(sb, s0, Now(), i, off, tried) && LoggedIs(sb, s0, Now(), i, off, tot)
        invariant LogsAll(s0.blk, s0.logged, blk, logged, 0)
      {
        var q := off + tot;
        var m := if |src| - tot < BSIZE - q % BSIZE then |src| - tot else BSIZE - q % BSIZE;
        var got := if avail < tot + m then avail - tot else m;
        ghost var s1 := Now();
        var ok, addr := WriteChunk(i, q, src[tot..tot + m], got);
        ChunkAddr(sb, s1, Now(), i, q, src[tot..tot + m][..got], addr, if ok then m else 0);
        LogsThen(s0.blk, s0.logged, s1.blk, s1.logged, blk, logged, if ok || got == 0 then 0 else addr);
        Slices(src, tot, m, got);
        NextBlock(off, tot, |src|, m);
        ChunkSplices(sb, s0, s1, Now(), i, off, src[..tot], src[tot..tot + got], m, addr, if ok then m else 0);
        ChunkMaps(sb, s0, s1, Now(), i, off, tot, tried, src[..tot], src[tot..tot + got], addr, if ok then m else 0);
        if addr == 0 {
          RanOut(sb, s0, Now(), i, off, |src|, avail, tot);
          return;
        }
        if !ok {
          spill := got;
          CopyFailed(sb, s0, Now(), i, off, src[..tot + got], |src|, avail, tot, m);
          return;
        }
        tot := tot + m;
      }
      AllWritten(sb, s0, Now(), i, off, src[..tot], avail);
    }

    /** The bytes of file i. */
    ghost function Bytes(i: nat): seq<byte>
      reads this
      requires Wf(sb, blk, ino) && i < |ino| && ino[i].size <= FILEBYTES
    {
      Contents(sb, blk, ino, i)
    }

    /** writei: `src` are the bytes asked for, of which copyin can reach the first `avail`.
        -1 for a start beyond the end, a 32-bit overflow or a file that would be too large. */
    method WriteI(i: nat, off: nat, src: seq<byte>, avail: nat) returns (r: int, ghost spill: nat)
      requires Valid({}) && FilesOk(sb, blk, ino) && i < |ino| && off < WORD && |src| < WORD
      modifies this`blk, this`ino, this`dino, this`logged, this`own
      ensures Valid({}) && FilesOk(sb, blk, ino) && |ino| == |old(ino)| && ino[i].size <= FILEBYTES
      ensures r == -1 <==> off > old(ino)[i].size || off + |src| > FILEBYTES
      ensures r == -1 ==> Now() == old(Now()) && dino == old(dino) && spill == 0
      ensures r != -1 ==> 0 <= r && r + spill <= |src| && dino == old(dino)[i := ino[i]]
      ensures ino[i] == old(ino)[i].(size := ino[i].size, addrs := ino[i].addrs)
      ensures r != -1 ==> WriteStep(sb, old(Now()), Now(), i, off, src, avail, r, spill)
      ensures r != -1 ==>
                (Bytes(i) == Splice(old(Bytes(i)), off, src[..r]) <==> Unspilled(old(Bytes(i)), off, src, avail))
      ensures |logged| <= |old(logged)| + Cost(off, |src|) + 1
    {
      hide Owners, BitsAre, Ref, Full, FilesOk, Cost, Spliced, Wrote, WroteFile, Contents, Outcome, Maps, LoggedIs;
      hide AllocBelow, WriteStep, Unspilled, Splice, LogsAll, SpillBlock;
      FilesSize(sb, blk, ino, i);
      ghost var s0 := Now();
      if off > ino[i].size || (off + |src|) % WORD < off {
        return -1, 0;
      }
      if off + |src| > FILEBYTES {
        return -1, 0;
      }
      var tot;
      tot, spill := WriteLoop(i, off, src, avail);
      ghost var s1 := Now();
      ghost var size' := if off + tot > ino[i].size then off + tot else ino[i].size;
      SizeIrrelevant(sb, blk, ino, own, i, size');
      SplicedFile(sb, s0, s1, i, off, src[..tot + spill], tot, size');
      if off + tot > ino[i].size {
        ino := ino[i := ino[i].(size := off + tot)];
      } else {
        assert ino == ino[i := ino[i].(size := ino[i].size)];
      }
      ghost var s2 := Now();
      assert s2 == s1.(ino := s1.ino[i := s1.ino[i].(size := size')]);
      IUpdate(i);
      Written(sb, s0, s1, s2, Now(), i, off, src, avail, tot, spill, size');
      SpillShows(sb, s0, Now(), i, off, src, avail, tot, spill);
      StepFiles(sb, s0, Now(), i, off, src, avail, tot, spill);
      return tot, spill;
    }

    /** The body of readi's loop: the block is there, so mapping it changes nothing. */
    method ReadChunk(i: nat, q: nat, m: nat) returns (piece: seq<byte>)
      requires Valid({}) && i < |ino| && AllocBelow(sb, blk, ino, i) && ino[i].size <= FILEBYTES
      requires 1 <= m && q % BSIZE + m <= BSIZE && q + m <= ino[i].size
      modifies this`blk, this`ino, this`logged, this`own
      ensures Now() == old(Now()) && piece == Bytes(i)[q..q + m]
    {
      hide Owners, BitsAre, Ref, Contents, AllocBelow, Full, Fills, SameData;
      BlockBelow(sb, blk, ino, own, i, q);
      var addr := BMap(i, q / BSIZE);
      ChunkContents(sb, blk, ino, own, i, q, m);
      piece := blk[addr][q % BSIZE..q % BSIZE + m];
    }

    /** readi: at most n bytes from off, of which copyout can deliver the first `room`. It maps only
        blocks that exist, so it allocates and logs nothing. */
    method ReadI(i: nat, off: nat, n: nat, room: nat) returns (r: int, out: seq<byte>)
      requires Valid({}) && FilesOk(sb, blk, ino) && i < |ino| && off < WORD && n < WORD
      modifies this`blk, this`ino, this`logged, this`own
      ensures Now() == old(Now()) && ino[i].size <= FILEBYTES && ReadResult(Bytes(i), off, n, room, r, out)
    {
      hide Owners, BitsAre, Ref, FilesOk, Contents, AllocBelow;
      FilesSize(sb, blk, ino, i);
      Wraps(off, n);
      if off > ino[i].size || (off + n) % WORD < off {
        return 0, [];
      }
      ghost var c := Bytes(i);
      var want := if off + n > ino[i].size then ino[i].size - off else n;
      hide ReadResult, Wf;
      var tot := 0;
      out := [];
      while tot < want
        invariant tot <= want && tot <= room && Now() == old(Now()) && out == c[off..off + tot]
      {
        var q := off + tot;
        var m := if want - tot < BSIZE - q % BSIZE then want - tot else BSIZE - q % BSIZE;
        var piece := ReadChunk(i, q, m);
        if tot + m > room {
          ReadShort(c, off, n, room, tot, m);
          return -1, out;
        }
        SliceJoin(c, off, q, q + m);
        out := out + piece;
        tot := tot + m;
      }
      ReadWhole(c, off, n, room);
      return tot, out;
    }

    /** One transaction of filewrite: begin_op, writei, end_op. */
    method Transact(i: nat, off: nat, part: seq<byte>, avail: nat) returns (r: int, ghost spill: nat)
      requires Valid({}) && FilesOk(sb, blk, ino) && i < |ino| && off < WORD && |part| <= MAXCHUNK
      modifies this`blk, this`ino, this`dino, this`logged, this`own
      ensures Valid({}) && FilesOk(sb, blk, ino) && |ino| == |old(ino)| && |logged| <= MAXOPBLOCKS
      ensures r == -1 <==> off > old(ino)[i].size || off + |part| > FILEBYTES
      ensures r == -1 ==> Now() == old(Now()).(logged := {}) && spill == 0 && dino == old(dino)
      ensures r != -1 ==> WriteStep(sb, old(Now()).(logged := {}), Now(), i, off, part, avail, r, spill)
      ensures r != -1 ==> dino == old(dino)[i := ino[i]]
      ensures ino[i] == old(ino)[i].(size := ino[i].size, addrs := ino[i].addrs)
    {
      hide Owners, BitsAre, FilesOk, WriteStep, Unspilled, Cost;
      logged := {};
      r, spill := WriteI(i, off, part, avail);
      TransactionFits(off, |part|);
    }

    /** The write loop of filewrite on an inode file: transactions of at most three blocks' worth.
        Returns the file's new offset too; `txs` are the states that the transactions end in. */
    method FileWrite(i: nat, off0: nat, src: seq<byte>, avail: nat)
      returns (ret: int, off: nat, ghost spill: nat, ghost txs: seq<Snap>)
      requires Valid({}) && FilesOk(sb, blk, ino) && i < |ino| && off0 < WORD && |src| < WORD / 2
      modifies this`blk, this`ino, this`dino, this`logged, this`own
      ensures Valid({}) && FilesOk(sb, blk, ino)
      ensures ret == |src| <==>
              src == [] || (off0 <= old(ino)[i].size && off0 + |src| <= FILEBYTES && avail >= |src| &&
                            HasRoom(sb, old(Now()), i, off0, |src|))
      ensures ret != |src| ==> ret == -1
      ensures off0 <= off && off - off0 + spill <= |src|
      ensures off0 > old(ino)[i].size ==> off == off0 && spill == 0 && Now().(logged := {}) == old(Now()).(logged := {})
      ensures off0 <= old(ino)[i].size ==>
                && WroteFile(sb, old(Now()), Now(), i, off0, src[..off - off0 + spill], off - off0)
                && FileOutcome(sb, old(Now()), Now(), i, off0, |src|, avail, off - off0, spill)
      ensures |txs| == if ret == |src| then (|src| + MAXCHUNK - 1) / MAXCHUNK else (off - off0) / MAXCHUNK + 1
      ensures forall j: nat | j < |txs| :: TxOk(sb, old(Now()), txs, i, off0, src, avail, j)
      ensures txs != [] ==> txs[|txs| - 1] == Now()
      ensures |ino| == |old(ino)| && ino[i] == old(ino)[i].(size := ino[i].size, addrs := ino[i].addrs)
      ensures dino == old(dino)[i := ino[i]] || (dino == old(dino) && ino == old(ino))
    {
      hide Owners, BitsAre, Full, FilesOk, WroteFile, WriteStep, FileOutcome, HasRoom, Maps, TxOk, Sending, Delivered;
      hide Part, Left;
      var max := (MAXOPBLOCKS - 1 - 1 - 2) / 2 * BSIZE;
      ghost var s0 := Now();
      var k := 0;
      off, spill, txs := off0, 0, [];
      SendStarts(sb, s0, i, off0, src, avail);
      FileSizeBound(sb, s0, i, off0);
      while k < |src|
        invariant 0 <= k <= |src| && k <= avail && off == off0 + k && off < WORD && Valid({}) && FilesOk(sb, blk, ino)
        invariant spill == 0 && |ino| == |s0.ino| && Counts(|src|, k, |txs|)
        invariant ino[i] == s0.ino[i].(size := ino[i].size, addrs := ino[i].addrs)
        invariant dino == old(dino)[i := ino[i]] || (dino == old(dino) && ino == s0.ino)
        invariant Now() == (if txs == [] then s0 else txs[|txs| - 1])
        invariant Sending(sb, s0, Now(), i, off0, src, avail, k)
        invariant forall j: nat | j < |txs| :: TxOk(sb, s0, txs, i, off0, src, avail, j)
      {
        var n1 := if |src| - k > max then max else |src| - k;
        ghost var s2 := Now();
        SendNext(sb, s0, s2, i, off0, src, avail, k);
        PartIs(src, k, n1, avail);
        CountNext(|src|, k, |txs|, n1);
        var r;
        r, spill := Transact(i, off, src[k..k + n1], avail - k);
        TurnDone(sb, s0, s2, Now(), i, off0, src, avail, k, r, spill, txs);
        txs := txs + [Now()];
        Sends(sb, s0, s2, Now(), i, off0, src, avail, k, r, spill);
        if r > 0 {
          off := off + r;
        }
        if r != n1 {
          CountEnd(|src|, k, |txs|, r);
          break;
        }
        k := k + r;
      }
      ret := if k == |src| then |src| else -1;
      Finish(sb, s0, Now(), i, off0, src, avail, k);
      CountAll(|src|, k, |txs|);
      DeliveredOnly(sb, s0, Now(), i, off0, src, avail, off - off0, spill);
    }
  }

  /** readi's result on a file with bytes c. */
  ghost predicate ReadResult(c: seq<byte>, off: nat, n: nat, room: nat, r: int, out: seq<byte>) {
    if off > |c| || off + n >= WORD then r == 0 && out == []
    else
      var want := if off + n > |c| then |c| - off else n;
      if room >= want then r == want && out == c[off..off + want]
      else r == -1 && |out| <= room && out <= c[off..off + want]
  }

  /** File i is empty and every other file is the same. */
  ghost predicate TruncatedFile(sb: Super, s: Snap, s': Snap, i: nat) {
    && FilesOk(sb, s.blk, s.ino) && FilesOk(sb, s'.blk, s'.ino) && |s'.ino| == |s.ino| && i < |s.ino|
    && s'.ino[i].size == 0
    && (forall j: nat | j < |s.ino| && j != i :: s'.ino[j] == s.ino[j] && s.ino[j].size <= FILEBYTES)
    && (forall j: nat | j < |s.ino| && j != i ::
          Contents(sb, s'.blk, s'.ino, j) == Contents(sb, s.blk, s.ino, j))
  }

  /** The effect of writei on the files: file i has its old bytes with `bytes` spliced in at off,
      cut at its new size, which is the old one or off + tot; its type and link count, and every other
      file, are the same. */
  ghost predicate WroteFile(sb: Super, s: Snap, s': Snap, i: nat, off: nat, bytes: seq<byte>, tot: nat) {
    && FilesOk(sb, s.blk, s.ino) && FilesOk(sb, s'.blk, s'.ino) && |s'.ino| == |s.ino| && i < |s.ino|
    && off <= s.ino[i].size <= FILEBYTES && s'.ino[i].size <= FILEBYTES && tot <= |bytes|
    && s'.ino[i].size == (if off + tot > s.ino[i].size then off + tot else s.ino[i].size)
    && s'.ino[i] == s.ino[i].(size := s'.ino[i].size, addrs := s'.ino[i].addrs)
    && Contents(sb, s'.blk, s'.ino, i) == Splice(Contents(sb, s.blk, s.ino, i), off, bytes)[..s'.ino[i].size]
    && (forall j: nat | j < |s.ino| && j != i :: s'.ino[j] == s.ino[j] && s.ino[j].size <= FILEBYTES)
    && (forall j: nat | j < |s.ino| && j != i ::
          Contents(sb, s'.blk, s'.ino, j) == Contents(sb, s.blk, s.ino, j))
  }

  /** What one turn of writei's loop does at byte q of file i: the block is mapped and, if there
      is one, receives the bytes given. */
  ghost predicate Chunk(sb: Super, s: Snap, s': Snap, i: nat, q: nat, bytes: seq<byte>, addr: nat, m: nat) {
    && Wf(sb, s.blk, s.ino) && Wf(sb, s'.blk, s'.ino) && i < |s.ino| && q < FILEBYTES && q % BSIZE + |bytes| <= BSIZE
    && s'.ino == s.ino[i := s.ino[i].(addrs := s'.ino[i].addrs)]
    && GrowsOnly(sb, s.blk, s.ino, s'.blk, s'.ino)
    && addr == Ref(sb, s'.blk, s'.ino, FileSlot(i, q / BSIZE)) == At(sb, s', i, SlotOf(q / BSIZE))
    && (addr == 0 ==> Full(sb, s'.blk) && SameData(sb, s.blk, s.ino, s'.blk, s'.ino))
    && (addr != 0 ==> OneBlock(sb, s.blk, s.ino, s'.blk, s'.ino, i, q / BSIZE,
                               PutChunk(Data(sb, s.blk, s.ino, i, q / BSIZE), q % BSIZE, bytes)))
    && Maps(sb, s, s', i, q, 1) && LoggedIs(sb, s, s', i, q, m)
  }

  /** writei's count and the bytes that reached a block without being logged: with room, as many as
      copyin reaches; else up to the first block that could not be allocated. */
  ghost predicate Outcome(sb: Super, s: Snap, s': Snap, i: nat, off: nat, n: nat, avail: nat, r: nat, spill: nat) {
    if HasRoom(sb, s, i, off, Tried(n, avail)) then
      r == Done(off, n, avail) && spill == (if avail < n then avail - r else 0)
    else
      && Full(sb, s'.blk) && spill == 0 && r <= Done(off, n, avail) && r < n && off + r < FILEBYTES
      && At(sb, s', i, SlotOf((off + r) / BSIZE)) == 0
  }

  /** All that a call of writei does when it does not fail at once. */
  ghost predicate WriteStep(sb: Super, s: Snap, s': Snap, i: nat, off: nat, src: seq<byte>, avail: nat, r: int,
                            spill: nat)
  {
    && 0 <= r && r + spill <= |src| && Outcome(sb, s, s', i, off, |src|, avail, r, spill)
    && WroteFile(sb, s, s', i, off, src[..r + spill], r) && Maps(sb, s, s', i, off, Tried(|src|, avail))
    && LogsAll(s.blk, s.logged, s'.blk, s'.logged, SpillBlock(sb, s', i, off + r, spill))
    && forall x: nat :: x in s'.logged <==> x in s.logged || x == sb.IBlock(i) || LoggedFor(sb, s, s', i, off, r, x)
  }

  /** The block that bytes from byte q on reached without being logged, if any did. */
  ghost function SpillBlock(sb: Super, s: Snap, i: nat, q: nat, spill: nat): nat {
    if spill == 0 then 0 else At(sb, s, i, SlotOf(q / BSIZE))
  }

  /** Bytes of a write of n that come before the transaction that would make the file too large. */
  function Fitting(off: nat, n: nat): nat {
    if off + n <= FILEBYTES then n else if off <= FILEBYTES then FILEBYTES - off - (FILEBYTES - off) % MAXCHUNK else 0
  }

  /** Bytes that get written of n, if there is space: the transactions that copyin reaches the end
      of, and whole blocks of the next one. */
  function Sent(off: nat, n: nat, avail: nat): nat {
    var a, b := avail - avail % MAXCHUNK, off + avail - (off + avail) % BSIZE;
    if avail >= n then n else if off + a > b then a else b - off
  }

  /** How far filewrite gets. */
  ghost predicate FileOutcome(sb: Super, s: Snap, s': Snap, i: nat, off: nat, n: nat, avail: nat, sent: nat, spill: nat)
  {
    var m := Fitting(off, n);
    if HasRoom(sb, s, i, off, Tried(m, avail)) then
      sent == Sent(off, m, avail) && spill == (if avail < m then avail - sent else 0)
    else
      Full(sb, s'.blk) && spill == 0 && sent <= Sent(off, m, avail) && sent < m
  }

  function Left(avail: nat, k: nat): nat {
    if avail > k then avail - k else 0
  }

  /** A call of writei, with nothing logged before, on the part of the bytes that starts at byte k. */
  ghost predicate Transaction(sb: Super, s: Snap, s': Snap, i: nat, off: nat, src: seq<byte>, avail: nat, k: nat) {
    || s' == s.(logged := {})
    || SomeStep(sb, s, s', i, off + k, Part(src, k), Left(avail, k))
  }

  ghost predicate SomeStep(sb: Super, s: Snap, s': Snap, i: nat, off: nat, src: seq<byte>, avail: nat) {
    exists r: int, spill: nat :: StepOf(sb, s, s', i, off, src, avail, r, spill)
  }

  /** The bytes of the transaction that starts at byte k. */
  function Part(src: seq<byte>, k: nat): seq<byte> {
    if k >= |src| then [] else if |src| - k > MAXCHUNK then src[k..k + MAXCHUNK] else src[k..]
  }

  ghost predicate StepOf(sb: Super, s: Snap, s': Snap, i: nat, off: nat, src: seq<byte>, avail: nat, r: int, spill: nat)
  {
    WriteStep(sb, s.(logged := {}), s', i, off, src, avail, r, spill)
  }

  ghost predicate TxOk(sb: Super, s0: Snap, txs: seq<Snap>, i: nat, off: nat, src: seq<byte>, avail: nat, j: nat)
    requires j < |txs|
  {
    && |txs[j].logged| <= MAXOPBLOCKS
    && Transaction(sb, if j == 0 then s0 else txs[j - 1], txs[j], i, off, src, avail, j * MAXCHUNK)
  }

  /** File i was given `bytes` at off, its blocks up to byte off + tot exist, and nothing but its
      block addresses and the blocks' contents changed. */
  ghost predicate Spliced(sb: Super, s: Snap, s': Snap, i: nat, off: nat, bytes: seq<byte>, tot: nat) {
    && Wrote(sb, s.blk, s.ino, s'.blk, s'.ino, i, off, bytes)
    && s'.ino == s.ino[i := s.ino[i].(addrs := s'.ino[i].addrs)]
    && GrowsOnly(sb, s.blk, s.ino, s'.blk, s'.ino)
    && AllocRange(sb, s'.blk, s'.ino, i, off, off + tot)
    && AllocBelow(sb, s.blk, s.ino, i) && off <= s.ino[i].size
    && s.logged <= s'.logged
  }

  /** No slot that named a block names another. */
  ghost predicate GrowsOnly(sb: Super, blk: Disk, ino: seq<Inode>, blk': Disk, ino': seq<Inode>) {
    && Wf(sb, blk, ino) && Wf(sb, blk', ino')
    && forall s: Slot | IsSlot(sb, s) && Ref(sb, blk, ino, s) != 0 :: Ref(sb, blk', ino', s) == Ref(sb, blk, ino, s)
  }

  lemma BitIndex(b: nat, bi: nat)
    requires b % BPB == 0 && bi < BPB
    ensures (b + bi) / BPB == b / BPB && (b + bi) % BPB == bi
  {
  }

  lemma FillsRefl(sb: Super, blk: Disk, ino: seq<Inode>, own: map<nat, Slot>, i: nat)
    requires Owned(sb, blk, ino, own, {}) && i < |ino|
    ensures Fills(sb, blk, ino, own, blk, ino, own, i)
  {
    assert ino == ino[i := ino[i].(addrs := ino[i].addrs)];
  }

  lemma FillsOwned(sb: Super, blk: Disk, ino: seq<Inode>, own: map<nat, Slot>,
                   blk': Disk, ino': seq<Inode>, own': map<nat, Slot>, i: nat)
    requires Fills(sb, blk, ino, own, blk', ino', own', i)
    ensures Owned(sb, blk', ino', own', {}) && |ino'| == |ino|
  {
  }

  lemma EntryRef(sb: Super, blk: Disk, ino: seq<Inode>, i: nat, j: nat)
    requires Wf(sb, blk, ino) && i < |ino| && j < NWORDS && ino[i].addrs[NDIRECT] != 0
    ensures GetWord(blk[ino[i].addrs[NDIRECT]], j) == Ref(sb, blk, ino, Slot(i, NDIRECT + 1 + j))
  {
  }

  lemma RecordAddrFills(sb: Super, blk0: Disk, blk: Disk, ino: seq<Inode>, own: map<nat, Slot>, s: Slot, b: nat)
    requires Owned(sb, blk0, ino, own, {}) && Owned(sb, blk, ino, own, {b}) && IsSlot(sb, s) && s.k <= NDIRECT
    requires ino[s.i].addrs[s.k] == 0 && blk[b] == Zero()
    requires forall t: Slot | IsSlot(sb, t) :: Ref(sb, blk, ino, t) == Ref(sb, blk0, ino, t)
    requires forall x: nat | sb.nmeta <= x < sb.size && x != b :: blk[x] == blk0[x]
    ensures Fills(sb, blk0, ino, own, blk, SetAddr(ino, s.i, s.k, b), own[b := s], s.i)
    ensures forall t: Slot | IsSlot(sb, t) ::
              Ref(sb, blk, SetAddr(ino, s.i, s.k, b), t) == if t == s then b else Ref(sb, blk0, ino, t)
  {
    assert {} + {b} == {b};
    RecordAddr(sb, blk, ino, own, {}, s, b);
  }

  /** One slot filled with a zero block makes a Fills step. */
  lemma FillsOne(sb: Super, blk0: Disk, ino: seq<Inode>, own: map<nat, Slot>, s: Slot, b: nat, blk': Disk,
                 ino': seq<Inode>)
    requires Owned(sb, blk0, ino, own, {}) && Owned(sb, blk', ino', own[b := s], {}) && IsSlot(sb, s) && b !in own
    requires ino' == ino[s.i := ino[s.i].(addrs := ino'[s.i].addrs)]
    requires Ref(sb, blk0, ino, s) == 0
    requires forall t: Slot | IsSlot(sb, t) :: Ref(sb, blk', ino', t) == if t == s then b else Ref(sb, blk0, ino, t)
    requires forall x | x in own && own[x].k != NDIRECT :: blk'[x] == blk0[x]
    requires s.k != NDIRECT ==> blk'[b] == Zero()
    ensures Fills(sb, blk0, ino, own, blk', ino', own[b := s], s.i)
  {
    hide BitsAre, Owners, Zero;
  }

  lemma OwnRange(sb: Super, blk: Disk, ino: seq<Inode>, own: map<nat, Slot>)
    requires Wf(sb, blk, ino) && Owners(sb, blk, ino, own)
    ensures forall x | x in own :: sb.nmeta <= x < sb.size
  {
  }

  lemma RecordEntryFills(sb: Super, blk0: Disk, blk: Disk, ino: seq<Inode>, own: map<nat, Slot>, s: Slot, b: nat,
                         a: nat, blk': Disk)
    requires Owned(sb, blk0, ino, own, {}) && Owned(sb, blk, ino, own, {b}) && IsSlot(sb, s) && s.k > NDIRECT
    requires ino[s.i].addrs[NDIRECT] == a != 0 && Ref(sb, blk0, ino, s) == 0 && b < WORD && blk[b] == Zero()
    requires forall t: Slot | IsSlot(sb, t) :: Ref(sb, blk, ino, t) == Ref(sb, blk0, ino, t)
    requires forall x: nat | sb.nmeta <= x < sb.size && x != b :: blk[x] == blk0[x]
    requires blk' == blk[a := PutWord(blk[a], s.k - NDIRECT - 1, b)]
    ensures Fills(sb, blk0, ino, own, blk', ino, own[b := s], s.i)
    ensures forall t: Slot | IsSlot(sb, t) :: Ref(sb, blk', ino, t) == if t == s then b else Ref(sb, blk0, ino, t)
  {
    hide Owners, BitsAre, GetWord, PutWord, Zero, Fills, Ref;
    assert {} + {b} == {b};
    RecordIndirect(sb, blk, ino, own, {}, s, b, blk');
    IndirectOwned(sb, blk, ino, own, s.i);
    OwnRange(sb, blk, ino, own);
    assert ino == ino[s.i := ino[s.i].(addrs := ino[s.i].addrs)];
    FillsOne(sb, blk0, ino, own, s, b, blk', ino);
  }

  lemma RefCases(sb: Super, blk: Disk, ino: seq<Inode>, s: Slot)
    requires Wf(sb, blk, ino) && IsSlot(sb, s)
    ensures s.k <= NDIRECT ==> Ref(sb, blk, ino, s) == ino[s.i].addrs[s.k]
    ensures s.k > NDIRECT && Ref(sb, blk, ino, s) != 0 ==> ino[s.i].addrs[NDIRECT] != 0
  {
  }

  lemma WithoutNone(own: map<nat, Slot>, i: nat)
    ensures Without(own, i, 0, 0) == own
  {
  }

  lemma WithoutBoth(own: map<nat, Slot>, i: nat)
    ensures Without(Without(own, i, 0, NDIRECT), i, NDIRECT, NSLOTS) == Without(own, i, 0, NSLOTS)
  {
  }

  lemma WithoutMore(own: map<nat, Slot>, own0: map<nat, Slot>, i: nat, k: nat)
    requires own == Without(own0, i, 0, k)
    ensures Without(own, i, k, k + 1) == Without(own0, i, 0, k + 1)
  {
  }

  lemma WithoutSlot(sb: Super, blk: Disk, ino: seq<Inode>, own: map<nat, Slot>, i: nat, k: nat)
    requires Wf(sb, blk, ino) && Owners(sb, blk, ino, own) && i < |ino| && k < NSLOTS
    ensures Ref(sb, blk, ino, Slot(i, k)) == 0 ==> Without(own, i, k, k + 1) == own
  {
    var s := Slot(i, k);
    if Ref(sb, blk, ino, s) == 0 {
      EmptyOwnsNone(sb, blk, ino, own, s);
      forall x | x in own ensures !(own[x].i == i && own[x].k == k) {
        assert own[x] != s;
      }
    }
  }

  lemma AddrUsed(sb: Super, blk: Disk, ino: seq<Inode>, own: map<nat, Slot>, i: nat, k: nat)
    requires Owned(sb, blk, ino, own, {}) && i < |ino| && k <= NDIRECT && ino[i].addrs[k] != 0
    ensures ino[i].addrs[k] < sb.size && BitSet(sb, blk, ino[i].addrs[k])
    ensures forall i | 0 <= i < |ino| :: ino[i].addrs[NDIRECT] == 0 || ino[i].addrs[NDIRECT] >= sb.nmeta
  {
    hide BitSet;
    OneOwner(sb, blk, ino, own, Slot(i, k));
    IndirectInData(sb, blk, ino, own);
  }

  lemma IndirectInData(sb: Super, blk: Disk, ino: seq<Inode>, own: map<nat, Slot>)
    requires Wf(sb, blk, ino) && Owners(sb, blk, ino, own)
    ensures forall i | 0 <= i < |ino| :: ino[i].addrs[NDIRECT] == 0 || ino[i].addrs[NDIRECT] >= sb.nmeta
  {
    forall i | 0 <= i < |ino| ensures ino[i].addrs[NDIRECT] == 0 || ino[i].addrs[NDIRECT] >= sb.nmeta {
      IndirectOwned(sb, blk, ino, own, i);
    }
  }

  lemma MinusNone(sb: Super, blk: Disk, own: map<nat, Slot>, i: nat)
    requires BitsAre(sb, blk, own, {})
    ensures BitsMinus(sb, blk, own, i, NDIRECT + 1)
  {
    assert Without(own, i, NDIRECT + 1, NDIRECT + 1) == own;
  }

  lemma EntryUsed(sb: Super, blk: Disk, ino: seq<Inode>, own: map<nat, Slot>, i: nat, k: nat)
    requires Wf(sb, blk, ino) && Owners(sb, blk, ino, own) && i < |ino| && NDIRECT < k < NSLOTS
    requires BitsMinus(sb, blk, own, i, k) && Ref(sb, blk, ino, Slot(i, k)) != 0
    ensures var r := Ref(sb, blk, ino, Slot(i, k)); r < sb.size && BitSet(sb, blk, r)
  {
    hide BitSet, Ref;
    OneOwner(sb, blk, ino, own, Slot(i, k));
    OwnRange(sb, blk, ino, own);
    assert Ref(sb, blk, ino, Slot(i, k)) in Without(own, i, NDIRECT + 1, k);
  }

  lemma IndirectUsed(sb: Super, blk: Disk, ino: seq<Inode>, own: map<nat, Slot>, i: nat)
    requires Wf(sb, blk, ino) && Owners(sb, blk, ino, own) && BitsMinus(sb, blk, own, i, NSLOTS)
    requires i < |ino| && ino[i].addrs[NDIRECT] != 0
    ensures ino[i].addrs[NDIRECT] < sb.size && BitSet(sb, blk, ino[i].addrs[NDIRECT])
    ensures forall i | 0 <= i < |ino| :: ino[i].addrs[NDIRECT] == 0 || ino[i].addrs[NDIRECT] >= sb.nmeta
  {
    hide BitSet, Ref;
    IndirectOwned(sb, blk, ino, own, i);
    OwnRange(sb, blk, ino, own);
    IndirectInData(sb, blk, ino, own);
    assert ino[i].addrs[NDIRECT] in Without(own, i, NDIRECT + 1, NSLOTS);
  }

  lemma SameRefsOwners(sb: Super, blk: Disk, blk': Disk, ino: seq<Inode>, own: map<nat, Slot>)
    requires Wf(sb, blk, ino) && Wf(sb, blk', ino) && Owners(sb, blk, ino, own)
    requires forall s: Slot | IsSlot(sb, s) :: Ref(sb, blk', ino, s) == Ref(sb, blk, ino, s)
    ensures Owners(sb, blk', ino, own)
  {
    hide Ref;
  }

  lemma NoEntries(sb: Super, blk: Disk, ino: seq<Inode>, own: map<nat, Slot>, i: nat)
    requires Wf(sb, blk, ino) && Owners(sb, blk, ino, own) && i < |ino| && ino[i].addrs[NDIRECT] == 0
    ensures Without(own, i, NDIRECT, NSLOTS) == own && ino[i] == ino[i].(addrs := ino[i].addrs[NDIRECT := 0])
    ensures forall s: Slot | IsSlot(sb, s) && s.i == i && s.k >= NDIRECT :: Ref(sb, blk, ino, s) == 0
  {
    forall x | x in own ensures !(own[x].i == i && own[x].k >= NDIRECT) {
      assert Ref(sb, blk, ino, own[x]) == x;
    }
  }

  lemma SizeIrrelevant(sb: Super, blk: Disk, ino: seq<Inode>, own: map<nat, Slot>, i: nat, size: nat)
    requires Owned(sb, blk, ino, own, {}) && i < |ino|
    ensures var ino' := ino[i := ino[i].(size := size)];
            && Owned(sb, blk, ino', own, {})
            && forall s: Slot | IsSlot(sb, s) :: Ref(sb, blk, ino', s) == Ref(sb, blk, ino, s)
  {
    var ino' := ino[i := ino[i].(size := size)];
    assert forall s: Slot | IsSlot(sb, s) :: Ref(sb, blk, ino', s) == Ref(sb, blk, ino, s);
  }

  lemma FillsGrow(sb: Super, blk: Disk, ino: seq<Inode>, own: map<nat, Slot>,
                  blk': Disk, ino': seq<Inode>, own': map<nat, Slot>, i: nat)
    requires Fills(sb, blk, ino, own, blk', ino', own', i)
    ensures GrowsOnly(sb, blk, ino, blk', ino')
    ensures ino' == ino[i := ino[i].(addrs := ino'[i].addrs)]
  {
    hide Ref;
  }

  lemma RefInBlk(sb: Super, blk: Disk, ino: seq<Inode>, own: map<nat, Slot>, s: Slot)
    requires Wf(sb, blk, ino) && Owners(sb, blk, ino, own) && IsSlot(sb, s) && Ref(sb, blk, ino, s) != 0
    ensures Ref(sb, blk, ino, s) in blk
  {
  }

  lemma WriteBlockOne(sb: Super, blk0: Disk, ino0: seq<Inode>, blk: Disk, ino: seq<Inode>, own: map<nat, Slot>,
                      i: nat, n: nat, v: Block, blk': Disk)
    requires Wf(sb, blk0, ino0) && Owned(sb, blk, ino, own, {}) && SameData(sb, blk0, ino0, blk, ino)
    requires GrowsOnly(sb, blk0, ino0, blk, ino)
    requires i < |ino| && n < MAXFILE && Ref(sb, blk, ino, FileSlot(i, n)) != 0
    requires blk' == blk[Ref(sb, blk, ino, FileSlot(i, n)) := v]
    ensures Owned(sb, blk', ino, own, {}) && OneBlock(sb, blk0, ino0, blk', ino, i, n, v)
    ensures GrowsOnly(sb, blk0, ino0, blk', ino)
    ensures forall t: Slot | IsSlot(sb, t) :: Ref(sb, blk', ino, t) == Ref(sb, blk, ino, t)
    ensures Data(sb, blk0, ino0, i, n) == blk[Ref(sb, blk, ino, FileSlot(i, n))]
  {
    WriteBlock(sb, blk, ino, own, {}, i, n, v);
    RefInBlk(sb, blk, ino, own, FileSlot(i, n));
    assert Data(sb, blk, ino, i, n) == blk[Ref(sb, blk, ino, FileSlot(i, n))];
    hide Data, Ref, Owned;
  }

  lemma GrowsTrans(sb: Super, blk0: Disk, ino0: seq<Inode>, blk1: Disk, ino1: seq<Inode>, blk2: Disk, ino2: seq<Inode>)
    requires GrowsOnly(sb, blk0, ino0, blk1, ino1) && GrowsOnly(sb, blk1, ino1, blk2, ino2)
    ensures GrowsOnly(sb, blk0, ino0, blk2, ino2)
  {
    hide Ref;
  }

  lemma RangeKept(sb: Super, blk: Disk, ino: seq<Inode>, blk': Disk, ino': seq<Inode>, i: nat, lo: nat, hi: nat)
    requires GrowsOnly(sb, blk, ino, blk', ino') && i < |ino| && AllocRange(sb, blk, ino, i, lo, hi)
    ensures AllocRange(sb, blk', ino', i, lo, hi)
  {
    hide Ref;
    forall n: nat | lo < hi && lo < (n + 1) * BSIZE && n * BSIZE < hi
      ensures n < MAXFILE && Ref(sb, blk', ino', FileSlot(i, n)) != 0
    {
      assert IsSlot(sb, FileSlot(i, n));
    }
  }

  lemma RangeNext(sb: Super, blk: Disk, ino: seq<Inode>, i: nat, lo: nat, q: nat, m: nat)
    requires Wf(sb, blk, ino) && i < |ino| && AllocRange(sb, blk, ino, i, lo, q) && q < FILEBYTES
    requires q % BSIZE + m <= BSIZE && Ref(sb, blk, ino, FileSlot(i, q / BSIZE)) != 0 && lo <= q
    ensures AllocRange(sb, blk, ino, i, lo, q + m)
  {
    hide Ref;
    forall n: nat | lo < q + m && lo < (n + 1) * BSIZE && n * BSIZE < q + m
      ensures n < MAXFILE && Ref(sb, blk, ino, FileSlot(i, n)) != 0
    {
      if n * BSIZE >= q || n == q / BSIZE {
        assert n == q / BSIZE;
      }
    }
  }

  lemma LoopStarts(sb: Super, s: Snap, i: nat, off: nat, n: nat)
    requires Owned(sb, s.blk, s.ino, s.own, {}) && i < |s.ino| && off <= FILEBYTES && off <= s.ino[i].size
    requires AllocBelow(sb, s.blk, s.ino, i)
    ensures Spliced(sb, s, s, i, off, [], 0) && Maps(sb, s, s, i, off, n) && LoggedIs(sb, s, s, i, off, 0)
  {
    hide Ref, Data;
    WroteNothing(sb, s.blk, s.ino, i, off);
    assert s.ino == s.ino[i := s.ino[i].(addrs := s.ino[i].addrs)];
    MapsSame(sb, s, i, off, n);
  }

  lemma NoFill(sb: Super, s: Snap, i: nat, k: nat)
    requires Owned(sb, s.blk, s.ino, s.own, {}) && i < |s.ino| && k < NSLOTS
    ensures OneFill(sb, s, s, i, k)
  {
    hide Ref, Owners, BitsAre;
    assert s.logged + {} == s.logged;
  }

  lemma Filled(sb: Super, s: Snap, s': Snap, i: nat, k: nat, a: nat)
    requires Owned(sb, s.blk, s.ino, s.own, {}) && Owned(sb, s'.blk, s'.ino, s'.own, {}) && i < |s.ino| && k < NSLOTS
    requires Ref(sb, s.blk, s.ino, Slot(i, k)) == 0 && a != 0
    requires forall t: Slot | IsSlot(sb, t) ::
               Ref(sb, s'.blk, s'.ino, t) == if t == Slot(i, k) then a else Ref(sb, s.blk, s.ino, t)
    requires s'.logged == s.logged + {sb.BBlock(a), a} + if k > NDIRECT then {s'.ino[i].addrs[NDIRECT]} else {}
    ensures OneFill(sb, s, s', i, k)
  {
    hide Ref, Owners, BitsAre;
    assert IsSlot(sb, Slot(i, k));
  }

  lemma FillMaps(sb: Super, s: Snap, s': Snap, i: nat, k: nat, n: nat)
    requires OneFill(sb, s, s', i, k) && n < MAXFILE && (k == SlotOf(n) || (k == NDIRECT && n >= NDIRECT))
    ensures Maps(sb, s, s', i, n * BSIZE, 1) && LoggedIs(sb, s, s', i, n * BSIZE, 0)
  {
    hide OneFill, Maps, LoggedIs;
    assert n * BSIZE / BSIZE == n;
    assert Wants(n * BSIZE, 1, k);
    OneFillMaps(sb, s, s', i, k, n * BSIZE, 1);
    OneFillLogged(sb, s, s', i, k, n * BSIZE);
  }

  lemma FillsThen(sb: Super, s0: Snap, s1: Snap, s2: Snap, i: nat, n: nat)
    requires Fills(sb, s0.blk, s0.ino, s0.own, s1.blk, s1.ino, s1.own, i)
    requires Fills(sb, s1.blk, s1.ino, s1.own, s2.blk, s2.ino, s2.own, i)
    requires Maps(sb, s0, s1, i, n * BSIZE, 1) && LoggedIs(sb, s0, s1, i, n * BSIZE, 0)
    requires Maps(sb, s1, s2, i, n * BSIZE, 1) && LoggedIs(sb, s1, s2, i, n * BSIZE, 0)
    ensures Fills(sb, s0.blk, s0.ino, s0.own, s2.blk, s2.ino, s2.own, i)
    ensures Maps(sb, s0, s2, i, n * BSIZE, 1) && LoggedIs(sb, s0, s2, i, n * BSIZE, 0)
  {
    hide Fills, Maps, LoggedIs, At, Covers;
    FillsTrans(sb, s0.blk, s0.ino, s0.own, s1.blk, s1.ino, s1.own, s2.blk, s2.ino, s2.own, i);
    MapsTrans(sb, s0, s1, s2, i, n * BSIZE, 1);
    NoCover(n * BSIZE);
    LoggedThen(sb, s0, s1, s2, i, n * BSIZE, 1, 0, 0);
  }

  lemma RefAt(sb: Super, s: Snap, i: nat, n: nat)
    requires Wf(sb, s.blk, s.ino) && i < |s.ino| && n < MAXFILE
    ensures Ref(sb, s.blk, s.ino, FileSlot(i, n)) == At(sb, s, i, SlotOf(n))
  {
  }

  lemma MappedAt(sb: Super, s: Snap, s': Snap, i: nat, q: nat)
    requires Maps(sb, s, s', i, q / BSIZE * BSIZE, 1) && LoggedIs(sb, s, s', i, q / BSIZE * BSIZE, 0)
    ensures Maps(sb, s, s', i, q, 1) && LoggedIs(sb, s, s', i, q, 0)
  {
    hide At, Wants, Maps, FillLogs;
    OneByte(q / BSIZE * BSIZE, q);
    MapsWider(sb, s, s', i, q / BSIZE * BSIZE, 1, q, 1);
    NoCover(q / BSIZE * BSIZE);
    NoCover(q);
    hide Covers;
    forall x: nat ensures LoggedFor(sb, s, s', i, q, 0, x) <==> LoggedFor(sb, s, s', i, q / BSIZE * BSIZE, 0, x) {
    }
  }

  /** Writing to a block fills no slot and logs nothing. */
  lemma MapsData(sb: Super, s0: Snap, s: Snap, s': Snap, i: nat, q: nat)
    requires Maps(sb, s0, s, i, q, 1) && LoggedIs(sb, s0, s, i, q, 0) && s' == s.(blk := s'.blk)
    requires Owned(sb, s.blk, s.ino, s.own, {}) && Owned(sb, s'.blk, s'.ino, s'.own, {})
    requires forall t: Slot | IsSlot(sb, t) :: Ref(sb, s'.blk, s'.ino, t) == Ref(sb, s.blk, s.ino, t)
    ensures Maps(sb, s0, s', i, q, 1) && LoggedIs(sb, s0, s', i, q, 0)
    ensures forall j: nat, k: nat :: At(sb, s', j, k) == At(sb, s, j, k)
  {
    AtSame(sb, s, s');
    hide At, Maps, LoggedIs, Owned;
    LoggedSame(sb, s0, s, s', i, q, 1, 0);
  }

  lemma AtSame(sb: Super, s: Snap, s': Snap)
    requires Wf(sb, s.blk, s.ino) && Wf(sb, s'.blk, s'.ino)
    requires forall t: Slot | IsSlot(sb, t) :: Ref(sb, s'.blk, s'.ino, t) == Ref(sb, s.blk, s.ino, t)
    ensures forall j: nat, k: nat :: At(sb, s', j, k) == At(sb, s, j, k)
  {
    hide Ref;
    forall j: nat, k: nat ensures At(sb, s', j, k) == At(sb, s, j, k) {
      if j < |s.ino| && k < NSLOTS {
        assert IsSlot(sb, Slot(j, k));
      }
    }
  }

  lemma MapsLog(sb: Super, s0: Snap, s: Snap, s': Snap, i: nat, off: nat, n: nat)
    requires Maps(sb, s0, s, i, off, n) && s' == s.(logged := s'.logged)
    ensures Maps(sb, s0, s', i, off, n) && forall j: nat, k: nat :: At(sb, s', j, k) == At(sb, s, j, k)
  {
    hide Ref, Owners, BitsAre, Wants;
    forall j: nat, k: nat
      ensures At(sb, s', j, k) == At(sb, s, j, k)
      ensures At(sb, s', j, k) == At(sb, s0, j, k) || MayFill(sb, s0, i, off, n, j, k)
    {
      assert At(sb, s, j, k) == At(sb, s0, j, k) || MayFill(sb, s0, i, off, n, j, k);
    }
  }

  lemma NextBlock(off: nat, tot: nat, n: nat, m: nat)
    requires tot < n && (tot == 0 || (off + tot) % BSIZE == 0)
    requires 1 <= m <= n - tot && (m == n - tot || m == BSIZE - (off + tot) % BSIZE)
    ensures tot + m == n || (off + tot + m) % BSIZE == 0
  {
  }

  lemma ChunkMaps(sb: Super, s0: Snap, s1: Snap, s: Snap, i: nat, off: nat, tot: nat, tried: nat, done: seq<byte>,
                  bytes: seq<byte>, addr: nat, m: nat)
    requires Maps(sb, s0, s1, i, off, tried) && LoggedIs(sb, s0, s1, i, off, tot) && tot < tried
    requires Spliced(sb, s0, s1, i, off, done, tot) && Chunk(sb, s1, s, i, off + tot, bytes, addr, m)
    ensures Maps(sb, s0, s, i, off, tried) && LoggedIs(sb, s0, s, i, off, tot + m)
  {
    hide Ref, Data, OneBlock, SameData, Full, PutChunk, Maps, LoggedIs, At, Wants, AllocRange, AllocBelow, GrowsOnly;
    hide Covers, Wrote;
    WantsWider(off + tot, 1, off, tried);
    MapsWider(sb, s1, s, i, off + tot, 1, off, tried);
    RangeCovers(sb, s1, i, off, tot);
    MapsTrans(sb, s0, s1, s, i, off, tried);
    LoggedThen(sb, s0, s1, s, i, off, tried, tot, m);
  }

  lemma RanOut(sb: Super, s0: Snap, s: Snap, i: nat, off: nat, n: nat, avail: nat, tot: nat)
    requires Maps(sb, s0, s, i, off, Tried(n, avail)) && Full(sb, s.blk)
    requires At(sb, s, i, SlotOf((off + tot) / BSIZE)) == 0
    requires tot < n && tot <= avail && off + n <= FILEBYTES && (tot == 0 || (off + tot) % BSIZE == 0)
    ensures Outcome(sb, s0, s, i, off, n, avail, tot, 0)
  {
    hide Maps, At, HasRoom, Full;
    RoomWasNot(sb, s0, s, i, off, Tried(n, avail), off + tot);
    assert (off + tot) / BSIZE <= (off + avail) / BSIZE;
  }

  lemma CopyFailed(sb: Super, s0: Snap, s: Snap, i: nat, off: nat, bytes: seq<byte>, n: nat, avail: nat, tot: nat,
                   m: nat)
    requires Maps(sb, s0, s, i, off, Tried(n, avail)) && Spliced(sb, s0, s, i, off, bytes, tot + m)
    requires tot <= avail < tot + m <= n && (off + tot) % BSIZE + m <= BSIZE && (tot == 0 || (off + tot) % BSIZE == 0)
    ensures Outcome(sb, s0, s, i, off, n, avail, tot, avail - tot)
  {
    hide Maps, At, HasRoom, Full, Wrote, GrowsOnly, AllocBelow, Owners, BitsAre;
    MapsOwned(sb, s0, s, i, off, Tried(n, avail));
    Shorter(sb, s, i, off, Tried(n, avail), tot + m);
    RoomWas(sb, s0, s, i, off, Tried(n, avail));
    assert (off + avail) / BSIZE == (off + tot) / BSIZE;
  }

  lemma Shorter(sb: Super, s: Snap, i: nat, off: nat, n: nat, n': nat)
    requires Wf(sb, s.blk, s.ino) && i < |s.ino| && AllocRange(sb, s.blk, s.ino, i, off, off + n') && n <= n'
    ensures AllocRange(sb, s.blk, s.ino, i, off, off + n)
  {
    hide Ref;
    forall m: nat | off < off + n && off < (m + 1) * BSIZE && m * BSIZE < off + n
      ensures m < MAXFILE && Ref(sb, s.blk, s.ino, FileSlot(i, m)) != 0
    {
    }
  }

  lemma AllWritten(sb: Super, s0: Snap, s: Snap, i: nat, off: nat, src: seq<byte>, avail: nat)
    requires Maps(sb, s0, s, i, off, Tried(|src|, avail)) && Spliced(sb, s0, s, i, off, src, |src|) && |src| <= avail
    ensures Outcome(sb, s0, s, i, off, |src|, avail, |src|, 0)
  {
    hide Maps, At, HasRoom, Full, Wrote, GrowsOnly, AllocBelow;
    RoomWas(sb, s0, s, i, off, |src|);
  }

  lemma Slices(src: seq<byte>, tot: nat, m: nat, got: nat)
    requires tot + m <= |src| && got <= m
    ensures src[tot..tot + m][..got] == src[tot..tot + got]
    ensures src[..tot] + src[tot..tot + got] == src[..tot + got]
  {
  }

  lemma LoggedGrows(sb: Super, s: Snap, s': Snap, i: nat, off: nat, n: nat)
    requires LoggedIs(sb, s, s', i, off, n)
    ensures s.logged <= s'.logged
  {
    hide LoggedFor;
  }

  lemma ChunkSplices(sb: Super, s0: Snap, s1: Snap, s: Snap, i: nat, off: nat, done: seq<byte>, bytes: seq<byte>,
                     m: nat,
                     addr: nat, log: nat)
    requires Spliced(sb, s0, s1, i, off, done, |done|) && off + |done| + |bytes| <= FILEBYTES
    requires Chunk(sb, s1, s, i, off + |done|, bytes, addr, log) && (off + |done|) % BSIZE + m <= BSIZE
    ensures addr == 0 ==> Full(sb, s.blk) && At(sb, s, i, SlotOf((off + |done|) / BSIZE)) == 0
    ensures addr == 0 ==> Spliced(sb, s0, s, i, off, done, |done|)
    ensures addr != 0 ==>
              Spliced(sb, s0, s, i, off, done + bytes, |done|) && Spliced(sb, s0, s, i, off, done + bytes, |done| + m)
  {
    hide Ref, Data, OneBlock, SameData, FileByte, AllocRange, AllocBelow, GrowsOnly, Full, PutChunk, Maps, LoggedIs, At;
    LoggedGrows(sb, s1, s, i, off + |done|, log);
    assert s.ino == s0.ino[i := s0.ino[i].(addrs := s.ino[i].addrs)];
    GrowsTrans(sb, s0.blk, s0.ino, s1.blk, s1.ino, s.blk, s.ino);
    RangeKept(sb, s1.blk, s1.ino, s.blk, s.ino, i, off, off + |done|);
    if addr == 0 {
      WroteSame(sb, s0.blk, s0.ino, s1.blk, s1.ino, s.blk, s.ino, i, off, done);
    } else {
      WroteNext(sb, s0.blk, s0.ino, s1.blk, s1.ino, s.blk, s.ino, i, off, done, bytes);
      RangeNext(sb, s.blk, s.ino, i, off, off + |done|, m);
    }
  }

  lemma FilesSize(sb: Super, blk: Disk, ino: seq<Inode>, i: nat)
    requires FilesOk(sb, blk, ino) && i < |ino|
    ensures AllocBelow(sb, blk, ino, i) && ino[i].size <= FILEBYTES
  {
    SizeBound(sb, blk, ino, i);
  }

  /** Setting the size after the loop keeps every file's blocks below its size. */
  lemma SplicedFile(sb: Super, s0: Snap, s: Snap, i: nat, off: nat, bytes: seq<byte>, tot: nat, size: nat)
    requires Spliced(sb, s0, s, i, off, bytes, tot) && FilesOk(sb, s0.blk, s0.ino) && tot <= |bytes|
    requires Wf(sb, s.blk, s.ino) && size == (if off + tot > s.ino[i].size then off + tot else s.ino[i].size)
    ensures WroteFile(sb, s0, s.(ino := s.ino[i := s.ino[i].(size := size)]), i, off, bytes, tot)
  {
    hide Ref, Data, AllocBelow, AllocRange, FileByte;
    var ino' := s.ino[i := s.ino[i].(size := size)];
    SameRefs(sb, s.blk, s.ino, i, size);
    WroteResized(sb, s0, s, i, off, bytes, size);
    FilesSize(sb, s0.blk, s0.ino, i);
    GrownFilesOk(sb, s0, s, i, off, tot, size);
    FilesSize(sb, s.blk, ino', i);
    WroteContents(sb, s0.blk, s0.ino, s.blk, ino', i, off, bytes, tot);
    forall j: nat | j < |s0.ino| && j != i
      ensures s0.ino[j].size <= FILEBYTES && Contents(sb, s.blk, ino', j) == Contents(sb, s0.blk, s0.ino, j)
    {
      FilesSize(sb, s0.blk, s0.ino, j);
      OthersContents(sb, s0.blk, s0.ino, s.blk, ino', i, off, bytes, j);
    }
  }

  lemma SameRefs(sb: Super, blk: Disk, ino: seq<Inode>, i: nat, size: nat)
    requires Wf(sb, blk, ino) && i < |ino|
    ensures var ino' := ino[i := ino[i].(size := size)];
            && Wf(sb, blk, ino')
            && (forall s: Slot | IsSlot(sb, s) :: Ref(sb, blk, ino', s) == Ref(sb, blk, ino, s))
            && (forall j: nat, n: nat | j < |ino| && n < MAXFILE ::
                  Data(sb, blk, ino', j, n) == Data(sb, blk, ino, j, n))
  {
    var ino' := ino[i := ino[i].(size := size)];
    assert forall s: Slot | IsSlot(sb, s) :: Ref(sb, blk, ino', s) == Ref(sb, blk, ino, s);
    forall j: nat, n: nat | j < |ino| && n < MAXFILE ensures Data(sb, blk, ino', j, n) == Data(sb, blk, ino, j, n) {
      assert IsSlot(sb, FileSlot(j, n));
    }
  }

  lemma WroteResized(sb: Super, s0: Snap, s: Snap, i: nat, off: nat, bytes: seq<byte>, size: nat)
    requires Wrote(sb, s0.blk, s0.ino, s.blk, s.ino, i, off, bytes)
    ensures Wrote(sb, s0.blk, s0.ino, s.blk, s.ino[i := s.ino[i].(size := size)], i, off, bytes)
  {
    hide Data, Ref;
    SameRefs(sb, s.blk, s.ino, i, size);
    WroteSame(sb, s0.blk, s0.ino, s.blk, s.ino, s.blk, s.ino[i := s.ino[i].(size := size)], i, off, bytes);
  }

  lemma GrownFilesOk(sb: Super, s0: Snap, s: Snap, i: nat, off: nat, tot: nat, size: nat)
    requires FilesOk(sb, s0.blk, s0.ino) && Wf(sb, s.blk, s.ino) && i < |s0.ino| && off <= s0.ino[i].size
    requires s.ino == s0.ino[i := s0.ino[i].(addrs := s.ino[i].addrs)] && GrowsOnly(sb, s0.blk, s0.ino, s.blk, s.ino)
    requires AllocRange(sb, s.blk, s.ino, i, off, off + tot)
    requires size == if off + tot > s.ino[i].size then off + tot else s.ino[i].size
    ensures FilesOk(sb, s.blk, s.ino[i := s.ino[i].(size := size)])
  {
    hide Ref, Data;
    var ino' := s.ino[i := s.ino[i].(size := size)];
    SameRefs(sb, s.blk, s.ino, i, size);
    forall j: nat | j < |ino'| ensures AllocBelow(sb, s.blk, ino', j) {
      forall n: nat | n * BSIZE < ino'[j].size ensures n < MAXFILE && Ref(sb, s.blk, ino', FileSlot(j, n)) != 0 {
        assert AllocBelow(sb, s0.blk, s0.ino, j);
        if n * BSIZE < s0.ino[j].size {
          assert IsSlot(sb, FileSlot(j, n));
        } else {
          assert off < (n + 1) * BSIZE;
          assert IsSlot(sb, FileSlot(j, n));
        }
      }
    }
  }

  lemma WroteFileLogged(sb: Super, s0: Snap, s: Snap, s': Snap, i: nat, off: nat, bytes: seq<byte>, tot: nat)
    requires WroteFile(sb, s0, s, i, off, bytes, tot) && s' == s.(logged := s'.logged)
    ensures WroteFile(sb, s0, s', i, off, bytes, tot) && FilesOk(sb, s'.blk, s'.ino)
  {
  }

  lemma BlockBelow(sb: Super, blk: Disk, ino: seq<Inode>, own: map<nat, Slot>, i: nat, q: nat)
    requires Owned(sb, blk, ino, own, {}) && i < |ino| && AllocBelow(sb, blk, ino, i) && q < ino[i].size
    ensures q / BSIZE < MAXFILE && Ref(sb, blk, ino, FileSlot(i, q / BSIZE)) != 0
    ensures Ref(sb, blk, ino, FileSlot(i, q / BSIZE)) in blk
  {
    hide Ref;
    var s := FileSlot(i, q / BSIZE);
    assert q / BSIZE * BSIZE <= q;
    RefInBlk(sb, blk, ino, own, s);
  }

  lemma ChunkContents(sb: Super, blk: Disk, ino: seq<Inode>, own: map<nat, Slot>, i: nat, q: nat, m: nat)
    requires Owned(sb, blk, ino, own, {}) && i < |ino| && q / BSIZE < MAXFILE
    requires Ref(sb, blk, ino, FileSlot(i, q / BSIZE)) != 0
    requires Ref(sb, blk, ino, FileSlot(i, q / BSIZE)) in blk
    requires q % BSIZE + m <= BSIZE && q + m <= ino[i].size <= FILEBYTES
    ensures blk[Ref(sb, blk, ino, FileSlot(i, q / BSIZE))][q % BSIZE..q % BSIZE + m] == Contents(sb, blk, ino, i)[q..q + m]
  {
    hide Owners, BitsAre, Contents, Ref, FileByte;
    var b, c := blk[Ref(sb, blk, ino, FileSlot(i, q / BSIZE))], Contents(sb, blk, ino, i);
    var bs, cs := b[q % BSIZE..q % BSIZE + m], c[q..q + m];
    forall t | 0 <= t < m ensures bs[t] == cs[t] {
      ContentsByte(sb, blk, ino, i, q + t);
      FileByteAt(sb, blk, ino, i, q, m, t);
    }
  }

  lemma FileByteAt(sb: Super, blk: Disk, ino: seq<Inode>, i: nat, q: nat, m: nat, t: nat)
    requires Wf(sb, blk, ino) && i < |ino| && q % BSIZE + m <= BSIZE && t < m && q / BSIZE < MAXFILE
    ensures q + t < FILEBYTES && FileByte(sb, blk, ino, i, q + t) == Data(sb, blk, ino, i, q / BSIZE)[q % BSIZE + t]
  {
    hide Data;
    ChunkByte(q, m, q + t);
  }

  lemma SliceJoin(c: seq<byte>, a: nat, b: nat, d: nat)
    requires a <= b <= d <= |c|
    ensures c[a..b] + c[b..d] == c[a..d]
  {
  }

  lemma WroteFileNothing(sb: Super, s: Snap, i: nat, off: nat)
    requires FilesOk(sb, s.blk, s.ino) && i < |s.ino|
    ensures off <= s.ino[i].size ==> WroteFile(sb, s, s, i, off, [], 0)
  {
    hide Data, AllocBelow;
    forall j: nat | j < |s.ino| ensures s.ino[j].size <= FILEBYTES {
      FilesSize(sb, s.blk, s.ino, j);
    }
    if off <= s.ino[i].size {
      var c := Contents(sb, s.blk, s.ino, i);
      assert Splice(c, off, [])[..|c|] == c;
    }
  }

  /** Two writes in a row, the first one complete, are one. */
  lemma WroteFileThen(sb: Super, s0: Snap, s1: Snap, s2: Snap, i: nat, off: nat, a: seq<byte>, b: seq<byte>, tot: nat)
    requires WroteFile(sb, s0, s1, i, off, a, |a|) && WroteFile(sb, s1, s2, i, off + |a|, b, tot)
    ensures WroteFile(sb, s0, s2, i, off, a + b, |a| + tot)
  {
    hide AllocBelow, Contents;
    var c0, c1 := Contents(sb, s0.blk, s0.ino, i), Contents(sb, s1.blk, s1.ino, i);
    assert Splice(c0, off, a)[..|c1|] == Splice(c0, off, a);
    SpliceSplice(c0, off, a, b);
  }

  lemma TruncOthers(sb: Super, s: Snap, s': Snap, i: nat)
    requires Owned(sb, s.blk, s.ino, s.own, {}) && FilesOk(sb, s.blk, s.ino) && Wf(sb, s'.blk, s'.ino) && i < |s.ino|
    requires s'.ino == s.ino[i := s.ino[i].(addrs := s'.ino[i].addrs, size := 0)]
    requires forall t: Slot | IsSlot(sb, t) ::
               Ref(sb, s'.blk, s'.ino, t) == if t.i == i then 0 else Ref(sb, s.blk, s.ino, t)
    requires forall x: nat | sb.nmeta <= x < sb.size :: s'.blk[x] == s.blk[x]
    ensures FilesOk(sb, s'.blk, s'.ino) && TruncatedFile(sb, s, s', i)
  {
    hide Ref, BitsAre;
    forall j: nat | j < |s'.ino| ensures AllocBelow(sb, s'.blk, s'.ino, j) {
      assert AllocBelow(sb, s.blk, s.ino, j);
      forall n: nat | n * BSIZE < s'.ino[j].size ensures n < MAXFILE && Ref(sb, s'.blk, s'.ino, FileSlot(j, n)) != 0 {
        assert IsSlot(sb, FileSlot(j, n));
      }
    }
    forall j: nat | j < |s.ino| && j != i
      ensures s.ino[j].size <= FILEBYTES && Contents(sb, s'.blk, s'.ino, j) == Contents(sb, s.blk, s.ino, j)
    {
      FilesSize(sb, s.blk, s.ino, j);
      forall n: nat | n < MAXFILE ensures Data(sb, s'.blk, s'.ino, j, n) == Data(sb, s.blk, s.ino, j, n) {
        SameBlock(sb, s, s', i, j, n);
      }
      hide Data;
    }
  }

  lemma SameBlock(sb: Super, s: Snap, s': Snap, i: nat, j: nat, n: nat)
    requires Owned(sb, s.blk, s.ino, s.own, {}) && Wf(sb, s'.blk, s'.ino) && |s'.ino| == |s.ino| && j < |s.ino|
    requires j != i && n < MAXFILE
    requires forall t: Slot | IsSlot(sb, t) && t.i != i :: Ref(sb, s'.blk, s'.ino, t) == Ref(sb, s.blk, s.ino, t)
    requires forall x: nat | sb.nmeta <= x < sb.size :: s'.blk[x] == s.blk[x]
    ensures Data(sb, s'.blk, s'.ino, j, n) == Data(sb, s.blk, s.ino, j, n)
  {
    hide Ref, BitsAre;
    var t := FileSlot(j, n);
    if Ref(sb, s.blk, s.ino, t) != 0 {
      OneOwner(sb, s.blk, s.ino, s.own, t);
      OwnRange(sb, s.blk, s.ino, s.own);
    }
  }

  /** A read of the range just written gives the bytes written. */
  lemma ReadBack(sb: Super, s: Snap, s': Snap, i: nat, off: nat, bytes: seq<byte>, room: nat, r: int, out: seq<byte>)
    requires WroteFile(sb, s, s', i, off, bytes, |bytes|) && off + |bytes| < WORD && room >= |bytes|
    requires ReadResult(Contents(sb, s'.blk, s'.ino, i), off, |bytes|, room, r, out)
    ensures r == |bytes| && out == bytes
  {
    var c := Contents(sb, s.blk, s.ino, i);
    hide FilesOk, Contents;
    SpliceAt(c, off, bytes, s'.ino[i].size);
  }

  lemma SpliceAt(c: seq<byte>, off: nat, bytes: seq<byte>, n: nat)
    requires off <= |c| && off + |bytes| <= n <= |Splice(c, off, bytes)|
    ensures Splice(c, off, bytes)[..n][off..off + |bytes|] == bytes
  {
  }

  /** When copyin fails part-way, exactly when the cached file still is the old one with the
      returned count of bytes spliced in. Space is no matter: blocks below the old end exist. */
  lemma SpillShows(sb: Super, s: Snap, s': Snap, i: nat, off: nat, src: seq<byte>, avail: nat, r: int, spill: nat)
    requires WriteStep(sb, s, s', i, off, src, avail, r, spill)
    ensures var c := Contents(sb, s.blk, s.ino, i);
            Contents(sb, s'.blk, s'.ino, i) == Splice(c, off, src[..r]) <==> Unspilled(c, off, src, avail)
  {
    hide AllocBelow, Contents, Maps, HasRoom, Full, At, LoggedFor;
    var c, c' := Contents(sb, s.blk, s.ino, i), Contents(sb, s'.blk, s'.ino, i);
    var bytes, d := src[..r + spill], Splice(c, off, src[..r]);
    assert |c'| == |d|;
    forall p | 0 <= p < |c'| ensures c'[p] == if off + r <= p < off + r + spill then src[p - off] else d[p] {
      assert c'[p] == Splice(c, off, bytes)[p];
    }
    forall p | off + r <= p < |d| ensures p < |c| && d[p] == c[p] {
    }
    if !HasRoom(sb, s, i, off, Tried(|src|, avail)) {
      NotBelow(sb, s, s', i, off, Tried(|src|, avail), off + r);
      assert |c| <= (off + r) / BSIZE * BSIZE <= off + Done(off, |src|, avail);
    }
  }

  /** A block that is not mapped is not below the size. */
  lemma NotBelow(sb: Super, s: Snap, s': Snap, i: nat, off: nat, n: nat, q: nat)
    requires Maps(sb, s, s', i, off, n) && FilesOk(sb, s.blk, s.ino) && i < |s.ino|
    requires At(sb, s', i, SlotOf(q / BSIZE)) == 0
    ensures q / BSIZE * BSIZE >= s.ino[i].size
  {
    hide At, Owned, Wants;
    var m := q / BSIZE;
    if m * BSIZE < s.ino[i].size {
      Exists(sb, s, i, m);
    }
    assert At(sb, s', i, SlotOf(m)) == At(sb, s, i, SlotOf(m)) || MayFill(sb, s, i, off, n, i, SlotOf(m));
  }

  lemma StepFiles(sb: Super, s: Snap, s': Snap, i: nat, off: nat, src: seq<byte>, avail: nat, r: int, spill: nat)
    requires WriteStep(sb, s, s', i, off, src, avail, r, spill)
    ensures FilesOk(sb, s'.blk, s'.ino) && |s'.ino| == |s.ino| && s'.ino[i].size <= FILEBYTES
    ensures s'.ino[i] == s.ino[i].(size := s'.ino[i].size, addrs := s'.ino[i].addrs)
  {
    hide FilesOk, Contents;
  }

  /** The end of writei: the size is set and the inode copied to its block and logged. */
  lemma Written(sb: Super, s0: Snap, s1: Snap, s2: Snap, s3: Snap, i: nat, off: nat, src: seq<byte>, avail: nat,
                tot: nat, spill: nat, size: nat)
    requires tot + spill <= |src| && Spliced(sb, s0, s1, i, off, src[..tot + spill], tot)
    requires Maps(sb, s0, s1, i, off, Tried(|src|, avail)) && LoggedIs(sb, s0, s1, i, off, tot)
    requires Outcome(sb, s0, s1, i, off, |src|, avail, tot, spill)
    requires LogsAll(s0.blk, s0.logged, s1.blk, s1.logged, SpillBlock(sb, s1, i, off + tot, spill))
    requires WroteFile(sb, s0, s2, i, off, src[..tot + spill], tot) && Owned(sb, s2.blk, s2.ino, s2.own, {})
    requires s2 == s1.(ino := s1.ino[i := s1.ino[i].(size := size)]) && s3 == s2.(logged := s2.logged + {sb.IBlock(i)})
    ensures WriteStep(sb, s0, s3, i, off, src, avail, tot, spill)
    ensures |s3.logged| <= |s0.logged| + Cost(off, |src|) + 1
  {
    hide LogsAll, SpillBlock;
    LogsMore(s0.blk, s0.logged, s1.blk, s1.logged, SpillBlock(sb, s1, i, off + tot, spill), sb.IBlock(i));
    WrittenSame(sb, s0, s1, s2, s3, i, off, |src|, avail, tot, spill, size);
    WroteFileLogged(sb, s0, s2, s3, i, off, src[..tot + spill], tot);
    SpillSame(sb, s1, s2, s3, i, off + tot, spill, size);
    hide Maps, At, HasRoom, Full, Wrote, GrowsOnly, AllocBelow, AllocRange, WroteFile, Owned, LoggedFor, Cost, Outcome;
    TriedWider(sb, s0, s1, i, off, |src|, avail);
    LogBound(sb, s0, s1, i, off, |src|, tot);
  }

  lemma TriedWider(sb: Super, s: Snap, s': Snap, i: nat, off: nat, n: nat, avail: nat)
    requires Maps(sb, s, s', i, off, Tried(n, avail))
    ensures Maps(sb, s, s', i, off, n)
  {
    hide Maps;
    WantsWider(off, Tried(n, avail), off, n);
    MapsWider(sb, s, s', i, off, Tried(n, avail), off, n);
  }

  lemma SpillSame(sb: Super, s1: Snap, s2: Snap, s3: Snap, i: nat, q: nat, spill: nat, size: nat)
    requires i < |s1.ino| && Wf(sb, s1.blk, s1.ino) && Wf(sb, s2.blk, s2.ino)
    requires s2 == s1.(ino := s1.ino[i := s1.ino[i].(size := size)]) && s3 == s2.(logged := s3.logged)
    ensures SpillBlock(sb, s3, i, q, spill) == SpillBlock(sb, s1, i, q, spill)
  {
  }

  lemma ChunkAddr(sb: Super, s: Snap, s': Snap, i: nat, q: nat, bytes: seq<byte>, addr: nat, m: nat)
    requires Chunk(sb, s, s', i, q, bytes, addr, m)
    ensures addr == At(sb, s', i, SlotOf(q / BSIZE))
  {
  }

  lemma WrittenSame(sb: Super, s0: Snap, s1: Snap, s2: Snap, s3: Snap, i: nat, off: nat, n: nat, avail: nat,
                    tot: nat, spill: nat, size: nat)
    requires Maps(sb, s0, s1, i, off, Tried(n, avail)) && LoggedIs(sb, s0, s1, i, off, tot)
    requires Outcome(sb, s0, s1, i, off, n, avail, tot, spill) && i < |s1.ino|
    requires s2 == s1.(ino := s1.ino[i := s1.ino[i].(size := size)]) && Owned(sb, s2.blk, s2.ino, s2.own, {})
    requires s3 == s2.(logged := s2.logged + {sb.IBlock(i)})
    ensures Maps(sb, s0, s3, i, off, Tried(n, avail)) && Outcome(sb, s0, s3, i, off, n, avail, tot, spill)
    ensures forall x: nat ::
              x in s3.logged <==> x in s0.logged || x == sb.IBlock(i) || LoggedFor(sb, s0, s3, i, off, tot, x)
  {
    MapsOwned(sb, s0, s1, i, off, Tried(n, avail));
    SameRefs(sb, s1.blk, s1.ino, i, size);
    AtSame(sb, s1, s2);
    hide Owned, At, Maps, LoggedIs, Full, HasRoom;
    LoggedSame(sb, s0, s1, s2, i, off, Tried(n, avail), tot);
    MapsLog(sb, s0, s2, s3, i, off, Tried(n, avail));
    LoggedForSame(sb, s0, s2, s3, i, off, tot);
  }

  lemma LoggedForSame(sb: Super, s0: Snap, s: Snap, s': Snap, i: nat, off: nat, tot: nat)
    requires LoggedIs(sb, s0, s, i, off, tot) && forall j: nat, k: nat :: At(sb, s', j, k) == At(sb, s, j, k)
    ensures forall x: nat :: x in s.logged <==> x in s0.logged || LoggedFor(sb, s0, s', i, off, tot, x)
  {
    hide At, Covers;
    forall x: nat ensures LoggedFor(sb, s0, s', i, off, tot, x) <==> LoggedFor(sb, s0, s, i, off, tot, x) {
      forall k: nat ensures FillLogs(sb, s0, s', i, k, x) <==> FillLogs(sb, s0, s, i, k, x) {
      }
    }
  }

  lemma Wraps(off: nat, n: nat)
    requires off < WORD && n < WORD
    ensures (off + n) % WORD < off <==> off + n >= WORD
  {
  }

  lemma ReadWhole(c: seq<byte>, off: nat, n: nat, room: nat)
    requires off <= |c| && off + n < WORD
    ensures var want := if off + n > |c| then |c| - off else n;
            room >= want ==> ReadResult(c, off, n, room, want, c[off..off + want])
  {
  }

  lemma ReadShort(c: seq<byte>, off: nat, n: nat, room: nat, tot: nat, m: nat)
    requires off <= |c| && off + n < WORD && tot <= room < tot + m
    requires off + tot + m <= |c| && tot + m <= n
    ensures ReadResult(c, off, n, room, -1, c[off..off + tot])
  {
    SliceJoin(c, off, off + tot, if off + n > |c| then |c| else off + n);
  }

  // ---- filewrite's transactions ----

  lemma FileSizeBound(sb: Super, s: Snap, i: nat, off: nat)
    requires FilesOk(sb, s.blk, s.ino) && i < |s.ino|
    ensures s.ino[i].size <= FILEBYTES
  {
    FilesSize(sb, s.blk, s.ino, i);
  }

  lemma WroteSize(sb: Super, s0: Snap, s: Snap, i: nat, off: nat, bytes: seq<byte>, tot: nat)
    requires WroteFile(sb, s0, s, i, off, bytes, tot)
    ensures i < |s.ino| && off + tot <= s.ino[i].size <= FILEBYTES && FilesOk(sb, s.blk, s.ino)
  {
    hide FilesOk, Contents;
  }

  lemma TurnDone(sb: Super, s0: Snap, s2: Snap, s3: Snap, i: nat, off0: nat, src: seq<byte>, avail: nat,
                 k: nat, r: int, spill: nat, txs: seq<Snap>)
    requires |txs| * MAXCHUNK == k && s2 == (if txs == [] then s0 else txs[|txs| - 1])
    requires r == -1 ==> s3 == s2.(logged := {})
    requires r != -1 ==> WriteStep(sb, s2.(logged := {}), s3, i, off0 + k, Part(src, k), Left(avail, k), r, spill)
    requires |s3.logged| <= MAXOPBLOCKS && forall j: nat | j < |txs| :: TxOk(sb, s0, txs, i, off0, src, avail, j)
    ensures forall j: nat | j < |txs + [s3]| :: TxOk(sb, s0, txs + [s3], i, off0, src, avail, j)
  {
    hide WriteStep, Part, Left;
    var txs' := txs + [s3];
    assert Transaction(sb, s2, s3, i, off0, src, avail, k) by {
      if r != -1 {
        assert StepOf(sb, s2, s3, i, off0 + k, Part(src, k), Left(avail, k), r, spill);
      }
    }
    forall j: nat | j < |txs'| ensures TxOk(sb, s0, txs', i, off0, src, avail, j) {
      hide Transaction;
      if j < |txs| {
        assert TxOk(sb, s0, txs, i, off0, src, avail, j);
        assert txs'[j] == txs[j] && (j > 0 ==> txs'[j - 1] == txs[j - 1]);
      }
    }
  }

  lemma StepWrote(sb: Super, s0: Snap, s1: Snap, s3: Snap, i: nat, off0: nat, src: seq<byte>, avail: nat,
                  k: nat, part: seq<byte>, r: int, spill: nat, n: nat)
    requires k <= avail && k + |part| <= n && k + |part| <= |src| && part == src[k..k + |part|]
    requires WroteFile(sb, s0, s1, i, off0, src[..k], k) && Maps(sb, s0, s1, i, off0, Tried(n, avail))
    requires WriteStep(sb, s1, s3, i, off0 + k, part, avail - k, r, spill)
    ensures 0 <= r && r + spill <= |part| && WroteFile(sb, s0, s3, i, off0, src[..k + r + spill], k + r)
    ensures Maps(sb, s0, s3, i, off0, Tried(n, avail)) && (r == |part| ==> k + r <= avail && spill == 0)
  {
    hide WroteFile, WriteStep, Maps, Outcome, Tried;
    StepOnly(sb, s1, s3, i, off0 + k, part, avail - k, r, spill);
    StepMaps(sb, s0, s1, s3, i, off0, avail, k, |part|, n);
    StepBytes(sb, s0, s1, s3, i, off0, src[..k], part[..r + spill], r);
    Slices(src, k, |part|, r + spill);
  }

  lemma StepBytes(sb: Super, s0: Snap, s1: Snap, s3: Snap, i: nat, off: nat, a: seq<byte>, b: seq<byte>, r: nat)
    requires WroteFile(sb, s0, s1, i, off, a, |a|) && WroteFile(sb, s1, s3, i, off + |a|, b, r)
    ensures WroteFile(sb, s0, s3, i, off, a + b, |a| + r)
  {
    hide WroteFile;
    WroteFileThen(sb, s0, s1, s3, i, off, a, b, r);
  }

  lemma StepMaps(sb: Super, s0: Snap, s1: Snap, s3: Snap, i: nat, off0: nat, avail: nat, k: nat, n1: nat, n: nat)
    requires k <= avail && k + n1 <= n && Maps(sb, s0, s1, i, off0, Tried(n, avail))
    requires Maps(sb, s1, s3, i, off0 + k, Tried(n1, avail - k))
    ensures Maps(sb, s0, s3, i, off0, Tried(n, avail))
  {
    hide Maps, Wants;
    WantsWider(off0 + k, Tried(n1, avail - k), off0, Tried(n, avail));
    MapsWider(sb, s1, s3, i, off0 + k, Tried(n1, avail - k), off0, Tried(n, avail));
    MapsTrans(sb, s0, s1, s3, i, off0, Tried(n, avail));
  }

  lemma StepOnly(sb: Super, s: Snap, s': Snap, i: nat, off: nat, src: seq<byte>, avail: nat, r: int, spill: nat)
    requires WriteStep(sb, s, s', i, off, src, avail, r, spill)
    ensures 0 <= r && r + spill <= |src| && WroteFile(sb, s, s', i, off, src[..r + spill], r)
    ensures Maps(sb, s, s', i, off, Tried(|src|, avail)) && Outcome(sb, s, s', i, off, |src|, avail, r, spill)
    ensures r <= avail && (r == |src| ==> avail >= |src| && spill == 0)
  {
    hide WroteFile, Maps, LoggedFor, HasRoom, At, Full;
  }

  /** A transaction that writei takes lies within the bytes that fit. */
  lemma ChunkFits(off: nat, n: nat, k: nat, n1: nat)
    requires k % MAXCHUNK == 0 && k < n && n1 == (if n - k > MAXCHUNK then MAXCHUNK else n - k)
    requires off + k + n1 <= FILEBYTES
    ensures k + n1 <= Fitting(off, n) && (n1 == MAXCHUNK || k + n1 == Fitting(off, n))
  {
    if off + n > FILEBYTES {
      assert n1 == MAXCHUNK;
      Multiple(k + n1, FILEBYTES - off);
    }
  }

  /** What is needed for the whole range and not there yet lies in the part not yet written. */
  lemma NeedLater(sb: Super, s: Snap, i: nat, off0: nat, t: nat, off: nat, t1: nat)
    requires FilesOk(sb, s.blk, s.ino) && i < |s.ino| && off0 <= off <= s.ino[i].size && off0 + t == off + t1 && t1 > 0
    ensures Need(sb, s, i, off0, t) == Need(sb, s, i, off, t1)
  {
    hide At, AllocBelow;
    forall k: nat | k < NSLOTS && At(sb, s, i, k) == 0 ensures Wants(off0, t, k) <==> Wants(off, t1, k) {
      if k != NDIRECT {
        var m := if k < NDIRECT then k else k - 1;
        if m * BSIZE < s.ino[i].size {
          assert AllocBelow(sb, s.blk, s.ino, i);
          Exists(sb, s, i, m);
        }
        assert SlotOf(m) == k && m * BSIZE >= off;
        assert off0 / BSIZE <= off / BSIZE <= m;
      }
    }
  }

  lemma NeedMore(sb: Super, s: Snap, i: nat, off: nat, n: nat, n': nat)
    requires n <= n'
    ensures |Need(sb, s, i, off, n)| <= |Need(sb, s, i, off, n')|
  {
    hide At;
    WantsWider(off, n, off, n');
    SubsetCard(Need(sb, s, i, off, n), Need(sb, s, i, off, n'));
  }

  /** Whether there is room for the whole range can be told from any state on the way. */
  lemma RoomLater(sb: Super, s0: Snap, s: Snap, i: nat, off0: nat, t: nat, off: nat, t1: nat)
    requires Maps(sb, s0, s, i, off0, t) && FilesOk(sb, s.blk, s.ino) && off0 <= off && i < |s.ino|
    requires off <= s.ino[i].size
    requires 0 < t1 && off + t1 <= off0 + t
    ensures HasRoom(sb, s0, i, off0, t) ==> HasRoom(sb, s, i, off, t1)
    ensures off + t1 == off0 + t ==> (HasRoom(sb, s0, i, off0, t) <==> HasRoom(sb, s, i, off, t1))
  {
    hide Maps, FreeBlocks, Need, FilesOk;
    SpareKept(sb, s0, s, i, off0, t);
    var t2: nat := off0 + t - off;
    NeedLater(sb, s, i, off0, t, off, t2);
    NeedMore(sb, s, i, off, t1, t2);
  }

  lemma BrokenOff(sb: Super, s0: Snap, s1: Snap, s3: Snap, i: nat, off0: nat, n: nat, avail: nat,
                  k: nat, done: seq<byte>, part: seq<byte>, r: int, spill: nat)
    requires k <= avail && k % MAXCHUNK == 0 && k < n && off0 + k + |part| <= FILEBYTES
    requires |part| == (if n - k > MAXCHUNK then MAXCHUNK else n - k)
    requires WroteFile(sb, s0, s1, i, off0, done, k) && Maps(sb, s0, s1, i, off0, Tried(Fitting(off0, n), avail))
    requires WriteStep(sb, s1, s3, i, off0 + k, part, avail - k, r, spill) && r != |part|
    ensures 0 <= r < |part| && FileOutcome(sb, s0, s3, i, off0, n, avail, k + r, spill)
  {
    hide WroteFile, WriteStep, Maps, HasRoom, FilesOk, Full, At, Fitting, Sent, Done, Tried, FileOutcome, Outcome;
    var m, p := Fitting(off0, n), |part|;
    StepOnly(sb, s1, s3, i, off0 + k, part, avail - k, r, spill);
    WroteSize(sb, s0, s1, i, off0, done, k);
    ChunkFits(off0, n, k, p);
    TriedLater(k, p, m, avail);
    RoomLater(sb, s0, s1, i, off0, Tried(m, avail), off0 + k, Tried(p, avail - k));
    BrokenOutcome(sb, s0, s1, s3, i, off0, n, avail, k, p, m, r, spill);
  }

  lemma TriedLater(k: nat, p: nat, m: nat, avail: nat)
    requires k <= avail && 0 < p && k + p <= m
    ensures 0 < Tried(p, avail - k) && k + Tried(p, avail - k) <= Tried(m, avail)
    ensures avail < k + p ==> k + Tried(p, avail - k) == Tried(m, avail)
  {
  }

  lemma BrokenOutcome(sb: Super, s0: Snap, s1: Snap, s3: Snap, i: nat, off0: nat, n: nat, avail: nat,
                      k: nat, p: nat, m: nat, r: nat, spill: nat)
    requires k <= avail && k % MAXCHUNK == 0 && 0 < p <= MAXCHUNK && k + p <= m == Fitting(off0, n)
    requires (p == MAXCHUNK || k + p == m)
    requires Outcome(sb, s1, s3, i, off0 + k, p, avail - k, r, spill) && r != p
    requires HasRoom(sb, s0, i, off0, Tried(m, avail)) ==> HasRoom(sb, s1, i, off0 + k, Tried(p, avail - k))
    requires avail < k + p ==>
               (HasRoom(sb, s0, i, off0, Tried(m, avail)) <==> HasRoom(sb, s1, i, off0 + k, Tried(p, avail - k)))
    ensures r < p && FileOutcome(sb, s0, s3, i, off0, n, avail, k + r, spill)
  {
    hide HasRoom, Full, At, Fitting, Sent, Done, Tried;
    SentBroken(off0, m, avail, k, p);
    DoneLess(off0 + k, p, avail - k);
  }

  lemma DoneLess(off: nat, n: nat, avail: nat)
    ensures avail < n ==> Done(off, n, avail) <= avail
    ensures avail >= n ==> Done(off, n, avail) == n
  {
  }

  lemma SentBroken(off: nat, n: nat, avail: nat, k: nat, n1: nat)
    requires k <= avail && k % MAXCHUNK == 0 && 0 < n1 <= MAXCHUNK && k + n1 <= n && (n1 == MAXCHUNK || k + n1 == n)
    ensures avail < k + n1 ==> Sent(off, n, avail) == k + Done(off + k, n1, avail - k) && avail < n
    ensures k + Done(off + k, n1, avail - k) <= Sent(off, n, avail)
  {
    if avail < k + n1 {
      Multiple(k, avail);
      assert avail - avail % MAXCHUNK == k;
      assert (off + avail) / BSIZE * BSIZE == off + avail - (off + avail) % BSIZE;
    } else if avail < n {
      Multiple(k + n1, avail);
    }
  }

  lemma Multiple(k: nat, x: nat)
    requires k % MAXCHUNK == 0 && k <= x
    ensures x - x % MAXCHUNK >= k && (x < k + MAXCHUNK ==> x - x % MAXCHUNK == k)
  {
  }

  lemma RoomBelow(sb: Super, s0: Snap, s: Snap, i: nat, off: nat, n: nat)
    requires Maps(sb, s0, s, i, off, n) && FilesOk(sb, s.blk, s.ino) && i < |s.ino| && off + n <= s.ino[i].size
    ensures HasRoom(sb, s0, i, off, n)
  {
    hide Maps, HasRoom, Ref;
    assert AllocBelow(sb, s.blk, s.ino, i);
    forall m: nat | off < off + n && off < (m + 1) * BSIZE && m * BSIZE < off + n
      ensures m < MAXFILE && Ref(sb, s.blk, s.ino, FileSlot(i, m)) != 0
    {
    }
    RoomWas(sb, s0, s, i, off, n);
  }

  /** writei refused: all that fits was written. */
  lemma TooLarge(sb: Super, s0: Snap, s: Snap, i: nat, off: nat, n: nat, avail: nat, k: nat, n1: nat)
    requires Maps(sb, s0, s, i, off, Tried(Fitting(off, n), avail)) && FilesOk(sb, s.blk, s.ino) && i < |s.ino|
    requires k % MAXCHUNK == 0 && k < n && n1 == (if n - k > MAXCHUNK then MAXCHUNK else n - k)
    requires off + k <= s.ino[i].size <= FILEBYTES && off + k + n1 > FILEBYTES && k <= avail && k <= Fitting(off, n)
    ensures FileOutcome(sb, s0, s, i, off, n, avail, k, 0)
  {
    assert k == Fitting(off, n) by {
      Multiple(k, FILEBYTES - off);
    }
    hide Maps, HasRoom, FilesOk;
    RoomBelow(sb, s0, s, i, off, k);
  }

  /** Between transactions, with the first k bytes written. */
  ghost predicate Sending(sb: Super, s0: Snap, s: Snap, i: nat, off: nat, src: seq<byte>, avail: nat, k: nat)
    requires k <= |src|
  {
    && i < |s0.ino| && s0.ino[i].size <= FILEBYTES
    && (off <= s0.ino[i].size ==>
          && k <= Fitting(off, |src|) && WroteFile(sb, s0, s, i, off, src[..k], k)
          && Maps(sb, s0, s, i, off, Tried(Fitting(off, |src|), avail)))
    && (off > s0.ino[i].size ==> k == 0 && s.(logged := {}) == s0.(logged := {}))
  }

  lemma SendStarts(sb: Super, s: Snap, i: nat, off: nat, src: seq<byte>, avail: nat)
    requires Owned(sb, s.blk, s.ino, s.own, {}) && FilesOk(sb, s.blk, s.ino) && i < |s.ino|
    ensures Sending(sb, s, s, i, off, src, avail, 0)
  {
    hide Owned, FilesOk, WroteFile, Maps, Tried;
    FileSizeBound(sb, s, i, off);
    WroteFileNothing(sb, s, i, off);
    MapsSame(sb, s, i, off, Tried(Fitting(off, |src|), avail));
    assert src[..0] == [];
  }

  /** begin_op changes nothing about the files. */
  lemma SendNext(sb: Super, s0: Snap, s: Snap, i: nat, off: nat, src: seq<byte>, avail: nat, k: nat)
    requires k <= |src| && Sending(sb, s0, s, i, off, src, avail, k) && FilesOk(sb, s.blk, s.ino)
    ensures Sending(sb, s0, s.(logged := {}), i, off, src, avail, k) && i < |s.ino|
    ensures off <= s0.ino[i].size ==> off + k <= s.ino[i].size <= FILEBYTES
    ensures off > s0.ino[i].size ==> s.ino[i].size == s0.ino[i].size
  {
    hide WroteFile, Maps, Fitting, Tried;
    var s' := s.(logged := {});
    if off <= s0.ino[i].size {
      WroteFileLogged(sb, s0, s, s', i, off, src[..k], k);
      MapsLog(sb, s0, s, s', i, off, Tried(Fitting(off, |src|), avail));
      WroteSize(sb, s0, s, i, off, src[..k], k);
    } else {
      assert s.ino == s.(logged := {}).ino;
    }
  }

  /** One call of writei: on to the next transaction, or the end. */
  lemma Sends(sb: Super, s0: Snap, s2: Snap, s3: Snap, i: nat, off: nat, src: seq<byte>, avail: nat, k: nat, r: int,
              spill: nat)
    requires k < |src| && k <= avail && k % MAXCHUNK == 0 && Sending(sb, s0, s2.(logged := {}), i, off, src, avail, k)
    requires i < |s2.ino| && FilesOk(sb, s3.blk, s3.ino)
    requires off <= s0.ino[i].size ==> off + k <= s2.ino[i].size <= FILEBYTES
    requires off > s0.ino[i].size ==> s2.ino[i].size == s0.ino[i].size
    requires r == -1 <==> off + k > s2.ino[i].size || off + k + |Part(src, k)| > FILEBYTES
    requires r == -1 ==> s3 == s2.(logged := {}) && spill == 0
    requires r != -1 ==> WriteStep(sb, s2.(logged := {}), s3, i, off + k, Part(src, k), avail - k, r, spill)
    ensures r == |Part(src, k)| ==> k + r <= avail && spill == 0 && Sending(sb, s0, s3, i, off, src, avail, k + r)
    ensures r != |Part(src, k)| ==> Delivered(sb, s0, s3, i, off, src, avail, k + (if r > 0 then r else 0), spill)
    ensures -1 <= r <= |Part(src, k)|
  {
    hide WroteFile, WriteStep, Maps, Fitting, Tried, FileOutcome, FilesOk;
    var s1, part, n := s2.(logged := {}), Part(src, k), Fitting(off, |src|);
    if r != -1 {
      ChunkFits(off, |src|, k, |part|);
      StepWrote(sb, s0, s1, s3, i, off, src, avail, k, part, r, spill, n);
      if r != |part| {
        BrokenOff(sb, s0, s1, s3, i, off, |src|, avail, k, src[..k], part, r, spill);
      }
    } else if off <= s0.ino[i].size {
      TooLarge(sb, s0, s3, i, off, |src|, avail, k, |part|);
    }
  }

  /** filewrite's effect on the files, with `sent` bytes written. */
  ghost predicate Delivered(sb: Super, s0: Snap, s: Snap, i: nat, off: nat, src: seq<byte>, avail: nat, sent: nat,
                            spill: nat)
  {
    && i < |s0.ino| && sent + spill <= |src|
    && (off > s0.ino[i].size ==> sent == 0 && spill == 0 && s.(logged := {}) == s0.(logged := {}))
    && (off <= s0.ino[i].size ==>
          && WroteFile(sb, s0, s, i, off, src[..sent + spill], sent)
          && FileOutcome(sb, s0, s, i, off, |src|, avail, sent, spill))
  }

  lemma Finish(sb: Super, s0: Snap, s: Snap, i: nat, off: nat, src: seq<byte>, avail: nat, k: nat)
    requires k <= |src| && k <= avail
    ensures Sending(sb, s0, s, i, off, src, avail, k) ==> i < |s0.ino| && s0.ino[i].size <= FILEBYTES
    ensures k == |src| && Sending(sb, s0, s, i, off, src, avail, k) ==> Delivered(sb, s0, s, i, off, src, avail, k, 0)
  {
    hide WroteFile, Maps, Fitting, Tried, FileOutcome;
    if k == |src| && Sending(sb, s0, s, i, off, src, avail, k) && off <= s0.ino[i].size {
      AllSent(sb, s0, s, i, off, src, avail);
    }
  }

  lemma AllSent(sb: Super, s0: Snap, s: Snap, i: nat, off: nat, src: seq<byte>, avail: nat)
    requires WroteFile(sb, s0, s, i, off, src[..|src|], |src|) && |src| <= avail
    requires Maps(sb, s0, s, i, off, Tried(Fitting(off, |src|), avail))
    ensures FileOutcome(sb, s0, s, i, off, |src|, avail, |src|, 0)
  {
    WroteSize(sb, s0, s, i, off, src[..|src|], |src|);
    hide Maps, HasRoom, FilesOk, WroteFile;
    RoomBelow(sb, s0, s, i, off, |src|);
  }

  /** Everything is written exactly when nothing is in the way. */
  lemma OutcomeRet(sb: Super, s: Snap, s': Snap, i: nat, off: nat, n: nat, avail: nat, sent: nat, spill: nat)
    ensures FileOutcome(sb, s, s', i, off, n, avail, sent, spill) && off <= FILEBYTES ==>
              (sent == n <==> n == 0 || (off + n <= FILEBYTES && avail >= n && HasRoom(sb, s, i, off, n)))
  {
    hide HasRoom, Full;
    if off <= FILEBYTES && off + n > FILEBYTES {
      assert Fitting(off, n) < n;
    }
  }

  /** The number of transactions begun when k of n bytes are written. */
  ghost predicate Counts(n: nat, k: nat, c: nat) {
    c == (k + MAXCHUNK - 1) / MAXCHUNK && (k == n || c * MAXCHUNK == k)
  }

  lemma PartIs(src: seq<byte>, k: nat, n1: nat, avail: nat)
    requires k < |src| && n1 == (if |src| - k > MAXCHUNK then MAXCHUNK else |src| - k) && k <= avail
    ensures src[k..k + n1] == Part(src, k) && |Part(src, k)| == n1 && Left(avail, k) == avail - k
  {
  }

  lemma CountNext(n: nat, k: nat, c: nat, n1: nat)
    requires k < n && Counts(n, k, c) && n1 == if n - k > MAXCHUNK then MAXCHUNK else n - k
    ensures c * MAXCHUNK == k && k % MAXCHUNK == 0 && Counts(n, k + n1, c + 1) && 0 < n1 <= MAXCHUNK
  {
  }

  lemma CountEnd(n: nat, k: nat, c: nat, r: int)
    requires k < n && c > 0 && (c - 1) * MAXCHUNK == k && -1 <= r < MAXCHUNK
    ensures c == (k + if r > 0 then r else 0) / MAXCHUNK + 1
  {
  }

  lemma CountAll(n: nat, k: nat, c: nat)
    ensures k == n && Counts(n, k, c) ==> c == (n + MAXCHUNK - 1) / MAXCHUNK
  {
  }

  lemma DeliveredOnly(sb: Super, s0: Snap, s: Snap, i: nat, off: nat, src: seq<byte>, avail: nat, sent: nat, spill: nat)
    requires Delivered(sb, s0, s, i, off, src, avail, sent, spill) && s0.ino[i].size <= FILEBYTES
    ensures sent + spill <= |src|
    ensures off > s0.ino[i].size ==> sent == 0 && spill == 0 && s.(logged := {}) == s0.(logged := {})
    ensures off <= s0.ino[i].size ==>
              && WroteFile(sb, s0, s, i, off, src[..sent + spill], sent)
              && FileOutcome(sb, s0, s, i, off, |src|, avail, sent, spill)
    ensures sent == |src| <==>
            src == [] || (off <= s0.ino[i].size && off + |src| <= FILEBYTES && avail >= |src| &&
                          HasRoom(sb, s0, i, off, |src|))
  {
    hide WroteFile, FileOutcome, HasRoom;
    OutcomeRet(sb, s0, s, i, off, |src|, avail, sent, spill);
  }
}
