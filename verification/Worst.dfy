/** Calls of writei that log as much as any call can, and one that leaves a byte behind unlogged,
    on a file system with one free block in each map block. */
module WorstCase {
  import opened Prelude
  import opened Blocks
  import opened FsSpec
  import opened WriteSpec
  import opened FileSystem

  // File 0 has its twelve direct blocks and no indirect block. Every other data block but the last
  // of each map block is the first block of a file of its own.

  const NMETA: nat := 8000
  const MAPS: nat := 7000

  function Layout(m: nat): Super
    requires m >= 1
  {
    Super(m * BPB, m * BPB - 8011, 2, MAPS, NMETA)
  }

  predicate FreeBit(b: nat) {
    b % BPB == BPB - 1
  }

  /** All bits set but the last. */
  function MapBlock(): (r: Block)
    ensures forall i: nat | i < BPB :: GetBit(r, i) <==> i != BPB - 1
  {
    var r: Block := seq(1024, (j: nat) => if j == 1023 then 127 else 255);
    assert forall i: nat | i < BPB :: GetBit(r, i) <==> i != BPB - 1 by {
      forall i: nat | i < BPB ensures GetBit(r, i) <==> i != BPB - 1 {
        Ones(i % 8);
        assert r[i / 8] == if i / 8 == 1023 then 127 else 255;
      }
    }
    r
  }

  lemma Ones(k: nat)
    requires k < 8
    ensures Bit(255, k) && (Bit(127, k) <==> k < 7)
  {
    assert Bit(1, 0) && Bit(3, 1) && Bit(7, 2) && Bit(15, 3) && Bit(31, 4) && Bit(63, 5) && Bit(127, 6) && Bit(255, 7);
    assert Bit(1, 0) && Bit(3, 0) && Bit(7, 0) && Bit(15, 0) && Bit(31, 0) && Bit(63, 0) && Bit(127, 0) && Bit(255, 0);
    BitsBelow(k, 255, 8);
    BitsBelow(k, 127, 7);
  }

  lemma {:induction false} BitsBelow(k: nat, x: nat, n: nat)
    requires x == Mask(n) - 1
    ensures Bit(x, k) <==> k < n
    decreases k
  {
    if n > 0 {
      assert x % 2 == 1 && x / 2 == Mask(n - 1) - 1;
      if k > 0 {
        BitsBelow(k - 1, x / 2, n - 1);
      }
    } else if k > 0 {
      BitsBelow(k - 1, 0, 0);
    }
  }

  function BlockOf(b: nat): Block {
    if MAPS <= b < MAPS + 5 then MapBlock() else Zero()
  }

  predicate Below(b: nat, n: nat) {
    b < n
  }

  function DiskOf(m: nat): Disk {
    map b: nat | b < m * BPB && Below(b, m * BPB) :: BlockOf(b)
  }

  function AddrOf(j: nat, k: nat): nat {
    if j == 0 then (if k < NDIRECT then NMETA + k else 0) else if k == 0 && !FreeBit(8011 + j) then 8011 + j else 0
  }

  function NodeOf(j: nat): Inode {
    Inode(2, 1, if j == 0 then NDIRECT * BSIZE else 0, seq(NDIRECT + 1, k requires 0 <= k => AddrOf(j, k)))
  }

  function NodesOf(m: nat): seq<Inode>
    requires m >= 1
  {
    seq(m * BPB - 8011, j requires 0 <= j => NodeOf(j))
  }

  predicate Used(b: nat) {
    NMETA <= b && !FreeBit(b)
  }

  function OwnOf(m: nat): map<nat, Slot> {
    map b: nat | b < m * BPB && Used(b) :: if b < 8012 then Slot(0, b - NMETA) else Slot(b - 8011, 0)
  }

  ghost function Start(m: nat): Snap
    requires m >= 1
  {
    Snap(DiskOf(m), NodesOf(m), OwnOf(m), {})
  }

  lemma StartRef(m: nat, j: nat, k: nat)
    requires 4 <= m <= 5 && j < m * BPB - 8011 && k < NSLOTS
    ensures Wf(Layout(m), DiskOf(m), NodesOf(m))
    ensures Ref(Layout(m), DiskOf(m), NodesOf(m), Slot(j, k)) == AddrOf(j, k) == At(Layout(m), Start(m), j, k)
  {
  }

  lemma StartBits(m: nat, b: nat)
    requires 4 <= m <= 5 && b < m * BPB
    ensures BitSet(Layout(m), DiskOf(m), b) <==> !FreeBit(b)
  {
    hide MapBlock, GetBit;
    assert MAPS <= Layout(m).BBlock(b) < MAPS + 5;
    assert BlockOf(Layout(m).BBlock(b)) == MapBlock();
  }

  lemma StartOwned(m: nat)
    requires 4 <= m <= 5
    ensures Owned(Layout(m), DiskOf(m), NodesOf(m), OwnOf(m), {}) && FilesOk(Layout(m), DiskOf(m), NodesOf(m))
  {
    var sb, blk, ino, own := Layout(m), DiskOf(m), NodesOf(m), OwnOf(m);
    StartRef(m, 0, 0);
    StartFiles(m);
    hide Ref, BitSet, BlockOf, DiskOf, NodesOf, FilesOk;
    assert Owners(sb, blk, ino, own) by {
      forall b | b in own ensures NMETA <= b < m * BPB && IsSlot(sb, own[b]) && Ref(sb, blk, ino, own[b]) == b {
        StartRef(m, own[b].i, own[b].k);
      }
      forall s: Slot | IsSlot(sb, s) && Ref(sb, blk, ino, s) != 0
        ensures Ref(sb, blk, ino, s) in own && own[Ref(sb, blk, ino, s)] == s
      {
        StartRef(m, s.i, s.k);
      }
    }
    forall b: nat | b < sb.size ensures BitSet(sb, blk, b) <==> b < sb.nmeta || b in own {
      StartBits(m, b);
    }
  }

  lemma StartFiles(m: nat)
    requires 4 <= m <= 5
    ensures FilesOk(Layout(m), DiskOf(m), NodesOf(m))
  {
    var sb, blk, ino := Layout(m), DiskOf(m), NodesOf(m);
    StartRef(m, 0, 0);
    StartSize(m, 0);
    hide Ref, DiskOf, NodesOf, Wf;
    forall i: nat | i < |ino| ensures AllocBelow(sb, blk, ino, i) {
      StartSize(m, i);
      forall n: nat | n * BSIZE < ino[i].size ensures n < MAXFILE && Ref(sb, blk, ino, FileSlot(i, n)) != 0 {
        StartRef(m, i, n);
      }
    }
  }

  lemma StartSize(m: nat, i: nat)
    requires 4 <= m <= 5 && i < m * BPB - 8011
    ensures |NodesOf(m)| == m * BPB - 8011 && NodesOf(m)[i].size == if i == 0 then NDIRECT * BSIZE else 0
  {
  }

  /** The free blocks, and their map blocks. */
  ghost function Spare(m: nat): set<nat> {
    {8191, 16383, 24575, 32767} + if m == 5 then {40959} else {}
  }

  ghost function SpareMaps(m: nat): set<nat> {
    {7000, 7001, 7002, 7003} + if m == 5 then {7004} else {}
  }

  lemma StartFree(m: nat)
    requires 4 <= m <= 5
    ensures FreeBlocks(Layout(m), Start(m)) == Spare(m) && |Spare(m)| == m
  {
    hide BitSet, DiskOf, NodesOf, OwnOf, Spare, FreeBit;
    forall b: nat ensures b in FreeBlocks(Layout(m), Start(m)) <==> b in Spare(m) {
      LastBits(m, b);
      if b < m * BPB {
        StartBits(m, b);
      }
    }
    SpareCard(m);
  }

  lemma LastBits(m: nat, b: nat)
    requires 4 <= m <= 5
    ensures b in Spare(m) <==> b < m * BPB && FreeBit(b)
  {
    if FreeBit(b) && b < m * BPB {
      var q := b / BPB;
      assert b == q * BPB + BPB - 1 && q <= 4;
    }
  }

  lemma SpareCard(m: nat)
    requires 4 <= m <= 5
    ensures |Spare(m)| == |SpareMaps(m)| == m
  {
    var a, b: set<nat> := {8191, 16383, 24575, 32767}, {7000, 7001, 7002, 7003};
    assert |a| == 4 && |b| == 4;
    if m == 5 {
      assert Spare(m) == a + {40959} && SpareMaps(m) == b + {7004};
    }
  }

  lemma MapsOfSpare(m: nat)
    requires 4 <= m <= 5
    ensures forall b | b in Spare(m) :: NMETA <= b && Layout(m).BBlock(b) in SpareMaps(m)
    ensures forall x | x in SpareMaps(m) ::
              MAPS <= x < NMETA && SpareOf(x) in Spare(m) && Layout(m).BBlock(SpareOf(x)) == x
  {
  }

  /** The free block of map block x. */
  function SpareOf(x: nat): nat
    requires x >= MAPS
  {
    (x - MAPS) * BPB + BPB - 1
  }

  /** With every free block taken, what was logged for filling slots. */
  lemma AllTaken(m: nat, s': Snap, off: nat, n: nat, b: nat)
    requires 4 <= m <= 5 && Maps(Layout(m), Start(m), s', 0, off, n)
    requires FreeBlocks(Layout(m), s') == {} && b in Spare(m)
    ensures exists k: nat :: k in News(Layout(m), Start(m), s', 0) && At(Layout(m), s', 0, k) == b
  {
    hide At, News, Maps, FreeBlocks, Taken, Spare, DiskOf, NodesOf, OwnOf;
    StartFree(m);
    FreeOrTaken(Layout(m), Start(m), s', 0, off, n, b);
    InTaken(Layout(m), Start(m), s', 0, NSLOTS, b);
    FreeIn(Layout(m), Start(m), b);
    FreeIn(Layout(m), s', b);
  }

  lemma FreeIn(sb: Super, s: Snap, b: nat)
    ensures b in FreeBlocks(sb, s) <==> IsFree(sb, s.blk, b)
  {
  }

  lemma NewIsSpare(m: nat, s': Snap, off: nat, n: nat, k: nat)
    requires 4 <= m <= 5 && Maps(Layout(m), Start(m), s', 0, off, n) && k in News(Layout(m), Start(m), s', 0)
    ensures At(Layout(m), s', 0, k) in Spare(m) && k >= NDIRECT
  {
    hide At, Maps, FreeBlocks, Spare, DiskOf, NodesOf, OwnOf;
    StartFree(m);
    StartRef(m, 0, k);
    TakenWasFree(Layout(m), Start(m), s', 0, off, n, k);
    FreeIn(Layout(m), Start(m), At(Layout(m), s', 0, k));
  }

  /** The blocks that are logged when every free block is taken: those, their map blocks, the inode's
      block and the block of file 0 that the bytes begin in, if it was there. */
  ghost function Logged(m: nat, first: bool): set<nat> {
    Spare(m) + SpareMaps(m) + {2} + if first then {8011} else {}
  }

  lemma LoggedAll(m: nat, s': Snap, off: nat, src: seq<byte>, r: int, spill: nat, first: bool, x: nat)
    requires 4 <= m <= 5 && WriteStep(Layout(m), Start(m), s', 0, off, src, |src|, r, spill)
    requires FreeBlocks(Layout(m), s') == {} && first == (off / BSIZE == 11 && r > 0) && x in Logged(m, first)
    ensures x in s'.logged
  {
    hide At, Maps, FreeBlocks, WriteStep, WroteFile, Outcome, Logged, LoggedFor, DiskOf, NodesOf, OwnOf, Start;
    StepOnly(Layout(m), Start(m), s', 0, off, src, |src|, r, spill);
    StepLogs(m, s', off, src, r, spill, x);
    LoggedCases(m, first, x);
    hide Spare, SpareMaps;
    if x in Spare(m) || x in SpareMaps(m) {
      SpareLogged(m, s', off, |src|, r, x);
    } else if x == 8011 {
      FirstLogged(m, s', off, |src|, r);
    }
  }

  lemma LoggedCases(m: nat, first: bool, x: nat)
    ensures x in Logged(m, first) <==> x in Spare(m) || x in SpareMaps(m) || x == 2 || (first && x == 8011)
  {
    hide Spare, SpareMaps;
  }

  lemma StepLogs(m: nat, s': Snap, off: nat, src: seq<byte>, r: int, spill: nat, x: nat)
    requires 4 <= m <= 5 && WriteStep(Layout(m), Start(m), s', 0, off, src, |src|, r, spill)
    ensures r >= 0 && (x in s'.logged <==> x == 2 || LoggedFor(Layout(m), Start(m), s', 0, off, r, x))
  {
    hide At, Maps, WroteFile, Outcome, LoggedFor, DiskOf, NodesOf, OwnOf;
  }

  lemma SpareLogged(m: nat, s': Snap, off: nat, n: nat, r: nat, x: nat)
    requires 4 <= m <= 5 && Maps(Layout(m), Start(m), s', 0, off, n) && FreeBlocks(Layout(m), s') == {}
    requires x in Spare(m) || x in SpareMaps(m)
    ensures LoggedFor(Layout(m), Start(m), s', 0, off, r, x)
  {
    hide At, News, Maps, FreeBlocks, Spare, SpareMaps, Covers, FillLogs, DiskOf, NodesOf, OwnOf;
    MapsOfSpare(m);
    var b: nat := if x in Spare(m) then x else SpareOf(x);
    AllTaken(m, s', off, n, b);
    var k: nat :| k in News(Layout(m), Start(m), s', 0) && At(Layout(m), s', 0, k) == b;
    NewFills(Layout(m), Start(m), s', 0, k, x);
  }

  lemma FirstLogged(m: nat, s': Snap, off: nat, n: nat, r: nat)
    requires 4 <= m <= 5 && Maps(Layout(m), Start(m), s', 0, off, n) && off / BSIZE == 11 && r > 0
    ensures LoggedFor(Layout(m), Start(m), s', 0, off, r, 8011)
  {
    hide At, Maps, Covers, FillLogs, DiskOf, NodesOf, OwnOf;
    FirstKept(m, s', off, n);
    FirstCovered(off, r);
  }

  lemma FirstCovered(off: nat, r: nat)
    requires off / BSIZE == 11 && r > 0
    ensures Covers(off, r, 11) && SlotOf(11) == 11
  {
  }

  lemma FirstKept(m: nat, s': Snap, off: nat, n: nat)
    requires 4 <= m <= 5 && Maps(Layout(m), Start(m), s', 0, off, n)
    ensures At(Layout(m), s', 0, 11) == 8011
  {
    hide At, DiskOf, NodesOf, OwnOf, Wants, Owned;
    StartRef(m, 0, 11);
    assert At(Layout(m), s', 0, 11) == At(Layout(m), Start(m), 0, 11) || MayFill(Layout(m), Start(m), 0, off, n, 0, 11);
  }

  lemma NewFills(sb: Super, s: Snap, s': Snap, i: nat, k: nat, x: nat)
    requires k in News(sb, s, s', i) && (x == At(sb, s', i, k) || x == sb.BBlock(At(sb, s', i, k)))
    ensures FillLogs(sb, s, s', i, k, x)
  {
    hide At;
  }

  lemma LoggedOnly(m: nat, s': Snap, off: nat, src: seq<byte>, r: int, spill: nat, first: bool, x: nat)
    requires 4 <= m <= 5 && WriteStep(Layout(m), Start(m), s', 0, off, src, |src|, r, spill)
    requires off / BSIZE >= 11 && first == (off / BSIZE == 11 && r > 0) && x in s'.logged
    ensures x in Logged(m, first)
  {
    hide At, News, Maps, WriteStep, WroteFile, Outcome, Logged, Covers, FillLogs, DiskOf, NodesOf, OwnOf, Start;
    var sb, s := Layout(m), Start(m);
    StepOnly(sb, s, s', 0, off, src, |src|, r, spill);
    StepLogs(m, s', off, src, r, spill, x);
    LoggedCases(m, first, x);
    hide Spare, SpareMaps;
    if x != 2 {
      if k: nat :| FillLogs(sb, s, s', 0, k, x) {
        FillIsSpare(m, s', off, |src|, k, x);
      } else {
        var h: nat :| Covers(off, r, h) && x == At(sb, s', 0, SlotOf(h));
        WrittenIs(m, s', off, src[..r + spill], r, h, |src|);
      }
    }
  }

  lemma FillIsSpare(m: nat, s': Snap, off: nat, n: nat, k: nat, x: nat)
    requires 4 <= m <= 5 && Maps(Layout(m), Start(m), s', 0, off, n) && FillLogs(Layout(m), Start(m), s', 0, k, x)
    ensures x in Spare(m) || x in SpareMaps(m)
  {
    var sb, s := Layout(m), Start(m);
    MapsOfSpare(m);
    MapsOwned(sb, s, s', 0, off, n);
    IndirectAt(sb, s', 0);
    StartRef(m, 0, NDIRECT);
    hide At, Maps, FreeBlocks, Spare, SpareMaps, DiskOf, NodesOf, OwnOf, Owned;
    NewIsSpare(m, s', off, n, k);
    if k > NDIRECT {
      NewIsSpare(m, s', off, n, NDIRECT);
    }
  }

  lemma WrittenIs(m: nat, s': Snap, off: nat, bytes: seq<byte>, r: nat, h: nat, n: nat)
    requires 4 <= m <= 5 && WroteFile(Layout(m), Start(m), s', 0, off, bytes, r)
    requires Maps(Layout(m), Start(m), s', 0, off, n)
    requires off / BSIZE >= 11 && Covers(off, r, h)
    ensures if h == 11 then At(Layout(m), s', 0, SlotOf(h)) == 8011 && off / BSIZE == 11 && r > 0 else At(Layout(m), s', 0, SlotOf(h)) in Spare(m)
  {
    var sb, s := Layout(m), Start(m);
    WroteSize(sb, s, s', 0, off, bytes, r);
    hide At, Maps, FreeBlocks, Spare, WroteFile, DiskOf, NodesOf, OwnOf;
    if h == 11 {
      FirstKept(m, s', off, n);
    } else {
      assert h * BSIZE < off + r by {
        assert h <= (off + r - 1) / BSIZE;
      }
      assert AllocBelow(sb, s'.blk, s'.ino, 0);
      Exists(sb, s', 0, h);
      StartRef(m, 0, SlotOf(h));
      assert SlotOf(h) in News(sb, s, s', 0);
      NewIsSpare(m, s', off, n, SlotOf(h));
    }
  }

  /** All free blocks are taken when the last byte lies in block 8 + m, or beyond. */
  lemma TakesAll(m: nat, s': Snap, off: nat, src: seq<byte>, r: int, spill: nat)
    requires 4 <= m <= 5 && WriteStep(Layout(m), Start(m), s', 0, off, src, |src|, r, spill)
    requires off <= NDIRECT * BSIZE && src != [] && (off + |src| - 1) / BSIZE >= 10 + m
    ensures FreeBlocks(Layout(m), s') == {}
  {
    var sb, s := Layout(m), Start(m);
    StepOnly(sb, s, s', 0, off, src, |src|, r, spill);
    if HasRoom(sb, s, 0, off, |src|) {
      WroteSize(sb, s, s', 0, off, src[..r + spill], r);
      hide At, Maps, WroteFile, WriteStep, HasRoom, DiskOf, NodesOf, OwnOf, FreeBlocks, FilesOk;
      assert r == |src|;
      TakesMany(m, s', off, |src|);
    } else {
      FullNone(sb, s');
    }
  }

  lemma TakesMany(m: nat, s': Snap, off: nat, n: nat)
    requires 4 <= m <= 5 && Maps(Layout(m), Start(m), s', 0, off, n) && FilesOk(Layout(m), s'.blk, s'.ino)
    requires |s'.ino| > 0
    requires n > 0 && (off + n - 1) / BSIZE >= 10 + m && off + n <= s'.ino[0].size
    ensures FreeBlocks(Layout(m), s') == {}
  {
    var sb, s := Layout(m), Start(m);
    hide At, Maps, DiskOf, NodesOf, OwnOf, Spare, FilesOk, FreeBlocks, News, Slots;
    SlotsFilled(m, s', off, n);
    SlotsCard(m);
    SubsetCard(Slots(m), News(sb, s, s', 0));
    FreeCount(sb, s, s', 0, off, n);
    StartFree(m);
  }

  /** The slots of the indirect block and of the first blocks it names. */
  ghost function Slots(m: nat): set<nat> {
    {12, 13, 14, 15} + if m == 5 then {16} else {}
  }

  lemma SlotsCard(m: nat)
    requires 4 <= m <= 5
    ensures |Slots(m)| == m
  {
    var four: set<nat> := {12, 13, 14, 15};
    assert |four| == 4;
    assert 16 !in four;
    assert Slots(m) == if m == 5 then four + {16} else four;
  }

  lemma SlotsFilled(m: nat, s': Snap, off: nat, n: nat)
    requires 4 <= m <= 5 && FilesOk(Layout(m), s'.blk, s'.ino) && |s'.ino| > 0
    requires n > 0 && (off + n - 1) / BSIZE >= 10 + m && off + n <= s'.ino[0].size
    ensures Slots(m) <= News(Layout(m), Start(m), s', 0)
  {
    hide At, DiskOf, NodesOf, OwnOf, FilesOk;
    forall k | k in Slots(m) ensures k in News(Layout(m), Start(m), s', 0) {
      StartRef(m, 0, k);
      BlockThere(Layout(m), s', 0, if k == 12 then 12 else k - 1);
    }
  }

  lemma BlockThere(sb: Super, s: Snap, i: nat, b: nat)
    requires FilesOk(sb, s.blk, s.ino) && i < |s.ino| && b * BSIZE < s.ino[i].size
    ensures b < MAXFILE && At(sb, s, i, SlotOf(b)) != 0 && (b >= NDIRECT ==> At(sb, s, i, NDIRECT) != 0)
  {
    hide At;
    assert AllocBelow(sb, s.blk, s.ino, i);
    hide AllocBelow;
    Exists(sb, s, i, b);
  }

  lemma LoggedExactly(m: nat, s': Snap, off: nat, src: seq<byte>, r: int, spill: nat, first: bool)
    requires 4 <= m <= 5 && WriteStep(Layout(m), Start(m), s', 0, off, src, |src|, r, spill)
    requires 11 * BSIZE <= off <= NDIRECT * BSIZE && src != [] && (off + |src| - 1) / BSIZE >= 10 + m
    requires first == (off / BSIZE == 11 && r > 0)
    ensures s'.logged == Logged(m, first)
  {
    hide WriteStep, Logged, FreeBlocks, DiskOf, NodesOf, OwnOf, Start;
    TakesAll(m, s', off, src, r, spill);
    assert off / BSIZE >= 11;
    forall x | x in s'.logged ensures x in Logged(m, first) {
      LoggedOnly(m, s', off, src, r, spill, first, x);
    }
    forall x | x in Logged(m, first) ensures x in s'.logged {
      LoggedAll(m, s', off, src, r, spill, first, x);
    }
  }

  lemma TenCard()
    ensures |Logged(4, true)| == 10
  {
    assert 8011 !in Spare(4) && 8011 !in SpareMaps(4);
    hide Spare, SpareMaps;
    BothCard(4);
    var a, b := Spare(4) + SpareMaps(4), Spare(4) + SpareMaps(4) + {2};
    assert 2 !in a && 8011 !in b;
    assert Logged(4, true) == b + {8011};
  }

  lemma ElevenCard()
    ensures |Logged(5, false)| == 11
  {
    hide Spare, SpareMaps;
    BothCard(5);
    var a := Spare(5) + SpareMaps(5);
    assert 2 !in a;
    assert Logged(5, false) == a + {2};
  }

  lemma BothCard(m: nat)
    requires 4 <= m <= 5
    ensures |Spare(m) + SpareMaps(m)| == 2 * m && forall x | x in Spare(m) + SpareMaps(m) :: x >= MAPS
  {
    MapsOfSpare(m);
    SpareCard(m);
    hide Spare, SpareMaps;
    assert Spare(m) !! SpareMaps(m);
  }

  // ---- the calls ----

  method StartFs(m: nat) returns (f: Fs)
    requires 4 <= m <= 5
    ensures fresh(f) && f.sb == Layout(m) && f.Valid({}) && FilesOk(f.sb, f.blk, f.ino) && f.Now() == Start(m)
  {
    StartOwned(m);
    f := new Fs(Layout(m), DiskOf(m), NodesOf(m), OwnOf(m));
  }

  /** A write of three blocks' worth, all of it done, that logs ten blocks: four of data, four of the
      map, the indirect block and the inode's. */
  method TenLogged() returns (f: Fs, r: int)
    ensures fresh(f) && r == 3 * BSIZE && |f.logged| == MAXOPBLOCKS
  {
    hide WriteStep, Unspilled, Logged, DiskOf, NodesOf, OwnOf, Owned, FilesOk, Start;
    f := StartFs(4);
    StartSize(4, 0);
    StartIno(4);
    var src: seq<byte> := seq(3072, _ => 1);
    ghost var spill;
    r, spill := f.WriteI(0, 11 * BSIZE + 1, src, |src|);
    TenRoom(f.Now(), src, r, spill);
    LoggedExactly(4, f.Now(), 11 * BSIZE + 1, src, r, spill, true);
    TenCard();
  }

  lemma StartIno(m: nat)
    requires m >= 1
    ensures Start(m).ino == NodesOf(m)
  {
  }

  lemma TenRoom(s': Snap, src: seq<byte>, r: int, spill: nat)
    requires |src| == 3072 && WriteStep(Layout(4), Start(4), s', 0, 11 * BSIZE + 1, src, |src|, r, spill)
    ensures r == 3 * BSIZE
  {
    StepOnly(Layout(4), Start(4), s', 0, 11 * BSIZE + 1, src, |src|, r, spill);
    hide DiskOf, NodesOf, OwnOf, FreeBlocks, At, WroteFile, Maps, WriteStep, Full, Need, Spare;
    StartFree(4);
    TenNeeded();
  }

  lemma TenNeeded()
    ensures |Need(Layout(4), Start(4), 0, 11 * BSIZE + 1, 3072)| <= 4
  {
    hide DiskOf, NodesOf, OwnOf, At;
    var need, four: set<nat> := Need(Layout(4), Start(4), 0, 11 * BSIZE + 1, 3072), {12, 13, 14, 15};
    forall k: nat | k in need ensures k in four {
      StartRef(4, 0, k);
    }
    hide Need;
    SubsetCard(need, four);
    assert |four| == 4;
  }

  /** Any write longer than three blocks can log eleven blocks. */
  method ElevenLogged(n: nat) returns (f: Fs, r: int)
    requires 3 * BSIZE < n <= FILEBYTES - NDIRECT * BSIZE
    ensures fresh(f) && |f.logged| == MAXOPBLOCKS + 1
  {
    hide WriteStep, Unspilled, Logged, DiskOf, NodesOf, OwnOf, Owned, FilesOk, Start;
    f := StartFs(5);
    StartSize(5, 0);
    StartIno(5);
    var src: seq<byte> := seq(n, _ => 1);
    ghost var spill;
    r, spill := f.WriteI(0, NDIRECT * BSIZE, src, |src|);
    LoggedExactly(5, f.Now(), NDIRECT * BSIZE, src, r, spill, false);
    ElevenCard();
  }

  /** Two bytes are to be written over zeros at the start of a file, of which copyin reaches one:
      nothing counts as written and no data block is logged, yet the file has changed. */
  method SpillSeen() returns (f: Fs, r: int)
    ensures fresh(f) && r == 0 && f.Valid({}) && f.logged == {f.sb.IBlock(0)}
    ensures |f.ino| > 0 && f.ino[0].size == NDIRECT * BSIZE && f.Bytes(0)[0] == 1
  {
    hide WriteStep, Unspilled, DiskOf, NodesOf, OwnOf, FilesOk, Start, Owners, BitsAre, Contents, Splice;
    f := StartFs(4);
    StartSize(4, 0);
    StartIno(4);
    ghost var spill;
    r, spill := f.WriteI(0, 0, [1, 1], 1);
    OneByteLeft(f.Now(), r, spill);
  }

  lemma OneByteLeft(s': Snap, r: int, spill: nat)
    requires WriteStep(Layout(4), Start(4), s', 0, 0, [1, 1], 1, r, spill)
    ensures r == 0 && s'.logged == {2} && Wf(Layout(4), s'.blk, s'.ino) && |s'.ino| > 0
    ensures s'.ino[0].size == NDIRECT * BSIZE && Contents(Layout(4), s'.blk, s'.ino, 0)[0] == 1
  {
    hide LogsAll, SpillBlock;
    var sb, s := Layout(4), Start(4);
    StepOnly(sb, s, s', 0, 0, [1, 1], 1, r, spill);
    StartSize(4, 0);
    assert Need(sb, s, 0, 0, 2) == {} by {
      hide At, DiskOf, NodesOf, OwnOf;
      forall k: nat | k < NSLOTS && Wants(0, 2, k) ensures At(sb, s, 0, k) != 0 {
        StartRef(4, 0, k);
      }
    }
    assert r == 0 && spill == 1 by {
      hide At, DiskOf, NodesOf, OwnOf, FreeBlocks, WroteFile, Maps;
    }
    assert s'.logged == {2} by {
      hide At, DiskOf, NodesOf, OwnOf, FreeBlocks, WroteFile, Owned;
      NoCover(0);
      hide Covers;
      forall k: nat, x: nat ensures !FillLogs(sb, s, s', 0, k, x) {
        assert At(sb, s', 0, k) == At(sb, s, 0, k) || MayFill(sb, s, 0, 0, 2, 0, k);
        if k < NSLOTS && Wants(0, 2, k) {
          assert k !in Need(sb, s, 0, 0, 2);
        }
      }
    }
  }
}
