/** What one call of writei allocates and logs, on values: which slots of the file it fills, which
    blocks it logs, how many those can be, and when the disk is too full for it. */
module WriteSpec {
  import opened Prelude
  import opened Blocks
  import opened FsSpec

  /** The state that a file operation changes, as a value. */
  datatype Snap = Snap(blk: Disk, ino: seq<Inode>, own: map<nat, Slot>, logged: set<nat>)

  /** The block that slot k of file i names, 0 for none. */
  ghost function At(sb: Super, s: Snap, i: nat, k: nat): nat {
    if Wf(sb, s.blk, s.ino) && i < |s.ino| && k < NSLOTS then Ref(sb, s.blk, s.ino, Slot(i, k)) else 0
  }

  /** The slot of the nth block of a file. */
  function SlotOf(n: nat): nat {
    if n < NDIRECT then n else n + 1
  }

  /** Bytes off .. off + n - 1 touch block m. */
  predicate Covers(off: nat, n: nat, m: nat) {
    n > 0 && off / BSIZE <= m <= (off + n - 1) / BSIZE
  }

  /** Mapping the bytes off .. off + n - 1 needs slot k: that of a block touched, or the one of the
      indirect block. */
  predicate Wants(off: nat, n: nat, k: nat) {
    if k < NDIRECT then Covers(off, n, k)
    else if k == NDIRECT then n > 0 && (off + n - 1) / BSIZE >= NDIRECT
    else Covers(off, n, k - 1)
  }

  /** Slots of file i that were filled from one state to the other. */
  ghost function News(sb: Super, s: Snap, s': Snap, i: nat): set<nat> {
    set k: nat | k < NSLOTS && At(sb, s, i, k) == 0 && At(sb, s', i, k) != 0
  }

  /** Slots that mapping the bytes has yet to fill. */
  ghost function Need(sb: Super, s: Snap, i: nat, off: nat, n: nat): set<nat> {
    set k: nat | k < NSLOTS && At(sb, s, i, k) == 0 && Wants(off, n, k)
  }

  ghost predicate IsFree(sb: Super, blk: Disk, b: nat) {
    b < sb.size && !BitSet(sb, blk, b)
  }

  ghost function FreeBlocks(sb: Super, s: Snap): set<nat> {
    set b: nat | b < sb.size && IsFree(sb, s.blk, b)
  }

  /** Some slots that the bytes want, empty before, may be filled; every other slot is the same. */
  ghost predicate Maps(sb: Super, s: Snap, s': Snap, i: nat, off: nat, n: nat) {
    && Owned(sb, s.blk, s.ino, s.own, {}) && Owned(sb, s'.blk, s'.ino, s'.own, {}) && i < |s.ino|
    && forall j: nat, k: nat {:trigger At(sb, s', j, k)} :: At(sb, s', j, k) == At(sb, s, j, k) || MayFill(sb, s, i, off, n, j, k)
  }

  ghost predicate MayFill(sb: Super, s: Snap, i: nat, off: nat, n: nat, j: nat, k: nat) {
    j == i && Wants(off, n, k) && At(sb, s, j, k) == 0
  }

  /** Block x is logged because slot k is filled: the new block, its map block and, for an entry of
      the indirect block, that block. */
  ghost predicate FillLogs(sb: Super, s: Snap, s': Snap, i: nat, k: nat, x: nat) {
    && k < NSLOTS && At(sb, s, i, k) == 0 && At(sb, s', i, k) != 0
    && (x == At(sb, s', i, k) || x == sb.BBlock(At(sb, s', i, k)) || (k > NDIRECT && x == At(sb, s', i, NDIRECT)))
  }

  /** Exactly the blocks that filling slots takes and the blocks of the first tot bytes are logged. */
  ghost predicate LoggedIs(sb: Super, s: Snap, s': Snap, i: nat, off: nat, tot: nat) {
    forall x: nat :: x in s'.logged <==> x in s.logged || LoggedFor(sb, s, s', i, off, tot, x)
  }

  ghost predicate LoggedFor(sb: Super, s: Snap, s': Snap, i: nat, off: nat, tot: nat, x: nat) {
    || (exists k: nat :: FillLogs(sb, s, s', i, k, x))
    || (exists m: nat :: Covers(off, tot, m) && x == At(sb, s', i, SlotOf(m)))
  }

  // ---- one slot ----

  /** Slot k of file i, if it was empty, may be filled, with what that logs; nothing else changed. */
  ghost predicate OneFill(sb: Super, s: Snap, s': Snap, i: nat, k: nat) {
    && Owned(sb, s.blk, s.ino, s.own, {}) && Owned(sb, s'.blk, s'.ino, s'.own, {}) && i < |s.ino| && k < NSLOTS
    && (forall t: Slot | IsSlot(sb, t) && (t != Slot(i, k) || Ref(sb, s.blk, s.ino, t) != 0) ::
          Ref(sb, s'.blk, s'.ino, t) == Ref(sb, s.blk, s.ino, t))
    && var a := Ref(sb, s'.blk, s'.ino, Slot(i, k));
       s'.logged == s.logged + (if Ref(sb, s.blk, s.ino, Slot(i, k)) != 0 || a == 0 then {}
                                else {a, sb.BBlock(a)} + if k > NDIRECT then {s'.ino[i].addrs[NDIRECT]} else {})
  }

  lemma OneFillAt(sb: Super, s: Snap, s': Snap, i: nat, k: nat, j: nat, h: nat)
    requires OneFill(sb, s, s', i, k) && (j != i || h != k)
    ensures At(sb, s', j, h) == At(sb, s, j, h)
  {
    hide Ref, Owners, BitsAre;
    if j < |s.ino| && h < NSLOTS {
      assert IsSlot(sb, Slot(j, h));
    }
  }

  lemma OneFillMaps(sb: Super, s: Snap, s': Snap, i: nat, k: nat, off: nat, n: nat)
    requires OneFill(sb, s, s', i, k) && Wants(off, n, k)
    ensures Maps(sb, s, s', i, off, n)
  {
    hide Ref, Owners, BitsAre, Wants;
    forall j: nat, h: nat ensures At(sb, s', j, h) == At(sb, s, j, h) || MayFill(sb, s, i, off, n, j, h) {
      if j != i || h != k {
        hide OneFill, At;
        OneFillAt(sb, s, s', i, k, j, h);
      } else {
        assert IsSlot(sb, Slot(i, k));
      }
    }
  }

  lemma OneFillLogged(sb: Super, s: Snap, s': Snap, i: nat, k: nat, off: nat)
    requires OneFill(sb, s, s', i, k)
    ensures LoggedIs(sb, s, s', i, off, 0)
  {
    hide Ref, Owners, BitsAre, Covers;
    forall x: nat ensures x in s'.logged <==> x in s.logged || LoggedFor(sb, s, s', i, off, 0, x) {
      NoCover(off);
      IndirectAt(sb, s', i);
      if FillLogs(sb, s, s', i, k, x) {
        assert x in s'.logged;
      }
      forall h: nat | FillLogs(sb, s, s', i, h, x) ensures h == k {
        if h != k {
          OneFillAt(sb, s, s', i, k, i, h);
        }
      }
    }
  }

  lemma NoCover(off: nat)
    ensures forall m: nat :: !Covers(off, 0, m)
  {
  }

  lemma IndirectAt(sb: Super, s: Snap, i: nat)
    requires Wf(sb, s.blk, s.ino) && i < |s.ino|
    ensures At(sb, s, i, NDIRECT) == s.ino[i].addrs[NDIRECT]
    ensures forall k: nat :: k > NDIRECT && At(sb, s, i, k) != 0 ==> At(sb, s, i, NDIRECT) != 0
  {
  }

  // ---- one step after another ----

  lemma MapsTrans(sb: Super, s0: Snap, s1: Snap, s2: Snap, i: nat, off: nat, n: nat)
    requires Maps(sb, s0, s1, i, off, n) && Maps(sb, s1, s2, i, off, n)
    ensures Maps(sb, s0, s2, i, off, n)
  {
    hide At, Wants, Owned;
    forall j: nat, k: nat ensures At(sb, s2, j, k) == At(sb, s0, j, k) || MayFill(sb, s0, i, off, n, j, k) {
      assert At(sb, s1, j, k) == At(sb, s0, j, k) || MayFill(sb, s0, i, off, n, j, k);
    }
  }

  lemma MapsWider(sb: Super, s: Snap, s': Snap, i: nat, off: nat, n: nat, off': nat, n': nat)
    requires Maps(sb, s, s', i, off, n) && forall k: nat | Wants(off, n, k) :: Wants(off', n', k)
    ensures Maps(sb, s, s', i, off', n')
  {
    hide At, Wants, Owned;
    forall j: nat, k: nat ensures At(sb, s', j, k) == At(sb, s, j, k) || MayFill(sb, s, i, off', n', j, k) {
      assert At(sb, s', j, k) == At(sb, s, j, k) || MayFill(sb, s, i, off, n, j, k);
    }
  }

  lemma WantsWider(off: nat, n: nat, off': nat, n': nat)
    requires off' <= off && off + n <= off' + n'
    ensures forall k: nat | Wants(off, n, k) :: Wants(off', n', k)
  {
    forall k: nat | Wants(off, n, k) ensures Wants(off', n', k) {
      assert off' / BSIZE <= off / BSIZE && (off + n - 1) / BSIZE <= (off' + n' - 1) / BSIZE;
    }
  }

  lemma MapsSame(sb: Super, s: Snap, i: nat, off: nat, n: nat)
    requires Owned(sb, s.blk, s.ino, s.own, {}) && i < |s.ino|
    ensures Maps(sb, s, s, i, off, n) && LoggedIs(sb, s, s, i, off, 0)
  {
    hide At, Owned, Wants;
    NoCover(off);
  }

  lemma FillLogsThen(sb: Super, s0: Snap, s1: Snap, s2: Snap, i: nat, off: nat, n: nat, k: nat, x: nat)
    requires Maps(sb, s0, s1, i, off, n) && Maps(sb, s1, s2, i, off, n)
    ensures FillLogs(sb, s0, s2, i, k, x) <==> FillLogs(sb, s0, s1, i, k, x) || FillLogs(sb, s1, s2, i, k, x)
  {
    IndirectAt(sb, s1, i);
    IndirectAt(sb, s2, i);
    hide At, Wants, Owned;
    var a, b := At(sb, s1, i, k), At(sb, s2, i, k);
    assert a == At(sb, s0, i, k) || MayFill(sb, s0, i, off, n, i, k);
    assert b == a || MayFill(sb, s1, i, off, n, i, k);
    assert At(sb, s2, i, NDIRECT) == At(sb, s1, i, NDIRECT) || MayFill(sb, s1, i, off, n, i, NDIRECT);
  }

  lemma CoversJoin(off: nat, a: nat, b: nat, m: nat)
    ensures Covers(off, a + b, m) <==> Covers(off, a, m) || Covers(off + a, b, m)
  {
    if a > 0 && b > 0 {
      assert off / BSIZE <= (off + a - 1) / BSIZE <= (off + a) / BSIZE <= (off + a - 1) / BSIZE + 1;
    }
  }

  /** The blocks of bytes already written still are where they were. */
  lemma LoggedThen(sb: Super, s0: Snap, s1: Snap, s2: Snap, i: nat, off: nat, n: nat, a: nat, b: nat)
    requires Maps(sb, s0, s1, i, off, n) && Maps(sb, s1, s2, i, off, n)
    requires LoggedIs(sb, s0, s1, i, off, a) && LoggedIs(sb, s1, s2, i, off + a, b)
    requires forall m: nat | Covers(off, a, m) :: At(sb, s1, i, SlotOf(m)) != 0
    ensures LoggedIs(sb, s0, s2, i, off, a + b)
  {
    hide At, Wants, Owned, Covers, FillLogs;
    forall x: nat ensures x in s2.logged <==> x in s0.logged || LoggedFor(sb, s0, s2, i, off, a + b, x) {
      LoggedThenAt(sb, s0, s1, s2, i, off, n, a, b, x);
    }
  }

  lemma LoggedThenAt(sb: Super, s0: Snap, s1: Snap, s2: Snap, i: nat, off: nat, n: nat, a: nat, b: nat, x: nat)
    requires Maps(sb, s0, s1, i, off, n) && Maps(sb, s1, s2, i, off, n)
    requires forall m: nat | Covers(off, a, m) :: At(sb, s1, i, SlotOf(m)) != 0
    ensures LoggedFor(sb, s0, s2, i, off, a + b, x) <==>
            LoggedFor(sb, s0, s1, i, off, a, x) || LoggedFor(sb, s1, s2, i, off + a, b, x)
  {
    hide At, Wants, Owned, Covers, FillLogs;
    forall k: nat
      ensures FillLogs(sb, s0, s2, i, k, x) <==> FillLogs(sb, s0, s1, i, k, x) || FillLogs(sb, s1, s2, i, k, x)
    {
      FillLogsThen(sb, s0, s1, s2, i, off, n, k, x);
    }
    forall m: nat ensures Covers(off, a + b, m) <==> Covers(off, a, m) || Covers(off + a, b, m) {
      CoversJoin(off, a, b, m);
    }
    forall m: nat | Covers(off, a, m) ensures At(sb, s2, i, SlotOf(m)) == At(sb, s1, i, SlotOf(m)) {
      var k := SlotOf(m);
      assert At(sb, s2, i, k) == At(sb, s1, i, k) || MayFill(sb, s1, i, off, n, i, k);
    }
  }

  /** The same slots and the same log as another state. */
  lemma LoggedSame(sb: Super, s0: Snap, s: Snap, s': Snap, i: nat, off: nat, n: nat, tot: nat)
    requires Maps(sb, s0, s, i, off, n) && LoggedIs(sb, s0, s, i, off, tot) && s'.logged == s.logged
    requires Owned(sb, s'.blk, s'.ino, s'.own, {}) && forall j: nat, k: nat :: At(sb, s', j, k) == At(sb, s, j, k)
    ensures Maps(sb, s0, s', i, off, n) && LoggedIs(sb, s0, s', i, off, tot)
  {
    hide At, Wants, Owned, Covers;
    forall x: nat ensures LoggedFor(sb, s0, s', i, off, tot, x) <==> LoggedFor(sb, s0, s, i, off, tot, x) {
      forall k: nat ensures FillLogs(sb, s0, s', i, k, x) <==> FillLogs(sb, s0, s, i, k, x) {
      }
    }
  }

  // ---- free blocks ----

  /** Every slot filled takes one free block, and no free block goes elsewhere. */
  lemma FreeCount(sb: Super, s: Snap, s': Snap, i: nat, off: nat, n: nat)
    requires Maps(sb, s, s', i, off, n)
    ensures |FreeBlocks(sb, s)| == |FreeBlocks(sb, s')| + |News(sb, s, s', i)|
  {
    var taken := Taken(sb, s, s', i, NSLOTS);
    TakenCard(sb, s, s', i, off, n, NSLOTS);
    assert NewsTo(sb, s, s', i, NSLOTS) == News(sb, s, s', i);
    forall b: nat ensures b in FreeBlocks(sb, s) <==> b in FreeBlocks(sb, s') || b in taken {
      hide Taken, NewsTo, News;
      FreeOrTaken(sb, s, s', i, off, n, b);
    }
    assert FreeBlocks(sb, s) == FreeBlocks(sb, s') + taken;
    forall b: nat | b in taken ensures b !in FreeBlocks(sb, s') {
      hide Taken, NewsTo, News;
      FreeOrTaken(sb, s, s', i, off, n, b);
    }
  }

  ghost function NewsTo(sb: Super, s: Snap, s': Snap, i: nat, h: nat): set<nat> {
    set k: nat | k < h && k in News(sb, s, s', i)
  }

  /** The blocks that slots below h were filled with. */
  ghost function Taken(sb: Super, s: Snap, s': Snap, i: nat, h: nat): set<nat> {
    if h == 0 then {}
    else Taken(sb, s, s', i, h - 1) + if h - 1 in News(sb, s, s', i) then {At(sb, s', i, h - 1)} else {}
  }

  lemma {:induction false} InTaken(sb: Super, s: Snap, s': Snap, i: nat, h: nat, b: nat)
    ensures b in Taken(sb, s, s', i, h) <==> exists k: nat :: k < h && k in News(sb, s, s', i) && At(sb, s', i, k) == b
    decreases h
  {
    if h > 0 {
      hide News, At;
      InTaken(sb, s, s', i, h - 1, b);
    }
  }

  lemma {:induction false} TakenCard(sb: Super, s: Snap, s': Snap, i: nat, off: nat, n: nat, h: nat)
    requires Maps(sb, s, s', i, off, n) && h <= NSLOTS
    ensures |Taken(sb, s, s', i, h)| == |NewsTo(sb, s, s', i, h)|
    decreases h
  {
    hide Owned, At, News, Maps, NewsTo;
    if h == 0 {
      NoNews(sb, s, s', i);
    } else {
      TakenCard(sb, s, s', i, off, n, h - 1);
      NewsNext(sb, s, s', i, h - 1);
      if h - 1 in News(sb, s, s', i) {
        NotTaken(sb, s, s', i, off, n, h - 1);
      }
    }
  }

  lemma NoNews(sb: Super, s: Snap, s': Snap, i: nat)
    ensures NewsTo(sb, s, s', i, 0) == {}
  {
  }

  lemma NewsNext(sb: Super, s: Snap, s': Snap, i: nat, h: nat)
    ensures h !in NewsTo(sb, s, s', i, h)
    ensures NewsTo(sb, s, s', i, h + 1) == NewsTo(sb, s, s', i, h) + if h in News(sb, s, s', i) then {h} else {}
  {
    hide News, At;
  }

  lemma NotTaken(sb: Super, s: Snap, s': Snap, i: nat, off: nat, n: nat, h: nat)
    requires Maps(sb, s, s', i, off, n) && h in News(sb, s, s', i)
    ensures At(sb, s', i, h) !in Taken(sb, s, s', i, h)
  {
    hide Owned, At, News, Maps, Taken;
    MapsOwned(sb, s, s', i, off, n);
    InTaken(sb, s, s', i, h, At(sb, s', i, h));
    forall k: nat | k < h && k in News(sb, s, s', i) ensures At(sb, s', i, k) != At(sb, s', i, h) {
      SlotsApart(sb, s, s', i, k, h);
    }
  }

  lemma SlotsApart(sb: Super, s: Snap, s': Snap, i: nat, k: nat, h: nat)
    requires Owned(sb, s'.blk, s'.ino, s'.own, {}) && k < h && k in News(sb, s, s', i) && h in News(sb, s, s', i)
    ensures At(sb, s', i, k) != At(sb, s', i, h)
  {
    hide Ref, BitsAre;
    OneOwner(sb, s'.blk, s'.ino, s'.own, Slot(i, k));
    OneOwner(sb, s'.blk, s'.ino, s'.own, Slot(i, h));
  }

  lemma FreeOrTaken(sb: Super, s: Snap, s': Snap, i: nat, off: nat, n: nat, b: nat)
    requires Maps(sb, s, s', i, off, n)
    ensures IsFree(sb, s.blk, b) <==> IsFree(sb, s'.blk, b) || b in Taken(sb, s, s', i, NSLOTS)
    ensures b in Taken(sb, s, s', i, NSLOTS) ==> !IsFree(sb, s'.blk, b)
  {
    hide Taken, Owned, At, News, IsFree;
    InTaken(sb, s, s', i, NSLOTS, b);
    if b in Taken(sb, s, s', i, NSLOTS) {
      var k: nat :| k in News(sb, s, s', i) && At(sb, s', i, k) == b;
      TakenWasFree(sb, s, s', i, off, n, k);
    } else {
      assert forall k: nat :: k in News(sb, s, s', i) ==> k < NSLOTS by {
        NewsBelow(sb, s, s', i);
      }
      SameFree(sb, s, s', i, off, n, b);
    }
  }

  lemma NewsBelow(sb: Super, s: Snap, s': Snap, i: nat)
    ensures forall k: nat :: k in News(sb, s, s', i) ==> k < NSLOTS
  {
  }

  lemma TakenWasFree(sb: Super, s: Snap, s': Snap, i: nat, off: nat, n: nat, k: nat)
    requires Maps(sb, s, s', i, off, n) && k in News(sb, s, s', i)
    ensures var b := At(sb, s', i, k);
            && sb.nmeta <= b < sb.size && IsFree(sb, s.blk, b) && !IsFree(sb, s'.blk, b)
            && b in s'.own && s'.own[b] == Slot(i, k) && b !in s.own
  {
    hide Ref, BitSet, Maps;
    OwnKept(sb, s, s', i, off, n);
    MapsOwned(sb, s, s', i, off, n);
    OneOwner(sb, s'.blk, s'.ino, s'.own, Slot(i, k));
  }

  lemma MapsOwned(sb: Super, s: Snap, s': Snap, i: nat, off: nat, n: nat)
    requires Maps(sb, s, s', i, off, n)
    ensures Owned(sb, s.blk, s.ino, s.own, {}) && Owned(sb, s'.blk, s'.ino, s'.own, {}) && i < |s.ino| == |s'.ino|
  {
    hide Ref, Owners, BitsAre;
  }

  /** No block changes its owner. */
  lemma OwnKept(sb: Super, s: Snap, s': Snap, i: nat, off: nat, n: nat)
    requires Maps(sb, s, s', i, off, n)
    ensures forall b: nat | b in s.own :: At(sb, s, s.own[b].i, s.own[b].k) == b && b in s'.own && s'.own[b] == s.own[b]
  {
    hide Ref, BitsAre, Wants;
    forall b: nat | b in s.own
      ensures At(sb, s, s.own[b].i, s.own[b].k) == b && b in s'.own && s'.own[b] == s.own[b]
    {
      var t := s.own[b];
      assert At(sb, s, t.i, t.k) == b;
      assert At(sb, s', t.i, t.k) == At(sb, s, t.i, t.k) || MayFill(sb, s, i, off, n, t.i, t.k);
      assert Ref(sb, s'.blk, s'.ino, t) == b;
    }
  }

  lemma SameFree(sb: Super, s: Snap, s': Snap, i: nat, off: nat, n: nat, b: nat)
    requires Maps(sb, s, s', i, off, n) && forall k: nat :: k in News(sb, s, s', i) ==> At(sb, s', i, k) != b
    ensures IsFree(sb, s.blk, b) <==> IsFree(sb, s'.blk, b)
  {
    hide Ref, BitSet, Wants;
    OwnKept(sb, s, s', i, off, n);
    if b in s'.own {
      var t := s'.own[b];
      assert At(sb, s', t.i, t.k) == b;
      assert At(sb, s', t.i, t.k) == At(sb, s, t.i, t.k) || MayFill(sb, s, i, off, n, t.i, t.k);
      assert t.i == i && At(sb, s, i, t.k) == 0 ==> t.k in News(sb, s, s', i);
      assert Ref(sb, s.blk, s.ino, t) == b;
    }
  }

  /** How many blocks are free beyond those a range still needs does not change while slots of the
      range are filled. */
  lemma SpareKept(sb: Super, s: Snap, s': Snap, i: nat, off: nat, n: nat)
    requires Maps(sb, s, s', i, off, n)
    ensures |FreeBlocks(sb, s)| - |Need(sb, s, i, off, n)| == |FreeBlocks(sb, s')| - |Need(sb, s', i, off, n)|
  {
    FreeCount(sb, s, s', i, off, n);
    hide FreeBlocks, Owned, At, Wants;
    var news, need, need' := News(sb, s, s', i), Need(sb, s, i, off, n), Need(sb, s', i, off, n);
    forall k: nat ensures k in need <==> k in need' || k in news {
      assert At(sb, s', i, k) == At(sb, s, i, k) || MayFill(sb, s, i, off, n, i, k);
    }
    assert need == need' + news;
  }

  lemma FullNone(sb: Super, s: Snap)
    requires Full(sb, s.blk)
    ensures FreeBlocks(sb, s) == {}
  {
    hide BitSet;
  }

  // ---- how many blocks are logged ----

  /** Blocks allocated for k data blocks from off on: none for a first block that is not started at
      its beginning, since that block exists. */
  function Allocs(off: nat, k: nat): nat {
    if k > 0 && off % BSIZE != 0 then k - 1 else k
  }

  /** The indirect block and, where it can be missing, its map block. */
  function Extra(off: nat, n: nat): nat {
    if n == 0 || (off + n - 1) / BSIZE < NDIRECT then 0 else if off <= NDIRECT * BSIZE then 2 else 1
  }

  /** The most blocks that the loop can log: each data block touched, a map block for each one
      allocated, and what the indirect block takes. */
  function Cost(off: nat, n: nat): nat {
    Touched(off, n) + Allocs(off, Touched(off, n)) + Extra(off, n)
  }

  /** Blocks a .. b - 1 of the file. */
  ghost function DataTo(sb: Super, s: Snap, i: nat, a: nat, b: nat): (r: set<nat>)
    ensures a <= b ==> |r| <= b - a
    decreases b - a
  {
    if a >= b then {} else {At(sb, s, i, SlotOf(a))} + DataTo(sb, s, i, a + 1, b)
  }

  /** The map blocks of those that were allocated. */
  ghost function BitsTo(sb: Super, s: Snap, s': Snap, i: nat, a: nat, b: nat): (r: set<nat>)
    ensures a <= b ==> |r| <= b - a
    decreases b - a
  {
    if a >= b then {}
    else (if SlotOf(a) in News(sb, s, s', i) then {sb.BBlock(At(sb, s', i, SlotOf(a)))} else {}) + BitsTo(sb, s, s', i, a + 1, b)
  }

  ghost function IndirectTo(sb: Super, s: Snap, s': Snap, i: nat, off: nat, n: nat): set<nat> {
    if n == 0 || (off + n - 1) / BSIZE < NDIRECT then {}
    else {At(sb, s', i, NDIRECT)} + if NDIRECT in News(sb, s, s', i) then {sb.BBlock(At(sb, s', i, NDIRECT))} else {}
  }

  lemma {:induction false} InDataTo(sb: Super, s: Snap, i: nat, a: nat, b: nat, m: nat)
    requires a <= m < b
    ensures At(sb, s, i, SlotOf(m)) in DataTo(sb, s, i, a, b)
    decreases m - a
  {
    hide At;
    if a < m {
      InDataTo(sb, s, i, a + 1, b, m);
    }
  }

  lemma {:induction false} InBitsTo(sb: Super, s: Snap, s': Snap, i: nat, a: nat, b: nat, m: nat)
    requires a <= m < b && SlotOf(m) in News(sb, s, s', i)
    ensures sb.BBlock(At(sb, s', i, SlotOf(m))) in BitsTo(sb, s, s', i, a, b)
    decreases m - a
  {
    hide At, News;
    if a < m {
      InBitsTo(sb, s, s', i, a + 1, b, m);
    }
  }

  lemma CoversTouched(off: nat, n: nat, m: nat)
    ensures Covers(off, n, m) <==> off / BSIZE <= m < off / BSIZE + Touched(off, n)
    ensures Touched(off, n) == 0 <==> n == 0
  {
    if n > 0 {
      assert off / BSIZE <= (off + n - 1) / BSIZE;
    }
  }

  ghost function MostLogged(sb: Super, s: Snap, s': Snap, i: nat, off: nat, n: nat): set<nat> {
    var a, b := off / BSIZE, off / BSIZE + Touched(off, n);
    DataTo(sb, s', i, a, b) + BitsTo(sb, s, s', i, a, b) + IndirectTo(sb, s, s', i, off, n)
  }

  lemma FillInMost(sb: Super, s: Snap, s': Snap, i: nat, off: nat, n: nat, k: nat, x: nat)
    requires Maps(sb, s, s', i, off, n) && FillLogs(sb, s, s', i, k, x)
    ensures x in MostLogged(sb, s, s', i, off, n)
  {
    hide Owned, At;
    assert At(sb, s', i, k) == At(sb, s, i, k) || MayFill(sb, s, i, off, n, i, k);
    assert k in News(sb, s, s', i) && Wants(off, n, k);
    hide DataTo, BitsTo, News, Touched;
    if k != NDIRECT {
      var a, b, m := off / BSIZE, off / BSIZE + Touched(off, n), if k < NDIRECT then k else k - 1;
      CoversTouched(off, n, m);
      assert SlotOf(m) == k;
      InDataTo(sb, s', i, a, b, m);
      InBitsTo(sb, s, s', i, a, b, m);
    }
  }

  lemma LoggedInMost(sb: Super, s: Snap, s': Snap, i: nat, off: nat, n: nat, tot: nat)
    requires Maps(sb, s, s', i, off, n) && LoggedIs(sb, s, s', i, off, tot) && tot <= n
    ensures s'.logged <= s.logged + MostLogged(sb, s, s', i, off, n)
  {
    hide Owned, At, Wants, Covers, FillLogs, MostLogged, Maps;
    forall x | x in s'.logged && x !in s.logged ensures x in MostLogged(sb, s, s', i, off, n) {
      assert LoggedFor(sb, s, s', i, off, tot, x);
      if k: nat :| FillLogs(sb, s, s', i, k, x) {
        FillInMost(sb, s, s', i, off, n, k, x);
      } else {
        var m: nat :| Covers(off, tot, m) && x == At(sb, s', i, SlotOf(m));
        WrittenInMost(sb, s, s', i, off, n, tot, m);
      }
    }
  }

  lemma WrittenInMost(sb: Super, s: Snap, s': Snap, i: nat, off: nat, n: nat, tot: nat, m: nat)
    requires tot <= n && Covers(off, tot, m)
    ensures At(sb, s', i, SlotOf(m)) in MostLogged(sb, s, s', i, off, n)
  {
    hide At, DataTo, BitsTo, Touched;
    assert (off + tot - 1) / BSIZE <= (off + n - 1) / BSIZE;
    CoversTouched(off, n, m);
    InDataTo(sb, s', i, off / BSIZE, off / BSIZE + Touched(off, n), m);
  }

  /** Blocks below the size exist, so that none is allocated for them. */
  lemma Exists(sb: Super, s: Snap, i: nat, m: nat)
    requires Wf(sb, s.blk, s.ino) && i < |s.ino| && AllocBelow(sb, s.blk, s.ino, i) && m * BSIZE < s.ino[i].size
    ensures m < MAXFILE && At(sb, s, i, SlotOf(m)) != 0 && (m >= NDIRECT ==> At(sb, s, i, NDIRECT) != 0)
  {
    var t := FileSlot(i, m);
    assert t == Slot(i, SlotOf(m));
  }

  lemma BitsCard(sb: Super, s: Snap, s': Snap, i: nat, off: nat, n: nat)
    requires Wf(sb, s.blk, s.ino) && i < |s.ino| && AllocBelow(sb, s.blk, s.ino, i) && off <= s.ino[i].size
    ensures var a, k := off / BSIZE, Touched(off, n); |BitsTo(sb, s, s', i, a, a + k)| <= Allocs(off, k)
  {
    hide At, AllocBelow, Touched, Wf, BitsTo;
    var a, b := off / BSIZE, off / BSIZE + Touched(off, n);
    CoversTouched(off, n, a);
    if n > 0 && off % BSIZE != 0 {
      assert a * BSIZE < off;
      Exists(sb, s, i, a);
      BitsSkip(sb, s, s', i, a, b);
    }
  }

  lemma BitsSkip(sb: Super, s: Snap, s': Snap, i: nat, a: nat, b: nat)
    requires a < b && At(sb, s, i, SlotOf(a)) != 0
    ensures BitsTo(sb, s, s', i, a, b) == BitsTo(sb, s, s', i, a + 1, b)
  {
    hide At;
  }

  lemma IndirectCard(sb: Super, s: Snap, s': Snap, i: nat, off: nat, n: nat)
    requires Wf(sb, s.blk, s.ino) && i < |s.ino| && AllocBelow(sb, s.blk, s.ino, i) && off <= s.ino[i].size
    ensures |IndirectTo(sb, s, s', i, off, n)| <= Extra(off, n)
  {
    hide At, AllocBelow, Wf;
    if off > NDIRECT * BSIZE {
      Exists(sb, s, i, NDIRECT);
    }
  }

  lemma MostCard(sb: Super, s: Snap, s': Snap, i: nat, off: nat, n: nat)
    requires Wf(sb, s.blk, s.ino) && i < |s.ino| && AllocBelow(sb, s.blk, s.ino, i) && off <= s.ino[i].size
    ensures |MostLogged(sb, s, s', i, off, n)| <= Cost(off, n)
  {
    hide DataTo, BitsTo, IndirectTo, At, AllocBelow, Touched, Wf, Extra, Allocs;
    BitsCard(sb, s, s', i, off, n);
    IndirectCard(sb, s, s', i, off, n);
    var a, b := off / BSIZE, off / BSIZE + Touched(off, n);
    var data, bits, ind := DataTo(sb, s', i, a, b), BitsTo(sb, s, s', i, a, b), IndirectTo(sb, s, s', i, off, n);
    assert |data + bits + ind| <= |data| + |bits| + |ind|;
  }

  /** The bound on what writei's loop logs. */
  lemma LogBound(sb: Super, s: Snap, s': Snap, i: nat, off: nat, n: nat, tot: nat)
    requires Maps(sb, s, s', i, off, n) && LoggedIs(sb, s, s', i, off, tot) && tot <= n
    requires AllocBelow(sb, s.blk, s.ino, i) && off <= s.ino[i].size
    ensures |s'.logged| <= |s.logged| + Cost(off, n)
  {
    MapsOwned(sb, s, s', i, off, n);
    hide Owned, MostLogged, Maps, LoggedIs, AllocBelow, Cost;
    LoggedInMost(sb, s, s', i, off, n, tot);
    MostCard(sb, s, s', i, off, n);
    var most := MostLogged(sb, s, s', i, off, n);
    SubsetCard(s'.logged, s.logged + most);
    assert |s.logged + most| <= |s.logged| + |most|;
  }

  /** Why filewrite's chunks are three blocks long. */
  lemma TransactionFits(off: nat, n: nat)
    requires n <= 3 * BSIZE
    ensures Cost(off, n) + 1 <= MAXOPBLOCKS
  {
  }

  // ---- how many bytes are written ----

  /** writei's result for n bytes of which copyin reaches the first avail, if there is space: whole
      blocks, except at the ends. */
  function Done(off: nat, n: nat, avail: nat): nat {
    if avail >= n then n
    else if (off + avail) / BSIZE * BSIZE > off then (off + avail) / BSIZE * BSIZE - off
    else 0
  }

  /** Bytes whose blocks are mapped: the one that copyin fails at is the last. */
  function Tried(n: nat, avail: nat): nat {
    if avail >= n then n else avail + 1
  }

  /** Enough blocks are free for the bytes that will be tried. */
  ghost predicate HasRoom(sb: Super, s: Snap, i: nat, off: nat, n: nat) {
    |FreeBlocks(sb, s)| >= |Need(sb, s, i, off, n)|
  }

  /** The bytes that reach the block that copyin fails in are below the old end only where they are
      what was there. */
  predicate Unspilled(c: seq<byte>, off: nat, src: seq<byte>, avail: nat) {
    avail < |src| ==> forall p | off + Done(off, |src|, avail) <= p < off + avail && p < |c| :: c[p] == src[p - off]
  }

  /** Everything mapped: the range needs nothing more. */
  lemma NothingNeeded(sb: Super, s: Snap, i: nat, off: nat, n: nat)
    requires Wf(sb, s.blk, s.ino) && i < |s.ino|
    requires forall m: nat | Covers(off, n, m) :: At(sb, s, i, SlotOf(m)) != 0
    ensures Need(sb, s, i, off, n) == {}
  {
    IndirectAt(sb, s, i);
    hide At;
    forall k: nat | Wants(off, n, k) ensures At(sb, s, i, k) != 0 {
      var m := if k < NDIRECT then k else if k == NDIRECT then (off + n - 1) / BSIZE else k - 1;
      assert off / BSIZE <= (off + n - 1) / BSIZE;
      assert Covers(off, n, m) && (k != NDIRECT ==> SlotOf(m) == k);
    }
  }

  lemma SomethingNeeded(sb: Super, s: Snap, i: nat, off: nat, n: nat, m: nat)
    requires Covers(off, n, m) && m < MAXFILE && At(sb, s, i, SlotOf(m)) == 0
    ensures |Need(sb, s, i, off, n)| > 0
  {
    hide At;
    assert Wants(off, n, SlotOf(m));
    assert SlotOf(m) in Need(sb, s, i, off, n);
  }

  // ---- from ranges of bytes ----

  lemma RangeCovers(sb: Super, s: Snap, i: nat, off: nat, n: nat)
    requires Wf(sb, s.blk, s.ino) && i < |s.ino|
    ensures AllocRange(sb, s.blk, s.ino, i, off, off + n) ==>
              forall m: nat | Covers(off, n, m) :: m < MAXFILE && At(sb, s, i, SlotOf(m)) != 0
  {
    hide Ref;
    if AllocRange(sb, s.blk, s.ino, i, off, off + n) {
      forall m: nat | Covers(off, n, m) ensures m < MAXFILE && At(sb, s, i, SlotOf(m)) != 0 {
        var t := FileSlot(i, m);
        assert t == Slot(i, SlotOf(m));
      }
    }
  }

  /** With all bytes tried mapped, there was room for them. */
  lemma RoomWas(sb: Super, s0: Snap, s: Snap, i: nat, off: nat, n: nat)
    requires Maps(sb, s0, s, i, off, n) && AllocRange(sb, s.blk, s.ino, i, off, off + n)
    ensures HasRoom(sb, s0, i, off, n)
  {
    hide Owners, BitsAre, Maps, FreeBlocks, Need, At, AllocRange, Covers;
    MapsOwned(sb, s0, s, i, off, n);
    RangeCovers(sb, s, i, off, n);
    NothingNeeded(sb, s, i, off, n);
    SpareKept(sb, s0, s, i, off, n);
  }

  /** With a byte tried that is not mapped and no block left, there was not. */
  lemma RoomWasNot(sb: Super, s0: Snap, s: Snap, i: nat, off: nat, n: nat, q: nat)
    requires Maps(sb, s0, s, i, off, n) && Full(sb, s.blk)
    requires off <= q < off + n && q < FILEBYTES && At(sb, s, i, SlotOf(q / BSIZE)) == 0
    ensures !HasRoom(sb, s0, i, off, n)
  {
    hide Owned, Maps, FreeBlocks, Need, At, Full;
    assert Covers(off, n, q / BSIZE) by {
      assert off / BSIZE <= q / BSIZE <= (off + n - 1) / BSIZE;
    }
    hide Covers;
    SomethingNeeded(sb, s, i, off, n, q / BSIZE);
    FullNone(sb, s);
    SpareKept(sb, s0, s, i, off, n);
  }

  /** Two ranges that touch the same block. */
  lemma OneByte(q: nat, q': nat)
    requires q / BSIZE == q' / BSIZE
    ensures forall k: nat | Wants(q, 1, k) :: Wants(q', 1, k)
  {
  }

  /** Logging the block of bytes q .. q + m - 1, which lie in one block. */
  lemma LogOne(sb: Super, s0: Snap, s: Snap, s': Snap, i: nat, q: nat, m: nat)
    requires LoggedIs(sb, s0, s, i, q, 0) && s' == s.(logged := s.logged + {At(sb, s, i, SlotOf(q / BSIZE))})
    requires 0 < m && q % BSIZE + m <= BSIZE
    ensures LoggedIs(sb, s0, s', i, q, m)
  {
    hide Wants;
    assert forall j: nat, k: nat :: At(sb, s', j, k) == At(sb, s, j, k);
    hide At;
    NoCover(q);
    assert forall h: nat :: Covers(q, m, h) <==> h == q / BSIZE by {
      assert (q + m - 1) / BSIZE == q / BSIZE;
    }
    hide Covers;
    var a := At(sb, s, i, SlotOf(q / BSIZE));
    forall x: nat ensures x in s'.logged <==> x in s0.logged || LoggedFor(sb, s0, s', i, q, m, x) {
      forall k: nat ensures FillLogs(sb, s0, s', i, k, x) <==> FillLogs(sb, s0, s, i, k, x) {
      }
      assert x in s.logged <==> x in s0.logged || LoggedFor(sb, s0, s, i, q, 0, x);
      if x == a {
        assert Covers(q, m, q / BSIZE);
      }
    }
  }

  // ---- through the log ----

  /** Every block that changed is logged, but for block b, if that is one. */
  ghost predicate LogsAll(blk: Disk, logged: set<nat>, blk': Disk, logged': set<nat>, b: nat) {
    && logged <= logged'
    && forall x: nat | x in blk :: x in blk' && (blk'[x] == blk[x] || x in logged' || x == b != 0)
  }

  lemma LogsNone(blk: Disk, logged: set<nat>)
    ensures LogsAll(blk, logged, blk, logged, 0)
  {
  }

  lemma LogsThen(blk0: Disk, logged0: set<nat>, blk1: Disk, logged1: set<nat>, blk2: Disk, logged2: set<nat>, b: nat)
    requires LogsAll(blk0, logged0, blk1, logged1, 0) && LogsAll(blk1, logged1, blk2, logged2, b)
    ensures LogsAll(blk0, logged0, blk2, logged2, b)
  {
  }

  /** Block a is given v, and is the next to be logged. */
  lemma LogsPut(blk: Disk, logged: set<nat>, blk': Disk, logged': set<nat>, a: nat, v: Block)
    requires LogsAll(blk, logged, blk', logged', 0)
    ensures LogsAll(blk, logged, blk'[a := v], logged' + {a}, 0)
    ensures a != 0 ==> LogsAll(blk, logged, blk'[a := v], logged', a)
  {
  }

  lemma LogsMore(blk: Disk, logged: set<nat>, blk': Disk, logged': set<nat>, b: nat, x: nat)
    requires LogsAll(blk, logged, blk', logged', b)
    ensures LogsAll(blk, logged, blk', logged' + {x}, b)
  {
  }
}
