/** kernel/log.c as it is written: loops over the header list, one bwrite at a time. The
    methods are tied to the steps of LogSpec; `trace` records the disk after every bwrite, and
    so every disk a crash can leave. */
module LogDevice {
  import opened Prelude
  import opened Blocks
  import opened LogSpec

  class Log {
    const c: Config
    var disk: Disk
    var view: Disk
    var lh: seq<nat>
    var outstanding: int
    var committing: bool
    ghost var trace: seq<Disk>

    constructor (c: Config, disk: Disk)
      requires DiskOk(c, disk)
      ensures this.c == c && this.disk == disk && trace == [] && lh == [] && outstanding == 0 && !committing
    {
      this.c, this.disk, this.view := c, disk, map[];
      this.lh, this.outstanding, this.committing, this.trace := [], 0, false, [];
    }

    /** The machine of LogSpec with k writes of the current commit done. */
    ghost function Mach(k: nat): Machine
      reads this
    {
      Machine(disk, Up(k), lh, outstanding, committing, view)
    }

    ghost function RecMach(rlh: seq<nat>, k: nat): Machine
      reads this
    {
      Machine(disk, Recovery(rlh, k), [], 0, false, map[])
    }

    /** The disks written since position `from` all recover to home. */
    ghost predicate RecoverTo(from: nat, home: Disk)
      reads this
    {
      from <= |trace| && forall i | from <= i < |trace| :: DiskOk(c, trace[i]) && Recovered(c, trace[i]) == home
    }

    /** The disks written since position t are those of the first k writes of a commit begun on d0. */
    ghost predicate Follows(t: nat, d0: Disk, lh0: seq<nat>, k: nat)
      reads this`disk, this`trace, this`view
    {
      && |trace| == t + k && disk == Last(d0, trace[t..])
      && c.Valid() && GoodList(c, lh0) && HomeKeys(c, view) && Steps(c, d0, trace[t..], view, lh0)
    }

    method Bwrite(b: nat, v: Block)
      modifies this`disk, this`trace
      ensures disk == old(disk)[b := v] && trace == old(trace) + [disk]
    {
      disk := disk[b := v];
      trace := trace + [disk];
    }

    /** Log absorption: the first position holding b, or the end of the list. */
    method Search(b: nat) returns (i: nat)
      ensures i <= |lh| && b !in lh[..i] && (i < |lh| ==> lh[i] == b)
    {
      i := 0;
      while i < |lh| && lh[i] != b
        invariant i <= |lh| && b !in lh[..i]
      {
        i := i + 1;
      }
    }

    /** One turn of begin_op's loop; not admitted means that the caller sleeps. */
    method TryBeginOp() returns (admitted: bool)
      modifies this`outstanding
      ensures admitted == !old(MustWait(Mach(0)))
      ensures admitted <==> !committing && |lh| + MAXOPBLOCKS * (old(outstanding) + 1) <= LOGSIZE
      ensures outstanding == if admitted then old(outstanding) + 1 else old(outstanding)
    {
      if committing {
        return false;
      } else if |lh| + (outstanding + 1) * MAXOPBLOCKS > LOGSIZE {
        return false;
      }
      outstanding := outstanding + 1;
      return true;
    }

    /** log_write of a buffer holding v for block b; its two panics are the precondition. */
    method LogWrite(b: nat, v: Block)
      requires !LogWritePanics(c, Mach(0))
      modifies this`lh, this`view
      ensures lh == if b in old(lh) then old(lh) else old(lh) + [b]
      ensures view == old(view)[b := v]
    {
      var i := Search(b);
      if i == |lh| {
        assert lh[..i] == lh;
        lh := lh + [b];
      } else {
        lh := lh[i := b];
      }
      view := view[b := v];
    }

    method ReadHead()
      requires DiskOk(c, disk)
      modifies this`lh
      ensures lh == Head(disk[c.start])
    {
      var buf := disk[c.start];
      var n := GetWord(buf, 0);
      lh := [];
      var i := 0;
      while i < n
        invariant i <= n && |lh| == i && forall j | 0 <= j < i :: lh[j] == GetWord(buf, j + 1)
      {
        lh := lh + [GetWord(buf, i + 1)];
        i := i + 1;
      }
    }

    method WriteHead()
      requires c.Valid() && WholeDisk(c, disk) && GoodList(c, lh)
      modifies this`disk, this`trace
      ensures disk == old(disk)[c.start := PutHead(old(disk)[c.start], lh)]
      ensures trace == old(trace) + [disk]
    {
      var hb := PutWord(disk[c.start], 0, |lh|);
      hb := FillHead(hb);
      Bwrite(c.start, hb);
    }

    /** The loop of write_head: the block numbers after the count. */
    method FillHead(h: Block) returns (hb: Block)
      requires c.Valid() && GoodList(c, lh)
      ensures hb == PutWords(h, 1, lh)
    {
      hb := h;
      var i := 0;
      while i < |lh|
        invariant i <= |lh|
        invariant hb == PutWords(h, 1, lh[..i])
      {
        assert lh[..i + 1][..|lh[..i + 1]| - 1] == lh[..i];
        hb := PutWord(hb, i + 1, lh[i]);
        i := i + 1;
      }
      assert lh[..|lh|] == lh;
    }

    /** Copies each logged block from the cache to its slot. */
    method WriteLog(ghost durable: Disk)
      requires Shape(c, Mach(0), durable) && committing && lh != []
      modifies this`disk, this`trace
      ensures Shape(c, Mach(|lh|), durable)
      ensures |trace| == |old(trace)| + |lh| && old(trace) <= trace && RecoverTo(|old(trace)|, durable)
      ensures Follows(|old(trace)|, old(disk), lh, |lh|)
    {
      hide Shape, DiskOk, Recovered, Steps;
      ghost var t, d0 := |trace|, disk;
      ShapeReady(c, Mach(0), durable);
      StepsNone(c, d0, view, lh);
      var tail := 0;
      while tail < |lh|
        invariant tail <= |lh| && Shape(c, Mach(tail), durable)
        invariant |trace| == |old(trace)| + tail && old(trace) <= trace && RecoverTo(|old(trace)|, durable)
        invariant Follows(t, d0, lh, tail)
      {
        SlotStep(c, Mach(tail), durable);
        ShapeReady(c, Mach(tail), durable);
        StepsMore(c, d0, trace[t..], view, lh, disk);
        assert trace[t..] + [disk[c.start + tail + 1 := view[lh[tail]]]] ==
               (trace + [disk[c.start + tail + 1 := view[lh[tail]]]])[t..];
        Bwrite(c.start + tail + 1, view[lh[tail]]);
        ShapeRecovers(c, Mach(tail + 1), durable);
        tail := tail + 1;
      }
    }

    /** The second half of commit: the header is on disk, the slots go home. */
    method InstallCommitted(ghost durable: Disk, ghost t: nat, ghost d0: Disk)
      requires Shape(c, Mach(|lh| + 1), durable) && committing && lh != []
      requires Follows(t, d0, lh, |lh| + 1)
      modifies this`disk, this`trace
      ensures Shape(c, Mach(2 * |lh| + 1), durable)
      ensures |trace| == |old(trace)| + |lh| && old(trace) <= trace && RecoverTo(|old(trace)|, durable)
      ensures Follows(t, d0, lh, 2 * |lh| + 1)
    {
      hide Shape, DiskOk, Recovered, Steps;
      var tail := 0;
      while tail < |lh|
        invariant tail <= |lh| && Shape(c, Mach(|lh| + 1 + tail), durable)
        invariant |trace| == |old(trace)| + tail && old(trace) <= trace && RecoverTo(|old(trace)|, durable)
        invariant Follows(t, d0, lh, |lh| + 1 + tail)
      {
        InstallStep(c, Mach(|lh| + 1 + tail), durable, tail);
        ShapeReady(c, Mach(|lh| + 1 + tail), durable);
        StepsMore(c, d0, trace[t..], view, lh, disk);
        assert trace[t..] + [disk[lh[tail] := disk[c.start + tail + 1]]] ==
               (trace + [disk[lh[tail] := disk[c.start + tail + 1]]])[t..];
        Bwrite(lh[tail], disk[c.start + tail + 1]);
        ShapeRecovers(c, Mach(|lh| + 1 + tail + 1), durable);
        tail := tail + 1;
      }
    }

    /** write_head as the write of a commit that has made k writes of lh0; lh0 is cleared last. */
    method WriteHeadNext(ghost durable: Disk, ghost t: nat, ghost d0: Disk, ghost lh0: seq<nat>, ghost k: nat)
      requires Shape(c, Mach(0).(phase := Up(k), lh := lh0), durable) && Follows(t, d0, lh0, k) && lh0 != []
      requires (k == |lh0| && lh == lh0) || (k == 2 * |lh0| + 1 && lh == [])
      requires GoodList(c, lh) && WholeDisk(c, disk)
      modifies this`disk, this`trace
      ensures disk == old(disk)[c.start := PutHead(old(disk)[c.start], lh)]
      ensures trace == old(trace) + [disk] && Follows(t, d0, lh0, k + 1)
    {
      hide Shape, DiskOk, Recovered, Steps, PutHead;
      StepsMore(c, d0, trace[t..], view, lh0, disk);
      WriteHead();
      assert trace[t..] == old(trace)[t..] + [disk];
    }

    /** commit(): 2n + 2 disk writes. A crash before the n-th, that of the header, recovers to the
        old home blocks; a crash at it or after recovers to the new ones. */
    method Commit(ghost durable: Disk)
      requires Shape(c, Mach(0), durable) && committing
      requires forall b: nat | c.IsHome(b) && b !in lh :: b in view && b in durable && view[b] == durable[b]
      modifies this`disk, this`trace, this`lh
      ensures lh == [] && Shape(c, Mach(0), view)
      ensures Home(c, disk) == view
      ensures var n, t := |old(lh)|, |old(trace)|;
              && old(trace) <= trace
              && |trace| == (if n == 0 then t else t + 2 * n + 2)
              && (forall i | t <= i < |trace| :: DiskOk(c, trace[i]))
              && (forall i | t <= i < |trace| :: Recovered(c, trace[i]) == if i < t + n then durable else view)
      ensures old(lh) != [] ==> Follows(|old(trace)|, old(disk), old(lh), 2 * |old(lh)| + 2)
      ensures old(lh) == [] ==> disk == old(disk)
    {
      hide Shape, DiskOk, Recovered, CommitNext, PutHead, GoodList, WholeDisk, Home, Follows;
      if |lh| > 0 {
        ghost var n, t, d0, lh0 := |lh|, |trace|, disk, lh;
        WriteLog(durable);
        ghost var t1 := trace;
        HeadStep(c, Mach(|lh|), durable);
        WriteHeadNext(durable, t, d0, lh0, n);
        ShapeRecovers(c, Mach(|lh| + 1), view);
        ghost var t2 := trace;
        InstallCommitted(view, t, d0);
        ghost var t3 := trace;
        ClearStep(c, Mach(2 * |lh| + 1), view);
        lh := [];
        WriteHeadNext(view, t, d0, lh0, 2 * n + 1);
        ShapeRecovers(c, Mach(0), view);
        forall i | t <= i < |trace|
          ensures DiskOk(c, trace[i]) && Recovered(c, trace[i]) == if i < t + n then durable else view
        {
          if i < t + n {
            assert trace[i] == t1[i];
          } else if i == t + n {
            assert trace[i] == t2[i];
          } else if i <= t + 2 * n {
            assert trace[i] == t3[i];
          }
        }
      } else {
        NothingLogged(c, Mach(0), durable);
      }
      ShapeHome(c, Mach(0), view);
    }

    /** end_op: the last operation out commits. */
    method EndOp(ghost durable: Disk)
      requires outstanding >= 1 && !committing && Shape(c, Mach(0), durable)
      requires forall b: nat | c.IsHome(b) && b !in lh :: b in view && b in durable && view[b] == durable[b]
      modifies this
      ensures outstanding == old(outstanding) - 1 && !committing && view == old(view)
      ensures old(outstanding) > 1 ==> disk == old(disk) && lh == old(lh) && trace == old(trace)
      ensures old(outstanding) == 1 ==> lh == [] && Home(c, disk) == view && Shape(c, Mach(0), view)
      ensures var n, t := |old(lh)|, |old(trace)|;
              && old(trace) <= trace && |trace| == (if old(outstanding) > 1 || n == 0 then t else t + 2 * n + 2)
              && (forall i | t <= i < |trace| :: DiskOk(c, trace[i]))
              && (forall i | t <= i < |trace| :: Recovered(c, trace[i]) == if i < t + n then durable else view)
      ensures old(outstanding) == 1 && old(lh) != [] ==> Follows(|old(trace)|, old(disk), old(lh), 2 * |old(lh)| + 2)
      ensures old(outstanding) == 1 && old(lh) == [] ==> disk == old(disk)
    {
      hide Steps, PutHead, CommitStep, Recovered;
      outstanding := outstanding - 1;
      if outstanding == 0 {
        committing := true;
        Commit(durable);
        committing := false;
      }
    }

    /** install_trans(1). */
    method InstallRecovered(ghost home: Disk)
      requires Shape(c, RecMach(lh, 0), home)
      modifies this`disk, this`trace
      ensures Shape(c, RecMach(lh, |lh|), home)
      ensures old(trace) <= trace && RecoverTo(|old(trace)|, home)
    {
      hide Shape, DiskOk, Recovered;
      var tail := 0;
      while tail < |lh|
        invariant tail <= |lh| && Shape(c, RecMach(lh, tail), home)
        invariant old(trace) <= trace && RecoverTo(|old(trace)|, home)
      {
        RestoreStep(c, RecMach(lh, tail), home);
        Bwrite(lh[tail], disk[c.start + tail + 1]);
        ShapeRecovers(c, RecMach(lh, tail + 1), home);
        tail := tail + 1;
      }
    }

    /** recover_from_log(): a crash at any of its writes leaves a disk that recovers to the same
        home blocks, and at its end they are in place and the log is empty. */
    method RecoverFromLog()
      requires DiskOk(c, disk)
      modifies this
      ensures lh == [] && view == Home(c, disk) == Recovered(c, old(disk))
      ensures DiskOk(c, disk) && Head(disk[c.start]) == []
      ensures old(trace) <= trace && RecoverTo(|old(trace)|, Recovered(c, old(disk)))
    {
      hide Shape, DiskOk, Recovered, RecoverNext, PutHead, GoodList, WholeDisk, Home, Head;
      RecoveryStarts(c, disk);
      ghost var home := Recovered(c, disk);
      ReadHead();
      ghost var rlh := lh;
      InstallRecovered(home);
      ghost var t1 := trace;
      EraseStep(c, RecMach(rlh, |rlh|), home);
      lh := [];
      WriteHead();
      ShapeRecovers(c, RecMach(rlh, |rlh| + 1), home);
      view := HomeOf(c, disk);
      RecoveryEnds(c, RecMach(rlh, |rlh| + 1), home);
      assert forall i | 0 <= i < |t1| :: trace[i] == t1[i];
    }
  }

  /** The home blocks, as the cache reads them after recovery. */
  function HomeOf(c: Config, d: Disk): (h: Disk)
    ensures h == Home(c, d)
  {
    map b | b in d && c.IsHome(b) :: d[b]
  }

  lemma ShapeReady(c: Config, m: Machine, durable: Disk)
    requires Shape(c, m, durable)
    ensures c.Valid() && WholeDisk(c, m.disk)
    ensures m.phase.Up? ==> GoodList(c, m.lh) && HomeKeys(c, m.view)
    ensures m.phase.Recovery? ==> GoodList(c, m.phase.rlh)
  {
  }

  /** What CommitNext and RecoverNext write at each stage. */
  lemma StepWrites(c: Config, m: Machine)
    requires c.Valid() && WholeDisk(c, m.disk)
    requires m.phase.Up? ==> GoodList(c, m.lh) && HomeKeys(c, m.view) && m.phase.k <= 2 * |m.lh| + 1
    requires m.phase.Recovery? ==> GoodList(c, m.phase.rlh) && m.phase.rk <= |m.phase.rlh|
    ensures m.phase.Up? && m.phase.k < |m.lh| ==>
              CommitNext(c, m) == m.(disk := m.disk[c.start + m.phase.k + 1 := m.view[m.lh[m.phase.k]]],
                                     phase := Up(m.phase.k + 1))
    ensures m.phase.Up? && m.phase.k == |m.lh| > 0 ==>
              CommitNext(c, m) == m.(disk := m.disk[c.start := PutHead(m.disk[c.start], m.lh)],
                                     phase := Up(m.phase.k + 1))
    ensures m.phase.Up? && |m.lh| < m.phase.k <= 2 * |m.lh| ==>
              var tail := m.phase.k - |m.lh| - 1;
              CommitNext(c, m) == m.(disk := m.disk[m.lh[tail] := m.disk[c.start + tail + 1]],
                                     phase := Up(m.phase.k + 1))
    ensures m.phase.Recovery? && m.phase.rk < |m.phase.rlh| ==>
              RecoverNext(c, m) == m.(disk := m.disk[m.phase.rlh[m.phase.rk] := m.disk[c.start + m.phase.rk + 1]],
                                      phase := Recovery(m.phase.rlh, m.phase.rk + 1))
    ensures m.phase.Recovery? && m.phase.rk == |m.phase.rlh| ==>
              RecoverNext(c, m) == m.(disk := m.disk[c.start := PutHead(m.disk[c.start], [])],
                                      phase := Recovery(m.phase.rlh, m.phase.rk + 1))
  {
    hide PutHead;
  }

  lemma SlotStep(c: Config, m: Machine, durable: Disk)
    requires Shape(c, m, durable) && m.phase.Up? && m.committing && m.phase.k < |m.lh|
    ensures m.lh[m.phase.k] in m.view
    ensures Shape(c, m.(disk := m.disk[c.start + m.phase.k + 1 := m.view[m.lh[m.phase.k]]],
                        phase := Up(m.phase.k + 1)), durable)
  {
    hide Shape, CommitNext, PutHead;
    ShapeReady(c, m, durable);
    CommitSlot(c, m, durable);
    StepWrites(c, m);
  }

  lemma HeadStep(c: Config, m: Machine, durable: Disk)
    requires Shape(c, m, durable) && m.phase.Up? && m.committing && m.phase.k == |m.lh| > 0
    requires forall b: nat | c.IsHome(b) && b !in m.lh :: b in m.view && b in durable && m.view[b] == durable[b]
    ensures c.Valid() && WholeDisk(c, m.disk) && GoodList(c, m.lh)
    ensures Shape(c, m.(disk := m.disk[c.start := PutHead(m.disk[c.start], m.lh)], phase := Up(m.phase.k + 1)), m.view)
  {
    hide Shape, CommitNext, PutHead;
    ShapeReady(c, m, durable);
    CommitHead(c, m, durable);
    StepWrites(c, m);
  }

  lemma InstallStep(c: Config, m: Machine, durable: Disk, tail: nat)
    requires Shape(c, m, durable) && m.phase.Up? && m.committing && tail < |m.lh| && m.phase.k == |m.lh| + 1 + tail
    ensures c.start + tail + 1 in m.disk
    ensures Shape(c, m.(disk := m.disk[m.lh[tail] := m.disk[c.start + tail + 1]], phase := Up(m.phase.k + 1)), durable)
  {
    hide Shape, CommitNext, PutHead;
    ShapeReady(c, m, durable);
    CommitInstall(c, m, durable);
    StepWrites(c, m);
  }

  lemma ClearStep(c: Config, m: Machine, durable: Disk)
    requires Shape(c, m, durable) && m.phase.Up? && m.committing && m.phase.k == 2 * |m.lh| + 1 && |m.lh| > 0
    ensures c.Valid() && WholeDisk(c, m.disk) && GoodList(c, [])
    ensures Shape(c, m.(disk := m.disk[c.start := PutHead(m.disk[c.start], [])], phase := Up(0), lh := []), durable)
  {
    CommitClear(c, m, durable);
  }

  lemma RestoreStep(c: Config, m: Machine, home: Disk)
    requires Shape(c, m, home) && m.phase.Recovery? && m.phase.rk < |m.phase.rlh|
    ensures c.start + m.phase.rk + 1 in m.disk
    ensures Shape(c, m.(disk := m.disk[m.phase.rlh[m.phase.rk] := m.disk[c.start + m.phase.rk + 1]],
                        phase := Recovery(m.phase.rlh, m.phase.rk + 1)), home)
  {
    hide Shape, RecoverNext, PutHead;
    ShapeReady(c, m, home);
    RecoverOne(c, m, home);
    StepWrites(c, m);
  }

  lemma EraseStep(c: Config, m: Machine, home: Disk)
    requires Shape(c, m, home) && m.phase.Recovery? && m.phase.rk == |m.phase.rlh|
    ensures c.Valid() && WholeDisk(c, m.disk) && GoodList(c, [])
    ensures Shape(c, m.(disk := m.disk[c.start := PutHead(m.disk[c.start], [])],
                        phase := Recovery(m.phase.rlh, m.phase.rk + 1)), home)
  {
    hide Shape, RecoverNext, PutHead;
    ShapeReady(c, m, home);
    RecoverClear(c, m, home);
    StepWrites(c, m);
  }

  lemma NothingLogged(c: Config, m: Machine, durable: Disk)
    requires Shape(c, m, durable) && m.phase == Up(0) && m.lh == []
    requires forall b: nat | c.IsHome(b) :: b in m.view && b in durable && m.view[b] == durable[b]
    ensures Shape(c, m, m.view) && m.view == durable
  {
    assert m.view == durable;
  }

  lemma ShapeRecovers(c: Config, m: Machine, durable: Disk)
    requires Shape(c, m, durable)
    ensures DiskOk(c, m.disk) && Recovered(c, m.disk) == durable
  {
    DiskIsRecoverable(c, m, durable);
    forall b: nat | c.IsHome(b)
      ensures b in Recovered(c, m.disk) && Recovered(c, m.disk)[b] == durable[b]
    {
      RecoveredBlock(c, m, durable, b);
    }
  }

  lemma ShapeHome(c: Config, m: Machine, durable: Disk)
    requires Shape(c, m, durable) && m.phase == Up(0)
    ensures Home(c, m.disk) == durable
  {
    assert HomeHolds(c, m.disk, durable, [], 0);
  }

  lemma RecoveryEnds(c: Config, m: Machine, home: Disk)
    requires Shape(c, m, home) && m.phase.Recovery? && m.phase.rk == |m.phase.rlh| + 1
    ensures Home(c, m.disk) == home && Head(m.disk[c.start]) == []
  {
    assert HomeHolds(c, m.disk, home, [], 0);
  }

  // ---- end_op takes the steps of the protocol ----

  ghost function Last(d0: Disk, ds: seq<Disk>): Disk {
    if ds == [] then d0 else ds[|ds| - 1]
  }

  /** ds are the disks after the first |ds| writes of a commit of lh that began on d0. */
  ghost predicate Steps(c: Config, d0: Disk, ds: seq<Disk>, view: Disk, lh: seq<nat>)
    requires c.Valid() && GoodList(c, lh) && HomeKeys(c, view)
  {
    ds == [] ||
    var k := |ds| - 1;
    var d := Last(d0, ds[..k]);
    && Steps(c, d0, ds[..k], view, lh) && WholeDisk(c, d) && k <= 2 * |lh| + 1
    && var w := CommitStep(c, d, view, lh, k);
       ds[k] == d[w.0 := w.1]
  }

  lemma StepsNone(c: Config, d0: Disk, view: Disk, lh: seq<nat>)
    requires c.Valid() && GoodList(c, lh) && HomeKeys(c, view)
    ensures Steps(c, d0, [], view, lh)
  {
  }

  lemma StepsMore(c: Config, d0: Disk, ds: seq<Disk>, view: Disk, lh: seq<nat>, d: Disk)
    requires c.Valid() && GoodList(c, lh) && HomeKeys(c, view) && Steps(c, d0, ds, view, lh)
    requires d == Last(d0, ds) && WholeDisk(c, d) && |ds| <= 2 * |lh| + 1
    ensures var w := CommitStep(c, d, view, lh, |ds|); Steps(c, d0, ds + [d[w.0 := w.1]], view, lh)
  {
    hide CommitStep;
    var w := CommitStep(c, d, view, lh, |ds|);
    assert (ds + [d[w.0 := w.1]])[..|ds|] == ds;
  }

  /** The end of operation o and then k writes of the commit. */
  ghost function Ends(o: OpId, k: nat): seq<Event> {
    if k == 0 then [EndOp(o)] else Ends(o, k - 1) + [CommitWrite]
  }

  /** Ready for the end of operation o, the only one active. */
  ghost predicate Ending(c: Config, s: State, o: OpId) {
    && Inv(c, s) && s.m.phase == Up(0) && s.h.active == {o}
    && c.Valid() && GoodList(c, s.m.lh) && HomeKeys(c, s.m.view)
  }

  /** The machine after k writes of the commit, with d on disk. */
  ghost function Committing(m: Machine, d: Disk, k: nat): Machine {
    var m' := m.(disk := d, outstanding := 0, committing := true);
    if k == 2 * |m.lh| + 2 then m'.(lh := [], phase := Up(0)) else m'.(phase := Up(k))
  }

  lemma EndStarts(c: Config, s: State, o: OpId)
    requires Ending(c, s, o)
    ensures Exec(c, s, [EndOp(o)]).Some? && Exec(c, s, [EndOp(o)]).value.m == Committing(s.m, s.m.disk, 0)
  {
    EndsLast(c, s, o);
    ExecEmpty(c, s);
    ExecSnoc(c, s, [], EndOp(o));
    assert [] + [EndOp(o)] == [EndOp(o)];
    hide Exec, Shape, FateInv, ViewInv;
  }

  lemma CommitGoes(c: Config, s: State, m: Machine, d: Disk, k: nat)
    requires Inv(c, s) && s.m == Committing(m, d, k) && k <= 2 * |m.lh| + 1 && m.lh != []
    requires c.Valid() && WholeDisk(c, d) && GoodList(c, m.lh) && HomeKeys(c, m.view)
    ensures Enabled(c, s, CommitWrite)
    ensures var w := CommitStep(c, d, m.view, m.lh, k);
            Next(c, s, CommitWrite).m == Committing(m, d[w.0 := w.1], k + 1)
  {
    hide Inv, CommitStep;
  }

  lemma {:induction false} EndRuns(c: Config, s: State, o: OpId, ds: seq<Disk>)
    requires Ending(c, s, o) && s.m.lh != [] && Steps(c, s.m.disk, ds, s.m.view, s.m.lh)
    ensures Exec(c, s, Ends(o, |ds|)).Some?
    ensures Exec(c, s, Ends(o, |ds|)).value.m == Committing(s.m, Last(s.m.disk, ds), |ds|)
    decreases |ds|
  {
    hide Exec, Enabled, Next, Inv, Committing;
    if ds == [] {
      EndStarts(c, s, o);
    } else {
      var k := |ds| - 1;
      EndRuns(c, s, o, ds[..k]);
      CommitGoes(c, Exec(c, s, Ends(o, k)).value, s.m, Last(s.m.disk, ds[..k]), k);
      ExecSnoc(c, s, Ends(o, k), CommitWrite);
    }
  }

  /** EndOp refines the protocol: the disks its contract lists for the last operation are, write by write,
      those of a run of LogSpec that ends o, makes every write of the commit and is done. */
  lemma EndOpRuns(c: Config, s: State, o: OpId, ds: seq<Disk>)
    requires Ending(c, s, o)
    requires if s.m.lh == [] then ds == [] else |ds| == 2 * |s.m.lh| + 2 && Steps(c, s.m.disk, ds, s.m.view, s.m.lh)
    ensures forall k | 0 <= k <= |ds| ::
              && Exec(c, s, Ends(o, k)).Some?
              && Exec(c, s, Ends(o, k)).value.m.disk == Last(s.m.disk, ds[..k])
    ensures var r := Exec(c, s, Ends(o, |ds|) + [CommitDone]);
            && r.Some?
            && r.value.m == s.m.(disk := Last(s.m.disk, ds), lh := [], outstanding := 0, committing := false)
  {
    hide Exec, Inv, Steps, Enabled, Next, Committing;
    forall k | 0 <= k <= |ds|
      ensures Exec(c, s, Ends(o, k)).Some? && Exec(c, s, Ends(o, k)).value.m.disk == Last(s.m.disk, ds[..k])
    {
      EndRunsTo(c, s, o, ds, k);
      CommittingDisk(s.m, Last(s.m.disk, ds[..k]), k);
    }
    EndRunsTo(c, s, o, ds, |ds|);
    assert ds[..|ds|] == ds;
    DoneGoes(c, Exec(c, s, Ends(o, |ds|)).value, s.m, Last(s.m.disk, ds), |ds|);
    ExecSnoc(c, s, Ends(o, |ds|), CommitDone);
  }

  lemma EndRunsTo(c: Config, s: State, o: OpId, ds: seq<Disk>, k: nat)
    requires Ending(c, s, o) && k <= |ds|
    requires if s.m.lh == [] then ds == [] else |ds| == 2 * |s.m.lh| + 2 && Steps(c, s.m.disk, ds, s.m.view, s.m.lh)
    ensures Exec(c, s, Ends(o, k)).Some?
    ensures Exec(c, s, Ends(o, k)).value.m == Committing(s.m, Last(s.m.disk, ds[..k]), k)
  {
    hide Exec, Inv, Steps, Committing;
    if s.m.lh == [] {
      EndStarts(c, s, o);
    } else {
      StepsPrefix(c, s.m.disk, ds, s.m.view, s.m.lh, k);
      EndRuns(c, s, o, ds[..k]);
    }
  }

  lemma CommittingDisk(m: Machine, d: Disk, k: nat)
    ensures Committing(m, d, k).disk == d
  {
  }

  lemma DoneGoes(c: Config, s: State, m: Machine, d: Disk, k: nat)
    requires Inv(c, s) && s.m == Committing(m, d, k) && m.phase == Up(0)
    requires k == if m.lh == [] then 0 else 2 * |m.lh| + 2
    ensures Enabled(c, s, CommitDone)
    ensures Next(c, s, CommitDone).m == m.(disk := d, lh := [], outstanding := 0, committing := false)
  {
    hide Inv;
  }

  lemma {:induction false} StepsPrefix(c: Config, d0: Disk, ds: seq<Disk>, view: Disk, lh: seq<nat>, k: nat)
    requires c.Valid() && GoodList(c, lh) && HomeKeys(c, view) && Steps(c, d0, ds, view, lh) && k <= |ds|
    ensures Steps(c, d0, ds[..k], view, lh)
    decreases |ds|
  {
    hide CommitStep;
    if k == |ds| {
      assert ds[..k] == ds;
    } else {
      StepsPrefix(c, d0, ds[..|ds| - 1], view, lh, k);
      assert ds[..|ds| - 1][..k] == ds[..k];
    }
  }
}
