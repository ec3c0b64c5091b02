/** The redo log of kernel/log.c as a transition system. One step is one lock region
    (begin_op, log_write, end_op) or one disk write (write_log, write_head,
    install_trans, recovery); a crash may come between any two steps. */
module LogSpec {
  import opened Prelude
  import opened Blocks

  const LOGSIZE: nat := 30

  type Disk = map<nat, Block>
  type OpId = nat

  /** log.start, log.size (the header and the slots after it) and the number of blocks of the disk. */
  datatype Config = Config(start: nat, size: nat, nblocks: nat) {
    predicate Valid() {
      1 <= size && start + size <= nblocks <= WORD
    }

    predicate InLog(b: nat) {
      start <= b < start + size
    }

    /** A block outside the log area. */
    predicate IsHome(b: nat) {
      b < nblocks && !InLog(b)
    }
  }

  ghost predicate WholeDisk(c: Config, d: Disk) {
    forall b: nat :: b < c.nblocks <==> b in d
  }

  /** The blocks outside the log area. */
  ghost function Home(c: Config, d: Disk): Disk {
    map b | b in d && c.IsHome(b) :: d[b]
  }

  // ---- the header block ----

  ghost predicate HeadFits(h: Block) {
    GetWord(h, 0) <= LOGSIZE
  }

  /** The list of home block numbers a header holds. */
  ghost function Head(h: Block): (lh: seq<nat>)
    requires HeadFits(h)
    ensures |lh| == GetWord(h, 0)
  {
    seq(GetWord(h, 0), i requires 0 <= i < GetWord(h, 0) => GetWord(h, i + 1))
  }

  ghost function PutWords(h: Block, at: nat, ws: seq<nat>): (r: Block)
    requires at + |ws| <= NWORDS && forall i | 0 <= i < |ws| :: ws[i] < WORD
    ensures forall i | 0 <= i < |ws| :: GetWord(r, at + i) == ws[i]
    ensures forall j: nat {:trigger GetWord(r, j)} | j < at :: GetWord(r, j) == GetWord(h, j)
  {
    if ws == [] then h
    else
      var r := PutWord(PutWords(h, at, ws[..|ws| - 1]), at + |ws| - 1, ws[|ws| - 1]);
      r
  }

  /** What write_head leaves in the header buffer: the entries beyond n are not cleared. */
  ghost function PutHead(h: Block, lh: seq<nat>): (r: Block)
    requires |lh| <= LOGSIZE && forall i | 0 <= i < |lh| :: lh[i] < WORD
    ensures HeadFits(r) && Head(r) == lh
  {
    PutWords(PutWord(h, 0, |lh|), 1, lh)
  }

  /** A list that log_write can have built: distinct home blocks that fit the slots. */
  ghost predicate GoodList(c: Config, lh: seq<nat>) {
    && |lh| <= LOGSIZE && |lh| <= c.size - 1
    && (forall i | 0 <= i < |lh| :: c.IsHome(lh[i]))
    && (forall i, j | 0 <= i < j < |lh| :: lh[i] != lh[j])
  }

  // ---- recovery as a function of the disk ----

  /** The disk after copying log slots 0..k-1 to their home blocks. */
  ghost function Install(c: Config, d: Disk, lh: seq<nat>, k: nat): Disk
    requires k <= |lh| && c.Valid() && WholeDisk(c, d) && GoodList(c, lh)
    ensures WholeDisk(c, Install(c, d, lh, k))
  {
    if k == 0 then d else Install(c, d, lh, k - 1)[lh[k - 1] := d[c.start + k]]
  }

  lemma {:induction false} InstallAt(c: Config, d: Disk, lh: seq<nat>, k: nat, b: nat)
    requires c.Valid() && WholeDisk(c, d) && GoodList(c, lh) && k <= |lh| && b < c.nblocks
    ensures forall j | 0 <= j < k && lh[j] == b :: Install(c, d, lh, k)[b] == d[c.start + 1 + j]
    ensures (forall j | 0 <= j < k :: lh[j] != b) ==> Install(c, d, lh, k)[b] == d[b]
  {
    if k == 0 {
    } else {
      InstallAt(c, d, lh, k - 1, b);
    }
  }

  ghost predicate DiskOk(c: Config, d: Disk) {
    c.Valid() && WholeDisk(c, d) && HeadFits(d[c.start]) && GoodList(c, Head(d[c.start]))
  }

  /** The home blocks that recover_from_log leaves, were it to run uninterrupted on d. */
  ghost function Recovered(c: Config, d: Disk): Disk
    requires DiskOk(c, d)
  {
    var lh := Head(d[c.start]);
    Home(c, Install(c, d, lh, |lh|))
  }

  /** Recovered, block by block. */
  lemma RecoveredAt(c: Config, d: Disk, b: nat)
    requires DiskOk(c, d) && c.IsHome(b)
    ensures b in Recovered(c, d)
    ensures var lh := Head(d[c.start]);
            && (forall j | 0 <= j < |lh| && lh[j] == b :: Recovered(c, d)[b] == d[c.start + 1 + j])
            && (b !in lh ==> Recovered(c, d)[b] == d[b])
  {
    var lh := Head(d[c.start]);
    InstallAt(c, d, lh, |lh|, b);
  }

  // ---- the machine ----

  /** One log_write: operation op gives block b the contents v. */
  datatype Update = Update(op: OpId, b: nat, v: Block)

  /** Up(k): running, k disk writes of the current commit done. Recovery(lh, k): after a crash,
      with the header read and k disk writes of recovery done. */
  datatype Phase = Up(k: nat) | Recovery(rlh: seq<nat>, rk: nat)

  /** `view` is what a read through the buffer cache returns for a home block. */
  datatype Machine = Machine(
    disk: Disk,
    phase: Phase,
    lh: seq<nat>,
    outstanding: int,
    committing: bool,
    view: Disk)

  datatype Fate = Running | Ended | Durable(g: nat) | Lost

  /** What happened, kept beside the machine: `logged[o]` the distinct blocks o has logged,
      `added[o]` those it added to the header list, `did[o]` all its updates, `groups` the
      updates of each commit whose header reached the disk, `pending` those since. */
  datatype History = History(
    base: Disk,
    active: set<OpId>,
    logged: map<OpId, set<nat>>,
    added: map<OpId, set<nat>>,
    did: map<OpId, seq<Update>>,
    fate: map<OpId, Fate>,
    groups: seq<seq<Update>>,
    pending: seq<Update>)

  datatype State = State(m: Machine, h: History)

  datatype Event =
    | BeginOp(o: OpId)
    | LogWrite(o: OpId, b: nat, v: Block)
    | EndOp(o: OpId)
    | CommitWrite
    | CommitDone
    | Crash
    | RecoverWrite
    | RecoverDone

  /** begin_op's test for waiting. */
  predicate MustWait(m: Machine) {
    m.committing || |m.lh| + (m.outstanding + 1) * MAXOPBLOCKS > LOGSIZE
  }

  /** log_write's two panics. */
  predicate LogWritePanics(c: Config, m: Machine) {
    |m.lh| >= LOGSIZE || |m.lh| >= c.size - 1 || m.outstanding < 1
  }

  /** The k-th disk write of commit(), given the disk it is made on. */
  ghost function CommitStep(c: Config, d: Disk, view: Disk, lh: seq<nat>, k: nat): (w: (nat, Block))
    requires c.Valid() && WholeDisk(c, d) && GoodList(c, lh) && k <= 2 * |lh| + 1
    requires forall i | 0 <= i < |lh| :: lh[i] in view
  {
    var n := |lh|;
    if k < n then (c.start + 1 + k, view[lh[k]])
    else if k == n then (c.start, PutHead(d[c.start], lh))
    else if k <= 2 * n then (lh[k - n - 1], d[c.start + (k - n)])
    else (c.start, PutHead(d[c.start], []))
  }

  /** The k-th disk write of recover_from_log(). */
  ghost function RecoverStep(c: Config, d: Disk, lh: seq<nat>, k: nat): (w: (nat, Block))
    requires c.Valid() && WholeDisk(c, d) && GoodList(c, lh) && k <= |lh|
  {
    if k < |lh| then (lh[k], d[c.start + 1 + k]) else (c.start, PutHead(d[c.start], []))
  }

  // ---- the invariant ----

  ghost function ApplyUpdates(d: Disk, us: seq<Update>): Disk {
    if us == [] then d
    else ApplyUpdates(d, us[..|us| - 1])[us[|us| - 1].b := us[|us| - 1].v]
  }

  /** The home blocks after the given groups of updates. */
  ghost function ApplyGroups(d: Disk, gs: seq<seq<Update>>): Disk {
    if gs == [] then d
    else ApplyUpdates(ApplyGroups(d, gs[..|gs| - 1]), gs[|gs| - 1])
  }

  /** The home blocks the committed groups stand for. */
  ghost function DurableHome(h: History): Disk {
    ApplyGroups(h.base, h.groups)
  }

  ghost function Filter(us: seq<Update>, o: OpId): seq<Update> {
    if us == [] then []
    else Filter(us[..|us| - 1], o) + if us[|us| - 1].op == o then [us[|us| - 1]] else []
  }

  ghost predicate HomeKeys(c: Config, d: Disk) {
    forall b: nat :: c.IsHome(b) <==> b in d
  }

  ghost predicate SlotsHold(c: Config, d: Disk, view: Disk, lh: seq<nat>, k: nat)
    requires c.Valid() && WholeDisk(c, d) && GoodList(c, lh) && k <= |lh|
  {
    forall j | 0 <= j < k :: lh[j] in view && d[c.start + 1 + j] == view[lh[j]]
  }

  /** Home block b of d has its value in view, unless it waits in position k or later of lh. */
  ghost predicate HomeHolds(c: Config, d: Disk, view: Disk, lh: seq<nat>, k: nat)
    requires WholeDisk(c, d) && HomeKeys(c, view)
  {
    forall b: nat | c.IsHome(b) && b !in lh[Min(k, |lh|)..] :: d[b] == view[b]
  }

  function Min(a: nat, b: nat): nat {
    if a < b then a else b
  }

  /** How far the disk is from the durable home blocks, by phase. */
  ghost predicate PhaseInv(c: Config, m: Machine, durable: Disk)
    requires c.Valid() && WholeDisk(c, m.disk) && HeadFits(m.disk[c.start]) && HomeKeys(c, durable)
  {
    match m.phase
    case Up(k) =>
      var n := |m.lh|;
      && GoodList(c, m.lh) && HomeKeys(c, m.view)
      && (k > 0 ==> m.committing && n > 0 && k <= 2 * n + 1)
      && (k <= n ==> && Head(m.disk[c.start]) == []
                     && HomeHolds(c, m.disk, durable, [], 0)
                     && SlotsHold(c, m.disk, m.view, m.lh, k))
      && (k > n ==> && Head(m.disk[c.start]) == m.lh
                    && m.view == durable
                    && SlotsHold(c, m.disk, m.view, m.lh, n)
                    && HomeHolds(c, m.disk, m.view, m.lh, k - n - 1))
    case Recovery(rlh, k) =>
      && GoodList(c, rlh) && k <= |rlh| + 1
      && m.lh == [] && m.outstanding == 0 && !m.committing
      && (k <= |rlh| ==> && Head(m.disk[c.start]) == rlh
                         && SlotsHold(c, m.disk, durable, rlh, |rlh|)
                         && HomeHolds(c, m.disk, durable, rlh, 0)
                         && HomeHolds(c, m.disk, durable, rlh, k))
      && (k == |rlh| + 1 ==> Head(m.disk[c.start]) == [] && HomeHolds(c, m.disk, durable, [], 0))
  }

  /** Total of the blocks the active operations may still add. */
  ghost function Slack(active: set<OpId>, added: map<OpId, set<nat>>): int
    requires forall o | o in active :: o in added
  {
    if active == {} then 0
    else
      var o :| o in active;
      MAXOPBLOCKS - |added[o]| + Slack(active - {o}, added)
  }

  /** lh.n plus what the active operations may still add fits the log. */
  ghost predicate ReserveInv(lh: seq<nat>, outstanding: int, committing: bool, h: History) {
    && outstanding == |h.active|
    && (committing ==> h.active == {})
    && (h.active == {} && !committing ==> lh == [])
    && (forall o | o in h.active ::
          o in h.added && o in h.logged && h.added[o] <= h.logged[o] && |h.logged[o]| <= MAXOPBLOCKS)
    && (forall o, b | o in h.active && b in h.added[o] :: b in lh)
    && |lh| + Slack(h.active, h.added) <= LOGSIZE
  }

  /** Updates of committed group g belong to operations whose fate is Durable(g); pending
      updates to operations that run or have ended since; and what an operation did is
      found there whole. */
  ghost predicate FateInv(c: Config, h: History, lh: seq<nat>) {
    && (forall o | o in h.fate :: o in h.did)
    && (forall o :: o in h.active <==> o in h.fate && h.fate[o] == Running)
    && (forall g, i | 0 <= g < |h.groups| && 0 <= i < |h.groups[g]| ::
          && c.IsHome(h.groups[g][i].b)
          && h.groups[g][i].op in h.fate && h.fate[h.groups[g][i].op] == Durable(g))
    && (forall i | 0 <= i < |h.pending| ::
          && c.IsHome(h.pending[i].b) && h.pending[i].b in lh
          && h.pending[i].op in h.fate && h.fate[h.pending[i].op] in {Running, Ended})
    && (forall o | o in h.fate && h.fate[o] in {Running, Ended} :: Filter(h.pending, o) == h.did[o])
    && (forall o | o in h.fate && h.fate[o].Durable? ::
          h.fate[o].g < |h.groups| && Filter(h.groups[h.fate[o].g], o) == h.did[o])
  }

  /** The cache shows the committed groups and the pending updates on top. */
  ghost predicate ViewInv(m: Machine, h: History) {
    && (m.phase.Up? ==> m.view == ApplyUpdates(DurableHome(h), h.pending))
    && (m.phase.Recovery? ==> h.pending == [] && h.active == {})
    && (m.phase.Up? && m.phase.k > |m.lh| ==> h.pending == [])
  }

  ghost predicate Shape(c: Config, m: Machine, durable: Disk) {
    && c.Valid() && WholeDisk(c, m.disk) && HeadFits(m.disk[c.start]) && HomeKeys(c, durable)
    && PhaseInv(c, m, durable)
  }

  ghost predicate Inv(c: Config, s: State) {
    && Shape(c, s.m, DurableHome(s.h))
    && FateInv(c, s.h, s.m.lh)
    && ViewInv(s.m, s.h)
    && ReserveInv(s.m.lh, s.m.outstanding, s.m.committing, s.h)
  }

  /** initlog has been called on any disk that can be recovered, with or without a committed group in
      its log. */
  ghost predicate Init(c: Config, s: State) {
    && DiskOk(c, s.m.disk)
    && s.m == Machine(s.m.disk, Recovery(Head(s.m.disk[c.start]), 0), [], 0, false, map[])
    && s.h == History(Recovered(c, s.m.disk), {}, map[], map[], map[], map[], [], [])
  }

  // ---- steps ----

  ghost predicate Enabled(c: Config, s: State, e: Event) {
    var m := s.m;
    match e
    case BeginOp(o) => m.phase.Up? && !MustWait(m) && o !in s.h.fate
    case LogWrite(o, b, v) =>
      // an operation logs at most MAXOPBLOCKS distinct home blocks
      && m.phase.Up? && o in s.h.active && o in s.h.logged && c.IsHome(b)
      && |s.h.logged[o] + {b}| <= MAXOPBLOCKS && !LogWritePanics(c, m)
    case EndOp(o) => m.phase.Up? && o in s.h.active
    case CommitWrite => m.phase.Up? && m.committing && m.lh != [] && m.phase.k <= 2 * |m.lh| + 1
    case CommitDone => m.phase.Up? && m.committing && m.lh == []
    case Crash => true
    case RecoverWrite => m.phase.Recovery? && m.phase.rk <= |m.phase.rlh|
    case RecoverDone => m.phase.Recovery? && m.phase.rk == |m.phase.rlh| + 1
  }

  /** Ended operations of the group being committed become durable. */
  ghost function MakeDurable(fate: map<OpId, Fate>, g: nat): map<OpId, Fate> {
    map o | o in fate :: if fate[o] == Ended then Durable(g) else fate[o]
  }

  ghost function MakeLost(fate: map<OpId, Fate>): map<OpId, Fate> {
    map o | o in fate :: if fate[o].Durable? then fate[o] else Lost
  }

  ghost function CommitNext(c: Config, m: Machine): Machine
    requires c.Valid() && WholeDisk(c, m.disk) && GoodList(c, m.lh) && HomeKeys(c, m.view)
    requires m.phase.Up? && m.phase.k <= 2 * |m.lh| + 1
  {
    var w := CommitStep(c, m.disk, m.view, m.lh, m.phase.k);
    var m' := m.(disk := m.disk[w.0 := w.1], phase := Up(m.phase.k + 1));
    // the last write clears the header
    if m.phase.k == 2 * |m.lh| + 1 then m'.(lh := [], phase := Up(0)) else m'
  }

  ghost function RecoverNext(c: Config, m: Machine): Machine
    requires c.Valid() && WholeDisk(c, m.disk) && m.phase.Recovery?
    requires GoodList(c, m.phase.rlh) && m.phase.rk <= |m.phase.rlh|
  {
    var w := RecoverStep(c, m.disk, m.phase.rlh, m.phase.rk);
    m.(disk := m.disk[w.0 := w.1], phase := Recovery(m.phase.rlh, m.phase.rk + 1))
  }

  ghost function Next(c: Config, s: State, e: Event): State
    requires Inv(c, s) && Enabled(c, s, e)
  {
    var m, h := s.m, s.h;
    match e
    case BeginOp(o) =>
      State(m.(outstanding := m.outstanding + 1),
            h.(active := h.active + {o}, logged := h.logged[o := {}], added := h.added[o := {}],
            did := h.did[o := []], fate := h.fate[o := Running]))
    case LogWrite(o, b, v) =>
      // log absorption: a block already in the list is not added again
      State(m.(lh := if b in m.lh then m.lh else m.lh + [b], view := m.view[b := v]),
            h.(logged := h.logged[o := h.logged[o] + {b}],
            added := if b in m.lh then h.added else h.added[o := h.added[o] + {b}],
            did := h.did[o := h.did[o] + [Update(o, b, v)]],
            pending := h.pending + [Update(o, b, v)]))
    case EndOp(o) =>
      State(m.(outstanding := m.outstanding - 1, committing := m.outstanding == 1),
            h.(active := h.active - {o}, fate := h.fate[o := Ended]))
    case CommitWrite =>
      // the write of the header is the commit point
      State(CommitNext(c, m),
            if m.phase.k == |m.lh| then
              h.(groups := h.groups + [h.pending], pending := [], fate := MakeDurable(h.fate, |h.groups|))
            else h)
    case CommitDone => State(m.(committing := false, phase := Up(0)), h)
    case Crash =>
      State(m.(phase := Recovery(Head(m.disk[c.start]), 0), lh := [], outstanding := 0, committing := false,
            view := map[]),
            h.(active := {}, pending := [], fate := MakeLost(h.fate)))
    case RecoverWrite => State(RecoverNext(c, m), h)
    case RecoverDone => State(m.(phase := Up(0), view := Home(c, m.disk)), h)
  }

  // ---- every step keeps the invariant ----

  lemma FilterNone(us: seq<Update>, o: OpId)
    requires forall i | 0 <= i < |us| :: us[i].op != o
    ensures Filter(us, o) == []
  {
  }

  lemma {:induction false} SlackRemove(active: set<OpId>, added: map<OpId, set<nat>>, o: OpId)
    requires forall x | x in active :: x in added
    requires o in active
    ensures Slack(active, added) == MAXOPBLOCKS - |added[o]| + Slack(active - {o}, added)
    decreases active
  {
    var p :| p in active && Slack(active, added) == MAXOPBLOCKS - |added[p]| + Slack(active - {p}, added);
    if p != o {
      SlackRemove(active - {p}, added, o);
      SlackRemove(active - {o}, added, p);
      assert active - {p} - {o} == active - {o} - {p};
    }
  }

  lemma {:induction false} SlackFrame(active: set<OpId>, added: map<OpId, set<nat>>, added': map<OpId, set<nat>>)
    requires forall x | x in active :: x in added && x in added' && added[x] == added'[x]
    ensures Slack(active, added) == Slack(active, added')
    decreases active
  {
    if active != {} {
      var p :| p in active && Slack(active, added) == MAXOPBLOCKS - |added[p]| + Slack(active - {p}, added);
      SlackFrame(active - {p}, added, added');
      SlackRemove(active, added', p);
    }
  }

  lemma {:induction false} SlackBounds(active: set<OpId>, added: map<OpId, set<nat>>)
    requires forall x | x in active :: x in added && |added[x]| <= MAXOPBLOCKS
    ensures 0 <= Slack(active, added) <= |active| * MAXOPBLOCKS
    decreases active
  {
    if active != {} {
      var p :| p in active && Slack(active, added) == MAXOPBLOCKS - |added[p]| + Slack(active - {p}, added);
      SlackBounds(active - {p}, added);
    }
  }

  lemma BeginReserve(lh: seq<nat>, outstanding: int, h: History, h': History, o: OpId)
    requires ReserveInv(lh, outstanding, false, h) && o !in h.active
    requires |lh| + (outstanding + 1) * MAXOPBLOCKS <= LOGSIZE
    requires h'.active == h.active + {o} && h'.logged == h.logged[o := {}] && h'.added == h.added[o := {}]
    ensures ReserveInv(lh, outstanding + 1, false, h')
  {
    forall x | x in h.active ensures |h.added[x]| <= MAXOPBLOCKS {
      SubsetCard(h.added[x], h.logged[x]);
    }
    SlackBounds(h.active, h.added);
    SlackRemove(h'.active, h'.added, o);
    assert h'.active - {o} == h.active;
    SlackFrame(h.active, h.added, h'.added);
  }

  lemma BeginFate(c: Config, h: History, h': History, lh: seq<nat>, o: OpId)
    requires FateInv(c, h, lh) && o !in h.fate
    requires h' == h.(active := h.active + {o}, logged := h'.logged, added := h'.added,
                      did := h.did[o := []], fate := h.fate[o := Running])
    ensures FateInv(c, h', lh)
  {
    FilterNone(h.pending, o);
  }

  lemma BeginOpKeeps(c: Config, s: State, o: OpId)
    requires Inv(c, s) && Enabled(c, s, BeginOp(o))
    ensures Inv(c, Next(c, s, BeginOp(o)))
  {
    var s' := Next(c, s, BeginOp(o));
    BeginReserve(s.m.lh, s.m.outstanding, s.h, s'.h, o);
    BeginFate(c, s.h, s'.h, s.m.lh, o);
  }

  lemma AddReserve(lh: seq<nat>, outstanding: int, committing: bool, h: History, h': History, o: OpId, b: nat)
    requires ReserveInv(lh, outstanding, committing, h) && o in h.active && |h.logged[o] + {b}| <= MAXOPBLOCKS
    requires h'.active == h.active && h'.logged == h.logged[o := h.logged[o] + {b}]
    requires h'.added == if b in lh then h.added else h.added[o := h.added[o] + {b}]
    ensures ReserveInv(if b in lh then lh else lh + [b], outstanding, committing, h')
  {
    if b !in lh {
      assert b !in h.added[o];
      SlackRemove(h.active, h.added, o);
      SlackRemove(h.active, h'.added, o);
      SlackFrame(h.active - {o}, h.added, h'.added);
      assert |h'.added[o]| == |h.added[o]| + 1;
    }
  }

  lemma AddFate(c: Config, h: History, h': History, lh: seq<nat>, lh': seq<nat>, o: OpId, b: nat, v: Block)
    requires FateInv(c, h, lh) && o in h.active && c.IsHome(b)
    requires lh <= lh' && b in lh'
    requires h' == h.(logged := h'.logged, added := h'.added,
                      did := h.did[o := h.did[o] + [Update(o, b, v)]], pending := h.pending + [Update(o, b, v)])
    ensures FateInv(c, h', lh')
  {
    assert h'.pending[..|h.pending|] == h.pending;
    forall x | x in h'.fate && h'.fate[x] in {Running, Ended} ensures Filter(h'.pending, x) == h'.did[x] {
    }
    forall i | 0 <= i < |h'.pending| ensures h'.pending[i].b in lh' {
      if i < |h.pending| {
        assert h'.pending[i] == h.pending[i];
      }
    }
  }

  lemma AddUp(c: Config, m: Machine, m': Machine, durable: Disk, b: nat, v: Block)
    requires Shape(c, m, durable) && m.phase.Up? && !m.committing && !LogWritePanics(c, m) && c.IsHome(b)
    requires m' == m.(lh := if b in m.lh then m.lh else m.lh + [b], view := m.view[b := v])
    ensures Shape(c, m', durable)
  {
    assert GoodList(c, m'.lh);
  }

  lemma LogWriteKeeps(c: Config, s: State, o: OpId, b: nat, v: Block)
    requires Inv(c, s) && Enabled(c, s, LogWrite(o, b, v))
    ensures Inv(c, Next(c, s, LogWrite(o, b, v)))
  {
    var s' := Next(c, s, LogWrite(o, b, v));
    AddReserve(s.m.lh, s.m.outstanding, s.m.committing, s.h, s'.h, o, b);
    AddFate(c, s.h, s'.h, s.m.lh, s'.m.lh, o, b, v);
    AddUp(c, s.m, s'.m, DurableHome(s.h), b, v);
    assert s'.h.pending[..|s.h.pending|] == s.h.pending;
    assert ViewInv(s'.m, s'.h);
  }

  lemma EndReserve(lh: seq<nat>, outstanding: int, committing: bool, h: History, h': History, o: OpId)
    requires ReserveInv(lh, outstanding, committing, h) && o in h.active
    requires h'.active == h.active - {o} && h'.logged == h.logged && h'.added == h.added
    ensures ReserveInv(lh, outstanding - 1, outstanding == 1, h')
  {
    SlackRemove(h.active, h.added, o);
    SubsetCard(h.added[o], h.logged[o]);
  }

  lemma EndFate(c: Config, h: History, h': History, lh: seq<nat>, o: OpId)
    requires FateInv(c, h, lh) && o in h.active
    requires h' == h.(active := h.active - {o}, fate := h.fate[o := Ended])
    ensures FateInv(c, h', lh)
  {
  }

  lemma EndOpKeeps(c: Config, s: State, o: OpId)
    requires Inv(c, s) && Enabled(c, s, EndOp(o))
    ensures Inv(c, Next(c, s, EndOp(o)))
  {
    var s' := Next(c, s, EndOp(o));
    EndReserve(s.m.lh, s.m.outstanding, s.m.committing, s.h, s'.h, o);
    EndFate(c, s.h, s'.h, s.m.lh, o);
  }

  lemma CommitDoneKeeps(c: Config, s: State)
    requires Inv(c, s) && Enabled(c, s, CommitDone)
    ensures Inv(c, Next(c, s, CommitDone))
  {
  }

  /** Writing a log slot leaves the header and the home blocks alone. */
  lemma CommitSlot(c: Config, m: Machine, durable: Disk)
    requires Shape(c, m, durable) && m.phase.Up? && m.committing && m.phase.k < |m.lh|
    ensures Shape(c, CommitNext(c, m), durable)
  {
    hide HeadFits, Head, PutHead;
    var m' := CommitNext(c, m);
    assert m'.disk[c.start] == m.disk[c.start];
    SlotNext(c, m.disk, m'.disk, m.view, m.lh, m.phase.k);
    assert HomeHolds(c, m'.disk, durable, [], 0);
  }

  lemma SlotNext(c: Config, d: Disk, d': Disk, view: Disk, lh: seq<nat>, k: nat)
    requires c.Valid() && WholeDisk(c, d) && WholeDisk(c, d') && GoodList(c, lh) && k < |lh| && lh[k] in view
    requires SlotsHold(c, d, view, lh, k)
    requires d' == d[c.start + 1 + k := view[lh[k]]]
    ensures SlotsHold(c, d', view, lh, k + 1)
  {
    forall j | 0 <= j < k + 1 ensures lh[j] in view && d'[c.start + 1 + j] == view[lh[j]] {
    }
  }

  lemma CommitSlotKeeps(c: Config, s: State)
    requires Inv(c, s) && Enabled(c, s, CommitWrite) && s.m.phase.k < |s.m.lh|
    ensures Inv(c, Next(c, s, CommitWrite))
  {
    hide FateInv, ReserveInv, Shape, CommitStep;
    CommitSlot(c, s.m, DurableHome(s.h));
  }

  lemma ApplyUntouched(c: Config, d: Disk, us: seq<Update>, lh: seq<nat>)
    requires HomeKeys(c, d) && forall i | 0 <= i < |us| :: c.IsHome(us[i].b) && us[i].b in lh
    ensures HomeKeys(c, ApplyUpdates(d, us))
    ensures forall b: nat | c.IsHome(b) && b !in lh :: ApplyUpdates(d, us)[b] == d[b]
  {
  }

  /** Writing the header, the commit point, makes the list in the log the one to be recovered. */
  lemma CommitHead(c: Config, m: Machine, durable: Disk)
    requires Shape(c, m, durable) && m.phase.Up? && m.committing && m.phase.k == |m.lh| > 0
    requires forall b: nat | c.IsHome(b) && b !in m.lh :: m.view[b] == durable[b]
    ensures Shape(c, CommitNext(c, m), m.view)
  {
    hide HeadFits, Head, PutHead;
    var m' := CommitNext(c, m);
    assert m.lh[0..] == m.lh;
    assert SlotsHold(c, m'.disk, m.view, m.lh, |m.lh|);
    assert HomeHolds(c, m'.disk, m.view, m.lh, 0);
  }

  lemma CommitFate(c: Config, h: History, h': History, lh: seq<nat>)
    requires FateInv(c, h, lh) && h.active == {}
    requires h' == h.(groups := h.groups + [h.pending], pending := [], fate := MakeDurable(h.fate, |h.groups|))
    ensures FateInv(c, h', lh)
  {
  }

  lemma CommitHeadKeeps(c: Config, s: State)
    requires Inv(c, s) && Enabled(c, s, CommitWrite) && s.m.phase.k == |s.m.lh|
    ensures Inv(c, Next(c, s, CommitWrite))
    ensures DurableHome(Next(c, s, CommitWrite).h) == s.m.view
  {
    var s' := Next(c, s, CommitWrite);
    var h, h' := s.h, s'.h;
    assert h'.groups[..|h.groups|] == h.groups;
    assert DurableHome(h') == ApplyUpdates(DurableHome(h), h.pending) == s.m.view;
    ApplyUntouched(c, DurableHome(h), h.pending, s.m.lh);
    CommitHead(c, s.m, DurableHome(h));
    CommitFate(c, h, h', s.m.lh);
    assert ReserveInv(s'.m.lh, s'.m.outstanding, s'.m.committing, h');
  }

  /** Copying a slot to its home block. */
  lemma CommitInstall(c: Config, m: Machine, durable: Disk)
    requires Shape(c, m, durable) && m.phase.Up? && m.committing && |m.lh| < m.phase.k <= 2 * |m.lh|
    ensures Shape(c, CommitNext(c, m), durable)
  {
    hide HeadFits, Head, PutHead, SlotsHold, HomeHolds;
    var m' := CommitNext(c, m);
    InstallOne(c, m.disk, m'.disk, m.view, m.lh, m.phase.k - |m.lh| - 1);
  }

  lemma InstallOne(c: Config, d: Disk, d': Disk, view: Disk, lh: seq<nat>, k: nat)
    requires c.Valid() && WholeDisk(c, d) && HomeKeys(c, view) && GoodList(c, lh) && k < |lh|
    requires SlotsHold(c, d, view, lh, |lh|) && HomeHolds(c, d, view, lh, k)
    requires d' == d[lh[k] := d[c.start + 1 + k]]
    ensures WholeDisk(c, d') && d'[c.start] == d[c.start]
    ensures SlotsHold(c, d', view, lh, |lh|) && HomeHolds(c, d', view, lh, k + 1)
  {
    forall j | 0 <= j < |lh| ensures d'[c.start + 1 + j] == view[lh[j]] {
      assert lh[k] != c.start + 1 + j;
    }
    InstallHome(c, d, d', view, lh, k);
  }

  lemma InstallHome(c: Config, d: Disk, d': Disk, view: Disk, lh: seq<nat>, k: nat)
    requires WholeDisk(c, d) && WholeDisk(c, d') && HomeKeys(c, view) && k < |lh| && c.IsHome(lh[k])
    requires HomeHolds(c, d, view, lh, k)
    requires d' == d[lh[k] := view[lh[k]]]
    ensures HomeHolds(c, d', view, lh, k + 1)
  {
    forall b: nat | c.IsHome(b) && b !in lh[k + 1..] ensures d'[b] == view[b] {
      if b != lh[k] {
        assert b !in lh[k..] by {
          assert lh[k..] == [lh[k]] + lh[k + 1..];
        }
      }
    }
  }

  lemma CommitInstallKeeps(c: Config, s: State)
    requires Inv(c, s) && Enabled(c, s, CommitWrite) && |s.m.lh| < s.m.phase.k <= 2 * |s.m.lh|
    ensures Inv(c, Next(c, s, CommitWrite))
  {
    hide FateInv, ReserveInv, Shape, CommitStep;
    CommitInstall(c, s.m, DurableHome(s.h));
  }

  /** Everything is installed; the header may go. */
  lemma AllHome(c: Config, d: Disk, hd: Block, view: Disk, lh: seq<nat>)
    requires c.Valid() && WholeDisk(c, d) && HomeKeys(c, view) && HomeHolds(c, d, view, lh, |lh|)
    ensures WholeDisk(c, d[c.start := hd]) && HomeHolds(c, d[c.start := hd], view, [], 0)
  {
    assert lh[|lh|..] == [];
  }

  lemma CommitClear(c: Config, m: Machine, durable: Disk)
    requires Shape(c, m, durable) && m.phase.Up? && m.committing && m.phase.k == 2 * |m.lh| + 1 && |m.lh| > 0
    ensures Shape(c, CommitNext(c, m), durable)
  {
    hide HeadFits, Head, PutHead;
    var m' := CommitNext(c, m);
    AllHome(c, m.disk, PutHead(m.disk[c.start], []), durable, m.lh);
  }

  lemma CommitClearKeeps(c: Config, s: State)
    requires Inv(c, s) && Enabled(c, s, CommitWrite) && s.m.phase.k == 2 * |s.m.lh| + 1
    ensures Inv(c, Next(c, s, CommitWrite))
  {
    hide Shape, CommitStep;
    CommitClear(c, s.m, DurableHome(s.h));
  }

  lemma CrashFate(c: Config, h: History, h': History, lh: seq<nat>)
    requires FateInv(c, h, lh)
    requires h' == h.(active := {}, pending := [], fate := MakeLost(h.fate))
    ensures FateInv(c, h', [])
  {
  }

  lemma CrashKeeps(c: Config, s: State)
    requires Inv(c, s)
    ensures Inv(c, Next(c, s, Crash))
  {
    var s' := Next(c, s, Crash);
    CrashFate(c, s.h, s'.h, s.m.lh);
  }

  lemma RecoverOne(c: Config, m: Machine, durable: Disk)
    requires Shape(c, m, durable) && m.phase.Recovery? && m.phase.rk < |m.phase.rlh|
    ensures Shape(c, RecoverNext(c, m), durable)
  {
    hide HeadFits, Head, PutHead, SlotsHold, HomeHolds;
    var m' := RecoverNext(c, m);
    InstallOne(c, m.disk, m'.disk, durable, m.phase.rlh, m.phase.rk);
    InstallFromStart(c, m.disk, m'.disk, durable, m.phase.rlh, m.phase.rk);
  }

  lemma RecoverClear(c: Config, m: Machine, durable: Disk)
    requires Shape(c, m, durable) && m.phase.Recovery? && m.phase.rk == |m.phase.rlh|
    ensures Shape(c, RecoverNext(c, m), durable)
  {
    hide HeadFits, Head, PutHead;
    var m' := RecoverNext(c, m);
    AllHome(c, m.disk, PutHead(m.disk[c.start], []), durable, m.phase.rlh);
  }

  lemma InstallFromStart(c: Config, d: Disk, d': Disk, view: Disk, lh: seq<nat>, k: nat)
    requires c.Valid() && WholeDisk(c, d) && HomeKeys(c, view) && GoodList(c, lh) && k < |lh|
    requires HomeHolds(c, d, view, lh, 0)
    requires d' == d[lh[k] := d[c.start + 1 + k]]
    ensures WholeDisk(c, d') && HomeHolds(c, d', view, lh, 0)
  {
    assert lh[0..] == lh;
  }

  lemma RecoverWriteKeeps(c: Config, s: State)
    requires Inv(c, s) && Enabled(c, s, RecoverWrite)
    ensures Inv(c, Next(c, s, RecoverWrite))
  {
    hide FateInv, ReserveInv, Shape, RecoverStep;
    if s.m.phase.rk < |s.m.phase.rlh| {
      RecoverOne(c, s.m, DurableHome(s.h));
    } else {
      RecoverClear(c, s.m, DurableHome(s.h));
    }
  }

  lemma RecoverDoneKeeps(c: Config, s: State)
    requires Inv(c, s) && Enabled(c, s, RecoverDone)
    ensures Inv(c, Next(c, s, RecoverDone))
  {
  }

  lemma StepKeeps(c: Config, s: State, e: Event)
    requires Inv(c, s) && Enabled(c, s, e)
    ensures Inv(c, Next(c, s, e))
  {
    hide Inv, Next;
    match e
    case BeginOp(o) => BeginOpKeeps(c, s, o);
    case LogWrite(o, b, v) => LogWriteKeeps(c, s, o, b, v);
    case EndOp(o) => EndOpKeeps(c, s, o);
    case CommitWrite =>
      if s.m.phase.k < |s.m.lh| {
        CommitSlotKeeps(c, s);
      } else if s.m.phase.k == |s.m.lh| {
        CommitHeadKeeps(c, s);
      } else if s.m.phase.k <= 2 * |s.m.lh| {
        CommitInstallKeeps(c, s);
      } else {
        CommitClearKeeps(c, s);
      }
    case CommitDone => CommitDoneKeeps(c, s);
    case Crash => CrashKeeps(c, s);
    case RecoverWrite => RecoverWriteKeeps(c, s);
    case RecoverDone => RecoverDoneKeeps(c, s);
  }

  // ---- whole runs ----

  /** The state after the events es, if each was enabled in its turn. */
  ghost function Exec(c: Config, s0: State, es: seq<Event>): (r: Option<State>)
    requires Inv(c, s0)
    ensures r.Some? ==> Inv(c, r.value)
  {
    if es == [] then Some(s0)
    else
      var r := Exec(c, s0, es[..|es| - 1]);
      if r.Some? && Enabled(c, r.value, es[|es| - 1]) then
        StepKeeps(c, r.value, es[|es| - 1]);
        Some(Next(c, r.value, es[|es| - 1]))
      else None
  }

  lemma InitInv(c: Config, s: State)
    requires Init(c, s)
    ensures Inv(c, s)
  {
    RecoveryStarts(c, s.m.disk);
    hide Shape, Recovered, DiskOk;
    assert ApplyGroups(s.h.base, []) == s.h.base;
  }

  lemma RecoveryStarts(c: Config, d: Disk)
    requires DiskOk(c, d)
    ensures Shape(c, Machine(d, Recovery(Head(d[c.start]), 0), [], 0, false, map[]), Recovered(c, d))
  {
    var lh, home := Head(d[c.start]), Recovered(c, d);
    assert lh[0..] == lh;
    forall b: nat | c.IsHome(b)
      ensures && b in home && (forall j | 0 <= j < |lh| && lh[j] == b :: home[b] == d[c.start + 1 + j])
              && (b !in lh ==> home[b] == d[b])
    {
      RecoveredAt(c, d, b);
    }
    assert SlotsHold(c, d, home, lh, |lh|);
    assert HomeHolds(c, d, home, lh, 0);
  }

  /** Whatever the phase, recovering the present disk gives the committed groups. */
  lemma RecoveredIsDurable(c: Config, s: State)
    requires Inv(c, s)
    ensures DiskOk(c, s.m.disk) && Recovered(c, s.m.disk) == DurableHome(s.h)
  {
    hide FateInv, ReserveInv;
    DiskIsRecoverable(c, s.m, DurableHome(s.h));
    forall b: nat | c.IsHome(b)
      ensures b in Recovered(c, s.m.disk) && Recovered(c, s.m.disk)[b] == DurableHome(s.h)[b]
    {
      RecoveredBlock(c, s.m, DurableHome(s.h), b);
    }
  }

  lemma DiskIsRecoverable(c: Config, m: Machine, durable: Disk)
    requires Shape(c, m, durable)
    ensures DiskOk(c, m.disk)
  {
  }

  lemma RecoveredBlock(c: Config, m: Machine, durable: Disk, b: nat)
    requires Shape(c, m, durable) && DiskOk(c, m.disk) && c.IsHome(b)
    ensures b in Recovered(c, m.disk) && Recovered(c, m.disk)[b] == durable[b]
  {
    RecoveredAt(c, m.disk, b);
    hide Recovered, Head, HeadFits, DiskOk;
    var lh := Head(m.disk[c.start]);
    assert lh[0..] == lh;
    if b in lh {
      SlotValue(c, m, durable, b);
    }
  }

  lemma SlotValue(c: Config, m: Machine, durable: Disk, b: nat)
    requires Shape(c, m, durable) && b in Head(m.disk[c.start])
    ensures exists j :: && 0 <= j < |Head(m.disk[c.start])| && Head(m.disk[c.start])[j] == b
                        && c.start + 1 + j in m.disk && b in durable && m.disk[c.start + 1 + j] == durable[b]
  {
    hide Head, HeadFits;
    var lh := Head(m.disk[c.start]);
    var j :| 0 <= j < |lh| && lh[j] == b;
    assert SlotsHold(c, m.disk, durable, lh, |lh|);
  }

  /** Crash atomicity. After any run from any disk that can be recovered, with any number of crashes
      between any two disk writes of commit or of recovery itself, recovery would leave what it would
      have left at first, changed by exactly the groups committed since, in order. */
  lemma CrashAtomicity(c: Config, s0: State, es: seq<Event>)
    requires Init(c, s0)
    ensures Inv(c, s0)
    ensures Exec(c, s0, es).Some? ==>
              var s := Exec(c, s0, es).value;
              && DiskOk(c, s0.m.disk) && DiskOk(c, s.m.disk)
              && Recovered(c, s.m.disk) == ApplyGroups(Recovered(c, s0.m.disk), s.h.groups)
  {
    InitInv(c, s0);
    var r := Exec(c, s0, es);
    if r.Some? {
      RecoveredIsDurable(c, r.value);
      BaseFixed(c, s0, es);
    }
  }

  lemma NextBase(c: Config, s: State, e: Event)
    requires Inv(c, s) && Enabled(c, s, e)
    ensures Next(c, s, e).h.base == s.h.base
  {
    hide Inv;
  }

  lemma {:induction false} BaseFixed(c: Config, s0: State, es: seq<Event>)
    requires Inv(c, s0)
    ensures Exec(c, s0, es).Some? ==> Exec(c, s0, es).value.h.base == s0.h.base
  {
    hide Inv, Next, Enabled;
    if es != [] {
      BaseFixed(c, s0, es[..|es| - 1]);
      var r := Exec(c, s0, es[..|es| - 1]);
      if r.Some? && Enabled(c, r.value, es[|es| - 1]) {
        NextBase(c, r.value, es[|es| - 1]);
      }
    }
  }

  /** The groups grow by one exactly when the first write_head of a commit reaches the disk, and
      then by everything logged since the last commit; no other step changes them. */
  lemma CommitPoint(c: Config, s: State, e: Event)
    requires Inv(c, s) && Enabled(c, s, e)
    ensures var s' := Next(c, s, e);
            if e == CommitWrite && s.m.phase.k == |s.m.lh| then
              s'.h.groups == s.h.groups + [s.h.pending] && s'.h.pending == [] && DurableHome(s'.h) == s.m.view
            else s'.h.groups == s.h.groups
  {
    if e == CommitWrite && s.m.phase.k == |s.m.lh| {
      CommitHeadKeeps(c, s);
    }
  }

  /** An operation is wholly in one group or wholly in none. */
  ghost predicate WhollyInOrOut(h: History, o: OpId)
    requires o in h.did
  {
    || (forall g | 0 <= g < |h.groups| :: Filter(h.groups[g], o) == [])
    || (exists g :: && 0 <= g < |h.groups| && Filter(h.groups[g], o) == h.did[o]
                    && forall g' | 0 <= g' < |h.groups| && g' != g :: Filter(h.groups[g'], o) == [])
  }

  lemma OperationAtomicity(c: Config, s0: State, es: seq<Event>, o: OpId)
    requires Init(c, s0)
    ensures Inv(c, s0)
    ensures Exec(c, s0, es).Some? ==>
              var h := Exec(c, s0, es).value.h;
              o in h.fate ==> o in h.did && WhollyInOrOut(h, o)
  {
    InitInv(c, s0);
    var r := Exec(c, s0, es);
    if r.Some? && o in r.value.h.fate {
      FateDecides(c, r.value.h, r.value.m.lh, o);
    }
  }

  lemma FateDecides(c: Config, h: History, lh: seq<nat>, o: OpId)
    requires FateInv(c, h, lh) && o in h.fate
    ensures WhollyInOrOut(h, o)
  {
    forall g | 0 <= g < |h.groups| && h.fate[o] != Durable(g) ensures Filter(h.groups[g], o) == [] {
      FilterNone(h.groups[g], o);
    }
    if h.fate[o].Durable? {
      assert Filter(h.groups[h.fate[o].g], o) == h.did[o];
    }
  }

  /** Recovery that runs to its end leaves the committed groups on the home blocks and an empty
      log, and the cache starts from them. */
  lemma RecoveryRestores(c: Config, s: State)
    requires Inv(c, s) && Enabled(c, s, RecoverDone)
    ensures var m := Next(c, s, RecoverDone).m;
            && Home(c, m.disk) == m.view == DurableHome(s.h)
            && Head(m.disk[c.start]) == []
  {
    var d := DurableHome(s.h);
    assert HomeHolds(c, s.m.disk, d, [], 0);
    assert Home(c, s.m.disk) == d;
  }

  // ---- the reservation ----

  /** With a log of LOGSIZE usable slots, logging a new block within the operation's budget
      never panics, and neither does end_op. */
  lemma NoPanic(c: Config, s: State, o: OpId, b: nat)
    requires Inv(c, s) && o in s.h.active
    requires c.size - 1 >= LOGSIZE
    requires b !in s.m.lh && |s.h.logged[o] + {b}| <= MAXOPBLOCKS
    ensures !LogWritePanics(c, s.m) && !s.m.committing
  {
    hide Shape, FateInv;
    var h := s.h;
    assert b !in h.added[o];
    SubsetCard(h.added[o] + {b}, h.logged[o] + {b});
    SlackRemove(h.active, h.added, o);
    OthersSlack(s.m.lh, s.m.outstanding, s.m.committing, h, o);
  }

  lemma OthersSlack(lh: seq<nat>, outstanding: int, committing: bool, h: History, o: OpId)
    requires ReserveInv(lh, outstanding, committing, h)
    ensures Slack(h.active - {o}, h.added) >= 0
  {
    forall x | x in h.active - {o} ensures |h.added[x]| <= MAXOPBLOCKS {
      SubsetCard(h.added[x], h.logged[x]);
    }
    SlackBounds(h.active - {o}, h.added);
  }

  /** Exactly when an active operation's log_write panics: the list is full. With LOGSIZE blocks in it
      no active operation has any of its reservation left, but one that only logs again a block
      already in the list panics all the same, since the test precedes the search. */
  lemma PanicsWhenFull(c: Config, s: State, o: OpId)
    requires Inv(c, s) && o in s.h.active
    ensures LogWritePanics(c, s.m) <==> |s.m.lh| == if c.size - 1 < LOGSIZE then c.size - 1 else LOGSIZE
    ensures |s.m.lh| == LOGSIZE ==> |s.h.added[o]| == MAXOPBLOCKS
  {
    hide FateInv;
    var h := s.h;
    SubsetCard(h.added[o], h.logged[o]);
    SlackRemove(h.active, h.added, o);
    OthersSlack(s.m.lh, s.m.outstanding, s.m.committing, h, o);
    assert GoodList(c, s.m.lh);
  }

  // ---- who begins, who waits, who commits ----

  /** In every run: a new operation begins exactly when no commit is under way and the list, with a full
      reservation for it and for each operation that is active, fits the log. If it has to wait, a commit
      is under way or an operation is active, so something is still to come that lets it begin. */
  lemma Admits(c: Config, s0: State, es: seq<Event>, o: OpId)
    requires Init(c, s0)
    ensures Inv(c, s0)
    ensures Exec(c, s0, es).Some? ==>
              var s := Exec(c, s0, es).value;
              s.m.phase.Up? && o !in s.h.fate ==>
                && (Enabled(c, s, BeginOp(o)) <==>
                      !s.m.committing && |s.m.lh| + MAXOPBLOCKS * (|s.h.active| + 1) <= LOGSIZE)
                && (!Enabled(c, s, BeginOp(o)) ==> s.m.committing || s.h.active != {})
  {
    InitInv(c, s0);
    hide Init, Shape, FateInv, ViewInv;
  }

  /** In every run: end_op starts a commit exactly when it ends the only active operation, and a commit is
      only under way with no operation active; so an operation never ends or logs during a commit. */
  lemma LastEndCommits(c: Config, s0: State, es: seq<Event>, o: OpId)
    requires Init(c, s0)
    ensures Inv(c, s0)
    ensures Exec(c, s0, es).Some? ==>
              var s := Exec(c, s0, es).value;
              && (s.m.committing ==> s.h.active == {})
              && (o in s.h.active ==>
                    && s.m.phase.Up? && Enabled(c, s, EndOp(o)) && !s.m.committing
                    && (Next(c, s, EndOp(o)).m.committing <==> s.h.active == {o}))
  {
    InitInv(c, s0);
    hide Inv, Enabled, Next, Exec;
    if Exec(c, s0, es).Some? {
      EndsLast(c, Exec(c, s0, es).value, o);
    }
  }

  lemma EndsLast(c: Config, s: State, o: OpId)
    requires Inv(c, s)
    ensures s.m.committing ==> s.h.active == {}
    ensures o in s.h.active ==> s.m.phase.Up? && Enabled(c, s, EndOp(o)) && !s.m.committing
    ensures o in s.h.active ==> (Next(c, s, EndOp(o)).m.committing <==> s.h.active == {o})
  {
    hide Shape, FateInv;
    if o in s.h.active {
      assert s.h.active == {o} + (s.h.active - {o});
    }
  }

  // ---- runs that do panic ----

  /** Recovery writes k times. */
  ghost function Writes(k: nat): seq<Event> {
    if k == 0 then [] else Writes(k - 1) + [RecoverWrite]
  }

  /** Recovery of a log with r blocks in its list. */
  ghost function Recovers(r: nat): seq<Event> {
    Writes(r + 1) + [RecoverDone]
  }

  /** After recovery of r blocks three operations begin, then log n blocks that follow the log area,
      ten each. */
  ghost function FillEvents(c: Config, r: nat, n: nat): seq<Event> {
    if n == 0 then Recovers(r) + [BeginOp(0)] + [BeginOp(1)] + [BeginOp(2)]
    else FillEvents(c, r, n - 1) + [LogWrite((n - 1) / MAXOPBLOCKS, c.start + c.size + n - 1, Zero())]
  }

  /** Recovery under way, k writes done. */
  ghost predicate Recovering(s: State, lh: seq<nat>, k: nat) {
    s.m.phase == Recovery(lh, k) && s.m.lh == [] && s.m.outstanding == 0 && !s.m.committing && s.h.active == {} && s.h.fate == map[]
  }

  lemma {:induction false} RecoverRun(c: Config, s0: State, lh: seq<nat>, k: nat)
    requires Inv(c, s0) && Recovering(s0, lh, 0) && k <= |lh| + 1
    ensures Exec(c, s0, Writes(k)).Some? && Recovering(Exec(c, s0, Writes(k)).value, lh, k)
  {
    hide Inv, Exec;
    if k == 0 {
      ExecEmpty(c, s0);
    } else {
      RecoverRun(c, s0, lh, k - 1);
      ExecSnoc(c, s0, Writes(k - 1), RecoverWrite);
      RecoverGoes(c, Exec(c, s0, Writes(k - 1)).value, lh, k - 1);
    }
  }

  lemma RecoverGoes(c: Config, s: State, lh: seq<nat>, k: nat)
    requires Inv(c, s) && Recovering(s, lh, k) && k <= |lh|
    ensures Enabled(c, s, RecoverWrite) && Recovering(Next(c, s, RecoverWrite), lh, k + 1)
  {
    hide Inv, RecoverStep;
  }

  lemma RecoverAll(c: Config, s0: State, lh: seq<nat>)
    requires Inv(c, s0) && Recovering(s0, lh, 0)
    ensures Exec(c, s0, Recovers(|lh|)).Some? && Begun(Exec(c, s0, Recovers(|lh|)).value, 0)
  {
    hide Inv, Exec;
    RecoverRun(c, s0, lh, |lh| + 1);
    ExecSnoc(c, s0, Writes(|lh| + 1), RecoverDone);
  }

  function Clamp(x: int): nat {
    if x < 0 then 0 else if x > MAXOPBLOCKS then MAXOPBLOCKS else x
  }

  ghost predicate Filled(c: Config, s: State, n: nat) {
    && s.m.phase == Up(0) && !s.m.committing && s.m.outstanding == 3
    && |s.m.lh| == n && (forall i | 0 <= i < n :: s.m.lh[i] == c.start + c.size + i)
    && s.h.active == {0, 1, 2}
    && (forall o | o in s.h.active :: o in s.h.logged && |s.h.logged[o]| == Clamp(n - MAXOPBLOCKS * o))
    && (forall o, b | o in s.h.active && b in s.h.logged[o] :: c.start + c.size <= b < c.start + c.size + n)
  }

  lemma ExecSnoc(c: Config, s0: State, es: seq<Event>, e: Event)
    requires Inv(c, s0) && Exec(c, s0, es).Some? && Enabled(c, Exec(c, s0, es).value, e)
    ensures Exec(c, s0, es + [e]) == Some(Next(c, Exec(c, s0, es).value, e))
  {
    hide Inv, Enabled, Next;
    assert (es + [e])[..|es + [e]| - 1] == es;
  }

  ghost predicate Begun(s: State, k: nat) {
    && s.m.phase == Up(0) && !s.m.committing && s.m.outstanding == k && s.m.lh == []
    && (forall o: nat :: o in s.h.active <==> o < k)
    && (forall o: nat | o < k :: o in s.h.logged && s.h.logged[o] == {})
    && (forall o: nat :: o in s.h.fate <==> o < k)
  }

  lemma BeginStep(c: Config, s: State, k: nat)
    requires Inv(c, s) && Begun(s, k) && k < 3
    ensures Enabled(c, s, BeginOp(k)) && Begun(Next(c, s, BeginOp(k)), k + 1)
  {
    hide Inv;
  }

  lemma FillStart(c: Config, s0: State, lh: seq<nat>)
    requires Inv(c, s0) && Recovering(s0, lh, 0)
    ensures Exec(c, s0, FillEvents(c, |lh|, 0)).Some? && Filled(c, Exec(c, s0, FillEvents(c, |lh|, 0)).value, 0)
  {
    hide Inv, Enabled, Next, Exec;
    var es := Recovers(|lh|);
    RecoverAll(c, s0, lh);
    BeginStep(c, Exec(c, s0, es).value, 0);
    ExecSnoc(c, s0, es, BeginOp(0));
    BeginStep(c, Exec(c, s0, es + [BeginOp(0)]).value, 1);
    ExecSnoc(c, s0, es + [BeginOp(0)], BeginOp(1));
    BeginStep(c, Exec(c, s0, es + [BeginOp(0)] + [BeginOp(1)]).value, 2);
    ExecSnoc(c, s0, es + [BeginOp(0)] + [BeginOp(1)], BeginOp(2));
    BegunFilled(c, Exec(c, s0, FillEvents(c, |lh|, 0)).value);
  }

  lemma ExecEmpty(c: Config, s0: State)
    requires Inv(c, s0)
    ensures Exec(c, s0, []) == Some(s0)
  {
  }

  lemma BegunFilled(c: Config, s: State)
    requires Begun(s, 3)
    ensures Filled(c, s, 0)
  {
    assert s.h.active == {0, 1, 2};
  }

  lemma FillStep(c: Config, s: State, n: nat, o: OpId)
    requires Inv(c, s) && Filled(c, s, n) && n < LOGSIZE && n < c.size - 1
    requires c.start + c.size + LOGSIZE <= c.nblocks && MAXOPBLOCKS * o <= n < MAXOPBLOCKS * o + MAXOPBLOCKS
    ensures var e := LogWrite(o, c.start + c.size + n, Zero());
            Enabled(c, s, e) && Filled(c, Next(c, s, e), n + 1)
  {
    hide Inv, Zero, Filled;
    var b := c.start + c.size + n;
    FillEnabled(c, s, n, o);
    var s' := Next(c, s, LogWrite(o, b, Zero()));
    FilledNext(c, s, s', n, o);
  }

  lemma FillEnabled(c: Config, s: State, n: nat, o: OpId)
    requires Filled(c, s, n) && MAXOPBLOCKS * o <= n < MAXOPBLOCKS * o + MAXOPBLOCKS && n < LOGSIZE
    ensures var b := c.start + c.size + n;
            && o in s.h.active && o in s.h.logged && b !in s.m.lh && b !in s.h.logged[o]
            && |s.h.logged[o] + {b}| == |s.h.logged[o]| + 1 <= MAXOPBLOCKS
            && s.m.phase.Up? && |s.m.lh| == n && s.m.outstanding == 3
  {
    assert o in s.h.active;
  }

  lemma FilledNext(c: Config, s: State, s': State, n: nat, o: OpId)
    requires Filled(c, s, n) && MAXOPBLOCKS * o <= n < MAXOPBLOCKS * o + MAXOPBLOCKS && n < LOGSIZE
    requires var b := c.start + c.size + n;
             && s'.m.(view := s.m.view) == s.m.(lh := s.m.lh + [b])
             && o in s.h.logged && s'.h.active == s.h.active && s'.h.logged == s.h.logged[o := s.h.logged[o] + {b}]
    ensures Filled(c, s', n + 1)
  {
    FillEnabled(c, s, n, o);
    assert s'.m.lh == s.m.lh + [c.start + c.size + n];
    forall p | p in s'.h.active ensures p in s'.h.logged && |s'.h.logged[p]| == Clamp(n + 1 - MAXOPBLOCKS * p) {
      assert p in s.h.logged;
    }
  }

  lemma {:induction false} FillRun(c: Config, s0: State, lh: seq<nat>, n: nat)
    requires Inv(c, s0) && Recovering(s0, lh, 0) && n <= LOGSIZE && n <= c.size - 1
    requires c.start + c.size + LOGSIZE <= c.nblocks
    ensures Exec(c, s0, FillEvents(c, |lh|, n)).Some? && Filled(c, Exec(c, s0, FillEvents(c, |lh|, n)).value, n)
    decreases n
  {
    hide Inv, Filled, Enabled, Next, Exec, Zero, Recovering;
    if n == 0 {
      FillStart(c, s0, lh);
    } else {
      FillRun(c, s0, lh, n - 1);
      var o := (n - 1) / MAXOPBLOCKS;
      FillStep(c, Exec(c, s0, FillEvents(c, |lh|, n - 1)).value, n - 1, o);
      ExecSnoc(c, s0, FillEvents(c, |lh|, n - 1), LogWrite(o, c.start + c.size + n - 1, Zero()));
    }
  }

  /** Operation o keeps within its budget in logging b, and log_write panics. */
  ghost predicate PanicsInBudget(c: Config, s: State, o: OpId, b: nat) {
    && o in s.h.active && o in s.h.logged && c.IsHome(b)
    && |s.h.logged[o] + {b}| <= MAXOPBLOCKS && LogWritePanics(c, s.m)
  }

  ghost predicate PanicsOnNew(c: Config, s: State) {
    exists o, b :: b !in s.m.lh && PanicsInBudget(c, s, o, b)
  }

  ghost predicate PanicsOnOld(c: Config, s: State) {
    exists o, b :: b in s.m.lh && PanicsInBudget(c, s, o, b)
  }

  /** In some run an operation that keeps within its budget logs a block new to the list and
      log_write panics. */
  ghost predicate CanPanic(c: Config, s0: State, es: seq<Event>)
    requires Inv(c, s0)
  {
    Exec(c, s0, es).Some? && PanicsOnNew(c, Exec(c, s0, es).value)
  }

  lemma HasHeader(c: Config, s: State)
    requires Init(c, s)
    ensures c.size >= 1 && c.start in s.m.disk && HeadFits(s.m.disk[c.start])
    ensures Recovering(s, Head(s.m.disk[c.start]), 0)
  {
    hide Recovered;
  }

  /** begin_op's reservation is enough exactly when the log has a slot beside the header for
      each of LOGSIZE blocks. mkfs makes log.size equal to LOGSIZE, one short. */
  lemma ReservationSuffices(c: Config, s0: State)
    requires Init(c, s0) && c.start + c.size + LOGSIZE <= c.nblocks
    ensures Inv(c, s0)
    ensures (forall es :: !CanPanic(c, s0, es)) <==> c.size - 1 >= LOGSIZE
  {
    hide Inv, Exec, CanPanic, FillEvents, Filled, Init, Recovering;
    HasHeader(c, s0);
    InitInv(c, s0);
    if c.size - 1 >= LOGSIZE {
      forall es ensures !CanPanic(c, s0, es) {
        NeverPanics(c, s0, es);
      }
    } else {
      var lh := Head(s0.m.disk[c.start]);
      FillRun(c, s0, lh, c.size - 1);
      PanicsAt(c, s0, FillEvents(c, |lh|, c.size - 1), c.size - 1);
    }
  }

  lemma NeverPanics(c: Config, s0: State, es: seq<Event>)
    requires Inv(c, s0) && c.size - 1 >= LOGSIZE
    ensures !CanPanic(c, s0, es)
  {
    var r := Exec(c, s0, es);
    if r.Some? {
      var s := r.value;
      forall o, b | b !in s.m.lh ensures !PanicsInBudget(c, s, o, b) {
        if o in s.h.active && o in s.h.logged && |s.h.logged[o] + {b}| <= MAXOPBLOCKS {
          NoPanic(c, s, o, b);
        }
      }
    }
  }

  lemma PanicsAt(c: Config, s0: State, es: seq<Event>, n: nat)
    requires Inv(c, s0) && Exec(c, s0, es).Some? && Filled(c, Exec(c, s0, es).value, n)
    requires n == c.size - 1 < LOGSIZE && c.start + c.size + LOGSIZE <= c.nblocks
    ensures CanPanic(c, s0, es)
  {
    hide Inv;
    var s := Exec(c, s0, es).value;
    var o, b := n / MAXOPBLOCKS, c.start + c.size + n;
    assert b !in s.h.logged[o] && b !in s.m.lh && o in s.h.active;
    assert |s.h.logged[o] + {b}| == |s.h.logged[o]| + 1;
    assert PanicsInBudget(c, s, o, b);
  }

  /** On a log that is large enough, a run in which logging again a block that is already in
      the list, and in the operation's own set, panics. */
  lemma AbsorbingCanPanic(c: Config, s0: State)
    requires Init(c, s0) && c.size - 1 >= LOGSIZE && c.start + c.size + LOGSIZE <= c.nblocks
    ensures Inv(c, s0)
    ensures exists es :: Exec(c, s0, es).Some? && PanicsOnOld(c, Exec(c, s0, es).value)
  {
    hide Inv, Exec, FillEvents, Filled, Init, Recovering, PanicsOnOld;
    InitInv(c, s0);
    HasHeader(c, s0);
    var lh := Head(s0.m.disk[c.start]);
    FillRun(c, s0, lh, LOGSIZE);
    FullPanics(c, Exec(c, s0, FillEvents(c, |lh|, LOGSIZE)).value);
  }

  lemma FullPanics(c: Config, s: State)
    requires Filled(c, s, LOGSIZE) && c.size - 1 >= LOGSIZE && c.start + c.size + LOGSIZE <= c.nblocks
    ensures PanicsOnOld(c, s)
  {
    var b := c.start + c.size;
    assert 0 in s.h.active && |s.h.logged[0]| == MAXOPBLOCKS;
    var x :| x in s.h.logged[0];
    assert s.h.logged[0] + {x} == s.h.logged[0];
    assert s.m.lh[x - b] == x;
    assert PanicsInBudget(c, s, 0, x);
  }

  /** Operation 1 begins while the list holds a block that operation 0 has logged. */
  ghost predicate BeginsBehind(c: Config, s: State) {
    s.m.lh != [] && s.h.active == {0} && Enabled(c, s, BeginOp(1))
  }

  /** Operations overlap: whatever is on the disk, there is a run in which one begins with blocks of another
      in the list. */
  lemma BeginsOnNonEmptyList(c: Config, s0: State, b: nat)
    requires Init(c, s0) && c.size >= 2 && c.IsHome(b)
    ensures Inv(c, s0)
    ensures exists es :: Exec(c, s0, es).Some? && BeginsBehind(c, Exec(c, s0, es).value)
  {
    hide Inv, Enabled, Next, Exec, Init, Recovering, BeginsBehind, Zero;
    InitInv(c, s0);
    HasHeader(c, s0);
    var r := |Head(s0.m.disk[c.start])|;
    RecoverAll(c, s0, Head(s0.m.disk[c.start]));
    BeginStep(c, Exec(c, s0, Recovers(r)).value, 0);
    ExecSnoc(c, s0, Recovers(r), BeginOp(0));
    var es := Recovers(r) + [BeginOp(0)];
    FirstWrite(c, Exec(c, s0, es).value, b);
    ExecSnoc(c, s0, es, LogWrite(0, b, Zero()));
    assert BeginsBehind(c, Exec(c, s0, es + [LogWrite(0, b, Zero())]).value);
  }

  lemma FirstWrite(c: Config, s: State, b: nat)
    requires Inv(c, s) && Begun(s, 1) && c.size >= 2 && c.IsHome(b)
    ensures Enabled(c, s, LogWrite(0, b, Zero())) && BeginsBehind(c, Next(c, s, LogWrite(0, b, Zero())))
  {
    hide Inv, Zero;
    assert 0 in s.h.active && 0 in s.h.logged && s.h.logged[0] == {};
    assert s.h.active == {0};
    assert |s.h.logged[0] + {b}| == 1;
  }
}
