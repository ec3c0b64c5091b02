/** Processes, scheduling, sleep and wakeup, fork, exit and wait: kernel/proc.c, with the spin
    locks of kernel/spinlock.c and the sleep-locks of kernel/sleeplock.c, as a transition system.
    CPUs take turns in any order. A step is one acquire, one release, one swtch, one change or test
    under a lock, or a whole region under one process lock in which no swtch happens and no other
    lock is taken. A spin lock is owned by a CPU, as holding() has it, so that a process lock passes
    from a process to the scheduler and back across swtch. */
module ProcSpec {
  import opened Prelude

  const INIT: nat := 0   // initproc

  datatype PState = Unused | Used | Sleeping | Runnable | Running | Zombie

  /** What a process sleeps on: a condition that some lock guards, or its own children. */
  datatype Chan = NoChan | CondOf(c: nat) | WaitOf(p: int)

  /** Process locks, wait_lock, locks that guard conditions, and leaf locks, under which no lock is
      waited for: kmem.lock, pid_lock, ftable.lock, itable.lock, bcache.lock. */
  datatype Lock = PLock(p: int) | WaitLock | CondLock(l: nat) | Leaf(n: nat)

  /** Who calls sleep: a loop under lock l that waits for condition c, or wait. */
  datatype Ctx = InCond(c: nat, l: nat) | InWait

  /** Who calls wakeup: a region under lock l, which has conditions todo to wake for after that,
      or exit. */
  datatype Ret = FromSignal(l: nat, todo: set<nat>) | FromReparent(k: nat) | FromExit

  /** Where a process's kernel thread is. */
  datatype Pc =
    | Idle
    | YieldSched(back: Pc)
    | YieldBack(back: Pc)
    | SleepGo(ctx: Ctx)
    | SleepHeld(ctx: Ctx)
    | SleepSet(ctx: Ctx)
    | SleepSched(ctx: Ctx)
    | SleepBack(ctx: Ctx)
    | SleepRetake(ctx: Ctx)
    | Region(l: nat, todo: set<nat>)   // under lock l, with wakeups for todo still to be made
    | LeafWait(n: nat, back: Pc)
    | InLeaf(n: nat, back: Pc)
    | Wake(chan: Chan, k: nat, ret: Ret)
    | ForkInit(k: nat)
    | ForkParent(k: nat)
    | ForkRun(k: nat)
    | Start
    | Reparent(k: nat)
    | ExitLock
    | ExitRel
    | ExitSched
    | Dead
    | WaitScan(k: nat, have: bool)
    | WaitReap(k: nat)
    | WaitOut

  /** cpu is the CPU whose stack pointer is on this process's kernel stack, or -1. */
  datatype Proc = Proc(state: PState, chan: Chan, parent: int, pc: Pc, cpu: int)

  /** Where a CPU's scheduler is; Away while a process runs. */
  datatype SchedPc = Look(k: nat) | Picked(k: nat) | Back(k: nat) | Away

  /** proc is c->proc; on is the process whose kernel stack the CPU is on, -1 for the scheduler's. */
  datatype Cpu = Cpu(proc: int, on: int, spc: SchedPc)

  /** ready has the conditions that processes wait for; guard has the lock of each, for good. */
  datatype State = State(procs: seq<Proc>, cpus: seq<Cpu>, owner: map<Lock, nat>, ready: seq<bool>, guard: seq<nat>)

  function CtxLock(x: Ctx): Lock {
    match x case InCond(_, l) => CondLock(l) case InWait => WaitLock
  }

  function CtxChan(x: Ctx, p: int): Chan {
    match x case InCond(c, _) => CondOf(c) case InWait => WaitOf(p)
  }

  function RetLock(r: Ret): Lock {
    if r.FromSignal? then CondLock(r.l) else WaitLock
  }

  /** The spin locks a thread holds at pc. */
  predicate PcHolds(pc: Pc, p: int, lk: Lock) {
    match pc
    case Idle => false
    case ForkParent(_) => false
    case ForkRun(_) => false
    case SleepRetake(_) => false
    case Dead => false
    case SleepGo(x) => lk == CtxLock(x)
    case SleepHeld(x) => lk == CtxLock(x) || lk == PLock(p)
    case Region(l, _) => lk == CondLock(l)
    case LeafWait(_, b) => PcHolds(b, p, lk)
    case InLeaf(n, b) => lk == Leaf(n) || PcHolds(b, p, lk)
    case Wake(_, _, r) => lk == RetLock(r)
    case ForkInit(k) => lk == PLock(k)
    case Reparent(_) => lk == WaitLock
    case ExitLock => lk == WaitLock
    case WaitScan(_, _) => lk == WaitLock
    case WaitReap(k) => lk == WaitLock || lk == PLock(k)
    case WaitOut => lk == WaitLock
    case ExitRel => lk == WaitLock || lk == PLock(p)
    case _ => lk == PLock(p)   // YieldSched, YieldBack, SleepSet, SleepSched, SleepBack, Start, ExitSched
  }

  /** Points with no lock held, where a timer interrupt may make the process yield. */
  predicate Open(pc: Pc) {
    pc.Idle? || pc.ForkParent? || pc.ForkRun? || pc.SleepRetake?
  }

  predicate Holds(s: State, c: nat, lk: Lock) {
    c < |s.cpus| &&
    if s.cpus[c].on < 0 then (s.cpus[c].spc.Picked? || s.cpus[c].spc.Back?) && lk == PLock(s.cpus[c].spc.k)
    else s.cpus[c].on < |s.procs| && PcHolds(s.procs[s.cpus[c].on].pc, s.cpus[c].on, lk)
  }

  // ---- steps of a process ----

  datatype Action =
    | YieldIn | YieldOut
    | SleepLock | SleepRelease | SleepMark | SleepOut | Retake
    | Enter(l: nat) | Leave | SetCond(c: nat, v: bool) | Claim(c: nat) | SleepOn(c: nat) | Signal(c: nat)
    | WakeStep | WakeEnd
    | LeafWant(n: nat) | LeafTake | LeafDrop
    | Kill(k: nat)
    | Alloc(k: nat) | ForkFail | ForkOk | SetParent | SetRunnable | StartOut
    | ExitIn | ReparentStep | ReparentEnd | ExitMark | ExitRelease
    | WaitIn | WaitStep | Reap(fail: bool) | WaitEnd(killed: bool) | WaitLeave

  datatype LockOp = Keep | Take(lk: Lock) | Drop(lk: Lock)

  /** What an action does: the acting process, one lock, maybe one other process k, the conditions. */
  datatype Effect = Effect(me: Proc, lock: LockOp, k: int, other: Proc, ready: seq<bool>)

  predicate Free(s: State, lk: Lock) {
    lk !in s.owner
  }

  /** freeproc. */
  function Freed(q: Proc): Proc {
    q.(state := Unused, chan := NoChan, parent := -1)
  }

  /** Lock l guards condition c. */
  predicate Guards(s: State, l: nat, c: nat) {
    c < |s.ready| && c < |s.guard| && s.guard[c] == l
  }

  /** When process w, on a CPU, can do a. Leaving a region, or sleeping in it, takes that every
      condition made true in it has been followed by its wakeup. */
  predicate Can(s: State, w: nat, a: Action)
    requires w < |s.procs|
  {
    if Local(a) then CanLocal(s, w, a) else CanOther(s, w, a)
  }

  /** Yielding, sleeping, waking, and work under locks; the rest is fork, exit, wait and kill. */
  predicate Local(a: Action) {
    || a.YieldIn? || a.YieldOut? || a.SleepLock? || a.SleepRelease? || a.SleepMark? || a.SleepOut?
    || a.Retake? || a.Enter? || a.Leave? || a.SetCond? || a.Claim? || a.SleepOn?
    || a.Signal? || a.LeafWant? || a.LeafTake? || a.LeafDrop? || a.WakeStep? || a.WakeEnd?
  }

  predicate CanLocal(s: State, w: nat, a: Action)
    requires w < |s.procs|
  {
    var pc := s.procs[w].pc;
    match a
    case YieldIn => Open(pc) && Free(s, PLock(w))
    case YieldOut => pc.YieldBack?
    case SleepLock => pc.SleepGo? && Free(s, PLock(w))
    case SleepRelease => pc.SleepHeld?
    case SleepMark => pc.SleepSet?
    case SleepOut => pc.SleepBack?
    case Retake => pc.SleepRetake? && Free(s, CtxLock(pc.ctx))
    case Enter(l) => pc.Idle? && Free(s, CondLock(l))
    case Leave => pc.Region? && pc.todo == {}
    case SetCond(c, _) => pc.Region? && Guards(s, pc.l, c)
    case Claim(c) => pc.Region? && Guards(s, pc.l, c) && s.ready[c]
    case SleepOn(c) => pc.Region? && Guards(s, pc.l, c) && !s.ready[c] && pc.todo == {}
    case Signal(c) => pc.Region? && Guards(s, pc.l, c)
    case LeafWant(_) => pc.Idle? || pc.Region? || pc.ForkInit? || pc.WaitReap?
    case LeafTake => pc.LeafWait? && Free(s, Leaf(pc.n))
    case LeafDrop => pc.InLeaf?
    case WakeStep => pc.Wake? && pc.k < |s.procs| && (pc.k == w || Free(s, PLock(pc.k)))
    case WakeEnd => pc.Wake? && pc.k >= |s.procs|
    case _ => false
  }

  predicate CanOther(s: State, w: nat, a: Action)
    requires w < |s.procs|
  {
    var pc := s.procs[w].pc;
    match a
    case Kill(k) => pc.Idle? && k < |s.procs| && Free(s, PLock(k))
    case Alloc(k) => pc.Idle? && k < |s.procs| && Free(s, PLock(k)) && s.procs[k].state == Unused
    case ForkFail => pc.ForkInit? && pc.k < |s.procs|
    case ForkOk => pc.ForkInit?
    case SetParent => pc.ForkParent? && pc.k < |s.procs| && Free(s, WaitLock)
    case SetRunnable => pc.ForkRun? && pc.k < |s.procs| && Free(s, PLock(pc.k))
    case StartOut => pc.Start?
    case ExitIn => pc.Idle? && w != INIT && Free(s, WaitLock)
    case ReparentStep => pc.Reparent? && pc.k < |s.procs|
    case ReparentEnd => pc.Reparent? && pc.k >= |s.procs|
    case ExitMark => pc.ExitLock? && Free(s, PLock(w))
    case ExitRelease => pc.ExitRel?
    case WaitIn => pc.Idle? && Free(s, WaitLock)
    case WaitStep => pc.WaitScan? && pc.k < |s.procs| && (s.procs[pc.k].parent == w ==> Free(s, PLock(pc.k)))
    case Reap(_) => pc.WaitReap? && pc.k < |s.procs| && pc.k != w
    case WaitEnd(_) => pc.WaitScan? && pc.k >= |s.procs|
    case WaitLeave => pc.WaitOut?
    case _ => false
  }

  function Eff(s: State, w: nat, a: Action): Effect
    requires w < |s.procs| && Can(s, w, a)
  {
    if Local(a) then EffLocal(s, w, a) else EffOther(s, w, a)
  }

  function EffLocal(s: State, w: nat, a: Action): Effect
    requires w < |s.procs| && CanLocal(s, w, a)
  {
    var me := s.procs[w];
    var pc := me.pc;
    var none := Effect(me, Keep, -1, me, s.ready);
    match a
    case YieldIn => none.(me := me.(state := Runnable, pc := YieldSched(pc)), lock := Take(PLock(w)))
    case YieldOut => none.(me := me.(pc := pc.back), lock := Drop(PLock(w)))
    case SleepLock => none.(me := me.(pc := SleepHeld(pc.ctx)), lock := Take(PLock(w)))
    case SleepRelease => none.(me := me.(pc := SleepSet(pc.ctx)), lock := Drop(CtxLock(pc.ctx)))
    case SleepMark => none.(me := me.(pc := SleepSched(pc.ctx), state := Sleeping, chan := CtxChan(pc.ctx, w)))
    case SleepOut => none.(me := me.(pc := SleepRetake(pc.ctx), chan := NoChan), lock := Drop(PLock(w)))
    case Retake =>
      none.(me := me.(pc := if pc.ctx.InCond? then Region(pc.ctx.l, {}) else WaitScan(0, false)), lock := Take(CtxLock(pc.ctx)))
    case Enter(l) => none.(me := me.(pc := Region(l, {})), lock := Take(CondLock(l)))
    case Leave => none.(me := me.(pc := Idle), lock := Drop(CondLock(pc.l)))
    case SetCond(c, v) =>
      var todo := if !v then pc.todo - {c} else if s.ready[c] then pc.todo else pc.todo + {c};
      none.(me := me.(pc := Region(pc.l, todo)), ready := s.ready[c := v])
    case Claim(c) => none.(me := me.(pc := Region(pc.l, pc.todo - {c})), ready := s.ready[c := false])
    case SleepOn(c) => none.(me := me.(pc := SleepGo(InCond(c, pc.l))))
    case Signal(c) => none.(me := me.(pc := Wake(CondOf(c), 0, FromSignal(pc.l, pc.todo - {c}))))
    case LeafWant(n) => none.(me := me.(pc := LeafWait(n, pc)))
    case LeafTake => none.(me := me.(pc := InLeaf(pc.n, pc.back)), lock := Take(Leaf(pc.n)))
    case LeafDrop => none.(me := me.(pc := pc.back), lock := Drop(Leaf(pc.n)))
    case WakeStep =>
      var next := none.(me := me.(pc := Wake(pc.chan, pc.k + 1, pc.ret)));
      if pc.k != w && s.procs[pc.k].state == Sleeping && s.procs[pc.k].chan == pc.chan
      then next.(k := pc.k, other := s.procs[pc.k].(state := Runnable)) else next
    case WakeEnd =>
      (match pc.ret
       case FromSignal(l, todo) => none.(me := me.(pc := Region(l, todo)))
       case FromReparent(k) => none.(me := me.(pc := Reparent(k + 1)))
       case FromExit => none.(me := me.(pc := ExitLock)))
  }

  function EffOther(s: State, w: nat, a: Action): Effect
    requires w < |s.procs| && CanOther(s, w, a)
  {
    var me := s.procs[w];
    var pc := me.pc;
    var none := Effect(me, Keep, -1, me, s.ready);
    match a
    case Kill(k) =>
      if k != w && s.procs[k].state == Sleeping then none.(k := k, other := s.procs[k].(state := Runnable)) else none
    case Alloc(k) =>
      if k == w then none
      else none.(me := me.(pc := ForkInit(k)), lock := Take(PLock(k)), k := k, other := s.procs[k].(state := Used))
    case ForkFail =>
      if pc.k == w then none
      else none.(me := me.(pc := Idle), lock := Drop(PLock(pc.k)), k := pc.k, other := Freed(s.procs[pc.k]))
    case ForkOk => none.(me := me.(pc := ForkParent(pc.k)), lock := Drop(PLock(pc.k)))
    case SetParent =>
      if pc.k == w then none else none.(me := me.(pc := ForkRun(pc.k)), k := pc.k, other := s.procs[pc.k].(parent := w))
    case SetRunnable =>
      if pc.k == w then none
      else none.(me := me.(pc := Idle), k := pc.k, other := s.procs[pc.k].(state := Runnable, pc := Start))
    case StartOut => none.(me := me.(pc := Idle), lock := Drop(PLock(w)))
    case ExitIn => none.(me := me.(pc := Reparent(0)), lock := Take(WaitLock))
    case ReparentStep =>
      if pc.k != w && s.procs[pc.k].parent == w
      then none.(me := me.(pc := Wake(WaitOf(INIT), 0, FromReparent(pc.k))), k := pc.k, other := s.procs[pc.k].(parent := INIT))
      else none.(me := me.(pc := Reparent(pc.k + 1)))
    case ReparentEnd => none.(me := me.(pc := Wake(WaitOf(me.parent), 0, FromExit)))
    case ExitMark => none.(me := me.(pc := ExitRel, state := Zombie), lock := Take(PLock(w)))
    case ExitRelease => none.(me := me.(pc := ExitSched), lock := Drop(WaitLock))
    case WaitIn => none.(me := me.(pc := WaitScan(0, false)), lock := Take(WaitLock))
    case WaitStep =>
      if pc.k == w || s.procs[pc.k].parent != w then none.(me := me.(pc := WaitScan(pc.k + 1, pc.have)))
      else if s.procs[pc.k].state != Zombie then none.(me := me.(pc := WaitScan(pc.k + 1, true)))
      else none.(me := me.(pc := WaitReap(pc.k)), lock := Take(PLock(pc.k)))
    case Reap(fail) =>
      var out := none.(me := me.(pc := WaitOut), lock := Drop(PLock(pc.k)));
      if fail then out else out.(k := pc.k, other := Freed(s.procs[pc.k]))
    case WaitEnd(killed) => none.(me := me.(pc := if !pc.have || killed then WaitOut else SleepGo(InWait)))
    case WaitLeave => none.(me := me.(pc := Idle), lock := Drop(WaitLock))
  }

  function Locked(owner: map<Lock, nat>, c: nat, o: LockOp): map<Lock, nat> {
    match o
    case Keep => owner
    case Take(lk) => owner[lk := c]
    case Drop(lk) => owner - {lk}
  }

  function Apply(s: State, c: nat, w: nat, e: Effect): State
    requires w < |s.procs|
  {
    var ps := s.procs[w := e.me];
    s.(procs := if 0 <= e.k < |ps| then ps[e.k := e.other] else ps, owner := Locked(s.owner, c, e.lock), ready := e.ready)
  }

  // ---- all steps ----

  datatype Event =
    | Run(c: nat, a: Action)
    | SwtchOut(c: nat)   // sched()
    | Scan(c: nat)       // scheduler(): look at one process, and take it if it is runnable
    | SwtchIn(c: nat)    // scheduler(): swtch to it
    | Return(c: nat)     // scheduler(): after swtch

  predicate Enabled(s: State, e: Event) {
    e.c < |s.cpus| &&
    var cpu := s.cpus[e.c];
    match e
    case Run(_, a) => 0 <= cpu.on < |s.procs| && Can(s, cpu.on, a)
    case SwtchOut(_) => 0 <= cpu.on < |s.procs| &&
      var pc := s.procs[cpu.on].pc; pc.YieldSched? || pc.SleepSched? || pc.ExitSched?
    case Scan(_) => cpu.on < 0 && cpu.spc.Look? && cpu.spc.k < |s.procs| && Free(s, PLock(cpu.spc.k))
    case SwtchIn(_) => cpu.on < 0 && cpu.spc.Picked? && cpu.spc.k < |s.procs|
    case Return(_) => cpu.on < 0 && cpu.spc.Back? && 0 < |s.procs|
  }

  /** Where a thread that gave up the CPU goes on when it runs again. */
  function Resumed(pc: Pc): Pc {
    match pc
    case YieldSched(b) => YieldBack(b)
    case SleepSched(x) => SleepBack(x)
    case _ => Dead
  }

  function Next(s: State, e: Event): State
    requires Enabled(s, e)
  {
    var cpu := s.cpus[e.c];
    match e
    case Run(c, a) => Apply(s, c, cpu.on, Eff(s, cpu.on, a))
    case SwtchOut(c) =>
      var q := s.procs[cpu.on];
      s.(procs := s.procs[cpu.on := q.(pc := Resumed(q.pc), cpu := -1)], cpus := s.cpus[c := cpu.(on := -1, spc := Back(cpu.on))])
    case Scan(c) =>
      var k := cpu.spc.k;
      if s.procs[k].state == Runnable then
        s.(procs := s.procs[k := s.procs[k].(state := Running)], cpus := s.cpus[c := cpu.(proc := k, spc := Picked(k))],
           owner := s.owner[PLock(k) := c])
      else s.(cpus := s.cpus[c := cpu.(spc := Look((k + 1) % |s.procs|))])
    case SwtchIn(c) =>
      var k := cpu.spc.k;
      s.(procs := s.procs[k := s.procs[k].(cpu := c)], cpus := s.cpus[c := cpu.(on := k, spc := Away)])
    case Return(c) =>
      var k := cpu.spc.k;
      s.(cpus := s.cpus[c := cpu.(proc := -1, spc := Look((k + 1) % |s.procs|))], owner := s.owner - {PLock(k)})
  }

  // ---- the invariant ----

  /** A lock is owned by the CPU whose thread is at a point where it holds it. */
  ghost predicate Own(s: State) {
    && (forall lk | lk in s.owner :: s.owner[lk] < |s.cpus|)
    && (forall c: nat, lk {:trigger Holds(s, c, lk)} :: Holds(s, c, lk) <==> lk in s.owner && s.owner[lk] == c)
  }

  predicate Resumable(pc: Pc) {
    pc.YieldBack? || pc.SleepBack? || pc.Start?
  }

  ghost predicate CpuOk(s: State, c: nat)
    requires c < |s.cpus|
  {
    var cpu := s.cpus[c];
    if cpu.on >= 0 then cpu.on < |s.procs| && cpu.spc.Away? && cpu.proc == cpu.on && s.procs[cpu.on].cpu == c
    else
      match cpu.spc
      case Away => false
      case Look(k) => cpu.proc == -1 && k < |s.procs|
      case Picked(k) =>
        cpu.proc == k && k < |s.procs| && s.procs[k].cpu == -1 && s.procs[k].state == Running && Resumable(s.procs[k].pc)
      case Back(k) => cpu.proc == k && k < |s.procs| && s.procs[k].cpu == -1 && s.procs[k].state != Running
  }

  /** The state a process has at pc, on a CPU. */
  function RunState(pc: Pc): PState {
    match pc
    case YieldSched(_) => Runnable
    case SleepSched(_) => Sleeping
    case ExitRel => Zombie
    case ExitSched => Zombie
    case _ => Running
  }

  /** Bounds, and what a thread's program counter says by itself. */
  ghost predicate PcOk(s: State, p: nat)
    requires p < |s.procs|
  {
    PcFine(s.procs[p].pc, s.guard, s.procs[p].parent)
  }

  ghost predicate PcFine(pc: Pc, guard: seq<nat>, parent: int) {
    && ((pc.YieldSched? || pc.YieldBack?) ==> Open(pc.back) && (pc.back.SleepRetake? ==> CtxOk(pc.back.ctx, guard)))
    && ((pc.SleepGo? || pc.SleepHeld? || pc.SleepSet? || pc.SleepSched? || pc.SleepBack? || pc.SleepRetake?) ==>
          CtxOk(pc.ctx, guard))
    && (pc.Region? ==> TodoOk(pc.l, pc.todo, guard))
    && ((pc.LeafWait? || pc.InLeaf?) ==>
          LeafBack(pc.back) && (pc.back.Region? ==> TodoOk(pc.back.l, pc.back.todo, guard)))
    && (pc.Wake? ==> match pc.ret
          case FromSignal(l, todo) => pc.chan.CondOf? && TodoOk(l, todo + {pc.chan.c}, guard)
          case FromReparent(_) => pc.chan == WaitOf(INIT)
          case FromExit => pc.chan == WaitOf(parent))
  }

  /** Where a leaf lock may be taken. */
  predicate LeafBack(pc: Pc) {
    pc.Idle? || pc.Region? || pc.ForkInit? || pc.WaitReap?
  }

  ghost predicate TodoOk(l: nat, todo: set<nat>, guard: seq<nat>) {
    forall c | c in todo :: c < |guard| && guard[c] == l
  }

  ghost predicate CtxOk(x: Ctx, guard: seq<nat>) {
    x.InCond? ==> x.c < |guard| && guard[x.c] == x.l
  }

  ghost predicate ProcOk(s: State, p: nat)
    requires p < |s.procs|
  {
    && PcOk(s, p)
    && (if s.procs[p].cpu >= 0 then OnCpu(s, p) else OffCpu(s, p))
    && (s.procs[p].state == Sleeping ==> s.procs[p].chan == CtxChan(s.procs[p].pc.ctx, p))
  }

  ghost predicate OnCpu(s: State, p: nat)
    requires p < |s.procs|
  {
    var q := s.procs[p];
    0 <= q.cpu < |s.cpus| && s.cpus[q.cpu].on == p && q.state == RunState(q.pc) && !q.pc.Dead?
  }

  ghost predicate OffCpu(s: State, p: nat)
    requires p < |s.procs|
  {
    var q := s.procs[p];
    q.cpu == -1 &&
    match q.state
    case Runnable => Resumable(q.pc)
    case Sleeping => q.pc.SleepBack?
    case Running => Resumable(q.pc) && PickedBy(s, p)
    case _ => q.pc.Dead?
  }

  /** p's lock is owned by a scheduler that is about to switch to p. */
  ghost predicate PickedBy(s: State, p: nat) {
    && PLock(p) in s.owner && s.owner[PLock(p)] < |s.cpus|
    && s.cpus[s.owner[PLock(p)]].on < 0 && s.cpus[s.owner[PLock(p)]].spc == Picked(p)
  }

  ghost predicate Threads(s: State) {
    && (forall c: nat {:trigger CpuOk(s, c)} | c < |s.cpus| :: CpuOk(s, c))
    && (forall p: nat {:trigger ProcOk(s, p)} | p < |s.procs| :: ProcOk(s, p))
  }

  predicate Live(x: PState) {
    x == Runnable || x == Running || x == Sleeping
  }

  /** Parents: a parent is alive, and every process that has run has one, but for init. */
  ghost predicate Family(s: State) {
    && INIT < |s.procs| && Live(s.procs[INIT].state) && s.procs[INIT].parent == -1
    && (forall k: nat {:trigger HasParent(s, k)} | k < |s.procs| :: HasParent(s, k))
  }

  ghost predicate HasParent(s: State, k: nat)
    requires k < |s.procs|
  {
    var q := s.procs[k];
    && (q.parent == -1 || (0 <= q.parent < |s.procs| && q.parent != k && Live(s.procs[q.parent].state)))
    && (k != INIT && (Live(q.state) || q.state == Zombie) ==> q.parent != -1)
    && (q.state == Unused ==> q.parent == -1)
  }

  function Base(pc: Pc): Pc {
    if pc.YieldSched? || pc.YieldBack? || pc.LeafWait? || pc.InLeaf? then pc.back else pc
  }

  /** The process a fork is setting up. */
  function ForkOf(pc: Pc): int {
    var b := Base(pc);
    if b.ForkInit? || b.ForkParent? || b.ForkRun? then b.k else -1
  }

  ghost predicate Forking(s: State, p: nat)
    requires p < |s.procs|
  {
    ForkFine(s, p) && ReapFine(s, p)
  }

  ghost predicate ForkFine(s: State, p: nat)
    requires p < |s.procs|
  {
    var k := ForkOf(s.procs[p].pc);
    k == -1 || (k < |s.procs| && k != p && s.procs[k].state == Used && s.procs[k].parent == if Base(s.procs[p].pc).ForkRun? then p else -1)
  }

  ghost predicate ReapFine(s: State, p: nat)
    requires p < |s.procs|
  {
    var r := ReapOf(s.procs[p].pc);
    r == -1 || (r < |s.procs| && r != p && s.procs[r].state == Zombie && s.procs[r].parent == p)
  }

  /** The zombie that wait has found. */
  function ReapOf(pc: Pc): int {
    var b := Base(pc);
    if b.WaitReap? then b.k else -1
  }

  ghost predicate Forks(s: State) {
    && (forall p: nat {:trigger Forking(s, p)} | p < |s.procs| :: Forking(s, p))
    && (forall p: nat, q: nat {:trigger s.procs[p], s.procs[q]} | p < |s.procs| && q < |s.procs| && p != q ::
          ForkOf(s.procs[p].pc) == -1 || ForkOf(s.procs[p].pc) != ForkOf(s.procs[q].pc))
  }

  /** exit has passed process j: it is no child of the exiting process. */
  predicate Passed(pc: Pc, j: nat) {
    match pc
    case Reparent(k) => j < k
    case Wake(_, _, FromReparent(k)) => j <= k
    case Wake(_, _, FromExit) => true
    case ExitLock => true
    case _ => false
  }

  predicate Exiting(pc: Pc) {
    pc.Reparent? || pc.ExitLock? || pc.ExitRel? || pc.ExitSched? || (pc.Wake? && !pc.ret.FromSignal?)
  }

  ghost predicate Exits(s: State) {
    && (forall p: nat {:trigger s.procs[p]} | p < |s.procs| && Exiting(s.procs[p].pc) :: p != INIT)
    && (forall p: nat, j: nat {:trigger s.procs[p], s.procs[j]} | p < |s.procs| && j < |s.procs| && Passed(s.procs[p].pc, j) ::
          s.procs[j].parent != p)
  }

  /** p is asleep on ch, or has given up its lock and is certain to be. */
  predicate Asleep(s: State, p: nat, ch: Chan) {
    p < |s.procs| &&
    var q := s.procs[p];
    (q.state == Sleeping && q.chan == ch) || (q.cpu >= 0 && q.pc.SleepSet? && CtxChan(q.pc.ctx, p) == ch)
  }

  /** The owner of lk is in wakeup(ch) and has not passed p yet. */
  predicate Waking(s: State, lk: Lock, ch: Chan, p: nat) {
    lk in s.owner && s.owner[lk] < |s.cpus| && 0 <= s.cpus[s.owner[lk]].on < |s.procs| &&
    var pc := s.procs[s.cpus[s.owner[lk]].on].pc;
    pc.Wake? && pc.chan == ch && pc.k <= p
  }

  predicate ToSleep(pc: Pc, x: Ctx) {
    (pc.SleepGo? || pc.SleepHeld?) && pc.ctx == x
  }

  /** The thread at pc has a wakeup for condition c still to make before it gives up its lock. */
  predicate Owes(pc: Pc, c: nat) {
    || (pc.Region? && c in pc.todo)
    || ((pc.LeafWait? || pc.InLeaf?) && pc.back.Region? && c in pc.back.todo)
    || (pc.Wake? && pc.ret.FromSignal? && c in pc.ret.todo)
  }

  predicate Owing(s: State, lk: Lock, c: nat) {
    lk in s.owner && s.owner[lk] < |s.cpus| && 0 <= s.cpus[s.owner[lk]].on < |s.procs| &&
    Owes(s.procs[s.cpus[s.owner[lk]].on].pc, c)
  }

  /** A wakeup for condition c has begun and has not passed p, or has still to be made. */
  predicate Coming(s: State, c: nat, p: nat)
    requires c < |s.guard|
  {
    Waking(s, CondLock(s.guard[c]), CondOf(c), p) || Owing(s, CondLock(s.guard[c]), c)
  }

  /** Nobody sleeps on a condition that holds, unless a wakeup is on its way. */
  ghost predicate CondInv(s: State) {
    && |s.guard| == |s.ready|
    && (forall p: nat, c: nat {:trigger Asleep(s, p, CondOf(c))} | c < |s.ready| && Asleep(s, p, CondOf(c)) && s.ready[c] ::
          Coming(s, c, p))
    && (forall p: nat, c: nat {:trigger ToSleepOn(s.procs[p].pc, c)} | p < |s.procs| && c < |s.ready| && ToSleepOn(s.procs[p].pc, c) ::
          !s.ready[c])
  }

  /** At pc a thread has found condition c false and is on its way into sleep. */
  predicate ToSleepOn(pc: Pc, c: nat) {
    (pc.SleepGo? || pc.SleepHeld?) && pc.ctx.InCond? && pc.ctx.c == c
  }

  /** k is a zombie that q has to find. */
  predicate Unreaped(s: State, k: nat, q: int) {
    k < |s.procs| && s.procs[k].state == Zombie && s.procs[k].parent == q
  }

  /** What a thread at pc in exit or wait knows while it holds wait_lock. */
  ghost predicate Knows(s: State, p: nat)
    requires p < |s.procs|
  {
    var q := s.procs[p];
    && (q.pc.ExitLock? && q.parent >= 0 ==> !Asleep(s, q.parent, WaitOf(q.parent)))
    && (q.pc.Wake? && q.pc.chan.WaitOf? && q.pc.chan.p >= 0 && Asleep(s, q.pc.chan.p, q.pc.chan) ==>
          q.pc.k <= q.pc.chan.p)
    && (ToSleep(q.pc, InWait) ==> forall k: nat :: !Unreaped(s, k, p))
    && (q.pc.WaitScan? ==> forall k: nat | k < q.pc.k :: !Unreaped(s, k, p))
  }

  /** Nobody sleeps in wait with a zombie child, unless a wakeup is on its way. */
  ghost predicate WaitInv(s: State) {
    && (forall k: nat, q: nat {:trigger Unreaped(s, k, q)} | Unreaped(s, k, q) && Asleep(s, q, WaitOf(q)) ::
          Waking(s, WaitLock, WaitOf(q), q))
    && (forall p: nat {:trigger Knows(s, p)} | p < |s.procs| :: Knows(s, p))
  }

  /** Some process below k has parent p. */
  predicate HasKid(s: State, p: nat, k: nat) {
    exists j: nat :: j < k && j < |s.procs| && s.procs[j].parent == p
  }

  /** At pc a thread is in the sleep of wait. */
  predicate InWaiting(pc: Pc) {
    var b := Base(pc);
    (b.SleepGo? || b.SleepHeld? || b.SleepSet? || b.SleepSched? || b.SleepBack? || b.SleepRetake?) && b.ctx.InWait?
  }

  /** havekids tells a thread in wait whether it has seen a child so far; only a parent sleeps there. */
  predicate Counts(s: State, p: nat)
    requires p < |s.procs|
  {
    var pc := s.procs[p].pc;
    && (pc.WaitScan? ==> (pc.have <==> HasKid(s, p, pc.k)))
    && (InWaiting(pc) ==> HasKid(s, p, |s.procs|))
  }

  ghost predicate Scans(s: State) {
    forall p: nat {:trigger Counts(s, p)} | p < |s.procs| :: Counts(s, p)
  }

  ghost predicate Inv(s: State) {
    Own(s) && Threads(s) && Family(s) && Forks(s) && Exits(s) && CondInv(s) && WaitInv(s) && Scans(s)
  }

  // ---- what an action does to locks and to other processes ----

  lemma EffShape(s: State, w: nat, a: Action)
    requires w < |s.procs| && Can(s, w, a)
    ensures var e := Eff(s, w, a);
            && e.me.cpu == s.procs[w].cpu && e.me.parent == s.procs[w].parent && |e.ready| == |s.ready|
            && e.k != w && (e.k == -1 || (0 <= e.k < |s.procs| && e.other.cpu == s.procs[e.k].cpu))
  {
    if Local(a) {
      hide EffOther, CanOther;
      return;
    }
    hide EffLocal, CanLocal;
  }

  /** The locks held at the next point are those held here, with the one taken or without the one dropped. */
  lemma HoldsStep(s: State, w: nat, a: Action, lk: Lock)
    requires w < |s.procs| && Can(s, w, a) && PcOk(s, w)
    ensures var e := Eff(s, w, a);
            PcHolds(e.me.pc, w, lk) <==>
              match e.lock
              case Keep => PcHolds(s.procs[w].pc, w, lk)
              case Take(x) => lk == x || PcHolds(s.procs[w].pc, w, lk)
              case Drop(x) => lk != x && PcHolds(s.procs[w].pc, w, lk)
    ensures var e := Eff(s, w, a);
            (e.lock.Take? ==> Free(s, e.lock.lk)) && (e.lock.Drop? ==> PcHolds(s.procs[w].pc, w, e.lock.lk))
  {
    hide PcHolds, PcFine, EffLocal, EffOther, CanLocal, CanOther;
    PcBack(s, w);
    if Local(a) {
      HoldsLocal(s, w, a, lk);
    } else {
      HoldsOther(s, w, a, lk);
    }
  }

  /** The locks held at pc' are those held at pc, but for the one taken or dropped. */
  predicate LocksMove(pc: Pc, pc': Pc, w: int, o: LockOp, lk: Lock) {
    && (PcHolds(pc', w, lk) <==>
          match o
          case Keep => PcHolds(pc, w, lk)
          case Take(x) => lk == x || PcHolds(pc, w, lk)
          case Drop(x) => lk != x && PcHolds(pc, w, lk))
    && (o.Drop? ==> PcHolds(pc, w, o.lk))
  }

  lemma HoldsLocal(s: State, w: nat, a: Action, lk: Lock)
    requires w < |s.procs| && CanLocal(s, w, a) && BackOk(s.procs[w].pc)
    ensures var e := EffLocal(s, w, a); LocksMove(s.procs[w].pc, e.me.pc, w, e.lock, lk) && (e.lock.Take? ==> Free(s, e.lock.lk))
  {
  }

  lemma HoldsOther(s: State, w: nat, a: Action, lk: Lock)
    requires w < |s.procs| && CanOther(s, w, a)
    ensures var e := EffOther(s, w, a); LocksMove(s.procs[w].pc, e.me.pc, w, e.lock, lk) && (e.lock.Take? ==> Free(s, e.lock.lk))
  {
  }

  /** A process is changed under its lock; its parent, under wait_lock. */
  lemma OtherLocked(s: State, w: nat, a: Action)
    requires w < |s.procs| && Can(s, w, a)
    ensures var e := Eff(s, w, a);
            e.k >= 0 ==> e.other == s.procs[e.k].(parent := e.other.parent) || Free(s, PLock(e.k)) || PcHolds(s.procs[w].pc, w, PLock(e.k))
  {
    if Local(a) {
      hide EffOther, CanOther;
      return;
    }
    hide EffLocal, CanLocal;
  }

  /** Only a process that is being set up has its program counter set by another. */
  lemma OtherPc(s: State, w: nat, a: Action)
    requires w < |s.procs| && Can(s, w, a) && Forking(s, w)
    ensures var e := Eff(s, w, a);
            e.k >= 0 ==> e.other.pc == s.procs[e.k].pc || (a.SetRunnable? && s.procs[e.k].state == Used)
  {
    if Local(a) {
      hide EffOther, CanOther;
      return;
    }
    hide EffLocal, CanLocal;
  }

  // ---- a process step keeps the invariant ----

  /** s' comes from s by action a of process w on CPU c. */
  ghost predicate Does(s: State, c: nat, w: nat, a: Action, e: Effect, s': State) {
    && w < |s.procs| && Can(s, w, a) && e == Eff(s, w, a) && s' == Apply(s, c, w, e)
    && c < |s.cpus| && s.cpus[c].on == w
  }

  lemma Changes(s: State, c: nat, w: nat, a: Action, e: Effect, s': State)
    requires Does(s, c, w, a, e, s')
    ensures |s'.procs| == |s.procs| && s'.cpus == s.cpus && |s'.ready| == |s.ready| && s'.ready == e.ready
    ensures s'.guard == s.guard
    ensures e.k != w && (e.k == -1 || 0 <= e.k < |s.procs|) && w < |s.procs| && c < |s.cpus| && s.cpus[c].on == w
    ensures forall x: nat {:trigger s'.procs[x]} | x < |s.procs| ::
              s'.procs[x] == if x == w then e.me else if x == e.k then e.other else s.procs[x]
    ensures e.me.cpu == s.procs[w].cpu && e.me.parent == s.procs[w].parent
    ensures (e.k >= 0 ==> e.other.cpu == s.procs[e.k].cpu)
    ensures s'.owner == Locked(s.owner, c, e.lock)
  {
    hide Eff, Can;
    EffShape(s, w, a);
  }

  lemma OwnRun(s: State, c: nat, w: nat, a: Action, e: Effect, s': State, d: nat, lk: Lock)
    requires Own(s) && Threads(s) && Forks(s) && Does(s, c, w, a, e, s')
    ensures Holds(s', d, lk) <==> lk in s'.owner && s'.owner[lk] == d
  {
    hide Eff, Can, Apply;
    Changes(s, c, w, a, e, s');
    assert ProcOk(s, w) && Forking(s, w);
    ByStep(s, c, w, a, e, s', lk);
    if d < |s.cpus| {
      assert CpuOk(s, d) && CpuOk(s, c);
      hide PcHolds;
      assert Holds(s, d, lk) <==> lk in s.owner && s.owner[lk] == d;
      assert Holds(s, c, lk) <==> lk in s.owner && s.owner[lk] == c;
      if d != c && 0 <= s.cpus[d].on == e.k {
        assert ProcOk(s, e.k);
      }
    }
  }

  lemma ByStep(s: State, c: nat, w: nat, a: Action, e: Effect, s': State, lk: Lock)
    requires w < |s.procs| && PcOk(s, w) && Forking(s, w) && Does(s, c, w, a, e, s')
    ensures PcHolds(e.me.pc, w, lk) <==>
              match e.lock
              case Keep => PcHolds(s.procs[w].pc, w, lk)
              case Take(x) => lk == x || PcHolds(s.procs[w].pc, w, lk)
              case Drop(x) => lk != x && PcHolds(s.procs[w].pc, w, lk)
    ensures (e.lock.Take? ==> Free(s, e.lock.lk)) && (e.lock.Drop? ==> PcHolds(s.procs[w].pc, w, e.lock.lk))
    ensures 0 <= e.k < |s.procs| ==>
              e.other == s.procs[e.k].(parent := e.other.parent) || Free(s, PLock(e.k)) || PcHolds(s.procs[w].pc, w, PLock(e.k))
    ensures 0 <= e.k < |s.procs| ==> e.other.pc == s.procs[e.k].pc || (a.SetRunnable? && s.procs[e.k].state == Used)
  {
    hide Eff, Can, PcHolds, Apply, PcOk, Forking;
    HoldsStep(s, w, a, lk);
    OtherLocked(s, w, a);
    OtherPc(s, w, a);
  }

  /** What an action can do to another process. */
  predicate Turn(q: Proc, r: Proc) {
    || r == q.(parent := r.parent)
    || (q.state == Sleeping && r == q.(state := Runnable))
    || (q.state == Unused && r == q.(state := Used))
    || ((q.state == Used || q.state == Zombie) && r == Freed(q))
    || (q.state == Used && r == q.(state := Runnable, pc := Start))
  }

  lemma OtherTurn(s: State, w: nat, a: Action)
    requires w < |s.procs| && Can(s, w, a) && Forking(s, w)
    ensures var e := Eff(s, w, a); e.k >= 0 ==> Turn(s.procs[e.k], e.other)
  {
    if Local(a) {
      hide EffOther, CanOther;
      return;
    }
    hide EffLocal, CanLocal;
  }

  /** The acting process stays on its CPU, in the state its next point asks for. */
  lemma MeState(s: State, w: nat, a: Action)
    requires w < |s.procs| && Can(s, w, a) && PcOk(s, w) && s.procs[w].state == RunState(s.procs[w].pc)
    requires !s.procs[w].pc.Dead?
    ensures StateFits(w, Eff(s, w, a).me)
  {
    hide StateFits, EffLocal, EffOther, CanLocal, CanOther, PcFine;
    PcBack(s, w);
    if Local(a) {
      StateLocal(s, w, a);
    } else {
      StateOther(s, w, a);
    }
  }

  predicate StateFits(w: nat, q: Proc) {
    q.state == RunState(q.pc) && !q.pc.Dead? && (q.state == Sleeping ==> q.pc.SleepSched? && q.chan == CtxChan(q.pc.ctx, w))
  }

  lemma StateLocal(s: State, w: nat, a: Action)
    requires w < |s.procs| && CanLocal(s, w, a) && BackOk(s.procs[w].pc) && s.procs[w].state == RunState(s.procs[w].pc)
    ensures StateFits(w, EffLocal(s, w, a).me)
  {
  }

  lemma StateOther(s: State, w: nat, a: Action)
    requires w < |s.procs| && CanOther(s, w, a) && s.procs[w].state == RunState(s.procs[w].pc)
    ensures StateFits(w, EffOther(s, w, a).me)
  {
  }

  lemma MePc(s: State, w: nat, a: Action)
    requires w < |s.procs| && PcOk(s, w) && Can(s, w, a)
    ensures var e := Eff(s, w, a); PcFine(e.me.pc, s.guard, e.me.parent)
  {
    hide PcFine, EffLocal, EffOther, CanLocal, CanOther;
    if !Local(a) {
      PcOther(s, w, a);
    } else if Todo(a) {
      PcTodo(s, w, a);
    } else {
      PcLocal(s, w, a);
    }
  }

  /** Steps that change what a region has still to wake for. */
  predicate Todo(a: Action) {
    a.SetCond? || a.Claim? || a.Signal? || a.WakeEnd? || a.Enter? || a.Retake?
  }

  lemma PcOther(s: State, w: nat, a: Action)
    requires w < |s.procs| && PcOk(s, w) && CanOther(s, w, a)
    ensures var e := EffOther(s, w, a); PcFine(e.me.pc, s.guard, e.me.parent)
  {
    hide TodoOk;
  }

  lemma PcLocal(s: State, w: nat, a: Action)
    requires w < |s.procs| && PcOk(s, w) && CanLocal(s, w, a) && !Todo(a)
    ensures var e := EffLocal(s, w, a); PcFine(e.me.pc, s.guard, e.me.parent)
  {
    hide TodoOk;
  }

  lemma PcTodo(s: State, w: nat, a: Action)
    requires w < |s.procs| && PcOk(s, w) && CanLocal(s, w, a) && Todo(a)
    ensures var e := EffLocal(s, w, a); PcFine(e.me.pc, s.guard, e.me.parent)
  {
    hide TodoOk, CtxOk;
    var pc := s.procs[w].pc;
    TodoNone(s.guard);
    if a.SetCond? || a.Claim? || a.Signal? {
      TodoOne(pc.l, pc.todo, a.c, s.guard);
    } else if a.WakeEnd? && pc.ret.FromSignal? {
      TodoLess(pc.ret.l, pc.ret.todo, pc.chan.c, s.guard);
    }
  }

  lemma TodoNone(guard: seq<nat>)
    ensures forall l: nat :: TodoOk(l, {}, guard)
  {
  }

  lemma TodoOne(l: nat, todo: set<nat>, c: nat, guard: seq<nat>)
    requires TodoOk(l, todo, guard) && c < |guard| && guard[c] == l
    ensures TodoOk(l, todo - {c}, guard) && TodoOk(l, todo + {c}, guard) && TodoOk(l, todo - {c} + {c}, guard)
  {
  }

  lemma TodoLess(l: nat, todo: set<nat>, c: nat, guard: seq<nat>)
    requires TodoOk(l, todo + {c}, guard)
    ensures TodoOk(l, todo, guard)
  {
  }

  lemma CpuRun(s: State, c: nat, w: nat, a: Action, e: Effect, s': State, d: nat)
    requires Own(s) && Threads(s) && Forks(s) && Does(s, c, w, a, e, s') && d < |s.cpus|
    ensures s'.cpus == s.cpus && CpuOk(s', d)
  {
    hide Eff, Can, Apply;
    Changes(s, c, w, a, e, s');
    assert ProcOk(s, w) && Forking(s, w);
    assert CpuOk(s, d) && CpuOk(s, c);
    if s.cpus[d].on < 0 && (s.cpus[d].spc.Picked? || s.cpus[d].spc.Back?) {
      var k := s.cpus[d].spc.k;
      ByStep(s, c, w, a, e, s', PLock(k));
      assert Holds(s, d, PLock(k)) && !Holds(s, c, PLock(k));
      hide PcHolds;
      assert s'.procs[k] == s.procs[k] || s'.procs[k] == s.procs[k].(parent := s'.procs[k].parent);
    } else if s.cpus[d].on >= 0 {
      assert s'.procs[s.cpus[d].on].cpu == s.procs[s.cpus[d].on].cpu;
    }
  }

  lemma ProcRun(s: State, c: nat, w: nat, a: Action, e: Effect, s': State, p: nat)
    requires Own(s) && Threads(s) && Forks(s) && Does(s, c, w, a, e, s') && p < |s.procs|
    ensures |s'.procs| == |s.procs| && ProcOk(s', p)
  {
    hide Eff, Can, Apply;
    Changes(s, c, w, a, e, s');
    assert ProcOk(s, w) && Forking(s, w) && ProcOk(s, p);
    assert CpuOk(s, c);
    assert OnCpu(s, w);
    if p == w {
      MeState(s, w, a);
      MePc(s, w, a);
    } else {
      OtherTurn(s, w, a);
      ByStep(s, c, w, a, e, s', PLock(p));
      if s.procs[p].pc.Wake? && !s.procs[p].pc.ret.FromSignal? {
        WakeParent(s, c, w, a, e, s', p);
      }
      OtherProc(s, c, w, e, s', p);
    }
  }

  /** A parent changes under wait_lock, or with the process it belongs to not yet running. */
  lemma ParentLocked(s: State, w: nat, a: Action)
    requires w < |s.procs| && Can(s, w, a) && Forking(s, w)
    ensures var e := Eff(s, w, a);
            e.k >= 0 ==> e.other.parent == s.procs[e.k].parent || Free(s, WaitLock) || PcHolds(s.procs[w].pc, w, WaitLock)
  {
    if Local(a) {
      hide EffOther, CanOther;
      return;
    }
    hide EffLocal, CanLocal;
  }

  /** A process in the middle of wakeup keeps its parent. */
  lemma WakeParent(s: State, c: nat, w: nat, a: Action, e: Effect, s': State, p: nat)
    requires Own(s) && Threads(s) && Forks(s) && Does(s, c, w, a, e, s') && p < |s.procs| && p != w
    requires s.procs[p].pc.Wake? && !s.procs[p].pc.ret.FromSignal?
    ensures |s'.procs| == |s.procs| && s'.procs[p].parent == s.procs[p].parent
  {
    hide Eff, Can, Apply;
    Changes(s, c, w, a, e, s');
    assert ProcOk(s, w) && Forking(s, w) && ProcOk(s, p);
    ParentLocked(s, w, a);
    assert Holds(s, s.procs[p].cpu, RetLock(s.procs[p].pc.ret));
    assert Holds(s, c, WaitLock) <==> PcHolds(s.procs[w].pc, w, WaitLock);
  }

  /** A process that does not act. */
  lemma OtherProc(s: State, c: nat, w: nat, e: Effect, s': State, p: nat)
    requires Own(s) && p < |s.procs| && w < |s.procs| && p != w && ProcOk(s, p) && c < |s.cpus| && s.cpus[c].on == w
    requires |s'.procs| == |s.procs| && s'.cpus == s.cpus && |s'.ready| == |s.ready| && s'.guard == s.guard
    requires s'.owner == Locked(s.owner, c, e.lock)
    requires s'.procs[p] == s.procs[p] || (Turn(s.procs[p], s'.procs[p]) && (s'.procs[p] == s.procs[p].(parent := s'.procs[p].parent) || Free(s, PLock(p)) || PcHolds(s.procs[w].pc, w, PLock(p))))
    requires s'.procs[p].parent == s.procs[p].parent || !s.procs[p].pc.Wake? || s.procs[p].pc.ret.FromSignal?
    requires (e.lock.Take? ==> Free(s, e.lock.lk)) && (e.lock.Drop? ==> PcHolds(s.procs[w].pc, w, e.lock.lk))
    ensures ProcOk(s', p)
  {
    if s.procs[p].cpu >= 0 && s.procs[p].state != Running {
      assert PcHolds(s.procs[p].pc, p, PLock(p));
      assert Holds(s, s.procs[p].cpu, PLock(p));
    }
    assert Holds(s, c, PLock(p)) <==> PcHolds(s.procs[w].pc, w, PLock(p));
    hide PcHolds;
    assert PcOk(s', p);
  }

  // ---- families ----

  /** A living process stays alive, unless it exits. */
  lemma LiveRun(s: State, c: nat, w: nat, a: Action, e: Effect, s': State, x: nat)
    requires Threads(s) && Forks(s) && Does(s, c, w, a, e, s') && x < |s.procs| && Live(s.procs[x].state)
    ensures |s'.procs| == |s.procs| && (Live(s'.procs[x].state) || (x == w && a.ExitMark?))
  {
    hide Eff, Can, Apply;
    Changes(s, c, w, a, e, s');
    assert ProcOk(s, w) && Forking(s, w);
    assert CpuOk(s, c);
    if x == w {
      MeLive(s, w, a);
    } else {
      OtherTurn(s, w, a);
    }
  }

  lemma MeLive(s: State, w: nat, a: Action)
    requires w < |s.procs| && Can(s, w, a) && PcOk(s, w) && s.procs[w].state == RunState(s.procs[w].pc)
    ensures var e := Eff(s, w, a);
            && (Live(s.procs[w].state) ==> Live(e.me.state) || a.ExitMark?)
            && (a.ExitMark? ==> s.procs[w].pc.ExitLock? && e.k == -1 && s.procs[w].state == Running)
            && e.me.state != Unused && e.me.state != Used
  {
    if Local(a) {
      hide EffOther, CanOther;
      return;
    }
    hide EffLocal, CanLocal;
  }

  /** How an action changes the parent of another process, or makes it count as a child. */
  lemma ParentTurn(s: State, w: nat, a: Action)
    requires w < |s.procs| && Can(s, w, a) && Forking(s, w)
    ensures var e := Eff(s, w, a);
            e.k >= 0 ==>
              var q, r := s.procs[e.k], e.other;
              || (r.parent == q.parent && (r.state == q.state || (Live(q.state) && Live(r.state)) || r.state == Used))
              || (r.parent == q.parent == w && r.state == Runnable)
              || (r.parent == w && q.state == Used && r.state == Used && s.procs[w].pc.ForkParent?)
              || (r.parent == INIT && q.parent == w && r.state == q.state && s.procs[w].pc.Reparent?)
              || (r.parent == -1 && r.state == Unused)
  {
    if Local(a) {
      hide EffOther, CanOther;
      return;
    }
    hide EffLocal, CanLocal;
  }

  lemma FamilyRun(s: State, c: nat, w: nat, a: Action, e: Effect, s': State, k: nat)
    requires Threads(s) && Family(s) && Forks(s) && Exits(s) && Does(s, c, w, a, e, s') && k < |s.procs|
    ensures |s'.procs| == |s.procs| && HasParent(s', k)
  {
    hide Eff, Can, Apply, PcFine, Threads, Forks, Exits;
    Changes(s, c, w, a, e, s');
    Actor(s, c, w);
    assert HasParent(s, w) && HasParent(s, k);
    MeLive(s, w, a);
    ParentTurn(s, w, a);
    var q := s'.procs[k].parent;
    if 0 <= q < |s.procs| && Live(s.procs[q].state) {
      LiveRun(s, c, w, a, e, s', q);
    }
    if a.ExitMark? {
      Childless(s, w, k);
    }
    hide Does, Family, OnCpu, Forking;
  }

  /** The acting process. */
  lemma Actor(s: State, c: nat, w: nat)
    requires Threads(s) && Forks(s) && c < |s.cpus| && s.cpus[c].on == w < |s.procs|
    ensures PcOk(s, w) && OnCpu(s, w) && Forking(s, w) && s.procs[w].cpu == c
  {
    assert CpuOk(s, c);
    assert ProcOk(s, w) && Forking(s, w);
  }

  /** At the end of exit nobody is a child of w, and w is not init. */
  lemma Childless(s: State, w: nat, k: nat)
    requires Exits(s) && w < |s.procs| && k < |s.procs| && s.procs[w].pc.ExitLock?
    ensures s.procs[k].parent != w && w != INIT
  {
    assert Passed(s.procs[w].pc, k) && Exiting(s.procs[w].pc);
    assert s.procs[w] == s.procs[w] && s.procs[k] == s.procs[k];
  }

  lemma InitRun(s: State, c: nat, w: nat, a: Action, e: Effect, s': State)
    requires Threads(s) && Family(s) && Forks(s) && Exits(s) && Does(s, c, w, a, e, s')
    ensures |s'.procs| == |s.procs| && INIT < |s.procs| && Live(s'.procs[INIT].state) && s'.procs[INIT].parent == -1
  {
    hide Eff, Can, Apply;
    Changes(s, c, w, a, e, s');
    LiveRun(s, c, w, a, e, s', INIT);
    assert ProcOk(s, w) && Forking(s, w);
    assert CpuOk(s, c);
    MeLive(s, w, a);
    ParentTurn(s, w, a);
    if a.ExitMark? {
      assert Exiting(s.procs[w].pc);
    }
  }

  // ---- fork and exit in progress ----

  /** Where a thread goes on after a yield or under a leaf lock. */
  predicate BackOk(pc: Pc) {
    ((pc.YieldSched? || pc.YieldBack?) ==> Open(pc.back)) && ((pc.LeafWait? || pc.InLeaf?) ==> LeafBack(pc.back))
  }

  lemma PcBack(s: State, w: nat)
    requires w < |s.procs| && PcOk(s, w)
    ensures BackOk(s.procs[w].pc)
  {
    hide TodoOk, CtxOk;
  }

  lemma MeFork(s: State, w: nat, a: Action)
    requires w < |s.procs| && Can(s, w, a) && BackOk(s.procs[w].pc) && s.procs[w].state == RunState(s.procs[w].pc)
    requires Forking(s, w)
    ensures ForkMove(s, w, Eff(s, w, a))
  {
    hide ForkMove, EffLocal, EffOther, CanLocal, CanOther;
    if Local(a) {
      ForkLocal(s, w, a);
    } else {
      ForkOther(s, w, a);
    }
  }

  /** How a fork that w makes goes on. */
  ghost predicate ForkMove(s: State, w: nat, e: Effect)
    requires w < |s.procs|
  {
    && e.k < |s.procs|
    && var k := ForkOf(e.me.pc);
       && (k != -1 ==>
            && k < |s.procs| && k != w && (e.k == k || e.k == -1)
            && (k == ForkOf(s.procs[w].pc) || (s.procs[k].state == Unused && e.k == k))
            && (e.k == k ==> e.other.state == Used) && (e.k == -1 ==> s.procs[k].state == Used)
            && var parent := if e.k == k then e.other.parent else s.procs[k].parent;
               if Base(e.me.pc).ForkRun? then parent == w
               else parent == -1 || (s.procs[k].state == Unused && parent == s.procs[k].parent))
       && (e.k >= 0 ==> ForkOf(e.other.pc) == ForkOf(s.procs[e.k].pc) || ForkOf(e.other.pc) == -1)
       && (e.k >= 0 && s.procs[e.k].state == Used ==>
            || e.k == ForkOf(s.procs[w].pc)
            || (e.other.state == Used && (e.other.parent == s.procs[e.k].parent || s.procs[e.k].parent == w)))
  }

  lemma ForkLocal(s: State, w: nat, a: Action)
    requires w < |s.procs| && CanLocal(s, w, a) && BackOk(s.procs[w].pc) && ForkFine(s, w)
    ensures ForkMove(s, w, EffLocal(s, w, a))
  {
    hide EffLocal, CanLocal;
    LocalBase(s, w, a);
    LocalOther(s, w, a);
  }

  /** Yields and leaf locks come back to where they began; no other local step is part of a fork. */
  lemma LocalBase(s: State, w: nat, a: Action)
    requires w < |s.procs| && CanLocal(s, w, a) && BackOk(s.procs[w].pc)
    ensures var e := EffLocal(s, w, a);
            (Base(e.me.pc) == Base(s.procs[w].pc) && e.k == -1) || (ForkOf(e.me.pc) == -1 && ReapOf(e.me.pc) == -1)
  {
    hide EffLocal, CanLocal;
    if a.YieldIn? || a.YieldOut? || a.LeafWant? || a.LeafTake? || a.LeafDrop? {
      LocalBack(s, w, a);
    } else {
      LocalElse(s, w, a);
    }
  }

  lemma LocalBack(s: State, w: nat, a: Action)
    requires w < |s.procs| && CanLocal(s, w, a) && BackOk(s.procs[w].pc)
    requires a.YieldIn? || a.YieldOut? || a.LeafWant? || a.LeafTake? || a.LeafDrop?
    ensures var e := EffLocal(s, w, a); Base(e.me.pc) == Base(s.procs[w].pc) && e.k == -1
  {
  }

  lemma LocalElse(s: State, w: nat, a: Action)
    requires w < |s.procs| && CanLocal(s, w, a)
    requires !a.YieldIn? && !a.YieldOut? && !a.LeafWant? && !a.LeafTake? && !a.LeafDrop?
    ensures var pc := EffLocal(s, w, a).me.pc; Base(pc) == pc && !pc.ForkInit? && !pc.ForkParent? && !pc.ForkRun? && !pc.WaitReap?
  {
  }

  lemma LocalOther(s: State, w: nat, a: Action)
    requires w < |s.procs| && CanLocal(s, w, a)
    ensures var e := EffLocal(s, w, a);
            e.k == -1 || (0 <= e.k < |s.procs| && e.k != w && s.procs[e.k].state == Sleeping && e.other == s.procs[e.k].(state := Runnable))
  {
  }

  lemma ForkOther(s: State, w: nat, a: Action)
    requires w < |s.procs| && CanOther(s, w, a) && Forking(s, w)
    ensures ForkMove(s, w, EffOther(s, w, a))
  {
  }

  lemma ForksRun(s: State, c: nat, w: nat, a: Action, e: Effect, s': State, p: nat)
    requires Own(s) && Threads(s) && Family(s) && Forks(s) && Does(s, c, w, a, e, s') && p < |s.procs|
    ensures |s'.procs| == |s.procs| && Forking(s', p)
  {
    hide Eff, Can, Apply, PcFine, ReapFine;
    Changes(s, c, w, a, e, s');
    assert ProcOk(s, w) && Forking(s, w) && Forking(s, p);
    if 0 <= e.k {
      assert HasParent(s, e.k);
    }
    assert CpuOk(s, c);
    PcBack(s, w);
    MeFork(s, w, a);
    MeLive(s, w, a);
    OtherTurn(s, w, a);
    ReapRun(s, c, w, a, e, s', p);
  }

  lemma MeReap(s: State, w: nat, a: Action)
    requires w < |s.procs| && Can(s, w, a) && BackOk(s.procs[w].pc) && ReapFine(s, w)
    ensures var e := Eff(s, w, a); var r := ReapOf(e.me.pc);
            r != -1 ==> 0 <= r < |s.procs| && r != w && s.procs[r].state == Zombie && s.procs[r].parent == w && e.k == -1
  {
    var pc := s.procs[w].pc;
    if a.WaitStep? {
    } else if a.LeafWant? || a.LeafTake? || a.LeafDrop? {
      assert ReapOf(Eff(s, w, a).me.pc) == ReapOf(pc);
    } else if a.YieldIn? || a.YieldOut? {
    } else {
      ReapElse(s, w, a);
    }
  }

  lemma ReapElse(s: State, w: nat, a: Action)
    requires w < |s.procs| && Can(s, w, a)
    requires !a.WaitStep? && !a.LeafWant? && !a.LeafTake? && !a.LeafDrop? && !a.YieldIn? && !a.YieldOut?
    ensures var e := Eff(s, w, a); ReapOf(e.me.pc) == -1 || (e.me.pc == s.procs[w].pc && e.k == -1)
  {
    if Local(a) {
      hide EffOther, CanOther;
      return;
    }
    hide EffLocal, CanLocal;
  }

  /** What wait has found stays found: it is a zombie, under its lock and wait_lock. */
  lemma ReapRun(s: State, c: nat, w: nat, a: Action, e: Effect, s': State, p: nat)
    requires Own(s) && Threads(s) && Forks(s) && Does(s, c, w, a, e, s') && p < |s.procs|
    ensures |s'.procs| == |s.procs| && ReapFine(s', p)
  {
    hide Eff, Can, Apply, PcFine;
    Changes(s, c, w, a, e, s');
    Actor(s, c, w);
    assert Forking(s, p);
    OtherTurn(s, w, a);
    var r := ReapOf(s'.procs[p].pc);
    PcBack(s, w);
    MeReap(s, w, a);
    if p != w && r != -1 {
      assert s'.procs[p].pc == s.procs[p].pc;
      Reaper(s, p);
      Actor(s, s.procs[p].cpu, p);
      ByStep(s, c, w, a, e, s', PLock(r));
      ParentLocked(s, w, a);
      WaitHeld(s, c, w);
      ZombieLocked(s, c, w, r);
      hide PcHolds;
      assert Holds(s, s.procs[p].cpu, PLock(r)) && Holds(s, s.procs[p].cpu, WaitLock);
      assert !Holds(s, c, PLock(r)) && !Holds(s, c, WaitLock);
    }
  }

  /** A thread that reaps is on a CPU and holds both locks. */
  lemma Reaper(s: State, p: nat)
    requires Threads(s) && p < |s.procs| && ReapOf(s.procs[p].pc) != -1
    ensures var r := ReapOf(s.procs[p].pc);
            && 0 <= s.procs[p].cpu < |s.cpus| && s.cpus[s.procs[p].cpu].on == p
            && PcHolds(s.procs[p].pc, p, PLock(r)) && PcHolds(s.procs[p].pc, p, WaitLock)
            && Holds(s, s.procs[p].cpu, PLock(r)) && Holds(s, s.procs[p].cpu, WaitLock)
  {
    assert ProcOk(s, p);
    assert s.procs[p].cpu >= 0;
    assert CpuOk(s, s.procs[p].cpu);
  }

  lemma WaitHeld(s: State, c: nat, w: nat)
    requires c < |s.cpus| && s.cpus[c].on == w < |s.procs|
    ensures forall lk :: Holds(s, c, lk) <==> PcHolds(s.procs[w].pc, w, lk)
  {
  }

  /** A process on a CPU that is a zombie holds its lock. */
  lemma ZombieLocked(s: State, c: nat, w: nat, r: nat)
    requires Threads(s) && c < |s.cpus| && s.cpus[c].on == w < |s.procs|
    ensures w == r && s.procs[w].state == Zombie ==> Holds(s, c, PLock(r))
  {
    assert CpuOk(s, c);
    assert ProcOk(s, w);
  }

  lemma OneForkRun(s: State, c: nat, w: nat, a: Action, e: Effect, s': State, p: nat, q: nat)
    requires Threads(s) && Forks(s) && Does(s, c, w, a, e, s') && p < |s.procs| && q < |s.procs| && p != q
    ensures |s'.procs| == |s.procs|
    ensures ForkOf(s'.procs[p].pc) == -1 || ForkOf(s'.procs[p].pc) != ForkOf(s'.procs[q].pc)
  {
    hide Eff, Can, Apply, PcFine;
    Changes(s, c, w, a, e, s');
    assert ProcOk(s, w) && Forking(s, w) && Forking(s, p) && Forking(s, q);
    assert CpuOk(s, c);
    PcBack(s, w);
    MeFork(s, w, a);
  }

  lemma MeExit(s: State, w: nat, a: Action, j: nat)
    requires w < |s.procs| && Can(s, w, a) && PcOk(s, w) && j < |s.procs| && s.procs[w].parent != w
    ensures ExitMove(s, w, Eff(s, w, a), j)
  {
    hide ExitMove, EffLocal, EffOther, CanLocal, CanOther, PcFine;
    PcBack(s, w);
    if Local(a) {
      ExitLocal(s, w, a, j);
    } else {
      ExitOther(s, w, a, j);
    }
  }

  /** How an exit that w makes goes on past process j. */
  ghost predicate ExitMove(s: State, w: nat, e: Effect, j: nat)
    requires w < |s.procs| && j < |s.procs|
  {
    && e.k < |s.procs|
    && (Exiting(e.me.pc) ==> Exiting(s.procs[w].pc) || w != INIT)
    && (Passed(e.me.pc, j) ==>
          Passed(s.procs[w].pc, j) || s.procs[j].parent != w || (e.k == j && e.other.parent == INIT && Exiting(s.procs[w].pc)))
    && (e.k >= 0 && e.other.parent == w ==> !Exiting(e.me.pc) || s.procs[e.k].parent == w)
  }

  lemma ExitLocal(s: State, w: nat, a: Action, j: nat)
    requires w < |s.procs| && CanLocal(s, w, a) && BackOk(s.procs[w].pc) && j < |s.procs|
    ensures ExitMove(s, w, EffLocal(s, w, a), j)
  {
    hide EffLocal, CanLocal, Passed;
    LocalOther(s, w, a);
    if a.WakeStep? || a.WakeEnd? {
      WakePassed(s, w, a, j);
    } else {
      NotExiting(s, w, a);
      PassedExits(EffLocal(s, w, a).me.pc, j);
    }
  }

  lemma WakePassed(s: State, w: nat, a: Action, j: nat)
    requires w < |s.procs| && CanLocal(s, w, a) && (a.WakeStep? || a.WakeEnd?)
    ensures var pc := EffLocal(s, w, a).me.pc;
            (Exiting(pc) ==> Exiting(s.procs[w].pc)) && (Passed(pc, j) && j < |s.procs| ==> Passed(s.procs[w].pc, j))
  {
  }

  lemma NotExiting(s: State, w: nat, a: Action)
    requires w < |s.procs| && CanLocal(s, w, a) && !a.WakeStep? && !a.WakeEnd? && BackOk(s.procs[w].pc)
    ensures !Exiting(EffLocal(s, w, a).me.pc)
  {
  }

  lemma PassedExits(pc: Pc, j: nat)
    ensures Passed(pc, j) ==> Exiting(pc)
  {
  }

  lemma ExitOther(s: State, w: nat, a: Action, j: nat)
    requires w < |s.procs| && CanOther(s, w, a) && j < |s.procs| && s.procs[w].parent != w
    ensures ExitMove(s, w, EffOther(s, w, a), j)
  {
  }

  lemma ExitsRun(s: State, c: nat, w: nat, a: Action, e: Effect, s': State, p: nat, j: nat)
    requires Threads(s) && Family(s) && Forks(s) && Exits(s) && Does(s, c, w, a, e, s') && p < |s.procs|
    requires j < |s.procs|
    ensures |s'.procs| == |s.procs| && (Exiting(s'.procs[p].pc) ==> p != INIT)
    ensures Passed(s'.procs[p].pc, j) ==> s'.procs[j].parent != p
  {
    hide Eff, Can, Apply, PcFine;
    Changes(s, c, w, a, e, s');
    assert ProcOk(s, w) && Forking(s, w) && HasParent(s, w);
    assert Exiting(s.procs[p].pc) ==> p != INIT;
    assert Exiting(s.procs[w].pc) ==> w != INIT;
    assert Passed(s.procs[p].pc, j) ==> s.procs[j].parent != p;
    MeExit(s, w, a, j);
    ParentTurn(s, w, a);
    OtherTurn(s, w, a);
  }

  // ---- no lost wakeup ----

  lemma MeCond(s: State, w: nat, a: Action, c: nat)
    requires w < |s.procs| && Can(s, w, a) && PcOk(s, w) && c < |s.ready| == |s.guard|
    ensures var e := Eff(s, w, a); var pc := s.procs[w].pc;
            && |e.ready| == |s.ready|
            && (e.ready[c] != s.ready[c] ==>
                  pc.Region? && pc.l == s.guard[c] && (e.ready[c] ==> Owes(e.me.pc, c) && e.lock.Keep?))
  {
    hide TodoOk, PcFine;
    if Local(a) {
      hide EffOther, CanOther;
      return;
    }
    hide EffLocal, CanLocal;
  }

  lemma MeOwes(s: State, w: nat, a: Action, c: nat)
    requires w < |s.procs| && Can(s, w, a) && PcOk(s, w) && c < |s.ready| == |s.guard| && Owes(s.procs[w].pc, c)
    requires Eff(s, w, a).ready[c]
    ensures var e := Eff(s, w, a);
            && e.lock != Drop(CondLock(s.guard[c]))
            && (Owes(e.me.pc, c) || (e.me.pc.Wake? && e.me.pc.chan == CondOf(c) && e.me.pc.k == 0))
  {
    hide TodoOk;
    if Local(a) {
      hide EffOther, CanOther;
      return;
    }
    hide EffLocal, CanLocal;
  }

  lemma MeToSleep(s: State, w: nat, a: Action, c: nat)
    requires w < |s.procs| && Can(s, w, a) && PcOk(s, w) && c < |s.ready|
    ensures ToSleepOn(Eff(s, w, a).me.pc, c) ==> ToSleepOn(s.procs[w].pc, c) || !s.ready[c]
  {
    if Local(a) {
      hide EffOther, CanOther;
      return;
    }
    hide EffLocal, CanLocal;
  }

  /** An action makes a process sleep only by the second half of its own sleep(). */
  lemma MeAsleep(s: State, w: nat, a: Action)
    requires w < |s.procs| && Can(s, w, a) && PcOk(s, w) && s.procs[w].state == RunState(s.procs[w].pc)
    ensures var e := Eff(s, w, a); var pc := s.procs[w].pc;
            && (e.me.pc.SleepSet? ==> a.SleepRelease? && pc.SleepHeld? && pc.ctx == e.me.pc.ctx)
            && (e.me.state == Sleeping ==> a.SleepMark? && pc.SleepSet? && e.me.chan == CtxChan(pc.ctx, w))
            && (a.SleepRelease? ==> e.k == -1 && e.me.pc.SleepSet? && e.ready == s.ready)
  {
    if Local(a) {
      hide EffOther, CanOther;
      return;
    }
    hide EffLocal, CanLocal;
  }

  lemma AsleepRun(s: State, c: nat, w: nat, a: Action, e: Effect, s': State, p: nat, ch: Chan)
    requires Threads(s) && Forks(s) && Does(s, c, w, a, e, s') && Asleep(s', p, ch)
    ensures Asleep(s, p, ch) || (p == w && a.SleepRelease? && s.procs[w].pc.SleepHeld? && CtxChan(s.procs[w].pc.ctx, w) == ch)
  {
    hide Eff, Can, Apply, PcFine, Threads, Forks;
    Changes(s, c, w, a, e, s');
    Actor(s, c, w);
    MeAsleep(s, w, a);
    OtherTurn(s, w, a);
  }

  lemma MeWake(s: State, w: nat, a: Action)
    requires w < |s.procs| && Can(s, w, a) && PcOk(s, w)
    ensures var e := Eff(s, w, a); var pc := s.procs[w].pc;
            && (pc.Wake? && pc.k < |s.procs| ==>
                  && e.me.pc == Wake(pc.chan, pc.k + 1, pc.ret) && e.lock.Keep? && (pc.k == w || Free(s, PLock(pc.k)))
                  && (pc.k != w && s.procs[pc.k].state == Sleeping && s.procs[pc.k].chan == pc.chan ==>
                        e.k == pc.k && e.other == s.procs[pc.k].(state := Runnable)))
            && (e.me.pc.Wake? ==> pc == e.me.pc || e.me.pc.k == 0 || (pc.Wake? && pc.k < |s.procs|))
  {
    if Local(a) {
      hide EffOther, CanOther;
      return;
    }
    hide EffLocal, CanLocal;
  }

  /** A wakeup on its way to p stays on its way, until p is awake. */
  lemma WakingRun(s: State, c: nat, w: nat, a: Action, e: Effect, s': State, lk: Lock, ch: Chan, p: nat)
    requires Own(s) && Threads(s) && Forks(s) && Does(s, c, w, a, e, s') && Waking(s, lk, ch, p) && Asleep(s', p, ch)
    requires p < |s.procs|
    ensures Waking(s', lk, ch, p)
  {
    hide Eff, Can, Apply, PcFine;
    Changes(s, c, w, a, e, s');
    Actor(s, c, w);
    var d := s.owner[lk];
    var v := s.cpus[d].on;
    Actor(s, d, v);
    if v == w {
      MeWake(s, w, a);
      AsleepRun(s, c, w, a, e, s', p, ch);
      if s.procs[w].pc.k == p {
        StillAwake(s, w, p, ch);
      }
    } else {
      ByStep(s, c, w, a, e, s', lk);
      hide PcHolds, Threads, Forks;
      assert Holds(s, c, lk) ==> d == c;
    }
  }

  /** A process whose lock is free, or that is in wakeup itself, is not on its way into sleep. */
  lemma StillAwake(s: State, w: nat, p: nat, ch: Chan)
    requires Own(s) && Threads(s) && w < |s.procs| && p < |s.procs| && (p == w || Free(s, PLock(p))) && Asleep(s, p, ch)
    requires s.procs[w].cpu >= 0 && s.procs[w].pc.Wake?
    ensures p != w && s.procs[p].state == Sleeping && s.procs[p].chan == ch && !s.procs[p].pc.SleepSet?
  {
    assert ProcOk(s, p) && ProcOk(s, w);
    if s.procs[p].cpu >= 0 && s.procs[p].pc.SleepSet? {
      assert Holds(s, s.procs[p].cpu, PLock(p));
    }
  }

  lemma CondRun(s: State, d: nat, w: nat, a: Action, e: Effect, s': State, p: nat, c: nat)
    requires Own(s) && Threads(s) && Forks(s) && CondInv(s) && Does(s, d, w, a, e, s') && c < |s.ready|
    requires Asleep(s', p, CondOf(c)) && |s'.ready| == |s.ready| && s'.ready[c]
    ensures s'.guard == s.guard && Coming(s', c, p)
  {
    hide Does, PcFine, Threads, Forks, Own, Waking, Owing;
    Changes(s, d, w, a, e, s');
    assert w < |s.procs| && (ToSleepOn(s.procs[w].pc, c) ==> !s.ready[c]);
    AsleepRun(s, d, w, a, e, s', p, CondOf(c));
    if Asleep(s, p, CondOf(c)) && s.ready[c] {
      hide Asleep;
      assert Coming(s, c, p);
      if Waking(s, CondLock(s.guard[c]), CondOf(c), p) {
        WakingRun(s, d, w, a, e, s', CondLock(s.guard[c]), CondOf(c), p);
      } else {
        OwingRun(s, d, w, a, e, s', p, c);
      }
    } else {
      hide Asleep;
      CondSet(s, d, w, a, e, s', c);
    }
  }

  /** A condition that becomes true is one that a wakeup is owed for, and not by a thread that goes
      to sleep. */
  lemma CondSet(s: State, d: nat, w: nat, a: Action, e: Effect, s': State, c: nat)
    requires Own(s) && Threads(s) && Forks(s) && Does(s, d, w, a, e, s') && c < |s.ready| == |s.guard|
    requires |s'.ready| == |s.ready| && s'.ready[c]
    ensures a.SleepRelease? ==> s.ready[c]
    ensures !s.ready[c] ==> Owing(s', CondLock(s.guard[c]), c)
  {
    hide Eff, Can, Apply, PcFine, Threads, Forks, Own;
    Changes(s, d, w, a, e, s');
    Actor(s, d, w);
    MeCond(s, w, a, c);
    MeAsleep(s, w, a);
    RegionOwner(s, d, w, s.guard[c]);
  }

  /** A thread in a region owns the region's lock. */
  lemma RegionOwner(s: State, d: nat, w: nat, l: nat)
    requires Own(s) && d < |s.cpus| && s.cpus[d].on == w < |s.procs|
    ensures s.procs[w].pc.Region? && s.procs[w].pc.l == l ==> CondLock(l) in s.owner && s.owner[CondLock(l)] == d
  {
    assert Holds(s, d, CondLock(l)) <==> PcHolds(s.procs[w].pc, w, CondLock(l));
  }

  /** A wakeup that is owed stays owed, or begins. */
  lemma OwingRun(s: State, d: nat, w: nat, a: Action, e: Effect, s': State, p: nat, c: nat)
    requires Own(s) && Threads(s) && Forks(s) && Does(s, d, w, a, e, s') && c < |s.ready| == |s.guard|
    requires Owing(s, CondLock(s.guard[c]), c) && |s'.ready| == |s.ready| && s'.ready[c]
    ensures s'.guard == s.guard && Coming(s', c, p)
  {
    hide Eff, Can, Apply, PcFine;
    Changes(s, d, w, a, e, s');
    Actor(s, d, w);
    MeCond(s, w, a, c);
    if Owes(s.procs[w].pc, c) {
      MeOwes(s, w, a, c);
    }
    var lk := CondLock(s.guard[c]);
    var v := s.cpus[s.owner[lk]].on;
    Actor(s, s.owner[lk], v);
    ByStep(s, d, w, a, e, s', lk);
    hide PcHolds, Threads, Forks;
    assert Holds(s, d, lk) ==> s.owner[lk] == d;
  }

  lemma ToSleepRun(s: State, d: nat, w: nat, a: Action, e: Effect, s': State, p: nat, c: nat)
    requires Own(s) && Threads(s) && Forks(s) && CondInv(s) && Does(s, d, w, a, e, s') && p < |s.procs| && c < |s.ready|
    requires |s'.procs| == |s.procs| && |s'.ready| == |s.ready| && ToSleepOn(s'.procs[p].pc, c)
    ensures !s'.ready[c]
  {
    hide Eff, Can, Apply, Threads, Forks;
    Changes(s, d, w, a, e, s');
    Actor(s, d, w);
    MeCond(s, w, a, c);
    MeToSleep(s, w, a, c);
    if p == w {
      assert ToSleepOn(s.procs[w].pc, c) ==> !s.ready[c];
      SleeperKeeps(s, w, a, c);
    } else {
      OtherTurn(s, w, a);
      assert ToSleepOn(s.procs[p].pc, c);
      assert !s.ready[c];
      Holder(s, p);
      ProcFine(s, p);
      assert Holds(s, s.procs[p].cpu, CondLock(s.guard[c]));
      RegionOwner(s, d, w, s.guard[c]);
    }
  }

  lemma ProcFine(s: State, p: nat)
    requires Threads(s) && p < |s.procs|
    ensures PcOk(s, p)
  {
    assert ProcOk(s, p);
  }

  lemma SleeperKeeps(s: State, w: nat, a: Action, c: nat)
    requires w < |s.procs| && Can(s, w, a) && c < |s.ready| && ToSleepOn(Eff(s, w, a).me.pc, c)
    ensures Eff(s, w, a).ready == s.ready
  {
    if Local(a) {
      hide EffOther, CanOther;
      return;
    }
    hide EffLocal, CanLocal;
  }

  /** A thread that holds a lock and is not between two runs is on a CPU. */
  lemma Holder(s: State, p: nat)
    requires Threads(s) && p < |s.procs| && !Resumable(s.procs[p].pc) && !s.procs[p].pc.Dead?
    ensures 0 <= s.procs[p].cpu < |s.cpus| && s.cpus[s.procs[p].cpu].on == p
    ensures s.procs[p].state == RunState(s.procs[p].pc)
  {
    assert ProcOk(s, p);
  }

  // ---- wait and exit ----

  lemma MeUnreaped(s: State, w: nat, a: Action)
    requires w < |s.procs| && Can(s, w, a) && PcOk(s, w) && Forking(s, w)
    ensures ZombieMove(s, w, a, Eff(s, w, a))
  {
    if Local(a) {
      hide EffOther, CanOther;
      return;
    }
    hide EffLocal, CanLocal;
  }

  /** How zombies and their parents come about. */
  ghost predicate ZombieMove(s: State, w: nat, a: Action, e: Effect)
    requires w < |s.procs|
  {
    var pc := s.procs[w].pc;
    && e.k < |s.procs|
    && (e.me.state == Zombie ==> s.procs[w].state == Zombie || (a.ExitMark? && pc.ExitLock? && e.k == -1))
    && (e.k >= 0 && e.other.state == Zombie ==>
         && s.procs[e.k].state == Zombie
         && (e.other.parent == s.procs[e.k].parent ||
              (e.other.parent == INIT && pc.Reparent? && e.me.pc == Wake(WaitOf(INIT), 0, FromReparent(pc.k)) && e.lock.Keep?)))
  }

  /** A zombie child appears when the child exits or is handed to init. */
  lemma UnreapedRun(s: State, c: nat, w: nat, a: Action, e: Effect, s': State, k: nat, q: int)
    requires Threads(s) && Forks(s) && Does(s, c, w, a, e, s') && Unreaped(s', k, q)
    ensures || Unreaped(s, k, q)
            || (k == w && a.ExitMark? && s.procs[w].pc.ExitLock? && s.procs[w].parent == q)
            || (q == INIT && w < |s.procs| && s.procs[w].pc.Reparent? && e.me.pc == Wake(WaitOf(INIT), 0, FromReparent(s.procs[w].pc.k)) && e.lock.Keep?)
  {
    hide Eff, Can, Apply, PcFine, Threads, Forks;
    Changes(s, c, w, a, e, s');
    Actor(s, c, w);
    MeUnreaped(s, w, a);
  }

  lemma WaitRun(s: State, c: nat, w: nat, a: Action, e: Effect, s': State, k: nat, q: nat)
    requires Own(s) && Threads(s) && Forks(s) && WaitInv(s) && Does(s, c, w, a, e, s')
    requires Unreaped(s', k, q) && Asleep(s', q, WaitOf(q))
    ensures Waking(s', WaitLock, WaitOf(q), q)
  {
    hide Eff, Can, Apply, PcFine, Threads, Forks;
    Changes(s, c, w, a, e, s');
    Actor(s, c, w);
    AsleepRun(s, c, w, a, e, s', q, WaitOf(q));
    UnreapedRun(s, c, w, a, e, s', k, q);
    assert Knows(s, w);
    assert ToSleep(s.procs[w].pc, InWait) ==> !Unreaped(s, k, w);
    if Asleep(s, q, WaitOf(q)) && Unreaped(s, k, q) {
      WakingRun(s, c, w, a, e, s', WaitLock, WaitOf(q), q);
    } else if s.procs[w].pc.Reparent? {
      assert Holds(s, c, WaitLock);
    }
  }

  /** wait's scan starts, stays, or passes a process that is no zombie child. */
  predicate ScanStep(s: State, w: nat, pc: Pc, pc': Pc, k: int)
    requires pc'.WaitScan?
  {
    || pc'.k == 0 || pc' == pc
    || (pc.WaitScan? && pc.k < |s.procs| && pc'.k == pc.k + 1 && k == -1 &&
        (pc.k == w || s.procs[pc.k].parent != w || s.procs[pc.k].state != Zombie))
  }

  lemma MeKnows(s: State, w: nat, a: Action)
    requires w < |s.procs| && Can(s, w, a) && PcOk(s, w)
    ensures var e := Eff(s, w, a); var pc := s.procs[w].pc;
            && (e.me.pc.ExitLock? ==> pc.ExitLock? || (pc.Wake? && pc.ret.FromExit? && pc.k >= |s.procs|))
            && (ToSleep(e.me.pc, InWait) ==> ToSleep(pc, InWait) || (pc.WaitScan? && pc.k >= |s.procs|))
            && (e.me.pc.WaitScan? ==> ScanStep(s, w, pc, e.me.pc, e.k))
            && (e.me.pc.Wake? || e.me.pc.ExitLock? || e.me.pc.WaitScan? || ToSleep(e.me.pc, InWait) ==>
                  !a.SleepRelease? && !a.ExitMark?)
  {
    if Local(a) {
      hide EffOther, CanOther;
      return;
    }
    hide EffLocal, CanLocal;
  }

  /** What the acting process knows afterwards. */
  lemma KnowsMe(s: State, c: nat, w: nat, a: Action, e: Effect, s': State)
    requires Own(s) && Threads(s) && Family(s) && Forks(s) && Exits(s) && WaitInv(s) && Does(s, c, w, a, e, s')
    ensures |s'.procs| == |s.procs| && Knows(s', w)
  {
    hide Eff, Can, Apply, Threads, Forks, Exits;
    Changes(s, c, w, a, e, s');
    Actor(s, c, w);
    MeKnows(s, w, a);
    assert Knows(s, w) && HasParent(s, w);
    KnowsAwake(s, c, w, a, e, s');
    forall k: nat | Unreaped(s', k, w) && (ToSleep(e.me.pc, InWait) || e.me.pc.WaitScan?)
      ensures Unreaped(s, k, w) && k != w
    {
      UnreapedRun(s, c, w, a, e, s', k, w);
      UnreapedNotMe(s, w, k);
    }
  }

  lemma UnreapedNotMe(s: State, w: nat, k: nat)
    requires Family(s) && w < |s.procs| && Unreaped(s, k, w)
    ensures k != w
  {
    assert HasParent(s, k);
  }

  lemma KnowsAwake(s: State, c: nat, w: nat, a: Action, e: Effect, s': State)
    requires Own(s) && Threads(s) && Forks(s) && Does(s, c, w, a, e, s') && Knows(s, w) && HasParent(s, w)
    ensures |s'.procs| == |s.procs| && w < |s'.procs|
    ensures var q := s'.procs[w];
            && (q.pc.ExitLock? && q.parent >= 0 ==> !Asleep(s', q.parent, WaitOf(q.parent)))
            && (q.pc.Wake? && q.pc.chan.WaitOf? && q.pc.chan.p >= 0 && Asleep(s', q.pc.chan.p, q.pc.chan) ==>
                  q.pc.k <= q.pc.chan.p)
  {
    hide Eff, Can, Apply;
    Changes(s, c, w, a, e, s');
    Actor(s, c, w);
    MeKnows(s, w, a);
    MeWake(s, w, a);
    hide Threads, Forks;
    var q := s'.procs[w];
    if q.pc.ExitLock? && q.parent >= 0 && Asleep(s', q.parent, WaitOf(q.parent)) {
      AsleepRun(s, c, w, a, e, s', q.parent, WaitOf(q.parent));
    }
    if q.pc.Wake? && q.pc.chan.WaitOf? && q.pc.chan.p >= 0 && Asleep(s', q.pc.chan.p, q.pc.chan) {
      AsleepRun(s, c, w, a, e, s', q.pc.chan.p, q.pc.chan);
      if s.procs[w].pc.Wake? && s.procs[w].pc.k == q.pc.chan.p < |s.procs| {
        StillAwake(s, w, q.pc.chan.p, q.pc.chan);
      }
    }
  }

  /** What another process knows, it knows under wait_lock. */
  lemma KnowsOther(s: State, c: nat, w: nat, a: Action, e: Effect, s': State, p: nat)
    requires Own(s) && Threads(s) && Forks(s) && WaitInv(s) && Does(s, c, w, a, e, s') && p < |s.procs| && p != w
    ensures |s'.procs| == |s.procs| && Knows(s', p)
  {
    hide Eff, Can, Apply;
    Changes(s, c, w, a, e, s');
    Actor(s, c, w);
    OtherTurn(s, w, a);
    assert Knows(s, p);
    if UnderWait(s'.procs[p].pc) {
      assert s'.procs[p].pc == s.procs[p].pc;
      Holder(s, p);
      assert ProcOk(s, p);
      assert Holds(s, s.procs[p].cpu, WaitLock);
      assert !PcHolds(s.procs[w].pc, w, WaitLock) by { assert Holds(s, c, WaitLock) <==> PcHolds(s.procs[w].pc, w, WaitLock); }
      KnowsStill(s, c, w, a, e, s', p);
    }
  }

  predicate UnderWait(pc: Pc) {
    pc.ExitLock? || (pc.Wake? && pc.chan.WaitOf?) || ToSleep(pc, InWait) || pc.WaitScan?
  }

  lemma KnowsStill(s: State, c: nat, w: nat, a: Action, e: Effect, s': State, p: nat)
    requires Threads(s) && Forks(s) && Does(s, c, w, a, e, s') && p < |s.procs| && p != w && Knows(s, p)
    requires |s'.procs| == |s.procs| && s'.procs[p].pc == s.procs[p].pc && UnderWait(s.procs[p].pc)
    requires s.procs[p].state != Used
    requires !Free(s, WaitLock) && !PcHolds(s.procs[w].pc, w, WaitLock)
    ensures Knows(s', p)
  {
    hide Eff, Can, Apply, Threads, Forks, PcFine;
    Changes(s, c, w, a, e, s');
    Actor(s, c, w);
    ParentLocked(s, w, a);
    assert s'.procs[p].parent == s.procs[p].parent;
    forall x: nat | Asleep(s', x, WaitOf(x)) ensures Asleep(s, x, WaitOf(x)) {
      AsleepRun(s, c, w, a, e, s', x, WaitOf(x));
    }
    forall k: nat, q: int | Unreaped(s', k, q) ensures Unreaped(s, k, q) {
      UnreapedRun(s, c, w, a, e, s', k, q);
    }
  }

  lemma RunKeeps(s: State, c: nat, a: Action)
    requires Inv(s) && Enabled(s, Run(c, a))
    ensures Inv(Next(s, Run(c, a)))
  {
    hide Eff, Can, Apply, Own, Threads, Family, Forks, Exits, CondInv, WaitInv, Scans;
    var w := s.cpus[c].on;
    var e := Eff(s, w, a);
    var s' := Apply(s, c, w, e);
    assert Does(s, c, w, a, e, s');
    RunOwn(s, c, w, a, e, s');
    RunFamily(s, c, w, a, e, s');
    RunSleep(s, c, w, a, e, s');
  }

  lemma RunOwn(s: State, c: nat, w: nat, a: Action, e: Effect, s': State)
    requires Inv(s) && Does(s, c, w, a, e, s')
    ensures Own(s') && Threads(s')
  {
    hide Does, Own, Threads, Family, Forks, Exits, CondInv, WaitInv, Scans;
    Changes(s, c, w, a, e, s');
    forall d: nat, lk ensures Holds(s', d, lk) <==> lk in s'.owner && s'.owner[lk] == d {
      OwnRun(s, c, w, a, e, s', d, lk);
    }
    assert Own(s') by { OwnersExist(s, c, e, s'); }
    forall d: nat | d < |s'.cpus| ensures CpuOk(s', d) {
      CpuRun(s, c, w, a, e, s', d);
    }
    forall p: nat | p < |s'.procs| ensures ProcOk(s', p) {
      ProcRun(s, c, w, a, e, s', p);
    }
    ThreadsOf(s');
  }

  lemma ThreadsOf(s: State)
    requires forall c: nat {:trigger CpuOk(s, c)} | c < |s.cpus| :: CpuOk(s, c)
    requires forall p: nat {:trigger ProcOk(s, p)} | p < |s.procs| :: ProcOk(s, p)
    ensures Threads(s)
  {
  }

  lemma OwnersExist(s: State, c: nat, e: Effect, s': State)
    requires Own(s) && s'.owner == Locked(s.owner, c, e.lock) && s'.cpus == s.cpus && c < |s.cpus|
    requires forall d: nat, lk {:trigger Holds(s', d, lk)} :: Holds(s', d, lk) <==> lk in s'.owner && s'.owner[lk] == d
    ensures Own(s')
  {
    hide Holds;
  }

  lemma RunFamily(s: State, c: nat, w: nat, a: Action, e: Effect, s': State)
    requires Inv(s) && Does(s, c, w, a, e, s')
    ensures Family(s') && Forks(s') && Exits(s')
  {
    hide Does, Own, Threads, Family, Forks, Exits, CondInv, WaitInv, HasParent, Forking, ForkOf, Passed, Exiting;
    Changes(s, c, w, a, e, s');
    InitRun(s, c, w, a, e, s');
    forall k: nat | k < |s'.procs| ensures HasParent(s', k) && Forking(s', k) {
      FamilyRun(s, c, w, a, e, s', k);
      ForksRun(s, c, w, a, e, s', k);
    }
    forall p: nat, q: nat | p < |s'.procs| && q < |s'.procs|
      ensures p != q ==> ForkOf(s'.procs[p].pc) == -1 || ForkOf(s'.procs[p].pc) != ForkOf(s'.procs[q].pc)
      ensures (Exiting(s'.procs[p].pc) ==> p != INIT) && (Passed(s'.procs[p].pc, q) ==> s'.procs[q].parent != p)
    {
      if p != q {
        OneForkRun(s, c, w, a, e, s', p, q);
      }
      ExitsRun(s, c, w, a, e, s', p, q);
    }
    FamilyOf(s');
  }

  lemma FamilyOf(s: State)
    requires INIT < |s.procs| && Live(s.procs[INIT].state) && s.procs[INIT].parent == -1
    requires forall k: nat {:trigger HasParent(s, k)} | k < |s.procs| :: HasParent(s, k)
    requires forall k: nat {:trigger Forking(s, k)} | k < |s.procs| :: Forking(s, k)
    requires forall p: nat, q: nat {:trigger s.procs[p], s.procs[q]} | p < |s.procs| && q < |s.procs| ::
               && (p != q ==> ForkOf(s.procs[p].pc) == -1 || ForkOf(s.procs[p].pc) != ForkOf(s.procs[q].pc))
               && (Exiting(s.procs[p].pc) ==> p != INIT) && (Passed(s.procs[p].pc, q) ==> s.procs[q].parent != p)
    ensures Family(s) && Forks(s) && Exits(s)
  {
    hide HasParent, Forking, ForkOf, Passed, Exiting;
  }

  /** How havekids goes on: it starts false, a child seen sets it, and it decides about the sleep. */
  predicate CountMove(s: State, w: nat, e: Effect)
    requires w < |s.procs|
  {
    var pc, pc' := s.procs[w].pc, e.me.pc;
    && (pc'.WaitScan? ==>
          || (pc'.k == 0 && !pc'.have)
          || (pc.WaitScan? && pc.k < |s.procs| && pc'.k == pc.k + 1 && e.k == -1 &&
              (pc'.have <==> pc.have || (pc.k != w && s.procs[pc.k].parent == w))))
    && (InWaiting(pc') ==> e.k == -1 && (InWaiting(pc) || (pc.WaitScan? && pc.k >= |s.procs| && pc.have)))
  }

  lemma MeCounts(s: State, w: nat, a: Action)
    requires w < |s.procs| && Can(s, w, a) && PcOk(s, w)
    ensures CountMove(s, w, Eff(s, w, a))
  {
    hide CountMove, EffLocal, EffOther, CanLocal, CanOther, PcFine;
    PcBack(s, w);
    if Local(a) {
      CountLocal(s, w, a);
    } else {
      CountOther(s, w, a);
    }
  }

  lemma CountLocal(s: State, w: nat, a: Action)
    requires w < |s.procs| && CanLocal(s, w, a) && BackOk(s.procs[w].pc)
    ensures CountMove(s, w, EffLocal(s, w, a))
  {
    if a.YieldIn? || a.YieldOut? || a.LeafWant? || a.LeafTake? || a.LeafDrop? {
      NoScan(s, w, a);
      LocalBack(s, w, a);
      hide EffLocal, CanLocal;
    } else {
      hide Base, ForkOf, BackOk;
      CountElse(s, w, a);
    }
  }

  lemma NoScan(s: State, w: nat, a: Action)
    requires w < |s.procs| && CanLocal(s, w, a) && BackOk(s.procs[w].pc)
    requires a.YieldIn? || a.YieldOut? || a.LeafWant? || a.LeafTake? || a.LeafDrop?
    ensures !EffLocal(s, w, a).me.pc.WaitScan?
  {
  }

  lemma CountElse(s: State, w: nat, a: Action)
    requires w < |s.procs| && CanLocal(s, w, a)
    requires !a.YieldIn? && !a.YieldOut? && !a.LeafWant? && !a.LeafTake? && !a.LeafDrop?
    ensures CountMove(s, w, EffLocal(s, w, a))
  {
  }

  lemma CountOther(s: State, w: nat, a: Action)
    requires w < |s.procs| && CanOther(s, w, a)
    ensures CountMove(s, w, EffOther(s, w, a))
  {
  }

  lemma CountsMe(s: State, c: nat, w: nat, a: Action, e: Effect, s': State)
    requires Threads(s) && Family(s) && Forks(s) && Scans(s) && Does(s, c, w, a, e, s')
    ensures |s'.procs| == |s.procs| && Counts(s', w)
  {
    hide Eff, Can, Apply, PcFine, Threads, Forks;
    Changes(s, c, w, a, e, s');
    Actor(s, c, w);
    MeCounts(s, w, a);
    assert Counts(s, w) && HasParent(s, w);
    var pc := s.procs[w].pc;
    if e.k == -1 {
      assert forall j: nat | j < |s.procs| :: s'.procs[j].parent == s.procs[j].parent;
      if pc.WaitScan? && pc.k < |s.procs| {
        assert HasKid(s', w, pc.k + 1) <==> HasKid(s, w, pc.k) || s.procs[pc.k].parent == w;
      }
    }
  }

  /** A process that has a parent can lose it only to that parent. */
  lemma ParentMine(s: State, w: nat, a: Action)
    requires w < |s.procs| && Can(s, w, a) && Forking(s, w)
    ensures var e := Eff(s, w, a);
            e.k >= 0 ==>
              || e.other.parent == s.procs[e.k].parent || s.procs[e.k].parent == w
              || (s.procs[e.k].parent == -1 && s.procs[e.k].state == Used)
  {
    if Local(a) {
      hide EffOther, CanOther;
      return;
    }
    hide EffLocal, CanLocal;
  }

  /** A child of p stays one while p does not act. */
  lemma KidStays(s: State, c: nat, w: nat, a: Action, e: Effect, s': State, p: nat)
    requires Threads(s) && Forks(s) && Does(s, c, w, a, e, s') && p != w && HasKid(s, p, |s.procs|)
    ensures HasKid(s', p, |s'.procs|)
  {
    hide Eff, Can, Apply, PcFine, Threads, Forks;
    Changes(s, c, w, a, e, s');
    Actor(s, c, w);
    ParentMine(s, w, a);
    var j: nat :| j < |s.procs| && s.procs[j].parent == p;
    assert s'.procs[j].parent == p;
  }

  /** Under wait_lock nobody else changes a parent. */
  lemma CountsOther(s: State, c: nat, w: nat, a: Action, e: Effect, s': State, p: nat)
    requires Own(s) && Threads(s) && Forks(s) && Scans(s) && Does(s, c, w, a, e, s') && p < |s.procs| && p != w
    ensures |s'.procs| == |s.procs| && Counts(s', p)
  {
    hide Eff, Can, Apply;
    Changes(s, c, w, a, e, s');
    Actor(s, c, w);
    OtherTurn(s, w, a);
    assert Counts(s, p);
    if s'.procs[p].pc.WaitScan? {
      assert s'.procs[p].pc == s.procs[p].pc;
      Holder(s, p);
      assert Holds(s, s.procs[p].cpu, WaitLock);
      assert !PcHolds(s.procs[w].pc, w, WaitLock) by { assert Holds(s, c, WaitLock) <==> PcHolds(s.procs[w].pc, w, WaitLock); }
      ParentLocked(s, w, a);
      assert forall j: nat | j < |s.procs| :: s'.procs[j].parent == s.procs[j].parent;
    }
    if InWaiting(s'.procs[p].pc) {
      KidStays(s, c, w, a, e, s', p);
    }
  }

  lemma RunScans(s: State, c: nat, w: nat, a: Action, e: Effect, s': State)
    requires Own(s) && Threads(s) && Family(s) && Forks(s) && Scans(s) && Does(s, c, w, a, e, s')
    ensures Scans(s')
  {
    hide Does, Own, Threads, Family, Forks, Counts;
    forall p: nat | p < |s'.procs| ensures Counts(s', p) {
      CountsMe(s, c, w, a, e, s');
      if p != w {
        CountsOther(s, c, w, a, e, s', p);
      }
    }
  }

  lemma RunSleep(s: State, c: nat, w: nat, a: Action, e: Effect, s': State)
    requires Inv(s) && Does(s, c, w, a, e, s')
    ensures CondInv(s') && WaitInv(s') && Scans(s')
  {
    hide Does, Own, Threads, Family, Forks, Exits, CondInv, WaitInv, Scans, Knows, Asleep, Waking, Unreaped, Coming;
    Changes(s, c, w, a, e, s');
    assert |s'.guard| == |s'.ready| by { CondsMatch(s); }
    forall p: nat, l: nat | l < |s'.ready| && Asleep(s', p, CondOf(l)) && s'.ready[l] ensures Coming(s', l, p) {
      CondRun(s, c, w, a, e, s', p, l);
    }
    forall p: nat, l: nat | p < |s'.procs| && l < |s'.ready| && ToSleepOn(s'.procs[p].pc, l) ensures !s'.ready[l] {
      ToSleepRun(s, c, w, a, e, s', p, l);
    }
    forall k: nat, q: nat | Unreaped(s', k, q) && Asleep(s', q, WaitOf(q)) ensures Waking(s', WaitLock, WaitOf(q), q) {
      WaitRun(s, c, w, a, e, s', k, q);
    }
    forall p: nat | p < |s'.procs| ensures Knows(s', p) {
      if p == w {
        KnowsMe(s, c, w, a, e, s');
      } else {
        KnowsOther(s, c, w, a, e, s', p);
      }
    }
    SleepOf(s');
    RunScans(s, c, w, a, e, s');
  }

  lemma CondsMatch(s: State)
    requires CondInv(s)
    ensures |s.guard| == |s.ready|
  {
  }

  lemma SleepOf(s: State)
    requires |s.guard| == |s.ready|
    requires forall p: nat, l: nat {:trigger Asleep(s, p, CondOf(l))} | l < |s.ready| && Asleep(s, p, CondOf(l)) && s.ready[l] ::
               Coming(s, l, p)
    requires forall p: nat, l: nat {:trigger ToSleepOn(s.procs[p].pc, l)} | p < |s.procs| && l < |s.ready| && ToSleepOn(s.procs[p].pc, l) ::
               !s.ready[l]
    requires forall k: nat, q: nat {:trigger Unreaped(s, k, q)} | Unreaped(s, k, q) && Asleep(s, q, WaitOf(q)) ::
               Waking(s, WaitLock, WaitOf(q), q)
    requires forall p: nat {:trigger Knows(s, p)} | p < |s.procs| :: Knows(s, p)
    ensures CondInv(s) && WaitInv(s)
  {
    hide Asleep, Waking, Unreaped, Knows, ToSleepOn, Coming;
  }

  // ---- a switch keeps the invariant ----

  /** s' differs from s in one CPU, in the lock of one process, and in where that process is:
      it goes on from its sched(), is picked to run, or runs. */
  ghost predicate Quiet(s: State, c: nat, k: nat, s': State) {
    && c < |s.cpus| && k < |s.procs| && |s'.cpus| == |s.cpus| && |s'.procs| == |s.procs| && s'.ready == s.ready
    && s'.guard == s.guard
    && (forall d: nat {:trigger s'.cpus[d]} | d < |s.cpus| && d != c :: s'.cpus[d] == s.cpus[d])
    && (forall p: nat {:trigger s'.procs[p]} | p < |s.procs| && p != k :: s'.procs[p] == s.procs[p])
    && s'.procs[k].chan == s.procs[k].chan && s'.procs[k].parent == s.procs[k].parent
    && (s'.procs[k].state == s.procs[k].state || (s.procs[k].state == Runnable && s'.procs[k].state == Running))
    && (s'.procs[k].pc == s.procs[k].pc || (SchedPoint(s.procs[k].pc) && s'.procs[k].pc == Resumed(s.procs[k].pc)))
    && (forall lk {:trigger lk in s'.owner} | lk != PLock(k) :: lk in s'.owner <==> lk in s.owner)
    && (forall lk {:trigger s'.owner[lk]} | lk != PLock(k) && lk in s.owner && lk in s'.owner ::
          s'.owner[lk] == s.owner[lk])
    && (s.cpus[c].on < 0 || s.cpus[c].on == k)
    && (s'.procs[k] == s.procs[k] || (!s'.procs[k].pc.SleepSet? && !MayOwe(s.procs[k].pc)))
    && (s.cpus[c].on >= 0 ==> SchedPoint(s.procs[k].pc))
  }

  /** Points between the parts of a region, where a wakeup may be owed or under way. */
  predicate MayOwe(pc: Pc) {
    pc.Region? || pc.LeafWait? || pc.InLeaf? || pc.Wake?
  }

  predicate SchedPoint(pc: Pc) {
    pc.YieldSched? || pc.SleepSched? || pc.ExitSched?
  }

  lemma QuietFamily(s: State, c: nat, k: nat, s': State)
    requires Quiet(s, c, k, s') && Family(s) && Forks(s) && Exits(s)
    ensures Family(s') && Forks(s') && Exits(s')
  {
    hide HasParent, Forking, Passed, Exiting;
    forall x: nat | x < |s.procs| ensures HasParent(s', x) && Forking(s', x) {
      QuietParent(s, c, k, s', x);
    }
    forall p: nat, q: nat | p < |s'.procs| && q < |s'.procs|
      ensures p != q ==> ForkOf(s'.procs[p].pc) == -1 || ForkOf(s'.procs[p].pc) != ForkOf(s'.procs[q].pc)
      ensures (Exiting(s'.procs[p].pc) ==> p != INIT) && (Passed(s'.procs[p].pc, q) ==> s'.procs[q].parent != p)
    {
      assert s.procs[p].pc == s.procs[p].pc && s.procs[q].pc == s.procs[q].pc;
      QuietPc(s, c, k, s', p, q);
    }
    FamilyOf(s');
  }

  lemma QuietParent(s: State, c: nat, k: nat, s': State, x: nat)
    requires Quiet(s, c, k, s') && Family(s) && Forks(s) && x < |s.procs|
    ensures HasParent(s', x) && Forking(s', x)
  {
    assert HasParent(s, x) && Forking(s, x);
  }

  lemma QuietPc(s: State, c: nat, k: nat, s': State, p: nat, j: nat)
    requires Quiet(s, c, k, s') && p < |s.procs|
    ensures ForkOf(s'.procs[p].pc) == ForkOf(s.procs[p].pc)
    ensures Exiting(s'.procs[p].pc) ==> Exiting(s.procs[p].pc)
    ensures Passed(s'.procs[p].pc, j) ==> Passed(s.procs[p].pc, j)
  {
  }

  lemma QuietScans(s: State, c: nat, k: nat, s': State)
    requires Quiet(s, c, k, s') && Scans(s)
    ensures Scans(s')
  {
    forall p: nat | p < |s'.procs| ensures Counts(s', p) {
      assert Counts(s, p);
      assert forall j: nat | j < |s.procs| :: s'.procs[j].parent == s.procs[j].parent;
    }
  }

  lemma QuietSleep(s: State, c: nat, k: nat, s': State)
    requires Quiet(s, c, k, s') && Threads(s) && CondInv(s) && WaitInv(s) && Scans(s)
    ensures CondInv(s') && WaitInv(s') && Scans(s')
  {
    hide Threads, CondInv, WaitInv, Scans, Knows;
    QuietScans(s, c, k, s');
    forall p: nat, ch | Asleep(s', p, ch) ensures Asleep(s, p, ch) {
      QuietAsleep(s, c, k, s', p, ch);
    }
    forall lk, ch, p: nat | Waking(s, lk, ch, p) && !lk.PLock? ensures Waking(s', lk, ch, p) {
      QuietWaking(s, c, k, s', lk, ch, p);
    }
    forall lk, x: nat | Owing(s, lk, x) && !lk.PLock? ensures Owing(s', lk, x) {
      QuietOwing(s, c, k, s', lk, x);
    }
    QuietCond(s, c, k, s');
    QuietWait(s, c, k, s');
  }

  lemma QuietOwing(s: State, c: nat, k: nat, s': State, lk: Lock, x: nat)
    requires Quiet(s, c, k, s') && Owing(s, lk, x) && !lk.PLock?
    ensures Owing(s', lk, x)
  {
    assert lk in s'.owner && s'.owner[lk] == s.owner[lk];
    var d := s.owner[lk];
    assert d != c;
  }

  lemma QuietAsleep(s: State, c: nat, k: nat, s': State, p: nat, ch: Chan)
    requires Quiet(s, c, k, s') && Asleep(s', p, ch)
    ensures Asleep(s, p, ch)
  {
  }

  lemma QuietWaking(s: State, c: nat, k: nat, s': State, lk: Lock, ch: Chan, p: nat)
    requires Quiet(s, c, k, s') && Waking(s, lk, ch, p) && !lk.PLock?
    ensures Waking(s', lk, ch, p)
  {
    assert lk in s'.owner && s'.owner[lk] == s.owner[lk];
    var d := s.owner[lk];
    assert d != c;
  }

  lemma QuietCond(s: State, c: nat, k: nat, s': State)
    requires Quiet(s, c, k, s') && CondInv(s)
    requires forall p: nat, ch {:trigger Asleep(s', p, ch)} :: Asleep(s', p, ch) ==> Asleep(s, p, ch)
    requires forall lk, ch, p: nat {:trigger Waking(s', lk, ch, p)} | Waking(s, lk, ch, p) && !lk.PLock? ::
               Waking(s', lk, ch, p)
    requires forall lk, x: nat {:trigger Owing(s', lk, x)} | Owing(s, lk, x) && !lk.PLock? :: Owing(s', lk, x)
    ensures CondInv(s')
  {
    hide Asleep, Waking, Owing;
    forall p: nat, l: nat | p < |s'.procs| && l < |s'.ready| && ToSleepOn(s'.procs[p].pc, l) ensures !s'.ready[l] {
      assert ToSleepOn(s.procs[p].pc, l);
    }
  }

  lemma QuietWait(s: State, c: nat, k: nat, s': State)
    requires Quiet(s, c, k, s') && WaitInv(s)
    requires forall p: nat, ch {:trigger Asleep(s', p, ch)} :: Asleep(s', p, ch) ==> Asleep(s, p, ch)
    requires forall lk, ch, p: nat {:trigger Waking(s', lk, ch, p)} | Waking(s, lk, ch, p) && !lk.PLock? ::
               Waking(s', lk, ch, p)
    ensures WaitInv(s')
  {
    hide Asleep, Waking;
    forall x: nat, q: int ensures Unreaped(s', x, q) ==> Unreaped(s, x, q) {
    }
    hide Unreaped;
    forall p: nat | p < |s'.procs| ensures Knows(s', p) {
      assert Knows(s, p);
    }
  }

  lemma OutKeeps(s: State, c: nat)
    requires Inv(s) && Enabled(s, SwtchOut(c))
    ensures Inv(Next(s, SwtchOut(c)))
  {
    hide Family, Forks, Exits, CondInv, WaitInv, Scans;
    var w := s.cpus[c].on;
    var s' := Next(s, SwtchOut(c));
    assert CpuOk(s, c) && ProcOk(s, w);
    QuietFamily(s, c, w, s');
    QuietSleep(s, c, w, s');
    forall d: nat, lk ensures Holds(s', d, lk) == Holds(s, d, lk) {
      assert d < |s.cpus| ==> CpuOk(s, d);
    }
    forall d: nat | d < |s'.cpus| ensures CpuOk(s', d) {
      assert CpuOk(s, d);
    }
    forall p: nat | p < |s'.procs| ensures ProcOk(s', p) {
      assert ProcOk(s, p);
      assert Holds(s, c, PLock(w));
    }
  }

  lemma ScanKeeps(s: State, c: nat)
    requires Inv(s) && Enabled(s, Scan(c))
    ensures Inv(Next(s, Scan(c)))
  {
    hide Family, Forks, Exits, CondInv, WaitInv, Scans;
    var k := s.cpus[c].spc.k;
    var s' := Next(s, Scan(c));
    assert CpuOk(s, c) && ProcOk(s, k);
    if s.procs[k].state == Runnable {
      NotOn(s, k);
    }
    QuietFamily(s, c, k, s');
    QuietSleep(s, c, k, s');
    forall d: nat, lk ensures Holds(s', d, lk) <==> lk in s'.owner && s'.owner[lk] == d {
      assert Holds(s, d, lk) <==> lk in s.owner && s.owner[lk] == d;
    }
    forall d: nat | d < |s'.cpus| ensures CpuOk(s', d) {
      assert CpuOk(s, d);
      assert Holds(s, d, PLock(k)) ==> PLock(k) in s.owner;
    }
    forall p: nat | p < |s'.procs| ensures ProcOk(s', p) {
      assert ProcOk(s, p);
    }
  }

  /** A runnable process whose lock is free is on no CPU. */
  lemma NotOn(s: State, k: nat)
    requires Own(s) && Threads(s) && k < |s.procs| && s.procs[k].state == Runnable && Free(s, PLock(k))
    ensures s.procs[k].cpu == -1 && Resumable(s.procs[k].pc)
  {
    assert ProcOk(s, k);
    if s.procs[k].cpu >= 0 {
      assert Holds(s, s.procs[k].cpu, PLock(k));
    }
  }

  lemma InKeeps(s: State, c: nat)
    requires Inv(s) && Enabled(s, SwtchIn(c))
    ensures Inv(Next(s, SwtchIn(c)))
  {
    hide Family, Forks, Exits, CondInv, WaitInv, Scans;
    var k := s.cpus[c].spc.k;
    var s' := Next(s, SwtchIn(c));
    assert CpuOk(s, c) && ProcOk(s, k);
    QuietFamily(s, c, k, s');
    QuietSleep(s, c, k, s');
    forall d: nat, lk ensures Holds(s', d, lk) == Holds(s, d, lk) {
      assert d < |s.cpus| ==> CpuOk(s, d);
    }
    forall d: nat | d < |s'.cpus| ensures CpuOk(s', d) {
      assert CpuOk(s, d);
      assert Holds(s, c, PLock(k)) && (Holds(s, d, PLock(k)) ==> d == c);
    }
    forall p: nat | p < |s'.procs| ensures ProcOk(s', p) {
      assert ProcOk(s, p);
      assert Holds(s, c, PLock(k));
    }
  }

  lemma ReturnKeeps(s: State, c: nat)
    requires Inv(s) && Enabled(s, Return(c))
    ensures Inv(Next(s, Return(c)))
  {
    hide Family, Forks, Exits, CondInv, WaitInv, Scans;
    var k := s.cpus[c].spc.k;
    var s' := Next(s, Return(c));
    assert CpuOk(s, c) && ProcOk(s, k);
    assert Holds(s, c, PLock(k));
    QuietFamily(s, c, k, s');
    QuietSleep(s, c, k, s');
    forall d: nat, lk ensures Holds(s', d, lk) <==> lk in s'.owner && s'.owner[lk] == d {
      assert Holds(s, d, lk) <==> lk in s.owner && s.owner[lk] == d;
    }
    forall d: nat | d < |s'.cpus| ensures CpuOk(s', d) {
      assert CpuOk(s, d);
    }
    forall p: nat | p < |s'.procs| ensures ProcOk(s', p) {
      assert ProcOk(s, p);
    }
  }

  // ---- whole runs ----

  lemma StepKeeps(s: State, e: Event)
    requires Inv(s) && Enabled(s, e)
    ensures Inv(Next(s, e))
  {
    hide Inv, Next, Enabled;
    match e
    case Run(c, a) => RunKeeps(s, c, a);
    case SwtchOut(c) => OutKeeps(s, c);
    case Scan(c) => ScanKeeps(s, c);
    case SwtchIn(c) => InKeeps(s, c);
    case Return(c) => ReturnKeeps(s, c);
  }

  /** After userinit: init is runnable, every other slot is unused, the CPUs enter their schedulers. */
  ghost predicate Boot(s: State) {
    && INIT < |s.procs| && s.owner == map[] && |s.guard| == |s.ready|
    && (forall c: nat {:trigger s.cpus[c]} | c < |s.cpus| :: s.cpus[c] == Cpu(-1, -1, Look(0)))
    && (forall p: nat {:trigger s.procs[p]} | p < |s.procs| ::
          s.procs[p] == if p == INIT then Proc(Runnable, NoChan, -1, Start, -1) else Proc(Unused, NoChan, -1, Dead, -1))
  }

  ghost predicate Possible(s: State, es: seq<Event>)
    decreases |es|, 0
  {
    es == [] || (Possible(s, es[..|es| - 1]) && Enabled(After(s, es[..|es| - 1]), es[|es| - 1]))
  }

  ghost function After(s: State, es: seq<Event>): State
    requires Possible(s, es)
    decreases |es|, 1
  {
    if es == [] then s else Next(After(s, es[..|es| - 1]), es[|es| - 1])
  }

  lemma BootInv(s: State)
    requires Boot(s)
    ensures Inv(s)
  {
    hide Own, Threads, Family, Forks, Exits, CondInv, WaitInv, Scans;
    assert Own(s) && Threads(s) by { BootThreads(s); }
    assert Family(s) && Forks(s) && Exits(s) by { BootFamily(s); }
    assert CondInv(s) && WaitInv(s) && Scans(s) by { BootSleep(s); }
  }

  lemma BootThreads(s: State)
    requires Boot(s)
    ensures Own(s) && Threads(s)
  {
  }

  lemma BootFamily(s: State)
    requires Boot(s)
    ensures Family(s) && Forks(s) && Exits(s)
  {
  }

  lemma BootSleep(s: State)
    requires Boot(s)
    ensures CondInv(s) && WaitInv(s) && Scans(s)
  {
    assert forall p: nat, ch :: !Asleep(s, p, ch);
    hide Asleep;
  }

  lemma {:induction false} RunsKeep(s: State, es: seq<Event>)
    requires Boot(s) && Possible(s, es)
    ensures Inv(After(s, es))
    decreases |es|
  {
    if es == [] {
      BootInv(s);
    } else {
      RunsKeep(s, es[..|es| - 1]);
      StepKeeps(After(s, es[..|es| - 1]), es[|es| - 1]);
    }
  }

  /** Whenever p's lock is free, p is RUNNING exactly when it is some CPU's c->proc, and then of one only. */
  lemma RunningOnce(s0: State, es: seq<Event>, p: nat)
    requires Boot(s0) && Possible(s0, es) && p < |After(s0, es).procs| && Free(After(s0, es), PLock(p))
    ensures var s := After(s0, es);
            && (s.procs[p].state == Running <==> exists c: nat :: c < |s.cpus| && s.cpus[c].proc == p)
            && (forall c: nat, d: nat | c < |s.cpus| && d < |s.cpus| && s.cpus[c].proc == p && s.cpus[d].proc == p ::
                  c == d)
  {
    RunsKeep(s0, es);
    var s := After(s0, es);
    hide Boot, Possible, After, Family, Forks, Exits, CondInv, WaitInv, Scans;
    assert ProcOk(s, p);
    forall c: nat | c < |s.cpus| && s.cpus[c].proc == p ensures s.procs[p].cpu == c && s.procs[p].state == Running {
      assert CpuOk(s, c);
      assert !Holds(s, c, PLock(p));
    }
    if s.procs[p].state == Running {
      var c := s.procs[p].cpu;
      assert c >= 0;
      assert CpuOk(s, c);
      assert s.cpus[c].proc == p;
    }
  }

  /** Every process that can run, and every zombie, but init, has a parent that is alive: neither
      unused nor a zombie. It holds at every step, with wait_lock free or not. */
  lemma ParentAlive(s0: State, es: seq<Event>, p: nat)
    requires Boot(s0) && Possible(s0, es) && p < |After(s0, es).procs| && p != INIT
    requires var x := After(s0, es).procs[p].state; x != Unused && x != Used
    ensures var s := After(s0, es); var q := s.procs[p].parent; 0 <= q < |s.procs| && q != p && Live(s.procs[q].state)
  {
    RunsKeep(s0, es);
    hide Boot, Possible, After;
    assert HasParent(After(s0, es), p);
  }

  /** A zombie stays one until its parent's wait frees it, and by then no CPU is on its kernel
      stack or has it as c->proc. Any other process table entry that becomes unused was never run. */
  lemma FreedOnce(s0: State, es: seq<Event>, e: Event, p: nat)
    requires Boot(s0) && Possible(s0, es) && Enabled(After(s0, es), e) && p < |After(s0, es).procs|
    ensures var s := After(s0, es); var s' := Next(s, e);
            && |s'.procs| == |s.procs|
            && (s.procs[p].state == Zombie && s'.procs[p].state != Zombie ==>
                  && s'.procs[p].state == Unused && e.Run? && e.a == Reap(false) && s.procs[p].parent == s.cpus[e.c].on
                  && (forall c: nat | c < |s.cpus| :: s.cpus[c].on != p && s.cpus[c].proc != p))
            && (s'.procs[p].state == Unused && s.procs[p].state != Unused ==>
                  s.procs[p].state == Zombie || s.procs[p].state == Used)
  {
    RunsKeep(s0, es);
    var s := After(s0, es);
    LifeCycle(s0, es, e, p);
    hide Boot, Possible, After, Next, Family, Exits, CondInv, WaitInv, Scans;
    if s.procs[p].state == Zombie && Next(s, e).procs[p].state != Zombie {
      assert CpuOk(s, e.c) && Forking(s, s.cpus[e.c].on);
      OffStack(s, p, e.c);
    }
  }

  /** The kernel stack of a zombie whose lock another process holds is in no use. */
  lemma OffStack(s: State, p: nat, b: nat)
    requires Own(s) && Threads(s) && p < |s.procs| && s.procs[p].state == Zombie
    requires Holds(s, b, PLock(p)) && 0 <= s.cpus[b].on != p
    ensures forall c: nat | c < |s.cpus| :: s.cpus[c].on != p && s.cpus[c].proc != p
  {
    assert ProcOk(s, p);
    forall c: nat | c < |s.cpus| ensures s.cpus[c].on != p && s.cpus[c].proc != p {
      assert CpuOk(s, c) && CpuOk(s, b);
      assert c != b ==> !Holds(s, c, PLock(p));
    }
  }

  /** No lost wakeup: while a condition's lock is free, nobody sleeps on the condition if it holds. */
  lemma NoLostWakeup(s0: State, es: seq<Event>, c: nat, p: nat)
    requires Boot(s0) && Possible(s0, es) && c < |After(s0, es).ready|
    ensures var s := After(s0, es);
            |s.guard| == |s.ready| && (Free(s, CondLock(s.guard[c])) && s.ready[c] ==> !Asleep(s, p, CondOf(c)))
  {
    RunsKeep(s0, es);
    hide Boot, Possible, After, Own, Threads, Family, Forks, Exits, WaitInv, Scans;
    var s := After(s0, es);
    assert CondInv(s);
    if Asleep(s, p, CondOf(c)) && s.ready[c] {
      assert Coming(s, c, p);
    }
  }

  /** The same for wait: who sleeps there has a child, and while wait_lock is free, none to reap. */
  lemma NoLostExit(s0: State, es: seq<Event>, p: nat)
    requires Boot(s0) && Possible(s0, es) && Asleep(After(s0, es), p, WaitOf(p))
    ensures var s := After(s0, es);
            && (exists k: nat :: k < |s.procs| && s.procs[k].parent == p)
            && (Free(s, WaitLock) ==> forall k: nat | k < |s.procs| && s.procs[k].parent == p :: s.procs[k].state != Zombie)
  {
    RunsKeep(s0, es);
    var s := After(s0, es);
    hide Boot, Possible, After, Own, Family, Forks, Exits, CondInv;
    assert ProcOk(s, p) && Counts(s, p);
    assert HasKid(s, p, |s.procs|);
    forall k: nat | k < |s.procs| && s.procs[k].parent == p && Free(s, WaitLock) ensures s.procs[k].state != Zombie {
      assert Unreaped(s, k, p) ==> Waking(s, WaitLock, WaitOf(p), p);
    }
  }

  /** sched() never panics: the CPU holds p's lock and no other, and p is not RUNNING. */
  lemma SchedSafe(s0: State, es: seq<Event>, c: nat)
    requires Boot(s0) && Possible(s0, es) && Enabled(After(s0, es), SwtchOut(c))
    ensures var s := After(s0, es); var w := s.cpus[c].on;
            && s.procs[w].state != Running
            && (forall lk :: lk in s.owner && s.owner[lk] == c <==> lk == PLock(w))
  {
    RunsKeep(s0, es);
    var s := After(s0, es);
    hide Boot, Possible, After, Family, Forks, Exits, CondInv, WaitInv, Scans;
    var w := s.cpus[c].on;
    assert CpuOk(s, c) && ProcOk(s, w);
    forall lk ensures lk in s.owner && s.owner[lk] == c <==> lk == PLock(w) {
      assert Holds(s, c, lk) <==> lk == PLock(w);
    }
  }

  /** The lock a CPU cannot go on without, if any. */
  function Wants(s: State, c: nat): LockOp
    requires c < |s.cpus|
  {
    var cpu := s.cpus[c];
    if cpu.on < 0 then (if cpu.spc.Look? then Take(PLock(cpu.spc.k)) else Keep)
    else if cpu.on >= |s.procs| then Keep
    else
      match s.procs[cpu.on].pc
      case SleepGo(_) => Take(PLock(cpu.on))
      case ExitLock => Take(PLock(cpu.on))
      case SleepRetake(x) => Take(CtxLock(x))
      case ForkParent(_) => Take(WaitLock)
      case ForkRun(k) => Take(PLock(k))
      case LeafWait(n, _) => Take(Leaf(n))
      case Wake(_, k, _) => if k < |s.procs| && k != cpu.on then Take(PLock(k)) else Keep
      case WaitScan(k, _) => if k < |s.procs| && s.procs[k].parent == cpu.on then Take(PLock(k)) else Keep
      case _ => Keep
  }

  predicate Blocked(s: State, c: nat) {
    c < |s.cpus| && Wants(s, c).Take? && !Free(s, Wants(s, c).lk)
  }

  /** The CPU that owns the lock c waits for. */
  function Blocker(s: State, c: nat): nat
    requires Blocked(s, c)
  {
    s.owner[Wants(s, c).lk]
  }

  /** The order in which locks are taken. */
  function Rank(lk: Lock): nat {
    match lk case WaitLock => 0 case CondLock(_) => 0 case PLock(_) => 1 case Leaf(_) => 2
  }

  /** A CPU waits only for locks that come after all those it holds. */
  lemma LockOrder(s0: State, es: seq<Event>, c: nat, lk: Lock)
    requires Boot(s0) && Possible(s0, es) && Blocked(After(s0, es), c)
    ensures var s := After(s0, es); lk in s.owner && s.owner[lk] == c ==> Rank(lk) < Rank(Wants(s, c).lk)
  {
    RunsKeep(s0, es);
    hide Boot, Possible, After, Family, Forks, Exits, CondInv, WaitInv, Scans;
    var s := After(s0, es);
    if Holds(s, c, lk) {
      Ordered(s, c, lk);
    }
  }

  lemma Ordered(s: State, c: nat, lk: Lock)
    requires Threads(s) && Blocked(s, c) && Holds(s, c, lk)
    ensures Rank(lk) < Rank(Wants(s, c).lk)
  {
    hide TodoOk, CtxOk;
    assert CpuOk(s, c);
    if s.cpus[c].on >= 0 {
      var pc := s.procs[s.cpus[c].on].pc;
      assert ProcOk(s, s.cpus[c].on);
      if pc.LeafWait? {
        LeafHolds(pc.back, s.cpus[c].on, lk);
      }
    }
  }

  lemma LeafHolds(pc: Pc, p: int, lk: Lock)
    requires LeafBack(pc) && PcHolds(pc, p, lk)
    ensures !lk.Leaf?
  {
  }

  ghost predicate CanGo(s: State, c: nat) {
    exists e: Event :: e.c == c && Enabled(s, e)
  }

  /** A CPU that waits for no lock has a step to make. */
  lemma GoesOn(s: State, c: nat)
    requires Threads(s) && Forks(s) && INIT < |s.procs| && |s.guard| == |s.ready| && c < |s.cpus| && !Blocked(s, c)
    ensures CanGo(s, c)
  {
    assert CpuOk(s, c);
    if s.cpus[c].on < 0 {
      var e := if s.cpus[c].spc.Look? then Scan(c) else if s.cpus[c].spc.Picked? then SwtchIn(c) else Return(c);
      assert Enabled(s, e);
    } else {
      var w := s.cpus[c].on;
      Actor(s, c, w);
      if SchedPoint(s.procs[w].pc) {
        assert Enabled(s, SwtchOut(c));
      } else {
        var a := GoOn(s, w);
        GoOnCan(s, c, w);
        assert Enabled(s, Run(c, a));
      }
    }
  }

  /** What a thread does next. */
  ghost function GoOn(s: State, w: nat): Action
    requires w < |s.procs|
  {
    match s.procs[w].pc
    case Idle => LeafWant(0)
    case YieldBack(_) => YieldOut
    case SleepGo(_) => Action.SleepLock
    case SleepHeld(_) => SleepRelease
    case SleepSet(_) => SleepMark
    case SleepBack(_) => SleepOut
    case SleepRetake(_) => Retake
    case Region(_, todo) => if todo == {} then Leave else var c :| c in todo; Signal(c)
    case LeafWait(_, _) => LeafTake
    case InLeaf(_, _) => LeafDrop
    case Wake(_, k, _) => if k < |s.procs| then WakeStep else WakeEnd
    case ForkInit(_) => ForkOk
    case ForkParent(_) => SetParent
    case ForkRun(_) => SetRunnable
    case Start => StartOut
    case Reparent(k) => if k < |s.procs| then ReparentStep else ReparentEnd
    case ExitLock => ExitMark
    case ExitRel => ExitRelease
    case WaitScan(k, _) => if k < |s.procs| then WaitStep else WaitEnd(false)
    case WaitReap(_) => Reap(false)
    case _ => WaitLeave
  }

  lemma GoOnCan(s: State, c: nat, w: nat)
    requires c < |s.cpus| && s.cpus[c].on == w < |s.procs| && PcOk(s, w) && OnCpu(s, w) && Forking(s, w)
    requires !Blocked(s, c) && !SchedPoint(s.procs[w].pc) && |s.guard| == |s.ready|
    ensures Can(s, w, GoOn(s, w))
  {
    hide CtxOk;
  }

  /** Spin locks cannot deadlock: each CPU in a chain of waiting CPUs waits for a lock that comes
      after the one before it, so that the chain ends after at most three steps in a CPU that can
      go on. */
  lemma NoDeadlock(s0: State, es: seq<Event>, c: nat)
    requires Boot(s0) && Possible(s0, es) && Blocked(After(s0, es), c)
    ensures var s := After(s0, es); var d := Blocker(s, c);
            || CanGo(s, d)
            || (Blocked(s, d) && var b := Blocker(s, d);
                || CanGo(s, b)
                || (Blocked(s, b) && CanGo(s, Blocker(s, b))))
  {
    RunsKeep(s0, es);
    hide Boot, Possible, After, Exits, WaitInv, CanGo, CondInv;
    var s := After(s0, es);
    CondsMatch(s);
    Waits(s, c);
    var d := Blocker(s, c);
    if Blocked(s, d) {
      Waits(s, d);
      var b := Blocker(s, d);
      if Blocked(s, b) {
        Waits(s, b);
      }
    }
  }

  /** The owner of the lock that c waits for waits for one that comes later, or for none. */
  lemma Waits(s: State, c: nat)
    requires Own(s) && Threads(s) && Forks(s) && INIT < |s.procs| && |s.guard| == |s.ready| && Blocked(s, c)
    ensures var d := Blocker(s, c);
            && (Blocked(s, d) ==> Rank(Wants(s, c).lk) < Rank(Wants(s, d).lk))
            && (!Blocked(s, d) ==> CanGo(s, d))
  {
    hide CanGo, Threads, Forks, Rank;
    var lk := Wants(s, c).lk;
    var d := Blocker(s, c);
    assert Holds(s, d, lk);
    if Blocked(s, d) {
      Ordered(s, d, lk);
    } else {
      GoesOn(s, d);
    }
  }

  // ---- sleep-locks ----

  // kernel/sleeplock.c: condition c is "not locked". acquiresleep enters the region of the guard,
  // sleeps on c while it is false, and claims it; releasesleep, called by the holder only, sets it
  // and wakes.

  /** The process that got sleep-lock c and has not released it. */
  ghost function HolderOf(s: State, es: seq<Event>, c: nat): Option<int>
    requires Possible(s, es)
    decreases |es|
  {
    if es == [] then None
    else
      var t, e := After(s, es[..|es| - 1]), es[|es| - 1];
      if e.Run? && e.a == Claim(c) then Some(t.cpus[e.c].on)
      else if e.Run? && e.a == SetCond(c, true) then None
      else HolderOf(s, es[..|es| - 1], c)
  }

  /** Only acquiresleep and releasesleep change the condition, and releasesleep is called by the
      holder. */
  ghost predicate LockRun(s: State, es: seq<Event>, c: nat)
    requires Possible(s, es)
    decreases |es|
  {
    es == [] ||
    (LockRun(s, es[..|es| - 1], c) &&
     var t, e := After(s, es[..|es| - 1]), es[|es| - 1];
     e.Run? && e.a.SetCond? && e.a.c == c ==> e.a.v && HolderOf(s, es[..|es| - 1], c) == Some(t.cpus[e.c].on))
  }

  lemma ReadyAfter(s: State, w: nat, a: Action, c: nat)
    requires w < |s.procs| && Can(s, w, a) && c < |s.ready|
    ensures var e := Eff(s, w, a);
            |e.ready| == |s.ready| && e.ready[c] == if a == Claim(c) then false else if a.SetCond? && a.c == c then a.v else s.ready[c]
  {
    if Local(a) {
      hide EffOther, CanOther;
      return;
    }
    hide EffLocal, CanLocal;
  }

  lemma LockStep(s: State, e: Event, c: nat)
    requires Enabled(s, e) && c < |s.ready|
    ensures var s' := Next(s, e);
            && |s'.ready| == |s.ready|
            && s'.ready[c] == (if e.Run? && e.a == Claim(c) then false
                               else if e.Run? && e.a.SetCond? && e.a.c == c then e.a.v else s.ready[c])
            && (e.Run? && e.a == Claim(c) ==> s.ready[c])
  {
    if e.Run? {
      ReadyAfter(s, s.cpus[e.c].on, e.a, c);
      hide Eff;
    }
  }

  /** A sleep-lock is locked exactly while some process holds it, no process gets it while another
      holds it, and when it is not locked and its spin lock is free, nobody sleeps on it. */
  lemma {:induction false} SleepLock(s: State, es: seq<Event>, c: nat)
    requires Boot(s) && Possible(s, es) && c < |s.ready| && s.ready[c] && LockRun(s, es, c)
    ensures var t := After(s, es);
            && |t.ready| == |s.ready| == |t.guard|
            && (t.ready[c] <==> HolderOf(s, es, c) == None)
            && (forall e: Event | Enabled(t, e) && e.Run? && e.a == Claim(c) :: HolderOf(s, es, c) == None)
            && (HolderOf(s, es, c) == None && Free(t, CondLock(t.guard[c])) ==>
                  forall p: nat :: !Asleep(t, p, CondOf(c)))
    decreases |es|
  {
    RunsKeep(s, es);
    hide Inv, Asleep, Eff, Can;
    if es != [] {
      var es1, e := es[..|es| - 1], es[|es| - 1];
      SleepLock(s, es1, c);
      hide Enabled, Next;
      LockStep(After(s, es1), e, c);
    }
    var t := After(s, es);
    NoLostWakeup(s, es, c, 0);
    forall e: Event | Enabled(t, e) && e.Run? && e.a == Claim(c) ensures t.ready[c] {
      LockStep(t, e, c);
    }
    if t.ready[c] && Free(t, CondLock(t.guard[c])) {
      forall p: nat ensures !Asleep(t, p, CondOf(c)) {
        NoLostWakeup(s, es, c, p);
      }
    }
  }

  // ---- the life of a process ----

  /** The state of process p after the thread of w has done a. */
  function StateBy(s: State, w: nat, a: Action, p: nat): PState
    requires w < |s.procs| && p < |s.procs|
  {
    var pc := s.procs[w].pc;
    match s.procs[p].state
    case Unused => if a == Alloc(p) then Used else Unused
    case Used =>
      if a.ForkFail? && pc == ForkInit(p) then Unused
      else if a.SetRunnable? && pc == ForkRun(p) then Runnable
      else Used
    case Runnable => Runnable
    case Running =>
      if p != w then Running
      else if a.YieldIn? then Runnable
      else if a.SleepMark? then Sleeping
      else if a.ExitMark? then Zombie
      else Running
    case Sleeping =>
      if a == Kill(p) || (a.WakeStep? && pc.Wake? && pc.k == p && pc.chan == s.procs[p].chan) then Runnable else Sleeping
    case Zombie => if a == Reap(false) && pc == WaitReap(p) then Unused else Zombie
  }

  /** The parent of process p after the thread of w has done a. */
  function ParentBy(s: State, w: nat, a: Action, p: nat): int
    requires w < |s.procs| && p < |s.procs|
  {
    var pc, parent := s.procs[w].pc, s.procs[p].parent;
    if a.SetParent? && pc == ForkParent(p) then w
    else if a.ReparentStep? && pc == Reparent(p) && parent == w then INIT
    else if StateBy(s, w, a, p) == Unused then -1
    else parent
  }

  function Changed(s: State, w: nat, e: Effect, p: nat): Proc
    requires p < |s.procs|
  {
    if p == w then e.me else if p == e.k then e.other else s.procs[p]
  }



  lemma LifeLocal(s: State, w: nat, a: Action, p: nat)
    requires w < |s.procs| && p < |s.procs| && CanLocal(s, w, a) && s.procs[w].state == RunState(s.procs[w].pc)
    ensures Changed(s, w, EffLocal(s, w, a), p).state == StateBy(s, w, a, p)
  {
    if a.WakeStep? {
      return;
    }
    LocalState(s, w, a);
    hide EffLocal, CanLocal;
  }

  /** Among the local steps, a yield and a sleep change the state of the thread that takes them. */
  lemma LocalState(s: State, w: nat, a: Action)
    requires w < |s.procs| && CanLocal(s, w, a) && s.procs[w].state == RunState(s.procs[w].pc) && !a.WakeStep?
    ensures var e := EffLocal(s, w, a);
            && e.k == -1 && Local(a)
            && e.me.state == (if a.YieldIn? then Runnable else if a.SleepMark? then Sleeping else s.procs[w].state)
            && (a.YieldIn? || a.SleepMark? ==> s.procs[w].state == Running)
  {
  }

  lemma LifeOther(s: State, w: nat, a: Action, p: nat)
    requires w < |s.procs| && p < |s.procs| && CanOther(s, w, a) && s.procs[w].state == RunState(s.procs[w].pc)
    requires Forking(s, w)
    ensures Changed(s, w, EffOther(s, w, a), p).state == StateBy(s, w, a, p)
  {
    if a.Kill? || a.Alloc? || a.ForkFail? || a.SetRunnable? || a.Reap? {
      return;
    }
    OtherState(s, w, a);
    hide EffOther, CanOther;
  }

  /** Exit changes the state of the thread that takes it; the other steps keep every state. */
  lemma OtherState(s: State, w: nat, a: Action)
    requires w < |s.procs| && CanOther(s, w, a) && s.procs[w].state == RunState(s.procs[w].pc)
    requires !a.Kill? && !a.Alloc? && !a.ForkFail? && !a.SetRunnable? && !a.Reap?
    ensures var e := EffOther(s, w, a);
            && e.me.state == (if a.ExitMark? then Zombie else s.procs[w].state)
            && (e.k >= 0 ==> e.k < |s.procs| && e.other.state == s.procs[e.k].state)
            && !Local(a) && (a.ExitMark? ==> s.procs[w].state == Running)
  {
  }

  lemma ParentLocal(s: State, w: nat, a: Action, p: nat)
    requires w < |s.procs| && p < |s.procs| && CanLocal(s, w, a)
    requires s.procs[p].state == Unused ==> s.procs[p].parent == -1
    ensures Changed(s, w, EffLocal(s, w, a), p).parent == ParentBy(s, w, a, p)
  {
    LocalOther(s, w, a);
    LocalParent(s, w, a);
    hide EffLocal, CanLocal;
  }

  lemma LocalParent(s: State, w: nat, a: Action)
    requires w < |s.procs| && CanLocal(s, w, a)
    ensures EffLocal(s, w, a).me.parent == s.procs[w].parent
  {
  }

  lemma ParentOther(s: State, w: nat, a: Action, p: nat)
    requires w < |s.procs| && p < |s.procs| && CanOther(s, w, a) && s.procs[w].state == RunState(s.procs[w].pc)
    requires Forking(s, w) && s.procs[w].parent != w && (s.procs[p].state == Unused ==> s.procs[p].parent == -1)
    ensures Changed(s, w, EffOther(s, w, a), p).parent == ParentBy(s, w, a, p)
  {
  }

  lemma LifeRun(s: State, c: nat, w: nat, a: Action, p: nat)
    requires Threads(s) && Family(s) && Forks(s) && p < |s.procs|
    requires c < |s.cpus| && s.cpus[c].on == w < |s.procs| && Can(s, w, a)
    ensures var s' := Apply(s, c, w, Eff(s, w, a));
            && |s'.procs| == |s.procs|
            && s'.procs[p].state == StateBy(s, w, a, p) && s'.procs[p].parent == ParentBy(s, w, a, p)
  {
    hide Eff, Can, Apply, PcFine, StateBy, ParentBy, EffLocal, EffOther, CanLocal, CanOther;
    Actor(s, c, w);
    var e := Eff(s, w, a);
    Changes(s, c, w, a, e, Apply(s, c, w, e));
    assert HasParent(s, w) && HasParent(s, p);
    EffHalves(s, w, a);
    if Local(a) {
      LifeLocal(s, w, a, p);
      ParentLocal(s, w, a, p);
    } else {
      LifeOther(s, w, a, p);
      ParentOther(s, w, a, p);
    }
  }

  lemma EffHalves(s: State, w: nat, a: Action)
    requires w < |s.procs| && Can(s, w, a)
    ensures if Local(a) then CanLocal(s, w, a) && Eff(s, w, a) == EffLocal(s, w, a)
            else CanOther(s, w, a) && Eff(s, w, a) == EffOther(s, w, a)
  {
    hide EffLocal, EffOther, CanLocal, CanOther;
  }

  /** Exactly these steps change the state or the parent of a process, in every run from boot: a sleeper
      becomes runnable by a kill, or by a wakeup on what it sleeps on; a process runs when the scheduler
      looks at it while it is runnable; a zombie is freed by its parent's wait; a parent changes in fork,
      in the exit of the old parent, and when the process is freed. */
  lemma LifeCycle(s0: State, es: seq<Event>, e: Event, p: nat)
    requires Boot(s0) && Possible(s0, es) && Enabled(After(s0, es), e) && p < |After(s0, es).procs|
    ensures var s := After(s0, es); var s' := Next(s, e); var q, q' := s.procs[p], s'.procs[p];
            && |s'.procs| == |s.procs|
            && (e.Run? ==> q'.state == StateBy(s, s.cpus[e.c].on, e.a, p) && q'.parent == ParentBy(s, s.cpus[e.c].on, e.a, p))
            && (!e.Run? ==> q'.parent == q.parent)
            && (!e.Run? ==>
                  q'.state == (if e.Scan? && s.cpus[e.c].spc.k == p && q.state == Runnable then Running else q.state))
  {
    RunsKeep(s0, es);
    var s := After(s0, es);
    hide Boot, Possible, After, StateBy, ParentBy, Own, Threads, Family, Forks, Exits, CondInv, WaitInv, Scans;
    if e.Run? {
      LifeRun(s, e.c, s.cpus[e.c].on, e.a, p);
    } else {
      hide Eff, Apply;
    }
  }

  /** A wait that has been through the table has no zombie child, and sleeps exactly when the process
      has a child and has not been killed. */
  lemma WaitSleeps(s0: State, es: seq<Event>, c: nat, killed: bool)
    requires Boot(s0) && Possible(s0, es) && Enabled(After(s0, es), Run(c, WaitEnd(killed)))
    ensures var s := After(s0, es); var w := s.cpus[c].on; var s' := Next(s, Run(c, WaitEnd(killed)));
            && |s'.procs| == |s.procs|
            && (forall k: nat | k < |s.procs| && s.procs[k].parent == w :: s.procs[k].state != Zombie)
            && s'.procs[w].pc == (if !killed && exists k: nat :: k < |s.procs| && s.procs[k].parent == w
                                  then SleepGo(InWait) else WaitOut)
  {
    RunsKeep(s0, es);
    var s := After(s0, es);
    var w := s.cpus[c].on;
    assert s.procs[w].pc.WaitScan? && s.procs[w].pc.k >= |s.procs|;
    hide Boot, Possible, After, Own, Threads, Family, Forks, Exits, CondInv, Eff, Can;
    WaitEnds(s, w, killed);
    assert Counts(s, w) && Knows(s, w);
    assert HasKid(s, w, s.procs[w].pc.k) <==> exists k: nat :: k < |s.procs| && s.procs[k].parent == w;
    forall k: nat | k < |s.procs| && s.procs[k].parent == w ensures s.procs[k].state != Zombie {
      assert !Unreaped(s, k, w);
    }
  }

  lemma WaitEnds(s: State, w: nat, killed: bool)
    requires w < |s.procs| && Can(s, w, WaitEnd(killed))
    ensures var e := Eff(s, w, WaitEnd(killed));
            e.me.pc == (if s.procs[w].pc.have && !killed then SleepGo(InWait) else WaitOut) && e.k == -1
  {
  }

  // ---- the scheduler's search ----

  /** The process d places after k in a table of n. */
  function Place(k: nat, d: nat, n: nat): nat
    requires k < n && d <= n
  {
    if k + d < n then k + d else k + d - n
  }

  function Looks(c: nat, d: nat): seq<Event> {
    if d == 0 then [] else Looks(c, d - 1) + [Scan(c)]
  }

  /** A scheduler that finds nothing runnable goes on round the table. */
  lemma {:induction false} LooksOn(s: State, c: nat, k: nat, d: nat)
    requires c < |s.cpus| && s.cpus[c].on < 0 && s.cpus[c].spc == Look(k) && k < |s.procs| && d <= |s.procs|
    requires forall p: nat | p < |s.procs| :: Free(s, PLock(p))
    requires forall i: nat | i < d :: s.procs[Place(k, i, |s.procs|)].state != Runnable
    ensures Possible(s, Looks(c, d)) && After(s, Looks(c, d)) == Looking(s, c, Place(k, d, |s.procs|))
  {
    hide Next, Enabled;
    if d > 0 {
      LooksOn(s, c, k, d - 1);
      var es, j, j' := Looks(c, d), Place(k, d - 1, |s.procs|), Place(k, d, |s.procs|);
      assert es[..|es| - 1] == Looks(c, d - 1) && es[|es| - 1] == Scan(c);
      var t := Looking(s, c, j);
      assert Free(t, PLock(j)) by { assert Free(s, PLock(j)); }
      LookPast(t, c, j);
      var cpu := s.cpus[c].(spc := Look(j'));
      assert Place(j, 1, |s.procs|) == j' && t.cpus[c := cpu] == s.cpus[c := cpu];
    } else {
      assert s.cpus[c := s.cpus[c]] == s.cpus;
    }
  }

  /** s with the scheduler of CPU c about to look at process k. */
  function Looking(s: State, c: nat, k: nat): State
    requires c < |s.cpus|
  {
    s.(cpus := s.cpus[c := s.cpus[c].(spc := Look(k))])
  }

  lemma LookPast(s: State, c: nat, k: nat)
    requires c < |s.cpus| && s.cpus[c].on < 0 && s.cpus[c].spc == Look(k) && k < |s.procs| && Free(s, PLock(k))
    requires s.procs[k].state != Runnable
    ensures Enabled(s, Scan(c)) && Next(s, Scan(c)) == Looking(s, c, Place(k, 1, |s.procs|))
  {
    hide Eff, Can, Apply;
    PlaceNext(k, |s.procs|);
  }

  lemma PlaceNext(k: nat, n: nat)
    requires k < n
    ensures (k + 1) % n == Place(k, 1, n)
  {
    if k + 1 < n {
      assert (k + 1) % n == k + 1;
    } else {
      assert (k + 1) % n == 0;
    }
  }

  /** On its own, the scheduler of a CPU takes the first runnable process round the table from where it is. */
  lemma ScanFinds(s: State, c: nat, k: nat, d: nat)
    requires c < |s.cpus| && s.cpus[c].on < 0 && s.cpus[c].spc == Look(k) && k < |s.procs| && d < |s.procs|
    requires forall p: nat | p < |s.procs| :: Free(s, PLock(p))
    requires forall i: nat | i < d :: s.procs[Place(k, i, |s.procs|)].state != Runnable
    requires s.procs[Place(k, d, |s.procs|)].state == Runnable
    ensures Possible(s, Looks(c, d + 1))
    ensures var j := Place(k, d, |s.procs|);
            After(s, Looks(c, d + 1)) ==
            s.(procs := s.procs[j := s.procs[j].(state := Running)],
               cpus := s.cpus[c := s.cpus[c].(proc := j, spc := Picked(j))], owner := s.owner[PLock(j) := c])
  {
    LooksOn(s, c, k, d);
    var es, j := Looks(c, d + 1), Place(k, d, |s.procs|);
    assert es[..|es| - 1] == Looks(c, d) && es[|es| - 1] == Scan(c);
    hide Eff, Can, Apply, Looks;
    var t := Looking(s, c, j);
    assert Enabled(t, Scan(c));
  }

}
