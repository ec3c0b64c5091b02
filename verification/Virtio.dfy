/** The virtio disk driver, kernel/virtio_disk.c, against any device that keeps to the queue
    protocol of VIRTIO 1.1, sections 2.6.5, 2.6.6 and 2.6.8. A method is what one thread does
    under vdisk_lock before it releases it or sleeps, or one step of the device. */
module Virtio {
  const NUM: nat := 8
  const UINT16: nat := 65536

  /** addr stands for what the descriptor points to; next counts only with the NEXT flag. */
  datatype Desc = Desc(addr: Target, writable: bool, chained: bool, next: nat)

  /** A request header, a buffer's data, or the status byte of a chain. */
  datatype Target = Nothing | Header(h: nat) | Data(b: nat) | Status(h: nat)

  const NODESC := Desc(Nothing, false, false, 0)

  /** Where a request is: in the avail ring, with the device, in the used ring, or seen by the
      interrupt handler and waiting for its thread. */
  datatype Phase = Queued | AtDevice | Completed | Done

  datatype Req = Req(buf: nat, d1: nat, d2: nat, write: bool, phase: Phase)

  datatype Info = Info(b: int, status: int)

  function Repeat<T>(n: nat, x: T): (s: seq<T>)
    ensures |s| == n && forall i | 0 <= i < n :: s[i] == x
  {
    seq(n, _ => x)
  }

  // ---- descriptors ----

  function Count(free: seq<bool>): (n: nat)
    ensures n <= |free|
  {
    if free == [] then 0 else Count(free[..|free| - 1]) + (if free[|free| - 1] then 1 else 0)
  }

  lemma {:induction false} CountSet(free: seq<bool>, i: nat, v: bool)
    requires i < |free|
    ensures Count(free[i := v]) == Count(free) + (if v then 1 else 0) - (if free[i] then 1 else 0)
  {
    var n := |free| - 1;
    if i == n {
      assert free[i := v][..n] == free[..n];
    } else {
      assert free[i := v][..n] == free[..n][i := v];
      CountSet(free[..n], i, v);
    }
  }

  lemma {:induction false} CountNone(free: seq<bool>)
    requires forall i | 0 <= i < |free| :: !free[i]
    ensures Count(free) == 0
  {
    if free != [] {
      CountNone(free[..|free| - 1]);
    }
  }

  ghost predicate ChainOk(desc: seq<Desc>, owner: seq<nat>, h: nat, r: Req)
    requires |desc| == |owner| == NUM
  {
    && h < NUM && r.d1 < NUM && r.d2 < NUM && h != r.d1 && h != r.d2 && r.d1 != r.d2
    && owner[h] == h && owner[r.d1] == h && owner[r.d2] == h
    && desc[h] == Desc(Header(h), false, true, r.d1)
    && desc[r.d1] == Desc(Data(r.buf), !r.write, true, r.d2)
    && desc[r.d2] == Desc(Status(h), true, false, 0)
  }

  /** Free descriptors and the chains of three of the requests share out the NUM descriptors. */
  ghost predicate Chains(free: seq<bool>, desc: seq<Desc>, owner: seq<nat>, reqs: map<nat, Req>) {
    && |free| == |desc| == |owner| == NUM
    && (forall i | 0 <= i < NUM :: free[i] <==> owner[i] == NUM)
    && (forall i | 0 <= i < NUM && owner[i] != NUM ::
          owner[i] in reqs && (i == owner[i] || i == reqs[owner[i]].d1 || i == reqs[owner[i]].d2))
    && (forall h | h in reqs :: ChainOk(desc, owner, h, reqs[h]))
    && Count(free) + 3 * |reqs| == NUM
  }

  lemma AddChain(free: seq<bool>, desc: seq<Desc>, owner: seq<nat>, reqs: map<nat, Req>, h: nat, r: Req,
                 free': seq<bool>, desc': seq<Desc>, owner': seq<nat>)
    requires Chains(free, desc, owner, reqs) && h < NUM && r.d1 < NUM && r.d2 < NUM && h != r.d1 && h != r.d2
    requires r.d1 != r.d2
    requires free[h] && free[r.d1] && free[r.d2]
    requires |free'| == |desc'| == |owner'| == NUM && Count(free') == Count(free) - 3
    requires forall i | 0 <= i < NUM :: Mine(h, r, i) ==> !free'[i] && owner'[i] == h
    requires forall i | 0 <= i < NUM :: !Mine(h, r, i) ==> free'[i] == free[i] && owner'[i] == owner[i]
    requires forall i | 0 <= i < NUM && !free[i] :: desc'[i] == desc[i]
    requires desc'[h] == Desc(Header(h), false, true, r.d1) && desc'[r.d1] == Desc(Data(r.buf), !r.write, true, r.d2)
    requires desc'[r.d2] == Desc(Status(h), true, false, 0)
    ensures h !in reqs && Chains(free', desc', owner', reqs[h := r])
  {
    hide Count;
    forall x | x in reqs ensures x != h {
      assert ChainOk(desc, owner, x, reqs[x]);
    }
    var reqs' := reqs[h := r];
    assert |reqs'| == |reqs| + 1;
    forall x | x in reqs' ensures ChainOk(desc', owner', x, reqs'[x]) {
      if x != h {
        OldChain(free, desc, owner, reqs, x, desc', owner', h, r);
      } else {
        assert Mine(h, r, h) && Mine(h, r, r.d1) && Mine(h, r, r.d2);
      }
    }
  }

  predicate Mine(h: nat, r: Req, i: int) {
    i == h || i == r.d1 || i == r.d2
  }

  lemma OldChain(free: seq<bool>, desc: seq<Desc>, owner: seq<nat>, reqs: map<nat, Req>, x: nat, desc': seq<Desc>,
                 owner': seq<nat>, h: nat, r: Req)
    requires Chains(free, desc, owner, reqs) && x in reqs && |desc'| == |owner'| == NUM
    requires forall i | 0 <= i < NUM && Mine(h, r, i) :: owner[i] != x
    requires forall i | 0 <= i < NUM && !Mine(h, r, i) :: owner'[i] == owner[i]
    requires forall i | 0 <= i < NUM && owner[i] == x :: desc'[i] == desc[i]
    ensures ChainOk(desc', owner', x, reqs[x])
  {
    hide Count, Mine;
    assert ChainOk(desc, owner, x, reqs[x]);
  }

  /** Taking or giving back the three descriptors of a chain. */
  lemma CountThree(free: seq<bool>, a: nat, b: nat, c: nat, v: bool)
    requires a < |free| && b < |free| && c < |free| && a != b && a != c && b != c
    requires free[a] == !v && free[b] == !v && free[c] == !v
    ensures Count(free[a := v][b := v][c := v]) == if v then Count(free) + 3 else Count(free) - 3
  {
    CountSet(free, a, v);
    CountSet(free[a := v], b, v);
    CountSet(free[a := v][b := v], c, v);
  }

  lemma DropChain(free: seq<bool>, desc: seq<Desc>, owner: seq<nat>, reqs: map<nat, Req>, h: nat, r: Req,
                  free': seq<bool>, desc': seq<Desc>, owner': seq<nat>)
    requires Chains(free, desc, owner, reqs) && h in reqs && r == reqs[h]
    requires |free'| == |desc'| == |owner'| == NUM && Count(free') == Count(free) + 3
    requires forall i | 0 <= i < NUM :: Mine(h, r, i) ==> free'[i] && owner'[i] == NUM
    requires forall i | 0 <= i < NUM ::
               !Mine(h, r, i) ==> free'[i] == free[i] && owner'[i] == owner[i] && desc'[i] == desc[i]
    ensures Chains(free', desc', owner', reqs - {h})
  {
    hide Count, ChainOk;
    InUse(free, desc, owner, reqs, h);
    assert forall i | 0 <= i < NUM :: owner[i] == h ==> Mine(h, r, i);
    var reqs' := reqs - {h};
    assert reqs == reqs'[h := r];
    assert |reqs'| == |reqs| - 1;
    forall x | x in reqs' ensures ChainOk(desc', owner', x, reqs'[x]) {
      DropOld(free, desc, owner, reqs, h, r, desc', owner', x);
    }
    hide Mine;
  }

  lemma DropOld(free: seq<bool>, desc: seq<Desc>, owner: seq<nat>, reqs: map<nat, Req>, h: nat, r: Req,
                desc': seq<Desc>, owner': seq<nat>, x: nat)
    requires Chains(free, desc, owner, reqs) && h in reqs && r == reqs[h] && x in reqs && x != h
    requires |desc'| == |owner'| == NUM
    requires forall i | 0 <= i < NUM :: !Mine(h, r, i) ==> owner'[i] == owner[i] && desc'[i] == desc[i]
    ensures ChainOk(desc', owner', x, reqs[x])
  {
    hide Count;
    assert ChainOk(desc, owner, h, r) && ChainOk(desc, owner, x, reqs[x]);
  }

  /** Only the phase of a request changes. */
  lemma SetPhase(free: seq<bool>, desc: seq<Desc>, owner: seq<nat>, reqs: map<nat, Req>, h: nat, p: Phase)
    requires Chains(free, desc, owner, reqs) && h in reqs
    ensures Chains(free, desc, owner, reqs[h := reqs[h].(phase := p)])
  {
    var reqs' := reqs[h := reqs[h].(phase := p)];
    assert reqs'.Keys == reqs.Keys;
    assert |reqs'| == |reqs|;
    forall x | x in reqs' ensures ChainOk(desc, owner, x, reqs'[x]) {
      assert ChainOk(desc, owner, x, reqs[x]);
    }
  }

  // ---- rings ----

  /** The entries of a ring that were put in and not taken out yet: list, from position base on. */
  ghost predicate Ring(ring: seq<nat>, base: nat, list: seq<nat>) {
    && |ring| == NUM && |list| < NUM
    && forall k | 0 <= k < |list| :: ring[Pos(base + k)] == list[k]
  }

  /** The list holds the requests of one phase, each once. */
  ghost predicate Lists(list: seq<nat>, reqs: map<nat, Req>, p: Phase) {
    && (forall k | 0 <= k < |list| :: list[k] in reqs && reqs[list[k]].phase == p)
    && (forall j, k | 0 <= j < k < |list| :: list[j] != list[k])
    && (forall h | h in reqs && reqs[h].phase == p :: h in list)
  }

  lemma {:induction false} ListShort(list: seq<nat>, keys: set<nat>)
    requires (forall k | 0 <= k < |list| :: list[k] in keys)
    requires (forall j, k | 0 <= j < k < |list| :: list[j] != list[k])
    ensures |list| <= |keys|
    decreases |list|
  {
    if list != [] {
      var n := |list| - 1;
      assert list[n] in keys;
      ListShort(list[..n], keys - {list[n]});
    }
  }

  /** The slot of a ring entry, and a counter as 16 bits. */
  function Pos(n: nat): (p: nat)
    ensures p < NUM
  {
    n % NUM
  }

  function Low(n: nat): (w: nat)
    ensures w < UINT16
  {
    n % UINT16
  }

  lemma Slot(n: nat)
    ensures Pos(Low(n)) == Pos(n)
  {
    var x := n / UINT16;
    assert n == n % UINT16 + (x * 8192) * NUM;
    SlotAdd(n % UINT16, x * 8192);
  }

  lemma {:induction false} SlotAdd(r: nat, x: nat)
    ensures (r + x * NUM) % NUM == r % NUM
  {
    if x > 0 {
      SlotAdd(r, x - 1);
      assert r + x * NUM == (r + (x - 1) * NUM) + NUM;
    }
  }

  lemma NextIndex(n: nat)
    ensures Low(Low(n) + 1) == Low(n + 1)
  {
  }

  /** The driver's 16-bit index meets the device's exactly when nothing is outstanding. */
  lemma SameIndex(base: nat, n: nat)
    requires n < NUM
    ensures Low(base) == Low(base + n) <==> n == 0
  {
    var a, b := base, base + n;
    assert a == a / UINT16 * UINT16 + a % UINT16 && b == b / UINT16 * UINT16 + b % UINT16;
  }

  lemma Slots(a: nat, b: nat)
    requires a < b < a + NUM
    ensures Pos(a) != Pos(b)
  {
    assert a == a / NUM * NUM + a % NUM && b == b / NUM * NUM + b % NUM;
  }

  /** A new entry goes to a slot that no outstanding entry uses. */
  lemma RingPush(ring: seq<nat>, base: nat, list: seq<nat>, h: nat)
    requires Ring(ring, base, list) && |list| + 1 < NUM
    ensures Ring(ring[Pos(base + |list|) := h], base, list + [h])
  {
    hide Pos;
    var at := Pos(base + |list|);
    forall k | 0 <= k < |list| + 1 ensures ring[at := h][Pos(base + k)] == (list + [h])[k] {
      if k < |list| {
        Slots(base + k, base + |list|);
        assert ring[Pos(base + k)] == list[k];
      }
    }
  }

  lemma RingPop(ring: seq<nat>, base: nat, list: seq<nat>)
    requires Ring(ring, base, list) && list != []
    ensures ring[Pos(base)] == list[0] && Ring(ring, base + 1, list[1..])
  {
    hide Pos;
    assert ring[Pos(base + 0)] == list[0];
    forall k | 0 <= k < |list| - 1 ensures ring[Pos(base + 1 + k)] == list[1..][k] {
      assert ring[Pos(base + (k + 1))] == list[k + 1];
    }
  }

  /** A request moves from the front of one list to another phase. */
  lemma ListPop(list: seq<nat>, reqs: map<nat, Req>, p: Phase, q: Phase)
    requires Lists(list, reqs, p) && list != [] && p != q
    ensures list[0] in reqs && Lists(list[1..], reqs[list[0] := reqs[list[0]].(phase := q)], p)
  {
    var h := list[0];
    forall x | x in reqs && x != h && reqs[x].phase == p ensures x in list[1..] {
      var k :| 0 <= k < |list| && list[k] == x;
      assert list[1..][k - 1] == x;
    }
  }

  lemma ListPush(list: seq<nat>, reqs: map<nat, Req>, p: Phase, h: nat, r: Req)
    requires Lists(list, reqs, p) && r.phase == p && (h in reqs ==> reqs[h].phase != p)
    ensures Lists(list + [h], reqs[h := r], p)
  {
    assert h !in list;
    assert (list + [h])[|list|] == h;
    forall x | x in reqs && reqs[x].phase == p ensures x in list + [h] {
      assert x in list;
    }
  }

  /** A change between two other phases. */
  lemma ListSkip(list: seq<nat>, reqs: map<nat, Req>, p: Phase, h: nat, r: Req)
    requires Lists(list, reqs, p) && r.phase != p && (h in reqs ==> reqs[h].phase != p)
    ensures Lists(list, reqs[h := r], p)
  {
  }

  // ---- buffers ----

  /** b->disk is set for exactly the buffers of requests that have not completed; each request
      remembers its own buffer. */
  ghost predicate Buffers(info: seq<Info>, reqs: map<nat, Req>, busy: set<nat>) {
    && |info| == NUM
    && (forall h | h in reqs :: h < NUM && info[h].b == reqs[h].buf)
    && (forall h | h in reqs :: reqs[h].buf in busy <==> reqs[h].phase != Done)
    && (forall h, x | h in reqs && x in reqs && h != x :: reqs[h].buf != reqs[x].buf)
    && (forall b | b in busy :: exists h :: h in reqs && reqs[h].buf == b)
  }

  class Disk {
    var free: seq<bool>
    var desc: seq<Desc>
    var info: seq<Info>
    var availRing: seq<nat>
    var availIdx: nat
    /** The device's own: how far it has looked in the avail ring, the used ring, and used->idx. */
    var deviceIdx: nat
    var usedRing: seq<nat>
    var usedHead: nat
    /** How far the driver has looked, disk.used_idx. */
    var usedIdx: nat
    /** The buffers with b->disk set, and the processes asleep on &disk.free[0]. */
    var busy: set<nat>
    var waiters: set<nat>
    ghost var owner: seq<nat>
    var reqs: map<nat, Req>
    /** What is in the rings, and how many entries were taken out of them before. */
    var queue: seq<nat>
    ghost var availBase: nat
    var done: seq<nat>
    ghost var usedBase: nat

    ghost predicate Valid()
      reads this
    {
      && Chains(free, desc, owner, reqs) && Buffers(info, reqs, busy)
      && Rings() && (waiters != {} ==> Count(free) < 3)
    }

    /** The rings hold the queued and the completed requests, and the 16-bit indices agree. */
    ghost predicate Rings()
      reads this
    {
      && Ring(availRing, availBase, queue) && Lists(queue, reqs, Queued) && availIdx == Low(availBase + |queue|)
      && deviceIdx == Low(availBase)
      && Ring(usedRing, usedBase, done) && Lists(done, reqs, Completed)
      && usedIdx == Low(usedBase) && usedHead == Low(usedBase + |done|)
    }

    /** The queue as virtio_disk_init leaves it. */
    constructor ()
      ensures Valid() && reqs == map[] && busy == {} && waiters == {}
    {
      hide Chains, Ring, Lists, Buffers, Count, Low, Repeat;
      free := Repeat(NUM, true);
      desc := Repeat(NUM, NODESC);
      info := Repeat(NUM, Info(-1, 0));
      availRing, availIdx, deviceIdx := Repeat(NUM, 0), 0, 0;
      usedRing, usedHead, usedIdx := Repeat(NUM, 0), 0, 0;
      busy, waiters := {}, {};
      owner := Repeat(NUM, NUM);
      reqs, queue, availBase, done, usedBase := map[], [], 0, [], 0;
      new;
      LowZero();
      NoRequests(free, desc, owner, info, availRing, usedRing);
    }

    /** At most NUM/3 requests are under way, so that a ring of NUM entries never overflows. */
    lemma InFlight()
      requires Valid()
      ensures |reqs| <= NUM / 3 && |queue| + |done| <= |reqs|
    {
      Together(queue, done, reqs);
    }

    method AllocDesc() returns (i: int)
      requires |free| == NUM
      modifies this`free
      ensures -1 <= i < NUM
      ensures i >= 0 ==> old(free)[i] && free == old(free)[i := false] && forall k | 0 <= k < i :: !free[k]
      ensures i < 0 ==> free == old(free) && forall k | 0 <= k < NUM :: !free[k]
    {
      i := 0;
      while i < NUM
        invariant 0 <= i <= NUM && free == old(free) && forall k | 0 <= k < i :: !free[k]
      {
        if free[i] {
          free := free[i := false];
          return;
        }
        i := i + 1;
      }
      return -1;
    }

    method FreeDesc(i: nat)
      requires |free| == |desc| == NUM && i < NUM && !free[i]
      modifies this`free, this`desc, this`waiters
      ensures free == old(free)[i := true] && desc == old(desc)[i := NODESC] && waiters == {}
    {
      desc := desc[i := NODESC];
      free := free[i := true];
      waiters := {};
    }

    /** Three free descriptors, or none taken. */
    method Alloc3() returns (ok: bool, idx: seq<nat>)
      requires |free| == |desc| == NUM
      modifies this`free, this`desc, this`waiters
      ensures |free| == |desc| == NUM
      ensures ok <==> Count(old(free)) >= 3
      ensures ok ==>
                && Three(idx) && desc == old(desc) && waiters == old(waiters) && Count(free) == Count(old(free)) - 3
                && old(free)[idx[0]] && old(free)[idx[1]] && old(free)[idx[2]]
                && forall k: nat | k < NUM :: free[k] == (old(free)[k] && k !in idx)
      ensures !ok && Count(old(free)) == 0 ==> waiters == old(waiters)
      ensures !ok && Count(old(free)) > 0 ==> waiters == {}
      ensures !ok ==>
                free == old(free) && forall k | 0 <= k < NUM && !free[k] :: desc[k] == old(desc)[k]
    {
      idx := [];
      while |idx| < 3
        invariant |idx| <= 3 && |free| == NUM && desc == old(desc) && waiters == old(waiters)
        invariant forall k: nat | k < NUM :: free[k] == (old(free)[k] && k !in idx)
        invariant Distinct(idx) && (forall j | 0 <= j < |idx| :: idx[j] < NUM && old(free)[idx[j]])
        invariant Count(free) == Count(old(free)) - |idx|
        decreases 3 - |idx|
      {
        ghost var free1 := free;
        var i := AllocDesc();
        if i < 0 {
          CountNone(free);
          PutBack(idx, old(free));
          return false, idx;
        }
        CountSet(free1, i, false);
        idx := idx + [i];
      }
      return true, idx;
    }

    /** The cleanup loop of alloc3_desc. */
    method PutBack(idx: seq<nat>, ghost free0: seq<bool>)
      requires |free| == |desc| == |free0| == NUM && Distinct(idx)
      requires forall k: nat | k < NUM :: free[k] == (free0[k] && k !in idx)
      requires forall j | 0 <= j < |idx| :: idx[j] < NUM && free0[idx[j]]
      modifies this`free, this`desc, this`waiters
      ensures |desc| == NUM && free == free0 && waiters == if idx == [] then old(waiters) else {}
      ensures forall k | 0 <= k < NUM && !free[k] :: desc[k] == old(desc)[k]
    {
      var j := 0;
      while j < |idx|
        invariant 0 <= j <= |idx| && |free| == |desc| == NUM && waiters == if j == 0 then old(waiters) else {}
        invariant forall k: nat | k < NUM :: free[k] == (free0[k] && k !in idx[j..])
        invariant forall k | 0 <= k < NUM && !free0[k] :: desc[k] == old(desc)[k]
      {
        assert idx[j] in idx[j..];
        assert idx[j..] == [idx[j]] + idx[j + 1..];
        FreeDesc(idx[j]);
        j := j + 1;
      }
      assert free == free0;
    }

    /** One turn of the loop around alloc3_desc: without three descriptors the caller joins the waiters. */
    method TryAlloc(me: nat) returns (ok: bool, idx: seq<nat>)
      requires Valid() && |free| == |desc| == NUM
      modifies this`free, this`desc, this`waiters
      ensures |free| == NUM && (ok <==> Count(old(free)) >= 3)
      ensures ok ==>
                && Three(idx) && desc == old(desc) && waiters == old(waiters) && Count(free) == Count(old(free)) - 3
                && old(free)[idx[0]] && old(free)[idx[1]] && old(free)[idx[2]]
                && forall k: nat | k < NUM :: free[k] == (old(free)[k] && k !in idx)
      ensures !ok ==> Valid() && free == old(free)
      ensures !ok ==> Joins(old(free), old(waiters), waiters, me)
    {
      hide Count, Chains, Lists, Ring, Buffers, Pos, Low;
      ghost var desc0 := desc;
      ok, idx := Alloc3();
      if !ok {
        SameChains(free, desc0, owner, reqs, desc);
        waiters := waiters + {me};
      }
    }

    /** virtio_disk_rw up to its first sleep: on &disk.free[0] when descriptors are short, else on b
        with the request handed to the device. */
    method Submit(me: nat, b: nat, write: bool) returns (slept: bool, h: nat)
      requires Valid() && forall x | x in reqs :: reqs[x].buf != b
      modifies this`free, this`desc, this`waiters, this`owner, this`info, this`busy, this`availRing, this`availIdx
      modifies this`queue, this`reqs
      ensures Valid() && slept == (Count(old(free)) < 3)
      ensures slept ==> reqs == old(reqs) && busy == old(busy) && queue == old(queue)
      ensures slept ==> Joins(old(free), old(waiters), waiters, me)
      ensures !slept ==>
                && h !in old(reqs) && h in reqs && reqs[h].buf == b && reqs[h].write == write && reqs[h].phase == Queued
                && reqs == old(reqs)[h := reqs[h]] && busy == old(busy) + {b}
                && queue == old(queue) + [h] && waiters == old(waiters)
      ensures |info| == |old(info)| == NUM && forall x | x in old(reqs) && x < NUM :: info[x] == old(info)[x]
    {
      hide Count, Chains, Lists, Ring, Buffers, Pos, Low, Joins;
      ChainsLength(free, desc, owner, reqs);
      BuffersLength(info, reqs, busy);
      InFlight();
      var ok, idx := TryAlloc(me);
      if !ok {
        return true, 0;
      }
      h := HandOver(old(free), idx, b, write);
      return false, h;
    }

    /** virtio_disk_rw with three descriptors in hand. */
    method HandOver(ghost free0: seq<bool>, idx: seq<nat>, b: nat, write: bool) returns (h: nat)
      requires Chains(free0, desc, owner, reqs) && Three(idx) && |free| == |free0| == NUM
      requires Count(free) == Count(free0) - 3
      requires free0[idx[0]] && free0[idx[1]] && free0[idx[2]]
      requires forall k: nat | k < NUM :: free[k] == (free0[k] && k !in idx)
      requires Buffers(info, reqs, busy) && (forall x | x in reqs :: reqs[x].buf != b)
      requires Rings() && |queue| <= 2 && (waiters != {} ==> Count(free) < 3)
      modifies this`desc, this`owner, this`info, this`busy, this`availRing, this`availIdx, this`queue, this`reqs
      ensures Valid() && h !in old(reqs) && h in reqs && reqs[h].buf == b && reqs[h].write == write
      ensures reqs[h].phase == Queued
      ensures reqs == old(reqs)[h := reqs[h]] && busy == old(busy) + {b} && queue == old(queue) + [h]
      ensures |info| == |old(info)| == NUM && forall x | 0 <= x < NUM && x != h :: info[x] == old(info)[x]
    {
      hide Count, Chains, Lists, Ring, Buffers, Pos, Low, Three;
      ThreeBound(idx);
      h := idx[0];
      var r := Format(free0, idx, b, write);
      AddBuffer(info, reqs, busy, h, r);
      info := info[h := Info(b, 0xff)];
      busy := busy + {b};
      Post(h, r);
    }

    /** The three descriptors of a request. */
    method Format(ghost free0: seq<bool>, idx: seq<nat>, b: nat, write: bool) returns (r: Req)
      requires Chains(free0, desc, owner, reqs) && Three(idx) && |free| == |free0| == NUM
      requires Count(free) == Count(free0) - 3
      requires free0[idx[0]] && free0[idx[1]] && free0[idx[2]]
      requires forall k: nat | k < NUM :: free[k] == (free0[k] && k !in idx)
      modifies this`desc, this`owner
      ensures r == Req(b, idx[1], idx[2], write, Queued) && idx[0] !in reqs
      ensures Chains(free, desc, owner, reqs[idx[0] := r])
    {
      hide Count, Chains;
      ChainsLength(free0, desc, owner, reqs);
      var h := idx[0];
      ghost var desc0, owner0 := desc, owner;
      desc := desc[h := Desc(Header(h), false, true, idx[1])];
      desc := desc[idx[1] := Desc(Data(b), !write, true, idx[2])];
      desc := desc[idx[2] := Desc(Status(h), true, false, 0)];
      r := Req(b, idx[1], idx[2], write, Queued);
      owner := owner[h := h][idx[1] := h][idx[2] := h];
      TakeChain(free0, desc0, owner0, reqs, idx, r, free, desc, owner);
    }

    /** Put the head of a new request into the avail ring. */
    method Post(h: nat, r: Req)
      requires Chains(free, desc, owner, reqs[h := r]) && Buffers(info, reqs[h := r], busy) && h !in reqs
      requires r.phase == Queued
      requires Rings() && |queue| <= 2 && (waiters != {} ==> Count(free) < 3)
      modifies this`availRing, this`availIdx, this`queue, this`reqs
      ensures Valid() && queue == old(queue) + [h] && reqs == old(reqs)[h := r]
    {
      hide Count, Chains, Lists, Ring, Buffers, Pos, Low;
      Slot(availBase + |queue|);
      RingLength(availRing, availBase, queue);
      RingPush(availRing, availBase, queue, h);
      availRing := availRing[Pos(availIdx) := h];
      NextIndex(availBase + |queue|);
      availIdx := Low(availIdx + 1);
      ListPush(queue, reqs, Queued, h, r);
      ListSkip(done, reqs, Completed, h, r);
      queue := queue + [h];
      reqs := reqs[h := r];
    }

    /** The device takes the oldest entry it has not taken from the avail ring. */
    method DeviceTake() returns (h: nat)
      requires Valid() && queue != []
      modifies this`reqs, this`queue, this`availBase, this`deviceIdx
      ensures Valid() && h == old(queue)[0] && queue == old(queue)[1..]
      ensures h in old(reqs) && reqs == old(reqs)[h := old(reqs)[h].(phase := AtDevice)]
    {
      hide Count, Chains, Lists, Buffers, Pos, Low;
      RingPop(availRing, availBase, queue);
      Slot(availBase);
      h := availRing[Pos(deviceIdx)];
      NextIndex(availBase);
      deviceIdx := Low(deviceIdx + 1);
      ListPop(queue, reqs, Queued, AtDevice);
      ListIn(queue, reqs, Queued);
      ListSkip(done, reqs, Completed, h, reqs[h].(phase := AtDevice));
      SetPhase(free, desc, owner, reqs, h, AtDevice);
      KeepBuffer(info, reqs, busy, h, AtDevice);
      reqs := reqs[h := reqs[h].(phase := AtDevice)];
      queue := queue[1..];
      availBase := availBase + 1;
    }

    /** The device finishes any request it has taken, in any order: it writes the status byte and
        puts the head into the used ring. */
    method DeviceDone(h: nat, status: nat)
      requires Valid() && h in reqs && reqs[h].phase == AtDevice
      modifies this`reqs, this`done, this`info, this`usedRing, this`usedHead
      ensures Valid() && done == old(done) + [h] && reqs == old(reqs)[h := old(reqs)[h].(phase := Completed)]
      ensures |info| == |old(info)| == NUM && h < NUM && info == old(info)[h := old(info)[h].(status := status)]
    {
      hide Count, Chains, Lists, Ring, Buffers, Pos, Low;
      InFlight();
      BuffersLength(info, reqs, busy);
      RingLength(usedRing, usedBase, done);
      CompleteBuffer(info, reqs, busy, h, status);
      info := info[h := info[h].(status := status)];
      Slot(usedBase + |done|);
      RingPush(usedRing, usedBase, done, h);
      usedRing := usedRing[Pos(usedHead) := h];
      NextIndex(usedBase + |done|);
      usedHead := Low(usedHead + 1);
      SetPhase(free, desc, owner, reqs, h, Completed);
      ListPush(done, reqs, Completed, h, reqs[h].(phase := Completed));
      ListSkip(queue, reqs, Queued, h, reqs[h].(phase := Completed));
      done := done + [h];
      reqs := reqs[h := reqs[h].(phase := Completed)];
    }

    /** One round of virtio_disk_intr: the oldest completion clears the buffer that submitted it. */
    method IntrOne() returns (ok: bool, b: nat)
      requires Valid() && usedIdx != usedHead
      modifies this`reqs, this`done, this`usedBase, this`usedIdx, this`busy
      ensures old(done) != [] && old(done)[0] in old(reqs) && old(done)[0] < |info|
      ensures ok == (info[old(done)[0]].status == 0) && b == old(reqs)[old(done)[0]].buf && Valid()
      ensures ok ==>
                && done == old(done)[1..] && busy == old(busy) - {b}
                && reqs == old(reqs)[old(done)[0] := old(reqs)[old(done)[0]].(phase := Done)]
      ensures !ok ==> done == old(done) && busy == old(busy) && reqs == old(reqs)
    {
      hide Count, Chains, Lists, Buffers, Pos, Low;
      SameIndex(usedBase, |done|);
      RingPop(usedRing, usedBase, done);
      Slot(usedBase);
      var id := usedRing[Pos(usedIdx)];
      ListPop(done, reqs, Completed, Done);
      ListIn(done, reqs, Completed);
      BuffersAt(info, reqs, busy, id);
      b := info[id].b;
      ok := info[id].status == 0;
      if !ok {
        return;
      }
      ListSkip(queue, reqs, Queued, id, reqs[id].(phase := Done));
      SetPhase(free, desc, owner, reqs, id, Done);
      DoneBuffer(info, reqs, busy, id);
      busy := busy - {b};
      NextIndex(usedBase);
      usedIdx := Low(usedIdx + 1);
      reqs := reqs[id := reqs[id].(phase := Done)];
      done := done[1..];
      usedBase := usedBase + 1;
    }

    /** virtio_disk_intr: every completion there is, and no other request, becomes Done. */
    method Intr() returns (ok: bool)
      requires Valid()
      modifies this`reqs, this`done, this`usedBase, this`usedIdx, this`busy
      ensures Valid() && |info| == NUM && reqs.Keys == old(reqs).Keys && (forall h | h in old(done) :: h < NUM)
      ensures ok <==> forall h | h in old(done) :: info[h].status == 0
      ensures ok ==> done == []
      ensures ok ==>
                forall h | h in reqs :: reqs[h] == if h in old(done) then old(reqs)[h].(phase := Done) else old(reqs)[h]
    {
      hide Valid;
      ghost var k := 0;
      DoneBelow();
      while usedIdx != usedHead
        invariant Valid() && k <= |old(done)| && done == old(done)[k..] && Finished(old(reqs), reqs, old(done)[..k])
        invariant forall h | h in old(done)[..k] :: h < |info| && info[h].status == 0
        decreases |done|
      {
        ghost var reqs1 := reqs;
        var b;
        ok, b := IntrOne();
        if !ok {
          assert old(done)[k] in old(done);
          return false;
        }
        assert old(done)[..k + 1] == old(done)[..k] + [old(done)[k]];
        OneMore(old(reqs), reqs1, reqs, old(done), k);
        k := k + 1;
      }
      Caught();
      assert old(done)[..k] == old(done);
      return true;
    }

    lemma DoneIn()
      requires Valid()
      ensures forall h | h in done :: h in reqs
    {
      hide Count, Chains, Ring, Pos, Low, Buffers;
    }

    lemma DoneBelow()
      requires Valid()
      ensures |info| == NUM && forall h | h in done :: h < NUM
    {
      hide Count, Chains, Ring, Pos, Low, Buffers;
      BuffersLength(info, reqs, busy);
      DoneIn();
    }

    lemma Caught()
      requires Valid() && usedIdx == usedHead
      ensures done == []
    {
      hide Count, Lists, Chains, Buffers;
      SameIndex(usedBase, |done|);
    }

    /** free_chain follows the three descriptors of a request; none of them is free already. */
    method FreeChain(h: nat)
      requires Chains(free, desc, owner, reqs) && h in reqs
      modifies this`free, this`desc, this`waiters
      ensures waiters == {} && |desc| == |free| == NUM
      ensures var r := reqs[h];
              && h < NUM && r.d1 < NUM && r.d2 < NUM && |old(free)| == NUM
              && free == old(free)[h := true][r.d1 := true][r.d2 := true]
              && forall k | 0 <= k < NUM && !Mine(h, r, k) :: desc[k] == old(desc)[k]
    {
      assert ChainOk(desc, owner, h, reqs[h]);
      ghost var r := reqs[h];
      var i := h;
      ghost var step := 0;
      while true
        invariant 0 <= step <= 2 && |desc| == |free| == NUM && i < NUM
        invariant step == 0 ==> i == h && free == old(free) && desc == old(desc)
        invariant step == 1 ==> i == r.d1 && free == old(free)[h := true] && desc == old(desc)[h := NODESC]
        invariant step == 2 ==>
                    i == r.d2 && free == old(free)[h := true][r.d1 := true] && desc == old(desc)[h := NODESC][r.d1 := NODESC]
        decreases 2 - step
      {
        var flag, nxt := desc[i].chained, desc[i].next;
        FreeDesc(i);
        if flag {
          i := nxt;
          step := step + 1;
        } else {
          break;
        }
      }
    }

    /** virtio_disk_rw after its request is done: the descriptors go back and waiters wake. */
    method Finish(h: nat)
      requires Valid() && h in reqs && reqs[h].buf !in busy
      modifies this`free, this`desc, this`waiters, this`info, this`owner, this`reqs
      ensures Valid() && reqs == old(reqs) - {h} && Count(free) == Count(old(free)) + 3 && waiters == {}
      ensures |info| == |old(info)| == NUM && forall x | 0 <= x < NUM :: info[x].status == old(info)[x].status
    {
      hide Count, Lists, Ring, Chains, Buffers, Mine;
      IsDone(info, reqs, busy, h);
      ghost var free0, desc0, owner0, r := free, desc, owner, reqs[h];
      ChainsLength(free, desc, owner, reqs);
      BuffersLength(info, reqs, busy);
      info := info[h := info[h].(b := -1)];
      FreeChain(h);
      owner := owner[h := NUM][r.d1 := NUM][r.d2 := NUM];
      GiveChain(free0, desc0, owner0, reqs, h, r, free, desc, owner);
      DropBuffer(old(info), reqs, busy, h, info);
      ListDrop(queue, reqs, Queued, h);
      ListDrop(done, reqs, Completed, h);
      reqs := reqs - {h};
    }
  }

  predicate Distinct(s: seq<nat>) {
    forall i, j | 0 <= i < j < |s| :: s[i] != s[j]
  }

  predicate Three(idx: seq<nat>) {
    |idx| == 3 && idx[0] < NUM && idx[1] < NUM && idx[2] < NUM && idx[0] != idx[1] && idx[0] != idx[2] && idx[1] != idx[2]
  }

  lemma {:induction false} CountAll(free: seq<bool>)
    requires forall i | 0 <= i < |free| :: free[i]
    ensures Count(free) == |free|
  {
    if free != [] {
      CountAll(free[..|free| - 1]);
    }
  }

  lemma Together(queue: seq<nat>, done: seq<nat>, reqs: map<nat, Req>)
    requires Lists(queue, reqs, Queued) && Lists(done, reqs, Completed)
    ensures |queue| + |done| <= |reqs|
  {
    var all := queue + done;
    forall k | 0 <= k < |all| ensures all[k] in reqs.Keys {
    }
    forall j, k | 0 <= j < k < |all| ensures all[j] != all[k] {
    }
    ListShort(all, reqs.Keys);
    assert |reqs.Keys| == |reqs|;
  }

  lemma ChainsLength(free: seq<bool>, desc: seq<Desc>, owner: seq<nat>, reqs: map<nat, Req>)
    requires Chains(free, desc, owner, reqs)
    ensures |free| == |desc| == |owner| == NUM
  {
  }

  lemma RingLength(ring: seq<nat>, base: nat, list: seq<nat>)
    requires Ring(ring, base, list)
    ensures |ring| == NUM
  {
  }

  lemma SameChains(free: seq<bool>, desc: seq<Desc>, owner: seq<nat>, reqs: map<nat, Req>, desc': seq<Desc>)
    requires Chains(free, desc, owner, reqs) && |desc'| == NUM
    requires forall k | 0 <= k < NUM && !free[k] :: desc'[k] == desc[k]
    ensures Chains(free, desc', owner, reqs)
  {
    hide Count;
    forall x | x in reqs ensures ChainOk(desc', owner, x, reqs[x]) {
      assert ChainOk(desc, owner, x, reqs[x]);
    }
  }

  lemma TakeChain(free: seq<bool>, desc: seq<Desc>, owner: seq<nat>, reqs: map<nat, Req>, idx: seq<nat>, r: Req,
                  free': seq<bool>, desc': seq<Desc>, owner': seq<nat>)
    requires Chains(free, desc, owner, reqs) && Three(idx) && |free'| == NUM && Count(free') == Count(free) - 3
    requires |free| == |desc| == |owner| == NUM
    requires free[idx[0]] && free[idx[1]] && free[idx[2]] && r.d1 == idx[1] && r.d2 == idx[2]
    requires forall k: nat | k < NUM :: free'[k] == (free[k] && k !in idx)
    requires desc' == desc[idx[0] := Desc(Header(idx[0]), false, true, idx[1])][idx[1] := Desc(Data(r.buf), !r.write, true, idx[2])]
                          [idx[2] := Desc(Status(idx[0]), true, false, 0)]
    requires owner' == owner[idx[0] := idx[0]][idx[1] := idx[0]][idx[2] := idx[0]]
    ensures idx[0] !in reqs && Chains(free', desc', owner', reqs[idx[0] := r])
  {
    hide Count, Chains;
    assert idx == [idx[0], idx[1], idx[2]];
    assert forall k: nat | k < NUM :: k in idx <==> Mine(idx[0], r, k);
    Update3(desc, idx[0], idx[1], idx[2], Desc(Header(idx[0]), false, true, idx[1]),
            Desc(Data(r.buf), !r.write, true, idx[2]), Desc(Status(idx[0]), true, false, 0));
    Update3(owner, idx[0], idx[1], idx[2], idx[0], idx[0], idx[0]);
    AddChain(free, desc, owner, reqs, idx[0], r, free', desc', owner');
  }

  lemma Update3<T>(s: seq<T>, a: nat, b: nat, c: nat, x: T, y: T, z: T)
    requires a < |s| && b < |s| && c < |s| && a != b && a != c && b != c
    ensures var t := s[a := x][b := y][c := z];
            |t| == |s| && t[a] == x && t[b] == y && t[c] == z && forall i | 0 <= i < |s| && i != a && i != b && i != c :: t[i] == s[i]
  {
  }

  lemma GiveChain(free: seq<bool>, desc: seq<Desc>, owner: seq<nat>, reqs: map<nat, Req>, h: nat, r: Req,
                  free': seq<bool>, desc': seq<Desc>, owner': seq<nat>)
    requires Chains(free, desc, owner, reqs) && h in reqs && r == reqs[h]
    requires |free| == |owner| == |desc'| == |free'| == NUM
    requires h < NUM && r.d1 < NUM && r.d2 < NUM && free' == free[h := true][r.d1 := true][r.d2 := true]
    requires owner' == owner[h := NUM][r.d1 := NUM][r.d2 := NUM]
    requires |desc| == NUM && forall k | 0 <= k < NUM && !Mine(h, r, k) :: desc'[k] == desc[k]
    ensures Chains(free', desc', owner', reqs - {h}) && Count(free') == Count(free) + 3
  {
    hide Count, Chains, Mine;
    InUse(free, desc, owner, reqs, h);
    assert forall k | 0 <= k < NUM :: Mine(h, r, k) <==> k == h || k == r.d1 || k == r.d2 by { MineIs(h, r); }
    CountThree(free, h, r.d1, r.d2, true);
    Update3(free, h, r.d1, r.d2, true, true, true);
    Update3(owner, h, r.d1, r.d2, NUM, NUM, NUM);
    DropChain(free, desc, owner, reqs, h, r, free', desc', owner');
  }

  lemma InUse(free: seq<bool>, desc: seq<Desc>, owner: seq<nat>, reqs: map<nat, Req>, h: nat)
    requires Chains(free, desc, owner, reqs) && h in reqs
    ensures var r := reqs[h];
            && h < NUM && r.d1 < NUM && r.d2 < NUM && h != r.d1 && h != r.d2 && r.d1 != r.d2
            && |free| == NUM && !free[h] && !free[r.d1] && !free[r.d2]
  {
    hide Count;
    assert ChainOk(desc, owner, h, reqs[h]);
  }

  lemma BuffersLength(info: seq<Info>, reqs: map<nat, Req>, busy: set<nat>)
    requires Buffers(info, reqs, busy)
    ensures |info| == NUM && forall h | h in reqs :: h < NUM
  {
  }

  lemma BuffersAt(info: seq<Info>, reqs: map<nat, Req>, busy: set<nat>, h: nat)
    requires Buffers(info, reqs, busy) && h in reqs
    ensures |info| == NUM && h < NUM && info[h].b == reqs[h].buf
  {
  }

  lemma AddBuffer(info: seq<Info>, reqs: map<nat, Req>, busy: set<nat>, h: nat, r: Req)
    requires Buffers(info, reqs, busy) && h < NUM && h !in reqs && r.phase == Queued
    requires forall x | x in reqs :: reqs[x].buf != r.buf
    ensures |info| == NUM && Buffers(info[h := Info(r.buf, 0xff)], reqs[h := r], busy + {r.buf})
  {
    var reqs' := reqs[h := r];
    forall b | b in busy + {r.buf} ensures exists x :: x in reqs' && reqs'[x].buf == b {
      if b == r.buf {
        assert reqs'[h].buf == b;
      } else {
        var x :| x in reqs && reqs[x].buf == b;
        assert reqs'[x].buf == b;
      }
    }
  }

  lemma KeepBuffer(info: seq<Info>, reqs: map<nat, Req>, busy: set<nat>, h: nat, p: Phase)
    requires Buffers(info, reqs, busy) && h in reqs && reqs[h].phase != Done && p == AtDevice
    ensures Buffers(info, reqs[h := reqs[h].(phase := p)], busy)
  {
    var reqs' := reqs[h := reqs[h].(phase := p)];
    forall b | b in busy ensures exists x :: x in reqs' && reqs'[x].buf == b {
      var x :| x in reqs && reqs[x].buf == b;
      assert reqs'[x].buf == b;
    }
  }

  lemma CompleteBuffer(info: seq<Info>, reqs: map<nat, Req>, busy: set<nat>, h: nat, status: nat)
    requires Buffers(info, reqs, busy) && h in reqs && reqs[h].phase == AtDevice
    ensures |info| == NUM && h < NUM
    ensures Buffers(info[h := info[h].(status := status)], reqs[h := reqs[h].(phase := Completed)], busy)
  {
    var reqs' := reqs[h := reqs[h].(phase := Completed)];
    forall b | b in busy ensures exists x :: x in reqs' && reqs'[x].buf == b {
      var x :| x in reqs && reqs[x].buf == b;
      assert reqs'[x].buf == b;
    }
  }

  lemma DoneBuffer(info: seq<Info>, reqs: map<nat, Req>, busy: set<nat>, h: nat)
    requires Buffers(info, reqs, busy) && h in reqs && reqs[h].phase == Completed
    ensures Buffers(info, reqs[h := reqs[h].(phase := Done)], busy - {reqs[h].buf})
  {
    var reqs' := reqs[h := reqs[h].(phase := Done)];
    forall b | b in busy - {reqs[h].buf} ensures exists x :: x in reqs' && reqs'[x].buf == b {
      var x :| x in reqs && reqs[x].buf == b;
      assert reqs'[x].buf == b;
    }
  }

  lemma DropBuffer(info: seq<Info>, reqs: map<nat, Req>, busy: set<nat>, h: nat, info': seq<Info>)
    requires Buffers(info, reqs, busy) && h in reqs && reqs[h].phase == Done
    requires |info'| == NUM && forall i | 0 <= i < NUM && i != h :: info'[i] == info[i]
    ensures Buffers(info', reqs - {h}, busy)
  {
    var reqs' := reqs - {h};
    forall b | b in busy ensures exists x :: x in reqs' && reqs'[x].buf == b {
      var x :| x in reqs && reqs[x].buf == b;
      assert x != h;
      assert reqs'[x].buf == b;
    }
  }

  lemma ListIn(list: seq<nat>, reqs: map<nat, Req>, p: Phase)
    requires Lists(list, reqs, p) && list != []
    ensures list[0] in reqs && reqs[list[0]].phase == p
  {
  }

  lemma ListDrop(list: seq<nat>, reqs: map<nat, Req>, p: Phase, h: nat)
    requires Lists(list, reqs, p) && h in reqs && reqs[h].phase != p
    ensures Lists(list, reqs - {h}, p)
  {
  }

  /** The requests in list are done, the others as before. */
  ghost predicate Finished(reqs0: map<nat, Req>, reqs: map<nat, Req>, list: seq<nat>) {
    reqs.Keys == reqs0.Keys && forall h | h in reqs :: reqs[h] == if h in list then reqs0[h].(phase := Done) else reqs0[h]
  }

  lemma OneMore(reqs0: map<nat, Req>, reqs1: map<nat, Req>, reqs2: map<nat, Req>, done: seq<nat>, k: nat)
    requires k < |done| && Finished(reqs0, reqs1, done[..k]) && done[k] in reqs1
    requires reqs2 == reqs1[done[k] := reqs1[done[k]].(phase := Done)]
    ensures Finished(reqs0, reqs2, done[..k + 1]) && done[k..][1..] == done[k + 1..]
  {
    assert done[..k + 1] == done[..k] + [done[k]];
  }

  lemma IsDone(info: seq<Info>, reqs: map<nat, Req>, busy: set<nat>, h: nat)
    requires Buffers(info, reqs, busy) && h in reqs && reqs[h].buf !in busy
    ensures reqs[h].phase == Done
  {
  }

  lemma NoRequests(free: seq<bool>, desc: seq<Desc>, owner: seq<nat>, info: seq<Info>, ring: seq<nat>, ring': seq<nat>)
    requires |free| == |desc| == |owner| == |info| == |ring| == |ring'| == NUM
    requires forall i | 0 <= i < NUM :: free[i] && owner[i] == NUM
    ensures Chains(free, desc, owner, map[]) && Buffers(info, map[], {}) && Ring(ring, 0, []) && Ring(ring', 0, [])
    ensures Lists([], map[], Queued) && Lists([], map[], Completed)
  {
    CountAll(free);
    hide Count;
  }

  lemma LowZero()
    ensures Low(0) == 0
  {
  }

  lemma ThreeBound(idx: seq<nat>)
    requires Three(idx)
    ensures |idx| == 3 && idx[0] < NUM
  {
  }

  lemma MineIs(h: nat, r: Req)
    ensures forall k :: Mine(h, r, k) <==> k == h || k == r.d1 || k == r.d2
  {
  }

  /** What the driver or the device does next. */
  datatype Op =
    | DoSubmit(me: nat, b: nat, write: bool)
    | DoTake
    | DoDone(h: nat, status: nat)
    | DoIntr                 // one round of the interrupt handler's loop
    | DoFinish(h: nat)

  /** Any interleaving of processes, device and interrupt handler, in which the device may finish requests
      between two rounds of the handler's loop: never more than NUM/3 requests are in flight, and only a
      status other than 0 makes the handler panic. */
  method Interleave(d: Disk, ops: seq<Op>) returns (panics: bool)
    requires d.Valid() && AllGood(d.done, d.info)
    modifies d
    ensures d.Valid() && |d.reqs| <= NUM / 3 && |d.queue| + |d.done| <= |d.reqs|
    ensures panics ==> Errs(ops, |ops|)
  {
    hide Count, Chains, Lists, Ring, Buffers, Pos, Low, Joins;
    panics := false;
    var n := 0;
    while n < |ops| && !panics
      invariant 0 <= n <= |ops| && d.Valid()
      invariant AllGood(d.done, d.info) || Errs(ops, n)
      invariant panics ==> Errs(ops, n)
    {
      d.DoneBelow();
      panics := Step(d, ops[n]);
      assert ops[n].DoDone? && ops[n].status != 0 ==> Errs(ops, n + 1);
      assert Errs(ops, n) ==> Errs(ops, n + 1);
      n := n + 1;
    }
    assert Errs(ops, n) ==> Errs(ops, |ops|);
    d.InFlight();
  }

  /** me joins the waiters; descriptors taken and put back woke those before it. */
  ghost predicate Joins(free: seq<bool>, before: set<nat>, after: set<nat>, me: nat) {
    after == (if Count(free) == 0 then before else {}) + {me}
  }

  /** The device reported an error in one of the first n operations. */
  ghost predicate Errs(ops: seq<Op>, n: nat) {
    exists k :: 0 <= k < n && k < |ops| && ops[k].DoDone? && ops[k].status != 0
  }

  /** Every completion that the driver has not seen is a success. */
  ghost predicate AllGood(done: seq<nat>, info: seq<Info>) {
    forall h | h in done :: h < |info| && info[h].status == 0
  }

  method Step(d: Disk, op: Op) returns (panics: bool)
    requires d.Valid()
    modifies d
    ensures d.Valid() && (old(AllGood(d.done, d.info)) ==> !panics)
    ensures old(AllGood(d.done, d.info)) && !(op.DoDone? && op.status != 0) ==> AllGood(d.done, d.info)
  {
    hide Count, Chains, Lists, Ring, Buffers, Pos, Low, Joins;
    panics := false;
    d.DoneBelow();
    d.DoneIn();
    match op {
    case DoSubmit(me, b, write) =>
      if b !in set h | h in d.reqs :: d.reqs[h].buf {
        var slept, h := d.Submit(me, b, write);
      }
    case DoTake =>
      if d.queue != [] {
        var h := d.DeviceTake();
      }
    case DoDone(h, status) =>
      if h in d.reqs && d.reqs[h].phase == AtDevice {
        d.DeviceDone(h, status);
      }
    case DoIntr =>
      if d.usedIdx != d.usedHead {
        var ok, b := d.IntrOne();
        panics := !ok;
        assert old(d.done)[0] in old(d.done);
      }
    case DoFinish(h) =>
      if h in d.reqs && d.reqs[h].buf !in d.busy {
        d.Finish(h);
      }
    }
  }
}
