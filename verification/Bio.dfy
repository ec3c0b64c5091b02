/** The buffer cache of kernel/bio.c. Each method is one region under bcache.lock or one step by
    the holder of a buffer's sleep-lock, so that any interleaving is a sequence of calls. */
module Bio {
  import opened Prelude
  import opened Blocks

  const NBUF: nat := 30

  type Pid = nat

  /** A device and block number. Buffers start as block 0 of device 0. */
  datatype Key = Key(dev: nat, blockno: nat)

  /** struct buf without its list pointers; `holder` holds the sleep-lock. */
  datatype Buf = Buf(key: Key, valid: bool, refcnt: nat, holder: Option<Pid>, data: Block)

  /** A pointer that bget has returned, or will return, to pid for block key. */
  datatype Use = Use(pid: Pid, key: Key)

  // ---- the circular list ----

  /** Position j of the ring: the head, then the buffers from most to least recently used. */
  function At(order: seq<nat>, j: nat): nat
    requires j <= |order| + 1
  {
    if j == 0 || j == |order| + 1 then NBUF else order[j - 1]
  }

  ghost predicate Distinct(order: seq<nat>) {
    && (forall j | 0 <= j < |order| :: order[j] < NBUF)
    && (forall j, k | 0 <= j < k < |order| :: order[j] != order[k])
  }

  ghost predicate Linked(next: seq<nat>, prev: seq<nat>, order: seq<nat>) {
    && |next| == |prev| == NBUF + 1 && Distinct(order)
    && (forall x | 0 <= x <= NBUF :: next[x] <= NBUF && prev[x] <= NBUF)
    && (forall j: nat {:trigger Step(next, prev, order, j)} | j <= |order| :: Step(next, prev, order, j))
  }

  /** The j-th node of the ring and the one after it lead to each other. */
  ghost predicate Step(next: seq<nat>, prev: seq<nat>, order: seq<nat>, j: nat)
    requires j <= |order|
  {
    && At(order, j) < |next| && At(order, j + 1) < |prev|
    && next[At(order, j)] == At(order, j + 1) && prev[At(order, j + 1)] == At(order, j)
  }

  function Remove(order: seq<nat>, p: nat): seq<nat>
    requires p < |order|
  {
    order[..p] + order[p + 1..]
  }

  /** b->next->prev = b->prev; b->prev->next = b->next. */
  lemma Unlink(next: seq<nat>, prev: seq<nat>, order: seq<nat>, p: nat)
    requires Linked(next, prev, order) && p < |order|
    ensures var b := order[p];
            Linked(next[prev[b] := next[b]], prev[next[b] := prev[b]], Remove(order, p))
  {
    var b, o' := order[p], Remove(order, p);
    assert At(order, p + 1) == b;
    assert Step(next, prev, order, p) && Step(next, prev, order, p + 1);
    assert next[b] == At(order, p + 2) && prev[b] == At(order, p);
    var next', prev' := next[prev[b] := next[b]], prev[next[b] := prev[b]];
    forall j: nat | j <= |o'| ensures Step(next', prev', o', j) {
      hide At;
      RemoveAt(order, p, j);
      RemoveAt(order, p, j + 1);
      var j' := if j <= p then j else j + 1;
      assert Step(next, prev, order, j');
      AtDistinct(order, j', p);
      AtDistinctUp(order, if j + 1 <= p then j + 1 else j + 2, p + 2);
    }
  }

  lemma AtDistinct(order: seq<nat>, a: nat, b: nat)
    requires Distinct(order) && a <= |order| && b <= |order|
    ensures At(order, a) == At(order, b) ==> a == b
    ensures At(order, a) <= NBUF
  {
  }

  lemma AtDistinctUp(order: seq<nat>, a: nat, b: nat)
    requires Distinct(order) && 1 <= a <= |order| + 1 && 1 <= b <= |order| + 1
    ensures At(order, a) == At(order, b) ==> a == b
    ensures At(order, a) <= NBUF
  {
  }

  lemma RemoveAt(order: seq<nat>, p: nat, j: nat)
    requires p < |order| && j <= |order|
    ensures At(Remove(order, p), j) == if j <= p then At(order, j) else At(order, j + 1)
  {
  }

  /** Linking b, which is in no list, right after the head. */
  lemma PushFront(next: seq<nat>, prev: seq<nat>, order: seq<nat>, b: nat)
    requires Linked(next, prev, order) && b < NBUF && b !in order
    ensures Linked(next[b := next[NBUF]][NBUF := b], prev[b := NBUF][next[NBUF] := b], [b] + order)
  {
    var o' := [b] + order;
    var next', prev' := next[b := next[NBUF]][NBUF := b], prev[b := NBUF][next[NBUF] := b];
    assert Step(next, prev, order, 0);
    forall j: nat | j <= |o'| ensures Step(next', prev', o', j) {
      if j >= 2 {
        assert Step(next, prev, order, j - 1);
        AtDistinctUp(order, j, 1);
      }
    }
  }

  // ---- contents ----

  /** The reference counts: one for each use and one for a pin. */
  ghost predicate Counted(bufs: seq<Buf>, uses: seq<multiset<Use>>, pins: map<Key, nat>) {
    && |bufs| == |uses| == NBUF
    && (forall i | 0 <= i < NBUF ::
          bufs[i].refcnt == |uses[i]| + (if bufs[i].key in pins && pins[bufs[i].key] == i then 1 else 0))
    && (forall i, u | 0 <= i < NBUF && u in uses[i] :: u.key == bufs[i].key)
    && (forall i | 0 <= i < NBUF && bufs[i].holder.Some? :: Use(bufs[i].holder.value, bufs[i].key) in uses[i])
    && (forall k | k in pins :: pins[k] < NBUF && bufs[pins[k]].key == k && bufs[pins[k]].valid)
  }

  /** At most one buffer holds a given block of a device other than 0. */
  ghost predicate Unique(bufs: seq<Buf>) {
    forall i, j | 0 <= i < j < |bufs| && bufs[i].key == bufs[j].key :: bufs[i].key.dev == 0
  }

  /** `last` is the block map the cache stands for: what was last logged or written for each
      block. A valid buffer agrees with it unless its holder has changed it since, and so does the
      disk but for pinned blocks. */
  ghost predicate Agrees(bufs: seq<Buf>, disk: map<Key, Block>, last: map<Key, Block>, pins: map<Key, nat>,
                         dirty: set<nat>)
  {
    && disk.Keys == last.Keys
    && (forall k | k in pins :: k in last && k.dev != 0)
    && (forall i | 0 <= i < |bufs| && bufs[i].key.dev != 0 && bufs[i].valid && i !in dirty ::
          bufs[i].key in last && bufs[i].data == last[bufs[i].key])
    && (forall i | i in dirty :: i < |bufs| && bufs[i].holder.Some? && bufs[i].valid)
    && (forall k | k in disk && k !in pins :: disk[k] == last[k])
  }

  ghost predicate CacheInv(bufs: seq<Buf>, uses: seq<multiset<Use>>, disk: map<Key, Block>, last: map<Key, Block>,
                           pins: map<Key, nat>, dirty: set<nat>)
  {
    Counted(bufs, uses, pins) && Unique(bufs) && Agrees(bufs, disk, last, pins, dirty)
  }

  class BCache {
    var next: seq<nat>
    var prev: seq<nat>
    var bufs: seq<Buf>
    var disk: map<Key, Block>
    ghost var order: seq<nat>
    ghost var uses: seq<multiset<Use>>
    ghost var last: map<Key, Block>
    var pins: map<Key, nat>      // log.lh: the blocks logged and not yet installed, with their buffers
    ghost var dirty: set<nat>
    ghost var clock: nat
    ghost var released: seq<nat> // when brelse last brought the count of a buffer to 0

    ghost predicate Valid()
      reads this
    {
      && Linked(next, prev, order) && |order| == |bufs| == |uses| == NBUF
      && CacheInv(bufs, uses, disk, last, pins, dirty) && Recent(order, released, clock)
    }

    /** Zeroed static storage, then binit. */
    constructor (disk: map<Key, Block>, zero: Block)
      ensures Valid() && this.disk == disk == last && pins == map[]
      ensures forall i | 0 <= i < NBUF :: uses[i] == multiset{} && !bufs[i].valid
    {
      this.disk, this.last, this.pins, this.dirty := disk, disk, map[], {};
      bufs := seq(NBUF, _ => Buf(Key(0, 0), false, 0, None, zero));
      uses := seq(NBUF, _ => multiset{});
      next := seq(NBUF + 1, _ => 0);
      prev := seq(NBUF + 1, _ => 0);
      order := [];
      clock, released := 0, seq(NBUF, _ => 0);
      new;
      Binit();
    }

    /** binit: link in every buffer. */
    method Binit()
      requires |next| == |prev| == NBUF + 1 && forall x | 0 <= x <= NBUF :: next[x] <= NBUF && prev[x] <= NBUF
      modifies this`next, this`prev, this`order
      ensures Linked(next, prev, order) && |order| == NBUF
    {
      prev := prev[NBUF := NBUF];
      next := next[NBUF := NBUF];
      order := [];
      var b := 0;
      while b < NBUF
        invariant 0 <= b <= NBUF && Linked(next, prev, order) && |order| == b
        invariant forall j | 0 <= j < |order| :: order[j] < b
      {
        PushFront(next, prev, order, b);
        order := [b] + order;
        hide At;
        LinkFront(b);
        b := b + 1;
      }
    }

    /** b->next = head.next; b->prev = &head; head.next->prev = b; head.next = b. */
    method LinkFront(b: nat)
      requires |next| == |prev| == NBUF + 1 && b < NBUF && next[NBUF] <= NBUF
      modifies this`next, this`prev
      ensures next == old(next)[b := old(next)[NBUF]][NBUF := b]
      ensures prev == old(prev)[b := NBUF][old(next)[NBUF] := b]
    {
      next := next[b := next[NBUF]];
      prev := prev[b := NBUF];
      prev := prev[next[NBUF] := b];
      next := next[NBUF := b];
    }

    /** The scan of the list from the most recent buffer for the block. */
    method Lookup(k: Key) returns (i: nat)
      requires Linked(next, prev, order) && |order| == NBUF == |bufs|
      ensures i < NBUF ==> bufs[i].key == k
      ensures i >= NBUF ==> forall x | 0 <= x < NBUF :: bufs[x].key != k
    {
      ghost var p := 1;
      i := next[NBUF];
      assert Step(next, prev, order, 0);
      while i != NBUF
        invariant 1 <= p <= NBUF + 1 && i == At(order, p)
        invariant forall j | 0 <= j < p - 1 :: bufs[order[j]].key != k
        decreases NBUF + 1 - p
      {
        assert i == order[p - 1];
        if bufs[i].key == k {
          return;
        }
        assert Step(next, prev, order, p);
        i := next[i];
        p := p + 1;
      }
      assert p == NBUF + 1;
      forall x | 0 <= x < NBUF ensures bufs[x].key != k {
        Onto(order, x);
      }
    }

    /** The scan from the least recent buffer for one that nobody uses. */
    method Victim() returns (i: nat)
      requires Linked(next, prev, order) && |order| == NBUF == |bufs|
      ensures i < NBUF ==> bufs[i].refcnt == 0
      ensures i < NBUF ==>
                exists p :: 0 <= p < NBUF && order[p] == i && forall j | p < j < NBUF :: bufs[order[j]].refcnt != 0
      ensures i >= NBUF ==> forall x | 0 <= x < NBUF :: bufs[x].refcnt != 0
    {
      ghost var p := NBUF;
      i := prev[NBUF];
      assert Step(next, prev, order, NBUF);
      while i != NBUF
        invariant 0 <= p <= NBUF && i == At(order, p)
        invariant forall j | p <= j < NBUF :: bufs[order[j]].refcnt != 0
        decreases p
      {
        assert i == order[p - 1];
        if bufs[i].refcnt == 0 {
          return;
        }
        assert Step(next, prev, order, p - 1);
        i := prev[i];
        p := p - 1;
      }
      assert p == 0;
      forall x | 0 <= x < NBUF ensures bufs[x].refcnt != 0 {
        Onto(order, x);
      }
    }

    /** bget for pid t, up to the wait for the buffer's lock: NBUF if every buffer is in use. */
    method Bget(t: Pid, k: Key) returns (i: nat)
      requires Valid() && k.dev != 0 && k in disk
      modifies this`bufs, this`uses
      ensures Valid() && (i >= NBUF <==> forall x | 0 <= x < NBUF :: old(bufs)[x].key != k && old(bufs)[x].refcnt != 0)
      ensures i >= NBUF ==> bufs == old(bufs) && uses == old(uses)
      ensures i < NBUF ==> bufs[i].key == k && uses == old(uses)[i := old(uses)[i] + multiset{Use(t, k)}]
      ensures i < NBUF ==> forall x | 0 <= x < NBUF && x != i :: bufs[x] == old(bufs)[x]
      ensures i < NBUF && old(bufs)[i].key != k ==> !bufs[i].valid && old(bufs)[i].refcnt == 0
      ensures i < NBUF && old(bufs)[i].key == k ==> bufs[i] == old(bufs)[i].(refcnt := old(bufs)[i].refcnt + 1)
      ensures i < NBUF && old(bufs)[i].key != k ==>
                && (exists p :: 0 <= p < NBUF && order[p] == i &&
                      forall j | p < j < NBUF :: old(bufs)[order[j]].refcnt != 0)
                && (forall x | 0 <= x < NBUF && old(bufs)[x].refcnt == 0 :: released[i] <= released[x])
    {
      hide Linked, CacheInv, Recent;
      i := Lookup(k);
      if i < NBUF {
        UseFound(bufs, uses, disk, last, pins, dirty, i, Use(t, k));
        bufs := bufs[i := bufs[i].(refcnt := bufs[i].refcnt + 1)];
        uses := uses[i := uses[i] + multiset{Use(t, k)}];
        return;
      }
      i := Victim();
      if i < NBUF {
        LeastRecent(next, prev, order, released, clock, bufs, i);
        UseVictim(bufs, uses, disk, last, pins, dirty, i, Use(t, k));
        bufs := bufs[i := bufs[i].(key := k, valid := false, refcnt := 1)];
        uses := uses[i := uses[i] + multiset{Use(t, k)}];
      }
    }

    /** One try of acquiresleep on a buffer that t has got from bget. */
    method AcquireSleep(t: Pid, i: nat) returns (ok: bool)
      requires Valid() && i < NBUF && Use(t, bufs[i].key) in uses[i]
      modifies this`bufs
      ensures Valid() && ok == old(bufs)[i].holder.None? && (ok ==> i !in dirty)
      ensures bufs == if ok then old(bufs)[i := old(bufs)[i].(holder := Some(t))] else old(bufs)
    {
      ok := bufs[i].holder.None?;
      if ok {
        Acquire(bufs, uses, disk, last, pins, dirty, i, t);
        hide CacheInv;
        bufs := bufs[i := bufs[i].(holder := Some(t))];
      }
    }

    /** The rest of bread, by a new holder: whatever ran in between, the buffer still is that of the
        block asked for, and its contents are the last ones logged or written for it. */
    method Bread(t: Pid, i: nat, k: Key)
      requires Valid() && i < NBUF && Use(t, k) in uses[i] && bufs[i].holder == Some(t) && k.dev != 0 && k in disk
      requires i !in dirty
      modifies this`bufs
      ensures Valid() && bufs == old(bufs)[i := bufs[i]] && bufs[i].key == k && bufs[i].valid
      ensures k in last && bufs[i].data == last[k] && bufs[i].holder == Some(t)
    {
      assert bufs[i].key == k;
      if !bufs[i].valid {
        Fill(bufs, uses, disk, last, pins, dirty, i, disk[k]);
        hide CacheInv, Linked;
        bufs := bufs[i := bufs[i].(data := disk[k], valid := true)];
      } else {
        assert bufs == bufs[i := bufs[i]];
      }
    }

    /** The holder changes the data. */
    method Modify(t: Pid, i: nat, v: Block)
      requires Valid() && i < NBUF && bufs[i].holder == Some(t) && bufs[i].valid
      modifies this`bufs, this`dirty
      ensures Valid() && bufs == old(bufs)[i := old(bufs)[i].(data := v)] && dirty == old(dirty) + {i}
    {
      Change(bufs, uses, disk, last, pins, dirty, i, v);
      hide CacheInv, Linked;
      bufs := bufs[i := bufs[i].(data := v)];
      dirty := dirty + {i};
    }

    /** log_write by the holder: the block map now has the data, and the buffer is pinned if it
        was not. */
    method LogWrite(t: Pid, i: nat)
      requires Valid() && i < NBUF && bufs[i].holder == Some(t) && bufs[i].valid && bufs[i].key.dev != 0
      requires bufs[i].key in disk
      modifies this`bufs, this`last, this`pins, this`dirty
      ensures Valid() && last == old(last)[bufs[i].key := bufs[i].data] && dirty == old(dirty) - {i}
      ensures pins == old(pins)[bufs[i].key := i]
      ensures bufs == if old(bufs)[i].key in old(pins) then old(bufs)
                      else old(bufs)[i := old(bufs)[i].(refcnt := old(bufs)[i].refcnt + 1)]
    {
      hide CacheInv, Linked;
      SamePin(bufs, uses, disk, last, pins, dirty, i);
      var k := bufs[i].key;
      ghost var v := bufs[i].data;
      // bpin, if the block is new to the list
      var bufs' := if k in pins then bufs else bufs[i := bufs[i].(refcnt := bufs[i].refcnt + 1)];
      Log(bufs, uses, disk, last, pins, dirty, i, bufs');
      assert bufs'[i].key == k && bufs'[i].data == v;
      bufs, pins := bufs', pins[k := i];
      last := last[k := v];
      dirty := dirty - {i};
    }

    /** bwrite by the holder. */
    method Bwrite(t: Pid, i: nat)
      requires Valid() && i < NBUF && bufs[i].holder == Some(t) && bufs[i].valid && bufs[i].key.dev != 0
      requires bufs[i].key in disk
      modifies this`disk, this`last, this`dirty
      ensures Valid() && disk == old(disk)[bufs[i].key := bufs[i].data]
      ensures last == old(last)[bufs[i].key := bufs[i].data]
      ensures dirty == old(dirty) - {i}
    {
      hide CacheInv, Linked;
      Write(bufs, uses, disk, last, pins, dirty, i);
      disk := disk[bufs[i].key := bufs[i].data];
      last := last[bufs[i].key := bufs[i].data];
      dirty := dirty - {i};
    }

    /** bunpin by install_trans, which has just written the block home. */
    method Bunpin(i: nat)
      requires Valid() && i < NBUF && bufs[i].key in pins && pins[bufs[i].key] == i
      requires disk[bufs[i].key] == last[bufs[i].key]
      modifies this`bufs, this`pins
      ensures Valid() && bufs == old(bufs)[i := old(bufs)[i].(refcnt := old(bufs)[i].refcnt - 1)]
      ensures pins == old(pins) - {bufs[i].key}
    {
      hide CacheInv, Linked;
      Unpin(bufs, uses, disk, last, pins, dirty, i);
      bufs := bufs[i := bufs[i].(refcnt := bufs[i].refcnt - 1)];
      pins := pins - {bufs[i].key};
    }

    /** brelse, first half. Every change must have been logged or written. */
    method ReleaseSleep(t: Pid, i: nat)
      requires Valid() && i < NBUF && bufs[i].holder == Some(t) && i !in dirty
      modifies this`bufs
      ensures Valid() && bufs == old(bufs)[i := old(bufs)[i].(holder := None)]
    {
      hide CacheInv, Linked;
      Release(bufs, uses, disk, last, pins, dirty, i);
      bufs := bufs[i := bufs[i].(holder := None)];
    }

    /** brelse, second half: t gives up its pointer, and a buffer no longer used becomes the most
        recently used. */
    method DropRef(t: Pid, i: nat)
      requires Valid() && i < NBUF && Use(t, bufs[i].key) in uses[i]
      requires bufs[i].holder == Some(t) ==> uses[i][Use(t, bufs[i].key)] > 1
      modifies this`bufs, this`uses, this`next, this`prev, this`order, this`clock, this`released
      ensures Valid() && bufs == old(bufs)[i := old(bufs)[i].(refcnt := old(bufs)[i].refcnt - 1)]
      ensures uses == old(uses)[i := old(uses)[i] - multiset{Use(t, bufs[i].key)}]
      ensures bufs[i].refcnt > 0 ==> order == old(order)
      ensures bufs[i].refcnt == 0 ==>
                exists p :: 0 <= p < NBUF && old(order)[p] == i && order == [i] + Remove(old(order), p)
      ensures bufs[i].refcnt > 0 ==> released == old(released)
      ensures bufs[i].refcnt == 0 ==>
                released == old(released)[i := clock] && forall x | 0 <= x < NBUF && x != i :: released[x] < clock
    {
      hide CacheInv, Linked, Recent;
      Drop(bufs, uses, disk, last, pins, dirty, i, t);
      ghost var u := Use(t, bufs[i].key);
      bufs := bufs[i := bufs[i].(refcnt := bufs[i].refcnt - 1)];
      uses := uses[i := uses[i] - multiset{u}];
      if bufs[i].refcnt == 0 {
        MoveToFront(i);
        MoveRecent(old(next), old(prev), old(order), order, released, clock, i);
        clock := clock + 1;
        released := released[i := clock];
      }
    }

    method MoveToFront(i: nat)
      requires Linked(next, prev, order) && |order| == NBUF && i < NBUF
      modifies this`next, this`prev, this`order
      ensures Linked(next, prev, order) && |order| == NBUF
      ensures exists p :: 0 <= p < NBUF && old(order)[p] == i && order == [i] + Remove(old(order), p)
    {
      hide At;
      Onto(order, i);
      ghost var p :| 0 <= p < NBUF && order[p] == i;
      Unlink(next, prev, order, p);
      NotRemoved(order, p);
      UnlinkOrder(next, prev, order, p);
      prev := prev[next[i] := prev[i]];
      next := next[prev[i] := next[i]];
      hide Linked;
      PushFront(next, prev, Remove(order, p), i);
      LinkedFront(next, prev, Remove(order, p));
      LinkFront(i);
      order := [i] + Remove(order, p);
    }

  }

  /** From front to back of the list, buffers were released longer and longer ago. */
  ghost predicate Recent(order: seq<nat>, released: seq<nat>, clock: nat) {
    && |released| == NBUF && (forall j | 0 <= j < |order| :: order[j] < NBUF)
    && (forall x | 0 <= x < NBUF :: released[x] <= clock)
    && (forall p, q | 0 <= p < q < |order| :: released[order[p]] >= released[order[q]])
  }

  /** A buffer with none unused behind it in the list is the one unused for longest. */
  lemma LeastRecent(next: seq<nat>, prev: seq<nat>, order: seq<nat>, released: seq<nat>, clock: nat,
                    bufs: seq<Buf>, i: nat)
    requires Linked(next, prev, order) && |order| == NBUF == |bufs| && Recent(order, released, clock) && i < NBUF
    requires exists p :: 0 <= p < NBUF && order[p] == i && forall j | p < j < NBUF :: bufs[order[j]].refcnt != 0
    ensures forall x | 0 <= x < NBUF && bufs[x].refcnt == 0 :: released[i] <= released[x]
  {
    var p :| 0 <= p < NBUF && order[p] == i && forall j | p < j < NBUF :: bufs[order[j]].refcnt != 0;
    forall x | 0 <= x < NBUF && bufs[x].refcnt == 0 ensures released[i] <= released[x] {
      Onto(order, x);
    }
  }

  lemma MoveRecent(next: seq<nat>, prev: seq<nat>, order: seq<nat>, order': seq<nat>, released: seq<nat>,
                   clock: nat, i: nat)
    requires Linked(next, prev, order) && Recent(order, released, clock) && i < NBUF
    requires exists p :: 0 <= p < |order| && order[p] == i && order' == [i] + Remove(order, p)
    ensures |released| == NBUF && (forall x | 0 <= x < NBUF :: released[x] <= clock)
    ensures Recent(order', released[i := clock + 1], clock + 1)
  {
    var p :| 0 <= p < |order| && order[p] == i && order' == [i] + Remove(order, p);
    forall j | 0 < j < |order'| ensures order'[j] == order[if j <= p then j - 1 else j] && order'[j] != i {
    }
    hide Remove, Linked;
  }

  /** NBUF distinct numbers below NBUF are all of them. */
  lemma Onto(order: seq<nat>, x: nat)
    requires Distinct(order) && |order| == NBUF && x < NBUF
    ensures x in order
  {
    hide Below;
    var s := set j | 0 <= j < |order| :: order[j];
    ImageSize(order, |order|);
    if x !in s {
      SubsetCard(s, Below(NBUF) - {x});
    }
  }

  lemma ImageSize(order: seq<nat>, n: nat)
    requires Distinct(order) && n <= |order|
    ensures |set j | 0 <= j < n :: order[j]| == n
  {
    if n > 0 {
      ImageSize(order, n - 1);
      assert (set j | 0 <= j < n :: order[j]) == (set j | 0 <= j < n - 1 :: order[j]) + {order[n - 1]};
    }
  }

  ghost function Below(n: nat): (s: set<nat>)
    ensures |s| == n && forall y: nat :: y in s <==> y < n
  {
    if n == 0 then {} else Below(n - 1) + {n - 1}
  }

  // ---- steps on values ----

  lemma UseFound(bufs: seq<Buf>, uses: seq<multiset<Use>>, disk: map<Key, Block>, last: map<Key, Block>, pins: map<Key,
                 nat>, dirty: set<nat>, i: nat, u: Use)
    requires CacheInv(bufs, uses, disk, last, pins, dirty) && i < NBUF && u.key == bufs[i].key
    ensures CacheInv(bufs[i := bufs[i].(refcnt := bufs[i].refcnt + 1)], uses[i := uses[i] + multiset{u}], disk, last, pins, dirty)
  {
    UseCounted(bufs, uses, pins, i, u);
    hide Counted;
  }

  lemma UseCounted(bufs: seq<Buf>, uses: seq<multiset<Use>>, pins: map<Key, nat>, i: nat, u: Use)
    requires Counted(bufs, uses, pins) && i < NBUF && u.key == bufs[i].key
    ensures Counted(bufs[i := bufs[i].(refcnt := bufs[i].refcnt + 1)], uses[i := uses[i] + multiset{u}], pins)
  {
  }

  lemma UseVictim(bufs: seq<Buf>, uses: seq<multiset<Use>>, disk: map<Key, Block>, last: map<Key, Block>, pins: map<Key,
                  nat>, dirty: set<nat>, i: nat, u: Use)
    requires CacheInv(bufs, uses, disk, last, pins, dirty) && i < NBUF && bufs[i].refcnt == 0
    requires forall x | 0 <= x < NBUF :: bufs[x].key != u.key
    ensures CacheInv(bufs[i := bufs[i].(key := u.key, valid := false, refcnt := 1)], uses[i := uses[i] + multiset{u}], disk, last, pins, dirty)
  {
    assert |uses[i]| == 0;
    assert uses[i] == multiset{};
    assert bufs[i].holder.None?;
    forall k | k in pins ensures pins[k] != i && k != u.key {
      assert bufs[pins[k]].key == k;
    }
  }

  lemma Acquire(bufs: seq<Buf>, uses: seq<multiset<Use>>, disk: map<Key, Block>, last: map<Key, Block>, pins: map<Key,
                nat>, dirty: set<nat>, i: nat, t: Pid)
    requires CacheInv(bufs, uses, disk, last, pins, dirty) && i < NBUF && Use(t, bufs[i].key) in uses[i]
    ensures CacheInv(bufs[i := bufs[i].(holder := Some(t))], uses, disk, last, pins, dirty)
  {
  }

  /** Reading a block that is not cached finds it on disk: a pinned block is always cached. */
  lemma Fill(bufs: seq<Buf>, uses: seq<multiset<Use>>, disk: map<Key, Block>, last: map<Key, Block>, pins: map<Key,
             nat>, dirty: set<nat>, i: nat, v: Block)
    requires CacheInv(bufs, uses, disk, last, pins, dirty) && i < NBUF && !bufs[i].valid && bufs[i].key.dev != 0
    requires bufs[i].key in disk && v == disk[bufs[i].key] && bufs[i].holder.Some?
    ensures CacheInv(bufs[i := bufs[i].(data := v, valid := true)], uses, disk, last, pins, dirty)
    ensures v == last[bufs[i].key]
  {
    NotPinned(bufs, uses, pins, i);
    FillCounted(bufs, uses, pins, i, v);
    hide Counted;
  }

  lemma NotPinned(bufs: seq<Buf>, uses: seq<multiset<Use>>, pins: map<Key, nat>, i: nat)
    requires Counted(bufs, uses, pins) && Unique(bufs) && i < NBUF && !bufs[i].valid && bufs[i].key.dev != 0
    ensures bufs[i].key !in pins
  {
    forall j | j in pins ensures j != bufs[i].key {
      assert bufs[pins[j]].key == j && bufs[pins[j]].valid;
    }
  }

  lemma FillCounted(bufs: seq<Buf>, uses: seq<multiset<Use>>, pins: map<Key, nat>, i: nat, v: Block)
    requires Counted(bufs, uses, pins) && i < NBUF
    ensures Counted(bufs[i := bufs[i].(data := v, valid := true)], uses, pins)
  {
  }

  lemma Change(bufs: seq<Buf>, uses: seq<multiset<Use>>, disk: map<Key, Block>, last: map<Key, Block>, pins: map<Key,
               nat>, dirty: set<nat>, i: nat, v: Block)
    requires CacheInv(bufs, uses, disk, last, pins, dirty) && i < NBUF && bufs[i].holder.Some? && bufs[i].valid
    ensures CacheInv(bufs[i := bufs[i].(data := v)], uses, disk, last, pins, dirty + {i})
  {
  }

  lemma Log(bufs: seq<Buf>, uses: seq<multiset<Use>>, disk: map<Key, Block>, last: map<Key, Block>, pins: map<Key, nat>,
            dirty: set<nat>, i: nat, bufs': seq<Buf>)
    requires CacheInv(bufs, uses, disk, last, pins, dirty) && i < NBUF && bufs[i].valid && bufs[i].key.dev != 0
    requires bufs[i].key in disk
    requires bufs' == if bufs[i].key in pins then bufs else bufs[i := bufs[i].(refcnt := bufs[i].refcnt + 1)]
    ensures CacheInv(bufs', uses, disk, last[bufs[i].key := bufs[i].data], pins[bufs[i].key := i], dirty - {i})
  {
    assert |bufs| == NBUF;
    hide Counted, Agrees;
    OnlyBuffer(bufs, i);
    LogCounted(bufs, uses, pins, i, bufs');
    LogAgrees(bufs, disk, last, pins, dirty, i, bufs');
  }

  lemma LogCounted(bufs: seq<Buf>, uses: seq<multiset<Use>>, pins: map<Key, nat>, i: nat, bufs': seq<Buf>)
    requires Counted(bufs, uses, pins) && i < NBUF && bufs[i].valid
    requires forall j | 0 <= j < |bufs| && bufs[j].key == bufs[i].key :: j == i
    requires bufs' == if bufs[i].key in pins then bufs else bufs[i := bufs[i].(refcnt := bufs[i].refcnt + 1)]
    ensures Counted(bufs', uses, pins[bufs[i].key := i])
  {
    var k := bufs[i].key;
    if k in pins {
      assert bufs[pins[k]].key == k;
      assert pins[k := i] == pins;
    }
  }

  lemma LogAgrees(bufs: seq<Buf>, disk: map<Key, Block>, last: map<Key, Block>, pins: map<Key, nat>, dirty: set<nat>,
                  i: nat, bufs': seq<Buf>)
    requires Agrees(bufs, disk, last, pins, dirty) && i < |bufs| && bufs[i].key.dev != 0 && bufs[i].key in disk
    requires forall j | 0 <= j < |bufs| && bufs[j].key == bufs[i].key :: j == i
    requires bufs' == if bufs[i].key in pins then bufs else bufs[i := bufs[i].(refcnt := bufs[i].refcnt + 1)]
    ensures Agrees(bufs', disk, last[bufs[i].key := bufs[i].data], pins[bufs[i].key := i], dirty - {i})
  {
  }

  /** No other buffer holds the block of buffer i. */
  lemma OnlyBuffer(bufs: seq<Buf>, i: nat)
    requires Unique(bufs) && i < |bufs| && bufs[i].key.dev != 0
    ensures forall j | 0 <= j < |bufs| && bufs[j].key == bufs[i].key :: j == i
  {
  }

  lemma Write(bufs: seq<Buf>, uses: seq<multiset<Use>>, disk: map<Key, Block>, last: map<Key, Block>, pins: map<Key,
              nat>, dirty: set<nat>, i: nat)
    requires CacheInv(bufs, uses, disk, last, pins, dirty) && i < NBUF && bufs[i].valid && bufs[i].key.dev != 0
    requires bufs[i].key in disk
    ensures CacheInv(bufs, uses, disk[bufs[i].key := bufs[i].data], last[bufs[i].key := bufs[i].data], pins, dirty - {i})
  {
    OnlyBuffer(bufs, i);
  }

  lemma Unpin(bufs: seq<Buf>, uses: seq<multiset<Use>>, disk: map<Key, Block>, last: map<Key, Block>, pins: map<Key,
              nat>, dirty: set<nat>, i: nat)
    requires CacheInv(bufs, uses, disk, last, pins, dirty) && i < NBUF && bufs[i].key in pins && pins[bufs[i].key] == i
    requires disk[bufs[i].key] == last[bufs[i].key]
    ensures bufs[i].refcnt >= 1
    ensures CacheInv(bufs[i := bufs[i].(refcnt := bufs[i].refcnt - 1)], uses, disk, last, pins - {bufs[i].key}, dirty)
  {
    UnpinCounted(bufs, uses, pins, i);
    hide Counted;
    UnpinAgrees(bufs, disk, last, pins, dirty, i);
    hide Agrees;
  }

  lemma UnpinAgrees(bufs: seq<Buf>, disk: map<Key, Block>, last: map<Key, Block>, pins: map<Key, nat>, dirty: set<nat>,
                    i: nat)
    requires Agrees(bufs, disk, last, pins, dirty) && i < |bufs| && bufs[i].key in pins
    requires disk[bufs[i].key] == last[bufs[i].key]
    requires bufs[i].refcnt >= 1
    ensures Agrees(bufs[i := bufs[i].(refcnt := bufs[i].refcnt - 1)], disk, last, pins - {bufs[i].key}, dirty)
  {
  }

  lemma UnpinCounted(bufs: seq<Buf>, uses: seq<multiset<Use>>, pins: map<Key, nat>, i: nat)
    requires Counted(bufs, uses, pins) && i < NBUF && bufs[i].key in pins && pins[bufs[i].key] == i
    ensures bufs[i].refcnt >= 1
    ensures Counted(bufs[i := bufs[i].(refcnt := bufs[i].refcnt - 1)], uses, pins - {bufs[i].key})
  {
  }

  lemma Release(bufs: seq<Buf>, uses: seq<multiset<Use>>, disk: map<Key, Block>, last: map<Key, Block>, pins: map<Key,
                nat>, dirty: set<nat>, i: nat)
    requires CacheInv(bufs, uses, disk, last, pins, dirty) && i < NBUF && i !in dirty
    ensures CacheInv(bufs[i := bufs[i].(holder := None)], uses, disk, last, pins, dirty)
  {
  }

  lemma Drop(bufs: seq<Buf>, uses: seq<multiset<Use>>, disk: map<Key, Block>, last: map<Key, Block>, pins: map<Key,
             nat>, dirty: set<nat>, i: nat, t: Pid)
    requires CacheInv(bufs, uses, disk, last, pins, dirty) && i < NBUF && Use(t, bufs[i].key) in uses[i]
    requires bufs[i].holder == Some(t) ==> uses[i][Use(t, bufs[i].key)] > 1
    ensures bufs[i].refcnt >= 1
    ensures CacheInv(bufs[i := bufs[i].(refcnt := bufs[i].refcnt - 1)], uses[i := uses[i] - multiset{Use(t, bufs[i].key)}], disk, last, pins, dirty)
  {
    DropCounted(bufs, uses, pins, i, t);
    hide Counted;
  }

  lemma DropCounted(bufs: seq<Buf>, uses: seq<multiset<Use>>, pins: map<Key, nat>, i: nat, t: Pid)
    requires Counted(bufs, uses, pins) && i < NBUF && Use(t, bufs[i].key) in uses[i]
    requires bufs[i].holder == Some(t) ==> uses[i][Use(t, bufs[i].key)] > 1
    ensures bufs[i].refcnt >= 1
    ensures Counted(bufs[i := bufs[i].(refcnt := bufs[i].refcnt - 1)], uses[i := uses[i] - multiset{Use(t, bufs[i].key)}], pins)
  {
    var u := Use(t, bufs[i].key);
    assert |uses[i] - multiset{u}| == |uses[i]| - 1;
  }

  lemma NotRemoved(order: seq<nat>, p: nat)
    requires Distinct(order) && p < |order|
    ensures order[p] !in Remove(order, p) && |Remove(order, p)| == |order| - 1
  {
  }

  /** The two assignments of the unlinking do not disturb each other. */
  lemma UnlinkOrder(next: seq<nat>, prev: seq<nat>, order: seq<nat>, p: nat)
    requires Linked(next, prev, order) && p < |order|
    ensures var b := order[p];
            prev[b] == prev[next[b] := prev[b]][b] && next[b] != b && prev[b] != b
  {
    assert Step(next, prev, order, p) && Step(next, prev, order, p + 1);
  }

  lemma LinkedFront(next: seq<nat>, prev: seq<nat>, order: seq<nat>)
    requires Linked(next, prev, order)
    ensures |next| == |prev| == NBUF + 1 && next[NBUF] <= NBUF
  {
  }

  lemma SamePin(bufs: seq<Buf>, uses: seq<multiset<Use>>, disk: map<Key, Block>, last: map<Key, Block>, pins: map<Key,
                nat>, dirty: set<nat>, i: nat)
    requires CacheInv(bufs, uses, disk, last, pins, dirty) && i < NBUF && bufs[i].key.dev != 0
    ensures |bufs| == NBUF && (bufs[i].key in pins ==> pins[bufs[i].key] == i)
  {
    hide Agrees;
    OnlyBuffer(bufs, i);
  }

  /** A block logged and not yet installed stays cached: its pin keeps it from being chosen. */
  lemma PinnedStays(bufs: seq<Buf>, uses: seq<multiset<Use>>, disk: map<Key, Block>, last: map<Key, Block>,
                    pins: map<Key, nat>, dirty: set<nat>, k: Key)
    requires CacheInv(bufs, uses, disk, last, pins, dirty) && k in pins
    ensures pins[k] < NBUF == |bufs| && bufs[pins[k]].key == k && bufs[pins[k]].refcnt >= 1
    ensures forall i | 0 <= i < NBUF && bufs[i].key == k :: i == pins[k]
  {
    hide Agrees;
    assert k.dev != 0 by {
      PinDev(bufs, disk, last, pins, dirty, k);
    }
    OnlyBuffer(bufs, pins[k]);
  }

  lemma PinDev(bufs: seq<Buf>, disk: map<Key, Block>, last: map<Key, Block>, pins: map<Key, nat>, dirty: set<nat>,
               k: Key)
    requires Agrees(bufs, disk, last, pins, dirty) && k in pins
    ensures k.dev != 0
  {
  }
}
