/** Pipes, kernel/pipe.c. A method is what one process does between taking pi->lock and giving it
    up, by release or by sleep; a process that is woken goes on with another call. */
module Pipe {
  import opened Blocks

  const PIPESIZE: nat := 512
  const UINT: nat := 0x1_0000_0000

  /** How a region ends: asleep, or back in the caller with a return value. */
  datatype Outcome = Slept | Returned(r: int)

  function Min(a: int, b: int): int { if a < b then a else b }

  /** Bytes that a write of n has left at byte i. */
  function Todo(n: int, i: nat): nat { if n > i then n - i else 0 }

  class Pipe {
    const data: array<byte>
    /** 32-bit counters that wrap. */
    var nread: nat
    var nwrite: nat
    var readopen: bool
    var writeopen: bool
    /** The processes asleep on &pi->nwrite and on &pi->nread. */
    var writers: set<nat>
    var readers: set<nat>
    /** All bytes ever put in, and how many of them were taken out. */
    ghost var input: seq<byte>
    ghost var taken: nat

    ghost predicate Valid()
      reads this, data
    {
      && data.Length == PIPESIZE && taken <= |input| <= taken + PIPESIZE
      && nread == taken % UINT && nwrite == |input| % UINT
      && (forall k {:trigger input[k]} | taken <= k < |input| :: data[k % PIPESIZE] == input[k])
      && (writers != {} ==> |input| == taken + PIPESIZE && readopen)
    }

    /** No process sleeps in piperead unless the pipe is empty and may still be written to. */
    ghost predicate ReadersWait()
      reads this
    {
      readers != {} ==> |input| == taken && writeopen
    }

    constructor ()
      ensures Valid() && ReadersWait() && input == [] && taken == 0 && readopen && writeopen && fresh(data)
      ensures readers == {} && writers == {}
    {
      data := new byte[PIPESIZE];
      nread, nwrite, readopen, writeopen := 0, 0, true, true;
      writers, readers := {}, {};
      input, taken := [], 0;
    }

    /** The test of line 88 says that the pipe is full, for counters that have wrapped too. */
    lemma FullTest()
      requires Valid()
      ensures nwrite == (nread + PIPESIZE) % UINT <==> |input| == taken + PIPESIZE
    {
      AddWrap(taken, PIPESIZE);
      Wrap(|input|, taken + PIPESIZE);
    }

    lemma EmptyTest()
      requires Valid()
      ensures nread == nwrite <==> |input| == taken
    {
      Wrap(taken, |input|);
    }

    /** A region of pipewrite: from byte i of n on, of which those in src can be copied in; killAt
        says after how many rounds of the loop killed(pr) is seen. */
    method Write(me: nat, src: seq<byte>, n: int, i: nat, killAt: nat) returns (out: Outcome, j: nat)
      requires Valid() && i <= |src| && (i <= n || i == 0) && me !in writers && me !in readers
      modifies this, data
      ensures Valid() && readopen == old(readopen) && writeopen == old(writeopen) && taken == old(taken)
      ensures i <= j <= |src| && j - i <= killAt && input == old(input) + src[i..j]
      ensures j - i == Min(Min(Todo(n, i), if readopen then killAt else 0), Min(taken + PIPESIZE - |old(input)|, |src| - i))
      ensures out == if j >= n then Returned(j) else if !readopen || j - i == killAt then Returned(-1)
                     else if |input| == taken + PIPESIZE then Slept else Returned(j)
      ensures writers == if out == Slept then old(writers) + {me} else old(writers)
      ensures readers == if out == Returned(-1) then old(readers) else {}
      ensures old(ReadersWait()) ==>
                (ReadersWait() <==> !(old(readers) != {} && readopen && 0 < killAt <= PIPESIZE &&
                                      i + killAt < n && killAt <= |src| - i))
    {
      j := i;
      while j < n
        invariant i <= j <= |src| && j - i <= killAt && (j <= n || j == 0) && Valid() && input == old(input) + src[i..j]
        invariant taken == old(taken)
        invariant readopen == old(readopen) && writeopen == old(writeopen)
        invariant writers == old(writers) && readers == old(readers) && (!readopen ==> j == i)
      {
        if !readopen || j - i >= killAt {
          return Returned(-1), j;
        }
        FullTest();
        if nwrite == (nread + PIPESIZE) % UINT {
          readers := {};
          writers := writers + {me};
          return Slept, j;
        }
        if j == |src| {
          break;
        }
        Put(src[j]);
        j := j + 1;
      }
      readers := {};
      return Returned(j), j;
    }

    method Put(b: byte)
      requires Valid() && |input| < taken + PIPESIZE
      modifies this`nwrite, this`input, data
      ensures Valid() && input == old(input) + [b]
    {
      Slot(|input|);
      data[nwrite % PIPESIZE] := b;
      ghost var n := |input|;
      forall k | taken <= k < n ensures k % PIPESIZE != n % PIPESIZE {
        Apart(k, n);
      }
      AddWrap(n, 1);
      nwrite := (nwrite + 1) % UINT;
      input := input + [b];
    }

    /** A region of piperead for n bytes, of which the first room can be copied out. */
    method Read(me: nat, n: int, room: nat, killed: bool) returns (out: Outcome, dst: seq<byte>)
      requires Valid() && me !in writers && me !in readers
      modifies this
      ensures Valid() && readopen == old(readopen) && writeopen == old(writeopen) && input == old(input)
      ensures out == Slept ==>
                !killed && |input| == taken == old(taken) && writeopen && readers == old(readers) + {me} && writers == old(writers) && dst == []
      ensures out.Returned? ==> readers == old(readers)
      ensures out == Returned(-1) ==>
                killed && |input| == taken == old(taken) && writeopen && writers == old(writers) && dst == []
      ensures out.Returned? && out.r != -1 ==>
                var m := Min(Min(if n < 0 then 0 else n, room), |input| - old(taken));
                && (|input| > old(taken) || !writeopen) && out.r == m && dst == input[old(taken)..old(taken) + m]
                && writers == {}
                && taken == old(taken) + m + (if m < n && m < |input| - old(taken) then 1 else 0)
      ensures old(ReadersWait()) ==> ReadersWait()
    {
      dst := [];
      EmptyTest();
      if nread == nwrite && writeopen {
        if killed {
          return Returned(-1), [];
        }
        readers := readers + {me};
        return Slept, [];
      }
      writers := {};
      var i := 0;
      while i < n
        invariant 0 <= i && (i <= n || i == 0) && i <= room && Valid() && input == old(input) && writers == {}
        invariant readers == old(readers)
        invariant readopen == old(readopen) && writeopen == old(writeopen)
        invariant taken == old(taken) + i && |dst| == i && dst == input[old(taken)..taken]
      {
        EmptyTest();
        if nread == nwrite {
          break;
        }
        var ch := Get();
        if i == room {
          break;
        }
        dst := dst + [ch];
        i := i + 1;
      }
      out := Returned(i);
    }

    method Get() returns (b: byte)
      requires Valid() && taken < |input| && writers == {}
      modifies this`nread, this`taken
      ensures Valid() && taken == old(taken) + 1 && b == input[old(taken)]
    {
      Slot(taken);
      b := data[nread % PIPESIZE];
      AddWrap(taken, 1);
      nread := (nread + 1) % UINT;
      taken := taken + 1;
    }

    /** pipeclose of one end; freed when the other one is closed already. */
    method Close(writable: bool) returns (freed: bool)
      requires Valid()
      modifies this
      ensures Valid() && input == old(input) && taken == old(taken)
      ensures writeopen == (old(writeopen) && !writable) && readopen == (old(readopen) && writable)
      ensures if writable then readers == {} && writers == old(writers) else writers == {} && readers == old(readers)
      ensures freed == (!readopen && !writeopen)
      ensures freed ==> writers == {} && (old(ReadersWait()) ==> readers == {})
      ensures old(ReadersWait()) ==> ReadersWait()
    {
      if writable {
        writeopen := false;
        readers := {};
      } else {
        readopen := false;
        writers := {};
      }
      freed := !readopen && !writeopen;
    }
  }

  /** Numbers less than UINT apart that agree modulo UINT are equal. */
  lemma Wrap(a: nat, b: nat)
    requires a < b + UINT && b < a + UINT
    ensures a % UINT == b % UINT <==> a == b
  {
    var x, y := a / UINT, b / UINT;
    assert a == x * UINT + a % UINT && b == y * UINT + b % UINT;
  }

  lemma AddWrap(a: nat, k: nat)
    ensures (a % UINT + k) % UINT == (a + k) % UINT
  {
    var x := a / UINT;
    var r := a % UINT + k;
    assert a + k == r + x * UINT;
    ModAdd(r, x);
  }

  lemma {:induction false} ModAdd(r: nat, x: nat)
    ensures (r + x * UINT) % UINT == r % UINT
  {
    if x > 0 {
      ModAdd(r, x - 1);
      assert r + x * UINT == (r + (x - 1) * UINT) + UINT;
    }
  }

  /** PIPESIZE divides 2^32, so that a counter that has wrapped still finds its slot. */
  lemma Slot(a: nat)
    ensures (a % UINT) % PIPESIZE == a % PIPESIZE
  {
    var x := a / UINT;
    assert a == a % UINT + (x * 8388608) * PIPESIZE;
    SlotAdd(a % UINT, x * 8388608);
  }

  lemma {:induction false} SlotAdd(r: nat, x: nat)
    ensures (r + x * PIPESIZE) % PIPESIZE == r % PIPESIZE
  {
    if x > 0 {
      SlotAdd(r, x - 1);
      assert r + x * PIPESIZE == (r + (x - 1) * PIPESIZE) + PIPESIZE;
    }
  }

  lemma Apart(a: nat, b: nat)
    requires a < b < a + PIPESIZE
    ensures a % PIPESIZE != b % PIPESIZE
  {
    var x, y := a / PIPESIZE, b / PIPESIZE;
    assert a == x * PIPESIZE + a % PIPESIZE && b == y * PIPESIZE + b % PIPESIZE;
  }

  /** What one process does next, when it has the lock. */
  datatype Op =
    | DoWrite(me: nat, src: seq<byte>, n: int, i: nat, killAt: nat)
    | DoRead(me: nat, n: int, room: nat, killed: bool)
    | DoClose(writable: bool)

  /** Some writer is killed with bytes of its region put in and bytes still to go. */
  ghost predicate KilledInWrite(ops: seq<Op>) {
    exists k :: 0 <= k < |ops| && ops[k].DoWrite? && 0 < ops[k].killAt && ops[k].i + ops[k].killAt < ops[k].n
  }

  /** got are the bytes of input at the positions kept, which are in order and below taken. */
  ghost predicate Picks(input: seq<byte>, taken: nat, kept: seq<nat>, got: seq<byte>) {
    && |kept| == |got|
    && (forall x | 0 <= x < |kept| :: kept[x] < taken && kept[x] < |input| && got[x] == input[kept[x]])
    && (forall x, y | 0 <= x < y < |kept| :: kept[x] < kept[y])
  }

  /** With as many positions as there are, none is left out. */
  lemma {:induction false} PicksAll(input: seq<byte>, taken: nat, kept: seq<nat>, got: seq<byte>)
    requires Picks(input, taken, kept, got) && |kept| == taken <= |input|
    ensures got == input[..taken]
  {
    forall x | 0 <= x < taken ensures kept[x] == x {
      AtLeast(input, taken, kept, got, x);
      AtMost(input, taken, kept, got, x);
    }
  }

  lemma {:induction false} AtLeast(input: seq<byte>, taken: nat, kept: seq<nat>, got: seq<byte>, x: nat)
    requires Picks(input, taken, kept, got) && x < |kept|
    ensures kept[x] >= x
  {
    if x > 0 {
      AtLeast(input, taken, kept, got, x - 1);
    }
  }

  lemma {:induction false} AtMost(input: seq<byte>, taken: nat, kept: seq<nat>, got: seq<byte>, x: nat)
    requires Picks(input, taken, kept, got) && x < |kept|
    ensures kept[x] + (|kept| - x) <= taken
    decreases |kept| - x
  {
    if x + 1 < |kept| {
      AtMost(input, taken, kept, got, x + 1);
    }
  }

  /** A read region, and what readers have got by its end. */
  method Deliver(p: Pipe, me: nat, n: int, room: nat, killed: bool, got: seq<byte>, ghost kept: seq<nat>)
    returns (all: seq<byte>, ghost kept': seq<nat>)
    requires p.Valid() && me !in p.writers && me !in p.readers && Picks(p.input, p.taken, kept, got)
    modifies p
    ensures p.Valid() && p.input == old(p.input) && p.taken >= old(p.taken) && Picks(p.input, p.taken, kept', all)
    ensures p.taken - old(p.taken) - (|all| - |got|) == if Loses(n, room, |p.input| - old(p.taken)) then 1 else 0
    ensures old(p.ReadersWait()) ==> p.ReadersWait()
  {
    ghost var before := p.taken;
    var out, dst := p.Read(me, n, room, killed);
    all := got + dst;
    kept' := kept + seq(|dst|, x => before + x);
  }

  /** A read of n bytes takes one out of the pipe that it cannot copy out. */
  predicate Loses(n: int, room: nat, inside: nat) {
    room < n && room < inside
  }

  /** Any interleaving of readers, writers and closes: what readers got is what was put in first, with
      exactly `lost` bytes left out, and never more than PIPESIZE bytes are in the pipe. lost counts the
      reads that copyout failed in. */
  method Interleave(p: Pipe, ops: seq<Op>)
    returns (delivered: seq<byte>, ghost kept: seq<nat>, ghost lost: nat, stuck: bool)
    requires p.Valid() && p.ReadersWait() && p.input == [] && p.taken == 0
    modifies p, p.data
    ensures p.Valid() && |delivered| + lost == p.taken <= |p.input| <= p.taken + PIPESIZE
    ensures Picks(p.input, p.taken, kept, delivered) && (lost == 0 ==> delivered == p.input[..p.taken])
    ensures lost <= Failing(ops)
    ensures !stuck ==> p.ReadersWait()
    ensures stuck ==> KilledInWrite(ops)
  {
    delivered, kept, lost, stuck := [], [], 0, false;
    var k := 0;
    assert ops[..0] == [];
    while k < |ops|
      invariant 0 <= k <= |ops| && p.Valid() && |delivered| + lost == p.taken && lost <= Failing(ops[..k])
      invariant Picks(p.input, p.taken, kept, delivered)
      invariant !stuck ==> p.ReadersWait()
      invariant stuck ==> KilledInWrite(ops)
    {
      FailingNext(ops, k);
      match ops[k] {
      case DoWrite(me, src, n, i, killAt) =>
        if me !in p.writers && me !in p.readers && i <= |src| && (i <= n || i == 0) {
          if p.readers != {} && p.readopen && 0 < killAt <= PIPESIZE && i + killAt < n && killAt <= |src| - i {
            assert ops[k].DoWrite? && 0 < ops[k].killAt && ops[k].i + ops[k].killAt < ops[k].n;
            stuck := true;
          }
          var out, j := p.Write(me, src, n, i, killAt);
        }
      case DoRead(me, n, room, killed) =>
        if me !in p.writers && me !in p.readers {
          ghost var before, had := p.taken, |delivered|;
          delivered, kept := Deliver(p, me, n, room, killed, delivered, kept);
          lost := lost + (p.taken - before - (|delivered| - had));
        }
      case DoClose(writable) =>
        var freed := p.Close(writable);
      }
      k := k + 1;
    }
    assert ops[..k] == ops;
    if lost == 0 {
      PicksAll(p.input, p.taken, kept, delivered);
    }
  }

  /** Reads that may meet a copyout that fails. */
  ghost function Failing(ops: seq<Op>): nat {
    if ops == [] then 0
    else Failing(ops[..|ops| - 1]) + if ops[|ops| - 1].DoRead? && ops[|ops| - 1].room < ops[|ops| - 1].n then 1 else 0
  }

  lemma FailingNext(ops: seq<Op>, k: nat)
    requires k < |ops|
    ensures Failing(ops[..k + 1]) == Failing(ops[..k]) + if ops[k].DoRead? && ops[k].room < ops[k].n then 1 else 0
  {
    assert ops[..k + 1][..k] == ops[..k];
  }

  /** A writer killed after its first byte leaves a reader asleep beside it. */
  method StuckReader() returns (p: Pipe)
    ensures fresh(p) && p.Valid() && p.writeopen && p.readers == {1} && |p.input| == p.taken + 1
  {
    p := new Pipe();
    p.EmptyTest();
    var r, dst := p.Read(1, 1, 1, false);
    assert r == Slept;
    var w, j := p.Write(2, [7, 7], 2, 0, 1);
    assert w == Returned(-1);
  }
}
