/** The user heap, user/umalloc.c: a circular list of free blocks in address order, with a header
    before every block. Addresses count in headers, 16 bytes each. */
module Umalloc {
  const HEADER: nat := 16
  const LIMIT: nat := 0x8000_0000   // sbrk takes an int

  // ---- the list ----

  ghost function Succ(list: seq<nat>, i: nat): nat
    requires i < |list|
  {
    if i + 1 < |list| then list[i + 1] else list[0]
  }

  ghost predicate Linked(list: seq<nat>, ptr: map<nat, nat>) {
    forall i: nat {:trigger Link(list, ptr, i)} | i < |list| :: Link(list, ptr, i)
  }

  ghost predicate Link(list: seq<nat>, ptr: map<nat, nat>, i: nat)
    requires i < |list|
  {
    list[i] in ptr && ptr[list[i]] == Succ(list, i)
  }

  /** Ascending from the header base, which has size 0, with a gap after every block. */
  ghost predicate Spaced(base: nat, list: seq<nat>, size: map<nat, nat>) {
    && |list| > 0 && list[0] == base && base in size && size[base] == 0
    && (forall i: nat {:trigger list[i]} | i < |list| :: list[i] in size)
    && (forall i: nat {:trigger Gap(list, size, i)} | i + 1 < |list| :: Gap(list, size, i))
  }

  ghost predicate Gap(list: seq<nat>, size: map<nat, nat>, i: nat)
    requires i + 1 < |list|
  {
    list[i] in size && list[i] + size[list[i]] < list[i + 1]
  }

  // ---- blocks ----

  /** at gives the block of every unit of the heap; blocks are not empty and do not overlap. */
  ghost predicate Cover(blocks: set<nat>, size: map<nat, nat>, at: map<nat, nat>) {
    && (forall b | b in blocks :: b in size && size[b] > 0)
    && (forall b, u {:trigger Within(size, b, u)} | b in blocks && Within(size, b, u) :: u in at && at[u] == b)
    && (forall u | u in at :: at[u] in blocks && Within(size, at[u], u))
  }

  /** Unit u belongs to the block at b. */
  ghost predicate Within(size: map<nat, nat>, b: nat, u: nat) {
    b in size && b <= u < b + size[b]
  }

  /** The blocks are the free ones, on the list after base, and the live ones. */
  ghost predicate Shares(base: nat, list: seq<nat>, live: set<nat>, blocks: set<nat>) {
    && live <= blocks && (forall b | b in blocks :: b > base)
    && (forall i: nat {:trigger list[i]} | 0 < i < |list| :: list[i] in blocks && list[i] !in live)
    && (forall b | b in blocks && b !in live :: b in list)
  }

  ghost predicate HeapOk(base: nat, list: seq<nat>, ptr: map<nat, nat>, size: map<nat, nat>, live: set<nat>,
                         blocks: set<nat>, at: map<nat, nat>)
  {
    Linked(list, ptr) && Spaced(base, list, size) && Cover(blocks, size, at) && Shares(base, list, live, blocks)
  }

  /** Blocks come one after the other. */
  lemma Apart(blocks: set<nat>, size: map<nat, nat>, at: map<nat, nat>, a: nat, b: nat)
    requires Cover(blocks, size, at) && a in blocks && b in blocks && a < b
    ensures a + size[a] <= b
  {
    assert Within(size, b, b);
    assert !Within(size, a, b);
  }

  lemma {:induction false} Ascending(base: nat, list: seq<nat>, size: map<nat, nat>, i: nat, j: nat)
    requires Spaced(base, list, size) && i < j < |list|
    ensures list[i] in size && list[i] + size[list[i]] < list[j]
    decreases j - i
  {
    assert Gap(list, size, i);
    if i + 1 < j {
      Ascending(base, list, size, i + 1, j);
    }
  }

  ghost function Joined(at: map<nat, nat>, a: nat, b: nat): map<nat, nat> {
    map u | u in at :: if at[u] == b then a else at[u]
  }

  /** Two blocks that touch become one. */
  lemma Join(blocks: set<nat>, size: map<nat, nat>, at: map<nat, nat>, a: nat, b: nat, size': map<nat, nat>)
    requires Cover(blocks, size, at) && a in blocks && b in blocks && a != b && a + size[a] == b
    requires size' == size[a := size[a] + size[b]]
    ensures Cover(blocks - {b}, size', Joined(at, a, b)) && Joined(at, a, b).Keys == at.Keys
  {
    var at', blocks' := Joined(at, a, b), blocks - {b};
    forall x: nat, u: nat | x in blocks' && Within(size', x, u) ensures u in at' && at'[u] == x {
      if x == a && u >= b {
        assert Within(size, b, u);
      } else {
        assert Within(size, x, u);
      }
    }
    forall u: nat | u in at' ensures at'[u] in blocks' && Within(size', at'[u], u) {
      assert Within(size, at[u], u);
    }
  }

  /** The upper n units of a block become a block of their own. */
  lemma Split(blocks: set<nat>, size: map<nat, nat>, at: map<nat, nat>, a: nat, n: nat, c: nat, size': map<nat, nat>,
              at': map<nat, nat>)
    requires Cover(blocks, size, at) && a in blocks && 0 < n < size[a] && c == a + size[a] - n
    requires size' == size[a := size[a] - n][c := n] && at' == (map u | u in at :: if c <= u < c + n then c else at[u])
    ensures c !in blocks && Cover(blocks + {c}, size', at') && at'.Keys == at.Keys
  {
    assert c !in blocks by {
      if c in blocks {
        Apart(blocks, size, at, a, c);
      }
    }
    forall x: nat, u: nat | x in blocks + {c} && Within(size', x, u) ensures u in at' && at'[u] == x {
      assert Within(size, if x == c then a else x, u);
      if c <= u < c + n {
        assert Within(size, a, u);
      }
    }
    forall u: nat | u in at' ensures at'[u] in blocks + {c} && Within(size', at'[u], u) {
      assert Within(size, at[u], u);
    }
  }

  /** Fresh memory becomes a block. */
  lemma Grow(blocks: set<nat>, size: map<nat, nat>, at: map<nat, nat>, c: nat, n: nat, at': map<nat, nat>)
    requires Cover(blocks, size, at) && n > 0 && (forall u | c <= u < c + n :: u !in at)
    requires forall u :: u in at' <==> u in at || c <= u < c + n
    requires forall u | u in at' :: at'[u] == if u in at then at[u] else c
    ensures c !in blocks && Cover(blocks + {c}, size[c := n], at')
  {
    assert c !in blocks by {
      if c in blocks {
        assert Within(size, c, c);
      }
    }
    forall x: nat, u: nat | x in blocks + {c} && Within(size[c := n], x, u) ensures u in at' && at'[u] == x {
      if x != c {
        assert Within(size, x, u);
      }
    }
    forall u: nat | u in at' ensures at'[u] in blocks + {c} && Within(size[c := n], at'[u], u) {
      if u in at {
        assert Within(size, at[u], u);
      }
    }
  }

  // ---- changes of the list ----

  ghost function Without(list: seq<nat>, j: nat): seq<nat>
    requires j + 1 < |list|
  {
    list[..j + 1] + list[j + 2..]
  }

  ghost function With(list: seq<nat>, j: nat, b: nat): seq<nat>
    requires j < |list|
  {
    list[..j + 1] + [b] + list[j + 1..]
  }

  /** Taking the block after list[j] off the list. */
  lemma TakeOff(base: nat, list: seq<nat>, ptr: map<nat, nat>, size: map<nat, nat>, j: nat, l: seq<nat>)
    requires Linked(list, ptr) && Spaced(base, list, size) && j + 1 < |list| && l == Without(list, j)
    ensures list[j + 1] in ptr && |l| == |list| - 1 && ptr[list[j + 1]] == Succ(l, j) == Succ(list, j + 1)
    ensures Linked(l, ptr[list[j] := ptr[list[j + 1]]]) && Spaced(base, l, size)
    ensures forall i: nat {:trigger l[i]} | i < |l| :: l[i] == if i <= j then list[i] else list[i + 1]
  {
    assert forall i: nat {:trigger l[i]} | i < |l| :: l[i] == if i <= j then list[i] else list[i + 1];
    hide Linked, Spaced, Without;
    LinkedOff(base, list, ptr, size, j, l);
    SpacedOff(base, list, size, j, l);
  }

  lemma LinkedOff(base: nat, list: seq<nat>, ptr: map<nat, nat>, size: map<nat, nat>, j: nat, l: seq<nat>)
    requires Linked(list, ptr) && Spaced(base, list, size) && j + 1 < |list| == |l| + 1
    requires forall i: nat {:trigger l[i]} | i < |l| :: l[i] == if i <= j then list[i] else list[i + 1]
    ensures list[j + 1] in ptr && ptr[list[j + 1]] == Succ(l, j) == Succ(list, j + 1)
    ensures Linked(l, ptr[list[j] := ptr[list[j + 1]]])
  {
    hide Spaced;
    assert Link(list, ptr, j + 1);
    var ptr': map<nat, nat> := ptr[list[j] := ptr[list[j + 1]]];
    forall i: nat | i < |l| ensures Link(l, ptr', i) {
      var k := if i <= j then i else i + 1;
      assert Link(list, ptr, k);
      if i != j {
        OffElse(base, list, size, j, k);
      }
    }
  }

  lemma SpacedOff(base: nat, list: seq<nat>, size: map<nat, nat>, j: nat, l: seq<nat>)
    requires Spaced(base, list, size) && j + 1 < |list| == |l| + 1
    requires forall i: nat {:trigger l[i]} | i < |l| :: l[i] == if i <= j then list[i] else list[i + 1]
    ensures Spaced(base, l, size)
  {
    assert l[0] == list[0];
    forall i: nat | i + 1 < |l| ensures Gap(l, size, i) {
      Ascending(base, list, size, if i <= j then i else i + 1, if i < j then i + 1 else i + 2);
    }
  }

  lemma OffElse(base: nat, list: seq<nat>, size: map<nat, nat>, j: nat, i: nat)
    requires Spaced(base, list, size) && j < |list| && i < |list| && i != j
    ensures list[i] != list[j]
  {
    if i < j {
      Ascending(base, list, size, i, j);
    } else {
      Ascending(base, list, size, j, i);
    }
  }

  /** Putting b on the list after list[j], where it belongs. */
  lemma PutOn(base: nat, list: seq<nat>, ptr: map<nat, nat>, size: map<nat, nat>, j: nat, b: nat, l: seq<nat>)
    requires Linked(list, ptr) && Spaced(base, list, size) && j < |list| && b in size && b !in list
    requires l == With(list, j, b)
    requires list[j] in size && list[j] + size[list[j]] < b && (j + 1 < |list| ==> b + size[b] < list[j + 1])
    ensures Linked(l, ptr[b := Succ(list, j)][list[j] := b]) && Spaced(base, l, size)
    ensures |l| == |list| + 1
    ensures forall i: nat {:trigger l[i]} | i < |l| ::
              l[i] == if i <= j then list[i] else if i == j + 1 then b else list[i - 1]
  {
    assert forall i: nat {:trigger l[i]} | i < |l| :: l[i] == if i <= j then list[i] else if i == j + 1 then b else list[i - 1];
    hide Linked, Spaced, With;
    LinkedOn(base, list, ptr, size, j, b, l);
    SpacedOn(base, list, size, j, b, l);
  }

  lemma LinkedOn(base: nat, list: seq<nat>, ptr: map<nat, nat>, size: map<nat, nat>, j: nat, b: nat, l: seq<nat>)
    requires Linked(list, ptr) && Spaced(base, list, size) && j < |list| && b !in list && |l| == |list| + 1
    requires forall i: nat {:trigger l[i]} | i < |l| ::
               l[i] == if i <= j then list[i] else if i == j + 1 then b else list[i - 1]
    ensures Linked(l, ptr[b := Succ(list, j)][list[j] := b])
  {
    hide Spaced;
    var ptr': map<nat, nat> := ptr[b := Succ(list, j)][list[j] := b];
    forall i: nat | i < |l| ensures Link(l, ptr', i) {
      if i != j && i != j + 1 {
        var k := if i < j then i else i - 1;
        assert Link(list, ptr, k);
        assert list[k] in list;
        OffElse(base, list, size, j, k);
      }
    }
  }

  lemma SpacedOn(base: nat, list: seq<nat>, size: map<nat, nat>, j: nat, b: nat, l: seq<nat>)
    requires Spaced(base, list, size) && j < |list| && b in size && |l| == |list| + 1
    requires list[j] + size[list[j]] < b && (j + 1 < |list| ==> b + size[b] < list[j + 1])
    requires forall i: nat {:trigger l[i]} | i < |l| ::
               l[i] == if i <= j then list[i] else if i == j + 1 then b else list[i - 1]
    ensures Spaced(base, l, size)
  {
    assert l[0] == list[0];
    forall i: nat | i + 1 < |l| ensures Gap(l, size, i) {
      if i < j {
        assert Gap(list, size, i);
      } else if i > j + 1 {
        assert Gap(list, size, i - 1);
      }
    }
  }

  // ---- free ----

  /** list[j] is the last block below b. */
  ghost predicate Place(list: seq<nat>, b: nat, j: nat) {
    j < |list| && list[j] < b && (j + 1 < |list| ==> b < list[j + 1])
  }

  lemma {:induction false} FindPlace(base: nat, list: seq<nat>, size: map<nat, nat>, b: nat, i: nat) returns (j: nat)
    requires Spaced(base, list, size) && b > base && b !in list && i < |list| && list[i] < b
    ensures Place(list, b, j)
    decreases |list| - i
  {
    j := i;
    if i + 1 < |list| && list[i + 1] < b {
      j := FindPlace(base, list, size, b, i + 1);
    }
  }

  /** The loop of free stops at the place of b and nowhere else. */
  lemma StopsAt(base: nat, list: seq<nat>, size: map<nat, nat>, b: nat, j: nat, i: nat)
    requires Spaced(base, list, size) && b > base && b !in list && Place(list, b, j) && i < |list|
    ensures var p, n := list[i], Succ(list, i);
            (b > p && b < n) || (p >= n && (b > p || b < n)) <==> i == j
  {
    if i < j {
      Ascending(base, list, size, i, j);
      if i + 1 < j {
        Ascending(base, list, size, i + 1, j);
      }
    } else if j < i {
      Ascending(base, list, size, j, i);
      if j + 1 < i {
        Ascending(base, list, size, j + 1, i);
      }
    }
    if 0 < |list| - 1 {
      Ascending(base, list, size, 0, |list| - 1);
    }
    if i + 1 < |list| {
      assert Gap(list, size, i);
    }
  }

  /** Block b, still live, fits between list[j] and the next block, touches only the former, and
      its ptr leads on. */
  ghost predicate Fits(base: nat, list: seq<nat>, ptr: map<nat, nat>, size: map<nat, nat>, live: set<nat>,
                       blocks: set<nat>, at: map<nat, nat>,
                       b: nat, j: nat)
  {
    && b in live && j < |list| && b in size && list[j] < b && (j + 1 < |list| ==> b + size[b] < list[j + 1])
    && b in ptr && ptr[b] == Succ(list, j) && list[j] in ptr
    && HeapOk(base, list, ptr[list[j] := Succ(list, j)], size, live, blocks, at)
  }

  lemma NoMergeUp(base: nat, list: seq<nat>, ptr: map<nat, nat>, size: map<nat, nat>, live: set<nat>, blocks: set<nat>,
                  at: map<nat, nat>,
                  b: nat, j: nat, ptr': map<nat, nat>)
    requires HeapOk(base, list, ptr, size, live, blocks, at) && b in live && Place(list, b, j) && b in size
    requires b + size[b] != Succ(list, j) && ptr' == ptr[b := Succ(list, j)]
    ensures Fits(base, list, ptr', size, live, blocks, at, b, j)
  {
    hide Cover;
    NotListed(base, list, ptr, size, live, blocks, at, b);
    if j + 1 < |list| {
      Apart(blocks, size, at, b, list[j + 1]);
    }
    assert ptr'[list[j] := Succ(list, j)] == ptr[b := Succ(list, j)] by { assert Link(list, ptr, j) && list[j] in list; }
    LinkedElse(list, ptr, b, Succ(list, j));
  }

  lemma NotListed(base: nat, list: seq<nat>, ptr: map<nat, nat>, size: map<nat, nat>, live: set<nat>, blocks: set<nat>,
                  at: map<nat, nat>, b: nat)
    requires HeapOk(base, list, ptr, size, live, blocks, at) && b in live
    ensures b !in list && b > base && b in blocks && b in size && size[b] > 0
  {
    forall i: nat | i < |list| ensures list[i] != b {
    }
  }

  lemma LinkedElse(list: seq<nat>, ptr: map<nat, nat>, b: nat, x: nat)
    requires Linked(list, ptr) && b !in list
    ensures Linked(list, ptr[b := x])
  {
    var ptr': map<nat, nat> := ptr[b := x];
    forall i: nat | i < |list| ensures Link(list, ptr', i) {
      assert Link(list, ptr, i) && list[i] in list;
    }
  }

  lemma MergeUp(base: nat, list: seq<nat>, ptr: map<nat, nat>, size: map<nat, nat>, live: set<nat>, blocks: set<nat>,
                at: map<nat, nat>,
                b: nat, j: nat, ptr': map<nat, nat>, size': map<nat, nat>, list': seq<nat>, n: nat)
    requires HeapOk(base, list, ptr, size, live, blocks, at) && b in live && Place(list, b, j) && b in size
    requires b + size[b] == Succ(list, j) == n && n in ptr && n in size
    requires ptr' == ptr[b := ptr[n]] && size' == size[b := size[b] + size[n]]
    requires j + 1 < |list| ==> list' == Without(list, j)
    ensures j + 1 < |list| && j < |list'| && list'[j] == list[j] && n !in live
    ensures Fits(base, list', ptr', size', live, blocks - {n}, Joined(at, b, n), b, j)
    ensures Joined(at, b, n).Keys == at.Keys
  {
    NotListed(base, list, ptr, size, live, blocks, at, b);
    assert j + 1 < |list|;
    hide Cover, Linked, Spaced, Shares;
    ListedBlock(base, list, ptr, size, live, blocks, at, j + 1);
    Join(blocks, size, at, b, n, size');
    TakeOff(base, list, ptr, size, j, list');
    UpLinks(base, list, ptr, size, b, j, ptr', size', list', n);
    UpShares(base, list, live, blocks, j, list', n, size);
  }

  lemma ListedBlock(base: nat, list: seq<nat>, ptr: map<nat, nat>, size: map<nat, nat>, live: set<nat>,
                    blocks: set<nat>, at: map<nat, nat>, i: nat)
    requires HeapOk(base, list, ptr, size, live, blocks, at) && 0 < i < |list|
    ensures list[i] in blocks && list[i] !in live && list[i] in size && size[list[i]] > 0 && list[i] > base
  {
  }

  lemma UpLinks(base: nat, list: seq<nat>, ptr: map<nat, nat>, size: map<nat, nat>, b: nat, j: nat, ptr': map<nat, nat>,
                size': map<nat, nat>, l: seq<nat>, n: nat)
    requires Linked(list, ptr) && Spaced(base, list, size) && b !in list && b in size && j + 1 < |list| == |l| + 1
    requires n == list[j + 1] == b + size[b] && n in size && n in ptr
    requires ptr' == ptr[b := ptr[n]] && size' == size[b := size[b] + size[n]]
    requires ptr[n] == Succ(l, j) && Linked(l, ptr[list[j] := ptr[n]]) && Spaced(base, l, size)
    requires forall i: nat {:trigger l[i]} | i < |l| :: l[i] == if i <= j then list[i] else list[i + 1]
    ensures l[j] == list[j] && l[j] in ptr' && Linked(l, ptr'[l[j] := Succ(l, j)]) && Spaced(base, l, size')
    ensures j + 1 < |l| ==> b + size'[b] < l[j + 1]
  {
    assert b !in l by {
      forall i: nat | i < |l| ensures l[i] in list {
      }
    }
    assert Link(list, ptr, j) && list[j] in list;
    if j + 2 < |list| {
      assert Gap(list, size, j + 1);
    }
    assert ptr'[l[j] := Succ(l, j)] == ptr[list[j] := ptr[n]][b := ptr[n]];
    LinkedElse(l, ptr[list[j] := ptr[n]], b, ptr[n]);
    SizeElse(base, l, size, b, size[b] + size[n]);
  }

  lemma SizeElse(base: nat, list: seq<nat>, size: map<nat, nat>, b: nat, x: nat)
    requires Spaced(base, list, size) && b !in list
    ensures Spaced(base, list, size[b := x])
  {
    assert list[0] in list;
    var size': map<nat, nat> := size[b := x];
    forall i: nat | i + 1 < |list| ensures Gap(list, size', i) {
      assert Gap(list, size, i) && list[i] in list;
    }
  }

  lemma UpShares(base: nat, list: seq<nat>, live: set<nat>, blocks: set<nat>, j: nat, l: seq<nat>, n: nat,
                 size: map<nat, nat>)
    requires Shares(base, list, live, blocks) && Spaced(base, list, size) && j + 1 < |list| == |l| + 1
    requires n == list[j + 1]
    requires forall i: nat {:trigger l[i]} | i < |l| :: l[i] == if i <= j then list[i] else list[i + 1]
    ensures Shares(base, l, live, blocks - {n})
  {
    hide Spaced;
    forall i: nat | 0 < i < |l| ensures l[i] in blocks - {n} && l[i] !in live {
      var k := if i <= j then i else i + 1;
      OffElse(base, list, size, j + 1, k);
      assert list[k] in blocks && list[k] !in live;
    }
    forall x | x in blocks - {n} && x !in live ensures x in l {
      var i :| 0 <= i < |list| && list[i] == x;
      assert l[if i <= j then i else i - 1] == x;
    }
    forall x | x in live ensures x in blocks - {n} {
      assert list[j + 1] !in live;
    }
  }

  lemma MergeDown(base: nat, list: seq<nat>, ptr: map<nat, nat>, size: map<nat, nat>, live: set<nat>, blocks: set<nat>,
                  at: map<nat, nat>,
                  b: nat, j: nat, ptr': map<nat, nat>, size': map<nat, nat>, p: nat)
    requires Fits(base, list, ptr, size, live, blocks, at, b, j) && p == list[j] && p in size && p + size[p] == b
    requires ptr' == ptr[p := ptr[b]] && size' == size[p := size[p] + size[b]]
    ensures HeapOk(base, list, ptr', size', live - {b}, blocks - {b}, Joined(at, p, b))
    ensures Joined(at, p, b).Keys == at.Keys
  {
    var ptr1: map<nat, nat> := ptr[list[j] := Succ(list, j)];
    NotListed(base, list, ptr1, size, live, blocks, at, b);
    assert j > 0;
    ListedBlock(base, list, ptr1, size, live, blocks, at, j);
    hide Cover, Linked, Shares;
    Join(blocks, size, at, p, b, size');
    SizeAt(base, list, size, j, size');
    SharesLess(base, list, live, blocks, b);
  }

  lemma SizeAt(base: nat, list: seq<nat>, size: map<nat, nat>, j: nat, size': map<nat, nat>)
    requires Spaced(base, list, size) && 0 < j < |list| && list[j] in size' && size' == size[list[j] := size'[list[j]]]
    requires j + 1 < |list| ==> list[j] + size'[list[j]] < list[j + 1]
    ensures Spaced(base, list, size')
  {
    OffElse(base, list, size, j, 0);
    forall i: nat | i + 1 < |list| ensures Gap(list, size', i) {
      assert Gap(list, size, i);
      if i != j {
        OffElse(base, list, size, j, i);
      }
    }
  }

  lemma SharesLess(base: nat, list: seq<nat>, live: set<nat>, blocks: set<nat>, b: nat)
    requires Shares(base, list, live, blocks) && b in live
    ensures Shares(base, list, live - {b}, blocks - {b})
  {
  }

  lemma NoMergeDown(base: nat, list: seq<nat>, ptr: map<nat, nat>, size: map<nat, nat>, live: set<nat>,
                    blocks: set<nat>, at: map<nat, nat>,
                    b: nat, j: nat, ptr': map<nat, nat>, p: nat, list': seq<nat>)
    requires Fits(base, list, ptr, size, live, blocks, at, b, j) && p == list[j] && p in size && p + size[p] != b
    requires ptr' == ptr[p := b] && list' == With(list, j, b)
    ensures HeapOk(base, list', ptr', size, live - {b}, blocks, at) && |list'| == |list| + 1 && list'[j] == p
    ensures list'[j + 1] == b
  {
    var ptr1: map<nat, nat> := ptr[list[j] := Succ(list, j)];
    NotListed(base, list, ptr1, size, live, blocks, at, b);
    if j > 0 {
      ListedBlock(base, list, ptr1, size, live, blocks, at, j);
      Apart(blocks, size, at, p, b);
    }
    hide Cover, Linked;
    PutOn(base, list, ptr1, size, j, b, list');
    assert ptr1[b := Succ(list, j)][p := b] == ptr';
    OnShares(base, list, live, blocks, b, j, list');
  }

  lemma OnShares(base: nat, list: seq<nat>, live: set<nat>, blocks: set<nat>, b: nat, j: nat, l: seq<nat>)
    requires Shares(base, list, live, blocks) && j < |list| && |l| == |list| + 1 && b in live && b !in list
    requires forall i: nat {:trigger l[i]} | i < |l| ::
               l[i] == if i <= j then list[i] else if i == j + 1 then b else list[i - 1]
    ensures Shares(base, l, live - {b}, blocks)
  {
    forall x | x in blocks && x !in live - {b} ensures x in l {
      if x == b {
        assert l[j + 1] == b;
      } else {
        var i :| 0 <= i < |list| && list[i] == x;
        assert l[if i <= j then i else i + 1] == x;
      }
    }
  }

  // ---- malloc ----

  /** The position t steps after g, round the list. */
  function Round(g: nat, t: nat, n: nat): nat
    requires g < n && t <= n
  {
    if g + t < n then g + t else g + t - n
  }

  /** The first t blocks after list[g] are too small. */
  ghost predicate TooSmall(list: seq<nat>, size: map<nat, nat>, g: nat, t: nat, units: nat)
    requires g < |list| && t <= |list|
  {
    forall s: nat {:trigger Round(g, s, |list|)} | 1 <= s <= t :: list[Round(g, s, |list|)] in size && size[list[Round(g, s, |list|)]] < units
  }

  /** b is cut off the end of the first block after freep, round the list, that is large enough. */
  ghost predicate NextFit(list: seq<nat>, size: map<nat, nat>, freep: nat, units: nat, b: nat) {
    exists g: nat, t: nat :: FitsNext(list, size, freep, units, b, g, t)
  }

  ghost predicate FitsNext(list: seq<nat>, size: map<nat, nat>, freep: nat, units: nat, b: nat, g: nat, t: nat) {
    && g < |list| && list[g] == freep && t < |list| && TooSmall(list, size, g, t, units)
    && var p := list[Round(g, t + 1, |list|)];
       p in size && size[p] >= units && b == p + (size[p] - units)
  }

  lemma NextFits(list: seq<nat>, size: map<nat, nat>, freep: nat, units: nat, g: nat, t: nat)
    requires g < |list| && list[g] == freep && t < |list| && TooSmall(list, size, g, t, units)
    requires var p := list[Round(g, t + 1, |list|)]; p in size && size[p] >= units
    ensures var p := list[Round(g, t + 1, |list|)]; NextFit(list, size, freep, units, p + (size[p] - units))
  {
    var p := list[Round(g, t + 1, |list|)];
    assert FitsNext(list, size, freep, units, p + (size[p] - units), g, t);
  }

  ghost predicate NoneFits(list: seq<nat>, size: map<nat, nat>, units: nat) {
    forall i: nat {:trigger list[i]} | i < |list| :: list[i] in size && size[list[i]] < units
  }

  /** Once round, every block was looked at. */
  lemma AllRound(list: seq<nat>, size: map<nat, nat>, g: nat, units: nat)
    requires g < |list| && TooSmall(list, size, g, |list|, units)
    ensures NoneFits(list, size, units)
  {
    forall i: nat | i < |list| ensures list[i] in size && size[list[i]] < units {
      var s := if i > g then i - g else i + |list| - g;
      assert Round(g, s, |list|) == i;
    }
  }

  class Heap {
    const base: nat
    /** Headers: the next free block, and the size of the block, its header counted. */
    var ptr: map<nat, nat>
    var size: map<nat, nat>
    /** Where the last search ended; 0 before the first call. */
    var freep: nat
    /** The free list from base on, and the blocks in use. */
    ghost var list: seq<nat>
    ghost var live: set<nat>
    ghost var blocks: set<nat>
    /** The block that each unit got from sbrk is in. */
    ghost var at: map<nat, nat>

    ghost predicate Valid()
      reads this
    {
      && base > 0
      && (freep == 0 ==> list == [] && live == {} && blocks == {} && at == map[])
      && (freep != 0 ==> HeapOk(base, list, ptr, size, live, blocks, at) && freep in list)
    }

    constructor (b: nat)
      requires b > 0
      ensures Valid() && base == b && live == {} && at == map[]
    {
      base, freep := b, 0;
      ptr, size := map[], map[];
      list, live, blocks, at := [], {}, {}, map[];
    }

    /** Blocks do not overlap, and two free ones do not even touch. */
    lemma Separate(b: nat, c: nat)
      requires Valid() && b in blocks && c in blocks && b < c
      ensures b in size && b + size[b] <= c && (b !in live && c !in live ==> b + size[b] < c)
    {
      Apart(blocks, size, at, b, c);
      if b !in live && c !in live {
        ghost var i: nat :| i < |list| && list[i] == b;
        ghost var k: nat :| k < |list| && list[k] == c;
        if i < k {
          Ascending(base, list, size, i, k);
        } else {
          Ascending(base, list, size, k, i);
        }
      }
    }

    /** The search of free: the free block that bp goes after. */
    method Search(bp: nat) returns (p: nat, ghost j: nat)
      requires Valid() && bp in live
      ensures Place(list, bp, j) && j < |list| && p == list[j] && p in ptr && p in size && ptr[p] == Succ(list, j)
      ensures p >= base > 0
    {
      NotListed(base, list, ptr, size, live, blocks, at, bp);
      j := FindPlace(base, list, size, bp, 0);
      p := freep;
      ghost var i: nat :| i < |list| && list[i] == freep;
      hide Spaced, Shares, Cover;
      assert Link(list, ptr, i);
      StopsAt(base, list, size, bp, j, i);
      while !(bp > p && bp < ptr[p]) && !(p >= ptr[p] && (bp > p || bp < ptr[p]))
        invariant i < |list| && p == list[i] && p in ptr && ptr[p] == Succ(list, i)
        invariant (bp > p && bp < ptr[p]) || (p >= ptr[p] && (bp > p || bp < ptr[p])) <==> i == j
        decreases if i <= j then j - i else |list| - i + j
      {
        p := ptr[p];
        i := if i + 1 < |list| then i + 1 else 0;
        assert Link(list, ptr, i);
        StopsAt(base, list, size, bp, j, i);
      }
      assert Link(list, ptr, j);
      SizeIn(base, list, size, j);
    }

    /** free of the block with header bp: it joins the free blocks it touches. */
    method Free(bp: nat)
      requires Valid() && bp in live
      modifies this`ptr, this`size, this`freep, this`list, this`live, this`blocks, this`at
      ensures Valid() && live == old(live) - {bp} && at.Keys == old(at).Keys
      ensures forall b | b in live :: b in size && b in old(size) && size[b] == old(size)[b]
      ensures bp in old(size) && exists i: nat :: i < |list| && list[i] in size && size[list[i]] >= old(size)[bp]
    {
      hide HeapOk, Fits, Joined, Without, With, Succ, Place;
      var p;
      ghost var j;
      p, j := Search(bp);
      NotListed(base, list, ptr, size, live, blocks, at, bp);
      OthersLive(base, list, ptr, size, live, blocks, at, bp, j);
      var next := ptr[p];
      if bp + size[bp] == next {
        NextHeader(base, list, ptr, size, live, blocks, at, bp, j);
        MergeUp(base, list, ptr, size, live, blocks, at, bp, j, ptr[bp := ptr[next]], size[bp := size[bp] + size[next]],
                Without(list, j), next);
        ptr, size := ptr[bp := ptr[next]], size[bp := size[bp] + size[next]];
        list, blocks, at := Without(list, j), blocks - {next}, Joined(at, bp, next);
      } else {
        NoMergeUp(base, list, ptr, size, live, blocks, at, bp, j, ptr[bp := next]);
        ptr := ptr[bp := next];
      }
      FitsFacts(base, list, ptr, size, live, blocks, at, bp, j, p);
      if p + size[p] == bp {
        MergeDown(base, list, ptr, size, live, blocks, at, bp, j, ptr[p := ptr[bp]], size[p := size[p] + size[bp]], p);
        ptr, size := ptr[p := ptr[bp]], size[p := size[p] + size[bp]];
        blocks, at := blocks - {bp}, Joined(at, p, bp);
        assert list[j] in size && size[list[j]] >= old(size)[bp];
      } else {
        NoMergeDown(base, list, ptr, size, live, blocks, at, bp, j, ptr[p := bp], p, With(list, j, bp));
        ptr := ptr[p := bp];
        list := With(list, j, bp);
        assert list[j + 1] in size && size[list[j + 1]] >= old(size)[bp];
      }
      live := live - {bp};
      freep := p;
    }

    /** Memory that sbrk may hand out for n units: above base, and not part of the heap yet. */
    ghost predicate Fresh(grant: nat, n: nat)
      reads this
    {
      grant > base && forall u | grant <= u < grant + n :: u !in at
    }

    /** Asks sbrk for nu units, at least 4096, and frees what it grants; grant is 0 if sbrk fails. */
    method MoreCore(nu: nat, grant: nat) returns (p: nat)
      requires Valid() && freep != 0 && 0 < nu && nu * HEADER < LIMIT && (grant != 0 ==> Fresh(grant, Asked(nu)))
      modifies this`ptr, this`size, this`freep, this`list, this`live, this`blocks, this`at
      ensures Valid() && live == old(live) && p == (if grant == 0 then 0 else freep) && freep != 0
      ensures forall b | b in live :: b in size && b in old(size) && size[b] == old(size)[b]
      ensures grant == 0 ==> list == old(list) && size == old(size) && at == old(at) && freep == old(freep)
      ensures grant != 0 ==> exists i: nat :: i < |list| && list[i] in size && size[list[i]] >= nu
      ensures grant != 0 ==> forall u :: u in at <==> u in old(at) || grant <= u < grant + Asked(nu)
    {
      hide HeapOk;
      var n := nu;
      if n < 4096 {
        n := 4096;
      }
      LiveSizes(base, list, ptr, size, live, blocks, at);
      if grant == 0 {
        return 0;
      }
      ghost var at1 := at + Whole(grant, n);
      GrowOk(base, list, ptr, size, live, blocks, at, grant, n, at1);
      size := size[grant := n];
      live, blocks, at := live + {grant}, blocks + {grant}, at1;
      Free(grant);
      return freep;
    }

    /** malloc; grant is what sbrk would return if it is asked. */
    method Malloc(nbytes: nat, grant: nat) returns (ap: nat)
      requires Valid() && Units(nbytes) * HEADER < LIMIT && (grant != 0 ==> Fresh(grant, Asked(Units(nbytes))))
      modifies this`ptr, this`size, this`freep, this`list, this`live, this`blocks, this`at
      ensures Valid()
      ensures forall b | b in old(live) :: b in size && b in old(size) && size[b] == old(size)[b]
      ensures ap != 0 ==>
                && ap - 1 !in old(live) && live == old(live) + {ap - 1} && ap - 1 in size
                && size[ap - 1] == Units(nbytes) && nbytes <= (size[ap - 1] - 1) * HEADER < nbytes + HEADER
      ensures ap == 0 <==> grant == 0 && old(NoneFits(list, size, Units(nbytes)))
      ensures ap == 0 ==> live == old(live)
      ensures grant != 0 && old(NoneFits(list, size, Units(nbytes))) ==>
                forall u :: u in at <==> u in old(at) || grant <= u < grant + Asked(Units(nbytes))
      ensures grant == 0 || !old(NoneFits(list, size, Units(nbytes))) ==> at.Keys == old(at).Keys
      ensures !old(NoneFits(list, size, Units(nbytes))) ==>
                ap != 0 && NextFit(old(list), old(size), old(freep), Units(nbytes), ap - 1)
    {
      hide HeapOk, NoneFits, TooSmall, NextFit;
      var nunits := Units(nbytes);
      ghost var none := NoneFits(list, size, nunits);
      if freep == 0 {
        Begin();
        NoneAtFirst(base, size, old(size), nunits);
      }
      LiveSizes(base, list, ptr, size, live, blocks, at);
      var prevp := freep;
      ghost var g: nat :| g < |list| && list[g] == freep;
      ghost var t := 0;
      ghost var grown := false;
      StepAt(base, list, ptr, size, live, blocks, at, g, 0);
      var p := ptr[prevp];
      SmallNone(list, size, g, nunits);
      while true
        invariant Valid() && freep != 0 && live == old(live) && g < |list| && list[g] == freep && 0 <= t < |list|
        invariant prevp == list[Round(g, t, |list|)] && p == list[Round(g, t + 1, |list|)] && p in size && p in ptr
        invariant prevp in ptr && ptr[prevp] == p
        invariant TooSmall(list, size, g, t, nunits)
        invariant grown ==> !NoneFits(list, size, nunits)
        invariant forall b | b in live :: b in size && b in old(size) && size[b] == old(size)[b]
        invariant !grown ==> at == old(at) && none == NoneFits(list, size, nunits)
        invariant !none ==> list == old(list) && size == old(size) && freep == old(freep)
        invariant grown ==> none
        invariant grown ==> grant != 0 && forall u :: u in at <==> u in old(at) || grant <= u < grant + Asked(nunits)
        decreases if grown then 0 else 1, |list| - t
      {
        if size[p] >= nunits {
          FitsAt(list, size, Round(g, t + 1, |list|), nunits);
          NextFits(list, size, freep, nunits, g, t);
          ap := Carve(prevp, p, nunits, Round(g, t + 1, |list|));
          return ap;
        }
        SmallMore(list, size, g, t, nunits);
        if p == freep {
          OnceRound(base, list, ptr, size, live, blocks, at, g, t, nunits);
          assert !grown;
          p := MoreCore(nunits, grant);
          if p == 0 {
            return 0;
          }
          SomeFits(list, size, nunits);
          g :| g < |list| && list[g] == freep;
          t := 0;
          grown := true;
          SmallNone(list, size, g, nunits);
        } else {
          NotRound(base, list, ptr, size, live, blocks, at, g, t);
          t := t + 1;
        }
        StepAt(base, list, ptr, size, live, blocks, at, g, t);
        prevp := p;
        p := ptr[p];
      }
    }

    /** The list of a heap that was never used: base alone. */
    method Begin()
      requires Valid() && freep == 0
      modifies this`ptr, this`size, this`freep, this`list
      ensures Valid() && freep == base && list == [base] && base in size && size[base] == 0
    {
      ptr := ptr[base := base];
      size := size[base := 0];
      freep := base;
      list := [base];
      assert Link(list, ptr, 0);
    }

    /** Takes units from the free block p after prevp: the block itself, or its upper end. */
    method Carve(prevp: nat, p: nat, units: nat, ghost k: nat) returns (ap: nat)
      requires Valid() && freep != 0 && k < |list| && list[k] == p && p in size && p in ptr && prevp in ptr
      requires ptr[prevp] == p
      requires prevp in list && 0 < units <= size[p]
      modifies this`ptr, this`size, this`freep, this`list, this`live, this`blocks, this`at
      ensures Valid() && ap != 0 && ap - 1 !in old(live) && live == old(live) + {ap - 1} && at.Keys == old(at).Keys
      ensures ap - 1 in size && size[ap - 1] == units && ap - 1 == p + (old(size)[p] - units)
      ensures if units == old(size)[p] then 0 < k && k < |old(list)| && list == Without(old(list), k - 1) else list == old(list)
      ensures forall b | b in old(live) :: b in size && b in old(size) && size[b] == old(size)[b]
    {
      hide HeapOk;
      LiveSizes(base, list, ptr, size, live, blocks, at);
      Before(base, list, ptr, size, live, blocks, at, prevp, k);
      if size[p] == units {
        ExactOk(base, list, ptr, size, live, blocks, at, k - 1, ptr[prevp := ptr[p]], Without(list, k - 1));
        ptr := ptr[prevp := ptr[p]];
        list := Without(list, k - 1);
        live := live + {p};
        freep := prevp;
        assert list[k - 1] == prevp;
        return p + 1;
      }
      var c := p + (size[p] - units);
      ghost var at1 := map u | u in at :: if c <= u < c + units then c else at[u];
      SplitOk(base, list, ptr, size, live, blocks, at, k, units, c, size[p := size[p] - units][c := units], at1);
      size := size[p := size[p] - units];
      size := size[c := units];
      live, blocks, at := live + {c}, blocks + {c}, at1;
      freep := prevp;
      return c + 1;
    }
  }

  /** The units of a new block of size n. */
  ghost function Whole(c: nat, n: nat): (m: map<nat, nat>)
    ensures forall u :: u in m <==> c <= u < c + n
    ensures forall u | u in m :: m[u] == c
  {
    if n == 0 then map[] else Whole(c, n - 1)[c + n - 1 := c]
  }

  function Units(nbytes: nat): nat {
    (nbytes + HEADER - 1) / HEADER + 1
  }

  function Asked(nu: nat): nat {
    if nu < 4096 then 4096 else nu
  }

  lemma SizeIn(base: nat, list: seq<nat>, size: map<nat, nat>, j: nat)
    requires Spaced(base, list, size) && j < |list|
    ensures list[j] in size && list[j] >= base
  {
    if j > 0 {
      Ascending(base, list, size, 0, j);
    }
  }

  /** The live blocks keep their headers: neither bp nor the blocks it may join are among them. */
  lemma OthersLive(base: nat, list: seq<nat>, ptr: map<nat, nat>, size: map<nat, nat>, live: set<nat>, blocks: set<nat>,
                   at: map<nat, nat>, b: nat, j: nat)
    requires HeapOk(base, list, ptr, size, live, blocks, at) && b in live && j < |list|
    ensures list[j] !in live && forall x | x in live :: x in size
  {
    if j == 0 {
      assert list[0] == base;
    }
  }

  lemma NextHeader(base: nat, list: seq<nat>, ptr: map<nat, nat>, size: map<nat, nat>, live: set<nat>, blocks: set<nat>,
                   at: map<nat, nat>, b: nat, j: nat)
    requires HeapOk(base, list, ptr, size, live, blocks, at) && b in live && Place(list, b, j) && b in size
    requires b + size[b] == Succ(list, j)
    ensures j + 1 < |list| && Succ(list, j) in ptr && Succ(list, j) in size
  {
    NotListed(base, list, ptr, size, live, blocks, at, b);
    assert Link(list, ptr, j + 1);
  }

  lemma FitsFacts(base: nat, list: seq<nat>, ptr: map<nat, nat>, size: map<nat, nat>, live: set<nat>, blocks: set<nat>,
                  at: map<nat, nat>, b: nat, j: nat, p: nat)
    requires Fits(base, list, ptr, size, live, blocks, at, b, j)
    ensures j < |list| && list[j] in size && b in size && b in ptr && b in live
  {
  }

  lemma LiveSizes(base: nat, list: seq<nat>, ptr: map<nat, nat>, size: map<nat, nat>, live: set<nat>, blocks: set<nat>,
                  at: map<nat, nat>)
    requires HeapOk(base, list, ptr, size, live, blocks, at)
    ensures forall b | b in live :: b in size
  {
  }

  lemma GrowOk(base: nat, list: seq<nat>, ptr: map<nat, nat>, size: map<nat, nat>, live: set<nat>, blocks: set<nat>,
               at: map<nat, nat>, c: nat, n: nat, at': map<nat, nat>)
    requires HeapOk(base, list, ptr, size, live, blocks, at) && n > 0 && c > base
    requires (forall u | c <= u < c + n :: u !in at)
    requires forall u :: u in at' <==> u in at || c <= u < c + n
    requires forall u | u in at' :: at'[u] == if u in at then at[u] else c
    ensures c !in live && HeapOk(base, list, ptr, size[c := n], live + {c}, blocks + {c}, at')
  {
    Grow(blocks, size, at, c, n, at');
    hide Cover, Linked;
    assert c !in list by {
      forall i: nat | i < |list| ensures list[i] != c {
      }
    }
    SizeElse(base, list, size, c, n);
    hide Spaced;
  }

  /** The block t + 1 steps after list[g], from the one before it. */
  lemma StepAt(base: nat, list: seq<nat>, ptr: map<nat, nat>, size: map<nat, nat>, live: set<nat>, blocks: set<nat>,
               at: map<nat, nat>, g: nat, t: nat)
    requires HeapOk(base, list, ptr, size, live, blocks, at) && g < |list| && t < |list|
    ensures var q := list[Round(g, t, |list|)]; q in ptr && ptr[q] == list[Round(g, t + 1, |list|)]
    ensures var p := list[Round(g, t + 1, |list|)]; p in ptr && p in size
  {
    hide Cover, Shares;
    assert Link(list, ptr, Round(g, t, |list|)) && Link(list, ptr, Round(g, t + 1, |list|));
  }

  lemma SmallNone(list: seq<nat>, size: map<nat, nat>, g: nat, units: nat)
    requires g < |list|
    ensures TooSmall(list, size, g, 0, units)
  {
  }

  lemma SmallMore(list: seq<nat>, size: map<nat, nat>, g: nat, t: nat, units: nat)
    requires g < |list| && t < |list| && TooSmall(list, size, g, t, units)
    requires list[Round(g, t + 1, |list|)] in size && size[list[Round(g, t + 1, |list|)]] < units
    ensures TooSmall(list, size, g, t + 1, units)
  {
  }

  /** Back at the start, nothing fits. */
  lemma OnceRound(base: nat, list: seq<nat>, ptr: map<nat, nat>, size: map<nat, nat>, live: set<nat>, blocks: set<nat>,
                  at: map<nat, nat>, g: nat, t: nat, units: nat)
    requires HeapOk(base, list, ptr, size, live, blocks, at) && g < |list| && t < |list|
    requires list[Round(g, t + 1, |list|)] == list[g]
    requires TooSmall(list, size, g, t + 1, units)
    ensures NoneFits(list, size, units)
  {
    if Round(g, t + 1, |list|) != g {
      OffElse(base, list, size, g, Round(g, t + 1, |list|));
    }
    AllRound(list, size, g, units);
  }

  lemma NotRound(base: nat, list: seq<nat>, ptr: map<nat, nat>, size: map<nat, nat>, live: set<nat>, blocks: set<nat>,
                 at: map<nat, nat>, g: nat, t: nat)
    requires g < |list| && t < |list| && list[Round(g, t + 1, |list|)] != list[g]
    ensures t + 1 < |list|
  {
  }

  lemma NoneAtFirst(base: nat, size: map<nat, nat>, size0: map<nat, nat>, units: nat)
    requires base in size && size[base] == 0 < units
    ensures NoneFits([base], size, units) && NoneFits([], size0, units)
  {
  }

  lemma FitsAt(list: seq<nat>, size: map<nat, nat>, i: nat, units: nat)
    requires i < |list| && list[i] in size && size[list[i]] >= units
    ensures !NoneFits(list, size, units)
  {
  }

  lemma SomeFits(list: seq<nat>, size: map<nat, nat>, units: nat)
    requires exists i: nat :: i < |list| && list[i] in size && size[list[i]] >= units
    ensures !NoneFits(list, size, units)
  {
  }

  /** The block before list[k] on the list is the only one that leads to it. */
  lemma Before(base: nat, list: seq<nat>, ptr: map<nat, nat>, size: map<nat, nat>, live: set<nat>, blocks: set<nat>,
               at: map<nat, nat>, prevp: nat, k: nat)
    requires HeapOk(base, list, ptr, size, live, blocks, at) && k < |list| && prevp in list && prevp in ptr
    requires ptr[prevp] == list[k]
    requires list[k] in size && size[list[k]] > 0
    ensures 0 < k && prevp == list[k - 1] && list[k] !in live && prevp >= base
  {
    var i :| 0 <= i < |list| && list[i] == prevp;
    assert Link(list, ptr, i);
    assert k > 0;
    OffElse(base, list, size, k, 0);
    if i + 1 < |list| && i + 1 != k {
      OffElse(base, list, size, k, i + 1);
    }
    SizeIn(base, list, size, i);
    if i > 0 {
      Ascending(base, list, size, 0, i);
    }
    ListedBlock(base, list, ptr, size, live, blocks, at, k);
  }

  lemma ExactOk(base: nat, list: seq<nat>, ptr: map<nat, nat>, size: map<nat, nat>, live: set<nat>, blocks: set<nat>,
                at: map<nat, nat>, j: nat, ptr': map<nat, nat>, l: seq<nat>)
    requires HeapOk(base, list, ptr, size, live, blocks, at) && j + 1 < |list| && list[j + 1] in ptr
    requires ptr' == ptr[list[j] := ptr[list[j + 1]]] && l == Without(list, j)
    ensures HeapOk(base, l, ptr', size, live + {list[j + 1]}, blocks, at) && |l| == |list| - 1 && l[j] == list[j]
  {
    ListedBlock(base, list, ptr, size, live, blocks, at, j + 1);
    hide Cover, Linked;
    TakeOff(base, list, ptr, size, j, l);
    ExactShares(base, list, live, blocks, j, l, size);
  }

  lemma ExactShares(base: nat, list: seq<nat>, live: set<nat>, blocks: set<nat>, j: nat, l: seq<nat>, size: map<nat,
                    nat>)
    requires Shares(base, list, live, blocks) && Spaced(base, list, size) && j + 1 < |list| == |l| + 1
    requires forall i: nat {:trigger l[i]} | i < |l| :: l[i] == if i <= j then list[i] else list[i + 1]
    ensures Shares(base, l, live + {list[j + 1]}, blocks)
  {
    hide Spaced;
    forall i: nat | 0 < i < |l| ensures l[i] in blocks && l[i] !in live + {list[j + 1]} {
      var k := if i <= j then i else i + 1;
      OffElse(base, list, size, j + 1, k);
      assert list[k] in blocks && list[k] !in live;
    }
    forall x | x in blocks && x !in live + {list[j + 1]} ensures x in l {
      var i :| 0 <= i < |list| && list[i] == x;
      assert l[if i <= j then i else i - 1] == x;
    }
    assert list[j + 1] in blocks;
  }

  lemma SplitOk(base: nat, list: seq<nat>, ptr: map<nat, nat>, size: map<nat, nat>, live: set<nat>, blocks: set<nat>,
                at: map<nat, nat>,
                k: nat, n: nat, c: nat, size': map<nat, nat>, at': map<nat, nat>)
    requires HeapOk(base, list, ptr, size, live, blocks, at) && 0 < k < |list| && list[k] in size
    requires 0 < n < size[list[k]]
    requires c == list[k] + size[list[k]] - n && size' == size[list[k] := size[list[k]] - n][c := n]
    requires at' == (map u | u in at :: if c <= u < c + n then c else at[u])
    ensures c !in live && HeapOk(base, list, ptr, size', live + {c}, blocks + {c}, at') && at'.Keys == at.Keys
    ensures forall b | b in live :: b in size && size'[b] == size[b]
  {
    ListedBlock(base, list, ptr, size, live, blocks, at, k);
    Split(blocks, size, at, list[k], n, c, size', at');
    hide Linked;
    assert c !in list by {
      forall i: nat | i < |list| ensures list[i] != c {
      }
    }
    hide Cover;
    var size1 := size[list[k] := size[list[k]] - n];
    if k + 1 < |list| {
      assert Gap(list, size, k);
    }
    SizeAt(base, list, size, k, size1);
    SizeElse(base, list, size1, c, n);
  }
}
