/** Copies between the kernel and user space, kernel/vm.c, as byte-by-byte translation. */
module CopySpec {
  import opened Blocks
  import opened VmSpec

  /** The PTE an address goes through. */
  ghost function PteOf(pt: Tables, root: nat, va: nat): Pte {
    Leaf(pt, root, va / PGSIZE)
  }

  ghost predicate Readable(pt: Tables, root: nat, va: nat) {
    va / PGSIZE < VPNS && PteOf(pt, root, va).v && PteOf(pt, root, va).flags.u
  }

  ghost predicate Writable(pt: Tables, root: nat, va: nat) {
    Readable(pt, root, va) && PteOf(pt, root, va).flags.w
  }

  ghost predicate AllReadable(pt: Tables, root: nat, lo: nat, hi: nat) {
    forall a: nat | lo <= a < hi :: Readable(pt, root, a)
  }

  ghost predicate AllWritable(pt: Tables, root: nat, lo: nat, hi: nat) {
    forall a: nat | lo <= a < hi :: Writable(pt, root, a)
  }

  function SetByte(s: seq<byte>, o: nat, b: byte): seq<byte>
    requires o < |s|
  {
    var t: seq<byte> := s[..o] + [b] + s[o + 1..];
    t
  }

  /** Store one byte through the page table. */
  ghost function Poke(data: map<nat, seq<byte>>, pt: Tables, root: nat, va: nat, b: byte): map<nat, seq<byte>> {
    var q, o := PteOf(pt, root, va).ppn, va % PGSIZE;
    if q in data && o < |data[q]| then data[q := SetByte(data[q], o, b)] else data
  }

  /** Store the first k bytes of src from va on, one after the other. */
  ghost function Stored(data: map<nat, seq<byte>>, pt: Tables, root: nat, va: nat, src: seq<byte>,
                        k: nat): map<nat, seq<byte>>
    requires k <= |src|
  {
    if k == 0 then data else Poke(Stored(data, pt, root, va, src, k - 1), pt, root, va + k - 1, src[k - 1])
  }

  /** Load one byte through the page table. */
  ghost function Peek(data: map<nat, seq<byte>>, pt: Tables, root: nat, va: nat): byte {
    var q, o := PteOf(pt, root, va).ppn, va % PGSIZE;
    if q in data && o < |data[q]| then data[q][o] else 0
  }

  ghost function Loaded(data: map<nat, seq<byte>>, pt: Tables, root: nat, va: nat, k: nat): (s: seq<byte>)
    ensures |s| == k && forall i | 0 <= i < k :: s[i] == Peek(data, pt, root, va + i)
  {
    seq<byte>(k, i requires 0 <= i => Peek(data, pt, root, va + i))
  }

  /** memmove of n bytes into page q at offset o. */
  ghost function Moved(data: map<nat, seq<byte>>, q: nat, o: nat, src: seq<byte>): map<nat, seq<byte>>
    requires q in data && o + |src| <= |data[q]|
  {
    data[q := data[q][..o] + src + data[q][o + |src|..]]
  }

  lemma SamePage(va: nat, i: nat)
    requires va % PGSIZE + i < PGSIZE
    ensures (va + i) / PGSIZE == va / PGSIZE && (va + i) % PGSIZE == va % PGSIZE + i
  {
  }

  lemma {:induction false} StoredShape(data: map<nat, seq<byte>>, pt: Tables, root: nat, va: nat, src: seq<byte>,
                                       k: nat)
    requires k <= |src|
    ensures var d := Stored(data, pt, root, va, src, k);
            d.Keys == data.Keys && forall q | q in data :: |d[q]| == |data[q]|
  {
    if k > 0 {
      StoredShape(data, pt, root, va, src, k - 1);
    }
  }

  /** Moving n bytes inside one page is storing them one by one. */
  lemma {:induction false} StoredChunk(data: map<nat, seq<byte>>, pt: Tables, root: nat, va: nat, src: seq<byte>,
                                       k: nat, n: nat)
    requires k + n <= |src| && (va + k) % PGSIZE + n <= PGSIZE
    requires var q := PteOf(pt, root, va + k).ppn; q in data && |data[q]| == PGSIZE
    ensures var d, q := Stored(data, pt, root, va, src, k), PteOf(pt, root, va + k).ppn;
            && q in d && |d[q]| == PGSIZE
            && Stored(data, pt, root, va, src, k + n) == Moved(d, q, (va + k) % PGSIZE, src[k..k + n])
    decreases n
  {
    hide Leaf, Poke;
    var d, q, o := Stored(data, pt, root, va, src, k), PteOf(pt, root, va + k).ppn, (va + k) % PGSIZE;
    StoredShape(data, pt, root, va, src, k);
    if n == 0 {
      assert d[q][..o] + src[k..k] + d[q][o..] == d[q];
    } else {
      StoredChunk(data, pt, root, va, src, k, n - 1);
      SamePage(va + k, n - 1);
      assert src[k..k + n] == src[k..k + n - 1] + [src[k + n - 1]];
      PokeMoved(d, pt, root, va + k + n - 1, q, o, src[k..k + n - 1], src[k + n - 1]);
    }
  }

  lemma PokeMoved(d: map<nat, seq<byte>>, pt: Tables, root: nat, va: nat, q: nat, o: nat, s: seq<byte>, b: byte)
    requires q in d && o + |s| < |d[q]| && PteOf(pt, root, va).ppn == q && va % PGSIZE == o + |s|
    ensures Poke(Moved(d, q, o, s), pt, root, va, b) == Moved(d, q, o, s + [b])
  {
    hide Leaf, PteOf;
    var n := |s|;
    var e := d[q][..o] + s + d[q][o + n..];
    assert SetByte(e, o + n, b) == d[q][..o] + (s + [b]) + d[q][o + n + 1..];
  }

  /** A slice of one page is what loading it byte by byte gives. */
  lemma LoadedChunk(data: map<nat, seq<byte>>, pt: Tables, root: nat, va: nat, k: nat, n: nat)
    requires (va + k) % PGSIZE + n <= PGSIZE
    requires var q := PteOf(pt, root, va + k).ppn; q in data && |data[q]| == PGSIZE
    ensures var q, o := PteOf(pt, root, va + k).ppn, (va + k) % PGSIZE;
            Loaded(data, pt, root, va, k + n) == Loaded(data, pt, root, va, k) + data[q][o..o + n]
  {
    hide Leaf;
    var q, o := PteOf(pt, root, va + k).ppn, (va + k) % PGSIZE;
    var l, r := Loaded(data, pt, root, va, k + n), Loaded(data, pt, root, va, k) + data[q][o..o + n];
    forall m | 0 <= m < k + n ensures l[m] == r[m] {
      if m >= k {
        SamePage(va + k, m - k);
      }
    }
  }

  /** The pages of the n bytes from va on are backed, each by its own page. */
  ghost predicate Unaliased(data: map<nat, seq<byte>>, pt: Tables, root: nat, va: nat, n: nat) {
    && (forall x | va / PGSIZE <= x && x * PGSIZE < va + n ::
          Leaf(pt, root, x).ppn in data && |data[Leaf(pt, root, x).ppn]| == PGSIZE)
    && (forall x, y | va / PGSIZE <= x < y && y * PGSIZE < va + n :: Leaf(pt, root, x).ppn != Leaf(pt, root, y).ppn)
  }

  lemma SpreadOut(data: map<nat, seq<byte>>, pt: Tables, root: nat, va: nat, n: nat, i: nat, j: nat)
    requires Unaliased(data, pt, root, va, n) && i < j < n
    ensures PteOf(pt, root, va + i).ppn != PteOf(pt, root, va + j).ppn || (va + i) % PGSIZE != (va + j) % PGSIZE
  {
    hide Leaf;
    var x, y := (va + i) / PGSIZE, (va + j) / PGSIZE;
    assert va / PGSIZE <= x <= y && y * PGSIZE < va + n;
    assert va + i == x * PGSIZE + (va + i) % PGSIZE && va + j == y * PGSIZE + (va + j) % PGSIZE;
  }

  lemma BackedAt(data: map<nat, seq<byte>>, pt: Tables, root: nat, va: nat, n: nat, i: nat)
    requires Unaliased(data, pt, root, va, n) && i < n
    ensures PteOf(pt, root, va + i).ppn in data && |data[PteOf(pt, root, va + i).ppn]| == PGSIZE
    ensures (va + i) % PGSIZE < PGSIZE
  {
    hide Leaf;
    var x := (va + i) / PGSIZE;
    assert va / PGSIZE <= x && x * PGSIZE < va + n;
  }

  /** Storing another byte leaves this one. */
  lemma PokePeek(data: map<nat, seq<byte>>, pt: Tables, root: nat, a: nat, b: nat, v: byte)
    requires PteOf(pt, root, a).ppn != PteOf(pt, root, b).ppn || a % PGSIZE != b % PGSIZE
    ensures Peek(Poke(data, pt, root, b, v), pt, root, a) == Peek(data, pt, root, a)
  {
    hide Leaf, PteOf;
  }

  /** What copyout stored, copyin loads. */
  lemma {:induction false} StoredLoaded(data: map<nat, seq<byte>>, pt: Tables, root: nat, va: nat, src: seq<byte>,
                                        k: nat)
    requires k <= |src| && Unaliased(data, pt, root, va, |src|)
    ensures Loaded(Stored(data, pt, root, va, src, k), pt, root, va, k) == src[..k]
  {
    hide Leaf, PteOf, Unaliased, Poke, Peek;
    if k > 0 {
      var d, e := Stored(data, pt, root, va, src, k - 1), Stored(data, pt, root, va, src, k);
      StoredLoaded(data, pt, root, va, src, k - 1);
      StoredShape(data, pt, root, va, src, k - 1);
      forall i | 0 <= i < k - 1 ensures Peek(e, pt, root, va + i) == src[i] {
        SpreadOut(data, pt, root, va, |src|, i, k - 1);
        PokePeek(d, pt, root, va + i, va + (k - 1), src[k - 1]);
        assert Peek(d, pt, root, va + i) == Loaded(d, pt, root, va, k - 1)[i];
      }
      BackedAt(data, pt, root, va, |src|, k - 1);
      Poked(d, pt, root, va + (k - 1), src[k - 1]);
    }
  }

  lemma Poked(data: map<nat, seq<byte>>, pt: Tables, root: nat, va: nat, v: byte)
    requires PteOf(pt, root, va).ppn in data && |data[PteOf(pt, root, va).ppn]| == PGSIZE
    ensures Peek(Poke(data, pt, root, va, v), pt, root, va) == v
  {
    hide Leaf, PteOf;
  }

  /** Two mappings lead to the same user page only if they are the same one. */
  lemma Unshared(pt: Tables, kind: map<nat, Kind>, r: nat, v: nat, r': nat, v': nat)
    requires VmInv(pt, kind) && IsRoot(kind, r) && IsRoot(kind, r') && v < VPNS && v' < VPNS
    requires Leaf(pt, r, v).v && Leaf(pt, r', v').v && Leaf(pt, r, v).ppn == Leaf(pt, r', v').ppn
    requires Leaf(pt, r, v).ppn in kind && kind[Leaf(pt, r, v).ppn] != Other
    ensures r == r' && v == v'
  {
    UnmapStep(pt, kind, r, v);
    UnmapStep(pt, kind, r', v');
    LastInjective(pt, kind, r, v, r', v');
  }

  /** The bytes of a page are all readable or writable, or none is. */
  lemma OnePage(pt: Tables, root: nat, va: nat, n: nat)
    requires va % PGSIZE + n <= PGSIZE
    ensures Readable(pt, root, va) ==> AllReadable(pt, root, va, va + n)
    ensures Writable(pt, root, va) ==> AllWritable(pt, root, va, va + n)
  {
    hide Leaf;
    forall a: nat | va <= a < va + n ensures PteOf(pt, root, a) == PteOf(pt, root, va) && a / PGSIZE == va / PGSIZE {
      SamePage(va, a - va);
    }
  }

  /** No page that the bytes lie on is one the kernel maps for itself. */
  ghost predicate UserBytes(pt: Tables, kind: map<nat, Kind>, root: nat, va: nat, n: nat) {
    forall a: nat | va <= a < va + n && Readable(pt, root, a) :: !IsOther(kind, PteOf(pt, root, a).ppn)
  }

  /** Some byte of the range lies on page x. */
  lemma OnPage(va: nat, n: nat, x: nat) returns (a: nat)
    requires n > 0 && va / PGSIZE <= x && x * PGSIZE < va + n
    ensures va <= a < va + n && a / PGSIZE == x
  {
    a := if va / PGSIZE == x then va else x * PGSIZE;
  }

  /** User bytes that can be read lie on pages of their own. */
  lemma UserUnaliased(pt: Tables, kind: map<nat, Kind>, data: map<nat, seq<byte>>, root: nat, va: nat, n: nat)
    requires VmInv(pt, kind) && IsRoot(kind, root) && n > 0
    requires data.Keys == kind.Keys && forall p | p in data :: |data[p]| == PGSIZE
    requires AllReadable(pt, root, va, va + n) && UserBytes(pt, kind, root, va, n)
    ensures Unaliased(data, pt, root, va, n)
  {
    hide Leaf, VmInv;
    forall x | va / PGSIZE <= x && x * PGSIZE < va + n
      ensures x < VPNS && Leaf(pt, root, x).v && Leaf(pt, root, x).ppn in data && !IsOther(kind, Leaf(pt, root, x).ppn)
    {
      var a := OnPage(va, n, x);
      assert Readable(pt, root, a);
      LeafIn(pt, kind, root, x);
    }
    forall x, y | va / PGSIZE <= x < y && y * PGSIZE < va + n ensures Leaf(pt, root, x).ppn != Leaf(pt, root, y).ppn {
      assert x * PGSIZE < va + n;
      if Leaf(pt, root, x).ppn == Leaf(pt, root, y).ppn {
        Unshared(pt, kind, root, x, root, y);
      }
    }
  }

  lemma LeafIn(pt: Tables, kind: map<nat, Kind>, root: nat, v: nat)
    requires VmInv(pt, kind) && IsRoot(kind, root) && v < VPNS && Leaf(pt, root, v).v
    ensures Leaf(pt, root, v).ppn in kind
  {
    UnmapStep(pt, kind, root, v);
  }
}
