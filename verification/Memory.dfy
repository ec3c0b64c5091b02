/** The page allocator and the page-table code of kernel/kalloc.c and kernel/vm.c. */
module Vm {
  import opened Blocks
  import opened VmSpec
  import opened CopySpec

  function Fill(b: byte): (p: seq<byte>)
    ensures |p| == PGSIZE && forall i | 0 <= i < PGSIZE :: p[i] == b
  {
    seq(PGSIZE, _ => b)
  }

  function Blank(lo: nat, hi: nat): (m: map<nat, seq<byte>>)
    ensures forall p :: p in m <==> lo <= p < hi
    ensures forall p | p in m :: |m[p]| == PGSIZE
  {
    if hi <= lo then map[] else Blank(lo, hi - 1)[hi - 1 := Fill(0)]
  }

  ghost function AllHeld(lo: nat, hi: nat): (m: map<nat, Kind>)
    ensures forall p :: p in m <==> lo <= p < hi
    ensures forall p | p in m :: m[p] == Held
  {
    if hi <= lo then map[] else AllHeld(lo, hi - 1)[hi - 1 := Held]
  }

  class Memory {
    /** Page-table pages, as arrays of entries. */
    var pt: Tables
    /** The bytes of every page. */
    var data: map<nat, seq<byte>>
    /** kmem.freelist. */
    var free: seq<nat>
    /** The one use of every page the allocator was given. */
    ghost var kind: map<nat, Kind>

    ghost predicate Valid()
      reads this
    {
      VmInv(pt, kind) && FreeList(free, kind) && DataOk(data, kind)
    }

    lemma ValidKeys()
      requires Valid()
      ensures VmInv(pt, kind) && data.Keys == kind.Keys && forall p | p in data :: |data[p]| == PGSIZE
    {
    }

    lemma Whole(kind0: map<nat, Kind>, root: nat)
      requires IsRoot(kind0, root) && CutOff(kind0, root, pt, kind) && FreeList(free, kind) && DataOk(data, kind)
      ensures Valid()
    {
    }

    /** kinit: the pages lo..hi are given to the allocator. */
    constructor (lo: nat, hi: nat)
      requires 0 < lo <= hi
      ensures Valid() && |free| == hi - lo
      ensures forall p :: p in kind <==> lo <= p < hi
      ensures forall p | lo <= p < hi :: kind[p] == Free
    {
      pt := map[];
      data := Blank(lo, hi);
      free := [];
      kind := AllHeld(lo, hi);
      new;
      FreeRange(lo, hi);
    }

    method FreeRange(lo: nat, hi: nat)
      requires 0 < lo <= hi && pt == map[] && free == []
      requires forall p :: p in kind <==> lo <= p < hi
      requires forall p | p in kind :: kind[p] == Held
      requires DataOk(data, kind)
      modifies this
      ensures Valid() && |free| == hi - lo && kind.Keys == old(kind.Keys)
      ensures forall p | p in kind :: kind[p] == Free
    {
      hide VmInv, FreeList;
      NoneFree(kind);
      var p := lo;
      while p < hi
        invariant lo <= p <= hi && |free| == p - lo && pt == map[] && kind.Keys == old(kind.Keys)
        invariant FreeList(free, kind) && DataOk(data, kind)
        invariant forall q | q in kind :: kind[q] == if q < p then Free else Held
      {
        Kfree(p);
        p := p + 1;
      }
      NoTables(kind);
    }

    /** Frees a page that is in use; freeing a page twice is what no caller may do. */
    method Kfree(p: nat)
      requires FreeList(free, kind) && DataOk(data, kind) && p in kind && kind[p] != Free
      modifies this
      ensures FreeList(free, kind) && DataOk(data, kind)
      ensures free == [p] + old(free) && kind == old(kind)[p := Free]
      ensures pt == old(pt) - {p} && data == old(data)[p := Fill(1)]
      ensures old(Valid()) && old(kind)[p] == Held ==> Valid() && pt == old(pt)
    {
      hide VmInv, FreeList;
      if VmInv(pt, kind) && kind[p] == Held {
        Relabel(pt, kind, p, Free);
        NotTable(pt, kind, p);
      }
      Pushed(free, kind, p);
      data := data[p := Fill(1)];
      pt := pt - {p};
      free := [p] + free;
      kind := kind[p := Free];
    }

    /** Takes the first page of the free list, or returns 0 when there is none. */
    method Kalloc() returns (p: nat)
      requires Valid()
      modifies this
      ensures Valid() && pt == old(pt)
      ensures p == 0 <==> old(free) == []
      ensures p == 0 ==> free == old(free) && kind == old(kind) && data == old(data)
      ensures p != 0 ==>
                && p in old(kind) && old(kind)[p] == Free && free == old(free)[1..]
                && kind == old(kind)[p := Held] && data == old(data)[p := Fill(5)]
    {
      hide VmInv, FreeList;
      if free == [] {
        return 0;
      }
      p := free[0];
      Popped(free, kind);
      TableNotZero(pt, kind);
      Relabel(pt, kind, p, Held);
      free := free[1..];
      data := data[p := Fill(5)];
      kind := kind[p := Held];
    }

    // ---- walk ----

    /** One level of walk: follow entry i of table p, making the table below if alloc. */
    method Descend(p: nat, i: nat, alloc: bool) returns (q: nat)
      requires Valid() && p in pt && i < NPTE && UpperEntry(kind, p, i)
      modifies this
      ensures Valid() && Grown(old(kind), kind) && SameData(old(data), data, old(kind))
      ensures SameBut(old(pt), pt, kind, 0, 0, 0)
      ensures q == Child(pt, p, i)
      ensures forall x, j: nat | j < NPTE && !(x == p && j == i) :: Child(pt, x, j) == Child(old(pt), x, j)
      ensures !alloc || q == 0 || q == Child(old(pt), p, i) ==>
                pt == old(pt) && kind == old(kind) && data == old(data) && free == old(free)
      ensures alloc && q == 0 ==> old(free) == []
      ensures |old(free)| - 1 <= |free| <= |old(free)|
    {
      hide VmInv, FreeList, Leaf, Child, SameBut;
      SameButRefl(pt, kind);
      Entry(pt, kind, p, i);
      if pt[p][i].v {
        return pt[p][i].ppn;
      }
      if !alloc {
        return 0;
      }
      q := Kalloc();
      if q == 0 {
        return;
      }
      Entry(pt, kind, p, i);
      ghost var pt0, kind0 := pt, kind;
      pt := pt[p := pt[p][i := Pte(q, true, NOFLAGS)]][q := ZeroTable()];
      data := data[q := Fill(0)];
      kind := kind[q := Table(Level(kind[p]) - 1, p, i)];
      NewTable(pt0, kind0, free, p, i, q, pt, kind);
    }

    /** The level-0 table that holds the PTE of vpn; 0 if there is none, or no page to make one. */
    method Walk(root: nat, vpn: nat, alloc: bool) returns (t: nat)
      requires Valid() && IsRoot(kind, root) && vpn < VPNS
      modifies this
      ensures Valid() && Grown(old(kind), kind) && SameData(old(data), data, old(kind))
      ensures SameBut(old(pt), pt, kind, 0, 0, 0)
      ensures t == Last(pt, root, vpn)
      ensures !alloc ==> pt == old(pt) && kind == old(kind) && data == old(data) && free == old(free)
      ensures alloc && t == 0 ==> free == [] && |old(free)| <= 1
      ensures |old(free)| - 2 <= |free| <= |old(free)|
    {
      hide VmInv, FreeList, DataOk, Leaf, Child, Last, SameBut, I2, I1;
      SameButRefl(pt, kind);
      t := root;
      WalkTop(pt, kind, root, vpn);
      var level := 2;
      while level > 0
        invariant 0 <= level <= 2 && Valid() && IsRoot(kind, root)
        invariant Grown(old(kind), kind) && SameData(old(data), data, old(kind)) && SameBut(old(pt), pt, kind, 0, 0, 0)
        invariant level == 2 ==> t == root
        invariant level == 1 ==> t == Child(pt, root, I2(vpn)) != 0
        invariant level == 0 ==> t == Last(pt, root, vpn) != 0
        invariant !alloc ==> pt == old(pt) && kind == old(kind) && data == old(data) && free == old(free)
        invariant |old(free)| - 2 + level <= |free| <= |old(free)|
      {
        ghost var pt0, kind0 := pt, kind;
        WalkTop(pt, kind, root, vpn);
        t := Descend(t, if level == 2 then I2(vpn) else I1(vpn), alloc);
        SameButTrans(old(pt), pt0, pt, kind0, kind, 0, 0, 0, 0);
        WalkTop(pt, kind, root, vpn);
        if t == 0 {
          return 0;
        }
        level := level - 1;
      }
    }

    // ---- mappages, uvmunmap ----

    /** One page of mappages. */
    method MapPage(root: nat, vpn: nat, ppn: nat, perm: Flags) returns (ok: bool)
      requires Valid() && IsRoot(kind, root) && vpn < VPNS && (perm.r || perm.w || perm.x) && !Leaf(pt, root, vpn).v
      requires ppn in kind && (kind[ppn] == Held || kind[ppn] == Other)
      modifies this
      ensures Valid() && IsRoot(kind, root)
      ensures Mapped(old(kind), kind, ppn, if ok then ppn + 1 else ppn) && SameData(old(data), data, old(kind))
      ensures SameBut(old(pt), pt, kind, root, vpn, if ok then vpn + 1 else vpn)
      ensures ok ==> Leaf(pt, root, vpn) == Pte(ppn, true, perm)
      ensures !ok ==> free == [] && |old(free)| <= 1
      ensures |old(free)| - 2 <= |free| <= |old(free)|
    {
      hide VmInv, FreeList, DataOk, Leaf, Last, SameBut, I0;
      assert SameBut(pt, pt, kind, root, vpn, vpn) by { SameButRefl(pt, kind); SameButTrans3(pt, pt, kind, root, vpn); }
      var t := Walk(root, vpn, true);
      SameButTrans3(old(pt), pt, kind, root, vpn);
      if t == 0 {
        return false;
      }
      SameButAt(old(pt), pt, kind, root, vpn);
      MapStep(pt, kind, root, vpn, ppn, perm, t);
      ghost var pt1, kind1 := pt, kind;
      pt := pt[t := pt[t][I0(vpn) := Pte(ppn, true, perm)]];
      kind := if kind[ppn] == Other then kind else kind[ppn := User(t, I0(vpn))];
      StillFree(free, kind1, kind, ppn);
      SameButKind(pt1, pt, kind1, kind, root, vpn, vpn + 1);
      SameButTrans(old(pt), pt1, pt, kind1, kind, root, vpn, vpn, vpn + 1);
      DataStill(data, kind1, kind);
      return true;
    }

    /** Maps n pages from vpn to the n from ppn, until a table cannot be allocated. */
    method MapPages(root: nat, vpn: nat, n: nat, ppn: nat, perm: Flags) returns (ok: bool, ghost done: nat)
      requires Valid() && IsRoot(kind, root) && 0 < n && vpn + n <= VPNS && (perm.r || perm.w || perm.x)
      requires forall v | vpn <= v < vpn + n :: !Leaf(pt, root, v).v
      requires forall q | ppn <= q < ppn + n :: q in kind && (kind[q] == Held || kind[q] == Other)
      modifies this
      ensures Valid() && Mapped(old(kind), kind, ppn, ppn + done) && SameData(old(data), data, old(kind))
      ensures done <= n && (ok <==> done == n)
      ensures forall v | vpn <= v < vpn + done :: Leaf(pt, root, v) == Pte(ppn + (v - vpn), true, perm)
      ensures SameBut(old(pt), pt, kind, root, vpn, vpn + done)
      ensures !ok ==> free == [] && |old(free)| <= 2 * done + 1
      ensures |old(free)| - 2 * n <= |free| <= |old(free)|
    {
      hide Valid, Leaf, SameData, IsRoot;
      SameDataRefl(data, kind);
      var a := 0;
      while true
        invariant 0 <= a < n && Valid() && IsRoot(kind, root)
        invariant Mapped(old(kind), kind, ppn, ppn + a) && SameData(old(data), data, old(kind))
        invariant SameBut(old(pt), pt, kind, root, vpn, vpn + a)
        invariant forall v | vpn <= v < vpn + a :: Leaf(pt, root, v) == Pte(ppn + (v - vpn), true, perm)
        invariant |old(free)| - 2 * a <= |free| <= |old(free)|
        decreases n - a
      {
        ghost var pt0, kind0, data0 := pt, kind, data;
        assert !Leaf(pt, root, vpn + a).v;
        ok := MapPage(root, vpn + a, ppn + a, perm);
        MappedTrans(old(kind), kind0, kind, ppn, ppn + a, if ok then 1 else 0);
        MappedRoots(kind0, kind, ppn + a, if ok then ppn + a + 1 else ppn + a);
        SameDataTrans(old(data), data0, data, old(kind), kind0, ppn, ppn + a);
        SameButTrans(old(pt), pt0, pt, kind0, kind, root, vpn, vpn + a, if ok then vpn + a + 1 else vpn + a);
        if !ok {
          return false, a;
        }
        if a + 1 == n {
          return true, n;
        }
        a := a + 1;
      }
    }

    /** One page of uvmunmap. */
    method UnmapPage(root: nat, vpn: nat, doFree: bool)
      requires Valid() && IsRoot(kind, root) && vpn < VPNS && Leaf(pt, root, vpn).v
      requires doFree ==> !IsOther(kind, Leaf(pt, root, vpn).ppn)
      modifies this
      ensures Valid() && IsRoot(kind, root) && Leaf(pt, root, vpn) == NOPTE
      ensures SameBut(old(pt), pt, kind, root, vpn, vpn + 1)
      ensures var q := Leaf(old(pt), root, vpn).ppn;
              && q in old(kind) && (old(kind)[q] == Other || old(kind)[q].User?)
              && kind == (if old(kind)[q] == Other then old(kind) else old(kind)[q := if doFree then Free else Held])
              && free == (if doFree then [q] + old(free) else old(free))
              && data == (if doFree then old(data)[q := Fill(1)] else old(data))
    {
      hide VmInv, FreeList, DataOk, Leaf, SameBut, I0, Last;
      var t := Walk(root, vpn, false);
      UnmapStep(pt, kind, root, vpn);
      var q := pt[t][I0(vpn)].ppn;
      if doFree {
        UserNotTable(pt, kind, q);
        Kfree(q);
      }
      pt := pt[t := pt[t][I0(vpn) := NOPTE]];
      if old(kind)[q] != Other {
        kind := old(kind)[q := if doFree then Free else Held];
        if doFree {
          Relabel(pt, old(kind)[q := Held], q, Free);
          assert old(kind)[q := Held][q := Free] == kind;
        } else {
          StillFree(free, old(kind), kind, q);
          DataStill(data, old(kind), kind);
        }
      }
      SameButKind(old(pt), pt, old(kind), kind, root, vpn, vpn + 1);
    }

    /** Removes n mappings from vpn, all of which exist; with doFree their pages, each once, go
        back to the free list. */
    method UvmUnmap(root: nat, vpn: nat, n: nat, doFree: bool)
      requires Valid() && IsRoot(kind, root) && vpn + n <= VPNS
      requires forall v | vpn <= v < vpn + n :: Leaf(pt, root, v).v
      requires doFree ==> forall v | vpn <= v < vpn + n :: !IsOther(kind, Leaf(pt, root, v).ppn)
      modifies this
      ensures Valid() && IsRoot(kind, root) && SameBut(old(pt), pt, kind, root, vpn, vpn + n)
      ensures forall v | vpn <= v < vpn + n :: Leaf(pt, root, v) == NOPTE
      ensures kind == Released(old(kind), Pages(old(pt), root, vpn, vpn + n), if doFree then Free else Held)
      ensures doFree ==> |free| == |old(free)| + n
      ensures !doFree ==> free == old(free)
      ensures forall q | q in data && q !in Pages(old(pt), root, vpn, vpn + n) ::
                q in old(data) && data[q] == old(data)[q]
    {
      hide Valid, Leaf, SameBut, Pages, Released;
      SameButEmpty(pt, kind, root, vpn);
      PagesEmpty(pt, root, vpn, kind, if doFree then Free else Held);
      var a := vpn;
      while a < vpn + n
        invariant vpn <= a <= vpn + n && Valid() && IsRoot(kind, root) && SameBut(old(pt), pt, kind, root, vpn, a)
        invariant forall v | vpn <= v < a :: Leaf(pt, root, v) == NOPTE
        invariant kind == Released(old(kind), Pages(old(pt), root, vpn, a), if doFree then Free else Held)
        invariant |free| == |old(free)| + if doFree then a - vpn else 0
        invariant !doFree ==> free == old(free)
        invariant forall q | q in data && q !in Pages(old(pt), root, vpn, a) ::
                    q in old(data) && data[q] == old(data)[q]
      {
        ghost var pt0, kind0 := pt, kind;
        Unreleased(old(pt), pt, old(kind), kind, root, vpn, a, if doFree then Free else Held);
        UnmapPage(root, a, doFree);
        NextPage(old(pt), root, vpn, a, old(kind), kind0, if doFree then Free else Held);
        SameButTrans(old(pt), pt0, pt, kind0, kind, root, vpn, a, a + 1);
        SameButRange(pt0, pt, kind, root, vpn, a);
        a := a + 1;
      }
    }

    // ---- address spaces ----

    /** An address space that maps nothing, or 0. */
    method UvmCreate() returns (root: nat)
      requires Valid()
      modifies this
      ensures Valid() && SameBut(old(pt), pt, old(kind), 0, 0, 0) && SameData(old(data), data, old(kind))
      ensures root == 0 <==> old(free) == []
      ensures root == 0 ==> kind == old(kind) && pt == old(pt)
      ensures root != 0 ==>
                && root in old(kind) && old(kind)[root] == Free && kind == old(kind)[root := Root]
                && forall v: nat | v < VPNS :: Leaf(pt, root, v) == NOPTE
    {
      hide VmInv, FreeList, Leaf, SameBut;
      root := Kalloc();
      if root == 0 {
        SameButRefl(pt, kind);
        return;
      }
      ghost var pt0, kind0 := pt, kind;
      pt := pt[root := ZeroTable()];
      data := data[root := Fill(0)];
      kind := kind[root := Root];
      AddRoot(pt0, kind0, root, pt);
      StillFree(free, kind0, kind, root);
      NewRoot(pt0, old(kind), kind0, root, pt);
    }

    /** One page of uvmalloc or uvmcopy: allocate, fill, map; undone if the mapping fails. */
    method AddPage(root: nat, vpn: nat, bytes: seq<byte>, perm: Flags) returns (ok: bool)
      requires Valid() && IsRoot(kind, root) && (free != [] ==> vpn < VPNS && !Leaf(pt, root, vpn).v)
      requires |bytes| == PGSIZE && (perm.r || perm.w || perm.x)
      modifies this
      ensures Valid() && SameData(old(data), data, old(kind))
      ensures ok ==> Added(old(pt), old(kind), pt, kind, data, root, vpn, [Want(perm, bytes)])
      ensures !ok ==> Added(old(pt), old(kind), pt, kind, data, root, vpn, []) && |old(free)| <= 2
      ensures |free| >= |old(free)| - 3 && (ok ==> |free| < |old(free)|)
    {
      hide VmInv, FreeList, Leaf, SameBut, Mapped, Added;
      var mem := Kalloc();
      if mem == 0 {
        AddedRefl(pt, kind, data, root, vpn);
        return false;
      }
      data := data[mem := bytes];
      ghost var kind1, data1 := kind, data;
      assert Valid() && SameData(old(data), data, old(kind)) && IsRoot(kind, root);
      ghost var done;
      ok, done := MapPages(root, vpn, 1, mem, perm);
      SameDataOver(old(data), data1, data, old(kind), kind1, mem);
      if ok {
        AddedOne(old(pt), old(kind), kind1, pt, kind, data, root, vpn, mem, perm, bytes);
      } else {
        AddedNone(old(pt), old(kind), kind1, pt, kind, data[mem := Fill(1)], root, vpn, mem);
        Kfree(mem);
      }
    }

    /** Shrinks an address space from oldsz to newsz bytes. */
    method UvmDealloc(root: nat, oldsz: nat, newsz: nat) returns (sz: nat)
      requires Valid() && IsRoot(kind, root) && PgUp(oldsz) <= VPNS
      requires forall v | PgUp(newsz) <= v < PgUp(oldsz) :: Leaf(pt, root, v).v && !IsOther(kind, Leaf(pt, root, v).ppn)
      modifies this
      ensures Valid() && IsRoot(kind, root) && sz == (if newsz < oldsz then newsz else oldsz)
      ensures SameBut(old(pt), pt, kind, root, PgUp(newsz), PgUp(oldsz))
      ensures forall v | PgUp(newsz) <= v < PgUp(oldsz) :: Leaf(pt, root, v) == NOPTE
      ensures kind == Released(old(kind), Pages(old(pt), root, PgUp(newsz), PgUp(oldsz)), Free)
      ensures |free| == |old(free)| + if PgUp(newsz) < PgUp(oldsz) then PgUp(oldsz) - PgUp(newsz) else 0
      ensures forall q | q in data && q !in Pages(old(pt), root, PgUp(newsz), PgUp(oldsz)) ::
                q in old(data) && data[q] == old(data)[q]
    {
      hide Valid, Leaf, SameBut, Pages, Released, IsRoot;
      if PgUp(newsz) >= PgUp(oldsz) {
        NoPages(pt, kind, root, PgUp(newsz), PgUp(oldsz));
      }
      if newsz >= oldsz {
        return oldsz;
      }
      if PgUp(newsz) < PgUp(oldsz) {
        UvmUnmap(root, PgUp(newsz), PgUp(oldsz) - PgUp(newsz), true);
      }
      return newsz;
    }

    /** Grows an address space from oldsz to newsz bytes with zeroed pages. When pages run out,
        nothing that was mapped has changed; with three free pages for each new one they do not. */
    method UvmAlloc(root: nat, oldsz: nat, newsz: nat, w: bool, x: bool) returns (sz: nat)
      requires Valid() && IsRoot(kind, root) && PgUp(oldsz) <= VPNS
      requires forall v | PgUp(oldsz) <= v < PgUp(newsz) && v < PgUp(oldsz) + |free| :: v < VPNS && !Leaf(pt, root, v).v
      modifies this
      ensures Valid() && SameData(old(data), data, old(kind))
      ensures newsz < oldsz ==> sz == oldsz && pt == old(pt) && kind == old(kind) && free == old(free)
      ensures newsz >= oldsz ==> sz == newsz || sz == 0
      ensures oldsz <= newsz == sz ==>
                Added(old(pt), old(kind), pt, kind, data, root, PgUp(oldsz), Zeros(PgUp(newsz) - PgUp(oldsz), w, x))
      ensures oldsz <= newsz != sz ==>
                && SameBut(old(pt), pt, kind, 0, 0, 0) && Grown(old(kind), kind)
                && |old(free)| < 3 * (PgUp(newsz) - PgUp(oldsz))
    {
      hide Valid, Leaf, Added, SameBut, Pages, Released, SameData, IsRoot, PageIs, Grown;
      SameDataRefl(data, kind);
      if newsz < oldsz {
        return oldsz;
      }
      var lo := PgUp(oldsz);
      AddedRefl(pt, kind, data, root, lo);
      var a := lo;
      ghost var want := Zeros(PgUp(newsz) - lo, w, x);
      assert want[..0] == [];
      while a * PGSIZE < newsz
        invariant lo <= a <= PgUp(newsz) && Valid() && IsRoot(kind, root)
        invariant Added(old(pt), old(kind), pt, kind, data, root, lo, want[..a - lo])
        invariant SameData(old(data), data, old(kind))
        invariant |old(free)| - 3 * (a - lo) <= |free| <= |old(free)| - (a - lo) && a <= VPNS
        decreases PgUp(newsz) - a
      {
        ghost var pt0, kind0, data0 := pt, kind, data;
        if free != [] {
          assert a < PgUp(newsz) && a < lo + |old(free)|;
          assert !Leaf(old(pt), root, a).v;
          AddedFrame(old(pt), old(kind), pt, kind, data, root, lo, want[..a - lo], a);
        }
        var ok := AddPage(root, a, Fill(0), Flags(true, w, x, true));
        ghost var new_ := if ok then [Want(Flags(true, w, x, true), Fill(0))] else [];
        AddedTrans(old(pt), old(kind), pt0, kind0, data0, pt, kind, data, root, lo, want[..a - lo], new_);
        SameDataAdded(old(pt), old(kind), pt0, kind0, old(data), data0, data, root, lo, want[..a - lo]);
        if !ok {
          ghost var pt1, kind1, data1 := pt, kind, data;
          assert want[..a - lo] + [] == want[..a - lo];
          AddedUser(old(pt), old(kind), pt, kind, data, root, lo, want[..a - lo]);
          sz := UvmDealloc(root, a * PGSIZE, lo * PGSIZE);
          ValidKeys();
          AddedUndone(old(pt), old(kind), old(data), pt1, kind1, data1, pt, kind, data, root, lo, want[..a - lo]);
          return 0;
        }
        assert want[..a - lo] + new_ == want[..a + 1 - lo];
        a := a + 1;
      }
      assert want[..a - lo] == want;
      return newsz;
    }

    /** Copies the first sz bytes of one address space into another: the same bytes and flags in
        fresh pages. When pages run out, both map what they mapped before. */
    method UvmCopy(src: nat, dst: nat, sz: nat) returns (ok: bool)
      requires Valid() && IsRoot(kind, src) && IsRoot(kind, dst) && src != dst && PgUp(sz) <= VPNS
      requires forall v | 0 <= v < PgUp(sz) :: Leaf(pt, src, v).v && !Leaf(pt, dst, v).v
      modifies this
      ensures Valid() && SameData(old(data), data, old(kind))
      ensures ok ==> Added(old(pt), old(kind), pt, kind, data, dst, 0, Copies(old(pt), old(data), src, PgUp(sz)))
      ensures !ok ==> && SameBut(old(pt), pt, kind, 0, 0, 0) && Grown(old(kind), kind) && |old(free)| < 3 * PgUp(sz)
    {
      hide Valid, VmInv, Leaf, Last, Added, SameBut, Pages, Released, SameData, IsRoot, PageIs, Grown;
      SameDataRefl(data, kind);
      AddedRefl(pt, kind, data, dst, 0);
      ValidKeys();
      var i := 0;
      ghost var want := Copies(pt, data, src, PgUp(sz));
      assert want[..0] == [];
      while i * PGSIZE < sz
        invariant 0 <= i <= PgUp(sz) && Valid() && IsRoot(kind, dst) && IsRoot(kind, src)
        invariant Added(old(pt), old(kind), pt, kind, data, dst, 0, want[..i]) && SameData(old(data), data, old(kind))
        invariant |free| >= |old(free)| - 3 * i
        decreases PgUp(sz) - i
      {
        ghost var pt0, kind0, data0 := pt, kind, data;
        ValidKeys();
        CopySource(old(pt), old(kind), old(data), pt, kind, data, src, dst, i, want[..i]);
        AddedFrame(old(pt), old(kind), pt, kind, data, dst, 0, want[..i], i);
        var t := Walk(src, i, false);
        var e := pt[t][I0(i)];
        ok := AddPage(dst, i, data[e.ppn], e.flags);
        ghost var one := if ok then [CopyOf(old(pt), old(data), src, i)] else [];
        AddedTrans(old(pt), old(kind), pt0, kind0, data0, pt, kind, data, dst, 0, want[..i], one);
        SameDataAdded(old(pt), old(kind), pt0, kind0, old(data), data0, data, dst, 0, want[..i]);
        assert want[..i] + one == want[..i + |one|];
        if !ok {
          ghost var pt1, kind1, data1 := pt, kind, data;
          AddedUser(old(pt), old(kind), pt, kind, data, dst, 0, want[..i]);
          UvmUnmap(dst, 0, i, true);
          ValidKeys();
          AddedUndone(old(pt), old(kind), old(data), pt1, kind1, data1, pt, kind, data, dst, 0, want[..i]);
          return false;
        }
        AddedRoot(old(pt), old(kind), pt, kind, data, dst, 0, want[..i + 1], src);
        i := i + 1;
      }
      assert want[..i] == want;
      return true;
    }

    /** Frees table p and every table below it, each once; none of them may map a page. The entry
        above p still leads to it until the caller clears that entry. */
    method FreeWalk(p: nat)
      requires Valid() && p in pt && NoLeaves(pt, kind, p)
      modifies this
      ensures FreeList(free, kind) && DataOk(data, kind)
      ensures Pruned(old(pt), old(kind), p, pt, kind) && CutOff(old(kind), p, pt, kind)
      ensures SameUse(old(data), data, kind)
      decreases if p in kind then Level(kind[p]) else -1
    {
      hide VmInv, FreeList, NoLeaves, PrunedTo, Pruned, CutOff, DataOk, Under;
      PrunedNone(pt, kind, p);
      var i := 0;
      while i < NPTE
        invariant 0 <= i <= NPTE && Valid() && PrunedTo(old(pt), old(kind), p, i, pt, kind)
        invariant SameUse(old(data), data, kind)
      {
        PrunedRow(old(pt), old(kind), p, i, pt, kind);
        var pte := pt[p][i];
        if pte.v {
          PrunedEnter(old(pt), old(kind), p, i, pt, kind);
          ghost var pt1, kind1, data1 := pt, kind, data;
          FreeWalk(pte.ppn);
          ChildCut(kind1, pte.ppn, p, i, pt, kind);
          SameUseTrans(old(data), data1, data, pt1, kind1, pte.ppn, pt, kind);
          PrunedStep(old(pt), old(kind), p, i, pt1, kind1, pte.ppn, pt, kind, pt[p := pt[p][i := NOPTE]]);
          pt := pt[p := pt[p][i := NOPTE]];
        } else {
          PrunedSkip(old(pt), old(kind), p, i, pt, kind);
        }
        i := i + 1;
      }
      PrunedEnd(old(pt), old(kind), p, pt, kind);
      PrunedAll(old(pt), old(kind), p, pt, kind);
      DropTable(pt, kind, p, pt - {p}, kind[p := Free]);
      CutOffSame(old(kind), kind, p, pt - {p}, kind[p := Free]);
      Kfree(p);
    }

    /** Frees an address space of sz bytes: every page it maps and every table of its tree, and
        nothing else. */
    method UvmFree(root: nat, sz: nat)
      requires Valid() && IsRoot(kind, root) && PgUp(sz) <= VPNS
      requires forall v | 0 <= v < PgUp(sz) :: Leaf(pt, root, v).v && !IsOther(kind, Leaf(pt, root, v).ppn)
      requires forall v: nat | PgUp(sz) <= v < VPNS :: !Leaf(pt, root, v).v
      modifies this
      ensures Valid() && SameBut(old(pt), pt, kind, 0, 0, 0) && SameUse(old(data), data, kind)
      ensures kind.Keys == old(kind).Keys
      ensures forall q | q in kind ::
                kind[q] == if q in Pages(old(pt), root, 0, PgUp(sz)) || Under(old(kind), root, q) then Free else old(kind)[q]
    {
      hide Valid, Leaf, SameBut, Pages, Released, IsRoot, Pruned, Under, CutOff, NoLeaves;
      assert sz == 0 ==> PgUp(sz) == 0;
      ValidKeys();
      NoPages(pt, kind, root, 0, 0);
      if sz > 0 {
        UvmUnmap(root, 0, PgUp(sz), true);
      }
      ghost var pt1, kind1, data1 := pt, kind, data;
      ValidKeys();
      SameButAll(old(pt), pt, kind, root, 0, PgUp(sz));
      EmptyNoLeaves(pt, kind, root);
      RootTable(pt, kind, root);
      FreeWalk(root);
      Whole(kind1, root);
      AllFreed(old(pt), old(kind), pt1, kind1, pt, kind, root, PgUp(sz));
      SameUseFreed(old(data), data1, data, old(kind), pt1, kind1, pt, kind, old(pt), root, PgUp(sz));
    }

    // ---- copyin, copyout, copyinstr ----

    /** The PTE of a page, one that is not valid if walk finds none. */
    method Lookup(root: nat, vpn: nat) returns (e: Pte)
      requires Valid() && IsRoot(kind, root) && vpn < VPNS
      modifies this
      ensures Valid() && pt == old(pt) && kind == old(kind) && data == old(data) && free == old(free)
      ensures e.v == Leaf(pt, root, vpn).v && (e.v ==> e == Leaf(pt, root, vpn))
      ensures e.v ==> e.ppn in data && |data[e.ppn]| == PGSIZE && e.ppn != 0
    {
      hide VmInv, FreeList, DataOk, Leaf, Last;
      ValidKeys();
      if Leaf(pt, root, vpn).v {
        LeafEntry(pt, kind, root, vpn);
        TableNotZero(pt, kind);
      }
      var t := Walk(root, vpn, false);
      LeafNone(pt, kind, root, vpn);
      if t == 0 {
        return NOPTE;
      }
      return pt[t][I0(vpn)];
    }

    method WalkAddr(root: nat, va: nat) returns (pa: nat)
      requires Valid() && IsRoot(kind, root)
      modifies this
      ensures Valid() && pt == old(pt) && kind == old(kind) && data == old(data) && free == old(free)
      ensures pa == if Readable(pt, root, va) then PteOf(pt, root, va).ppn else 0
      ensures pa != 0 <==> Readable(pt, root, va)
      ensures pa != 0 ==> pa in data && |data[pa]| == PGSIZE
    {
      hide Valid, Leaf;
      if va / PGSIZE >= VPNS {
        return 0;
      }
      var pte := Lookup(root, va / PGSIZE);
      if !pte.v {
        return 0;
      }
      if !pte.flags.u {
        return 0;
      }
      return pte.ppn;
    }

    /** Copies src to user addresses from dstva on: exactly the stores of the bytes one by one, up
        to the first that may not be written. */
    method CopyOut(root: nat, dstva: nat, src: seq<byte>) returns (ok: bool, ghost done: nat)
      requires Valid() && IsRoot(kind, root)
      modifies this
      ensures Valid() && pt == old(pt) && kind == old(kind) && free == old(free)
      ensures ok <==> AllWritable(pt, root, dstva, dstva + |src|)
      ensures done <= |src| && AllWritable(pt, root, dstva, dstva + done)
      ensures if ok then done == |src| else done < |src| && !Writable(pt, root, dstva + done)
      ensures data == Stored(old(data), pt, root, dstva, src, done)
    {
      hide VmInv, FreeList, Leaf, Stored, Moved, DataOk;
      ValidKeys();
      var k := 0;
      StoredNone(data, pt, root, dstva, src);
      while k < |src|
        invariant 0 <= k <= |src| && Valid() && pt == old(pt) && kind == old(kind) && free == old(free)
        invariant AllWritable(pt, root, dstva, dstva + k)
        invariant data == Stored(old(data), pt, root, dstva, src, k)
      {
        var va := dstva + k;
        var o := va % PGSIZE;
        if va / PGSIZE >= VPNS {
          assert !Writable(pt, root, dstva + k);
          return false, k;
        }
        var pte := Lookup(root, va / PGSIZE);
        if !pte.v || !pte.flags.u || !pte.flags.w {
          assert !Writable(pt, root, dstva + k);
          return false, k;
        }
        var n := PGSIZE - o;
        if n > |src| - k {
          n := |src| - k;
        }
        StoredShape(old(data), pt, root, dstva, src, k);
        StoredChunk(old(data), pt, root, dstva, src, k, n);
        CopySpec.OnePage(pt, root, va, n);
        data := MoveIn(data, pte.ppn, o, src[k..k + n]);
        k := k + n;
        StoredShape(old(data), pt, root, dstva, src, k);
        DataStored(data, old(data), kind);
      }
      return true, k;
    }

    /** Copies len bytes from user addresses from srcva on: exactly the bytes translated one by
        one, up to the first that may not be read. */
    method CopyIn(root: nat, srcva: nat, len: nat) returns (ok: bool, dst: seq<byte>)
      requires Valid() && IsRoot(kind, root)
      modifies this
      ensures Valid() && pt == old(pt) && kind == old(kind) && free == old(free) && data == old(data)
      ensures ok <==> AllReadable(pt, root, srcva, srcva + len)
      ensures |dst| <= len && AllReadable(pt, root, srcva, srcva + |dst|) && dst == Loaded(data, pt, root, srcva, |dst|)
      ensures if ok then |dst| == len else |dst| < len && !Readable(pt, root, srcva + |dst|)
    {
      hide Valid, Leaf, Readable, PteOf;
      dst := [];
      while |dst| < len
        invariant |dst| <= len && Valid() && pt == old(pt) && kind == old(kind) && free == old(free)
        invariant data == old(data)
        invariant AllReadable(pt, root, srcva, srcva + |dst|) && dst == Loaded(data, pt, root, srcva, |dst|)
      {
        var va := srcva + |dst|;
        var o := va % PGSIZE;
        var pa := WalkAddr(root, va);
        if pa == 0 {
          return false, dst;
        }
        var n := PGSIZE - o;
        if n > len - |dst| {
          n := len - |dst|;
        }
        LoadedChunk(data, pt, root, srcva, |dst|, n);
        CopySpec.OnePage(pt, root, va, n);
        dst := dst + data[pa][o..o + n];
      }
      return true, dst;
    }

    /** Copies a string of at most max bytes, its NUL included. It succeeds exactly when some byte
        of the first max is NUL and every byte up to it may be read. */
    method CopyInStr(root: nat, srcva: nat, max: nat) returns (ok: bool, dst: seq<byte>)
      requires Valid() && IsRoot(kind, root)
      modifies this
      ensures Valid() && pt == old(pt) && kind == old(kind) && free == old(free) && data == old(data)
      ensures |dst| <= max && AllReadable(pt, root, srcva, srcva + |dst|) && dst == Loaded(data, pt, root, srcva, |dst|)
      ensures ok ==> |dst| > 0 && dst[|dst| - 1] == 0 && forall i | 0 <= i < |dst| - 1 :: dst[i] != 0
      ensures !ok ==> (forall i | 0 <= i < |dst| :: dst[i] != 0) && (|dst| == max || !Readable(pt, root, srcva + |dst|))
    {
      hide Valid, Leaf, Readable, PteOf;
      dst := [];
      var gotNull := false;
      while !gotNull && |dst| < max
        invariant |dst| <= max && Valid() && pt == old(pt) && kind == old(kind) && free == old(free)
        invariant data == old(data)
        invariant AllReadable(pt, root, srcva, srcva + |dst|) && dst == Loaded(data, pt, root, srcva, |dst|)
        invariant gotNull ==> |dst| > 0 && dst[|dst| - 1] == 0 && forall i | 0 <= i < |dst| - 1 :: dst[i] != 0
        invariant !gotNull ==> forall i | 0 <= i < |dst| :: dst[i] != 0
        decreases !gotNull, max - |dst|
      {
        var va := srcva + |dst|;
        var o := va % PGSIZE;
        var pa := WalkAddr(root, va);
        if pa == 0 {
          return false, dst;
        }
        var n := PGSIZE - o;
        if n > max - |dst| {
          n := max - |dst|;
        }
        var part;
        gotNull, part := ScanPage(data[pa], o, n);
        LoadedChunk(data, pt, root, srcva, |dst|, |part|);
        CopySpec.OnePage(pt, root, va, |part|);
        dst := dst + part;
      }
      return gotNull, dst;
    }

    /** The inner loop of copyinstr: at most n bytes of a page, up to a NUL. */
    method ScanPage(page: seq<byte>, o: nat, n: nat) returns (gotNull: bool, part: seq<byte>)
      requires 0 < n && o + n <= |page|
      ensures 0 < |part| <= n && part == page[o..o + |part|]
      ensures gotNull ==> part[|part| - 1] == 0 && forall i | 0 <= i < |part| - 1 :: part[i] != 0
      ensures !gotNull ==> |part| == n && forall i | 0 <= i < |part| :: part[i] != 0
    {
      part := [];
      while |part| < n
        invariant |part| <= n && part == page[o..o + |part|] && forall i | 0 <= i < |part| :: part[i] != 0
      {
        var p := page[o + |part|];
        part := part + [p];
        if p == 0 {
          return true, part;
        }
      }
      return false, part;
    }
  }

  lemma Popped(free: seq<nat>, kind: map<nat, Kind>)
    requires FreeList(free, kind) && free != []
    ensures free[0] in kind && kind[free[0]] == Free && FreeList(free[1..], kind[free[0] := Held])
  {
    forall p | p in kind && p != free[0] && kind[p] == Free ensures p in free[1..] {
      var i :| 0 <= i < |free| && free[i] == p;
      assert free[1..][i - 1] == p;
    }
  }

  lemma StillFree(free: seq<nat>, kind: map<nat, Kind>, kind': map<nat, Kind>, p: nat)
    requires FreeList(free, kind) && p in kind && kind[p] != Free && kind'.Keys == kind.Keys && kind'[p] != Free
    requires forall q | q in kind && q != p :: kind'[q] == kind[q]
    ensures FreeList(free, kind')
  {
  }

  lemma Entry(pt: Tables, kind: map<nat, Kind>, p: nat, i: nat)
    requires VmInv(pt, kind) && p in pt && i < NPTE
    ensures |pt[p]| == NPTE && p in kind && Child(pt, p, i) == if pt[p][i].v then pt[p][i].ppn else 0
    ensures pt[p][i].v ==> pt[p][i].ppn != 0
  {
  }

  lemma Pushed(free: seq<nat>, kind: map<nat, Kind>, p: nat)
    requires FreeList(free, kind) && p in kind && kind[p] != Free
    ensures FreeList([p] + free, kind[p := Free])
  {
    assert p !in free;
    assert forall q | q in free :: q in [p] + free;
  }

  lemma NotTable(pt: Tables, kind: map<nat, Kind>, p: nat)
    requires VmInv(pt, kind) && p in kind && kind[p] == Held
    ensures p !in pt && pt - {p} == pt
  {
    assert p !in pt;
    assert pt - {p} == pt;
  }

  lemma NewTable(pt: Tables, kind: map<nat, Kind>, free: seq<nat>, p: nat, i: nat, q: nat, pt': Tables, kind': map<nat,
                 Kind>)
    requires VmInv(pt, kind) && FreeList(free, kind) && p in pt && i < |pt[p]| == NPTE && q in kind
    requires UpperEntry(kind, p, i) && !pt[p][i].v && kind[q] == Held
    requires pt' == pt[p := pt[p][i := Pte(q, true, NOFLAGS)]][q := ZeroTable()]
    requires kind' == kind[q := Table(Level(kind[p]) - 1, p, i)]
    ensures VmInv(pt', kind') && FreeList(free, kind') && SameBut(pt, pt', kind', 0, 0, 0)
    ensures forall x, j: nat | j < NPTE :: Child(pt', x, j) == if x == p && j == i then q else Child(pt, x, j)
  {
    hide VmInv, FreeList, Leaf, Child;
    AddTable(pt, kind, p, i, q, pt', kind');
    AddTableLeaves(pt, kind, p, i, q, pt', kind');
    AddTableChild(pt, kind, p, i, q, pt');
    StillFree(free, kind, kind', q);
  }

  lemma NoneFree(kind: map<nat, Kind>)
    requires forall p | p in kind :: kind[p] == Held
    ensures FreeList([], kind)
  {
  }

  lemma NoTables(kind: map<nat, Kind>)
    requires 0 !in kind && forall p | p in kind :: kind[p] == Free
    ensures VmInv(map[], kind)
  {
  }

  lemma SameButRefl(pt: Tables, kind: map<nat, Kind>)
    ensures SameBut(pt, pt, kind, 0, 0, 0)
  {
  }

  lemma SameButTrans3(pt0: Tables, pt1: Tables, kind: map<nat, Kind>, root: nat, v: nat)
    requires SameBut(pt0, pt1, kind, 0, 0, 0)
    ensures SameBut(pt0, pt1, kind, root, v, v)
  {
  }

  lemma SameButAt(pt0: Tables, pt1: Tables, kind: map<nat, Kind>, root: nat, v: nat)
    requires SameBut(pt0, pt1, kind, 0, 0, 0) && IsRoot(kind, root) && v < VPNS
    ensures Leaf(pt1, root, v) == Leaf(pt0, root, v)
  {
  }

  lemma DataStill(data: map<nat, seq<byte>>, kind: map<nat, Kind>, kind': map<nat, Kind>)
    requires DataOk(data, kind) && kind'.Keys == kind.Keys
    ensures DataOk(data, kind')
  {
  }

  lemma MappedTrans(kind0: map<nat, Kind>, kind1: map<nat, Kind>, kind2: map<nat, Kind>, lo: nat, mid: nat, n: nat)
    requires Mapped(kind0, kind1, lo, mid) && Mapped(kind1, kind2, mid, mid + n) && lo <= mid && n <= 1
    requires mid in kind0 && (kind0[mid] == Held || kind0[mid] == Other)
    ensures Mapped(kind0, kind2, lo, mid + n)
  {
  }

  lemma SameDataTrans(data0: map<nat, seq<byte>>, data1: map<nat, seq<byte>>, data2: map<nat, seq<byte>>,
                      kind0: map<nat, Kind>, kind1: map<nat, Kind>, lo: nat, hi: nat)
    requires SameData(data0, data1, kind0) && SameData(data1, data2, kind1) && Mapped(kind0, kind1, lo, hi)
    ensures SameData(data0, data2, kind0)
  {
  }

  lemma SameButKind(pt0: Tables, pt1: Tables, kind: map<nat, Kind>, kind': map<nat, Kind>, root: nat, lo: nat, hi: nat)
    requires SameBut(pt0, pt1, kind, root, lo, hi) && forall r | IsRoot(kind', r) :: IsRoot(kind, r)
    ensures SameBut(pt0, pt1, kind', root, lo, hi)
  {
  }

  lemma SameDataRefl(data: map<nat, seq<byte>>, kind: map<nat, Kind>)
    ensures SameData(data, data, kind)
  {
  }

  lemma MappedRoots(kind0: map<nat, Kind>, kind: map<nat, Kind>, lo: nat, hi: nat)
    requires Mapped(kind0, kind, lo, hi)
    ensures forall r :: IsRoot(kind, r) <==> IsRoot(kind0, r)
  {
  }

  lemma UserNotTable(pt: Tables, kind: map<nat, Kind>, p: nat)
    requires VmInv(pt, kind) && p in kind && kind[p].User?
    ensures p !in pt && pt - {p} == pt
  {
    assert p !in pt;
    assert pt - {p} == pt;
  }

  lemma SameButEmpty(pt: Tables, kind: map<nat, Kind>, root: nat, v: nat)
    ensures SameBut(pt, pt, kind, root, v, v)
  {
  }

  lemma SameButRange(pt0: Tables, pt: Tables, kind: map<nat, Kind>, root: nat, lo: nat, hi: nat)
    requires SameBut(pt0, pt, kind, root, hi, hi + 1) && IsRoot(kind, root)
    ensures forall v | lo <= v < hi && v < VPNS :: Leaf(pt, root, v) == Leaf(pt0, root, v)
  {
  }

  lemma PagesEmpty(pt: Tables, root: nat, v: nat, kind: map<nat, Kind>, k: Kind)
    ensures Pages(pt, root, v, v) == {} && Released(kind, {}, k) == kind
  {
  }

  /** The page to unmap next is as it was at the start. */
  lemma Unreleased(pt0: Tables, pt: Tables, kind0: map<nat, Kind>, kind: map<nat, Kind>, root: nat, lo: nat, a: nat,
                   k: Kind)
    requires SameBut(pt0, pt, kind, root, lo, a) && IsRoot(kind, root) && a < VPNS
    requires kind == Released(kind0, Pages(pt0, root, lo, a), k) && (k == Free || k == Held)
    ensures Leaf(pt, root, a) == Leaf(pt0, root, a)
    ensures IsOther(kind, Leaf(pt, root, a).ppn) == IsOther(kind0, Leaf(pt0, root, a).ppn)
    ensures forall r :: IsRoot(kind, r) ==> IsRoot(kind0, r)
  {
    hide Leaf, Pages;
  }

  lemma NextPage(pt0: Tables, root: nat, lo: nat, a: nat, kind0: map<nat, Kind>, kind: map<nat, Kind>, k: Kind)
    requires lo <= a && kind == Released(kind0, Pages(pt0, root, lo, a), k) && (k == Free || k == Held)
    requires Leaf(pt0, root, a).ppn in kind
    requires (kind[Leaf(pt0, root, a).ppn] == Other || kind[Leaf(pt0, root, a).ppn].User?)
    ensures Pages(pt0, root, lo, a + 1) == Pages(pt0, root, lo, a) + {Leaf(pt0, root, a).ppn}
    ensures Released(kind0, Pages(pt0, root, lo, a + 1), k) ==
              if kind[Leaf(pt0, root, a).ppn] == Other then kind else kind[Leaf(pt0, root, a).ppn := k]
    ensures forall r :: IsRoot(kind[Leaf(pt0, root, a).ppn := k], r) ==> IsRoot(kind, r)
  {
    hide Leaf, Pages;
    var q := Leaf(pt0, root, a).ppn;
    PagesNext(pt0, root, lo, a);
    ReleasedNext(kind0, Pages(pt0, root, lo, a), q, k);
  }

  // ---- what uvmalloc and uvmcopy add ----

  datatype Want = Want(flags: Flags, bytes: seq<byte>)

  ghost predicate PageIs(e: Pte, w: Want, kind0: map<nat, Kind>, kind: map<nat, Kind>, data: map<nat, seq<byte>>) {
    && e.v && e.flags == w.flags && e.ppn in kind0 && e.ppn in kind && e.ppn in data
    && kind0[e.ppn] == Free && kind[e.ppn].User? && data[e.ppn] == w.bytes
  }

  /** From lo on, root maps |want| fresh pages with the wanted flags and bytes; every other mapping
      and every other page in use is as before. */
  ghost predicate Added(pt0: Tables, kind0: map<nat, Kind>, pt: Tables, kind: map<nat, Kind>, data: map<nat, seq<byte>>,
                        root: nat, lo: nat, want: seq<Want>)
  {
    && kind.Keys == kind0.Keys && SameBut(pt0, pt, kind, root, lo, lo + |want|)
    && (forall v | lo <= v < lo + |want| :: PageIs(Leaf(pt, root, v), want[v - lo], kind0, kind, data))
    && (forall q | q in kind0 :: kind[q] == kind0[q] || (kind0[q] == Free &&
         (kind[q].Table? || (kind[q].User? && q in Pages(pt, root, lo, lo + |want|)))))
  }

  lemma OnePage(pt: Tables, root: nat, v: nat)
    ensures Leaf(pt, root, v).ppn in Pages(pt, root, v, v + 1)
  {
  }

  lemma NewRoot(pt: Tables, kind0: map<nat, Kind>, kind: map<nat, Kind>, root: nat, pt': Tables)
    requires VmInv(pt, kind) && root in kind0 && kind0[root] == Free && kind == kind0[root := Held]
    requires pt' == pt[root := ZeroTable()]
    ensures SameBut(pt, pt', kind0, 0, 0, 0) && forall v: nat | v < VPNS :: Leaf(pt', root, v) == NOPTE
  {
    hide VmInv, Leaf;
    forall v: nat | v < VPNS ensures Leaf(pt', root, v) == NOPTE {
      AddRootLeaves(pt, kind, root, pt', v);
    }
    forall r, v: nat | IsRoot(kind0, r) && v < VPNS ensures Leaf(pt', r, v) == Leaf(pt, r, v) {
      AddRootLeaves(pt, kind, root, pt', v);
      assert IsRoot(kind, r);
    }
  }

  lemma AddedRefl(pt: Tables, kind: map<nat, Kind>, data: map<nat, seq<byte>>, root: nat, lo: nat)
    ensures Added(pt, kind, pt, kind, data, root, lo, [])
  {
  }

  lemma AddedOne(pt0: Tables, kind0: map<nat, Kind>, kind1: map<nat, Kind>, pt: Tables, kind: map<nat, Kind>,
                 data: map<nat, seq<byte>>,
                 root: nat, vpn: nat, mem: nat, perm: Flags, bytes: seq<byte>)
    requires mem in kind0 && kind0[mem] == Free && kind1 == kind0[mem := Held] && Mapped(kind1, kind, mem, mem + 1)
    requires SameBut(pt0, pt, kind, root, vpn, vpn + 1) && Leaf(pt, root, vpn) == Pte(mem, true, perm)
    requires mem in data && data[mem] == bytes
    ensures Added(pt0, kind0, pt, kind, data, root, vpn, [Want(perm, bytes)])
  {
    hide SameBut;
    OnePage(pt, root, vpn);
    hide Leaf, Pages;
  }

  lemma AddedNone(pt0: Tables, kind0: map<nat, Kind>, kind1: map<nat, Kind>, pt: Tables, kind: map<nat, Kind>,
                  data: map<nat, seq<byte>>,
                  root: nat, vpn: nat, mem: nat)
    requires mem in kind0 && kind0[mem] == Free && kind1 == kind0[mem := Held] && Mapped(kind1, kind, mem, mem)
    requires SameBut(pt0, pt, kind, root, vpn, vpn)
    ensures kind[mem] == Held && Added(pt0, kind0, pt, kind[mem := Free], data, root, vpn, [])
  {
    hide Leaf, Pages;
    SameButKind(pt0, pt, kind, kind[mem := Free], root, vpn, vpn);
  }

  lemma SameDataOver(data0: map<nat, seq<byte>>, data1: map<nat, seq<byte>>, data2: map<nat, seq<byte>>,
                     kind0: map<nat, Kind>, kind1: map<nat, Kind>, mem: nat)
    requires SameData(data0, data1, kind0) && SameData(data1, data2, kind1) && mem in kind0 && kind0[mem] == Free
    requires kind1 == kind0[mem := Held]
    requires mem in data1
    ensures SameData(data0, data2, kind0) && mem in data2 && data2[mem] == data1[mem]
  {
  }

  function PgUp(sz: nat): nat {
    (sz + PGSIZE - 1) / PGSIZE
  }

  ghost function Zeros(n: int, w: bool, x: bool): (s: seq<Want>)
    ensures |s| == if n < 0 then 0 else n
    ensures forall i | 0 <= i < |s| :: s[i] == Want(Flags(true, w, x, true), Fill(0))
  {
    seq(if n < 0 then 0 else n, _ => Want(Flags(true, w, x, true), Fill(0)))
  }

  lemma NoPages(pt: Tables, kind: map<nat, Kind>, root: nat, lo: nat, hi: nat)
    requires lo >= hi
    ensures SameBut(pt, pt, kind, root, lo, hi) && Released(kind, Pages(pt, root, lo, hi), Free) == kind
  {
  }

  lemma AddedFrame(pt0: Tables, kind0: map<nat, Kind>, pt: Tables, kind: map<nat, Kind>, data: map<nat, seq<byte>>,
                   root: nat, lo: nat, want: seq<Want>, v: nat)
    requires Added(pt0, kind0, pt, kind, data, root, lo, want) && IsRoot(kind, root) && lo + |want| <= v < VPNS
    ensures Leaf(pt, root, v) == Leaf(pt0, root, v)
  {
  }

  lemma AddedTrans(pt0: Tables, kind0: map<nat, Kind>, pt1: Tables, kind1: map<nat, Kind>, data1: map<nat, seq<byte>>,
                   pt2: Tables, kind2: map<nat, Kind>, data2: map<nat, seq<byte>>, root: nat, lo: nat, want: seq<Want>, more: seq<Want>)
    requires Added(pt0, kind0, pt1, kind1, data1, root, lo, want)
    requires Added(pt1, kind1, pt2, kind2, data2, root, lo + |want|, more)
    requires SameData(data1, data2, kind1) && IsRoot(kind1, root) && lo + |want| <= VPNS
    ensures Added(pt0, kind0, pt2, kind2, data2, root, lo, want + more) && IsRoot(kind2, root)
  {
    hide Leaf, SameBut, Pages, PageIs;
    var mid, hi := lo + |want|, lo + |want| + |more|;
    AddedFixed(pt1, kind1, pt2, kind2, data2, root, lo, mid, more);
    SameButTrans(pt0, pt1, pt2, kind1, kind2, root, lo, mid, hi);
    forall v | lo <= v < hi ensures PageIs(Leaf(pt2, root, v), (want + more)[v - lo], kind0, kind2, data2) {
      if v < mid {
        PageStill(Leaf(pt2, root, v), want[v - lo], kind0, kind1, data1, kind2, data2);
      } else {
        assert PageIs(Leaf(pt2, root, v), more[v - mid], kind1, kind2, data2);
        PageBefore(Leaf(pt2, root, v), more[v - mid], kind0, kind1, kind2, data2);
      }
    }
    forall q | q in kind0 && q in Pages(pt1, root, lo, mid) ensures q in Pages(pt2, root, lo, hi) {
      PagesMore(pt1, pt2, root, lo, mid, hi, q);
    }
    forall q | q in kind0 && q in Pages(pt2, root, mid, hi) ensures q in Pages(pt2, root, lo, hi) {
      PagesLater(pt2, root, lo, mid, hi, q);
    }
  }

  lemma AddedFixed(pt1: Tables, kind1: map<nat, Kind>, pt2: Tables, kind2: map<nat, Kind>, data2: map<nat, seq<byte>>,
                   root: nat, lo: nat, mid: nat, more: seq<Want>)
    requires Added(pt1, kind1, pt2, kind2, data2, root, mid, more) && IsRoot(kind1, root) && mid <= VPNS
    ensures IsRoot(kind2, root) && forall v | lo <= v < mid :: Leaf(pt2, root, v) == Leaf(pt1, root, v)
    ensures forall r | IsRoot(kind2, r) :: IsRoot(kind1, r)
  {
    hide Leaf, Pages;
  }

  lemma PageStill(e: Pte, w: Want, kind0: map<nat, Kind>, kind1: map<nat, Kind>, data1: map<nat, seq<byte>>,
                  kind2: map<nat, Kind>, data2: map<nat, seq<byte>>)
    requires PageIs(e, w, kind0, kind1, data1) && SameData(data1, data2, kind1)
    requires kind2.Keys == kind1.Keys && forall q | q in kind1 :: kind2[q] == kind1[q] || kind1[q] == Free
    ensures PageIs(e, w, kind0, kind2, data2)
  {
  }

  lemma PageBefore(e: Pte, w: Want, kind0: map<nat, Kind>, kind1: map<nat, Kind>, kind2: map<nat, Kind>, data2: map<nat,
                   seq<byte>>)
    requires PageIs(e, w, kind1, kind2, data2) && kind1.Keys == kind0.Keys
    requires e.ppn in kind0 ==> kind1[e.ppn] == Free ==> kind0[e.ppn] == Free
    ensures PageIs(e, w, kind0, kind2, data2)
  {
  }

  lemma PagesMore(pt1: Tables, pt2: Tables, root: nat, lo: nat, mid: nat, hi: nat, q: nat)
    requires q in Pages(pt1, root, lo, mid) && mid <= hi
    requires forall v | lo <= v < mid :: Leaf(pt2, root, v) == Leaf(pt1, root, v)
    ensures q in Pages(pt2, root, lo, hi)
  {
    hide Leaf;
    var v :| lo <= v < mid && Leaf(pt1, root, v).ppn == q;
    assert Leaf(pt2, root, v).ppn == q;
  }

  lemma PagesLater(pt: Tables, root: nat, lo: nat, mid: nat, hi: nat, q: nat)
    requires q in Pages(pt, root, mid, hi) && lo <= mid
    ensures q in Pages(pt, root, lo, hi)
  {
    hide Leaf;
    var v :| mid <= v < hi && Leaf(pt, root, v).ppn == q;
  }

  lemma SameDataAdded(pt0: Tables, kind0: map<nat, Kind>, pt1: Tables, kind1: map<nat, Kind>,
                      data0: map<nat, seq<byte>>, data1: map<nat, seq<byte>>, data2: map<nat, seq<byte>>, root: nat, lo: nat, want: seq<Want>)
    requires Added(pt0, kind0, pt1, kind1, data1, root, lo, want) && SameData(data0, data1, kind0)
    requires SameData(data1, data2, kind1)
    ensures SameData(data0, data2, kind0)
  {
  }

  lemma AddedUser(pt0: Tables, kind0: map<nat, Kind>, pt: Tables, kind: map<nat, Kind>, data: map<nat, seq<byte>>,
                  root: nat, lo: nat, want: seq<Want>)
    requires Added(pt0, kind0, pt, kind, data, root, lo, want)
    ensures forall v | lo <= v < lo + |want| :: Leaf(pt, root, v).v && !IsOther(kind, Leaf(pt, root, v).ppn)
  {
    hide Leaf;
    forall v | lo <= v < lo + |want| ensures Leaf(pt, root, v).v && !IsOther(kind, Leaf(pt, root, v).ppn) {
      assert PageIs(Leaf(pt, root, v), want[v - lo], kind0, kind, data);
    }
  }

  /** Unmapping what was added brings back every mapping and every user page. */
  lemma AddedUndone(pt0: Tables, kind0: map<nat, Kind>, data0: map<nat, seq<byte>>,
                    pt1: Tables, kind1: map<nat, Kind>, data1: map<nat, seq<byte>>,
                    pt2: Tables, kind2: map<nat, Kind>, data2: map<nat, seq<byte>>, root: nat, lo: nat, want: seq<Want>)
    requires Added(pt0, kind0, pt1, kind1, data1, root, lo, want) && lo + |want| <= VPNS
    requires SameBut(pt1, pt2, kind2, root, lo, lo + |want|)
    requires kind2 == Released(kind1, Pages(pt1, root, lo, lo + |want|), Free)
    requires forall v | lo <= v < lo + |want| :: Leaf(pt2, root, v) == NOPTE && !Leaf(pt0, root, v).v
    requires SameData(data0, data1, kind0)
    requires data2.Keys == kind2.Keys
    requires forall q | q in data2 && q !in Pages(pt1, root, lo, lo + |want|) :: q in data1 && data2[q] == data1[q]
    ensures SameBut(pt0, pt2, kind2, 0, 0, 0) && Grown(kind0, kind2) && SameData(data0, data2, kind0)
  {
    forall q | q in Pages(pt1, root, lo, lo + |want|) ensures q in kind0 && kind0[q] == Free && kind1[q].User? {
      var v :| lo <= v < lo + |want| && Leaf(pt1, root, v).ppn == q;
      assert PageIs(Leaf(pt1, root, v), want[v - lo], kind0, kind1, data1);
    }
    hide Pages;
    assert forall r | IsRoot(kind2, r) :: IsRoot(kind1, r);
    forall r, v: nat | IsRoot(kind2, r) && v < VPNS ensures Leaf(pt2, r, v) == Leaf(pt0, r, v) {
      if !(r == root && lo <= v < lo + |want|) {
        assert Leaf(pt2, r, v) == Leaf(pt1, r, v);
      }
    }
  }

  /** What a copy of the first n pages of root has to hold. */
  ghost function Copies(pt: Tables, data: map<nat, seq<byte>>, root: nat, n: nat): (s: seq<Want>)
    ensures |s| == n
    ensures forall i | 0 <= i < n :: s[i] == CopyOf(pt, data, root, i)
  {
    seq(n, i requires 0 <= i < n => CopyOf(pt, data, root, i))
  }

  ghost function CopyOf(pt: Tables, data: map<nat, seq<byte>>, root: nat, v: nat): Want {
    var e := Leaf(pt, root, v);
    Want(e.flags, if e.ppn in data then data[e.ppn] else [])
  }

  lemma AddedRoot(pt0: Tables, kind0: map<nat, Kind>, pt: Tables, kind: map<nat, Kind>, data: map<nat, seq<byte>>,
                  root: nat, lo: nat, want: seq<Want>, r: nat)
    requires Added(pt0, kind0, pt, kind, data, root, lo, want)
    ensures IsRoot(kind, r) == IsRoot(kind0, r)
  {
  }

  /** The entry of a mapped page. */
  lemma LeafEntry(pt: Tables, kind: map<nat, Kind>, root: nat, vpn: nat)
    requires VmInv(pt, kind) && IsRoot(kind, root) && vpn < VPNS && Leaf(pt, root, vpn).v
    ensures var t, e := Last(pt, root, vpn), Leaf(pt, root, vpn);
            && t in pt && I0(vpn) < |pt[t]| && pt[t][I0(vpn)] == e && e.IsLeaf()
            && e.ppn in kind && (kind[e.ppn] == Other || kind[e.ppn].User?)
  {
    hide VmInv, Leaf, Last;
    UnmapStep(pt, kind, root, vpn);
  }

  /** Page v of src is still what it was when copying began. */
  lemma CopySource(pt0: Tables, kind0: map<nat, Kind>, data0: map<nat, seq<byte>>, pt: Tables, kind: map<nat, Kind>,
                   data: map<nat, seq<byte>>,
                   src: nat, dst: nat, v: nat, want: seq<Want>)
    requires VmInv(pt0, kind0) && VmInv(pt, kind) && data.Keys == kind.Keys && data0.Keys == kind0.Keys
    requires IsRoot(kind0, src) && IsRoot(kind, src) && src != dst && v < VPNS && Leaf(pt0, src, v).v
    requires Added(pt0, kind0, pt, kind, data, dst, 0, want) && SameData(data0, data, kind0)
    ensures var t, e := Last(pt, src, v), Leaf(pt, src, v);
            && t in pt && I0(v) < |pt[t]| && pt[t][I0(v)] == e && e.IsLeaf()
            && e.ppn in data && CopyOf(pt0, data0, src, v) == Want(e.flags, data[e.ppn])
  {
    hide VmInv, Leaf, Last, Pages;
    assert Leaf(pt, src, v) == Leaf(pt0, src, v);
    LeafEntry(pt0, kind0, src, v);
    LeafEntry(pt, kind, src, v);
  }

  lemma TableNotZero(pt: Tables, kind: map<nat, Kind>)
    requires VmInv(pt, kind)
    ensures 0 !in kind
  {
  }

  /** The bytes of every page still in use are the same. */
  ghost predicate SameUse(data0: map<nat, seq<byte>>, data: map<nat, seq<byte>>, kind: map<nat, Kind>) {
    forall q | q in kind && kind[q] != Free && q in data0 :: q in data && data[q] == data0[q]
  }

  lemma PrunedRow(pt0: Tables, kind0: map<nat, Kind>, p: nat, i: nat, pt: Tables, kind: map<nat, Kind>)
    requires PrunedTo(pt0, kind0, p, i, pt, kind)
    ensures p in pt && |pt[p]| == NPTE
  {
  }

  lemma PrunedEnd(pt0: Tables, kind0: map<nat, Kind>, p: nat, pt: Tables, kind: map<nat, Kind>)
    requires PrunedTo(pt0, kind0, p, NPTE, pt, kind)
    ensures p in pt && |pt[p]| == NPTE && forall j: nat | j < NPTE :: !pt[p][j].v
  {
  }

  lemma ChildCut(kind0: map<nat, Kind>, c: nat, p: nat, i: nat, pt: Tables, kind: map<nat, Kind>)
    requires CutOff(kind0, c, pt, kind) && c in kind0 && kind0[c].Table? && kind0[c].parent == p && kind0[c].idx == i
    ensures p in pt && i < |pt[p]| && VmInv(pt[p := pt[p][i := NOPTE]], kind)
  {
    hide VmInv;
  }

  lemma CutOffSame(kind0: map<nat, Kind>, kind1: map<nat, Kind>, p: nat, pt: Tables, kind: map<nat, Kind>)
    requires CutOff(kind1, p, pt, kind) && p in kind0 && p in kind1 && kind0[p] == kind1[p]
    ensures CutOff(kind0, p, pt, kind)
  {
    hide VmInv;
  }

  lemma SameUseTrans(data0: map<nat, seq<byte>>, data1: map<nat, seq<byte>>, data2: map<nat, seq<byte>>,
                     pt1: Tables, kind1: map<nat, Kind>, c: nat, pt2: Tables, kind2: map<nat, Kind>)
    requires SameUse(data0, data1, kind1) && SameUse(data1, data2, kind2) && Pruned(pt1, kind1, c, pt2, kind2)
    ensures SameUse(data0, data2, kind2)
  {
    hide Under;
  }

  lemma RootTable(pt: Tables, kind: map<nat, Kind>, root: nat)
    requires VmInv(pt, kind) && IsRoot(kind, root)
    ensures root in pt && root in kind && kind[root] == Root
  {
  }

  lemma SameButAll(pt0: Tables, pt: Tables, kind: map<nat, Kind>, root: nat, lo: nat, hi: nat)
    requires SameBut(pt0, pt, kind, root, lo, hi) && IsRoot(kind, root)
    requires forall v: nat | lo <= v < hi :: !Leaf(pt, root, v).v
    requires forall v: nat | v < VPNS && !(lo <= v < hi) :: !Leaf(pt0, root, v).v
    ensures forall v: nat | v < VPNS :: !Leaf(pt, root, v).v
  {
    hide Leaf;
  }

  lemma AllFreed(pt0: Tables, kind0: map<nat, Kind>, pt1: Tables, kind1: map<nat, Kind>, pt: Tables, kind: map<nat,
                 Kind>, root: nat, n: nat)
    requires VmInv(pt0, kind0) && VmInv(pt1, kind1) && IsRoot(kind0, root) && IsRoot(kind1, root) && n <= VPNS
    requires forall v: nat | v < n :: Leaf(pt0, root, v).v && !IsOther(kind0, Leaf(pt0, root, v).ppn)
    requires kind1 == Released(kind0, Pages(pt0, root, 0, n), Free) && SameBut(pt0, pt1, kind1, root, 0, n)
    requires Pruned(pt1, kind1, root, pt, kind)
    ensures kind.Keys == kind0.Keys && SameBut(pt0, pt, kind, 0, 0, 0)
    ensures forall q | q in Pages(pt0, root, 0, n) && q in kind1 :: kind1[q] == Free
    ensures forall q | q in kind ::
              kind[q] == if q in Pages(pt0, root, 0, n) || Under(kind0, root, q) then Free else kind0[q]
  {
    forall q | q in Pages(pt0, root, 0, n) ensures q in kind0 && kind0[q].User? {
      var v :| 0 <= v < n && Leaf(pt0, root, v).ppn == q;
      LeafEntry(pt0, kind0, root, v);
    }
    hide Pages, VmInv, Leaf;
    assert forall q :: Under(kind1, root, q) <==> Under(kind0, root, q);
    hide Under;
    forall r, v: nat | IsRoot(kind, r) && v < VPNS ensures Leaf(pt, r, v) == Leaf(pt0, r, v) {
      PrunedLeaves(pt1, kind1, root, pt, kind, r, v);
      assert IsRoot(kind1, r) && r != root by { UnderSelf(kind1, root); }
    }
  }

  lemma UnderSelf(kind: map<nat, Kind>, p: nat)
    requires p in kind
    ensures Under(kind, p, p)
  {
  }

  lemma SameUseFreed(data0: map<nat, seq<byte>>, data1: map<nat, seq<byte>>, data2: map<nat, seq<byte>>, kind0: map<nat,
                     Kind>,
                     pt1: Tables, kind1: map<nat, Kind>, pt2: Tables, kind2: map<nat, Kind>, pt0: Tables, root: nat, n: nat)
    requires kind1 == Released(kind0, Pages(pt0, root, 0, n), Free) && data1.Keys == kind1.Keys
    requires forall q | q in data1 && q !in Pages(pt0, root, 0, n) :: q in data0 && data1[q] == data0[q]
    requires SameUse(data1, data2, kind2) && Pruned(pt1, kind1, root, pt2, kind2)
    requires forall q | q in Pages(pt0, root, 0, n) && q in kind1 :: kind1[q] == Free
    ensures SameUse(data0, data2, kind2)
  {
    hide Under, Pages;
  }

  lemma LeafNone(pt: Tables, kind: map<nat, Kind>, root: nat, vpn: nat)
    requires VmInv(pt, kind) && IsRoot(kind, root) && vpn < VPNS
    ensures var t := Last(pt, root, vpn);
            if t == 0 then !Leaf(pt, root, vpn).v
            else t in pt && I0(vpn) < |pt[t]| && Leaf(pt, root, vpn) == if pt[t][I0(vpn)].v then pt[t][I0(vpn)] else NOPTE
  {
    IndexBounds(vpn);
    if Last(pt, root, vpn) != 0 {
      LastKind(pt, kind, root, vpn);
    }
  }

  function MoveIn(data: map<nat, seq<byte>>, q: nat, o: nat, s: seq<byte>): (d: map<nat, seq<byte>>)
    requires q in data && o + |s| <= |data[q]|
    ensures d == Moved(data, q, o, s)
  {
    data[q := data[q][..o] + s + data[q][o + |s|..]]
  }

  lemma StoredNone(data: map<nat, seq<byte>>, pt: Tables, root: nat, va: nat, src: seq<byte>)
    ensures Stored(data, pt, root, va, src, 0) == data
  {
  }

  lemma DataStored(data: map<nat, seq<byte>>, data0: map<nat, seq<byte>>, kind: map<nat, Kind>)
    requires DataOk(data0, kind) && data.Keys == data0.Keys && forall q | q in data0 :: |data[q]| == |data0[q]|
    ensures DataOk(data, kind)
  {
  }

  /** copyout and then copyin of the same user bytes gives them back. */
  method OutThenIn(m: Memory, root: nat, va: nat, src: seq<byte>) returns (ok: bool, dst: seq<byte>)
    requires m.Valid() && IsRoot(m.kind, root) && UserBytes(m.pt, m.kind, root, va, |src|)
    modifies m
    ensures m.Valid() && m.pt == old(m.pt) && m.kind == old(m.kind)
    ensures (ok <==> AllWritable(m.pt, root, va, va + |src|)) && (ok ==> dst == src)
  {
    hide Leaf, VmInv, Unaliased, UserBytes;
    ghost var done;
    dst := [];
    ghost var before := m.data;
    m.ValidKeys();
    ok, done := m.CopyOut(root, va, src);
    if ok && |src| > 0 {
      var ok', got := m.CopyIn(root, va, |src|);
      forall a: nat | va <= a < va + |src| ensures Readable(m.pt, root, a) {
        assert Writable(m.pt, root, a);
      }
      UserUnaliased(m.pt, m.kind, before, root, va, |src|);
      StoredLoaded(before, m.pt, root, va, src, |src|);
      assert src[..|src|] == src;
      dst := got;
    }
  }
}
