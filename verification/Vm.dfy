/** Page tables and physical pages, kernel/vm.c and kernel/kalloc.c, on values. Pages are named
    by page number, address / PGSIZE; 0 stands for the null pointer. */
module VmSpec {
  import opened Blocks

  const PGSIZE: nat := 4096
  const NPTE: nat := 512
  const VPNS: nat := 0x400_0000   // MAXVA / PGSIZE
  const TOP: nat := 256           // MAXVA uses one bit less than Sv39: half of a root's entries

  /** The permission bits of a PTE, besides V. */
  datatype Flags = Flags(r: bool, w: bool, x: bool, u: bool)

  const NOFLAGS := Flags(false, false, false, false)

  datatype Pte = Pte(ppn: nat, v: bool, flags: Flags) {
    /** A PTE with any of R, W, X is a leaf; PTE_FLAGS(pte) == PTE_V says that it is not. */
    predicate IsLeaf() {
      v && (flags.r || flags.w || flags.x)
    }
  }

  const NOPTE := Pte(0, false, NOFLAGS)

  /** What a page of the allocator is used for. Held pages were just allocated; Other pages are the
      kernel's own and may be mapped in any number of page tables. Table and user pages know the one
      PTE that leads to them. */
  datatype Kind =
    | Free
    | Root
    | Table(level: nat, parent: nat, idx: nat)
    | User(parent: nat, idx: nat)
    | Held
    | Other

  type Tables = map<nat, seq<Pte>>

  function Level(k: Kind): int {
    match k case Root => 2 case Table(l, _, _) => l case _ => -1
  }

  predicate IsTable(k: Kind) {
    k.Root? || (k.Table? && k.level < 2)
  }

  /** An entry that may lead to a table. */
  ghost predicate UpperEntry(kind: map<nat, Kind>, p: nat, i: nat) {
    p in kind && (Level(kind[p]) == 1 || (Level(kind[p]) == 2 && i < TOP))
  }

  /** The page an entry leads to, 0 for none. */
  ghost function Child(pt: Tables, p: nat, i: nat): nat {
    if p in pt && i < |pt[p]| && pt[p][i].v then pt[p][i].ppn else 0
  }

  ghost predicate FreeList(free: seq<nat>, kind: map<nat, Kind>) {
    && (forall i | 0 <= i < |free| :: free[i] in kind && kind[free[i]] == Free)
    && (forall i, j | 0 <= i < j < |free| :: free[i] != free[j])
    && (forall p | p in kind && kind[p] == Free :: p in free)
  }

  /** Entries lead one level down, to a page that knows this entry as its parent; a leaf leads to
      such a user page or to a page of the kernel's. */
  ghost predicate Down(pt: Tables, kind: map<nat, Kind>) {
    forall p, i: nat {:trigger Child(pt, p, i)} | p in pt && i < NPTE && Child(pt, p, i) != 0 ::
      && p in kind && Child(pt, p, i) in kind
      && (Level(kind[p]) > 0 ==>
            kind[Child(pt, p, i)] == Table(Level(kind[p]) - 1, p, i) && pt[p][i].flags == NOFLAGS)
      && (Level(kind[p]) == 0 ==>
            (kind[Child(pt, p, i)] == User(p, i) || kind[Child(pt, p, i)] == Other) && pt[p][i].IsLeaf())
  }

  /** Table and user pages hang from the entry they know. */
  ghost predicate Up(pt: Tables, kind: map<nat, Kind>) {
    forall q | q in kind && (kind[q].Table? || kind[q].User?) ::
      && kind[q].parent in pt && kind[q].parent in kind && kind[q].idx < NPTE
      && Child(pt, kind[q].parent, kind[q].idx) == q
      && Level(kind[kind[q].parent]) == (if kind[q].Table? then kind[q].level + 1 else 0)
  }

  ghost predicate TablesOk(pt: Tables, kind: map<nat, Kind>) {
    && 0 !in kind
    && (forall p :: p in pt <==> p in kind && IsTable(kind[p]))
    && (forall p | p in kind && kind[p].Table? :: kind[p].level == 0 || (kind[p].level == 1 && kind[p].idx < TOP))
    && (forall p | p in pt :: |pt[p]| == NPTE)
    && (forall p, i: nat | p in pt && i < NPTE :: pt[p][i].v ==> pt[p][i].ppn != 0)
  }

  ghost predicate VmInv(pt: Tables, kind: map<nat, Kind>) {
    TablesOk(pt, kind) && Down(pt, kind) && Up(pt, kind)
  }

  // ---- what a page table maps ----

  function I2(vpn: nat): nat { vpn / 262144 }
  function I1(vpn: nat): nat { vpn / 512 % 512 }
  function I0(vpn: nat): nat { vpn % 512 }

  /** The level-0 table for vpn in the tree of root, 0 if there is none. */
  ghost function Last(pt: Tables, root: nat, vpn: nat): nat {
    Child(pt, Child(pt, root, I2(vpn)), I1(vpn))
  }

  /** The PTE of vpn; one that is not valid when vpn is not mapped. */
  ghost function Leaf(pt: Tables, root: nat, vpn: nat): Pte {
    var t := Last(pt, root, vpn);
    if t in pt && |pt[t]| == NPTE && pt[t][I0(vpn)].v then pt[t][I0(vpn)] else NOPTE
  }

  lemma IndexInjective(a: nat, b: nat)
    requires I2(a) == I2(b) && I1(a) == I1(b) && I0(a) == I0(b)
    ensures a == b
  {
    assert a / 512 / 512 == a / 262144 && b / 512 / 512 == b / 262144;
  }

  lemma IndexBounds(vpn: nat)
    requires vpn < VPNS
    ensures I2(vpn) < TOP && I1(vpn) < NPTE && I0(vpn) < NPTE
  {
  }

  /** The level-0 table of vpn knows its place. */
  lemma LastKind(pt: Tables, kind: map<nat, Kind>, root: nat, vpn: nat)
    requires VmInv(pt, kind) && root in kind && kind[root] == Root && vpn < VPNS && Last(pt, root, vpn) != 0
    ensures var t1, t := Child(pt, root, I2(vpn)), Last(pt, root, vpn);
            && t in pt && t1 in pt && t in kind && t1 in kind
            && kind[t] == Table(0, t1, I1(vpn)) && kind[t1] == Table(1, root, I2(vpn))
  {
    IndexBounds(vpn);
    var t1 := Child(pt, root, I2(vpn));
    assert root in pt;
    assert t1 != 0;
    assert kind[t1] == Table(1, root, I2(vpn));
    assert Child(pt, t1, I1(vpn)) != 0;
  }

  /** Two addresses, in the same tree or not, share a PTE only if they are the same. */
  lemma LastInjective(pt: Tables, kind: map<nat, Kind>, root: nat, vpn: nat, root': nat, vpn': nat)
    requires VmInv(pt, kind) && root in kind && kind[root] == Root && root' in kind && kind[root'] == Root
    requires vpn < VPNS && vpn' < VPNS && Last(pt, root, vpn) == Last(pt, root', vpn') != 0 && I0(vpn) == I0(vpn')
    ensures root == root' && vpn == vpn'
  {
    LastKind(pt, kind, root, vpn);
    LastKind(pt, kind, root', vpn');
    IndexInjective(vpn, vpn');
  }

  // ---- steps ----

  ghost function SetPte(pt: Tables, p: nat, i: nat, e: Pte): Tables
    requires p in pt && i < |pt[p]|
  {
    pt[p := pt[p][i := e]]
  }

  /** A new zeroed table hung from an empty entry of p. */
  lemma AddTable(pt: Tables, kind: map<nat, Kind>, p: nat, i: nat, q: nat, pt': Tables, kind': map<nat, Kind>)
    requires VmInv(pt, kind) && p in pt && i < NPTE && UpperEntry(kind, p, i) && !pt[p][i].v && q in kind
    requires kind[q] == Held
    requires pt' == SetPte(pt, p, i, Pte(q, true, NOFLAGS))[q := ZeroTable()]
    requires kind' == kind[q := Table(Level(kind[p]) - 1, p, i)]
    ensures VmInv(pt', kind')
  {
    hide Down, Up;
    AddTableChild(pt, kind, p, i, q, pt');
    hide Child;
    assert Down(pt', kind') by { AddTableDown(pt, kind, p, i, q, pt', kind'); }
    assert Up(pt', kind') by { AddTableUp(pt, kind, p, i, q, pt', kind'); }
  }

  function ZeroTable(): (t: seq<Pte>)
    ensures |t| == NPTE && forall i | 0 <= i < NPTE :: t[i] == NOPTE
  {
    seq(NPTE, _ => NOPTE)
  }

  lemma AddTableChild(pt: Tables, kind: map<nat, Kind>, p: nat, i: nat, q: nat, pt': Tables)
    requires VmInv(pt, kind) && p in pt && i < NPTE && q in kind && kind[q] == Held
    requires pt' == SetPte(pt, p, i, Pte(q, true, NOFLAGS))[q := ZeroTable()]
    ensures q !in pt && forall j: nat :: Child(pt, q, j) == 0
    ensures forall x, j: nat | j < NPTE :: Child(pt', x, j) == if x == p && j == i then q else Child(pt, x, j)
  {
    assert q !in pt;
    forall x: nat, j: nat | j < NPTE
      ensures Child(pt', x, j) == if x == p && j == i then q else Child(pt, x, j)
    {
      if x == q {
        assert Child(pt', x, j) == 0;
      } else if x == p {
        assert pt'[p] == pt[p][i := Pte(q, true, NOFLAGS)];
      } else {
        assert x in pt' <==> x in pt;
      }
    }
  }

  lemma AddTableDown(pt: Tables, kind: map<nat, Kind>, p: nat, i: nat, q: nat, pt': Tables, kind': map<nat, Kind>)
    requires VmInv(pt, kind) && p in pt && i < NPTE && UpperEntry(kind, p, i) && !pt[p][i].v && q in kind
    requires kind[q] == Held
    requires pt' == SetPte(pt, p, i, Pte(q, true, NOFLAGS))[q := ZeroTable()]
    requires kind' == kind[q := Table(Level(kind[p]) - 1, p, i)]
    ensures Down(pt', kind')
  {
    hide Up, Child;
    AddTableChild(pt, kind, p, i, q, pt');
    assert Child(pt', p, i) == q && pt'[p][i] == Pte(q, true, NOFLAGS);
    forall x, j: nat | x in pt' && j < NPTE && Child(pt', x, j) != 0 && !(x == p && j == i)
      ensures x in kind && x != q && Child(pt, x, j) in kind && Child(pt, x, j) != q && pt'[x][j] == pt[x][j]
    {
    }
  }

  lemma AddTableUp(pt: Tables, kind: map<nat, Kind>, p: nat, i: nat, q: nat, pt': Tables, kind': map<nat, Kind>)
    requires VmInv(pt, kind) && p in pt && i < NPTE && UpperEntry(kind, p, i) && !pt[p][i].v && q in kind
    requires kind[q] == Held
    requires pt' == SetPte(pt, p, i, Pte(q, true, NOFLAGS))[q := ZeroTable()]
    requires kind' == kind[q := Table(Level(kind[p]) - 1, p, i)]
    ensures Up(pt', kind')
  {
    EntryEmpty(pt, kind, p, i);
    hide Down, Child;
    AddTableChild(pt, kind, p, i, q, pt');
  }

  /** Hanging a zeroed table maps nothing. */
  lemma AddTableLeaf(pt: Tables, kind: map<nat, Kind>, p: nat, i: nat, q: nat, root: nat, vpn: nat)
    requires VmInv(pt, kind) && p in pt && i < NPTE && UpperEntry(kind, p, i) && !pt[p][i].v
    requires q in kind && kind[q] == Held && root in kind && kind[root] == Root && vpn < VPNS
    ensures Leaf(SetPte(pt, p, i, Pte(q, true, NOFLAGS))[q := ZeroTable()], root, vpn) == Leaf(pt, root, vpn)
  {
    var pt' := SetPte(pt, p, i, Pte(q, true, NOFLAGS))[q := ZeroTable()];
    IndexBounds(vpn);
    AddTableChild(pt, kind, p, i, q, pt');
    assert q !in pt && root in pt;
    var t1, t := Child(pt, root, I2(vpn)), Last(pt, root, vpn);
    if t != 0 {
      LastKind(pt, kind, root, vpn);
      assert t != p;
    } else if t1 != 0 {
      assert kind[t1] == Table(1, root, I2(vpn));
      assert Child(pt', root, I2(vpn)) == t1;
      assert Last(pt', root, vpn) == 0 || Last(pt', root, vpn) == q;
    } else {
      assert Child(pt', root, I2(vpn)) == 0 || Child(pt', root, I2(vpn)) == q;
    }
  }

  /** Filling an empty leaf entry; the page is then the kernel's, or a user page of this entry. */
  lemma MapLeaf(pt: Tables, kind: map<nat, Kind>, p: nat, i: nat, q: nat, flags: Flags)
    requires VmInv(pt, kind) && p in pt && i < NPTE && Level(kind[p]) == 0 && !pt[p][i].v
    requires q in kind && (kind[q] == Held || kind[q] == Other) && (flags.r || flags.w || flags.x)
    ensures VmInv(SetPte(pt, p, i, Pte(q, true, flags)), if kind[q] == Other then kind else kind[q := User(p, i)])
  {
    var e := Pte(q, true, flags);
    var pt', kind' := SetPte(pt, p, i, e), if kind[q] == Other then kind else kind[q := User(p, i)];
    assert q != 0;
    hide Down, Up, Child;
    EntryChild(pt, p, i, e);
    EntryTables(pt, kind, p, i, e, kind');
    assert Down(pt', kind') by { MapDown(pt, kind, p, i, q, flags, pt', kind'); }
    assert Up(pt', kind') by { MapUp(pt, kind, p, i, q, flags, pt', kind'); }
  }

  lemma EntryChild(pt: Tables, p: nat, i: nat, e: Pte)
    requires p in pt && i < |pt[p]| == NPTE
    ensures forall x, j: nat | j < NPTE ::
              Child(SetPte(pt, p, i, e), x, j) == if x == p && j == i then (if e.v then e.ppn else 0) else Child(pt, x, j)
  {
  }

  lemma EntryTables(pt: Tables, kind: map<nat, Kind>, p: nat, i: nat, e: Pte, kind': map<nat, Kind>)
    requires TablesOk(pt, kind) && p in pt && i < NPTE && (e.v ==> e.ppn != 0) && kind'.Keys == kind.Keys
    requires forall x | x in kind ::
               kind'[x] == kind[x] || (!kind[x].Table? && !kind[x].Root? && !kind'[x].Table? && !kind'[x].Root?)
    ensures TablesOk(SetPte(pt, p, i, e), kind')
  {
  }

  lemma MapDown(pt: Tables, kind: map<nat, Kind>, p: nat, i: nat, q: nat, flags: Flags, pt': Tables, kind': map<nat,
                Kind>)
    requires VmInv(pt, kind) && p in pt && i < NPTE && Level(kind[p]) == 0 && !pt[p][i].v
    requires q in kind && (kind[q] == Held || kind[q] == Other) && (flags.r || flags.w || flags.x)
    requires pt' == SetPte(pt, p, i, Pte(q, true, flags))
    requires kind' == if kind[q] == Other then kind else kind[q := User(p, i)]
    ensures Down(pt', kind')
  {
    hide Up, Child;
    EntryChild(pt, p, i, Pte(q, true, flags));
  }

  lemma MapUp(pt: Tables, kind: map<nat, Kind>, p: nat, i: nat, q: nat, flags: Flags, pt': Tables, kind': map<nat,
              Kind>)
    requires VmInv(pt, kind) && p in pt && i < NPTE && Level(kind[p]) == 0 && !pt[p][i].v
    requires q in kind && (kind[q] == Held || kind[q] == Other)
    requires pt' == SetPte(pt, p, i, Pte(q, true, flags))
    requires kind' == if kind[q] == Other then kind else kind[q := User(p, i)]
    ensures Up(pt', kind')
  {
    EntryEmpty(pt, kind, p, i);
    hide Down, Child;
    EntryChild(pt, p, i, Pte(q, true, flags));
  }

  lemma EntryEmpty(pt: Tables, kind: map<nat, Kind>, p: nat, i: nat)
    requires VmInv(pt, kind) && p in pt && i < NPTE && !pt[p][i].v
    ensures Child(pt, p, i) == 0
  {
  }

  /** Clearing a leaf entry; its user page is then in the caller's hands. */
  lemma UnmapLeaf(pt: Tables, kind: map<nat, Kind>, p: nat, i: nat)
    requires VmInv(pt, kind) && p in pt && i < NPTE && Level(kind[p]) == 0 && pt[p][i].v
    ensures var q := pt[p][i].ppn;
            && q in kind && (kind[q] == Other || kind[q] == User(p, i)) && pt[p][i].IsLeaf()
            && VmInv(SetPte(pt, p, i, NOPTE), if kind[q] == Other then kind else kind[q := Held])
  {
    var q := pt[p][i].ppn;
    EntryLeaf(pt, kind, p, i);
    var pt', kind' := SetPte(pt, p, i, NOPTE), if kind[q] == Other then kind else kind[q := Held];
    hide Down, Up, Child;
    EntryTables(pt, kind, p, i, NOPTE, kind');
    assert Down(pt', kind') by { UnmapDown(pt, kind, p, i, q, pt', kind'); }
    assert Up(pt', kind') by { UnmapUp(pt, kind, p, i, q, pt', kind'); }
  }

  lemma EntryLeaf(pt: Tables, kind: map<nat, Kind>, p: nat, i: nat)
    requires VmInv(pt, kind) && p in pt && i < NPTE && Level(kind[p]) == 0 && pt[p][i].v
    ensures var q := pt[p][i].ppn;
            q != 0 && Child(pt, p, i) == q && q in kind && (kind[q] == Other || kind[q] == User(p, i)) && pt[p][i].IsLeaf()
  {
    assert Child(pt, p, i) == pt[p][i].ppn;
  }

  lemma UnmapDown(pt: Tables, kind: map<nat, Kind>, p: nat, i: nat, q: nat, pt': Tables, kind': map<nat, Kind>)
    requires VmInv(pt, kind) && p in pt && i < NPTE && Level(kind[p]) == 0 && pt[p][i].v && q == pt[p][i].ppn
    requires pt' == SetPte(pt, p, i, NOPTE) && q in kind && kind' == if kind[q] == Other then kind else kind[q := Held]
    ensures Down(pt', kind')
  {
    EntryLeaf(pt, kind, p, i);
    hide Up, Child;
    EntryChild(pt, p, i, NOPTE);
  }

  lemma UnmapUp(pt: Tables, kind: map<nat, Kind>, p: nat, i: nat, q: nat, pt': Tables, kind': map<nat, Kind>)
    requires VmInv(pt, kind) && p in pt && i < NPTE && Level(kind[p]) == 0 && pt[p][i].v && q == pt[p][i].ppn
    requires pt' == SetPte(pt, p, i, NOPTE) && q in kind && kind' == if kind[q] == Other then kind else kind[q := Held]
    ensures Up(pt', kind')
  {
    EntryLeaf(pt, kind, p, i);
    hide Down, Child;
    EntryChild(pt, p, i, NOPTE);
  }

  /** Changing the leaf entry of vpn in the tree of root changes that mapping and no other. */
  lemma SetLeaf(pt: Tables, kind: map<nat, Kind>, root: nat, vpn: nat, e: Pte, root': nat, vpn': nat)
    requires VmInv(pt, kind) && root in kind && kind[root] == Root && root' in kind && kind[root'] == Root
    requires vpn < VPNS && vpn' < VPNS && Last(pt, root, vpn) != 0
    ensures var t := Last(pt, root, vpn);
            && t in pt && I0(vpn) < |pt[t]|
            && Leaf(SetPte(pt, t, I0(vpn), e), root', vpn') ==
               if root' == root && vpn' == vpn then (if e.v then e else NOPTE) else Leaf(pt, root', vpn')
  {
    var t := Last(pt, root, vpn);
    LastKind(pt, kind, root, vpn);
    IndexBounds(vpn);
    IndexBounds(vpn');
    var pt' := SetPte(pt, t, I0(vpn), e);
    LastFrame(pt, kind, t, I0(vpn), e, root', vpn');
    if Last(pt, root', vpn') == t && I0(vpn') == I0(vpn) {
      LastInjective(pt, kind, root, vpn, root', vpn');
    }
  }

  lemma LastFrame(pt: Tables, kind: map<nat, Kind>, t: nat, i: nat, e: Pte, root: nat, vpn: nat)
    requires VmInv(pt, kind) && t in pt && i < NPTE && Level(kind[t]) == 0
    requires root in kind && kind[root] == Root && vpn < VPNS
    ensures Last(SetPte(pt, t, i, e), root, vpn) == Last(pt, root, vpn)
  {
    IndexBounds(vpn);
    var t1 := Child(pt, root, I2(vpn));
    if t1 != 0 {
      assert root in pt;
      assert kind[t1] == Table(1, root, I2(vpn));
    }
  }

  /** The kind of a page no entry leads to can change freely. */
  lemma Relabel(pt: Tables, kind: map<nat, Kind>, p: nat, k: Kind)
    requires VmInv(pt, kind) && p in kind && (kind[p] == Free || kind[p] == Held) && (k == Free || k == Held)
    ensures VmInv(pt, kind[p := k])
  {
    var kind' := kind[p := k];
    assert TablesOk(pt, kind');
    assert Down(pt, kind');
    assert Up(pt, kind');
  }

  /** A zeroed page becomes an empty address space. */
  lemma AddRoot(pt: Tables, kind: map<nat, Kind>, p: nat, pt': Tables)
    requires VmInv(pt, kind) && p in kind && kind[p] == Held && pt' == pt[p := ZeroTable()]
    ensures VmInv(pt', kind[p := Root]) && p !in pt
    ensures forall x, j: nat | j < NPTE :: Child(pt', x, j) == Child(pt, x, j)
  {
    var kind' := kind[p := Root];
    assert forall x, j: nat | j < NPTE :: Child(pt', x, j) == Child(pt, x, j);
    assert TablesOk(pt', kind') && Down(pt', kind') && Up(pt', kind');
  }

  lemma AddRootLeaves(pt: Tables, kind: map<nat, Kind>, p: nat, pt': Tables, vpn: nat)
    requires VmInv(pt, kind) && p in kind && kind[p] == Held && pt' == pt[p := ZeroTable()] && vpn < VPNS
    ensures Leaf(pt', p, vpn) == NOPTE
    ensures forall r | IsRoot(kind, r) :: Leaf(pt', r, vpn) == Leaf(pt, r, vpn)
  {
    IndexBounds(vpn);
    hide Up, Down;
    AddRoot(pt, kind, p, pt');
    assert Child(pt', p, I2(vpn)) == 0 && 0 !in pt';
    forall r | IsRoot(kind, r) ensures Leaf(pt', r, vpn) == Leaf(pt, r, vpn) {
      WalkTop(pt, kind, r, vpn);
      if Last(pt, r, vpn) != 0 {
        LastKind(pt, kind, r, vpn);
      }
    }
  }

  // ---- what the operations keep ----

  ghost predicate IsRoot(kind: map<nat, Kind>, r: nat) {
    r in kind && kind[r] == Root
  }

  /** Every address space maps what it did, but for the pages lo..hi of root. */
  ghost predicate SameBut(pt0: Tables, pt: Tables, kind: map<nat, Kind>, root: nat, lo: nat, hi: nat) {
    forall r, v: nat {:trigger Leaf(pt, r, v)} | IsRoot(kind, r) && v < VPNS && !(r == root && lo <= v < hi) ::
      Leaf(pt, r, v) == Leaf(pt0, r, v)
  }

  /** Pages in use stay what they were; free pages may have become tables. */
  ghost predicate Grown(kind0: map<nat, Kind>, kind: map<nat, Kind>) {
    && kind.Keys == kind0.Keys
    && forall q | q in kind0 :: kind[q] == kind0[q] || (kind0[q] == Free && kind[q].Table?)
  }

  ghost predicate DataOk(data: map<nat, seq<byte>>, kind: map<nat, Kind>) {
    data.Keys == kind.Keys && forall p | p in data :: |data[p]| == PGSIZE
  }

  /** The bytes of every page in use are the same. */
  ghost predicate SameData(data0: map<nat, seq<byte>>, data: map<nat, seq<byte>>, kind0: map<nat, Kind>) {
    forall q | q in kind0 && q in data0 && kind0[q] != Free :: q in data && data[q] == data0[q]
  }

  lemma AddTableLeaves(pt: Tables, kind: map<nat, Kind>, p: nat, i: nat, q: nat, pt': Tables, kind': map<nat, Kind>)
    requires VmInv(pt, kind) && p in pt && i < NPTE && UpperEntry(kind, p, i) && !pt[p][i].v && q in kind
    requires kind[q] == Held
    requires pt' == SetPte(pt, p, i, Pte(q, true, NOFLAGS))[q := ZeroTable()]
    requires kind' == kind[q := Table(Level(kind[p]) - 1, p, i)]
    ensures SameBut(pt, pt', kind', 0, 0, 0)
  {
    forall r, v: nat | IsRoot(kind', r) && v < VPNS ensures Leaf(pt', r, v) == Leaf(pt, r, v) {
      AddTableLeaf(pt, kind, p, i, q, r, v);
    }
  }

  lemma SetLeaves(pt: Tables, kind: map<nat, Kind>, root: nat, vpn: nat, e: Pte, pt': Tables)
    requires VmInv(pt, kind) && IsRoot(kind, root) && vpn < VPNS && Last(pt, root, vpn) != 0
    requires Last(pt, root, vpn) in pt && I0(vpn) < |pt[Last(pt, root, vpn)]|
    requires pt' == SetPte(pt, Last(pt, root, vpn), I0(vpn), e)
    ensures Leaf(pt', root, vpn) == (if e.v then e else NOPTE) && SameBut(pt, pt', kind, root, vpn, vpn + 1)
  {
    hide VmInv, Leaf, Last;
    SetLeaf(pt, kind, root, vpn, e, root, vpn);
    forall r, v: nat | IsRoot(kind, r) && v < VPNS && !(r == root && vpn <= v < vpn + 1)
      ensures Leaf(pt', r, v) == Leaf(pt, r, v)
    {
      SetLeaf(pt, kind, root, vpn, e, r, v);
    }
  }

  /** Mapping one more page adds that one mapping. */
  lemma MapStep(pt: Tables, kind: map<nat, Kind>, root: nat, vpn: nat, q: nat, flags: Flags, t: nat)
    requires VmInv(pt, kind) && IsRoot(kind, root) && vpn < VPNS && t == Last(pt, root, vpn) != 0
    requires !Leaf(pt, root, vpn).v
    requires q in kind && (kind[q] == Held || kind[q] == Other) && (flags.r || flags.w || flags.x)
    ensures t in pt && I0(vpn) < |pt[t]| && !pt[t][I0(vpn)].v
    ensures var pt' := SetPte(pt, t, I0(vpn), Pte(q, true, flags));
            && VmInv(pt', if kind[q] == Other then kind else kind[q := User(t, I0(vpn))])
            && Leaf(pt', root, vpn) == Pte(q, true, flags) && SameBut(pt, pt', kind, root, vpn, vpn + 1)
  {
    var e := Pte(q, true, flags);
    LastKind(pt, kind, root, vpn);
    IndexBounds(vpn);
    assert t in pt && |pt[t]| == NPTE && !pt[t][I0(vpn)].v;
    hide VmInv, Last, Leaf, Child;
    SetLeaves(pt, kind, root, vpn, e, SetPte(pt, t, I0(vpn), e));
    MapLeaf(pt, kind, t, I0(vpn), q, flags);
  }

  /** Clearing the entry of a mapped page removes that one mapping. */
  lemma UnmapStep(pt: Tables, kind: map<nat, Kind>, root: nat, vpn: nat)
    requires VmInv(pt, kind) && IsRoot(kind, root) && vpn < VPNS && Leaf(pt, root, vpn).v
    ensures var t, q := Last(pt, root, vpn), Leaf(pt, root, vpn).ppn;
            && t in pt && I0(vpn) < |pt[t]| && pt[t][I0(vpn)] == Leaf(pt, root, vpn) && Leaf(pt, root, vpn).IsLeaf()
            && q in kind && (kind[q] == Other || kind[q] == User(t, I0(vpn)))
            && (var pt' := SetPte(pt, t, I0(vpn), NOPTE);
                && VmInv(pt', if kind[q] == Other then kind else kind[q := Held])
                && Leaf(pt', root, vpn) == NOPTE && SameBut(pt, pt', kind, root, vpn, vpn + 1))
  {
    var t := Last(pt, root, vpn);
    assert t != 0;
    LastKind(pt, kind, root, vpn);
    IndexBounds(vpn);
    assert pt[t][I0(vpn)] == Leaf(pt, root, vpn);
    hide VmInv, Last, Leaf, Child;
    SetLeaves(pt, kind, root, vpn, NOPTE, SetPte(pt, t, I0(vpn), NOPTE));
    UnmapLeaf(pt, kind, t, I0(vpn));
  }

  lemma SameButTrans(pt0: Tables, pt1: Tables, pt2: Tables, kind1: map<nat, Kind>, kind2: map<nat, Kind>, root: nat,
                     lo: nat, mid: nat, hi: nat)
    requires SameBut(pt0, pt1, kind1, root, lo, mid) && SameBut(pt1, pt2, kind2, root, mid, hi)
    requires lo <= mid <= hi
    requires forall r | IsRoot(kind2, r) :: IsRoot(kind1, r)
    ensures SameBut(pt0, pt2, kind2, root, lo, hi)
  {
    hide Leaf;
    forall r, v: nat | IsRoot(kind2, r) && v < VPNS && !(r == root && lo <= v < hi)
      ensures Leaf(pt2, r, v) == Leaf(pt0, r, v)
    {
      assert Leaf(pt2, r, v) == Leaf(pt1, r, v);
    }
  }

  /** The first level of a walk. */
  lemma WalkTop(pt: Tables, kind: map<nat, Kind>, root: nat, vpn: nat)
    requires VmInv(pt, kind) && IsRoot(kind, root) && vpn < VPNS
    ensures root in pt && UpperEntry(kind, root, I2(vpn)) && I2(vpn) < NPTE && I1(vpn) < NPTE && I0(vpn) < NPTE
    ensures var t1 := Child(pt, root, I2(vpn));
            if t1 == 0 then Last(pt, root, vpn) == 0
            else t1 in pt && t1 in kind && t1 != root && UpperEntry(kind, t1, I1(vpn)) && Last(pt, root, vpn) == Child(pt, t1, I1(vpn))
  {
    IndexBounds(vpn);
    assert 0 !in pt;
    var t1 := Child(pt, root, I2(vpn));
    if t1 != 0 {
      assert kind[t1] == Table(1, root, I2(vpn));
    }
  }

  // ---- ranges of pages ----

  /** The physical pages that lo..hi of root map to. */
  ghost function Pages(pt: Tables, root: nat, lo: nat, hi: nat): set<nat> {
    set v | lo <= v < hi :: Leaf(pt, root, v).ppn
  }

  /** The pages of s put to use k; the kernel's own pages stay its own. */
  ghost function Released(kind: map<nat, Kind>, s: set<nat>, k: Kind): map<nat, Kind> {
    map q | q in kind :: if q in s && kind[q] != Other then k else kind[q]
  }

  lemma PagesNext(pt: Tables, root: nat, lo: nat, hi: nat)
    requires lo <= hi
    ensures Pages(pt, root, lo, hi + 1) == Pages(pt, root, lo, hi) + {Leaf(pt, root, hi).ppn}
  {
    var a, b := Pages(pt, root, lo, hi + 1), Pages(pt, root, lo, hi);
    forall q | q in b ensures q in a {
      var v :| lo <= v < hi && Leaf(pt, root, v).ppn == q;
    }
    assert Leaf(pt, root, hi).ppn in a;
  }

  lemma ReleasedNext(kind: map<nat, Kind>, s: set<nat>, q: nat, k: Kind)
    requires q in kind
    ensures Released(kind, s + {q}, k) == if kind[q] == Other then Released(kind, s, k) else Released(kind, s, k)[q := k]
  {
  }

  /** mappages turns pages lo..hi that the caller holds into user pages. */
  ghost predicate Mapped(kind0: map<nat, Kind>, kind: map<nat, Kind>, lo: nat, hi: nat) {
    && kind.Keys == kind0.Keys
    && forall q | q in kind0 ::
         if lo <= q < hi && kind0[q] == Held then kind[q].User?
         else kind[q] == kind0[q] || (kind0[q] == Free && kind[q].Table?)
  }

  // ---- freewalk ----

  /** Table q is p or hangs below it. */
  ghost predicate Under(kind: map<nat, Kind>, p: nat, q: nat) {
    && q in kind
    && (q == p || (kind[q].Table? && (kind[q].parent == p ||
         (kind[q].parent in kind && kind[kind[q].parent].Table? && kind[kind[q].parent].parent == p))))
  }

  /** The entry of p that q hangs below. */
  ghost function Branch(kind: map<nat, Kind>, p: nat, q: nat): nat
    requires Under(kind, p, q) && q != p
  {
    if kind[q].parent == p then kind[q].idx else kind[kind[q].parent].idx
  }

  ghost predicate Below(kind: map<nat, Kind>, p: nat, i: nat, q: nat) {
    Under(kind, p, q) && q != p && Branch(kind, p, q) < i
  }

  /** No page is mapped by the tables at or below p. */
  ghost predicate NoLeaves(pt: Tables, kind: map<nat, Kind>, p: nat) {
    forall q, i: nat {:trigger pt[q][i]} | q in pt && q in kind && Under(kind, p, q) && Level(kind[q]) == 0 && i < |pt[q]| :: !pt[q][i].v
  }

  /** The tables below the first i entries of p are free, and those entries are clear. */
  ghost predicate PrunedTo(pt0: Tables, kind0: map<nat, Kind>, p: nat, i: nat, pt: Tables, kind: map<nat, Kind>) {
    && kind.Keys == kind0.Keys && p in pt0 && p in pt && |pt0[p]| == |pt[p]| == NPTE
    && (forall q | q in kind0 :: kind[q] == if Below(kind0, p, i, q) then Free else kind0[q])
    && (forall q :: q in pt <==> q in pt0 && !Below(kind0, p, i, q))
    && (forall q | q in pt && q != p :: pt[q] == pt0[q])
    && (forall j: nat | j < i && j < NPTE :: !pt[p][j].v)
    && (forall j: nat | i <= j < NPTE :: pt[p][j] == pt0[p][j])
  }

  /** p and the tables below it are free. */
  ghost predicate Pruned(pt0: Tables, kind0: map<nat, Kind>, p: nat, pt: Tables, kind: map<nat, Kind>) {
    && kind.Keys == kind0.Keys
    && (forall q | q in kind0 :: kind[q] == if Under(kind0, p, q) then Free else kind0[q])
    && (forall q :: q in pt <==> q in pt0 && !Under(kind0, p, q))
    && (forall q | q in pt :: pt[q] == pt0[q])
  }

  /** With its entry in the table above cleared, the tree without p is in order. */
  ghost predicate CutOff(kind0: map<nat, Kind>, p: nat, pt: Tables, kind: map<nat, Kind>) {
    p in kind0 &&
    if kind0[p].Table? then
      kind0[p].parent in pt && kind0[p].idx < |pt[kind0[p].parent]| && VmInv(SetPte(pt, kind0[p].parent, kind0[p].idx, NOPTE), kind)
    else VmInv(pt, kind)
  }

  lemma PrunedNone(pt: Tables, kind: map<nat, Kind>, p: nat)
    requires VmInv(pt, kind) && p in pt
    ensures PrunedTo(pt, kind, p, 0, pt, kind) && p in kind && IsTable(kind[p])
  {
  }

  /** An entry that is not valid has nothing below it. */
  lemma BelowEmpty(pt: Tables, kind: map<nat, Kind>, p: nat, i: nat, q: nat)
    requires VmInv(pt, kind) && p in pt && i < NPTE && !pt[p][i].v
    ensures Below(kind, p, i + 1, q) == Below(kind, p, i, q)
  {
    EntryEmpty(pt, kind, p, i);
    if Under(kind, p, q) && q != p {
      BranchChild(pt, kind, p, q);
    }
  }

  lemma BranchChild(pt: Tables, kind: map<nat, Kind>, p: nat, q: nat)
    requires VmInv(pt, kind) && p in pt && Under(kind, p, q) && q != p
    ensures Branch(kind, p, q) < NPTE && Child(pt, p, Branch(kind, p, q)) != 0
  {
    TableParent(pt, kind, if kind[q].parent == p then q else kind[q].parent);
  }

  /** What is below entry i is its child and the tables under it. */
  lemma BelowNext(pt: Tables, kind: map<nat, Kind>, p: nat, i: nat, q: nat)
    requires VmInv(pt, kind) && p in pt && i < NPTE && Level(kind[p]) > 0 && pt[p][i].v
    ensures Below(kind, p, i + 1, q) <==> Below(kind, p, i, q) || Under(kind, pt[p][i].ppn, q)
  {
    var c := pt[p][i].ppn;
    assert Child(pt, p, i) == c && kind[c] == Table(Level(kind[p]) - 1, p, i);
    if Under(kind, c, q) && q != c {
      assert kind[q].Table?;
      assert Level(kind[kind[q].parent]) == kind[q].level + 1;
      assert kind[q].parent == c;
    }
    if Below(kind, p, i + 1, q) && Branch(kind, p, q) == i {
      var d := if kind[q].parent == p then q else kind[q].parent;
      assert kind[d].Table? && kind[d].parent == p && kind[d].idx == i;
      assert Child(pt, p, i) == d;
    }
  }

  /** A table with no valid entry can be cut off. */
  lemma DropTable(pt: Tables, kind: map<nat, Kind>, p: nat, pt': Tables, kind': map<nat, Kind>)
    requires VmInv(pt, kind) && p in pt && forall j: nat | j < NPTE :: !pt[p][j].v
    requires pt' == pt - {p} && kind' == kind[p := Free]
    ensures CutOff(kind, p, pt', kind')
  {
    hide Up, Down;
    assert forall j: nat | j < NPTE :: Child(pt, p, j) == 0;
    if kind[p].Root? {
      DropRest(pt, kind, p, pt', kind', 0, 0);
    } else {
      TableParent(pt, kind, p);
      DropRest(pt, kind, p, SetPte(pt', kind[p].parent, kind[p].idx, NOPTE), kind', kind[p].parent, kind[p].idx);
    }
  }

  lemma TableParent(pt: Tables, kind: map<nat, Kind>, p: nat)
    requires VmInv(pt, kind) && p in kind && kind[p].Table?
    ensures var r, i := kind[p].parent, kind[p].idx;
            && r in pt && r != p && i < NPTE && Child(pt, r, i) == p && r in kind && Level(kind[r]) == kind[p].level + 1
  {
  }

  lemma DropRest(pt: Tables, kind: map<nat, Kind>, p: nat, pt': Tables, kind': map<nat, Kind>, r: nat, i: nat)
    requires VmInv(pt, kind) && p in pt && kind' == kind[p := Free]
    requires forall j: nat | j < NPTE :: Child(pt, p, j) == 0
    requires if r == 0 then kind[p].Root? else r in pt && r != p && i < NPTE && Child(pt, r, i) == p
    requires pt' == if r == 0 then pt - {p} else SetPte(pt - {p}, r, i, NOPTE)
    ensures VmInv(pt', kind')
  {
    assert TablesOk(pt', kind') by { hide Down, Up, Child; }
    assert forall x, j: nat | j < NPTE :: Child(pt', x, j) == (if x == r && j == i then 0 else Child(pt, x, j)) by { hide Down, Up; }
    hide Down, Up, Child;
    assert Down(pt', kind') by { DropDown(pt, kind, p, pt', kind', r, i); }
    assert Up(pt', kind') by { DropUp(pt, kind, p, pt', kind', r, i); }
  }

  lemma DropDown(pt: Tables, kind: map<nat, Kind>, p: nat, pt': Tables, kind': map<nat, Kind>, r: nat, i: nat)
    requires VmInv(pt, kind) && p in pt && kind' == kind[p := Free]
    requires forall j: nat | j < NPTE :: Child(pt, p, j) == 0
    requires if r == 0 then kind[p].Root? else r in pt && r != p && i < NPTE && Child(pt, r, i) == p
    requires pt' == if r == 0 then pt - {p} else SetPte(pt - {p}, r, i, NOPTE)
    requires forall x, j: nat | j < NPTE :: Child(pt', x, j) == if x == r && j == i then 0 else Child(pt, x, j)
    ensures Down(pt', kind')
  {
    hide Up, Child;
    forall x, j: nat | x in pt && j < NPTE && Child(pt, x, j) == p ensures x == r && j == i {
      OneParent(pt, kind, p, r, i, x, j);
    }
  }

  lemma DropUp(pt: Tables, kind: map<nat, Kind>, p: nat, pt': Tables, kind': map<nat, Kind>, r: nat, i: nat)
    requires VmInv(pt, kind) && p in pt && kind' == kind[p := Free]
    requires forall j: nat | j < NPTE :: Child(pt, p, j) == 0
    requires if r == 0 then kind[p].Root? else r in pt && r != p && i < NPTE && Child(pt, r, i) == p
    requires pt' == if r == 0 then pt - {p} else SetPte(pt - {p}, r, i, NOPTE)
    requires forall x, j: nat | j < NPTE :: Child(pt', x, j) == if x == r && j == i then 0 else Child(pt, x, j)
    ensures Up(pt', kind')
  {
    hide Down, Child;
    assert 0 !in pt;
    forall q | q in kind' && (kind'[q].Table? || kind'[q].User?) ensures kind[q].parent != p {
      assert Child(pt, kind[q].parent, kind[q].idx) == q && q != 0;
    }
  }

  /** A table hangs from one entry, a root from none. */
  lemma OneParent(pt: Tables, kind: map<nat, Kind>, p: nat, r: nat, i: nat, x: nat, j: nat)
    requires VmInv(pt, kind) && p in pt && x in pt && j < NPTE && Child(pt, x, j) == p
    requires if r == 0 then kind[p].Root? else r in pt && i < NPTE && Child(pt, r, i) == p
    ensures x == r && j == i
  {
    hide Up, Child;
    assert p != 0 && x in kind;
    assert Level(kind[x]) >= 0;
  }

  lemma PrunedSkip(pt0: Tables, kind0: map<nat, Kind>, p: nat, i: nat, pt: Tables, kind: map<nat, Kind>)
    requires VmInv(pt0, kind0) && i < NPTE && PrunedTo(pt0, kind0, p, i, pt, kind) && !pt[p][i].v
    ensures PrunedTo(pt0, kind0, p, i + 1, pt, kind)
  {
    hide VmInv, Below, Under;
    forall q ensures Below(kind0, p, i + 1, q) == Below(kind0, p, i, q) {
      BelowEmpty(pt0, kind0, p, i, q);
    }
  }

  /** Entering the child of entry i: it is a table whose subtree nobody has touched yet. */
  lemma PrunedEnter(pt0: Tables, kind0: map<nat, Kind>, p: nat, i: nat, pt: Tables, kind: map<nat, Kind>)
    requires VmInv(pt0, kind0) && VmInv(pt, kind) && i < NPTE && PrunedTo(pt0, kind0, p, i, pt, kind)
    requires NoLeaves(pt0, kind0, p) && pt[p][i].v
    ensures var c := pt[p][i].ppn;
            && !pt[p][i].IsLeaf() && c in pt && c in kind0 && c in kind && p in kind0 && c != p
            && kind0[c] == kind[c] == Table(Level(kind0[p]) - 1, p, i)
            && (forall q :: Under(kind, c, q) <==> Under(kind0, c, q)) && NoLeaves(pt, kind, c)
  {
    var c := pt[p][i].ppn;
    assert pt0[p][i] == pt[p][i] && Child(pt0, p, i) == c && Child(pt, p, i) == c;
    assert Level(kind0[p]) != 0;
    assert kind0[c] == Table(Level(kind0[p]) - 1, p, i);
    UnderSame(pt0, kind0, p, i, pt, kind, c);
    forall q, j: nat | q in pt && q in kind && Under(kind, c, q) && Level(kind[q]) == 0 && j < |pt[q]|
      ensures !pt[q][j].v
    {
      BelowNext(pt0, kind0, p, i, q);
      assert Under(kind0, p, q) && q != p;
      assert pt[q] == pt0[q];
    }
  }

  lemma UnderSame(pt0: Tables, kind0: map<nat, Kind>, p: nat, i: nat, pt: Tables, kind: map<nat, Kind>, c: nat)
    requires VmInv(pt0, kind0) && VmInv(pt, kind) && i < NPTE && PrunedTo(pt0, kind0, p, i, pt, kind)
    requires p in kind0 && Level(kind0[p]) > 0 && pt0[p][i].v && c == pt0[p][i].ppn && pt[p][i] == pt0[p][i]
    requires c in kind0 && kind0[c] == Table(Level(kind0[p]) - 1, p, i) && c in kind && kind[c] == kind0[c]
    ensures forall q :: Under(kind, c, q) <==> Under(kind0, c, q)
  {
    forall q ensures Under(kind, c, q) <==> Under(kind0, c, q) {
      if q in kind0 && q != c && kind0[q].Table? {
        TableParent(pt0, kind0, q);
        assert Under(kind0, c, q) <==> kind0[q].parent == c;
        if kind0[q].parent == c {
          assert Branch(kind0, p, q) == i;
        }
      }
      if q in kind && q != c && kind[q].Table? {
        TableParent(pt, kind, q);
      }
    }
  }

  lemma PrunedStep(pt0: Tables, kind0: map<nat, Kind>, p: nat, i: nat, pt1: Tables, kind1: map<nat, Kind>, c: nat,
                   pt2: Tables, kind2: map<nat, Kind>, pt3: Tables)
    requires VmInv(pt0, kind0) && i < NPTE && PrunedTo(pt0, kind0, p, i, pt1, kind1) && p in kind0
    requires Level(kind0[p]) > 0
    requires pt1[p][i].v && c == pt1[p][i].ppn && c != p && (forall q :: Under(kind1, c, q) <==> Under(kind0, c, q))
    requires Pruned(pt1, kind1, c, pt2, kind2) && p in pt2 && pt3 == pt2[p := pt2[p][i := NOPTE]]
    ensures PrunedTo(pt0, kind0, p, i + 1, pt3, kind2)
  {
    hide VmInv, Below, Under;
    forall q ensures Below(kind0, p, i + 1, q) <==> Below(kind0, p, i, q) || Under(kind0, c, q) {
      BelowNext(pt0, kind0, p, i, q);
    }
  }

  lemma PrunedAll(pt0: Tables, kind0: map<nat, Kind>, p: nat, pt: Tables, kind: map<nat, Kind>)
    requires VmInv(pt0, kind0) && PrunedTo(pt0, kind0, p, NPTE, pt, kind) && p in kind0
    ensures Pruned(pt0, kind0, p, pt - {p}, kind[p := Free]) && p in kind && kind[p] == kind0[p]
  {
    forall q ensures Under(kind0, p, q) <==> q == p || Below(kind0, p, NPTE, q) {
      if Under(kind0, p, q) && q != p {
        assert Branch(kind0, p, q) < NPTE;
      }
    }
    hide VmInv, Below, Under;
  }

  // ---- a whole tree ----

  /** An address space that maps nothing has no leaf in its tables. */
  lemma EmptyNoLeaves(pt: Tables, kind: map<nat, Kind>, root: nat)
    requires VmInv(pt, kind) && IsRoot(kind, root) && forall v: nat | v < VPNS :: !Leaf(pt, root, v).v
    ensures NoLeaves(pt, kind, root)
  {
    forall q, i: nat | q in pt && q in kind && Under(kind, root, q) && Level(kind[q]) == 0 && i < |pt[q]|
      ensures !pt[q][i].v
    {
      TableParent(pt, kind, q);
      var t := kind[q].parent;
      TableParent(pt, kind, t);
      var v := kind[t].idx * 262144 + kind[q].idx * 512 + i;
      Digits(kind[t].idx, kind[q].idx, i);
      assert Last(pt, root, v) == q;
      assert !Leaf(pt, root, v).v;
    }
  }

  lemma Digits(a: nat, b: nat, c: nat)
    requires a < TOP && b < NPTE && c < NPTE
    ensures var v := a * 262144 + b * 512 + c; v < VPNS && I2(v) == a && I1(v) == b && I0(v) == c
  {
    var v := a * 262144 + b * 512 + c;
    assert v / 512 == a * 512 + b;
  }

  /** Freeing one tree leaves what the others map. */
  lemma PrunedLeaves(pt0: Tables, kind0: map<nat, Kind>, root: nat, pt: Tables, kind: map<nat, Kind>, r: nat, v: nat)
    requires VmInv(pt0, kind0) && IsRoot(kind0, root) && Pruned(pt0, kind0, root, pt, kind) && IsRoot(kind, r)
    requires v < VPNS
    ensures Leaf(pt, r, v) == Leaf(pt0, r, v)
  {
    assert IsRoot(kind0, r) && r != root;
    WalkTop(pt0, kind0, r, v);
    var t1 := Child(pt0, r, I2(v));
    assert Child(pt, r, I2(v)) == t1;
    assert 0 !in pt0;
    if t1 != 0 {
      assert kind0[t1] == Table(1, r, I2(v));
      assert Child(pt, t1, I1(v)) == Child(pt0, t1, I1(v));
      if Last(pt0, r, v) != 0 {
        LastKind(pt0, kind0, r, v);
      }
    }
  }

  ghost predicate IsOther(kind: map<nat, Kind>, q: nat) {
    q in kind && kind[q] == Other
  }
}
