/** Directory entries and link counts: sys_link, sys_unlink and create of kernel/sysfile.c, with
    dirlookup, dirlink and iput of kernel/fs.c. A method is what a call does while it keeps the
    inodes involved locked; other calls may run between two methods of one call. */
module Links {
  import opened Prelude

  const MAXLINK: nat := 32767   // nlink is a short

  datatype Type = Free | Dir | File   // devices count as files

  /** inum 0 marks an empty slot. */
  datatype Dirent = Dirent(name: string, inum: nat)

  datatype Node = Node(typ: Type, nlink: nat, refs: nat, ents: seq<Dirent>)

  type Nodes = map<nat, Node>

  /** An entry of a directory, by directory and slot. */
  type Place = (nat, nat)

  /** What the invariant is about: the inodes; the directories that unlink has removed; for each
      inode the counted entries that name it; and how many calls have yet to put its count right. */
  datatype World = World(nodes: Nodes, removed: set<nat>, links: map<nat, set<Place>>, pend: map<nat, nat>)

  ghost predicate IsDir(w: World, d: nat) {
    d in w.nodes && w.nodes[d].typ == Dir
  }

  /** Entry i of d names x and counts: it is not ".", nor ".." of a removed directory. */
  ghost predicate Counted(w: World, d: nat, i: nat, x: nat) {
    && IsDir(w, d) && i < |w.nodes[d].ents| && w.nodes[d].ents[i].inum == x && x != 0
    && w.nodes[d].ents[i].name != "." && !(w.nodes[d].ents[i].name == ".." && d in w.removed)
  }

  /** Each link count is at least the number of counted entries and of calls under way. */
  ghost predicate Numbers(w: World) {
    && w.links.Keys == w.pend.Keys == w.nodes.Keys && 0 !in w.nodes
    && (forall x {:trigger Covered(w, x)} | x in w.nodes :: Covered(w, x))
  }

  ghost predicate Covered(w: World, x: nat)
    requires x in w.nodes && x in w.links && x in w.pend
  {
    && |w.links[x]| + w.pend[x] <= w.nodes[x].nlink
    && (w.nodes[x].typ == Free ==> w.nodes[x].nlink == 0) && (w.nodes[x].typ != Dir ==> w.nodes[x].ents == [])
  }

  ghost predicate Exact(w: World) {
    && (forall x, d: nat, i: nat {:trigger Counted(w, d, i, x)} ::
          Counted(w, d, i, x) ==> x in w.links && (d, i) in w.links[x])
    && (forall x, p {:trigger p in w.links[x]} | x in w.links && p in w.links[x] :: Counted(w, p.0, p.1, x))
  }

  /** Directories begin with "." and "..", and have them once. */
  ghost predicate DirOk(w: World, d: nat)
    requires d in w.nodes
  {
    var es := w.nodes[d].ents;
    && |es| >= 2 && es[0] == Dirent(".", d) && es[1].name == ".." && es[1].inum != 0
    && (forall i | 2 <= i < |es| && es[i].inum != 0 :: es[i].name != "." && es[i].name != "..")
  }

  /** A directory is named, beside its own "." and its children's "..", by one entry, in the
      directory that its ".." names; a removed one by none. */
  ghost predicate Child(w: World, d: nat, i: nat) {
    IsDir(w, d) && 2 <= i < |w.nodes[d].ents| && w.nodes[d].ents[i].inum != 0 && IsDir(w, w.nodes[d].ents[i].inum) ==>
      var x := w.nodes[d].ents[i].inum;
      && x !in w.removed && x != d && |w.nodes[x].ents| >= 2 && w.nodes[x].ents[1].inum == d
      && forall j | 2 <= j < |w.nodes[d].ents| && w.nodes[d].ents[j].inum == x :: j == i
  }

  ghost predicate Tree(w: World) {
    && (forall d {:trigger IsDir(w, d)} | IsDir(w, d) :: DirOk(w, d))
    && (forall d: nat, i: nat {:trigger Child(w, d, i)} :: Child(w, d, i))
  }

  ghost predicate Inv(w: World) {
    Numbers(w) && Exact(w) && Tree(w)
  }

  // ---- consequences ----

  /** A counted entry names an inode that is in use and has a link: unlink's panic cannot happen. */
  lemma CountedHasLink(w: World, d: nat, i: nat, x: nat)
    requires Inv(w) && Counted(w, d, i, x)
    ensures x in w.nodes && w.nodes[x].nlink >= 1 && w.nodes[x].typ != Free
  {
    hide Tree, Counted;
    assert (d, i) in w.links[x];
    assert Covered(w, x);
    NotEmpty(w.links[x], (d, i));
  }

  lemma NotEmpty(s: set<Place>, p: Place)
    requires p in s
    ensures |s| >= 1 && |s - {p}| == |s| - 1
  {
  }

  /** An inode that iput may free is named by no counted entry. */
  lemma UnlinkedUnnamed(w: World, x: nat, d: nat, i: nat)
    requires Inv(w) && x in w.nodes && w.nodes[x].nlink == 0
    ensures !Counted(w, d, i, x)
  {
    hide Tree, Counted;
    assert Covered(w, x);
    assert w.links[x] == {};
  }

  // ---- counts change, entries do not ----

  /** Same types and entries everywhere. */
  ghost predicate SameShape(a: Nodes, b: Nodes) {
    a.Keys == b.Keys && forall x | x in a :: b[x].typ == a[x].typ && b[x].ents == a[x].ents
  }

  lemma ShapeKeeps(w: World, w': World)
    requires Exact(w) && Tree(w) && SameShape(w.nodes, w'.nodes) && w'.removed == w.removed && w'.links == w.links
    ensures Exact(w') && Tree(w')
  {
    forall x, d: nat, i: nat ensures Counted(w', d, i, x) == Counted(w, d, i, x) {
    }
    forall d: nat ensures IsDir(w', d) == IsDir(w, d) && (IsDir(w, d) ==> DirOk(w', d)) {
      assert IsDir(w, d) ==> DirOk(w, d);
    }
    forall d: nat, i: nat ensures Child(w', d, i) {
      assert Child(w, d, i);
    }
    ExactOf(w, w');
  }

  lemma ExactOf(w: World, w': World)
    requires Exact(w) && w'.links == w.links
    requires forall x, d: nat, i: nat {:trigger Counted(w', d, i, x)} :: Counted(w', d, i, x) == Counted(w, d, i, x)
    ensures Exact(w')
  {
    hide Counted;
    forall x, p | x in w'.links && p in w'.links[x] ensures Counted(w', p.0, p.1, x) {
      assert Counted(w, p.0, p.1, x);
    }
  }

  /** Only the counts of x change, and calls under way are accounted for. */
  lemma CountKeeps(w: World, w': World, x: nat, node: Node, n: nat)
    requires Inv(w) && x in w.nodes && node.typ == w.nodes[x].typ && node.ents == w.nodes[x].ents
    requires x in w.links && |w.links[x]| + n <= node.nlink && (node.typ == Free ==> node.nlink == 0)
    requires w' == w.(nodes := w.nodes[x := node], pend := w.pend[x := n])
    ensures Inv(w')
  {
    hide Exact, Tree;
    ShapeKeeps(w, w');
    assert Covered(w, x);
    forall y | y in w'.nodes ensures Covered(w', y) {
      assert Covered(w, y);
    }
  }

  // ---- a new entry ----

  ghost function Put(es: seq<Dirent>, i: nat, e: Dirent): seq<Dirent>
    requires i <= |es|
  {
    if i < |es| then es[i := e] else es + [e]
  }

  /** Slot i of d is free for an entry that names x. */
  ghost predicate Slot(w: World, d: nat, i: nat) {
    IsDir(w, d) && 2 <= i <= |w.nodes[d].ents| && (i < |w.nodes[d].ents| ==> w.nodes[d].ents[i].inum == 0)
  }

  /** x may get an entry in d: a directory gets its only one where its ".." leads. */
  ghost predicate MayName(w: World, d: nat, x: nat) {
    x in w.nodes && x in w.links && x != 0 &&
    (IsDir(w, x) ==> x != d && x !in w.removed && w.links[x] == {} && |w.nodes[x].ents| >= 2 && w.nodes[x].ents[1].inum == d)
  }

  lemma AddEntry(w: World, w': World, d: nat, i: nat, name: string, x: nat)
    requires Inv(w) && Slot(w, d, i) && MayName(w, d, x) && name != "." && name != ".." && x in w.pend && w.pend[x] > 0
    requires w' == w.(nodes := w.nodes[d := w.nodes[d].(ents := Put(w.nodes[d].ents, i, Dirent(name, x)))],
                      links := w.links[x := w.links[x] + {(d, i)}], pend := w.pend[x := w.pend[x] - 1])
    ensures Inv(w')
  {
    hide Exact, Tree, Put;
    AddExact(w, w', d, i, name, x);
    AddTree(w, w', d, i, name, x);
    forall y | y in w'.nodes ensures Covered(w', y) {
      assert Covered(w, y);
    }
  }

  lemma AddCounted(w: World, w': World, d: nat, i: nat, name: string, x: nat, e: nat, j: nat, y: nat)
    requires Slot(w, d, i) && x != 0 && name != "." && name != ".."
    requires w'.removed == w.removed
    requires w'.nodes == w.nodes[d := w.nodes[d].(ents := Put(w.nodes[d].ents, i, Dirent(name, x)))]
    ensures Counted(w', e, j, y) <==> Counted(w, e, j, y) || (e == d && j == i && y == x)
  {
  }

  lemma AddExact(w: World, w': World, d: nat, i: nat, name: string, x: nat)
    requires Exact(w) && Slot(w, d, i) && MayName(w, d, x) && name != "." && name != ".." && w'.removed == w.removed
    requires w'.nodes == w.nodes[d := w.nodes[d].(ents := Put(w.nodes[d].ents, i, Dirent(name, x)))]
    requires w'.links == w.links[x := w.links[x] + {(d, i)}]
    ensures Exact(w')
  {
    hide Counted, Put;
    forall y, e: nat, j: nat ensures Counted(w', e, j, y) <==> Counted(w, e, j, y) || (e == d && j == i && y == x) {
      AddCounted(w, w', d, i, name, x, e, j, y);
    }
    forall y, p | y in w'.links && p in w'.links[y] ensures Counted(w', p.0, p.1, y) {
      assert p in w.links[y] || (y == x && p == (d, i));
      assert p in w.links[y] ==> Counted(w, p.0, p.1, y);
    }
  }

  lemma AddTree(w: World, w': World, d: nat, i: nat, name: string, x: nat)
    requires Exact(w) && Tree(w) && Slot(w, d, i) && MayName(w, d, x) && name != "." && name != ".."
    requires w'.removed == w.removed
    requires w'.nodes == w.nodes[d := w.nodes[d].(ents := Put(w.nodes[d].ents, i, Dirent(name, x)))]
    ensures Tree(w')
  {
    assert DirOk(w, d);
    hide Exact;
    forall e: nat | IsDir(w', e) ensures DirOk(w', e) {
      assert IsDir(w, e);
    }
    forall e: nat, j: nat ensures Child(w', e, j) {
      AddChild(w, w', d, i, name, x, e, j);
    }
  }

  lemma AddChild(w: World, w': World, d: nat, i: nat, name: string, x: nat, e: nat, j: nat)
    requires Exact(w) && Tree(w) && Slot(w, d, i) && MayName(w, d, x) && name != "." && name != ".."
    requires w'.removed == w.removed
    requires w'.nodes == w.nodes[d := w.nodes[d].(ents := Put(w.nodes[d].ents, i, Dirent(name, x)))]
    ensures Child(w', e, j)
  {
    assert Child(w, e, j);
    assert DirOk(w, d);
    if e == d && IsDir(w, x) {
      forall k: nat | 2 <= k < |w.nodes[d].ents| ensures w.nodes[d].ents[k].inum != x {
        assert !Counted(w, d, k, x);
      }
    }
    hide Exact, Tree;
  }

  // ---- an entry goes ----

  const NOENT := Dirent("", 0)

  /** Entry i of d, at least the third, names x. */
  ghost predicate Names(w: World, d: nat, i: nat, x: nat) {
    IsDir(w, d) && 2 <= i < |w.nodes[d].ents| && w.nodes[d].ents[i].inum == x && x != 0
  }

  ghost predicate EmptyDir(es: seq<Dirent>) {
    forall i | 2 <= i < |es| :: es[i].inum == 0
  }

  /** The world after unlink has cleared the entry; x's count is yet to be lowered. */
  ghost function Erased(w: World, d: nat, i: nat, x: nat): World
    requires Names(w, d, i, x) && x in w.nodes && d in w.links && x in w.links && x in w.pend
  {
    var node := w.nodes[d].(ents := w.nodes[d].ents[i := NOENT]);
    if w.nodes[x].typ == Dir && node.nlink > 0 then
      World(w.nodes[d := node.(nlink := node.nlink - 1)], w.removed + {x},
            w.links[x := w.links[x] - {(d, i)}][d := w.links[d] - {(x, 1)}], w.pend[x := w.pend[x] + 1])
    else World(w.nodes[d := node], w.removed, w.links[x := w.links[x] - {(d, i)}], w.pend[x := w.pend[x] + 1])
  }

  lemma NamedHasLink(w: World, d: nat, i: nat, x: nat)
    requires Inv(w) && Names(w, d, i, x)
    ensures Counted(w, d, i, x) && x in w.nodes && d in w.links && x in w.links && x in w.pend && (d, i) in w.links[x]
    ensures w.nodes[x].nlink >= 1
    ensures w.nodes[x].typ != Free
  {
    hide Covered;
    assert DirOk(w, d);
    assert Counted(w, d, i, x);
    hide Tree, Counted;
    CountedHasLink(w, d, i, x);
  }

  lemma EraseFile(w: World, w': World, d: nat, i: nat, x: nat)
    requires Inv(w) && Names(w, d, i, x) && x in w.nodes && w.nodes[x].typ != Dir && d in w.links && x in w.links
    requires x in w.pend
    requires w' == Erased(w, d, i, x)
    ensures Inv(w')
  {
    hide Exact, Tree, Counted;
    NamedHasLink(w, d, i, x);
    EraseExact(w, w', d, i, x);
    EraseTree(w, w', d, i, x);
    NotEmpty(w.links[x], (d, i));
    forall y | y in w'.nodes ensures Covered(w', y) {
      assert Covered(w, y);
    }
  }

  lemma EraseExact(w: World, w': World, d: nat, i: nat, x: nat)
    requires Exact(w) && Names(w, d, i, x) && Counted(w, d, i, x) && x in w.links && w'.removed == w.removed
    requires w'.nodes == w.nodes[d := w.nodes[d].(ents := w.nodes[d].ents[i := NOENT])]
    requires w'.links == w.links[x := w.links[x] - {(d, i)}]
    ensures Exact(w')
  {
    forall y, e: nat, j: nat ensures Counted(w', e, j, y) <==> Counted(w, e, j, y) && !(e == d && j == i) {
    }
    hide Counted;
    forall y, p | y in w'.links && p in w'.links[y] ensures Counted(w', p.0, p.1, y) {
      assert Counted(w, p.0, p.1, y);
      OneTarget(w, d, i, x, y);
    }
    forall y, e: nat, j: nat | Counted(w', e, j, y) ensures y in w'.links && (e, j) in w'.links[y] {
      assert Counted(w, e, j, y);
    }
  }

  lemma OneTarget(w: World, d: nat, i: nat, x: nat, y: nat)
    requires Counted(w, d, i, x)
    ensures Counted(w, d, i, y) ==> y == x
  {
  }

  lemma EraseTree(w: World, w': World, d: nat, i: nat, x: nat)
    requires Tree(w) && Names(w, d, i, x) && x in w.nodes && w.nodes[x].typ != Dir && w'.removed == w.removed
    requires w'.nodes == w.nodes[d := w.nodes[d].(ents := w.nodes[d].ents[i := NOENT])]
    ensures Tree(w')
  {
    forall e: nat | IsDir(w', e) ensures DirOk(w', e) {
      assert IsDir(w, e) && DirOk(w, e);
    }
    forall e: nat, j: nat ensures Child(w', e, j) {
      assert Child(w, e, j);
    }
  }

  lemma EraseDir(w: World, w': World, d: nat, i: nat, x: nat)
    requires Inv(w) && Names(w, d, i, x) && IsDir(w, x) && EmptyDir(w.nodes[x].ents) && d in w.links && x in w.links
    requires x in w.pend
    requires w' == Erased(w, d, i, x)
    ensures w.nodes[d].nlink > 0 && Inv(w')
  {
    hide Exact, Tree, Counted;
    NamedHasLink(w, d, i, x);
    ParentLink(w, d, i, x);
    NotEmpty(w.links[x], (d, i));
    NotEmpty(w.links[d], (x, 1));
    assert Covered(w, d);
    EraseDirExact(w, w', d, i, x);
    EraseDirTree(w, w', d, i, x);
    forall y | y in w'.nodes ensures Covered(w', y) {
      assert Covered(w, y);
    }
  }

  /** The ".." of a directory counts for the directory that names it. */
  lemma ParentLink(w: World, d: nat, i: nat, x: nat)
    requires Inv(w) && Names(w, d, i, x) && IsDir(w, x)
    ensures x != d && Counted(w, x, 1, d) && d in w.links && (x, 1) in w.links[d]
  {
    hide Covered;
    assert Child(w, d, i) && DirOk(w, x);
    assert Counted(w, x, 1, d);
  }

  lemma EraseDirExact(w: World, w': World, d: nat, i: nat, x: nat)
    requires Exact(w) && Tree(w) && Names(w, d, i, x) && IsDir(w, x) && x != d && Counted(w, d, i, x)
    requires Counted(w, x, 1, d)
    requires d in w.links && x in w.links && w'.removed == w.removed + {x}
    requires SameShape(w.nodes[d := w.nodes[d].(ents := w.nodes[d].ents[i := NOENT])], w'.nodes)
    requires w'.links == w.links[x := w.links[x] - {(d, i)}][d := w.links[d] - {(x, 1)}]
    ensures Exact(w')
  {
    assert DirOk(w, x);
    forall y, e: nat, j: nat
      ensures Counted(w', e, j, y) <==> Counted(w, e, j, y) && !(e == d && j == i) && !(e == x && j == 1)
    {
    }
    hide Counted, Tree;
    forall y, p | y in w'.links && p in w'.links[y] ensures Counted(w', p.0, p.1, y) {
      assert Counted(w, p.0, p.1, y);
      OneTarget(w, d, i, x, y);
      OneTarget(w, x, 1, d, y);
    }
    forall y, e: nat, j: nat | Counted(w', e, j, y) ensures y in w'.links && (e, j) in w'.links[y] {
      assert Counted(w, e, j, y);
    }
  }

  lemma EraseDirTree(w: World, w': World, d: nat, i: nat, x: nat)
    requires Tree(w) && Names(w, d, i, x) && IsDir(w, x) && x != d && EmptyDir(w.nodes[x].ents)
    requires w'.removed == w.removed + {x}
    requires SameShape(w.nodes[d := w.nodes[d].(ents := w.nodes[d].ents[i := NOENT])], w'.nodes)
    ensures Tree(w')
  {
    assert Child(w, d, i);
    forall e: nat | IsDir(w', e) ensures DirOk(w', e) {
      assert IsDir(w, e) && DirOk(w, e);
    }
    forall e: nat, j: nat ensures Child(w', e, j) {
      assert Child(w, e, j);
    }
  }

  // ---- inodes come and go ----

  ghost function Fresh(typ: Type, x: nat, d: nat): seq<Dirent> {
    if typ == Dir then [Dirent(".", x), Dirent("..", d)] else []
  }

  /** create's new inode x, not yet in its directory d; a directory's ".." counts for d. */
  ghost function Created(w: World, x: nat, typ: Type, d: nat): World
    requires x in w.nodes && d in w.nodes && d in w.links
  {
    var nodes := w.nodes[x := Node(typ, 1, 1, Fresh(typ, x, d))];
    World(if typ == Dir then nodes[d := nodes[d].(nlink := nodes[d].nlink + 1)] else nodes, w.removed - {x},
          if typ == Dir then w.links[d := w.links[d] + {(x, 1)}] else w.links, w.pend[x := 1])
  }

  lemma CreateKeeps(w: World, w': World, x: nat, typ: Type, d: nat)
    requires Inv(w) && x in w.nodes && w.nodes[x].typ == Free && typ != Free && IsDir(w, d) && d in w.links
    requires w' == Created(w, x, typ, d)
    ensures Inv(w') && x in w.links && w.links[x] == {} && x in w'.links && w'.links[x] == {} && x != d
  {
    hide Tree, Exact, Fresh;
    assert Covered(w, x);
    Unnamed(w, x);
    CreateExact(w, w', x, typ, d);
    CreateTree(w, w', x, typ, d);
    FreshFile(typ, x, d);
    forall y | y in w'.nodes ensures Covered(w', y) {
      assert Covered(w, y);
    }
  }

  lemma FreshFile(typ: Type, x: nat, d: nat)
    ensures typ != Dir ==> Fresh(typ, x, d) == []
  {
  }

  /** No entry but a stale ".." names a free inode. */
  lemma Unnamed(w: World, x: nat)
    requires Inv(w) && x in w.nodes && w.nodes[x].nlink == 0
    ensures x in w.links && w.links[x] == {} && w.pend[x] == 0
    ensures forall d: nat, i: nat {:trigger Names(w, d, i, x)} :: !Names(w, d, i, x)
  {
    assert Covered(w, x);
    hide Exact, Tree, Names;
    forall d: nat, i: nat ensures !Names(w, d, i, x) {
      if Names(w, d, i, x) {
        NamedHasLink(w, d, i, x);
      }
    }
  }

  lemma CreateExact(w: World, w': World, x: nat, typ: Type, d: nat)
    requires Exact(w) && x in w.nodes && w.nodes[x].ents == [] && typ != Free && IsDir(w, d) && d in w.links && x != d
    requires d != 0 && x != 0
    requires w' == Created(w, x, typ, d)
    ensures Exact(w')
  {
    forall y, e: nat, j: nat
      ensures Counted(w', e, j, y) <==> Counted(w, e, j, y) || (typ == Dir && e == x && j == 1 && y == d)
    {
    }
    hide Counted;
    forall y, p | y in w'.links && p in w'.links[y] ensures Counted(w', p.0, p.1, y) {
      assert p in w.links[y] ==> Counted(w, p.0, p.1, y);
    }
    forall y, e: nat, j: nat | Counted(w', e, j, y) ensures y in w'.links && (e, j) in w'.links[y] {
      assert Counted(w, e, j, y) || (e == x && j == 1 && y == d);
    }
  }

  lemma CreateTree(w: World, w': World, x: nat, typ: Type, d: nat)
    requires Tree(w) && x in w.nodes && w.nodes[x].typ == Free && typ != Free && IsDir(w, d) && d in w.links && x != d
    requires d != 0
    requires forall e: nat, j: nat {:trigger Names(w, e, j, x)} :: !Names(w, e, j, x)
    requires w' == Created(w, x, typ, d)
    ensures Tree(w')
  {
    forall e: nat | IsDir(w', e) ensures DirOk(w', e) {
      if e != x {
        assert IsDir(w, e) && DirOk(w, e);
      }
    }
    forall e: nat, j: nat ensures Child(w', e, j) {
      assert Child(w, e, j) && !Names(w, e, j, x);
    }
  }

  /** iput frees x; the entries it held go with it. */
  ghost function Gone(w: World, x: nat, node: Node): World
    requires x in w.nodes
  {
    World(w.nodes[x := node], w.removed, map y | y in w.links :: Outside(w.links[y], x), w.pend)
  }

  ghost function Outside(s: set<Place>, x: nat): set<Place> {
    set p | p in s && p.0 != x
  }

  lemma FreeKeeps(w: World, w': World, x: nat, node: Node)
    requires Inv(w) && x in w.nodes && w.nodes[x].nlink == 0 && node.typ == Free && node.nlink == 0 && node.ents == []
    requires w' == Gone(w, x, node)
    ensures Inv(w')
  {
    hide Tree, Exact, Outside;
    Unnamed(w, x);
    FreeExact(w, w', x, node);
    FreeTree(w, w', x, node);
    forall y | y in w'.nodes ensures Covered(w', y) {
      assert Covered(w, y);
      Fewer(w.links[y], x);
    }
  }

  lemma Fewer(s: set<Place>, x: nat)
    ensures |Outside(s, x)| <= |s|
  {
    SubsetCard(Outside(s, x), s);
  }

  lemma FreeExact(w: World, w': World, x: nat, node: Node)
    requires Exact(w) && x in w.nodes && node.typ == Free && w' == Gone(w, x, node)
    ensures Exact(w')
  {
    forall y, e: nat, j: nat ensures Counted(w', e, j, y) <==> Counted(w, e, j, y) && e != x {
    }
    hide Counted;
    forall y, p | y in w'.links && p in w'.links[y] ensures Counted(w', p.0, p.1, y) {
      assert p in w.links[y];
      assert Counted(w, p.0, p.1, y);
    }
    forall y, e: nat, j: nat | Counted(w', e, j, y) ensures y in w'.links && (e, j) in w'.links[y] {
      assert Counted(w, e, j, y);
    }
  }

  lemma FreeTree(w: World, w': World, x: nat, node: Node)
    requires Tree(w) && x in w.nodes && node.typ == Free && w' == Gone(w, x, node)
    requires forall e: nat, j: nat {:trigger Names(w, e, j, x)} :: !Names(w, e, j, x)
    ensures Tree(w')
  {
    forall e: nat | IsDir(w', e) ensures DirOk(w', e) {
      assert IsDir(w, e) && DirOk(w, e);
    }
    forall e: nat, j: nat ensures Child(w', e, j) {
      assert Child(w, e, j) && !Names(w, e, j, x);
    }
  }

  /** The ".." of a directory that some entry names leads back to the directory of that entry. */
  lemma DotDot(w: World, p: nat, i: nat, d: nat)
    requires Inv(w) && IsDir(w, p) && 2 <= i < |w.nodes[p].ents| && w.nodes[p].ents[i].inum == d && IsDir(w, d)
    ensures |w.nodes[d].ents| >= 2 && w.nodes[d].ents[1].name == ".." && w.nodes[d].ents[1].inum == p
    ensures d !in w.removed && w.nodes[p].nlink >= 1
  {
    assert Child(w, p, i);
    assert DirOk(w, d);
    assert w.nodes[p].ents[i].inum != 0 by {
      DirNotZero(w, d);
    }
    assert Counted(w, d, 1, p);
    CountedHasLink(w, d, 1, p);
  }

  lemma DirNotZero(w: World, d: nat)
    requires Inv(w) && IsDir(w, d)
    ensures d != 0
  {
  }

  /** Its ".." names an inode in use as long as unlink has not removed it, found under a name or not. */
  lemma DotDotInUse(w: World, d: nat)
    requires Inv(w) && IsDir(w, d) && d !in w.removed
    ensures |w.nodes[d].ents| >= 2 && w.nodes[d].ents[1].inum in w.nodes && w.nodes[w.nodes[d].ents[1].inum].typ != Free
  {
    assert DirOk(w, d);
    assert Counted(w, d, 1, w.nodes[d].ents[1].inum);
    CountedHasLink(w, d, 1, w.nodes[d].ents[1].inum);
  }

  /** The name is in the directory. */
  ghost predicate Has(es: seq<Dirent>, name: string) {
    exists j :: 0 <= j < |es| && es[j].inum != 0 && es[j].name == name
  }

  /** The inode that the first entry with the name names, 0 if there is none. */
  ghost function First(es: seq<Dirent>, name: string): nat {
    if es == [] then 0 else if es[0].inum != 0 && es[0].name == name then es[0].inum else First(es[1..], name)
  }

  lemma {:induction false} FirstAt(es: seq<Dirent>, name: string, i: nat)
    requires i < |es| && es[i].inum != 0 && es[i].name == name
    requires forall j | 0 <= j < i :: es[j].inum == 0 || es[j].name != name
    ensures First(es, name) == es[i].inum && Has(es, name)
    decreases i
  {
    if i > 0 {
      FirstAt(es[1..], name, i - 1);
    }
  }

  ghost predicate FullDir(nodes: Nodes, x: nat) {
    x in nodes && nodes[x].typ == Dir && !EmptyDir(nodes[x].ents)
  }

  class Directories {
    var nodes: Nodes
    ghost var removed: set<nat>
    ghost var links: map<nat, set<Place>>
    ghost var pend: map<nat, nat>

    ghost function W(): World
      reads this
    {
      World(nodes, removed, links, pend)
    }

    /** An empty file system with inodes 1..n; inode 1 is the root and its own parent. */
    constructor (n: nat)
      requires n >= 1
      ensures Inv(W()) && removed == {} && (forall x :: x in nodes <==> 1 <= x <= n)
      ensures nodes[1] == Node(Dir, 1, 0, [Dirent(".", 1), Dirent("..", 1)])
      ensures forall x | 2 <= x <= n :: nodes[x].typ == Free
    {
      hide Inv, MkfsNodes, MkfsLinks, MkfsPend;
      nodes := MkfsNodes(n);
      removed := {};
      links := MkfsLinks(n);
      pend := MkfsPend(n);
      new;
      MkfsInv(W(), n);
    }

    /** The first slot with the name, or the number of slots. */
    method DirLookup(d: nat, name: string) returns (i: nat)
      requires d in nodes && nodes[d].typ == Dir
      ensures i <= |nodes[d].ents|
      ensures (i < |nodes[d].ents| ==> nodes[d].ents[i].inum != 0 && nodes[d].ents[i].name == name)
      ensures forall j | 0 <= j < i :: nodes[d].ents[j].inum == 0 || nodes[d].ents[j].name != name
    {
      i := 0;
      while i < |nodes[d].ents|
        invariant 0 <= i <= |nodes[d].ents|
        invariant forall j | 0 <= j < i :: nodes[d].ents[j].inum == 0 || nodes[d].ents[j].name != name
      {
        if nodes[d].ents[i].inum != 0 && nodes[d].ents[i].name == name {
          return;
        }
        i := i + 1;
      }
    }

    /** dirlink looks for a slot; it fails if the name is there, or if writei finds no space. */
    method FindSlot(d: nat, name: string, space: bool) returns (ok: bool, i: nat)
      requires Inv(W()) && d in nodes && nodes[d].typ == Dir
      ensures ok <==> space && !Has(nodes[d].ents, name)
      ensures ok ==> Slot(W(), d, i) && name != "." && name != ".."
    {
      ghost var w := W();
      assert IsDir(w, d) && DirOk(w, d);
      hide Inv;
      i := DirLookup(d, name);
      if i < |nodes[d].ents| {
        assert Has(nodes[d].ents, name);
        return false, 0;
      }
      assert nodes[d].ents[0].name == "." && nodes[d].ents[1].name == "..";
      i := 0;
      while i < |nodes[d].ents|
        invariant 0 <= i <= |nodes[d].ents| && forall j | 0 <= j < i :: nodes[d].ents[j].inum != 0
      {
        if nodes[d].ents[i].inum == 0 {
          break;
        }
        i := i + 1;
      }
      return space, i;
    }

    /** A process gets hold of an inode. */
    method Hold(x: nat)
      requires Inv(W()) && x in nodes
      modifies this`nodes
      ensures Inv(W()) && nodes == old(nodes)[x := old(nodes)[x].(refs := old(nodes)[x].refs + 1)]
    {
      ghost var w := W();
      assert Covered(w, x);
      hide Inv;
      nodes := nodes[x := nodes[x].(refs := nodes[x].refs + 1)];
      assert W() == w.(nodes := w.nodes[x := nodes[x]], pend := w.pend[x := w.pend[x]]);
      CountKeeps(w, W(), x, nodes[x], w.pend[x]);
    }

    /** sys_link up to iunlock(ip); false for a directory. */
    method LinkBegin(x: nat) returns (ok: bool)
      requires Inv(W()) && x in nodes && nodes[x].typ != Free && nodes[x].nlink < MAXLINK
      modifies this`nodes, this`pend
      ensures Inv(W()) && ok == (old(nodes)[x].typ != Dir) && x in old(pend)
      ensures nodes == if ok then old(nodes)[x := old(nodes)[x].(nlink := old(nodes)[x].nlink + 1)] else old(nodes)
      ensures pend == if ok then old(pend)[x := old(pend)[x] + 1] else old(pend)
    {
      ghost var w := W();
      assert Covered(w, x);
      hide Inv;
      ok := nodes[x].typ != Dir;
      if ok {
        nodes := nodes[x := nodes[x].(nlink := nodes[x].nlink + 1)];
        pend := pend[x := pend[x] + 1];
        CountKeeps(w, W(), x, nodes[x], pend[x]);
      }
    }

    /** sys_link with dp locked: the new entry, if dirlink succeeds. */
    method LinkFinish(d: nat, name: string, x: nat, space: bool) returns (ok: bool)
      requires Inv(W()) && d in nodes && nodes[d].typ == Dir && x in nodes && nodes[x].typ == File && x in pend
      requires pend[x] > 0
      modifies this`nodes, this`pend, this`links
      ensures Inv(W()) && (ok <==> space && !Has(old(nodes)[d].ents, name))
      ensures (!ok ==> nodes == old(nodes) && pend == old(pend))
      ensures ok ==> pend == old(pend)[x := old(pend)[x] - 1]
      ensures ok ==> Entered(old(W()), nodes, d, name, x)
    {
      hide Inv;
      KeysOf(W());
      var i;
      ok, i := FindSlot(d, name, space);
      if ok {
        Enter(d, i, name, x);
      }
    }

    /** dirlink writes the entry. */
    method Enter(d: nat, i: nat, name: string, x: nat)
      requires Inv(W()) && Slot(W(), d, i) && MayName(W(), d, x) && name != "." && name != ".." && x in pend
      requires pend[x] > 0
      modifies this`nodes, this`pend, this`links
      ensures Inv(W()) && nodes == old(nodes)[d := old(nodes)[d].(ents := Put(old(nodes)[d].ents, i, Dirent(name, x)))]
      ensures pend == old(pend)[x := old(pend)[x] - 1]
    {
      ghost var w := W();
      hide Inv;
      nodes := nodes[d := nodes[d].(ents := if i < |nodes[d].ents| then nodes[d].ents[i := Dirent(name, x)] else nodes[d].ents + [Dirent(name, x)])];
      links := links[x := links[x] + {(d, i)}];
      pend := pend[x := pend[x] - 1];
      AddEntry(w, W(), d, i, name, x);
    }

    /** The count that a call owes: sys_link's bad exit, and the end of sys_unlink. */
    method Lower(x: nat)
      requires Inv(W()) && x in nodes && x in pend && pend[x] > 0
      modifies this`nodes, this`pend
      ensures Inv(W()) && old(nodes)[x].nlink > 0 && pend == old(pend)[x := old(pend)[x] - 1]
      ensures nodes == old(nodes)[x := old(nodes)[x].(nlink := old(nodes)[x].nlink - 1)]
    {
      ghost var w := W();
      assert Covered(w, x);
      hide Inv;
      nodes := nodes[x := nodes[x].(nlink := nodes[x].nlink - 1)];
      pend := pend[x := pend[x] - 1];
      CountKeeps(w, W(), x, nodes[x], pend[x]);
    }

    /** sys_unlink with dp and ip locked: 0 if there is nothing to remove; else the inode whose count
        is to be lowered. Its count is at least 1, and so is dp's when a directory goes. */
    method UnlinkErase(d: nat, name: string) returns (x: nat)
      requires Inv(W()) && d in nodes && nodes[d].typ == Dir
      modifies this`nodes, this`pend, this`links, this`removed
      ensures Inv(W())
      ensures x == 0 ==> nodes == old(nodes) && pend == old(pend) && removed == old(removed)
      ensures x == 0 <==> name == "." || name == ".." || !Has(old(nodes)[d].ents, name) || FullDir(old(nodes), First(old(nodes)[d].ents, name))
      ensures x != 0 ==> x == First(old(nodes)[d].ents, name)
      ensures x != 0 ==>
                x in old(nodes) && old(nodes)[x].nlink >= 1 && x in old(pend) && pend == old(pend)[x := old(pend)[x] + 1]
      ensures x != 0 ==> Removes(old(nodes), nodes, d, name, x)
      ensures x != 0 && old(nodes)[x].typ == Dir ==> EmptyDir(old(nodes)[x].ents) && removed == old(removed) + {x}
      ensures x != 0 && old(nodes)[x].typ != Dir ==> removed == old(removed)
    {
      hide Inv, Erased;
      ghost var w := W();
      if name == "." || name == ".." {
        return 0;
      }
      var i := DirLookup(d, name);
      if i == |nodes[d].ents| {
        assert !Has(nodes[d].ents, name);
        return 0;
      }
      x := nodes[d].ents[i].inum;
      FirstAt(nodes[d].ents, name, i);
      NotDots(w, d, i);
      NamedHasLink(w, d, i, x);
      assert nodes[x].nlink >= 1;
      if nodes[x].typ == Dir {
        var empty := IsDirEmpty(x);
        if !empty {
          return 0;
        }
        EraseDir(w, Erased(w, d, i, x), d, i, x);
        DirErased(w, d, i, x);
        nodes := nodes[d := nodes[d].(ents := nodes[d].ents[i := NOENT])];
        nodes := nodes[d := nodes[d].(nlink := nodes[d].nlink - 1)];
        removed := removed + {x};
        links := links[x := links[x] - {(d, i)}][d := links[d] - {(x, 1)}];
      } else {
        EraseFile(w, Erased(w, d, i, x), d, i, x);
        FileErased(w, d, i, x);
        nodes := nodes[d := nodes[d].(ents := nodes[d].ents[i := NOENT])];
        links := links[x := links[x] - {(d, i)}];
      }
      pend := pend[x := pend[x] + 1];
      assert old(nodes)[d].ents[i] == Dirent(name, x);
      assert nodes == old(nodes)[d := old(nodes)[d].(ents := old(nodes)[d].ents[i := NOENT],
                                                     nlink := if old(nodes)[x].typ == Dir then old(nodes)[d].nlink - 1 else old(nodes)[d].nlink)];
    }

    method IsDirEmpty(x: nat) returns (b: bool)
      requires x in nodes
      ensures b <==> EmptyDir(nodes[x].ents)
    {
      var i := 2;
      while i < |nodes[x].ents|
        invariant 2 <= i && forall j | 2 <= j < i && j < |nodes[x].ents| :: nodes[x].ents[j].inum == 0
      {
        if nodes[x].ents[i].inum != 0 {
          return false;
        }
        i := i + 1;
      }
      return true;
    }

    /** create of a new file or directory x in d, where ialloc has found x free. When an entry cannot
        be written x is freed again. */
    method Create(d: nat, name: string, typ: Type, x: nat, spaceHere: bool, space: bool) returns (ok: bool)
      requires Inv(W()) && d in nodes && nodes[d].typ == Dir && nodes[d].nlink < MAXLINK
      requires x in nodes && nodes[x].typ == Free && typ != Free
      modifies this`nodes, this`pend, this`links, this`removed
      ensures Inv(W()) && (ok <==> (typ == Dir ==> spaceHere) && space && !Has(old(nodes)[d].ents, name))
      ensures !ok ==> nodes == old(nodes) && removed == old(removed)
      ensures ok ==> d in old(links) && removed == old(removed) - {x} && x != d
      ensures ok ==> Entered(Created(old(W()), x, typ, d), nodes, d, name, x)
    {
      hide Inv, Created;
      if typ == Dir && !spaceHere {
        return false;
      }
      var i;
      ok, i := FindSlot(d, name, space);
      if !ok {
        return;
      }
      NewNode(d, typ, x, i);
      Enter(d, i, name, x);
    }

    /** create from the lookup on: an existing file is returned to an open of a plain file, and to nobody
        else; otherwise a new inode x is made, if ialloc found one. 0 where create returns 0, -1 where ilock
        panics, which takes a stale "..". */
    method CreateCall(d: nat, name: string, typ: Type, plain: bool, x: nat, spaceHere: bool,
                      space: bool) returns (r: int)
      requires Inv(W()) && d in nodes && nodes[d].typ == Dir && nodes[d].nlink < MAXLINK
      requires typ != Free && (x != 0 ==> x in nodes && nodes[x].typ == Free)
      modifies this`nodes, this`pend, this`links, this`removed
      ensures Inv(W())
      ensures Has(old(nodes)[d].ents, name) ==>
                var y := First(old(nodes)[d].ents, name);
                && removed == old(removed)
                && (r == -1 <==> y !in old(nodes) || old(nodes)[y].typ == Free)
                && (r == -1 ==> nodes == old(nodes))
                && (r != -1 ==> r == (if typ == File && plain && old(nodes)[y].typ == File then y else 0))
                && (r > 0 ==> nodes == old(nodes)[y := old(nodes)[y].(refs := old(nodes)[y].refs + 1)])
                && (r == 0 ==> nodes == old(nodes))
      ensures !Has(old(nodes)[d].ents, name) ==>
                && (r == x || r == 0) && (r != 0 <==> x != 0 && (typ == Dir ==> spaceHere) && space)
                && (r == 0 ==> nodes == old(nodes) && removed == old(removed))
                && (r != 0 ==> d in old(links) && Entered(Created(old(W()), x, typ, d), nodes, d, name, x))
                && (r != 0 ==> removed == old(removed) - {x})
    {
      hide Inv, Created, Entered;
      var i := DirLookup(d, name);
      if i < |nodes[d].ents| {
        FirstAt(nodes[d].ents, name, i);
        var y := nodes[d].ents[i].inum;
        if y !in nodes || nodes[y].typ == Free {
          return -1;
        }
        if typ == File && plain && nodes[y].typ == File {
          Hold(y);
          return y;
        }
        return 0;
      }
      if x == 0 {
        return 0;
      }
      var ok := Create(d, name, typ, x, spaceHere, space);
      return if ok then x else 0;
    }

    /** The part of create from ialloc on, before the entry in dp. */
    method NewNode(d: nat, typ: Type, x: nat, ghost i: nat)
      requires Inv(W()) && Slot(W(), d, i) && nodes[d].nlink < MAXLINK && x in nodes && nodes[x].typ == Free
      requires typ != Free
      modifies this`nodes, this`pend, this`links, this`removed
      ensures Inv(W()) && d in old(links) && W() == Created(old(W()), x, typ, d) && x != d
      ensures Slot(W(), d, i) && MayName(W(), d, x) && x in pend && pend[x] == 1 && removed == old(removed) - {x}
    {
      hide Inv, Fresh;
      ghost var w := W();
      KeysOf(w);
      CreateKeeps(w, Created(w, x, typ, d), x, typ, d);
      MayNameNew(w, Created(w, x, typ, d), x, typ, d, i);
      FreshIs(typ, x, d);
      nodes := nodes[x := Node(typ, 1, 1, if typ == Dir then [Dirent(".", x), Dirent("..", d)] else [])];
      if typ == Dir {
        nodes := nodes[d := nodes[d].(nlink := nodes[d].nlink + 1)];
        links := links[d := links[d] + {(x, 1)}];
      }
      removed := removed - {x};
      pend := pend[x := 1];
    }

    /** iput: the last reference frees an inode without links, and only then. */
    method IPut(x: nat, valid: bool) returns (freed: bool)
      requires Inv(W()) && x in nodes && nodes[x].refs > 0
      modifies this`nodes, this`links
      ensures Inv(W()) && freed == (old(nodes)[x].refs == 1 && valid && old(nodes)[x].nlink == 0)
      ensures freed ==>
                nodes == old(nodes)[x := Node(Free, 0, 0, [])] && forall d: nat, i: nat :: !Counted(old(W()), d, i, x)
      ensures !freed ==> nodes == old(nodes)[x := old(nodes)[x].(refs := old(nodes)[x].refs - 1)]
    {
      ghost var w := W();
      assert Covered(w, x);
      hide Inv;
      freed := nodes[x].refs == 1 && valid && nodes[x].nlink == 0;
      if freed {
        forall d: nat, i: nat ensures !Counted(w, d, i, x) {
          UnlinkedUnnamed(w, x, d, i);
        }
        FreeKeeps(w, Gone(w, x, Node(Free, 0, 0, [])), x, Node(Free, 0, 0, []));
        nodes := nodes[x := Node(Free, 0, 0, [])];
        links := map y | y in links :: Outside(links[y], x);
        assert W() == Gone(w, x, Node(Free, 0, 0, []));
      } else {
        nodes := nodes[x := nodes[x].(refs := nodes[x].refs - 1)];
        assert W() == w.(nodes := w.nodes[x := nodes[x]], pend := w.pend[x := w.pend[x]]);
        CountKeeps(w, W(), x, nodes[x], w.pend[x]);
      }
    }
  }

  lemma KeysOf(w: World)
    requires Inv(w)
    ensures w.links.Keys == w.pend.Keys == w.nodes.Keys && 0 !in w.nodes
  {
  }

  lemma FreshIs(typ: Type, x: nat, d: nat)
    ensures Fresh(typ, x, d) == if typ == Dir then [Dirent(".", x), Dirent("..", d)] else []
  {
  }

  /** The new inode may be entered into its directory. */
  lemma MayNameNew(w: World, w': World, x: nat, typ: Type, d: nat, i: nat)
    requires Slot(w, d, i) && x in w.nodes && w.nodes[x].typ == Free && typ != Free && d in w.links && x != 0
    requires w' == Created(w, x, typ, d)
    requires x in w'.links && w'.links[x] == {} && x != d
    ensures Slot(w', d, i) && MayName(w', d, x)
  {
  }

  // ---- the empty file system ----

  function MkfsNodes(n: nat): (m: Nodes)
    ensures forall x :: x in m <==> 1 <= x <= n
    ensures forall x | x in m ::
              m[x] == if x == 1 then Node(Dir, 1, 0, [Dirent(".", 1), Dirent("..", 1)]) else Node(Free, 0, 0, [])
  {
    if n == 0 then map[]
    else MkfsNodes(n - 1)[n := if n == 1 then Node(Dir, 1, 0, [Dirent(".", 1), Dirent("..", 1)]) else Node(Free, 0, 0, [])]
  }

  ghost function MkfsLinks(n: nat): (m: map<nat, set<Place>>)
    ensures forall x :: x in m <==> 1 <= x <= n
    ensures forall x | x in m :: m[x] == if x == 1 then {(1, 1)} else {}
  {
    if n == 0 then map[] else MkfsLinks(n - 1)[n := if n == 1 then {(1, 1)} else {}]
  }

  ghost function MkfsPend(n: nat): (m: map<nat, nat>)
    ensures forall x :: x in m <==> 1 <= x <= n
    ensures forall x | x in m :: m[x] == 0
  {
    if n == 0 then map[] else MkfsPend(n - 1)[n := 0]
  }

  lemma MkfsInv(w: World, n: nat)
    requires n >= 1 && w.removed == {} && w.nodes.Keys == w.links.Keys == w.pend.Keys
    requires (forall x :: x in w.nodes <==> 1 <= x <= n)
    requires forall x | x in w.nodes ::
               w.nodes[x] == if x == 1 then Node(Dir, 1, 0, [Dirent(".", 1), Dirent("..", 1)]) else Node(Free, 0, 0, [])
    requires forall x | x in w.links :: w.links[x] == (if x == 1 then {(1, 1)} else {}) && w.pend[x] == 0
    ensures Inv(w)
  {
    assert Numbers(w);
    assert Exact(w) by {
      forall x, d: nat, i: nat ensures Counted(w, d, i, x) <==> x == 1 && d == 1 && i == 1 {
      }
    }
    assert Tree(w);
  }

  /** nodes is w's with a new entry for x in a free slot of d. */
  ghost predicate Entered(w: World, nodes: Nodes, d: nat, name: string, x: nat) {
    exists i: nat :: Slot(w, d, i) && nodes == w.nodes[d := w.nodes[d].(ents := Put(w.nodes[d].ents, i, Dirent(name, x)))]
  }

  /** The entry of x in d is cleared; d has one link less if x is a directory. */
  ghost predicate Removes(nodes: Nodes, nodes': Nodes, d: nat, name: string, x: nat)
    requires d in nodes && x in nodes
  {
    exists i :: 0 <= i < |nodes[d].ents| && nodes[d].ents[i] == Dirent(name, x) &&
      (nodes[x].typ == Dir ==> nodes[d].nlink >= 1) &&
      nodes' == nodes[d := nodes[d].(ents := nodes[d].ents[i := NOENT],
                                     nlink := if nodes[x].typ == Dir && nodes[d].nlink >= 1 then nodes[d].nlink - 1 else nodes[d].nlink)]
  }

  lemma NotDots(w: World, d: nat, i: nat)
    requires Inv(w) && IsDir(w, d) && i < |w.nodes[d].ents| && w.nodes[d].ents[i].inum != 0
    requires w.nodes[d].ents[i].name != "." && w.nodes[d].ents[i].name != ".."
    ensures Names(w, d, i, w.nodes[d].ents[i].inum)
  {
    assert DirOk(w, d);
  }

  lemma DirErased(w: World, d: nat, i: nat, x: nat)
    requires Names(w, d, i, x) && IsDir(w, x) && d in w.links && x in w.links && x in w.pend && w.nodes[d].nlink > 0
    ensures var node := w.nodes[d].(ents := w.nodes[d].ents[i := NOENT]);
            Erased(w, d, i, x) == World(w.nodes[d := node.(nlink := node.nlink - 1)], w.removed + {x},
                                        w.links[x := w.links[x] - {(d, i)}][d := w.links[d] - {(x, 1)}], w.pend[x := w.pend[x] + 1])
  {
  }

  lemma FileErased(w: World, d: nat, i: nat, x: nat)
    requires Names(w, d, i, x) && x in w.nodes && w.nodes[x].typ != Dir && d in w.links && x in w.links && x in w.pend
    ensures Erased(w, d, i, x) == World(w.nodes[d := w.nodes[d].(ents := w.nodes[d].ents[i := NOENT])], w.removed,
                                        w.links[x := w.links[x] - {(d, i)}], w.pend[x := w.pend[x] + 1])
  {
  }

  /** The directories /a and /a/b. */
  method TwoDirs() returns (t: Directories)
    ensures fresh(t) && Inv(t.W()) && t.removed == {} && t.nodes.Keys == {1, 2, 3}
    ensures t.nodes[1].typ == Dir && t.nodes[1].ents == [Dirent(".", 1), Dirent("..", 1), Dirent("a", 2)]
    ensures t.nodes[2] == Node(Dir, 2, 1, [Dirent(".", 2), Dirent("..", 1), Dirent("b", 3)])
    ensures t.nodes[3] == Node(Dir, 1, 1, [Dirent(".", 3), Dirent("..", 2)])
  {
    hide Inv;
    t := new Directories(3);
    var ok := t.Create(1, "a", Dir, 2, true, true);
    assert t.nodes[1].ents == [Dirent(".", 1), Dirent("..", 1), Dirent("a", 2)];
    assert t.nodes[2] == Node(Dir, 1, 1, [Dirent(".", 2), Dirent("..", 1)]);
    ok := t.Create(2, "b", Dir, 3, true, true);
    assert t.nodes[2].ents == [Dirent(".", 2), Dirent("..", 1), Dirent("b", 3)];
  }

  /** One removal of an empty directory: its entry goes, and both counts. */
  method RemoveDir(t: Directories, d: nat, name: string, x: nat)
    requires Inv(t.W()) && d in t.nodes && x in t.nodes && d != x && name != "." && name != ".."
    requires t.nodes[d].typ == Dir && t.nodes[x].typ == Dir && EmptyDir(t.nodes[x].ents)
    requires |t.nodes[d].ents| == 3 && t.nodes[d].ents[0].name == "." && t.nodes[d].ents[1].name == ".."
    requires t.nodes[d].ents[2] == Dirent(name, x) && x != 0
    modifies t
    ensures Inv(t.W()) && old(t.nodes)[d].nlink >= 1 && old(t.nodes)[x].nlink >= 1
    ensures t.nodes == old(t.nodes)[d := old(t.nodes)[d].(ents := old(t.nodes)[d].ents[2 := NOENT], nlink := old(t.nodes)[d].nlink - 1)]
                                   [x := old(t.nodes)[x].(nlink := old(t.nodes)[x].nlink - 1)]
  {
    hide Inv;
    FirstAt(t.nodes[d].ents, name, 2);
    var y := t.UnlinkErase(d, name);
    assert y == x;
    t.Lower(x);
  }

  /** With a directory still open after its removal, its parent can be removed and freed too: then
      its ".." names a free inode, and ilock on it panics. */
  method StaleDotDot() returns (t: Directories)
    ensures fresh(t) && Inv(t.W()) && 2 in t.nodes && t.nodes[2].typ == Free
    ensures IsDir(t.W(), 3) && t.nodes[3].refs == 1 && |t.nodes[3].ents| >= 2 && t.nodes[3].ents[1] == Dirent("..", 2)
  {
    hide Inv;
    t := TwoDirs();
    RemoveDir(t, 2, "b", 3);
    RemoveDir(t, 1, "a", 2);
    var freed := t.IPut(2, true);
  }
}
