/** Moving one entry to another folder keeps a volume well formed, the chains untouched and
    every node's contents in place; only the depths below the moved folder change. */
module VolumeRelink {
  import opened Words
  import opened DirectoryLayout
  import opened DirectoryTables
  import opened Volumes
  import opened VolumePrune

  /** A moved folder's own table: renamed in entry 0, and with its new parent in entry 1. */
  function Reparent(t: Table, name: Name, ext: Extension, q: uint32): Table {
    t[0 := t[0].(name := name, ext := ext)][1 := t[1].At(q)]
  }

  /** Entry `e` describes the same file or folder as `e0`, under whatever name. */
  predicate SameNode(e: Entry, e0: Entry) {
    && e.First() == e0.First() && e.IsFolder() == e0.IsFolder()
    && (if e0.IsFolder() then e.filesize == 0
        else e.attribute == 0 && e.filesize > 0 && ClustersNeeded(e.filesize) == ClustersNeeded(e0.filesize))
  }

  /** `v'` differs from `v`, as far as folders go, by the entry in slot `i` of folder `p` being
      moved to the end of folder `q` under the name of `e`. */
  ghost predicate Relinks(v: Volume, g: Shape, v': Volume, p: int, i: int, q: uint32, e: Entry) {
    && WellFormed(v, g) && HeaderOK(v') && Slot(v, g, p, i) && q in g.depth && q != p && v'.fat == v.fat
    && e.Used() && SameNode(e, Dir(v, p)[i])
    && var c := e.First();
    && !Under(v, g, q, c)
    && Fill(Dir(v, q)) < TABLE_SIZE && !Holds(Dir(v, q), e.name, e.ext)
    && Dir(v', p) == Remove(Dir(v, p), i)
    && Dir(v', q) == Append(Dir(v, q), e)
    && (c in g.depth ==> Dir(v', c) == Reparent(Dir(v, c), e.name, e.ext, q))
    && (forall d {:trigger Dir(v', d)} :: d in g.depth && d != p && d != q && d != c ==> Dir(v', d) == Dir(v, d))
  }

  /** The shape after the move: everything under the moved folder is as deep below folder `q`
      as it was below its old parent. */
  ghost function Relinked(v: Volume, g: Shape, c: int, q: int): Shape
    requires TreeOK(v, g) && q in g.depth
  {
    Shape(g.chains, map d | d in g.depth :: if Under(v, g, d, c) then NewDepth(v, g, c, q, d) else g.depth[d])
  }

  ghost function NewDepth(v: Volume, g: Shape, c: int, q: int, d: int): nat
    requires TreeOK(v, g) && q in g.depth && d in g.depth && Under(v, g, d, c)
  {
    UnderIsDeeper(v, g, d, c);
    g.depth[d] - g.depth[c] + g.depth[q] + 1
  }

  lemma RelinkSides(v: Volume, g: Shape, v': Volume, p: int, i: int, q: uint32, e: Entry)
    requires Relinks(v, g, v', p, i, q, e)
    ensures var c := e.First(); c in g.chains && c != p && c != q && c != ROOT && !Under(v, g, p, c)
    ensures e.First() in g.depth <==> e.IsFolder()
  {
    ParentStays(v, g, p, i);
    OwnedFolder(v, g, p, i);
    assert SlotOK(v, g, p, Dir(v, p)[i]);
    ChainHead(v, g, e.First());
  }

  lemma RelinkTables(v: Volume, g: Shape, v': Volume, p: int, i: int, q: uint32, e: Entry)
    requires Relinks(v, g, v', p, i, q, e)
    ensures Packed(Dir(v', p)) && Fill(Dir(v', p)) == Fill(Dir(v, p)) - 1
    ensures Packed(Dir(v', q)) && Fill(Dir(v', q)) == Fill(Dir(v, q)) + 1
  {
    assert SlotOK(v, g, p, Dir(v, p)[i]);
    assert FolderOK(v, p) && FolderOK(v, q);
    RemovePacked(Dir(v, p), i);
    AppendPacked(Dir(v, q), e);
  }

  lemma RelinkFills(v: Volume, g: Shape, v': Volume, p: int, i: int, q: uint32, e: Entry)
    requires Relinks(v, g, v', p, i, q, e)
    ensures Fill(Dir(v', p)) == Fill(Dir(v, p)) - 1 && Fill(Dir(v', q)) == Fill(Dir(v, q)) + 1
  {
    RelinkTables(v, g, v', p, i, q, e);
  }

  lemma RelinkFill(v: Volume, g: Shape, v': Volume, p: int, i: int, q: uint32, e: Entry, d: int)
    requires Relinks(v, g, v', p, i, q, e) && d in g.depth && d != p && d != q
    ensures Fill(Dir(v', d)) == Fill(Dir(v, d))
    ensures forall j :: 2 <= j < TABLE_SIZE ==> Dir(v', d)[j] == Dir(v, d)[j]
    ensures NamesParent(Dir(v, d)[1]) ==> NamesParent(Dir(v', d)[1])
    ensures Packed(Dir(v, d)) ==> Packed(Dir(v', d))
  {
    if d == e.First() {
      ReparentKeeps(Dir(v, d), e.name, e.ext, q);
    } else {
      assert Dir(v', d) == Dir(v, d);
    }
  }

  lemma ReparentKeeps(t: Table, name: Name, ext: Extension, q: uint32)
    ensures var u := Reparent(t, name, ext, q);
      && Fill(u) == Fill(t) && (forall j :: 2 <= j < TABLE_SIZE ==> u[j] == t[j])
      && (NamesParent(t[1]) ==> NamesParent(u[1])) && (Packed(t) ==> Packed(u))
  {
    FillIs(Reparent(t, name, ext, q), Fill(t));
  }

  lemma RelinkUp(v: Volume, g: Shape, v': Volume, p: int, i: int, q: uint32, e: Entry, d: int)
    requires Relinks(v, g, v', p, i, q, e) && d in g.depth
    ensures Up(v', d) == if d == e.First() then q else Up(v, d)
    ensures if d == e.First() then Dir(v', d)[0].Named(e.name, e.ext)
            else Dir(v', d)[0].Named(Dir(v, d)[0].name, Dir(v, d)[0].ext)
  {
    RelinkSides(v, g, v', p, i, q, e);
    if d != e.First() && d != p && d != q {
      assert Dir(v', d) == Dir(v, d);
    }
  }

  /** Folder and slot an entry sat in before the move. */
  ghost function Origin(v: Volume, p: int, i: int, q: int, d: int, j: int): (int, int) {
    if d == q && j == Fill(Dir(v, q)) then (p, i) else (d, Before(v, p, i, d, j))
  }

  ghost predicate OwnedAt(v: Volume, g: Shape, o: (int, int), k: int) {
    Owns(v, g, o.0, o.1, k)
  }

  /** Every slot after the move holds the entry of its origin, renamed if it is the moved one. */
  lemma RelinkSlot(v: Volume, g: Shape, v': Volume, p: int, i: int, q: uint32, e: Entry, d: int, j: int)
    requires Relinks(v, g, v', p, i, q, e)
    requires Slot(v', Relinked(v, g, e.First(), q), d, j)
    ensures var o := Origin(v, p, i, q, d, j);
      && Slot(v, g, o.0, o.1)
      && Dir(v', d)[j] == (if o == (p, i) then e else Dir(v, o.0)[o.1])
      && (o == (p, i) <==> d == q && j == Fill(Dir(v, q)))
      && (d == p ==> j < Fill(Dir(v, p)) - 1)
  {
    RelinkFills(v, g, v', p, i, q, e);
    if d != p && d != q {
      RelinkFill(v, g, v', p, i, q, e, d);
    }
  }

  lemma RelinkSlotSurvives(v: Volume, g: Shape, v': Volume, p: int, i: int, q: uint32, e: Entry, d: int, j: int) returns (d': int, j': int)
    requires Relinks(v, g, v', p, i, q, e) && Slot(v, g, d, j)
    ensures Slot(v', Relinked(v, g, e.First(), q), d', j')
    ensures Dir(v', d')[j'].First() == Dir(v, d)[j].First()
  {
    if d == p {
      d', j' := RelinkSlotLeaves(v, g, v', p, i, q, e, j);
    } else {
      d', j' := d, j;
      RelinkSlotStays(v, g, v', p, i, q, e, d, j);
    }
  }

  lemma RelinkSlotLeaves(v: Volume, g: Shape, v': Volume, p: int, i: int, q: uint32, e: Entry, j: int) returns (d': int, j': int)
    requires Relinks(v, g, v', p, i, q, e) && Slot(v, g, p, j)
    ensures Slot(v', Relinked(v, g, e.First(), q), d', j')
    ensures Dir(v', d')[j'].First() == Dir(v, p)[j].First()
  {
    RelinkFills(v, g, v', p, i, q, e);
    if j == i {
      d', j' := q, Fill(Dir(v, q));
    } else {
      d', j' := p, if j == Fill(Dir(v, p)) - 1 then i else j;
    }
  }

  lemma RelinkSlotStays(v: Volume, g: Shape, v': Volume, p: int, i: int, q: uint32, e: Entry, d: int, j: int)
    requires Relinks(v, g, v', p, i, q, e) && Slot(v, g, d, j) && d != p
    ensures Slot(v', Relinked(v, g, e.First(), q), d, j) && Dir(v', d)[j] == Dir(v, d)[j]
  {
    if d == q {
      RelinkFills(v, g, v', p, i, q, e);
    } else {
      RelinkFill(v, g, v', p, i, q, e, d);
    }
  }

  lemma RelinkSlotOK(v: Volume, g: Shape, v': Volume, p: int, i: int, q: uint32, e: Entry, d: int, j: int)
    requires Relinks(v, g, v', p, i, q, e)
    requires Slot(v', Relinked(v, g, e.First(), q), d, j)
    ensures SlotOK(v', Relinked(v, g, e.First(), q), d, Dir(v', d)[j])
  {
    RelinkSlot(v, g, v', p, i, q, e, d, j);
    var o := Origin(v, p, i, q, d, j);
    assert SlotOK(v, g, o.0, Dir(v, o.0)[o.1]);
    var k := Dir(v, o.0)[o.1].First();
    if k in g.depth {
      RelinkUp(v, g, v', p, i, q, e, k);
    }
    if k == e.First() {
      assert Owns(v, g, o.0, o.1, k) && Owns(v, g, p, i, k);
    }
  }

  lemma RelinkFolders(v: Volume, g: Shape, v': Volume, p: int, i: int, q: uint32, e: Entry)
    requires Relinks(v, g, v', p, i, q, e)
    ensures FoldersOK(v', Relinked(v, g, e.First(), q))
  {
    var g' := Relinked(v, g, e.First(), q);
    forall d | d in g'.depth ensures FolderOK(v', d) {
      assert FolderOK(v, d);
      RelinkTables(v, g, v', p, i, q, e);
      if d != p && d != q {
        RelinkFill(v, g, v', p, i, q, e, d);
      }
    }
    forall d, j | Slot(v', g', d, j) ensures SlotOK(v', g', d, Dir(v', d)[j]) {
      RelinkSlotOK(v, g, v', p, i, q, e, d, j);
    }
  }

  lemma RelinkOwners(v: Volume, g: Shape, v': Volume, p: int, i: int, q: uint32, e: Entry)
    requires Relinks(v, g, v', p, i, q, e)
    ensures OwnersOK(v', Relinked(v, g, e.First(), q))
  {
    var g' := Relinked(v, g, e.First(), q);
    forall k | k in g'.chains ensures Owned(v', g', k) {
      assert Owned(v, g, k);
      var d, j :| Owns(v, g, d, j, k);
      var d', j' := RelinkSlotSurvives(v, g, v', p, i, q, e, d, j);
      assert Owns(v', g', d', j', k);
    }
    forall d, j, d', j', k: int | Owns(v', g', d, j, k) && Owns(v', g', d', j', k) ensures d == d' && j == j' {
      RelinkOwnedBefore(v, g, v', p, i, q, e, d, j, k);
      RelinkOwnedBefore(v, g, v', p, i, q, e, d', j', k);
      OriginInjective(v, g, p, i, q, d, j, d', j', k);
    }
  }

  lemma RelinkOwnedBefore(v: Volume, g: Shape, v': Volume, p: int, i: int, q: uint32, e: Entry, d: int, j: int, k: int)
    requires Relinks(v, g, v', p, i, q, e) && Owns(v', Relinked(v, g, e.First(), q), d, j, k)
    ensures OwnedAt(v, g, Origin(v, p, i, q, d, j), k)
    ensures d == p ==> j < Fill(Dir(v, p)) - 1
  {
    RelinkSlot(v, g, v', p, i, q, e, d, j);
  }

  lemma OriginInjective(v: Volume, g: Shape, p: int, i: int, q: int, d: int, j: int, d': int, j': int, k: int)
    requires OwnersOK(v, g) && p != q
    requires d == p ==> j < Fill(Dir(v, p)) - 1
    requires d' == p ==> j' < Fill(Dir(v, p)) - 1
    requires OwnedAt(v, g, Origin(v, p, i, q, d, j), k) && OwnedAt(v, g, Origin(v, p, i, q, d', j'), k)
    ensures d == d' && j == j'
  {
  }

  lemma RelinkTree(v: Volume, g: Shape, v': Volume, p: int, i: int, q: uint32, e: Entry)
    requires Relinks(v, g, v', p, i, q, e)
    ensures TreeOK(v', Relinked(v, g, e.First(), q))
  {
    var c := e.First();
    var g' := Relinked(v, g, c, q);
    RelinkSides(v, g, v', p, i, q, e);
    RelinkUp(v, g, v', p, i, q, e, ROOT);
    forall d | d in g'.depth && d != ROOT
      ensures d in g'.chains && Up(v', d) in g'.depth && g'.depth[d] == g'.depth[Up(v', d)] + 1
    {
      RelinkUp(v, g, v', p, i, q, e, d);
      assert Up(v, d) in g.depth;
    }
  }

  lemma RelinkWellFormed(v: Volume, g: Shape, v': Volume, p: int, i: int, q: uint32, e: Entry)
    requires Relinks(v, g, v', p, i, q, e)
    ensures WellFormed(v', Relinked(v, g, e.First(), q))
  {
    RelinkFolders(v, g, v', p, i, q, e);
    RelinkOwners(v, g, v', p, i, q, e);
    RelinkTree(v, g, v', p, i, q, e);
  }
}
