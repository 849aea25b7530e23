/** Removing one entry together with everything below it keeps a volume well formed. */
module VolumePrune {
  import opened DirectoryLayout
  import opened ClusterChains
  import opened DirectoryTables
  import opened Volumes

  /** `v'` differs from `v`, as far as surviving folders and chains go, by slot `i` of folder
      `p` being removed. What was inside the removed node is unconstrained. */
  ghost predicate Prunes(v: Volume, g: Shape, v': Volume, p: int, i: int) {
    && WellFormed(v, g) && HeaderOK(v') && Slot(v, g, p, i)
    && var c := Dir(v, p)[i].First();
    && Dir(v', p) == Remove(Dir(v, p), i)
    && (forall d {:trigger Dir(v', d)} :: d in g.depth && d != p && !Under(v, g, d, c) ==> Dir(v', d) == Dir(v, d))
    && (forall k, x :: k in g.chains && !Inside(v, g, k, c) && x in g.chains[k] && 0 <= x < CLUSTER_MAP_SIZE ==> v'.fat[x] == v.fat[x])
  }

  /** The folder a node is removed from does not lie inside the node. */
  lemma ParentStays(v: Volume, g: Shape, p: int, i: int)
    requires WellFormed(v, g) && Slot(v, g, p, i)
    ensures !Under(v, g, p, Dir(v, p)[i].First())
  {
    var c := Dir(v, p)[i].First();
    assert SlotOK(v, g, p, Dir(v, p)[i]);
    if Under(v, g, p, c) {
      UnderIsDeeper(v, g, p, c);
      OwnedFolder(v, g, p, i);
    }
  }

  lemma OwnedFolder(v: Volume, g: Shape, p: int, i: int)
    requires WellFormed(v, g) && Slot(v, g, p, i)
    ensures var c := Dir(v, p)[i].First(); c in g.depth ==> c != ROOT && Up(v, c) == p && g.depth[c] == g.depth[p] + 1
  {
    var c := Dir(v, p)[i].First();
    assert SlotOK(v, g, p, Dir(v, p)[i]);
    ChainHead(v, g, c);
    assert c in g.depth ==> Up(v, c) == p;
  }

  /** Where the entry of surviving slot `j` of folder `d` was before the removal. */
  ghost function Before(v: Volume, p: int, i: int, d: int, j: int): int {
    if d == p && j == i then Fill(Dir(v, p)) - 1 else j
  }

  lemma PruneSlot(v: Volume, g: Shape, v': Volume, p: int, i: int, d: int, j: int)
    requires Prunes(v, g, v', p, i)
    requires Slot(v', Pruned(v, g, Dir(v, p)[i].First()), d, j)
    ensures Slot(v, g, d, Before(v, p, i, d, j)) && !(d == p && Before(v, p, i, d, j) == i)
    ensures Dir(v', d)[j] == Dir(v, d)[Before(v, p, i, d, j)]
  {
    assert FolderOK(v, p);
    RemovePacked(Dir(v, p), i);
    if d == p {
      RemoveMovesLast(Dir(v, p), i);
    }
  }

  lemma PruneSlotSurvives(v: Volume, g: Shape, v': Volume, p: int, i: int, d: int, j: int) returns (k: int)
    requires Prunes(v, g, v', p, i)
    requires Slot(v, g, d, j) && !(d == p && j == i) && !Under(v, g, d, Dir(v, p)[i].First())
    ensures Slot(v', Pruned(v, g, Dir(v, p)[i].First()), d, k) && Before(v, p, i, d, k) == j
    ensures Dir(v', d)[k] == Dir(v, d)[j]
  {
    assert FolderOK(v, p);
    RemovePacked(Dir(v, p), i);
    k := if d == p && j == Fill(Dir(v, p)) - 1 then i else j;
  }

  /** The chain and the folder a surviving slot names survive. */
  lemma PruneKeeps(v: Volume, g: Shape, p: int, i: int, d: int, j: int)
    requires WellFormed(v, g) && Slot(v, g, p, i) && Slot(v, g, d, j) && !(d == p && j == i)
    requires !Under(v, g, d, Dir(v, p)[i].First())
    ensures var k := Dir(v, d)[j].First();
      !Inside(v, g, k, Dir(v, p)[i].First()) && (k in g.depth ==> !Under(v, g, k, Dir(v, p)[i].First()))
  {
    var c, k := Dir(v, p)[i].First(), Dir(v, d)[j].First();
    assert Owns(v, g, p, i, c) && Owns(v, g, d, j, k);
    OwnedFolder(v, g, d, j);
  }

  lemma PruneHeads(v: Volume, g: Shape, v': Volume, p: int, i: int)
    requires Prunes(v, g, v', p, i)
    ensures forall d {:trigger Up(v', d)} {:trigger Dir(v', d)[0]} ::
      d in g.depth && !Under(v, g, d, Dir(v, p)[i].First()) ==> Up(v', d) == Up(v, d) && Dir(v', d)[0] == Dir(v, d)[0]
  {
  }

  lemma PruneSlotOK(v: Volume, g: Shape, v': Volume, p: int, i: int, d: int, j: int)
    requires Prunes(v, g, v', p, i)
    requires Slot(v', Pruned(v, g, Dir(v, p)[i].First()), d, j)
    ensures SlotOK(v', Pruned(v, g, Dir(v, p)[i].First()), d, Dir(v', d)[j])
  {
    PruneSlot(v, g, v', p, i, d, j);
    var j0 := Before(v, p, i, d, j);
    assert SlotOK(v, g, d, Dir(v, d)[j0]);
    PruneKeeps(v, g, p, i, d, j0);
    PruneHeads(v, g, v', p, i);
  }

  lemma PruneFolderOK(v: Volume, g: Shape, v': Volume, p: int, i: int, d: int)
    requires Prunes(v, g, v', p, i)
    requires d in g.depth && !Under(v, g, d, Dir(v, p)[i].First())
    ensures FolderOK(v', d)
  {
    assert FolderOK(v, d);
    if d == p {
      RemovePacked(Dir(v, p), i);
    }
  }

  lemma PruneFolders(v: Volume, g: Shape, v': Volume, p: int, i: int)
    requires Prunes(v, g, v', p, i)
    ensures FoldersOK(v', Pruned(v, g, Dir(v, p)[i].First()))
  {
    var g' := Pruned(v, g, Dir(v, p)[i].First());
    forall d | d in g'.depth ensures FolderOK(v', d) {
      PruneFolderOK(v, g, v', p, i, d);
    }
    forall d, j | Slot(v', g', d, j) ensures SlotOK(v', g', d, Dir(v', d)[j]) {
      PruneSlotOK(v, g, v', p, i, d, j);
    }
  }

  lemma PruneChains(v: Volume, g: Shape, v': Volume, p: int, i: int)
    requires Prunes(v, g, v', p, i)
    ensures ChainsOK(v'.fat, Pruned(v, g, Dir(v, p)[i].First()).chains)
  {
    var g' := Pruned(v, g, Dir(v, p)[i].First());
    forall k | k in g'.chains ensures IsChain(v'.fat, g'.chains[k]) && g'.chains[k][0] == k {
      ChainHead(v, g, k);
      forall x | x in g.chains[k] ensures v'.fat[x] == v.fat[x] {
        ChainNotEmpty(v.fat, g.chains[k], x);
      }
      ChainFrame(v.fat, v'.fat, g.chains[k]);
    }
  }

  lemma PruneOwned(v: Volume, g: Shape, v': Volume, p: int, i: int, k: int)
    requires Prunes(v, g, v', p, i)
    requires k in Pruned(v, g, Dir(v, p)[i].First()).chains
    ensures Owned(v', Pruned(v, g, Dir(v, p)[i].First()), k)
  {
    assert Owned(v, g, k);
    var d, j :| Owns(v, g, d, j, k);
    var j' := PruneSlotSurvives(v, g, v', p, i, d, j);
    assert Owns(v', Pruned(v, g, Dir(v, p)[i].First()), d, j', k);
  }

  lemma PruneOwners(v: Volume, g: Shape, v': Volume, p: int, i: int)
    requires Prunes(v, g, v', p, i)
    ensures OwnersOK(v', Pruned(v, g, Dir(v, p)[i].First()))
  {
    var g' := Pruned(v, g, Dir(v, p)[i].First());
    forall k | k in g'.chains ensures Owned(v', g', k) {
      PruneOwned(v, g, v', p, i, k);
    }
    forall d, j, d', j', k | Owns(v', g', d, j, k) && Owns(v', g', d', j', k) ensures d == d' && j == j' {
      PruneSlot(v, g, v', p, i, d, j);
      PruneSlot(v, g, v', p, i, d', j');
      assert Owns(v, g, d, Before(v, p, i, d, j), k) && Owns(v, g, d', Before(v, p, i, d', j'), k);
      assert FolderOK(v, p);
      RemovePacked(Dir(v, p), i);
    }
  }

  lemma PruneTree(v: Volume, g: Shape, v': Volume, p: int, i: int)
    requires Prunes(v, g, v', p, i)
    ensures TreeOK(v', Pruned(v, g, Dir(v, p)[i].First()))
  {
    var c := Dir(v, p)[i].First();
    var g' := Pruned(v, g, c);
    PruneHeads(v, g, v', p, i);
    RootStays(v, g, p, i);
    forall d | d in g'.depth && d != ROOT
      ensures d in g'.chains && Up(v', d) in g'.depth && g'.depth[d] == g'.depth[Up(v', d)] + 1
    {
      assert Up(v, d) in g.depth;
      FolderSurvives(v, g, p, i, d);
    }
  }

  lemma RootStays(v: Volume, g: Shape, p: int, i: int)
    requires WellFormed(v, g) && Slot(v, g, p, i)
    ensures !Under(v, g, ROOT, Dir(v, p)[i].First())
  {
    OwnedFolder(v, g, p, i);
  }

  lemma FolderSurvives(v: Volume, g: Shape, p: int, i: int, d: int)
    requires WellFormed(v, g) && Slot(v, g, p, i)
    requires d in g.depth && d != ROOT && !Under(v, g, d, Dir(v, p)[i].First())
    ensures d in g.chains && !Inside(v, g, d, Dir(v, p)[i].First())
  {
    var c := Dir(v, p)[i].First();
    assert Up(v, d) in g.depth;
    if Inside(v, g, d, c) {
      var d', j :| Owns(v, g, d', j, d) && Under(v, g, d', c);
      OwnedFolder(v, g, d', j);
    }
  }

  lemma PruneWellFormed(v: Volume, g: Shape, v': Volume, p: int, i: int)
    requires Prunes(v, g, v', p, i)
    ensures WellFormed(v', Pruned(v, g, Dir(v, p)[i].First()))
  {
    PruneChains(v, g, v', p, i);
    PruneFolders(v, g, v', p, i);
    PruneOwners(v, g, v', p, i);
    PruneTree(v, g, v', p, i);
  }
}
