/** fat32.c: delete_all. Removing a file, or a folder with everything in it. */
module TreeDelete {
  import opened DirectoryLayout
  import opened ClusterChains
  import opened DirectoryTables
  import opened Volumes
  import opened VolumePrune
  import opened TreeWalk
  import opened Requests
  import opened FileDelete

  // ---- What the operation does ----

  /** The disk with the first cluster of every node in the subtree of `c` zeroed. */
  ghost function ZeroInside(v: Volume, g: Shape, c: nat): (disk: seq<Cluster>)
    requires TreeOK(v, g)
    ensures |disk| == |v.disk|
    ensures forall x :: 0 <= x < |disk| ==> disk[x] == if Inside(v, g, x, c) then ZERO_CLUSTER else v.disk[x]
  {
    seq(|v.disk|, x requires 0 <= x < |v.disk| => if Inside(v, g, x, c) then ZERO_CLUSTER else v.disk[x])
  }

  lemma ZeroedIsErased(v: Volume, g: Shape, c: nat, disk: seq<Cluster>)
    requires TreeOK(v, g) && Zeroed(v, g, c, v.disk, disk)
    ensures disk == ZeroInside(v, g, c)
  {
  }

  /** Slot `i` of folder `p` removed, its subtree's first clusters zeroed on disk, and its own
      first cluster, only, freed in the map. */
  ghost function Razed(v: Volume, g: Shape, p: nat, i: int): Volume
    requires TreeOK(v, g) && |v.disk| >= CLUSTER_MAP_SIZE && p < |v.disk| && 2 <= i < Fill(Dir(v, p))
    requires Dir(v, p)[i].First() < CLUSTER_MAP_SIZE
  {
    var c := Dir(v, p)[i].First();
    var fat' := v.fat[c := EMPTY];
    Volume(fat', Commit(ZeroInside(v, g, c), p, Remove(Dir(v, p), i), fat'))
  }

  ghost function DeleteAll(v: Volume, g: Shape, r: Request): Outcome
    requires WellFormed(v, g) && ParentOK(v, g, r.parent) && CanRemove(v, r)
  {
    if !Dir(v, r.parent)[0].Used() then Outcome(-1, v)
    else if Target(v, r) == TABLE_SIZE then Outcome(1, v)
    else
      FoundCluster(v, g, r);
      Outcome(0, Razed(v, g, r.parent, Target(v, r)))
  }

  ghost function DeleteAllShape(v: Volume, g: Shape, r: Request): Shape
    requires TreeOK(v, g)
  {
    if Finds(v, r) then Pruned(v, g, Victim(v, r).First()) else g
  }

  lemma FoundCluster(v: Volume, g: Shape, r: Request)
    requires WellFormed(v, g) && ParentOK(v, g, r.parent) && Finds(v, r)
    ensures Slot(v, g, r.parent, Target(v, r)) && Victim(v, r).First() in g.chains
    ensures DataCluster(Victim(v, r).First())
  {
    assert SlotOK(v, g, r.parent, Dir(v, r.parent)[Target(v, r)]);
    ChainHead(v, g, Victim(v, r).First());
  }

  /** All that a recursive delete returns: -1 for a parent that is no folder, 1 exactly when no
      content slot has the name, and otherwise 0. */
  lemma DeleteAllCodes(v: Volume, g: Shape, r: Request)
    requires WellFormed(v, g) && ParentOK(v, g, r.parent) && CanRemove(v, r)
    ensures var t, o := Dir(v, r.parent), DeleteAll(v, g, r);
      && (o.code != 0 ==> o.volume == v)
      && o.code == if t[0].userAttribute != 0xAA then -1 else if NoneNamed(t, 2, r.name, r.ext) then 1 else 0
  {
    SearchIs(Dir(v, r.parent), 2, r.name, r.ext);
  }

  // ---- What it keeps ----

  /** First clusters inside a removed node belong to no chain outside it. */
  lemma InsideIsDisjoint(v: Volume, g: Shape, c: nat, k: nat, x: nat)
    requires WellFormed(v, g) && c in g.chains && k in g.chains && !Inside(v, g, k, c) && x in g.chains[k]
    ensures !Inside(v, g, x, c)
  {
    if Inside(v, g, x, c) {
      InsideIsFirst(v, g, c, x);
    }
  }

  lemma InsideIsFirst(v: Volume, g: Shape, c: nat, x: nat)
    requires WellFormed(v, g) && c in g.chains && Inside(v, g, x, c)
    ensures x in g.chains && x in g.chains[x]
  {
    if x != c {
      var d, i :| Owns(v, g, d, i, x) && Under(v, g, d, c);
      assert SlotOK(v, g, d, Dir(v, d)[i]);
    }
    ChainHead(v, g, x);
  }

  lemma RazeKeepsTable(v: Volume, g: Shape, p: nat, i: int, d: nat)
    requires WellFormed(v, g) && Slot(v, g, p, i) && p < CLUSTER_MAP_SIZE && DataCluster(Dir(v, p)[i].First())
    requires d in g.depth && d != p && !Under(v, g, d, Dir(v, p)[i].First())
    ensures Dir(Razed(v, g, p, i), d) == Dir(v, d)
  {
    var c := Dir(v, p)[i].First();
    FolderInUse(v, g, d);
    assert SlotOK(v, g, p, Dir(v, p)[i]);
    assert !Inside(v, g, d, c) by {
      if d == ROOT {
        if Inside(v, g, d, c) {
          InsideIsFirst(v, g, c, d);
          ChainHead(v, g, d);
        }
      } else {
        FolderSurvives(v, g, p, i, d);
      }
    }
  }

  lemma RazePrunes(v: Volume, g: Shape, p: nat, i: int)
    requires WellFormed(v, g) && Slot(v, g, p, i)
    ensures p < CLUSTER_MAP_SIZE && DataCluster(Dir(v, p)[i].First())
    ensures Prunes(v, g, Razed(v, g, p, i), p, i)
  {
    var c := Dir(v, p)[i].First();
    FolderInUse(v, g, p);
    assert SlotOK(v, g, p, Dir(v, p)[i]);
    ChainHead(v, g, c);
    var v' := Razed(v, g, p, i);
    forall d | d in g.depth && d != p && !Under(v, g, d, c) ensures Dir(v', d) == Dir(v, d) {
      RazeKeepsTable(v, g, p, i, d);
    }
  }

  /** A recursive delete keeps the volume well formed; one that fails changes nothing. */
  lemma DeleteAllKeepsWellFormed(v: Volume, g: Shape, r: Request)
    requires WellFormed(v, g) && ParentOK(v, g, r.parent) && CanRemove(v, r)
    ensures WellFormed(DeleteAll(v, g, r).volume, DeleteAllShape(v, g, r))
    ensures DeleteAll(v, g, r).code != 0 ==> DeleteAll(v, g, r).volume == v
    ensures DeleteAll(v, g, r).code == 0 <==> Finds(v, r)
  {
    if Finds(v, r) {
      FoundCluster(v, g, r);
      RazePrunes(v, g, r.parent, Target(v, r));
      PruneWellFormed(v, g, Razed(v, g, r.parent, Target(v, r)), r.parent, Target(v, r));
    }
  }

  /** Every chain outside the removed subtree keeps its clusters, and, unless it is the
      parent's own table, their bytes; every folder outside it but the parent keeps its table. */
  lemma DeleteAllFrame(v: Volume, g: Shape, r: Request, k: nat, x: nat)
    requires WellFormed(v, g) && ParentOK(v, g, r.parent) && Finds(v, r)
    requires k in g.chains && !Inside(v, g, k, Victim(v, r).First()) && k != r.parent && x in g.chains[k]
    ensures k in DeleteAllShape(v, g, r).chains && DeleteAllShape(v, g, r).chains[k] == g.chains[k]
    ensures x < |v.disk| && DeleteAll(v, g, r).volume.disk[x] == v.disk[x]
  {
    FoundCluster(v, g, r);
    InsideIsDisjoint(v, g, Victim(v, r).First(), k, x);
    ChainHead(v, g, k);
    ChainNotEmpty(v.fat, g.chains[k], x);
    ChainAvoidsFolder(v, g, k, x, r.parent);
  }

  /** A recursive delete takes exactly the named entry from its folder; every other folder
      outside the removed subtree keeps its table. */
  lemma DeleteAllRemovesOne(v: Volume, g: Shape, r: Request)
    requires WellFormed(v, g) && ParentOK(v, g, r.parent) && Finds(v, r)
    ensures var v', e := DeleteAll(v, g, r).volume, Victim(v, r);
      && Contents(Dir(v', r.parent)) == Contents(Dir(v, r.parent)) - multiset{e}
      && forall d {:trigger Dir(v', d)} :: d in g.depth && d != r.parent && !Under(v, g, d, e.First()) ==> Dir(v', d) == Dir(v, d)
  {
    FoundCluster(v, g, r);
    RazePrunes(v, g, r.parent, Target(v, r));
    assert FolderOK(v, r.parent);
    RemoveDeletesOne(Dir(v, r.parent), Target(v, r));
  }

  /** On disk a recursive delete zeroes exactly the first cluster of every node in the subtree;
      besides those it writes the parent's table and the map. */
  lemma DeleteAllErasesFirsts(v: Volume, g: Shape, r: Request, x: nat)
    requires WellFormed(v, g) && ParentOK(v, g, r.parent) && Finds(v, r) && x < |v.disk|
    ensures var disk', c := DeleteAll(v, g, r).volume.disk, Victim(v, r).First();
      && |disk'| == |v.disk|
      && (if Inside(v, g, x, c) then x in g.chains && disk'[x] == ZERO_CLUSTER
          else x != r.parent && x != FAT_CLUSTER ==> disk'[x] == v.disk[x])
  {
    FoundCluster(v, g, r);
    FolderInUse(v, g, r.parent);
    if Inside(v, g, x, Victim(v, r).First()) {
      InsideIsFirst(v, g, Victim(v, r).First(), x);
      ChainHead(v, g, x);
      ParentNotInside(v, g, r.parent, Target(v, r));
    }
  }

  /** In the map a recursive delete clears one word: that of the first cluster of what is removed. */
  lemma DeleteAllFreesOne(v: Volume, g: Shape, r: Request)
    requires WellFormed(v, g) && ParentOK(v, g, r.parent) && Finds(v, r)
    ensures var c := Victim(v, r).First(); 3 <= c < 512 && DeleteAll(v, g, r).volume.fat == v.fat[c := 0]
  {
    FoundCluster(v, g, r);
  }

  lemma ParentNotInside(v: Volume, g: Shape, p: int, i: int)
    requires WellFormed(v, g) && Slot(v, g, p, i)
    ensures !Inside(v, g, p, Dir(v, p)[i].First())
  {
    ParentStays(v, g, p, i);
    if p == ROOT {
      if Inside(v, g, p, Dir(v, p)[i].First()) {
        assert SlotOK(v, g, p, Dir(v, p)[i]);
        InsideIsFirst(v, g, Dir(v, p)[i].First(), p);
        ChainHead(v, g, p);
      }
    } else {
      FolderSurvives(v, g, p, i, p);
    }
  }

  // ---- What it leaks ----

  /** A cluster of a node inside the removed one, other than the removed first cluster, stays
      marked in the map but belongs to no entry any more. */
  lemma RazeLeaks(v: Volume, g: Shape, p: nat, i: int, k: nat, x: nat)
    requires WellFormed(v, g) && Slot(v, g, p, i) && p < CLUSTER_MAP_SIZE && DataCluster(Dir(v, p)[i].First())
    requires k in g.chains && Inside(v, g, k, Dir(v, p)[i].First()) && x in g.chains[k] && x != Dir(v, p)[i].First()
    ensures !NoLeak(Razed(v, g, p, i), Pruned(v, g, Dir(v, p)[i].First()))
  {
    var c := Dir(v, p)[i].First();
    ChainHead(v, g, k);
    ChainNotEmpty(v.fat, g.chains[k], x);
    OrphanLeaks(v, g, Razed(v, g, p, i), Pruned(v, g, c), k, x);
  }

  lemma OrphanLeaks(v: Volume, g: Shape, v': Volume, g': Shape, k: nat, x: nat)
    requires ChainsOK(v.fat, g.chains) && k in g.chains && x in g.chains[k] && DataCluster(x) && v'.fat[x] != EMPTY
    requires g'.chains.Keys <= g.chains.Keys && (forall b :: b in g'.chains ==> g'.chains[b] == g.chains[b])
    requires k !in g'.chains
    ensures !NoLeak(v', g')
  {
  }

  lemma RazeKeepsNoLeak(v: Volume, g: Shape, p: nat, i: int)
    requires WellFormed(v, g) && Leaf(v, g, p, i) && p < CLUSTER_MAP_SIZE && DataCluster(Dir(v, p)[i].First())
    requires NoLeak(v, g) && ChainOf(g, Dir(v, p)[i].First()) == [Dir(v, p)[i].First()]
    ensures NoLeak(Razed(v, g, p, i), Pruned(v, g, Dir(v, p)[i].First()))
  {
    PruneLeaf(v, g, p, i);
    SingleNoLeak(v, g, Dir(v, p)[i].First(), Razed(v, g, p, i));
  }

  lemma SingleNoLeak(v: Volume, g: Shape, c: nat, v': Volume)
    requires NoLeak(v, g) && DataCluster(c) && ChainOf(g, c) == [c] && v'.fat == v.fat[c := EMPTY]
    ensures NoLeak(v', Without(g, c))
  {
    forall x | DataCluster(x) && v'.fat[x] != EMPTY ensures exists k :: k in Without(g, c).chains && x in Without(g, c).chains[k] {
      var k :| k in g.chains && x in g.chains[k];
      assert k in Without(g, c).chains && x in Without(g, c).chains[k];
    }
  }

  /** A recursive delete that succeeds leaks nothing if and only if what it removes is a file of
      one cluster or an empty folder: only one map word is ever freed. */
  lemma DeleteAllLeaksUnlessSmall(v: Volume, g: Shape, r: Request)
    requires WellFormed(v, g) && ParentOK(v, g, r.parent) && Finds(v, r) && NoLeak(v, g)
    ensures NoLeak(DeleteAll(v, g, r).volume, DeleteAllShape(v, g, r)) <==>
            if Victim(v, r).IsFolder() then NoContents(Dir(v, Victim(v, r).First()))
            else Victim(v, r).filesize <= CLUSTER_SIZE
  {
    FoundCluster(v, g, r);
    var p, i, c := r.parent, Target(v, r), Victim(v, r).First();
    FolderInUse(v, g, p);
    assert SlotOK(v, g, p, Dir(v, p)[i]);
    ChainHead(v, g, c);
    if Victim(v, r).IsFolder() {
      if NoContents(Dir(v, c)) {
        RazeKeepsNoLeak(v, g, p, i);
      } else {
        FullFolderLeaks(v, g, p, i);
      }
    } else if Victim(v, r).filesize <= CLUSTER_SIZE {
      assert ChainOf(g, c) == [c];
      RazeKeepsNoLeak(v, g, p, i);
    } else {
      assert g.chains[c][1] != g.chains[c][0];
      RazeLeaks(v, g, p, i, c, g.chains[c][1]);
    }
  }

  lemma FullFolderLeaks(v: Volume, g: Shape, p: nat, i: int)
    requires WellFormed(v, g) && Slot(v, g, p, i) && p < CLUSTER_MAP_SIZE && DataCluster(Dir(v, p)[i].First())
    requires Dir(v, p)[i].First() in g.depth && !NoContents(Dir(v, Dir(v, p)[i].First()))
    ensures !NoLeak(Razed(v, g, p, i), Pruned(v, g, Dir(v, p)[i].First()))
  {
    var c := Dir(v, p)[i].First();
    var j :| 2 <= j < TABLE_SIZE && Dir(v, c)[j].Used();
    assert FolderOK(v, c);
    var k := Dir(v, c)[j].First();
    assert SlotOK(v, g, c, Dir(v, c)[j]);
    assert Owns(v, g, c, j, k) && Owns(v, g, p, i, c);
    ParentStays(v, g, p, i);
    ChainHead(v, g, k);
    RazeLeaks(v, g, p, i, k, k);
  }
}
