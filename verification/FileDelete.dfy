/** fat32.c: delete. Removing a file or an empty folder. */
module FileDelete {
  import opened DirectoryLayout
  import opened ClusterChains
  import opened DirectoryTables
  import opened Volumes
  import opened VolumePrune
  import opened VolumeGrow
  import opened Requests
  import opened FileWrite

  // ---- What the operation does ----

  /** The slot a request names in its parent folder; TABLE_SIZE when there is none. */
  ghost function Target(v: Volume, r: Request): (i: nat)
    ensures 2 <= i <= TABLE_SIZE
  {
    Find(Dir(v, r.parent), 2, r.name, r.ext)
  }

  ghost predicate NoContents(t: Table) {
    forall j :: 2 <= j < TABLE_SIZE ==> !t[j].Used()
  }

  ghost predicate Removable(v: Volume, e: Entry) {
    e.IsFolder() ==> NoContents(Dir(v, e.First()))
  }

  /** What the removing operations ask of their caller: the request does not name a zeroed
      slot, and a table something is removed from is not full. */
  ghost predicate CanRemove(v: Volume, r: Request) {
    var t := Dir(v, r.parent);
    t[0].Used() && Target(v, r) < TABLE_SIZE ==> Target(v, r) < Fill(t) < TABLE_SIZE
  }

  ghost predicate Finds(v: Volume, r: Request) {
    CanRemove(v, r) && Dir(v, r.parent)[0].Used() && Target(v, r) < TABLE_SIZE
  }

  /** The entry a request names. */
  ghost function Victim(v: Volume, r: Request): Entry
    requires Finds(v, r)
  {
    Dir(v, r.parent)[Target(v, r)]
  }

  /** The disk with every cluster of `s` zeroed. */
  function ZeroAll(disk: seq<Cluster>, s: seq<nat>): (disk': seq<Cluster>)
    ensures |disk'| == |disk|
    ensures forall x :: 0 <= x < |disk| ==> disk'[x] == if x in s then ZERO_CLUSTER else disk[x]
  {
    seq(|disk|, x requires 0 <= x < |disk| => if x in s then ZERO_CLUSTER else disk[x])
  }

  /** One turn of the freeing loop. */
  lemma FreeStep(fat: FatMap, disk: seq<Cluster>, s: seq<nat>, k: nat)
    requires IsChain(fat, s) && k < |s| && |disk| >= CLUSTER_MAP_SIZE
    ensures DataCluster(s[k])
    ensures Unlink(fat, s[..k])[s[k]] == if k + 1 < |s| then s[k + 1] else END_OF_FILE
    ensures Unlink(fat, s[..k + 1]) == Unlink(fat, s[..k])[s[k] := EMPTY]
    ensures ZeroAll(disk, s[..k + 1]) == ZeroAll(disk, s[..k])[s[k] := ZERO_CLUSTER]
  {
  }

  /** Slot `i` of folder `p` removed, and the chain `s` of its entry zeroed on disk and freed. */
  ghost function Deleted(v: Volume, p: nat, i: int, s: seq<nat>): Volume
    requires |v.disk| >= CLUSTER_MAP_SIZE && p < |v.disk| && 2 <= i < Fill(Dir(v, p))
  {
    Volume(Unlink(v.fat, s), Commit(ZeroAll(v.disk, s), p, Remove(Dir(v, p), i), Unlink(v.fat, s)))
  }

  ghost function ChainOf(g: Shape, c: nat): seq<nat> {
    if c in g.chains then g.chains[c] else []
  }

  ghost predicate Deletes(v: Volume, r: Request) {
    Finds(v, r) && Removable(v, Victim(v, r))
  }

  ghost function Delete(v: Volume, g: Shape, r: Request): Outcome
    requires |v.disk| >= CLUSTER_MAP_SIZE && r.parent < |v.disk| && CanRemove(v, r)
  {
    if !Dir(v, r.parent)[0].Used() then Outcome(-1, v)
    else if Target(v, r) == TABLE_SIZE then Outcome(1, v)
    else if !Removable(v, Victim(v, r)) then Outcome(2, v)
    else Outcome(0, Deleted(v, r.parent, Target(v, r), ChainOf(g, Victim(v, r).First())))
  }

  /** All that a delete returns: -1 for a parent that is no folder, 1 exactly when no content slot
      has the name, and otherwise, for the first that has it, 2 when it is a folder with some
      content slot in use, else 0. */
  lemma DeleteCodes(v: Volume, g: Shape, r: Request)
    requires |v.disk| >= CLUSTER_MAP_SIZE && r.parent < |v.disk| && CanRemove(v, r)
    ensures var t, o := Dir(v, r.parent), Delete(v, g, r);
      && (o.code != 0 ==> o.volume == v)
      && if t[0].userAttribute != 0xAA then o.code == -1
         else if NoneNamed(t, 2, r.name, r.ext) then o.code == 1
         else forall i :: FirstNamed(t, 2, i, r.name, r.ext) ==>
           o.code == if t[i].attribute == 0x10 && HasContent(Dir(v, t[i].First())) then 2 else 0
  {
    SearchIs(Dir(v, r.parent), 2, r.name, r.ext);
  }

  ghost predicate HasContent(t: Table) {
    exists j :: 2 <= j < TABLE_SIZE && t[j].userAttribute == 0xAA
  }

  /** One chain and, for a folder, one folder disappear. */
  ghost function Without(g: Shape, c: nat): Shape {
    Shape(g.chains - {c}, g.depth - {c})
  }

  lemma WithoutKeeps(g: Shape, c: nat, k: nat)
    requires k in g.chains && k != c
    ensures k in Without(g, c).chains && Without(g, c).chains[k] == g.chains[k]
  {
  }

  ghost function DeleteShape(v: Volume, g: Shape, r: Request): Shape {
    if Deletes(v, r) then Without(g, Victim(v, r).First()) else g
  }

  // ---- What it keeps ----

  /** Nothing lies inside a file or an empty folder but itself. */
  lemma {:induction false} NothingUnder(v: Volume, g: Shape, c: int, d: int)
    requires WellFormed(v, g) && d in g.depth && Under(v, g, d, c)
    requires c in g.depth ==> NoContents(Dir(v, c))
    ensures d == c
    decreases g.depth[d]
  {
    if d != c {
      assert Up(v, d) in g.depth;
      NothingUnder(v, g, c, Up(v, d));
      assert Owned(v, g, d);
      var p, i :| Owns(v, g, p, i, d);
      OwnedFolder(v, g, p, i);
    }
  }

  lemma NothingInside(v: Volume, g: Shape, c: int, k: int)
    requires WellFormed(v, g) && Inside(v, g, k, c)
    requires c in g.depth ==> NoContents(Dir(v, c))
    ensures k == c
  {
    if k != c {
      var d, i :| Owns(v, g, d, i, k) && Under(v, g, d, c);
      NothingUnder(v, g, c, d);
    }
  }

  /** Slot `i` of folder `p` holds a file or an empty folder. */
  ghost predicate Leaf(v: Volume, g: Shape, p: int, i: int) {
    Slot(v, g, p, i) && Removable(v, Dir(v, p)[i])
  }

  lemma PruneLeaf(v: Volume, g: Shape, p: int, i: int)
    requires WellFormed(v, g) && Leaf(v, g, p, i)
    ensures Pruned(v, g, Dir(v, p)[i].First()) == Without(g, Dir(v, p)[i].First())
  {
    var c := Dir(v, p)[i].First();
    assert SlotOK(v, g, p, Dir(v, p)[i]);
    forall k | k in g.chains && Inside(v, g, k, c) ensures k == c { NothingInside(v, g, c, k); }
    forall d | d in g.depth && Under(v, g, d, c) ensures d == c { NothingUnder(v, g, c, d); }
    PrunedIsWithout(v, g, c);
  }

  lemma PrunedIsWithout(v: Volume, g: Shape, c: nat)
    requires TreeOK(v, g)
    requires forall k {:trigger Inside(v, g, k, c)} :: k in g.chains && Inside(v, g, k, c) ==> k == c
    requires forall d {:trigger Under(v, g, d, c)} :: d in g.depth && Under(v, g, d, c) ==> d == c
    ensures Pruned(v, g, c) == Without(g, c)
  {
  }

  /** A folder other than the parent and the removed one keeps its table. */
  lemma DeleteKeepsTable(v: Volume, g: Shape, p: int, i: int, d: int)
    requires WellFormed(v, g) && Slot(v, g, p, i) && 0 <= p < |v.disk|
    requires d in g.depth && d != p && d != Dir(v, p)[i].First()
    ensures Dir(Deleted(v, p, i, ChainOf(g, Dir(v, p)[i].First())), d) == Dir(v, d)
  {
    var c := Dir(v, p)[i].First();
    assert SlotOK(v, g, p, Dir(v, p)[i]);
    FolderInUse(v, g, d);
    assert d !in g.chains[c] by {
      if d in g.chains[c] { ChainAvoidsFolder(v, g, c, d, d); }
    }
  }

  lemma DeleteHeader(v: Volume, g: Shape, p: nat, i: int, c: nat)
    requires HeaderOK(v) && c in g.chains && IsChain(v.fat, g.chains[c]) && 2 <= p < |v.disk| && 2 <= i < Fill(Dir(v, p))
    ensures HeaderOK(Deleted(v, p, i, ChainOf(g, c)))
  {
    UnlinkKeepsReserved(v.fat, g.chains[c]);
  }

  lemma UnlinkKeepsReserved(fat: FatMap, s: seq<nat>)
    requires DataClusters(s)
    ensures Unlink(fat, s)[0] == fat[0] && Unlink(fat, s)[1] == fat[1] && Unlink(fat, s)[ROOT] == fat[ROOT]
  {
  }

  lemma DeleteKeepsMap(v: Volume, g: Shape, c: nat, k: nat, x: int)
    requires ChainsOK(v.fat, g.chains) && c in g.chains && k in g.chains && k != c && x in g.chains[k] && 0 <= x < CLUSTER_MAP_SIZE
    ensures Unlink(v.fat, ChainOf(g, c))[x] == v.fat[x]
  {
  }

  lemma DeletePrunes(v: Volume, g: Shape, p: nat, i: int)
    requires WellFormed(v, g) && Leaf(v, g, p, i)
    ensures p < CLUSTER_MAP_SIZE && Prunes(v, g, Deleted(v, p, i, ChainOf(g, Dir(v, p)[i].First())), p, i)
  {
    FolderInUse(v, g, p);
    var c := Dir(v, p)[i].First();
    var v' := Deleted(v, p, i, ChainOf(g, c));
    assert SlotOK(v, g, p, Dir(v, p)[i]);
    ChainHead(v, g, c);
    DeleteHeader(v, g, p, i, c);
    forall k, x | k in g.chains && !Inside(v, g, k, c) && x in g.chains[k] && 0 <= x < CLUSTER_MAP_SIZE ensures v'.fat[x] == v.fat[x] {
      DeleteKeepsMap(v, g, c, k, x);
    }
    forall d | d in g.depth && d != p && !Under(v, g, d, c) ensures Dir(v', d) == Dir(v, d) {
      DeleteKeepsTable(v, g, p, i, d);
    }
  }

  /** A delete keeps the volume well formed; one that fails changes nothing. */
  lemma DeleteKeepsWellFormed(v: Volume, g: Shape, r: Request)
    requires WellFormed(v, g) && ParentOK(v, g, r.parent) && CanRemove(v, r)
    ensures WellFormed(Delete(v, g, r).volume, DeleteShape(v, g, r))
    ensures Delete(v, g, r).code != 0 ==> Delete(v, g, r).volume == v
    ensures Delete(v, g, r).code == 0 <==> Deletes(v, r)
  {
    if Deletes(v, r) {
      DeletePrunes(v, g, r.parent, Target(v, r));
      PruneWellFormed(v, g, Delete(v, g, r).volume, r.parent, Target(v, r));
      PruneLeaf(v, g, r.parent, Target(v, r));
    }
  }

  /** A delete takes exactly the named entry from its folder; every other folder that is left
      keeps its table. */
  lemma DeleteRemovesOne(v: Volume, g: Shape, r: Request)
    requires WellFormed(v, g) && ParentOK(v, g, r.parent) && Deletes(v, r)
    ensures var v', e := Delete(v, g, r).volume, Victim(v, r);
      && e.Named(r.name, r.ext) && e in Contents(Dir(v, r.parent))
      && Contents(Dir(v', r.parent)) == Contents(Dir(v, r.parent)) - multiset{e}
      && forall d {:trigger Dir(v', d)} :: d in g.depth && d != r.parent && d != e.First() ==> Dir(v', d) == Dir(v, d)
  {
    var p, i := r.parent, Target(v, r);
    DeletePrunes(v, g, p, i);
    assert FolderOK(v, p);
    RemoveDeletesOne(Dir(v, p), i);
    SlotIsContent(Dir(v, p), i);
    DeleteKeepsTables(v, g, p, i);
  }

  lemma DeleteKeepsTables(v: Volume, g: Shape, p: nat, i: int)
    requires WellFormed(v, g) && Slot(v, g, p, i) && p < |v.disk|
    ensures var v' := Deleted(v, p, i, ChainOf(g, Dir(v, p)[i].First()));
      forall d {:trigger Dir(v', d)} :: d in g.depth && d != p && d != Dir(v, p)[i].First() ==> Dir(v', d) == Dir(v, d)
  {
    var v' := Deleted(v, p, i, ChainOf(g, Dir(v, p)[i].First()));
    forall d | d in g.depth && d != p && d != Dir(v, p)[i].First() ensures Dir(v', d) == Dir(v, d) {
      DeleteKeepsTable(v, g, p, i, d);
    }
  }

  lemma SlotIsContent(t: Table, i: int)
    requires 2 <= i < Fill(t)
    ensures t[i] in Contents(t)
  {
    assert t[2..Fill(t)][i - 2] == t[i];
  }

  /** A delete frees exactly the chain of what it removes, so nothing leaks. */
  lemma DeleteKeepsNoLeak(v: Volume, g: Shape, r: Request)
    requires WellFormed(v, g) && ParentOK(v, g, r.parent) && Deletes(v, r)
    ensures var s, v' := ChainOf(g, Victim(v, r).First()), Delete(v, g, r).volume;
      && s != []
      && FreeSet(v'.fat) == FreeSet(v.fat) + (set x | x in s)
      && |FreeSet(v'.fat)| == |FreeSet(v.fat)| + |s|
    ensures NoLeak(v, g) ==> NoLeak(Delete(v, g, r).volume, DeleteShape(v, g, r))
  {
    var c := Victim(v, r).First();
    assert SlotOK(v, g, r.parent, Dir(v, r.parent)[Target(v, r)]);
    ChainHead(v, g, c);
    UnlinkFreesChain(v.fat, g.chains[c]);
    FreeListFacts(v.fat);
    FreeListFacts(Unlink(v.fat, g.chains[c]));
    if NoLeak(v, g) {
      UnlinkNoLeak(v, g, c, Delete(v, g, r).volume);
    }
  }

  lemma UnlinkNoLeak(v: Volume, g: Shape, c: nat, v': Volume)
    requires NoLeak(v, g) && c in g.chains && v'.fat == Unlink(v.fat, g.chains[c])
    ensures NoLeak(v', Without(g, c))
  {
    forall x | DataCluster(x) && v'.fat[x] != EMPTY ensures exists k :: k in Without(g, c).chains && x in Without(g, c).chains[k] {
      var k :| k in g.chains && x in g.chains[k];
      assert k in Without(g, c).chains && x in Without(g, c).chains[k];
    }
  }

  lemma DeleteKeepsCluster(v: Volume, g: Shape, p: nat, i: int, k: nat, x: nat)
    requires WellFormed(v, g) && Slot(v, g, p, i) && p < |v.disk|
    requires k in g.chains && k !in g.depth && k != Dir(v, p)[i].First() && x in g.chains[k]
    ensures x < |v.disk| && Deleted(v, p, i, ChainOf(g, Dir(v, p)[i].First())).disk[x] == v.disk[x]
  {
    ChainHead(v, g, k);
    ChainNotEmpty(v.fat, g.chains[k], x);
    ChainAvoidsFolder(v, g, k, x, p);
  }

  /** Every other file keeps its chain and the bytes of every cluster of it. */
  lemma DeleteKeepsFiles(v: Volume, g: Shape, r: Request, k: nat, x: nat)
    requires WellFormed(v, g) && ParentOK(v, g, r.parent) && Deletes(v, r)
    requires k in g.chains && k !in g.depth && k != Victim(v, r).First() && x in g.chains[k]
    ensures k in DeleteShape(v, g, r).chains && DeleteShape(v, g, r).chains[k] == g.chains[k]
    ensures x < |v.disk| && Delete(v, g, r).volume.disk[x] == v.disk[x]
  {
    var p, i := r.parent, Target(v, r);
    assert Slot(v, g, p, i);
    DeleteKeepsCluster(v, g, p, i, k, x);
    assert Delete(v, g, r).volume == Deleted(v, p, i, ChainOf(g, Dir(v, p)[i].First()));
    WithoutKeeps(g, Victim(v, r).First(), k);
  }

  /** What a delete does to a cluster and its map word: of what is removed, zeroed and freed; of
      anything but the parent and the map, left alone. */
  lemma DeleteErases(v: Volume, g: Shape, r: Request, x: nat)
    requires WellFormed(v, g) && ParentOK(v, g, r.parent) && Deletes(v, r) && x < CLUSTER_MAP_SIZE
    ensures var o, s := Delete(v, g, r).volume, ChainOf(g, Victim(v, r).First());
      && o.fat[x] == (if x in s then 0 else v.fat[x])
      && |o.disk| == |v.disk|
      && if x in s then o.disk[x] == ZERO_CLUSTER else x != r.parent && x != 1 ==> o.disk[x] == v.disk[x]
  {
    var c := Victim(v, r).First();
    assert SlotOK(v, g, r.parent, Dir(v, r.parent)[Target(v, r)]);
    ChainHead(v, g, c);
    if x in g.chains[c] {
      ChainNotEmpty(v.fat, g.chains[c], x);
      DeletedParentStays(v, g, r);
      ChainAvoidsFolder(v, g, c, x, r.parent);
    }
    var s := g.chains[c];
    if x != r.parent && x != FAT_CLUSTER {
      CommitZeroed(v.disk, s, r.parent, Remove(Dir(v, r.parent), Target(v, r)), Unlink(v.fat, s), x);
    }
    UnlinkAt(v.fat, s, x);
  }

  lemma CommitZeroed(disk: seq<Cluster>, s: seq<nat>, p: nat, t: Table, fat: FatMap, x: nat)
    requires |disk| >= CLUSTER_MAP_SIZE && p < |disk| && x < CLUSTER_MAP_SIZE && x != p && x != FAT_CLUSTER
    ensures Commit(ZeroAll(disk, s), p, t, fat)[x] == ZeroAll(disk, s)[x]
  {
  }

  lemma UnlinkAt(fat: FatMap, s: seq<nat>, x: nat)
    requires x < CLUSTER_MAP_SIZE
    ensures Unlink(fat, s)[x] == if x in s then 0 else fat[x]
  {
  }

  lemma DeletedParentStays(v: Volume, g: Shape, r: Request)
    requires WellFormed(v, g) && ParentOK(v, g, r.parent) && Deletes(v, r)
    ensures r.parent in g.depth && Victim(v, r).First() != r.parent
  {
    assert Slot(v, g, r.parent, Target(v, r));
    ParentStays(v, g, r.parent, Target(v, r));
  }

  // ---- Delete undoes write ----

  lemma FreshHasNoContents(v: Volume, c: int, p: int, name: Name)
    requires FreshFolder(v, c, p, name)
    ensures NoContents(Dir(v, c))
  {
  }

  lemma WrittenIsFound(v: Volume, g: Shape, r: Request)
    requires WellFormed(v, g) && ParentOK(v, g, r.parent) && Accepts(v, r)
    requires Fill(Dir(v, r.parent)) + 1 < TABLE_SIZE
    ensures var v1 := Written(v, r);
      && Finds(v1, r) && Victim(v1, r) == Added(v, r)
      && Remove(Dir(v1, r.parent), Target(v1, r)) == Dir(v, r.parent)
  {
    assert Dir(Written(v, r), r.parent) == Append(Dir(v, r.parent), Added(v, r)) by {
      FolderInUse(v, g, r.parent);
    }
    assert FolderOK(v, r.parent);
    RemoveAppend(Dir(v, r.parent), Added(v, r));
  }

  lemma WrittenIsRemovable(v: Volume, g: Shape, r: Request)
    requires WellFormed(v, g) && ParentOK(v, g, r.parent) && Accepts(v, r)
    ensures Removable(Written(v, r), Added(v, r))
  {
    if r.size == 0 {
      FolderInUse(v, g, r.parent);
      WriteStoresFolder(v, r);
      FreshHasNoContents(Written(v, r), Added(v, r).First(), r.parent, r.name);
    }
  }

  lemma WrittenShape(v: Volume, g: Shape, r: Request)
    requires WellFormed(v, g) && ParentOK(v, g, r.parent) && Accepts(v, r)
    ensures var g1, c := WriteShape(v, g, r), Added(v, r).First();
      ChainOf(g1, c) == Allocated(v, r) && Without(g1, c) == g
  {
    WriteGrows(v, g, r);
    GrowIsFresh(v, g, Written(v, r), r.parent, Added(v, r), Allocated(v, r));
    GrownWithout(g, r.parent, Added(v, r), Allocated(v, r));
  }

  lemma GrownWithout(g: Shape, p: nat, e: Entry, s: seq<nat>)
    requires p in g.depth && e.First() !in g.chains && e.First() !in g.depth
    ensures ChainOf(Grown(g, p, e, s), e.First()) == s && Without(Grown(g, p, e, s), e.First()) == g
  {
  }

  /** Removing from `v1` what the table lost to get there, and freeing the chain the map gained. */
  lemma DeletedRestores(v: Volume, v1: Volume, p: nat, i: int, s: seq<nat>)
    requires |v1.disk| == |v.disk| >= CLUSTER_MAP_SIZE && 2 <= p < |v.disk| && 2 <= i < Fill(Dir(v1, p))
    requires Unlink(v1.fat, s) == v.fat && Remove(Dir(v1, p), i) == Dir(v, p)
    requires v.disk[FAT_CLUSTER] == EncodeFat(v.fat)
    ensures var w := Deleted(v1, p, i, s);
      w.fat == v.fat && w.disk[p] == v.disk[p] && w.disk[FAT_CLUSTER] == v.disk[FAT_CLUSTER]
  {
  }

  /** After a write that succeeds, and leaves its folder a free slot, deleting the same name
      succeeds and gives back the old map and the old folder table, byte for byte. */
  lemma DeleteUndoesWrite(v: Volume, g: Shape, r: Request)
    requires WellFormed(v, g) && ParentOK(v, g, r.parent) && Accepts(v, r)
    requires Fill(Dir(v, r.parent)) + 1 < TABLE_SIZE
    ensures CanRemove(Write(v, r).volume, r)
    ensures var o := Delete(Write(v, r).volume, WriteShape(v, g, r), r);
      && o.code == 0
      && o.volume.fat == v.fat
      && o.volume.disk[r.parent] == v.disk[r.parent]
      && o.volume.disk[FAT_CLUSTER] == v.disk[FAT_CLUSTER]
    ensures DeleteShape(Write(v, r).volume, WriteShape(v, g, r), r) == g
  {
    WrittenIsFound(v, g, r);
    WrittenIsRemovable(v, g, r);
    WrittenShape(v, g, r);
    LinkTakesFree(v.fat, ClustersNeeded(r.size));
    UnlinkLink(v.fat, Allocated(v, r));
    FolderInUse(v, g, r.parent);
    var v1 := Written(v, r);
    DeletedRestores(v, v1, r.parent, Target(v1, r), Allocated(v, r));
  }
}
