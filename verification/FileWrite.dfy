/** fat32.c: write. Creating a file or an empty folder. */
module FileWrite {
  import opened Words
  import opened DirectoryLayout
  import opened ClusterChains
  import opened DirectoryTables
  import opened Volumes
  import opened VolumeGrow
  import opened Requests

  // ---- What the operation does ----

  const DOT_DOT: Name := ['.' as int, '.' as int, 0, 0, 0, 0, 0, 0]

  function NewEntry(name: Name, ext: Extension, first: uint32, size: uint32): Entry {
    ZERO_ENTRY.(name := name, ext := ext, attribute := if size == 0 then ATTR_SUBDIRECTORY else 0,
                userAttribute := UATTR_NOT_EMPTY, filesize := size).At(first)
  }

  /** A new folder's table while only entry 0 is set; `self` is the cluster entry 0 names. */
  function SelfTable(name: Name, self: uint32): Table {
    var t: Table := seq(TABLE_SIZE, _ => ZERO_ENTRY);
    t[0 := NewEntry(name, ZERO_EXT, self, 0)]
  }

  function FolderTable(name: Name, self: uint32, parent: uint32): Table {
    SelfTable(name, self)[1 := NewEntry(DOT_DOT, ZERO_EXT, parent, 0)]
  }

  /** The `j`-th cluster-sized piece of the caller's memory. */
  function Chunk(mem: seq<byte>, j: nat): Cluster
    requires (j + 1) * CLUSTER_SIZE <= |mem|
  {
    mem[j * CLUSTER_SIZE..(j + 1) * CLUSTER_SIZE]
  }

  /** The disk with piece `j` of `mem` written to cluster `s[j]`, for every j. */
  function StoreChunks(disk: seq<Cluster>, s: seq<nat>, mem: seq<byte>): (disk': seq<Cluster>)
    requires |disk| >= CLUSTER_MAP_SIZE && DataClusters(s) && Distinct(s) && |s| * CLUSTER_SIZE <= |mem|
    ensures |disk'| == |disk|
    ensures forall j :: 0 <= j < |s| ==> disk'[s[j]] == Chunk(mem, j)
    ensures forall x :: 0 <= x < |disk| && x !in s ==> disk'[x] == disk[x]
  {
    if s == [] then disk
    else
      var n := |s| - 1;
      var r := StoreChunks(disk, s[..n], mem);
      assert forall j :: 0 <= j < n ==> s[..n][j] == s[j];
      r[s[n] := Chunk(mem, n)]
  }

  /** The clusters the new file or folder will occupy: the lowest-numbered free ones. */
  function Allocated(v: Volume, r: Request): seq<nat>
    requires ClustersNeeded(r.size) <= |FreeList(v.fat)|
  {
    FreeList(v.fat)[..ClustersNeeded(r.size)]
  }

  /** What write asks of its caller: memory up to the last cluster it copies, and, if it gets
      as far as allocating, a free slot and either no free cluster at all or enough of them
      (one more than its own for a folder). */
  ghost predicate CanWrite(v: Volume, r: Request) {
    && |v.disk| >= CLUSTER_MAP_SIZE && r.parent < |v.disk|
    && var t := Dir(v, r.parent);
    && (t[0].Used() && !Holds(t, r.name, r.ext) && FreeList(v.fat) != [] ==>
          && Fill(t) < TABLE_SIZE
          && ClustersNeeded(r.size) + (if r.size == 0 then 1 else 0) <= |FreeList(v.fat)|
          && (r.size > 0 ==> ClustersNeeded(r.size) * CLUSTER_SIZE <= |r.mem|))
  }

  ghost predicate Accepts(v: Volume, r: Request) {
    CanWrite(v, r) && Dir(v, r.parent)[0].Used() && !Holds(Dir(v, r.parent), r.name, r.ext) && FreeList(v.fat) != []
  }

  ghost function Added(v: Volume, r: Request): (e: Entry)
    requires Accepts(v, r)
    ensures e.First() == Allocated(v, r)[0] && DataCluster(e.First()) && e.Used() && e.Named(r.name, r.ext)
  {
    FreeListFacts(v.fat);
    NewEntry(r.name, r.ext, Allocated(v, r)[0], r.size)
  }

  /** The disk with the new file's data, or the new folder's table, in place. */
  ghost function Stored(v: Volume, r: Request): (disk: seq<Cluster>)
    requires Accepts(v, r)
    ensures |disk| == |v.disk|
  {
    var free := FreeList(v.fat);
    LinkTakesFree(v.fat, ClustersNeeded(r.size));
    FreeListFacts(v.fat);
    if r.size == 0 then
      v.disk[free[1] := TableImage(SelfTable(r.name, free[1]))]
            [free[0] := TableImage(FolderTable(r.name, free[1], r.parent))]
    else
      StoreChunks(v.disk, Allocated(v, r), r.mem)
  }

  ghost function Linked(v: Volume, r: Request): FatMap
    requires Accepts(v, r)
  {
    LinkTakesFree(v.fat, ClustersNeeded(r.size));
    Link(v.fat, Allocated(v, r))
  }

  ghost function Written(v: Volume, r: Request): (v': Volume)
    requires Accepts(v, r)
  {
    Volume(Linked(v, r), Commit(Stored(v, r), r.parent, Append(Dir(v, r.parent), Added(v, r)), Linked(v, r)))
  }

  ghost function Write(v: Volume, r: Request): Outcome
    requires CanWrite(v, r)
  {
    if !Dir(v, r.parent)[0].Used() then Outcome(2, v)
    else if Holds(Dir(v, r.parent), r.name, r.ext) then Outcome(1, v)
    else if FreeList(v.fat) == [] then Outcome(-1, v)
    else Outcome(0, Written(v, r))
  }

  /** All that a write returns: 2 for a parent that is no folder, 1 when the parent lists the name,
      -1 when no map word from the third on is zero, and otherwise 0. */
  lemma WriteCodes(v: Volume, r: Request)
    requires CanWrite(v, r)
    ensures var t, o := Dir(v, r.parent), Write(v, r);
      && (o.code != 0 ==> o.volume == v)
      && o.code == if t[0].userAttribute != 0xAA then 2
                   else if exists i :: Lists(t, i, r.name, r.ext) then 1
                   else if forall x :: 3 <= x < 512 ==> v.fat[x] != 0 then -1
                   else 0
  {
    ScansAre(Dir(v, r.parent), r.name, r.ext);
    FreeListFacts(v.fat);
  }

  ghost function WriteShape(v: Volume, g: Shape, r: Request): Shape
    requires CanWrite(v, r)
  {
    if Accepts(v, r) && r.parent in g.depth then Grown(g, r.parent, Added(v, r), Allocated(v, r)) else g
  }

  // ---- What it keeps ----

  /** Write allocates the lowest-numbered free clusters, exactly as many as the data needs,
      as one strictly ascending chain, and leaves exactly the rest of the free list. */
  lemma WriteTakesLowestFree(v: Volume, r: Request)
    requires Accepts(v, r)
    ensures var s, k, v' := Allocated(v, r), ClustersNeeded(r.size), Write(v, r).volume;
      && |s| == k && Ascending(s) && IsChain(v'.fat, s)
      && (forall x: nat, y: nat :: x in s && y in FreeSet(v.fat) && y !in s ==> x < y)
      && FreeList(v'.fat) == FreeList(v.fat)[k..]
      && |FreeSet(v'.fat)| == |FreeSet(v.fat)| - k
      && (forall x :: 0 <= x < CLUSTER_MAP_SIZE && x !in s ==> v'.fat[x] == v.fat[x])
  {
    var k := ClustersNeeded(r.size);
    LinkTakesFree(v.fat, k);
    FreeListFacts(v.fat);
    FreeListFacts(Linked(v, r));
    forall x: nat, y: nat | x in Allocated(v, r) && y in FreeSet(v.fat) && y !in Allocated(v, r) ensures x < y {
      PrefixIsLowest(v.fat, k, x, y);
    }
  }

  /** The words of the chain a write links, the last one end-of-file. */
  lemma WriteLinks(v: Volume, r: Request, i: nat)
    requires Accepts(v, r) && i < |Allocated(v, r)|
    ensures var s := Allocated(v, r);
      && 3 <= s[i] < 512 && v.fat[s[i]] == 0
      && Write(v, r).volume.fat[s[i]] == if i + 1 < |s| then s[i + 1] else 0x0FFF_FFFF
  {
    LinkTakesFree(v.fat, ClustersNeeded(r.size));
    assert Allocated(v, r)[i] in Allocated(v, r);
  }

  /** Write touches no cluster in use except the parent folder's table and the map's own. */
  lemma WriteFrame(v: Volume, g: Shape, r: Request, x: int)
    requires Accepts(v, r)
    requires 0 <= x < CLUSTER_MAP_SIZE && (x < FIRST_DATA_CLUSTER || v.fat[x] != EMPTY) && x != r.parent && x != FAT_CLUSTER
    ensures Written(v, r).disk[x] == v.disk[x]
  {
    StoredFrame(v, r, x);
  }

  lemma StoredFrame(v: Volume, r: Request, x: int)
    requires Accepts(v, r)
    requires 0 <= x < |v.disk| && (DataCluster(x) ==> v.fat[x] != EMPTY)
    ensures Stored(v, r)[x] == v.disk[x]
  {
    LinkTakesFree(v.fat, ClustersNeeded(r.size));
    FreeListFacts(v.fat);
    if r.size == 0 {
      assert FreeList(v.fat)[0] in FreeList(v.fat) && FreeList(v.fat)[1] in FreeList(v.fat);
    } else {
      assert x !in Allocated(v, r);
    }
  }

  lemma NewFolderTable(name: Name, self: uint32, parent: uint32)
    ensures var t := FolderTable(name, self, parent);
      Packed(t) && Fill(t) == 2 && NamesParent(t[1]) && t[0].Named(name, ZERO_EXT) && t[1].First() == parent
  {
  }

  lemma WriteStoresFolder(v: Volume, r: Request)
    requires Accepts(v, r) && r.size == 0
    requires r.parent < CLUSTER_MAP_SIZE && v.fat[r.parent] != EMPTY
    ensures Allocated(v, r) == [Added(v, r).First()]
    ensures FreshFolder(Written(v, r), Added(v, r).First(), r.parent, r.name)
  {
    StoredFolderTable(v, r);
    NewFolderTable(r.name, FreeList(v.fat)[1], r.parent);
  }

  lemma StoredFolderTable(v: Volume, r: Request)
    requires Accepts(v, r) && r.size == 0
    requires r.parent < CLUSTER_MAP_SIZE && v.fat[r.parent] != EMPTY
    ensures var free := FreeList(v.fat);
      && |free| >= 2 && Dir(Written(v, r), free[0]) == FolderTable(r.name, free[1], r.parent)
      && Dir(Written(v, r), free[1]) == SelfTable(r.name, free[1])
  {
    FreeListFacts(v.fat);
    assert FreeList(v.fat)[0] in FreeList(v.fat) && FreeList(v.fat)[1] in FreeList(v.fat);
  }

  /** The two clusters a new folder is written to. Its own table names itself and its parent, but
      entry 0 takes the next free cluster for the folder's; the table as it stood before entry 1
      was set is left in that cluster. */
  lemma WriteFolderTables(v: Volume, g: Shape, r: Request)
    requires WellFormed(v, g) && ParentOK(v, g, r.parent) && Accepts(v, r) && r.size == 0
    ensures |FreeList(v.fat)| >= 2
    ensures var v', free := Write(v, r).volume, FreeList(v.fat);
      var t, u := Dir(v', free[0]), Dir(v', free[1]);
      && t[0].Named(r.name, [0, 0, 0]) && t[0].attribute == 0x10 && t[0].userAttribute == 0xAA
      && t[0].First() == free[1] && t[0].filesize == 0
      && t[1].Named([46, 46, 0, 0, 0, 0, 0, 0], [0, 0, 0]) && t[1].attribute == 0x10 && t[1].userAttribute == 0xAA
      && t[1].First() == r.parent && t[1].filesize == 0
      && u[0] == t[0] && u[1] == ZERO_ENTRY
      && forall i :: 2 <= i < TABLE_SIZE ==> t[i] == ZERO_ENTRY && u[i] == ZERO_ENTRY
  {
    FolderInUse(v, g, r.parent);
    StoredFolderTable(v, r);
  }

  lemma WriteGrows(v: Volume, g: Shape, r: Request)
    requires WellFormed(v, g) && Accepts(v, r) && r.parent in g.depth
    ensures Grows(v, g, Written(v, r), r.parent, Added(v, r), Allocated(v, r))
  {
    var v' := Written(v, r);
    LinkTakesFree(v.fat, ClustersNeeded(r.size));
    FolderInUse(v, g, r.parent);
    WriteKeepsFolders(v, g, r);
    if r.size == 0 {
      WriteStoresFolder(v, r);
    }
  }

  lemma WriteKeepsFolders(v: Volume, g: Shape, r: Request)
    requires WellFormed(v, g) && Accepts(v, r) && r.parent in g.depth
    ensures forall d {:trigger Dir(Written(v, r), d)} :: d in g.depth && d != r.parent ==> Dir(Written(v, r), d) == Dir(v, d)
  {
    forall d | d in g.depth && d != r.parent ensures Dir(Written(v, r), d) == Dir(v, d) {
      FolderInUse(v, g, d);
      WriteFrame(v, g, r, d);
    }
  }

  /** A write keeps the volume well formed; one that fails changes nothing. */
  lemma WriteKeepsWellFormed(v: Volume, g: Shape, r: Request)
    requires WellFormed(v, g) && ParentOK(v, g, r.parent) && CanWrite(v, r)
    ensures WellFormed(Write(v, r).volume, WriteShape(v, g, r))
    ensures Write(v, r).code != 0 ==> Write(v, r).volume == v
    ensures Write(v, r).code == 0 <==> Accepts(v, r)
  {
    if Accepts(v, r) {
      WriteGrows(v, g, r);
      GrowWellFormed(v, g, Written(v, r), r.parent, Added(v, r), Allocated(v, r));
    }
  }

  /** What a successful write adds: one entry in the parent, of the requested name and size, a
      folder exactly when the size is 0, starting at the lowest free cluster. A new folder is
      empty and knows its name and its parent; every other folder keeps its table. */
  lemma WriteAddsOne(v: Volume, g: Shape, r: Request)
    requires WellFormed(v, g) && ParentOK(v, g, r.parent) && Accepts(v, r)
    ensures var v', e := Write(v, r).volume, Added(v, r);
      && Contents(Dir(v', r.parent)) == Contents(Dir(v, r.parent)) + multiset{e}
      && e.Named(r.name, r.ext) && e.filesize == r.size && e.First() == FreeList(v.fat)[0]
      && (if r.size == 0 then e.IsFolder() && FreshFolder(v', e.First(), r.parent, r.name) else e.attribute == 0)
      && forall d {:trigger Dir(v', d)} :: d in g.depth && d != r.parent ==> Dir(v', d) == Dir(v, d)
  {
    WriteGrows(v, g, r);
    assert FolderOK(v, r.parent);
    AppendAddsOne(Dir(v, r.parent), Added(v, r));
    FirstOfPrefix(FreeList(v.fat), ClustersNeeded(r.size));
  }

  lemma FirstOfPrefix(s: seq<nat>, k: nat)
    requires 0 < k <= |s|
    ensures s[..k][0] == s[0]
  {
  }

  /** A write loses no cluster: everything in use afterwards belongs to an entry. */
  lemma WriteKeepsNoLeak(v: Volume, g: Shape, r: Request)
    requires WellFormed(v, g) && ParentOK(v, g, r.parent) && CanWrite(v, r) && NoLeak(v, g)
    ensures NoLeak(Write(v, r).volume, WriteShape(v, g, r))
  {
    if Accepts(v, r) {
      WriteGrows(v, g, r);
      LinkTakesFree(v.fat, ClustersNeeded(r.size));
      GrowNoLeak(v, g, Written(v, r), r.parent, Added(v, r), Allocated(v, r));
    }
  }

  /** Every other file keeps its chain and the bytes of every cluster of it. */
  lemma WriteKeepsFiles(v: Volume, g: Shape, r: Request, c: nat)
    requires WellFormed(v, g) && ParentOK(v, g, r.parent) && CanWrite(v, r) && c in g.chains && c !in g.depth
    ensures var v', g' := Write(v, r).volume, WriteShape(v, g, r);
      && c in g'.chains && g'.chains[c] == g.chains[c]
      && forall x :: x in g.chains[c] && 0 <= x < |v.disk| ==> v'.disk[x] == v.disk[x]
  {
    if Accepts(v, r) {
      WriteGrows(v, g, r);
      GrowIsFresh(v, g, Written(v, r), r.parent, Added(v, r), Allocated(v, r));
      ChainHead(v, g, c);
      forall x | x in g.chains[c] ensures Written(v, r).disk[x] == v.disk[x] {
        ChainNotEmpty(v.fat, g.chains[c], x);
        ChainAvoidsFolder(v, g, c, x, r.parent);
        WriteFrame(v, g, r, x);
      }
    }
  }
}
