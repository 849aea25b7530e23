/** A mounted volume (the cached cluster map and the disk) and what it means for it to be
    well formed: chains acyclic and disjoint, every entry owning exactly one chain, folders
    forming a tree rooted at cluster 2, and the on-disk copies up to date. */
module Volumes {
  import opened Words
  import opened DirectoryLayout
  import opened ClusterChains
  import opened DirectoryTables

  const CLUSTER_0_VALUE: uint32 := 0x0FFF_FFF0
  const CLUSTER_1_VALUE: uint32 := 0x0FFF_FFFF
  const FAT_CLUSTER: nat := 1
  const ROOT: nat := 2
  const BLOCK_SIZE: nat := 512

  /** The driver's FAT cache and the disk, one element per cluster. */
  datatype Volume = Volume(fat: FatMap, disk: seq<Cluster>)

  /** What the volume spells out implicitly: the chain of every first cluster, and the depth
      of every folder below the root (its domain is the set of folder clusters). */
  datatype Shape = Shape(chains: map<nat, seq<nat>>, depth: map<nat, nat>)

  /** The directory table stored in cluster `d`. */
  ghost function Dir(v: Volume, d: int): Table {
    if 0 <= d < |v.disk| then DecodeTable(v.disk[d]) else DecodeTable(ZERO_CLUSTER)
  }

  /** The cluster the ".." entry of folder `d` names. */
  ghost function Up(v: Volume, d: int): nat {
    Dir(v, d)[1].First()
  }

  /** Content slot `i` of folder `d` is in use. */
  ghost predicate Slot(v: Volume, g: Shape, d: int, i: int) {
    d in g.depth && 2 <= i < Fill(Dir(v, d))
  }

  /** Slot `i` of folder `d` is the entry whose first cluster is `c`. */
  ghost predicate Owns(v: Volume, g: Shape, d: int, i: int, c: int) {
    Slot(v, g, d, i) && Dir(v, d)[i].First() == c
  }

  ghost predicate Owned(v: Volume, g: Shape, c: int) {
    exists d, i :: Owns(v, g, d, i, c)
  }

  /** Clusters occupied by a file of `size` bytes, or by a folder when `size` is 0. */
  function ClustersNeeded(size: nat): (k: nat)
    ensures k >= 1
    ensures size <= k * CLUSTER_SIZE
    ensures size > 0 ==> (k - 1) * CLUSTER_SIZE < size
  {
    var k := if size % CLUSTER_SIZE == 0 then size / CLUSTER_SIZE else size / CLUSTER_SIZE + 1;
    if k <= 0 then 1 else k
  }

  /** "..", NUL-terminated, at the start of a name field. */
  predicate DotDot(name: Name) {
    name[0] == '.' as int && name[1] == '.' as int && name[2] == 0
  }

  /** A folder's entry of its parent: a folder named "..". */
  predicate NamesParent(e: Entry) {
    DotDot(e.name) && e.IsFolder()
  }

  ghost predicate FolderOK(v: Volume, d: int) {
    Packed(Dir(v, d)) && NamesParent(Dir(v, d)[1])
  }

  /** A folder's entry 0 repeats its name. The extension is only filled in when it is moved. */
  predicate SelfNamed(self: Entry, e: Entry) {
    self.name == e.name && (self.ext == ZERO_EXT || self.ext == e.ext)
  }

  ghost predicate SlotOK(v: Volume, g: Shape, d: int, e: Entry) {
    var c := e.First();
    && c in g.chains
    && (e.IsFolder() <==> c in g.depth)
    && (e.IsFolder() ==> g.chains[c] == [c] && e.filesize == 0 && Up(v, c) == d && SelfNamed(Dir(v, c)[0], e))
    && (!e.IsFolder() ==> e.attribute == 0 && e.filesize > 0 && |g.chains[c]| == ClustersNeeded(e.filesize))
  }

  /** Every chain is acyclic and ends in end-of-file, and different chains are disjoint. */
  ghost predicate ChainsOK(fat: FatMap, chains: map<nat, seq<nat>>) {
    && (forall c {:trigger IsChain(fat, chains[c])} :: c in chains ==> IsChain(fat, chains[c]) && chains[c][0] == c)
    && (forall b, c, x :: b in chains && c in chains && x in chains[b] && x in chains[c] ==> b == c)
  }

  ghost predicate FoldersOK(v: Volume, g: Shape) {
    && (forall d {:trigger FolderOK(v, d)} :: d in g.depth ==> FolderOK(v, d))
    && (forall d, i {:trigger SlotOK(v, g, d, Dir(v, d)[i])} :: Slot(v, g, d, i) ==> SlotOK(v, g, d, Dir(v, d)[i]))
  }

  /** Every chain is owned by exactly one entry. */
  ghost predicate OwnersOK(v: Volume, g: Shape) {
    && (forall c {:trigger Owned(v, g, c)} :: c in g.chains ==> Owned(v, g, c))
    && (forall d, i, e, j, c :: Owns(v, g, d, i, c) && Owns(v, g, e, j, c) ==> d == e && i == j)
  }

  /** Following ".." from any folder leads to the root in exactly its depth many steps. */
  ghost predicate TreeOK(v: Volume, g: Shape) {
    && ROOT in g.depth && g.depth[ROOT] == 0 && Up(v, ROOT) == ROOT
    && (forall d {:trigger Up(v, d)} :: d in g.depth && d != ROOT ==>
          d in g.chains && Up(v, d) in g.depth && g.depth[d] == g.depth[Up(v, d)] + 1)
  }

  /** The reserved map words are set, and the copy of the map on disk is up to date. */
  ghost predicate HeaderOK(v: Volume) {
    && |v.disk| >= CLUSTER_MAP_SIZE
    && v.fat[0] == CLUSTER_0_VALUE && v.fat[1] == CLUSTER_1_VALUE && v.fat[ROOT] == END_OF_FILE
    && v.disk[FAT_CLUSTER] == EncodeFat(v.fat)
  }

  ghost predicate WellFormed(v: Volume, g: Shape) {
    HeaderOK(v) && ChainsOK(v.fat, g.chains) && FoldersOK(v, g) && OwnersOK(v, g) && TreeOK(v, g)
  }

  /** Every map word in use belongs to the chain of some entry. */
  ghost predicate NoLeak(v: Volume, g: Shape) {
    forall x :: DataCluster(x) && v.fat[x] != EMPTY ==> exists c :: c in g.chains && x in g.chains[c]
  }

  lemma ChainHead(v: Volume, g: Shape, c: nat)
    requires ChainsOK(v.fat, g.chains) && c in g.chains
    ensures IsChain(v.fat, g.chains[c]) && g.chains[c][0] == c && c in g.chains[c]
  {
  }

  lemma FolderInUse(v: Volume, g: Shape, d: nat)
    requires WellFormed(v, g) && d in g.depth
    ensures 2 <= d < CLUSTER_MAP_SIZE && v.fat[d] == END_OF_FILE
  {
    if d != ROOT {
      assert Up(v, d) in g.depth && Owned(v, g, d);
      var p, i :| Owns(v, g, p, i, d);
      assert SlotOK(v, g, p, Dir(v, p)[i]);
      assert IsChain(v.fat, g.chains[d]);
    }
  }

  /** A chain runs through no folder's cluster but, if it is a folder's, its own. */
  lemma ChainAvoidsFolder(v: Volume, g: Shape, c: nat, x: nat, d: nat)
    requires WellFormed(v, g) && c in g.chains && c != d && x in g.chains[c] && d in g.depth
    ensures x != d
  {
    ChainHead(v, g, c);
    ChainNotEmpty(v.fat, g.chains[c], x);
    if d != ROOT {
      assert Up(v, d) in g.depth;
      ChainHead(v, g, d);
    }
  }

  // ---- Subtrees ----

  /** Folder `d` is `a` or lies below it. */
  ghost predicate Under(v: Volume, g: Shape, d: int, a: int)
    requires TreeOK(v, g) && d in g.depth
    decreases g.depth[d]
  {
    d == a || (d != ROOT && Under(v, g, Up(v, d), a))
  }

  lemma {:induction false} UnderIsDeeper(v: Volume, g: Shape, d: int, a: int)
    requires TreeOK(v, g) && d in g.depth && Under(v, g, d, a)
    ensures a in g.depth && g.depth[a] <= g.depth[d]
    decreases g.depth[d]
  {
    if d != a {
      UnderIsDeeper(v, g, Up(v, d), a);
    }
  }

  /** First cluster `k` belongs to the node with first cluster `c` or to something inside it. */
  ghost predicate Inside(v: Volume, g: Shape, k: int, c: int)
    requires TreeOK(v, g)
  {
    k == c || exists d, i :: Owns(v, g, d, i, k) && Under(v, g, d, c)
  }

  /** The shape without the node whose first cluster is `c` and everything inside it. */
  ghost function Pruned(v: Volume, g: Shape, c: int): Shape
    requires TreeOK(v, g)
  {
    Shape(map k | k in g.chains && !Inside(v, g, k, c) :: g.chains[k],
          map d | d in g.depth && !Under(v, g, d, c) :: g.depth[d])
  }
}
