/** What one turn of write's chain-building loop does to the map and the disk. */
module ChainBuilding {
  import opened Words
  import opened DirectoryLayout
  import opened ClusterChains
  import FileWrite

  /** The first `k` free clusters can be linked. */
  ghost predicate FreePrefix(fat: FatMap, k: nat) {
    && 0 < k <= |FreeList(fat)|
    && DataClusters(FreeList(fat)[..k]) && Distinct(FreeList(fat)[..k])
  }

  lemma FreePrefixes(fat: FatMap, k: nat)
    requires 0 < k <= |FreeList(fat)|
    ensures FreePrefix(fat, k)
  {
    LinkTakesFree(fat, k);
  }

  /** Marking the last cluster of an unfinished chain completes it. */
  lemma LastIsEnd(fat: FatMap, k: nat)
    requires FreePrefix(fat, k)
    ensures var s := FreeList(fat)[..k];
      Link(fat, s)[s[k - 1] := EMPTY][s[k - 1] := END_OF_FILE] == Link(fat, s)
  {
  }

  lemma FirstCluster(fat: FatMap, disk: seq<Cluster>, mem: seq<byte>)
    requires |FreeList(fat)| > 0 && |disk| >= CLUSTER_MAP_SIZE && CLUSTER_SIZE <= |mem|
    ensures FreePrefix(fat, 1) && DataCluster(FreeList(fat)[0])
    ensures Link(fat, FreeList(fat)[..1])[FreeList(fat)[0] := EMPTY] == fat
    ensures FileWrite.StoreChunks(disk, FreeList(fat)[..1], mem) == disk[FreeList(fat)[0] := FileWrite.Chunk(mem, 0)]
  {
    LinkTakesFree(fat, 1);
    var s := FreeList(fat)[..1];
    assert s[0] in s;
    assert s[..0] == [];
  }

  /** Linking the next free cluster behind the last one, still unmarked, and storing into it. */
  lemma NextCluster(fat: FatMap, disk: seq<Cluster>, mem: seq<byte>, k: nat)
    requires FreePrefix(fat, k) && k < |FreeList(fat)| && |disk| >= CLUSTER_MAP_SIZE && (k + 1) * CLUSTER_SIZE <= |mem|
    ensures FreePrefix(fat, k + 1) && DataCluster(FreeList(fat)[k])
    ensures var s, next := FreeList(fat)[..k], FreeList(fat)[k];
      && Link(fat, s)[s[k - 1] := next] == Link(fat, FreeList(fat)[..k + 1])[next := EMPTY]
      && FileWrite.StoreChunks(disk, FreeList(fat)[..k + 1], mem) == FileWrite.StoreChunks(disk, s, mem)[next := FileWrite.Chunk(mem, k)]
  {
    FreePrefixes(fat, k + 1);
    LinkTakesFree(fat, k + 1);
    var s, u := FreeList(fat)[..k], FreeList(fat)[..k + 1];
    assert u[..k] == s && u == s + [u[k]];
    assert u[k] in u;
    LinkExtend(fat, s, u[k]);
  }

  lemma LinkExtend(fat: FatMap, s: seq<nat>, next: nat)
    requires |s| > 0 && DataClusters(s) && Distinct(s) && DataCluster(next) && next !in s && fat[next] == EMPTY
    ensures DataClusters(s + [next]) && Distinct(s + [next])
    ensures Link(fat, s)[s[|s| - 1] := next] == Link(fat, s + [next])[next := EMPTY]
  {
    var u := s + [next];
    var a: seq<uint32> := Link(fat, s)[s[|s| - 1] := next];
    var b: seq<uint32> := Link(fat, u)[next := EMPTY];
    forall x | 0 <= x < CLUSTER_MAP_SIZE ensures a[x] == b[x] {
      if x in s {
        var i :| 0 <= i < |s| && s[i] == x;
        assert Link(fat, u)[u[i]] == u[i + 1];
        assert i < |s| - 1 ==> Link(fat, s)[s[i]] == s[i + 1];
      }
    }
  }
}
