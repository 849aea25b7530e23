/** The cluster map of the FAT: chains, the free list, and linking and freeing of chains.
    A chain is the list of clusters met by following the map from a first cluster to the
    end-of-file mark (the "FAT Data Structure" section of Microsoft's FAT32 File System
    Specification, over a map of 512 words). */
module ClusterChains {
  import opened Words
  import opened DirectoryLayout

  const END_OF_FILE: uint32 := 0x0FFF_FFFF
  const EMPTY: uint32 := 0
  const NO_CLUSTER: uint32 := 0xFFFF_FFFF
  const FIRST_DATA_CLUSTER: nat := 3

  /** A cluster number that get_empty_cluster may hand out. */
  predicate DataCluster(c: int) {
    FIRST_DATA_CLUSTER <= c < CLUSTER_MAP_SIZE
  }

  ghost predicate Distinct(s: seq<nat>) {
    forall i, j :: 0 <= i < j < |s| ==> s[i] != s[j]
  }

  ghost predicate DataClusters(s: seq<nat>) {
    forall i :: 0 <= i < |s| ==> DataCluster(s[i])
  }

  /** `s` is an acyclic chain of the map, ending in the end-of-file mark. */
  ghost predicate IsChain(fat: FatMap, s: seq<nat>) {
    && |s| > 0
    && DataClusters(s)
    && Distinct(s)
    && (forall i :: 0 <= i < |s| - 1 ==> fat[s[i]] == s[i + 1])
    && fat[s[|s| - 1]] == END_OF_FILE
  }

  /** A first cluster starts at most one chain. */
  lemma {:induction false} ChainUnique(fat: FatMap, s: seq<nat>, t: seq<nat>)
    requires IsChain(fat, s) && IsChain(fat, t) && s[0] == t[0]
    ensures s == t
  {
    assert |s| > 1 ==> fat[s[0]] == s[1];
    assert |t| > 1 ==> fat[t[0]] == t[1];
    if |s| > 1 && |t| > 1 {
      assert s[1] == t[1];
      TailIsChain(fat, s);
      TailIsChain(fat, t);
      ChainUnique(fat, s[1..], t[1..]);
      assert s == [s[0]] + s[1..] && t == [t[0]] + t[1..];
    }
  }

  lemma TailIsChain(fat: FatMap, s: seq<nat>)
    requires IsChain(fat, s) && |s| > 1
    ensures IsChain(fat, s[1..])
  {
  }

  lemma ChainNotEmpty(fat: FatMap, s: seq<nat>, x: nat)
    requires IsChain(fat, s) && x in s
    ensures DataCluster(x) && fat[x] != EMPTY
  {
    var i :| 0 <= i < |s| && s[i] == x;
    if i < |s| - 1 { assert fat[s[i]] == s[i + 1]; }
  }

  /** A chain stays a chain when the map changes only outside it. */
  lemma ChainFrame(fat: FatMap, fat': FatMap, s: seq<nat>)
    requires IsChain(fat, s)
    requires forall x :: x in s ==> fat'[x] == fat[x]
    ensures IsChain(fat', s)
  {
  }

  // ---- Free clusters ----

  /** The free clusters from `i` up, in ascending order. */
  function FreeFrom(fat: FatMap, i: nat): seq<nat>
    decreases CLUSTER_MAP_SIZE - i
  {
    if i >= CLUSTER_MAP_SIZE then []
    else if fat[i] == EMPTY then [i] + FreeFrom(fat, i + 1)
    else FreeFrom(fat, i + 1)
  }

  /** All free data clusters, in ascending order. */
  function FreeList(fat: FatMap): seq<nat> {
    FreeFrom(fat, FIRST_DATA_CLUSTER)
  }

  ghost function FreeSet(fat: FatMap): set<nat> {
    set x: nat | FIRST_DATA_CLUSTER <= x < CLUSTER_MAP_SIZE && fat[x] == EMPTY
  }

  ghost predicate Ascending(s: seq<nat>) {
    forall i, j :: 0 <= i < j < |s| ==> s[i] < s[j]
  }

  lemma {:induction false} FreeFromFacts(fat: FatMap, i: nat)
    ensures Ascending(FreeFrom(fat, i))
    ensures forall x :: x in FreeFrom(fat, i) <==> i <= x < CLUSTER_MAP_SIZE && fat[x] == EMPTY
    decreases CLUSTER_MAP_SIZE - i
  {
    if i < CLUSTER_MAP_SIZE {
      FreeFromFacts(fat, i + 1);
      var rest := FreeFrom(fat, i + 1);
      forall k | 0 <= k < |rest| ensures rest[k] > i { assert rest[k] in rest; }
    }
  }

  /** The free list is the ascending enumeration of the free set. */
  lemma FreeListFacts(fat: FatMap)
    ensures Ascending(FreeList(fat)) && Distinct(FreeList(fat)) && DataClusters(FreeList(fat))
    ensures forall x :: x in FreeList(fat) <==> x in FreeSet(fat)
    ensures forall x :: x in FreeList(fat) <==> 3 <= x < 512 && fat[x] == 0
    ensures |FreeList(fat)| == |FreeSet(fat)|
  {
    FreeFromFacts(fat, FIRST_DATA_CLUSTER);
    var s := FreeList(fat);
    forall i | 0 <= i < |s| ensures DataCluster(s[i]) { assert s[i] in s; }
    DistinctCount(s, FreeSet(fat));
  }

  lemma {:induction false} DistinctCount(s: seq<nat>, a: set<nat>)
    requires Distinct(s)
    requires forall x :: x in s <==> x in a
    ensures |s| == |a|
  {
    if |s| == 0 {
      assert a == {};
    } else {
      var t, l := s[..|s| - 1], s[|s| - 1];
      assert s == t + [l];
      assert l in a;
      DistinctCount(t, a - {l});
    }
  }

  /** Two ascending lists with the same elements are the same list. */
  lemma {:induction false} AscendingUnique(s: seq<nat>, t: seq<nat>)
    requires Ascending(s) && Ascending(t)
    requires forall x :: x in s <==> x in t
    ensures s == t
  {
    assert |t| > 0 ==> t[0] in t;
    if |s| > 0 {
      assert s[0] in s && s[0] in t;
      assert t[0] in t && t[0] in s;
      assert s[0] == t[0] by {
        var i :| 0 <= i < |t| && t[i] == s[0];
        var j :| 0 <= j < |s| && s[j] == t[0];
      }
      var s', t' := s[1..], t[1..];
      forall x ensures x in s' <==> x in t' {
        if x in s' { var i :| 1 <= i < |s| && s[i] == x; assert x in s && x > s[0]; assert x in t; }
        if x in t' { var i :| 1 <= i < |t| && t[i] == x; assert x in t && x > t[0]; assert x in s; }
      }
      AscendingUnique(s', t');
      assert s == [s[0]] + s' && t == [t[0]] + t';
    }
  }

  // ---- Linking a list of clusters into a chain ----

  /** The map with the clusters of `s` linked in order and the last one marked end-of-file. */
  function Link(fat: FatMap, s: seq<nat>): (fat': FatMap)
    requires |s| > 0 && DataClusters(s) && Distinct(s)
    ensures forall i :: 0 <= i < |s| - 1 ==> fat'[s[i]] == s[i + 1]
    ensures fat'[s[|s| - 1]] == END_OF_FILE
    ensures forall x :: 0 <= x < CLUSTER_MAP_SIZE && x !in s ==> fat'[x] == fat[x]
    ensures IsChain(fat', s)
  {
    if |s| == 1 then fat[s[0] := END_OF_FILE]
    else
      var r := Link(fat, s[1..]);
      assert forall i :: 1 <= i < |s| - 1 ==> s[1..][i - 1] == s[i] && r[s[1..][i - 1]] == s[1..][i];
      r[s[0] := s[1]]
  }

  /** The map with the clusters of `s` marked free. */
  function Unlink(fat: FatMap, s: seq<nat>): (fat': FatMap) {
    seq(CLUSTER_MAP_SIZE, x requires 0 <= x < CLUSTER_MAP_SIZE => if x in s then EMPTY else fat[x])
  }

  /** Freeing what was just linked out of free clusters restores the map. */
  lemma UnlinkLink(fat: FatMap, s: seq<nat>)
    requires |s| > 0 && DataClusters(s) && Distinct(s)
    requires forall x :: x in s ==> fat[x] == EMPTY
    ensures Unlink(Link(fat, s), s) == fat
  {
  }

  /** Linking the first k free clusters leaves exactly the rest of the free list. */
  lemma LinkTakesFree(fat: FatMap, k: nat)
    requires 0 < k <= |FreeList(fat)|
    ensures var s := FreeList(fat)[..k];
      && DataClusters(s) && Distinct(s) && Ascending(s)
      && (forall x :: x in s ==> fat[x] == EMPTY)
      && FreeList(Link(fat, s)) == FreeList(fat)[k..]
  {
    FreeListFacts(fat);
    var all := FreeList(fat);
    SplitAscending(all, k);
    forall x | x in all[..k] ensures fat[x] == EMPTY { assert x in all; }
    FreeListFacts(Link(fat, all[..k]));
    LinkLeavesRest(fat, all[..k], all[k..]);
    AscendingUnique(FreeList(Link(fat, all[..k])), all[k..]);
  }

  lemma SplitAscending(s: seq<nat>, k: nat)
    requires Ascending(s) && Distinct(s) && DataClusters(s) && k <= |s|
    ensures Ascending(s[..k]) && Distinct(s[..k]) && DataClusters(s[..k]) && Ascending(s[k..]) && s == s[..k] + s[k..]
  {
  }

  lemma LinkLeavesRest(fat: FatMap, s: seq<nat>, rest: seq<nat>)
    requires |s| > 0 && DataClusters(s) && Distinct(s + rest) && FreeList(fat) == s + rest
    ensures Distinct(s)
    ensures forall x :: x in FreeList(Link(fat, s)) <==> x in rest
  {
    assert forall i :: 0 <= i < |s| ==> (s + rest)[i] == s[i];
    FreeListFacts(fat);
    FreeListFacts(Link(fat, s));
    forall x | x in s ensures x !in rest && Link(fat, s)[x] != EMPTY {
      ChainNotEmpty(Link(fat, s), s, x);
      var i :| 0 <= i < |s| && s[i] == x;
      forall j | 0 <= j < |rest| ensures rest[j] != x { assert (s + rest)[|s| + j] == rest[j]; }
    }
    assert forall x :: x in s + rest <==> x in s || x in rest;
  }

  /** The first k entries of the free list are the k lowest-numbered free clusters. */
  lemma PrefixIsLowest(fat: FatMap, k: nat, x: nat, y: nat)
    requires k <= |FreeList(fat)|
    requires x in FreeList(fat)[..k] && y in FreeSet(fat) && y !in FreeList(fat)[..k]
    ensures x < y
  {
    FreeListFacts(fat);
    var all := FreeList(fat);
    var i :| 0 <= i < k && all[..k][i] == x;
    assert y in all && all == all[..k] + all[k..];
    var j :| 0 <= j < |all| - k && all[k..][j] == y;
    assert all[k + j] == y && all[i] == x;
  }

  /** Freeing a chain makes exactly its clusters free, so the free count grows by its length. */
  lemma UnlinkFreesChain(fat: FatMap, s: seq<nat>)
    requires IsChain(fat, s)
    ensures FreeSet(Unlink(fat, s)) == FreeSet(fat) + (set x | x in s)
    ensures |FreeList(Unlink(fat, s))| == |FreeList(fat)| + |s|
  {
    var fat' := Unlink(fat, s);
    var a := set x | x in s;
    forall x | x in s ensures DataCluster(x) && fat[x] != EMPTY { ChainNotEmpty(fat, s, x); }
    assert FreeSet(fat') == FreeSet(fat) + a;
    assert FreeSet(fat) !! a;
    DistinctCount(s, a);
    FreeListFacts(fat);
    FreeListFacts(fat');
  }
}
