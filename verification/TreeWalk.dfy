/** The recursion of delete_all_folder: what lies inside a folder is the folder and, disjointly,
    what lies inside each of its entries. */
module TreeWalk {
  import opened DirectoryLayout
  import opened ClusterChains
  import opened Volumes
  import opened VolumePrune

  /** First cluster `x` lies inside one of the entries of folder `c` in slots 2..i. */
  ghost predicate InsideFirst(v: Volume, g: Shape, x: int, c: int, i: int)
    requires TreeOK(v, g)
  {
    exists j :: 2 <= j < i && Slot(v, g, c, j) && InsideSlot(v, g, x, c, j)
  }

  ghost predicate InsideSlot(v: Volume, g: Shape, x: int, c: int, j: int)
    requires TreeOK(v, g)
  {
    0 <= j < TABLE_SIZE && Inside(v, g, x, Dir(v, c)[j].First())
  }

  lemma {:induction false} UnderTransitive(v: Volume, g: Shape, d: int, b: int, a: int)
    requires TreeOK(v, g) && d in g.depth && b in g.depth && Under(v, g, d, b) && Under(v, g, b, a)
    ensures Under(v, g, d, a)
    decreases g.depth[d]
  {
    if d != b {
      UnderTransitive(v, g, Up(v, d), b, a);
    }
  }

  /** Two folders at the same depth above a third are the same folder. */
  lemma {:induction false} UnderUnique(v: Volume, g: Shape, d: int, a: int, b: int)
    requires TreeOK(v, g) && d in g.depth && Under(v, g, d, a) && Under(v, g, d, b)
    requires a in g.depth && b in g.depth && g.depth[a] == g.depth[b]
    ensures a == b
    decreases g.depth[d]
  {
    if d == a {
      UnderIsDeeper(v, g, d, b);
      if d != b { UnderIsDeeper(v, g, Up(v, d), b); }
    } else if d == b {
      UnderIsDeeper(v, g, d, a);
      if d != a { UnderIsDeeper(v, g, Up(v, d), a); }
    } else {
      UnderUnique(v, g, Up(v, d), a, b);
    }
  }

  /** A folder strictly below `c` is below, or is, the folder of one of the entries of `c`. */
  lemma {:induction false} ChildAbove(v: Volume, g: Shape, d: int, c: int) returns (j: int)
    requires WellFormed(v, g) && d in g.depth && Under(v, g, d, c) && d != c
    ensures Slot(v, g, c, j) && Dir(v, c)[j].First() in g.depth && Under(v, g, d, Dir(v, c)[j].First())
    decreases g.depth[d]
  {
    assert Up(v, d) in g.depth;
    if Up(v, d) == c {
      assert Owned(v, g, d);
      var p, i :| Owns(v, g, p, i, d);
      OwnedFolder(v, g, p, i);
      j := i;
    } else {
      j := ChildAbove(v, g, Up(v, d), c);
    }
  }

  /** What lies inside a folder: itself and what lies inside its entries. */
  lemma InsideUnfolds(v: Volume, g: Shape, x: int, c: nat)
    requires WellFormed(v, g) && c in g.depth
    ensures Inside(v, g, x, c) <==> x == c || InsideFirst(v, g, x, c, TABLE_SIZE)
  {
    if Inside(v, g, x, c) && x != c {
      var d, i :| Owns(v, g, d, i, x) && Under(v, g, d, c);
      if d == c {
        assert InsideSlot(v, g, x, c, i);
      } else {
        var j := ChildAbove(v, g, d, c);
        assert InsideSlot(v, g, x, c, j);
      }
    }
    if InsideFirst(v, g, x, c, TABLE_SIZE) {
      var j :| 2 <= j < TABLE_SIZE && Slot(v, g, c, j) && InsideSlot(v, g, x, c, j);
      InsideEntry(v, g, x, c, j);
    }
  }

  lemma InsideEntry(v: Volume, g: Shape, x: int, c: nat, j: int)
    requires WellFormed(v, g) && Slot(v, g, c, j) && Inside(v, g, x, Dir(v, c)[j].First())
    ensures Inside(v, g, x, c)
  {
    var k := Dir(v, c)[j].First();
    OwnedFolder(v, g, c, j);
    if x == k {
      assert Owns(v, g, c, j, x) && Under(v, g, c, c);
    } else {
      var d, i :| Owns(v, g, d, i, x) && Under(v, g, d, k);
      UnderIsDeeper(v, g, d, k);
      UnderTransitive(v, g, d, k, c);
    }
  }

  /** Entries of one folder have nothing inside in common, and the folder is inside none of them. */
  lemma SiblingsDisjoint(v: Volume, g: Shape, x: int, c: nat, i: int, j: int)
    requires WellFormed(v, g) && Slot(v, g, c, i) && Slot(v, g, c, j)
    requires InsideSlot(v, g, x, c, i) && InsideSlot(v, g, x, c, j)
    ensures i == j
  {
    var a, b := Dir(v, c)[i].First(), Dir(v, c)[j].First();
    assert Owns(v, g, c, i, a) && Owns(v, g, c, j, b);
    ParentStays(v, g, c, i);
    ParentStays(v, g, c, j);
    if x != a && x != b {
      var d, k :| Owns(v, g, d, k, x) && Under(v, g, d, a);
      var d', k' :| Owns(v, g, d', k', x) && Under(v, g, d', b);
      UnderIsDeeper(v, g, d, a);
      UnderIsDeeper(v, g, d, b);
      OwnedFolder(v, g, c, i);
      OwnedFolder(v, g, c, j);
      UnderUnique(v, g, d, a, b);
    }
  }

  /** No folder is deeper than `bound`. */
  ghost predicate Shallow(g: Shape, bound: nat) {
    forall d :: d in g.depth ==> g.depth[d] <= bound
  }

  lemma {:induction false} SomeBound(depth: map<nat, nat>) returns (bound: nat)
    ensures forall d :: d in depth ==> depth[d] <= bound
    decreases |depth|
  {
    if depth == map[] {
      bound := 0;
    } else {
      var d :| d in depth;
      bound := SomeBound(depth - {d});
      forall e | e in depth && e != d ensures depth[e] <= bound {
        assert e in depth - {d};
      }
      bound := if depth[d] > bound then depth[d] else bound;
    }
  }

  /** `disk` is `base` with everything inside the entries of folder `c` in slots 2..i zeroed. */
  ghost predicate Swept(v: Volume, g: Shape, c: int, i: int, base: seq<Cluster>, disk: seq<Cluster>)
    requires TreeOK(v, g)
  {
    |disk| == |base| && forall x :: 0 <= x < |disk| ==> disk[x] == if InsideFirst(v, g, x, c, i) then ZERO_CLUSTER else base[x]
  }

  /** Inside node `k`, `disk` is as it is in `v`. */
  ghost predicate Intact(v: Volume, g: Shape, k: int, disk: seq<Cluster>)
    requires TreeOK(v, g)
  {
    |disk| == |v.disk| && forall x :: 0 <= x < |disk| && Inside(v, g, x, k) ==> disk[x] == v.disk[x]
  }

  /** `disk` is `base` with everything inside node `k` zeroed. */
  ghost predicate Zeroed(v: Volume, g: Shape, k: int, base: seq<Cluster>, disk: seq<Cluster>)
    requires TreeOK(v, g)
  {
    |disk| == |base| && forall x :: 0 <= x < |disk| ==> disk[x] == if Inside(v, g, x, k) then ZERO_CLUSTER else base[x]
  }

  /** Sweeping the entries before slot `i` leaves what is inside entry `i` alone. */
  lemma SweptLeavesNext(v: Volume, g: Shape, c: nat, i: int, base: seq<Cluster>, disk: seq<Cluster>)
    requires WellFormed(v, g) && Slot(v, g, c, i) && Intact(v, g, c, base) && Swept(v, g, c, i, base, disk)
    ensures Intact(v, g, Dir(v, c)[i].First(), disk)
  {
    forall x | 0 <= x < |disk| && Inside(v, g, x, Dir(v, c)[i].First()) ensures disk[x] == v.disk[x] {
      assert InsideSlot(v, g, x, c, i);
      InsideEntry(v, g, x, c, i);
      if InsideFirst(v, g, x, c, i) {
        var j :| 2 <= j < i && Slot(v, g, c, j) && InsideSlot(v, g, x, c, j);
        SiblingsDisjoint(v, g, x, c, i, j);
      }
    }
  }

  lemma SweptStep(v: Volume, g: Shape, c: nat, i: int, base: seq<Cluster>, disk: seq<Cluster>, disk': seq<Cluster>)
    requires TreeOK(v, g) && 2 <= i < TABLE_SIZE && Swept(v, g, c, i, base, disk)
    requires if Slot(v, g, c, i) then Zeroed(v, g, Dir(v, c)[i].First(), disk, disk') else disk' == disk
    ensures Swept(v, g, c, i + 1, base, disk')
  {
  }

  /** Before the loop: nothing is swept, and the table to walk is the one in `v`. */
  lemma SweptStart(v: Volume, g: Shape, c: nat, base: seq<Cluster>)
    requires WellFormed(v, g) && c in g.depth && Intact(v, g, c, base)
    ensures c < |base| && DecodeTable(base[c]) == Dir(v, c) && Swept(v, g, c, 2, base, base)
  {
    FolderInUse(v, g, c);
    assert Inside(v, g, c, c);
  }

  /** With every entry swept, zeroing the folder itself completes its subtree. */
  lemma SweptAll(v: Volume, g: Shape, c: nat, base: seq<Cluster>, disk: seq<Cluster>)
    requires WellFormed(v, g) && c in g.depth && c < |base| && Swept(v, g, c, TABLE_SIZE, base, disk)
    ensures Zeroed(v, g, c, base, disk[c := ZERO_CLUSTER])
  {
    forall x | 0 <= x < |disk| ensures disk[c := ZERO_CLUSTER][x] == if Inside(v, g, x, c) then ZERO_CLUSTER else base[x] {
      InsideUnfolds(v, g, x, c);
    }
  }

  /** What one turn of the loop needs to know of entry `i` of folder `c`. */
  lemma EntryBelow(v: Volume, g: Shape, c: nat, i: int)
    requires WellFormed(v, g) && c in g.depth && 2 <= i < TABLE_SIZE
    ensures Dir(v, c)[i].Used() <==> Slot(v, g, c, i)
    ensures Slot(v, g, c, i) ==> var k := Dir(v, c)[i].First();
      DataCluster(k) && (Dir(v, c)[i].IsFolder() <==> k in g.depth) && (k in g.depth ==> g.depth[k] == g.depth[c] + 1)
  {
    assert FolderOK(v, c);
    if Slot(v, g, c, i) {
      assert SlotOK(v, g, c, Dir(v, c)[i]);
      ChainHead(v, g, Dir(v, c)[i].First());
      OwnedFolder(v, g, c, i);
    }
  }

  lemma FileIsAlone(v: Volume, g: Shape, k: nat, disk: seq<Cluster>)
    requires WellFormed(v, g) && k !in g.depth && k < |disk|
    ensures Zeroed(v, g, k, disk, disk[k := ZERO_CLUSTER])
  {
    forall x | Inside(v, g, x, k) ensures x == k {
      if x != k {
        var d, j :| Owns(v, g, d, j, x) && Under(v, g, d, k);
        UnderIsDeeper(v, g, d, k);
      }
    }
  }
}
