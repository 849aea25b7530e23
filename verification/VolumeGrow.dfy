/** Adding one entry that owns a freshly linked chain keeps a volume well formed. */
module VolumeGrow {
  import opened DirectoryLayout
  import opened ClusterChains
  import opened DirectoryTables
  import opened Volumes

  /** The table of folder `c` describes itself and its parent `p` and has no contents. */
  ghost predicate FreshFolder(v: Volume, c: int, p: int, name: Name) {
    FolderOK(v, c) && Fill(Dir(v, c)) == 2 && Up(v, c) == p && Dir(v, c)[0].Named(name, ZERO_EXT)
  }

  /** `v'` differs from `v`, as far as folders and used clusters go, by entry `e` appended to
      folder `p` and its chain `s` linked out of free clusters. */
  ghost predicate Grows(v: Volume, g: Shape, v': Volume, p: nat, e: Entry, s: seq<nat>) {
    && WellFormed(v, g) && HeaderOK(v') && p in g.depth
    && Fill(Dir(v, p)) < TABLE_SIZE && e.Used() && !Holds(Dir(v, p), e.name, e.ext)
    && Dir(v', p) == Append(Dir(v, p), e)
    && (forall d {:trigger Dir(v', d)} :: d in g.depth && d != p ==> Dir(v', d) == Dir(v, d))
    && IsChain(v'.fat, s) && s[0] == e.First()
    && (forall x :: x in s ==> v.fat[x] == EMPTY)
    && (forall x :: 0 <= x < CLUSTER_MAP_SIZE && v.fat[x] != EMPTY ==> v'.fat[x] == v.fat[x])
    && (if e.IsFolder() then s == [e.First()] && e.filesize == 0 && FreshFolder(v', e.First(), p, e.name)
        else e.attribute == 0 && e.filesize > 0 && |s| == ClustersNeeded(e.filesize))
  }

  ghost function Grown(g: Shape, p: nat, e: Entry, s: seq<nat>): Shape
    requires p in g.depth
  {
    Shape(g.chains[e.First() := s],
          if e.IsFolder() then g.depth[e.First() := g.depth[p] + 1] else g.depth)
  }

  lemma GrowIsFresh(v: Volume, g: Shape, v': Volume, p: nat, e: Entry, s: seq<nat>)
    requires Grows(v, g, v', p, e, s)
    ensures e.First() !in g.chains && e.First() !in g.depth
    ensures forall b, x :: b in g.chains && x in g.chains[b] ==> x !in s
  {
    var c := e.First();
    assert c in s;
    forall b, x | b in g.chains && x in g.chains[b] ensures x !in s {
      assert IsChain(v.fat, g.chains[b]);
      ChainNotEmpty(v.fat, g.chains[b], x);
    }
    if c in g.depth {
      FolderInUse(v, g, c);
    }
    if c in g.chains {
      ChainHead(v, g, c);
    }
  }

  lemma GrowChains(v: Volume, g: Shape, v': Volume, p: nat, e: Entry, s: seq<nat>)
    requires Grows(v, g, v', p, e, s)
    ensures ChainsOK(v'.fat, Grown(g, p, e, s).chains)
  {
    GrowIsFresh(v, g, v', p, e, s);
    forall b | b in g.chains ensures IsChain(v'.fat, g.chains[b]) && g.chains[b][0] == b {
      assert IsChain(v.fat, g.chains[b]);
      forall x | x in g.chains[b] ensures v'.fat[x] == v.fat[x] {
        ChainNotEmpty(v.fat, g.chains[b], x);
      }
      ChainFrame(v.fat, v'.fat, g.chains[b]);
    }
  }

  lemma GrowTable(v: Volume, g: Shape, v': Volume, p: nat, e: Entry, s: seq<nat>)
    requires Grows(v, g, v', p, e, s)
    ensures Fill(Dir(v', p)) == Fill(Dir(v, p)) + 1
  {
    assert FolderOK(v, p);
    AppendPacked(Dir(v, p), e);
  }

  /** A slot after the step is the appended one or an old one, with its entry. */
  lemma GrowSlot(v: Volume, g: Shape, v': Volume, p: nat, e: Entry, s: seq<nat>, d: int, i: int)
    requires Grows(v, g, v', p, e, s) && Slot(v', Grown(g, p, e, s), d, i)
    ensures if d == p && i == Fill(Dir(v, p)) then Dir(v', d)[i] == e
            else Slot(v, g, d, i) && Dir(v', d)[i] == Dir(v, d)[i]
  {
    GrowTable(v, g, v', p, e, s);
    assert d in g.depth && d != p ==> Dir(v', d) == Dir(v, d);
  }

  lemma GrowSlotStays(v: Volume, g: Shape, v': Volume, p: nat, e: Entry, s: seq<nat>, d: int, i: int)
    requires Grows(v, g, v', p, e, s) && Slot(v, g, d, i)
    ensures Slot(v', Grown(g, p, e, s), d, i) && Dir(v', d)[i] == Dir(v, d)[i]
  {
    GrowTable(v, g, v', p, e, s);
    assert d != p ==> Dir(v', d) == Dir(v, d);
  }

  lemma GrowFolderOK(v: Volume, g: Shape, v': Volume, p: nat, e: Entry, s: seq<nat>, d: int)
    requires Grows(v, g, v', p, e, s) && d in Grown(g, p, e, s).depth
    ensures FolderOK(v', d)
  {
    if d in g.depth {
      assert FolderOK(v, d);
      if d == p {
        AppendPacked(Dir(v, p), e);
      }
    }
  }

  lemma GrowSlotOK(v: Volume, g: Shape, v': Volume, p: nat, e: Entry, s: seq<nat>, d: int, i: int)
    requires Grows(v, g, v', p, e, s) && Slot(v', Grown(g, p, e, s), d, i)
    ensures SlotOK(v', Grown(g, p, e, s), d, Dir(v', d)[i])
  {
    GrowIsFresh(v, g, v', p, e, s);
    GrowSlot(v, g, v', p, e, s, d, i);
    if !(d == p && i == Fill(Dir(v, p))) {
      assert SlotOK(v, g, d, Dir(v, d)[i]);
      GrowHeads(v, g, v', p, e, s);
    }
  }

  lemma GrowHeads(v: Volume, g: Shape, v': Volume, p: nat, e: Entry, s: seq<nat>)
    requires Grows(v, g, v', p, e, s)
    ensures forall d {:trigger Up(v', d)} {:trigger Dir(v', d)[0]} :: d in g.depth ==> Up(v', d) == Up(v, d) && Dir(v', d)[0] == Dir(v, d)[0]
  {
  }

  lemma GrowFolders(v: Volume, g: Shape, v': Volume, p: nat, e: Entry, s: seq<nat>)
    requires Grows(v, g, v', p, e, s)
    ensures FoldersOK(v', Grown(g, p, e, s))
  {
    var g' := Grown(g, p, e, s);
    forall d | d in g'.depth ensures FolderOK(v', d) {
      GrowFolderOK(v, g, v', p, e, s, d);
    }
    forall d, i | Slot(v', g', d, i) ensures SlotOK(v', g', d, Dir(v', d)[i]) {
      GrowSlotOK(v, g, v', p, e, s, d, i);
    }
  }

  lemma GrowOwned(v: Volume, g: Shape, v': Volume, p: nat, e: Entry, s: seq<nat>, c: int)
    requires Grows(v, g, v', p, e, s) && c in Grown(g, p, e, s).chains
    ensures Owned(v', Grown(g, p, e, s), c)
  {
    var g' := Grown(g, p, e, s);
    if c == e.First() {
      GrowTable(v, g, v', p, e, s);
      assert Owns(v', g', p, Fill(Dir(v, p)), c);
    } else {
      assert Owned(v, g, c);
      var d, i :| Owns(v, g, d, i, c);
      GrowSlotStays(v, g, v', p, e, s, d, i);
      assert Owns(v', g', d, i, c);
    }
  }

  /** The appended entry owns the new chain and only that; the others own what they owned. */
  lemma GrowOwnedBefore(v: Volume, g: Shape, v': Volume, p: nat, e: Entry, s: seq<nat>, d: int, i: int, c: int)
    requires Grows(v, g, v', p, e, s) && Owns(v', Grown(g, p, e, s), d, i, c)
    ensures if c == e.First() then d == p && i == Fill(Dir(v, p)) else Owns(v, g, d, i, c)
  {
    GrowSlot(v, g, v', p, e, s, d, i);
    GrowIsFresh(v, g, v', p, e, s);
    assert Slot(v, g, d, i) ==> SlotOK(v, g, d, Dir(v, d)[i]);
  }

  lemma GrowOwners(v: Volume, g: Shape, v': Volume, p: nat, e: Entry, s: seq<nat>)
    requires Grows(v, g, v', p, e, s)
    ensures OwnersOK(v', Grown(g, p, e, s))
  {
    var g' := Grown(g, p, e, s);
    forall c | c in g'.chains ensures Owned(v', g', c) {
      GrowOwned(v, g, v', p, e, s, c);
    }
    forall d, i, d', i', c | Owns(v', g', d, i, c) && Owns(v', g', d', i', c) ensures d == d' && i == i' {
      GrowOwnedBefore(v, g, v', p, e, s, d, i, c);
      GrowOwnedBefore(v, g, v', p, e, s, d', i', c);
    }
  }

  lemma GrowTree(v: Volume, g: Shape, v': Volume, p: nat, e: Entry, s: seq<nat>)
    requires Grows(v, g, v', p, e, s)
    ensures TreeOK(v', Grown(g, p, e, s))
  {
    GrowIsFresh(v, g, v', p, e, s);
    GrowHeads(v, g, v', p, e, s);
    TreeExtends(v, g, v', Grown(g, p, e, s), e.First(), p);
  }

  lemma TreeExtends(v: Volume, g: Shape, v': Volume, g': Shape, c: nat, p: nat)
    requires TreeOK(v, g) && p in g.depth && c !in g.depth
    requires forall d {:trigger Up(v', d)} :: d in g.depth ==> Up(v', d) == Up(v, d)
    requires g.chains.Keys <= g'.chains.Keys
    requires g'.depth == g.depth || (g'.depth == g.depth[c := g.depth[p] + 1] && Up(v', c) == p && c in g'.chains)
    ensures TreeOK(v', g')
  {
    forall d | d in g'.depth && d != ROOT
      ensures d in g'.chains && Up(v', d) in g'.depth && g'.depth[d] == g'.depth[Up(v', d)] + 1
    {
      if d in g.depth { assert Up(v, d) in g.depth; }
    }
  }

  lemma GrowWellFormed(v: Volume, g: Shape, v': Volume, p: nat, e: Entry, s: seq<nat>)
    requires Grows(v, g, v', p, e, s)
    ensures WellFormed(v', Grown(g, p, e, s))
  {
    GrowChains(v, g, v', p, e, s);
    GrowFolders(v, g, v', p, e, s);
    GrowOwners(v, g, v', p, e, s);
    GrowTree(v, g, v', p, e, s);
  }

  lemma GrowNoLeak(v: Volume, g: Shape, v': Volume, p: nat, e: Entry, s: seq<nat>)
    requires Grows(v, g, v', p, e, s) && NoLeak(v, g)
    requires forall x :: 0 <= x < CLUSTER_MAP_SIZE && x !in s ==> v'.fat[x] == v.fat[x]
    ensures NoLeak(v', Grown(g, p, e, s))
  {
    var g' := Grown(g, p, e, s);
    GrowIsFresh(v, g, v', p, e, s);
    forall x | DataCluster(x) && v'.fat[x] != EMPTY ensures exists c :: c in g'.chains && x in g'.chains[c] {
      if x in s {
        assert e.First() in g'.chains && x in g'.chains[e.First()];
      } else {
        var c :| c in g.chains && x in g.chains[c];
        assert c in g'.chains && x in g'.chains[c];
      }
    }
  }
}
