/** A well-formed volume determines its shape: there is no freedom in the choice of the
    folders, their depths or the chains. */
module ShapeUnique {
  import opened ClusterChains
  import opened Volumes
  import opened VolumePrune

  lemma {:induction false} FolderDetermined(v: Volume, g: Shape, h: Shape, d: nat)
    requires WellFormed(v, g) && WellFormed(v, h) && d in g.depth
    ensures d in h.depth && h.depth[d] == g.depth[d]
    decreases g.depth[d]
  {
    if d != ROOT {
      assert Up(v, d) in g.depth && Owned(v, g, d);
      FolderDetermined(v, g, h, Up(v, d));
      var p, i :| Owns(v, g, p, i, d);
      assert SlotOK(v, g, p, Dir(v, p)[i]);
      OwnedFolder(v, g, p, i);
      assert Slot(v, h, p, i);
      assert SlotOK(v, h, p, Dir(v, p)[i]);
    }
  }

  lemma ChainDetermined(v: Volume, g: Shape, h: Shape, c: nat)
    requires WellFormed(v, g) && WellFormed(v, h) && c in g.chains
    ensures c in h.chains && h.chains[c] == g.chains[c]
  {
    assert Owned(v, g, c);
    var p, i :| Owns(v, g, p, i, c);
    FolderDetermined(v, g, h, p);
    assert Slot(v, h, p, i);
    assert SlotOK(v, h, p, Dir(v, p)[i]);
    ChainHead(v, g, c);
    ChainHead(v, h, c);
    ChainUnique(v.fat, g.chains[c], h.chains[c]);
  }

  /** There is only one shape a volume can be well formed with. */
  lemma ShapeIsDetermined(v: Volume, g: Shape, h: Shape)
    requires WellFormed(v, g) && WellFormed(v, h)
    ensures g == h
  {
    forall d: nat ensures d in g.depth <==> d in h.depth {
      if d in g.depth { FolderDetermined(v, g, h, d); }
      if d in h.depth { FolderDetermined(v, h, g, d); }
    }
    forall d: nat | d in g.depth ensures h.depth[d] == g.depth[d] { FolderDetermined(v, g, h, d); }
    forall c: nat ensures c in g.chains <==> c in h.chains {
      if c in g.chains { ChainDetermined(v, g, h, c); }
      if c in h.chains { ChainDetermined(v, h, g, c); }
    }
    forall c: nat | c in g.chains ensures h.chains[c] == g.chains[c] { ChainDetermined(v, g, h, c); }
    assert g.depth == h.depth && g.chains == h.chains;
  }
}
