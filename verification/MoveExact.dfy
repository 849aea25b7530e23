/** fat32.c: move, without its hypotheses. The code neither asks whether the target is a folder
    of the tree, nor whether it is the source folder or lies below the moved one, nor in which
    slot the search ended; here is exactly when a move that returns 0 keeps the volume. */
module MoveExact {
  import opened Words
  import opened DirectoryLayout
  import opened ClusterChains
  import opened DirectoryTables
  import opened Volumes
  import opened VolumePrune
  import opened VolumeRelink
  import opened Requests
  import opened FileMove

  /** The volume is well formed with the files and folders of shape `g`. */
  ghost predicate Keeps(v: Volume, g': Shape, g: Shape) {
    WellFormed(v, g') && g'.chains.Keys == g.chains.Keys && g'.depth.Keys == g.depth.Keys
  }

  /** Entry `e`, from slot `i` of folder `p` and under its new name, is written to cluster `q`. */
  ghost predicate Sends(v: Volume, g: Shape, p: nat, i: int, q: uint32, e: Entry) {
    && WellFormed(v, g) && p in g.depth && 2 <= p < |v.disk| && q < |v.disk|
    && 0 <= i < TABLE_SIZE && Fill(Dir(v, p)) < TABLE_SIZE && Fill(Dir(v, q)) < TABLE_SIZE
    && e == Dir(v, p)[i].(name := e.name, ext := e.ext)
    && e.First() != q && !Holds(Dir(v, q), e.name, e.ext) && (e.IsFolder() ==> e.First() < |v.disk|)
  }

  /** A move that returns 0 is one that goes to another cluster. */
  lemma GoesIs(v: Volume, g: Shape, src: Request, tar: Request)
    requires WellFormed(v, g) && ParentOK(v, g, src.parent) && OnDisk(v, src, tar)
    ensures Move(v, src, tar).code == 0 <==> Goes(v, src, tar)
    ensures Goes(v, src, tar) ==>
      var p, i, q, e := src.parent, Source(v, src), DestinationOf(v, src, tar).folder, Moved(v, src, tar);
      Sends(v, g, p, i, q, e) && Move(v, src, tar).volume == Transferred(v, p, i, q, e)
  {
    if Goes(v, src, tar) {
      FolderInUse(v, g, src.parent);
      MovedIs(v, src, tar, DestinationOf(v, src, tar).folder, DestinationOf(v, src, tar).renamed);
      DestinationFacts(v, src, tar);
    }
  }

  /** The table of each cluster after the three writes. */
  lemma TransferredDir(v: Volume, g: Shape, p: nat, i: int, q: uint32, e: Entry, d: int)
    requires Sends(v, g, p, i, q, e) && 0 <= d < |v.disk|
    ensures Dir(Transferred(v, p, i, q, e), d) ==
            if d == q then Append(Dir(v, q), e)
            else if d == p then Remove(Dir(v, p), i)
            else if e.IsFolder() && d == e.First() then Reparent(Dir(v, d), e.name, e.ext, q)
            else Dir(v, d)
  {
  }

  /** The content slot that is empty or another's after the move: the source's, or the last when
      the source was not a content. */
  function Vacated(t: Table, i: int): int {
    if i >= 2 then i else Fill(t) - 1
  }

  // ---- Nothing moved ----

  /** The source is an unused slot, found by a name of zeros: the move keeps the volume only if
      it writes zeros over zeros. */
  lemma EmptySourceKeeps(v: Volume, g: Shape, p: nat, i: int, q: uint32, e: Entry, g': Shape)
    requires Sends(v, g, p, i, q, e) && i >= Fill(Dir(v, p))
    ensures if q == p && e == ZERO_ENTRY then Transferred(v, p, i, q, e) == v else !Keeps(Transferred(v, p, i, q, e), g', g)
  {
    var t, v' := Dir(v, p), Transferred(v, p, i, q, e);
    assert FolderOK(v, p);
    TransferredDir(v, g, p, i, q, e, p);
    if q == p {
      if e == ZERO_ENTRY {
        assert Append(t, e) == t;
      } else if Keeps(v', g', g) {
        assert FolderOK(v', p);
        FillIs(Append(t, e), Fill(t));
      }
    } else if Keeps(v', g', g) {
      assert FolderOK(v', p);
      UnusedRemoved(t, i);
    }
  }

  lemma UnusedRemoved(t: Table, i: nat)
    requires Packed(t) && Fill(t) <= i < TABLE_SIZE
    ensures !Packed(Remove(t, i)) || !DotDot(Remove(t, i)[1].name)
  {
    var u := Remove(t, i);
    if Fill(t) > 2 {
      FillIs(u, Fill(t) - 1);
      assert u[i].Used();
    } else {
      assert u[1] == ZERO_ENTRY;
    }
  }

  // ---- Inside one folder ----

  /** Every entry is where it was. */
  ghost predicate EntriesStay(v: Volume, g: Shape, v': Volume) {
    forall d, i {:trigger Slot(v, g, d, i)} :: Slot(v, g, d, i) ==> i < Fill(Dir(v', d)) && Dir(v', d)[i] == Dir(v, d)[i]
  }

  /** Folders stay reachable while every entry stays. */
  lemma {:induction false} FolderStaysReachable(v: Volume, g: Shape, v': Volume, g': Shape, d: int)
    requires WellFormed(v, g) && WellFormed(v', g') && EntriesStay(v, g, v') && d in g.depth
    ensures d in g'.depth
    decreases g.depth[d]
  {
    if d != ROOT {
      assert Up(v, d) in g.depth && Owned(v, g, d);
      var p, i :| Owns(v, g, p, i, d);
      OwnedFolder(v, g, p, i);
      FolderStaysReachable(v, g, v', g', p);
      assert SlotOK(v, g, p, Dir(v, p)[i]);
      assert SlotOK(v', g', p, Dir(v', p)[i]);
    }
  }

  /** The folder's own table is written last, from the copy that still holds the old entry. */
  lemma RenameKeepsEntries(v: Volume, g: Shape, p: uint32, i: int, e: Entry)
    requires Sends(v, g, p, i, p, e) && e.Used()
    ensures var v' := Transferred(v, p, i, p, e);
      EntriesStay(v, g, v') && Fill(Dir(v', p)) == Fill(Dir(v, p)) + 1 && Dir(v', p)[Fill(Dir(v, p))] == e
  {
    var v' := Transferred(v, p, i, p, e);
    assert FolderOK(v, p);
    AppendPacked(Dir(v, p), e);
    TransferredDir(v, g, p, i, p, e, p);
    forall d, j | Slot(v, g, d, j) ensures j < Fill(Dir(v', d)) && Dir(v', d)[j] == Dir(v, d)[j] {
      FolderInUse(v, g, d);
      TransferredDir(v, g, p, i, p, e, d);
      ReparentKeeps(Dir(v, d), e.name, e.ext, p);
    }
  }

  /** After a move of a content inside one folder two entries of that folder start at the same
      cluster, so the volume is well formed with no shape at all. */
  lemma WithinFolderBreaks(v: Volume, g: Shape, src: Request, tar: Request, g': Shape)
    requires WellFormed(v, g) && ParentOK(v, g, src.parent) && OnDisk(v, src, tar) && Move(v, src, tar).code == 0
    requires 2 <= Source(v, src) < Fill(Dir(v, src.parent)) && DestinationOf(v, src, tar).folder == src.parent
    ensures !WellFormed(Move(v, src, tar).volume, g')
  {
    var p, i, e, v' := src.parent, Source(v, src), Moved(v, src, tar), Move(v, src, tar).volume;
    GoesIs(v, g, src, tar);
    RenameKeepsEntries(v, g, p, i, e);
    if WellFormed(v', g') {
      FolderStaysReachable(v, g, v', g', p);
      assert Owns(v', g', p, i, e.First()) && Owns(v', g', p, Fill(Dir(v, p)), e.First());
    }
  }

  /** The same for an entry found in slot 0 or 1, whose cluster some content already has or no
      file or folder does. */
  lemma SamePlaceBreaks(v: Volume, g: Shape, p: uint32, i: int, e: Entry, g': Shape)
    requires Sends(v, g, p, i, p, e) && i < Fill(Dir(v, p))
    ensures !Keeps(Transferred(v, p, i, p, e), g', g)
  {
    var v', n := Transferred(v, p, i, p, e), Fill(Dir(v, p));
    if Keeps(v', g', g) {
      if e.Used() {
        RenameKeepsEntries(v, g, p, i, e);
        assert SlotOK(v', g', p, Dir(v', p)[n]);
        assert Owned(v, g, e.First());
        var d, j :| Owns(v, g, d, j, e.First());
        assert Slot(v, g, d, j);
        assert Owns(v', g', d, j, e.First()) && Owns(v', g', p, n, e.First());
      } else {
        UnusedAppended(v, g, p, i, e);
      }
    }
  }

  /** Only the entry of the parent can be unused, and it is not all zeros. */
  lemma UnusedAppended(v: Volume, g: Shape, p: uint32, i: int, e: Entry)
    requires Sends(v, g, p, i, p, e) && i < Fill(Dir(v, p)) && !e.Used()
    ensures !FolderOK(Transferred(v, p, i, p, e), p)
  {
    assert FolderOK(v, p);
    assert Up(v, p) in g.depth;
    FolderInUse(v, g, Up(v, p));
    TransferredDir(v, g, p, i, p, e, p);
    FillIs(Append(Dir(v, p), e), Fill(Dir(v, p)));
  }

  // ---- To another cluster ----

  /** A slot after the move is the appended one or holds the entry of an old slot, and never that
      of the vacated one. */
  lemma SlotBefore(v: Volume, g: Shape, p: nat, i: int, q: uint32, e: Entry, d: int, j: int) returns (j0: int)
    requires Sends(v, g, p, i, q, e) && q != p && i < Fill(Dir(v, p)) && (i >= 2 || Fill(Dir(v, p)) > 2)
    requires d in g.depth && 2 <= j < Fill(Dir(Transferred(v, p, i, q, e), d))
    ensures var f := Dir(Transferred(v, p, i, q, e), d)[j];
      if d == q && j == Fill(Dir(v, q)) then f == e && e.Used()
      else Slot(v, g, d, j0) && f == Dir(v, d)[j0] && !(d == p && j0 == Vacated(Dir(v, p), i))
  {
    assert FolderOK(v, d);
    FolderInUse(v, g, d);
    TransferredDir(v, g, p, i, q, e, d);
    j0 := if d == p && j == i then Fill(Dir(v, p)) - 1 else j;
    if d == p {
      RemovedSlot(Dir(v, p), i, j);
    } else if d == q {
      AppendedSlot(Dir(v, q), e, j);
    } else {
      ReparentKeeps(Dir(v, d), e.name, e.ext, q);
    }
  }

  lemma RemovedSlot(t: Table, i: int, j: int)
    requires Packed(t) && 0 <= i < Fill(t) && (i >= 2 || Fill(t) > 2) && 2 <= j < Fill(Remove(t, i))
    ensures var j0 := if j == i then Fill(t) - 1 else j;
      2 <= j0 < Fill(t) && Remove(t, i)[j] == t[j0] && j0 != Vacated(t, i)
  {
    FillIs(Remove(t, i), Fill(t) - 1);
  }

  lemma AppendedSlot(t: Table, e: Entry, j: int)
    requires Packed(t) && Fill(t) < TABLE_SIZE && 2 <= j < Fill(Append(t, e))
    ensures if j == Fill(t) then Append(t, e)[j] == e && e.Used() else j < Fill(t) && Append(t, e)[j] == t[j]
  {
    FillIs(Append(t, e), if e.Used() then Fill(t) + 1 else Fill(t));
  }

  /** The vacated slot's chain needs an owner, and only the entry that was sent can be it: so the
      target is a folder of the tree and the entry starts that chain. */
  lemma OwnerIsSent(v: Volume, g: Shape, p: nat, i: int, q: uint32, e: Entry, g': Shape)
    requires Sends(v, g, p, i, q, e) && q != p && i < Fill(Dir(v, p)) && Keeps(Transferred(v, p, i, q, e), g', g)
    ensures i >= 2 || Fill(Dir(v, p)) > 2
    ensures q in g.depth && e.Used() && e.First() == Dir(v, p)[Vacated(Dir(v, p), i)].First()
    ensures Slot(Transferred(v, p, i, q, e), g', q, Fill(Dir(v, q))) && Dir(Transferred(v, p, i, q, e), q)[Fill(Dir(v, q))] == e
  {
    var t, v' := Dir(v, p), Transferred(v, p, i, q, e);
    if i < 2 && Fill(t) == 2 {
      assert FolderOK(v', p);
      TransferredDir(v, g, p, i, q, e, p);
    } else {
      var k := Vacated(t, i);
      var c := t[k].First();
      assert Owns(v, g, p, k, c);
      assert SlotOK(v, g, p, t[k]);
      assert Owned(v', g', c);
      var d, j :| Owns(v', g', d, j, c);
      var j0 := SlotBefore(v, g, p, i, q, e, d, j);
      assert !(d == q && j == Fill(Dir(v, q))) ==> Owns(v, g, d, j0, c);
    }
  }

  /** Going up from a folder under `c` leads through `c`, also after the move. */
  lemma {:induction false} NoShallowerThan(v: Volume, g: Shape, v': Volume, g': Shape, x: int, c: int)
    requires TreeOK(v, g) && TreeOK(v', g') && g'.depth.Keys == g.depth.Keys
    requires forall d {:trigger Up(v', d)} :: d in g.depth && d != c ==> Up(v', d) == Up(v, d)
    requires x in g.depth && c in g.depth && Under(v, g, x, c)
    ensures g'.depth[x] >= g'.depth[c]
    decreases g.depth[x]
  {
    if x != c {
      assert Up(v, x) in g.depth && Up(v', x) in g'.depth;
      NoShallowerThan(v, g, v', g', Up(v, x), c);
    }
  }

  /** A folder sent below itself has ".." lead round in a circle. */
  lemma CircleBreaks(v: Volume, g: Shape, p: nat, i: int, q: uint32, e: Entry, g': Shape)
    requires Sends(v, g, p, i, q, e) && q != p && i < Fill(Dir(v, p)) && i != 1
    requires q in g.depth && Under(v, g, q, e.First())
    ensures !Keeps(Transferred(v, p, i, q, e), g', g)
  {
    var c, v' := e.First(), Transferred(v, p, i, q, e);
    if Keeps(v', g', g) {
      OwnerIsSent(v, g, p, i, q, e, g');
      UnderIsDeeper(v, g, q, c);
      assert SlotOK(v', g', q, Dir(v', q)[Fill(Dir(v, q))]);
      ChainHead(v', g', c);
      forall d | d in g.depth && d != c ensures Up(v', d) == Up(v, d) {
        FolderInUse(v, g, d);
        TransferredDir(v, g, p, i, q, e, d);
      }
      NoShallowerThan(v, g, v', g', q, c);
    }
  }

  /** After a move of a content into the moved folder the volume is not well formed with its
      files and folders. */
  lemma IntoItselfBreaks(v: Volume, g: Shape, src: Request, tar: Request, g': Shape)
    requires WellFormed(v, g) && ParentOK(v, g, src.parent) && OnDisk(v, src, tar) && Move(v, src, tar).code == 0
    requires 2 <= Source(v, src) < Fill(Dir(v, src.parent))
    requires var q := DestinationOf(v, src, tar).folder;
      q in g.depth && q != src.parent && Under(v, g, q, Moved(v, src, tar).First())
    ensures !Keeps(Move(v, src, tar).volume, g', g)
  {
    GoesIs(v, g, src, tar);
    CircleBreaks(v, g, src.parent, Source(v, src), DestinationOf(v, src, tar).folder, Moved(v, src, tar), g');
  }

  /** After a move of a content to a cluster that is no folder of the tree, what was moved belongs to no entry. */
  lemma OutsideTreeBreaks(v: Volume, g: Shape, src: Request, tar: Request, g': Shape)
    requires WellFormed(v, g) && ParentOK(v, g, src.parent) && OnDisk(v, src, tar) && Move(v, src, tar).code == 0
    requires 2 <= Source(v, src) < Fill(Dir(v, src.parent)) && DestinationOf(v, src, tar).folder !in g.depth
    ensures !Keeps(Move(v, src, tar).volume, g', g)
  {
    GoesIs(v, g, src, tar);
    if Keeps(Move(v, src, tar).volume, g', g) {
      OwnerIsSent(v, g, src.parent, Source(v, src), DestinationOf(v, src, tar).folder, Moved(v, src, tar), g');
    }
  }

  // ---- From slot 1 ----

  /** The entry of the folder's parent never starts the chain of the last content. */
  lemma ParentEntryBreaks(v: Volume, g: Shape, p: nat, q: uint32, e: Entry, g': Shape)
    requires Sends(v, g, p, 1, q, e) && q != p
    ensures !Keeps(Transferred(v, p, 1, q, e), g', g)
  {
    if Keeps(Transferred(v, p, 1, q, e), g', g) {
      OwnerIsSent(v, g, p, 1, q, e, g');
      ParentIsNoContent(v, g, p, Fill(Dir(v, p)) - 1);
    }
  }

  lemma ParentIsNoContent(v: Volume, g: Shape, p: int, i: int)
    requires WellFormed(v, g) && Slot(v, g, p, i)
    ensures Dir(v, p)[i].First() != Up(v, p)
  {
    OwnedFolder(v, g, p, i);
    assert Up(v, p) in g.depth && (p != ROOT ==> g.depth[p] == g.depth[Up(v, p)] + 1);
  }

  // ---- From slot 0 ----

  /** Folder `p`'s entry of itself and its last content describe the same file or folder, and the
      last content can stand in as the folder's entry of itself. */
  ghost predicate Interchangeable(v: Volume, g: Shape, p: int) {
    var t := Dir(v, p);
    && Fill(t) > 2 && SameNode(t[0], t[Fill(t) - 1])
    && forall d, j {:trigger Owns(v, g, d, j, p)} :: Owns(v, g, d, j, p) ==> SelfNamed(t[Fill(t) - 1], Dir(v, d)[j])
  }

  lemma SelfEntryNeeds(v: Volume, g: Shape, p: nat, q: uint32, e: Entry, g': Shape)
    requires Sends(v, g, p, 0, q, e) && q != p && Keeps(Transferred(v, p, 0, q, e), g', g)
    ensures Interchangeable(v, g, p)
  {
    var t, v' := Dir(v, p), Transferred(v, p, 0, q, e);
    OwnerIsSent(v, g, p, 0, q, e, g');
    var n := Fill(t) - 1;
    assert Slot(v, g, p, n);
    assert SlotOK(v, g, p, t[n]);
    assert SlotOK(v', g', q, Dir(v', q)[Fill(Dir(v, q))]);
    ChainHead(v, g, e.First());
    ChainHead(v', g', e.First());
    ChainUnique(v.fat, g.chains[e.First()], g'.chains[e.First()]);
    forall d, j | Owns(v, g, d, j, p) ensures SelfNamed(t[n], Dir(v, d)[j]) {
      SelfEntryNamed(v, g, p, q, e, g', d, j);
    }
  }

  /** The last content, in slot 0 after the move, repeats the name of the folder's own entry. */
  lemma SelfEntryNamed(v: Volume, g: Shape, p: nat, q: uint32, e: Entry, g': Shape, d: int, j: int)
    requires Sends(v, g, p, 0, q, e) && q != p && Keeps(Transferred(v, p, 0, q, e), g', g) && Owns(v, g, d, j, p)
    ensures SelfNamed(Dir(v, p)[Fill(Dir(v, p)) - 1], Dir(v, d)[j])
  {
    var t, v' := Dir(v, p), Transferred(v, p, 0, q, e);
    OwnerIsSent(v, g, p, 0, q, e, g');
    assert SlotOK(v, g, d, Dir(v, d)[j]);
    assert Owned(v', g', p);
    var d', j' :| Owns(v', g', d', j', p);
    var j0 := SlotBefore(v, g, p, 0, q, e, d', j');
    ParentStays(v, g, p, Fill(t) - 1);
    assert Owns(v, g, d', j0, p);
    assert SlotOK(v', g', d', Dir(v', d')[j']);
    TransferredDir(v, g, p, 0, q, e, p);
  }

  /** Replacing a folder's entry of itself by a used one with the folder's name keeps the volume. */
  lemma NewSelfEntry(w: Volume, h: Shape, w': Volume, p: int, f: Entry)
    requires WellFormed(w, h) && HeaderOK(w') && w'.fat == w.fat && p in h.depth && f.Used()
    requires Dir(w', p) == Dir(w, p)[0 := f]
    requires forall d {:trigger Dir(w', d)} :: d in h.depth && d != p ==> Dir(w', d) == Dir(w, d)
    requires forall d, j {:trigger Owns(w, h, d, j, p)} :: Owns(w, h, d, j, p) ==> SelfNamed(f, Dir(w, d)[j])
    ensures WellFormed(w', h)
  {
    FillIs(Dir(w', p), Fill(Dir(w, p)));
    forall d | d in h.depth ensures SameButSelf(w, w', d) {
      assert d != p ==> Dir(w', d) == Dir(w, d);
    }
    NewSelfFolders(w, h, w', p, f);
    NewSelfOwners(w, h, w');
    NewSelfTree(w, h, w');
  }

  lemma NewSelfOwners(w: Volume, h: Shape, w': Volume)
    requires OwnersOK(w, h)
    requires forall d {:trigger SameButSelf(w, w', d)} :: d in h.depth ==> SameButSelf(w, w', d)
    ensures OwnersOK(w', h)
  {
    forall c | c in h.chains ensures Owned(w', h, c) {
      assert Owned(w, h, c);
      var d, i :| Owns(w, h, d, i, c);
      assert SameButSelf(w, w', d);
      assert Owns(w', h, d, i, c);
    }
    forall d, i, e, j, c: int | Owns(w', h, d, i, c) && Owns(w', h, e, j, c) ensures d == e && i == j {
      assert SameButSelf(w, w', d) && SameButSelf(w, w', e);
      assert Owns(w, h, d, i, c) && Owns(w, h, e, j, c);
    }
  }

  lemma NewSelfTree(w: Volume, h: Shape, w': Volume)
    requires TreeOK(w, h)
    requires forall d {:trigger SameButSelf(w, w', d)} :: d in h.depth ==> SameButSelf(w, w', d)
    ensures TreeOK(w', h)
  {
    assert SameButSelf(w, w', ROOT);
    forall d | d in h.depth && d != ROOT
      ensures d in h.chains && Up(w', d) in h.depth && h.depth[d] == h.depth[Up(w', d)] + 1
    {
      assert SameButSelf(w, w', d);
      assert Up(w, d) in h.depth;
    }
  }

  /** Folder `d` has the same slots but, possibly, its entry of itself. */
  ghost predicate SameButSelf(w: Volume, w': Volume, d: int) {
    Fill(Dir(w', d)) == Fill(Dir(w, d)) && forall j :: 1 <= j < TABLE_SIZE ==> Dir(w', d)[j] == Dir(w, d)[j]
  }

  lemma NewSelfFolders(w: Volume, h: Shape, w': Volume, p: int, f: Entry)
    requires FoldersOK(w, h) && p in h.depth && f.Used() && Dir(w', p) == Dir(w, p)[0 := f]
    requires forall d {:trigger SameButSelf(w, w', d)} :: d in h.depth ==> SameButSelf(w, w', d)
    requires forall d {:trigger Dir(w', d)} :: d in h.depth && d != p ==> Dir(w', d) == Dir(w, d)
    requires forall d, j {:trigger Owns(w, h, d, j, p)} :: Owns(w, h, d, j, p) ==> SelfNamed(f, Dir(w, d)[j])
    ensures FoldersOK(w', h)
  {
    forall d | d in h.depth ensures FolderOK(w', d) {
      assert SameButSelf(w, w', d) && FolderOK(w, d);
      assert d != p ==> Dir(w', d) == Dir(w, d);
    }
    forall d, i | Slot(w', h, d, i) ensures SlotOK(w', h, d, Dir(w', d)[i]) {
      assert SameButSelf(w, w', d);
      assert Slot(w, h, d, i);
      assert SlotOK(w, h, d, Dir(w, d)[i]);
      var c := Dir(w, d)[i].First();
      assert Owns(w, h, d, i, c);
      if c in h.depth {
        assert SameButSelf(w, w', c);
        assert c != p ==> Dir(w', c) == Dir(w, c);
      }
    }
  }

  /** The move of the last content under the sent entry's name: all of the move but slot 0. */
  ghost function LastInstead(v: Volume, p: nat, q: uint32, e: Entry): Volume
    requires p < |v.disk| && q < |v.disk| && Fill(Dir(v, q)) < TABLE_SIZE && (e.IsFolder() ==> e.First() < |v.disk|)
  {
    Transferred(v, p, Fill(Dir(v, p)) - 1, q, e)
  }

  lemma SelfEntrySuffices(v: Volume, g: Shape, p: nat, q: uint32, e: Entry)
    requires Sends(v, g, p, 0, q, e) && q != p && q in g.depth && !Under(v, g, q, e.First()) && Interchangeable(v, g, p)
    ensures Keeps(Transferred(v, p, 0, q, e), Relinked(v, g, e.First(), q), g)
  {
    var t, v', w, h := Dir(v, p), Transferred(v, p, 0, q, e), LastInstead(v, p, q, e), Relinked(v, g, e.First(), q);
    var n := Fill(t) - 1;
    assert Slot(v, g, p, n);
    LastInsteadRelinks(v, g, p, q, e);
    LastInsteadHeader(v, g, p, q, e);
    LastInsteadWrites(v, g, p, q, e);
    RelinkWellFormed(v, g, w, p, n, q, e);
    FolderInUse(v, g, q);
    forall d | d in h.depth && d != p ensures Dir(v', d) == Dir(w, d) {
      LastInsteadElsewhere(v, g, p, q, e, d);
    }
    forall d, j | Owns(w, h, d, j, p) ensures SelfNamed(t[n], Dir(w, d)[j]) {
      LastInsteadNames(v, g, w, p, n, q, e, d, j);
    }
    NewSelfEntry(w, h, v', p, t[n]);
  }

  lemma LastInsteadElsewhere(v: Volume, g: Shape, p: nat, q: uint32, e: Entry, d: int)
    requires Sends(v, g, p, 0, q, e) && d in g.depth && d != p
    ensures Dir(Transferred(v, p, 0, q, e), d) == Dir(LastInstead(v, p, q, e), d)
  {
  }

  lemma LastInsteadNames(v: Volume, g: Shape, w: Volume, p: int, n: int, q: uint32, e: Entry, d: int, j: int)
    requires Relinks(v, g, w, p, n, q, e) && Owns(w, Relinked(v, g, e.First(), q), d, j, p)
    requires Interchangeable(v, g, p) && n == Fill(Dir(v, p)) - 1
    ensures SelfNamed(Dir(v, p)[n], Dir(w, d)[j])
  {
    RelinkSlot(v, g, w, p, n, q, e, d, j);
    ParentStays(v, g, p, n);
    var o := Origin(v, p, n, q, d, j);
    assert Owns(v, g, o.0, o.1, p);
  }

  lemma LastInsteadRelinks(v: Volume, g: Shape, p: nat, q: uint32, e: Entry)
    requires Sends(v, g, p, 0, q, e) && q != p && q in g.depth && !Under(v, g, q, e.First()) && Interchangeable(v, g, p)
    ensures Relinks(v, g, LastInstead(v, p, q, e), p, Fill(Dir(v, p)) - 1, q, e)
  {
    assert FolderOK(v, p);
    assert Slot(v, g, p, Fill(Dir(v, p)) - 1);
    TransferRelinks(v, g, p, Fill(Dir(v, p)) - 1, q, e);
  }

  lemma LastInsteadHeader(v: Volume, g: Shape, p: nat, q: uint32, e: Entry)
    requires Sends(v, g, p, 0, q, e) && q in g.depth && Slot(v, g, p, Fill(Dir(v, p)) - 1)
    requires e.First() == Dir(v, p)[Fill(Dir(v, p)) - 1].First()
    ensures HeaderOK(Transferred(v, p, 0, q, e))
  {
    FolderInUse(v, g, q);
    assert SlotOK(v, g, p, Dir(v, p)[Fill(Dir(v, p)) - 1]);
    ChainHead(v, g, e.First());
    HeaderStays(v, p, 0, q, e);
  }

  lemma HeaderStays(v: Volume, p: nat, i: int, q: uint32, e: Entry)
    requires HeaderOK(v) && 2 <= p < |v.disk| && 2 <= q < |v.disk| && 0 <= i < TABLE_SIZE && Fill(Dir(v, q)) < TABLE_SIZE
    requires 2 <= e.First() < |v.disk|
    ensures HeaderOK(Transferred(v, p, i, q, e))
  {
  }

  lemma LastInsteadWrites(v: Volume, g: Shape, p: nat, q: uint32, e: Entry)
    requires Sends(v, g, p, 0, q, e) && q != p && Fill(Dir(v, p)) > 2
    ensures var v', w := Transferred(v, p, 0, q, e), LastInstead(v, p, q, e);
      v'.fat == w.fat && Dir(v', p) == Dir(w, p)[0 := Dir(v, p)[Fill(Dir(v, p)) - 1]]
  {
    var t, n := Dir(v, p), Fill(Dir(v, p)) - 1;
    assert Remove(t, 0) == Remove(t, n)[0 := t[n]];
  }

  // ---- Exactly the moves that keep the volume ----

  /** The move takes a content to another folder of the tree, outside the moved one; or entry 0,
      where that comes to the same; or it writes zeros over zeros. */
  ghost predicate Sound(v: Volume, g: Shape, src: Request, tar: Request)
    requires TreeOK(v, g) && Goes(v, src, tar)
  {
    SoundSend(v, g, src.parent, Source(v, src), DestinationOf(v, src, tar).folder, Moved(v, src, tar))
  }

  ghost predicate SoundSend(v: Volume, g: Shape, p: nat, i: int, q: uint32, e: Entry)
    requires TreeOK(v, g)
  {
    if i >= Fill(Dir(v, p)) then q == p && e == ZERO_ENTRY
    else q in g.depth && q != p && !Under(v, g, q, e.First()) && (i >= 2 || (i == 0 && Interchangeable(v, g, p)))
  }

  lemma SoundKeeps(v: Volume, g: Shape, src: Request, tar: Request)
    requires WellFormed(v, g) && ParentOK(v, g, src.parent) && OnDisk(v, src, tar) && Goes(v, src, tar) && Sound(v, g, src, tar)
    ensures exists g' :: Keeps(Move(v, src, tar).volume, g', g)
  {
    GoesIs(v, g, src, tar);
    var g' := SoundSendKeeps(v, g, src.parent, Source(v, src), DestinationOf(v, src, tar).folder, Moved(v, src, tar));
  }

  lemma SoundSendKeeps(v: Volume, g: Shape, p: nat, i: int, q: uint32, e: Entry) returns (g': Shape)
    requires Sends(v, g, p, i, q, e) && SoundSend(v, g, p, i, q, e)
    ensures Keeps(Transferred(v, p, i, q, e), g', g)
  {
    if i >= Fill(Dir(v, p)) {
      EmptySourceKeeps(v, g, p, i, q, e, g);
      return g;
    }
    if i == 0 { SelfEntrySuffices(v, g, p, q, e); } else { ContentSuffices(v, g, p, i, q, e); }
    return Relinked(v, g, e.First(), q);
  }

  /** A content sent to another folder of the tree that is not below it keeps the files and folders. */
  lemma ContentSuffices(v: Volume, g: Shape, p: nat, i: int, q: uint32, e: Entry)
    requires Sends(v, g, p, i, q, e) && q != p && q in g.depth && !Under(v, g, q, e.First()) && 2 <= i < Fill(Dir(v, p))
    ensures Keeps(Transferred(v, p, i, q, e), Relinked(v, g, e.First(), q), g)
  {
    assert Slot(v, g, p, i);
    RenamedIsSame(v, g, p, i, e);
    TransferRelinks(v, g, p, i, q, e);
    RelinkWellFormed(v, g, Transferred(v, p, i, q, e), p, i, q, e);
  }

  lemma KeepsSound(v: Volume, g: Shape, src: Request, tar: Request, g': Shape)
    requires WellFormed(v, g) && ParentOK(v, g, src.parent) && OnDisk(v, src, tar) && Goes(v, src, tar)
    requires Keeps(Move(v, src, tar).volume, g', g)
    ensures Sound(v, g, src, tar)
  {
    GoesIs(v, g, src, tar);
    KeepsSoundSend(v, g, src.parent, Source(v, src), DestinationOf(v, src, tar).folder, Moved(v, src, tar), g');
  }

  lemma KeepsSoundSend(v: Volume, g: Shape, p: nat, i: int, q: uint32, e: Entry, g': Shape)
    requires Sends(v, g, p, i, q, e) && Keeps(Transferred(v, p, i, q, e), g', g)
    ensures SoundSend(v, g, p, i, q, e)
  {
    if i >= Fill(Dir(v, p)) {
      EmptySourceKeeps(v, g, p, i, q, e, g');
    } else if q == p {
      SamePlaceBreaks(v, g, p, i, e, g');
    } else if i == 1 {
      ParentEntryBreaks(v, g, p, q, e, g');
    } else {
      OwnerIsSent(v, g, p, i, q, e, g');
      if Under(v, g, q, e.First()) {
        CircleBreaks(v, g, p, i, q, e, g');
      }
      if i == 0 {
        SelfEntryNeeds(v, g, p, q, e, g');
      }
    }
  }

  /** Whatever slot the source is found in and whatever cluster the target names, a move that
      returns 0 leaves a volume well formed with the same files and folders if and only if it is sound. */
  lemma MoveKeepsExactly(v: Volume, g: Shape, src: Request, tar: Request)
    requires WellFormed(v, g) && ParentOK(v, g, src.parent) && OnDisk(v, src, tar) && Move(v, src, tar).code == 0
    ensures Goes(v, src, tar)
    ensures (exists g' :: Keeps(Move(v, src, tar).volume, g', g)) <==> Sound(v, g, src, tar)
  {
    GoesIs(v, g, src, tar);
    if Sound(v, g, src, tar) {
      SoundKeeps(v, g, src, tar);
    } else if exists g' :: Keeps(Move(v, src, tar).volume, g', g) {
      var g' :| Keeps(Move(v, src, tar).volume, g', g);
      KeepsSound(v, g, src, tar, g');
    }
  }
}
