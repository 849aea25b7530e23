/** fat32.c: move. Moving a file or a folder by changing directory entries only. */
module FileMove {
  import opened Words
  import opened DirectoryLayout
  import opened ClusterChains
  import opened DirectoryTables
  import opened Volumes
  import opened VolumePrune
  import opened VolumeRelink
  import opened Requests

  // ---- What the operation does ----

  /** Where an entry goes: under a new name into the folder the target request names as parent,
      or under its own name into the existing folder the target request names. */
  datatype Destination = Clash | NoRoom | Into(folder: uint32, renamed: bool)

  /** The source slot; the search starts at slot 0. */
  ghost function Source(v: Volume, src: Request): (i: nat)
    ensures i <= TABLE_SIZE
  {
    Find(Dir(v, src.parent), 0, src.name, src.ext)
  }

  ghost function Place(v: Volume, folder: uint32, name: Name, ext: Extension, renamed: bool): Destination {
    if Holds(Dir(v, folder), name, ext) then Clash
    else if Fill(Dir(v, folder)) == TABLE_SIZE then NoRoom
    else Into(folder, renamed)
  }

  ghost function DestinationOf(v: Volume, src: Request, tar: Request): Destination {
    var t := Dir(v, tar.parent);
    if Holds(t, tar.name, tar.ext) && t[Find(t, 2, tar.name, tar.ext)].IsFolder()
    then Place(v, t[Find(t, 2, tar.name, tar.ext)].First(), src.name, src.ext, false)
    else Place(v, tar.parent, tar.name, tar.ext, true)
  }

  /** What move asks of its caller: the target's parent is a folder, the source is not slot 0,
      slot 1 or a zeroed slot, and the folder it leaves is not full. */
  ghost predicate CanMove(v: Volume, g: Shape, src: Request, tar: Request) {
    var t := Dir(v, src.parent);
    t[0].Used() && Source(v, src) < TABLE_SIZE ==>
      tar.parent in g.depth && 2 <= Source(v, src) < Fill(t) < TABLE_SIZE
  }

  ghost predicate FindsSource(v: Volume, g: Shape, src: Request, tar: Request) {
    CanMove(v, g, src, tar) && Dir(v, src.parent)[0].Used() && Source(v, src) < TABLE_SIZE
  }

  ghost function Moved(v: Volume, src: Request, tar: Request): Entry
    requires Source(v, src) < TABLE_SIZE
  {
    var e := Dir(v, src.parent)[Source(v, src)];
    if DestinationOf(v, src, tar) == Into(tar.parent, true) then e.(name := tar.name, ext := tar.ext) else e
  }

  /** The three table writes, in the order the code makes them. */
  ghost function Transferred(v: Volume, p: nat, i: int, q: uint32, e: Entry): Volume
    requires p < |v.disk| && q < |v.disk| && 0 <= i < TABLE_SIZE && Fill(Dir(v, q)) < TABLE_SIZE
    requires e.IsFolder() ==> e.First() < |v.disk|
  {
    var d0 := if e.IsFolder() then v.disk[e.First() := TableImage(Reparent(Dir(v, e.First()), e.name, e.ext, q))] else v.disk;
    Volume(v.fat, d0[p := TableImage(Remove(Dir(v, p), i))][q := TableImage(Append(Dir(v, q), e))])
  }

  ghost predicate Moves(v: Volume, g: Shape, src: Request, tar: Request) {
    && FindsSource(v, g, src, tar)
    && DestinationOf(v, src, tar).Into?
    && Moved(v, src, tar).First() != DestinationOf(v, src, tar).folder
  }

  /** The clusters a move looks at exist. */
  ghost predicate TargetOnDisk(v: Volume, tar: Request) {
    && tar.parent < |v.disk|
    && var t := Dir(v, tar.parent);
    && (Holds(t, tar.name, tar.ext) && t[Find(t, 2, tar.name, tar.ext)].IsFolder() ==>
          t[Find(t, 2, tar.name, tar.ext)].First() < |v.disk|)
  }

  /** The entry the search finds goes to another cluster. */
  ghost predicate Goes(v: Volume, src: Request, tar: Request) {
    && Dir(v, src.parent)[0].Used() && Source(v, src) < TABLE_SIZE
    && DestinationOf(v, src, tar).Into?
    && Dir(v, src.parent)[Source(v, src)].First() != DestinationOf(v, src, tar).folder
  }

  /** Every cluster a move reads exists, and if it gets as far as writing, the table it takes an
      entry from is not full. The entry may be one of any slot, and the target any cluster. */
  ghost predicate OnDisk(v: Volume, src: Request, tar: Request) {
    && src.parent < |v.disk|
    && var t := Dir(v, src.parent);
    && (t[0].Used() && Source(v, src) < TABLE_SIZE ==> TargetOnDisk(v, tar))
    && (Goes(v, src, tar) ==>
          Fill(t) < TABLE_SIZE && (t[Source(v, src)].IsFolder() ==> t[Source(v, src)].First() < |v.disk|))
  }

  ghost function Move(v: Volume, src: Request, tar: Request): Outcome
    requires OnDisk(v, src, tar)
  {
    if !Dir(v, src.parent)[0].Used() then Outcome(-1, v)
    else if Source(v, src) == TABLE_SIZE then Outcome(1, v)
    else match DestinationOf(v, src, tar)
      case Clash => Outcome(2, v)
      case NoRoom => Outcome(3, v)
      case Into(q, _) =>
        if Moved(v, src, tar).First() == q then Outcome(4, v)
        else
          DestinationIs(v, src, tar);
          DestinationFacts(v, src, tar);
          Outcome(0, Transferred(v, src.parent, Source(v, src), q, Moved(v, src, tar)))
  }

  // ---- What it answers ----

  /** What comes of putting entry `e` under the given name into folder `q`: 2 when the folder lists
      the name, 3 when it has no slot free, 4 when the entry starts at the folder's own cluster, and
      otherwise 0, with the entry, renamed, in the first free slot. */
  ghost predicate Answers(v: Volume, o: Outcome, e: Entry, q: uint32, name: Name, ext: Extension) {
    var t := Dir(v, q);
    if exists i :: Lists(t, i, name, ext) then o == Outcome(2, v)
    else if NoneFree(t) then o == Outcome(3, v)
    else if e.First() == q then o == Outcome(4, v)
    else
      && o.code == 0 && o.volume.fat == v.fat
      && exists i :: FirstFree(t, i) && Dir(o.volume, q) == t[i := e.(name := name, ext := ext)]
  }

  /** All that a move answers, over the slots of any tables: -1 for a parent that is no folder, 1
      exactly when no slot has the source's name, and otherwise what comes of putting the first
      entry of that name, under its own name, into the folder the target lists, or, where the
      target is not listed as a folder, into the target's parent under the target's name. */
  lemma MoveAnswers(v: Volume, src: Request, tar: Request)
    requires OnDisk(v, src, tar)
    ensures var o, t, u := Move(v, src, tar), Dir(v, src.parent), Dir(v, tar.parent);
      if t[0].userAttribute != 0xAA then o == Outcome(-1, v)
      else if NoneNamed(t, 0, src.name, src.ext) then o == Outcome(1, v)
      else forall i :: FirstNamed(t, 0, i, src.name, src.ext) ==>
        && (forall j :: Lists(u, j, tar.name, tar.ext) && u[j].attribute == 0x10 ==>
              Answers(v, o, t[i], u[j].First(), src.name, src.ext))
        && ((forall j :: Lists(u, j, tar.name, tar.ext) ==> u[j].attribute != 0x10) ==>
              Answers(v, o, t[i], tar.parent, tar.name, tar.ext))
  {
    var t, u := Dir(v, src.parent), Dir(v, tar.parent);
    SearchIs(t, 0, src.name, src.ext);
    if t[0].Used() && Source(v, src) < TABLE_SIZE {
      ScansAre(u, tar.name, tar.ext);
      if Holds(u, tar.name, tar.ext) && u[Find(u, 2, tar.name, tar.ext)].IsFolder() {
        PlaceAnswers(v, src, tar, u[Find(u, 2, tar.name, tar.ext)].First(), src.name, src.ext, false);
      } else {
        PlaceAnswers(v, src, tar, tar.parent, tar.name, tar.ext, true);
      }
    }
  }

  lemma PlaceAnswers(v: Volume, src: Request, tar: Request, q: uint32, name: Name, ext: Extension, renamed: bool)
    requires OnDisk(v, src, tar) && Dir(v, src.parent)[0].Used() && Source(v, src) < TABLE_SIZE
    requires DestinationOf(v, src, tar) == Place(v, q, name, ext, renamed)
    requires if renamed then q == tar.parent && name == tar.name && ext == tar.ext else name == src.name && ext == src.ext
    ensures Answers(v, Move(v, src, tar), Dir(v, src.parent)[Source(v, src)], q, name, ext)
  {
    ScansAre(Dir(v, q), name, ext);
    if Place(v, q, name, ext, renamed).Into? {
      PlaceFacts(v, q, name, ext, renamed);
      MovedIs(v, src, tar, q, renamed);
      if Moved(v, src, tar).First() != q {
        TransferEnds(v, src.parent, Source(v, src), q, Moved(v, src, tar));
      }
    }
  }

  lemma TransferEnds(v: Volume, p: nat, i: int, q: uint32, e: Entry)
    requires p < |v.disk| && q < |v.disk| && 0 <= i < TABLE_SIZE && Fill(Dir(v, q)) < TABLE_SIZE
    requires e.IsFolder() ==> e.First() < |v.disk|
    ensures Transferred(v, p, i, q, e).fat == v.fat
    ensures exists k :: FirstFree(Dir(v, q), k) && Dir(Transferred(v, p, i, q, e), q) == Dir(v, q)[k := e]
  {
    assert FirstFree(Dir(v, q), Fill(Dir(v, q)));
  }

  ghost function MoveShape(v: Volume, g: Shape, src: Request, tar: Request): Shape
    requires TreeOK(v, g)
  {
    if Moves(v, g, src, tar) && DestinationOf(v, src, tar).folder in g.depth
    then Relinked(v, g, Moved(v, src, tar).First(), DestinationOf(v, src, tar).folder) else g
  }

  /** A move keeps all files and folders, and every chain. */
  lemma MoveShapeIs(v: Volume, g: Shape, src: Request, tar: Request)
    requires TreeOK(v, g)
    ensures MoveShape(v, g, src, tar).chains == g.chains && MoveShape(v, g, src, tar).depth.Keys == g.depth.Keys
  {
  }

  lemma SourceSlot(v: Volume, g: Shape, src: Request, tar: Request)
    requires WellFormed(v, g) && ParentOK(v, g, src.parent) && FindsSource(v, g, src, tar)
    ensures Slot(v, g, src.parent, Source(v, src)) && src.parent < CLUSTER_MAP_SIZE
    ensures DataCluster(Dir(v, src.parent)[Source(v, src)].First())
  {
    var p, i := src.parent, Source(v, src);
    FolderInUse(v, g, p);
    assert SlotOK(v, g, p, Dir(v, p)[i]);
    ChainHead(v, g, Dir(v, p)[i].First());
  }

  lemma TargetFolder(v: Volume, g: Shape, src: Request, tar: Request)
    requires WellFormed(v, g) && tar.parent in g.depth && DestinationOf(v, src, tar).Into?
    ensures DestinationOf(v, src, tar).folder in g.depth && DestinationOf(v, src, tar).folder < CLUSTER_MAP_SIZE
  {
    var t := Dir(v, tar.parent);
    if Holds(t, tar.name, tar.ext) && t[Find(t, 2, tar.name, tar.ext)].IsFolder() {
      PlaceFacts(v, t[Find(t, 2, tar.name, tar.ext)].First(), src.name, src.ext, false);
      assert SlotOK(v, g, tar.parent, t[Find(t, 2, tar.name, tar.ext)]);
    } else {
      PlaceFacts(v, tar.parent, tar.name, tar.ext, true);
    }
    FolderInUse(v, g, DestinationOf(v, src, tar).folder);
  }

  /** The destination has room and no entry of the name the moved one gets. */
  lemma DestinationFacts(v: Volume, src: Request, tar: Request)
    requires DestinationOf(v, src, tar).Into? && Source(v, src) < TABLE_SIZE
    ensures var q, e := DestinationOf(v, src, tar).folder, Moved(v, src, tar);
      Fill(Dir(v, q)) < TABLE_SIZE && !Holds(Dir(v, q), e.name, e.ext)
  {
    var t := Dir(v, tar.parent);
    if Holds(t, tar.name, tar.ext) && t[Find(t, 2, tar.name, tar.ext)].IsFolder() {
      PlaceFacts(v, t[Find(t, 2, tar.name, tar.ext)].First(), src.name, src.ext, false);
    } else {
      PlaceFacts(v, tar.parent, tar.name, tar.ext, true);
    }
  }

  lemma PlaceFacts(v: Volume, folder: uint32, name: Name, ext: Extension, renamed: bool)
    requires Place(v, folder, name, ext, renamed).Into?
    ensures Place(v, folder, name, ext, renamed) == Into(folder, renamed)
    ensures Fill(Dir(v, folder)) < TABLE_SIZE && !Holds(Dir(v, folder), name, ext)
  {
  }

  lemma MoveSites(v: Volume, g: Shape, src: Request, tar: Request)
    requires WellFormed(v, g) && ParentOK(v, g, src.parent) && FindsSource(v, g, src, tar) && DestinationOf(v, src, tar).Into?
    ensures Slot(v, g, src.parent, Source(v, src)) && src.parent < CLUSTER_MAP_SIZE
    ensures DestinationOf(v, src, tar).folder in g.depth && DestinationOf(v, src, tar).folder < CLUSTER_MAP_SIZE
    ensures DataCluster(Moved(v, src, tar).First())
    ensures var q := DestinationOf(v, src, tar).folder;
      Fill(Dir(v, q)) < TABLE_SIZE && !Holds(Dir(v, q), Moved(v, src, tar).name, Moved(v, src, tar).ext)
  {
    SourceSlot(v, g, src, tar);
    TargetFolder(v, g, src, tar);
    DestinationFacts(v, src, tar);
  }

  lemma CanMoveOnDisk(v: Volume, g: Shape, src: Request, tar: Request)
    requires WellFormed(v, g) && ParentOK(v, g, src.parent) && CanMove(v, g, src, tar)
    ensures OnDisk(v, src, tar)
  {
    if FindsSource(v, g, src, tar) {
      SourceSlot(v, g, src, tar);
      FolderInUse(v, g, tar.parent);
      if Holds(Dir(v, tar.parent), tar.name, tar.ext) {
        TargetChain(v, g, tar);
      }
    }
  }

  /** The outcome of a move that succeeds. */
  lemma MoveIs(v: Volume, g: Shape, src: Request, tar: Request)
    requires OnDisk(v, src, tar) && Moves(v, g, src, tar)
    ensures DestinationOf(v, src, tar).folder < |v.disk| && Fill(Dir(v, DestinationOf(v, src, tar).folder)) < TABLE_SIZE
    ensures Move(v, src, tar) ==
            Outcome(0, Transferred(v, src.parent, Source(v, src), DestinationOf(v, src, tar).folder, Moved(v, src, tar)))
  {
    MovedIs(v, src, tar, DestinationOf(v, src, tar).folder, DestinationOf(v, src, tar).renamed);
  }

  lemma MovedIs(v: Volume, src: Request, tar: Request, q: uint32, renamed: bool)
    requires OnDisk(v, src, tar) && Dir(v, src.parent)[0].Used() && Source(v, src) < TABLE_SIZE
    requires DestinationOf(v, src, tar) == Into(q, renamed)
    ensures var e0 := Dir(v, src.parent)[Source(v, src)];
      Moved(v, src, tar) == if renamed then e0.(name := tar.name, ext := tar.ext) else e0
    ensures q < |v.disk| && Fill(Dir(v, q)) < TABLE_SIZE
    ensures Moved(v, src, tar).First() != q ==>
            Move(v, src, tar) == Outcome(0, Transferred(v, src.parent, Source(v, src), q, Moved(v, src, tar)))
  {
    DestinationIs(v, src, tar);
    DestinationFacts(v, src, tar);
  }

  lemma DestinationIs(v: Volume, src: Request, tar: Request)
    requires DestinationOf(v, src, tar).Into? && TargetOnDisk(v, tar)
    ensures DestinationOf(v, src, tar).folder < |v.disk|
    ensures DestinationOf(v, src, tar).renamed ==> DestinationOf(v, src, tar) == Into(tar.parent, true)
  {
    var t := Dir(v, tar.parent);
    if Holds(t, tar.name, tar.ext) && t[Find(t, 2, tar.name, tar.ext)].IsFolder() {
      PlaceFacts(v, t[Find(t, 2, tar.name, tar.ext)].First(), src.name, src.ext, false);
    } else {
      PlaceFacts(v, tar.parent, tar.name, tar.ext, true);
    }
  }

  lemma TargetChain(v: Volume, g: Shape, tar: Request)
    requires WellFormed(v, g) && tar.parent in g.depth && Holds(Dir(v, tar.parent), tar.name, tar.ext)
    ensures DataCluster(Dir(v, tar.parent)[Find(Dir(v, tar.parent), 2, tar.name, tar.ext)].First())
  {
    var j := Find(Dir(v, tar.parent), 2, tar.name, tar.ext);
    assert SlotOK(v, g, tar.parent, Dir(v, tar.parent)[j]);
    ChainHead(v, g, Dir(v, tar.parent)[j].First());
  }

  // ---- What it keeps ----

  /** The move goes to another folder, and not into the moved folder. */
  ghost predicate Elsewhere(v: Volume, g: Shape, src: Request, tar: Request)
    requires TreeOK(v, g)
  {
    Moves(v, g, src, tar) ==>
      var q := DestinationOf(v, src, tar).folder;
      q in g.depth && q != src.parent && !Under(v, g, q, Moved(v, src, tar).First())
  }

  /** The three clusters a move writes are different ones. */
  lemma TransferSites(v: Volume, g: Shape, p: nat, i: int, q: uint32, e: Entry)
    requires WellFormed(v, g) && Slot(v, g, p, i) && q in g.depth && e.First() == Dir(v, p)[i].First()
    requires e.IsFolder() == Dir(v, p)[i].IsFolder() && !Under(v, g, q, e.First())
    ensures p < CLUSTER_MAP_SIZE && q < CLUSTER_MAP_SIZE && DataCluster(e.First()) && p >= 2 && q >= 2
    ensures e.First() in g.chains && e.First() != p && e.First() != q
    ensures e.IsFolder() <==> e.First() in g.depth
  {
    FolderInUse(v, g, p);
    FolderInUse(v, g, q);
    assert SlotOK(v, g, p, Dir(v, p)[i]);
    ChainHead(v, g, e.First());
    ParentStays(v, g, p, i);
  }

  lemma TransferRelinks(v: Volume, g: Shape, p: nat, i: int, q: uint32, e: Entry)
    requires WellFormed(v, g) && Slot(v, g, p, i) && q in g.depth && q != p
    requires e.Used() && SameNode(e, Dir(v, p)[i])
    requires !Under(v, g, q, e.First()) && Fill(Dir(v, q)) < TABLE_SIZE && !Holds(Dir(v, q), e.name, e.ext)
    ensures p < CLUSTER_MAP_SIZE && q < CLUSTER_MAP_SIZE && e.First() < CLUSTER_MAP_SIZE
    ensures Relinks(v, g, Transferred(v, p, i, q, e), p, i, q, e)
  {
    TransferSites(v, g, p, i, q, e);
    TransferWrites(v, p, i, q, e);
    forall d | d in g.depth ensures 2 <= d < CLUSTER_MAP_SIZE {
      FolderInUse(v, g, d);
    }
  }

  lemma RenamedIsSame(v: Volume, g: Shape, p: nat, i: int, e: Entry)
    requires WellFormed(v, g) && Slot(v, g, p, i) && e == Dir(v, p)[i].(name := e.name, ext := e.ext)
    ensures e.Used() && SameNode(e, Dir(v, p)[i])
  {
    assert SlotOK(v, g, p, Dir(v, p)[i]);
  }

  /** What is where after the three writes. */
  lemma TransferWrites(v: Volume, p: nat, i: int, q: uint32, e: Entry)
    requires HeaderOK(v) && 2 <= p < |v.disk| && 2 <= q < |v.disk| && 0 <= i < TABLE_SIZE && Fill(Dir(v, q)) < TABLE_SIZE
    requires p != q && 2 <= e.First() < |v.disk| && e.First() != p && e.First() != q
    ensures var v' := Transferred(v, p, i, q, e);
      && HeaderOK(v') && v'.fat == v.fat
      && Dir(v', p) == Remove(Dir(v, p), i) && Dir(v', q) == Append(Dir(v, q), e)
      && (e.IsFolder() ==> Dir(v', e.First()) == Reparent(Dir(v, e.First()), e.name, e.ext, q))
      && (forall d {:trigger Dir(v', d)} :: 0 <= d < |v.disk| && d != p && d != q && d != e.First() ==> Dir(v', d) == Dir(v, d))
  {
  }

  lemma MoveRelinks(v: Volume, g: Shape, src: Request, tar: Request)
    requires WellFormed(v, g) && ParentOK(v, g, src.parent) && Moves(v, g, src, tar) && Elsewhere(v, g, src, tar)
    ensures OnDisk(v, src, tar)
    ensures Relinks(v, g, Move(v, src, tar).volume, src.parent, Source(v, src),
                    DestinationOf(v, src, tar).folder, Moved(v, src, tar))
  {
    CanMoveOnDisk(v, g, src, tar);
    MoveSites(v, g, src, tar);
    RenamedIsSame(v, g, src.parent, Source(v, src), Moved(v, src, tar));
    TransferRelinks(v, g, src.parent, Source(v, src), DestinationOf(v, src, tar).folder, Moved(v, src, tar));
    MoveIs(v, g, src, tar);
  }

  /** A move to another folder outside the moved one keeps the volume well formed; a move that
      fails changes nothing. */
  lemma MoveKeepsWellFormed(v: Volume, g: Shape, src: Request, tar: Request)
    requires WellFormed(v, g) && ParentOK(v, g, src.parent) && CanMove(v, g, src, tar) && Elsewhere(v, g, src, tar)
    ensures OnDisk(v, src, tar)
    ensures WellFormed(Move(v, src, tar).volume, MoveShape(v, g, src, tar))
    ensures Move(v, src, tar).code != 0 ==> Move(v, src, tar).volume == v
    ensures Move(v, src, tar).code == 0 <==> Moves(v, g, src, tar)
  {
    CanMoveOnDisk(v, g, src, tar);
    if Moves(v, g, src, tar) {
      MoveRelinks(v, g, src, tar);
      RelinkWellFormed(v, g, Move(v, src, tar).volume, src.parent, Source(v, src),
                       DestinationOf(v, src, tar).folder, Moved(v, src, tar));
    }
  }

  /** What a move does to the entries: the source folder loses exactly the moved one, the
      destination gains exactly it (renamed), every other folder keeps its contents; the entry
      keeps its cluster, size and kind, and a moved folder's ".." names its new parent. */
  lemma MoveConserves(v: Volume, g: Shape, src: Request, tar: Request)
    requires WellFormed(v, g) && ParentOK(v, g, src.parent) && Moves(v, g, src, tar) && Elsewhere(v, g, src, tar)
    ensures OnDisk(v, src, tar)
    ensures var v', p, q := Move(v, src, tar).volume, src.parent, DestinationOf(v, src, tar).folder;
      var e0, e := Dir(v, p)[Source(v, src)], Moved(v, src, tar);
      && v'.fat == v.fat
      && Contents(Dir(v', p)) == Contents(Dir(v, p)) - multiset{e0}
      && Contents(Dir(v', q)) == Contents(Dir(v, q)) + multiset{e}
      && e.First() == e0.First() && e.filesize == e0.filesize && e.attribute == e0.attribute
      && (e.IsFolder() ==> Up(v', e.First()) == q && Dir(v', e.First())[0].Named(e.name, e.ext))
  {
    CanMoveOnDisk(v, g, src, tar);
    var v', p, i, q, e := Move(v, src, tar).volume, src.parent, Source(v, src), DestinationOf(v, src, tar).folder, Moved(v, src, tar);
    MoveRelinks(v, g, src, tar);
    assert FolderOK(v, p) && FolderOK(v, q);
    RemoveDeletesOne(Dir(v, p), i);
    MoveSites(v, g, src, tar);
    assert SlotOK(v, g, p, Dir(v, p)[i]);
    AppendAddsOne(Dir(v, q), e);
  }

  lemma MoveKeepsOtherFolders(v: Volume, g: Shape, src: Request, tar: Request, d: nat)
    requires WellFormed(v, g) && ParentOK(v, g, src.parent) && Moves(v, g, src, tar) && Elsewhere(v, g, src, tar)
    requires d in g.depth && d != src.parent && d != DestinationOf(v, src, tar).folder
    ensures OnDisk(v, src, tar)
    ensures Contents(Dir(Move(v, src, tar).volume, d)) == Contents(Dir(v, d))
  {
    CanMoveOnDisk(v, g, src, tar);
    MoveRelinks(v, g, src, tar);
    RelinkContents(v, g, Move(v, src, tar).volume, src.parent, Source(v, src),
                   DestinationOf(v, src, tar).folder, Moved(v, src, tar), d);
  }

  lemma RelinkContents(v: Volume, g: Shape, v': Volume, p: int, i: int, q: uint32, e: Entry, d: int)
    requires Relinks(v, g, v', p, i, q, e) && d in g.depth && d != p && d != q
    ensures Contents(Dir(v', d)) == Contents(Dir(v, d))
  {
    RelinkFill(v, g, v', p, i, q, e, d);
    SameContents(Dir(v', d), Dir(v, d));
  }

  lemma SameContents(t: Table, u: Table)
    requires Fill(t) == Fill(u) && forall j :: 2 <= j < TABLE_SIZE ==> t[j] == u[j]
    ensures Contents(t) == Contents(u)
  {
    assert t[2..Fill(t)] == u[2..Fill(u)];
  }

  lemma TransferKeepsCluster(v: Volume, g: Shape, p: nat, i: int, q: uint32, e: Entry, k: nat, x: nat)
    requires WellFormed(v, g) && p in g.depth && q in g.depth && p < |v.disk| && q < |v.disk|
    requires 2 <= i < Fill(Dir(v, p)) && Fill(Dir(v, q)) < TABLE_SIZE
    requires e.IsFolder() ==> e.First() in g.depth && e.First() < |v.disk|
    requires k in g.chains && k !in g.depth && x in g.chains[k]
    ensures x < |v.disk| && Transferred(v, p, i, q, e).disk[x] == v.disk[x]
  {
    ChainHead(v, g, k);
    ChainNotEmpty(v.fat, g.chains[k], x);
    ChainAvoidsFolder(v, g, k, x, p);
    ChainAvoidsFolder(v, g, k, x, q);
    if e.IsFolder() {
      ChainAvoidsFolder(v, g, k, x, e.First());
    }
  }

  /** No file, the moved one included, changes a byte or a cluster. */
  lemma MoveKeepsFiles(v: Volume, g: Shape, src: Request, tar: Request, k: nat, x: nat)
    requires WellFormed(v, g) && ParentOK(v, g, src.parent) && CanMove(v, g, src, tar)
    requires k in g.chains && k !in g.depth && x in g.chains[k]
    ensures OnDisk(v, src, tar)
    ensures MoveShape(v, g, src, tar).chains == g.chains
    ensures |Move(v, src, tar).volume.disk| == |v.disk| && x < |v.disk| && Move(v, src, tar).volume.disk[x] == v.disk[x]
  {
    CanMoveOnDisk(v, g, src, tar);
    if Moves(v, g, src, tar) {
      MoveKeepsCluster(v, g, src, tar, k, x);
    } else {
      ChainOnDisk(v, g, k, x);
    }
  }

  lemma MoveKeepsCluster(v: Volume, g: Shape, src: Request, tar: Request, k: nat, x: nat)
    requires WellFormed(v, g) && ParentOK(v, g, src.parent) && Moves(v, g, src, tar) && OnDisk(v, src, tar)
    requires k in g.chains && k !in g.depth && x in g.chains[k]
    ensures |Move(v, src, tar).volume.disk| == |v.disk| && x < |v.disk| && Move(v, src, tar).volume.disk[x] == v.disk[x]
  {
    MoveSites(v, g, src, tar);
    assert SlotOK(v, g, src.parent, Dir(v, src.parent)[Source(v, src)]);
    TransferKeepsCluster(v, g, src.parent, Source(v, src), DestinationOf(v, src, tar).folder, Moved(v, src, tar), k, x);
    MoveIs(v, g, src, tar);
  }

  lemma ChainOnDisk(v: Volume, g: Shape, k: nat, x: nat)
    requires WellFormed(v, g) && k in g.chains && x in g.chains[k]
    ensures x < |v.disk|
  {
    ChainHead(v, g, k);
    ChainNotEmpty(v.fat, g.chains[k], x);
  }

  lemma MoveKeepsNoLeak(v: Volume, g: Shape, src: Request, tar: Request)
    requires WellFormed(v, g) && ParentOK(v, g, src.parent) && CanMove(v, g, src, tar) && NoLeak(v, g)
    ensures OnDisk(v, src, tar)
    ensures NoLeak(Move(v, src, tar).volume, MoveShape(v, g, src, tar))
  {
    CanMoveOnDisk(v, g, src, tar);
    assert MoveShape(v, g, src, tar).chains == g.chains;
    assert Move(v, src, tar).volume.fat == v.fat;
  }
}
