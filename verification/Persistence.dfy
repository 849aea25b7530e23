/** What survives a reboot, and what a user can type, after any run of operations. */
module Persistence {
  import opened Words
  import opened DirectoryLayout
  import opened ClusterChains
  import opened DirectoryTables
  import opened Volumes
  import opened VolumeGrow
  import opened VolumePrune
  import opened VolumeRelink
  import opened Requests
  import opened FileWrite
  import opened FileDelete
  import opened TreeDelete
  import opened FileMove
  import opened Mount
  import opened Runs
  import opened Paths

  // ---- The boot block ----

  ghost predicate SameBootBlock(v: Volume, w: Volume) {
    |v.disk| > 0 && |w.disk| > 0 && w.disk[0] == v.disk[0]
  }

  lemma StepKeepsBootBlock(v: Volume, g: Shape, op: Op)
    requires WellFormed(v, g) && Allowed(v, g, op)
    ensures SameBootBlock(v, Step(v, g, op).0.volume)
  {
    match op
    case WriteOp(r) => WriteKeepsBootBlock(v, g, r);
    case DeleteOp(r) => DeleteKeepsBootBlock(v, g, r);
    case DeleteAllOp(r) => RazeKeepsBootBlock(v, g, r);
    case MoveOp(r, t) => MoveKeepsBootBlock(v, g, r, t);
  }

  lemma WriteKeepsBootBlock(v: Volume, g: Shape, r: Request)
    requires WellFormed(v, g) && ParentOK(v, g, r.parent) && CanWrite(v, r)
    ensures SameBootBlock(v, Write(v, r).volume)
  {
    if Accepts(v, r) {
      FolderInUse(v, g, r.parent);
      WriteFrame(v, g, r, 0);
    }
  }

  lemma DeleteKeepsBootBlock(v: Volume, g: Shape, r: Request)
    requires WellFormed(v, g) && ParentOK(v, g, r.parent) && CanRemove(v, r)
    ensures SameBootBlock(v, Delete(v, g, r).volume)
  {
    if Deletes(v, r) {
      FoundCluster(v, g, r);
      FolderInUse(v, g, r.parent);
      ChainHead(v, g, Victim(v, r).First());
      DeletedBootBlock(v, r.parent, Target(v, r), g.chains[Victim(v, r).First()]);
    }
  }

  lemma DeletedBootBlock(v: Volume, p: nat, i: int, s: seq<nat>)
    requires |v.disk| >= CLUSTER_MAP_SIZE && 0 < p < |v.disk| && 2 <= i < Fill(Dir(v, p)) && DataClusters(s)
    ensures SameBootBlock(v, Deleted(v, p, i, s))
  {
  }

  lemma RazeKeepsBootBlock(v: Volume, g: Shape, r: Request)
    requires WellFormed(v, g) && ParentOK(v, g, r.parent) && CanRemove(v, r)
    ensures SameBootBlock(v, DeleteAll(v, g, r).volume)
  {
    if Finds(v, r) {
      FoundCluster(v, g, r);
      FolderInUse(v, g, r.parent);
      if Inside(v, g, 0, Victim(v, r).First()) {
        InsideIsFirst(v, g, Victim(v, r).First(), 0);
        ChainHead(v, g, 0);
      }
    }
  }

  lemma MoveKeepsBootBlock(v: Volume, g: Shape, src: Request, tar: Request)
    requires WellFormed(v, g) && ParentOK(v, g, src.parent) && CanMove(v, g, src, tar)
    ensures OnDisk(v, src, tar) && SameBootBlock(v, Move(v, src, tar).volume)
  {
    CanMoveOnDisk(v, g, src, tar);
    if Moves(v, g, src, tar) {
      MoveSites(v, g, src, tar);
      MoveIs(v, g, src, tar);
      FolderInUse(v, g, src.parent);
      FolderInUse(v, g, DestinationOf(v, src, tar).folder);
      TransferredBootBlock(v, src.parent, Source(v, src), DestinationOf(v, src, tar).folder, Moved(v, src, tar));
    }
  }

  lemma TransferredBootBlock(v: Volume, p: nat, i: int, q: uint32, e: Entry)
    requires 0 < p < |v.disk| && 0 < q < |v.disk| && 2 <= i < Fill(Dir(v, p)) && Fill(Dir(v, q)) < TABLE_SIZE
    requires 0 < e.First() < |v.disk|
    ensures SameBootBlock(v, Transferred(v, p, i, q, e))
  {
  }

  lemma {:induction false} RunKeepsBootBlock(v: Volume, g: Shape, ops: seq<Op>)
    requires WellFormed(v, g) && AdmissibleRun(v, g, ops)
    ensures var (w, h) := After(v, g, ops); WellFormed(w, h) && w.disk[0] == v.disk[0]
    decreases |ops|
  {
    if ops != [] {
      StepKeepsWellFormed(v, g, ops[0]);
      StepKeepsBootBlock(v, g, ops[0]);
      var (o, g') := Step(v, g, ops[0]);
      RunKeepsBootBlock(o.volume, g', ops[1..]);
    }
  }

  /** A reboot after any run finds the volume exactly as the run left it: the disk alone brings
      back the cached map, whatever the root's name bytes would be on a new format. */
  lemma RemountAfterRun(disk: seq<Cluster>, tail: Tail, ops: seq<Op>, tail': Tail)
    requires |disk| >= CLUSTER_MAP_SIZE && tail.Valid() && tail'.Valid()
    requires AdmissibleRun(Format(disk, tail), FRESH, ops)
    ensures var v := After(Format(disk, tail), FRESH, ops).0;
      |v.disk| >= CLUSTER_MAP_SIZE && Initialize(v.disk, tail') == v
  {
    FormatWellFormed(disk, tail);
    RunKeepsBootBlock(Format(disk, tail), FRESH, ops);
    var (v, g) := After(Format(disk, tail), FRESH, ops);
    RemountRestores(v, g, tail');
  }

  // ---- Names a user can type ----

  /** New folders and moved folders get clean names without an extension. */
  ghost predicate CleanOp(v: Volume, op: Op) {
    match op
    case WriteOp(r) => r.size == 0 ==> CleanName(r.name) && r.ext == ZERO_EXT
    case MoveOp(r, t) =>
      Source(v, r) < TABLE_SIZE && Moved(v, r, t).IsFolder() ==> CleanName(Moved(v, r, t).name) && Moved(v, r, t).ext == ZERO_EXT
    case _ => true
  }

  ghost predicate CleanRun(v: Volume, g: Shape, ops: seq<Op>)
    requires AdmissibleRun(v, g, ops)
    decreases |ops|
  {
    ops == [] || (CleanOp(v, ops[0]) &&
                  var (o, g') := Step(v, g, ops[0]);
                  CleanRun(o.volume, g', ops[1..]))
  }

  lemma GrowKeepsClean(v: Volume, g: Shape, v': Volume, p: nat, e: Entry, s: seq<nat>)
    requires Grows(v, g, v', p, e, s) && CleanTree(v, g) && (e.IsFolder() ==> CleanName(e.name) && e.ext == ZERO_EXT)
    ensures CleanTree(v', Grown(g, p, e, s))
  {
    forall d, i | Slot(v', Grown(g, p, e, s), d, i) && Dir(v', d)[i].IsFolder()
      ensures CleanName(Dir(v', d)[i].name) && Dir(v', d)[i].ext == ZERO_EXT
    {
      GrowSlot(v, g, v', p, e, s, d, i);
    }
  }

  lemma PruneKeepsClean(v: Volume, g: Shape, v': Volume, p: int, i: int)
    requires Prunes(v, g, v', p, i) && CleanTree(v, g)
    ensures CleanTree(v', Pruned(v, g, Dir(v, p)[i].First()))
  {
    forall d, j | Slot(v', Pruned(v, g, Dir(v, p)[i].First()), d, j) && Dir(v', d)[j].IsFolder()
      ensures CleanName(Dir(v', d)[j].name) && Dir(v', d)[j].ext == ZERO_EXT
    {
      PruneSlot(v, g, v', p, i, d, j);
    }
  }

  lemma RelinkKeepsClean(v: Volume, g: Shape, v': Volume, p: int, i: int, q: uint32, e: Entry)
    requires Relinks(v, g, v', p, i, q, e) && CleanTree(v, g) && (e.IsFolder() ==> CleanName(e.name) && e.ext == ZERO_EXT)
    ensures CleanTree(v', Relinked(v, g, e.First(), q))
  {
    forall d, j | Slot(v', Relinked(v, g, e.First(), q), d, j) && Dir(v', d)[j].IsFolder()
      ensures CleanName(Dir(v', d)[j].name) && Dir(v', d)[j].ext == ZERO_EXT
    {
      RelinkSlot(v, g, v', p, i, q, e, d, j);
    }
  }

  lemma StepKeepsClean(v: Volume, g: Shape, op: Op)
    requires WellFormed(v, g) && Allowed(v, g, op) && CleanTree(v, g) && CleanOp(v, op)
    ensures var (o, g') := Step(v, g, op); CleanTree(o.volume, g')
  {
    match op
    case WriteOp(r) => WriteKeepsClean(v, g, r);
    case DeleteOp(r) => DeleteKeepsClean(v, g, r);
    case DeleteAllOp(r) => RazeKeepsClean(v, g, r);
    case MoveOp(r, t) => MoveKeepsClean(v, g, r, t);
  }

  lemma WriteKeepsClean(v: Volume, g: Shape, r: Request)
    requires WellFormed(v, g) && ParentOK(v, g, r.parent) && CanWrite(v, r) && CleanTree(v, g) && CleanOp(v, WriteOp(r))
    ensures CleanTree(Write(v, r).volume, WriteShape(v, g, r))
  {
    if Accepts(v, r) {
      WriteGrows(v, g, r);
      GrowKeepsClean(v, g, Written(v, r), r.parent, Added(v, r), Allocated(v, r));
    }
  }

  lemma DeleteKeepsClean(v: Volume, g: Shape, r: Request)
    requires WellFormed(v, g) && ParentOK(v, g, r.parent) && CanRemove(v, r) && CleanTree(v, g)
    ensures CleanTree(Delete(v, g, r).volume, DeleteShape(v, g, r))
  {
    if Deletes(v, r) {
      DeletePrunes(v, g, r.parent, Target(v, r));
      PruneKeepsClean(v, g, Delete(v, g, r).volume, r.parent, Target(v, r));
      PruneLeaf(v, g, r.parent, Target(v, r));
    }
  }

  lemma RazeKeepsClean(v: Volume, g: Shape, r: Request)
    requires WellFormed(v, g) && ParentOK(v, g, r.parent) && CanRemove(v, r) && CleanTree(v, g)
    ensures CleanTree(DeleteAll(v, g, r).volume, DeleteAllShape(v, g, r))
  {
    if Finds(v, r) {
      FoundCluster(v, g, r);
      RazePrunes(v, g, r.parent, Target(v, r));
      PruneKeepsClean(v, g, Razed(v, g, r.parent, Target(v, r)), r.parent, Target(v, r));
    }
  }

  lemma MoveKeepsClean(v: Volume, g: Shape, src: Request, tar: Request)
    requires WellFormed(v, g) && ParentOK(v, g, src.parent) && CanMove(v, g, src, tar) && Elsewhere(v, g, src, tar)
    requires CleanTree(v, g) && CleanOp(v, MoveOp(src, tar))
    ensures OnDisk(v, src, tar) && CleanTree(Move(v, src, tar).volume, MoveShape(v, g, src, tar))
  {
    CanMoveOnDisk(v, g, src, tar);
    if Moves(v, g, src, tar) {
      MoveRelinks(v, g, src, tar);
      RelinkKeepsClean(v, g, Move(v, src, tar).volume, src.parent, Source(v, src), DestinationOf(v, src, tar).folder, Moved(v, src, tar));
    }
  }

  lemma {:induction false} RunKeepsClean(v: Volume, g: Shape, ops: seq<Op>)
    requires WellFormed(v, g) && CleanTree(v, g) && AdmissibleRun(v, g, ops) && CleanRun(v, g, ops)
    ensures var (w, h) := After(v, g, ops); WellFormed(w, h) && CleanTree(w, h)
    decreases |ops|
  {
    if ops != [] {
      StepKeepsWellFormed(v, g, ops[0]);
      StepKeepsClean(v, g, ops[0]);
      var (o, g') := Step(v, g, ops[0]);
      RunKeepsClean(o.volume, g', ops[1..]);
    }
  }

  /** After any run from a new file system whose folders got clean names, the printed path of
      every folder leads back to it exactly when it does not wrap. */
  lemma PathsResolveAfterRun(disk: seq<Cluster>, tail: Tail, ops: seq<Op>, d: int)
    requires |disk| >= CLUSTER_MAP_SIZE && tail.Valid()
    requires AdmissibleRun(Format(disk, tail), FRESH, ops) && CleanRun(Format(disk, tail), FRESH, ops)
    ensures var (v, g) := After(Format(disk, tail), FRESH, ops);
      WellFormed(v, g) && (d in g.depth ==> (Resolve(v, Trail(v, g, d), ROOT) == d <==> WrapFree(Trail(v, g, d))))
  {
    FormatWellFormed(disk, tail);
    FormatIsClean(disk, tail);
    RunKeepsClean(Format(disk, tail), FRESH, ops);
    var (v, g) := After(Format(disk, tail), FRESH, ops);
    if d in g.depth {
      ResolvePrinted(v, g, d);
    }
  }

  lemma FormatIsClean(disk: seq<Cluster>, tail: Tail)
    requires |disk| >= CLUSTER_MAP_SIZE && tail.Valid()
    ensures CleanTree(Format(disk, tail), FRESH)
  {
  }
}
