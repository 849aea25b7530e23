/** Concrete inputs on which the code does not do what one would expect of it. Each belongs to
    the family that the theorem named beside it describes exactly. */
module Counterexamples {
  import opened Words
  import opened DirectoryLayout
  import opened ClusterChains
  import opened DirectoryTables
  import opened Volumes
  import opened Requests
  import opened FileWrite
  import opened FileDelete
  import opened TreeDelete
  import opened FileMove
  import opened FileRead
  import opened MoveExact
  import opened Mount
  import Runs
  import Paging
  import Kernel
  import KernelInvariant
  import KernelFrames

  const LETTER_A: Name := ['a' as int, 0, 0, 0, 0, 0, 0, 0]
  const LETTER_B: Name := ['b' as int, 0, 0, 0, 0, 0, 0, 0]

  /** A file of `size` zero bytes called "a", with extension `x`, in the root. */
  function FileA(size: uint32, x: byte): Request {
    Request(Zeros(2 * CLUSTER_SIZE), LETTER_A, [x, 0, 0], ROOT, size)
  }

  /** A volume without files or folders; `t` is the root's table. */
  ghost predicate Blank(v: Volume, t: Table) {
    && WellFormed(v, FRESH) && NoLeak(v, FRESH) && Dir(v, ROOT) == t && Fill(t) == 2 && Packed(t)
    && t[0].name[0] == '.' as int && t[1].name[0] == '.' as int
    && |FreeList(v.fat)| == CLUSTER_MAP_SIZE - FIRST_DATA_CLUSTER
  }

  /** Every new file system is blank. */
  lemma FreshIsBlank(disk: seq<Cluster>, tail: Tail)
    requires |disk| >= CLUSTER_MAP_SIZE && tail.Valid()
    ensures Blank(Format(disk, tail), RootTable(tail))
  {
    FormatWellFormed(disk, tail);
    RootTableFacts(tail);
    FormatWrites(disk, tail);
    FreshFreeList(disk, tail);
  }

  lemma FreshFreeList(disk: seq<Cluster>, tail: Tail)
    requires |disk| >= CLUSTER_MAP_SIZE && tail.Valid()
    ensures |FreeList(Format(disk, tail).fat)| == CLUSTER_MAP_SIZE - FIRST_DATA_CLUSTER
  {
    Runs.FreshFreeCount(disk, tail);
    FreeListFacts(Format(disk, tail).fat);
  }

  /** A blank volume takes a file of one or two clusters. */
  lemma BlankAccepts(v: Volume, t: Table, r: Request)
    requires Blank(v, t) && r.parent == ROOT && 0 < r.size <= 2 * CLUSTER_SIZE == |r.mem|
    ensures Accepts(v, r) && ParentOK(v, FRESH, ROOT)
  {
    NothingHeld(t, r);
    OneOrTwo(r.size);
  }

  lemma OneOrTwo(size: nat)
    requires 0 < size <= 2 * CLUSTER_SIZE
    ensures ClustersNeeded(size) * CLUSTER_SIZE <= 2 * CLUSTER_SIZE
  {
  }

  lemma NothingHeld(t: Table, r: Request)
    requires Fill(t) == 2
    ensures !Holds(t, r.name, r.ext)
  {
  }

  /** The volume after writing `r` to a blank one: well formed, with one entry. */
  lemma OneEntry(v: Volume, t: Table, r: Request)
    requires Blank(v, t) && r.parent == ROOT && 0 < r.size <= 2 * CLUSTER_SIZE == |r.mem|
    ensures Accepts(v, r) && RootHolds(Written(v, r), t, Added(v, r), r)
    ensures var w, g := Written(v, r), WriteShape(v, FRESH, r);
      WellFormed(w, g) && NoLeak(w, g) && ROOT in g.depth && ParentOK(w, g, ROOT)
  {
    BlankAccepts(v, t, r);
    WriteKeepsWellFormed(v, FRESH, r);
    WriteKeepsNoLeak(v, FRESH, r);
  }

  /** MoveExact.MoveKeepsExactly: renaming the only file of the root. */
  lemma RenamingBreaks(v: Volume, t: Table, h: Shape)
    requires Blank(v, t)
    ensures Accepts(v, FileA(1, 0))
    ensures var w, src := Written(v, FileA(1, 0)), FileA(1, 0);
      var tar := src.(name := LETTER_B);
      OnDisk(w, src, tar) && Move(w, src, tar).code == 0 && !WellFormed(Move(w, src, tar).volume, h)
  {
    var src := FileA(1, 0);
    OneEntry(v, t, src);
    RenameInPlaceBreaks(Written(v, src), WriteShape(v, FRESH, src), t, Added(v, src), src, src.(name := LETTER_B), h);
  }

  /** Renaming the only entry of the root. */
  lemma RenameInPlaceBreaks(v: Volume, g: Shape, t: Table, e: Entry, src: Request, tar: Request, h: Shape)
    requires WellFormed(v, g) && ParentOK(v, g, ROOT) && RootHolds(v, t, e, src) && e.ext == src.ext
    requires ROOT in g.depth && tar.parent == ROOT && src.name != tar.name
    requires t[0].name != src.name && t[1].name != src.name
    ensures OnDisk(v, src, tar) && Move(v, src, tar).code == 0 && !WellFormed(Move(v, src, tar).volume, h)
  {
    FoundInRoot(v, t, e, src);
    RenameGoesThrough(v, g, t, e, src, tar);
    GoesIs(v, g, src, tar);
    WithinFolderBreaks(v, g, src, tar, h);
  }

  /** The root's table is `t`, which has no contents, with `e` appended, an entry of the request's name. */
  ghost predicate RootHolds(v: Volume, t: Table, e: Entry, r: Request) {
    && r.parent == ROOT && Fill(t) == 2 && Packed(t) && Dir(v, ROOT) == Append(t, e)
    && e.Used() && e.name == r.name && DataCluster(e.First())
  }

  lemma RenameGoesThrough(v: Volume, g: Shape, t: Table, e: Entry, src: Request, tar: Request)
    requires WellFormed(v, g) && RootHolds(v, t, e, src) && tar.parent == ROOT && src.name != tar.name
    requires Source(v, src) == 2 && Fill(Dir(v, ROOT)) == 3 && Dir(v, ROOT)[2] == e
    ensures OnDisk(v, src, tar) && Goes(v, src, tar) && DestinationOf(v, src, tar) == Into(ROOT, true)
  {
    assert !Holds(Dir(v, ROOT), tar.name, tar.ext);
    PlaceFacts(v, ROOT, tar.name, tar.ext, true);
  }

  /** FileRead.ReadAfterWrite: two files that differ only in their extension. */
  lemma SecondExtensionUnreadable(v: Volume, t: Table)
    requires Blank(v, t)
    ensures Accepts(v, FileA(1, 1)) && Unreadable(Written(v, FileA(1, 1)), WriteShape(v, FRESH, FileA(1, 1)), FileA(1, 2))
  {
    var r := FileA(1, 1);
    OneEntry(v, t, r);
    LinkTakesFree(v.fat, 1);
    SecondIsUnreadable(Written(v, r), WriteShape(v, FRESH, r), t, Added(v, r), FileA(1, 2));
  }

  /** The write of `r` is accepted, and reading it back returns 1 and copies nothing. */
  ghost predicate Unreadable(v: Volume, g: Shape, r: Request) {
    && Accepts(v, r) && ChainsOK(Write(v, r).volume.fat, WriteShape(v, g, r).chains) && |Write(v, r).volume.disk| >= CLUSTER_MAP_SIZE
    && Read(Write(v, r).volume, WriteShape(v, g, r), r) == ReadOutcome(1, [])
  }

  lemma SecondIsUnreadable(v: Volume, g: Shape, t: Table, e: Entry, r: Request)
    requires WellFormed(v, g) && ParentOK(v, g, ROOT) && RootHolds(v, t, e, r) && e.ext != r.ext
    requires r.size == 1 && |r.mem| >= CLUSTER_SIZE && FreeList(v.fat) != []
    ensures Unreadable(v, g, r)
  {
    OneFile(t, e, r);
    ReadAfterWrite(v, g, r);
  }

  lemma OneFile(t: Table, e: Entry, r: Request)
    requires Fill(t) == 2 && Packed(t) && e.Used() && e.name == r.name && e.ext != r.ext
    ensures var u := Append(t, e); u[0].Used() && Fill(u) == 3 && !Holds(u, r.name, r.ext) && NameTaken(u, r.name)
  {
    var u := Append(t, e);
    FillIs(u, 3);
    assert u[2].name == r.name;
  }

  /** TreeDelete.DeleteAllLeaksUnlessSmall: a file of two clusters. */
  lemma TwoClustersLeak(v: Volume, t: Table)
    requires Blank(v, t)
    ensures Accepts(v, FileA(CLUSTER_SIZE + 1, 0))
    ensures var w, g, r := Written(v, FileA(CLUSTER_SIZE + 1, 0)), WriteShape(v, FRESH, FileA(CLUSTER_SIZE + 1, 0)), FileA(CLUSTER_SIZE + 1, 0);
      && WellFormed(w, g) && NoLeak(w, g) && ParentOK(w, g, ROOT) && CanRemove(w, r)
      && DeleteAll(w, g, r).code == 0 && !NoLeak(DeleteAll(w, g, r).volume, DeleteAllShape(w, g, r))
  {
    var r := FileA(CLUSTER_SIZE + 1, 0);
    OneEntry(v, t, r);
    WrittenIsFound(v, FRESH, r);
    DeleteAllLeaksUnlessSmall(Written(v, r), WriteShape(v, FRESH, r), r);
  }

  /** FileRead.ReadStaysInBuffer: reading one byte of a one-byte file copies a whole cluster. */
  lemma OneByteReadCopiesCluster(v: Volume, t: Table)
    requires Blank(v, t)
    ensures Accepts(v, FileA(1, 0))
    ensures var r, w, g := FileA(1, 0), Written(v, FileA(1, 0)), WriteShape(v, FRESH, FileA(1, 0));
      && WellFormed(w, g) && CanRead(w, r)
      && Read(w, g, r).code == 0 && |Read(w, g, r).data| == CLUSTER_SIZE > r.size
  {
    var r := FileA(1, 0);
    OneEntry(v, t, r);
    ReadAfterWrite(v, FRESH, r);
    WriteFindsTable(v, FRESH, r);
    ReadLength(Written(v, r), WriteShape(v, FRESH, r), r);
  }

  /** MoveExact.MoveKeepsExactly: moving the only file of the root to a zeroed free cluster, as if
      that were a folder. */
  lemma MoveToFreeClusterBreaks(v: Volume, t: Table, x: uint32, h: Shape)
    requires Blank(v, t) && x == FreeList(v.fat)[1] && x < |v.disk| && v.disk[x] == ZERO_CLUSTER
    ensures Accepts(v, FileA(1, 0))
    ensures var w, g, src := Written(v, FileA(1, 0)), WriteShape(v, FRESH, FileA(1, 0)), FileA(1, 0);
      var tar := src.(parent := x);
      && WellFormed(w, g) && OnDisk(w, src, tar) && Move(w, src, tar).code == 0
      && !Keeps(Move(w, src, tar).volume, h, g)
  {
    var src := FileA(1, 0);
    var w, g := Written(v, src), WriteShape(v, FRESH, src);
    OneEntry(v, t, src);
    StillFree(v, src, x);
    if x in g.depth {
      FolderInUse(w, g, x);
    }
    SentOutside(w, g, t, Added(v, src), src, x, h);
  }

  lemma SentOutside(v: Volume, g: Shape, t: Table, e: Entry, src: Request, x: uint32, h: Shape)
    requires WellFormed(v, g) && ParentOK(v, g, ROOT) && RootHolds(v, t, e, src) && e.ext == src.ext && !e.IsFolder()
    requires t[0].name != src.name && t[1].name != src.name
    requires x < |v.disk| && v.disk[x] == ZERO_CLUSTER && x !in g.depth && e.First() != x
    ensures var tar := src.(parent := x);
      OnDisk(v, src, tar) && Move(v, src, tar).code == 0 && !Keeps(Move(v, src, tar).volume, h, g)
  {
    var tar := src.(parent := x);
    ZeroClusterTable(2);
    FillIs(Dir(v, x), 2);
    NothingHeld(Dir(v, x), tar);
    FoundInRoot(v, t, e, src);
    GoesIs(v, g, src, tar);
    OutsideTreeBreaks(v, g, src, tar, h);
  }

  lemma FoundInRoot(v: Volume, t: Table, e: Entry, src: Request)
    requires RootHolds(v, t, e, src) && e.ext == src.ext && t[0].name != src.name && t[1].name != src.name
    ensures Source(v, src) == 2 && Fill(Dir(v, ROOT)) == 3 && Dir(v, ROOT)[2] == e
  {
    var u := Append(t, e);
    FillIs(u, 3);
    assert Find(u, 0, src.name, src.ext) == 2 by {
      assert Find(u, 2, src.name, src.ext) == 2;
      assert Find(u, 1, src.name, src.ext) == 2;
    }
  }

  /** The second free cluster is not taken by a one-byte file, and stays as it was. */
  lemma StillFree(v: Volume, r: Request, x: uint32)
    requires Accepts(v, r) && r.size == 1 && r.parent == ROOT && |FreeList(v.fat)| > 1 && x == FreeList(v.fat)[1]
    ensures x < CLUSTER_MAP_SIZE && x < |Written(v, r).disk| && Written(v, r).disk[x] == v.disk[x]
    ensures Written(v, r).fat[x] == EMPTY && Added(v, r).First() != x
  {
    WriteTakesLowestFree(v, r);
    FreeListFacts(v.fat);
    FreeListFacts(Written(v, r).fat);
    assert FreeList(Written(v, r).fat)[0] == x;
    assert x in FreeList(Written(v, r).fat) && x in FreeList(v.fat);
  }

  /** KernelFrames.DestroyCountExact: the first process, of one byte and a stack, created and
      destroyed before it ever runs. */
  lemma DestroyMiscounts(dirs: Paging.Directories, name: Kernel.FileName)
    ensures var m, p := KernelFrames.Initial(dirs), Kernel.Program(0, 1, name);
      && Kernel.Creatable(m, p) && Kernel.CanDestroy(Kernel.Create(m, p, 0).0, 1)
      && var k := Kernel.Destroy(Kernel.Create(m, p, 0).0, 1).0;
      k.freeFrames == m.freeFrames && !Paging.CountExact(k.frames, k.freeFrames)
  {
    var m, p := KernelFrames.Initial(dirs), Kernel.Program(0, 1, name);
    KernelFrames.InitialOK(dirs);
    assert KernelInvariant.LiveSlots(m.procs) == {};
    assert Paging.FramesNeeded(1) == 2;
    KernelInvariant.CreateKeepsInvariant(m, p, 0);
    KernelInvariant.EnteredKeepsInvariant(m, p);
    KernelFrames.EnteredFrames(m, p);
    var k := Kernel.Create(m, p, 0).0;
    KernelInvariant.DestroyNamesOne(k, 1, 0);
    KernelFrames.DestroyCountExact(k, 1);
    KernelFrames.ReleaseFramesIs(k.frames, k.freeFrames, k.dirs[k.procs[0].context.pageDirectory.index], 2);
  }

  /** KernelRuns.CountFallsBehind: the first process cannot be read. */
  lemma UnreadableFirstProcess(dirs: Paging.Directories, name: Kernel.FileName)
    ensures var m, p := KernelFrames.Initial(dirs), Kernel.Program(0, 1, name);
      Kernel.Creatable(m, p) && Kernel.Create(m, p, 2).1 == Kernel.FS_READ_FAILURE && Kernel.Create(m, p, 2).0.active == -1
  {
    var m, p := KernelFrames.Initial(dirs), Kernel.Program(0, 1, name);
    KernelFrames.InitialOK(dirs);
    assert KernelInvariant.LiveSlots(m.procs) == {};
    assert Paging.FramesNeeded(1) == 2;
    KernelInvariant.CreateKeepsInvariant(m, p, 2);
    KernelInvariant.EnteredKeepsInvariant(m, p);
    KernelInvariant.DestroyNamesOne(Kernel.Entered(m, p), 1, 0);
  }

  /** KernelMapping.CreatedMapsKernel: a first process that begins in the last page below the kernel
      and is one byte too long to end there; the create succeeds, with the kernel's first page
      made the program's. */
  lemma ProgramUnmapsKernel(dirs: Paging.Directories, name: Kernel.FileName)
    ensures var m, p := KernelFrames.Initial(dirs), Kernel.Program(0xBFC0_0000, 0x40_0001, name);
      && Kernel.Creatable(m, p) && Kernel.Create(m, p, 0).1 == Kernel.SUCCESS
      && Kernel.Create(m, p, 0).0.procs[0].context.pageDirectory == Kernel.DirectoryAt(0)
      && Paging.WritableUserPage(Kernel.Create(m, p, 0).0.dirs[0][0x300])
  {
    var m, p := KernelFrames.Initial(dirs), Kernel.Program(0xBFC0_0000, 0x40_0001, name);
    KernelFrames.InitialOK(dirs);
    assert KernelInvariant.LiveSlots(m.procs) == {};
    assert Paging.FramesNeeded(0x40_0001) == 3;
    KernelInvariant.CreatedProcess(m, p);
    KernelFrames.CreatedPages(m, p, 0x300);
  }
}
