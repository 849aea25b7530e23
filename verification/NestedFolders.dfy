/** Concrete runs of folder creations, and what they show: a printed path that does not lead
    back, a folder moved below itself, entry 0 taken for a content, and a folder read as a file. */
module NestedFolders {
  import opened Words
  import opened DirectoryLayout
  import opened ClusterChains
  import opened DirectoryTables
  import opened Volumes
  import opened VolumeGrow
  import opened Requests
  import opened FileWrite
  import opened FileMove
  import opened FileRead
  import opened MoveExact
  import opened Mount
  import opened Runs
  import opened Paths
  import opened Counterexamples

  function NewFolder(name: Name, parent: uint32): Request {
    Request([], name, ZERO_EXT, parent, 0)
  }

  // ---- Making one folder ----

  /** Folder `d` is empty and there is room for another one in it. */
  ghost predicate Ready(v: Volume, g: Shape, d: int) {
    WellFormed(v, g) && CleanTree(v, g) && d in g.depth && Fill(Dir(v, d)) == 2 && |FreeList(v.fat)| >= 2
  }

  ghost function Made(v: Volume, g: Shape, r: Request): (Volume, Shape, uint32)
    requires Accepts(v, r)
  {
    (Written(v, r), WriteShape(v, g, r), Added(v, r).First())
  }

  lemma ReadyAccepts(v: Volume, g: Shape, d: uint32, name: Name)
    requires Ready(v, g, d)
    ensures ParentOK(v, g, d) && Accepts(v, NewFolder(name, d)) && Grows(v, g, Written(v, NewFolder(name, d)), d, Added(v, NewFolder(name, d)), Allocated(v, NewFolder(name, d)))
    ensures WriteShape(v, g, NewFolder(name, d)) == Grown(g, d, Added(v, NewFolder(name, d)), Allocated(v, NewFolder(name, d)))
  {
    FolderInUse(v, g, d);
    assert FolderOK(v, d);
    NothingHeld(Dir(v, d), NewFolder(name, d));
    WriteGrows(v, g, NewFolder(name, d));
  }

  /** A folder made in an empty one: it is empty itself, one cluster is gone, and it prints as its
      parent does, with its own name behind. */
  lemma MakeFolder(v: Volume, g: Shape, d: uint32, name: Name)
    requires Ready(v, g, d) && CleanName(name)
    ensures Accepts(v, NewFolder(name, d)) && ParentOK(v, g, d)
    ensures var (w, h, c) := Made(v, g, NewFolder(name, d));
      && WellFormed(w, h) && CleanTree(w, h) && c in h.depth && c != d && d in h.depth && Fill(Dir(w, c)) == 2
      && |FreeList(w.fat)| == |FreeList(v.fat)| - 1
      && Trail(w, h, c) == Trail(v, g, d) + CString(name) + [SLASH]
  {
    var r := NewFolder(name, d);
    ReadyAccepts(v, g, d, name);
    var e, s := Added(v, r), Allocated(v, r);
    var (w, h, c) := Made(v, g, r);
    GrowWellFormed(v, g, w, d, e, s);
    GrowIsFresh(v, g, w, d, e, s);
    MadeIsClean(v, g, w, d, e, s);
    WriteTakesLowestFree(v, r);
    TrailStays(v, g, w, d, e, s, d);
    NameStringOfName(Dir(w, c)[0]);
    assert FreshFolder(w, c, d, name);
  }

  lemma MadeIsClean(v: Volume, g: Shape, w: Volume, d: nat, e: Entry, s: seq<nat>)
    requires Grows(v, g, w, d, e, s) && CleanTree(v, g) && CleanName(e.name) && e.ext == ZERO_EXT
    ensures CleanTree(w, Grown(g, d, e, s))
  {
    forall x, i | Slot(w, Grown(g, d, e, s), x, i) && Dir(w, x)[i].IsFolder()
      ensures CleanName(Dir(w, x)[i].name) && Dir(w, x)[i].ext == ZERO_EXT
    {
      GrowSlot(v, g, w, d, e, s, x, i);
    }
  }

  /** Folders that were there before print as before. */
  lemma {:induction false} TrailStays(v: Volume, g: Shape, w: Volume, d: nat, e: Entry, s: seq<nat>, x: int)
    requires Grows(v, g, w, d, e, s) && x in g.depth && TreeOK(w, Grown(g, d, e, s))
    ensures x in Grown(g, d, e, s).depth && Trail(w, Grown(g, d, e, s), x) == Trail(v, g, x)
    decreases g.depth[x]
  {
    GrowIsFresh(v, g, w, d, e, s);
    GrowHeads(v, g, w, d, e, s);
    if x != ROOT {
      assert Up(v, x) in g.depth && Up(w, x) == Up(v, x) && Dir(w, x)[0] == Dir(v, x)[0];
      TrailStays(v, g, w, d, e, s, Up(v, x));
    }
  }

  // ---- A folder is read as a file ----

  /** FileRead.ReadCodes: reading a new folder returns 0 and copies its table. */
  lemma FolderReads(v: Volume, t: Table, size: uint32)
    requires Blank(v, t) && size > 0
    ensures Accepts(v, NewFolder(LETTER_A, ROOT))
    ensures var (w, h, c) := Made(v, FRESH, NewFolder(LETTER_A, ROOT));
      var r := NewFolder(LETTER_A, ROOT).(size := size);
      && WellFormed(w, h) && CanRead(w, r) && Read(w, h, r).code == 0 && |Read(w, h, r).data| == CLUSTER_SIZE
  {
    BlankIsReady(v, t);
    LetterIsClean();
    MakeFolder(v, FRESH, ROOT, LETTER_A);
    var (w, h, c) := Made(v, FRESH, NewFolder(LETTER_A, ROOT));
    WriteFindsTable(v, FRESH, NewFolder(LETTER_A, ROOT));
    ReadLength(w, h, NewFolder(LETTER_A, ROOT).(size := size));
  }

  lemma BlankIsReady(v: Volume, t: Table)
    requires Blank(v, t)
    ensures Ready(v, FRESH, ROOT)
  {
  }

  lemma LetterIsClean()
    ensures CleanName(LETTER_A) && CleanName(LETTER_B)
  {
    assert CString(LETTER_A[1..]) == [] && CString(LETTER_B[1..]) == [];
  }

  // ---- Entry 0 taken for a content ----

  /** MoveExact.MoveKeepsExactly: the search for the source starts at slot 0, so in a new folder
      "a" the source "a" is the folder's entry of itself. Moving it to the root returns 0. */
  lemma MovingEntryZeroBreaks(v: Volume, t: Table, k: Shape)
    requires Blank(v, t)
    ensures Accepts(v, NewFolder(LETTER_A, ROOT))
    ensures var (w, h, c) := Made(v, FRESH, NewFolder(LETTER_A, ROOT));
      var src, tar := NewFolder(LETTER_A, c), NewFolder(LETTER_B, ROOT);
      && WellFormed(w, h) && OnDisk(w, src, tar) && Source(w, src) == 0
      && Move(w, src, tar).code == 0 && !Keeps(Move(w, src, tar).volume, k, h)
  {
    var r := NewFolder(LETTER_A, ROOT);
    BlankIsReady(v, t);
    LetterIsClean();
    MakeFolder(v, FRESH, ROOT, LETTER_A);
    ReadyAccepts(v, FRESH, ROOT, LETTER_A);
    var (w, h, c) := Made(v, FRESH, r);
    StoredFolderTable(v, r);
    FreeListFacts(v.fat);
    assert FreeList(v.fat)[1] in FreeList(v.fat);
    SelfGoesToRoot(w, h, c, t, Added(v, r), k);
  }

  /** From an empty folder `c`, the only content of the root. */
  lemma SelfGoesToRoot(v: Volume, g: Shape, c: uint32, t: Table, e: Entry, k: Shape)
    requires WellFormed(v, g) && c in g.depth && c != ROOT && Fill(Dir(v, c)) == 2 && RootHolds(v, t, e, NewFolder(LETTER_A, ROOT))
    requires Dir(v, c)[0].Named(LETTER_A, ZERO_EXT) && DataCluster(Dir(v, c)[0].First())
    ensures var src, tar := NewFolder(LETTER_A, c), NewFolder(LETTER_B, ROOT);
      && OnDisk(v, src, tar) && Source(v, src) == 0
      && Move(v, src, tar).code == 0 && !Keeps(Move(v, src, tar).volume, k, g)
  {
    var src, tar := NewFolder(LETTER_A, c), NewFolder(LETTER_B, ROOT);
    FolderInUse(v, g, c);
    assert FolderOK(v, c);
    RootLacks(v, t, e, tar);
    GoesIs(v, g, src, tar);
    if Keeps(Move(v, src, tar).volume, k, g) {
      KeepsSound(v, g, src, tar, k);
    }
  }

  lemma RootLacks(v: Volume, t: Table, e: Entry, tar: Request)
    requires RootHolds(v, t, e, NewFolder(LETTER_A, ROOT)) && tar.name == LETTER_B && tar.parent == ROOT
    ensures !Holds(Dir(v, ROOT), tar.name, tar.ext) && Fill(Dir(v, ROOT)) == 3
  {
    FillIs(Append(t, e), 3);
  }

  // ---- A folder moved below itself ----

  /** The source is a content, the destination lies below it, and the move, though it returns 0,
      does not leave the files and folders with shape `k`. */
  ghost predicate MovedBelow(v: Volume, g: Shape, src: Request, tar: Request, k: Shape) {
    && WellFormed(v, g) && OnDisk(v, src, tar) && Move(v, src, tar).code == 0
    && 2 <= Source(v, src) < Fill(Dir(v, src.parent))
    && var q := DestinationOf(v, src, tar).folder;
    && q in g.depth && q != src.parent && Under(v, g, q, Moved(v, src, tar).First())
    && !Keeps(Move(v, src, tar).volume, k, g)
  }

  /** MoveExact.MoveKeepsExactly: "a", in it "b", and then "a" moved into "b". */
  lemma MovingIntoChildBreaks(v: Volume, t: Table, k: Shape) returns (ops: seq<Op>, src: Request, tar: Request)
    requires Blank(v, t)
    ensures AdmissibleRun(v, FRESH, ops) && |ops| == 2
    ensures var (w, h) := After(v, FRESH, ops); MovedBelow(w, h, src, tar, k)
  {
    var ra := NewFolder(LETTER_A, ROOT);
    FirstFolder(v, t);
    var (v1, g1, a) := Made(v, FRESH, ra);
    var rb := NewFolder(LETTER_B, a);
    LetterIsClean();
    SecondFolder(v1, g1, t, Added(v, ra), a, LETTER_B);
    var (v2, g2, b) := Made(v1, g1, rb);
    TwoMade(v, t, LETTER_B);
    ops, src, tar := TwoFolders(a, LETTER_B), ra, rb;
    GoesBelow(v2, g2, t, Added(v, ra), Added(v1, rb), a, b, k);
  }

  lemma FirstFolder(v: Volume, t: Table)
    requires Blank(v, t)
    ensures Accepts(v, NewFolder(LETTER_A, ROOT)) && ParentOK(v, FRESH, ROOT) && WellFormed(v, FRESH)
    ensures var (w, h, a) := Made(v, FRESH, NewFolder(LETTER_A, ROOT));
      Ready(w, h, a) && RootHolds(w, t, Added(v, NewFolder(LETTER_A, ROOT)), NewFolder(LETTER_A, ROOT)) && a != ROOT
  {
    BlankIsReady(v, t);
    LetterIsClean();
    MakeFolder(v, FRESH, ROOT, LETTER_A);
    ReadyAccepts(v, FRESH, ROOT, LETTER_A);
  }

  lemma SecondFolder(v: Volume, g: Shape, t: Table, e: Entry, a: uint32, name: Name)
    requires Ready(v, g, a) && RootHolds(v, t, e, NewFolder(LETTER_A, ROOT)) && a != ROOT && CleanName(name)
    ensures Accepts(v, NewFolder(name, a)) && ParentOK(v, g, a)
    ensures var (w, h, b) := Made(v, g, NewFolder(name, a));
      && WellFormed(w, h) && RootHolds(w, t, e, NewFolder(LETTER_A, ROOT))
      && a in h.depth && b in h.depth && a != b && b != ROOT && Up(w, b) == a
      && Fill(Dir(w, a)) == 3 && Dir(w, a)[2] == Added(v, NewFolder(name, a)) && Dir(w, a)[0] == Dir(v, a)[0]
      && Fill(Dir(w, b)) == 2
  {
    var r := NewFolder(name, a);
    MakeFolder(v, g, a, name);
    ReadyAccepts(v, g, a, name);
    GrowTable(v, g, Written(v, r), a, Added(v, r), Allocated(v, r));
    GrowIsFresh(v, g, Written(v, r), a, Added(v, r), Allocated(v, r));
    assert Dir(Written(v, r), ROOT) == Dir(v, ROOT);
  }

  function TwoFolders(a: uint32, name: Name): seq<Op> {
    [WriteOp(NewFolder(LETTER_A, ROOT))] + [WriteOp(NewFolder(name, a))]
  }

  /** Folder "a" in the root, and another one in it, as a run. */
  lemma TwoMade(v: Volume, t: Table, name: Name)
    requires Blank(v, t) && CleanName(name)
    ensures Accepts(v, NewFolder(LETTER_A, ROOT))
    ensures var (v1, g1, a) := Made(v, FRESH, NewFolder(LETTER_A, ROOT));
      && Accepts(v1, NewFolder(name, a)) && AdmissibleRun(v, FRESH, TwoFolders(a, name))
      && After(v, FRESH, TwoFolders(a, name)) == (Written(v1, NewFolder(name, a)), WriteShape(v1, g1, NewFolder(name, a)))
  {
    FirstFolder(v, t);
    var (v1, g1, a) := Made(v, FRESH, NewFolder(LETTER_A, ROOT));
    ReadyAccepts(v1, g1, a, name);
    TwoWrites(v, FRESH, NewFolder(LETTER_A, ROOT), NewFolder(name, a));
  }

  lemma TwoWrites(v: Volume, g: Shape, r: Request, s: Request)
    requires WellFormed(v, g) && ParentOK(v, g, r.parent) && Accepts(v, r)
    requires WellFormed(Written(v, r), WriteShape(v, g, r)) && ParentOK(Written(v, r), WriteShape(v, g, r), s.parent) && Accepts(Written(v, r), s)
    ensures var ops := [WriteOp(r)] + [WriteOp(s)];
      && AdmissibleRun(v, g, ops)
      && After(v, g, ops) == (Written(Written(v, r), s), WriteShape(Written(v, r), WriteShape(v, g, r), s))
  {
    OneWrite(v, g, r);
    MadeOps(v, g, [WriteOp(r)], s);
  }

  lemma OneWrite(v: Volume, g: Shape, r: Request)
    requires WellFormed(v, g) && ParentOK(v, g, r.parent) && Accepts(v, r)
    ensures AdmissibleRun(v, g, [WriteOp(r)]) && After(v, g, [WriteOp(r)]) == (Written(v, r), WriteShape(v, g, r))
  {
    MadeOps(v, g, [], r);
    assert [] + [WriteOp(r)] == [WriteOp(r)];
  }

  lemma GoesBelow(v: Volume, g: Shape, t: Table, ea: Entry, eb: Entry, a: uint32, b: uint32, k: Shape)
    requires WellFormed(v, g) && RootHolds(v, t, ea, NewFolder(LETTER_A, ROOT)) && ea.ext == ZERO_EXT && ea.First() == a
    requires t[0].name != LETTER_A && t[1].name != LETTER_A && a in g.depth && b in g.depth && a != b && b != ROOT && Up(v, b) == a
    requires Fill(Dir(v, a)) == 3 && Dir(v, a)[2] == eb && eb.Named(LETTER_B, ZERO_EXT) && eb.First() == b && eb.IsFolder() && Fill(Dir(v, b)) == 2
    ensures MovedBelow(v, g, NewFolder(LETTER_A, ROOT), NewFolder(LETTER_B, a), k)
  {
    var src, tar := NewFolder(LETTER_A, ROOT), NewFolder(LETTER_B, a);
    FoundInRoot(v, t, ea, src);
    FolderInUse(v, g, a);
    FolderInUse(v, g, b);
    FindIs(Dir(v, a), 2, LETTER_B, ZERO_EXT);
    NothingHeld(Dir(v, b), src);
    PlaceFacts(v, b, LETTER_A, ZERO_EXT, false);
    assert Under(v, g, a, a);
    GoesIs(v, g, src, tar);
    IntoItselfBreaks(v, g, src, tar, k);
  }

  // ---- Entry 0 standing in for a content ----

  /** MoveExact.SelfEntrySuffices: with a folder "a" inside a folder "a", the source "a/a" is found
      in entry 0, which is the very same entry, and moving it keeps the files and folders. */
  lemma MovingEntryZeroKeeps(v: Volume, t: Table) returns (ops: seq<Op>, src: Request, tar: Request)
    requires Blank(v, t)
    ensures AdmissibleRun(v, FRESH, ops) && |ops| == 2
    ensures var (w, h) := After(v, FRESH, ops);
      && WellFormed(w, h) && OnDisk(w, src, tar) && Source(w, src) == 0 && Move(w, src, tar).code == 0
      && exists k :: Keeps(Move(w, src, tar).volume, k, h)
  {
    var ra := NewFolder(LETTER_A, ROOT);
    FirstFolder(v, t);
    var (v1, g1, a) := Made(v, FRESH, ra);
    var raa := NewFolder(LETTER_A, a);
    LetterIsClean();
    SecondFolder(v1, g1, t, Added(v, ra), a, LETTER_A);
    var (v2, g2, b) := Made(v1, g1, raa);
    SelfEntryIsNext(v, t);
    TwoMade(v, t, LETTER_A);
    ops, src, tar := TwoFolders(a, LETTER_A), raa, NewFolder(LETTER_B, ROOT);
    StandsIn(v2, g2, t, Added(v, ra), a, src, tar);
  }

  /** Entry 0 of the first folder is, field for field, the entry a folder of its name made in it gets. */
  lemma SelfEntryIsNext(v: Volume, t: Table)
    requires Blank(v, t)
    ensures var ra := NewFolder(LETTER_A, ROOT);
      && Accepts(v, ra)
      && var (w, h, a) := Made(v, FRESH, ra);
      Accepts(w, NewFolder(LETTER_A, a)) && Dir(w, a)[0] == Added(w, NewFolder(LETTER_A, a))
  {
    var ra := NewFolder(LETTER_A, ROOT);
    FirstFolder(v, t);
    var (w, h, a) := Made(v, FRESH, ra);
    ReadyAccepts(w, h, a, LETTER_A);
    FolderInUse(v, FRESH, ROOT);
    StoredFolderTable(v, ra);
    WriteTakesLowestFree(v, ra);
    FirstOfPrefix(FreeList(w.fat), 1);
    assert FreeList(w.fat)[0] == FreeList(v.fat)[1];
  }

  lemma StandsIn(v: Volume, g: Shape, t: Table, e: Entry, a: uint32, src: Request, tar: Request)
    requires WellFormed(v, g) && RootHolds(v, t, e, NewFolder(LETTER_A, ROOT)) && e.First() == a && a in g.depth && a != ROOT
    requires Fill(Dir(v, a)) == 3 && Dir(v, a)[0] == Dir(v, a)[2] && Dir(v, a)[0].Named(LETTER_A, ZERO_EXT)
    requires src == NewFolder(LETTER_A, a) && tar == NewFolder(LETTER_B, ROOT)
    ensures OnDisk(v, src, tar) && Source(v, src) == 0 && Move(v, src, tar).code == 0
    ensures exists k :: Keeps(Move(v, src, tar).volume, k, g)
  {
    FolderInUse(v, g, a);
    assert Slot(v, g, a, 2);
    assert SlotOK(v, g, a, Dir(v, a)[2]);
    ChainHead(v, g, Dir(v, a)[2].First());
    RootLacks(v, t, e, tar);
    PlaceFacts(v, ROOT, LETTER_B, ZERO_EXT, true);
    GoesIs(v, g, src, tar);
    OnlyRootEntry(v, g, t, e, a);
    assert !Under(v, g, ROOT, Dir(v, a)[2].First());
    SoundKeeps(v, g, src, tar);
  }

  /** The folder's entry in the root is the only one that names it. */
  lemma OnlyRootEntry(v: Volume, g: Shape, t: Table, e: Entry, a: uint32)
    requires WellFormed(v, g) && RootHolds(v, t, e, NewFolder(LETTER_A, ROOT)) && e.First() == a && a in g.depth
    requires Fill(Dir(v, a)) == 3 && Dir(v, a)[0] == Dir(v, a)[2] && Dir(v, a)[0].Named(LETTER_A, ZERO_EXT)
    ensures Interchangeable(v, g, a)
  {
    FillIs(Append(t, e), 3);
    assert Owns(v, g, ROOT, 2, a);
    assert Slot(v, g, a, 2);
    assert SlotOK(v, g, a, Dir(v, a)[2]);
  }

  /** One more folder at the end of a run. */
  lemma MadeOps(v: Volume, g: Shape, ops: seq<Op>, r: Request)
    requires AdmissibleRun(v, g, ops)
    requires var (w, h) := After(v, g, ops); WellFormed(w, h) && ParentOK(w, h, r.parent) && Accepts(w, r)
    ensures AdmissibleRun(v, g, ops + [WriteOp(r)])
    ensures var (w, h) := After(v, g, ops);
      After(v, g, ops + [WriteOp(r)]) == (Written(w, r), WriteShape(w, h, r))
  {
    RunExtends(v, g, ops, WriteOp(r));
  }

  // ---- Fifty-two folders deep ----

  const FOUR_A: Name := ['a' as int, 'a' as int, 'a' as int, 'a' as int, 0, 0, 0, 0]

  function NestPath(n: nat): (s: seq<byte>)
    ensures |s| == 5 * n
    ensures n > 0 ==> s[4] == SLASH
  {
    if n == 0 then []
    else
      var p := NestPath(n - 1);
      p + ['a' as int, 'a' as int, 'a' as int, 'a' as int] + [SLASH]
  }

  lemma FourIsClean()
    ensures CleanName(FOUR_A) && CString(FOUR_A) == ['a' as int, 'a' as int, 'a' as int, 'a' as int]
  {
    var n: seq<byte> := FOUR_A;
    assert CString(n[4..]) == [];
    assert n[3..][1..] == n[4..] && n[2..][1..] == n[3..] && n[1..][1..] == n[2..];
    assert CString(n[3..]) == [n[3]] + CString(n[4..]);
    assert CString(n[2..]) == [n[2]] + CString(n[3..]);
    assert CString(n[1..]) == [n[1]] + CString(n[2..]);
  }

  /** The run makes `n` folders, each inside the one before; `d` is the last. */
  ghost predicate Nests(v: Volume, ops: seq<Op>, n: nat, d: uint32) {
    && AdmissibleRun(v, FRESH, ops) && |ops| == n
    && var (w, h) := After(v, FRESH, ops);
    Ready(w, h, d) && Trail(w, h, d) == NestPath(n) && |FreeList(w.fat)| == CLUSTER_MAP_SIZE - FIRST_DATA_CLUSTER - n
  }

  /** A blank volume takes 500 folders, each inside the one before. */
  lemma {:induction false} Nested(v: Volume, t: Table, n: nat) returns (ops: seq<Op>, d: uint32)
    requires Blank(v, t) && n <= 500
    ensures Nests(v, ops, n, d)
  {
    if n == 0 {
      ops, d := [], ROOT;
    } else {
      var ops0, d0 := Nested(v, t, n - 1);
      d := NestOnce(v, ops0, n - 1, d0);
      ops := ops0 + [WriteOp(NewFolder(FOUR_A, d0))];
    }
  }

  lemma NestOnce(v: Volume, ops: seq<Op>, n: nat, d: uint32) returns (c: uint32)
    requires Nests(v, ops, n, d) && n < 500
    ensures Nests(v, ops + [WriteOp(NewFolder(FOUR_A, d))], n + 1, c)
  {
    var (w, h) := After(v, FRESH, ops);
    FourIsClean();
    MakeFolder(w, h, d, FOUR_A);
    MadeOps(v, FRESH, ops, NewFolder(FOUR_A, d));
    c := Added(w, NewFolder(FOUR_A, d)).First();
  }

  /** Paths.ResolvePrinted: fifty-two folders deep the first separator of the printed path stands
      256 bytes before its end, and resolving the path misses the folder. */
  lemma DeepFolderUnresolved(v: Volume, t: Table) returns (ops: seq<Op>, d: uint32)
    requires Blank(v, t)
    ensures AdmissibleRun(v, FRESH, ops) && |ops| == 52
    ensures var (w, h) := After(v, FRESH, ops);
      && WellFormed(w, h) && CleanTree(w, h) && d in h.depth
      && !WrapFree(Trail(w, h, d)) && Resolve(w, Trail(w, h, d), ROOT) != d
  {
    ops, d := Nested(v, t, 52);
    var (w, h) := After(v, FRESH, ops);
    var path := NestPath(52);
    assert IsSeparator(path[4]) && (|path| - 4) % 0x100 == 0;
    ResolvePrinted(w, h, d);
  }
}
