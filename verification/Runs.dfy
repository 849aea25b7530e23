/** Whole runs of the file system operations. */
module Runs {
  import opened Words
  import opened DirectoryLayout
  import opened ClusterChains
  import opened Volumes
  import opened Requests
  import opened FileWrite
  import opened FileDelete
  import opened TreeDelete
  import opened FileMove
  import opened FileRead
  import opened Mount

  datatype Op =
    | WriteOp(r: Request)
    | DeleteOp(r: Request)
    | DeleteAllOp(r: Request)
    | MoveOp(r: Request, target: Request)

  /** The hypotheses under which one operation is called. */
  ghost predicate Allowed(v: Volume, g: Shape, op: Op) {
    && ParentOK(v, g, op.r.parent)
    && match op
       case WriteOp(r) => CanWrite(v, r)
       case DeleteOp(r) => CanRemove(v, r)
       case DeleteAllOp(r) => CanRemove(v, r)
       case MoveOp(r, t) => CanMove(v, g, r, t) && (TreeOK(v, g) ==> Elsewhere(v, g, r, t))
  }

  /** One operation. It is described for well-formed volumes, the only ones a run meets. */
  ghost function Step(v: Volume, g: Shape, op: Op): (Outcome, Shape)
    requires Allowed(v, g, op)
  {
    if !WellFormed(v, g) then (Outcome(0, v), g)
    else match op
      case WriteOp(r) => (Write(v, r), WriteShape(v, g, r))
      case DeleteOp(r) => (Delete(v, g, r), DeleteShape(v, g, r))
      case DeleteAllOp(r) => (DeleteAll(v, g, r), DeleteAllShape(v, g, r))
      case MoveOp(r, t) =>
        CanMoveOnDisk(v, g, r, t);
        (Move(v, r, t), MoveShape(v, g, r, t))
  }

  /** Every operation of the run is called under its hypotheses. */
  ghost predicate AdmissibleRun(v: Volume, g: Shape, ops: seq<Op>)
    decreases |ops|
  {
    ops == [] || (Allowed(v, g, ops[0]) &&
                  var (o, g') := Step(v, g, ops[0]);
                  AdmissibleRun(o.volume, g', ops[1..]))
  }

  /** The volume and shape after a run. */
  ghost function After(v: Volume, g: Shape, ops: seq<Op>): (Volume, Shape)
    requires AdmissibleRun(v, g, ops)
    decreases |ops|
  {
    if ops == [] then (v, g)
    else
      var (o, g') := Step(v, g, ops[0]);
      After(o.volume, g', ops[1..])
  }

  /** A run with one more operation at its end. */
  lemma {:induction false} RunExtends(v: Volume, g: Shape, ops: seq<Op>, op: Op)
    requires AdmissibleRun(v, g, ops) && Allowed(After(v, g, ops).0, After(v, g, ops).1, op)
    ensures AdmissibleRun(v, g, ops + [op])
    ensures var (w, h) := After(v, g, ops);
      var (o, h') := Step(w, h, op);
      After(v, g, ops + [op]) == (o.volume, h')
    decreases |ops|
  {
    if ops == [] {
      assert [op][1..] == [];
      assert ops + [op] == [op];
    } else {
      var (o, g') := Step(v, g, ops[0]);
      RunExtends(o.volume, g', ops[1..], op);
      assert (ops + [op])[1..] == ops[1..] + [op];
    }
  }

  /** One operation keeps the volume well formed; one that fails changes nothing. */
  lemma StepKeepsWellFormed(v: Volume, g: Shape, op: Op)
    requires WellFormed(v, g) && Allowed(v, g, op)
    ensures var (o, g') := Step(v, g, op);
      WellFormed(o.volume, g') && (o.code != 0 ==> o.volume == v && g' == g)
  {
    match op
    case WriteOp(r) => WriteKeepsWellFormed(v, g, r);
    case DeleteOp(r) => DeleteKeepsWellFormed(v, g, r);
    case DeleteAllOp(r) => DeleteAllKeepsWellFormed(v, g, r);
    case MoveOp(r, t) => MoveKeepsWellFormed(v, g, r, t);
  }

  /** Every run from a well-formed volume ends in a well-formed volume. */
  lemma {:induction false} RunKeepsWellFormed(v: Volume, g: Shape, ops: seq<Op>)
    requires WellFormed(v, g) && AdmissibleRun(v, g, ops)
    ensures WellFormed(After(v, g, ops).0, After(v, g, ops).1)
    decreases |ops|
  {
    if ops != [] {
      StepKeepsWellFormed(v, g, ops[0]);
      var (o, g') := Step(v, g, ops[0]);
      RunKeepsWellFormed(o.volume, g', ops[1..]);
    }
  }

  /** Whatever is done to a newly made file system, on a disk with any contents, it stays well formed. */
  lemma FreshRunWellFormed(disk: seq<Cluster>, tail: Tail, ops: seq<Op>)
    requires |disk| >= CLUSTER_MAP_SIZE && tail.Valid()
    requires AdmissibleRun(Format(disk, tail), FRESH, ops)
    ensures var (v, g) := After(Format(disk, tail), FRESH, ops); WellFormed(v, g)
  {
    FormatWellFormed(disk, tail);
    RunKeepsWellFormed(Format(disk, tail), FRESH, ops);
  }

  // ---- No leak, no loss ----

  ghost predicate NoRecursiveDelete(ops: seq<Op>) {
    forall i :: 0 <= i < |ops| ==> !ops[i].DeleteAllOp?
  }

  /** Change in the number of free clusters: what the entry written needs, or the chain freed. */
  ghost function Gained(v: Volume, g: Shape, op: Op): int {
    match op
    case WriteOp(r) => if Accepts(v, r) then 0 - ClustersNeeded(r.size) else 0
    case DeleteOp(r) => if Deletes(v, r) then |ChainOf(g, Victim(v, r).First())| else 0
    case _ => 0
  }

  lemma StepKeepsNoLeak(v: Volume, g: Shape, op: Op)
    requires WellFormed(v, g) && Allowed(v, g, op) && NoLeak(v, g) && !op.DeleteAllOp?
    ensures var (o, g') := Step(v, g, op);
      NoLeak(o.volume, g') && |FreeSet(o.volume.fat)| == |FreeSet(v.fat)| + Gained(v, g, op)
  {
    match op
    case WriteOp(r) =>
      WriteKeepsNoLeak(v, g, r);
      if Accepts(v, r) { WriteTakesLowestFree(v, r); }
    case DeleteOp(r) =>
      if Deletes(v, r) { DeleteKeepsNoLeak(v, g, r); }
    case MoveOp(r, t) =>
      MoveKeepsNoLeak(v, g, r, t);
  }

  ghost function GainedOver(v: Volume, g: Shape, ops: seq<Op>): int
    requires AdmissibleRun(v, g, ops)
    decreases |ops|
  {
    if ops == [] then 0
    else
      var (o, g') := Step(v, g, ops[0]);
      Gained(v, g, ops[0]) + GainedOver(o.volume, g', ops[1..])
  }

  /** A map word is in use exactly if it is reserved or lies on the chain of an entry. */
  ghost predicate ExactlyUsed(v: Volume, g: Shape) {
    forall x :: 0 <= x < CLUSTER_MAP_SIZE ==>
      (v.fat[x] != EMPTY <==> x < FIRST_DATA_CLUSTER || exists c :: c in g.chains && x in g.chains[c])
  }

  lemma NoLeakIsExact(v: Volume, g: Shape)
    requires WellFormed(v, g)
    ensures NoLeak(v, g) <==> ExactlyUsed(v, g)
  {
    forall x, c | 0 <= x < CLUSTER_MAP_SIZE && c in g.chains && x in g.chains[c] ensures v.fat[x] != EMPTY {
      ChainHead(v, g, c);
      ChainNotEmpty(v.fat, g.chains[c], x);
    }
  }

  lemma {:induction false} RunKeepsNoLeak(v: Volume, g: Shape, ops: seq<Op>)
    requires WellFormed(v, g) && NoLeak(v, g) && AdmissibleRun(v, g, ops) && NoRecursiveDelete(ops)
    ensures var (w, h) := After(v, g, ops);
      WellFormed(w, h) && NoLeak(w, h) && |FreeSet(w.fat)| == |FreeSet(v.fat)| + GainedOver(v, g, ops)
    decreases |ops|
  {
    if ops != [] {
      StepKeepsWellFormed(v, g, ops[0]);
      StepKeepsNoLeak(v, g, ops[0]);
      var (o, g') := Step(v, g, ops[0]);
      RunKeepsNoLeak(o.volume, g', ops[1..]);
    }
  }

  /** Over runs of write, delete and move from a new file system, the map words in use are
      exactly the reserved ones and those of the chains, and the free count is 509 less what
      was written plus what was deleted. */
  lemma FreshRunConserves(disk: seq<Cluster>, tail: Tail, ops: seq<Op>)
    requires |disk| >= CLUSTER_MAP_SIZE && tail.Valid() && NoRecursiveDelete(ops)
    requires AdmissibleRun(Format(disk, tail), FRESH, ops)
    ensures var v0 := Format(disk, tail);
      var (v, g) := After(v0, FRESH, ops);
      ExactlyUsed(v, g) && |FreeSet(v.fat)| == CLUSTER_MAP_SIZE - FIRST_DATA_CLUSTER + GainedOver(v0, FRESH, ops)
  {
    var v0 := Format(disk, tail);
    FormatWellFormed(disk, tail);
    RunKeepsNoLeak(v0, FRESH, ops);
    var (v, g) := After(v0, FRESH, ops);
    NoLeakIsExact(v, g);
    FreshFreeCount(disk, tail);
  }

  lemma FreshFreeCount(disk: seq<Cluster>, tail: Tail)
    requires |disk| >= CLUSTER_MAP_SIZE && tail.Valid()
    ensures |FreeSet(Format(disk, tail).fat)| == CLUSTER_MAP_SIZE - FIRST_DATA_CLUSTER
  {
    var s := seq(CLUSTER_MAP_SIZE - FIRST_DATA_CLUSTER, i => i + FIRST_DATA_CLUSTER);
    forall x ensures x in s <==> x in FreeSet(ReservedFat()) {
      if DataCluster(x) {
        ReservedFatFacts(x);
        assert s[x - FIRST_DATA_CLUSTER] == x;
      }
    }
    DistinctCount(s, FreeSet(ReservedFat()));
  }

  // ---- Files survive ----

  /** The operation does not remove the file with first cluster `k`. */
  ghost predicate Spares(v: Volume, g: Shape, op: Op, k: nat)
    requires TreeOK(v, g)
  {
    match op
    case DeleteOp(r) => Deletes(v, r) ==> Victim(v, r).First() != k
    case DeleteAllOp(r) => Finds(v, r) ==> !Inside(v, g, k, Victim(v, r).First())
    case _ => true
  }

  ghost predicate RunSpares(v: Volume, g: Shape, ops: seq<Op>, k: nat)
    requires AdmissibleRun(v, g, ops)
    decreases |ops|
  {
    ops == [] || ((TreeOK(v, g) ==> Spares(v, g, ops[0], k)) &&
                  var (o, g') := Step(v, g, ops[0]);
                  RunSpares(o.volume, g', ops[1..], k))
  }

  /** The file's chain is the same in both volumes, and so is every byte of it. */
  ghost predicate SameFile(v: Volume, g: Shape, w: Volume, h: Shape, k: nat) {
    && k in g.chains && k in h.chains && k !in g.depth && k !in h.depth && h.chains[k] == g.chains[k]
    && forall x :: x in g.chains[k] ==> x < |v.disk| && x < |w.disk| && w.disk[x] == v.disk[x]
  }

  ghost predicate IsFile(g: Shape, k: nat) {
    k in g.chains && k !in g.depth
  }

  lemma StepKeepsFile(v: Volume, g: Shape, op: Op, k: nat)
    requires WellFormed(v, g) && Allowed(v, g, op) && IsFile(g, k) && Spares(v, g, op, k)
    ensures var (o, g') := Step(v, g, op); SameFile(v, g, o.volume, g', k)
  {
    StepKeepsWellFormed(v, g, op);
    ChainHead(v, g, k);
    var (o, g') := Step(v, g, op);
    if o.code == 0 {
      match op
      case WriteOp(r) => WriteSparesFile(v, g, r, k);
      case DeleteOp(r) => DeleteSparesFile(v, g, r, k);
      case DeleteAllOp(r) => DeleteAllSparesFile(v, g, r, k);
      case MoveOp(r, t) =>
        CanMoveOnDisk(v, g, r, t);
        MoveSparesFile(v, g, r, t, k);
    }
  }

  lemma WriteSparesFile(v: Volume, g: Shape, r: Request, k: nat)
    requires WellFormed(v, g) && Allowed(v, g, WriteOp(r)) && IsFile(g, k) && Step(v, g, WriteOp(r)).0.code == 0
    ensures var (o, g') := Step(v, g, WriteOp(r)); SameFile(v, g, o.volume, g', k)
  {
    ChainHead(v, g, k);
    WriteKeepsFiles(v, g, r, k);
    WriteGrowsFresh(v, g, r, k);
  }

  lemma DeleteSparesFile(v: Volume, g: Shape, r: Request, k: nat)
    requires WellFormed(v, g) && Allowed(v, g, DeleteOp(r)) && IsFile(g, k) && Spares(v, g, DeleteOp(r), k)
    requires Step(v, g, DeleteOp(r)).0.code == 0
    ensures var (o, g') := Step(v, g, DeleteOp(r)); SameFile(v, g, o.volume, g', k)
  {
    var o := Step(v, g, DeleteOp(r)).0;
    forall x | x in g.chains[k] ensures x < |v.disk| && o.volume.disk[x] == v.disk[x] { DeleteKeepsFiles(v, g, r, k, x); }
    WithoutKeeps(g, Victim(v, r).First(), k);
  }

  lemma DeleteAllSparesFile(v: Volume, g: Shape, r: Request, k: nat)
    requires WellFormed(v, g) && Allowed(v, g, DeleteAllOp(r)) && IsFile(g, k) && Spares(v, g, DeleteAllOp(r), k)
    requires Step(v, g, DeleteAllOp(r)).0.code == 0
    ensures var (o, g') := Step(v, g, DeleteAllOp(r)); SameFile(v, g, o.volume, g', k)
  {
    var o := Step(v, g, DeleteAllOp(r)).0;
    forall x | x in g.chains[k] ensures x < |v.disk| && o.volume.disk[x] == v.disk[x] { DeleteAllFrame(v, g, r, k, x); }
  }

  lemma MoveSparesFile(v: Volume, g: Shape, r: Request, t: Request, k: nat)
    requires WellFormed(v, g) && ParentOK(v, g, r.parent) && CanMove(v, g, r, t) && IsFile(g, k) && OnDisk(v, r, t)
    requires WellFormed(Move(v, r, t).volume, MoveShape(v, g, r, t))
    ensures SameFile(v, g, Move(v, r, t).volume, MoveShape(v, g, r, t), k)
  {
    MoveShapeIs(v, g, r, t);
    forall x | x in g.chains[k] ensures x < |v.disk| && x < |Move(v, r, t).volume.disk| && Move(v, r, t).volume.disk[x] == v.disk[x] {
      MoveKeepsFiles(v, g, r, t, k, x);
    }
  }

  lemma WriteGrowsFresh(v: Volume, g: Shape, r: Request, k: nat)
    requires WellFormed(v, g) && ParentOK(v, g, r.parent) && Accepts(v, r) && IsFile(g, k)
    ensures IsFile(WriteShape(v, g, r), k) && |Written(v, r).disk| == |v.disk|
  {
    WrittenShape(v, g, r);
  }

  /** A file keeps its clusters and every byte through any run that does not remove it. */
  lemma {:induction false} RunKeepsFile(v: Volume, g: Shape, ops: seq<Op>, k: nat)
    requires WellFormed(v, g) && AdmissibleRun(v, g, ops) && IsFile(g, k) && RunSpares(v, g, ops, k)
    ensures var (w, h) := After(v, g, ops); SameFile(v, g, w, h, k)
    decreases |ops|
  {
    if ops == [] {
      ChainHead(v, g, k);
      forall x | x in g.chains[k] ensures x < |v.disk| { ChainNotEmpty(v.fat, g.chains[k], x); }
    } else {
      StepKeepsFile(v, g, ops[0], k);
      StepKeepsWellFormed(v, g, ops[0]);
      var (o, g') := Step(v, g, ops[0]);
      RunKeepsFile(o.volume, g', ops[1..], k);
    }
  }

  lemma {:induction false} BytesSame(d: seq<Cluster>, e: seq<Cluster>, s: seq<nat>)
    requires forall i :: 0 <= i < |s| ==> s[i] < |d| && s[i] < |e| && d[s[i]] == e[s[i]]
    ensures Bytes(d, s) == Bytes(e, s)
  {
    if s != [] {
      BytesSame(d, e, s[1..]);
    }
  }

  /** What was written is what a later copy of the file's chain gives, whatever happened in between. */
  lemma WrittenSurvivesRun(v: Volume, g: Shape, r: Request, ops: seq<Op>)
    requires WellFormed(v, g) && ParentOK(v, g, r.parent) && Accepts(v, r) && r.size > 0
    requires AdmissibleRun(Write(v, r).volume, WriteShape(v, g, r), ops)
    requires RunSpares(Write(v, r).volume, WriteShape(v, g, r), ops, Added(v, r).First())
    ensures var (w, h) := After(Write(v, r).volume, WriteShape(v, g, r), ops);
      && ChainsOK(w.fat, h.chains) && |w.disk| >= CLUSTER_MAP_SIZE
      && Copied(w, h, Added(v, r).First(), r.size) == r.mem[..ClustersNeeded(r.size) * CLUSTER_SIZE]
  {
    var v1, g1, c := Write(v, r).volume, WriteShape(v, g, r), Added(v, r).First();
    WriteKeepsWellFormed(v, g, r);
    CopiedWritten(v, g, r);
    WrittenIsFile(v, g, r);
    RunKeepsWellFormed(v1, g1, ops);
    RunKeepsFile(v1, g1, ops, c);
    var (w, h) := After(v1, g1, ops);
    SameFileCopied(v1, g1, w, h, c, r.size);
  }

  /** Reading the file back after the run, through the entry it has by then: wherever it was moved
      and whatever was swapped around it, a read by that entry's folder, name and extension gives
      the written bytes if and only if the entry is the first of its name in the folder;
      otherwise it returns 1. */
  lemma ReadAfterRun(v: Volume, g: Shape, r: Request, ops: seq<Op>) returns (d: uint32, i: nat)
    requires WellFormed(v, g) && ParentOK(v, g, r.parent) && Accepts(v, r) && r.size > 0
    requires AdmissibleRun(Write(v, r).volume, WriteShape(v, g, r), ops)
    requires RunSpares(Write(v, r).volume, WriteShape(v, g, r), ops, Added(v, r).First())
    ensures var (w, h) := After(Write(v, r).volume, WriteShape(v, g, r), ops);
      && WellFormed(w, h) && Owns(w, h, d, i, Added(v, r).First())
      && ReadsBack(w, h, r.(parent := d, name := Dir(w, d)[i].name, ext := Dir(w, d)[i].ext),
                   r.mem[..ClustersNeeded(r.size) * CLUSTER_SIZE], FirstOfName(Dir(w, d), i))
  {
    WriteKeepsWellFormed(v, g, r);
    WrittenIsFile(v, g, r);
    WrittenSurvivesRun(v, g, r, ops);
    RunKeepsWellFormed(Write(v, r).volume, WriteShape(v, g, r), ops);
    RunKeepsFile(Write(v, r).volume, WriteShape(v, g, r), ops, Added(v, r).First());
    var (w, h) := After(Write(v, r).volume, WriteShape(v, g, r), ops);
    assert Owned(w, h, Added(v, r).First());
    var d', i' :| Owns(w, h, d', i', Added(v, r).First());
    FolderInUse(w, h, d');
    d, i := d', i';
    ReadOwned(w, h, d, i, r.(parent := d, name := Dir(w, d)[i].name, ext := Dir(w, d)[i].ext));
  }

  /** A read of `r` returns 0 and `data` if `found`, and otherwise 1 and nothing. */
  ghost predicate ReadsBack(v: Volume, g: Shape, r: Request, data: seq<byte>, found: bool) {
    && ChainsOK(v.fat, g.chains) && |v.disk| >= CLUSTER_MAP_SIZE && CanRead(v, r)
    && Read(v, g, r) == if found then ReadOutcome(0, data) else ReadOutcome(1, [])
  }

  /** Reading through the entry in slot `i` of folder `r.parent`. */
  lemma ReadOwned(v: Volume, g: Shape, d: uint32, i: nat, r: Request)
    requires WellFormed(v, g) && Slot(v, g, d, i) && r.parent == d && Dir(v, d)[i].Named(r.name, r.ext)
    ensures ReadsBack(v, g, r, Copied(v, g, Dir(v, d)[i].First(), r.size), FirstOfName(Dir(v, d), i))
  {
    var t := Dir(v, d);
    assert FolderOK(v, d);
    FindNameIs(t, r.name);
    assert NameTaken(t, r.name);
    if FirstOfName(t, i) {
      FirstIsFound(t, i);
    }
  }

  lemma WrittenIsFile(v: Volume, g: Shape, r: Request)
    requires WellFormed(v, g) && ParentOK(v, g, r.parent) && Accepts(v, r) && r.size > 0
    ensures IsFile(WriteShape(v, g, r), Added(v, r).First())
  {
    WrittenShape(v, g, r);
  }

  lemma SameFileCopied(v: Volume, g: Shape, w: Volume, h: Shape, c: nat, size: uint32)
    requires ChainsOK(v.fat, g.chains) && ChainsOK(w.fat, h.chains) && |v.disk| >= CLUSTER_MAP_SIZE && |w.disk| >= CLUSTER_MAP_SIZE
    requires SameFile(v, g, w, h, c)
    ensures Copied(v, g, c, size) == Copied(w, h, c, size)
  {
    var s := g.chains[c][..CopyCount(size, |g.chains[c]|)];
    forall i | 0 <= i < |s| ensures s[i] < |v.disk| && s[i] < |w.disk| && v.disk[s[i]] == w.disk[s[i]] {
      assert s[i] in g.chains[c];
    }
    BytesSame(v.disk, w.disk, s);
  }
}
