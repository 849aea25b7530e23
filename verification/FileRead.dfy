/** fat32.c: copy_long_cluster and read. Looking a file up and copying its chain out. */
module FileRead {
  import opened Words
  import opened DirectoryLayout
  import opened ClusterChains
  import opened DirectoryTables
  import opened Volumes
  import opened Requests
  import opened FileWrite
  import opened FileDelete

  // ---- Copying a chain ----

  /** The clusters of `s`, one after the other. */
  function Bytes(disk: seq<Cluster>, s: seq<nat>): (b: seq<byte>)
    requires forall i :: 0 <= i < |s| ==> s[i] < |disk|
    ensures |b| == |s| * CLUSTER_SIZE
  {
    if s == [] then [] else disk[s[0]] + Bytes(disk, s[1..])
  }

  /** `t` with `data` written over it from `at` on. */
  function Splice(t: seq<byte>, at: nat, data: seq<byte>): (u: seq<byte>)
    requires at + |data| <= |t|
    ensures |u| == |t|
  {
    t[..at] + data + t[at + |data|..]
  }

  lemma SpliceTwice(t: seq<byte>, at: nat, a: seq<byte>, b: seq<byte>)
    requires at + |a| + |b| <= |t|
    ensures Splice(Splice(t, at, a), at + |a|, b) == Splice(t, at, a + b)
  {
  }

  lemma BytesStep(disk: seq<Cluster>, s: seq<nat>, n: nat)
    requires 0 < n <= |s| && forall i :: 0 <= i < n ==> s[i] < |disk|
    ensures Bytes(disk, s[..n]) == disk[s[0]] + Bytes(disk, s[1..][..n - 1])
  {
    assert s[..n][1..] == s[1..][..n - 1];
  }

  /** How many clusters of a chain of `length` clusters are copied when `remaining` bytes are
      asked for; `remaining` is a 32-bit word that loses a cluster's worth at each step. */
  function CopyCount(remaining: uint32, length: nat): (n: nat)
    ensures n <= length
    decreases length
  {
    if remaining == 0 || length == 0 then 0
    else if length == 1 then 1
    else 1 + CopyCount((remaining - CLUSTER_SIZE) % WORD_LIMIT, length - 1)
  }

  /** A size that is not a multiple of the cluster size steps over zero and copies the whole
      chain; a multiple of it stops exactly there. */
  lemma {:induction false} CopyCountIs(remaining: uint32, length: nat)
    requires remaining > 0
    ensures remaining % CLUSTER_SIZE != 0 ==> CopyCount(remaining, length) == length
    ensures remaining % CLUSTER_SIZE == 0 ==>
              CopyCount(remaining, length) == if remaining / CLUSTER_SIZE <= length then remaining / CLUSTER_SIZE else length
    decreases length
  {
    if length > 1 {
      var next := (remaining - CLUSTER_SIZE) % WORD_LIMIT;
      assert remaining % CLUSTER_SIZE == next % CLUSTER_SIZE;
      if next > 0 {
        CopyCountIs(next, length - 1);
      }
    }
  }

  // ---- Looking up and reading ----

  /** The first content slot that is unused or has the given name; TABLE_SIZE when there is none. */
  function FindName(t: Table, i: nat, name: Name): (n: nat)
    requires i <= TABLE_SIZE
    ensures i <= n <= TABLE_SIZE
    ensures forall j :: i <= j < n ==> t[j].Used() && t[j].name != name
    ensures n < TABLE_SIZE ==> !t[n].Used() || t[n].name == name
    decreases TABLE_SIZE - i
  {
    if i == TABLE_SIZE || !t[i].Used() || t[i].name == name then i else FindName(t, i + 1, name)
  }

  /** The return code of a read and the bytes it copies out. */
  datatype ReadOutcome = ReadOutcome(code: int, data: seq<byte>)

  /** What read asks of its caller: the request does not name a zeroed slot. */
  ghost predicate CanRead(v: Volume, r: Request) {
    var t := Dir(v, r.parent);
    var n := FindName(t, 2, r.name);
    t[0].Used() && n < TABLE_SIZE && t[n].Named(r.name, r.ext) ==> t[n].Used()
  }

  ghost function Copied(v: Volume, g: Shape, c: nat, size: uint32): seq<byte>
    requires ChainsOK(v.fat, g.chains) && |v.disk| >= CLUSTER_MAP_SIZE
  {
    if c in g.chains then
      ChainHead(v, g, c);
      Bytes(v.disk, g.chains[c][..CopyCount(size, |g.chains[c]|)])
    else []
  }

  ghost function Read(v: Volume, g: Shape, r: Request): ReadOutcome
    requires ChainsOK(v.fat, g.chains) && |v.disk| >= CLUSTER_MAP_SIZE
  {
    var t := Dir(v, r.parent);
    var n := FindName(t, 2, r.name);
    if !t[0].Used() then ReadOutcome(-1, [])
    else if n == TABLE_SIZE || !t[n].Used() then ReadOutcome(2, [])
    else if t[n].ext != r.ext then ReadOutcome(1, [])
    else ReadOutcome(0, Copied(v, g, t[n].First(), r.size))
  }

  /** Some content of the table has this name, under whatever extension. */
  ghost predicate NameTaken(t: Table, name: Name) {
    exists i :: 2 <= i < Fill(t) && t[i].name == name
  }

  /** Slot `i` is the first content with its name. */
  ghost predicate FirstOfName(t: Table, i: int) {
    2 <= i < Fill(t) && forall j :: 2 <= j < i ==> t[j].name != t[i].name
  }

  lemma FindNameIs(t: Table, name: Name)
    ensures var n := FindName(t, 2, name);
      && (n < TABLE_SIZE && t[n].Used() <==> NameTaken(t, name))
      && (NameTaken(t, name) ==> FirstOfName(t, n) && t[n].name == name)
  {
    var n := FindName(t, 2, name);
    if n < TABLE_SIZE && t[n].Used() {
      assert 2 <= n < Fill(t) && t[n].name == name;
    }
  }

  lemma FirstIsFound(t: Table, i: int)
    requires FirstOfName(t, i)
    ensures FindName(t, 2, t[i].name) == i
  {
    FindNameIs(t, t[i].name);
  }

  /** All that a read returns: -1 for a parent that is no folder, 2 exactly when no entry has the
      name, 0 exactly when the first entry of that name, a file or a folder, has the extension
      too, and otherwise 1. */
  lemma ReadCodes(v: Volume, g: Shape, r: Request)
    requires WellFormed(v, g) && ParentOK(v, g, r.parent) && CanRead(v, r)
    ensures var t, code := Dir(v, r.parent), Read(v, g, r).code;
      if !t[0].Used() then code == -1
      else
        && (code == 2 <==> !NameTaken(t, r.name))
        && (code == 0 <==> exists i :: FirstOfName(t, i) && t[i].Named(r.name, r.ext))
        && (code == 0 || code == 1 || code == 2)
  {
    var t := Dir(v, r.parent);
    FindNameIs(t, r.name);
    if i :| FirstOfName(t, i) && t[i].Named(r.name, r.ext) {
      FirstIsFound(t, i);
    }
  }

  /** The entry a read finds. */
  ghost function Found(v: Volume, r: Request): Entry
    requires FindName(Dir(v, r.parent), 2, r.name) < TABLE_SIZE
  {
    Dir(v, r.parent)[FindName(Dir(v, r.parent), 2, r.name)]
  }

  /** How much a successful read copies: as many clusters as the copying recursion takes from a
      chain of the found entry's size. */
  lemma ReadLength(v: Volume, g: Shape, r: Request)
    requires WellFormed(v, g) && ParentOK(v, g, r.parent) && CanRead(v, r) && Read(v, g, r).code == 0
    ensures FindName(Dir(v, r.parent), 2, r.name) < TABLE_SIZE
    ensures |Read(v, g, r).data| == CopyCount(r.size, ClustersNeeded(Found(v, r).filesize)) * CLUSTER_SIZE
  {
    var e := Found(v, r);
    FindNameIs(Dir(v, r.parent), r.name);
    assert SlotOK(v, g, r.parent, Dir(v, r.parent)[FindName(Dir(v, r.parent), 2, r.name)]);
    ChainHead(v, g, e.First());
  }

  /** A successful read copies no more bytes than its size asks for if and only if the size is a
      multiple of the cluster size or all the clusters of the entry found fit in it. */
  lemma ReadStaysInBuffer(v: Volume, g: Shape, r: Request)
    requires WellFormed(v, g) && ParentOK(v, g, r.parent) && CanRead(v, r) && r.size > 0 && Read(v, g, r).code == 0
    ensures FindName(Dir(v, r.parent), 2, r.name) < TABLE_SIZE
    ensures |Read(v, g, r).data| <= r.size <==>
            r.size % CLUSTER_SIZE == 0 || ClustersNeeded(Found(v, r).filesize) * CLUSTER_SIZE <= r.size
  {
    ReadLength(v, g, r);
    CopyCountIs(r.size, ClustersNeeded(Found(v, r).filesize));
  }

  lemma {:induction false} BytesAt(disk: seq<Cluster>, s: seq<nat>, j: nat, k: nat)
    requires (forall i :: 0 <= i < |s| ==> s[i] < |disk|) && j < |s| && k < CLUSTER_SIZE
    ensures j * CLUSTER_SIZE + k < |s| * CLUSTER_SIZE
    ensures Bytes(disk, s)[j * CLUSTER_SIZE + k] == disk[s[j]][k]
  {
    if j > 0 {
      BytesAt(disk, s[1..], j - 1, k);
    }
  }

  /** Which bytes a successful read copies: byte `k` of cluster `j` of the chain of the entry found,
      for every cluster it gets to. */
  lemma ReadCopies(v: Volume, g: Shape, r: Request, j: nat, k: nat)
    requires WellFormed(v, g) && ParentOK(v, g, r.parent) && CanRead(v, r) && Read(v, g, r).code == 0
    requires k < CLUSTER_SIZE && j * CLUSTER_SIZE + k < |Read(v, g, r).data|
    ensures FindName(Dir(v, r.parent), 2, r.name) < TABLE_SIZE
    ensures var s := ChainOf(g, Found(v, r).First());
      && j < |s| && s[j] < |v.disk|
      && Read(v, g, r).data[j * CLUSTER_SIZE + k] == v.disk[s[j]][k]
  {
    ReadLength(v, g, r);
    var c := Found(v, r).First();
    var n := CopyCount(r.size, |ChainOf(g, c)|);
    ChainHead(v, g, c);
    BytesAt(v.disk, g.chains[c][..n], j, k);
  }

  /** Of two reads of the same file with different sizes, the shorter's bytes begin the longer's. */
  lemma ReadIsPrefix(v: Volume, g: Shape, r: Request, size: uint32)
    requires WellFormed(v, g) && ParentOK(v, g, r.parent) && CanRead(v, r) && Read(v, g, r).code == 0
    ensures CanRead(v, r.(size := size)) && Read(v, g, r.(size := size)).code == 0
    ensures var a, b := Read(v, g, r).data, Read(v, g, r.(size := size)).data;
      |a| <= |b| ==> a == b[..|a|]
  {
    var q := r.(size := size);
    var a, b := Read(v, g, r).data, Read(v, g, q).data;
    if |a| <= |b| {
      forall i | 0 <= i < |a| ensures a[i] == b[i] {
        ReadCopies(v, g, r, i / CLUSTER_SIZE, i % CLUSTER_SIZE);
        ReadCopies(v, g, q, i / CLUSTER_SIZE, i % CLUSTER_SIZE);
      }
    }
  }

  // ---- Reading back what was written ----

  lemma FindAppendedName(t: Table, e: Entry)
    requires Packed(t) && Fill(t) < TABLE_SIZE && e.Used() && !Holds(t, e.name, e.ext)
    ensures var u := Append(t, e); var n := FindName(u, 2, e.name);
      && n <= Fill(t) && u[n].Used() && u[n].name == e.name
      && if NameTaken(t, e.name) then u[n].ext != e.ext else u[n] == e
  {
    var u := Append(t, e);
    AppendPacked(t, e);
    var n := FindName(u, 2, e.name);
    assert u[Fill(t)] == e;
    if NameTaken(t, e.name) {
      var i :| 2 <= i < Fill(t) && t[i].name == e.name;
      assert u[i].name == e.name;
    }
    if n < Fill(t) {
      assert u[n].Used() && t[n].name == e.name;
      HoldsIsExhaustive(t, e.name, e.ext);
    }
  }

  lemma {:induction false} BytesStored(disk: seq<Cluster>, s: seq<nat>, mem: seq<byte>, j: nat)
    requires j <= |s| && |s| * CLUSTER_SIZE <= |mem|
    requires forall i :: 0 <= i < |s| ==> s[i] < |disk| && disk[s[i]] == Chunk(mem, i)
    ensures Bytes(disk, s[j..]) == mem[j * CLUSTER_SIZE..|s| * CLUSTER_SIZE]
    decreases |s| - j
  {
    if j < |s| {
      BytesStored(disk, s, mem, j + 1);
      assert s[j..][0] == s[j] && s[j..][1..] == s[j + 1..];
      assert Chunk(mem, j) + mem[(j + 1) * CLUSTER_SIZE..|s| * CLUSTER_SIZE] == mem[j * CLUSTER_SIZE..|s| * CLUSTER_SIZE];
    }
  }

  lemma WrittenBytes(v: Volume, g: Shape, r: Request)
    requires WellFormed(v, g) && ParentOK(v, g, r.parent) && Accepts(v, r) && r.size > 0
    ensures var s := Allocated(v, r);
      && (forall i :: 0 <= i < |s| ==> s[i] < |Written(v, r).disk|)
      && Bytes(Written(v, r).disk, s) == r.mem[..ClustersNeeded(r.size) * CLUSTER_SIZE]
  {
    var s, v' := Allocated(v, r), Written(v, r);
    LinkTakesFree(v.fat, ClustersNeeded(r.size));
    FolderInUse(v, g, r.parent);
    forall i | 0 <= i < |s| ensures s[i] < |v'.disk| && v'.disk[s[i]] == Chunk(r.mem, i) {
      assert s[i] in s;
    }
    BytesStored(v'.disk, s, r.mem, 0);
    assert s[0..] == s;
  }

  lemma WholeChain(size: uint32)
    requires size > 0
    ensures CopyCount(size, ClustersNeeded(size)) == ClustersNeeded(size)
  {
    CopyCountIs(size, ClustersNeeded(size));
  }

  lemma CopiedWritten(v: Volume, g: Shape, r: Request)
    requires WellFormed(v, g) && ParentOK(v, g, r.parent) && Accepts(v, r) && r.size > 0
    requires ChainsOK(Written(v, r).fat, WriteShape(v, g, r).chains)
    ensures Copied(Written(v, r), WriteShape(v, g, r), Added(v, r).First(), r.size)
         == r.mem[..ClustersNeeded(r.size) * CLUSTER_SIZE]
  {
    WrittenShape(v, g, r);
    WrittenBytes(v, g, r);
    WholeChain(r.size);
    CopiedWhole(Written(v, r), WriteShape(v, g, r), Added(v, r).First(), r.size);
  }

  lemma CopiedWhole(v: Volume, g: Shape, c: nat, size: uint32)
    requires ChainsOK(v.fat, g.chains) && |v.disk| >= CLUSTER_MAP_SIZE
    requires ChainOf(g, c) != [] && CopyCount(size, |ChainOf(g, c)|) == |ChainOf(g, c)|
    requires forall i :: 0 <= i < |ChainOf(g, c)| ==> ChainOf(g, c)[i] < |v.disk|
    ensures Copied(v, g, c, size) == Bytes(v.disk, ChainOf(g, c))
  {
    var s := ChainOf(g, c);
    assert s[..|s|] == s;
  }

  /** Reading a file right after writing it, with the same name, extension and size, returns 0
      with the written bytes in front if and only if no other entry of the folder has the same
      name; otherwise the read stops at that entry and returns 1. */
  lemma ReadAfterWrite(v: Volume, g: Shape, r: Request)
    requires WellFormed(v, g) && ParentOK(v, g, r.parent) && Accepts(v, r) && r.size > 0
    ensures var v', g' := Write(v, r).volume, WriteShape(v, g, r);
      && ChainsOK(v'.fat, g'.chains) && |v'.disk| >= CLUSTER_MAP_SIZE && CanRead(v', r)
      && var o := Read(v', g', r);
      && (o.code == 0 <==> !NameTaken(Dir(v, r.parent), r.name))
      && (o.code == 0 ==> |o.data| >= r.size && o.data[..r.size] == r.mem[..r.size])
      && (o.code != 0 ==> o == ReadOutcome(1, []))
  {
    WriteKeepsWellFormed(v, g, r);
    CopiedWritten(v, g, r);
    WriteFindsTable(v, g, r);
    ReadFound(Written(v, r), WriteShape(v, g, r), r, Added(v, r).First(), NameTaken(Dir(v, r.parent), r.name));
    PrefixOfPrefix(r.mem, ClustersNeeded(r.size) * CLUSTER_SIZE, r.size);
  }

  lemma PrefixOfPrefix(s: seq<byte>, m: nat, n: nat)
    requires n <= m <= |s|
    ensures s[..m][..n] == s[..n]
  {
  }

  lemma ReadFound(v: Volume, g: Shape, r: Request, c: nat, other: bool)
    requires ChainsOK(v.fat, g.chains) && |v.disk| >= CLUSTER_MAP_SIZE
    requires var t := Dir(v, r.parent); var n := FindName(t, 2, r.name);
      && t[0].Used() && n < TABLE_SIZE && t[n].Used()
      && if other then t[n].ext != r.ext else t[n].ext == r.ext && t[n].First() == c
    ensures CanRead(v, r)
    ensures Read(v, g, r) == if other then ReadOutcome(1, []) else ReadOutcome(0, Copied(v, g, c, r.size))
  {
  }

  lemma WriteFindsTable(v: Volume, g: Shape, r: Request)
    requires WellFormed(v, g) && ParentOK(v, g, r.parent) && Accepts(v, r)
    ensures var t, u := Dir(v, r.parent), Dir(Written(v, r), r.parent);
      var n := FindName(u, 2, r.name);
      && u[0].Used() && n < TABLE_SIZE && u[n].Used()
      && if NameTaken(t, r.name) then u[n].ext != r.ext else u[n] == Added(v, r)
  {
    FolderInUse(v, g, r.parent);
    assert FolderOK(v, r.parent);
    assert Dir(Written(v, r), r.parent) == Append(Dir(v, r.parent), Added(v, r));
    FindAppendedName(Dir(v, r.parent), Added(v, r));
  }
}
