/** fat32.c: the driver itself, over its cached map, its directory buffer and the disk, each
    updated in place. Every operation is proved against its description in FileWrite,
    FileDelete, TreeDelete, FileMove and FileRead. */
module Driver {
  import opened Words
  import opened DirectoryLayout
  import opened ClusterChains
  import opened DirectoryTables
  import opened Volumes
  import opened Requests
  import opened ChainBuilding
  import opened TreeWalk
  import opened FileRead
  import FileWrite
  import FileDelete
  import TreeDelete
  import FileMove
  import Mount

  /** What a move decides before it writes: a return code, or the slots and the entry to write. */
  datatype MovePlan = Refused(code: int) | Go(srcIndex: nat, q: uint32, t: Table, tarIndex: nat, e: Entry)

  class FileSystem {
    const fat: array<uint32>      // driver_state.fat_table.cluster_map
    const dirBuf: array<Entry>    // driver_state.dir_table_buf.table
    const disk: array<Cluster>
    ghost var shape: Shape

    ghost predicate Sized()
    {
      fat.Length == CLUSTER_MAP_SIZE && dirBuf.Length == TABLE_SIZE && disk.Length >= CLUSTER_MAP_SIZE
    }

    ghost function Vol(): Volume
      requires Sized()
      reads fat, disk
    {
      Volume(fat[..], disk[..])
    }

    ghost predicate Valid()
      reads this, fat, disk
    {
      Sized() && WellFormed(Vol(), shape)
    }

    // ---- Building blocks ----

    method GetEmptyCluster() returns (c: uint32)
      requires Sized()
      ensures c == if FreeList(fat[..]) == [] then NO_CLUSTER else FreeList(fat[..])[0]
    {
      var i := FIRST_DATA_CLUSTER;
      while i < CLUSTER_MAP_SIZE
        invariant FIRST_DATA_CLUSTER <= i <= CLUSTER_MAP_SIZE
        invariant FreeList(fat[..]) == FreeFrom(fat[..], i)
      {
        if fat[i] == EMPTY {
          return i;
        }
        i := i + 1;
      }
      return NO_CLUSTER;
    }

    /** read_clusters into a table. */
    method ReadTable(c: nat) returns (t: Table)
      requires Sized() && c < disk.Length
      ensures t == DecodeTable(disk[c])
    {
      t := ParseTable(disk[c]);
    }

    /** read_clusters into the directory buffer. */
    method LoadDir(c: nat)
      requires Sized() && c < disk.Length
      modifies dirBuf
      ensures dirBuf[..] == Dir(Vol(), c)
    {
      var t := ReadTable(c);
      forall i | 0 <= i < TABLE_SIZE {
        dirBuf[i] := t[i];
      }
      assert dirBuf[..] == t;
    }

    /** The first unused slot of the buffered table, less one; 255 when every slot is used. */
    method GetDirLastIndex() returns (last: nat)
      requires Sized()
      ensures last == if Fill(dirBuf[..]) < TABLE_SIZE then Fill(dirBuf[..]) - 1 else 255
    {
      var i := 2;
      while i < TABLE_SIZE
        invariant 2 <= i <= TABLE_SIZE
        invariant forall j :: 2 <= j < i ==> dirBuf[j].Used()
      {
        if !dirBuf[i].Used() {
          FillIs(dirBuf[..], i);
          return i - 1;
        }
        i := i + 1;
      }
      FillIs(dirBuf[..], TABLE_SIZE);
      return 255;
    }

    /** The search loop of delete, delete_all (from slot 2) and move (from slot 0). */
    method Search(from: nat, name: Name, ext: Extension) returns (index: int)
      requires Sized() && from <= TABLE_SIZE
      ensures index == if Find(dirBuf[..], from, name, ext) < TABLE_SIZE then Find(dirBuf[..], from, name, ext) else -1
    {
      index := -1;
      var i := from;
      while i < TABLE_SIZE && index == -1
        invariant from <= i <= TABLE_SIZE
        invariant index == -1 ==> Find(dirBuf[..], from, name, ext) == Find(dirBuf[..], i, name, ext)
        invariant index != -1 ==> index == i < TABLE_SIZE && Find(dirBuf[..], from, name, ext) == i
        decreases TABLE_SIZE - i, if index == -1 then 1 else 0
      {
        if dirBuf[i].name == name && dirBuf[i].ext == ext {
          index := i;
        } else {
          i := i + 1;
        }
      }
    }

    // ---- write ----

    /** The duplicate check: the first unused slot (-1 when there is none), or a duplicate before it. */
    method FindSlot(name: Name, ext: Extension) returns (entryNum: int, duplicate: bool)
      requires Sized()
      ensures duplicate <==> Holds(dirBuf[..], name, ext)
      ensures !duplicate ==> entryNum == if Fill(dirBuf[..]) < TABLE_SIZE then Fill(dirBuf[..]) else -1
    {
      var i := 2;
      while i < TABLE_SIZE
        invariant 2 <= i <= TABLE_SIZE
        invariant forall j :: 2 <= j < i ==> dirBuf[j].Used() && !dirBuf[j].Named(name, ext)
      {
        if !dirBuf[i].Used() {
          FillIs(dirBuf[..], i);
          return i, false;
        }
        if dirBuf[i].name == name && dirBuf[i].ext == ext {
          return -1, true;
        }
        i := i + 1;
      }
      FillIs(dirBuf[..], TABLE_SIZE);
      return -1, false;
    }

    /** Entry 0 and entry 1 of a new folder. The cluster entry 0 names is the next free one,
        which also receives a copy of the unfinished table. */
    method InitDirectoryTable(t: array<Entry>, name: Name, parent: uint32)
      requires Sized() && t.Length == TABLE_SIZE && t != dirBuf
      requires forall i :: 0 <= i < TABLE_SIZE ==> t[i] == ZERO_ENTRY
      requires FreeList(fat[..]) != []
      modifies t, disk
      ensures var x := FreeList(fat[..])[0];
        && DataCluster(x)
        && t[..] == FileWrite.FolderTable(name, x, parent)
        && disk[..] == old(disk[..])[x := TableImage(FileWrite.SelfTable(name, x))]
    {
      FreeListFacts(fat[..]);
      var x := GetEmptyCluster();
      assert x in FreeList(fat[..]);
      t[0] := FileWrite.NewEntry(name, ZERO_EXT, x, 0);
      assert t[..] == FileWrite.SelfTable(name, x);
      disk[x] := TableImage(t[..]);
      t[1] := FileWrite.NewEntry(FileWrite.DOT_DOT, ZERO_EXT, parent, 0);
    }

    /** The chain-building loop: cluster by cluster, link the next free one and copy into it. */
    method WriteChain(first: nat, clusterNeeded: nat, mem: seq<byte>)
      requires Sized() && 1 <= clusterNeeded <= |FreeList(fat[..])| && first == FreeList(fat[..])[0]
      requires clusterNeeded * CLUSTER_SIZE <= |mem|
      modifies fat, disk
      ensures var s := FreeList(old(fat[..]))[..clusterNeeded];
        && DataClusters(s) && Distinct(s)
        && fat[..] == Link(old(fat[..]), s)
        && disk[..] == FileWrite.StoreChunks(old(disk[..]), s, mem)
    {
      ghost var map0, disk0, all := fat[..], disk[..], FreeList(fat[..]);
      FirstCluster(map0, disk0, mem);
      var start := first;
      disk[start] := FileWrite.Chunk(mem, 0);
      var i := 1;
      while i < clusterNeeded
        invariant 1 <= i <= clusterNeeded && start == all[i - 1] && DataCluster(start)
        invariant FreePrefix(map0, i)
        invariant fat[..] == Link(map0, all[..i])[start := EMPTY]
        invariant disk[..] == FileWrite.StoreChunks(disk0, all[..i], mem)
      {
        LastIsEnd(map0, i);
        fat[start] := END_OF_FILE;
        LinkTakesFree(map0, i);
        var next := GetEmptyCluster();
        assert next == all[i];
        NextCluster(map0, disk0, mem, i);
        fat[start] := next;
        disk[next] := FileWrite.Chunk(mem, i);
        start := next;
        i := i + 1;
      }
      LastIsEnd(map0, clusterNeeded);
      fat[start] := END_OF_FILE;
    }

    /** Creates a file, or a folder when `size` is 0. */
    method Write(r: Request) returns (code: int)
      requires Valid() && ParentOK(Vol(), shape, r.parent) && FileWrite.CanWrite(Vol(), r)
      modifies this`shape, fat, dirBuf, disk
      ensures Outcome(code, Vol()) == FileWrite.Write(old(Vol()), r)
      ensures shape == FileWrite.WriteShape(old(Vol()), old(shape), r)
      ensures Valid()
    {
      FileWrite.WriteKeepsWellFormed(Vol(), shape, r);
      ghost var g := FileWrite.WriteShape(Vol(), shape, r);
      code := CheckAndCreate(r);
      shape := g;
    }

    method CheckAndCreate(r: Request) returns (code: int)
      requires Sized() && FileWrite.CanWrite(Vol(), r)
      modifies fat, dirBuf, disk
      ensures Outcome(code, Vol()) == FileWrite.Write(old(Vol()), r)
    {
      LoadDir(r.parent);
      if !dirBuf[0].Used() {
        return 2;
      }
      var entryNum, duplicate := FindSlot(r.name, r.ext);
      if duplicate {
        return 1;
      }
      var clusterNeeded := if r.size % CLUSTER_SIZE == 0 then r.size / CLUSTER_SIZE else r.size / CLUSTER_SIZE + 1;
      if clusterNeeded <= 0 {
        clusterNeeded := 1;
      }
      var start := GetEmptyCluster();
      FreeListFacts(fat[..]);
      assert FreeList(fat[..]) != [] ==> FreeList(fat[..])[0] in FreeList(fat[..]);
      if start == NO_CLUSTER {
        return -1;
      }
      Create(r, entryNum, start, clusterNeeded);
      return 0;
    }

    /** The part of write after every check has passed. */
    method Create(r: Request, entryNum: nat, start: nat, clusterNeeded: nat)
      requires Sized() && FileWrite.Accepts(Vol(), r) && dirBuf[..] == Dir(Vol(), r.parent)
      requires entryNum == Fill(dirBuf[..]) && start == FreeList(fat[..])[0] && clusterNeeded == ClustersNeeded(r.size)
      modifies fat, dirBuf, disk
      ensures Vol() == FileWrite.Written(old(Vol()), r)
    {
      ghost var v := Vol();
      FreeListFacts(fat[..]);
      assert start in FreeList(fat[..]);
      dirBuf[entryNum] := FileWrite.NewEntry(r.name, r.ext, start, r.size);
      assert dirBuf[..] == Append(Dir(v, r.parent), FileWrite.Added(v, r));
      if r.size == 0 {
        CreateFolder(start, r.name, r.parent);
      } else {
        WriteChain(start, clusterNeeded, r.mem);
      }
      assert fat[..] == FileWrite.Linked(v, r) && disk[..] == FileWrite.Stored(v, r);
      disk[r.parent] := TableImage(dirBuf[..]);
      disk[FAT_CLUSTER] := EncodeFat(fat[..]);
    }

    /** The folder branch: mark the cluster, fill in the table, write it. */
    method CreateFolder(start: nat, name: Name, parent: uint32)
      requires Sized() && 2 <= |FreeList(fat[..])| && start == FreeList(fat[..])[0]
      modifies fat, disk
      ensures var free := FreeList(old(fat[..]));
        && DataClusters(free[..2]) && free[..1] == [start]
        && fat[..] == Link(old(fat[..]), free[..1])
        && disk[..] == old(disk[..])[free[1] := TableImage(FileWrite.SelfTable(name, free[1]))]
                                    [free[0] := TableImage(FileWrite.FolderTable(name, free[1], parent))]
    {
      ghost var map0, free := fat[..], FreeList(fat[..]);
      FreeListFacts(map0);
      assert free[..1] == [start];
      var newDir := new Entry[TABLE_SIZE](_ => ZERO_ENTRY);
      fat[start] := END_OF_FILE;
      assert fat[..] == Link(map0, free[..1]);
      LinkTakesFree(map0, 1);
      InitDirectoryTable(newDir, name, parent);
      disk[start] := TableImage(newDir[..]);
    }

    // ---- read ----

    /** copy_long_cluster: cluster by cluster into `target` from `offset` on, until the remaining
        size reaches zero or the chain ends. `s` is the rest of the chain. */
    method CopyLongCluster(target: array<byte>, offset: nat, remaining: uint32, cluster: nat, ghost s: seq<nat>)
      requires Sized() && IsChain(fat[..], s) && s[0] == cluster
      requires offset + CopyCount(remaining, |s|) * CLUSTER_SIZE <= target.Length
      modifies target
      ensures var n := CopyCount(remaining, |s|);
        && (forall i :: 0 <= i < n ==> s[i] < disk.Length)
        && target[..] == Splice(old(target[..]), offset, Bytes(disk[..], s[..n]))
      decreases |s|
    {
      if remaining <= 0 {
        return;
      }
      ghost var n := CopyCount(remaining, |s|);
      var block := disk[cluster];
      forall i | 0 <= i < CLUSTER_SIZE {
        target[offset + i] := block[i];
      }
      assert target[..] == Splice(old(target[..]), offset, block);
      BytesStep(disk[..], s, n);
      assert |s| > 1 ==> fat[s[0]] == s[1];
      if fat[cluster] != END_OF_FILE {
        TailIsChain(fat[..], s);
        CopyLongCluster(target, offset + CLUSTER_SIZE, (remaining - CLUSTER_SIZE) % WORD_LIMIT, fat[cluster], s[1..]);
        SpliceTwice(old(target[..]), offset, block, Bytes(disk[..], s[1..][..n - 1]));
      }
    }

    method CopyFile(first: nat, size: uint32, buf: array<byte>)
      requires Sized() && ChainsOK(fat[..], shape.chains) && first in shape.chains && |Copied(Vol(), shape, first, size)| <= buf.Length
      modifies buf
      ensures buf[..] == Splice(old(buf[..]), 0, Copied(Vol(), shape, first, size))
    {
      ChainHead(Vol(), shape, first);
      CopyLongCluster(buf, 0, size, first, shape.chains[first]);
    }

    /** The inner loop of read: stop at the first slot that is unused or has the name. */
    method ScanAndCopy(r: Request, buf: array<byte>) returns (code: int)
      requires Sized() && ChainsOK(fat[..], shape.chains) && dirBuf[..] == Dir(Vol(), r.parent) && dirBuf[0].Used()
      requires CanRead(Vol(), r) && NamesChain(dirBuf[..], shape, r)
      requires |FileRead.Read(Vol(), shape, r).data| <= buf.Length
      modifies buf
      ensures ReadDone(code, buf[..], old(buf[..]), old(FileRead.Read(Vol(), shape, r)))
    {
      ghost var t := dirBuf[..];
      ghost var n := FindName(t, 2, r.name);
      ghost var hit := n < TABLE_SIZE && t[n].Used() && t[n].ext == r.ext;
      ghost var data := if hit then Copied(Vol(), shape, t[n].First(), r.size) else [];
      ghost var o := FileRead.Read(Vol(), shape, r);
      assert o == if hit then ReadOutcome(0, data) else if n < TABLE_SIZE && t[n].Used() then ReadOutcome(1, []) else ReadOutcome(2, []);
      code := 2;
      var i := 2;
      while i < TABLE_SIZE && code == 2
        invariant 2 <= i <= TABLE_SIZE
        invariant code == 2 ==> i <= n
        invariant code != 2 ==> n == i - 1
        invariant if code == 0 then hit && buf[..] == Splice(old(buf[..]), 0, data) else buf[..] == old(buf[..])
        invariant code == 1 ==> t[n].Used() && !hit
        invariant code == 4 ==> !t[n].Used()
        invariant code in {0, 1, 2, 4}
      {
        if dirBuf[i].name == r.name {
          assert t[i] == dirBuf[i] && i == n;
          if dirBuf[i].ext == r.ext {
            code := 0;
            CopyFile(dirBuf[i].First(), r.size, buf);
          } else {
            code := 1;
          }
        }
        if !dirBuf[i].Used() {
          code := 4;
        }
        i := i + 1;
      }
      assert code != 0 ==> Splice(old(buf[..]), 0, []) == old(buf[..]);
      assert ReadDone(code, buf[..], old(buf[..]), o);
    }

    /** Looks a file up by name and copies its chain into `buf`. */
    method Read(r: Request, buf: array<byte>) returns (code: int)
      requires Valid() && ParentOK(Vol(), shape, r.parent) && CanRead(Vol(), r)
      requires |FileRead.Read(Vol(), shape, r).data| <= buf.Length
      modifies dirBuf, buf
      ensures code == old(FileRead.Read(Vol(), shape, r)).code
      ensures buf[..] == Splice(old(buf[..]), 0, old(FileRead.Read(Vol(), shape, r)).data)
    {
      ghost var o, t := FileRead.Read(Vol(), shape, r), Dir(Vol(), r.parent);
      LoadDir(r.parent);
      if !dirBuf[0].Used() {
        return -1;
      }
      FolderInUse(Vol(), shape, r.parent);
      LooksUp(Vol(), shape, r);
      code := 2;
      var current := r.parent;
      while current != END_OF_FILE && code == 2
        invariant current == r.parent || current == END_OF_FILE
        invariant current == r.parent ==> code == 2 && buf[..] == old(buf[..]) && dirBuf[..] == t
        invariant current == END_OF_FILE ==> ReadDone(code, buf[..], old(buf[..]), o)
        decreases if current == END_OF_FILE then 0 else 1
      {
        code := ScanAndCopy(r, buf);
        current := fat[current];
        LoadDir(r.parent);
      }
      if code == 4 {
        code := 2;
      }
    }

    // ---- delete ----

    /** The freeing loop: zero each cluster of the chain on disk and mark it free. */
    method FreeChain(first: nat, ghost s: seq<nat>)
      requires Sized() && IsChain(fat[..], s) && s[0] == first
      modifies fat, disk
      ensures fat[..] == Unlink(old(fat[..]), s)
      ensures disk[..] == FileDelete.ZeroAll(old(disk[..]), s)
    {
      var cluster := first;
      ghost var k := 0;
      ghost var map0, disk0 := fat[..], disk[..];
      while cluster != END_OF_FILE
        invariant 0 <= k <= |s| && cluster == if k < |s| then s[k] else END_OF_FILE
        invariant fat[..] == Unlink(map0, s[..k])
        invariant disk[..] == FileDelete.ZeroAll(disk0, s[..k])
        decreases |s| - k
      {
        FileDelete.FreeStep(map0, disk0, s, k);
        var next := fat[cluster];
        disk[cluster] := ZERO_CLUSTER;
        fat[cluster] := EMPTY;
        cluster := next;
        k := k + 1;
      }
      assert s[..k] == s;
    }

    /** The last entry of the buffered table takes the place of slot `index`. */
    method RemoveEntry(index: nat)
      requires Sized() && index < TABLE_SIZE && Fill(dirBuf[..]) < TABLE_SIZE
      modifies dirBuf
      ensures dirBuf[..] == Remove(old(dirBuf[..]), index)
    {
      var last := GetDirLastIndex();
      dirBuf[index] := dirBuf[last];
      dirBuf[last] := ZERO_ENTRY;
    }

    /** Whether no content slot of the folder in cluster `c` is in use. */
    method IsFolderEmpty(c: nat) returns (empty: bool)
      requires Sized() && c < disk.Length
      ensures empty <==> FileDelete.NoContents(DecodeTable(disk[c]))
    {
      var t := ReadTable(c);
      var i := 2;
      while i < TABLE_SIZE
        invariant 2 <= i <= TABLE_SIZE
        invariant forall j :: 2 <= j < i ==> !t[j].Used()
      {
        if t[i].Used() {
          return false;
        }
        i := i + 1;
      }
      return true;
    }

    /** The opening of delete and delete_all: load the parent's table and search it. */
    method Locate(r: Request) returns (code: int, index: int)
      requires Sized() && r.parent < disk.Length && FileDelete.CanRemove(Vol(), r)
      modifies dirBuf
      ensures dirBuf[..] == Dir(Vol(), r.parent)
      ensures code == if !dirBuf[0].Used() then -1 else if FileDelete.Target(Vol(), r) == TABLE_SIZE then 1 else 0
      ensures code == 0 ==> FileDelete.Finds(Vol(), r) && index == FileDelete.Target(Vol(), r)
    {
      LoadDir(r.parent);
      if !dirBuf[0].Used() {
        return -1, -1;
      }
      index := Search(2, r.name, r.ext);
      if index == -1 {
        return 1, -1;
      }
      return 0, index;
    }

    /** Removes a file or an empty folder. */
    method Delete(r: Request) returns (code: int)
      requires Valid() && ParentOK(Vol(), shape, r.parent) && FileDelete.CanRemove(Vol(), r)
      modifies this`shape, fat, dirBuf, disk
      ensures Outcome(code, Vol()) == FileDelete.Delete(old(Vol()), old(shape), r)
      ensures shape == FileDelete.DeleteShape(old(Vol()), old(shape), r)
      ensures Valid()
    {
      FileDelete.DeleteKeepsWellFormed(Vol(), shape, r);
      ghost var g := FileDelete.DeleteShape(Vol(), shape, r);
      if FileDelete.Finds(Vol(), r) {
        SlotFacts(Vol(), shape, r.parent, FileDelete.Target(Vol(), r));
      }
      code := CheckAndDiscard(r);
      shape := g;
    }

    /** The entry a request names, if there is one, starts a chain. */
    ghost predicate VictimHasChain(r: Request)
      requires Sized()
      reads this, fat, disk
    {
      FileDelete.Finds(Vol(), r) ==>
        var c := FileDelete.Victim(Vol(), r).First();
        c in shape.chains && IsChain(fat[..], shape.chains[c]) && shape.chains[c][0] == c
    }

    method CheckAndDiscard(r: Request) returns (code: int)
      requires Sized() && r.parent < disk.Length && FileDelete.CanRemove(Vol(), r) && VictimHasChain(r)
      modifies fat, dirBuf, disk
      ensures Outcome(code, Vol()) == FileDelete.Delete(old(Vol()), shape, r)
    {
      var index: int;
      code, index := CheckRemoval(r);
      if code == 0 {
        Discard(r.parent, index, FileDelete.ChainOf(shape, dirBuf[index].First()));
      }
    }

    /** The checks of delete; nothing is written yet. */
    method CheckRemoval(r: Request) returns (code: int, index: int)
      requires Sized() && r.parent < disk.Length && FileDelete.CanRemove(Vol(), r) && VictimHasChain(r)
      modifies dirBuf
      ensures dirBuf[..] == Dir(Vol(), r.parent)
      ensures if code != 0 then FileDelete.Delete(Vol(), shape, r) == Outcome(code, Vol())
              else FileDelete.Deletes(Vol(), r) && index == FileDelete.Target(Vol(), r)
    {
      code, index := Locate(r);
      if code == 0 {
        var e := dirBuf[index];
        assert DataCluster(e.First());
        if e.IsFolder() {
          var empty := IsFolderEmpty(e.First());
          if !empty {
            code := 2;
          }
        }
      }
    }

    /** The part of delete after every check has passed. */
    method Discard(parent: nat, index: nat, ghost s: seq<nat>)
      requires Sized() && parent < disk.Length && dirBuf[..] == Dir(Vol(), parent) && 2 <= index < Fill(dirBuf[..]) < TABLE_SIZE
      requires IsChain(fat[..], s) && s[0] == dirBuf[index].First()
      modifies fat, dirBuf, disk
      ensures Vol() == FileDelete.Deleted(old(Vol()), parent, index, s)
    {
      FreeChain(dirBuf[index].First(), s);
      RemoveEntry(index);
      disk[parent] := TableImage(dirBuf[..]);
      disk[FAT_CLUSTER] := EncodeFat(fat[..]);
    }

    // ---- delete_all ----

    /** delete_all_folder: zero the first cluster of everything below folder `c`, then its own.
        `v` and `g` are the volume the recursive delete started from; what lies inside `c` is
        still as it was there. */
    method DeleteAllFolder(c: nat, ghost v: Volume, ghost g: Shape, ghost bound: nat)
      requires Sized() && WellFormed(v, g) && c in g.depth && Shallow(g, bound) && Intact(v, g, c, disk[..])
      modifies disk
      ensures Zeroed(v, g, c, old(disk[..]), disk[..])
      decreases bound - g.depth[c], 1
    {
      ghost var base := disk[..];
      SweptStart(v, g, c, base);
      var t := ReadTable(c);
      var i := 2;
      while i < TABLE_SIZE
        invariant 2 <= i <= TABLE_SIZE
        invariant Swept(v, g, c, i, base, disk[..])
      {
        DeleteAllEntry(c, i, t[i], v, g, bound, base);
        i := i + 1;
      }
      SweptAll(v, g, c, base, disk[..]);
      disk[c] := ZERO_CLUSTER;
    }

    /** One turn of the loop of delete_all_folder: entry `e` in slot `i` of folder `c`. */
    method DeleteAllEntry(c: nat, i: nat, e: Entry, ghost v: Volume, ghost g: Shape, ghost bound: nat, ghost base: seq<Cluster>)
      requires Sized() && WellFormed(v, g) && c in g.depth && Shallow(g, bound) && Intact(v, g, c, base)
      requires 2 <= i < TABLE_SIZE && e == Dir(v, c)[i] && Swept(v, g, c, i, base, disk[..])
      modifies disk
      ensures Swept(v, g, c, i + 1, base, disk[..])
      decreases bound - g.depth[c], 0
    {
      ghost var now := disk[..];
      EntryBelow(v, g, c, i);
      if e.Used() {
        if e.IsFolder() {
          SweptLeavesNext(v, g, c, i, base, now);
          DeleteAllFolder(e.First(), v, g, bound);
        } else {
          FileIsAlone(v, g, e.First(), now);
          disk[e.First()] := ZERO_CLUSTER;
        }
      }
      SweptStep(v, g, c, i, base, now, disk[..]);
    }

    /** Removes a file, or a folder with everything in it. */
    method DeleteAll(r: Request) returns (code: int)
      requires Valid() && ParentOK(Vol(), shape, r.parent) && FileDelete.CanRemove(Vol(), r)
      modifies this`shape, fat, dirBuf, disk
      ensures Outcome(code, Vol()) == TreeDelete.DeleteAll(old(Vol()), old(shape), r)
      ensures shape == TreeDelete.DeleteAllShape(old(Vol()), old(shape), r)
      ensures Valid()
    {
      TreeDelete.DeleteAllKeepsWellFormed(Vol(), shape, r);
      ghost var g := TreeDelete.DeleteAllShape(Vol(), shape, r);
      code := CheckAndRaze(r);
      shape := g;
    }

    method CheckAndRaze(r: Request) returns (code: int)
      requires Valid() && ParentOK(Vol(), shape, r.parent) && FileDelete.CanRemove(Vol(), r)
      modifies fat, dirBuf, disk
      ensures Outcome(code, Vol()) == TreeDelete.DeleteAll(old(Vol()), shape, r)
    {
      ghost var v := Vol();
      var index: int;
      code, index := Locate(r);
      if code != 0 {
        return;
      }
      TreeDelete.FoundCluster(v, shape, r);
      var c := dirBuf[index].First();
      ZeroNode(r.parent, index, v, shape);
      Unlist(r.parent, index, c);
    }

    /** The storage update that ends delete_all. */
    method Unlist(parent: nat, index: nat, c: nat)
      requires Sized() && parent < disk.Length && c < CLUSTER_MAP_SIZE && 2 <= index < Fill(dirBuf[..]) < TABLE_SIZE
      modifies fat, dirBuf, disk
      ensures fat[..] == old(fat[..])[c := EMPTY]
      ensures disk[..] == Commit(old(disk[..]), parent, Remove(old(dirBuf[..]), index), fat[..])
    {
      RemoveEntry(index);
      fat[c] := EMPTY;
      disk[parent] := TableImage(dirBuf[..]);
      disk[FAT_CLUSTER] := EncodeFat(fat[..]);
    }

    /** delete_all_folder or delete_all_file, by the entry's kind. */
    method ZeroNode(parent: nat, index: nat, ghost v: Volume, ghost g: Shape)
      requires Sized() && WellFormed(v, g) && disk[..] == v.disk && dirBuf[..] == Dir(v, parent)
      requires Slot(v, g, parent, index)
      modifies disk
      ensures disk[..] == TreeDelete.ZeroInside(v, g, dirBuf[index].First())
    {
      var c := dirBuf[index].First();
      EntryBelow(v, g, parent, index);
      if dirBuf[index].IsFolder() {
        ghost var bound := SomeBound(g.depth);
        DeleteAllFolder(c, v, g, bound);
      } else {
        FileIsAlone(v, g, c, disk[..]);
        disk[c] := ZERO_CLUSTER;
      }
      TreeDelete.ZeroedIsErased(v, g, c, disk[..]);
    }

    // ---- move ----

    /** The scan of the table the target request names: the slot of a folder with the target's
        name, or else a free slot (64 when full), or -1 for a file with that name. */
    method ScanTarget(t: Table, name: Name, ext: Extension) returns (tarIndex: int, folderSlot: int)
      ensures var m := Find(t, 2, name, ext);
        if Holds(t, name, ext) && t[m].IsFolder() then folderSlot == m
        else folderSlot == -1 && tarIndex == if Holds(t, name, ext) then -1 else Fill(t)
    {
      tarIndex, folderSlot := TABLE_SIZE, -1;
      var i := 2;
      while i < TABLE_SIZE && tarIndex == TABLE_SIZE
        invariant 2 <= i <= TABLE_SIZE && folderSlot == -1
        invariant tarIndex == TABLE_SIZE ==> forall j :: 2 <= j < i ==> t[j].Used() && !t[j].Named(name, ext)
        invariant tarIndex != TABLE_SIZE ==> tarIndex == if Holds(t, name, ext) then -1 else Fill(t)
        invariant tarIndex != TABLE_SIZE && Holds(t, name, ext) ==> !t[Find(t, 2, name, ext)].IsFolder()
      {
        if t[i].Used() {
          if t[i].name == name && t[i].ext == ext {
            FindIs(t, i, name, ext);
            if t[i].IsFolder() {
              folderSlot := i;
              break;
            } else {
              tarIndex := -1;
            }
          }
        } else {
          FillIs(t, i);
          tarIndex := i;
        }
        i := i + 1;
      }
      if tarIndex == TABLE_SIZE && folderSlot == -1 {
        FillIs(t, TABLE_SIZE);
      }
    }

    /** The scan of the folder moved into: a free slot (64 when full), or -1 for a duplicate. */
    method ScanFolder(t: Table, name: Name, ext: Extension) returns (tarIndex: int)
      ensures tarIndex == if Holds(t, name, ext) then -1 else Fill(t)
    {
      tarIndex := TABLE_SIZE;
      var i := 2;
      while i < TABLE_SIZE && tarIndex == TABLE_SIZE
        invariant 2 <= i <= TABLE_SIZE
        invariant tarIndex == TABLE_SIZE ==> forall j :: 2 <= j < i ==> t[j].Used() && !t[j].Named(name, ext)
        invariant tarIndex != TABLE_SIZE ==> tarIndex == if Holds(t, name, ext) then -1 else Fill(t)
      {
        if t[i].Used() {
          if t[i].name == name && t[i].ext == ext {
            FindIs(t, i, name, ext);
            tarIndex := -1;
          }
        } else {
          FillIs(t, i);
          tarIndex := i;
        }
        i := i + 1;
      }
      if tarIndex == TABLE_SIZE {
        FillIs(t, TABLE_SIZE);
      }
    }

    /** Both scans: the folder moved into, its table, the slot there, and whether to rename. */
    method FindDestination(src: Request, tar: Request) returns (q: uint32, t: Table, tarIndex: int, renamed: bool)
      requires Sized() && FileMove.TargetOnDisk(Vol(), tar)
      ensures q < disk.Length && t == Dir(Vol(), q)
      ensures FileMove.DestinationOf(Vol(), src, tar) ==
              if tarIndex == -1 then FileMove.Clash else if tarIndex == TABLE_SIZE then FileMove.NoRoom else FileMove.Into(q, renamed)
      ensures tarIndex == -1 || tarIndex == Fill(t)
    {
      q, renamed := tar.parent, true;
      t := ReadTable(q);
      var folderSlot: int;
      tarIndex, folderSlot := ScanTarget(t, tar.name, tar.ext);
      if folderSlot != -1 {
        q, renamed := t[folderSlot].First(), false;
        t := ReadTable(q);
        tarIndex := ScanFolder(t, src.name, src.ext);
      }
    }

    /** Moves a file or a folder by changing directory entries only. */
    method Move(src: Request, tar: Request) returns (code: int)
      requires Valid() && ParentOK(Vol(), shape, src.parent)
      requires FileMove.CanMove(Vol(), shape, src, tar) && FileMove.Elsewhere(Vol(), shape, src, tar)
      modifies this`shape, dirBuf, disk
      ensures FileMove.OnDisk(old(Vol()), src, tar)
      ensures Outcome(code, Vol()) == FileMove.Move(old(Vol()), src, tar)
      ensures shape == FileMove.MoveShape(old(Vol()), old(shape), src, tar)
      ensures Valid()
    {
      FileMove.CanMoveOnDisk(Vol(), shape, src, tar);
      FileMove.MoveKeepsWellFormed(Vol(), shape, src, tar);
      ghost var g := FileMove.MoveShape(Vol(), shape, src, tar);
      code := CheckAndTransfer(src, tar);
      shape := g;
    }

    /** The move itself; it does not ask whether the destination is a different folder. */
    method CheckAndTransfer(src: Request, tar: Request) returns (code: int)
      requires Sized() && FileMove.OnDisk(Vol(), src, tar)
      modifies dirBuf, disk
      ensures Outcome(code, Vol()) == FileMove.Move(old(Vol()), src, tar)
    {
      var plan := Decide(src, tar);
      match plan {
        case Refused(c) => return c;
        case Go(srcIndex, q, t, tarIndex, e) =>
          Transfer(src.parent, srcIndex, q, t, tarIndex, e);
          return 0;
      }
    }

    /** Both searches and the checks of move; nothing is written yet. */
    method Decide(src: Request, tar: Request) returns (plan: MovePlan)
      requires Sized() && FileMove.OnDisk(Vol(), src, tar)
      modifies dirBuf
      ensures Fits(plan, src, tar)
    {
      LoadDir(src.parent);
      if !dirBuf[0].Used() {
        return Refused(-1);
      }
      var srcIndex := Search(0, src.name, src.ext);
      if srcIndex == -1 {
        return Refused(1);
      }
      plan := Choose(src, tar, srcIndex);
    }

    /** The second half of the decision: where the entry found in slot `srcIndex` goes. */
    method Choose(src: Request, tar: Request, srcIndex: nat) returns (plan: MovePlan)
      requires Sized() && FileMove.OnDisk(Vol(), src, tar) && dirBuf[..] == Dir(Vol(), src.parent)
      requires dirBuf[0].Used() && srcIndex == FileMove.Source(Vol(), src) < TABLE_SIZE
      ensures Fits(plan, src, tar)
    {
      var q, t, tarIndex, renamed := FindDestination(src, tar);
      if tarIndex == -1 {
        return Refused(2);
      }
      if tarIndex == TABLE_SIZE {
        return Refused(3);
      }
      FileMove.MovedIs(Vol(), src, tar, q, renamed);
      var source := dirBuf[srcIndex];
      if source.First() == q {
        return Refused(4);
      }
      return Go(srcIndex, q, t, tarIndex, if renamed then source.(name := tar.name, ext := tar.ext) else source);
    }

    /** The plan is what a move of `src` to `tar` does. */
    ghost predicate Fits(plan: MovePlan, src: Request, tar: Request)
      requires Sized() && FileMove.OnDisk(Vol(), src, tar)
      reads fat, disk, dirBuf
    {
      match plan
      case Refused(c) => FileMove.Move(Vol(), src, tar) == Outcome(c, Vol())
      case Go(srcIndex, q, t, tarIndex, e) =>
        && Writable(src.parent, srcIndex, q, t, tarIndex, e)
        && FileMove.Move(Vol(), src, tar) == Outcome(0, FileMove.Transferred(Vol(), src.parent, srcIndex, q, e))
    }

    /** The buffered table and the target's are those on disk, with a slot to take from and one to fill. */
    ghost predicate Writable(p: int, srcIndex: nat, q: uint32, t: Table, tarIndex: nat, e: Entry)
      requires Sized()
      reads fat, disk, dirBuf
    {
      && 0 <= p < disk.Length && q < disk.Length && dirBuf[..] == Dir(Vol(), p) && t == Dir(Vol(), q)
      && srcIndex < TABLE_SIZE && Fill(dirBuf[..]) < TABLE_SIZE && tarIndex == Fill(t) < TABLE_SIZE
      && (e.IsFolder() ==> e.First() < disk.Length)
    }

    /** The writes of a move: the moved folder's own table, the source's, the destination's. */
    method Transfer(p: nat, srcIndex: nat, q: uint32, t: Table, tarIndex: nat, e: Entry)
      requires Sized() && Writable(p, srcIndex, q, t, tarIndex, e)
      modifies dirBuf, disk
      ensures Vol() == FileMove.Transferred(old(Vol()), p, srcIndex, q, e)
    {
      var targetTable := t[tarIndex := e];
      if e.IsFolder() {
        var own := ReadTable(e.First());
        own := own[0 := own[0].(name := e.name, ext := e.ext)];
        own := own[1 := own[1].At(q)];
        disk[e.First()] := TableImage(own);
      }
      RemoveEntry(srcIndex);
      disk[p] := TableImage(dirBuf[..]);
      disk[q] := TableImage(targetTable);
    }

    // ---- mounting ----

    /** A driver whose state is still zero, initialized. `g` is the shape of an already
        formatted disk. */
    constructor (disk: array<Cluster>, tail: Mount.Tail, ghost g: Shape)
      requires disk.Length >= CLUSTER_MAP_SIZE && tail.Valid()
      requires Mount.Formatted(disk[..]) ==> WellFormed(Mount.Initialize(disk[..], tail), g)
      modifies disk
      ensures Sized() && this.disk == disk && fresh(fat) && fresh(dirBuf)
      ensures Vol() == Mount.Initialize(old(disk[..]), tail)
      ensures shape == if Mount.Formatted(old(disk[..])) then g else Mount.FRESH
      ensures Valid()
    {
      this.disk := disk;
      fat := new uint32[CLUSTER_MAP_SIZE](_ => EMPTY);
      dirBuf := new Entry[TABLE_SIZE](_ => ZERO_ENTRY);
      shape := if Mount.Formatted(disk[..]) then g else Mount.FRESH;
      new;
      Mount.FormatWellFormed(disk[..], tail);
      InitializeFilesystem(tail);
    }

    /** initialize_filesystem_fat32: format a disk without the signature, otherwise load the map. */
    method InitializeFilesystem(tail: Mount.Tail)
      requires Sized() && tail.Valid() && forall i :: 0 <= i < CLUSTER_MAP_SIZE ==> fat[i] == EMPTY
      modifies fat, dirBuf, disk
      ensures Vol() == Mount.Initialize(old(disk[..]), tail)
    {
      if disk[0][..BLOCK_SIZE] != Mount.FS_SIGNATURE {
        CreateFat32(tail);
      } else {
        var words := DecodeFat(disk[FAT_CLUSTER]);
        forall i | 0 <= i < CLUSTER_MAP_SIZE {
          fat[i] := words[i];
        }
        assert fat[..] == words;
        LoadDir(ROOT);
      }
    }

    /** create_fat32: sign the disk, reserve the first three clusters, write map and root. */
    method CreateFat32(tail: Mount.Tail)
      requires Sized() && tail.Valid() && forall i :: 0 <= i < CLUSTER_MAP_SIZE ==> fat[i] == EMPTY
      modifies fat, disk
      ensures Vol() == Mount.Format(old(disk[..]), tail)
    {
      Mount.SignatureLength();
      disk[0] := Mount.FS_SIGNATURE + disk[0][BLOCK_SIZE..];
      fat[0] := CLUSTER_0_VALUE;
      fat[1] := CLUSTER_1_VALUE;
      fat[ROOT] := END_OF_FILE;
      assert fat[..] == Mount.ReservedFat();
      disk[FAT_CLUSTER] := EncodeFat(fat[..]);
      disk[ROOT] := TableImage(Mount.RootTable(tail));
    }
  }

  /** What the lookup loop of read has established once it stops. */
  ghost predicate ReadDone(code: int, now: seq<byte>, was: seq<byte>, o: ReadOutcome) {
    && (if code == 4 then o.code == 2 else o.code == code)
    && |o.data| <= |was| && now == Splice(was, 0, o.data)
  }

  /** The slot a lookup stops at, if it has the name and is in use, starts a chain. */
  ghost predicate NamesChain(t: Table, g: Shape, r: Request) {
    var n := FindName(t, 2, r.name);
    n < TABLE_SIZE && t[n].Used() ==> t[n].First() in g.chains
  }

  lemma LooksUp(v: Volume, g: Shape, r: Request)
    requires WellFormed(v, g) && r.parent in g.depth
    ensures NamesChain(Dir(v, r.parent), g, r)
  {
    assert FolderOK(v, r.parent);
    var n := FindName(Dir(v, r.parent), 2, r.name);
    if n < TABLE_SIZE && Dir(v, r.parent)[n].Used() {
      SlotFacts(v, g, r.parent, n);
    }
  }

  lemma SlotFacts(v: Volume, g: Shape, d: int, i: int)
    requires WellFormed(v, g) && Slot(v, g, d, i)
    ensures var c := Dir(v, d)[i].First();
      && c in g.chains && IsChain(v.fat, g.chains[c]) && g.chains[c][0] == c && SlotOK(v, g, d, Dir(v, d)[i])
  {
  }
}
