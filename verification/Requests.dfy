/** Driver requests and their outcomes. */
module Requests {
  import opened Words
  import opened DirectoryLayout
  import opened Volumes

  /** struct FAT32DriverRequest. `mem` is the memory readable at `buf`, of which the first
      `size` bytes are the caller's data. */
  datatype Request = Request(mem: seq<byte>, name: Name, ext: Extension, parent: uint32, size: uint32)

  /** The return code of an operation and the volume it leaves behind. */
  datatype Outcome = Outcome(code: int, volume: Volume)

  /** The parent cluster exists, and if it looks like a folder it is one of the tree's. */
  ghost predicate ParentOK(v: Volume, g: Shape, parent: int) {
    parent < |v.disk| && (Dir(v, parent)[0].Used() ==> parent in g.depth)
  }

  /** The disk after the last two writes of every operation that changes a folder: the folder's
      table, then the map. */
  ghost function Commit(disk: seq<Cluster>, parent: nat, t: Table, fat: FatMap): (disk': seq<Cluster>)
    requires parent < |disk| && FAT_CLUSTER < |disk|
    ensures |disk'| == |disk| && disk'[FAT_CLUSTER] == EncodeFat(fat)
    ensures parent != FAT_CLUSTER ==> DecodeTable(disk'[parent]) == t
    ensures forall x :: 0 <= x < |disk| && x != parent && x != FAT_CLUSTER ==> disk'[x] == disk[x]
  {
    disk[parent := TableImage(t)][FAT_CLUSTER := EncodeFat(fat)]
  }
}
