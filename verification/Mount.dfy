/** fat32.c: create_fat32 and initialize_filesystem_fat32. Making and mounting a volume. */
module Mount {
  import opened Words
  import opened DirectoryLayout
  import opened ClusterChains
  import opened DirectoryTables
  import opened Volumes

  function Ascii(s: string): (b: seq<byte>)
    ensures |b| == |s|
  {
    seq(|s|, i requires 0 <= i < |s| => (s[i] as int) % 0x100)
  }

  /** The 512 bytes of the first block of a formatted disk. */
  const FS_SIGNATURE: seq<byte> :=
    Ascii("Course          Designed by     Lab Sister ITB  Made with <3    -----------2024\n")
    + Zeros(BLOCK_SIZE - 82) + Ascii("Ok")

  lemma SignatureLength()
    ensures |FS_SIGNATURE| == BLOCK_SIZE
  {
  }

  predicate Formatted(disk: seq<Cluster>)
    requires |disk| > 0
  {
    disk[0][..BLOCK_SIZE] == FS_SIGNATURE
  }

  /** The bytes that follow the string literals "." and ".." in memory; they are copied into
      the root's entries because eight bytes are taken from each literal. */
  datatype Tail = Tail(dot: seq<byte>, dotDot: seq<byte>) {
    predicate Valid() {
      |dot| == 6 && |dotDot| == 5
    }
  }

  function RootEntry(name: Name): Entry {
    ZERO_ENTRY.(name := name, attribute := ATTR_SUBDIRECTORY, userAttribute := UATTR_NOT_EMPTY).At(ROOT)
  }

  function RootTable(tail: Tail): Table
    requires tail.Valid()
  {
    var t: Table := seq(TABLE_SIZE, _ => ZERO_ENTRY);
    t[0 := RootEntry(Ascii(".") + [0] + tail.dot)][1 := RootEntry(Ascii("..") + [0] + tail.dotDot)]
  }

  function BlankFat(): FatMap {
    seq(CLUSTER_MAP_SIZE, _ => EMPTY)
  }

  function ReservedFat(): FatMap {
    BlankFat()[0 := CLUSTER_0_VALUE][1 := CLUSTER_1_VALUE][ROOT := END_OF_FILE]
  }

  /** What create_fat32 leaves behind when it starts from the driver's zeroed state. */
  ghost function Format(disk: seq<Cluster>, tail: Tail): Volume
    requires |disk| >= CLUSTER_MAP_SIZE && tail.Valid()
  {
    SignatureLength();
    Volume(ReservedFat(),
           disk[0 := FS_SIGNATURE + disk[0][BLOCK_SIZE..]]
               [FAT_CLUSTER := EncodeFat(ReservedFat())]
               [ROOT := TableImage(RootTable(tail))])
  }

  /** What initialize_filesystem_fat32 leaves behind. */
  ghost function Initialize(disk: seq<Cluster>, tail: Tail): Volume
    requires |disk| >= CLUSTER_MAP_SIZE && tail.Valid()
  {
    if Formatted(disk) then Volume(DecodeFat(disk[FAT_CLUSTER]), disk) else Format(disk, tail)
  }

  const FRESH: Shape := Shape(map[], map[ROOT := 0])

  lemma RootTableFacts(tail: Tail)
    requires tail.Valid()
    ensures var t := RootTable(tail); Packed(t) && Fill(t) == 2 && NamesParent(t[1]) && t[1].First() == ROOT
  {
  }

  /** Everything a format writes: the first block, the map, of which three words are set, and the
      root's table, whose only entries are "." and "..", both folders at cluster 2. */
  lemma FormatWrites(disk: seq<Cluster>, tail: Tail)
    requires |disk| >= CLUSTER_MAP_SIZE && tail.Valid()
    ensures var v := Format(disk, tail);
      && |v.disk| == |disk|
      && v.disk[0][..512] == FS_SIGNATURE && v.disk[0][512..] == disk[0][512..]
      && v.fat[0] == 0x0FFF_FFF0 && v.fat[1] == 0x0FFF_FFFF && v.fat[2] == 0x0FFF_FFFF
      && (forall x :: 3 <= x < 512 ==> v.fat[x] == 0) && v.disk[1] == EncodeFat(v.fat)
      && (forall x :: 3 <= x < |disk| ==> v.disk[x] == disk[x])
    ensures var t := Dir(Format(disk, tail), 2);
      && t[0].name[..2] == [46, 0] && t[1].name[..3] == [46, 46, 0]
      && (forall i :: 0 <= i < 2 ==> t[i].attribute == 0x10 && t[i].userAttribute == 0xAA && t[i].First() == 2)
      && (forall i :: 2 <= i < TABLE_SIZE ==> t[i] == ZERO_ENTRY)
  {
    SignatureLength();
    assert Dir(Format(disk, tail), ROOT) == RootTable(tail);
  }

  lemma FormattedDisk(disk: seq<Cluster>, tail: Tail)
    requires |disk| >= CLUSTER_MAP_SIZE && tail.Valid()
    ensures Formatted(Format(disk, tail).disk)
  {
  }

  lemma ReservedFatFacts(x: nat)
    requires DataCluster(x)
    ensures ReservedFat()[x] == EMPTY
  {
  }

  /** A new file system, on a disk with any contents, is well formed, empty and leaks nothing. */
  lemma FormatWellFormed(disk: seq<Cluster>, tail: Tail)
    requires |disk| >= CLUSTER_MAP_SIZE && tail.Valid()
    ensures WellFormed(Format(disk, tail), FRESH) && NoLeak(Format(disk, tail), FRESH)
    ensures Formatted(Format(disk, tail).disk)
  {
    var v := Format(disk, tail);
    FormattedDisk(disk, tail);
    RootTableFacts(tail);
    assert Dir(v, ROOT) == RootTable(tail);
    assert HeaderOK(v);
    forall x | DataCluster(x) ensures v.fat[x] == EMPTY { ReservedFatFacts(x); }
    assert FolderOK(v, ROOT);
    assert forall d, i :: !Slot(v, FRESH, d, i);
  }

  /** Mounting the disk of a well-formed volume again brings back the same volume, even though
      only the disk survives: the driver writes the map through at every change. */
  lemma RemountRestores(v: Volume, g: Shape, tail: Tail)
    requires WellFormed(v, g) && Formatted(v.disk) && tail.Valid()
    ensures Initialize(v.disk, tail) == v
  {
    DecodeEncodedFat(v.fat);
  }
}
