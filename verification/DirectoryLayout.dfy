/** The on-disk images of the driver's packed structures: the 32-byte directory entry, the
    64-entry directory table and the 512-word file allocation table, each table filling
    exactly one 2048-byte cluster. */
module DirectoryLayout {
  import opened Words

  const CLUSTER_SIZE: nat := 2048
  const ENTRY_SIZE: nat := 32
  const TABLE_SIZE: nat := 64
  const CLUSTER_MAP_SIZE: nat := 512

  const ATTR_SUBDIRECTORY: byte := 0x10
  const UATTR_NOT_EMPTY: byte := 0xAA

  type Name = s: seq<byte> | |s| == 8 witness [0, 0, 0, 0, 0, 0, 0, 0]
  type Extension = s: seq<byte> | |s| == 3 witness [0, 0, 0]
  type Stamps = s: seq<byte> | |s| == 7 witness [0, 0, 0, 0, 0, 0, 0]
  type Modified = s: seq<byte> | |s| == 4 witness [0, 0, 0, 0]
  type Cluster = s: seq<byte> | |s| == CLUSTER_SIZE witness Zeros(CLUSTER_SIZE)

  /** struct FAT32DirectoryEntry. The fields the driver never reads are kept as raw bytes:
      `stamps` is undelete, create_time, create_date and access_date; `modified` is
      modified_time and modified_date. */
  datatype Entry = Entry(
    name: Name, ext: Extension, attribute: byte, userAttribute: byte, stamps: Stamps,
    clusterHigh: uint16, modified: Modified, clusterLow: uint16, filesize: uint32)
  {
    predicate Used() {
      userAttribute == UATTR_NOT_EMPTY
    }

    predicate IsFolder() {
      attribute == ATTR_SUBDIRECTORY
    }

    /** The first cluster of what the entry names. */
    function First(): uint32 {
      clusterLow + 0x1_0000 * clusterHigh
    }

    predicate Named(n: Name, x: Extension) {
      name == n && ext == x
    }

    /** The entry with its two cluster half-words set to the halves of `c`. */
    function At(c: uint32): (e: Entry)
      ensures e.First() == c
    {
      this.(clusterLow := c % 0x1_0000, clusterHigh := c / 0x1_0000)
    }
  }

  type Table = t: seq<Entry> | |t| == TABLE_SIZE witness seq(TABLE_SIZE, i => ZERO_ENTRY)
  type FatMap = m: seq<uint32> | |m| == CLUSTER_MAP_SIZE witness seq(CLUSTER_MAP_SIZE, i => 0)

  const ZERO_NAME: Name := [0, 0, 0, 0, 0, 0, 0, 0]
  const ZERO_EXT: Extension := [0, 0, 0]
  const ZERO_ENTRY: Entry := Entry(ZERO_NAME, ZERO_EXT, 0, 0, [0, 0, 0, 0, 0, 0, 0], 0, [0, 0, 0, 0], 0, 0)
  const ZERO_CLUSTER: Cluster := Zeros(CLUSTER_SIZE)

  // ---- One entry ----

  function EncodeEntry(e: Entry): (b: seq<byte>)
    ensures |b| == ENTRY_SIZE
  {
    e.name + e.ext + [e.attribute, e.userAttribute] + e.stamps
    + Le16(e.clusterHigh) + e.modified + Le16(e.clusterLow) + Le32(e.filesize)
  }

  function ParseEntry(b: seq<byte>): Entry
    requires |b| == ENTRY_SIZE
  {
    Entry(b[..8], b[8..11], b[11], b[12], b[13..20],
          FromLe16(b[20..22]), b[22..26], FromLe16(b[26..28]), FromLe32(b[28..]))
  }

  lemma ParseEncodedEntry(e: Entry)
    ensures ParseEntry(EncodeEntry(e)) == e
  {
  }

  lemma EncodeParsedEntry(b: seq<byte>)
    requires |b| == ENTRY_SIZE
    ensures EncodeEntry(ParseEntry(b)) == b
  {
    Le16OfFromLe16(b[20..22]);
    Le16OfFromLe16(b[26..28]);
    Le32OfFromLe32(b[28..]);
    assert b == b[..8] + b[8..11] + [b[11], b[12]] + b[13..20] + b[20..22] + b[22..26] + b[26..28] + b[28..];
  }

  /** Where every field of an entry lies, and that its words are little-endian. */
  lemma EntryLayout(e: Entry)
    ensures var b := EncodeEntry(e);
      && b[..8] == e.name && b[8..11] == e.ext && b[11] == e.attribute && b[12] == e.userAttribute
      && b[13..20] == e.stamps && b[22..26] == e.modified
      && e.First() == FromBytes(b[26], b[27], b[20], b[21])
      && e.filesize == FromBytes(b[28], b[29], b[30], b[31])
  {
    Le32Bytes(e.filesize);
  }

  // ---- One directory table in one cluster ----

  function EncodeTable(t: Table): Cluster {
    seq(CLUSTER_SIZE, j requires 0 <= j < CLUSTER_SIZE => EncodeEntry(t[j / ENTRY_SIZE])[j % ENTRY_SIZE])
  }

  function Window(b: Cluster, i: nat): (w: seq<byte>)
    requires i < TABLE_SIZE
    ensures |w| == ENTRY_SIZE
  {
    b[ENTRY_SIZE * i..ENTRY_SIZE * i + ENTRY_SIZE]
  }

  /** The table read out of a cluster field by field, as the packed C struct does. */
  function ParseTable(b: Cluster): (t: Table)
    ensures t == DecodeTable(b)
  {
    var t: seq<Entry> := seq(TABLE_SIZE, i requires 0 <= i < TABLE_SIZE => ParseEntry(Window(b, i)));
    assert t == DecodeTable(b) by {
      EncodeParsedTable(b, t);
      TableImageInjective(t, DecodeTable(b));
    }
    t
  }

  /** The table whose image the cluster is. */
  ghost function DecodeTable(b: Cluster): (t: Table)
    ensures EncodeTable(t) == b
  {
    var p: seq<Entry> := seq(TABLE_SIZE, i requires 0 <= i < TABLE_SIZE => ParseEntry(Window(b, i)));
    EncodeParsedTable(b, p);
    var t: Table :| EncodeTable(t) == b;
    t
  }

  lemma EncodeParsedTable(b: Cluster, t: Table)
    requires forall i :: 0 <= i < TABLE_SIZE ==> t[i] == ParseEntry(Window(b, i))
    ensures EncodeTable(t) == b
  {
    forall j | 0 <= j < CLUSTER_SIZE
      ensures EncodeTable(t)[j] == b[j]
    {
      var i := j / ENTRY_SIZE;
      EncodeParsedEntry(Window(b, i));
      assert Window(b, i)[j % ENTRY_SIZE] == b[j];
    }
  }

  lemma WindowOfImage(t: Table, i: nat)
    requires i < TABLE_SIZE
    ensures Window(EncodeTable(t), i) == EncodeEntry(t[i])
  {
    var w := Window(EncodeTable(t), i);
    forall r | 0 <= r < ENTRY_SIZE
      ensures w[r] == EncodeEntry(t[i])[r]
    {
      TableByte(t, i, r);
    }
  }

  lemma TableByte(t: Table, i: nat, r: nat)
    requires i < TABLE_SIZE && r < ENTRY_SIZE
    ensures EncodeTable(t)[ENTRY_SIZE * i + r] == EncodeEntry(t[i])[r]
  {
    var j := ENTRY_SIZE * i + r;
    assert j / ENTRY_SIZE == i && j % ENTRY_SIZE == r;
    assert EncodeTable(t)[j] == EncodeEntry(t[j / ENTRY_SIZE])[j % ENTRY_SIZE];
  }

  /** Two tables with the same image are the same table. */
  lemma TableImageInjective(t: Table, u: Table)
    requires EncodeTable(t) == EncodeTable(u)
    ensures t == u
  {
    forall i | 0 <= i < TABLE_SIZE
      ensures t[i] == u[i]
    {
      WindowOfImage(t, i);
      WindowOfImage(u, i);
      ParseEncodedEntry(t[i]);
      ParseEncodedEntry(u[i]);
    }
  }

  /** Reading back a table that was written yields that table. */
  lemma DecodeEncoded(t: Table)
    ensures DecodeTable(EncodeTable(t)) == t
  {
    TableImageInjective(DecodeTable(EncodeTable(t)), t);
  }

  /** The cluster a table is written as. */
  function TableImage(t: Table): (b: Cluster)
    ensures DecodeTable(b) == t
  {
    DecodeEncoded(t);
    EncodeTable(t)
  }

  /** A zeroed cluster reads as a table of zero entries. */
  lemma ZeroClusterTable(i: nat)
    requires i < TABLE_SIZE
    ensures DecodeTable(ZERO_CLUSTER)[i] == ZERO_ENTRY
  {
    var z: Table := seq(TABLE_SIZE, _ => ZERO_ENTRY);
    assert EncodeEntry(ZERO_ENTRY) == Zeros(ENTRY_SIZE);
    assert EncodeTable(z) == ZERO_CLUSTER;
    DecodeEncoded(z);
  }

  // ---- The allocation table in one cluster ----

  function EncodeFat(m: FatMap): Cluster {
    seq(CLUSTER_SIZE, j requires 0 <= j < CLUSTER_SIZE => Le32(m[j / 4])[j % 4])
  }

  function DecodeFat(b: Cluster): FatMap {
    seq(CLUSTER_MAP_SIZE, i requires 0 <= i < CLUSTER_MAP_SIZE => FromLe32(b[4 * i..4 * i + 4]))
  }

  /** The cached map survives being written to its cluster and read back. */
  lemma DecodeEncodedFat(m: FatMap)
    ensures DecodeFat(EncodeFat(m)) == m
  {
    forall i | 0 <= i < CLUSTER_MAP_SIZE
      ensures DecodeFat(EncodeFat(m))[i] == m[i]
    {
      var w := EncodeFat(m)[4 * i..4 * i + 4];
      forall r | 0 <= r < 4
        ensures w[r] == Le32(m[i])[r]
      {
        FatByte(m, i, r);
      }
      assert w == Le32(m[i]);
      FromLe32OfLe32(m[i]);
    }
  }

  /** Where every word of the map lies, and that it is little-endian. */
  lemma FatLayout(m: FatMap, i: nat)
    requires i < CLUSTER_MAP_SIZE
    ensures var b := EncodeFat(m);
      m[i] == FromBytes(b[4 * i], b[4 * i + 1], b[4 * i + 2], b[4 * i + 3])
  {
    FatByte(m, i, 0);
    FatByte(m, i, 1);
    FatByte(m, i, 2);
    FatByte(m, i, 3);
    Le32Bytes(m[i]);
  }

  lemma FatByte(m: FatMap, i: nat, r: nat)
    requires i < CLUSTER_MAP_SIZE && r < 4
    ensures EncodeFat(m)[4 * i + r] == Le32(m[i])[r]
  {
    var j := 4 * i + r;
    assert j / 4 == i && j % 4 == r;
    assert EncodeFat(m)[j] == Le32(m[j / 4])[j % 4];
  }
}
