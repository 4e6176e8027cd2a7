/** A FAT32 volume as src/fs/fat.rs reads it: sectors, allocation table entries, and cluster chains.

    "FAT Type Determination" of the Microsoft FAT32 File System Specification 1.03 says where the
    table entry of a cluster lies.  The meaning of a chain is the flat byte sequence of its clusters. */
module FatVolume {
  import opened Basics

  type Byte = n: nat | n < 256

  const SECTOR: nat := 512
  const U32_LIMIT: nat := 0x1_0000_0000
  const END_OF_CHAIN: nat := 0x0fff_fff8
  const BAD_CLUSTER: nat := 0x0fff_fff7

  datatype Volume = Volume(
    disk: seq<seq<Byte>>,
    fatBegin: nat,
    clusterBegin: nat,
    sectorsPerCluster: nat,
    rootCluster: nat)

  function Le16(s: seq<Byte>, at: nat): nat
    requires at + 2 <= |s|
  {
    var low: nat, high: nat := s[at], s[at + 1];
    low + 0x100 * high
  }

  function Le32(s: seq<Byte>, at: nat): nat
    requires at + 4 <= |s|
  {
    Le16(s, at) + 0x1_0000 * Le16(s, at + 2)
  }

  // ----- Clusters -----

  function ClusterSize(v: Volume): nat {
    SECTOR * v.sectorsPerCluster
  }

  function SectorOfCluster(v: Volume, c: nat): nat
    requires c >= 2
  {
    (c - 2) * v.sectorsPerCluster + v.clusterBegin
  }

  ghost predicate DiskOk(v: Volume) {
    v.sectorsPerCluster > 0 && forall i :: 0 <= i < |v.disk| ==> |v.disk[i]| == SECTOR
  }

  /** Sector numbers have 32 bits and the cluster size is one byte, so no arithmetic on them wraps. */
  predicate Numbered32(v: Volume) {
    v.sectorsPerCluster < 256 && |v.disk| <= U32_LIMIT
  }

  /** The cluster and its table entry are on the disk. */
  predicate OnDisk(v: Volume, c: nat) {
    && 2 <= c < 0x1000_0000
    && SectorOfCluster(v, c) + v.sectorsPerCluster <= |v.disk|
    && v.fatBegin + c * 4 / SECTOR < |v.disk|
  }

  /** Where the table entry of a cluster lies in its sector of the table. */
  function EntryOffset(c: nat): (offset: nat)
    ensures offset + 4 <= SECTOR
  {
    c * 4 % SECTOR
  }

  /** The low 28 bits of the table entry of a cluster. */
  function TableValue(v: Volume, c: nat): nat
    requires DiskOk(v) && OnDisk(v, c)
  {
    Le32(v.disk[v.fatBegin + c * 4 / SECTOR], EntryOffset(c)) % 0x1000_0000
  }

  /** The next cluster of the chain, if the cluster is not marked bad. */
  function NextOf(v: Volume, c: nat): Option<nat>
    requires DiskOk(v) && OnDisk(v, c)
  {
    if TableValue(v, c) >= END_OF_CHAIN then None else Some(TableValue(v, c))
  }

  function Sectors(disk: seq<seq<Byte>>, first: nat, n: nat): seq<Byte>
    requires first + n <= |disk|
  {
    if n == 0 then [] else Sectors(disk, first, n - 1) + disk[first + n - 1]
  }

  function ClusterData(v: Volume, c: nat): seq<Byte>
    requires OnDisk(v, c)
  {
    Sectors(v.disk, SectorOfCluster(v, c), v.sectorsPerCluster)
  }

  // ----- Chains -----

  /** Cluster `i` of the sequence leads to the next one, the last to an end mark. */
  ghost predicate Linked(v: Volume, cs: seq<nat>, i: nat)
    requires DiskOk(v) && i < |cs| && OnDisk(v, cs[i])
  {
    && TableValue(v, cs[i]) != BAD_CLUSTER
    && NextOf(v, cs[i]) == if i + 1 < |cs| then Some(cs[i + 1]) else None
  }

  /** A chain: clusters on the disk, each the successor of the one before, up to an end mark. */
  ghost predicate IsChain(v: Volume, cs: seq<nat>) {
    && DiskOk(v) && cs != []
    && (forall i :: 0 <= i < |cs| ==> OnDisk(v, cs[i]))
    && (forall i :: 0 <= i < |cs| ==> Linked(v, cs, i))
  }

  ghost predicate HasChain(v: Volume, c: nat) {
    exists cs :: IsChain(v, cs) && cs[0] == c
  }

  ghost function ChainOf(v: Volume, c: nat): (cs: seq<nat>)
    requires HasChain(v, c)
    ensures IsChain(v, cs) && cs[0] == c
  {
    var cs :| IsChain(v, cs) && cs[0] == c;
    cs
  }

  /** The contents of a chain as one flat byte sequence. */
  ghost function Flat(v: Volume, cs: seq<nat>): seq<Byte>
    requires forall i :: 0 <= i < |cs| ==> OnDisk(v, cs[i])
  {
    if cs == [] then [] else Flat(v, cs[..|cs| - 1]) + ClusterData(v, cs[|cs| - 1])
  }

  ghost function Contents(v: Volume, c: nat): seq<Byte>
    requires HasChain(v, c)
  {
    Flat(v, ChainOf(v, c))
  }

  // ----- A disk determines its chains -----

  lemma {:induction false} ChainsAgree(v: Volume, a: seq<nat>, b: seq<nat>, i: nat)
    requires IsChain(v, a) && IsChain(v, b) && a[0] == b[0] && i < |a|
    ensures i < |b| && a[i] == b[i]
  {
    if i > 0 {
      ChainsAgree(v, a, b, i - 1);
      assert Linked(v, a, i - 1) && Linked(v, b, i - 1);
    }
  }

  /** There is one chain from a cluster at most, so its contents are well defined. */
  lemma {:induction false} ChainUnique(v: Volume, a: seq<nat>, b: seq<nat>)
    requires IsChain(v, a) && IsChain(v, b) && a[0] == b[0]
    ensures a == b
  {
    ChainsAgree(v, a, b, |a| - 1);
    ChainsAgree(v, b, a, |b| - 1);
    forall i | 0 <= i < |a| ensures i < |b| && a[i] == b[i] {
      ChainsAgree(v, a, b, i);
    }
  }

  /** A chain never visits a cluster twice. */
  lemma {:induction false} ChainAcyclic(v: Volume, cs: seq<nat>, i: nat, j: nat)
    requires IsChain(v, cs) && i < j < |cs|
    ensures cs[i] != cs[j]
    decreases |cs| - j
  {
    if cs[i] == cs[j] {
      assert Linked(v, cs, i) && Linked(v, cs, j);
      if j + 1 < |cs| {
        ChainAcyclic(v, cs, i + 1, j + 1);
      }
      assert false;
    }
  }

  // ----- Lengths and slices -----

  lemma {:induction false} SectorsLength(v: Volume, first: nat, n: nat)
    requires DiskOk(v) && first + n <= |v.disk|
    ensures |Sectors(v.disk, first, n)| == SECTOR * n
  {
    if n > 0 {
      SectorsLength(v, first, n - 1);
    }
  }

  lemma {:induction false} ClusterLength(v: Volume, c: nat)
    requires DiskOk(v) && OnDisk(v, c)
    ensures |ClusterData(v, c)| == ClusterSize(v)
  {
    SectorsLength(v, SectorOfCluster(v, c), v.sectorsPerCluster);
  }

  /** Where cluster `i` of a chain begins, with clusters of `size` bytes. */
  function ClusterStart(size: nat, i: nat): nat {
    if i == 0 then 0 else ClusterStart(size, i - 1) + size
  }

  lemma {:induction false} ClusterStartIsProduct(size: nat, i: nat)
    ensures ClusterStart(size, i) == size * i
  {
    if i > 0 {
      ClusterStartIsProduct(size, i - 1);
      assert size * i == size * (i - 1) + size;
    }
  }

  lemma {:induction false} ClusterStartGrows(size: nat, i: nat, j: nat)
    requires i <= j
    ensures ClusterStart(size, i) <= ClusterStart(size, j)
  {
    if i < j {
      ClusterStartGrows(size, i, j - 1);
    }
  }

  /** All clusters of the sequence are on the disk and have this many bytes. */
  ghost predicate Sized(v: Volume, cs: seq<nat>, size: nat) {
    forall i :: 0 <= i < |cs| ==> OnDisk(v, cs[i]) && |ClusterData(v, cs[i])| == size
  }

  lemma {:induction false} ChainSized(v: Volume, cs: seq<nat>)
    requires IsChain(v, cs)
    ensures Sized(v, cs, ClusterSize(v))
  {
    forall i | 0 <= i < |cs| ensures OnDisk(v, cs[i]) && |ClusterData(v, cs[i])| == ClusterSize(v) {
      ClusterLength(v, cs[i]);
    }
  }

  lemma {:induction false} FlatLength(v: Volume, cs: seq<nat>, size: nat)
    requires Sized(v, cs, size)
    ensures |Flat(v, cs)| == ClusterStart(size, |cs|)
  {
    if cs != [] {
      FlatLength(v, cs[..|cs| - 1], size);
    }
  }

  /** Cluster `i` of a chain holds the bytes between its start and the next one's. */
  lemma {:induction false} FlatCluster(v: Volume, cs: seq<nat>, i: nat, size: nat)
    requires Sized(v, cs, size) && i < |cs|
    ensures ClusterStart(size, i + 1) <= |Flat(v, cs)| && ClusterStart(size, i + 1) == ClusterStart(size, i) + size
    ensures Flat(v, cs)[ClusterStart(size, i)..ClusterStart(size, i + 1)] == ClusterData(v, cs[i])
  {
    var n := |cs| - 1;
    FlatLength(v, cs[..n], size);
    if i < n {
      FlatCluster(v, cs[..n], i, size);
      SliceOfFront(Flat(v, cs[..n]), ClusterData(v, cs[n]), ClusterStart(size, i), ClusterStart(size, i + 1));
    } else {
      SliceOfBack(Flat(v, cs[..n]), ClusterData(v, cs[n]));
    }
  }

  lemma {:induction false} SliceOfFront(a: seq<Byte>, b: seq<Byte>, lo: nat, hi: nat)
    requires lo <= hi <= |a|
    ensures (a + b)[lo..hi] == a[lo..hi]
  {
  }

  lemma {:induction false} SliceOfSlice(s: seq<Byte>, lo: nat, hi: nat, a: nat, b: nat)
    requires lo <= hi <= |s| && a <= b <= hi - lo
    ensures s[lo..hi][a..b] == s[lo + a..lo + b]
  {
    assert forall k :: 0 <= k < b - a ==> s[lo..hi][a..b][k] == s[lo + a..lo + b][k];
  }

  lemma {:induction false} SliceOfBack(a: seq<Byte>, b: seq<Byte>)
    ensures (a + b)[|a|..|a| + |b|] == b
  {
  }

  // ----- Where the bytes lie on the disk -----

  /** `b` is byte `r` of cluster `c` on the disk: clusters are numbered from 2, and cluster 2 begins at
      `clusterBegin`. */
  predicate IsDiskByte(v: Volume, c: nat, r: nat, b: Byte) {
    c >= 2 &&
    var low: nat := c - 2;
    var sector: nat := v.clusterBegin + low * v.sectorsPerCluster + r / 512;
    sector < |v.disk| && |v.disk[sector]| == 512 && b == v.disk[sector][r % 512]
  }

  /** `b` is the byte at offset `o` of the chain, found on the disk. */
  ghost predicate IsChainByte(v: Volume, cs: seq<nat>, o: nat, b: Byte) {
    exists i: nat, r: nat ::
      i < |cs| && r < 512 * v.sectorsPerCluster && o == 512 * v.sectorsPerCluster * i + r && IsDiskByte(v, cs[i], r, b)
  }

  lemma {:induction false} ChainByte(v: Volume, cs: seq<nat>, o: nat)
    requires IsChain(v, cs) && o < |Flat(v, cs)|
    ensures IsChainByte(v, cs, o, Flat(v, cs)[o])
  {
    var size := ClusterSize(v);
    ChainSized(v, cs);
    FlatLength(v, cs, size);
    var i, r := FindCluster(size, |cs|, o);
    ClusterStartIsProduct(size, i);
    FlatCluster(v, cs, i, size);
    assert Flat(v, cs)[o] == Flat(v, cs)[ClusterStart(size, i)..ClusterStart(size, i + 1)][r];
    ClusterByte(v, cs[i], r);
  }

  /** The cluster that byte `o` of a chain is in. */
  lemma {:induction false} FindCluster(size: nat, n: nat, o: nat) returns (i: nat, r: nat)
    requires o < ClusterStart(size, n)
    ensures i < n && r < size && o == ClusterStart(size, i) + r
  {
    if o < ClusterStart(size, n - 1) {
      i, r := FindCluster(size, n - 1, o);
    } else {
      i, r := n - 1, o - ClusterStart(size, n - 1);
    }
  }

  lemma {:induction false} ClusterByte(v: Volume, c: nat, r: nat)
    requires DiskOk(v) && OnDisk(v, c) && r < 512 * v.sectorsPerCluster
    ensures |ClusterData(v, c)| == 512 * v.sectorsPerCluster && IsDiskByte(v, c, r, ClusterData(v, c)[r])
  {
    ClusterLength(v, c);
    SectorsByte(v, SectorOfCluster(v, c), v.sectorsPerCluster, r);
  }

  lemma {:induction false} SectorsByte(v: Volume, first: nat, n: nat, o: nat)
    requires DiskOk(v) && first + n <= |v.disk| && o < 512 * n
    ensures |Sectors(v.disk, first, n)| == 512 * n && Sectors(v.disk, first, n)[o] == v.disk[first + o / 512][o % 512]
  {
    SectorsLength(v, first, n);
    SectorsLength(v, first, n - 1);
    if o < 512 * (n - 1) {
      SectorsByte(v, first, n - 1, o);
    } else {
      assert o / 512 == n - 1 && o % 512 == o - 512 * (n - 1);
    }
  }

  /** Byte `i` of the allocation table is on the disk. */
  predicate InTable(v: Volume, i: nat) {
    v.fatBegin + i / 512 < |v.disk|
  }

  function TableByte(v: Volume, i: nat): nat
    requires DiskOk(v) && InTable(v, i)
  {
    var b: nat := v.disk[v.fatBegin + i / 512][i % 512];
    b
  }

  /** The table entry of cluster `c` is the `c`-th little-endian word of the table, without its top four
      bits; from 0x0ffffff8 on it ends the chain. */
  lemma {:induction false} TableEntryBytes(v: Volume, c: nat)
    requires DiskOk(v) && OnDisk(v, c)
    ensures InTable(v, 4 * c) && InTable(v, 4 * c + 1) && InTable(v, 4 * c + 2) && InTable(v, 4 * c + 3)
    ensures TableValue(v, c) ==
            (TableByte(v, 4 * c) + 0x100 * TableByte(v, 4 * c + 1) + 0x1_0000 * TableByte(v, 4 * c + 2)
             + 0x100_0000 * TableByte(v, 4 * c + 3)) % 0x1000_0000
    ensures NextOf(v, c) == if TableValue(v, c) >= 0x0fff_fff8 then None else Some(TableValue(v, c))
  {
    TableByteOf(v, c, 0);
    TableByteOf(v, c, 1);
    TableByteOf(v, c, 2);
    TableByteOf(v, c, 3);
  }

  lemma {:induction false} TableByteOf(v: Volume, c: nat, i: nat)
    requires DiskOk(v) && OnDisk(v, c) && i < 4
    ensures InTable(v, 4 * c + i)
    ensures TableByte(v, 4 * c + i) == v.disk[v.fatBegin + c * 4 / SECTOR][EntryOffset(c) + i]
  {
    SameSector(c, i);
  }

  lemma {:induction false} SameSector(c: nat, i: nat)
    requires i < 4
    ensures (4 * c + i) / 512 == c * 4 / 512 && (4 * c + i) % 512 == c * 4 % 512 + i
  {
    assert c == 128 * (c / 128) + c % 128;
  }
}
