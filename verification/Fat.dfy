/** Reading files and searching directories of a FAT32 volume: the loops of src/fs/fat.rs. */
module Fat {
  import opened Basics
  import opened FatVolume
  import opened FatDirectory

  datatype Error = FileDoesNotExist(path: string) | FileNotOpen | UnknownOption

  datatype Result<T> = Ok(value: T) | Err(error: Error)

  // ----- What a read returns -----

  /** The bytes of `d` from `offset` on, `len` of them or as many as there are. */
  function Slice(d: seq<Byte>, offset: nat, len: nat): seq<Byte> {
    if offset >= |d| then [] else d[offset..Min(offset + len, |d|)]
  }

  /** A buffer whose front has been overwritten by `bytes`. */
  ghost predicate Filled(before: seq<Byte>, after: seq<Byte>, bytes: seq<Byte>) {
    |bytes| <= |before| && after == bytes + before[|bytes|..]
  }

  /** The loop state of `read_at`, when the first byte to read is in cluster `first`: either still
      skipping clusters, or all bytes before cluster `i` are in the buffer. */
  ghost predicate ReadSoFar(size: nat, offset: nat, first: nat, i: nat, offsetByte: nat, readBytes: nat) {
    && offsetByte < size
    && if i <= first then readBytes == 0 && offset == ClusterStart(size, first) + offsetByte
       else offsetByte == 0 && offset + readBytes == ClusterStart(size, i)
  }

  lemma {:induction false} ReadStarts(size: nat, offset: nat)
    requires size > 0
    ensures ReadSoFar(size, offset, offset / size, 0, offset % size, 0)
  {
    ClusterStartIsProduct(size, offset / size);
    assert offset == size * (offset / size) + offset % size;
  }

  /** The buffer has received the first `n` bytes of `d` from `offset` on. */
  ghost predicate Received(before: seq<Byte>, after: seq<Byte>, d: seq<Byte>, offset: nat, n: nat) {
    if n == 0 then after == before
    else offset + n <= |d| && Filled(before, after, d[offset..offset + n])
  }

  /** When the buffer is full or the chain has ended, they are all the bytes there are to read. */
  lemma {:induction false} ReadEnds(before: seq<Byte>, after: seq<Byte>, d: seq<Byte>, offset: nat, n: nat)
    requires Received(before, after, d, offset, n) && n <= |before|
    requires n == |before| || offset + n == |d| || (n == 0 && offset >= |d|)
    ensures n == |Slice(d, offset, |before|)| && Filled(before, after, Slice(d, offset, |before|))
  {
    if n == 0 {
      assert Slice(d, offset, |before|) == [];
    } else {
      assert Slice(d, offset, |before|) == d[offset..offset + n];
    }
  }

  /** What a read of a chain from `offset` on leaves in a buffer, byte by byte on the disk: as many bytes
      as the chain has from there, or as fit; behind them the buffer is as it was. */
  ghost predicate ReadFromDisk(v: Volume, cs: seq<nat>, offset: nat, before: seq<Byte>, after: seq<Byte>, n: nat) {
    && |after| == |before| && n <= |after|
    && n == Min(|before|, Max(0, 512 * v.sectorsPerCluster * |cs| - offset))
    && (forall k :: 0 <= k < n ==> IsChainByte(v, cs, offset + k, after[k]))
    && (forall k :: n <= k < |after| ==> after[k] == before[k])
  }

  lemma {:induction false} SliceIsOnDisk(v: Volume, cs: seq<nat>, offset: nat, before: seq<Byte>, after: seq<Byte>)
    requires IsChain(v, cs) && Filled(before, after, Slice(Flat(v, cs), offset, |before|))
    ensures ReadFromDisk(v, cs, offset, before, after, |Slice(Flat(v, cs), offset, |before|)|)
  {
    var d := Flat(v, cs);
    var bytes := Slice(d, offset, |before|);
    ChainSized(v, cs);
    FlatLength(v, cs, ClusterSize(v));
    ClusterStartIsProduct(ClusterSize(v), |cs|);
    SliceMeans(d, offset, |before|);
    forall k | 0 <= k < |bytes| ensures IsChainByte(v, cs, offset + k, after[k]) {
      ChainByte(v, cs, offset + k);
    }
  }

  /** A slice is as long as the buffer or the rest of the bytes, and holds the bytes from the offset on. */
  lemma {:induction false} SliceMeans(d: seq<Byte>, offset: nat, len: nat)
    ensures |Slice(d, offset, len)| == Min(len, Max(0, |d| - offset))
    ensures forall k :: 0 <= k < |Slice(d, offset, len)| ==> offset + k < |d| && Slice(d, offset, len)[k] == d[offset + k]
  {
  }

  /** Where the bytes that the loop copies next lie in the chain. */
  lemma {:induction false} ReadPosition(size: nat, offset: nat, first: nat, i: nat, offsetByte: nat, readBytes: nat)
    requires ReadSoFar(size, offset, first, i, offsetByte, readBytes) && first <= i
    ensures offset + readBytes == ClusterStart(size, i) + offsetByte
    ensures ReadSoFar(size, offset, first, i + 1, 0, readBytes + (size - offsetByte))
  {
  }

  /** Past the last cluster there is nothing to read. */
  lemma {:induction false} NothingLeft(v: Volume, cs: seq<nat>, offset: nat, first: nat, offsetByte: nat)
    requires IsChain(v, cs) && |cs| <= first && offset == ClusterStart(ClusterSize(v), first) + offsetByte
    ensures |Flat(v, cs)| <= offset
  {
    ChainSized(v, cs);
    FlatLength(v, cs, ClusterSize(v));
    ClusterStartGrows(ClusterSize(v), |cs|, first);
  }

  /** Part of cluster `i` is what comes next in the chain; the last cluster ends it. */
  lemma {:induction false} CopiedSoFar(v: Volume, cs: seq<nat>, size: nat, i: nat, position: nat, offsetByte: nat, count: nat)
    requires Sized(v, cs, size) && i < |cs|
    requires position == ClusterStart(size, i) + offsetByte && offsetByte + count <= size
    ensures position + count <= |Flat(v, cs)|
    ensures i + 1 == |cs| && offsetByte + count == size ==> position + count == |Flat(v, cs)|
    ensures Flat(v, cs)[position..position + count] == ClusterData(v, cs[i])[offsetByte..offsetByte + count]
  {
    FlatLength(v, cs, size);
    FlatCluster(v, cs, i, size);
    SliceOfSlice(Flat(v, cs), ClusterStart(size, i), ClusterStart(size, i + 1), offsetByte, offsetByte + count);
  }

  /** Copying the bytes that come next extends what has been received. */
  lemma {:induction false} ReceivedGrows(before: seq<Byte>, mid: seq<Byte>, after: seq<Byte>, d: seq<Byte>, offset: nat, n: nat,
                                         bytes: seq<Byte>)
    requires Received(before, mid, d, offset, n) && n + |bytes| <= |mid| && |before| == |mid|
    requires offset + n + |bytes| <= |d| && bytes == d[offset + n..offset + n + |bytes|]
    requires after == mid[..n] + bytes + mid[n + |bytes|..]
    ensures Received(before, after, d, offset, n + |bytes|)
  {
    var count := |bytes|;
    assert d[offset..offset + n + count] == d[offset..offset + n] + bytes;
    assert mid[n + count..] == before[n + count..];
    assert mid[..n] == d[offset..offset + n];
    if n + count == 0 {
      assert after == mid;
    }
  }

  /** Overwriting what follows a copied front extends it. */
  lemma {:induction false} OverwriteNext(front: seq<Byte>, before: seq<Byte>, mid: seq<Byte>, after: seq<Byte>, data: seq<Byte>)
    requires |front| + |data| <= |before| && mid == front + before[|front|..]
    requires after == mid[..|front|] + data + mid[|front| + |data|..]
    ensures after == front + data + before[|front| + |data|..]
  {
    assert mid[..|front|] == front && mid[|front| + |data|..] == before[|front| + |data|..];
  }

  // ----- Paths -----

  /** `str::split('/')`. */
  function Split(path: string): (parts: seq<string>)
    ensures parts != []
  {
    if path == "" then [""]
    else if path[0] == '/' then [""] + Split(path[1..])
    else
      var rest := Split(path[1..]);
      [[path[0]] + rest[0]] + rest[1..]
  }

  /** The entry that a list of names leads to from a directory; empty names are skipped. */
  ghost function Resolve(v: Volume, upper: string -> string, cluster: nat, names: seq<string>, current: Option<Entry>): Option<Entry>
    requires PathOk(v, upper, cluster, names)
    decreases |names|
  {
    if names == [] then current
    else if names[0] == "" then Resolve(v, upper, cluster, names[1..], current)
    else
      match Search(Contents(v, cluster), 0, names[0], upper(names[0]))
      case None => None
      case Some(e) => Resolve(v, upper, FirstCluster(e), names[1..], Some(e))
  }

  /** Every directory that the names lead through has a well-formed chain. */
  ghost predicate PathOk(v: Volume, upper: string -> string, cluster: nat, names: seq<string>)
    decreases |names|
  {
    names != [] ==>
      if names[0] == "" then PathOk(v, upper, cluster, names[1..])
      else
        && HasChain(v, cluster)
        && match Search(Contents(v, cluster), 0, names[0], upper(names[0]))
           case None => true
           case Some(e) => PathOk(v, upper, FirstCluster(e), names[1..])
  }

  ghost function Lookup(v: Volume, upper: string -> string, path: string): Option<Entry>
    requires PathOk(v, upper, v.rootCluster, Split(path))
  {
    Resolve(v, upper, v.rootCluster, Split(path), None)
  }

  /** Looking this path up meets well-formed directories only. */
  ghost predicate Reachable(v: Volume, upper: string -> string, path: string) {
    v.sectorsPerCluster == 1 && PathOk(v, upper, v.rootCluster, Split(path))
  }

  /** And so does reading what it leads to. */
  ghost predicate Readable(v: Volume, upper: string -> string, path: string) {
    && Reachable(v, upper, path)
    && match Lookup(v, upper, path)
       case None => true
       case Some(e) => HasChain(v, FirstCluster(e))
  }

  /** The bytes of the chain from a cluster; a file of no clusters has none. */
  ghost function ChainBytes(v: Volume, c: nat): seq<Byte> {
    if HasChain(v, c) then Contents(v, c) else []
  }

  // ----- One sector per cluster -----

  /** With 16 entries to a cluster, entry `j` of cluster `i` is entry `16 i + j` of the directory. */
  lemma {:induction false} EntryOfCluster(v: Volume, cs: seq<nat>, i: nat, j: nat)
    requires IsChain(v, cs) && v.sectorsPerCluster == 1 && i < |cs| && j < 16
    ensures EntryCount(Flat(v, cs)) == 16 * |cs| && |ClusterData(v, cs[i])| == SECTOR
    ensures EntryAt(Flat(v, cs), 16 * i + j) == ClusterData(v, cs[i])[ENTRY * j..ENTRY * j + ENTRY]
  {
    ChainSized(v, cs);
    FlatLength(v, cs, SECTOR);
    FlatCluster(v, cs, i, SECTOR);
    ClusterStartIsProduct(SECTOR, i);
    ClusterStartIsProduct(SECTOR, |cs|);
    SliceOfSlice(Flat(v, cs), ClusterStart(SECTOR, i), ClusterStart(SECTOR, i + 1), ENTRY * j, ENTRY * j + ENTRY);
  }

  class Fat32 {
    const volume: Volume
    const buffer: array<Byte>
    const upper: string -> string

    ghost predicate Valid()
      reads this
    {
      DiskOk(volume) && Numbered32(volume) && buffer.Length == SECTOR
    }

    constructor (volume: Volume, upper: string -> string)
      requires DiskOk(volume) && Numbered32(volume)
      ensures Valid() && this.volume == volume && this.upper == upper && fresh(buffer)
    {
      this.volume, this.upper := volume, upper;
      buffer := new Byte[SECTOR](_ => 0);
    }

    /** Copies one sector of the disk into `target` at `at`. */
    method ReadSector(sector: nat, target: array<Byte>, at: nat)
      requires Valid() && sector < |volume.disk| && at + SECTOR <= target.Length
      modifies target
      ensures target[..] == old(target[..])[..at] + volume.disk[sector] + old(target[..])[at + SECTOR..]
    {
      forall k | 0 <= k < SECTOR {
        target[at + k] := volume.disk[sector][k];
      }
    }

    /** Reads sector `i` of a cluster behind those already in `target`. */
    method AppendSector(firstSector: nat, i: nat, target: array<Byte>, ghost before: seq<Byte>)
      requires Valid() && firstSector + i < |volume.disk| && SECTOR * i + SECTOR <= target.Length == |before|
      requires target[..] == Sectors(volume.disk, firstSector, i) + before[SECTOR * i..]
      modifies target
      ensures target[..] == Sectors(volume.disk, firstSector, i + 1) + before[SECTOR * (i + 1)..]
    {
      ghost var mid := target[..];
      SectorsLength(volume, firstSector, i);
      ReadSector(firstSector + i, target, SECTOR * i);
      OverwriteNext(Sectors(volume.disk, firstSector, i), before, mid, target[..], volume.disk[firstSector + i]);
    }

    /** `read_cluster`. */
    method ReadCluster(c: nat, target: array<Byte>)
      requires Valid() && OnDisk(volume, c) && target.Length >= ClusterSize(volume)
      modifies target
      ensures |ClusterData(volume, c)| == ClusterSize(volume)
      ensures target[..] == ClusterData(volume, c) + old(target[..])[ClusterSize(volume)..]
      ensures target.Length == ClusterSize(volume) ==> target[..] == ClusterData(volume, c)
      ensures forall r :: 0 <= r < 512 * volume.sectorsPerCluster ==> r < target.Length && IsDiskByte(volume, c, r, target[r])
    {
      ClusterLength(volume, c);
      ReadSectors(SectorOfCluster(volume, c), target);
      forall r | 0 <= r < 512 * volume.sectorsPerCluster
        ensures r < target.Length && IsDiskByte(volume, c, r, target[r])
      {
        ClusterByte(volume, c, r);
        assert target[..][r] == ClusterData(volume, c)[r];
      }
    }

    /** Its loop. */
    method ReadSectors(firstSector: nat, target: array<Byte>)
      requires Valid() && firstSector + volume.sectorsPerCluster <= |volume.disk| && target.Length >= ClusterSize(volume)
      modifies target
      ensures target[..] == Sectors(volume.disk, firstSector, volume.sectorsPerCluster) + old(target[..])[ClusterSize(volume)..]
    {
      ghost var before := target[..];
      var i := 0;
      while i < volume.sectorsPerCluster
        invariant i <= volume.sectorsPerCluster
        invariant target[..] == Sectors(volume.disk, firstSector, i) + before[SECTOR * i..]
      {
        AppendSector(firstSector, i, target, before);
        i := i + 1;
      }
    }

    /** `next_cluster`; a bad cluster is a panic. */
    method NextCluster(c: nat) returns (panicked: bool, next: Option<nat>)
      requires Valid() && OnDisk(volume, c)
      modifies buffer
      ensures panicked <==> TableValue(volume, c) == BAD_CLUSTER
      ensures !panicked ==> next == NextOf(volume, c)
    {
      var fatOffset := c * 4;
      var fatSector, entOffset := volume.fatBegin + fatOffset / SECTOR, EntryOffset(c);
      ReadSector(fatSector, buffer, 0);
      assert buffer[..] == volume.disk[fatSector];
      var tableValue := Le32(buffer[..], entOffset) % 0x1000_0000;
      panicked, next := false, None;
      if tableValue >= END_OF_CHAIN {
      } else if tableValue == BAD_CLUSTER {
        panicked := true;
      } else {
        next := Some(tableValue);
      }
    }

    /** `next_cluster` along a chain. */
    method Follow(cluster: nat, ghost first: nat, ghost i: nat) returns (next: Option<nat>)
      requires Valid() && HasChain(volume, first) && i < |ChainOf(volume, first)| && cluster == ChainOf(volume, first)[i]
      modifies buffer
      ensures next == if i + 1 < |ChainOf(volume, first)| then Some(ChainOf(volume, first)[i + 1]) else None
    {
      assert Linked(volume, ChainOf(volume, first), i);
      var panicked;
      panicked, next := NextCluster(cluster);
    }

    /** `read_at` once the entry is found: fills `target` from the chain that starts at `first`. */
    method ReadChain(target: array<Byte>, first: nat, offset: nat) returns (readBytes: nat)
      requires Valid() && HasChain(volume, first) && target != buffer
      modifies target, buffer
      ensures readBytes == |Slice(Contents(volume, first), offset % U32_LIMIT, target.Length)|
      ensures Filled(old(target[..]), target[..], Slice(Contents(volume, first), offset % U32_LIMIT, target.Length))
      ensures ReadFromDisk(volume, ChainOf(volume, first), offset % U32_LIMIT, old(target[..]), target[..], readBytes)
    {
      ghost var before := target[..];
      var start, size := offset % U32_LIMIT, ClusterSize(volume);
      ReadStarts(size, start);
      var tmpBuf := new Byte[size](_ => 0);
      readBytes := ReadClusters(target, tmpBuf, first, start, start / size, start % size);
      SliceIsOnDisk(volume, ChainOf(volume, first), start, before, target[..]);
    }

    /** Its loop. */
    method ReadClusters(target: array<Byte>, tmpBuf: array<Byte>, first: nat, ghost start: nat, offsetCluster: nat, firstByte: nat)
      returns (readBytes: nat)
      requires Valid() && HasChain(volume, first) && target != buffer && target != tmpBuf && tmpBuf.Length == ClusterSize(volume)
      requires ReadSoFar(ClusterSize(volume), start, offsetCluster, 0, firstByte, 0)
      modifies target, tmpBuf, buffer
      ensures readBytes == |Slice(Contents(volume, first), start, target.Length)|
      ensures Filled(old(target[..]), target[..], Slice(Contents(volume, first), start, target.Length))
    {
      ghost var cs, before := ChainOf(volume, first), target[..];
      ghost var d := Flat(volume, cs);
      var cluster, offsetByte, readClusters: nat := first, firstByte, 0;
      readBytes := 0;
      while readBytes < target.Length
        invariant readClusters < |cs| && cluster == cs[readClusters] && readBytes <= target.Length
        invariant readBytes < target.Length ==>
            ReadSoFar(ClusterSize(volume), start, offsetCluster, readClusters, offsetByte, readBytes)
        invariant Received(before, target[..], d, start, readBytes)
        decreases |cs| - readClusters
      {
        if readClusters < offsetCluster {
          var next := Follow(cluster, first, readClusters);
          readClusters := readClusters + 1;
          if next.None? {
            NothingLeft(volume, cs, start, offsetCluster, offsetByte);
            break;
          }
          cluster := next.value;
        } else {
          var count := CopyCluster(target, tmpBuf, cluster, readClusters, first, start, offsetCluster, offsetByte, readBytes, before);
          readBytes, offsetByte, readClusters := readBytes + count, 0, readClusters + 1;
          var next := Follow(cluster, first, readClusters - 1);
          if next.None? {
            break;
          }
          cluster := next.value;
        }
      }
      ReadEnds(before, target[..], d, start, readBytes);
    }

    /** One round of that loop, once the right cluster is reached. */
    method CopyCluster(target: array<Byte>, tmpBuf: array<Byte>, cluster: nat, i: nat, ghost chain: nat, ghost start: nat,
                       ghost first: nat, offsetByte: nat, readBytes: nat, ghost before: seq<Byte>) returns (count: nat)
      requires Valid() && HasChain(volume, chain) && i < |ChainOf(volume, chain)| && cluster == ChainOf(volume, chain)[i]
      requires target != tmpBuf && tmpBuf.Length == ClusterSize(volume) && readBytes < target.Length == |before|
      requires ReadSoFar(ClusterSize(volume), start, first, i, offsetByte, readBytes) && first <= i
      requires Received(before, target[..], Contents(volume, chain), start, readBytes)
      modifies target, tmpBuf
      ensures readBytes + count <= target.Length
      ensures readBytes + count == target.Length || ReadSoFar(ClusterSize(volume), start, first, i + 1, 0, readBytes + count)
      ensures i + 1 == |ChainOf(volume, chain)| ==>
        readBytes + count == target.Length || start + readBytes + count == |Contents(volume, chain)|
      ensures Received(before, target[..], Contents(volume, chain), start, readBytes + count)
    {
      ghost var size := ClusterSize(volume);
      ReadPosition(size, start, first, i, offsetByte, readBytes);
      count := Min(ClusterSize(volume) - offsetByte, target.Length - readBytes);
      ChainSized(volume, ChainOf(volume, chain));
      CopiedSoFar(volume, ChainOf(volume, chain), size, i, start + readBytes, offsetByte, count);
      ReadCluster(cluster, tmpBuf);
      Copy(tmpBuf, offsetByte, target, readBytes, count, Contents(volume, chain), start, before);
    }

    /** `copy_from_nonoverlapping`, of the bytes that come next. */
    static method Copy(source: array<Byte>, from: nat, target: array<Byte>, at: nat, count: nat,
                       ghost d: seq<Byte>, ghost start: nat, ghost before: seq<Byte>)
      requires source != target && from + count <= source.Length && at + count <= target.Length == |before|
      requires start + at + count <= |d| && source[..][from..from + count] == d[start + at..start + at + count]
      requires Received(before, target[..], d, start, at)
      modifies target
      ensures Received(before, target[..], d, start, at + count)
    {
      ghost var mid, bytes := target[..], source[..][from..from + count];
      forall k | 0 <= k < count {
        target[at + k] := source[from + k];
      }
      assert target[..] == mid[..at] + bytes + mid[at + count..];
      ReceivedGrows(before, mid, target[..], d, start, at, bytes);
    }

    // ----- Searching a directory -----

    /** `sector` holds the cluster of entry `g` of directory `dir`, which is entry `currIdx` there. */
    ghost predicate Positioned(sector: array<Byte>, cluster: nat, currIdx: nat, dir: nat, i: nat, g: nat)
      reads sector
    {
      HasChain(volume, dir) && volume.sectorsPerCluster == 1 && InCluster(ChainOf(volume, dir), sector[..], cluster, currIdx, i, g)
    }

    ghost predicate InCluster(cs: seq<nat>, sector: seq<Byte>, cluster: nat, currIdx: nat, i: nat, g: nat)
      requires IsChain(volume, cs)
    {
      i < |cs| && cluster == cs[i] && currIdx < 16 && g == 16 * i + currIdx && sector == ClusterData(volume, cs[i])
    }

    /** The entry at the current position. */
    method EntryIn(sector: array<Byte>, currIdx: nat, ghost cluster: nat, ghost dir: nat, ghost i: nat, ghost g: nat) returns (e: Entry)
      requires Positioned(sector, cluster, currIdx, dir, i, g)
      ensures g < EntryCount(Contents(volume, dir)) && e == EntryAt(Contents(volume, dir), g)
    {
      EntryOfCluster(volume, ChainOf(volume, dir), i, currIdx);
      e := sector[ENTRY * currIdx..ENTRY * currIdx + ENTRY];
    }

    /** Steps to the next entry, in the next cluster if need be; `more` is false at the end of the chain. */
    method NextEntry(sector: array<Byte>, cluster: nat, currIdx: nat, ghost dir: nat, ghost i: nat, ghost g: nat)
      returns (more: bool, cluster': nat, currIdx': nat, ghost i': nat)
      requires Valid() && sector != buffer && sector.Length == SECTOR && Positioned(sector, cluster, currIdx, dir, i, g)
      modifies sector, buffer
      ensures more <==> g + 1 < EntryCount(Contents(volume, dir))
      ensures more ==> Positioned(sector, cluster', currIdx', dir, i', g + 1)
    {
      ghost var cs := ChainOf(volume, dir);
      EntryOfCluster(volume, cs, i, currIdx);
      more, cluster', currIdx', i' := true, cluster, currIdx + 1, i;
      if currIdx' >= 16 {
        var next := Follow(cluster, dir, i);
        if next.None? {
          more := false;
          return;
        }
        cluster', currIdx', i' := next.value, currIdx' % 16, i + 1;
        ReadCluster(cluster', sector);
        assert sector[..] == ClusterData(volume, cs[i + 1]);
      }
    }

    /** One round of `find_file` up to its answer: a short entry, or a long-name entry and the one after it. */
    method ReadPair(sector: array<Byte>, cluster: nat, currIdx: nat, name: string, upperName: string,
                    ghost dir: nat, ghost i: nat, ghost g: nat)
      returns (entry: Option<Entry>, matches: bool, cluster': nat, currIdx': nat, ghost i': nat, ghost g': nat)
      requires Valid() && sector != buffer && sector.Length == SECTOR && Positioned(sector, cluster, currIdx, dir, i, g)
      modifies sector, buffer
      ensures entry.None? || matches ==> Answers(Contents(volume, dir), g, entry, name, upperName)
      ensures entry.Some? ==> Positioned(sector, cluster', currIdx', dir, i', g') && g <= g'
      ensures entry.Some? && !matches ==> GoesOn(Contents(volume, dir), g, g', name, upperName)
    {
      ghost var d := Contents(volume, dir);
      matches, cluster', currIdx', i', g' := false, cluster, currIdx, i, g;
      var first := EntryIn(sector, currIdx, cluster, dir, i, g);
      if IsEnd(first) {
        SearchEnds(d, g, name, upperName);
        entry := None;
      } else if !IsLong(first) {
        matches := ShortName(first) == upperName;
        entry := Some(first);
        SearchShort(d, g, first, matches, name, upperName);
        assert matches ==> Answers(d, g, entry, name, upperName);
        assert !matches ==> GoesOn(d, g, g', name, upperName);
      } else {
        entry, matches, cluster', currIdx', i' :=
          ReadSecond(sector, cluster, currIdx, LongName(first) == name, name, upperName, dir, i, g);
        g' := g + 1;
      }
      assert entry.None? || matches ==> Answers(d, g, entry, name, upperName);
      assert entry.Some? && !matches ==> GoesOn(d, g, g', name, upperName);
    }

    /** The part of that round behind a long-name entry. */
    method ReadSecond(sector: array<Byte>, cluster: nat, currIdx: nat, found: bool, name: string, upperName: string,
                      ghost dir: nat, ghost i: nat, ghost g: nat)
      returns (entry: Option<Entry>, matches: bool, cluster': nat, currIdx': nat, ghost i': nat)
      requires Valid() && sector != buffer && sector.Length == SECTOR && Positioned(sector, cluster, currIdx, dir, i, g)
      requires g < EntryCount(Contents(volume, dir)) && !IsEnd(EntryAt(Contents(volume, dir), g))
      requires IsLong(EntryAt(Contents(volume, dir), g)) && found == (LongName(EntryAt(Contents(volume, dir), g)) == name)
      modifies sector, buffer
      ensures entry.None? || matches ==> Answers(Contents(volume, dir), g, entry, name, upperName)
      ensures entry.Some? ==> Positioned(sector, cluster', currIdx', dir, i', g + 1)
      ensures entry.Some? && !matches ==> GoesOn(Contents(volume, dir), g, g + 1, name, upperName)
    {
      ghost var d := Contents(volume, dir);
      var more;
      matches := false;
      more, cluster', currIdx', i' := NextEntry(sector, cluster, currIdx, dir, i, g);
      if !more {
        SearchEnds(d, g, name, upperName);
        entry := None;
      } else {
        var second := EntryIn(sector, currIdx', cluster', dir, i', g + 1);
        matches := found || ShortName(second) == upperName;
        entry := Some(second);
        SearchLong(d, g, second, found, matches, name, upperName);
        assert matches ==> Answers(d, g, entry, name, upperName);
        assert !matches ==> GoesOn(d, g, g + 1, name, upperName);
      }
    }

    /** A whole round: either the answer, or the position to go on from. */
    method Round(sector: array<Byte>, cluster: nat, currIdx: nat, name: string, upperName: string,
                 ghost dir: nat, ghost i: nat, ghost g: nat)
      returns (entry: Option<Entry>, done: bool, more: bool, cluster': nat, currIdx': nat, ghost i': nat, ghost g': nat)
      requires Valid() && sector != buffer && sector.Length == SECTOR && Positioned(sector, cluster, currIdx, dir, i, g)
      modifies sector, buffer
      ensures done ==> Answers(Contents(volume, dir), g, entry, name, upperName)
      ensures !done ==> g <= g' && GoesOn(Contents(volume, dir), g, g', name, upperName)
      ensures !done ==> (more <==> g' + 1 < EntryCount(Contents(volume, dir)))
      ensures !done && more ==> Positioned(sector, cluster', currIdx', dir, i', g' + 1)
    {
      var matches;
      entry, matches, cluster', currIdx', i', g' := ReadPair(sector, cluster, currIdx, name, upperName, dir, i, g);
      done, more := entry.None? || matches, false;
      if !done {
        more, cluster', currIdx', i' := NextEntry(sector, cluster', currIdx', dir, i', g');
      }
    }

    /** The first position of a directory. */
    method Start(sector: array<Byte>, dir: nat)
      requires Valid() && volume.sectorsPerCluster == 1 && HasChain(volume, dir) && sector.Length == SECTOR
      modifies sector
      ensures 0 < EntryCount(Contents(volume, dir)) && Positioned(sector, dir, 0, dir, 0, 0)
    {
      ReadCluster(dir, sector);
      EntryOfCluster(volume, ChainOf(volume, dir), 0, 0);
    }

    /** `find_file`. */
    method FindFile(dirCluster: nat, name: string) returns (result: Option<Entry>)
      requires Valid() && volume.sectorsPerCluster == 1 && HasChain(volume, dirCluster)
      modifies buffer
      ensures result == Search(Contents(volume, dirCluster), 0, name, upper(name))
    {
      var upperName := upper(name);
      ghost var d := Contents(volume, dirCluster);
      ghost var i: nat, g: nat := 0, 0;
      var cluster, currIdx := dirCluster, 0;
      var sector := new Byte[SECTOR](_ => 0);
      Start(sector, dirCluster);
      var more, done := true, false;
      while more
        invariant more ==> Positioned(sector, cluster, currIdx, dirCluster, i, g)
        invariant more <==> g < EntryCount(d)
        invariant SameAnswer(d, 0, g, name, upperName)
        decreases EntryCount(d) - g
      {
        ghost var last;
        result, done, more, cluster, currIdx, i, last := Round(sector, cluster, currIdx, name, upperName, dirCluster, i, g);
        if done {
          assert Answers(d, 0, result, name, upperName);
          return;
        }
        GoesOnFrom(d, 0, g, last, name, upperName);
        g := last + 1;
        assert SameAnswer(d, 0, g, name, upperName);
      }
      SearchEnds(d, g, name, upperName);
      assert Answers(d, 0, None, name, upperName);
      return None;
    }

    /** `get_entry_from_path`. */
    method GetEntryFromPath(path: string) returns (result: Option<Entry>)
      requires Valid() && Reachable(volume, upper, path)
      modifies buffer
      ensures result == Lookup(volume, upper, path)
    {
      var cluster, names := volume.rootCluster, Split(path);
      result := None;
      while names != []
        invariant PathOk(volume, upper, cluster, names)
        invariant Resolve(volume, upper, cluster, names, result) == Lookup(volume, upper, path)
        decreases |names|
      {
        if names[0] != "" {
          result := FindFile(cluster, names[0]);
          if result.None? {
            return;
          }
          cluster := FirstCluster(result.value);
        }
        names := names[1..];
      }
    }

    /** `read_at`: the bytes of the chain from the offset on, cut to 32 bits, as many as fit the buffer. */
    method ReadAt(target: array<Byte>, path: string, offset: nat) returns (result: Result<nat>)
      requires Valid() && Reachable(volume, upper, path) && target != buffer
      requires target.Length > 0 ==> Readable(volume, upper, path)
      modifies target, buffer
      ensures match Lookup(volume, upper, path)
              case None => result == Err(FileDoesNotExist(path)) && target[..] == old(target[..])
              case Some(e) =>
                var bytes := Slice(ChainBytes(volume, FirstCluster(e)), offset % U32_LIMIT, target.Length);
                result == Ok(|bytes|) && Filled(old(target[..]), target[..], bytes)
    {
      var entry := GetEntryFromPath(path);
      if entry.None? {
        return Err(FileDoesNotExist(path));
      }
      if target.Length == 0 {
        return Ok(0);
      }
      var readBytes := ReadChain(target, FirstCluster(entry.value), offset);
      return Ok(readBytes);
    }

    /** `file_size`: the size field of the entry, whatever the length of the chain. */
    method FileSize(path: string) returns (result: Result<nat>)
      requires Valid() && Reachable(volume, upper, path)
      modifies buffer
      ensures result == match Lookup(volume, upper, path)
                        case None => Err(FileDoesNotExist(path))
                        case Some(e) => Ok(Size(e))
    {
      var entry := GetEntryFromPath(path);
      if entry.None? {
        return Err(FileDoesNotExist(path));
      }
      return Ok(Size(entry.value));
    }
  }
}
