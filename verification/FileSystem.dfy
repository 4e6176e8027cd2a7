/** The file-descriptor layer of src/fs.rs over a FAT32 volume. */
module FileSystems {
  import opened Basics
  import opened Words
  import opened FatVolume
  import opened FatDirectory
  import opened Fat
  import D = Descriptors

  /** What a path leads to on a volume. */
  ghost function StoredAt(v: Volume, upper: string -> string, path: string): Option<D.Stored> {
    if !Reachable(v, upper, path) then None
    else
      match Lookup(v, upper, path)
      case None => None
      case Some(e) => Some(D.Stored(ChainBytes(v, FirstCluster(e)), Size(e)))
  }

  /** The volume as a backing of the descriptor layer. */
  ghost function BackingOf(v: Volume, upper: string -> string): D.Backing {
    (path: string) => StoredAt(v, upper, path)
  }

  class FileSystem {
    const backing: Fat32
    var descTable: map<nat, D.File>
    var currFd: nat

    ghost predicate Valid()
      reads this, backing
    {
      backing.Valid() && forall fd :: fd in descTable ==> Reachable(backing.volume, backing.upper, descTable[fd].path)
    }

    ghost function Table(): D.Table
      reads this
    {
      D.Table(descTable, currFd)
    }

    ghost function Backing(): D.Backing {
      BackingOf(backing.volume, backing.upper)
    }

    constructor (backing: Fat32)
      requires backing.Valid()
      ensures Valid() && this.backing == backing && Table() == D.EMPTY && D.Sound(Backing(), Table())
    {
      this.backing, descTable, currFd := backing, map[], 3;
    }

    /** `open_file`. */
    method OpenFile(path: string) returns (result: Result<nat>)
      requires Valid() && Reachable(backing.volume, backing.upper, path)
      modifies this, backing.buffer
      ensures Valid() && (Table(), result) == D.OpenFile(Backing(), old(Table()), path)
    {
      var fd := currFd;
      currFd := currFd + 1;
      var size := backing.FileSize(path);
      if size.Err? {
        return Err(size.error);
      }
      descTable := descTable[fd := D.File(path, 0, size.value)];
      return Ok(fd);
    }

    /** `get_file_size`. */
    method GetFileSize(fd: nat) returns (result: Result<nat>)
      requires Valid()
      ensures result == D.GetFileSize(Table(), fd)
    {
      if fd !in descTable {
        return Err(FileNotOpen);
      }
      return Ok(descTable[fd].size);
    }

    /** `seek`. */
    method Seek(fd: nat, offset: int, whence: nat) returns (result: Result<nat>)
      requires Valid()
      modifies this`descTable
      ensures Valid() && (Table(), result) == D.Seek(old(Table()), fd, offset, whence)
    {
      if whence == D.SEEK_SET {
        if fd !in descTable {
          return Err(FileNotOpen);
        }
        result := SetOffset(fd, offset);
      } else if whence == D.SEEK_CUR {
        if fd !in descTable {
          return Err(FileNotOpen);
        }
        result := SetOffset(fd, descTable[fd].offset + offset);
      } else if whence == D.SEEK_END {
        if fd !in descTable {
          return Err(FileNotOpen);
        }
        result := SetOffset(fd, descTable[fd].size + offset);
      } else {
        return Err(UnknownOption);
      }
    }

    /** The conversion to a 64-bit word and the assignment that the three kinds of seek share. */
    method SetOffset(fd: nat, offset: int) returns (result: Result<nat>)
      requires Valid() && fd in descTable
      modifies this`descTable
      ensures Valid() && Table() == D.MoveTo(old(Table()), fd, offset) && result == Ok(offset % USIZE_LIMIT)
    {
      descTable := descTable[fd := descTable[fd].(offset := offset % USIZE_LIMIT)];
      return Ok(offset % USIZE_LIMIT);
    }

    /** The call of `read_at`. */
    method Deliver(file: D.File, target: array<Byte>) returns (result: Result<nat>)
      requires Valid() && Reachable(backing.volume, backing.upper, file.path) && target != backing.buffer
      requires target.Length > 0 ==> Readable(backing.volume, backing.upper, file.path)
      modifies target, backing.buffer
      ensures Arrived(old(target[..]), target[..], result, D.Delivered(Backing(), file, target.Length))
    {
      result := backing.ReadAt(target, file.path, file.offset);
    }

    /** The count or error that a read returns, and what it has put into the buffer. */
    static ghost predicate Arrived(before: seq<Byte>, after: seq<Byte>, result: Result<nat>, delivered: Result<seq<Byte>>) {
      Counts(result, delivered) && if delivered.Err? then after == before else Filled(before, after, delivered.value)
    }

    static ghost predicate Counts(result: Result<nat>, delivered: Result<seq<Byte>>) {
      match delivered
      case Err(error) => result == Err(error)
      case Ok(bytes) => result == Ok(|bytes|)
    }

    /** The move of the offset after it. */
    method AdvanceBy(fd: nat, count: Result<nat>, ghost delivered: Result<seq<Byte>>)
      requires Valid() && fd in descTable && Counts(count, delivered)
      modifies this`descTable
      ensures Valid() && Table() == D.Advance(old(Table()), fd, delivered)
    {
      if count.Ok? {
        var moved := SetOffset(fd, descTable[fd].offset + count.value);
      }
    }

    /** `read`. */
    method Read(fd: nat, target: array<Byte>) returns (result: Result<nat>)
      requires Valid() && target != backing.buffer
      requires fd in descTable && target.Length > 0 ==> Readable(backing.volume, backing.upper, descTable[fd].path)
      modifies this`descTable, target, backing.buffer
      ensures Valid()
      ensures Table() == D.Read(Backing(), old(Table()), fd, target.Length).0
      ensures Arrived(old(target[..]), target[..], result, D.Read(Backing(), old(Table()), fd, target.Length).1)
    {
      if fd !in descTable {
        return Err(FileNotOpen);
      }
      var file := descTable[fd];
      result := Deliver(file, target);
      AdvanceBy(fd, result, D.Delivered(Backing(), file, target.Length));
    }
  }
}
