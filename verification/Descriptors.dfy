/** The file-descriptor layer of src/fs.rs on values: its table, its operations, and whole runs of them.

    Like the layer itself it works over any backing file system; a backing is a function from paths to
    what is stored there.  Offsets are 64-bit words. */
module Descriptors {
  import opened Basics
  import opened Words
  import opened FatVolume
  import opened Fat

  /** What a backing file system holds at a path: the bytes of the chain and the size field. */
  datatype Stored = Stored(data: seq<Byte>, size: nat)

  type Backing = string -> Option<Stored>

  datatype File = File(path: string, offset: nat, size: nat)

  datatype Table = Table(files: map<nat, File>, currFd: nat)

  const EMPTY: Table := Table(map[], 3)

  const SEEK_SET: nat := 0
  const SEEK_CUR: nat := 1
  const SEEK_END: nat := 2

  // ----- Operations -----

  function OpenFile(backing: Backing, t: Table, path: string): (Table, Result<nat>) {
    match backing(path)
    case None => (t.(currFd := t.currFd + 1), Err(FileDoesNotExist(path)))
    case Some(stored) =>
      (Table(t.files[t.currFd := File(path, 0, stored.size)], t.currFd + 1), Ok(t.currFd))
  }

  function GetFileSize(t: Table, fd: nat): Result<nat> {
    if fd in t.files then Ok(t.files[fd].size) else Err(FileNotOpen)
  }

  function MoveTo(t: Table, fd: nat, offset: int): Table
    requires fd in t.files
  {
    t.(files := t.files[fd := t.files[fd].(offset := offset % USIZE_LIMIT)])
  }

  function SeekTarget(file: File, offset: int, whence: nat): int {
    if whence == SEEK_SET then offset else if whence == SEEK_CUR then file.offset + offset else file.size + offset
  }

  function Seek(t: Table, fd: nat, offset: int, whence: nat): (Table, Result<nat>) {
    if whence > SEEK_END then (t, Err(UnknownOption))
    else if fd !in t.files then (t, Err(FileNotOpen))
    else
      var target := SeekTarget(t.files[fd], offset, whence);
      (MoveTo(t, fd, target), Ok(target % USIZE_LIMIT))
  }

  /** The bytes that a read of `len` bytes delivers. */
  function Delivered(backing: Backing, file: File, len: nat): Result<seq<Byte>> {
    match backing(file.path)
    case None => Err(FileDoesNotExist(file.path))
    case Some(stored) => Ok(Slice(stored.data, file.offset % U32_LIMIT, len))
  }

  /** A read moves the offset by what it delivers. */
  function Advance(t: Table, fd: nat, delivered: Result<seq<Byte>>): Table
    requires fd in t.files
  {
    if delivered.Err? then t else MoveTo(t, fd, t.files[fd].offset + |delivered.value|)
  }

  function Read(backing: Backing, t: Table, fd: nat, len: nat): (Table, Result<seq<Byte>>) {
    if fd !in t.files then (t, Err(FileNotOpen))
    else
      var r := Delivered(backing, t.files[fd], len);
      (Advance(t, fd, r), r)
  }

  // ----- Runs -----

  datatype Op =
    | CallOpen(path: string)
    | CallGetFileSize(fd: nat)
    | CallSeek(fd: nat, offset: int, whence: nat)
    | CallRead(fd: nat, len: nat)

  datatype Reply =
    | Number(result: Result<nat>)
    | Data(bytes: Result<seq<Byte>>)

  function Next(backing: Backing, t: Table, op: Op): (Table, Reply) {
    match op
    case CallOpen(path) => var (t', r) := OpenFile(backing, t, path); (t', Number(r))
    case CallGetFileSize(fd) => (t, Number(GetFileSize(t, fd)))
    case CallSeek(fd, offset, whence) => var (t', r) := Seek(t, fd, offset, whence); (t', Number(r))
    case CallRead(fd, len) => var (t', r) := Read(backing, t, fd, len); (t', Data(r))
  }

  function After(backing: Backing, t: Table, ops: seq<Op>): Table
    decreases |ops|
  {
    if ops == [] then t else After(backing, Next(backing, t, ops[0]).0, ops[1..])
  }

  function Replies(backing: Backing, t: Table, ops: seq<Op>): (replies: seq<Reply>)
    ensures |replies| == |ops|
    decreases |ops|
  {
    if ops == [] then []
    else [Next(backing, t, ops[0]).1] + Replies(backing, Next(backing, t, ops[0]).0, ops[1..])
  }

  /** The descriptors that the opens of a run return, in order. */
  function Opened(ops: seq<Op>, replies: seq<Reply>): seq<nat>
    requires |ops| == |replies|
  {
    if ops == [] then []
    else if ops[0].CallOpen? && replies[0].Number? && replies[0].result.Ok? then
      [replies[0].result.value] + Opened(ops[1..], replies[1..])
    else Opened(ops[1..], replies[1..])
  }

  /** The path exists, the recorded size is its size, and the offset is a word. */
  predicate SoundFile(backing: Backing, f: File) {
    backing(f.path).Some? && f.size == backing(f.path).value.size && f.offset < USIZE_LIMIT
  }

  /** Every descriptor in use was handed out, for a file that exists. */
  predicate Sound(backing: Backing, t: Table) {
    3 <= t.currFd && forall fd :: fd in t.files ==> 3 <= fd < t.currFd && SoundFile(backing, t.files[fd])
  }

  lemma {:induction false} NextKeepsSound(backing: Backing, t: Table, op: Op)
    requires Sound(backing, t)
    ensures Sound(backing, Next(backing, t, op).0)
  {
  }

  lemma {:induction false} RunKeepsSound(backing: Backing, t: Table, ops: seq<Op>)
    requires Sound(backing, t)
    ensures Sound(backing, After(backing, t, ops))
    decreases |ops|
  {
    if ops != [] {
      NextKeepsSound(backing, t, ops[0]);
      RunKeepsSound(backing, Next(backing, t, ops[0]).0, ops[1..]);
    }
  }

  /** On a sound table a read fails only because the descriptor is not open. */
  lemma {:induction false} ReadFailsIff(backing: Backing, t: Table, fd: nat, len: nat)
    requires Sound(backing, t)
    ensures Read(backing, t, fd, len).1.Err? <==> fd !in t.files
    ensures fd !in t.files ==> Read(backing, t, fd, len) == (t, Err(FileNotOpen))
  {
  }

  /** Over any run from its opening on, a descriptor stands for the path that was opened, and asking for
      its size answers what the backing file system says of that path. */
  lemma {:induction false} SizeSinceOpening(backing: Backing, t: Table, path: string, ops: seq<Op>)
    requires Sound(backing, t) && backing(path).Some?
    ensures var (t', result) := OpenFile(backing, t, path);
            && result == Ok(t.currFd)
            && t.currFd in After(backing, t', ops).files
            && After(backing, t', ops).files[t.currFd].path == path
            && GetFileSize(After(backing, t', ops), t.currFd) == Ok(backing(path).value.size)
  {
    var t' := OpenFile(backing, t, path).0;
    NextKeepsSound(backing, t, CallOpen(path));
    RunKeepsSound(backing, t', ops);
    PathStays(backing, t', ops, t.currFd);
    assert SoundFile(backing, After(backing, t', ops).files[t.currFd]);
  }

  lemma {:induction false} PathStays(backing: Backing, t: Table, ops: seq<Op>, fd: nat)
    requires Sound(backing, t) && fd in t.files
    ensures fd in After(backing, t, ops).files && After(backing, t, ops).files[fd].path == t.files[fd].path
    decreases |ops|
  {
    if ops != [] {
      NextKeepsSound(backing, t, ops[0]);
      PathStays(backing, Next(backing, t, ops[0]).0, ops[1..], fd);
    }
  }

  // ----- Descriptors are never reused -----

  /** Increasing, and all at least `low`. */
  ghost predicate IncreasingFrom(fds: seq<nat>, low: nat) {
    && (forall i :: 0 <= i < |fds| ==> low <= fds[i])
    && (forall i, j :: 0 <= i < j < |fds| ==> fds[i] < fds[j])
  }

  /** Over any run, with failed opens among the others, every open returns a larger descriptor than all
      before it, and one that was not in use. */
  lemma {:induction false} DescriptorsNeverReused(backing: Backing, t: Table, ops: seq<Op>)
    requires Sound(backing, t)
    ensures IncreasingFrom(Opened(ops, Replies(backing, t, ops)), t.currFd)
    ensures forall fd :: fd in t.files ==> fd !in Opened(ops, Replies(backing, t, ops))
    decreases |ops|
  {
    if ops != [] {
      var step := Next(backing, t, ops[0]);
      var replies := Replies(backing, t, ops);
      assert replies[0] == step.1 && replies[1..] == Replies(backing, step.0, ops[1..]);
      NextKeepsSound(backing, t, ops[0]);
      DescriptorsNeverReused(backing, step.0, ops[1..]);
      var rest := Opened(ops[1..], replies[1..]);
      OpenTakesNext(backing, t, ops[0]);
      if ops[0].CallOpen? && step.1.result.Ok? {
        assert Opened(ops, replies) == [t.currFd] + rest;
      } else {
        assert Opened(ops, replies) == rest;
      }
    }
  }

  /** A failed open uses a descriptor up as well. */
  lemma {:induction false} OpenTakesNext(backing: Backing, t: Table, op: Op)
    ensures Next(backing, t, op).0.currFd == t.currFd + if op.CallOpen? then 1 else 0
    ensures op.CallOpen? && Next(backing, t, op).1.result.Ok? ==> Next(backing, t, op).1.result.value == t.currFd
  {
  }

  // ----- Descriptors do not interfere -----

  predicate Targets(op: Op, fd: nat) {
    !op.CallOpen? && op.fd == fd
  }

  /** What other descriptors are used for changes nothing about this one. */
  lemma {:induction false} OthersUntouched(backing: Backing, t: Table, op: Op, fd: nat)
    requires Sound(backing, t) && fd in t.files && !Targets(op, fd)
    ensures fd in Next(backing, t, op).0.files && Next(backing, t, op).0.files[fd] == t.files[fd]
  {
  }

  function Length(op: Op, fd: nat): nat {
    if op.CallRead? && op.fd == fd then op.len else 0
  }

  function Bytes(op: Op, reply: Reply, fd: nat): seq<Byte> {
    if op.CallRead? && op.fd == fd && reply.Data? && reply.bytes.Ok? then reply.bytes.value else []
  }

  /** What the reads of one descriptor in a run deliver, put together. */
  function BytesRead(ops: seq<Op>, replies: seq<Reply>, fd: nat): seq<Byte>
    requires |ops| == |replies|
  {
    if ops == [] then [] else Bytes(ops[0], replies[0], fd) + BytesRead(ops[1..], replies[1..], fd)
  }

  /** How many bytes they ask for. */
  function Requested(ops: seq<Op>, fd: nat): nat {
    if ops == [] then 0 else Length(ops[0], fd) + Requested(ops[1..], fd)
  }

  /** The run does nothing to this descriptor but read it, or ask for its size. */
  predicate OnlyReads(ops: seq<Op>, fd: nat) {
    forall i :: 0 <= i < |ops| ==> !(ops[i].CallSeek? && ops[i].fd == fd)
  }

  /** The chain of the open file, shorter than 2^32 bytes. */
  predicate Opens(backing: Backing, t: Table, fd: nat, data: seq<Byte>) {
    && fd in t.files && t.files[fd].offset < U32_LIMIT
    && backing(t.files[fd].path).Some? && backing(t.files[fd].path).value.data == data && |data| < U32_LIMIT
  }

  /** Two reads in a row are one read of both lengths. */
  lemma {:induction false} SlicesCompose(d: seq<Byte>, offset: nat, a: nat, b: nat)
    ensures Slice(d, offset, a) + Slice(d, offset + |Slice(d, offset, a)|, b) == Slice(d, offset, a + b)
  {
  }

  /** These bytes and this new state are what one read of `len` bytes delivers and leaves behind. */
  predicate IsOneRead(before: File, after: File, bytes: seq<Byte>, data: seq<Byte>, len: nat) {
    bytes == Slice(data, before.offset, len) && after == before.(offset := before.offset + |bytes|)
  }

  lemma {:induction false} ReadsInARow(f0: File, f1: File, f2: File, b1: seq<Byte>, b2: seq<Byte>, data: seq<Byte>, n1: nat, n2: nat)
    requires IsOneRead(f0, f1, b1, data, n1) && IsOneRead(f1, f2, b2, data, n2)
    ensures IsOneRead(f0, f2, b1 + b2, data, n1 + n2)
  {
    SlicesCompose(data, f0.offset, n1, n2);
  }

  lemma {:induction false} ReadOnce(backing: Backing, t: Table, fd: nat, len: nat, data: seq<Byte>)
    requires Opens(backing, t, fd, data)
    ensures Read(backing, t, fd, len).1 == Ok(Slice(data, t.files[fd].offset, len))
    ensures Opens(backing, Read(backing, t, fd, len).0, fd, data)
    ensures IsOneRead(t.files[fd], Read(backing, t, fd, len).0.files[fd], Slice(data, t.files[fd].offset, len), data, len)
  {
    assert t.files[fd].offset + |Slice(data, t.files[fd].offset, len)| < U32_LIMIT;
  }

  /** An operation that does not seek acts on the descriptor like one read, of no bytes perhaps. */
  lemma {:induction false} ActsAsRead(backing: Backing, t: Table, op: Op, fd: nat, data: seq<Byte>)
    requires Sound(backing, t) && Opens(backing, t, fd, data) && !(op.CallSeek? && op.fd == fd)
    ensures Opens(backing, Next(backing, t, op).0, fd, data)
    ensures IsOneRead(t.files[fd], Next(backing, t, op).0.files[fd], Bytes(op, Next(backing, t, op).1, fd), data, Length(op, fd))
  {
    ReadOnce(backing, t, fd, Length(op, fd), data);
    if !Targets(op, fd) {
      OthersUntouched(backing, t, op, fd);
    }
  }

  /** What a run of reads delivers and leaves behind is what one read of their total length does. */
  lemma {:induction false} RunActsAsRead(backing: Backing, t: Table, ops: seq<Op>, fd: nat, data: seq<Byte>)
    requires Sound(backing, t) && Opens(backing, t, fd, data) && OnlyReads(ops, fd)
    ensures fd in After(backing, t, ops).files
    ensures IsOneRead(t.files[fd], After(backing, t, ops).files[fd], BytesRead(ops, Replies(backing, t, ops), fd), data, Requested(ops, fd))
    decreases |ops|
  {
    if ops != [] {
      var t' := Next(backing, t, ops[0]).0;
      NextKeepsSound(backing, t, ops[0]);
      ActsAsRead(backing, t, ops[0], fd, data);
      RunActsAsRead(backing, t', ops[1..], fd, data);
      ReadsInARow(t.files[fd], t'.files[fd], After(backing, t', ops[1..]).files[fd], Bytes(ops[0], Next(backing, t, ops[0]).1, fd),
                  BytesRead(ops[1..], Replies(backing, t', ops[1..]), fd), data, Length(ops[0], fd), Requested(ops[1..], fd));
      BytesUnfold(backing, t, ops, fd);
    }
  }

  lemma {:induction false} BytesUnfold(backing: Backing, t: Table, ops: seq<Op>, fd: nat)
    requires ops != []
    ensures BytesRead(ops, Replies(backing, t, ops), fd) ==
            Bytes(ops[0], Next(backing, t, ops[0]).1, fd)
            + BytesRead(ops[1..], Replies(backing, Next(backing, t, ops[0]).0, ops[1..]), fd)
  {
    var replies := Replies(backing, t, ops);
    assert replies[0] == Next(backing, t, ops[0]).1 && replies[1..] == Replies(backing, Next(backing, t, ops[0]).0, ops[1..]);
  }

  /** Split reads compose.  However a run reads an open file in pieces, and whatever it does with other
      descriptors in between, the pieces put together are one read of the total length, and so is the
      final offset. */
  lemma {:induction false} SplitReadsCompose(backing: Backing, t: Table, ops: seq<Op>, fd: nat, data: seq<Byte>)
    requires Sound(backing, t) && Opens(backing, t, fd, data) && OnlyReads(ops, fd)
    ensures Read(backing, t, fd, Requested(ops, fd)).1 == Ok(BytesRead(ops, Replies(backing, t, ops), fd))
    ensures BytesRead(ops, Replies(backing, t, ops), fd) == Slice(data, t.files[fd].offset, Requested(ops, fd))
    ensures fd in After(backing, t, ops).files
    ensures After(backing, t, ops).files[fd] == Read(backing, t, fd, Requested(ops, fd)).0.files[fd]
  {
    RunActsAsRead(backing, t, ops, fd, data);
    ReadOnce(backing, t, fd, Requested(ops, fd), data);
  }

  // ----- The limit of 2^32 bytes -----

  /** Reading `a` and then `b` bytes is reading `a + b` bytes at once. */
  predicate TwoReadsAreOne(backing: Backing, t: Table, fd: nat, a: nat, b: nat) {
    var first := Read(backing, t, fd, a);
    var second := Read(backing, first.0, fd, b);
    var whole := Read(backing, t, fd, a + b);
    && first.1.Ok? && second.1.Ok? && whole.1.Ok?
    && first.1.value + second.1.value == whole.1.value && second.0 == whole.0
  }

  /** `read_at` cuts offsets to 32 bits, so reads from everywhere below 2^32 compose if and only if the
      chain is shorter than 2^32 bytes: past that a second read starts over at the beginning.  A file of
      the largest size the size field can hold fills such a chain once it is rounded up to clusters. */
  lemma {:induction false} ReadsComposeIff(backing: Backing, t: Table, fd: nat, data: seq<Byte>)
    requires fd in t.files && backing(t.files[fd].path).Some? && backing(t.files[fd].path).value.data == data
    ensures (forall offset: nat, a, b :: offset < U32_LIMIT ==> TwoReadsAreOne(backing, MoveTo(t, fd, offset), fd, a, b))
            <==> |data| < U32_LIMIT
  {
    if |data| < U32_LIMIT {
      forall offset: nat, a, b | offset < U32_LIMIT ensures TwoReadsAreOne(backing, MoveTo(t, fd, offset), fd, a, b) {
        ReadsCompose(backing, MoveTo(t, fd, offset), fd, a, b, data);
      }
    } else {
      StartsOver(backing, MoveTo(t, fd, U32_LIMIT - 1), fd, data);
    }
  }

  lemma {:induction false} ReadsCompose(backing: Backing, t: Table, fd: nat, a: nat, b: nat, data: seq<Byte>)
    requires Opens(backing, t, fd, data)
    ensures TwoReadsAreOne(backing, t, fd, a, b)
  {
    ReadOnce(backing, t, fd, a, data);
    ReadOnce(backing, Read(backing, t, fd, a).0, fd, b, data);
    ReadOnce(backing, t, fd, a + b, data);
    SlicesCompose(data, t.files[fd].offset, a, b);
  }

  lemma {:induction false} StartsOver(backing: Backing, t: Table, fd: nat, data: seq<Byte>)
    requires fd in t.files && backing(t.files[fd].path).Some? && backing(t.files[fd].path).value.data == data
    requires |data| >= U32_LIMIT && t.files[fd].offset == U32_LIMIT - 1
    ensures Read(backing, Read(backing, t, fd, 1).0, fd, |data|).1 == Ok(data)
    ensures !TwoReadsAreOne(backing, t, fd, 1, |data|)
  {
    var first := Read(backing, t, fd, 1);
    assert first.1.value == data[U32_LIMIT - 1..U32_LIMIT];
    assert first.0.files[fd].offset == U32_LIMIT;
    var second, whole := Read(backing, first.0, fd, |data|), Read(backing, t, fd, 1 + |data|);
    assert second.1.value == data;
    assert |whole.1.value| == |data| - (U32_LIMIT - 1);
  }

  // ----- Seeking -----

  /** A read after a seek to `offset` delivers the bytes from there on. */
  lemma {:induction false} SeekThenRead(backing: Backing, t: Table, fd: nat, offset: nat, len: nat)
    requires Sound(backing, t) && fd in t.files && offset < U32_LIMIT
    ensures Read(backing, Seek(t, fd, offset, SEEK_SET).0, fd, len).1 ==
            Ok(Slice(backing(t.files[fd].path).value.data, offset, len))
  {
  }

  /** A read after opening delivers the bytes from the beginning. */
  lemma {:induction false} OpenThenRead(backing: Backing, t: Table, path: string, len: nat)
    requires Sound(backing, t) && backing(path).Some?
    ensures Read(backing, OpenFile(backing, t, path).0, t.currFd, len).1 == Ok(Slice(backing(path).value.data, 0, len))
  {
    assert OpenFile(backing, t, path).0.files[t.currFd].offset == 0;
  }

  /** Relative to the current offset, a seek skips bytes, or goes back over them. */
  lemma {:induction false} SeekOnThenRead(backing: Backing, t: Table, fd: nat, change: int, len: nat)
    requires Sound(backing, t) && fd in t.files && 0 <= t.files[fd].offset + change < U32_LIMIT
    ensures Read(backing, Seek(t, fd, change, SEEK_CUR).0, fd, len).1 ==
            Ok(Slice(backing(t.files[fd].path).value.data, t.files[fd].offset + change, len))
    ensures Seek(t, fd, change, SEEK_CUR).1 == Ok(t.files[fd].offset + change)
  {
  }

  /** Relative to the end, it goes to as many bytes before the size of the file, or behind it. */
  lemma {:induction false} SeekEndThenRead(backing: Backing, t: Table, fd: nat, change: int, len: nat)
    requires Sound(backing, t) && fd in t.files
    requires 0 <= backing(t.files[fd].path).value.size + change < U32_LIMIT
    ensures var stored := backing(t.files[fd].path).value;
            && Seek(t, fd, change, SEEK_END).1 == Ok(stored.size + change)
            && Read(backing, Seek(t, fd, change, SEEK_END).0, fd, len).1 == Ok(Slice(stored.data, stored.size + change, len))
  {
  }

  /** Seeking forth and back again changes nothing, even where an offset wraps. */
  lemma {:induction false} SeekBack(backing: Backing, t: Table, fd: nat, offset: int)
    requires Sound(backing, t) && fd in t.files
    ensures Seek(Seek(t, fd, offset, SEEK_CUR).0, fd, -offset, SEEK_CUR) == (t, Ok(t.files[fd].offset))
  {
    var start := t.files[fd].offset;
    BackAgain(start, offset);
    var there := Seek(t, fd, offset, SEEK_CUR).0;
    assert there.files[fd] == t.files[fd].(offset := (start + offset) % USIZE_LIMIT);
    var back := Seek(there, fd, -offset, SEEK_CUR).0;
    assert back.files[fd] == t.files[fd];
    assert back.files == t.files;
  }

  lemma {:induction false} BackAgain(start: nat, offset: int)
    requires start < USIZE_LIMIT
    ensures ((start + offset) % USIZE_LIMIT - offset) % USIZE_LIMIT == start
  {
    var quotient := (start + offset) / USIZE_LIMIT;
    assert (start + offset) % USIZE_LIMIT - offset == start - USIZE_LIMIT * quotient;
  }
}
