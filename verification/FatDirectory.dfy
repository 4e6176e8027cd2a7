/** Directories of a FAT32 volume (src/fs/fat.rs): 32-byte entries in a flat byte sequence.

    "FAT Directory Structure" of the Microsoft FAT32 File System Specification 1.03 defines the
    entries.  `Files` reads them the way `find_file` does; `FilesBySpecification` reads them as runs of
    long-name entries followed by a short entry, and skips free entries and volume labels. */
module FatDirectory {
  import opened Basics
  import opened FatVolume

  const ENTRY: nat := 32

  type Entry = s: seq<Byte> | |s| == ENTRY witness seq(ENTRY, _ => 0)

  // ----- Entries -----

  predicate IsEnd(e: Entry) {
    e[0] == 0
  }

  predicate IsLong(e: Entry) {
    e[11] == 0x0f
  }

  /** `char::is_whitespace` on the characters a byte can be. */
  predicate IsWhitespace(b: nat) {
    0x09 <= b <= 0x0d || b == 0x20 || b == 0x85 || b == 0xa0
  }

  /** The characters of `n` 16-bit units from `at` on, without padding, terminators and whitespace. */
  function LongChars(e: Entry, at: nat, n: nat): string
    requires at + 2 * n <= ENTRY
  {
    if n == 0 then ""
    else
      var unit := Le16(e, at + 2 * (n - 1));
      LongChars(e, at, n - 1)
      + if unit == 0xffff || unit == 0 || IsWhitespace(unit % 256) then "" else [(unit % 256) as char]
  }

  /** `lfn_to_string`: the name units at bytes 1, 14 and 28. */
  function LongName(e: Entry): string {
    LongChars(e, 1, 5) + LongChars(e, 14, 6) + LongChars(e, 28, 2)
  }

  function ShortChars(e: Entry, at: nat, n: nat): string
    requires at + n <= ENTRY
  {
    if n == 0 then ""
    else
      var b: nat := e[at + n - 1];
      ShortChars(e, at, n - 1) + if IsWhitespace(b) then "" else [b as char]
  }

  /** `dir_entry_name`: base name, and an extension if there is one. */
  function ShortName(e: Entry): string {
    var base, extension := ShortChars(e, 0, 8), ShortChars(e, 8, 3);
    if extension == "" then base else base + "." + extension
  }

  function FirstCluster(e: Entry): nat {
    Le16(e, 20) * 0x1_0000 + Le16(e, 26)
  }

  function Size(e: Entry): nat {
    Le32(e, 28)
  }

  // ----- Directories -----

  /** How many whole entries a directory holds. */
  function EntryCount(d: seq<Byte>): nat {
    |d| / ENTRY
  }

  function EntryAt(d: seq<Byte>, k: nat): Entry
    requires k < EntryCount(d)
  {
    d[ENTRY * k..ENTRY * k + ENTRY]
  }

  datatype File = File(long: Option<string>, entry: Entry)

  /** The files from entry `k` on, as `find_file` takes them: a long-name entry names the entry that
      follows it, whatever that is; the end mark is looked for at the head of each pair only. */
  function Files(d: seq<Byte>, k: nat): seq<File>
    decreases EntryCount(d) - k
  {
    if k >= EntryCount(d) || IsEnd(EntryAt(d, k)) then []
    else if !IsLong(EntryAt(d, k)) then [File(None, EntryAt(d, k))] + Files(d, k + 1)
    else if k + 1 >= EntryCount(d) then []
    else [File(Some(LongName(EntryAt(d, k))), EntryAt(d, k + 1))] + Files(d, k + 2)
  }

  lemma {:induction false} FilesShort(d: seq<Byte>, k: nat)
    requires k < EntryCount(d) && !IsEnd(EntryAt(d, k)) && !IsLong(EntryAt(d, k))
    ensures Files(d, k) == [File(None, EntryAt(d, k))] + Files(d, k + 1)
  {
  }

  lemma {:induction false} FilesLong(d: seq<Byte>, k: nat)
    requires k + 1 < EntryCount(d) && !IsEnd(EntryAt(d, k)) && IsLong(EntryAt(d, k))
    ensures Files(d, k) == [File(Some(LongName(EntryAt(d, k))), EntryAt(d, k + 1))] + Files(d, k + 2)
  {
  }

  /** The long name is the name asked for, or the short name is its upper-cased form. */
  predicate Matches(f: File, name: string, upper: string) {
    f.long == Some(name) || ShortName(f.entry) == upper
  }

  /** The first file that matches. */
  function FirstMatch(files: seq<File>, name: string, upper: string): Option<Entry> {
    if files == [] then None
    else if Matches(files[0], name, upper) then Some(files[0].entry)
    else FirstMatch(files[1..], name, upper)
  }

  /** File `i` is the first one that matches. */
  predicate IsFirst(files: seq<File>, name: string, upper: string, i: nat) {
    i < |files| && Matches(files[i], name, upper) && forall j :: 0 <= j < i ==> !Matches(files[j], name, upper)
  }

  lemma {:induction false} FirstMatchIsFirst(files: seq<File>, name: string, upper: string)
    ensures FirstMatch(files, name, upper) == None <==> forall i :: 0 <= i < |files| ==> !Matches(files[i], name, upper)
    ensures forall i: nat :: IsFirst(files, name, upper, i) ==> FirstMatch(files, name, upper) == Some(files[i].entry)
  {
    if files != [] {
      FirstMatchIsFirst(files[1..], name, upper);
      assert forall i :: 0 < i < |files| ==> files[i] == files[1..][i - 1];
      forall i: nat | IsFirst(files, name, upper, i) && i > 0
        ensures FirstMatch(files, name, upper) == Some(files[i].entry)
      {
        assert !Matches(files[0], name, upper);
        assert IsFirst(files[1..], name, upper, i - 1);
      }
    }
  }

  function Search(d: seq<Byte>, k: nat, name: string, upper: string): Option<Entry> {
    FirstMatch(Files(d, k), name, upper)
  }

  predicate Answers(d: seq<Byte>, k: nat, answer: Option<Entry>, name: string, upper: string) {
    Search(d, k, name, upper) == answer
  }

  /** Past the last entry, or at an end mark, nothing is found; nor for a long-name entry that comes last. */
  lemma {:induction false} SearchEnds(d: seq<Byte>, k: nat, name: string, upper: string)
    requires k < EntryCount(d) && !IsEnd(EntryAt(d, k)) ==> IsLong(EntryAt(d, k)) && k + 1 == EntryCount(d)
    ensures Answers(d, k, None, name, upper)
  {
    assert Files(d, k) == [];
  }

  /** Searching from `b` answers what searching from `a` does. */
  ghost predicate SameAnswer(d: seq<Byte>, a: nat, b: nat, name: string, upper: string) {
    forall answer {:trigger Answers(d, b, answer, name, upper)} ::
      Answers(d, b, answer, name, upper) ==> Answers(d, a, answer, name, upper)
  }

  /** The search from `k` on goes on after entry `at`. */
  ghost predicate GoesOn(d: seq<Byte>, k: nat, at: nat, name: string, upper: string) {
    exists next :: next == at + 1 && SameAnswer(d, k, next, name, upper)
  }

  lemma {:induction false} GoesOnFrom(d: seq<Byte>, a: nat, b: nat, at: nat, name: string, upper: string)
    requires SameAnswer(d, a, b, name, upper) && GoesOn(d, b, at, name, upper)
    ensures SameAnswer(d, a, at + 1, name, upper)
  {
    assert SameAnswer(d, b, at + 1, name, upper);
  }

  /** Otherwise the next file is the answer if it matches, and the search goes on after it if not. */
  lemma {:induction false} SearchShort(d: seq<Byte>, k: nat, entry: Entry, matches: bool, name: string, upper: string)
    requires k < EntryCount(d) && entry == EntryAt(d, k) && !IsEnd(entry) && !IsLong(entry)
    requires matches == (ShortName(entry) == upper)
    ensures matches ==> Answers(d, k, Some(entry), name, upper)
    ensures !matches ==> GoesOn(d, k, k, name, upper)
  {
    var files := Files(d, k);
    assert files[0] == File(None, entry) && files[1..] == Files(d, k + 1);
    assert !matches ==> SameAnswer(d, k, k + 1, name, upper);
  }

  lemma {:induction false} SearchLong(d: seq<Byte>, k: nat, entry: Entry, found: bool, matches: bool, name: string, upper: string)
    requires k + 1 < EntryCount(d) && entry == EntryAt(d, k + 1) && !IsEnd(EntryAt(d, k)) && IsLong(EntryAt(d, k))
    requires found == (LongName(EntryAt(d, k)) == name) && matches == (found || ShortName(entry) == upper)
    ensures matches ==> Answers(d, k, Some(entry), name, upper)
    ensures !matches ==> GoesOn(d, k, k + 1, name, upper)
  {
    var files := Files(d, k);
    assert files[0] == File(Some(LongName(EntryAt(d, k))), entry) && files[1..] == Files(d, k + 2);
    assert !matches ==> SameAnswer(d, k, k + 2, name, upper);
  }

  // ----- Reading directories as the specification has them -----

  /** What an entry before the end mark is: free, part of a long name, something that is no file or
      directory (a volume label), or the short entry of one. */
  datatype Kind = Free | LongPart | Label | Short

  function KindOf(e: Entry): Kind {
    var attr: nat := e[11];
    if e[0] == 0xe5 then Free
    else if attr % 0x40 == 0x0f then LongPart
    else if attr / 8 % 2 == 1 then Label
    else Short
  }

  /** The name spelled by a run of long-name entries: the last entry of the run comes first. */
  function SpelledName(run: seq<Entry>): string {
    if run == [] then "" else SpelledName(run[1..]) + LongName(run[0])
  }

  /** The files from entry `k` on, when `run` is the run of long-name entries just before it.  Free
      entries and labels are no files, and a run that they interrupt names nothing. */
  function FilesBySpecification(d: seq<Byte>, k: nat, run: seq<Entry>): seq<File>
    decreases EntryCount(d) - k
  {
    if k >= EntryCount(d) || IsEnd(EntryAt(d, k)) then []
    else
      match KindOf(EntryAt(d, k))
      case LongPart => FilesBySpecification(d, k + 1, run + [EntryAt(d, k)])
      case Short =>
        [File(if run == [] then None else Some(SpelledName(run)), EntryAt(d, k))] + FilesBySpecification(d, k + 1, [])
      case _ => FilesBySpecification(d, k + 1, [])
  }

  /** The long-name entry at `k` is live, and so is the short entry behind it. */
  predicate PairIsFile(d: seq<Byte>, k: nat)
    requires k + 1 < EntryCount(d)
  {
    KindOf(EntryAt(d, k)) == LongPart && !IsEnd(EntryAt(d, k + 1)) && KindOf(EntryAt(d, k + 1)) == Short
  }

  /** Every entry before the end mark is the short entry of a file, or the only long-name entry of one;
      a long-name entry may come last. */
  predicate Plain(d: seq<Byte>, k: nat)
    decreases EntryCount(d) - k
  {
    k < EntryCount(d) && !IsEnd(EntryAt(d, k)) ==>
      if !IsLong(EntryAt(d, k)) then KindOf(EntryAt(d, k)) == Short && Plain(d, k + 1)
      else k + 1 < EntryCount(d) ==> PairIsFile(d, k) && Plain(d, k + 2)
  }

  /** The specification's files are live short entries. */
  lemma {:induction false} SpecifiedFilesAreShort(d: seq<Byte>, k: nat, run: seq<Entry>)
    ensures forall f :: f in FilesBySpecification(d, k, run) ==> KindOf(f.entry) == Short && !IsEnd(f.entry)
    decreases EntryCount(d) - k
  {
    if k < EntryCount(d) && !IsEnd(EntryAt(d, k)) {
      SpecifiedFilesAreShort(d, k + 1, if KindOf(EntryAt(d, k)) == LongPart then run + [EntryAt(d, k)] else []);
    }
  }

  /** The files that `find_file` sees are those of the directory if and only if the directory is plain:
      no entry is free, none is a label, and no file has two long-name entries. */
  lemma {:induction false} PairsAreFilesIff(d: seq<Byte>, k: nat)
    ensures Files(d, k) == FilesBySpecification(d, k, []) <==> Plain(d, k)
    decreases EntryCount(d) - k
  {
    if k < EntryCount(d) && !IsEnd(EntryAt(d, k)) {
      if !IsLong(EntryAt(d, k)) {
        AloneIff(d, k);
      } else if k + 1 < EntryCount(d) {
        LongPairIff(d, k);
      } else {
        assert FilesBySpecification(d, k, []) == [];
      }
    }
  }

  /** The case of an entry that `find_file` takes alone. */
  lemma {:induction false} AloneIff(d: seq<Byte>, k: nat)
    requires k < EntryCount(d) && !IsEnd(EntryAt(d, k)) && !IsLong(EntryAt(d, k))
    ensures Files(d, k) == FilesBySpecification(d, k, []) <==> KindOf(EntryAt(d, k)) == Short && Plain(d, k + 1)
    decreases EntryCount(d) - k, 0
  {
    FilesShort(d, k);
    if KindOf(EntryAt(d, k)) == Short {
      SameTail(File(None, EntryAt(d, k)), Files(d, k + 1), FilesBySpecification(d, k + 1, []));
      PairsAreFilesIff(d, k + 1);
    } else {
      NoSuchFile(d, k, Files(d, k));
    }
  }

  /** The case of a long-name entry with something after it. */
  lemma {:induction false} LongPairIff(d: seq<Byte>, k: nat)
    requires k + 1 < EntryCount(d) && !IsEnd(EntryAt(d, k)) && IsLong(EntryAt(d, k))
    ensures Files(d, k) == FilesBySpecification(d, k, []) <==> PairIsFile(d, k) && Plain(d, k + 2)
    decreases EntryCount(d) - k, 0
  {
    if PairIsFile(d, k) {
      PairAndRest(d, k);
      PairsAreFilesIff(d, k + 2);
    } else {
      PairDiffers(d, k);
    }
  }

  lemma {:induction false} PairAndRest(d: seq<Byte>, k: nat)
    requires k + 1 < EntryCount(d) && !IsEnd(EntryAt(d, k)) && IsLong(EntryAt(d, k)) && PairIsFile(d, k)
    ensures Files(d, k) == FilesBySpecification(d, k, []) <==> Files(d, k + 2) == FilesBySpecification(d, k + 2, [])
  {
    FilesLong(d, k);
    SpecifiedPair(d, k);
    SameTail(File(Some(LongName(EntryAt(d, k))), EntryAt(d, k + 1)), Files(d, k + 2), FilesBySpecification(d, k + 2, []));
  }

  lemma {:induction false} PairDiffers(d: seq<Byte>, k: nat)
    requires k + 1 < EntryCount(d) && !IsEnd(EntryAt(d, k)) && IsLong(EntryAt(d, k)) && !PairIsFile(d, k)
    ensures Files(d, k) != FilesBySpecification(d, k, [])
  {
    LongIsPartOrFree(EntryAt(d, k));
    if IsEnd(EntryAt(d, k + 1)) || KindOf(EntryAt(d, k + 1)) != Short {
      NextIsNoFile(d, k);
    } else {
      FreeDiffers(d, k);
    }
  }

  lemma {:induction false} LongIsPartOrFree(e: Entry)
    requires IsLong(e)
    ensures KindOf(e) == LongPart || KindOf(e) == Free
  {
  }

  lemma {:induction false} NextIsNoFile(d: seq<Byte>, k: nat)
    requires k + 1 < EntryCount(d) && !IsEnd(EntryAt(d, k)) && IsLong(EntryAt(d, k))
    requires IsEnd(EntryAt(d, k + 1)) || KindOf(EntryAt(d, k + 1)) != Short
    ensures Files(d, k) != FilesBySpecification(d, k, [])
  {
    FilesLong(d, k);
    NoSuchFile(d, k, Files(d, k));
  }

  lemma {:induction false} FreeDiffers(d: seq<Byte>, k: nat)
    requires k + 1 < EntryCount(d) && !IsEnd(EntryAt(d, k)) && IsLong(EntryAt(d, k)) && KindOf(EntryAt(d, k)) == Free
    requires !IsEnd(EntryAt(d, k + 1)) && KindOf(EntryAt(d, k + 1)) == Short
    ensures Files(d, k) != FilesBySpecification(d, k, [])
  {
    FilesLong(d, k);
    FreeInFront(d, k);
    HeadsDiffer(Files(d, k), FilesBySpecification(d, k, []));
  }

  lemma {:induction false} HeadsDiffer(a: seq<File>, b: seq<File>)
    requires a != [] && b != [] && a[0].long.Some? && b[0].long.None?
    ensures a != b
  {
  }

  lemma {:induction false} FreeInFront(d: seq<Byte>, k: nat)
    requires k + 1 < EntryCount(d) && !IsEnd(EntryAt(d, k)) && !IsEnd(EntryAt(d, k + 1))
    requires KindOf(EntryAt(d, k)) == Free && KindOf(EntryAt(d, k + 1)) == Short
    ensures FilesBySpecification(d, k, []) != [] && FilesBySpecification(d, k, [])[0] == File(None, EntryAt(d, k + 1))
  {
    assert FilesBySpecification(d, k, []) == FilesBySpecification(d, k + 1, []);
  }

  /** A list that begins with an entry that is no live short one is not the specification's. */
  lemma {:induction false} NoSuchFile(d: seq<Byte>, k: nat, files: seq<File>)
    requires files != [] && (IsEnd(files[0].entry) || KindOf(files[0].entry) != Short)
    ensures files != FilesBySpecification(d, k, [])
  {
    SpecifiedFilesAreShort(d, k, []);
    assert files[0] in files;
  }

  lemma {:induction false} SameTail(file: File, a: seq<File>, b: seq<File>)
    ensures [file] + a == [file] + b <==> a == b
  {
    assert ([file] + a)[1..] == a && ([file] + b)[1..] == b;
  }

  lemma {:induction false} SpecifiedPair(d: seq<Byte>, k: nat)
    requires k + 1 < EntryCount(d) && !IsEnd(EntryAt(d, k)) && !IsEnd(EntryAt(d, k + 1))
    requires KindOf(EntryAt(d, k)) == LongPart && KindOf(EntryAt(d, k + 1)) == Short
    ensures FilesBySpecification(d, k, []) ==
            [File(Some(LongName(EntryAt(d, k))), EntryAt(d, k + 1))] + FilesBySpecification(d, k + 2, [])
  {
    var run: seq<Entry> := [] + [EntryAt(d, k)];
    assert run[1..] == [];
    assert SpelledName(run) == LongName(EntryAt(d, k));
    assert FilesBySpecification(d, k, []) == FilesBySpecification(d, k + 1, run);
  }

  /** So in a plain directory the search finds the first file with the name asked for. */
  lemma {:induction false} SearchFindsFirstFile(d: seq<Byte>, name: string, upper: string)
    requires Plain(d, 0)
    ensures Search(d, 0, name, upper) == FirstMatch(FilesBySpecification(d, 0, []), name, upper)
  {
    PairsAreFilesIff(d, 0);
  }

  // ----- A deleted file -----

  /** A long-name entry and a short entry with these first bytes. */
  ghost predicate PairAt(d: seq<Byte>, k: nat, name: string, kind: Kind) {
    && k + 1 < EntryCount(d) && !IsEnd(EntryAt(d, k)) && !IsEnd(EntryAt(d, k + 1))
    && IsLong(EntryAt(d, k)) && !IsLong(EntryAt(d, k + 1)) && LongName(EntryAt(d, k)) == name
    && if kind == Free then KindOf(EntryAt(d, k)) == Free && KindOf(EntryAt(d, k + 1)) == Free
       else KindOf(EntryAt(d, k)) == LongPart && KindOf(EntryAt(d, k + 1)) == Short
  }

  /** Where a deleted pair comes before a live one of the same name, `find_file` finds the deleted one. */
  lemma {:induction false} DeletedPairFound(d: seq<Byte>, k: nat, name: string, upper: string)
    requires PairAt(d, k, name, Free) && PairAt(d, k + 2, name, Short)
    ensures Search(d, k, name, upper) == Some(EntryAt(d, k + 1)) && KindOf(EntryAt(d, k + 1)) == Free
    ensures FirstMatch(FilesBySpecification(d, k, []), name, upper) == Some(EntryAt(d, k + 3))
  {
    FilesLong(d, k);
    assert FilesBySpecification(d, k, []) == FilesBySpecification(d, k + 1, []) == FilesBySpecification(d, k + 2, []);
    SpecifiedPair(d, k + 2);
  }

  // ----- A name of two entries -----

  /** Two long-name entries and the short entry that they name. */
  ghost predicate TwoPartsAt(d: seq<Byte>, k: nat) {
    && k + 2 < EntryCount(d) && (forall i :: k <= i <= k + 2 ==> !IsEnd(EntryAt(d, i)))
    && IsLong(EntryAt(d, k)) && IsLong(EntryAt(d, k + 1))
    && KindOf(EntryAt(d, k)) == LongPart && KindOf(EntryAt(d, k + 1)) == LongPart && KindOf(EntryAt(d, k + 2)) == Short
  }

  function TwoPartName(d: seq<Byte>, k: nat): string
    requires k + 1 < EntryCount(d)
  {
    LongName(EntryAt(d, k + 1)) + LongName(EntryAt(d, k))
  }

  /** The second long-name entry is taken for a short entry with the first one's name, and the file
      itself loses its long name... */
  lemma {:induction false} TwoLongEntries(d: seq<Byte>, k: nat)
    requires TwoPartsAt(d, k)
    ensures Files(d, k) ==
            [File(Some(LongName(EntryAt(d, k))), EntryAt(d, k + 1)), File(None, EntryAt(d, k + 2))] + Files(d, k + 3)
  {
    FilesLong(d, k);
    FilesShort(d, k + 2);
    TwoInFront(File(Some(LongName(EntryAt(d, k))), EntryAt(d, k + 1)), File(None, EntryAt(d, k + 2)), Files(d, k + 3));
  }

  lemma {:induction false} TwoInFront(a: File, b: File, files: seq<File>)
    ensures [a] + ([b] + files) == [a, b] + files
  {
  }

  /** ...where the specification has one file with both names put together. */
  lemma {:induction false} TwoLongEntriesSpecified(d: seq<Byte>, k: nat)
    requires TwoPartsAt(d, k)
    ensures FilesBySpecification(d, k, []) ==
            [File(Some(TwoPartName(d, k)), EntryAt(d, k + 2))] + FilesBySpecification(d, k + 3, [])
  {
    var e0, e1 := EntryAt(d, k), EntryAt(d, k + 1);
    var run: seq<Entry> := [] + [e0] + [e1];
    SpelledPair(e0, e1);
    assert FilesBySpecification(d, k, []) == FilesBySpecification(d, k + 1, [] + [e0]);
    assert FilesBySpecification(d, k + 1, [] + [e0]) == FilesBySpecification(d, k + 2, run);
  }

  lemma {:induction false} SpelledPair(e0: Entry, e1: Entry)
    ensures SpelledName([] + [e0] + [e1]) == LongName(e1) + LongName(e0)
  {
    var run: seq<Entry> := [] + [e0] + [e1];
    assert run[1..] == [e1] && run[1..][1..] == [];
    assert SpelledName(run[1..]) == LongName(e1);
  }

  /** So a search for a name that needs two entries passes the file over, unless its short name, or what
      the second entry gives as one, happens to match. */
  lemma {:induction false} TwoPartNameMissed(d: seq<Byte>, k: nat, upper: string)
    requires TwoPartsAt(d, k) && LongName(EntryAt(d, k + 1)) != ""
    requires ShortName(EntryAt(d, k + 1)) != upper && ShortName(EntryAt(d, k + 2)) != upper
    ensures Search(d, k, TwoPartName(d, k), upper) == Search(d, k + 3, TwoPartName(d, k), upper)
    ensures FirstMatch(FilesBySpecification(d, k, []), TwoPartName(d, k), upper) == Some(EntryAt(d, k + 2))
  {
    TwoLongEntries(d, k);
    TwoLongEntriesSpecified(d, k);
    var a, b := File(Some(LongName(EntryAt(d, k))), EntryAt(d, k + 1)), File(None, EntryAt(d, k + 2));
    assert |TwoPartName(d, k)| > |LongName(EntryAt(d, k))|;
    BothPassed(a, b, Files(d, k + 3), TwoPartName(d, k), upper);
  }

  lemma {:induction false} BothPassed(a: File, b: File, files: seq<File>, name: string, upper: string)
    requires !Matches(a, name, upper) && !Matches(b, name, upper)
    ensures FirstMatch([a, b] + files, name, upper) == FirstMatch(files, name, upper)
  {
    assert ([a, b] + files)[1..] == [b] + files && ([b] + files)[1..] == files;
  }

  // ----- What a long-name entry stores -----

  /** The 16-bit units of `n` positions from `at` on. */
  function Units(e: Entry, at: nat, n: nat): seq<nat>
    requires at + 2 * n <= ENTRY
  {
    if n == 0 then [] else Units(e, at, n - 1) + [Le16(e, at + 2 * (n - 1))]
  }

  function AllUnits(e: Entry): seq<nat> {
    Units(e, 1, 5) + Units(e, 14, 6) + Units(e, 28, 2)
  }

  /** The name: everything before the terminator, if there is one. */
  function StoredName(units: seq<nat>): seq<nat> {
    if units == [] || units[0] == 0 then [] else [units[0]] + StoredName(units[1..])
  }

  /** After the terminator there is nothing but padding. */
  predicate Padded(units: seq<nat>) {
    units != [] ==> if units[0] == 0 then forall i :: 0 < i < |units| ==> units[i] == 0xffff else Padded(units[1..])
  }

  predicate Dropped(unit: nat) {
    unit == 0xffff || unit == 0 || IsWhitespace(unit % 256)
  }

  /** What `lfn_to_string` makes of the units. */
  function ReadName(units: seq<nat>): seq<nat> {
    if units == [] then []
    else (if Dropped(units[0]) then [] else [units[0] % 256]) + ReadName(units[1..])
  }

  function Codes(s: string): seq<nat> {
    seq(|s|, i requires 0 <= i < |s| => s[i] as nat)
  }

  lemma {:induction false} ReadNameConcat(a: seq<nat>, b: seq<nat>)
    ensures ReadName(a + b) == ReadName(a) + ReadName(b)
  {
    if a == [] {
      assert a + b == b;
    } else {
      assert (a + b)[1..] == a[1..] + b;
      ReadNameConcat(a[1..], b);
    }
  }

  lemma {:induction false} LongCharsRead(e: Entry, at: nat, n: nat)
    requires at + 2 * n <= ENTRY
    ensures Codes(LongChars(e, at, n)) == ReadName(Units(e, at, n))
  {
    if n > 0 {
      var unit := Le16(e, at + 2 * (n - 1));
      LongCharsRead(e, at, n - 1);
      ReadNameConcat(Units(e, at, n - 1), [unit]);
      assert ReadName([unit]) == if Dropped(unit) then [] else [unit % 256];
    }
  }

  lemma {:induction false} LongNameRead(e: Entry)
    ensures Codes(LongName(e)) == ReadName(AllUnits(e))
  {
    LongCharsRead(e, 1, 5);
    LongCharsRead(e, 14, 6);
    LongCharsRead(e, 28, 2);
    PiecesRead(LongChars(e, 1, 5), LongChars(e, 14, 6), LongChars(e, 28, 2), Units(e, 1, 5), Units(e, 14, 6), Units(e, 28, 2));
  }

  lemma {:induction false} PiecesRead(s: string, t: string, u: string, a: seq<nat>, b: seq<nat>, c: seq<nat>)
    requires Codes(s) == ReadName(a) && Codes(t) == ReadName(b) && Codes(u) == ReadName(c)
    ensures Codes(s + t + u) == ReadName(a + b + c)
  {
    ReadNameConcat(a + b, c);
    ReadNameConcat(a, b);
    assert Codes(s + t + u) == Codes(s) + Codes(t) + Codes(u);
  }

  lemma {:induction false} PaddingDropped(units: seq<nat>)
    requires Padded(units)
    ensures ReadName(units) == ReadName(StoredName(units)) && forall i :: 0 <= i < |StoredName(units)| ==> StoredName(units)[i] != 0
  {
    if units != [] {
      if units[0] == 0 {
        AllDropped(units);
      } else {
        PaddingDropped(units[1..]);
        assert StoredName(units)[1..] == StoredName(units[1..]);
      }
    }
  }

  lemma {:induction false} AllDropped(units: seq<nat>)
    requires forall i :: 0 <= i < |units| ==> Dropped(units[i])
    ensures ReadName(units) == []
  {
    if units != [] {
      AllDropped(units[1..]);
    }
  }

  lemma {:induction false} ReadAsStoredIff(units: seq<nat>)
    ensures |ReadName(units)| <= |units|
    ensures ReadName(units) == units <==> forall i :: 0 <= i < |units| ==> units[i] < 256 && !Dropped(units[i])
  {
    if units != [] {
      var u, rest := units[0], units[1..];
      ReadAsStoredIff(rest);
      assert units == [u] + rest;
      assert forall i :: 0 <= i < |rest| ==> rest[i] == units[i + 1];
      if !Dropped(u) {
        assert ReadName(units)[0] == u % 256 && ReadName(units)[1..] == ReadName(rest);
      }
    }
  }

  lemma {:induction false} ReadIffStored(units: seq<nat>)
    requires Padded(units)
    ensures ReadName(units) == StoredName(units) <==> ReadsAsStored(StoredName(units))
  {
    PaddingDropped(units);
    ReadAsStoredIff(StoredName(units));
  }

  /** All characters are below 256, and none is whitespace. */
  predicate ReadsAsStored(name: seq<nat>) {
    forall i :: 0 <= i < |name| ==> name[i] < 256 && !IsWhitespace(name[i])
  }

  /** `lfn_to_string` gives the name that a padded entry stores if and only if all its characters are
      below 256 and none is whitespace. */
  lemma {:induction false} LongNameIff(e: Entry)
    requires Padded(AllUnits(e))
    ensures Codes(LongName(e)) == StoredName(AllUnits(e)) <==> ReadsAsStored(StoredName(AllUnits(e)))
  {
    LongNameRead(e);
    ReadIffStored(AllUnits(e));
  }
}
