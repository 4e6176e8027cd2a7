/** What the directory code of src/fs/fat.rs reads, byte by byte. */
module FatBytes {
  import opened Basics
  import opened FatVolume
  import opened FatDirectory

  // ----- Fields -----

  /** The bytes that a name leaves out. */
  lemma {:induction false} WhitespaceBytes(b: Byte)
    ensures IsWhitespace(b) <==> b in {0x09, 0x0a, 0x0b, 0x0c, 0x0d, 0x20, 0x85, 0xa0}
  {
  }

  /** The first cluster is stored in two halves, the size in one piece, both low byte first. */
  lemma {:induction false} EntryFields(e: Entry)
    ensures FirstCluster(e) == ByteOf(e, 26) + 0x100 * ByteOf(e, 27) + 0x1_0000 * ByteOf(e, 20) + 0x100_0000 * ByteOf(e, 21)
    ensures Size(e) == ByteOf(e, 28) + 0x100 * ByteOf(e, 29) + 0x1_0000 * ByteOf(e, 30) + 0x100_0000 * ByteOf(e, 31)
  {
  }

  function ByteOf(e: Entry, i: nat): nat
    requires i < 32
  {
    var b: nat := e[i];
    b
  }

  // ----- Short names -----

  /** The first `n` bytes as characters. */
  function Text(s: seq<Byte>, n: nat): string
    requires n <= |s|
  {
    seq(n, i requires 0 <= i < n => s[i] as char)
  }

  /** A field of the entry: `n` characters, none of them whitespace, and blanks behind them. */
  predicate Field(s: seq<Byte>, n: nat) {
    && n <= |s|
    && (forall i :: 0 <= i < n ==> s[i] !in {0x09, 0x0a, 0x0b, 0x0c, 0x0d, 0x20, 0x85, 0xa0})
    && (forall i :: n <= i < |s| ==> s[i] == 0x20)
  }

  /** A name field of eight bytes and an extension of three. */
  predicate NameFields(e: Entry, n: nat, m: nat) {
    Field(e[0..8], n) && Field(e[8..11], m)
  }

  function WrittenName(e: Entry, n: nat, m: nat): string
    requires n <= 8 && m <= 3
  {
    if m == 0 then Text(e[0..8], n) else Text(e[0..8], n) + "." + Text(e[8..11], m)
  }

  lemma {:induction false} FieldRead(e: Entry, at: nat, width: nat, n: nat, k: nat)
    requires at + width <= ENTRY && Field(e[at..at + width], n) && k <= width
    ensures ShortChars(e, at, k) == Text(e[at..at + width], Min(k, n))
  {
    if k > 0 {
      var s := e[at..at + width];
      FieldRead(e, at, width, n, k - 1);
      WhitespaceBytes(s[k - 1]);
      assert s[k - 1] == e[at + k - 1];
      if k <= n {
        assert Text(s, k) == Text(s, k - 1) + [s[k - 1] as char];
      }
    }
  }

  /** `dir_entry_name` reads the name, and a dot and the extension exactly if there is one. */
  lemma {:induction false} ShortNameRead(e: Entry, n: nat, m: nat)
    requires NameFields(e, n, m)
    ensures ShortName(e) == WrittenName(e, n, m)
  {
    FieldRead(e, 0, 8, n, 8);
    FieldRead(e, 8, 3, m, 3);
  }

  // ----- Finding a file by its short name -----

  /** In a plain directory the search answers the first file whose written name is the one asked for. */
  lemma {:induction false} ShortNameFound(d: seq<Byte>, i: nat, n: nat, m: nat, name: string, upper: string)
    requires Plain(d, 0) && i < |FilesBySpecification(d, 0, [])|
    requires NameFields(FilesBySpecification(d, 0, [])[i].entry, n, m)
    requires WrittenName(FilesBySpecification(d, 0, [])[i].entry, n, m) == upper
    requires forall j :: 0 <= j < i ==> !Matches(FilesBySpecification(d, 0, [])[j], name, upper)
    ensures Search(d, 0, name, upper) == Some(FilesBySpecification(d, 0, [])[i].entry)
  {
    var files := FilesBySpecification(d, 0, []);
    ShortNameRead(files[i].entry, n, m);
    SearchFindsFirstFile(d, name, upper);
    FirstMatchIsFirst(files, name, upper);
    assert IsFirst(files, name, upper, i);
  }

  /** Entry `k`, in bytes: live as far as its first byte goes, no long-name entry, with these name fields. */
  predicate ShortEntryAt(d: seq<Byte>, k: nat, n: nat, m: nat) {
    && 32 * k + 32 <= |d| && d[32 * k] != 0 && d[32 * k + 11] != 0x0f
    && NameFields(d[32 * k..32 * k + 32], n, m)
  }

  lemma {:induction false} EntryBytes(d: seq<Byte>, k: nat)
    ensures k < EntryCount(d) <==> 32 * k + 32 <= |d|
    ensures k < EntryCount(d) ==> EntryAt(d, k) == d[32 * k..32 * k + 32]
    ensures k < EntryCount(d) ==> (IsEnd(EntryAt(d, k)) <==> d[32 * k] == 0) && (IsLong(EntryAt(d, k)) <==> d[32 * k + 11] == 0x0f)
  {
  }

  /** Before entry `k` there are short entries only, with these lengths of name fields, and none of them
      has the name asked for. */
  predicate NoneBefore(d: seq<Byte>, k: nat, ns: seq<nat>, ms: seq<nat>, upper: string) {
    k <= |ns| && k <= |ms| && forall j :: 0 <= j < k ==> NotNamed(d, j, ns[j], ms[j], upper)
  }

  predicate NotNamed(d: seq<Byte>, k: nat, n: nat, m: nat, upper: string) {
    ShortEntryAt(d, k, n, m) && WrittenName(d[32 * k..32 * k + 32], n, m) != upper
  }

  lemma {:induction false} SearchReaches(d: seq<Byte>, k: nat, ns: seq<nat>, ms: seq<nat>, name: string, upper: string)
    requires NoneBefore(d, k, ns, ms, upper)
    ensures SameAnswer(d, 0, k, name, upper)
  {
    if k > 0 {
      NoneBeforeLess(d, k, ns, ms, upper);
      SearchReaches(d, k - 1, ns, ms, name, upper);
      SearchPasses(d, k, ns, ms, name, upper);
      GoesOnFrom(d, 0, k - 1, k - 1, name, upper);
      assert SameAnswer(d, 0, k, name, upper);
    }
  }

  lemma {:induction false} NoneBeforeLess(d: seq<Byte>, k: nat, ns: seq<nat>, ms: seq<nat>, upper: string)
    requires k > 0 && NoneBefore(d, k, ns, ms, upper)
    ensures NoneBefore(d, k - 1, ns, ms, upper)
  {
  }

  lemma {:induction false} SearchPasses(d: seq<Byte>, k: nat, ns: seq<nat>, ms: seq<nat>, name: string, upper: string)
    requires k > 0 && NoneBefore(d, k, ns, ms, upper)
    ensures GoesOn(d, k - 1, k - 1, name, upper)
  {
    assert NotNamed(d, k - 1, ns[k - 1], ms[k - 1], upper);
    EntryBytes(d, k - 1);
    ShortNameRead(EntryAt(d, k - 1), ns[k - 1], ms[k - 1]);
    PassesShort(d, k - 1, name, upper);
    assert SameAnswer(d, k - 1, k, name, upper);
  }

  lemma {:induction false} PassesShort(d: seq<Byte>, k: nat, name: string, upper: string)
    requires k < EntryCount(d) && !IsEnd(EntryAt(d, k)) && !IsLong(EntryAt(d, k))
    ensures Search(d, k, name, upper) ==
            if ShortName(EntryAt(d, k)) == upper then Some(EntryAt(d, k)) else Search(d, k + 1, name, upper)
  {
    FilesShort(d, k);
    assert Files(d, k)[0] == File(None, EntryAt(d, k)) && Files(d, k)[1..] == Files(d, k + 1);
  }

  /** In a directory of short entries the first one with the name asked for is the answer... */
  lemma {:induction false} FirstShortFound(d: seq<Byte>, k: nat, ns: seq<nat>, ms: seq<nat>, name: string, upper: string)
    requires k < |ns| && k < |ms| && NoneBefore(d, k, ns, ms, upper)
    requires ShortEntryAt(d, k, ns[k], ms[k]) && WrittenName(d[32 * k..32 * k + 32], ns[k], ms[k]) == upper
    ensures Search(d, 0, name, upper).Some? && Search(d, 0, name, upper).value == d[32 * k..32 * k + 32]
  {
    SearchReaches(d, k, ns, ms, name, upper);
    EntryBytes(d, k);
    ShortNameRead(EntryAt(d, k), ns[k], ms[k]);
    PassesShort(d, k, name, upper);
    assert Answers(d, k, Some(EntryAt(d, k)), name, upper);
    assert Answers(d, 0, Some(EntryAt(d, k)), name, upper);
  }

  /** ...and there is none behind the end mark, or behind the last whole entry. */
  lemma {:induction false} NothingFoundAtEnd(d: seq<Byte>, k: nat, ns: seq<nat>, ms: seq<nat>, name: string, upper: string)
    requires NoneBefore(d, k, ns, ms, upper) && (32 * k + 32 <= |d| ==> d[32 * k] == 0)
    ensures Search(d, 0, name, upper) == None
  {
    SearchReaches(d, k, ns, ms, name, upper);
    EntryBytes(d, k);
    SearchEnds(d, k, name, upper);
    assert Answers(d, 0, None, name, upper);
  }
}
