/** Sv39 page tables as src/arch/riscv64/paging.rs keeps them: a tree of 512-word pages in memory.

    Section 4.4 of the RISC-V Privileged Architecture defines the entry format and section 4.3.2 the
    walk.  Memory is a map from page addresses to pages; the tree predicate says which pages belong
    to a table, that no page is shared, and that leaves occur only at level 0. */
module PageTables {
  import opened Basics
  import opened Words

  type Page = seq<Usize>
  type Memory = map<Usize, Page>

  const PAGE_SIZE: nat := 4096

  // ----- Entries -----

  predicate IsValid(e: Usize) {
    e % 2 == 1
  }

  /** `e & 0xe != 0`: some permission bit is set. */
  predicate IsLeaf(e: nat) {
    (e / 2) % 8 != 0
  }

  function Flags(e: Usize): Usize {
    e % 1024
  }

  /** `(e & !0x3ff) << 2`: the page that a branch entry points to. */
  function Target(e: Usize): Usize {
    (e / 1024 * 4096) % USIZE_LIMIT
  }

  predicate Aligned(a: nat) {
    a % PAGE_SIZE == 0
  }

  /** `(page >> 2) | flags`. */
  function BranchEntry(page: Usize, flags: Usize): (e: nat) {
    Or(page / 4, flags)
  }

  lemma {:induction false} BranchEntryValue(n: nat, flags: nat)
    requires flags < 1024 && n * 4096 < USIZE_LIMIT
    ensures Or(n * 1024, flags) == n * 1024 + flags < USIZE_LIMIT
    ensures (n * 1024 + flags) / 1024 == n && (n * 1024 + flags) % 1024 == flags
    ensures IsLeaf(n * 1024 + flags) <==> IsLeaf(flags)
  {
    Pow2Values();
    OrIsSum(n, flags, 10);
    DivUnique(n * 1024 + flags, 1024, n, flags);
    DivUnique(n * 1024 + flags, 2, n * 512 + flags / 2, flags % 2);
    DivUnique(n * 512 + flags / 2, 8, n * 64 + flags / 2 / 8, flags / 2 % 8);
  }

  lemma {:induction false} BranchEntryDecodes(page: Usize, flags: Usize)
    requires Aligned(page) && flags < 1024
    ensures BranchEntry(page, flags) < USIZE_LIMIT
    ensures Target(BranchEntry(page, flags)) == page && Flags(BranchEntry(page, flags)) == flags
    ensures IsValid(BranchEntry(page, flags)) <==> IsValid(flags)
    ensures IsLeaf(BranchEntry(page, flags)) <==> IsLeaf(flags)
  {
    var n := page / 4096;
    assert page == n * 4096 && page / 4 == n * 1024;
    BranchEntryValue(n, flags);
  }

  // ----- Addresses -----

  /** The bytes that one entry at `level` covers. */
  function Span(level: nat): (s: nat)
    ensures s >= 4096
  {
    if level == 0 then PAGE_SIZE else 512 * Span(level - 1)
  }

  /** Virtual page number field `level` of an address. */
  function Vpn(va: Usize, level: nat): (i: nat)
    ensures i < 512
  {
    Div(va, Span(level)) % 512
  }

  /** What a leaf at `level` translates `va` to: the frame of the entry and the offset of the address. */
  function LeafAddress(e: Usize, va: Usize, level: nat): nat {
    Div(e * 4 % USIZE_LIMIT, Span(level)) * Span(level) + va % Span(level)
  }

  // ----- Trees -----

  /** The pages below entry `i` of the table page `p`. */
  function Kids(mem: Memory, p: Usize, level: nat, i: nat): set<Usize>
    requires p in mem && i < |mem[p]|
    decreases level, 0
  {
    if level > 0 && IsValid(mem[p][i]) then Pages(mem, Target(mem[p][i]), level - 1) else {}
  }

  /** The pages of the table at `p`, itself included. */
  function Pages(mem: Memory, p: Usize, level: nat): (r: set<Usize>)
    ensures p in r
    decreases level, 1
  {
    {p} + if p in mem then set i, q | 0 <= i < |mem[p]| && q in Kids(mem, p, level, i) :: q else {}
  }

  /** An entry that is empty, a level-0 leaf, or a branch to a table that `p` is no part of. */
  ghost predicate EntryOk(mem: Memory, p: Usize, level: nat, i: nat)
    requires p in mem && i < |mem[p]|
    decreases level, 0
  {
    IsValid(mem[p][i]) ==>
      if level == 0 then IsLeaf(mem[p][i])
      else
        && !IsLeaf(mem[p][i])
        && Tree(mem, Target(mem[p][i]), level - 1)
        && p !in Kids(mem, p, level, i)
  }

  /** A well-formed table: 512 proper entries, and no page below two of them. */
  ghost predicate Tree(mem: Memory, p: Usize, level: nat)
    decreases level, 1
  {
    && p in mem && |mem[p]| == 512
    && (forall i :: 0 <= i < 512 ==> EntryOk(mem, p, level, i))
    && (forall i, j :: 0 <= i < j < 512 ==> Kids(mem, p, level, i) !! Kids(mem, p, level, j))
  }

  /** What a leaf says: the frame number that `virt_to_phys` reads out of it, and its flag bits. */
  datatype Leaf = Leaf(frame: nat, flags: nat)

  function EntryFrame(e: Usize): nat {
    e / 1024 % 0x10_0000_0000_0000
  }

  function LeafOf(e: Usize): Leaf {
    Leaf(EntryFrame(e), e % 1024)
  }

  /** The walk of section 4.3.2: down one level per branch, to a leaf or to nothing. */
  function LeafAt(mem: Memory, p: Usize, level: nat, va: Usize): Option<Leaf>
    requires Tree(mem, p, level)
    decreases level
  {
    var e := mem[p][Vpn(va, level)];
    assert EntryOk(mem, p, level, Vpn(va, level));
    if !IsValid(e) then None
    else if IsLeaf(e) then Some(LeafOf(e))
    else LeafAt(mem, Target(e), level - 1, va)
  }

  /** The physical address: the frame of the leaf and the offset of the address. */
  function Translate(mem: Memory, p: Usize, level: nat, va: Usize): Option<nat>
    requires Tree(mem, p, level)
  {
    match LeafAt(mem, p, level, va)
    case None => None
    case Some(leaf) => Some(leaf.frame * 4096 + va % 4096)
  }

  lemma {:induction false} LeafAddressFrame(e: Usize, w: Usize)
    ensures LeafAddress(e, w, 0) == EntryFrame(e) * 4096 + w % 4096
  {
    var f := e / 1024;
    assert e * 4 == f * 4096 + e % 1024 * 4;
    assert f == f / 0x10_0000_0000_0000 * 0x10_0000_0000_0000 + f % 0x10_0000_0000_0000;
    assert e * 4 % USIZE_LIMIT == f % 0x10_0000_0000_0000 * 4096 + e % 1024 * 4;
  }

  // ----- The walk in itself -----

  /** The walk for `va` stays inside page-sized tables and never goes below level 0.  Leaves may be at
      any level. */
  predicate Walkable(mem: Memory, p: Usize, level: nat, va: Usize)
    decreases level
  {
    && p in mem && |mem[p]| == 512
    && var e := mem[p][Vpn(va, level)];
       IsValid(e) && !IsLeaf(e) ==> level > 0 && Walkable(mem, Target(e), level - 1, va)
  }

  function Walk(mem: Memory, p: Usize, level: nat, va: Usize): Option<nat>
    requires Walkable(mem, p, level, va)
    decreases level
  {
    var e := mem[p][Vpn(va, level)];
    if !IsValid(e) then None
    else if IsLeaf(e) then Some(LeafAddress(e, va, level))
    else Walk(mem, Target(e), level - 1, va)
  }

  /** In a well-formed table every address can be walked, and the walk is its translation. */
  lemma {:induction false} TreeWalks(mem: Memory, p: Usize, level: nat, va: Usize)
    requires Tree(mem, p, level)
    ensures Walkable(mem, p, level, va) && Walk(mem, p, level, va) == Translate(mem, p, level, va)
    decreases level
  {
    var e := mem[p][Vpn(va, level)];
    assert EntryOk(mem, p, level, Vpn(va, level));
    if IsValid(e) && !IsLeaf(e) {
      TreeWalks(mem, Target(e), level - 1, va);
    } else {
      LeafAddressFrame(e, va);
    }
  }

  // ----- Frames -----

  /** All pages of a table are allocated. */
  lemma {:induction false} PagesAllocated(mem: Memory, p: Usize, level: nat)
    requires Tree(mem, p, level)
    ensures Pages(mem, p, level) <= mem.Keys
    decreases level
  {
    forall q | q in Pages(mem, p, level) ensures q in mem {
      if q != p {
        var i :| 0 <= i < |mem[p]| && q in Kids(mem, p, level, i);
        assert EntryOk(mem, p, level, i);
        PagesAllocated(mem, Target(mem[p][i]), level - 1);
      }
    }
  }

  /** Two memories agree on a set of pages. */
  ghost predicate Agree(mem: Memory, mem': Memory, pages: set<Usize>) {
    forall q :: q in pages ==> q in mem && q in mem' && mem'[q] == mem[q]
  }

  lemma {:induction false} KidsFrame(mem: Memory, mem': Memory, p: Usize, level: nat, i: nat)
    requires Tree(mem, p, level) && i < 512 && p in mem' && mem'[p] == mem[p]
    requires Agree(mem, mem', Kids(mem, p, level, i))
    ensures Kids(mem', p, level, i) == Kids(mem, p, level, i) && EntryOk(mem', p, level, i)
    decreases level, 0
  {
    assert EntryOk(mem, p, level, i);
    if level > 0 && IsValid(mem[p][i]) {
      TreeFrame(mem, mem', Target(mem[p][i]), level - 1);
    }
  }

  /** A table does not notice changes to pages that are not its own. */
  lemma {:induction false} TreeFrame(mem: Memory, mem': Memory, p: Usize, level: nat)
    requires Tree(mem, p, level) && Agree(mem, mem', Pages(mem, p, level))
    ensures Tree(mem', p, level) && Pages(mem', p, level) == Pages(mem, p, level)
    decreases level, 1
  {
    forall i | 0 <= i < 512
      ensures Kids(mem', p, level, i) == Kids(mem, p, level, i) && EntryOk(mem', p, level, i)
    {
      assert Kids(mem, p, level, i) <= Pages(mem, p, level);
      KidsFrame(mem, mem', p, level, i);
    }
  }

  lemma {:induction false} KidsWithin(mem: Memory, p: Usize, level: nat, i: nat)
    requires p in mem && i < |mem[p]|
    ensures Kids(mem, p, level, i) <= Pages(mem, p, level)
  {
  }

  lemma {:induction false} LeafAtFrame(mem: Memory, mem': Memory, p: Usize, level: nat, va: Usize)
    requires Tree(mem, p, level) && Agree(mem, mem', Pages(mem, p, level)) && Tree(mem', p, level)
    ensures LeafAt(mem', p, level, va) == LeafAt(mem, p, level, va)
    decreases level
  {
    var i := Vpn(va, level);
    assert EntryOk(mem, p, level, i) && EntryOk(mem', p, level, i);
    if level > 0 && IsValid(mem[p][i]) {
      KidsWithin(mem, p, level, i);
      LeafAtFrame(mem, mem', Target(mem[p][i]), level - 1, va);
    }
  }
}
