/** What `map` writes, and what mapping one page or a range of pages means for a whole table. */
module PageMapping {
  import opened Basics
  import opened Words
  import opened PageTables
  import opened PageUpdates

  // ----- The leaf entry that `map` writes -----

  /** `(paddr >> 12) & 0xfffffffffff`: the 44-bit physical page number. */
  function Ppn(paddr: Usize): nat {
    paddr / 4096 % 0x1000_0000_0000
  }

  /** The three shifted fields, the caller's bits and the valid bit, joined by `|`. */
  function LeafEntry(paddr: Usize, bits: Usize): nat {
    var ppn0, ppn1, ppn2 := paddr / 0x1000 % 0x200, paddr / 0x20_0000 % 0x200, paddr / 0x4000_0000 % 0x400_0000;
    Or(Or(Or(Or(ppn2 * 0x1000_0000, ppn1 * 0x8_0000), ppn0 * 0x400), bits), 1)
  }

  lemma {:induction false} ThreeFields(a: nat, b: nat, c: nat)
    requires b < 0x200 && c < 0x200
    ensures Or(Or(a * 0x1000_0000, b * 0x8_0000), c * 0x400) == ((a * 0x200 + b) * 0x200 + c) * 0x400
  {
    Pow2Values();
    OrIsSum(a, b * 0x8_0000, 28);
    OrIsSum(a * 0x200 + b, c * 0x400, 19);
  }

  lemma {:induction false} PpnFields(paddr: Usize)
    ensures var ppn0, ppn1, ppn2 := paddr / 0x1000 % 0x200, paddr / 0x20_0000 % 0x200, paddr / 0x4000_0000 % 0x400_0000;
            Or(Or(ppn2 * 0x1000_0000, ppn1 * 0x8_0000), ppn0 * 0x400) == Ppn(paddr) * 0x400
  {
    ThreeFields(paddr / 0x4000_0000 % 0x400_0000, paddr / 0x20_0000 % 0x200, paddr / 0x1000 % 0x200);
    FieldsJoin(paddr);
  }

  lemma {:induction false} FieldsJoin(paddr: Usize)
    ensures Ppn(paddr) == (paddr / 0x4000_0000 % 0x400_0000 * 0x200 + paddr / 0x20_0000 % 0x200) * 0x200 + paddr / 0x1000 % 0x200
  {
    Digits(paddr, 0x1000, 0x200);
    Digits(paddr, 0x1000, 0x4_0000);
    Digits(paddr / 0x1000, 0x200, 0x8_0000_0000);
    Digits(paddr / 0x1000 / 0x200, 0x200, 0x400_0000);
    Digits(paddr / 0x1000, 0x200, 0x200);
  }

  lemma {:induction false} FlagsSurvive(field: nat, bits: nat)
    ensures IsLeaf(bits) ==> IsLeaf(Or(Or(field, bits), 1))
    ensures Or(Or(field, bits), 1) % 2 == 1
  {
    OrJoins(Or(field, bits), 1);
    OrHalf(Or(field, bits), 1);
    OrHalf(field, bits);
    assert Or(Or(field / 2, bits / 2), 0) == Or(field / 2, bits / 2);
    Pow2Values();
    OrLow(field / 2, bits / 2, 3);
    LowIsMod(bits / 2, 3);
    LowIsMod(Or(field / 2, bits / 2), 3);
    OrZero(Low(field / 2, 3), Low(bits / 2, 3));
  }

  /** The frame number that `virt_to_phys` reads out of a written leaf. */
  function MappedFrame(paddr: Usize, bits: Usize): nat {
    Or(Ppn(paddr), bits / 1024) % 0x10_0000_0000_0000
  }

  /** What `map` makes of its arguments: that frame, and the caller's flags with the valid bit. */
  function MappedLeaf(paddr: Usize, bits: Usize): Leaf {
    Leaf(MappedFrame(paddr, bits), Or(bits % 1024, 1))
  }

  /** What a written leaf means.  Its flags are the caller's, and valid.  The frame it names is the physical page number of `paddr`, joined
      by `|` with whatever the caller's bits hold above the flag field. */
  lemma {:induction false} LeafEntryMeaning(paddr: Usize, bits: Usize)
    ensures LeafEntry(paddr, bits) < USIZE_LIMIT
    ensures IsValid(LeafEntry(paddr, bits))
    ensures LeafOf(LeafEntry(paddr, bits)) == MappedLeaf(paddr, bits)
    ensures IsLeaf(bits) ==> IsLeaf(LeafEntry(paddr, bits))
  {
    var field := Ppn(paddr) * 0x400;
    PpnFields(paddr);
    assert LeafEntry(paddr, bits) == Or(Or(field, bits), 1);
    FlagsSurvive(field, bits);
    LeafFrame(Ppn(paddr), bits);
    LeafFlags(Ppn(paddr), bits);
  }

  lemma {:induction false} LeafFlags(ppn: nat, bits: Usize)
    ensures Or(Or(ppn * 0x400, bits), 1) % 1024 == Or(bits % 1024, 1)
  {
    var field := ppn * 0x400;
    assert field % 1024 == 0;
    OrLowTen(Or(field, bits), 1);
    OrLowTen(field, bits);
  }

  lemma {:induction false} OrLowTen(a: nat, b: nat)
    ensures Or(a, b) % 1024 == Or(a % 1024, b % 1024)
  {
    Pow2Values();
    OrLow(a, b, 10);
    LowIsMod(Or(a, b), 10);
    LowIsMod(a, 10);
    LowIsMod(b, 10);
  }

  /** Joining with the valid bit sets it and leaves every other bit as it was. */
  lemma {:induction false} ValidBitSet(n: nat)
    ensures Or(n, 1) == n - n % 2 + 1
  {
    OrJoins(n, 1);
    OrHalf(n, 1);
    OrZero(n / 2, 0);
  }

  lemma {:induction false} LeafFrame(ppn: nat, bits: Usize)
    requires ppn < 0x1000_0000_0000
    ensures Or(Or(ppn * 0x400, bits), 1) / 1024 == Or(ppn, bits / 1024)
    ensures Or(Or(ppn * 0x400, bits), 1) < USIZE_LIMIT
  {
    var field := ppn * 0x400;
    Pow2Values();
    OrHigh(Or(field, bits), 1, 10);
    OrHigh(field, bits, 10);
    ShrIsDiv(1, 10);
    ShrIsDiv(field, 10);
    ShrIsDiv(bits, 10);
    ShrIsDiv(Or(Or(field, bits), 1), 10);
    OrBound(field, bits, 64);
    OrBound(Or(field, bits), 1, 64);
  }

  // ----- Changes confined to one table -----

  /** `mem'` came from `mem` by changing pages of the table at `root` and adding new pages to it. */
  ghost predicate Confined(mem: Memory, mem': Memory, root: Usize) {
    && Tree(mem, root, 2) && Tree(mem', root, 2)
    && mem.Keys <= mem'.Keys
    && Pages(mem', root, 2) <= Pages(mem, root, 2) + (mem'.Keys - mem.Keys)
    && Agree(mem, mem', mem.Keys - Pages(mem, root, 2))
  }

  /** Every address has the leaf that it had. */
  ghost predicate SameMeaning(mem: Memory, mem': Memory, root: Usize)
    requires Tree(mem, root, 2) && Tree(mem', root, 2)
  {
    forall w: Usize :: LeafAt(mem', root, 2, w) == LeafAt(mem, root, 2, w)
  }

  /** The same virtual page, as far as the 27 index bits of Sv39 tell. */
  predicate SamePage(w: Usize, va: Usize) {
    Vpn(w, 2) == Vpn(va, 2) && Vpn(w, 1) == Vpn(va, 1) && Vpn(w, 0) == Vpn(va, 0)
  }

  /** `w` has this leaf if it is on the page of `va`, and the one that it had if not. */
  ghost predicate RemappedAt(mem: Memory, mem': Memory, root: Usize, va: Usize, leaf: Leaf, w: Usize)
    requires Tree(mem, root, 2) && Tree(mem', root, 2)
  {
    LeafAt(mem', root, 2, w) ==
    if SamePage(w, va) then Some(leaf) else LeafAt(mem, root, 2, w)
  }

  /** The page of `va` now has this leaf; all other addresses have the one that they had. */
  ghost predicate Remapped(mem: Memory, mem': Memory, root: Usize, va: Usize, leaf: Leaf)
    requires Tree(mem, root, 2) && Tree(mem', root, 2)
  {
    forall w: Usize :: RemappedAt(mem, mem', root, va, leaf, w)
  }

  lemma {:induction false} ConfinedChain(a: Memory, b: Memory, c: Memory, root: Usize)
    requires Confined(a, b, root) && Confined(b, c, root)
    ensures Confined(a, c, root)
  {
    forall q | q in a.Keys - Pages(a, root, 2) ensures q in a && q in c && c[q] == a[q] {
      assert q in b.Keys - Pages(b, root, 2);
    }
  }

  lemma {:induction false} SameThenRemapped(a: Memory, b: Memory, c: Memory, root: Usize, va: Usize, leaf: Leaf)
    requires Tree(a, root, 2) && Tree(b, root, 2) && Tree(c, root, 2)
    requires SameMeaning(a, b, root) && Remapped(b, c, root, va, leaf)
    ensures Remapped(a, c, root, va, leaf)
  {
    forall w: Usize ensures RemappedAt(a, c, root, va, leaf, w) {
      assert RemappedAt(b, c, root, va, leaf, w);
    }
  }

  lemma {:induction false} LiftConfined(mem: Memory, mem': Memory, root: Usize, va: Usize, q: Usize, target: nat, added: set<Usize>)
    requires Tree(mem, root, 2) && OnPath(mem, root, 2, va, q, target)
    requires ChangedBelow(mem, mem', q, target, added) && added <= mem'.Keys && q in mem'
    requires mem.Keys <= mem'.Keys
    ensures Confined(mem, mem', root) && OnPath(mem', root, 2, va, q, target)
  {
    Lift(mem, mem', root, 2, va, q, target, added);
    PathPages(mem, root, 2, va, q, target);
  }

  lemma {:induction false} PathExtends(mem: Memory, p: Usize, level: nat, va: Usize, q: Usize, target: nat)
    requires Tree(mem, p, level) && OnPath(mem, p, level, va, q, target) && target > 0
    requires q in mem && |mem[q]| == 512 && IsValid(mem[q][Vpn(va, target)])
    ensures OnPath(mem, p, level, va, Target(mem[q][Vpn(va, target)]), target - 1)
    decreases level
  {
    assert EntryOk(mem, p, level, Vpn(va, level));
    if level > target {
      PathExtends(mem, Target(mem[p][Vpn(va, level)]), level - 1, va, q, target);
    }
  }

  /** Adding an empty table on the way to `va` changes the leaf of no address. */
  lemma {:induction false} GrowOnPath(mem: Memory, root: Usize, va: Usize, q: Usize, target: nat, z: Usize, e: Usize)
    requires Tree(mem, root, 2) && OnPath(mem, root, 2, va, q, target) && 0 < target <= 2
    requires Tree(mem, q, target) && !IsValid(mem[q][Vpn(va, target)])
    requires z !in mem && IsValid(e) && !IsLeaf(e) && Target(e) == z
    ensures var mem' := GrowAt(mem, q, Vpn(va, target), z, e);
            Confined(mem, mem', root) && OnPath(mem', root, 2, va, q, target) && SameMeaning(mem, mem', root)
  {
    var i := Vpn(va, target);
    var mem' := GrowAt(mem, q, i, z, e);
    GrowHere(mem, q, target, i, z, e);
    LiftConfined(mem, mem', root, va, q, target, {z});
    forall w: Usize ensures LeafAt(mem', root, 2, w) == LeafAt(mem, root, 2, w) {
      LiftLeaf(mem, mem', root, 2, va, q, target, {z}, w);
      GrowLeaf(mem, q, target, i, z, e, w);
      UnchangedBelow(mem, root, 2, va, q, target, w);
    }
  }

  /** An address on the same path has its leaf below the page on it. */
  lemma {:induction false} UnchangedBelow(mem: Memory, p: Usize, level: nat, va: Usize, q: Usize, target: nat, w: Usize)
    requires Tree(mem, p, level) && OnPath(mem, p, level, va, q, target) && Tree(mem, q, target)
    ensures SamePath(w, va, level, target) ==> LeafAt(mem, p, level, w) == LeafAt(mem, q, target, w)
    decreases level
  {
    if level > target && SamePath(w, va, level, target) {
      assert EntryOk(mem, p, level, Vpn(va, level));
      UnchangedBelow(mem, Target(mem[p][Vpn(va, level)]), level - 1, va, q, target, w);
    }
  }

  /** Writing the leaf at the end of the path of `va` remaps exactly its page. */
  lemma {:induction false} LeafOnPath(mem: Memory, root: Usize, va: Usize, q: Usize, e: Usize)
    requires Tree(mem, root, 2) && OnPath(mem, root, 2, va, q, 0) && Tree(mem, q, 0) && IsValid(e) && IsLeaf(e)
    ensures var mem' := SetEntry(mem, q, Vpn(va, 0), e);
            Confined(mem, mem', root) && Remapped(mem, mem', root, va, LeafOf(e))
  {
    var mem' := SetEntry(mem, q, Vpn(va, 0), e);
    LeafHere(mem, q, Vpn(va, 0), e);
    LiftConfined(mem, mem', root, va, q, 0, {});
    forall w: Usize ensures RemappedAt(mem, mem', root, va, LeafOf(e), w) {
      LiftLeaf(mem, mem', root, 2, va, q, 0, {}, w);
      WriteLeafAt(mem, q, Vpn(va, 0), e, w);
      UnchangedBelow(mem, root, 2, va, q, 0, w);
      assert SamePath(w, va, 2, 0) <==> Vpn(w, 2) == Vpn(va, 2) && SamePath(w, va, 1, 0);
      assert SamePath(w, va, 1, 0) <==> Vpn(w, 1) == Vpn(va, 1) && SamePath(w, va, 0, 0);
    }
  }

  lemma {:induction false} VpnFields(va: Usize)
    ensures Vpn(va, 0) == va / 0x1000 % 512 && Vpn(va, 1) == va / 0x20_0000 % 512 && Vpn(va, 2) == va / 0x4000_0000 % 512
  {
    assert Span(1) == 0x20_0000 && Span(2) == 0x4000_0000;
  }

  /** The three index fields are the digits of bits 12 to 38. */
  lemma {:induction false} IndexBits(va: Usize)
    ensures va / 4096 % 0x800_0000 == Vpn(va, 2) * 0x4_0000 + Vpn(va, 1) * 512 + Vpn(va, 0)
  {
    VpnFields(va);
    Digits(va, 4096, 512);
    Digits(va, 4096, 0x4_0000);
    Digits(va / 4096, 512, 0x4_0000);
    Digits(va / 4096 / 512, 512, 512);
    Digits(va / 4096, 512, 512);
  }

  /** Two addresses are on the same page exactly when their bits 12 to 38 agree. */
  lemma {:induction false} SamePageBits(w: Usize, va: Usize)
    ensures SamePage(w, va) <==> w / 4096 % 0x800_0000 == va / 4096 % 0x800_0000
  {
    IndexBits(w);
    IndexBits(va);
    DigitsDecide(Vpn(w, 2), Vpn(w, 1), Vpn(w, 0), Vpn(va, 2), Vpn(va, 1), Vpn(va, 0));
  }

  lemma {:induction false} DigitsDecide(a: nat, b: nat, c: nat, a': nat, b': nat, c': nat)
    requires b < 512 && c < 512 && b' < 512 && c' < 512
    ensures a * 0x4_0000 + b * 512 + c == a' * 0x4_0000 + b' * 512 + c' <==> a == a' && b == b' && c == c'
  {
  }

  // ----- Map, then translate -----

  /** Every address on the page of `vaddr` is translated to `paddr` plus its page offset. */
  ghost predicate PageMapsTo(mem: Memory, root: Usize, vaddr: Usize, paddr: Usize)
    requires Tree(mem, root, 2)
  {
    forall w: Usize :: SamePage(w, vaddr) ==> Translate(mem, root, 2, w) == Some(paddr + w % 4096)
  }

  /** After `map`, `virt_to_phys` gives `paddr` plus the page offset on the whole page if and only if
      the bits above the flag field add nothing to the frame number of `paddr`. */
  lemma {:induction false} MapThenTranslate(mem: Memory, mem': Memory, root: Usize, vaddr: Usize, paddr: Usize, bits: Usize)
    requires Tree(mem, root, 2) && Tree(mem', root, 2) && Aligned(paddr)
    requires Remapped(mem, mem', root, vaddr, MappedLeaf(paddr, bits))
    ensures PageMapsTo(mem', root, vaddr, paddr) <==> MappedFrame(paddr, bits) == paddr / 4096
  {
    var frame := MappedFrame(paddr, bits);
    assert paddr == paddr / 4096 * 4096;
    if frame == paddr / 4096 {
      forall w: Usize | SamePage(w, vaddr) ensures Translate(mem', root, 2, w) == Some(paddr + w % 4096) {
        assert RemappedAt(mem, mem', root, vaddr, MappedLeaf(paddr, bits), w);
      }
    } else {
      assert RemappedAt(mem, mem', root, vaddr, MappedLeaf(paddr, bits), vaddr);
      assert SamePage(vaddr, vaddr);
    }
  }

  /** With nothing but flags among the bits, that is the case exactly below 2^56. */
  lemma {:induction false} FlagsKeepFrame(paddr: Usize, bits: Usize)
    requires bits < 1024
    ensures MappedFrame(paddr, bits) == Ppn(paddr)
    ensures Ppn(paddr) == paddr / 4096 <==> paddr < 0x100_0000_0000_0000
  {
  }

  // ----- Mapping a range -----

  /** The number of pages that Sv39 tells apart. */
  const WINDOW: nat := 0x800_0000

  /** How many pages `w` lies after `va`, counted around that window. */
  function PageOffset(w: Usize, va: Usize): nat {
    (w / 4096 - va / 4096) % WINDOW
  }

  /** The last of `n` pages that lies on the same virtual page as page `d`. */
  function LastAt(n: nat, d: nat): nat
    requires d < n
  {
    d + (n - 1 - d) / WINDOW * WINDOW
  }

  lemma {:induction false} LastAtIsLast(n: nat, d: nat, k: nat)
    requires d < n && d < WINDOW
    ensures k == LastAt(n, d) <==> k < n <= k + WINDOW && k % WINDOW == d
  {
    assert n - 1 - d == (n - 1 - d) / WINDOW * WINDOW + (n - 1 - d) % WINDOW;
  }

  /** `w` has the last leaf that was mapped to its page, if it lies on one of the pages from `va` on,
      and the one that it had if not. */
  ghost predicate MappedAt(mem: Memory, mem': Memory, root: Usize, va: Usize, leaves: seq<Leaf>, w: Usize)
    requires Tree(mem, root, 2) && Tree(mem', root, 2)
  {
    var d := PageOffset(w, va);
    LeafAt(mem', root, 2, w) ==
    if d < |leaves| then Some(leaves[LastAt(|leaves|, d)]) else LeafAt(mem, root, 2, w)
  }

  /** The pages from `va` on have, in order, these leaves; nothing else changed. */
  ghost predicate RangeMapped(mem: Memory, mem': Memory, root: Usize, va: Usize, leaves: seq<Leaf>)
    requires Tree(mem, root, 2) && Tree(mem', root, 2)
  {
    forall w: Usize :: MappedAt(mem, mem', root, va, leaves, w)
  }

  /** What `map` makes of the `n` pages from `pa` on. */
  function Leaves(pa: Usize, n: nat, bits: Usize): (leaves: seq<Leaf>)
    requires pa + n * 4096 <= USIZE_LIMIT
    ensures |leaves| == n && forall d :: 0 <= d < n ==> leaves[d].flags == Or(bits % 1024, 1)
  {
    if n == 0 then [] else Leaves(pa, n - 1, bits) + [MappedLeaf(pa + (n - 1) * 4096, bits)]
  }

  lemma {:induction false} OneMoreLeaf(pa: Usize, k: nat, bits: Usize)
    requires pa + (k + 1) * 4096 <= USIZE_LIMIT
    ensures Leaves(pa, k + 1, bits) == Leaves(pa, k, bits) + [MappedLeaf(pa + k * 4096, bits)]
  {
  }

  /** The flags of an address in a mapped range are the caller's, and valid; those of any other address
      are as they were. */
  lemma {:induction false} RangeFlags(mem: Memory, mem': Memory, root: Usize, va: Usize, pa: Usize, n: nat, bits: Usize, w: Usize)
    requires Tree(mem, root, 2) && Tree(mem', root, 2) && pa + n * 4096 <= USIZE_LIMIT
    requires RangeMapped(mem, mem', root, va, Leaves(pa, n, bits))
    ensures FlagsAt(mem', root, w) ==
            if PageOffset(w, va) < n then Some(Or(bits % 1024, 1)) else FlagsAt(mem, root, w)
  {
    assert MappedAt(mem, mem', root, va, Leaves(pa, n, bits), w);
    if PageOffset(w, va) < n {
      LastAtIsLast(n, PageOffset(w, va), LastAt(n, PageOffset(w, va)));
    }
  }

  /** The flags of the leaf that the walk for `w` ends in. */
  function FlagsAt(mem: Memory, root: Usize, w: Usize): Option<nat>
    requires Tree(mem, root, 2)
  {
    match LeafAt(mem, root, 2, w)
    case None => None
    case Some(leaf) => Some(leaf.flags)
  }

  /** Frame after frame, starting at `pa`. */
  ghost predicate Consecutive(leaves: seq<Leaf>, pa: nat) {
    forall d :: 0 <= d < |leaves| ==> leaves[d].frame * 4096 == pa + d * 4096
  }

  lemma {:induction false} LeavesConsecutive(pa: Usize, n: nat, bits: Usize)
    requires Aligned(pa) && pa + n * 4096 <= 0x100_0000_0000_0000 && bits < 1024
    ensures Consecutive(Leaves(pa, n, bits), pa)
  {
    if n > 0 {
      LeavesConsecutive(pa, n - 1, bits);
      FlagsKeepFrame(pa + (n - 1) * 4096, bits);
    }
  }

  lemma {:induction false} NextInRange(w: Usize, va: Usize, k: nat)
    requires Aligned(va) && va + k * 4096 < USIZE_LIMIT
    ensures SamePage(w, va + k * 4096) <==> PageOffset(w, va) == k % WINDOW
  {
    SamePageBits(w, va + k * 4096);
    var a, b := w / 4096, va / 4096;
    assert (va + k * 4096) / 4096 == b + k;
    Congruent(a, b, k);
  }

  lemma {:induction false} Congruent(a: nat, b: nat, k: nat)
    ensures a % WINDOW == (b + k) % WINDOW <==> (a - b) % WINDOW == k % WINDOW
  {
    var m := WINDOW;
    assert a == a / m * m + a % m;
    assert b + k == (b + k) / m * m + (b + k) % m;
    assert a - b == (a - b) / m * m + (a - b) % m;
    assert k == k / m * m + k % m;
  }

  lemma {:induction false} LastAtNext(n: nat, d: nat)
    requires d < n + 1 && d < WINDOW
    ensures if d == n % WINDOW then LastAt(n + 1, d) == n else d < n && LastAt(n + 1, d) == LastAt(n, d)
  {
    LastAtIsLast(n + 1, d, n);
    if d != n % WINDOW {
      LastAtIsLast(n, d, LastAt(n, d));
      LastAtIsLast(n + 1, d, LastAt(n, d));
    }
  }

  /** Mapping the next page extends a mapped range by one. */
  lemma {:induction false} RangeStep(mem: Memory, mid: Memory, mem': Memory, root: Usize, va: Usize, leaves: seq<Leaf>, next: Usize, leaf: Leaf)
    requires Tree(mem, root, 2) && Tree(mid, root, 2) && Tree(mem', root, 2)
    requires Aligned(va) && next == va + |leaves| * 4096
    requires RangeMapped(mem, mid, root, va, leaves) && Remapped(mid, mem', root, next, leaf)
    ensures RangeMapped(mem, mem', root, va, leaves + [leaf])
  {
    var more := leaves + [leaf];
    forall w: Usize ensures MappedAt(mem, mem', root, va, more, w) {
      assert MappedAt(mem, mid, root, va, leaves, w);
      assert RemappedAt(mid, mem', root, next, leaf, w);
      NextInRange(w, va, |leaves|);
      StepOfRange(leaves, leaf, PageOffset(w, va));
    }
  }

  lemma {:induction false} StepOfRange(leaves: seq<Leaf>, leaf: Leaf, d: nat)
    requires d < WINDOW
    ensures d < |leaves + [leaf]| <==> d < |leaves| || d == |leaves| % WINDOW
    ensures d == |leaves| % WINDOW ==> (leaves + [leaf])[LastAt(|leaves| + 1, d)] == leaf
    ensures d != |leaves| % WINDOW && d < |leaves| ==> LastAt(|leaves| + 1, d) == LastAt(|leaves|, d) < |leaves|
  {
    if d < |leaves| + 1 {
      LastAtNext(|leaves|, d);
      LastAtIsLast(|leaves| + 1, d, LastAt(|leaves| + 1, d));
    }
  }

  /** `a & !(PAGE_SIZE - 1)`. */
  function PageStart(a: Usize): (r: Usize)
    ensures r <= a == r + a % 4096 && Aligned(r)
  {
    a - a % 4096
  }

  /** Where byte `c` of a mapped range goes: as far into the frames as the last page of the range that
      Sv39 takes for the same. */
  lemma {:induction false} RangeByte(mem: Memory, mem': Memory, root: Usize, va: Usize, pa: nat, leaves: seq<Leaf>, c: nat)
    requires Tree(mem, root, 2) && Tree(mem', root, 2) && Aligned(va) && va + c < USIZE_LIMIT
    requires RangeMapped(mem, mem', root, va, leaves) && Consecutive(leaves, pa)
    ensures var d := c / 4096 % WINDOW;
            Translate(mem', root, 2, va + c) ==
            if d < |leaves| then Some(pa + LastAt(|leaves|, d) * 4096 + c % 4096) else Translate(mem, root, 2, va + c)
  {
    var d := c / 4096 % WINDOW;
    assert (va + c) / 4096 == va / 4096 + c / 4096;
    assert MappedAt(mem, mem', root, va, leaves, va + c);
    if d < |leaves| {
      LastAtIsLast(|leaves|, d, LastAt(|leaves|, d));
    }
  }

  /** Byte `o` of the range is translated to byte `o` of its target. */
  ghost predicate ByteMapsTo(mem: Memory, root: Usize, vaddr: Usize, paddr: Usize, o: nat)
    requires Tree(mem, root, 2)
  {
    vaddr + o < USIZE_LIMIT && Translate(mem, root, 2, vaddr + o) == Some(paddr + o)
  }

  /** Which bytes of a range end up right: those on a page of the range that is not mapped again by a
      later one, if both addresses have the same page offset; off these pages, those that were right. */
  lemma {:induction false} ByteCorrectIff(mem: Memory, mem': Memory, root: Usize, vaddr: Usize, paddr: Usize, leaves: seq<Leaf>, o: nat)
    requires Tree(mem, root, 2) && Tree(mem', root, 2)
    requires RangeMapped(mem, mem', root, PageStart(vaddr), leaves) && Consecutive(leaves, PageStart(paddr))
    ensures var page := (vaddr % 4096 + o) / 4096;
            ByteMapsTo(mem', root, vaddr, paddr, o) <==>
            if page % WINDOW < |leaves| then
              vaddr + o < USIZE_LIMIT && vaddr % 4096 == paddr % 4096 && page < |leaves| <= page + WINDOW
            else ByteMapsTo(mem, root, vaddr, paddr, o)
  {
    var va, pa, c := PageStart(vaddr), PageStart(paddr), vaddr % 4096 + o;
    assert va + c == vaddr + o;
    if vaddr + o < USIZE_LIMIT {
      RangeByte(mem, mem', root, va, pa, leaves, c);
      if c / 4096 % WINDOW < |leaves| {
        var last := LastAt(|leaves|, c / 4096 % WINDOW);
        LastAtIsLast(|leaves|, c / 4096 % WINDOW, c / 4096);
        SameByte(vaddr, paddr, o, last);
      }
    }
  }

  lemma {:induction false} SameByte(vaddr: Usize, paddr: Usize, o: nat, page: nat)
    ensures var c := vaddr % 4096 + o;
            PageStart(paddr) + page * 4096 + c % 4096 == paddr + o <==> vaddr % 4096 == paddr % 4096 && page == c / 4096
  {
    var c := vaddr % 4096 + o;
    assert c == c / 4096 * 4096 + c % 4096;
  }

  /** `map_range` sends every byte of a range to its own target byte if and only if the two addresses
      have the same page offset, the range does not go round the window of Sv39, and the bytes that the
      rounding of the size cuts off, if any, were right already. */
  lemma {:induction false} RangeCorrectIff(mem: Memory, mem': Memory, root: Usize, vaddr: Usize, paddr: Usize, size: nat, bits: Usize)
    requires Tree(mem, root, 2) && Tree(mem', root, 2) && bits < 1024 && 0 < size
    requires PageStart(vaddr) + PagesFor(size) * 4096 <= USIZE_LIMIT
    requires PageStart(paddr) + PagesFor(size) * 4096 <= 0x100_0000_0000_0000
    requires RangeMapped(mem, mem', root, PageStart(vaddr), Leaves(PageStart(paddr), PagesFor(size), bits))
    ensures (forall o :: 0 <= o < size ==> ByteMapsTo(mem', root, vaddr, paddr, o))
            <==> vaddr % 4096 == paddr % 4096 && PagesFor(size) <= WINDOW
                 && forall o :: 0 <= o < size && CutOff(vaddr, size, o) ==>
                      PagesFor(size) < WINDOW && ByteMapsTo(mem, root, vaddr, paddr, o)
  {
    var n := PagesFor(size);
    var leaves := Leaves(PageStart(paddr), n, bits);
    LeavesConsecutive(PageStart(paddr), n, bits);
    forall o: nat | o < size
      ensures ByteMapsTo(mem', root, vaddr, paddr, o) <==> RightAfter(mem, root, vaddr, paddr, size, o)
    {
      ByteCorrectIff(mem, mem', root, vaddr, paddr, leaves, o);
      PageOfByte(vaddr, size, o);
    }
    AllRightAfter(mem, root, vaddr, paddr, size);
    assert forall o :: 0 <= o < size ==>
      (ByteMapsTo(mem', root, vaddr, paddr, o) <==> RightAfter(mem, root, vaddr, paddr, size, o));
  }

  /** The rounding of the size leaves byte `o` without a page of its own. */
  predicate CutOff(vaddr: Usize, size: nat, o: nat) {
    vaddr % 4096 + o >= PagesFor(size) * 4096
  }

  /** What decides about byte `o` of a range. */
  ghost predicate RightAfter(mem: Memory, root: Usize, vaddr: Usize, paddr: Usize, size: nat, o: nat)
    requires Tree(mem, root, 2)
  {
    var page, n := (vaddr % 4096 + o) / 4096, PagesFor(size);
    if page % WINDOW < n then vaddr + o < USIZE_LIMIT && vaddr % 4096 == paddr % 4096 && page < n <= page + WINDOW
    else ByteMapsTo(mem, root, vaddr, paddr, o)
  }

  lemma {:induction false} PageOfByte(vaddr: Usize, size: nat, o: nat)
    requires o < size
    ensures var page, n := (vaddr % 4096 + o) / 4096, PagesFor(size);
            page <= n && (page == n <==> CutOff(vaddr, size, o))
    ensures PageStart(vaddr) + PagesFor(size) * 4096 <= USIZE_LIMIT && !CutOff(vaddr, size, o) ==> vaddr + o < USIZE_LIMIT
  {
    var n := PagesFor(size);
    assert size <= n * 4096;
  }

  lemma {:induction false} InWindow(page: nat)
    ensures page % WINDOW <= page
    ensures page < WINDOW ==> page % WINDOW == page
    ensures page == WINDOW ==> page % WINDOW == 0
  {
  }

  lemma {:induction false} AllRightAfter(mem: Memory, root: Usize, vaddr: Usize, paddr: Usize, size: nat)
    requires Tree(mem, root, 2) && 0 < size && PageStart(vaddr) + PagesFor(size) * 4096 <= USIZE_LIMIT
    ensures (forall o :: 0 <= o < size ==> RightAfter(mem, root, vaddr, paddr, size, o))
            <==> vaddr % 4096 == paddr % 4096 && PagesFor(size) <= WINDOW
                 && forall o :: 0 <= o < size && CutOff(vaddr, size, o) ==>
                      PagesFor(size) < WINDOW && ByteMapsTo(mem, root, vaddr, paddr, o)
  {
    var n := PagesFor(size);
    FirstByte(mem, root, vaddr, paddr, size);
    if RightAfter(mem, root, vaddr, paddr, size, 0) {
      forall o: nat | o < size
        ensures RightAfter(mem, root, vaddr, paddr, size, o) <==>
                CutOff(vaddr, size, o) ==> n < WINDOW && ByteMapsTo(mem, root, vaddr, paddr, o)
      {
        RightAfterIff(mem, root, vaddr, paddr, size, o);
      }
    }
  }

  lemma {:induction false} FirstByte(mem: Memory, root: Usize, vaddr: Usize, paddr: Usize, size: nat)
    requires Tree(mem, root, 2) && 0 < size
    ensures RightAfter(mem, root, vaddr, paddr, size, 0) <==> vaddr % 4096 == paddr % 4096 && PagesFor(size) <= WINDOW
    ensures !CutOff(vaddr, size, 0)
  {
    assert PagesFor(size) > 0 && (vaddr % 4096 + 0) / 4096 == 0;
  }

  lemma {:induction false} RightAfterIff(mem: Memory, root: Usize, vaddr: Usize, paddr: Usize, size: nat, o: nat)
    requires Tree(mem, root, 2) && o < size && PageStart(vaddr) + PagesFor(size) * 4096 <= USIZE_LIMIT
    requires vaddr % 4096 == paddr % 4096 && PagesFor(size) <= WINDOW
    ensures RightAfter(mem, root, vaddr, paddr, size, o) <==>
            CutOff(vaddr, size, o) ==> PagesFor(size) < WINDOW && ByteMapsTo(mem, root, vaddr, paddr, o)
  {
    PageOfByte(vaddr, size, o);
    InWindow((vaddr % 4096 + o) / 4096);
    assert PagesFor(size) > 0;
  }

  /** A byte on page `o / 4096` of a range leads to its own target byte if and only if no later page of
      the range has the same 27 index bits. */
  lemma {:induction false} AlignedByteIff(mem: Memory, mem': Memory, root: Usize, va: Usize, pa: nat, leaves: seq<Leaf>, o: nat)
    requires Tree(mem, root, 2) && Tree(mem', root, 2) && Aligned(va) && va + o < USIZE_LIMIT && o / 4096 < |leaves|
    requires RangeMapped(mem, mem', root, va, leaves) && Consecutive(leaves, pa)
    ensures Translate(mem', root, 2, va + o) == Some(pa + o) <==> |leaves| <= o / 4096 + WINDOW
  {
    var page := o / 4096;
    InWindow(page);
    RangeByte(mem, mem', root, va, pa, leaves, o);
    LastAtIsLast(|leaves|, page % WINDOW, page);
    assert o == page * 4096 + o % 4096;
  }

  lemma {:induction false} WithinPages(size: nat, o: nat)
    requires o < size
    ensures o / 4096 < PagesFor(size) && o < PagesFor(size) * 4096
  {
  }

  /** After `map_range` of aligned addresses every byte of the range leads to its own target byte,
      whatever was mapped there before. */
  lemma {:induction false} AlignedRange(mem: Memory, mem': Memory, root: Usize, vaddr: Usize, paddr: Usize, size: nat, bits: Usize, o: nat)
    requires Tree(mem, root, 2) && Tree(mem', root, 2) && bits < 1024 && o < size
    requires Aligned(vaddr) && Aligned(paddr) && PagesFor(size) <= WINDOW
    requires vaddr + PagesFor(size) * 4096 <= USIZE_LIMIT && paddr + PagesFor(size) * 4096 <= 0x100_0000_0000_0000
    requires RangeMapped(mem, mem', root, vaddr, Leaves(paddr, PagesFor(size), bits))
    ensures vaddr + o < USIZE_LIMIT && Translate(mem', root, 2, vaddr + o) == Some(paddr + o)
  {
    LeavesConsecutive(paddr, PagesFor(size), bits);
    WithinPages(size, o);
    AlignedByteIff(mem, mem', root, vaddr, paddr, Leaves(paddr, PagesFor(size), bits), o);
  }

  /** After `id_map_range(start, end)` an address of the range, aligned or not, leads to itself if and
      only if no later page of the range has the same 27 index bits; so all do within 2^39 bytes. */
  lemma {:induction false} IdentityRange(mem: Memory, mem': Memory, root: Usize, start: Usize, end: Usize, bits: Usize, a: Usize)
    requires Tree(mem, root, 2) && Tree(mem', root, 2) && bits < 1024 && start <= a < end
    requires PageStart(start) + PagesFor(end - PageStart(start)) * 4096 <= 0x100_0000_0000_0000
    requires RangeMapped(mem, mem', root, PageStart(start), Leaves(PageStart(start), PagesFor(end - PageStart(start)), bits))
    ensures Translate(mem', root, 2, a) == Some(a) <==>
            PagesFor(end - PageStart(start)) <= (a - PageStart(start)) / 4096 + WINDOW
  {
    var first := PageStart(start);
    LeavesConsecutive(first, PagesFor(end - first), bits);
    WithinPages(end - first, a - first);
    AlignedByteIff(mem, mem', root, first, first, Leaves(first, PagesFor(end - first), bits), a - first);
  }

  function PagesFor(size: nat): nat {
    (size + 0xfff) / 4096
  }

  /** That is the least number of pages that have room for `size` bytes. */
  lemma {:induction false} PagesForIsLeast(size: nat, n: nat)
    ensures n >= PagesFor(size) <==> size <= n * 4096
  {
  }

  /** The bits of the flag field that make an entry a leaf are R, W and X. */
  lemma {:induction false} LeafBits(e: nat)
    ensures IsLeaf(e) <==> e / 2 % 2 == 1 || e / 4 % 2 == 1 || e / 8 % 2 == 1
  {
    var h := e / 2;
    assert e / 4 == h / 2 && e / 8 == h / 4;
    Digits(h, 2, 4);
    Digits(h / 2, 2, 2);
  }

  /** After `map` the flags of every address on the page of `vaddr` are the caller's, and valid; those of
      every other address are as they were. */
  lemma {:induction false} MapFlags(mem: Memory, mem': Memory, root: Usize, vaddr: Usize, frame: nat, bits: Usize, w: Usize)
    requires Tree(mem, root, 2) && Tree(mem', root, 2)
    requires Remapped(mem, mem', root, vaddr, Leaf(frame, Or(bits % 1024, 1)))
    ensures FlagsAt(mem', root, w) ==
            if SamePage(w, vaddr) then Some(bits % 1024 - bits % 2 + 1) else FlagsAt(mem, root, w)
  {
    assert RemappedAt(mem, mem', root, vaddr, Leaf(frame, Or(bits % 1024, 1)), w);
    CallersFlags(bits);
  }

  lemma {:induction false} CallersFlags(bits: Usize)
    ensures Or(bits % 1024, 1) == bits % 1024 - bits % 2 + 1
  {
    ValidBitSet(bits % 1024);
    EvenModulus(bits);
  }

  lemma {:induction false} EvenModulus(n: nat)
    ensures n % 1024 % 2 == n % 2
  {
  }

  /** A leaf above level 0 keeps the low fields of the virtual page number, as in section 4.3.2. */
  lemma {:induction false} SuperpageAddress(e: Usize, va: Usize)
    ensures LeafAddress(e, va, 1) == (EntryFrame(e) / 512 * 512 + Vpn(va, 0)) * 4096 + va % 4096
    ensures LeafAddress(e, va, 2) == (EntryFrame(e) / 0x4_0000 * 0x4_0000 + Vpn(va, 1) * 512 + Vpn(va, 0)) * 4096 + va % 4096
  {
    EntryAddress(e);
    VpnFields(va);
    Superpage(EntryFrame(e) * 4096 + e % 1024 * 4, va);
  }

  lemma {:induction false} EntryAddress(e: Usize)
    ensures e * 4 % USIZE_LIMIT == EntryFrame(e) * 4096 + e % 1024 * 4
  {
    var f := e / 1024;
    assert e * 4 == f * 4096 + e % 1024 * 4;
    assert f == f / 0x10_0000_0000_0000 * 0x10_0000_0000_0000 + f % 0x10_0000_0000_0000;
  }

  lemma {:induction false} Superpage(a: nat, va: Usize)
    ensures a / 0x20_0000 * 0x20_0000 + va % 0x20_0000 == (a / 4096 / 512 * 512 + va / 0x1000 % 512) * 4096 + va % 4096
    ensures a / 0x4000_0000 * 0x4000_0000 + va % 0x4000_0000 ==
            (a / 4096 / 0x4_0000 * 0x4_0000 + va / 0x20_0000 % 512 * 512 + va / 0x1000 % 512) * 4096 + va % 4096
  {
    Digits(a, 4096, 512);
    Digits(a, 4096, 0x4_0000);
    LowDigits(va);
  }

  lemma {:induction false} LowDigits(va: Usize)
    ensures va % 0x20_0000 == va / 0x1000 % 512 * 4096 + va % 4096
    ensures va % 0x4000_0000 == va / 0x20_0000 % 512 * 0x20_0000 + va / 0x1000 % 512 * 4096 + va % 4096
  {
    Digits(va, 4096, 512);
    Digits(va, 0x20_0000, 512);
  }
}
