/** The operations of src/arch/riscv64/paging.rs on page memory, with its loops and its allocator. */
module Paging {
  import opened Basics
  import opened Words
  import opened PageTables
  import opened PageUpdates
  import opened PageMapping
  import opened PageClone
  import opened PageTeardown

  // ----- Page memory and its allocator -----

  /** The pages that the allocator will hand out next: page-aligned, distinct and not in use. */
  ghost predicate PoolOk(mem: Memory, pool: seq<Usize>) {
    && (forall i :: 0 <= i < |pool| ==> Aligned(pool[i]) && pool[i] !in mem)
    && (forall i, j :: 0 <= i < j < |pool| ==> pool[i] != pool[j])
  }

  class PageMemory {
    var mem: Memory
    var pool: seq<Usize>

    /** `alloc_zeroed` of one page. */
    method AllocZeroed() returns (page: Usize)
      requires PoolOk(mem, pool) && pool != []
      modifies this
      ensures PoolOk(mem, pool) && pool == old(pool)[1..]
      ensures page !in old(mem) && Aligned(page) && mem == old(mem)[page := ZeroPage()]
    {
      page := pool[0];
      pool := pool[1..];
      mem := mem[page := ZeroPage()];
    }

    /** `dealloc` of one page, which must be allocated; it may be handed out again. */
    method Dealloc(page: Usize)
      requires PoolOk(mem, pool) && page in mem && Aligned(page)
      modifies this
      ensures PoolOk(mem, pool) && pool == old(pool) + [page] && mem == old(mem) - {page}
    {
      mem := mem - {page};
      pool := pool + [page];
    }

    method Write(page: Usize, i: nat, e: Usize)
      requires page in mem && i < |mem[page]|
      modifies this`mem
      ensures mem == SetEntry(old(mem), page, i, e)
    {
      mem := mem[page := Replace(mem[page], i, e)];
    }

    /** Walks down to level 0, adding tables on the way, and writes the leaf. */
    method Map(root: Usize, vaddr: Usize, paddr: Usize, bits: Usize)
      requires PoolOk(mem, pool) && |pool| >= 2 && Tree(mem, root, 2) && IsLeaf(bits)
      modifies this
      ensures PoolOk(mem, pool) && |pool| >= |old(pool)| - 2
      ensures Confined(old(mem), mem, root)
      ensures Remapped(old(mem), mem, root, vaddr, Leaf(MappedFrame(paddr, bits), Or(bits % 1024, 1)))
    {
      var vpn := [vaddr / 0x1000 % 512, vaddr / 0x20_0000 % 512, vaddr / 0x4000_0000 % 512];
      VpnFields(vaddr);
      var page, index := root, vpn[2];
      var i := 2;
      while i > 0
        invariant 0 <= i <= 2 && index == vpn[i] && page in mem && |mem[page]| == 512
        invariant PoolOk(mem, pool) && |pool| >= |old(pool)| - 2 + i
        invariant Confined(old(mem), mem, root) && SameMeaning(old(mem), mem, root)
        invariant OnPath(mem, root, 2, vaddr, page, i)
      {
        page := Descend(root, vaddr, page, i);
        i := i - 1;
        index := vpn[i];
      }
      LeafEntryMeaning(paddr, bits);
      ghost var grown := mem;
      WriteLeaf(root, vaddr, page, LeafEntry(paddr, bits));
      ConfinedChain(old(mem), grown, mem, root);
      SameThenRemapped(old(mem), grown, mem, root, vaddr, MappedLeaf(paddr, bits));
    }

    /** The `is_invalid` case of the walk: a fresh empty table is hung into the entry. */
    method AddTable(root: Usize, vaddr: Usize, page: Usize, level: nat)
      requires PoolOk(mem, pool) && pool != [] && Tree(mem, root, 2) && 0 < level <= 2
      requires OnPath(mem, root, 2, vaddr, page, level) && Tree(mem, page, level) && !IsValid(mem[page][Vpn(vaddr, level)])
      modifies this
      ensures PoolOk(mem, pool) && |pool| == |old(pool)| - 1
      ensures Confined(old(mem), mem, root) && SameMeaning(old(mem), mem, root)
      ensures OnPath(mem, root, 2, vaddr, page, level)
      ensures page in mem && |mem[page]| == 512 && IsValid(mem[page][Vpn(vaddr, level)])
      ensures var entry := mem[page][Vpn(vaddr, level)];
              entry % 1024 == 1 && Target(entry) in mem && mem[Target(entry)] == ZeroPage()
    {
      var newPage := AllocZeroed();
      BranchEntryDecodes(newPage, 1);
      GrowOnPath(old(mem), root, vaddr, page, level, newPage, BranchEntry(newPage, 1));
      Write(page, Vpn(vaddr, level), BranchEntry(newPage, 1));
    }

    /** The last statement of `map`. */
    method WriteLeaf(root: Usize, vaddr: Usize, page: Usize, entry: Usize)
      requires PoolOk(mem, pool) && Tree(mem, root, 2) && OnPath(mem, root, 2, vaddr, page, 0)
      requires IsValid(entry) && IsLeaf(entry)
      modifies this`mem
      ensures PoolOk(mem, pool)
      ensures Confined(old(mem), mem, root) && Remapped(old(mem), mem, root, vaddr, LeafOf(entry))
    {
      PathPages(mem, root, 2, vaddr, page, 0);
      LeafOnPath(mem, root, vaddr, page, entry);
      Write(page, Vpn(vaddr, 0), entry);
    }

    /** One round of that walk: the table below entry `vpn[level]`, added if there is none. */
    method Descend(root: Usize, vaddr: Usize, page: Usize, level: nat) returns (next: Usize)
      requires PoolOk(mem, pool) && pool != [] && Tree(mem, root, 2)
      requires 0 < level <= 2 && OnPath(mem, root, 2, vaddr, page, level) && page in mem && |mem[page]| == 512
      modifies this
      ensures PoolOk(mem, pool) && |pool| >= |old(pool)| - 1
      ensures Confined(old(mem), mem, root) && SameMeaning(old(mem), mem, root)
      ensures next in mem && |mem[next]| == 512 && OnPath(mem, root, 2, vaddr, next, level - 1)
    {
      var index := Vpn(vaddr, level);
      PathPages(mem, root, 2, vaddr, page, level);
      if !IsValid(mem[page][index]) {
        AddTable(root, vaddr, page, level);
      }
      next := Target(mem[page][index]);
      PathExtends(mem, root, 2, vaddr, page, level);
      PathPages(mem, root, 2, vaddr, next, level - 1);
    }

    /** The walk of `virt_to_phys`. */
    method VirtToPhys(root: Usize, vaddr: Usize) returns (paddr: Option<nat>)
      requires Walkable(mem, root, 2, vaddr)
      ensures paddr == Walk(mem, root, 2, vaddr)
    {
      var vpn := [vaddr / 0x1000 % 512, vaddr / 0x20_0000 % 512, vaddr / 0x4000_0000 % 512];
      VpnFields(vaddr);
      var page, index := root, vpn[2];
      var i: int := 2;
      while i >= 0
        invariant 0 <= i <= 2 && index == vpn[i] && Walkable(mem, page, i, vaddr)
        invariant Walk(mem, root, 2, vaddr) == Walk(mem, page, i, vaddr)
      {
        var entry := mem[page][index];
        if !IsValid(entry) {
          break;
        } else if IsLeaf(entry) {
          return Some(LeafAddress(entry, vaddr, i));
        }
        page, index := Target(entry), vpn[i - 1];
        i := i - 1;
      }
      return None;
    }

    // ----- Ranges -----

    /** Maps `count` pages in a row; the loop of both range operations. */
    method MapPages(root: Usize, va: Usize, pa: Usize, count: nat, bits: Usize)
      requires PoolOk(mem, pool) && |pool| >= 2 * count && Tree(mem, root, 2) && IsLeaf(bits)
      requires Aligned(va) && Aligned(pa)
      requires va + count * 4096 <= USIZE_LIMIT && pa + count * 4096 <= USIZE_LIMIT
      modifies this
      ensures PoolOk(mem, pool) && Confined(old(mem), mem, root)
      ensures RangeMapped(old(mem), mem, root, va, Leaves(pa, count, bits))
    {
      var k := 0;
      while k < count
        invariant k <= count && PoolOk(mem, pool) && |pool| >= 2 * (count - k)
        invariant Confined(old(mem), mem, root)
        invariant RangeMapped(old(mem), mem, root, va, Leaves(pa, k, bits))
      {
        MapPage(root, va, pa, k, bits, old(mem));
        k := k + 1;
      }
    }

    /** One round of that loop. */
    method MapPage(root: Usize, va: Usize, pa: Usize, k: nat, bits: Usize, ghost mem0: Memory)
      requires PoolOk(mem, pool) && |pool| >= 2 && Confined(mem0, mem, root) && IsLeaf(bits) && Aligned(va)
      requires va + k * 4096 < USIZE_LIMIT && pa + (k + 1) * 4096 <= USIZE_LIMIT
      requires RangeMapped(mem0, mem, root, va, Leaves(pa, k, bits))
      modifies this
      ensures PoolOk(mem, pool) && |pool| >= |old(pool)| - 2 && Confined(mem0, mem, root)
      ensures RangeMapped(mem0, mem, root, va, Leaves(pa, k + 1, bits))
    {
      OneMoreLeaf(pa, k, bits);
      MapNext(root, va, va + k * 4096, pa + k * 4096, bits, mem0, Leaves(pa, k, bits));
    }

    /** The next page after those with these leaves. */
    method MapNext(root: Usize, va: Usize, memaddrV: Usize, memaddr: Usize, bits: Usize, ghost mem0: Memory, ghost leaves: seq<Leaf>)
      requires PoolOk(mem, pool) && |pool| >= 2 && Confined(mem0, mem, root) && IsLeaf(bits)
      requires Aligned(va) && memaddrV == va + |leaves| * 4096
      requires RangeMapped(mem0, mem, root, va, leaves)
      modifies this
      ensures PoolOk(mem, pool) && |pool| >= |old(pool)| - 2 && Confined(mem0, mem, root)
      ensures RangeMapped(mem0, mem, root, va, leaves + [MappedLeaf(memaddr, bits)])
    {
      ghost var mid := mem;
      Map(root, memaddrV, memaddr, bits);
      RangeStep(mem0, mid, mem, root, va, leaves, memaddrV, MappedLeaf(memaddr, bits));
      ConfinedChain(mem0, mid, mem, root);
    }

    /** `map_range`: the pages from that of `vaddr` on, as many as `size` rounds up to. */
    method MapRange(root: Usize, vaddr: Usize, paddr: Usize, size: nat, bits: Usize)
      requires PoolOk(mem, pool) && Tree(mem, root, 2) && IsLeaf(bits)
      requires |pool| >= 2 * PagesFor(size)
      requires PageStart(paddr) + size + 0xfff < USIZE_LIMIT
      requires PageStart(vaddr) + PagesFor(size) * 4096 <= USIZE_LIMIT
      modifies this
      ensures PoolOk(mem, pool) && Confined(old(mem), mem, root)
      ensures RangeMapped(old(mem), mem, root, PageStart(vaddr), Leaves(PageStart(paddr), PagesFor(size), bits))
    {
      var memaddr, memaddrV := PageStart(paddr), PageStart(vaddr);
      AlignedSize(memaddr, size);
      var numKbPages := (AlignVal(memaddr + size) - memaddr) / PAGE_SIZE;
      MapPages(root, memaddrV, memaddr, numKbPages, bits);
    }

    /** `id_map_range`: every page that has a byte of `start..end`. */
    method IdMapRange(root: Usize, start: Usize, end: Usize, bits: Usize)
      requires PoolOk(mem, pool) && Tree(mem, root, 2) && IsLeaf(bits)
      requires start <= end && end + 0xfff < USIZE_LIMIT
      requires |pool| >= 2 * PagesFor(end - PageStart(start))
      modifies this
      ensures PoolOk(mem, pool) && Confined(old(mem), mem, root)
      ensures RangeMapped(old(mem), mem, root, PageStart(start), Leaves(PageStart(start), PagesFor(end - PageStart(start)), bits))
    {
      var memaddr := PageStart(start);
      AlignedSize(memaddr, end - memaddr);
      var numKbPages := (AlignVal(end) - memaddr) / PAGE_SIZE;
      MapPages(root, memaddr, memaddr, numKbPages, bits);
    }

    // ----- Deep copy -----

    /** `Table::clone`: copies leaves, and recurses below branches. */
    method Clone(page: Usize, ghost level: nat) returns (newTable: Usize)
      requires PoolOk(mem, pool) && Tree(mem, page, level) && |pool| >= PageCount(mem, page, level)
      modifies this
      decreases level, 0
      ensures PoolOk(mem, pool) && pool == old(pool)[PageCount(old(mem), page, level)..]
      ensures Cloned(old(mem), mem, page, newTable, level) && newTable !in old(mem) && Aligned(newTable)
    {
      newTable := AllocZeroed();
      CopyStarts(old(mem), page, newTable, level);
      var i := 0;
      while i < 512
        invariant i <= 512 && Copying(old(mem), mem, page, newTable, level, i) && mem[page] == old(mem)[page]
        invariant PoolOk(mem, pool)
        invariant 1 + KidCount(old(mem), page, level, i) <= |old(pool)|
        invariant pool == old(pool)[1 + KidCount(old(mem), page, level, i)..]
      {
        KidCountGrows(old(mem), page, level, i + 1, 512);
        assert EntryOk(old(mem), page, level, i);
        if !IsValid(mem[page][i]) {
          CopySkips(old(mem), mem, page, newTable, level, i);
        } else if !IsLeaf(mem[page][i]) {
          CloneBranch(page, newTable, i, level, old(mem));
        } else {
          CopiesLeaf(old(mem), mem, page, newTable, level, i);
          Write(newTable, i, mem[page][i]);
        }
        i := i + 1;
      }
    }

    /** The branch case of that loop. */
    method CloneBranch(page: Usize, newTable: Usize, i: nat, ghost level: nat, ghost mem0: Memory)
      requires Tree(mem0, page, level) && level > 0 && i < 512 && IsValid(mem0[page][i]) && !IsLeaf(mem0[page][i])
      requires Tree(mem0, Target(mem0[page][i]), level - 1)
      requires Copying(mem0, mem, page, newTable, level, i) && mem[page] == mem0[page]
      requires PoolOk(mem, pool) && |pool| >= PageCount(mem0, Target(mem0[page][i]), level - 1)
      modifies this
      decreases level - 1, 1
      ensures PoolOk(mem, pool) && pool == old(pool)[PageCount(mem0, Target(mem0[page][i]), level - 1)..]
      ensures Copying(mem0, mem, page, newTable, level, i + 1) && mem[page] == mem0[page]
    {
      var entry := mem[page][i];
      var flags, oldTable := Flags(entry), Target(entry);
      ghost var mem1 := mem;
      BesideKeeps(mem0, mem, newTable, level, oldTable, level - 1);
      CountFrame(mem0, mem, oldTable, level - 1);
      var table := Clone(oldTable, level - 1);
      BranchEntryDecodes(table, flags);
      SameLowBits(entry);
      CopiesBranch(mem0, mem1, mem, page, newTable, level, i, table, BranchEntry(table, flags));
      Write(newTable, i, BranchEntry(table, flags));
    }

    // ----- Teardown -----

    /** `unmap`: frees every table page below the root. */
    method Unmap(root: Usize)
      requires PoolOk(mem, pool) && Tree(mem, root, 2)
      modifies this
      ensures PoolOk(mem, pool) && |pool| == |old(pool)| + PageCount(old(mem), root, 2) - 1
      ensures mem == old(mem) - (Pages(old(mem), root, 2) - {root})
    {
      var lv3 := 0;
      while lv3 < 512
        invariant lv3 <= 512 && PoolOk(mem, pool)
        invariant mem == old(mem) - KidsBelow(old(mem), root, 2, lv3)
        invariant |pool| == |old(pool)| + KidCount(old(mem), root, 2, lv3)
      {
        NextKidWhole(old(mem), mem, root, 2, lv3);
        var entry := mem[root][lv3];
        if IsValid(entry) && !IsLeaf(entry) {
          ghost var before := mem;
          UnmapLevel2(Target(entry));
          TargetAligned(entry);
          Dealloc(Target(entry));
          KidFreed(old(mem), before, root, 2, lv3, Target(entry));
        } else {
          NothingToFree(old(mem), root, 2, lv3);
        }
        lv3 := lv3 + 1;
      }
      KidsBelowAll(old(mem), root, 2);
    }

    /** The middle loop of `unmap`. */
    method UnmapLevel2(table: Usize)
      requires PoolOk(mem, pool) && Tree(mem, table, 1)
      modifies this
      ensures PoolOk(mem, pool) && |pool| == |old(pool)| + PageCount(old(mem), table, 1) - 1
      ensures mem == old(mem) - (Pages(old(mem), table, 1) - {table})
    {
      var lv2 := 0;
      while lv2 < 512
        invariant lv2 <= 512 && PoolOk(mem, pool)
        invariant mem == old(mem) - KidsBelow(old(mem), table, 1, lv2)
        invariant |pool| == |old(pool)| + KidCount(old(mem), table, 1, lv2)
      {
        NextKidWhole(old(mem), mem, table, 1, lv2);
        var entry := mem[table][lv2];
        if IsValid(entry) && !IsLeaf(entry) {
          ghost var before := mem;
          UnmapLevel1(Target(entry));
          TargetAligned(entry);
          Dealloc(Target(entry));
          KidFreed(old(mem), before, table, 1, lv2, Target(entry));
        } else {
          NothingToFree(old(mem), table, 1, lv2);
        }
        lv2 := lv2 + 1;
      }
      KidsBelowAll(old(mem), table, 1);
    }

    /** The innermost loop of `unmap`, which never finds anything to free. */
    method UnmapLevel1(table: Usize)
      requires PoolOk(mem, pool) && Tree(mem, table, 0)
      modifies this
      ensures PoolOk(mem, pool) && mem == old(mem) && pool == old(pool)
      ensures PageCount(mem, table, 0) == 1 && Pages(mem, table, 0) == {table}
    {
      var lv1 := 0;
      while lv1 < 512
        invariant lv1 <= 512 && mem == old(mem) && pool == old(pool)
        invariant KidCount(mem, table, 0, lv1) == 0
      {
        var entry := mem[table][lv1];
        assert EntryOk(mem, table, 0, lv1);
        if IsValid(entry) && !IsLeaf(entry) {
          assert false;  // a level-0 branch, whose target the source would free
        }
        lv1 := lv1 + 1;
      }
      LevelZeroPages(mem, table);
    }
  }

  /** `align_val(val, 12)`. */
  function AlignVal(val: nat): nat
    requires val + 0xfff < USIZE_LIMIT
  {
    (val + 0xfff) / 4096 * 4096
  }

  lemma {:induction false} AlignedSize(start: nat, size: nat)
    requires Aligned(start) && start + size + 0xfff < USIZE_LIMIT
    ensures AlignVal(start + size) == start + PagesFor(size) * 4096
    ensures (AlignVal(start + size) - start) / PAGE_SIZE == PagesFor(size)
  {
  }

  lemma {:induction false} SameLowBits(e: Usize)
    ensures IsValid(Flags(e)) <==> IsValid(e)
    ensures IsLeaf(Flags(e)) <==> IsLeaf(e)
  {
    Digits(e, 2, 512);
    Digits(e / 2, 8, 64);
  }
}
