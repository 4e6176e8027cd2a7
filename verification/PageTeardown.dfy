/** What `unmap` frees: every page of a table but its root, each exactly once. */
module PageTeardown {
  import opened Words
  import opened PageTables
  import opened PageClone

  /** The pages below the first `n` entries of `p`. */
  function KidsBelow(mem: Memory, p: Usize, level: nat, n: nat): set<Usize>
    requires Tree(mem, p, level) && n <= 512
  {
    set i, q | 0 <= i < n && q in Kids(mem, p, level, i) :: q
  }

  lemma {:induction false} KidsBelowStep(mem: Memory, p: Usize, level: nat, n: nat)
    requires Tree(mem, p, level) && n < 512
    ensures KidsBelow(mem, p, level, n + 1) == KidsBelow(mem, p, level, n) + Kids(mem, p, level, n)
    ensures KidsBelow(mem, p, level, n) !! Kids(mem, p, level, n)
  {
    forall q | q in KidsBelow(mem, p, level, n) ensures q !in Kids(mem, p, level, n) {
      var i :| 0 <= i < n && q in Kids(mem, p, level, i);
      assert Kids(mem, p, level, i) !! Kids(mem, p, level, n);
    }
  }

  lemma {:induction false} KidsBelowAll(mem: Memory, p: Usize, level: nat)
    requires Tree(mem, p, level)
    ensures KidsBelow(mem, p, level, 512) == Pages(mem, p, level) - {p}
  {
    forall i | 0 <= i < 512 ensures p !in Kids(mem, p, level, i) {
      assert EntryOk(mem, p, level, i);
    }
  }

  /** With the pages below the earlier entries gone, the root and the table below entry `n` are whole. */
  lemma {:induction false} NextKidWhole(mem0: Memory, mem: Memory, p: Usize, level: nat, n: nat)
    requires Tree(mem0, p, level) && n < 512 && mem == mem0 - KidsBelow(mem0, p, level, n)
    ensures p in mem && mem[p] == mem0[p]
    ensures level > 0 && IsValid(mem[p][n]) ==>
              var c := Target(mem[p][n]);
              && !IsLeaf(mem[p][n]) && Tree(mem, c, level - 1) && Tree(mem0, c, level - 1)
              && Pages(mem, c, level - 1) == Kids(mem0, p, level, n)
              && PageCount(mem, c, level - 1) == PageCount(mem0, c, level - 1)
  {
    KidsBelowAll(mem0, p, level);
    forall q | q in KidsBelow(mem0, p, level, n) ensures q != p {
      assert q in KidsBelow(mem0, p, level, 512);
    }
    if level > 0 && IsValid(mem0[p][n]) {
      var c := Target(mem0[p][n]);
      assert EntryOk(mem0, p, level, n);
      KidsBelowStep(mem0, p, level, n);
      PagesAllocated(mem0, c, level - 1);
      TreeFrame(mem0, mem, c, level - 1);
      CountFrame(mem0, mem, c, level - 1);
    }
  }

  /** Freeing the pages below a table and then its root page frees the whole table. */
  lemma {:induction false} KidFreed(mem0: Memory, mem: Memory, p: Usize, level: nat, n: nat, c: Usize)
    requires Tree(mem0, p, level) && n < 512 && level > 0 && mem == mem0 - KidsBelow(mem0, p, level, n)
    requires c in Kids(mem0, p, level, n)
    ensures mem - (Kids(mem0, p, level, n) - {c}) - {c} == mem0 - KidsBelow(mem0, p, level, n + 1)
  {
    KidsBelowStep(mem0, p, level, n);
    var gone := Kids(mem0, p, level, n);
    assert (gone - {c}) + {c} == gone;
  }

  /** An entry with nothing below it frees nothing. */
  lemma {:induction false} NothingToFree(mem0: Memory, p: Usize, level: nat, n: nat)
    requires Tree(mem0, p, level) && n < 512 && (level == 0 || !IsValid(mem0[p][n]))
    ensures KidsBelow(mem0, p, level, n + 1) == KidsBelow(mem0, p, level, n)
    ensures KidCount(mem0, p, level, n + 1) == KidCount(mem0, p, level, n)
  {
    KidsBelowStep(mem0, p, level, n);
  }

  lemma {:induction false} TargetAligned(e: Usize)
    ensures Aligned(Target(e))
  {
    var n := e / 1024;
    assert USIZE_LIMIT == 4096 * 0x10_0000_0000_0000;
    assert n * 4096 == n / 0x10_0000_0000_0000 * USIZE_LIMIT + n % 0x10_0000_0000_0000 * 4096;
    DivUnique(n * 4096, USIZE_LIMIT, n / 0x10_0000_0000_0000, n % 0x10_0000_0000_0000 * 4096);
  }

  /** Tearing a copy down, and freeing its root, undoes the copying: no page leaks and none is lost. */
  lemma {:induction false} TeardownUndoesClone(mem0: Memory, mem: Memory, p: Usize, copy: Usize, level: nat)
    requires Cloned(mem0, mem, p, copy, level)
    ensures mem - (Pages(mem, copy, level) - {copy}) - {copy} == mem0
  {
    var pages, rest := Pages(mem, copy, level), mem - (Pages(mem, copy, level) - {copy}) - {copy};
    assert (pages - {copy}) + {copy} == pages;
    assert rest.Keys == mem0.Keys;
    forall q | q in mem0 ensures rest[q] == mem0[q] {
      assert q in mem && mem[q] == mem0[q];
    }
  }
}
