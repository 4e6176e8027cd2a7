/** What `Table::clone` builds: a table of fresh pages that means the same as the original. */
module PageClone {
  import opened Words
  import opened PageTables
  import opened PageUpdates
  import opened PageMapping

  // ----- Counting pages -----

  function PageCount(mem: Memory, p: Usize, level: nat): nat
    requires Tree(mem, p, level)
    decreases level, 1, 0
  {
    1 + KidCount(mem, p, level, 512)
  }

  /** The pages below the first `n` entries. */
  function KidCount(mem: Memory, p: Usize, level: nat, n: nat): nat
    requires Tree(mem, p, level) && n <= 512
    decreases level, 0, n
  {
    if n == 0 then 0
    else
      assert EntryOk(mem, p, level, n - 1);
      KidCount(mem, p, level, n - 1)
      + if level > 0 && IsValid(mem[p][n - 1]) then PageCount(mem, Target(mem[p][n - 1]), level - 1) else 0
  }

  lemma {:induction false} KidCountGrows(mem: Memory, p: Usize, level: nat, m: nat, n: nat)
    requires Tree(mem, p, level) && m <= n <= 512
    ensures KidCount(mem, p, level, m) <= KidCount(mem, p, level, n)
    decreases n
  {
    if m < n {
      KidCountGrows(mem, p, level, m, n - 1);
    }
  }

  lemma {:induction false} CountFrame(mem: Memory, mem': Memory, p: Usize, level: nat)
    requires Tree(mem, p, level) && Tree(mem', p, level) && Agree(mem, mem', Pages(mem, p, level))
    ensures PageCount(mem', p, level) == PageCount(mem, p, level)
    decreases level, 1, 0
  {
    KidCountFrame(mem, mem', p, level, 512);
  }

  lemma {:induction false} KidCountFrame(mem: Memory, mem': Memory, p: Usize, level: nat, n: nat)
    requires Tree(mem, p, level) && Tree(mem', p, level) && Agree(mem, mem', Pages(mem, p, level)) && n <= 512
    ensures KidCount(mem', p, level, n) == KidCount(mem, p, level, n)
    decreases level, 0, n
  {
    if n > 0 {
      KidCountFrame(mem, mem', p, level, n - 1);
      assert EntryOk(mem, p, level, n - 1) && EntryOk(mem', p, level, n - 1);
      KidsWithin(mem, p, level, n - 1);
      if level > 0 && IsValid(mem[p][n - 1]) {
        CountFrame(mem, mem', Target(mem[p][n - 1]), level - 1);
      }
    }
  }

  // ----- Equal shape -----

  /** Entry `i` of `b` is a copy of entry `i` of `a`: the same leaf, or a branch with the same flags
      to a table of the same shape, or nothing where `a` has nothing. */
  ghost predicate ShapeAt(mem: Memory, a: Usize, b: Usize, level: nat, i: nat)
    requires Tree(mem, a, level) && Tree(mem, b, level) && i < 512
    decreases level, 0
  {
    var e, f := mem[a][i], mem[b][i];
    assert EntryOk(mem, a, level, i) && EntryOk(mem, b, level, i);
    if !IsValid(e) then f == 0
    else if IsLeaf(e) then f == e
    else IsValid(f) && Flags(f) == Flags(e) && SameShape(mem, Target(e), Target(f), level - 1)
  }

  ghost predicate SameShape(mem: Memory, a: Usize, b: Usize, level: nat)
    requires Tree(mem, a, level) && Tree(mem, b, level)
    decreases level, 1
  {
    forall i :: 0 <= i < 512 ==> ShapeAt(mem, a, b, level, i)
  }

  /** In tables of the same shape every address has the same leaf. */
  lemma {:induction false} ShapeLeaves(mem: Memory, a: Usize, b: Usize, level: nat, va: Usize)
    requires Tree(mem, a, level) && Tree(mem, b, level) && SameShape(mem, a, b, level)
    ensures LeafAt(mem, b, level, va) == LeafAt(mem, a, level, va)
    decreases level
  {
    var i := Vpn(va, level);
    var e, f := mem[a][i], mem[b][i];
    assert ShapeAt(mem, a, b, level, i) && EntryOk(mem, a, level, i) && EntryOk(mem, b, level, i);
    if IsValid(e) && !IsLeaf(e) {
      ShapeLeaves(mem, Target(e), Target(f), level - 1, va);
    }
  }

  lemma {:induction false} ShapeAtFrame(mem: Memory, mem': Memory, a: Usize, b: Usize, level: nat, i: nat)
    requires Tree(mem, a, level) && Tree(mem, b, level) && Tree(mem', a, level) && Tree(mem', b, level) && i < 512
    requires mem'[a][i] == mem[a][i] && mem'[b][i] == mem[b][i]
    requires Agree(mem, mem', Kids(mem, a, level, i)) && Agree(mem, mem', Kids(mem, b, level, i))
    requires ShapeAt(mem, a, b, level, i)
    ensures ShapeAt(mem', a, b, level, i)
    decreases level, 0
  {
    var e, f := mem[a][i], mem[b][i];
    assert EntryOk(mem, a, level, i) && EntryOk(mem, b, level, i);
    assert EntryOk(mem', a, level, i) && EntryOk(mem', b, level, i);
    if IsValid(e) && !IsLeaf(e) {
      ShapeFrame(mem, mem', Target(e), Target(f), level - 1);
    }
  }

  lemma {:induction false} ShapeFrame(mem: Memory, mem': Memory, a: Usize, b: Usize, level: nat)
    requires Tree(mem, a, level) && Tree(mem, b, level) && Tree(mem', a, level) && Tree(mem', b, level)
    requires Agree(mem, mem', Pages(mem, a, level)) && Agree(mem, mem', Pages(mem, b, level))
    requires SameShape(mem, a, b, level)
    ensures SameShape(mem', a, b, level)
    decreases level, 1
  {
    forall i | 0 <= i < 512 ensures ShapeAt(mem', a, b, level, i) {
      assert ShapeAt(mem, a, b, level, i);
      KidsWithin(mem, a, level, i);
      KidsWithin(mem, b, level, i);
      ShapeAtFrame(mem, mem', a, b, level, i);
    }
  }

  // ----- The copying loop -----

  /** `mem` is `mem0` with a well-formed table of new pages at `copy`, and nothing else. */
  ghost predicate Beside(mem0: Memory, mem: Memory, copy: Usize, level: nat) {
    && Tree(mem, copy, level)
    && mem.Keys == mem0.Keys + Pages(mem, copy, level)
    && Pages(mem, copy, level) !! mem0.Keys
    && Agree(mem0, mem, mem0.Keys)
  }

  /** The first `i` entries of `p` are copied, the others are still zero. */
  ghost predicate Copying(mem0: Memory, mem: Memory, p: Usize, copy: Usize, level: nat, i: nat) {
    && Beside(mem0, mem, copy, level)
    && Tree(mem, p, level)
    && (forall j :: 0 <= j < i && j < 512 ==> ShapeAt(mem, p, copy, level, j))
    && (forall j :: i <= j < 512 ==> mem[copy][j] == 0)
  }

  /** What `Table::clone` achieves. */
  ghost predicate Cloned(mem0: Memory, mem: Memory, p: Usize, copy: Usize, level: nat) {
    && Beside(mem0, mem, copy, level)
    && Tree(mem, p, level)
    && SameShape(mem, p, copy, level)
  }

  lemma {:induction false} BesideKeeps(mem0: Memory, mem: Memory, copy: Usize, level: nat, p: Usize, l: nat)
    requires Tree(mem0, p, l) && Agree(mem0, mem, mem0.Keys)
    ensures Tree(mem, p, l) && Pages(mem, p, l) == Pages(mem0, p, l) <= mem0.Keys
  {
    PagesAllocated(mem0, p, l);
    TreeFrame(mem0, mem, p, l);
  }

  lemma {:induction false} CopyStarts(mem0: Memory, p: Usize, copy: Usize, level: nat)
    requires Tree(mem0, p, level) && copy !in mem0
    ensures Copying(mem0, mem0[copy := ZeroPage()], p, copy, level, 0)
  {
    var mem := mem0[copy := ZeroPage()];
    ZeroTree(mem, copy, level);
    BesideKeeps(mem0, mem, copy, level, p, level);
  }

  lemma {:induction false} CopySkips(mem0: Memory, mem: Memory, p: Usize, copy: Usize, level: nat, i: nat)
    requires Copying(mem0, mem, p, copy, level, i) && i < 512 && !IsValid(mem[p][i])
    ensures Copying(mem0, mem, p, copy, level, i + 1)
  {
    assert ShapeAt(mem, p, copy, level, i);
  }

  lemma {:induction false} CopiesLeaf(mem0: Memory, mem: Memory, p: Usize, copy: Usize, level: nat, i: nat)
    requires Copying(mem0, mem, p, copy, level, i) && Tree(mem0, p, level) && i < 512
    requires IsValid(mem[p][i]) && IsLeaf(mem[p][i])
    ensures Copying(mem0, SetEntry(mem, copy, i, mem[p][i]), p, copy, level, i + 1)
  {
    var mem' := SetEntry(mem, copy, i, mem[p][i]);
    assert EntryOk(mem, p, level, i);
    LeafHere(mem, copy, i, mem[p][i]);
    assert Pages(mem', copy, 0) == Pages(mem, copy, 0) by {
      LevelZeroPages(mem, copy);
      LevelZeroPages(mem', copy);
    }
    BesideKeeps(mem0, mem', copy, level, p, level);
    PagesAllocated(mem0, p, level);
    forall j | 0 <= j < i + 1 && j < 512 ensures ShapeAt(mem', p, copy, level, j) {
      assert j < i ==> ShapeAt(mem, p, copy, level, j);
      assert EntryOk(mem, p, level, j) && mem'[p] == mem[p];
    }
  }

  lemma {:induction false} LevelZeroPages(mem: Memory, p: Usize)
    requires p in mem
    ensures Pages(mem, p, 0) == {p}
  {
  }

  // ----- A branch entry: the recursive copy is hung into the copy -----

  lemma {:induction false} CopiedBranchBeside(mem0: Memory, mem1: Memory, mem2: Memory, copy: Usize, level: nat, i: nat, kid: Usize, e: Usize)
    requires Beside(mem0, mem1, copy, level) && level > 0 && i < 512 && mem1[copy][i] == 0
    requires Beside(mem1, mem2, kid, level - 1) && IsValid(e) && !IsLeaf(e) && Target(e) == kid
    ensures Tree(mem2, copy, level) && Pages(mem2, copy, level) == Pages(mem1, copy, level)
    ensures Beside(mem0, SetEntry(mem2, copy, i, e), copy, level)
  {
    BesideKeeps(mem1, mem2, kid, level - 1, copy, level);
    InstallKid(mem2, copy, level, i, e);
  }

  lemma {:induction false} CopiedBranchOld(mem0: Memory, mem1: Memory, mem2: Memory, p: Usize, copy: Usize, level: nat, i: nat,
                                           kid: Usize, e: Usize, j: nat)
    requires Copying(mem0, mem1, p, copy, level, i) && Tree(mem0, p, level) && level > 0 && j < i < 512
    requires Beside(mem1, mem2, kid, level - 1) && IsValid(e) && !IsLeaf(e) && Target(e) == kid
    requires var mem' := SetEntry(mem2, copy, i, e); Tree(mem', p, level) && Tree(mem', copy, level)
    ensures ShapeAt(SetEntry(mem2, copy, i, e), p, copy, level, j)
  {
    var mem' := SetEntry(mem2, copy, i, e);
    assert ShapeAt(mem1, p, copy, level, j) && EntryOk(mem1, copy, level, j);
    PagesAllocated(mem1, copy, level);
    PagesAllocated(mem1, p, level);
    KidsWithin(mem1, copy, level, j);
    KidsWithin(mem1, p, level, j);
    BesideKeeps(mem0, mem1, copy, level, p, level);
    assert p in Pages(mem1, p, level);
    ShapeAtFrame(mem1, mem', p, copy, level, j);
  }

  lemma {:induction false} CopiedBranchNew(mem0: Memory, mem2: Memory, p: Usize, copy: Usize, level: nat, i: nat, kid: Usize, e: Usize)
    requires level > 0 && i < 512 && Tree(mem2, p, level) && IsValid(mem2[p][i]) && !IsLeaf(mem2[p][i])
    requires Tree(mem2, Target(mem2[p][i]), level - 1) && Tree(mem2, kid, level - 1)
    requires SameShape(mem2, Target(mem2[p][i]), kid, level - 1)
    requires IsValid(e) && !IsLeaf(e) && Target(e) == kid && Flags(e) == Flags(mem2[p][i])
    requires copy in mem2 && |mem2[copy]| == 512 && copy != p
    requires copy !in Pages(mem2, Target(mem2[p][i]), level - 1) && copy !in Pages(mem2, kid, level - 1)
    requires var mem' := SetEntry(mem2, copy, i, e); Tree(mem', p, level) && Tree(mem', copy, level)
    ensures ShapeAt(SetEntry(mem2, copy, i, e), p, copy, level, i)
  {
    var mem', c := SetEntry(mem2, copy, i, e), Target(mem2[p][i]);
    assert EntryOk(mem', p, level, i) && EntryOk(mem', copy, level, i);
    PagesAllocated(mem2, c, level - 1);
    PagesAllocated(mem2, kid, level - 1);
    ShapeFrame(mem2, mem', c, kid, level - 1);
  }

  lemma {:induction false} CopiesBranch(mem0: Memory, mem1: Memory, mem2: Memory, p: Usize, copy: Usize, level: nat, i: nat,
                                        kid: Usize, e: Usize)
    requires Copying(mem0, mem1, p, copy, level, i) && Tree(mem0, p, level) && level > 0 && i < 512
    requires IsValid(mem0[p][i]) && !IsLeaf(mem0[p][i])
    requires Cloned(mem1, mem2, Target(mem0[p][i]), kid, level - 1)
    requires IsValid(e) && !IsLeaf(e) && Target(e) == kid && Flags(e) == Flags(mem0[p][i])
    ensures copy in mem2 && |mem2[copy]| == 512 && Copying(mem0, SetEntry(mem2, copy, i, e), p, copy, level, i + 1)
  {
    CopiedBranchBeside(mem0, mem1, mem2, copy, level, i, kid, e);
    var mem' := SetEntry(mem2, copy, i, e);
    BesideKeeps(mem0, mem1, copy, level, p, level);
    BesideKeeps(mem1, mem2, kid, level - 1, p, level);
    BesideKeeps(mem0, mem', copy, level, p, level);
    assert copy in Pages(mem1, copy, level);
    assert p in mem0 && mem2[p] == mem0[p];
    KidsWithin(mem2, p, level, i);
    CopiedBranchNew(mem0, mem2, p, copy, level, i, kid, e);
    var n := i + 1;
    forall j | 0 <= j < n && j < 512 ensures ShapeAt(mem', p, copy, level, j) {
      if j < i {
        CopiedBranchOld(mem0, mem1, mem2, p, copy, level, i, kid, e, j);
      }
    }
  }

  // ----- What the copy is good for -----

  /** In the copy every address has the leaf that it has in the original, flags and all, and is
      translated alike. */
  lemma {:induction false} CloneTranslates(mem0: Memory, mem: Memory, p: Usize, copy: Usize, level: nat, va: Usize)
    requires Tree(mem0, p, level) && Cloned(mem0, mem, p, copy, level)
    ensures LeafAt(mem, copy, level, va) == LeafAt(mem0, p, level, va)
    ensures Translate(mem, copy, level, va) == Translate(mem0, p, level, va)
  {
    ShapeLeaves(mem, p, copy, level, va);
    PagesAllocated(mem0, p, level);
    LeafAtFrame(mem0, mem, p, level, va);
  }

  /** Changes to one of two tables without a common page leave the other one's meaning alone. */
  lemma {:induction false} OtherTableKept(mem: Memory, mem': Memory, a: Usize, b: Usize)
    requires Confined(mem, mem', a) && Tree(mem, b, 2) && Pages(mem, a, 2) !! Pages(mem, b, 2)
    ensures Tree(mem', b, 2) && SameMeaning(mem, mem', b) && Pages(mem', a, 2) !! Pages(mem', b, 2)
  {
    PagesAllocated(mem, b, 2);
    TreeFrame(mem, mem', b, 2);
    forall w: Usize ensures LeafAt(mem', b, 2, w) == LeafAt(mem, b, 2, w) {
      LeafAtFrame(mem, mem', b, 2, w);
    }
  }

  ghost predicate ChangesOnly(run: seq<Memory>, root: Usize) {
    forall i :: 0 < i < |run| ==> Confined(run[i - 1], run[i], root)
  }

  /** Any number of `map` calls on one of the two tables leaves every translation of the other as it
      was when the copy was made. */
  lemma {:induction false} CopiesAreIndependent(run: seq<Memory>, i: nat, a: Usize, b: Usize)
    requires i < |run| && ChangesOnly(run, a)
    requires Tree(run[0], b, 2) && Tree(run[0], a, 2) && Pages(run[0], a, 2) !! Pages(run[0], b, 2)
    ensures Tree(run[i], b, 2) && SameMeaning(run[0], run[i], b)
    ensures Tree(run[i], a, 2) && Pages(run[i], a, 2) !! Pages(run[i], b, 2)
  {
    if i > 0 {
      CopiesAreIndependent(run, i - 1, a, b);
      assert Confined(run[i - 1], run[i], a);
      OtherTableKept(run[i - 1], run[i], a, b);
    }
  }

  /** Original and copy have no page in common, so the law above applies to them both ways. */
  lemma {:induction false} CopyIsSeparate(mem0: Memory, mem: Memory, p: Usize, copy: Usize)
    requires Tree(mem0, p, 2) && Cloned(mem0, mem, p, copy, 2)
    ensures Tree(mem, p, 2) && Tree(mem, copy, 2) && Pages(mem, p, 2) !! Pages(mem, copy, 2)
  {
    BesideKeeps(mem0, mem, copy, 2, p, 2);
  }
}
