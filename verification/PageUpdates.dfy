/** What a change to one page of a table does to the whole table. */
module PageUpdates {
  import opened Basics
  import opened Words
  import opened PageTables

  /** `q` is the page at level `target` that the walk of `va` from the table `p` passes through. */
  predicate OnPath(mem: Memory, p: Usize, level: nat, va: Usize, q: Usize, target: nat)
    decreases level
  {
    if level == target then q == p
    else
      && level > target && p in mem && |mem[p]| == 512 && IsValid(mem[p][Vpn(va, level)])
      && OnPath(mem, Target(mem[p][Vpn(va, level)]), level - 1, va, q, target)
  }

  /** `mem'` differs from `mem` only below `q`, which still is a table, grown by new pages at most. */
  ghost predicate ChangedBelow(mem: Memory, mem': Memory, q: Usize, target: nat, added: set<Usize>) {
    && Agree(mem, mem', mem.Keys - Pages(mem, q, target))
    && Tree(mem', q, target)
    && added !! mem.Keys
    && Pages(mem', q, target) <= Pages(mem, q, target) + added
  }

  lemma {:induction false} PathPages(mem: Memory, p: Usize, level: nat, va: Usize, q: Usize, target: nat)
    requires Tree(mem, p, level) && OnPath(mem, p, level, va, q, target)
    ensures Tree(mem, q, target) && Pages(mem, q, target) <= Pages(mem, p, level)
    ensures level > target ==> Pages(mem, q, target) <= Kids(mem, p, level, Vpn(va, level))
    decreases level
  {
    if level > target {
      var i := Vpn(va, level);
      assert EntryOk(mem, p, level, i);
      PathPages(mem, Target(mem[p][i]), level - 1, va, q, target);
      KidsWithin(mem, p, level, i);
    }
  }

  /** The entries beside the path are untouched by a change below it. */
  lemma {:induction false} SiblingKept(mem: Memory, mem': Memory, p: Usize, level: nat, va: Usize, q: Usize, target: nat,
                                       added: set<Usize>, i: nat)
    requires Tree(mem, p, level) && OnPath(mem, p, level, va, q, target) && level > target
    requires ChangedBelow(mem, mem', q, target, added)
    requires i < 512 && i != Vpn(va, level)
    ensures p in mem' && mem'[p] == mem[p]
    ensures Agree(mem, mem', Kids(mem, p, level, i))
    ensures Kids(mem', p, level, i) == Kids(mem, p, level, i) && EntryOk(mem', p, level, i)
  {
    var onPath := Vpn(va, level);
    PathPages(mem, p, level, va, q, target);
    PagesAllocated(mem, p, level);
    assert EntryOk(mem, p, level, onPath);
    assert Kids(mem, p, level, i) !! Kids(mem, p, level, onPath);
    KidsWithin(mem, p, level, i);
    assert p in Pages(mem, p, level);
    KidsFrame(mem, mem', p, level, i);
  }

  lemma {:induction false} PathEntryGrows(mem: Memory, mem': Memory, p: Usize, level: nat, va: Usize, q: Usize, target: nat,
                                          added: set<Usize>)
    requires Tree(mem, p, level) && OnPath(mem, p, level, va, q, target) && level > target
    requires ChangedBelow(mem, mem', q, target, added)
    requires p in mem' && mem'[p] == mem[p]
    requires var c := Target(mem[p][Vpn(va, level)]);
             Tree(mem', c, level - 1) && Pages(mem', c, level - 1) <= Pages(mem, c, level - 1) + added
    ensures EntryOk(mem', p, level, Vpn(va, level))
    ensures Kids(mem', p, level, Vpn(va, level)) <= Kids(mem, p, level, Vpn(va, level)) + added
  {
    assert EntryOk(mem, p, level, Vpn(va, level));
  }

  /** A table whose change is confined to a page on one path is still a table. */
  lemma {:induction false} Lift(mem: Memory, mem': Memory, p: Usize, level: nat, va: Usize, q: Usize, target: nat,
                                added: set<Usize>)
    requires Tree(mem, p, level) && OnPath(mem, p, level, va, q, target)
    requires ChangedBelow(mem, mem', q, target, added)
    ensures Tree(mem', p, level) && OnPath(mem', p, level, va, q, target)
    ensures Pages(mem', p, level) <= Pages(mem, p, level) + added
    decreases level
  {
    if level > target {
      var onPath := Vpn(va, level);
      assert EntryOk(mem, p, level, onPath);
      Lift(mem, mem', Target(mem[p][onPath]), level - 1, va, q, target, added);
      PathPages(mem, p, level, va, q, target);
      PagesAllocated(mem, p, level);
      assert p in Pages(mem, p, level) && p !in Pages(mem, q, target);
      assert p in mem' && mem'[p] == mem[p];
      PathEntryGrows(mem, mem', p, level, va, q, target, added);
      LiftTree(mem, mem', p, level, va, q, target, added);
    }
  }

  lemma {:induction false} LiftTree(mem: Memory, mem': Memory, p: Usize, level: nat, va: Usize, q: Usize, target: nat,
                                    added: set<Usize>)
    requires Tree(mem, p, level) && OnPath(mem, p, level, va, q, target) && level > target
    requires ChangedBelow(mem, mem', q, target, added)
    requires p in mem' && mem'[p] == mem[p]
    requires EntryOk(mem', p, level, Vpn(va, level))
    requires Kids(mem', p, level, Vpn(va, level)) <= Kids(mem, p, level, Vpn(va, level)) + added
    ensures Tree(mem', p, level)
    ensures Pages(mem', p, level) <= Pages(mem, p, level) + added
  {
    PagesAllocated(mem, p, level);
    forall i | 0 <= i < 512
      ensures EntryOk(mem', p, level, i) && Kids(mem', p, level, i) <= Kids(mem, p, level, i) + added
      ensures i != Vpn(va, level) ==> Kids(mem', p, level, i) == Kids(mem, p, level, i)
      ensures Kids(mem, p, level, i) <= mem.Keys
    {
      KidsWithin(mem, p, level, i);
      if i != Vpn(va, level) {
        SiblingKept(mem, mem', p, level, va, q, target, added, i);
      }
    }
  }

  /** The walks of two addresses agree on every level from `level` down to just above `target`. */
  predicate SamePath(w: Usize, va: Usize, level: nat, target: nat)
    decreases level
  {
    level > target ==> Vpn(w, level) == Vpn(va, level) && SamePath(w, va, level - 1, target)
  }

  /** Only addresses whose walk reaches `q` can end in another leaf. */
  lemma {:induction false} LiftLeaf(mem: Memory, mem': Memory, p: Usize, level: nat, va: Usize, q: Usize, target: nat,
                                         added: set<Usize>, w: Usize)
    requires Tree(mem, p, level) && OnPath(mem, p, level, va, q, target) && target <= level
    requires ChangedBelow(mem, mem', q, target, added) && Tree(mem', p, level)
    ensures LeafAt(mem', p, level, w) ==
            if SamePath(w, va, level, target) then LeafAt(mem', q, target, w) else LeafAt(mem, p, level, w)
    decreases level
  {
    if level > target {
      var i := Vpn(w, level);
      PathPages(mem, p, level, va, q, target);
      PagesAllocated(mem, p, level);
      assert EntryOk(mem, p, level, Vpn(va, level)) && EntryOk(mem, p, level, i) && EntryOk(mem', p, level, i);
      assert p in Pages(mem, p, level) && mem'[p] == mem[p];
      if i == Vpn(va, level) {
        LiftLeaf(mem, mem', Target(mem[p][i]), level - 1, va, q, target, added, w);
      } else if IsValid(mem[p][i]) {
        SiblingKept(mem, mem', p, level, va, q, target, added, i);
        LeafAtFrame(mem, mem', Target(mem[p][i]), level - 1, w);
      }
    }
  }

  // ----- The changes that the source makes to one page -----

  function SetEntry(mem: Memory, q: Usize, i: nat, e: Usize): Memory
    requires q in mem && i < |mem[q]|
  {
    mem[q := Replace(mem[q], i, e)]
  }

  function Replace(page: Page, i: nat, e: Usize): (r: Page)
    requires i < |page|
    ensures |r| == |page| && r[i] == e && forall j :: 0 <= j < |page| && j != i ==> r[j] == page[j]
  {
    page[i := e]
  }

  lemma {:induction false} OtherKids(mem: Memory, q: Usize, target: nat, i: nat, e: Usize, j: nat)
    requires Tree(mem, q, target) && i < 512 && j < 512 && j != i
    ensures var mem' := SetEntry(mem, q, i, e);
            Kids(mem', q, target, j) == Kids(mem, q, target, j) && EntryOk(mem', q, target, j)
  {
    assert EntryOk(mem, q, target, j);
    if target > 0 && IsValid(mem[q][j]) {
      PagesAllocated(mem, Target(mem[q][j]), target - 1);
      TreeFrame(mem, SetEntry(mem, q, i, e), Target(mem[q][j]), target - 1);
    }
  }

  /** Hanging a separate table into an empty entry. */
  lemma {:induction false} InstallKid(mem: Memory, q: Usize, target: nat, i: nat, e: Usize)
    requires Tree(mem, q, target) && target > 0 && i < 512 && !IsValid(mem[q][i])
    requires IsValid(e) && !IsLeaf(e) && Tree(mem, Target(e), target - 1)
    requires Pages(mem, Target(e), target - 1) !! Pages(mem, q, target)
    ensures var mem' := SetEntry(mem, q, i, e);
            && Tree(mem', q, target)
            && Pages(mem', q, target) == Pages(mem, q, target) + Pages(mem, Target(e), target - 1)
            && Tree(mem', Target(e), target - 1)
  {
    var mem', c := SetEntry(mem, q, i, e), Target(e);
    PagesAllocated(mem, c, target - 1);
    TreeFrame(mem, mem', c, target - 1);
    assert Kids(mem', q, target, i) == Pages(mem, c, target - 1);
    assert Kids(mem, q, target, i) == {};
    forall j | 0 <= j < 512
      ensures EntryOk(mem', q, target, j)
      ensures j != i ==> Kids(mem', q, target, j) == Kids(mem, q, target, j)
      ensures Kids(mem, q, target, j) <= Pages(mem, q, target)
    {
      KidsWithin(mem, q, target, j);
      if j != i {
        OtherKids(mem, q, target, i, e, j);
      }
    }
  }

  function ZeroPage(): (page: Page)
    ensures |page| == 512 && forall i :: 0 <= i < 512 ==> page[i] == 0
  {
    seq(512, _ => 0)
  }

  lemma {:induction false} ZeroTree(mem: Memory, z: Usize, level: nat)
    requires z in mem && mem[z] == ZeroPage()
    ensures Tree(mem, z, level) && Pages(mem, z, level) == {z}
    ensures forall va :: LeafAt(mem, z, level, va) == None
  {
    forall i | 0 <= i < 512 ensures !IsValid(mem[z][i]) && Kids(mem, z, level, i) == {} {
      assert mem[z][i] == 0;
    }
  }

  /** The memory after a fresh zeroed page `z` is hung into entry `i` of `q`. */
  function GrowAt(mem: Memory, q: Usize, i: nat, z: Usize, e: Usize): Memory
    requires q in mem && i < |mem[q]| && z !in mem
  {
    SetEntry(mem[z := ZeroPage()], q, i, e)
  }

  /** A new empty table below an empty entry changes the leaf of no address. */
  lemma {:induction false} GrowHere(mem: Memory, q: Usize, target: nat, i: nat, z: Usize, e: Usize)
    requires Tree(mem, q, target) && target > 0 && i < 512 && !IsValid(mem[q][i])
    requires z !in mem && IsValid(e) && !IsLeaf(e) && Target(e) == z
    ensures ChangedBelow(mem, GrowAt(mem, q, i, z, e), q, target, {z})
    ensures z in GrowAt(mem, q, i, z, e) && GrowAt(mem, q, i, z, e)[z] == ZeroPage()
  {
    var mid := mem[z := ZeroPage()];
    PagesAllocated(mem, q, target);
    TreeFrame(mem, mid, q, target);
    ZeroTree(mid, z, target - 1);
    InstallKid(mid, q, target, i, e);
  }

  lemma {:induction false} GrowLeaf(mem: Memory, q: Usize, target: nat, i: nat, z: Usize, e: Usize, w: Usize)
    requires Tree(mem, q, target) && target > 0 && i < 512 && !IsValid(mem[q][i])
    requires z !in mem && IsValid(e) && !IsLeaf(e) && Target(e) == z
    requires var mem' := GrowAt(mem, q, i, z, e); Tree(mem', q, target) && z in mem' && mem'[z] == ZeroPage()
    ensures LeafAt(GrowAt(mem, q, i, z, e), q, target, w) == LeafAt(mem, q, target, w)
  {
    var mem', j := GrowAt(mem, q, i, z, e), Vpn(w, target);
    assert EntryOk(mem, q, target, j) && EntryOk(mem', q, target, j);
    if j == i {
      ZeroTree(mem', z, target - 1);
    } else if IsValid(mem[q][j]) {
      PagesAllocated(mem, Target(mem[q][j]), target - 1);
      LeafAtFrame(mem, mem', Target(mem[q][j]), target - 1, w);
    }
  }

  /** A level-0 leaf keeps the table well formed. */
  lemma {:induction false} LeafHere(mem: Memory, q: Usize, i: nat, e: Usize)
    requires Tree(mem, q, 0) && i < 512 && IsValid(e) && IsLeaf(e)
    ensures ChangedBelow(mem, SetEntry(mem, q, i, e), q, 0, {})
  {
    var mem' := SetEntry(mem, q, i, e);
    forall j | 0 <= j < 512 ensures EntryOk(mem', q, 0, j) {
      assert EntryOk(mem, q, 0, j);
    }
  }

  /** And it becomes the leaf of exactly the addresses of its page. */
  lemma {:induction false} WriteLeafAt(mem: Memory, q: Usize, i: nat, e: Usize, w: Usize)
    requires Tree(mem, q, 0) && i < 512 && IsValid(e) && IsLeaf(e) && Tree(SetEntry(mem, q, i, e), q, 0)
    ensures LeafAt(SetEntry(mem, q, i, e), q, 0, w) ==
            if Vpn(w, 0) == i then Some(LeafOf(e)) else LeafAt(mem, q, 0, w)
  {
    assert EntryOk(mem, q, 0, Vpn(w, 0)) && EntryOk(SetEntry(mem, q, i, e), q, 0, Vpn(w, 0));
  }
}
