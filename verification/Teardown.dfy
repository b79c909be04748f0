// Tearing down the private half of an address space: every table frame the walk reaches
// goes back to the allocator once, children before parents.

module AddressSpaceTeardown {
  import opened Basics
  import opened Words
  import opened PageTableTree
  import opened PhysicalMemory
  import opened PageMapping

  const CONFIGURED_MAX_PA := 128 * 1024 * 1024

  // Node q is c or hangs somewhere below it.
  ghost predicate Under(q: Path, c: Path) {
    q == c || (q.Sub? && Under(q.parent, c))
  }

  ghost predicate UnderBefore(q: Path, c: Path, i: nat) {
    exists k: nat :: k < i && Under(q, Sub(c, k))
  }

  // A table frame the teardown descends to and frees.
  predicate Fit(f: nat) {
    0 < f && f * PAGE_SIZE < CONFIGURED_MAX_PA
  }

  // The table at q and every table above it, below the root, has a fit frame.
  ghost predicate FitPath(tree: Tree, q: Path) {
    q.Root? || (q in tree && Fit(tree[q]) && FitPath(tree, q.parent))
  }

  // The frames of the nodes at and below c that are reached through fit tables.
  ghost function Frames(tree: Tree, c: Path): set<nat> {
    set q | q in tree && Under(q, c) && FitPath(tree, q) :: tree[q]
  }

  // The frames below the first i entries of c.
  ghost function FramesBefore(tree: Tree, c: Path, i: nat): set<nat> {
    set q | q in tree && UnderBefore(q, c, i) && FitPath(tree, q) :: tree[q]
  }

  // What the teardown of a whole private half frees.
  ghost function FreedTables(tree: Tree): set<nat> {
    set q | q in tree && q.Sub? && FitPath(tree, q) :: tree[q]
  }

  // What a tree of table frames is, apart from memory.
  ghost predicate Shape(tree: Tree) {
    (forall q :: q in tree && q.Sub? ==> q.parent in tree && q.slot < FRAME_WORDS) &&
    (forall p, q :: p in tree && q in tree && tree[p] == tree[q] ==> p == q)
  }

  // The tables at and below c are intact in memory.
  ghost predicate BranchOk(mem: map<nat, Frame>, tree: Tree, c: Path) {
    forall q :: q in tree && Under(q, c) ==> TableOk(mem, tree, q)
  }

  ghost predicate TableOk(mem: map<nat, Frame>, tree: Tree, q: Path)
    requires q in tree
  {
    0 <= Level(q) <= 3 && tree[q] in mem &&
    forall i: nat :: i < FRAME_WORDS ==> mem[tree[q]][i].Entry? && SlotOk(mem, tree, q, i)
  }

  lemma {:induction false} UnderLevel(q: Path, c: Path)
    requires Under(q, c)
    ensures Level(q) <= Level(c) && (Level(q) == Level(c) ==> q == c)
  {
    if q != c {
      UnderLevel(q.parent, c);
    }
  }

  // Branches of one node do not overlap.
  lemma {:induction false} BranchesDisjoint(q: Path, c: Path, i: nat, k: nat)
    requires Under(q, Sub(c, i)) && Under(q, Sub(c, k))
    ensures i == k
  {
    if q == Sub(c, i) || q == Sub(c, k) {
      UnderLevel(q, Sub(c, i));
      UnderLevel(q, Sub(c, k));
    } else {
      BranchesDisjoint(q.parent, c, i, k);
    }
  }

  lemma {:induction false} UnderClosed(tree: Tree, q: Path, c: Path)
    requires Shape(tree) && q in tree && Under(q, c)
    ensures c in tree
  {
    if q != c {
      UnderClosed(tree, q.parent, c);
    }
  }

  // Below c means below one of its entries.
  lemma {:induction false} UnderSplits(q: Path, c: Path)
    ensures Under(q, c) <==> q == c || exists k: nat :: Under(q, Sub(c, k))
  {
    if q.Sub? {
      UnderSplits(q.parent, c);
      if Under(q.parent, c) {
        if q.parent == c {
          assert Under(q, Sub(c, q.slot));
        } else {
          var k: nat :| Under(q.parent, Sub(c, k));
          assert Under(q, Sub(c, k));
        }
      }
      forall k: nat | Under(q, Sub(c, k)) ensures Under(q, c) {
        if q == Sub(c, k) {
          assert q.parent == c;
        } else {
          assert Under(q.parent, Sub(c, k));
        }
      }
    }
  }

  lemma {:induction false} UnderAll(tree: Tree, q: Path, c: Path)
    requires Shape(tree) && q in tree && Under(q, c) && q != c
    ensures UnderBefore(q, c, FRAME_WORDS)
  {
    UnderSplits(q, c);
    var k: nat :| Under(q, Sub(c, k));
    UnderClosed(tree, q, Sub(c, k));
  }

  lemma {:induction false} FitAbove(tree: Tree, q: Path, c: Path)
    requires Under(q, c) && FitPath(tree, q)
    ensures FitPath(tree, c)
  {
    if q != c {
      FitAbove(tree, q.parent, c);
    }
  }

  // Nothing below an unfit table is freed, and not the table itself.
  lemma Unreached(tree: Tree, c: Path)
    requires !FitPath(tree, c)
    ensures Frames(tree, c) == {}
  {
    forall q | Under(q, c) ensures !FitPath(tree, q) {
      if FitPath(tree, q) {
        FitAbove(tree, q, c);
      }
    }
  }

  // A table whose frame is 0, or at or above 128 MiB, stays in use with every table below it.
  lemma UnfitKept(tree: Tree, c: Path, q: Path)
    requires Shape(tree) && c in tree && c.Sub? && !Fit(tree[c]) && q in tree && Under(q, c)
    ensures tree[q] !in FreedTables(tree)
  {
    if FitPath(tree, q) {
      FitAbove(tree, q, c);
    }
  }

  // A root whose first entry points to a table at 128 MiB: that table is not freed.
  lemma HighTable(root: nat) returns (mem: map<nat, Frame>, tree: Tree)
    requires root != 0x8000
    ensures TreeOk(mem, tree, root, 256) && tree[Root] == root && 0x8000 in tree.Values
    ensures FreedTables(tree) == {}
  {
    var c := Sub(Root, 0);
    tree := map[Root := root, c := 0x8000];
    mem := map[root := ZERO_FRAME[0 := Entry(true, true, true, false, 0x8000)], 0x8000 := ZERO_FRAME];
    assert tree[c] in tree.Values;
    assert !FitPath(tree, c);
  }

  // All private tables but the root are freed exactly when each of their frames is fit.
  lemma AllFreed(tree: Tree)
    requires Shape(tree) && Root in tree
    ensures FreedTables(tree) == tree.Values - {tree[Root]} <==> forall q :: q in tree && q.Sub? ==> Fit(tree[q])
  {
    if q :| q in tree && q.Sub? && !Fit(tree[q]) {
      UnfitKept(tree, q, q);
      assert tree[q] in tree.Values - {tree[Root]};
    } else {
      forall q | q in tree ensures FitPath(tree, q) {
        FitUp(tree, q);
      }
    }
  }

  lemma {:induction false} FitUp(tree: Tree, q: Path)
    requires Shape(tree) && q in tree && forall p :: p in tree && p.Sub? ==> Fit(tree[p])
    ensures FitPath(tree, q)
  {
    if q.Sub? {
      FitUp(tree, q.parent);
    }
  }

  // One more entry adds exactly the frames below it.
  lemma FramesStep(tree: Tree, c: Path, i: nat)
    requires Shape(tree) && c in tree
    ensures FramesBefore(tree, c, i + 1) == FramesBefore(tree, c, i) + Frames(tree, Sub(c, i))
    ensures FramesBefore(tree, c, i) !! Frames(tree, Sub(c, i))
    ensures tree[c] !in Frames(tree, Sub(c, i))
    ensures Sub(c, i) !in tree ==> FramesBefore(tree, c, i + 1) == FramesBefore(tree, c, i)
  {
    forall q | q in tree ensures UnderBefore(q, c, i + 1) <==> UnderBefore(q, c, i) || Under(q, Sub(c, i)) {
    }
    forall f | f in FramesBefore(tree, c, i) ensures f !in Frames(tree, Sub(c, i)) {
      var q :| q in tree && UnderBefore(q, c, i) && tree[q] == f;
      var k: nat :| k < i && Under(q, Sub(c, k));
      if Under(q, Sub(c, i)) {
        BranchesDisjoint(q, c, i, k);
      }
    }
    if Under(c, Sub(c, i)) {
      UnderLevel(c, Sub(c, i));
    }
    forall q | q in tree && Under(q, Sub(c, i)) ensures Sub(c, i) in tree {
      UnderClosed(tree, q, Sub(c, i));
    }
  }

  lemma FramesWhole(tree: Tree, c: Path)
    requires Shape(tree) && c in tree && FitPath(tree, c)
    ensures FramesBefore(tree, c, 0) == {}
    ensures Frames(tree, c) == FramesBefore(tree, c, FRAME_WORDS) + {tree[c]}
    ensures tree[c] !in FramesBefore(tree, c, FRAME_WORDS)
  {
    forall q | q in tree ensures Under(q, c) <==> q == c || UnderBefore(q, c, FRAME_WORDS) {
      UnderSplits(q, c);
      if Under(q, c) && q != c {
        UnderAll(tree, q, c);
      }
    }
    forall k: nat ensures !Under(c, Sub(c, k)) {
      if Under(c, Sub(c, k)) {
        UnderLevel(c, Sub(c, k));
      }
    }
  }

  // The frames `gone` were in use and went onto the free list once each, newest
  // first; no other frame but `table` was written.
  ghost predicate Released(mem: map<nat, Frame>, mem': map<nat, Frame>, inUse: set<nat>, inUse': set<nat>,
                           fl: seq<nat>, fl': seq<nat>, freed: seq<nat>, table: nat, gone: set<nat>) {
    fl' == freed + fl &&
    (forall f :: f in freed <==> f in gone) &&
    gone <= inUse && inUse' == inUse - gone &&
    mem'.Keys == mem.Keys &&
    (forall f :: f in mem && f !in gone && f != table ==> mem'[f] == mem[f])
  }

  lemma ReleasedTwice(mem: map<nat, Frame>, mem1: map<nat, Frame>, mem2: map<nat, Frame>,
                      inUse: set<nat>, inUse1: set<nat>, inUse2: set<nat>, fl: seq<nat>, fl1: seq<nat>, fl2: seq<nat>,
                      freed1: seq<nat>, freed2: seq<nat>, table: nat, gone1: set<nat>, gone2: set<nat>)
    requires Released(mem, mem1, inUse, inUse1, fl, fl1, freed1, table, gone1)
    requires Released(mem1, mem2, inUse1, inUse2, fl1, fl2, freed2, table, gone2)
    ensures Released(mem, mem2, inUse, inUse2, fl, fl2, freed2 + freed1, table, gone1 + gone2)
  {
    assert fl2 == (freed2 + freed1) + fl;
  }

  lemma ReleasedNothing(mem: map<nat, Frame>, inUse: set<nat>, fl: seq<nat>, table: nat)
    ensures Released(mem, mem, inUse, inUse, fl, fl, [], table, {})
  {
  }

  // A store into the table itself is allowed for.
  lemma ReleasedStore(mem: map<nat, Frame>, mem1: map<nat, Frame>, mem2: map<nat, Frame>, inUse: set<nat>, inUse': set<nat>,
                      fl: seq<nat>, fl': seq<nat>, freed: seq<nat>, table: nat, gone: set<nat>)
    requires Released(mem, mem1, inUse, inUse', fl, fl', freed, table, gone)
    requires table in mem1 && table in mem2 && mem2 == mem1[table := mem2[table]]
    ensures Released(mem, mem2, inUse, inUse', fl, fl', freed, table, gone)
  {
  }

  // Freeing the child last completes its branch.
  lemma ReleasedChild(mem: map<nat, Frame>, mem1: map<nat, Frame>, mem2: map<nat, Frame>,
                      inUse: set<nat>, inUse1: set<nat>, inUse2: set<nat>, fl: seq<nat>, fl1: seq<nat>, fl2: seq<nat>,
                      freed: seq<nat>, child: nat, table: nat, gone: set<nat>)
    requires Released(mem, mem1, inUse, inUse1, fl, fl1, freed, child, gone)
    requires child in inUse && child !in gone && table !in gone && table != child && child in mem && table in mem
    requires child in mem2 && table in mem2 && mem2 == mem1[table := mem2[table]][child := mem2[child]]
    requires inUse2 == inUse1 - {child} && fl2 == [child] + fl1
    ensures Released(mem, mem2, inUse, inUse2, fl, fl2, [child] + freed, table, gone + {child})
    ensures mem1[table] == mem[table]
  {
    assert fl2 == ([child] + freed) + fl;
  }

  // The table frames are in use.
  ghost predicate Freeable(inUse: set<nat>, tree: Tree, c: Path) {
    forall q :: q in tree && Under(q, c) ==> tree[q] in inUse
  }

  lemma NotBefore(tree: Tree, c: Path, i: nat, q: Path)
    requires Shape(tree) && c in tree && q in tree && Under(q, Sub(c, i))
    ensures tree[q] !in FramesBefore(tree, c, i) && tree[q] != tree[c]
  {
    if tree[q] in FramesBefore(tree, c, i) {
      var k: nat :| k < i && Under(q, Sub(c, k));
      BranchesDisjoint(q, c, i, k);
    }
    if q == c {
      UnderLevel(c, Sub(c, i));
    }
  }

  // Releasing the earlier branches of c leaves the next one intact.
  lemma BranchKept(mem: map<nat, Frame>, mem': map<nat, Frame>, inUse: set<nat>, inUse': set<nat>,
                   fl: seq<nat>, fl': seq<nat>, freed: seq<nat>, tree: Tree, c: Path, i: nat)
    requires Shape(tree) && c in tree
    requires BranchOk(mem, tree, Sub(c, i)) && Freeable(inUse, tree, Sub(c, i))
    requires Released(mem, mem', inUse, inUse', fl, fl', freed, tree[c], FramesBefore(tree, c, i))
    ensures BranchOk(mem', tree, Sub(c, i)) && Freeable(inUse', tree, Sub(c, i))
  {
    FramesStep(tree, c, i);
    forall q | q in tree && Under(q, Sub(c, i)) ensures TableOk(mem', tree, q) && tree[q] in inUse' {
      NotBefore(tree, c, i, q);
      assert TableOk(mem, tree, q);
      forall k: nat | k < FRAME_WORDS ensures SlotOk(mem', tree, q, k) {
        assert SlotOk(mem, tree, q, k);
      }
    }
  }

  lemma SubBranch(mem: map<nat, Frame>, inUse: set<nat>, tree: Tree, c: Path, i: nat)
    requires BranchOk(mem, tree, c) && Freeable(inUse, tree, c)
    ensures BranchOk(mem, tree, Sub(c, i)) && Freeable(inUse, tree, Sub(c, i))
  {
    forall q | Under(q, Sub(c, i)) ensures Under(q, c) {
      UnderSplits(q, c);
    }
  }

  // free_table_tree: frees every table strictly below this one that it reaches.
  method FreeTableTree(pm: PhysMem, ghost tree: Tree, ghost c: Path, table: nat, levelsBelow: nat)
    returns (ghost freed: seq<nat>)
    requires pm.Valid() && Shape(tree) && c in tree && tree[c] == table && Level(c) == levelsBelow <= 2
    requires BranchOk(pm.mem, tree, c) && Freeable(pm.inUse, tree, c) && FitPath(tree, c)
    modifies pm, pm.frameState
    ensures pm.Valid()
    ensures Released(old(pm.mem), pm.mem, old(pm.inUse), pm.inUse, old(pm.freeList), pm.freeList, freed, table,
                     FramesBefore(tree, c, FRAME_WORDS))
    decreases levelsBelow, 1
  {
    hide PhysMem.Valid;
    hide BranchOk;
    hide Freeable;
    hide Released;
    hide Frames;
    hide FramesBefore;
    hide Under;
    hide Shape;
    freed := [];
    FramesWhole(tree, c);
    ReleasedNothing(pm.mem, pm.inUse, pm.freeList, table);
    if levelsBelow == 0 {
      NothingBelow(pm.mem, tree, c);
      return;
    }
    TableIntact(pm.mem, pm.inUse, tree, c);
    var i := 0;
    while i < FRAME_WORDS
      invariant 0 <= i <= FRAME_WORDS
      invariant pm.Valid()
      invariant Released(old(pm.mem), pm.mem, old(pm.inUse), pm.inUse, old(pm.freeList), pm.freeList, freed, table,
                         FramesBefore(tree, c, i))
      invariant table in pm.inUse && table in pm.mem
      invariant forall k :: i <= k < FRAME_WORDS ==> pm.mem[table][k] == old(pm.mem[table][k])
    {
      FramesStep(tree, c, i);
      assert SlotOk(old(pm.mem), tree, c, i);
      var entry := pm.mem[table][i];
      ghost var mem1, inUse1, fl1 := pm.mem, pm.inUse, pm.freeList;
      if entry.present {
        if entry.huge && (levelsBelow == 2 || levelsBelow == 1) {
          pm.Store(table, i, ZERO_WORD);
          ReleasedStore(old(pm.mem), mem1, pm.mem, old(pm.inUse), pm.inUse, old(pm.freeList), pm.freeList, freed, table,
                        FramesBefore(tree, c, i));
        } else {
          SubBranch(old(pm.mem), old(pm.inUse), tree, c, i);
          BranchKept(old(pm.mem), pm.mem, old(pm.inUse), pm.inUse, old(pm.freeList), pm.freeList, freed, tree, c, i);
          ghost var more := ReleaseEntry(pm, tree, c, table, levelsBelow, i, entry.ppn);
          ReleasedTwice(old(pm.mem), mem1, pm.mem, old(pm.inUse), inUse1, pm.inUse, old(pm.freeList), fl1, pm.freeList,
                        freed, more, table, FramesBefore(tree, c, i), Frames(tree, Sub(c, i)));
          freed := more + freed;
        }
      }
      i := i + 1;
    }
  }

  lemma NothingBelow(mem: map<nat, Frame>, tree: Tree, c: Path)
    requires Shape(tree) && c in tree && BranchOk(mem, tree, c) && Level(c) == 0
    ensures FramesBefore(tree, c, FRAME_WORDS) == {}
  {
    assert TableOk(mem, tree, c);
    forall k: nat | k < FRAME_WORDS ensures Sub(c, k) !in tree {
      assert SlotOk(mem, tree, c, k);
    }
    forall q, k: nat | q in tree && k < FRAME_WORDS ensures !Under(q, Sub(c, k)) {
      if Under(q, Sub(c, k)) {
        UnderClosed(tree, q, Sub(c, k));
      }
    }
  }

  lemma TableIntact(mem: map<nat, Frame>, inUse: set<nat>, tree: Tree, c: Path)
    requires c in tree && BranchOk(mem, tree, c) && Freeable(inUse, tree, c)
    ensures TableOk(mem, tree, c) && tree[c] in inUse
  {
  }

  // One entry of a table that points to a child: the child's subtree, the entry,
  // then the child.
  method ReleaseEntry(pm: PhysMem, ghost tree: Tree, ghost c: Path, table: nat, levelsBelow: nat, i: nat, child: nat)
    returns (ghost freed: seq<nat>)
    requires pm.Valid() && Shape(tree) && c in tree && tree[c] == table && 1 <= Level(c) == levelsBelow <= 3
    requires i < FRAME_WORDS && table in pm.inUse && pm.Owned(table)
    requires Sub(c, i) in tree && tree[Sub(c, i)] == child && FitPath(tree, c)
    requires BranchOk(pm.mem, tree, Sub(c, i)) && Freeable(pm.inUse, tree, Sub(c, i))
    modifies pm, pm.frameState
    ensures pm.Valid()
    ensures Released(old(pm.mem), pm.mem, old(pm.inUse), pm.inUse, old(pm.freeList), pm.freeList, freed, table,
                     Frames(tree, Sub(c, i)))
    ensures table in pm.mem && pm.mem[table] == old(pm.mem[table])[i := ZERO_WORD]
    ensures table in pm.inUse
    decreases levelsBelow, 0
  {
    hide PhysMem.Valid;
    TableIntact(pm.mem, pm.inUse, tree, Sub(c, i));
    hide BranchOk;
    hide Freeable;
    hide Released;
    hide Frames;
    hide FramesBefore;
    hide Under;
    FramesStep(tree, c, i);
    if child == 0 || child * PAGE_SIZE >= CONFIGURED_MAX_PA {
      Unreached(tree, Sub(c, i));
      ReleasedNothing(pm.mem, pm.inUse, pm.freeList, table);
      pm.Store(table, i, ZERO_WORD);
      ReleasedStore(old(pm.mem), old(pm.mem), pm.mem, pm.inUse, pm.inUse, pm.freeList, pm.freeList, [], table, {});
      return [];
    }
    FramesWhole(tree, Sub(c, i));
    hide Shape;
    freed := FreeTableTree(pm, tree, Sub(c, i), child, levelsBelow - 1);
    ghost var gone := FramesBefore(tree, Sub(c, i), FRAME_WORDS);
    StillOwned(old(pm.mem), pm.mem, old(pm.inUse), pm.inUse, old(pm.freeList), pm.freeList, freed, child, gone, table);
    StillOwned(old(pm.mem), pm.mem, old(pm.inUse), pm.inUse, old(pm.freeList), pm.freeList, freed, child, gone, child);
    ghost var mem1, inUse1, fl1 := pm.mem, pm.inUse, pm.freeList;
    pm.Store(table, i, ZERO_WORD);
    pm.Free(child);
    ReleasedChild(old(pm.mem), mem1, pm.mem, old(pm.inUse), inUse1, pm.inUse, old(pm.freeList), fl1, pm.freeList,
                  freed, child, table, gone);
    freed := [child] + freed;
  }

  lemma StillOwned(mem: map<nat, Frame>, mem': map<nat, Frame>, inUse: set<nat>, inUse': set<nat>,
                   fl: seq<nat>, fl': seq<nat>, freed: seq<nat>, child: nat, gone: set<nat>, f: nat)
    requires Released(mem, mem', inUse, inUse', fl, fl', freed, child, gone)
    requires f in mem && f in inUse && f !in gone
    ensures f in mem' && f in inUse'
  {
  }

  // free_private_page_tables: after it, the lower half of the root is empty and exactly
  // the tables reached through fit tables have been freed.
  method FreePrivatePageTables(pm: PhysMem, ghost tree: Tree, root: nat) returns (ghost freed: seq<nat>)
    requires Space(pm, tree, root, 256)
    requires Freeable(pm.inUse, tree, Root)
    modifies pm, pm.frameState
    ensures pm.Valid()
    ensures Released(old(pm.mem), pm.mem, old(pm.inUse), pm.inUse, old(pm.freeList), pm.freeList, freed, root,
                     FreedTables(tree))
    ensures forall k :: 0 <= k < 256 ==> pm.mem[root][k].Entry? && !pm.mem[root][k].present
    ensures forall k :: 256 <= k < FRAME_WORDS ==> pm.mem[root][k] == old(pm.mem[root][k])
  {
    hide PhysMem.Valid;
    hide Released;
    hide Frames;
    hide FramesBefore;
    hide BranchOk;
    hide Under;
    freed := [];
    TreeShape(pm.mem, tree, root);
    UnderRoot(Root);
    hide FreedTables;
    hide Freeable;
    hide Shape;
    FramesWhole(tree, Root);
    ReleasedNothing(pm.mem, pm.inUse, pm.freeList, root);
    var i := 0;
    while i < 256
      invariant 0 <= i <= 256
      invariant pm.Valid()
      invariant Released(old(pm.mem), pm.mem, old(pm.inUse), pm.inUse, old(pm.freeList), pm.freeList, freed, root,
                         FramesBefore(tree, Root, i))
      invariant root in pm.inUse && root in pm.mem
      invariant forall k :: i <= k < FRAME_WORDS ==> pm.mem[root][k] == old(pm.mem[root][k])
      invariant forall k :: 0 <= k < i ==> pm.mem[root][k].Entry? && !pm.mem[root][k].present
    {
      FramesStep(tree, Root, i);
      assert SlotOk(old(pm.mem), tree, Root, i) && NodeOk(old(pm.mem), tree, 256, Root);
      var entry := pm.mem[root][i];
      ghost var mem1, inUse1, fl1 := pm.mem, pm.inUse, pm.freeList;
      if entry.present {
        RootBranch(old(pm.mem), old(pm.inUse), tree, root, i);
        BranchKept(old(pm.mem), pm.mem, old(pm.inUse), pm.inUse, old(pm.freeList), pm.freeList, freed, tree, Root, i);
        ghost var more := ReleaseEntry(pm, tree, Root, root, 3, i, entry.ppn);
        ReleasedTwice(old(pm.mem), mem1, pm.mem, old(pm.inUse), inUse1, pm.inUse, old(pm.freeList), fl1, pm.freeList,
                      freed, more, root, FramesBefore(tree, Root, i), Frames(tree, Sub(Root, i)));
        freed := more + freed;
      }
      i := i + 1;
    }
    AllBelowRoot(old(pm.mem), tree, root);
  }

  lemma {:induction false} UnderRoot(q: Path)
    ensures Under(q, Root)
  {
    if q.Sub? {
      UnderRoot(q.parent);
    }
  }

  lemma TreeShape(mem: map<nat, Frame>, tree: Tree, root: nat)
    requires TreeOk(mem, tree, root, 256)
    ensures Shape(tree) && Root in tree && tree[Root] == root
  {
    forall q | q in tree ensures q.Sub? ==> q.parent in tree && q.slot < FRAME_WORDS {
      assert NodeOk(mem, tree, 256, q);
    }
  }

  lemma RootBranch(mem: map<nat, Frame>, inUse: set<nat>, tree: Tree, root: nat, i: nat)
    requires TreeOk(mem, tree, root, 256) && Freeable(inUse, tree, Root)
    ensures BranchOk(mem, tree, Sub(Root, i)) && Freeable(inUse, tree, Sub(Root, i))
  {
    forall q | q in tree && Under(q, Sub(Root, i)) ensures TableOk(mem, tree, q) && Under(q, Root) {
      UnderRoot(q);
      assert NodeOk(mem, tree, 256, q);
      if q == Root {
        UnderLevel(Root, Sub(Root, i));
      }
      forall k: nat | k < FRAME_WORDS ensures SlotOk(mem, tree, q, k) {
      }
    }
  }

  lemma AllBelowRoot(mem: map<nat, Frame>, tree: Tree, root: nat)
    requires TreeOk(mem, tree, root, 256)
    ensures FramesBefore(tree, Root, 256) == FreedTables(tree)
  {
    TreeShape(mem, tree, root);
    forall q | q in tree && q != Root ensures UnderBefore(q, Root, 256) {
      UnderRoot(q);
      UnderSplits(q, Root);
      var k: nat :| Under(q, Sub(Root, k));
      UnderClosed(tree, q, Sub(Root, k));
      assert NodeOk(mem, tree, 256, Sub(Root, k));
    }
    forall k: nat ensures !Under(Root, Sub(Root, k)) {
      if Under(Root, Sub(Root, k)) {
        UnderLevel(Root, Sub(Root, k));
      }
    }
  }
}
