// Mapping, splitting and looking up pages (kernel/vmm.cc) over the frame allocator.

module PageMapping {
  import opened Basics
  import opened Words
  import opened PageTableTree
  import opened PhysicalMemory

  // A page-table tree whose table frames nobody else may be handed.
  ghost predicate Space(pm: PhysMem, tree: Tree, root: nat, top: nat)
    reads pm, pm.frameState
  {
    pm.Valid() && TreeOk(pm.mem, tree, root, top) && forall p :: p in tree ==> pm.Owned(tree[p])
  }

  // The frames newly in use are exactly the new tables of the tree, and no frame
  // outside the tree is written.
  ghost predicate Grown(mem: map<nat, Frame>, mem': map<nat, Frame>, inUse: set<nat>, inUse': set<nat>,
                        tree: Tree, tree': Tree) {
    tree.Keys <= tree'.Keys &&
    (forall p :: p in tree ==> tree'[p] == tree[p]) &&
    mem.Keys <= mem'.Keys &&
    inUse <= inUse' && inUse' - inUse == tree'.Values - tree.Values &&
    (forall f :: f in mem && f !in tree'.Values ==> f in mem' && mem'[f] == mem[f])
  }

  lemma GrownTwice(mem: map<nat, Frame>, mem1: map<nat, Frame>, mem2: map<nat, Frame>,
                   inUse: set<nat>, inUse1: set<nat>, inUse2: set<nat>, tree: Tree, tree1: Tree, tree2: Tree)
    requires Grown(mem, mem1, inUse, inUse1, tree, tree1)
    requires Grown(mem1, mem2, inUse1, inUse2, tree1, tree2)
    ensures Grown(mem, mem2, inUse, inUse2, tree, tree2)
  {
    assert tree.Values <= tree1.Values <= tree2.Values by {
      forall f | f in tree.Values ensures f in tree1.Values {
        var p :| p in tree && tree[p] == f;
        assert tree1[p] == f;
      }
      forall f | f in tree1.Values ensures f in tree2.Values {
        var p :| p in tree1 && tree1[p] == f;
        assert tree2[p] == f;
      }
    }
    assert forall f :: f in inUse2 - inUse <==> f in inUse2 - inUse1 || f in inUse1 - inUse;
    assert forall f :: f in tree2.Values - tree.Values <==>
      f in tree2.Values - tree1.Values || f in tree1.Values - tree.Values;
  }

  // The loop of split_large_entry.
  method FillSplit(pm: PhysMem, child: nat, e: Word, level: nat)
    requires pm.Valid() && pm.Owned(child) && IsHuge(e, level)
    modifies pm`mem
    ensures pm.Valid()
    ensures child in pm.mem && pm.mem == old(pm.mem)[child := pm.mem[child]] && IsSplit(pm.mem[child], e, level)
  {
    hide PhysMem.Valid;
    hide SplitEntry;
    var i := 0;
    while i < FRAME_WORDS
      invariant 0 <= i <= FRAME_WORDS
      invariant pm.Valid() && pm.Owned(child)
      invariant child in pm.mem && pm.mem == old(pm.mem)[child := pm.mem[child]]
      invariant forall k :: 0 <= k < i ==> pm.mem[child][k] == SplitEntry(e, level, k)
    {
      pm.Store(child, i, SplitEntry(e, level, i));
      i := i + 1;
    }
  }

  // Replaces a 1 GB or 2 MB entry by a table of 512 smaller ones.
  method SplitLargeEntry(pm: PhysMem, table: nat, index: nat, level: nat) returns (ok: bool, child: nat)
    requires pm.Valid() && pm.Owned(table) && index < FRAME_WORDS && IsHuge(pm.mem[table][index], level)
    modifies pm, pm.frameState
    ensures pm.Valid()
    ensures !ok ==> pm.Exhausted() && pm.mem == old(pm.mem) && pm.inUse == old(pm.inUse)
    ensures ok ==> Usable(pm.memmap, child) && child !in old(pm.inUse) && pm.inUse == old(pm.inUse) + {child}
    ensures ok ==> child in pm.mem && child != table && IsSplit(pm.mem[child], old(pm.mem[table][index]), level)
    ensures ok ==>
      var e := old(pm.mem[table][index]);
      pm.mem == old(pm.mem)[child := pm.mem[child]]
        [table := old(pm.mem[table])[index := Entry(true, e.write, e.user, false, child)]]
  {
    hide PhysMem.Valid;
    var e := pm.mem[table][index];
    ok, child := pm.Alloc();
    if !ok {
      return;
    }
    assert child != table && pm.Owned(table) && pm.Owned(child);
    FillSplit(pm, child, e, level);
    assert pm.Owned(table) && pm.mem[table] == old(pm.mem[table]);
    pm.Store(table, index, Entry(true, e.write, e.user, false, child));
  }

  // Splitting a large entry enlarges the tree and changes no translation.
  lemma SplitKeepsSpace(mem: map<nat, Frame>, mem': map<nat, Frame>, tree: Tree, root: nat, top: nat,
                        p: Path, i: nat, child: nat)
    requires TreeOk(mem, tree, root, top) && p in tree && i < Slots(p, top) && child !in tree.Values
    requires 0 <= Level(p) <= 3 && tree[p] in mem && i < FRAME_WORDS && IsHuge(mem[tree[p]][i], Level(p))
    requires child in mem' && IsSplit(mem'[child], mem[tree[p]][i], Level(p))
    requires var e := mem[tree[p]][i];
      SlotChanged(mem, mem', tree, p, i, Entry(true, e.write, e.user, false, child))
    ensures TreeOk(mem', tree[Sub(p, i) := child], root, top)
    ensures forall v: nat :: Index(v, 3) < top ==> Walk(mem', root, 3, v) == Walk(mem, root, 3, v)
  {
    var e := mem[tree[p]][i];
    var pointer := Entry(true, e.write, e.user, false, child);
    AttachKeepsTree(mem, mem', tree, root, top, p, i, pointer, child);
    forall v: nat | Index(v, 3) < top ensures Walk(mem', root, 3, v) == Walk(mem, root, 3, v) {
      if Through(v, p, i) {
        SplitTranslates(mem, tree[p], mem', child, e, Level(p), v);
      }
      AttachKeepsWalks(mem, mem', tree, root, top, p, i, pointer, child, v);
    }
  }

  lemma SplitKeepsRights(mem: map<nat, Frame>, mem': map<nat, Frame>, tree: Tree, root: nat, top: nat,
                         p: Path, i: nat, child: nat)
    requires TreeOk(mem, tree, root, top) && p in tree && i < Slots(p, top)
    requires 0 <= Level(p) <= 3 && tree[p] in mem && i < FRAME_WORDS && IsHuge(mem[tree[p]][i], Level(p))
    requires child in mem' && IsSplit(mem'[child], mem[tree[p]][i], Level(p))
    requires var e := mem[tree[p]][i];
      SlotChanged(mem, mem', tree, p, i, Entry(true, e.write, e.user, false, child))
    ensures SameRights(mem, mem', root, top)
  {
    var e := mem[tree[p]][i];
    var pointer := Entry(true, e.write, e.user, false, child);
    hide TreeOk;
    RootTable(mem, tree, root, top);
    forall v: nat {:trigger Ceiling(mem', root, 3, v)} | Index(v, 3) < top
      ensures Ceiling(mem', root, 3, v) == Ceiling(mem, root, 3, v)
    {
      if Through(v, p, i) {
        SplitCeiling(mem, tree[p], mem', child, e, Level(p), v);
      }
      SlotCeiling(mem, mem', tree, root, top, p, i, pointer, v, 3);
    }
  }

  lemma RootTable(mem: map<nat, Frame>, tree: Tree, root: nat, top: nat)
    requires TreeOk(mem, tree, root, top)
    ensures Root in tree && tree[Root] == root
  {
  }

  // So does hanging a zeroed table below an absent entry.
  lemma EmptyKeepsSpace(mem: map<nat, Frame>, mem': map<nat, Frame>, tree: Tree, root: nat, top: nat,
                        p: Path, i: nat, child: nat)
    requires TreeOk(mem, tree, root, top) && p in tree && i < Slots(p, top) && child !in tree.Values
    requires 0 < Level(p) <= 3 && tree[p] in mem && i < FRAME_WORDS
    requires mem[tree[p]][i].Entry? && !mem[tree[p]][i].present
    requires child in mem' && mem'[child] == ZERO_FRAME
    requires SlotChanged(mem, mem', tree, p, i, Entry(true, true, true, false, child))
    ensures TreeOk(mem', tree[Sub(p, i) := child], root, top)
    ensures forall v: nat :: Index(v, 3) < top ==> Walk(mem', root, 3, v) == Walk(mem, root, 3, v)
  {
    var pointer := Entry(true, true, true, false, child);
    AttachKeepsTree(mem, mem', tree, root, top, p, i, pointer, child);
    forall v: nat | Index(v, 3) < top ensures Walk(mem', root, 3, v) == Walk(mem, root, 3, v) {
      assert mem'[child][Index(v, Level(p) - 1)] == ZERO_WORD;
      AttachKeepsWalks(mem, mem', tree, root, top, p, i, pointer, child, v);
    }
  }

  // The pointer to a new table withholds no right.
  lemma EmptyKeepsRights(mem: map<nat, Frame>, mem': map<nat, Frame>, tree: Tree, root: nat, top: nat,
                         p: Path, i: nat, child: nat)
    requires TreeOk(mem, tree, root, top) && p in tree && i < Slots(p, top)
    requires 0 < Level(p) <= 3 && tree[p] in mem && i < FRAME_WORDS
    requires mem[tree[p]][i].Entry? && !mem[tree[p]][i].present
    requires child in mem' && mem'[child] == ZERO_FRAME
    requires SlotChanged(mem, mem', tree, p, i, Entry(true, true, true, false, child))
    ensures SameRights(mem, mem', root, top)
  {
    hide TreeOk;
    RootTable(mem, tree, root, top);
    forall v: nat {:trigger Ceiling(mem', root, 3, v)} | Index(v, 3) < top
      ensures Ceiling(mem', root, 3, v) == Ceiling(mem, root, 3, v)
    {
      if Through(v, p, i) {
        assert mem'[child][Index(v, Level(p) - 1)] == ZERO_WORD;
        assert Ceiling(mem', child, Level(p) - 1, v) == ALL;
      }
      SlotCeiling(mem, mem', tree, root, top, p, i, Entry(true, true, true, false, child), v, 3);
    }
  }

  // Writing a leaf leaves the entries above the leaves alone.
  lemma LeafKeepsRights(mem: map<nat, Frame>, mem': map<nat, Frame>, tree: Tree, root: nat, top: nat,
                        p: Path, i: nat, e: Word)
    requires TreeOk(mem, tree, root, top) && SlotChanged(mem, mem', tree, p, i, e) && Level(p) == 0
    ensures SameRights(mem, mem', root, top)
  {
    hide TreeOk;
    RootTable(mem, tree, root, top);
    forall v: nat {:trigger Ceiling(mem', root, 3, v)} | Index(v, 3) < top
      ensures Ceiling(mem', root, 3, v) == Ceiling(mem, root, 3, v)
    {
      SlotCeiling(mem, mem', tree, root, top, p, i, e, v, 3);
    }
  }

  lemma SameNow(mem: map<nat, Frame>, root: nat, top: nat)
    ensures SameRights(mem, mem, root, top)
  {
  }

  lemma SameTwice(mem: map<nat, Frame>, mem1: map<nat, Frame>, mem2: map<nat, Frame>, root: nat, top: nat)
    requires SameRights(mem, mem1, root, top) && SameRights(mem1, mem2, root, top)
    ensures SameRights(mem, mem2, root, top)
  {
    forall v: nat {:trigger Ceiling(mem2, root, 3, v)} | Index(v, 3) < top
      ensures Ceiling(mem2, root, 3, v) == Ceiling(mem, root, 3, v)
    {
      assert Ceiling(mem1, root, 3, v) == Ceiling(mem, root, 3, v);
    }
  }

  lemma StaysOpen(mem: map<nat, Frame>, mem': map<nat, Frame>, root: nat, top: nat)
    requires SameRights(mem, mem', root, top) && Open(mem, root, top)
    ensures Open(mem', root, top)
  {
    forall v: nat {:trigger Ceiling(mem', root, 3, v)} | Index(v, 3) < top ensures Ceiling(mem', root, 3, v) == ALL {
      assert Ceiling(mem, root, 3, v) == ALL;
    }
  }

  // What mapping one page leaves behind.
  ghost predicate Mapped(mem: map<nat, Frame>, mem': map<nat, Frame>, tree': Tree, root: nat, top: nat,
                         vpn: nat, ppn: nat, user: bool, write: bool) {
    (forall v: nat :: v < VPN_LIMIT && Index(v, 3) < top ==>
       Walk(mem', root, 3, v) == if v == vpn then Some(Leaf(ppn, write, user)) else Walk(mem, root, 3, v)) &&
    Node(vpn, 0) in tree' && tree'[Node(vpn, 0)] in mem' &&
    mem'[tree'[Node(vpn, 0)]][Index(vpn, 0)] == Entry(true, write, user, false, ppn)
  }

  lemma LeafMapped(mem: map<nat, Frame>, mem': map<nat, Frame>, tree: Tree, root: nat, top: nat,
                   vpn: nat, ppn: nat, user: bool, write: bool)
    requires TreeOk(mem, tree, root, top) && vpn < VPN_LIMIT && Index(vpn, 3) < top && Node(vpn, 0) in tree
    requires tree[Node(vpn, 0)] in mem
    requires var t := tree[Node(vpn, 0)];
      mem' == mem[t := mem[t][Index(vpn, 0) := Entry(true, write, user, false, ppn)]]
    ensures TreeOk(mem', tree, root, top)
    ensures Mapped(mem, mem', tree, root, top, vpn, ppn, user, write)
  {
    var e := Entry(true, write, user, false, ppn);
    WordChanged(mem, tree, root, top, Node(vpn, 0), Index(vpn, 0), e);
    LeafWrite(mem, mem', tree, root, top, vpn, e, vpn);
    forall v: nat | v < VPN_LIMIT && Index(v, 3) < top
      ensures Walk(mem', root, 3, v) == if v == vpn then Some(Leaf(ppn, write, user)) else Walk(mem, root, 3, v)
    {
      LeafWrite(mem, mem', tree, root, top, vpn, e, v);
    }
  }

  // Storing into one table word changes that word of the tree only.
  lemma WordChanged(mem: map<nat, Frame>, tree: Tree, root: nat, top: nat, p: Path, i: nat, e: Word)
    requires TreeOk(mem, tree, root, top) && p in tree && tree[p] in mem && i < FRAME_WORDS
    ensures SlotChanged(mem, mem[tree[p] := mem[tree[p]][i := e]], tree, p, i, e)
  {
  }

  // No page of the tree is mapped by a 2 MB or 1 GB entry.
  ghost predicate NoHuge(mem: map<nat, Frame>, tree: Tree, top: nat) {
    forall p, i: nat :: p in tree && i < Slots(p, top) && i < FRAME_WORDS && tree[p] in mem && Level(p) >= 0 ==>
      !IsHuge(mem[tree[p]][i], Level(p))
  }

  // Storing a pointer or a small leaf adds no large page.
  lemma StillNoHuge(mem: map<nat, Frame>, mem': map<nat, Frame>, tree: Tree, root: nat, top: nat, p: Path, i: nat, e: Word)
    requires TreeOk(mem, tree, root, top) && SlotChanged(mem, mem', tree, p, i, e) && !IsHuge(e, Level(p))
    ensures NoHuge(mem, tree, top) ==> NoHuge(mem', tree, top)
  {
    if NoHuge(mem, tree, top) {
      forall q, k: nat | q in tree && k < Slots(q, top) && k < FRAME_WORDS && tree[q] in mem' && Level(q) >= 0
        ensures !IsHuge(mem'[tree[q]][k], Level(q))
      {
        assert NodeOk(mem, tree, top, q);
      }
    }
  }

  // Neither does a zeroed table.
  lemma EmptyNoHuge(mem: map<nat, Frame>, tree: Tree, top: nat, p: Path, child: nat)
    requires child in mem && mem[child] == ZERO_FRAME
    ensures NoHuge(mem, tree, top) ==> NoHuge(mem, tree[p := child], top)
  {
  }

  // One level of map(): makes sure the entry for vpn points to a table.
  method Descend(pm: PhysMem, ghost tree: Tree, ghost root: nat, ghost top: nat, table: nat, level: nat, vpn: nat)
    returns (ok: bool, ghost tree': Tree)
    requires Space(pm, tree, root, top) && 1 <= level <= 3 && Index(vpn, 3) < top
    requires Node(vpn, level) in tree && tree[Node(vpn, level)] == table
    modifies pm, pm.frameState
    ensures pm.Valid()
    ensures !ok ==> pm.Exhausted()
    ensures Space(pm, tree', root, top)
    ensures Grown(old(pm.mem), pm.mem, old(pm.inUse), pm.inUse, tree, tree')
    ensures old(NoHuge(pm.mem, tree, top)) ==> NoHuge(pm.mem, tree', top)
    ensures forall v: nat :: Index(v, 3) < top ==> Walk(pm.mem, root, 3, v) == old(Walk(pm.mem, root, 3, v))
    ensures SameRights(old(pm.mem), pm.mem, root, top)
    ensures ok ==> table in pm.mem && IsPointer(pm.mem[table][Index(vpn, level)], level)
    ensures ok ==> Node(vpn, level - 1) in tree'
    ensures ok ==> tree'[Node(vpn, level - 1)] == pm.mem[table][Index(vpn, level)].ppn
  {
    hide PhysMem.Valid;
    hide NoHuge;
    var index := Index(vpn, level);
    ghost var p := Node(vpn, level);
    tree' := tree;
    ok := true;
    assert NodeOk(pm.mem, tree, top, p) && SlotOk(pm.mem, tree, p, index);
    if pm.mem[table][index].present {
      if IsHuge(pm.mem[table][index], level) {
        ok, tree' := SplitBelow(pm, tree, root, top, p, table, index, level);
      }
    } else {
      ok, tree' := AddTable(pm, tree, root, top, p, table, index, level);
    }
    assert Node(vpn, level - 1) == Sub(p, index);
  }

  method SplitBelow(pm: PhysMem, ghost tree: Tree, ghost root: nat, ghost top: nat,
                    ghost p: Path, table: nat, index: nat, level: nat)
    returns (ok: bool, ghost tree': Tree)
    requires Space(pm, tree, root, top) && p in tree && tree[p] == table && Level(p) == level <= 3
    requires index < Slots(p, top) && index < FRAME_WORDS
    requires table in pm.mem && IsHuge(pm.mem[table][index], level)
    modifies pm, pm.frameState
    ensures pm.Valid()
    ensures !ok ==> pm.Exhausted()
    ensures Space(pm, tree', root, top)
    ensures Grown(old(pm.mem), pm.mem, old(pm.inUse), pm.inUse, tree, tree')
    ensures old(!NoHuge(pm.mem, tree, top))
    ensures forall v: nat :: Index(v, 3) < top ==> Walk(pm.mem, root, 3, v) == old(Walk(pm.mem, root, 3, v))
    ensures SameRights(old(pm.mem), pm.mem, root, top)
    ensures ok ==> table in pm.mem && IsPointer(pm.mem[table][index], level)
    ensures ok ==> Sub(p, index) in tree' && tree'[Sub(p, index)] == pm.mem[table][index].ppn
  {
    hide PhysMem.Valid;
    hide TreeOk;
    assert !NoHuge(pm.mem, tree, top);
    ghost var child;
    tree' := tree;
    ok, child := SplitLargeEntry(pm, table, index, level);
    if ok {
      ChildIsNew(pm.memmap, old(pm.mem), old(pm.inUse), tree, child);
      var e := old(pm.mem[table][index]);
      SlotOnly(old(pm.mem), pm.mem, tree, root, top, p, index, Entry(true, e.write, e.user, false, child), child);
      SplitKeepsSpace(old(pm.mem), pm.mem, tree, root, top, p, index, child);
      SplitKeepsRights(old(pm.mem), pm.mem, tree, root, top, p, index, child);
      hide SameRights;
      tree' := tree[Sub(p, index) := child];
      TreeGrows(old(pm.mem), pm.mem, old(pm.inUse), pm.inUse, tree, root, top, p, index, child);
    }
  }

  method AddTable(pm: PhysMem, ghost tree: Tree, ghost root: nat, ghost top: nat,
                  ghost p: Path, table: nat, index: nat, level: nat)
    returns (ok: bool, ghost tree': Tree)
    requires Space(pm, tree, root, top) && p in tree && tree[p] == table && Level(p) == level
    requires 0 < level <= 3 && index < Slots(p, top) && index < FRAME_WORDS
    requires table in pm.mem && pm.mem[table][index].Entry? && !pm.mem[table][index].present
    modifies pm, pm.frameState
    ensures pm.Valid()
    ensures !ok ==> pm.Exhausted()
    ensures Space(pm, tree', root, top)
    ensures Grown(old(pm.mem), pm.mem, old(pm.inUse), pm.inUse, tree, tree')
    ensures old(NoHuge(pm.mem, tree, top)) ==> NoHuge(pm.mem, tree', top)
    ensures forall v: nat :: Index(v, 3) < top ==> Walk(pm.mem, root, 3, v) == old(Walk(pm.mem, root, 3, v))
    ensures SameRights(old(pm.mem), pm.mem, root, top)
    ensures ok ==> table in pm.mem && IsPointer(pm.mem[table][index], level)
    ensures ok ==> Sub(p, index) in tree' && tree'[Sub(p, index)] == pm.mem[table][index].ppn
  {
    hide PhysMem.Valid;
    hide TreeOk;
    hide NoHuge;
    var child;
    tree' := tree;
    ok, child := pm.Alloc();
    if ok {
      ChildIsNew(pm.memmap, old(pm.mem), old(pm.inUse), tree, child);
      pm.Store(table, index, Entry(true, true, true, false, child));
      SlotOnly(old(pm.mem), pm.mem, tree, root, top, p, index, Entry(true, true, true, false, child), child);
      EmptyKeepsSpace(old(pm.mem), pm.mem, tree, root, top, p, index, child);
      EmptyKeepsRights(old(pm.mem), pm.mem, tree, root, top, p, index, child);
      hide SameRights;
      StillNoHuge(old(pm.mem), pm.mem, tree, root, top, p, index, Entry(true, true, true, false, child));
      EmptyNoHuge(pm.mem, tree, top, Sub(p, index), child);
      tree' := tree[Sub(p, index) := child];
      TreeGrows(old(pm.mem), pm.mem, old(pm.inUse), pm.inUse, tree, root, top, p, index, child);
    }
  }

  // A frame just handed out is none of the tables.
  lemma ChildIsNew(memmap: seq<MapEntry>, mem: map<nat, Frame>, inUse: set<nat>, tree: Tree, child: nat)
    requires forall p :: p in tree ==> tree[p] in inUse || !Usable(memmap, tree[p])
    requires Usable(memmap, child) && child !in inUse
    ensures child !in tree.Values
  {
  }

  // Memory that changed in the child and in one word of p's table.
  lemma SlotOnly(mem: map<nat, Frame>, mem': map<nat, Frame>, tree: Tree, root: nat, top: nat,
                 p: Path, i: nat, e: Word, child: nat)
    requires TreeOk(mem, tree, root, top) && p in tree && tree[p] in mem && i < FRAME_WORDS
    requires child !in tree.Values && child in mem'
    requires mem' == mem[child := mem'[child]][tree[p] := mem[tree[p]][i := e]]
    ensures SlotChanged(mem, mem', tree, p, i, e)
  {
    forall q | q in tree && tree[q] in mem
      ensures tree[q] in mem' && mem'[tree[q]] == if q == p then mem[tree[p]][i := e] else mem[tree[q]]
    {
      assert tree[q] in tree.Values;
    }
  }

  lemma TreeGrows(mem: map<nat, Frame>, mem': map<nat, Frame>, inUse: set<nat>, inUse': set<nat>,
                  tree: Tree, root: nat, top: nat, p: Path, i: nat, child: nat)
    requires TreeOk(mem, tree, root, top) && p in tree && tree[p] in mem && i < Slots(p, top) && i < FRAME_WORDS
    requires Level(p) >= 0 && !IsPointer(mem[tree[p]][i], Level(p))
    requires child !in tree.Values && child !in inUse && inUse' == inUse + {child}
    requires child in mem' && tree[p] in mem' && mem' == mem[child := mem'[child]][tree[p] := mem'[tree[p]]]
    ensures Grown(mem, mem', inUse, inUse', tree, tree[Sub(p, i) := child])
  {
    var tree' := tree[Sub(p, i) := child];
    assert SlotOk(mem, tree, p, i);
    assert tree'.Values == tree.Values + {child} by {
      assert tree'[Sub(p, i)] == child;
      forall f | f in tree.Values ensures f in tree'.Values {
        var q :| q in tree && tree[q] == f;
        assert tree'[q] == f;
      }
    }
    assert tree[p] in tree'.Values;
  }

  // map(): descends from the table at `level`, splitting large entries and adding
  // tables on the way, and writes the leaf.  Translation changes at vpn alone, by its
  // low 36 bits.
  method Map(pm: PhysMem, ghost tree: Tree, ghost root: nat, ghost top: nat,
             table: nat, level: nat, vpn: nat, ppn: nat, user: bool, write: bool)
    returns (ok: bool, ghost tree': Tree)
    requires Space(pm, tree, root, top) && level <= 3 && Index(vpn, 3) < top
    requires Node(vpn, level) in tree && tree[Node(vpn, level)] == table
    modifies pm, pm.frameState
    ensures pm.Valid()
    ensures !ok ==> pm.Exhausted()
    ensures Space(pm, tree', root, top)
    ensures Grown(old(pm.mem), pm.mem, old(pm.inUse), pm.inUse, tree, tree')
    ensures old(NoHuge(pm.mem, tree, top)) ==> NoHuge(pm.mem, tree', top)
    ensures SameRights(old(pm.mem), pm.mem, root, top)
    ensures !ok ==> forall v: nat :: Index(v, 3) < top ==> Walk(pm.mem, root, 3, v) == old(Walk(pm.mem, root, 3, v))
    ensures ok ==> Mapped(old(pm.mem), pm.mem, tree', root, top, Alias(vpn), ppn, user, write)
    decreases level
  {
    hide PhysMem.Valid;
    hide TreeOk;
    hide NoHuge;
    var index := Index(vpn, level);
    ghost var p := Node(vpn, level);
    tree' := tree;
    if level == 0 {
      pm.Store(table, index, Entry(true, write, user, false, ppn));
      ok := true;
      AliasNode(vpn, 0);
      AliasNode(vpn, 3);
      hide Alias;
      LeafMapped(old(pm.mem), pm.mem, tree, root, top, Alias(vpn), ppn, user, write);
      WordChanged(old(pm.mem), tree, root, top, p, index, Entry(true, write, user, false, ppn));
      StillNoHuge(old(pm.mem), pm.mem, tree, root, top, p, index, Entry(true, write, user, false, ppn));
      LeafKeepsRights(old(pm.mem), pm.mem, tree, root, top, p, index, Entry(true, write, user, false, ppn));
      return;
    }
    ok, tree' := Descend(pm, tree, root, top, table, level, vpn);
    if !ok {
      return;
    }
    ghost var mem1, inUse1, tree1 := pm.mem, pm.inUse, tree';
    var child := pm.mem[table][index].ppn;
    ok, tree' := Map(pm, tree1, root, top, child, level - 1, vpn, ppn, user, write);
    GrownTwice(old(pm.mem), mem1, pm.mem, old(pm.inUse), inUse1, pm.inUse, tree, tree1, tree');
    SameTwice(old(pm.mem), mem1, pm.mem, root, top);
  }

  // For the processor: the page gets the rights asked for, as far as the entries on the way
  // to it allowed them before, and every other page has the rights it had.
  lemma MapGrants(mem: map<nat, Frame>, mem': map<nat, Frame>, tree': Tree, root: nat, top: nat,
                  vpn: nat, ppn: nat, user: bool, write: bool, v: nat)
    requires Mapped(mem, mem', tree', root, top, Alias(vpn), ppn, user, write) && SameRights(mem, mem', root, top)
    requires v < VPN_LIMIT && Index(v, 3) < top
    ensures Access(mem', root, v) ==
      if v != Alias(vpn) then Access(mem, root, v)
      else var c := Ceiling(mem, root, 3, v); Some(Leaf(ppn, write && c.write, user && c.user))
  {
    hide Ceiling;
    hide Walk;
    assert Ceiling(mem', root, 3, v) == Ceiling(mem, root, 3, v);
  }

  // The leaf entry for vpn exists and is present.
  ghost predicate LeafPresent(mem: map<nat, Frame>, tree: Tree, vpn: nat) {
    Node(vpn, 0) in tree && tree[Node(vpn, 0)] in mem &&
    var e := mem[tree[Node(vpn, 0)]][Index(vpn, 0)];
    e.Entry? && e.present
  }

  // Tables on the way to a node are themselves nodes.
  lemma {:induction false} NodesAbove(mem: map<nat, Frame>, tree: Tree, root: nat, top: nat, vpn: nat, low: nat, high: nat)
    requires TreeOk(mem, tree, root, top) && low <= high <= 3 && Node(vpn, low) in tree
    ensures Node(vpn, high) in tree
    decreases high - low
  {
    if low < high {
      assert NodeOk(mem, tree, top, Node(vpn, low));
      NodesAbove(mem, tree, root, top, vpn, low + 1, high);
    }
  }

  // find_pte_in_root: finds the leaf entry exactly when the four-level walk
  // reaches a present one without meeting a large page.
  method FindPte(pm: PhysMem, ghost tree: Tree, ghost top: nat, root: nat, vpn: nat)
    returns (found: bool, table: nat, index: nat)
    requires Space(pm, tree, root, top) && Index(vpn, 3) < top
    ensures found <==> LeafPresent(pm.mem, tree, vpn)
    ensures found ==> table == tree[Node(vpn, 0)] && index == Index(vpn, 0)
    ensures found ==>
      var e := pm.mem[table][index]; Walk(pm.mem, root, 3, vpn) == Some(Leaf(e.ppn, e.write, e.user))
    ensures !found && NoHuge(pm.mem, tree, top) ==> Walk(pm.mem, root, 3, vpn) == None
  {
    hide PhysMem.Valid;
    table, index := root, 0;
    var level := 3;
    while true
      invariant 0 <= level <= 3
      invariant Node(vpn, level) in tree && table == tree[Node(vpn, level)]
      decreases level
    {
      index := Index(vpn, level);
      ghost var p := Node(vpn, level);
      assert NodeOk(pm.mem, tree, top, p) && SlotOk(pm.mem, tree, p, index);
      WalkReaches(pm.mem, tree, root, top, vpn, level);
      var entry := pm.mem[table][index];
      if level > 0 && Node(vpn, 0) in tree {
        NodesAbove(pm.mem, tree, root, top, vpn, 0, level - 1);
      }
      if !entry.present {
        return false, 0, 0;
      }
      if level == 0 {
        return true, table, index;
      }
      if entry.huge && (level == 2 || level == 1) {
        return false, 0, 0;
      }
      table := entry.ppn;
      level := level - 1;
    }
  }

  // user_buffer_ok: every page of a non-empty buffer is mapped present and user by
  // a 4 KB leaf, and the buffer lies in [4096, hhdm) without wrapping.
  method UserBufferOk(pm: PhysMem, ghost tree: Tree, ghost top: nat, root: nat, hhdm: nat, start: nat, length: nat)
    returns (ok: bool)
    requires Space(pm, tree, root, top) && start < U64 && length < U64
    requires hhdm <= U64 && forall va: nat :: va < hhdm ==> Index(va / PAGE_SIZE, 3) < top
    ensures length == 0 ==> (ok <==> start < hhdm)
    ensures length > 0 ==> (ok <==>
      4096 <= start && start + length <= hhdm && UserPages(pm.mem, tree, start, length))
  {
    hide PhysMem.Valid;
    hide TreeOk;
    if length == 0 {
      return start < hhdm;
    }
    if start < 4096 || start >= hhdm {
      return false;
    }
    var end := (start + length - 1) % U64;
    if end < start || end >= hhdm {
      return false;
    }
    var page, last := start / PAGE_SIZE, end / PAGE_SIZE;
    assert last == (start + length - 1) / PAGE_SIZE;
    while true
      invariant start / PAGE_SIZE <= page <= last
      invariant forall vpn :: start / PAGE_SIZE <= vpn < page ==> UserPage(pm.mem, tree, vpn)
      decreases last - page
    {
      assert page * PAGE_SIZE < hhdm && page * PAGE_SIZE / PAGE_SIZE == page;
      var found, table, index := FindPte(pm, tree, top, root, page);
      if !found || !pm.mem[table][index].user {
        assert !UserPage(pm.mem, tree, page);
        return false;
      }
      if page == last {
        return true;
      }
      page := page + 1;
    }
  }

  // Every page number of the buffer leads to a present user leaf.
  ghost predicate UserPages(mem: map<nat, Frame>, tree: Tree, start: nat, length: nat)
    requires length > 0
  {
    forall vpn :: start / PAGE_SIZE <= vpn <= (start + length - 1) / PAGE_SIZE ==> UserPage(mem, tree, vpn)
  }

  // A user program can use every byte of the buffer: the processor lets it use the pages, and
  // their addresses are the ones the processor has for them.
  ghost predicate Accessible(mem: map<nat, Frame>, root: nat, start: nat, length: nat)
    requires length > 0
  {
    forall vpn :: start / PAGE_SIZE <= vpn <= (start + length - 1) / PAGE_SIZE ==>
      UserAccess(mem, root, vpn) && PageAddress(Alias(vpn)) == vpn * PAGE_SIZE
  }

  ghost predicate UserAccess(mem: map<nat, Frame>, root: nat, vpn: nat) {
    var a := Access(mem, root, vpn);
    a.Some? && a.value.user
  }

  // No entry above the leaves of the buffer keeps users out.
  ghost predicate UserPaths(mem: map<nat, Frame>, root: nat, start: nat, length: nat)
    requires length > 0
  {
    forall vpn :: start / PAGE_SIZE <= vpn <= (start + length - 1) / PAGE_SIZE ==> Ceiling(mem, root, 3, vpn).user
  }

  ghost predicate UserPage(mem: map<nat, Frame>, tree: Tree, vpn: nat) {
    LeafPresent(mem, tree, vpn) && mem[tree[Node(vpn, 0)]][Index(vpn, 0)].user
  }

  // find_pte for page v finds what it finds for the page its low 36 bits name.
  lemma SameUserPage(mem: map<nat, Frame>, tree: Tree, v: nat)
    ensures UserPage(mem, tree, v) <==> UserPage(mem, tree, Alias(v))
  {
    AliasNode(v, 0);
  }

  // user_buffer_ok accepts the 8 bytes at 2^48 + 4096, which no mapping can reach, wherever
  // the page at 4096 is a user page.
  method FarBuffer(pm: PhysMem, ghost tree: Tree, root: nat) returns (ok: bool)
    requires Space(pm, tree, root, FRAME_WORDS) && UserPage(pm.mem, tree, 1)
    ensures ok && !Accessible(pm.mem, root, 0x1_0000_0000_1000, 8)
  {
    hide TreeOk;
    hide PhysMem.Valid;
    ok := UserBufferOk(pm, tree, FRAME_WORDS, root, UPPER_HALF, 0x1_0000_0000_1000, 8);
    SameUserPage(pm.mem, tree, VPN_LIMIT + 1);
    assert Alias(VPN_LIMIT + 1) == 1;
    hide UserPage;
    assert PageAddress(1) != (VPN_LIMIT + 1) * PAGE_SIZE;
  }

  // A page with a user leaf is the user's exactly when the entries above the leaf allow it.
  lemma LeafAccess(mem: map<nat, Frame>, tree: Tree, root: nat, top: nat, v: nat)
    requires TreeOk(mem, tree, root, top) && Index(v, 3) < top && UserPage(mem, tree, v)
    ensures UserAccess(mem, root, v) <==> Ceiling(mem, root, 3, v).user
  {
    assert Walk(mem, root, 3, v).Some? && Walk(mem, root, 3, v).value.user by {
      WalkReaches(mem, tree, root, top, v, 0);
    }
    hide TreeOk;
  }

  // A buffer that user_buffer_ok accepts is one a user program can use, for all page tables
  // whose upper entries keep no user out, exactly when it ends at or below 2^47 or lies in
  // the upper half.
  lemma AcceptedMeansAccessible(start: nat, length: nat)
    requires length > 0 && start + length <= U64
    ensures (forall mem, tree, root ::
               TreeOk(mem, tree, root, FRAME_WORDS) && UserPages(mem, tree, start, length) && UserPaths(mem, root, start, length)
               ==> Accessible(mem, root, start, length))
      <==> start + length <= LOWER_LIMIT * PAGE_SIZE || UPPER_HALF <= start
  {
    if start + length <= LOWER_LIMIT * PAGE_SIZE || UPPER_HALF <= start {
      hide TreeOk;
      forall mem, tree, root | TreeOk(mem, tree, root, FRAME_WORDS) && UserPages(mem, tree, start, length) &&
                               UserPaths(mem, root, start, length)
        ensures Accessible(mem, root, start, length)
      {
        AccessibleExactly(mem, tree, root, FRAME_WORDS, start, length);
      }
      hide UserPages;
      hide UserPaths;
      hide Accessible;
    } else {
      FarNotAccessible(start, length);
    }
  }

  lemma FarNotAccessible(start: nat, length: nat)
    requires length > 0 && LOWER_LIMIT * PAGE_SIZE < start + length && start < UPPER_HALF
    ensures exists mem, tree, root {:trigger UserPages(mem, tree, start, length), UserPaths(mem, root, start, length)} ::
      TreeOk(mem, tree, root, FRAME_WORDS) && UserPages(mem, tree, start, length) && UserPaths(mem, root, start, length) &&
      !Accessible(mem, root, start, length)
  {
    var mem, tree := FullTree();
    hide TreeOk;
    hide UserPage;
    hide UserAccess;
    hide Ceiling;
    var first := start / PAGE_SIZE;
    FarAddress(if first <= LOWER_LIMIT then LOWER_LIMIT else first);
    hide Alias;
    hide PageAddress;
    assert UserPages(mem, tree, start, length) && UserPaths(mem, 0, start, length);
    assert !Accessible(mem, 0, start, length);
  }

  // In an address space whose private half withholds nothing, what user_buffer_ok accepts
  // below 2^47 is the user's.
  lemma PrivateAccessible(mem: map<nat, Frame>, tree: Tree, root: nat, start: nat, length: nat)
    requires TreeOk(mem, tree, root, LOWER_SLOTS) && Open(mem, root, LOWER_SLOTS)
    requires length > 0 && start + length <= LOWER_LIMIT * PAGE_SIZE && UserPages(mem, tree, start, length)
    ensures Accessible(mem, root, start, length)
  {
    hide TreeOk;
    hide UserPages;
    hide Ceiling;
    forall vpn | start / PAGE_SIZE <= vpn <= (start + length - 1) / PAGE_SIZE
      ensures Ceiling(mem, root, 3, vpn).user && Index(vpn, 3) < LOWER_SLOTS
    {
      assert vpn < LOWER_LIMIT;
    }
    AccessibleExactly(mem, tree, root, LOWER_SLOTS, start, length);
  }

  // What user_buffer_ok accepts within these bounds is the user's exactly when no entry above
  // the leaves keeps users out.
  lemma AccessibleExactly(mem: map<nat, Frame>, tree: Tree, root: nat, top: nat, start: nat, length: nat)
    requires length > 0 && start + length <= U64 && UserPages(mem, tree, start, length)
    requires TreeOk(mem, tree, root, top)
    requires forall vpn :: start / PAGE_SIZE <= vpn <= (start + length - 1) / PAGE_SIZE ==> Index(vpn, 3) < top
    requires start + length <= LOWER_LIMIT * PAGE_SIZE || UPPER_HALF <= start
    ensures Accessible(mem, root, start, length) <==> UserPaths(mem, root, start, length)
  {
    hide TreeOk;
    hide UserPage;
    hide UserAccess;
    hide Ceiling;
    hide Alias;
    hide PageAddress;
    var first, last := start / PAGE_SIZE, (start + length - 1) / PAGE_SIZE;
    assert last < LOWER_LIMIT || (UPPER_HALF / PAGE_SIZE <= first && last < U64 / PAGE_SIZE);
    forall v: nat | first <= v <= last
      ensures UserAccess(mem, root, v) <==> Ceiling(mem, root, 3, v).user
      ensures PageAddress(Alias(v)) == v * PAGE_SIZE
    {
      LeafAccess(mem, tree, root, top, v);
      NearAddress(v);
    }
  }

  // user_buffer_ok looks at the leaf alone: here it is a user leaf below a kernel-only entry.
  lemma KernelOnlyPath() returns (mem: map<nat, Frame>, tree: Tree)
    ensures TreeOk(mem, tree, 0, FRAME_WORDS) && UserPages(mem, tree, 4096, 8) && !Accessible(mem, 0, 4096, 8)
  {
    var a := Sub(Root, 0);
    var b := Sub(a, 0);
    var c := Sub(b, 0);
    tree := map[Root := 0, a := 1, b := 2, c := 3];
    mem := map[
      0 := ZERO_FRAME[0 := Entry(true, true, false, false, 1)],
      1 := ZERO_FRAME[0 := Entry(true, true, true, false, 2)],
      2 := ZERO_FRAME[0 := Entry(true, true, true, false, 3)],
      3 := ZERO_FRAME[1 := Entry(true, true, true, false, 4)]];
    assert Node(1, 2) == a && Node(1, 1) == b && Node(1, 0) == c;
    KernelOnlyTree(mem, tree, a, b, c);
    assert UserPage(mem, tree, 1) && !Ceiling(mem, 0, 3, 1).user;
    hide TreeOk;
    hide UserPage;
    hide Ceiling;
    AccessibleExactly(mem, tree, 0, FRAME_WORDS, 4096, 8);
    hide Accessible;
    assert !UserPaths(mem, 0, 4096, 8) by { assert 4096 / PAGE_SIZE <= 1 <= (4096 + 8 - 1) / PAGE_SIZE; }
  }

  lemma KernelOnlyTree(mem: map<nat, Frame>, tree: Tree, a: Path, b: Path, c: Path)
    requires a == Sub(Root, 0) && b == Sub(a, 0) && c == Sub(b, 0) && tree == map[Root := 0, a := 1, b := 2, c := 3]
    requires 0 in mem && mem[0] == ZERO_FRAME[0 := Entry(true, true, false, false, 1)]
    requires 1 in mem && mem[1] == ZERO_FRAME[0 := Entry(true, true, true, false, 2)]
    requires 2 in mem && mem[2] == ZERO_FRAME[0 := Entry(true, true, true, false, 3)]
    requires 3 in mem && mem[3] == ZERO_FRAME[1 := Entry(true, true, true, false, 4)]
    ensures TreeOk(mem, tree, 0, FRAME_WORDS)
  {
    assert Level(a) == 2 && Level(b) == 1 && Level(c) == 0;
    OneEntry(mem, tree, Root, 0, Entry(true, true, false, false, 1));
    OneEntry(mem, tree, a, 0, Entry(true, true, true, false, 2));
    OneEntry(mem, tree, b, 0, Entry(true, true, true, false, 3));
    OneEntry(mem, tree, c, 1, Entry(true, true, true, false, 4));
    hide SlotOk;
  }

  lemma OneEntry(mem: map<nat, Frame>, tree: Tree, p: Path, k: nat, e: Word)
    requires p in tree && 0 <= Level(p) <= 3 && tree[p] in mem && k < FRAME_WORDS && mem[tree[p]] == ZERO_FRAME[k := e] && e.Entry?
    requires forall j: nat :: Sub(p, j) in tree ==> j == k && tree[Sub(p, j)] == e.ppn
    requires IsPointer(e, Level(p)) <==> Sub(p, k) in tree
    ensures forall i: nat :: i < FRAME_WORDS ==> mem[tree[p]][i].Entry? && SlotOk(mem, tree, p, i)
  {
  }

  lemma NearAddress(v: nat)
    requires v < LOWER_LIMIT || UPPER_HALF / PAGE_SIZE <= v < U64 / PAGE_SIZE
    ensures PageAddress(Alias(v)) == v * PAGE_SIZE
  {
  }

  // From 2^47 up to the upper half no address is one the processor has for a page.
  lemma FarAddress(v: nat)
    requires LOWER_LIMIT <= v && v * PAGE_SIZE < UPPER_HALF
    ensures PageAddress(Alias(v)) != v * PAGE_SIZE
  {
  }

  // --- page tables that map every page ---------------------------------------

  // All paths with `depth` slots at most.
  ghost function Paths(depth: nat): set<Path> {
    if depth == 0 then {Root}
    else Paths(depth - 1) + set q, i: nat | q in Paths(depth - 1) && i < FRAME_WORDS :: Sub(q, i)
  }

  // A number of its own for every path.
  ghost function Num(p: Path): nat {
    match p
    case Root => 0
    case Sub(q, i) => FRAME_WORDS * Num(q) + i + 1
  }

  ghost predicate SlotsOk(p: Path) {
    p.Sub? ==> p.slot < FRAME_WORDS && SlotsOk(p.parent)
  }

  lemma {:induction false} NumDetermines(p: Path, q: Path)
    requires SlotsOk(p) && SlotsOk(q) && Num(p) == Num(q)
    ensures p == q
  {
    if p.Sub? && q.Sub? {
      SlotOf(Num(p.parent), p.slot, Num(q.parent), q.slot);
      NumDetermines(p.parent, q.parent);
    }
  }

  lemma SlotOf(x: nat, i: nat, y: nat, j: nat)
    requires i < FRAME_WORDS && j < FRAME_WORDS && FRAME_WORDS * x + i == FRAME_WORDS * y + j
    ensures x == y && i == j
  {
  }

  lemma {:induction false} InPaths(p: Path, depth: nat)
    requires depth <= 3
    ensures p in Paths(depth) <==> SlotsOk(p) && Level(p) >= 3 - depth
    ensures Level(p) <= 3
  {
    if depth == 0 {
      LevelBelow(p);
    } else {
      LevelBelow(p);
      InPaths(p, depth - 1);
      if p.Sub? {
        InPaths(p.parent, depth - 1);
        assert p in Paths(depth) <==> p in Paths(depth - 1) || (p.parent in Paths(depth - 1) && p.slot < FRAME_WORDS);
      }
    }
  }

  lemma {:induction false} LevelBelow(p: Path)
    ensures Level(p) <= 3 && (Level(p) == 3 <==> p == Root)
  {
    if p.Sub? {
      LevelBelow(p.parent);
    }
  }

  // The frame numbered f of such tables: entry k leads to the frame of the k-th path below.
  ghost function FullFrame(f: nat): Frame {
    seq(FRAME_WORDS, k requires 0 <= k < FRAME_WORDS => Entry(true, true, true, false, FRAME_WORDS * f + k + 1))
  }

  ghost function FullTables(): Tree {
    map p | p in Paths(3) :: Num(p)
  }

  ghost function FullMemory(): map<nat, Frame> {
    map f | f in FullTables().Values :: FullFrame(f)
  }

  lemma FullPath(p: Path)
    ensures p in FullTables() <==> SlotsOk(p) && 0 <= Level(p)
    ensures p in FullTables() ==>
      FullTables()[p] == Num(p) && Num(p) in FullMemory() && FullMemory()[Num(p)] == FullFrame(Num(p)) && Level(p) <= 3
  {
    hide Paths;
    hide Num;
    hide FullFrame;
    InPaths(p, 3);
    if p in FullTables() {
      assert FullTables()[p] in FullTables().Values;
    }
  }

  lemma FullNode(p: Path)
    requires p in FullTables()
    ensures NodeOk(FullMemory(), FullTables(), FRAME_WORDS, p)
  {
    hide FullTables;
    hide FullMemory;
    hide Num;
    FullPath(p);
    if p.Sub? {
      FullPath(p.parent);
    }
  }

  lemma FullSlot(p: Path, i: nat)
    requires p in FullTables() && i < FRAME_WORDS
    ensures FullTables()[p] in FullMemory() && Level(p) >= 0 && SlotOk(FullMemory(), FullTables(), p, i)
  {
    hide FullTables;
    hide FullMemory;
    hide Num;
    FullPath(p);
    FullPath(Sub(p, i));
    NumSub(p, i);
  }

  lemma FullTree() returns (mem: map<nat, Frame>, tree: Tree)
    ensures TreeOk(mem, tree, 0, FRAME_WORDS)
    ensures forall v: nat :: UserPage(mem, tree, v) && Ceiling(mem, 0, 3, v) == ALL
  {
    mem, tree := FullMemory(), FullTables();
    hide FullTables;
    hide FullMemory;
    hide Num;
    FullPath(Root);
    NumRoot();
    forall p | p in tree ensures NodeOk(mem, tree, FRAME_WORDS, p) {
      FullNode(p);
    }
    forall p, i: nat | p in tree && i < FRAME_WORDS ensures SlotOk(mem, tree, p, i) {
      FullSlot(p, i);
    }
    forall p, q | p in tree && q in tree && tree[p] == tree[q] ensures p == q {
      FullPath(p);
      FullPath(q);
      NumDetermines(p, q);
    }
    forall v: nat ensures UserPage(mem, tree, v) && Ceiling(mem, 0, 3, v) == ALL {
      FullPage(v);
      FullCeiling(v, 3);
    }
  }

  lemma {:induction false} FullCeiling(v: nat, level: nat)
    requires level <= 3
    ensures Ceiling(FullMemory(), Num(Node(v, level)), level, v) == ALL
    decreases level
  {
    hide FullTables;
    hide FullMemory;
    NodeSlots(v, level);
    FullPath(Node(v, level));
    hide Num;
    if level > 0 {
      NumSub(Node(v, level), Index(v, level));
      FullCeiling(v, level - 1);
    }
  }

  lemma FullPage(v: nat)
    ensures UserPage(FullMemory(), FullTables(), v)
  {
    hide FullTables;
    hide FullMemory;
    hide Num;
    NodeSlots(v, 0);
    FullPath(Node(v, 0));
  }

  lemma NumRoot()
    ensures Num(Root) == 0
  {
  }

  lemma NumSub(p: Path, i: nat)
    ensures Num(Sub(p, i)) == FRAME_WORDS * Num(p) + i + 1
  {
  }

  lemma {:induction false} NodeSlots(v: nat, level: nat)
    requires level <= 3
    ensures SlotsOk(Node(v, level))
    decreases 3 - level
  {
    if level < 3 {
      NodeSlots(v, level + 1);
    }
  }

  // Changing frames outside the tree leaves the tree and its translation alone.
  lemma {:induction false} WalkOutside(mem: map<nat, Frame>, mem': map<nat, Frame>, tree: Tree, root: nat, top: nat,
                                       vpn: nat, level: nat)
    requires TreeOk(mem, tree, root, top) && SameTables(mem, mem', tree)
    requires level <= 3 && Index(vpn, 3) < top && Node(vpn, level) in tree
    ensures Walk(mem', tree[Node(vpn, level)], level, vpn) == Walk(mem, tree[Node(vpn, level)], level, vpn)
  {
    var p, i := Node(vpn, level), Index(vpn, level);
    assert NodeOk(mem, tree, top, p) && SlotOk(mem, tree, p, i);
    if IsPointer(mem[tree[p]][i], level) {
      assert Node(vpn, level - 1) == Sub(p, i);
      WalkOutside(mem, mem', tree, root, top, vpn, level - 1);
    }
  }

  ghost predicate SameTables(mem: map<nat, Frame>, mem': map<nat, Frame>, tree: Tree) {
    forall p :: p in tree && tree[p] in mem ==> tree[p] in mem' && mem'[tree[p]] == mem[tree[p]]
  }

  lemma OutsideKeepsTree(mem: map<nat, Frame>, mem': map<nat, Frame>, tree: Tree, root: nat, top: nat)
    requires TreeOk(mem, tree, root, top) && SameTables(mem, mem', tree)
    ensures TreeOk(mem', tree, root, top)
    ensures forall v: nat :: Index(v, 3) < top ==> Walk(mem', root, 3, v) == Walk(mem, root, 3, v)
  {
    forall p | p in tree ensures NodeOk(mem', tree, top, p) {
      assert NodeOk(mem, tree, top, p);
    }
    forall p, i: nat | p in tree && i < Slots(p, top) ensures SlotOk(mem', tree, p, i) {
      assert NodeOk(mem, tree, top, p) && SlotOk(mem, tree, p, i);
    }
    forall v: nat | Index(v, 3) < top ensures Walk(mem', root, 3, v) == Walk(mem, root, 3, v) {
      WalkOutside(mem, mem', tree, root, top, v, 3);
    }
  }

  lemma {:induction false} CeilingOutside(mem: map<nat, Frame>, mem': map<nat, Frame>, tree: Tree, root: nat, top: nat,
                                          vpn: nat, level: nat)
    requires TreeOk(mem, tree, root, top) && SameTables(mem, mem', tree)
    requires level <= 3 && Index(vpn, 3) < top && Node(vpn, level) in tree
    ensures Ceiling(mem', tree[Node(vpn, level)], level, vpn) == Ceiling(mem, tree[Node(vpn, level)], level, vpn)
  {
    var p, i := Node(vpn, level), Index(vpn, level);
    assert NodeOk(mem, tree, top, p) && SlotOk(mem, tree, p, i);
    if IsPointer(mem[tree[p]][i], level) {
      assert Node(vpn, level - 1) == Sub(p, i);
      CeilingOutside(mem, mem', tree, root, top, vpn, level - 1);
    }
  }

  lemma OutsideKeepsRights(mem: map<nat, Frame>, mem': map<nat, Frame>, tree: Tree, root: nat, top: nat)
    requires TreeOk(mem, tree, root, top) && SameTables(mem, mem', tree)
    ensures SameRights(mem, mem', root, top)
  {
    RootTable(mem, tree, root, top);
    hide TreeOk;
    forall v: nat {:trigger Ceiling(mem', root, 3, v)} | Index(v, 3) < top
      ensures Ceiling(mem', root, 3, v) == Ceiling(mem, root, 3, v)
    {
      CeilingOutside(mem, mem', tree, root, top, v, 3);
    }
  }

  lemma OutsideNoHuge(mem: map<nat, Frame>, mem': map<nat, Frame>, tree: Tree, root: nat, top: nat)
    requires TreeOk(mem, tree, root, top) && SameTables(mem, mem', tree)
    ensures NoHuge(mem, tree, top) ==> NoHuge(mem', tree, top)
  {
    if NoHuge(mem, tree, top) {
      forall q, k: nat | q in tree && k < Slots(q, top) && k < FRAME_WORDS && tree[q] in mem' && Level(q) >= 0
        ensures !IsHuge(mem'[tree[q]][k], Level(q))
      {
        assert NodeOk(mem, tree, top, q);
      }
    }
  }

  // Without large pages the leaf entry is what the walk finds.
  lemma {:induction false} WalkFrom(mem: map<nat, Frame>, tree: Tree, root: nat, top: nat, v: nat, level: nat)
    requires TreeOk(mem, tree, root, top) && NoHuge(mem, tree, top) && Index(v, 3) < top
    requires level <= 3 && Node(v, level) in tree
    ensures Walk(mem, tree[Node(v, level)], level, v) ==
      if LeafPresent(mem, tree, v) then
        var e := mem[tree[Node(v, 0)]][Index(v, 0)]; Some(Leaf(e.ppn, e.write, e.user))
      else None
    decreases level
  {
    var p, i := Node(v, level), Index(v, level);
    assert NodeOk(mem, tree, top, p) && SlotOk(mem, tree, p, i);
    if level > 0 {
      assert Node(v, level - 1) == Sub(p, i);
      if Sub(p, i) in tree {
        WalkFrom(mem, tree, root, top, v, level - 1);
      } else if Node(v, 0) in tree {
        NodesAbove(mem, tree, root, top, v, 0, level - 1);
      }
    }
  }

  lemma WalkIsLeaf(mem: map<nat, Frame>, tree: Tree, root: nat, top: nat, v: nat)
    requires TreeOk(mem, tree, root, top) && NoHuge(mem, tree, top) && Index(v, 3) < top
    ensures Walk(mem, root, 3, v) ==
      if LeafPresent(mem, tree, v) then
        var e := mem[tree[Node(v, 0)]][Index(v, 0)]; Some(Leaf(e.ppn, e.write, e.user))
      else None
  {
    WalkFrom(mem, tree, root, top, v, 3);
  }

  // The body of the unmapping loops of munmap and free_mapped_frames: the page
  // loses its leaf entry, every other page keeps its translation, and the frame
  // goes back to the allocator.  The page is the one the low 36 bits of vpn name.
  method ClearPage(pm: PhysMem, ghost tree: Tree, ghost top: nat, root: nat, vpn: nat)
    requires Space(pm, tree, root, top) && Index(vpn, 3) < top
    requires LeafPresent(pm.mem, tree, vpn) ==> pm.mem[tree[Node(vpn, 0)]][Index(vpn, 0)].ppn !in tree.Values
    modifies pm, pm.frameState
    ensures Space(pm, tree, root, top)
    ensures !LeafPresent(pm.mem, tree, vpn)
    ensures old(LeafPresent(pm.mem, tree, vpn)) ==>
      (forall v: nat :: v < VPN_LIMIT && Index(v, 3) < top ==>
         Walk(pm.mem, root, 3, v) == if v == Alias(vpn) then None else old(Walk(pm.mem, root, 3, v))) &&
      pm.inUse == old(pm.inUse - (var f := pm.mem[tree[Node(vpn, 0)]][Index(vpn, 0)].ppn; if f == 0 then {} else {f}))
    ensures old(LeafPresent(pm.mem, tree, vpn)) ==>
      SlotChanged(old(pm.mem), pm.mem, tree, Node(vpn, 0), Index(vpn, 0), ZERO_WORD)
    ensures !old(LeafPresent(pm.mem, tree, vpn)) ==> pm.mem == old(pm.mem) && pm.inUse == old(pm.inUse)
    ensures old(NoHuge(pm.mem, tree, top)) ==> NoHuge(pm.mem, tree, top)
    ensures SameRights(old(pm.mem), pm.mem, root, top)
  {
    hide PhysMem.Valid;
    hide NoHuge;
    hide TreeOk;
    SameNow(pm.mem, root, top);
    hide SameRights;
    AliasNode(vpn, 0);
    AliasNode(vpn, 3);
    hide Alias;
    var found, table, index := FindPte(pm, tree, top, root, vpn);
    if found {
      var raw := pm.mem[table][index].ppn;
      pm.Store(table, index, ZERO_WORD);
      Cleared(old(pm.mem), pm.mem, tree, root, top, Alias(vpn));
      WordChanged(old(pm.mem), tree, root, top, Node(vpn, 0), index, ZERO_WORD);
      StillNoHuge(old(pm.mem), pm.mem, tree, root, top, Node(vpn, 0), index, ZERO_WORD);
      LeafKeepsRights(old(pm.mem), pm.mem, tree, root, top, Node(vpn, 0), index, ZERO_WORD);
      hide SlotChanged;
      ghost var mem1 := pm.mem;
      if raw != 0 {
        pm.Free(raw);
        FreedOutside(mem1, pm.mem, tree, raw);
        OutsideKeepsTree(mem1, pm.mem, tree, root, top);
        OutsideNoHuge(mem1, pm.mem, tree, root, top);
        OutsideKeepsRights(mem1, pm.mem, tree, root, top);
        SameTwice(old(pm.mem), mem1, pm.mem, root, top);
        OutsideKeepsChange(old(pm.mem), mem1, pm.mem, tree, root, top, Node(vpn, 0), index, ZERO_WORD);
      }
    }
  }

  lemma OutsideKeepsChange(mem: map<nat, Frame>, mem1: map<nat, Frame>, mem2: map<nat, Frame>, tree: Tree, root: nat,
                           top: nat, p: Path, i: nat, e: Word)
    requires TreeOk(mem1, tree, root, top) && SlotChanged(mem, mem1, tree, p, i, e) && SameTables(mem1, mem2, tree)
    ensures SlotChanged(mem, mem2, tree, p, i, e)
  {
  }

  lemma FreedOutside(mem: map<nat, Frame>, mem': map<nat, Frame>, tree: Tree, f: nat)
    requires f !in tree.Values
    requires mem' == mem || (f in mem' && mem' == mem[f := mem'[f]])
    ensures SameTables(mem, mem', tree)
  {
    forall p | p in tree ensures tree[p] != f {
      assert tree[p] in tree.Values;
    }
  }

  lemma Cleared(mem: map<nat, Frame>, mem': map<nat, Frame>, tree: Tree, root: nat, top: nat, vpn: nat)
    requires TreeOk(mem, tree, root, top) && LeafPresent(mem, tree, vpn) && vpn < VPN_LIMIT && Index(vpn, 3) < top
    requires var t := tree[Node(vpn, 0)]; mem' == mem[t := mem[t][Index(vpn, 0) := ZERO_WORD]]
    ensures TreeOk(mem', tree, root, top)
    ensures forall v: nat :: v < VPN_LIMIT && Index(v, 3) < top ==>
      Walk(mem', root, 3, v) == if v == vpn then None else Walk(mem, root, 3, v)
  {
    WordChanged(mem, tree, root, top, Node(vpn, 0), Index(vpn, 0), ZERO_WORD);
    LeafWrite(mem, mem', tree, root, top, vpn, ZERO_WORD, vpn);
    forall v: nat | v < VPN_LIMIT && Index(v, 3) < top
      ensures Walk(mem', root, 3, v) == if v == vpn then None else Walk(mem, root, 3, v)
    {
      LeafWrite(mem, mem', tree, root, top, vpn, ZERO_WORD, v);
    }
  }

  // init_thread: a new root whose lower half is empty and whose upper half is the
  // common one; a private address space that translates nothing yet.
  method InitThread(pm: PhysMem, commonRoot: nat) returns (ok: bool, root: nat, ghost tree: Tree)
    requires pm.Valid() && pm.Owned(commonRoot)
    requires forall i :: 0 <= i < FRAME_WORDS ==> pm.mem[commonRoot][i].Entry?
    modifies pm, pm.frameState
    ensures pm.Valid()
    ensures !ok ==> pm.Exhausted() && pm.mem == old(pm.mem) && pm.inUse == old(pm.inUse)
    ensures ok ==> Space(pm, tree, root, 256) && tree == map[Root := root] && root !in old(pm.inUse)
    ensures ok ==> pm.inUse == old(pm.inUse) + {root} && pm.mem == old(pm.mem)[root := pm.mem[root]]
    ensures ok ==> forall i :: 256 <= i < FRAME_WORDS ==> pm.mem[root][i] == old(pm.mem[commonRoot][i])
    ensures ok ==> NoHuge(pm.mem, tree, 256) && Open(pm.mem, root, 256)
    ensures ok ==> forall v: nat :: Index(v, 3) < 256 ==> Walk(pm.mem, root, 3, v) == None
  {
    hide PhysMem.Valid;
    ok, root := pm.Alloc();
    tree := map[Root := root];
    if !ok {
      return;
    }
    assert root != commonRoot && pm.Owned(root);
    var i := 256;
    while i < FRAME_WORDS
      invariant 256 <= i <= FRAME_WORDS
      invariant pm.Valid() && pm.inUse == old(pm.inUse) + {root}
      invariant root in pm.mem && pm.mem == old(pm.mem)[root := pm.mem[root]]
      invariant forall k :: 0 <= k < 256 ==> pm.mem[root][k] == ZERO_WORD
      invariant forall k :: 256 <= k < i ==> pm.mem[root][k] == old(pm.mem[commonRoot][k])
      invariant forall k :: i <= k < FRAME_WORDS ==> pm.mem[root][k] == ZERO_WORD
    {
      pm.Store(root, i, pm.mem[commonRoot][i]);
      i := i + 1;
    }
    forall k: nat | k < 256 ensures SlotOk(pm.mem, tree, Root, k) {
      assert pm.mem[root][k] == ZERO_WORD;
    }
  }
}
