// Copying an address space (VMM::fork_from): every present user page of the
// parent's lower half, on fresh frames, at the same page number.

module PageNumbers {
  import opened Words
  import opened PageTableTree

  // Pages below one entry at a level.
  function Pages(level: nat): nat
    requires level <= 4
  {
    match level
    case 0 => 1
    case 1 => 512
    case 2 => 0x4_0000
    case 3 => 0x800_0000
    case _ => VPN_LIMIT
  }

  // i entries' worth of pages at a level (i << (level * 9)).
  function Offset(i: nat, level: nat): nat
    requires level <= 3
  {
    match level
    case 0 => i
    case 1 => i * 512
    case 2 => i * 0x4_0000
    case _ => i * 0x800_0000
  }

  // The first page number below a node.
  ghost function Base(p: Path): nat {
    match p
    case Root => 0
    case Sub(q, s) => Base(q) + (if 0 <= Level(q) <= 3 then Offset(s, Level(q)) else 0)
  }

  ghost predicate SlotsInRange(p: Path) {
    Level(p) >= 0 && (p.Sub? ==> p.slot < FRAME_WORDS && SlotsInRange(p.parent))
  }

  // base is the first page of the k-th block at the level above.
  ghost predicate BlockStart(base: nat, level: nat, k: nat)
    requires level <= 3
  {
    match level
    case 0 => base == k * 512
    case 1 => base == k * 0x4_0000
    case 2 => base == k * 0x800_0000
    case _ => base == 0
  }

  // Entry i of a table covers a contiguous block of page numbers.
  lemma SlotBlock(v: nat, base: nat, level: nat, k: nat, i: nat)
    requires level <= 3 && i < FRAME_WORDS && v < VPN_LIMIT
    requires BlockStart(base, level, k) && base <= v < base + Pages(level + 1)
    ensures Index(v, level) == i <==> base + Offset(i, level) <= v < base + Offset(i + 1, level)
  {
    match level
    case 0 =>
      assert v % 512 == v - base;
    case 1 =>
      SmallBlock(v, k, i);
    case 2 =>
      LargeBlock(v, k, i);
    case 3 =>
  }

  lemma SmallBlock(v: nat, k: nat, i: nat)
    requires k * 0x4_0000 <= v < k * 0x4_0000 + 0x4_0000 && i < 512
    ensures v / 512 % 512 == i <==> k * 0x4_0000 + i * 512 <= v < k * 0x4_0000 + (i + 1) * 512
  {
    var q := v / 512 - k * 512;
    assert v / 512 % 512 == q;
  }

  lemma LargeBlock(v: nat, k: nat, i: nat)
    requires k * 0x800_0000 <= v < k * 0x800_0000 + 0x800_0000 && i < 512
    ensures v / 0x4_0000 % 512 == i <==>
      k * 0x800_0000 + i * 0x4_0000 <= v < k * 0x800_0000 + (i + 1) * 0x4_0000
  {
    var q := v / 0x4_0000 - k * 512;
    assert v / 0x4_0000 % 512 == q;
  }

  lemma AlignStep(base: nat, level: nat, k: nat, s: nat)
    requires 1 <= level <= 3 && s < FRAME_WORDS && BlockStart(base, level, k)
    ensures BlockStart(base + Offset(s, level), level - 1, if level == 3 then s else k * 512 + s)
    ensures Offset(s, level) + Pages(level) == Offset(s + 1, level) <= Pages(level + 1)
  {
  }

  lemma {:induction false} BaseAligned(p: Path) returns (k: nat)
    requires SlotsInRange(p)
    ensures 0 <= Level(p) <= 3 && BlockStart(Base(p), Level(p), k)
    ensures Base(p) + Pages(Level(p) + 1) <= VPN_LIMIT
  {
    if p.Sub? {
      var j := BaseAligned(p.parent);
      AlignStep(Base(p.parent), Level(p.parent), j, p.slot);
      k := if Level(p.parent) == 3 then p.slot else j * 512 + p.slot;
    } else {
      k := 0;
    }
  }

  // A node's pages are the block of page numbers from its base.
  lemma {:induction false} NodeBlock(v: nat, p: Path)
    requires SlotsInRange(p) && v < VPN_LIMIT
    ensures 0 <= Level(p) <= 3
    ensures Node(v, Level(p)) == p <==> Base(p) <= v < Base(p) + Pages(Level(p) + 1)
  {
    var unused := BaseAligned(p);
    if p.Sub? {
      var q := p.parent;
      NodeBlock(v, q);
      var k := BaseAligned(q);
      AlignStep(Base(q), Level(q), k, p.slot);
      if Node(v, Level(q)) == q {
        SlotBlock(v, Base(q), Level(q), k, p.slot);
      }
    }
  }
}

module AddressSpaceFork {
  import opened Basics
  import opened Words
  import opened PageTableTree
  import opened PhysicalMemory
  import opened PageMapping
  import opened PageNumbers

  // The state a fork starts from: memory, the frames in use, the parent's tree
  // and the child's.
  datatype Before = Before(
    memmap: seq<MapEntry>, mem: map<nat, Frame>, inUse: set<nat>,
    parent: Tree, parentRoot: nat, child: Tree, childRoot: nat)
  {
    ghost predicate Owned(f: nat) {
      f in mem && (f in inUse || !Usable(memmap, f))
    }

    // The parent's present user page at v.
    ghost function UserLeaf(v: nat): Option<Leaf> {
      var w := Walk(mem, parentRoot, 3, v);
      if w.Some? && w.value.user then w else None
    }

    // Two trees on different owned frames, the child's lower half empty, and no
    // user page of the parent lying in a table of the child.
    ghost predicate Good() {
      TreeOk(mem, parent, parentRoot, LOWER_SLOTS) && TreeOk(mem, child, childRoot, LOWER_SLOTS) &&
      (forall p :: p in parent ==> Owned(parent[p]) && parent[p] !in child.Values) &&
      (forall p :: p in child ==> Owned(child[p])) &&
      (forall v: nat :: v < LOWER_LIMIT ==> Walk(mem, childRoot, 3, v) == None) &&
      (forall v: nat :: v < LOWER_LIMIT && UserLeaf(v).Some? ==>
         Owned(UserLeaf(v).value.ppn) && UserLeaf(v).value.ppn !in child.Values)
    }
  }

  // The child's translation at v is what fork promises.
  ghost predicate PageCopied(b: Before, mem: map<nat, Frame>, inUse: set<nat>, tree: Tree, v: nat) {
    var w := Walk(mem, b.childRoot, 3, v);
    match b.UserLeaf(v)
    case None => w == None
    case Some(l) =>
      w.Some? && w.value.write == l.write && w.value.user &&
      w.value.ppn in mem && l.ppn in b.mem && mem[w.value.ppn] == b.mem[l.ppn] &&
      w.value.ppn in inUse && w.value.ppn !in b.inUse && w.value.ppn !in tree.Values
  }

  ghost predicate Copied(b: Before, mem: map<nat, Frame>, inUse: set<nat>, tree: Tree, bound: nat) {
    Open(mem, b.childRoot, LOWER_SLOTS) &&
    (forall v: nat :: v < bound && v < LOWER_LIMIT ==> PageCopied(b, mem, inUse, tree, v)) &&
    (forall v: nat :: bound <= v < LOWER_LIMIT ==> Walk(mem, b.childRoot, 3, v) == None)
  }

  // Different pages are on different frames.
  ghost predicate Distinct(b: Before, mem: map<nat, Frame>) {
    forall v: nat, w: nat :: v < w < LOWER_LIMIT ==>
      var x, y := Walk(mem, b.childRoot, 3, v), Walk(mem, b.childRoot, 3, w);
      x.Some? && y.Some? ==> x.value.ppn != y.value.ppn
  }

  // Everything owned before the fork, save the child's own tables, is as it was:
  // the parent's tables and pages in particular.
  ghost predicate Preserved(b: Before, mem: map<nat, Frame>, inUse: set<nat>, tree: Tree) {
    b.inUse <= inUse &&
    (forall f :: b.Owned(f) && f !in b.child.Values ==> f in mem && mem[f] == b.mem[f]) &&
    (forall f :: f in tree.Values ==> f in b.child.Values || !b.Owned(f)) &&
    b.mem.Keys <= mem.Keys
  }

  ghost predicate Forked(b: Before, mem: map<nat, Frame>, inUse: set<nat>, tree: Tree, bound: nat) {
    Copied(b, mem, inUse, tree, bound) && Distinct(b, mem) && Preserved(b, mem, inUse, tree)
  }

  lemma InLowerHalf(v: nat)
    requires v < LOWER_LIMIT
    ensures Index(v, 3) < LOWER_SLOTS
  {
  }

  // Nothing to copy between two bounds.
  lemma SkipBlock(b: Before, mem: map<nat, Frame>, inUse: set<nat>, tree: Tree, bound: nat, bound': nat)
    requires Forked(b, mem, inUse, tree, bound) && bound <= bound'
    requires forall v: nat :: bound <= v < bound' && v < LOWER_LIMIT ==> b.UserLeaf(v) == None
    ensures Forked(b, mem, inUse, tree, bound')
  {
    forall v: nat | v < bound' && v < LOWER_LIMIT ensures PageCopied(b, mem, inUse, tree, v) {
    }
  }

  // The parent's page v is whatever its table for v says.
  lemma ParentLeaf(b: Before, p: Path, i: nat, v: nat)
    requires b.Good() && p in b.parent && SlotsInRange(p) && Level(p) <= 2 && i < FRAME_WORDS && v < LOWER_LIMIT
    requires Base(p) + Offset(i, Level(p)) <= v < Base(p) + Offset(i + 1, Level(p))
    ensures b.parent[p] in b.mem
    ensures Walk(b.mem, b.parentRoot, 3, v) == Walk(b.mem, b.parent[p], Level(p), v)
    ensures Index(v, Level(p)) == i
  {
    var k := BaseAligned(p);
    OffsetBound(i, Level(p));
    NodeBlock(v, p);
    SlotBlock(v, Base(p), Level(p), k, i);
    InLowerHalf(v);
    assert NodeOk(b.mem, b.parent, LOWER_SLOTS, p);
    WalkReaches(b.mem, b.parent, b.parentRoot, LOWER_SLOTS, v, Level(p));
  }

  lemma OffsetBound(i: nat, level: nat)
    requires level <= 3 && i < FRAME_WORDS
    ensures Offset(i, level) + Pages(level) == Offset(i + 1, level) <= Pages(level + 1)
  {
  }

  lemma AbsentBlock(b: Before, p: Path, i: nat, bound: nat, bound': nat)
    requires b.Good() && p in b.parent && SlotsInRange(p) && Level(p) <= 2 && i < FRAME_WORDS
    requires bound == Base(p) + Offset(i, Level(p)) && bound' == Base(p) + Offset(i + 1, Level(p))
    requires b.parent[p] in b.mem
    requires var e := b.mem[b.parent[p]][i]; e.Entry? && (!e.present || (Level(p) == 0 && !e.user))
    ensures bound <= bound'
    ensures forall v: nat :: bound <= v < bound' && v < LOWER_LIMIT ==> b.UserLeaf(v) == None
  {
    OffsetBound(i, Level(p));
    forall v: nat | bound <= v < bound' && v < LOWER_LIMIT ensures b.UserLeaf(v) == None {
      ParentLeaf(b, p, i, v);
    }
  }

  predicate Avoids(w: Option<Leaf>, f: nat) {
    w.Some? ==> w.value.ppn != f
  }

  // A fresh frame holding a copy of a parent page disturbs nothing.
  lemma FreshCopy(b: Before, mem: map<nat, Frame>, mem': map<nat, Frame>, inUse: set<nat>, tree: Tree, bound: nat, dst: nat)
    requires Forked(b, mem, inUse, tree, bound) && TreeOk(mem, tree, b.childRoot, LOWER_SLOTS)
    requires dst !in inUse && Usable(b.memmap, dst) && dst !in tree.Values
    requires dst in mem' && mem' == mem[dst := mem'[dst]]
    ensures TreeOk(mem', tree, b.childRoot, LOWER_SLOTS)
    ensures Forked(b, mem', inUse + {dst}, tree, bound)
    ensures forall v: nat :: v < bound && v < LOWER_LIMIT ==> Avoids(Walk(mem', b.childRoot, 3, v), dst)
  {
    FreedOutside(mem, mem', tree, dst);
    OutsideKeepsTree(mem, mem', tree, b.childRoot, LOWER_SLOTS);
    OutsideKeepsRights(mem, mem', tree, b.childRoot, LOWER_SLOTS);
    StaysOpen(mem, mem', b.childRoot, LOWER_SLOTS);
    hide Open;
    hide SameRights;
    forall v: nat | v < LOWER_LIMIT ensures Walk(mem', b.childRoot, 3, v) == Walk(mem, b.childRoot, 3, v) {
      InLowerHalf(v);
    }
    forall v: nat | v < bound && v < LOWER_LIMIT
      ensures PageCopied(b, mem', inUse + {dst}, tree, v) && Avoids(Walk(mem', b.childRoot, 3, v), dst)
    {
      assert PageCopied(b, mem, inUse, tree, v);
    }
  }

  // The child's page v has become leaf n, and the others are as before.
  ghost predicate OnePageMore(b: Before, mem: map<nat, Frame>, mem': map<nat, Frame>, v: nat, n: Leaf) {
    forall u: nat :: u < LOWER_LIMIT ==>
      Walk(mem', b.childRoot, 3, u) == if u == v then Some(n) else Walk(mem, b.childRoot, 3, u)
  }

  lemma MappedOne(b: Before, mem: map<nat, Frame>, mem': map<nat, Frame>, tree': Tree, v: nat, dst: nat, write: bool)
    requires Mapped(mem, mem', tree', b.childRoot, LOWER_SLOTS, v, dst, true, write) && v < LOWER_LIMIT
    ensures OnePageMore(b, mem, mem', v, Leaf(dst, write, true))
  {
    hide Walk;
    forall u: nat | u < LOWER_LIMIT
      ensures Walk(mem', b.childRoot, 3, u) == if u == v then Some(Leaf(dst, write, true)) else Walk(mem, b.childRoot, 3, u)
    {
      InLowerHalf(u);
    }
  }

  lemma DistinctMore(b: Before, mem: map<nat, Frame>, mem': map<nat, Frame>, inUse: set<nat>, tree: Tree, v: nat, n: Leaf)
    requires OnePageMore(b, mem, mem', v, n) && Distinct(b, mem) && Copied(b, mem, inUse, tree, v)
    requires forall u: nat :: u < v && u < LOWER_LIMIT ==> Avoids(Walk(mem, b.childRoot, 3, u), n.ppn)
    ensures Distinct(b, mem')
  {
    hide Walk;
    hide PageCopied;
    hide Open;
  }

  // Mapping the copy at page v moves the bound past v.
  lemma MapCopy(b: Before, mem: map<nat, Frame>, mem': map<nat, Frame>, inUse: set<nat>, inUse': set<nat>,
                tree: Tree, tree': Tree, v: nat, dst: nat, l: Leaf)
    requires b.Good() && v < LOWER_LIMIT
    requires Forked(b, mem, inUse, tree, v)
    requires Grown(mem, mem', inUse, inUse', tree, tree')
    requires Mapped(mem, mem', tree', b.childRoot, LOWER_SLOTS, v, dst, true, l.write)
    requires SameRights(mem, mem', b.childRoot, LOWER_SLOTS)
    requires b.UserLeaf(v) == Some(l) && l.ppn in b.mem
    requires dst in inUse && dst !in b.inUse && dst !in tree.Values && dst in mem && mem[dst] == b.mem[l.ppn]
    requires forall u: nat :: u < v && u < LOWER_LIMIT ==> Avoids(Walk(mem, b.childRoot, 3, u), dst)
    requires forall f :: f in inUse' ==> Usable(b.memmap, f)
    ensures Forked(b, mem', inUse', tree', v + 1)
  {
    StaysOpen(mem, mem', b.childRoot, LOWER_SLOTS);
    GrownPreserves(b, mem, mem', inUse, inUse', tree, tree');
    MappedOne(b, mem, mem', tree', v, dst, l.write);
    DistinctMore(b, mem, mem', inUse, tree, v, Leaf(dst, l.write, true));
    hide Preserved;
    hide Distinct;
    hide Before.Good;
    hide Open;
    hide SameRights;
    hide Walk;
    hide Mapped;
    forall f | f in inUse && f !in tree.Values ensures f !in tree'.Values {
      assert f in tree'.Values - tree.Values ==> f in inUse' - inUse;
    }
    forall u: nat | u < v + 1 && u < LOWER_LIMIT ensures PageCopied(b, mem', inUse', tree', u) {
      if u != v {
        assert PageCopied(b, mem, inUse, tree, u);
      }
    }
  }

  lemma GrownPreserves(b: Before, mem: map<nat, Frame>, mem': map<nat, Frame>, inUse: set<nat>, inUse': set<nat>,
                       tree: Tree, tree': Tree)
    requires Preserved(b, mem, inUse, tree) && Grown(mem, mem', inUse, inUse', tree, tree')
    requires forall f :: f in inUse' ==> Usable(b.memmap, f)
    ensures Preserved(b, mem', inUse', tree')
  {
    forall f | f in tree'.Values ensures f in b.child.Values || !b.Owned(f) {
      if f !in tree.Values {
        assert f in inUse' - inUse;
      }
    }
    forall f | b.Owned(f) && f !in b.child.Values ensures f !in tree'.Values && f !in tree.Values {
    }
  }

  // memcpy of one page.
  method CopyFrame(pm: PhysMem, dst: nat, src: nat)
    requires pm.Valid() && pm.Owned(dst) && src in pm.mem && src != dst
    modifies pm`mem
    ensures pm.Valid()
    ensures pm.mem == old(pm.mem)[dst := old(pm.mem[src])]
  {
    hide PhysMem.Valid;
    var i := 0;
    while i < FRAME_WORDS
      invariant 0 <= i <= FRAME_WORDS
      invariant pm.Valid() && pm.Owned(dst)
      invariant pm.mem == old(pm.mem)[dst := pm.mem[dst]]
      invariant forall k :: 0 <= k < i ==> pm.mem[dst][k] == old(pm.mem[src])[k]
    {
      pm.Store(dst, i, pm.mem[src][i]);
      i := i + 1;
    }
    assert pm.mem[dst] == old(pm.mem[src]);
  }

  datatype Outcome = Done | OutOfFrames | HugePage

  // The child is a good space, the fork has reached `bound`.
  ghost predicate At(pm: PhysMem, b: Before, tree: Tree, bound: nat)
    reads pm, pm.frameState
  {
    b.Good() && pm.memmap == b.memmap && Space(pm, tree, b.childRoot, LOWER_SLOTS) &&
    Forked(b, pm.mem, pm.inUse, tree, bound)
  }

  // One user page: a new frame, a copy, a mapping.
  method CopyPage(pm: PhysMem, ghost b: Before, ghost tree: Tree, childRoot: nat, v: nat, src: nat, write: bool)
    returns (ok: bool, ghost tree': Tree)
    requires At(pm, b, tree, v) && childRoot == b.childRoot && v < LOWER_LIMIT
    requires b.UserLeaf(v) == Some(Leaf(src, write, true))
    modifies pm, pm.frameState
    ensures pm.Valid()
    ensures !ok ==> pm.Exhausted() && Preserved(b, pm.mem, pm.inUse, tree')
    ensures ok ==> At(pm, b, tree', v + 1)
  {
    hide PhysMem.Valid;
    hide TreeOk;
    hide Forked;
    tree' := tree;
    var dst;
    ok, dst := pm.Alloc();
    if !ok {
      ForkedPreserves(b, pm.mem, pm.inUse, tree, v);
      return;
    }
    SourceKept(b, old(pm.mem), old(pm.inUse), tree, v);
    ChildIsNew(pm.memmap, old(pm.mem), old(pm.inUse), tree, dst);
    CopyFrame(pm, dst, src);
    FreshCopy(b, old(pm.mem), pm.mem, old(pm.inUse), tree, v, dst);
    InLowerHalf(v);
    ghost var mem1, inUse1 := pm.mem, pm.inUse;
    SpaceRoot(pm, tree, childRoot);
    ok, tree' := Map(pm, tree, childRoot, LOWER_SLOTS, childRoot, 3, v, dst, true, write);
    InUseUsable(pm);
    if !ok {
      ForkedPreserves(b, mem1, inUse1, tree, v);
      GrownPreserves(b, mem1, pm.mem, inUse1, pm.inUse, tree, tree');
    } else {
      MapCopy(b, mem1, pm.mem, inUse1, pm.inUse, tree, tree', v, dst, Leaf(src, write, true));
    }
  }

  lemma ForkedPreserves(b: Before, mem: map<nat, Frame>, inUse: set<nat>, tree: Tree, bound: nat)
    requires Forked(b, mem, inUse, tree, bound)
    ensures Preserved(b, mem, inUse, tree)
  {
  }

  lemma SpaceRoot(pm: PhysMem, tree: Tree, root: nat)
    requires TreeOk(pm.mem, tree, root, LOWER_SLOTS)
    ensures Root in tree && tree[Root] == root
  {
  }

  lemma InUseUsable(pm: PhysMem)
    requires pm.Valid()
    ensures forall f :: f in pm.inUse ==> Usable(pm.memmap, f)
  {
  }

  // A page still to be copied reads as it did before the fork.
  lemma SourceKept(b: Before, mem: map<nat, Frame>, inUse: set<nat>, tree: Tree, v: nat)
    requires b.Good() && Forked(b, mem, inUse, tree, v) && v < LOWER_LIMIT && b.UserLeaf(v).Some?
    ensures var src := b.UserLeaf(v).value.ppn;
      src in b.mem && src in mem && mem[src] == b.mem[src] && (src in inUse || !Usable(b.memmap, src))
    ensures b.inUse <= inUse
  {
  }

  // clone_user_pages: all the user pages below one parent table.
  method ClonePages(pm: PhysMem, ghost b: Before, ghost tree: Tree, childRoot: nat,
                    table: nat, level: nat, base: nat, ghost p: Path)
    returns (r: Outcome, ghost tree': Tree)
    requires base == Base(p) && At(pm, b, tree, base) && childRoot == b.childRoot
    requires p in b.parent && b.parent[p] == table && Level(p) == level <= 2
    requires SlotsInRange(p) && Base(p) + Pages(level + 1) <= LOWER_LIMIT
    modifies pm, pm.frameState
    ensures pm.Valid()
    ensures r == Done ==> At(pm, b, tree', base + Pages(level + 1))
    ensures r == OutOfFrames ==> pm.Exhausted() && Preserved(b, pm.mem, pm.inUse, tree')
    ensures r == HugePage ==> !NoHuge(b.mem, b.parent, LOWER_SLOTS)
    decreases level
  {
    hide PhysMem.Valid;
    hide TreeOk;
    hide Forked;
    tree' := tree;
    var i := 0;
    while i < FRAME_WORDS
      invariant 0 <= i <= FRAME_WORDS
      invariant At(pm, b, tree', base + Offset(i, level))
    {
      ghost var here, next := base + Offset(i, level), base + Offset(i + 1, level);
      OffsetBound(i, level);
      ParentTable(b, pm.mem, pm.inUse, tree', here, p, i);
      var entry := pm.mem[table][i];
      if !entry.present || (level == 0 && !entry.user) {
        AbsentBlock(b, p, i, here, next);
        SkipBlock(b, pm.mem, pm.inUse, tree', here, next);
      } else if level == 0 {
        var vpn := base + i;
        ParentLeaf(b, p, i, vpn);
        var ok;
        ok, tree' := CopyPage(pm, b, tree', childRoot, vpn, entry.ppn, entry.write);
        if !ok {
          return OutOfFrames, tree';
        }
      } else if entry.huge {
        return HugePage, tree';
      } else {
        r, tree' := ClonePages(pm, b, tree', childRoot, entry.ppn, level - 1, base + Offset(i, level), Sub(p, i));
        if r != Done {
          return r, tree';
        }
      }
      i := i + 1;
    }
    r := Done;
  }

  // The parent's tables are read unchanged throughout, and lead where they did.
  lemma ParentTable(b: Before, mem: map<nat, Frame>, inUse: set<nat>, tree: Tree, bound: nat, p: Path, i: nat)
    requires b.Good() && Forked(b, mem, inUse, tree, bound) && p in b.parent && 0 <= Level(p) <= 3
    requires i < FRAME_WORDS && i < Slots(p, LOWER_SLOTS)
    ensures b.parent[p] in mem && b.parent[p] in b.mem && mem[b.parent[p]] == b.mem[b.parent[p]]
    ensures b.mem[b.parent[p]][i].Entry?
    ensures IsPointer(b.mem[b.parent[p]][i], Level(p)) ==>
      Sub(p, i) in b.parent && b.parent[Sub(p, i)] == b.mem[b.parent[p]][i].ppn
  {
    assert NodeOk(b.mem, b.parent, LOWER_SLOTS, p) && SlotOk(b.mem, b.parent, p, i);
  }

  // fork_from over the parent's whole lower half.
  method ForkFrom(pm: PhysMem, ghost b: Before, parentRoot: nat, childRoot: nat)
    returns (r: Outcome, ghost tree: Tree)
    requires At(pm, b, b.child, 0) && pm.mem == b.mem && pm.inUse == b.inUse
    requires parentRoot == b.parentRoot && childRoot == b.childRoot
    modifies pm, pm.frameState
    ensures pm.Valid()
    ensures r == Done ==> At(pm, b, tree, LOWER_LIMIT)
    ensures r == OutOfFrames ==> pm.Exhausted() && Preserved(b, pm.mem, pm.inUse, tree)
    ensures r == HugePage ==> !NoHuge(b.mem, b.parent, LOWER_SLOTS)
  {
    hide PhysMem.Valid;
    hide TreeOk;
    hide Forked;
    tree := b.child;
    var i := 0;
    while i < LOWER_SLOTS
      invariant 0 <= i <= LOWER_SLOTS
      invariant At(pm, b, tree, Offset(i, 3))
    {
      SpaceRootOf(b);
      ParentTable(b, pm.mem, pm.inUse, tree, Offset(i, 3), Root, i);
      var entry := pm.mem[parentRoot][i];
      if !entry.present {
        AbsentRootBlock(b, i);
        SkipBlock(b, pm.mem, pm.inUse, tree, Offset(i, 3), Offset(i + 1, 3));
      } else {
        r, tree := ClonePages(pm, b, tree, childRoot, entry.ppn, 2, i * 0x800_0000, Sub(Root, i));
        if r != Done {
          return r, tree;
        }
      }
      i := i + 1;
    }
    r := Done;
  }

  lemma SpaceRootOf(b: Before)
    requires b.Good()
    ensures Root in b.parent && b.parent[Root] == b.parentRoot
  {
  }

  lemma AbsentRootBlock(b: Before, i: nat)
    requires b.Good() && i < LOWER_SLOTS && b.parentRoot in b.mem
    requires b.mem[b.parentRoot][i].Entry? && !b.mem[b.parentRoot][i].present
    ensures forall v: nat :: Offset(i, 3) <= v < Offset(i + 1, 3) && v < LOWER_LIMIT ==> b.UserLeaf(v) == None
  {
    forall v: nat | Offset(i, 3) <= v < Offset(i + 1, 3) && v < LOWER_LIMIT ensures b.UserLeaf(v) == None {
      assert Index(v, 3) == i;
    }
  }

  // However a fork ends, the parent translates as before and its pages read as before.
  lemma ParentKept(b: Before, mem: map<nat, Frame>, inUse: set<nat>, tree: Tree, v: nat)
    requires b.Good() && Preserved(b, mem, inUse, tree) && v < LOWER_LIMIT
    ensures Walk(mem, b.parentRoot, 3, v) == Walk(b.mem, b.parentRoot, 3, v)
    ensures Access(mem, b.parentRoot, v) == Access(b.mem, b.parentRoot, v)
    ensures b.UserLeaf(v).Some? ==>
      var f := b.UserLeaf(v).value.ppn;
      f in mem && f in b.mem && mem[f] == b.mem[f]
  {
    InLowerHalf(v);
    assert SameTables(b.mem, mem, b.parent);
    OutsideKeepsTree(b.mem, mem, b.parent, b.parentRoot, LOWER_SLOTS);
    OutsideKeepsRights(b.mem, mem, b.parent, b.parentRoot, LOWER_SLOTS);
    hide TreeOk;
    assert Ceiling(mem, b.parentRoot, 3, v) == Ceiling(b.mem, b.parentRoot, 3, v);
  }

  // What a finished fork means for the processor, page by page: the child has exactly the
  // pages for which the parent has a user leaf, with the rights of that leaf, which are the
  // parent's own where no upper entry of the parent withholds any.
  lemma ForkResult(b: Before, mem: map<nat, Frame>, inUse: set<nat>, tree: Tree, v: nat)
    requires b.Good() && Forked(b, mem, inUse, tree, LOWER_LIMIT) && v < LOWER_LIMIT
    ensures Access(mem, b.childRoot, v).Some? <==> b.UserLeaf(v).Some?
    ensures b.UserLeaf(v).Some? ==>
      var child, parent := Access(mem, b.childRoot, v).value, b.UserLeaf(v).value;
      child.write == parent.write && child.user &&
      child.ppn in mem && parent.ppn in mem && mem[child.ppn] == mem[parent.ppn] == b.mem[parent.ppn] &&
      child.ppn !in b.inUse
    ensures Access(mem, b.parentRoot, v) == Access(b.mem, b.parentRoot, v)
    ensures Open(b.mem, b.parentRoot, LOWER_SLOTS) && b.UserLeaf(v).Some? ==> Access(b.mem, b.parentRoot, v) == b.UserLeaf(v)
  {
    InLowerHalf(v);
    assert PageCopied(b, mem, inUse, tree, v);
    assert Ceiling(mem, b.childRoot, 3, v) == ALL;
    ParentKept(b, mem, inUse, tree, v);
    hide Forked;
    hide Ceiling;
    if Open(b.mem, b.parentRoot, LOWER_SLOTS) {
      assert Ceiling(b.mem, b.parentRoot, 3, v) == ALL;
    }
  }
}
