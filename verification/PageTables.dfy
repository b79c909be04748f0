// Four-level x86-64 page tables stored in physical frames.

module PageTableTree {
  import opened Basics
  import opened Words

  // The node of the radix tree reached by a sequence of table indices.
  datatype Path = Root | Sub(parent: Path, slot: nat)

  // Which frame holds each table node.  Because a map is a function and the
  // invariant makes it injective, every table frame has one place in one tree.
  type Tree = map<Path, nat>

  datatype Leaf = Leaf(ppn: nat, write: bool, user: bool)

  const VPN_LIMIT := 0x10_0000_0000
  const LOWER_SLOTS := 256                      // of the root table: the private half
  const LOWER_LIMIT := 0x8_0000_0000            // its pages
  const UPPER_HALF := 0xffff_8000_0000_0000     // the lowest address of the shared half

  function Level(p: Path): int {
    match p
    case Root => 3
    case Sub(q, _) => Level(q) - 1
  }

  // Nine bits of the page number for each level.
  function Index(vpn: nat, level: nat): (i: nat)
    requires level <= 3
    ensures i < FRAME_WORDS
  {
    match level
    case 0 => vpn % 512
    case 1 => vpn / 512 % 512
    case 2 => vpn / 0x4_0000 % 512
    case _ => vpn / 0x800_0000 % 512
  }

  // The page's number within the large page that holds it (vpn & (512^level - 1)).
  function Within(vpn: nat, level: nat): nat
    requires level <= 2
  {
    match level
    case 0 => 0
    case 1 => vpn % 512
    case _ => vpn % 0x4_0000
  }

  // The table a walk for vpn consults at a level.
  ghost function Node(vpn: nat, level: nat): (p: Path)
    requires level <= 3
    ensures Level(p) == level
    decreases 3 - level
  {
    if level == 3 then Root else Sub(Node(vpn, level + 1), Index(vpn, level + 1))
  }

  // The page whose indices the low 36 bits of a page number give.
  function Alias(v: nat): (a: nat)
    ensures a < VPN_LIMIT && (v < VPN_LIMIT ==> a == v)
  {
    v % VPN_LIMIT
  }

  // The address at which the processor uses the page: bit 47 is copied into the bits above.
  function PageAddress(a: nat): nat {
    if a < LOWER_LIMIT then a * PAGE_SIZE else a * PAGE_SIZE + 0xffff_0000_0000_0000
  }

  // A walk for a page number is a walk for its low 36 bits.
  lemma AliasIndices(v: nat)
    ensures forall l: nat :: l <= 3 ==> Index(Alias(v), l) == Index(v, l)
  {
    var a, q := Alias(v), v / VPN_LIMIT;
    Nest(v);
    Nest(a);
    DropHigh(v, a, 0x800_0000 * q);
    DropHigh(v / 512, a / 512, 0x4_0000 * q);
    DropHigh(v / 512 / 512, a / 512 / 512, 512 * q);
    DropHigh(v / 512 / 512 / 512, a / 512 / 512 / 512, q);
  }

  lemma DropHigh(x: nat, y: nat, k: nat)
    requires x == y + 512 * k
    ensures x % 512 == y % 512 && x / 512 == y / 512 + k
  {
  }

  lemma {:induction false} AliasNode(v: nat, level: nat)
    requires level <= 3
    ensures Node(Alias(v), level) == Node(v, level) && Index(Alias(v), level) == Index(v, level)
    decreases 3 - level
  {
    AliasIndices(v);
    if level < 3 {
      AliasNode(v, level + 1);
    }
  }

  // Dividing by 512 at a time is dividing by the larger power.
  lemma Nest(v: nat)
    ensures v / 512 / 512 == v / 0x4_0000
    ensures v / 0x4_0000 / 512 == v / 0x800_0000
  {
  }

  // A page number is its four indices, most significant first.
  lemma Recompose(v: nat)
    requires v < VPN_LIMIT
    ensures v == Index(v, 3) * 0x800_0000 + Index(v, 2) * 0x4_0000 + Index(v, 1) * 512 + Index(v, 0)
  {
    Nest(v);
    var q1, q2, q3 := v / 512, v / 0x4_0000, v / 0x800_0000;
    assert v == 512 * q1 + Index(v, 0);
    assert q1 == 512 * q2 + Index(v, 1);
    assert q2 == 512 * q3 + Index(v, 2);
    assert q3 == Index(v, 3);
  }

  lemma IndicesDetermine(v: nat, w: nat)
    requires v < VPN_LIMIT && w < VPN_LIMIT
    requires forall l :: 0 <= l <= 3 ==> Index(v, l) == Index(w, l)
    ensures v == w
  {
    Recompose(v);
    Recompose(w);
  }

  predicate IsHuge(e: Word, level: nat) {
    e.Entry? && e.present && e.huge && (level == 2 || level == 1)
  }

  predicate IsPointer(e: Word, level: nat) {
    level > 0 && e.Entry? && e.present && !IsHuge(e, level)
  }

  // The leaf a translation reaches: its frame, W and U.  It may be a 2 MB or a 1 GB entry.
  function Walk(mem: map<nat, Frame>, table: nat, level: nat, vpn: nat): Option<Leaf>
    requires level <= 3
    decreases level
  {
    if table !in mem then None else
      var e := mem[table][Index(vpn, level)];
      if !e.Entry? || !e.present then None
      else if level == 0 then Some(Leaf(e.ppn, e.write, e.user))
      else if IsHuge(e, level) then Some(Leaf(e.ppn + Within(vpn, level), e.write, e.user))
      else Walk(mem, e.ppn, level - 1, vpn)
  }

  datatype Rights = Rights(write: bool, user: bool)

  const ALL := Rights(true, true)

  function Both(r: Rights, write: bool, user: bool): Rights {
    Rights(r.write && write, r.user && user)
  }

  // The rights that the entries above the 4 KB leaf leave: W and U of every present entry
  // met on the way, down to the first absent or large one.
  function Ceiling(mem: map<nat, Frame>, table: nat, level: nat, vpn: nat): Rights
    requires level <= 3
    decreases level
  {
    if table !in mem || level == 0 then ALL else
      var e := mem[table][Index(vpn, level)];
      if !e.Entry? || !e.present then ALL
      else if IsHuge(e, level) then Rights(e.write, e.user)
      else Both(Ceiling(mem, e.ppn, level - 1, vpn), e.write, e.user)
  }

  // The processor's translation: a page may be written, or used by a user program, only
  // where every entry on the way to it allows it.
  function Access(mem: map<nat, Frame>, root: nat, vpn: nat): Option<Leaf> {
    match Walk(mem, root, 3, vpn)
    case None => None
    case Some(l) =>
      var c := Ceiling(mem, root, 3, vpn);
      Some(Leaf(l.ppn, l.write && c.write, l.user && c.user))
  }

  // No page has gained or lost rights on the way to its leaf.
  ghost predicate SameRights(mem: map<nat, Frame>, mem': map<nat, Frame>, root: nat, top: nat) {
    forall v: nat {:trigger Ceiling(mem', root, 3, v)} :: Index(v, 3) < top ==>
      Ceiling(mem', root, 3, v) == Ceiling(mem, root, 3, v)
  }

  // No entry above a leaf withholds a right.
  ghost predicate Open(mem: map<nat, Frame>, root: nat, top: nat) {
    forall v: nat {:trigger Ceiling(mem, root, 3, v)} :: Index(v, 3) < top ==> Ceiling(mem, root, 3, v) == ALL
  }

  // Root slots below `top` belong to this tree; a private address space owns the
  // lower 256 and shares the rest.
  function Slots(p: Path, top: nat): nat {
    if p == Root then top else FRAME_WORDS
  }

  ghost predicate NodeOk(mem: map<nat, Frame>, tree: Tree, top: nat, p: Path)
    requires p in tree
  {
    0 <= Level(p) <= 3 &&
    tree[p] in mem &&
    (p.Sub? ==> p.parent in tree && p.slot < Slots(p.parent, top)) &&
    (forall i :: 0 <= i < FRAME_WORDS ==> mem[tree[p]][i].Entry?)
  }

  ghost predicate SlotOk(mem: map<nat, Frame>, tree: Tree, p: Path, i: nat)
    requires p in tree && tree[p] in mem && i < FRAME_WORDS && Level(p) >= 0
  {
    var e := mem[tree[p]][i];
    (Sub(p, i) in tree <==> IsPointer(e, Level(p))) &&
    (Sub(p, i) in tree ==> e.Entry? && tree[Sub(p, i)] == e.ppn)
  }

  // The frames named by `tree` are distinct and are exactly the tables reached
  // from root, each through the one entry its path names.
  ghost predicate TreeOk(mem: map<nat, Frame>, tree: Tree, root: nat, top: nat) {
    top <= FRAME_WORDS &&
    Root in tree && tree[Root] == root &&
    (forall p :: p in tree ==> NodeOk(mem, tree, top, p)) &&
    (forall p, i: nat :: p in tree && i < Slots(p, top) ==> SlotOk(mem, tree, p, i)) &&
    (forall p, q :: p in tree && q in tree && tree[p] == tree[q] ==> p == q)
  }

  // mem' differs from mem, on the frames of the tree, in one table word only.
  ghost predicate SlotChanged(mem: map<nat, Frame>, mem': map<nat, Frame>, tree: Tree, p: Path, i: nat, e: Word) {
    p in tree && i < FRAME_WORDS && tree[p] in mem &&
    forall q :: q in tree && tree[q] in mem ==>
      tree[q] in mem' && mem'[tree[q]] == if q == p then mem[tree[p]][i := e] else mem[tree[q]]
  }

  // A walk that reaches a table of the tree continues from that table.
  lemma {:induction false} WalkReaches(mem: map<nat, Frame>, tree: Tree, root: nat, top: nat, vpn: nat, level: nat)
    requires TreeOk(mem, tree, root, top) && level <= 3 && Index(vpn, 3) < top
    requires Node(vpn, level) in tree
    ensures Walk(mem, root, 3, vpn) == Walk(mem, tree[Node(vpn, level)], level, vpn)
    decreases 3 - level
  {
    if level < 3 {
      var up := Node(vpn, level + 1);
      assert NodeOk(mem, tree, top, Node(vpn, level));
      assert SlotOk(mem, tree, up, Index(vpn, level + 1));
      WalkReaches(mem, tree, root, top, vpn, level + 1);
    }
  }

  // Changing one table word does not disturb walks that do not read it.
  lemma {:induction false} WalkElsewhere(mem: map<nat, Frame>, mem': map<nat, Frame>, tree: Tree, root: nat, top: nat,
                                         p: Path, i: nat, e: Word, vpn: nat, level: nat)
    requires TreeOk(mem, tree, root, top) && SlotChanged(mem, mem', tree, p, i, e)
    requires level <= 3 && Index(vpn, 3) < top && Node(vpn, level) in tree
    requires forall l: nat :: l <= level ==> Node(vpn, l) != p || Index(vpn, l) != i
    ensures Walk(mem', tree[Node(vpn, level)], level, vpn) == Walk(mem, tree[Node(vpn, level)], level, vpn)
  {
    var n := Node(vpn, level);
    assert NodeOk(mem, tree, top, n);
    assert mem'[tree[n]][Index(vpn, level)] == mem[tree[n]][Index(vpn, level)];
    if IsPointer(mem[tree[n]][Index(vpn, level)], level) {
      assert SlotOk(mem, tree, n, Index(vpn, level));
      assert Node(vpn, level - 1) == Sub(n, Index(vpn, level));
      WalkElsewhere(mem, mem', tree, root, top, p, i, e, vpn, level - 1);
    }
  }

  // Node is one-to-one level by level: the walk for vpn meets p only at p's level.
  ghost predicate Through(vpn: nat, p: Path, i: nat) {
    0 <= Level(p) <= 3 && Node(vpn, Level(p)) == p && Index(vpn, Level(p)) == i
  }

  // The whole-walk form: pages that do not go through the changed word keep their
  // translation.
  lemma SlotFrame(mem: map<nat, Frame>, mem': map<nat, Frame>, tree: Tree, root: nat, top: nat,
                  p: Path, i: nat, e: Word, vpn: nat)
    requires TreeOk(mem, tree, root, top) && SlotChanged(mem, mem', tree, p, i, e)
    requires Index(vpn, 3) < top && !Through(vpn, p, i)
    ensures Walk(mem', root, 3, vpn) == Walk(mem, root, 3, vpn)
  {
    assert NodeOk(mem, tree, top, p);
    WalkElsewhere(mem, mem', tree, root, top, p, i, e, vpn, 3);
  }

  // The same for the rights on the way: they change at most for pages through the word.
  lemma {:induction false} SlotCeiling(mem: map<nat, Frame>, mem': map<nat, Frame>, tree: Tree, root: nat, top: nat,
                                       p: Path, i: nat, e: Word, vpn: nat, level: nat)
    requires TreeOk(mem, tree, root, top) && SlotChanged(mem, mem', tree, p, i, e)
    requires level <= 3 && Index(vpn, 3) < top && Node(vpn, level) in tree
    requires Through(vpn, p, i) ==>
      Ceiling(mem', tree[p], Level(p), vpn) == Ceiling(mem, tree[p], Level(p), vpn)
    ensures Ceiling(mem', tree[Node(vpn, level)], level, vpn) == Ceiling(mem, tree[Node(vpn, level)], level, vpn)
  {
    var n, k := Node(vpn, level), Index(vpn, level);
    assert NodeOk(mem, tree, top, n);
    if n != p || k != i {
      assert mem'[tree[n]][k] == mem[tree[n]][k];
      if IsPointer(mem[tree[n]][k], level) {
        assert SlotOk(mem, tree, n, k);
        assert Node(vpn, level - 1) == Sub(n, k);
        SlotCeiling(mem, mem', tree, root, top, p, i, e, vpn, level - 1);
      }
    }
  }

  // A table ready to hang below an entry at `level`: no pointer in it yet.
  ghost predicate FreshTable(f: Frame, level: nat) {
    level > 0 && forall k :: 0 <= k < FRAME_WORDS ==> f[k].Entry? && !IsPointer(f[k], level - 1)
  }

  // Hanging a fresh table below a slot that held no pointer gives a larger tree.
  lemma AttachKeepsTree(mem: map<nat, Frame>, mem': map<nat, Frame>, tree: Tree, root: nat, top: nat,
                        p: Path, i: nat, e: Word, child: nat)
    requires TreeOk(mem, tree, root, top) && SlotChanged(mem, mem', tree, p, i, e)
    requires i < Slots(p, top) && Level(p) > 0
    requires !IsPointer(mem[tree[p]][i], Level(p))
    requires IsPointer(e, Level(p)) && e.ppn == child && child !in tree.Values
    requires child in mem' && FreshTable(mem'[child], Level(p))
    ensures TreeOk(mem', tree[Sub(p, i) := child], root, top)
  {
    var tree' := tree[Sub(p, i) := child];
    assert NodeOk(mem, tree, top, p) && SlotOk(mem, tree, p, i);
    forall q | q in tree' ensures NodeOk(mem', tree', top, q) {
      assert q in tree ==> NodeOk(mem, tree, top, q);
    }
    forall q, k: nat | q in tree' && k < Slots(q, top) ensures SlotOk(mem', tree', q, k) {
      AttachSlot(mem, mem', tree, root, top, p, i, e, child, q, k);
    }
    forall q | q in tree ensures tree[q] != child {
      assert tree[q] in tree.Values;
    }
  }

  lemma AttachSlot(mem: map<nat, Frame>, mem': map<nat, Frame>, tree: Tree, root: nat, top: nat,
                   p: Path, i: nat, e: Word, child: nat, q: Path, k: nat)
    requires TreeOk(mem, tree, root, top) && SlotChanged(mem, mem', tree, p, i, e)
    requires i < Slots(p, top) && Level(p) > 0
    requires !IsPointer(mem[tree[p]][i], Level(p))
    requires IsPointer(e, Level(p)) && e.ppn == child && child !in tree.Values
    requires child in mem' && FreshTable(mem'[child], Level(p))
    requires q in tree[Sub(p, i) := child] && k < Slots(q, top)
    ensures tree[Sub(p, i) := child][q] in mem' && Level(q) >= 0
    ensures SlotOk(mem', tree[Sub(p, i) := child], q, k)
  {
    if q == Sub(p, i) && q !in tree {
      assert Sub(q, k) in tree ==> NodeOk(mem, tree, top, Sub(q, k));
    } else {
      assert NodeOk(mem, tree, top, q) && SlotOk(mem, tree, q, k);
      assert SlotOk(mem, tree, p, i);
    }
  }

  // If the new table translates as the old entry did, so does the whole tree.
  lemma AttachKeepsWalks(mem: map<nat, Frame>, mem': map<nat, Frame>, tree: Tree, root: nat, top: nat,
                         p: Path, i: nat, e: Word, child: nat, vpn: nat)
    requires TreeOk(mem, tree, root, top) && SlotChanged(mem, mem', tree, p, i, e)
    requires TreeOk(mem', tree[Sub(p, i) := child], root, top)
    requires i < Slots(p, top) && Level(p) > 0 && IsPointer(e, Level(p)) && e.ppn == child
    requires Index(vpn, 3) < top
    requires Through(vpn, p, i) ==>
      Walk(mem', child, Level(p) - 1, vpn) == Walk(mem, tree[p], Level(p), vpn)
    ensures Walk(mem', root, 3, vpn) == Walk(mem, root, 3, vpn)
  {
    assert NodeOk(mem, tree, top, p);
    if Through(vpn, p, i) {
      WalkReaches(mem, tree, root, top, vpn, Level(p));
      assert Node(vpn, Level(p) - 1) == Sub(p, i);
      WalkReaches(mem', tree[Sub(p, i) := child], root, top, vpn, Level(p) - 1);
    } else {
      SlotFrame(mem, mem', tree, root, top, p, i, e, vpn);
    }
  }

  // The 512 entries split_large_entry writes.
  function SplitEntry(e: Word, level: nat, k: nat): Word
    requires e.Entry? && 1 <= level <= 2
  {
    Entry(e.present, e.write, e.user, level == 2, e.ppn + (if level == 2 then k * 512 else k))
  }

  ghost predicate IsSplit(f: Frame, e: Word, level: nat) {
    IsHuge(e, level) && forall k :: 0 <= k < FRAME_WORDS ==> f[k] == SplitEntry(e, level, k)
  }

  // The page's offset inside a large page, by the index in the split table.
  function OffsetIn(level: nat, vpn: nat): nat
    requires 1 <= level <= 2
  {
    if level == 2 then Index(vpn, 1) * 512 + vpn % 512 else Index(vpn, 0)
  }

  lemma SplitWord(mem: map<nat, Frame>, child: nat, e: Word, level: nat, vpn: nat)
    requires level <= 3 && child in mem && IsSplit(mem[child], e, level)
    ensures Walk(mem, child, level - 1, vpn) ==
      Some(Leaf(e.ppn + Within(vpn, level), e.write, e.user))
  {
    var k := Index(vpn, level - 1);
    assert mem[child][k] == SplitEntry(e, level, k);
    OffsetSplits(vpn, level);
    if level == 2 {
      HugeWord(mem, child, mem[child][k], 1, vpn);
    } else {
      assert Walk(mem, child, 0, vpn) == Some(Leaf(e.ppn + OffsetIn(level, vpn), e.write, e.user));
    }
  }

  lemma HugeWord(mem: map<nat, Frame>, table: nat, e: Word, level: nat, vpn: nat)
    requires level <= 3 && IsHuge(e, level) && table in mem && mem[table][Index(vpn, level)] == e
    ensures Walk(mem, table, level, vpn) == Some(Leaf(e.ppn + Within(vpn, level), e.write, e.user))
  {
  }

  lemma OffsetSplits(vpn: nat, level: nat)
    requires 1 <= level <= 2
    ensures Within(vpn, level) == OffsetIn(level, vpn)
  {
  }

  // A split table covers the large page it replaces, page for page.
  lemma SplitTranslates(mem: map<nat, Frame>, table: nat, mem': map<nat, Frame>, child: nat, e: Word, level: nat, vpn: nat)
    requires 1 <= level <= 2
    requires table in mem && mem[table][Index(vpn, level)] == e
    requires child in mem' && IsSplit(mem'[child], e, level)
    ensures Walk(mem', child, level - 1, vpn) == Walk(mem, table, level, vpn)
  {
    SplitWord(mem', child, e, level, vpn);
    HugeWord(mem, table, e, level, vpn);
  }

  // Nor does a split change the rights of a page below it.
  lemma SplitCeiling(mem: map<nat, Frame>, table: nat, mem': map<nat, Frame>, child: nat, e: Word, level: nat, vpn: nat)
    requires 1 <= level <= 2
    requires table in mem && mem[table][Index(vpn, level)] == e
    requires child in mem' && IsSplit(mem'[child], e, level)
    requires table in mem' && mem'[table][Index(vpn, level)] == Entry(true, e.write, e.user, false, child)
    ensures Ceiling(mem', table, level, vpn) == Ceiling(mem, table, level, vpn)
  {
    var k := Index(vpn, level - 1);
    assert mem'[child][k] == SplitEntry(e, level, k);
  }

  // Writing a leaf word changes the translation of its own page only.
  lemma LeafWrite(mem: map<nat, Frame>, mem': map<nat, Frame>, tree: Tree, root: nat, top: nat, vpn: nat, e: Word, v: nat)
    requires TreeOk(mem, tree, root, top) && Node(vpn, 0) in tree
    requires SlotChanged(mem, mem', tree, Node(vpn, 0), Index(vpn, 0), e) && e.Entry?
    requires vpn < VPN_LIMIT && v < VPN_LIMIT && Index(vpn, 3) < top && Index(v, 3) < top
    ensures TreeOk(mem', tree, root, top)
    ensures Walk(mem', root, 3, v) ==
      if v != vpn then Walk(mem, root, 3, v)
      else if e.present then Some(Leaf(e.ppn, e.write, e.user)) else None
  {
    var p, i := Node(vpn, 0), Index(vpn, 0);
    LeafWriteKeepsTree(mem, mem', tree, root, top, p, i, e);
    if v == vpn {
      WalkReaches(mem', tree, root, top, vpn, 0);
    } else {
      if Through(v, p, i) {
        SameNode(vpn, v, 0);
        IndicesDetermine(vpn, v);
      }
      SlotFrame(mem, mem', tree, root, top, p, i, e, v);
    }
  }

  lemma LeafWriteKeepsTree(mem: map<nat, Frame>, mem': map<nat, Frame>, tree: Tree, root: nat, top: nat,
                           p: Path, i: nat, e: Word)
    requires TreeOk(mem, tree, root, top) && p in tree && Level(p) == 0
    requires SlotChanged(mem, mem', tree, p, i, e) && e.Entry?
    ensures TreeOk(mem', tree, root, top)
  {
    forall q | q in tree ensures NodeOk(mem', tree, top, q) {
      assert NodeOk(mem, tree, top, q);
    }
    forall q, k: nat | q in tree && k < Slots(q, top) ensures SlotOk(mem', tree, q, k) {
      assert NodeOk(mem, tree, top, q) && SlotOk(mem, tree, q, k);
    }
  }

  lemma {:induction false} SameNode(v: nat, w: nat, level: nat)
    requires level <= 3 && Node(v, level) == Node(w, level)
    ensures forall l :: level < l <= 3 ==> Index(v, l) == Index(w, l)
    decreases 3 - level
  {
    if level < 3 {
      SameNode(v, w, level + 1);
    }
  }
}

// Page-table entries as the 64-bit words the code stores (P, R/W, U/S, PS and bits
// 12..47), and the Entry each of them is in the model.
module PteBits {
  import opened Words
  import opened PageTableTree

  const MAX_FRAME: bv64 := 0xF_FFFF_FFFF
  const FRAME_BITS := 36

  predicate Present(e: bv64) { e & 1 != 0 }
  predicate Writable(e: bv64) { e & 2 != 0 }
  predicate User(e: bv64) { e & 4 != 0 }
  predicate Huge(e: bv64) { e & 128 != 0 }
  function FrameNumber(e: bv64): bv64 { (e >> 12) & 0xF_FFFF_FFFF }

  function MakeEntry(ppn: bv64, user: bool, write: bool): bv64 {
    (ppn << 12) | (1 | (if write then 2 else 0) | (if user then 4 else 0))
  }

  // What split_large_entry stores at index i of the new table.
  function SplitBits(e: bv64, level: nat, i: bv64): bv64 {
    WithFlags(Plus(Base(e), Step(level, i)), e, level)
  }

  function Base(e: bv64): bv64 { e & 0x000F_FFFF_FFFF_F000 }

  function Step(level: nat, i: bv64): bv64 {
    if level == 2 then i * 0x20_0000 else i * 0x1000
  }

  function Plus(x: bv64, y: bv64): bv64 { x + y }

  function WithFlags(address: bv64, e: bv64, level: nat): bv64 {
    if level == 2 then address | (e & 7) | 128 else address | (e & 7)
  }

  predicate Odd(x: bv64) { x & 1 == 1 }

  // The number the low n bits of a word stand for.
  function Number(x: bv64, n: nat): nat {
    if n == 0 then 0 else 2 * Number(x >> 1, n - 1) + (if Odd(x) then 1 else 0)
  }

  function Decode(e: bv64): Word {
    Entry(Present(e), Writable(e), User(e), Huge(e), Number(FrameNumber(e), FRAME_BITS))
  }

  lemma Unroll(x: bv64, n: nat)
    requires n > 0
    ensures Number(x, n) == 2 * Number(x >> 1, n - 1) + (if Odd(x) then 1 else 0)
  {
  }

  // z holds the bits of x and y, which share none.
  predicate Joins(x: bv64, y: bv64, z: bv64) { x & y == 0 && z == x | y }

  // Words without a common bit add up.
  lemma {:induction false} JoinNumbers(x: bv64, y: bv64, z: bv64, n: nat)
    requires Joins(x, y, z)
    ensures Number(z, n) == Number(x, n) + Number(y, n)
  {
    if n > 0 {
      JoinBits(x, y, z);
      JoinHalves(x, y, z);
      hide Joins;
      hide Odd;
      Unroll(x, n);
      Unroll(y, n);
      Unroll(z, n);
      hide Number;
      JoinNumbers(x >> 1, y >> 1, z >> 1, n - 1);
    }
  }

  lemma JoinBits(x: bv64, y: bv64, z: bv64)
    requires Joins(x, y, z)
    ensures Odd(z) <==> Odd(x) || Odd(y)
    ensures !(Odd(x) && Odd(y))
  {
  }

  lemma JoinHalves(x: bv64, y: bv64, z: bv64)
    requires Joins(x, y, z)
    ensures Joins(x >> 1, y >> 1, z >> 1)
  {
  }

  predicate Doubles(x: bv64, y: bv64) {
    y >> 1 == x && y & 1 == 0
  }

  lemma DoubleNumber(x: bv64, y: bv64, n: nat)
    requires Doubles(x, y)
    ensures Number(y, n + 1) == 2 * Number(x, n)
  {
  }

  lemma ThreeDoublings(x: bv64, x2: bv64, x4: bv64, x8: bv64, n: nat)
    requires Doubles(x, x2) && Doubles(x2, x4) && Doubles(x4, x8)
    ensures Number(x8, n + 3) == 8 * Number(x, n)
  {
    hide Doubles;
    hide Number;
    DoubleNumber(x, x2, n);
    DoubleNumber(x2, x4, n + 1);
    DoubleNumber(x4, x8, n + 2);
  }

  lemma Shifts(i: bv64)
    requires i < 512
    ensures Doubles(i, i << 1) && Doubles(i << 1, i << 2) && Doubles(i << 2, i << 3)
    ensures Doubles(i << 3, i << 4) && Doubles(i << 4, i << 5) && Doubles(i << 5, i << 6)
    ensures Doubles(i << 6, i << 7) && Doubles(i << 7, i << 8) && Doubles(i << 8, i << 9)
  {
  }

  lemma ShiftNine(i: bv64, n: nat)
    requires i < 512
    ensures Number(i << 9, n + 9) == 512 * Number(i, n)
  {
    hide Doubles;
    hide Number;
    Shifts(i);
    ThreeDoublings(i, i << 1, i << 2, i << 3, n);
    ThreeDoublings(i << 3, i << 4, i << 5, i << 6, n + 3);
    ThreeDoublings(i << 6, i << 7, i << 8, i << 9, n + 6);
  }

  // A 9-bit index stands for the same number in any wider field.
  ghost predicate Fits(x: bv64, m: nat) {
    if m == 0 then x == 0 else Fits(x >> 1, m - 1)
  }

  lemma {:induction false} Widen(x: bv64, m: nat, n: nat)
    requires Fits(x, m) && m <= n
    ensures Number(x, n) == Number(x, m)
  {
    if n > 0 {
      Unroll(x, n);
      if m > 0 {
        Unroll(x, m);
        Widen(x >> 1, m - 1, n - 1);
      } else {
        ZeroHalves(x);
        Widen(x >> 1, 0, n - 1);
      }
    }
  }

  lemma ZeroHalves(x: bv64)
    requires x == 0
    ensures x >> 1 == 0 && !Odd(x)
  {
  }

  lemma NineHalves(i: bv64)
    requires i < 512
    ensures ((((((((i >> 1) >> 1) >> 1) >> 1) >> 1) >> 1) >> 1) >> 1) >> 1 == 0
  {
  }

  lemma IndexFits(i: bv64)
    requires i < 512
    ensures Fits(i, 9)
  {
    var i3 := ((i >> 1) >> 1) >> 1;
    var i6 := ((i3 >> 1) >> 1) >> 1;
    NineHalves(i);
    FitsMore(i, 9);
    FitsMore(i3, 6);
    FitsMore(i6, 3);
  }

  lemma FitsMore(x: bv64, m: nat)
    requires m >= 3
    ensures Fits(x, m) <==> Fits(((x >> 1) >> 1) >> 1, m - 3)
  {
    assert Fits(x, m) <==> Fits(x >> 1, m - 1);
    assert Fits(x >> 1, m - 1) <==> Fits((x >> 1) >> 1, m - 2);
  }

  // make_entry loses nothing: the word it makes reads back as the frame, for every
  // 36-bit frame number, and the flags asked for.
  lemma MakeEntryDecodes(ppn: bv64, user: bool, write: bool)
    requires ppn <= MAX_FRAME
    ensures Decode(MakeEntry(ppn, user, write)) == Entry(true, write, user, false, Number(ppn, FRAME_BITS))
  {
    MakeEntryFrame(ppn, user, write);
    MakeEntryFlags(ppn, user, write);
  }

  lemma MakeEntryFrame(ppn: bv64, user: bool, write: bool)
    requires ppn <= MAX_FRAME
    ensures FrameNumber(MakeEntry(ppn, user, write)) == ppn
  {
  }

  lemma MakeEntryFlags(ppn: bv64, user: bool, write: bool)
    ensures Present(MakeEntry(ppn, user, write)) && !Huge(MakeEntry(ppn, user, write))
    ensures Writable(MakeEntry(ppn, user, write)) == write
    ensures User(MakeEntry(ppn, user, write)) == user
  {
  }

  // Bit 0 says present, bit 1 writable and bit 2 user; the frame number starts at bit 12.
  lemma MakeEntryWord(ppn: bv64, user: bool, write: bool)
    requires ppn <= 0xF_FFFF_FFFF
    ensures MakeEntry(ppn, user, write) == ppn * 0x1000 + 1 + (if write then 2 else 0) + (if user then 4 else 0)
  {
  }

  // A cleared word is an absent entry.
  lemma ZeroDecodes()
    ensures Decode(0) == ZERO_WORD
  {
    hide Number;
    assert FrameNumber(0) == 0;
    Widen(0, 0, FRAME_BITS);
    Unroll(0, 1);
    NoBits(0);
  }

  lemma NoBits(x: bv64)
    ensures Number(x, 0) == 0
  {
  }

  // A large page starts at a multiple of its size: 2^18 or 2^9 frames.
  predicate Aligned(e: bv64, level: nat) {
    e & (if level == 2 then 0x3FFF_F000 else 0x1F_F000) == 0
  }

  // The bits a small page's index takes in the frame number.
  function Low(level: nat, i: bv64): bv64 {
    if level == 2 then i << 9 else i
  }

  // No carry of the addition reaches the large page's own bits.
  lemma NoCarry(x: bv64, y: bv64)
    requires x & y == 0
    ensures Plus(x, y) == x | y
  {
  }

  predicate Apart(x: bv64, y: bv64) { x & y == 0 }

  lemma PlusJoins(x: bv64, y: bv64, z: bv64)
    requires Apart(x, y) && z == x | y
    ensures Joins(x, y, z)
  {
  }

  lemma SumJoins(x: bv64, y: bv64)
    requires Apart(x, y)
    ensures Joins(x, y, Plus(x, y))
  {
    NoCarry(x, y);
    hide Plus;
    hide Joins;
    hide Apart;
    PlusJoins(x, y, Plus(x, y));
  }

  lemma StepApart(e: bv64, level: nat, i: bv64)
    requires i < 512 && Aligned(e, level)
    ensures Apart(Base(e), Step(level, i))
  {
  }

  lemma GiantFields(e: bv64, i: bv64, z: bv64)
    requires i < 512 && Aligned(e, 2) && Joins(Base(e), Step(2, i), z)
    ensures Joins(FrameNumber(e), Low(2, i), FrameNumber(WithFlags(z, e, 2)))
  {
  }

  lemma LargeFields(e: bv64, i: bv64, z: bv64)
    requires i < 512 && Aligned(e, 1) && Joins(Base(e), Step(1, i), z)
    ensures Joins(FrameNumber(e), Low(1, i), FrameNumber(WithFlags(z, e, 1)))
  {
  }

  lemma AddressJoins(e: bv64, level: nat, i: bv64)
    requires i < 512 && Aligned(e, level)
    ensures Joins(Base(e), Step(level, i), Plus(Base(e), Step(level, i)))
  {
    hide Aligned;
    hide Base;
    hide Step;
    hide Plus;
    hide Joins;
    hide Apart;
    StepApart(e, level, i);
    SumJoins(Base(e), Step(level, i));
  }

  lemma AddressFields(e: bv64, level: nat, i: bv64, z: bv64)
    requires 1 <= level <= 2 && i < 512 && Aligned(e, level) && Joins(Base(e), Step(level, i), z)
    ensures Joins(FrameNumber(e), Low(level, i), FrameNumber(WithFlags(z, e, level)))
  {
    hide Aligned;
    hide Base;
    hide Step;
    hide WithFlags;
    hide FrameNumber;
    hide Low;
    hide Joins;
    if level == 2 {
      GiantFields(e, i, z);
    } else {
      LargeFields(e, i, z);
    }
  }

  lemma SplitFrame(e: bv64, level: nat, i: bv64)
    requires 1 <= level <= 2 && i < 512 && Aligned(e, level)
    ensures Joins(FrameNumber(e), Low(level, i), FrameNumber(SplitBits(e, level, i)))
  {
    hide Aligned;
    hide Base;
    hide Step;
    hide Plus;
    hide WithFlags;
    hide FrameNumber;
    hide Low;
    hide Joins;
    AddressJoins(e, level, i);
    AddressFields(e, level, i, Plus(Base(e), Step(level, i)));
  }

  lemma SplitFlags(e: bv64, level: nat, i: bv64)
    requires 1 <= level <= 2 && i < 512
    ensures Present(SplitBits(e, level, i)) == Present(e) && Huge(SplitBits(e, level, i)) == (level == 2)
    ensures Writable(SplitBits(e, level, i)) == Writable(e) && User(SplitBits(e, level, i)) == User(e)
  {
  }

  lemma LowNumber(level: nat, i: bv64)
    requires i < 512
    ensures Number(Low(level, i), FRAME_BITS) == if level == 2 then Number(i, 9) * 512 else Number(i, 9)
  {
    hide Number;
    hide Fits;
    IndexFits(i);
    if level == 2 {
      ShiftNine(i, FRAME_BITS - 9);
      Widen(i, 9, FRAME_BITS - 9);
    } else {
      Widen(i, 9, FRAME_BITS);
    }
  }

  // The words split_large_entry stores are the entries of the model.
  lemma SplitDecodes(e: bv64, level: nat, i: bv64)
    requires 1 <= level <= 2 && i < 512 && Aligned(e, level)
    ensures Decode(SplitBits(e, level, i)) == SplitEntry(Decode(e), level, Number(i, 9))
  {
    hide Present;
    hide Writable;
    hide User;
    hide Huge;
    hide FrameNumber;
    hide SplitBits;
    hide Aligned;
    hide Joins;
    hide Low;
    hide Number;
    SplitFrame(e, level, i);
    SplitFlags(e, level, i);
    JoinNumbers(FrameNumber(e), Low(level, i), FrameNumber(SplitBits(e, level, i)), FRAME_BITS);
    LowNumber(level, i);
  }
}
