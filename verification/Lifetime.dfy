// The life of a private address space: init_thread, page faults, mmap and munmap in any
// order, fini_thread. At its end every frame it was given is back with the allocator.

module AddressSpaceLifetime {
  import opened Basics
  import opened Words
  import opened PageTableTree
  import opened PhysicalMemory
  import opened PageMapping
  import opened Regions
  import opened VmeLists
  import opened PageUnmapping
  import opened MemoryMapping
  import opened AddressSpaceTeardown

  // Page v is mapped to frame f.
  ghost predicate Backed(mem: map<nat, Frame>, root: nat, v: nat, f: nat) {
    var w := Walk(mem, root, 3, v);
    w.Some? && w.value.ppn == f
  }

  ghost predicate BacksPage(mem: map<nat, Frame>, root: nat, f: nat) {
    exists v: nat :: v < LOWER_LIMIT && Backed(mem, root, v, f)
  }

  // The frames in use are those of others, the page tables and the pages, and no frame is
  // two of these or two pages.
  ghost predicate Owners(mem: map<nat, Frame>, root: nat, inUse: set<nat>, tables: set<nat>, others: set<nat>) {
    others !! tables &&
    (forall v: nat, f: nat :: v < LOWER_LIMIT && Backed(mem, root, v, f) ==> f !in others && f !in tables) &&
    (forall v: nat, w: nat, f: nat ::
       v < LOWER_LIMIT && w < LOWER_LIMIT && Backed(mem, root, v, f) && Backed(mem, root, w, f) ==> v == w) &&
    (forall f: nat :: f in inUse <==> f in others || f in tables || BacksPage(mem, root, f))
  }

  ghost predicate Accounts(mem: map<nat, Frame>, inUse: set<nat>, tree: Tree, root: nat, others: set<nat>) {
    NoHuge(mem, tree, LOWER_SLOTS) && Open(mem, root, LOWER_SLOTS) && Owners(mem, root, inUse, tree.Values, others)
  }

  // Every mapped page lies in a region of the list.
  ghost predicate AllListed(rs: seq<Region>, mem: map<nat, Frame>, root: nat) {
    forall v: nat, f: nat :: v < LOWER_LIMIT && Backed(mem, root, v, f) ==> Lookup(rs, v * PAGE_SIZE) != None
  }

  // The frames the allocator may hand out are ones that free and the teardown accept: not
  // frame 0, and below the configured limit.  Without this a thread does leak: see UnfitKept.
  ghost predicate FramesFit(memmap: seq<MapEntry>) {
    forall f: nat :: Usable(memmap, f) ==> 0 < f && f * PAGE_SIZE < CONFIGURED_MAX_PA
  }

  lemma InHalf(v: nat)
    requires v < LOWER_LIMIT
    ensures v < VPN_LIMIT && Index(v, 3) < LOWER_SLOTS && Alias(v) == v
  {
  }

  lemma StartAccounts(mem: map<nat, Frame>, inUse: set<nat>, tree: Tree, root: nat, others: set<nat>)
    requires tree == map[Root := root] && root !in others && inUse == others + {root} && NoHuge(mem, tree, LOWER_SLOTS)
    requires Open(mem, root, LOWER_SLOTS)
    requires forall v: nat :: Index(v, 3) < LOWER_SLOTS ==> Walk(mem, root, 3, v) == None
    ensures Accounts(mem, inUse, tree, root, others)
    ensures AllListed([], mem, root)
  {
    assert tree.Values == {tree[Root]};
    forall v: nat, f: nat | v < LOWER_LIMIT ensures !Backed(mem, root, v, f) {
      InHalf(v);
    }
  }

  // A page fault that was served adds one page, on a frame nobody used.
  lemma FaultAccounts(mem: map<nat, Frame>, mem1: map<nat, Frame>, mem2: map<nat, Frame>,
                      inUse: set<nat>, inUse1: set<nat>, inUse2: set<nat>,
                      tree: Tree, tree': Tree, root: nat, others: set<nat>, v: nat, f: nat)
    requires TreeOk(mem, tree, root, LOWER_SLOTS) && Accounts(mem, inUse, tree, root, others)
    requires v < LOWER_LIMIT && Walk(mem, root, 3, v) == None
    requires f !in inUse && f !in tree.Values && inUse1 == inUse + {f} && SameTables(mem, mem1, tree)
    requires Grown(mem1, mem2, inUse1, inUse2, tree, tree') && NoHuge(mem2, tree', LOWER_SLOTS)
    requires Mapped(mem1, mem2, tree', root, LOWER_SLOTS, v, f, true, true) && SameRights(mem1, mem2, root, LOWER_SLOTS)
    ensures Accounts(mem2, inUse2, tree', root, others)
    ensures forall u: nat, g: nat :: u < LOWER_LIMIT ==>
      (Backed(mem2, root, u, g) <==> if u == v then g == f else Backed(mem, root, u, g))
  {
    FaultBacks(mem, mem1, mem2, tree, tree', root, v, f);
    OutsideKeepsRights(mem, mem1, tree, root, LOWER_SLOTS);
    StaysOpen(mem, mem1, root, LOWER_SLOTS);
    StaysOpen(mem1, mem2, root, LOWER_SLOTS);
    hide Open;
    hide SameRights;
    hide Backed;
    hide NoHuge;
    hide TreeOk;
    hide Mapped;
    GrownAccounts(mem1, mem2, inUse1, inUse2, tree, tree');
    hide Grown;
    FaultOwners(mem, mem2, root, v, f, inUse, inUse2, tree.Values, tree'.Values, others);
  }

  lemma FaultBacks(mem: map<nat, Frame>, mem1: map<nat, Frame>, mem2: map<nat, Frame>,
                   tree: Tree, tree': Tree, root: nat, v: nat, f: nat)
    requires TreeOk(mem, tree, root, LOWER_SLOTS) && SameTables(mem, mem1, tree)
    requires v < LOWER_LIMIT && Walk(mem, root, 3, v) == None
    requires Mapped(mem1, mem2, tree', root, LOWER_SLOTS, v, f, true, true)
    ensures forall u: nat, g: nat :: u < LOWER_LIMIT ==>
      (Backed(mem2, root, u, g) <==> if u == v then g == f else Backed(mem, root, u, g))
    ensures forall g: nat :: !Backed(mem, root, v, g)
  {
    OutsideKeepsTree(mem, mem1, tree, root, LOWER_SLOTS);
    hide TreeOk;
    forall u: nat, g: nat | u < LOWER_LIMIT
      ensures Backed(mem2, root, u, g) <==> if u == v then g == f else Backed(mem, root, u, g)
    {
      InHalf(u);
    }
  }

  lemma FaultOwners(mem: map<nat, Frame>, mem2: map<nat, Frame>, root: nat, v: nat, f: nat,
                    inUse: set<nat>, inUse2: set<nat>, tables: set<nat>, tables': set<nat>, others: set<nat>)
    requires Owners(mem, root, inUse, tables, others) && v < LOWER_LIMIT && f !in inUse
    requires forall u: nat, g: nat :: u < LOWER_LIMIT ==>
      (Backed(mem2, root, u, g) <==> if u == v then g == f else Backed(mem, root, u, g))
    requires forall g: nat :: !Backed(mem, root, v, g)
    requires tables <= tables' && inUse + {f} <= inUse2 && inUse2 - (inUse + {f}) == tables' - tables
    ensures Owners(mem2, root, inUse2, tables', others)
  {
    hide Backed;
    forall g: nat ensures BacksPage(mem2, root, g) <==> BacksPage(mem, root, g) || g == f {
      assert Backed(mem2, root, v, f);
      if BacksPage(mem2, root, g) && g != f {
        var u: nat :| u < LOWER_LIMIT && Backed(mem2, root, u, g);
        assert Backed(mem, root, u, g);
      }
      if BacksPage(mem, root, g) {
        var u: nat :| u < LOWER_LIMIT && Backed(mem, root, u, g);
        assert Backed(mem2, root, u, g);
      }
    }
    PagesInUse(mem, root, inUse, tables, others);
    hide BacksPage;
    forall g | g in tables' ensures g in tables || (g in inUse2 && g !in inUse && g != f) {
      assert g !in tables ==> g in tables' - tables;
    }
    forall g ensures g in inUse2 <==> g in inUse || g == f || g in tables' {
      assert g in inUse2 - (inUse + {f}) <==> g in tables' - tables;
    }
  }

  lemma GrownAccounts(mem: map<nat, Frame>, mem': map<nat, Frame>, inUse: set<nat>, inUse': set<nat>, tree: Tree, tree': Tree)
    requires Grown(mem, mem', inUse, inUse', tree, tree')
    ensures inUse <= inUse' && inUse' - inUse == tree'.Values - tree.Values && tree.Values <= tree'.Values
  {
    forall f | f in tree.Values ensures f in tree'.Values {
      var p :| p in tree && tree[p] == f;
      assert tree'[p] == f;
    }
  }

  lemma PagesInUse(mem: map<nat, Frame>, root: nat, inUse: set<nat>, tables: set<nat>, others: set<nat>)
    requires Owners(mem, root, inUse, tables, others)
    ensures forall v: nat, f: nat :: v < LOWER_LIMIT && Backed(mem, root, v, f) ==> f in inUse
    ensures others <= inUse && tables <= inUse
  {
    hide Backed;
    forall v: nat, f: nat | v < LOWER_LIMIT && Backed(mem, root, v, f) ensures f in inUse {
      assert BacksPage(mem, root, f);
    }
  }

  // Clearing pages takes exactly those pages away, and their frames out of use.
  lemma UnmapAccounts(mem: map<nat, Frame>, mem': map<nat, Frame>, inUse: set<nat>, inUse': set<nat>,
                      tree: Tree, root: nat, others: set<nat>, pages: set<nat>)
    requires TreeOk(mem, tree, root, LOWER_SLOTS) && Accounts(mem, inUse, tree, root, others) && 0 !in inUse
    requires Unmaps(mem, mem', inUse, inUse', tree, root, LOWER_SLOTS, pages) && forall v :: v in pages ==> v < LOWER_LIMIT
    ensures Accounts(mem', inUse', tree, root, others)
    ensures forall v: nat, f: nat :: v < LOWER_LIMIT ==> (Backed(mem', root, v, f) <==> v !in pages && Backed(mem, root, v, f))
  {
    UnmapBacks(mem, mem', inUse, inUse', tree, root, pages);
    StaysOpen(mem, mem', root, LOWER_SLOTS);
    hide Open;
    hide SameRights;
    hide TreeOk;
    hide Backed;
    forall f: nat ensures f in inUse' <==> f in inUse && !PageIn(mem, root, pages, f) {
      UnmapFrees(mem, mem', inUse, inUse', tree, root, pages, f);
    }
    hide Unmaps;
    hide NoHuge;
    UnmapOwners(mem, mem', root, inUse, inUse', tree.Values, others, pages);
  }

  // f is the frame of a page of the set.
  ghost predicate PageIn(mem: map<nat, Frame>, root: nat, pages: set<nat>, f: nat) {
    exists v: nat :: v in pages && Backed(mem, root, v, f)
  }

  lemma UnmapBacks(mem: map<nat, Frame>, mem': map<nat, Frame>, inUse: set<nat>, inUse': set<nat>,
                   tree: Tree, root: nat, pages: set<nat>)
    requires TreeOk(mem, tree, root, LOWER_SLOTS) && NoHuge(mem, tree, LOWER_SLOTS)
    requires Unmaps(mem, mem', inUse, inUse', tree, root, LOWER_SLOTS, pages)
    ensures NoHuge(mem', tree, LOWER_SLOTS)
    ensures forall v: nat, f: nat :: v < LOWER_LIMIT ==> (Backed(mem', root, v, f) <==> v !in pages && Backed(mem, root, v, f))
  {
    hide NoHuge;
    hide TreeOk;
    forall v: nat, f: nat | v < LOWER_LIMIT ensures Backed(mem', root, v, f) <==> v !in pages && Backed(mem, root, v, f) {
      InHalf(v);
      WalkIsLeaf(mem, tree, root, LOWER_SLOTS, v);
      assert WalkCleared(mem, mem', tree, root, pages, v);
    }
  }

  lemma UnmapFrees(mem: map<nat, Frame>, mem': map<nat, Frame>, inUse: set<nat>, inUse': set<nat>,
                   tree: Tree, root: nat, pages: set<nat>, f: nat)
    requires TreeOk(mem, tree, root, LOWER_SLOTS) && NoHuge(mem, tree, LOWER_SLOTS) && 0 !in inUse
    requires Unmaps(mem, mem', inUse, inUse', tree, root, LOWER_SLOTS, pages) && forall v :: v in pages ==> v < LOWER_LIMIT
    ensures f in inUse' <==> f in inUse && !PageIn(mem, root, pages, f)
  {
    hide NoHuge;
    hide TreeOk;
    forall v: nat | v in pages
      ensures Backed(mem, root, v, f) <==> LeafPresent(mem, tree, v) && LeafFrame(mem, tree, v) == f
    {
      InHalf(v);
      WalkIsLeaf(mem, tree, root, LOWER_SLOTS, v);
    }
    hide Backed;
    hide LeafPresent;
    hide LeafFrame;
    if PageIn(mem, root, pages, f) {
      var v: nat :| v in pages && Backed(mem, root, v, f);
      assert MapsTo(mem, tree, pages, f);
    }
    if MapsTo(mem, tree, pages, f) {
      var v: nat :| v in pages && LeafPresent(mem, tree, v) && LeafFrame(mem, tree, v) == f;
      assert Backed(mem, root, v, f);
    }
  }

  lemma UnmapOwners(mem: map<nat, Frame>, mem': map<nat, Frame>, root: nat, inUse: set<nat>, inUse': set<nat>,
                    tables: set<nat>, others: set<nat>, pages: set<nat>)
    requires Owners(mem, root, inUse, tables, others) && forall v :: v in pages ==> v < LOWER_LIMIT
    requires forall v: nat, f: nat :: v < LOWER_LIMIT ==> (Backed(mem', root, v, f) <==> v !in pages && Backed(mem, root, v, f))
    requires forall f: nat :: f in inUse' <==> f in inUse && !PageIn(mem, root, pages, f)
    ensures Owners(mem', root, inUse', tables, others)
  {
    hide Backed;
    forall f: nat ensures f in inUse' <==> f in others || f in tables || BacksPage(mem', root, f) {
      if BacksPage(mem, root, f) {
        var v: nat :| v < LOWER_LIMIT && Backed(mem, root, v, f);
        assert v in pages ==> PageIn(mem, root, pages, f);
        assert v !in pages ==> Backed(mem', root, v, f);
      }
      if BacksPage(mem', root, f) {
        var v: nat :| v < LOWER_LIMIT && Backed(mem', root, v, f);
        assert Backed(mem, root, v, f) && v !in pages;
      }
    }
  }

  // The direct map and the shared regions above it leave room for both.
  predicate Layout(hhdm: nat) {
    PRIVATE_BASE <= hhdm && hhdm % PAGE_SIZE == 0 && hhdm + MAX_PA <= SHARED_LIMIT
  }

  // A sorted list whose regions end at or below 2^47, and at or below lim.
  ghost predicate Low(rs: seq<Region>, hhdm: nat, lim: nat) {
    PRIVATE_BASE <= lim &&
    Sorted(rs, PRIVATE_BASE, hhdm) && Sorted(rs, PRIVATE_BASE, LOWER_HALF) && Sorted(rs, PRIVATE_BASE, lim)
  }

  // The state of a running thread's private address space.
  ghost predicate Running(pm: PhysMem, own: VmeList, tree: Tree, root: nat, hhdm: nat, lim: nat, others: set<nat>)
    reads pm, pm.frameState, own, own.nodes
  {
    Space(pm, tree, root, LOWER_SLOTS) && Accounts(pm.mem, pm.inUse, tree, root, others) && FramesFit(pm.memmap) &&
    Layout(hhdm) && own.Valid() && Low(own.regions, hhdm, lim) && AllListed(own.regions, pm.mem, root)
  }

  lemma NotFrameZero(pm: PhysMem)
    requires pm.Valid() && FramesFit(pm.memmap)
    ensures 0 !in pm.inUse
  {
  }

  // The pages of a region can be cleared.
  lemma RegionClearable(mem: map<nat, Frame>, inUse: set<nat>, tree: Tree, root: nat, others: set<nat>, first: nat, last: nat)
    requires TreeOk(mem, tree, root, LOWER_SLOTS) && Accounts(mem, inUse, tree, root, others) && last <= LOWER_LIMIT
    ensures forall v {:trigger Alias(v)} :: first <= v < last ==> Clearable(mem, tree, LOWER_SLOTS, Alias(v))
  {
    hide TreeOk;
    hide NoHuge;
    forall v {:trigger Alias(v)} | first <= v < last ensures Clearable(mem, tree, LOWER_SLOTS, Alias(v)) {
      InHalf(v);
      WalkIsLeaf(mem, tree, root, LOWER_SLOTS, v);
      assert LeafPresent(mem, tree, v) ==> Backed(mem, root, v, LeafFrame(mem, tree, v));
    }
  }

  lemma SamePages(first: nat, last: nat)
    requires last <= LOWER_LIMIT
    ensures Aliases(PagesFrom(first, last)) == PagesFrom(first, last)
  {
    forall v | v in PagesFrom(first, last) ensures Alias(v) == v && v in Aliases(PagesFrom(first, last)) {
      InHalf(v);
    }
  }

  // free_mapped_frames: every page of one region.
  method FreeMappedFrames(pm: PhysMem, ghost tree: Tree, root: nat, ghost others: set<nat>, first: nat, last: nat)
    requires Space(pm, tree, root, LOWER_SLOTS) && Accounts(pm.mem, pm.inUse, tree, root, others)
    requires FramesFit(pm.memmap) && first <= last <= LOWER_LIMIT
    modifies pm, pm.frameState
    ensures Space(pm, tree, root, LOWER_SLOTS) && Accounts(pm.mem, pm.inUse, tree, root, others)
    ensures forall v: nat, f: nat :: v < LOWER_LIMIT ==>
      (Backed(pm.mem, root, v, f) <==> !(first <= v < last) && old(Backed(pm.mem, root, v, f)))
  {
    hide PhysMem.Valid;
    hide TreeOk;
    hide Accounts;
    hide Unmaps;
    hide Backed;
    RegionClearable(pm.mem, pm.inUse, tree, root, others, first, last);
    SamePages(first, last);
    NotFrameZero(pm);
    hide FramesFit;
    hide Aliases;
    UnmapPages(pm, tree, LOWER_SLOTS, root, first, last);
    UnmapAccounts(old(pm.mem), pm.mem, old(pm.inUse), pm.inUse, tree, root, others, PagesFrom(first, last));
  }

  lemma RegionPages(r: Region, base: nat, limit: nat, v: nat)
    requires RegionOk(r, base, limit)
    ensures Contains(r, v * PAGE_SIZE) <==> r.start / PAGE_SIZE <= v < r.end / PAGE_SIZE
  {
  }

  // The region in front has no mapped page left.
  lemma OneRegionLess(rs: seq<Region>, limit: nat, mem: map<nat, Frame>, mem': map<nat, Frame>, root: nat)
    requires rs != [] && RegionOk(rs[0], PRIVATE_BASE, limit) && AllListed(rs, mem, root)
    requires forall v: nat, f: nat :: v < LOWER_LIMIT ==>
      (Backed(mem', root, v, f) <==> !(rs[0].start / PAGE_SIZE <= v < rs[0].end / PAGE_SIZE) && Backed(mem, root, v, f))
    ensures AllListed(rs[1..], mem', root)
  {
    hide Backed;
    forall v: nat, f: nat | v < LOWER_LIMIT && Backed(mem', root, v, f) ensures Lookup(rs[1..], v * PAGE_SIZE) != None {
      RegionPages(rs[0], PRIVATE_BASE, limit, v);
      assert Lookup(rs, v * PAGE_SIZE) != None;
    }
  }

  lemma NoPagesLeft(mem: map<nat, Frame>, root: nat, inUse: set<nat>, tables: set<nat>, others: set<nat>)
    requires Owners(mem, root, inUse, tables, others) && AllListed([], mem, root)
    ensures inUse == others + tables && others !! tables
  {
    hide Backed;
    forall v: nat, f: nat | v < LOWER_LIMIT ensures !Backed(mem, root, v, f) {
      assert Lookup([], v * PAGE_SIZE) == None;
    }
    assert forall f: nat :: !BacksPage(mem, root, f);
  }

  lemma TablesFreeable(pm: PhysMem, tree: Tree)
    requires pm.Valid() && FramesFit(pm.memmap) && tree.Values <= pm.inUse && Shape(tree) && Root in tree
    ensures Freeable(pm.inUse, tree, Root) && FreedTables(tree) == tree.Values - {tree[Root]}
  {
    forall q | q in tree ensures tree[q] in pm.inUse && Usable(pm.memmap, tree[q]) {
      assert tree[q] in tree.Values;
    }
    AllFreed(tree);
  }

  // fini_thread: afterwards the frames in use are those that were before the thread started.
  method FiniThread(pm: PhysMem, own: VmeList, ghost tree: Tree, root: nat, ghost hhdm: nat, ghost lim: nat, ghost others: set<nat>)
    requires Running(pm, own, tree, root, hhdm, lim, others)
    modifies pm, pm.frameState
    ensures pm.Valid() && pm.inUse == others
  {
    FreeAllPages(pm, own, tree, root, hhdm, lim, others);
    EmptySpace(pm, tree, root, others);
    hide Running;
    hide Space;
    hide Accounts;
    hide AllListed;
    hide Freeable;
    FreeTables(pm, tree, root);
  }

  // With no page left, what is in use is the tables, and the teardown frees them.
  lemma EmptySpace(pm: PhysMem, tree: Tree, root: nat, others: set<nat>)
    requires Space(pm, tree, root, LOWER_SLOTS) && Accounts(pm.mem, pm.inUse, tree, root, others)
    requires AllListed([], pm.mem, root) && FramesFit(pm.memmap)
    ensures Freeable(pm.inUse, tree, Root) && pm.inUse == others + tree.Values && others !! tree.Values
    ensures FreedTables(tree) == tree.Values - {root}
  {
    TreeShape(pm.mem, tree, root);
    hide Shape;
    hide FreedTables;
    hide TreeOk;
    hide NoHuge;
    NoPagesLeft(pm.mem, root, pm.inUse, tree.Values, others);
    hide Owners;
    TablesFreeable(pm, tree);
  }

  // free_private_page_tables, then the root.
  method FreeTables(pm: PhysMem, ghost tree: Tree, root: nat)
    requires Space(pm, tree, root, LOWER_SLOTS) && Freeable(pm.inUse, tree, Root) && FramesFit(pm.memmap)
    requires tree.Values <= pm.inUse && FreedTables(tree) == tree.Values - {root}
    modifies pm, pm.frameState
    ensures pm.Valid() && pm.inUse == old(pm.inUse) - tree.Values
  {
    assert root in tree.Values by { assert tree[Root] == root; }
    hide PhysMem.Valid;
    hide TreeOk;
    hide Freeable;
    hide FreedTables;
    hide AddressSpaceTeardown.Released;
    ghost var mem, inUse, fl := pm.mem, pm.inUse, pm.freeList;
    ghost var freed := FreePrivatePageTables(pm, tree, root);
    TablesGone(mem, pm.mem, inUse, pm.inUse, fl, pm.freeList, freed, root, tree.Values - {root});
    NotFrameZero(pm);
    pm.Free(root);
  }

  lemma TablesGone(mem: map<nat, Frame>, mem': map<nat, Frame>, inUse: set<nat>, inUse': set<nat>,
                   fl: seq<nat>, fl': seq<nat>, freed: seq<nat>, root: nat, gone: set<nat>)
    requires AddressSpaceTeardown.Released(mem, mem', inUse, inUse', fl, fl', freed, root, gone)
    ensures inUse' == inUse - gone
  {
  }

  // The loop over the regions.
  method FreeAllPages(pm: PhysMem, own: VmeList, ghost tree: Tree, root: nat, ghost hhdm: nat, ghost lim: nat, ghost others: set<nat>)
    requires Running(pm, own, tree, root, hhdm, lim, others)
    modifies pm, pm.frameState
    ensures Space(pm, tree, root, LOWER_SLOTS) && Accounts(pm.mem, pm.inUse, tree, root, others)
    ensures AllListed([], pm.mem, root)
  {
    hide Space;
    hide Accounts;
    hide AllListed;
    hide FramesFit;
    hide Backed;
    var curr := own.head;
    ghost var j := 0;
    assert own.regions[0..] == own.regions;
    while curr != null
      invariant j <= |own.nodes| == |own.regions| && curr == At(own.nodes, j)
      invariant Space(pm, tree, root, LOWER_SLOTS) && Accounts(pm.mem, pm.inUse, tree, root, others)
      invariant AllListed(own.regions[j..], pm.mem, root)
      decreases |own.nodes| - j
    {
      ghost var mem := pm.mem;
      assert VmeOk(own.nodes, own.regions, j) && RegionOk(own.regions[j], PRIVATE_BASE, LOWER_HALF);
      assert own.regions[j..][0] == own.regions[j] && own.regions[j..][1..] == own.regions[j + 1..];
      FreeMappedFrames(pm, tree, root, others, curr.start / PAGE_SIZE, curr.end / PAGE_SIZE);
      OneRegionLess(own.regions[j..], LOWER_HALF, mem, pm.mem, root);
      curr := curr.next;
      j := j + 1;
    }
    assert own.regions[j..] == [];
  }

  // How an operation ended: done; no frame left; a fault the handler panics on; a private
  // mapping that ends above 2^47.
  datatype Result = Served | OutOfFrames | Refused | PastHalf

  // A fault on a page that is mapped already, or that no region holds.
  ghost predicate BadFault(mem: map<nat, Frame>, root: nat, rs: seq<Region>, va: nat) {
    Walk(mem, root, 3, va / PAGE_SIZE).Some? || Lookup(rs, va / PAGE_SIZE * PAGE_SIZE) == None
  }

  // The loop of load_page: zeros, or the file's bytes and zeros behind them.
  method LoadPage(pm: PhysMem, frame: nat, data: Frame)
    requires pm.Valid() && pm.Owned(frame)
    modifies pm`mem
    ensures pm.Valid() && pm.mem == old(pm.mem)[frame := data]
  {
    hide PhysMem.Valid;
    var i := 0;
    while i < FRAME_WORDS
      invariant 0 <= i <= FRAME_WORDS
      invariant pm.Valid() && pm.Owned(frame)
      invariant pm.mem == old(pm.mem)[frame := pm.mem[frame]]
      invariant forall k :: 0 <= k < i ==> pm.mem[frame][k] == data[k]
    {
      pm.Store(frame, i, data[i]);
      i := i + 1;
    }
    assert pm.mem[frame] == data;
  }

  // What a page fault at page v that was served has done: the page is mapped, user and
  // writable for the processor, onto a frame with the data; no other page changed.
  ghost predicate FaultServed(mem: map<nat, Frame>, mem': map<nat, Frame>, root: nat, v: nat, data: Frame) {
    (var a := Access(mem', root, v);
     a.Some? && a.value.write && a.value.user && a.value.ppn in mem' && mem'[a.value.ppn] == data) &&
    forall u: nat :: u < LOWER_LIMIT && u != v ==> Access(mem', root, u) == Access(mem, root, u)
  }

  lemma PresentPage(mem: map<nat, Frame>, tree: Tree, root: nat, page: nat)
    requires TreeOk(mem, tree, root, LOWER_SLOTS) && NoHuge(mem, tree, LOWER_SLOTS) && page < LOWER_LIMIT
    ensures Index(page, 3) < LOWER_SLOTS && (LeafPresent(mem, tree, page) <==> Walk(mem, root, 3, page).Some?)
  {
    InHalf(page);
    WalkIsLeaf(mem, tree, root, LOWER_SLOTS, page);
  }

  // pageFaultHandler for a private address; what it panics on is refused here.
  method PageFault(pm: PhysMem, own: VmeList, ghost tree: Tree, root: nat, ghost hhdm: nat, ghost lim: nat, ghost others: set<nat>,
                   va: nat, data: Frame)
    returns (r: Result, ghost tree': Tree)
    requires Running(pm, own, tree, root, hhdm, lim, others) && va < LOWER_HALF
    modifies pm, pm.frameState
    ensures pm.Valid() && r != PastHalf
    ensures r == Refused <==> BadFault(old(pm.mem), root, own.regions, va)
    ensures r == Refused ==> pm.mem == old(pm.mem) && pm.inUse == old(pm.inUse)
    ensures r == OutOfFrames ==> pm.Exhausted()
    ensures r == Served ==> Running(pm, own, tree', root, hhdm, lim, others)
    ensures r == Served ==> FaultServed(old(pm.mem), pm.mem, root, va / PAGE_SIZE, data)
  {
    hide PhysMem.Valid;
    hide VmeList.Valid;
    hide TreeOk;
    hide Accounts;
    hide Low;
    hide Layout;
    hide FramesFit;
    hide AllListed;
    hide FaultServed;
    hide BadFault;
    tree' := tree;
    var bad := Refuses(pm, own, tree, root, hhdm, lim, others, va);
    if bad {
      return Refused, tree;
    }
    hide PhysMem.Owned;
    r, tree' := ServeFault(pm, own, tree, root, hhdm, lim, others, va / PAGE_SIZE, data);
  }

  // The two tests in front: the page is mapped, or lies in no region.
  method Refuses(pm: PhysMem, own: VmeList, ghost tree: Tree, root: nat, ghost hhdm: nat, ghost lim: nat, ghost others: set<nat>,
                 va: nat)
    returns (bad: bool)
    requires Running(pm, own, tree, root, hhdm, lim, others) && va < LOWER_HALF
    ensures bad <==> BadFault(pm.mem, root, own.regions, va)
    ensures !bad ==>
      Walk(pm.mem, root, 3, va / PAGE_SIZE) == None && Lookup(own.regions, va / PAGE_SIZE * PAGE_SIZE) != None
  {
    var page := va / PAGE_SIZE;
    PresentPage(pm.mem, tree, root, page);
    hide PhysMem.Valid;
    hide VmeList.Valid;
    hide TreeOk;
    hide NoHuge;
    hide Owners;
    hide Low;
    hide AllListed;
    hide LeafPresent;
    hide Index;
    var present, _, _ := FindPte(pm, tree, LOWER_SLOTS, root, page);
    if present {
      return true;
    }
    var vme := own.Find(page * PAGE_SIZE);
    bad := vme == null;
  }

  method ServeFault(pm: PhysMem, ghost own: VmeList, ghost tree: Tree, root: nat, ghost hhdm: nat, ghost lim: nat, ghost others: set<nat>,
                    page: nat, data: Frame)
    returns (r: Result, ghost tree': Tree)
    requires Running(pm, own, tree, root, hhdm, lim, others) && page < LOWER_LIMIT
    requires Walk(pm.mem, root, 3, page) == None && Lookup(own.regions, page * PAGE_SIZE) != None
    modifies pm, pm.frameState
    ensures pm.Valid() && r != Refused && r != PastHalf
    ensures r == OutOfFrames ==> pm.Exhausted()
    ensures r == Served ==> Running(pm, own, tree', root, hhdm, lim, others)
    ensures r == Served ==> FaultServed(old(pm.mem), pm.mem, root, page, data)
  {
    hide PhysMem.Valid;
    hide FramesFit;
    hide VmeList.Valid;
    hide Sorted;
    hide AllListed;
    hide NoHuge;
    hide Owners;
    hide TreeOk;
    tree' := tree;
    var ok, frame;
    ok, frame := NewPage(pm, tree, root, data);
    if !ok {
      return OutOfFrames, tree;
    }
    ghost var mem1, inUse1 := pm.mem, pm.inUse;
    InHalf(page);
    RootTable(pm.mem, tree, root);
    ok, tree' := Map(pm, tree, root, LOWER_SLOTS, root, 3, page, frame, true, true);
    if !ok {
      return OutOfFrames, tree';
    }
    FaultAccounts(old(pm.mem), mem1, pm.mem, old(pm.inUse), inUse1, pm.inUse, tree, tree', root, others, page, frame);
    FaultListed(old(pm.mem), pm.mem, own.regions, root, page, frame);
    FaultDone(old(pm.mem), mem1, pm.mem, inUse1, pm.inUse, tree, tree', root, page, frame, data);
    r := Served;
  }

  lemma RootTable(mem: map<nat, Frame>, tree: Tree, root: nat)
    requires TreeOk(mem, tree, root, LOWER_SLOTS)
    ensures Root in tree && tree[Root] == root
  {
  }

  // A frame for the page, loaded; the address space is as before.
  method NewPage(pm: PhysMem, ghost tree: Tree, ghost root: nat, data: Frame) returns (ok: bool, frame: nat)
    requires Space(pm, tree, root, LOWER_SLOTS)
    modifies pm, pm.frameState
    ensures Space(pm, tree, root, LOWER_SLOTS)
    ensures !ok ==> pm.Exhausted()
    ensures ok ==> frame !in old(pm.inUse) && pm.inUse == old(pm.inUse) + {frame} && frame !in tree.Values
    ensures ok ==> SameTables(old(pm.mem), pm.mem, tree) && frame in pm.mem && pm.mem[frame] == data
    ensures old(NoHuge(pm.mem, tree, LOWER_SLOTS)) ==> NoHuge(pm.mem, tree, LOWER_SLOTS)
  {
    hide PhysMem.Valid;
    hide TreeOk;
    hide NoHuge;
    ok, frame := pm.Alloc();
    if ok {
      ChildIsNew(pm.memmap, old(pm.mem), old(pm.inUse), tree, frame);
      LoadPage(pm, frame, data);
      FreedOutside(old(pm.mem), pm.mem, tree, frame);
      OutsideKeepsTree(old(pm.mem), pm.mem, tree, root, LOWER_SLOTS);
      OutsideNoHuge(old(pm.mem), pm.mem, tree, root, LOWER_SLOTS);
    }
  }

  lemma FaultListed(mem: map<nat, Frame>, mem': map<nat, Frame>, rs: seq<Region>, root: nat, v: nat, f: nat)
    requires AllListed(rs, mem, root) && Lookup(rs, v * PAGE_SIZE) != None
    requires forall u: nat, g: nat :: u < LOWER_LIMIT ==>
      (Backed(mem', root, u, g) <==> if u == v then g == f else Backed(mem, root, u, g))
    ensures AllListed(rs, mem', root)
  {
    hide Backed;
  }

  lemma FaultDone(mem: map<nat, Frame>, mem1: map<nat, Frame>, mem2: map<nat, Frame>, inUse1: set<nat>, inUse2: set<nat>,
                  tree: Tree, tree': Tree, root: nat, v: nat, f: nat, data: Frame)
    requires TreeOk(mem, tree, root, LOWER_SLOTS) && SameTables(mem, mem1, tree) && v < LOWER_LIMIT
    requires f in mem1 && mem1[f] == data && f !in tree.Values && f in inUse1
    requires Grown(mem1, mem2, inUse1, inUse2, tree, tree')
    requires Mapped(mem1, mem2, tree', root, LOWER_SLOTS, v, f, true, true) && SameRights(mem1, mem2, root, LOWER_SLOTS)
    requires Open(mem, root, LOWER_SLOTS)
    ensures FaultServed(mem, mem2, root, v, data)
  {
    OutsideKeepsTree(mem, mem1, tree, root, LOWER_SLOTS);
    OutsideKeepsRights(mem, mem1, tree, root, LOWER_SLOTS);
    SameTwice(mem, mem1, mem2, root, LOWER_SLOTS);
    hide TreeOk;
    hide Walk;
    hide Ceiling;
    InHalf(v);
    assert f !in tree'.Values by {
      assert f in tree'.Values ==> f in tree'.Values - tree.Values;
    }
    assert Ceiling(mem2, root, 3, v) == ALL by { assert Ceiling(mem2, root, 3, v) == Ceiling(mem, root, 3, v); }
    forall u: nat | u < LOWER_LIMIT && u != v ensures Access(mem2, root, u) == Access(mem, root, u) {
      InHalf(u);
      assert Ceiling(mem2, root, 3, u) == Ceiling(mem, root, 3, u);
    }
  }

  lemma ListedClearable(rs: seq<Region>, mem: map<nat, Frame>, inUse: set<nat>, tree: Tree, root: nat,
                        others: set<nat>, lo: nat, hi: nat)
    requires Sorted(rs, PRIVATE_BASE, LOWER_HALF)
    requires TreeOk(mem, tree, root, LOWER_SLOTS) && Accounts(mem, inUse, tree, root, others)
    ensures RangeClearable(rs, mem, tree, LOWER_SLOTS, lo, hi)
  {
    RegionClearable(mem, inUse, tree, root, others, 0, LOWER_LIMIT);
    hide TreeOk;
    hide Accounts;
    hide Clearable;
    forall v: nat {:trigger Alias(v)} | lo <= v * PAGE_SIZE < hi && Lookup(rs, v * PAGE_SIZE) != None
      ensures Clearable(mem, tree, LOWER_SLOTS, Alias(v))
    {
      LookupFinds(rs, v * PAGE_SIZE);
      var i :| 0 <= i < |rs| && Contains(rs[i], v * PAGE_SIZE);
      assert RegionOk(rs[i], PRIVATE_BASE, LOWER_HALF);
    }
  }

  // After munmap every page still mapped still lies in a region.
  lemma UnmapListed(rs: seq<Region>, rs': seq<Region>, hhdm: nat, lo: nat, hi: nat,
                    mem: map<nat, Frame>, mem': map<nat, Frame>, root: nat, pages: set<nat>)
    requires Sorted(rs, PRIVATE_BASE, hhdm) && lo % PAGE_SIZE == 0 && hi % PAGE_SIZE == 0
    requires Removes(rs, rs', lo, hi) && AllListed(rs, mem, root) && pages == CoveredPages(rs, |rs|, lo, hi)
    requires forall v: nat, f: nat :: v < LOWER_LIMIT ==> (Backed(mem', root, v, f) <==> v !in pages && Backed(mem, root, v, f))
    ensures AllListed(rs', mem', root)
  {
    hide Backed;
    forall v: nat, f: nat | v < LOWER_LIMIT && Backed(mem', root, v, f) ensures Lookup(rs', v * PAGE_SIZE) != None {
      CoveredMeansMapped(rs, PRIVATE_BASE, hhdm, lo, hi, v);
    }
  }

  lemma CoveredLow(rs: seq<Region>, lo: nat, hi: nat)
    requires Sorted(rs, PRIVATE_BASE, LOWER_HALF) && lo % PAGE_SIZE == 0 && hi % PAGE_SIZE == 0
    ensures Aliases(CoveredPages(rs, |rs|, lo, hi)) == CoveredPages(rs, |rs|, lo, hi)
    ensures forall v :: v in CoveredPages(rs, |rs|, lo, hi) ==> v < LOWER_LIMIT
  {
    var pages := CoveredPages(rs, |rs|, lo, hi);
    forall v | v in pages ensures v < LOWER_LIMIT && Alias(v) == v {
      CoveredMeansMapped(rs, PRIVATE_BASE, LOWER_HALF, lo, hi, v);
      LookupFinds(rs, v * PAGE_SIZE);
      var i :| 0 <= i < |rs| && Contains(rs[i], v * PAGE_SIZE);
      assert RegionOk(rs[i], PRIVATE_BASE, LOWER_HALF);
    }
    forall v | v in pages ensures v in Aliases(pages) {
      assert Alias(v) == v;
    }
  }

  lemma UnmapLow(rs: seq<Region>, rs': seq<Region>, hhdm: nat, lim: nat, lo: nat, hi: nat)
    requires Low(rs, hhdm, lim) && IsUnmapped(rs, rs', lo, hi)
    requires lo % PAGE_SIZE == 0 && hi % PAGE_SIZE == 0 && PRIVATE_BASE <= hhdm
    ensures Low(rs', hhdm, lim)
  {
    UnmappedSorted(rs, PRIVATE_BASE, hhdm, lo, hi);
    UnmappedSorted(rs, PRIVATE_BASE, LOWER_HALF, lo, hi);
    UnmappedSorted(rs, PRIVATE_BASE, lim, lo, hi);
  }

  method Unmap(pm: PhysMem, own: VmeList, ghost tree: Tree, root: nat, hhdm: nat, ghost lim: nat, ghost others: set<nat>,
               start: nat, length: nat)
    requires Running(pm, own, tree, root, hhdm, lim, others) && start < U64 && length <= U64 - PAGE_SIZE
    modifies pm, pm.frameState, own, own.nodes
    ensures forall i :: 0 <= i < |own.nodes| ==> own.nodes[i] in old(own.nodes) || fresh(own.nodes[i])
    ensures Running(pm, own, tree, root, hhdm, lim, others)
  {
    hide PhysMem.Valid;
    hide TreeOk;
    hide Accounts;
    hide AllListed;
    hide Sorted;
    hide VmeList.Valid;
    hide RangeClearable;
    hide Unmaps;
    hide Removes;
    hide IsUnmapped;
    hide CoveredPages;
    hide RoundUp;
    ghost var rs := own.regions;
    ListedClearable(rs, pm.mem, pm.inUse, tree, root, others, start, start + RoundUp(length));
    NotFrameZero(pm);
    hide FramesFit;
    var ok := Munmap(own, pm, tree, LOWER_SLOTS, root, hhdm, start, length);
    if ok {
      ghost var hi := start + RoundUp(length);
      UnmapRange(start, length);
      CoveredLow(rs, start, hi);
      ghost var pages := CoveredPages(rs, |rs|, start, hi);
      UnmapAccounts(old(pm.mem), pm.mem, old(pm.inUse), pm.inUse, tree, root, others, pages);
      UnmapLow(rs, own.regions, hhdm, lim, start, hi);
      UnmapListed(rs, own.regions, hhdm, start, hi, old(pm.mem), pm.mem, root, pages);
    }
  }

  lemma UnmapRange(start: nat, length: nat)
    requires start % PAGE_SIZE == 0
    ensures (start + RoundUp(length)) % PAGE_SIZE == 0
  {
    AlignedSum(start, RoundUp(length));
  }

  lemma MapListed(rs: seq<Region>, rs': seq<Region>, mem: map<nat, Frame>, root: nat)
    requires AllListed(rs, mem, root) && forall va: nat :: Lookup(rs, va) != None ==> Lookup(rs', va) != None
    ensures AllListed(rs', mem, root)
  {
    hide Backed;
  }

  // What a thread does between its start and its end.
  datatype Op =
    | MmapOp(length: nat, flags: nat, file: Option<nat>, offset: nat)
    | MunmapOp(start: nat, length: nat)
    | FaultOp(va: nat, data: Frame)

  predicate OpOk(op: Op) {
    match op
    case MmapOp(length, _, _, _) => length <= U64 - PAGE_SIZE
    case MunmapOp(start, length) => start < U64 && length <= U64 - PAGE_SIZE
    case FaultOp(va, _) => va < LOWER_HALF
  }

  // How much private address space an operation may take.
  function PrivateSize(op: Op): nat {
    if op.MmapOp? && op.flags % 2 == 0 then RoundUp(op.length) else 0
  }

  function TotalPrivate(ops: seq<Op>): nat {
    if ops == [] then 0 else TotalPrivate(ops[..|ops| - 1]) + PrivateSize(ops[|ops| - 1])
  }

  lemma {:induction false} TotalOfPrefix(ops: seq<Op>, k: nat)
    requires k < |ops|
    ensures TotalPrivate(ops[..k]) + PrivateSize(ops[k]) == TotalPrivate(ops[..k + 1]) <= TotalPrivate(ops)
    decreases |ops| - k
  {
    assert ops[..k + 1][..k] == ops[..k];
    if k + 1 < |ops| {
      TotalOfPrefix(ops, k + 1);
    } else {
      assert ops[..k + 1] == ops;
    }
  }

  // The list of shared regions.
  ghost predicate SharedOk(own: VmeList, all: VmeList, hhdm: nat)
    reads own, all, all.nodes
  {
    own != all && all.Valid() && (forall n :: n in own.nodes ==> n !in all.nodes) &&
    Sorted(all.regions, hhdm + MAX_PA, SHARED_LIMIT)
  }

  lemma OneMoreWithin(rs: seq<Region>, rs': seq<Region>, hhdm: nat, m: nat, r: Region)
    requires Sorted(rs, PRIVATE_BASE, m) && Sorted(rs', PRIVATE_BASE, hhdm) && OneMore(rs, rs', r) && r.end <= m
    ensures Sorted(rs', PRIVATE_BASE, m)
  {
    var k: nat :| k <= |rs| && rs' == Inserted(rs, k, r);
    forall i | 0 <= i < |rs'| ensures RegionOk(rs'[i], PRIVATE_BASE, m) {
      assert RegionOk(rs'[i], PRIVATE_BASE, hhdm) && (rs'[i] == r || rs'[i] in rs);
    }
  }

  lemma LowestBelow(rs: seq<Region>, hhdm: nat, lim: nat, size: nat, start: nat)
    requires Sorted(rs, PRIVATE_BASE, lim) && PRIVATE_BASE <= lim && Fits(rs, PRIVATE_BASE, hhdm, size, start)
    requires forall a: nat :: Fits(rs, PRIVATE_BASE, hhdm, size, a) ==> start <= a
    ensures start <= lim
  {
    if lim < start {
      assert forall i :: 0 <= i < |rs| ==> RegionOk(rs[i], PRIVATE_BASE, lim);
      assert Fits(rs, PRIVATE_BASE, hhdm, size, lim);
    }
  }

  // A private mapping takes the lowest range that fits, so the list reaches at most its own
  // size further up.
  lemma MapLow(rs: seq<Region>, rs': seq<Region>, hhdm: nat, lim: nat, size: nat, file: Option<nat>, offset: nat, start: nat)
    requires Low(rs, hhdm, lim) && Sorted(rs', PRIVATE_BASE, hhdm)
    requires Placed(rs, rs', PRIVATE_BASE, hhdm, size, file, offset, false, Some(start))
    ensures start + size <= LOWER_HALF ==> Low(rs', hhdm, lim + size)
    ensures start + size > LOWER_HALF ==> lim + size > LOWER_HALF
  {
    hide OneMore;
    hide Adds;
    LowestBelow(rs, hhdm, lim, size, start);
    hide Fits;
    var r := Region(start, start + size, file, offset, false);
    if start + size <= LOWER_HALF {
      OneMoreWithin(rs, rs', hhdm, LOWER_HALF, r);
      SortedUp(rs, lim, lim + size);
      OneMoreWithin(rs, rs', hhdm, lim + size, r);
    }
    hide Sorted;
  }

  lemma SortedUp(rs: seq<Region>, lim: nat, m: nat)
    requires Sorted(rs, PRIVATE_BASE, lim) && lim <= m
    ensures Sorted(rs, PRIVATE_BASE, m)
  {
  }

  lemma LowMore(rs: seq<Region>, hhdm: nat, lim: nat, more: nat)
    requires Low(rs, hhdm, lim)
    ensures Low(rs, hhdm, lim + more)
  {
  }

  method MapRegion(pm: PhysMem, own: VmeList, all: VmeList, ghost tree: Tree, ghost root: nat, hhdm: nat,
                   ghost lim: nat, ghost others: set<nat>, op: Op)
    returns (r: Result)
    requires op.MmapOp? && OpOk(op) && Running(pm, own, tree, root, hhdm, lim, others) && SharedOk(own, all, hhdm)
    modifies own, all, own.nodes, all.nodes
    ensures forall i :: 0 <= i < |own.nodes| ==> own.nodes[i] in old(own.nodes) || fresh(own.nodes[i])
    ensures forall i :: 0 <= i < |all.nodes| ==> all.nodes[i] in old(all.nodes) || fresh(all.nodes[i])
    ensures SharedOk(own, all, hhdm) && (r == Served || r == PastHalf)
    ensures r == Served ==> Running(pm, own, tree, root, hhdm, lim + PrivateSize(op), others)
    ensures r == PastHalf ==> lim + PrivateSize(op) > LOWER_HALF
  {
    hide PhysMem.Valid;
    hide TreeOk;
    hide Accounts;
    hide AllListed;
    hide Sorted;
    hide VmeList.Valid;
    hide FramesFit;
    hide RoundUp;
    ghost var rs := own.regions;
    var res := Mmap(own, all, hhdm, op.length, op.flags, op.file, op.offset);
    r := Served;
    LowMore(rs, hhdm, lim, PrivateSize(op));
    if op.flags % 2 == 0 && res.Some? {
      MapLow(rs, own.regions, hhdm, lim, RoundUp(op.length), op.file, op.offset, res.value);
      if res.value + RoundUp(op.length) > LOWER_HALF {
        r := PastHalf;
      }
    }
    hide Low;
    hide Fits;
    hide OneMore;
    MapListed(rs, own.regions, pm.mem, root);
  }

  method Serve(pm: PhysMem, own: VmeList, all: VmeList, ghost tree: Tree, root: nat, hhdm: nat, ghost lim: nat,
               ghost others: set<nat>, op: Op)
    returns (r: Result, ghost tree': Tree)
    requires Running(pm, own, tree, root, hhdm, lim, others) && SharedOk(own, all, hhdm) && OpOk(op)
    modifies pm, pm.frameState, own, all, own.nodes, all.nodes
    ensures forall i :: 0 <= i < |own.nodes| ==> own.nodes[i] in old(own.nodes) || fresh(own.nodes[i])
    ensures forall i :: 0 <= i < |all.nodes| ==> all.nodes[i] in old(all.nodes) || fresh(all.nodes[i])
    ensures pm.Valid() && SharedOk(own, all, hhdm)
    ensures r == Served ==> Running(pm, own, tree', root, hhdm, lim + PrivateSize(op), others)
    ensures r == OutOfFrames ==> pm.Exhausted()
    ensures r == Refused ==> op.FaultOp? && BadFault(pm.mem, root, own.regions, op.va)
    ensures r == PastHalf ==> lim + PrivateSize(op) > LOWER_HALF
  {
    hide PhysMem.Valid;
    hide TreeOk;
    hide Accounts;
    hide AllListed;
    hide Sorted;
    hide VmeList.Valid;
    hide FramesFit;
    hide FaultServed;
    hide BadFault;
    hide RoundUp;
    tree' := tree;
    r := Served;
    match op
    case MmapOp(_, _, _, _) =>
      r := MapRegion(pm, own, all, tree, root, hhdm, lim, others, op);
    case MunmapOp(start, length) =>
      Unmap(pm, own, tree, root, hhdm, lim, others, start, length);
      Untouched(all);
    case FaultOp(va, data) =>
      r, tree' := PageFault(pm, own, tree, root, hhdm, lim, others, va, data);
  }

  // init_thread and an empty list of regions.
  method StartThread(pm: PhysMem, all: VmeList, commonRoot: nat, hhdm: nat)
    returns (ok: bool, own: VmeList, root: nat, ghost tree: Tree)
    requires pm.Valid() && pm.Owned(commonRoot) && FramesFit(pm.memmap) && Layout(hhdm)
    requires forall i :: 0 <= i < FRAME_WORDS ==> pm.mem[commonRoot][i].Entry?
    requires all.Valid() && Sorted(all.regions, hhdm + MAX_PA, SHARED_LIMIT)
    modifies pm, pm.frameState
    ensures fresh(own) && own.nodes == [] && pm.Valid() && SharedOk(own, all, hhdm)
    ensures !ok ==> pm.Exhausted()
    ensures ok ==> Running(pm, own, tree, root, hhdm, PRIVATE_BASE, old(pm.inUse))
  {
    hide PhysMem.Valid;
    hide TreeOk;
    hide NoHuge;
    hide Owners;
    hide AllListed;
    hide FramesFit;
    ghost var others := pm.inUse;
    own := new VmeList();
    ok, root, tree := InitThread(pm, commonRoot);
    if ok {
      StartAccounts(pm.mem, pm.inUse, tree, root, others);
    }
  }

  lemma NothingPrivate(ops: seq<Op>)
    ensures TotalPrivate(ops[..0]) == 0
  {
  }

  // A thread's whole life, whatever it does in between: when it has ended, exactly the
  // frames are in use that were before it started. It may end early by running out of
  // frames, or with a fault on a mapped page or outside its regions; a private mapping
  // reaches past 2^47 only when the lengths asked for add up to more than the lower half.
  method Lifetime(pm: PhysMem, all: VmeList, commonRoot: nat, hhdm: nat, ops: seq<Op>)
    returns (r: Result, own: VmeList, root: nat, served: nat)
    requires pm.Valid() && pm.Owned(commonRoot) && FramesFit(pm.memmap) && Layout(hhdm)
    requires forall i :: 0 <= i < FRAME_WORDS ==> pm.mem[commonRoot][i].Entry?
    requires all.Valid() && Sorted(all.regions, hhdm + MAX_PA, SHARED_LIMIT)
    requires forall i :: 0 <= i < |ops| ==> OpOk(ops[i])
    modifies pm, pm.frameState, all, all.nodes
    ensures pm.Valid() && served <= |ops|
    ensures r == Served ==> served == |ops| && pm.inUse == old(pm.inUse)
    ensures r == OutOfFrames ==> pm.Exhausted()
    ensures r == Refused ==> served < |ops| && ops[served].FaultOp? && BadFault(pm.mem, root, own.regions, ops[served].va)
    ensures r == PastHalf ==> PRIVATE_BASE + TotalPrivate(ops) > LOWER_HALF
  {
    hide PhysMem.Valid;
    hide Running;
    hide SharedOk;
    hide BadFault;
    hide PrivateSize;
    hide TotalPrivate;
    hide OpOk;
    NothingPrivate(ops);
    ghost var others := pm.inUse;
    var ok;
    ghost var tree;
    served := 0;
    ok, own, root, tree := StartThread(pm, all, commonRoot, hhdm);
    if !ok {
      return OutOfFrames, own, root, 0;
    }
    hide Sorted;
    hide VmeList.Valid;
    r := Served;
    while served < |ops|
      invariant served <= |ops| && r == Served && pm.Valid()
      invariant fresh(own) && forall k :: 0 <= k < |own.nodes| ==> fresh(own.nodes[k])
      invariant forall k :: 0 <= k < |all.nodes| ==> all.nodes[k] in old(all.nodes) || fresh(all.nodes[k])
      invariant Running(pm, own, tree, root, hhdm, PRIVATE_BASE + TotalPrivate(ops[..served]), others)
      invariant SharedOk(own, all, hhdm)
    {
      TotalOfPrefix(ops, served);
      r, tree := Serve(pm, own, all, tree, root, hhdm, PRIVATE_BASE + TotalPrivate(ops[..served]), others, ops[served]);
      if r != Served {
        return;
      }
      served := served + 1;
    }
    FiniThread(pm, own, tree, root, hhdm, PRIVATE_BASE + TotalPrivate(ops[..served]), others);
  }
}
