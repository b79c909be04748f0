// Virtual memory entries (kernel/vmm.cc): the sorted list of mapped regions, mmap and
// munmap.

module Regions {
  import opened Basics

  // One VME; node names the backing file, if any.
  datatype Region = Region(start: nat, end: nat, node: Option<nat>, offset: nat, shared: bool)

  // Where the bytes at an address come from.
  datatype Backing = Backing(node: Option<nat>, position: nat)

  predicate Contains(r: Region, va: nat) { r.start <= va < r.end }

  // load_page: the file position wraps like the 64-bit arithmetic that computes it.
  function BackingAt(r: Region, va: nat): Backing
    requires Contains(r, va)
  {
    Backing(r.node, (r.offset + (va - r.start)) % U64)
  }

  // find_vme followed by load_page.
  function Lookup(rs: seq<Region>, va: nat): Option<Backing> {
    if rs == [] then None
    else if Contains(rs[0], va) then Some(BackingAt(rs[0], va))
    else Lookup(rs[1..], va)
  }

  ghost predicate RegionOk(r: Region, base: nat, limit: nat) {
    base <= r.start < r.end <= limit && r.start % PAGE_SIZE == 0 && r.end % PAGE_SIZE == 0
  }

  // Page-aligned, non-empty, disjoint and in address order, all within [base, limit].
  ghost predicate Sorted(rs: seq<Region>, base: nat, limit: nat) {
    (forall i :: 0 <= i < |rs| ==> RegionOk(rs[i], base, limit)) &&
    (forall i, j :: 0 <= i < j < |rs| ==> rs[i].end <= rs[j].start)
  }

  lemma {:induction false} LookupConcat(a: seq<Region>, b: seq<Region>, va: nat)
    ensures Lookup(a + b, va) == if Lookup(a, va) != None then Lookup(a, va) else Lookup(b, va)
  {
    if a == [] {
      assert a + b == b;
    } else {
      assert (a + b)[1..] == a[1..] + b;
      LookupConcat(a[1..], b, va);
    }
  }

  lemma AlignedSum(a: nat, b: nat)
    requires a % PAGE_SIZE == 0 && b % PAGE_SIZE == 0
    ensures (a + b) % PAGE_SIZE == 0
  {
  }

  lemma SortedConcat(a: seq<Region>, b: seq<Region>, base: nat, mid: nat, limit: nat)
    requires base <= mid <= limit && Sorted(a, base, mid) && Sorted(b, mid, limit)
    ensures Sorted(a + b, base, limit)
  {
  }

  lemma SortedRest(rs: seq<Region>, base: nat, limit: nat)
    requires Sorted(rs, base, limit) && rs != []
    ensures Sorted(rs[1..], rs[0].end, limit)
  {
    forall i | 0 <= i < |rs[1..]| ensures RegionOk(rs[1..][i], rs[0].end, limit) {
      assert RegionOk(rs[i + 1], base, limit);
    }
  }

  // --- munmap --------------------------------------------------------------

  // What munmap leaves of one region: the two ends of a hole, the tail, the head,
  // everything or nothing.
  function Cut(r: Region, lo: nat, hi: nat): seq<Region>
    requires r.start < r.end && lo < hi
  {
    if r.end <= lo || hi <= r.start then [r]
    else
      var from := if lo < r.start then r.start else lo;
      var to := if r.end < hi then r.end else hi;
      if r.start < from && to < r.end then
        [r.(end := from), Region(to, r.end, r.node, (r.offset + (to - r.start)) % U64, false)]
      else if r.start == from && to < r.end then
        [r.(start := to, offset := (r.offset + (to - r.start)) % U64)]
      else if r.start < from then [r.(end := from)]
      else []
  }

  ghost predicate NonEmpty(rs: seq<Region>) {
    forall i :: 0 <= i < |rs| ==> rs[i].start < rs[i].end
  }

  function Unmapped(rs: seq<Region>, lo: nat, hi: nat): seq<Region>
    requires lo < hi && forall i :: 0 <= i < |rs| ==> rs[i].start < rs[i].end
  {
    if rs == [] then [] else Cut(rs[0], lo, hi) + Unmapped(rs[1..], lo, hi)
  }

  lemma {:induction false} UnmappedAppend(rs: seq<Region>, r: Region, lo: nat, hi: nat)
    requires lo < hi && NonEmpty(rs + [r]) && NonEmpty(rs) && r.start < r.end
    ensures Unmapped(rs + [r], lo, hi) == Unmapped(rs, lo, hi) + Cut(r, lo, hi)
  {
    if rs == [] {
      assert rs + [r] == [r] && [r][1..] == [];
    } else {
      assert (rs + [r])[1..] == rs[1..] + [r];
      UnmappedAppend(rs[1..], r, lo, hi);
    }
  }

  lemma ModSum(a: nat, b: nat)
    ensures (a % U64 + b) % U64 == (a + b) % U64
  {
    var q := a / U64;
    assert a == a % U64 + q * U64;
    assert a + b == (a % U64 + b) + q * U64;
    AddMultiple(a % U64 + b, q);
  }

  lemma {:induction false} AddMultiple(x: nat, q: nat)
    ensures (x + q * U64) % U64 == x % U64
  {
    if q > 0 {
      AddMultiple(x, q - 1);
      assert x + q * U64 == (x + (q - 1) * U64) + U64;
    }
  }

  lemma CutLookup(r: Region, lo: nat, hi: nat, va: nat)
    requires r.start < r.end && lo < hi
    ensures Lookup(Cut(r, lo, hi), va) == if lo <= va < hi then None else Lookup([r], va)
  {
    var to := if r.end < hi then r.end else hi;
    if r.start < to <= va < r.end {
      ModSum(r.offset + (to - r.start), va - to);
    }
    assert forall x: Region :: Lookup([x], va) == if Contains(x, va) then Some(BackingAt(x, va)) else None;
    assert forall x: Region, y: Region :: [x, y][1..] == [y];
  }

  // munmap removes exactly the requested addresses; every other address keeps its file
  // and its position in the file.
  lemma {:induction false} UnmappedLookup(rs: seq<Region>, lo: nat, hi: nat, va: nat)
    requires lo < hi && NonEmpty(rs)
    ensures Lookup(Unmapped(rs, lo, hi), va) == if lo <= va < hi then None else Lookup(rs, va)
  {
    if rs != [] {
      UnmappedLookup(rs[1..], lo, hi, va);
      CutLookup(rs[0], lo, hi, va);
      LookupConcat(Cut(rs[0], lo, hi), Unmapped(rs[1..], lo, hi), va);
      LookupConcat([rs[0]], rs[1..], va);
      assert rs == [rs[0]] + rs[1..];
    }
  }

  lemma CutSorted(r: Region, base: nat, limit: nat, lo: nat, hi: nat)
    requires RegionOk(r, base, limit) && lo < hi && lo % PAGE_SIZE == 0 && hi % PAGE_SIZE == 0
    ensures Sorted(Cut(r, lo, hi), r.start, r.end)
  {
  }

  lemma {:induction false} UnmappedSorted(rs: seq<Region>, base: nat, limit: nat, lo: nat, hi: nat)
    requires Sorted(rs, base, limit) && base <= limit && lo < hi && lo % PAGE_SIZE == 0 && hi % PAGE_SIZE == 0
    requires NonEmpty(rs)
    ensures Sorted(Unmapped(rs, lo, hi), base, limit)
  {
    if rs != [] {
      var r := rs[0];
      assert RegionOk(r, base, limit);
      SortedRest(rs, base, limit);
      UnmappedSorted(rs[1..], r.end, limit, lo, hi);
      CutSorted(r, base, limit, lo, hi);
      Widen(Cut(r, lo, hi), r.start, base, r.end);
      SortedConcat(Cut(r, lo, hi), Unmapped(rs[1..], lo, hi), base, r.end, limit);
    }
  }

  lemma Widen(rs: seq<Region>, start: nat, base: nat, limit: nat)
    requires Sorted(rs, start, limit) && base <= start
    ensures Sorted(rs, base, limit)
  {
    forall i | 0 <= i < |rs| ensures RegionOk(rs[i], base, limit) {
      assert RegionOk(rs[i], start, limit);
    }
  }

  // --- mmap ----------------------------------------------------------------

  // A new region of this length could start at address a.
  ghost predicate Fits(rs: seq<Region>, base: nat, limit: nat, length: nat, a: nat) {
    base <= a && a + length <= limit &&
    forall i :: 0 <= i < |rs| ==> a + length <= rs[i].start || rs[i].end <= a
  }

  function Inserted(rs: seq<Region>, k: nat, r: Region): seq<Region>
    requires k <= |rs|
  {
    rs[..k] + [r] + rs[k..]
  }

  // The gap before the k-th region.
  function GapStart(rs: seq<Region>, k: nat, base: nat): nat
    requires k <= |rs|
  {
    if k == 0 then base else rs[k - 1].end
  }

  // No gap before the k-th region is long enough, so nothing below fits.
  ghost predicate Tight(rs: seq<Region>, k: nat, base: nat, length: nat)
    requires k <= |rs|
  {
    forall i {:trigger GapStart(rs, i, base)} :: 0 <= i < k ==> rs[i].start < GapStart(rs, i, base) + length
  }

  lemma {:induction false} NothingBelow(rs: seq<Region>, k: nat, base: nat, limit: nat, length: nat, a: nat)
    requires Sorted(rs, base, limit) && k <= |rs| && Tight(rs, k, base, length) && 0 < length
    requires Fits(rs, base, limit, length, a)
    ensures GapStart(rs, k, base) <= a
  {
    if k > 0 {
      NothingBelow(rs, k - 1, base, limit, length, a);
      assert RegionOk(rs[k - 1], base, limit);
    }
  }

  lemma GapFits(rs: seq<Region>, k: nat, base: nat, limit: nat, length: nat)
    requires Sorted(rs, base, limit) && k <= |rs| && 0 < length && base <= limit
    requires k < |rs| ==> GapStart(rs, k, base) + length <= rs[k].start
    requires GapStart(rs, k, base) + length <= limit
    ensures Fits(rs, base, limit, length, GapStart(rs, k, base))
  {
    if k > 0 {
      assert RegionOk(rs[k - 1], base, limit);
    }
  }

  lemma AtLeastBase(rs: seq<Region>, k: nat, base: nat, limit: nat)
    requires Sorted(rs, base, limit) && k <= |rs|
    ensures base <= GapStart(rs, k, base)
  {
    if k > 0 {
      assert RegionOk(rs[k - 1], base, limit);
    }
  }

  // No address fits when the last gap looked at runs into the limit.
  lemma NoRoom(rs: seq<Region>, k: nat, base: nat, limit: nat, length: nat)
    requires Sorted(rs, base, limit) && k <= |rs| && Tight(rs, k, base, length) && 0 < length
    requires limit < GapStart(rs, k, base) + length
    ensures forall a: nat :: !Fits(rs, base, limit, length, a)
  {
    forall a: nat ensures !Fits(rs, base, limit, length, a) {
      if Fits(rs, base, limit, length, a) {
        NothingBelow(rs, k, base, limit, length, a);
      }
    }
  }

  lemma LowestFit(rs: seq<Region>, k: nat, base: nat, limit: nat, length: nat)
    requires Sorted(rs, base, limit) && k <= |rs| && Tight(rs, k, base, length) && 0 < length && base <= limit
    requires k < |rs| ==> GapStart(rs, k, base) + length <= rs[k].start
    requires GapStart(rs, k, base) + length <= limit
    ensures Fits(rs, base, limit, length, GapStart(rs, k, base))
    ensures forall a: nat :: Fits(rs, base, limit, length, a) ==> GapStart(rs, k, base) <= a
  {
    GapFits(rs, k, base, limit, length);
    forall a: nat | Fits(rs, base, limit, length, a) ensures GapStart(rs, k, base) <= a {
      NothingBelow(rs, k, base, limit, length, a);
    }
  }

  lemma InsertSorted(rs: seq<Region>, k: nat, base: nat, limit: nat, r: Region)
    requires Sorted(rs, base, limit) && k <= |rs| && RegionOk(r, base, limit)
    requires GapStart(rs, k, base) <= r.start && (k < |rs| ==> r.end <= rs[k].start)
    ensures Sorted(Inserted(rs, k, r), base, limit)
  {
    var rs' := Inserted(rs, k, r);
    assert forall i :: 0 <= i < |rs'| ==> rs'[i] == if i < k then rs[i] else if i == k then r else rs[i - 1];
    assert forall i :: 0 <= i < k ==> rs[i].end <= GapStart(rs, k, base);
    forall j | k <= j < |rs| ensures r.end <= rs[j].start {
      assert RegionOk(rs[k], base, limit);
    }
  }

  // The new region becomes visible and no other address changes.
  lemma InsertLookup(rs: seq<Region>, k: nat, base: nat, limit: nat, r: Region, va: nat)
    requires k <= |rs| && Sorted(Inserted(rs, k, r), base, limit)
    ensures Lookup(Inserted(rs, k, r), va) == if Contains(r, va) then Some(BackingAt(r, va)) else Lookup(rs, va)
  {
    LookupConcat(rs[..k] + [r], rs[k..], va);
    LookupConcat(rs[..k], [r], va);
    LookupConcat(rs[..k], rs[k..], va);
    assert rs[..k] + rs[k..] == rs;
    var rs' := Inserted(rs, k, r);
    assert rs'[k] == r && forall i :: 0 <= i < k ==> rs'[i] == rs[i];
    if Contains(r, va) {
      NotFound(rs[..k], va);
    }
  }

  lemma {:induction false} NotFound(rs: seq<Region>, va: nat)
    requires forall i :: 0 <= i < |rs| ==> !Contains(rs[i], va)
    ensures Lookup(rs, va) == None
  {
    if rs != [] {
      NotFound(rs[1..], va);
    }
  }
}

module VmeLists {
  import opened Basics
  import opened Regions

  class Vme {
    var start: nat
    var end: nat
    var node: Option<nat>
    var offset: nat
    var shared: bool
    var next: Vme?

    constructor (start: nat, end: nat, node: Option<nat>, offset: nat, shared: bool, next: Vme?)
      ensures this.start == start && this.end == end && this.node == node
      ensures this.offset == offset && this.shared == shared && this.next == next
    {
      this.start, this.end, this.node, this.offset, this.shared, this.next := start, end, node, offset, shared, next;
    }

    ghost predicate Shows(r: Region)
      reads this
    {
      start == r.start && end == r.end && node == r.node && offset == r.offset && shared == r.shared
    }
  }

  ghost function At(nodes: seq<Vme>, k: nat): Vme? {
    if k < |nodes| then nodes[k] else null
  }

  // The k-th node shows the k-th region and points to its successor.
  ghost predicate VmeOk(nodes: seq<Vme>, regions: seq<Region>, k: nat)
    requires k < |nodes| && k < |regions|
    reads nodes
  {
    nodes[k].next == At(nodes, k + 1) && nodes[k].Shows(regions[k])
  }

  // Region r is added: its addresses get its backing, the others keep theirs.
  ghost predicate Adds(rs: seq<Region>, rs': seq<Region>, r: Region) {
    forall va: nat :: Lookup(rs', va) == if Contains(r, va) then Some(BackingAt(r, va)) else Lookup(rs, va)
  }

  // One region more, the others as before and in their order.
  ghost predicate OneMore(rs: seq<Region>, rs': seq<Region>, r: Region) {
    exists k: nat {:trigger Inserted(rs, k, r)} :: k <= |rs| && rs' == Inserted(rs, k, r)
  }

  lemma OneNodeMore(ns: seq<Vme>, k: nat, vme: Vme)
    requires k <= |ns| && vme !in ns && forall i, j :: 0 <= i < j < |ns| ==> ns[i] != ns[j]
    ensures var all := ns[..k] + [vme] + ns[k..];
      (forall i, j :: 0 <= i < j < |all| ==> all[i] != all[j]) && forall i :: 0 <= i < |all| ==> all[i] in ns || all[i] == vme
  {
    var all := ns[..k] + [vme] + ns[k..];
    forall i, j | 0 <= i < j < |all| ensures all[i] != all[j] {
      assert all[i] == if i < k then ns[i] else if i == k then vme else ns[i - 1];
      assert all[j] == if j < k then ns[j] else if j == k then vme else ns[j - 1];
    }
  }

  // A list of VMEs: the linked nodes and, for the proofs, the regions they show.
  class VmeList {
    var head: Vme?
    ghost var nodes: seq<Vme>
    ghost var regions: seq<Region>

    ghost predicate Valid()
      reads this, nodes
    {
      |nodes| == |regions| && head == At(nodes, 0) &&
      (forall i, j :: 0 <= i < j < |nodes| ==> nodes[i] != nodes[j]) &&
      (forall k {:trigger VmeOk(nodes, regions, k)} :: 0 <= k < |nodes| ==> VmeOk(nodes, regions, k))
    }

    // prev is the node before position k.
    ghost predicate PrevOk(prev: Vme?, k: nat)
      reads this
    {
      if k == 0 then prev == null else k <= |nodes| && prev == nodes[k - 1]
    }

    constructor ()
      ensures Valid() && regions == []
    {
      head, nodes, regions := null, [], [];
    }

    // find_vme: the first region holding the address.
    method Find(va: nat) returns (vme: Vme?)
      requires Valid()
      ensures vme == null <==> Lookup(regions, va) == None
      ensures vme != null ==> vme in nodes && vme.start <= va < vme.end
      ensures vme != null ==> Lookup(regions, va) == Some(Backing(vme.node, (vme.offset + (va - vme.start)) % U64))
    {
      vme := head;
      ghost var k := 0;
      while vme != null
        invariant k <= |nodes| && vme == At(nodes, k)
        invariant Lookup(regions, va) == Lookup(regions[k..], va)
        decreases |nodes| - k
      {
        assert VmeOk(nodes, regions, k) && regions[k..][0] == regions[k] && regions[k..][1..] == regions[k + 1..];
        if va >= vme.start && va < vme.end {
          return;
        }
        vme := vme.next;
        k := k + 1;
      }
    }

    // insert_vme: a new region in the first gap that is long enough.
    method Insert(base: nat, limit: nat, length: nat, node: Option<nat>, offset: nat, shared: bool)
      returns (res: Option<nat>)
      requires Valid() && Sorted(regions, base, limit) && base <= limit
      requires 0 < length && length % PAGE_SIZE == 0 && base % PAGE_SIZE == 0
      modifies this, nodes
      ensures forall i :: 0 <= i < |nodes| ==> nodes[i] in old(nodes) || fresh(nodes[i])
      ensures Valid() && Sorted(regions, base, limit)
      ensures res == None <==> forall a: nat :: !Fits(old(regions), base, limit, length, a)
      ensures res.Some? ==> Fits(old(regions), base, limit, length, res.value)
      ensures res.Some? ==> forall a: nat :: Fits(old(regions), base, limit, length, a) ==> res.value <= a
      ensures res.Some? ==> Adds(old(regions), regions, Region(res.value, res.value + length, node, offset, shared))
      ensures res.Some? ==> OneMore(old(regions), regions, Region(res.value, res.value + length, node, offset, shared))
      ensures res == None ==> regions == old(regions)
    {
      hide Adds;
      hide OneMore;
      hide Fits;
      hide Sorted;
      hide Tight;
      var prev, next, candidate, k := FindGap(base, limit, length);
      if !(candidate < limit && length <= limit - candidate) {
        NoRoom(regions, k, base, limit, length);
        return None;
      }
      LowestFit(regions, k, base, limit, length);
      AtLeastBase(regions, k, base, limit);
      hide GapStart;
      Link(prev, next, candidate, length, node, offset, shared, k, base, limit);
      res := Some(candidate);
    }

    // The loop of insert_vme: the first gap that is long enough, or the end of the list.
    method FindGap(base: nat, limit: nat, length: nat) returns (prev: Vme?, next: Vme?, candidate: nat, ghost k: nat)
      requires Valid() && Sorted(regions, base, limit) && base % PAGE_SIZE == 0
      ensures k <= |nodes| == |regions| && next == At(nodes, k) && PrevOk(prev, k)
      ensures candidate == GapStart(regions, k, base) && candidate % PAGE_SIZE == 0
      ensures Tight(regions, k, base, length) && (k < |regions| ==> candidate + length <= regions[k].start)
    {
      candidate := base;
      next := head;
      prev := null;
      k := 0;
      while next != null
        invariant k <= |nodes| && next == At(nodes, k)
        invariant PrevOk(prev, k)
        invariant candidate == GapStart(regions, k, base) && candidate % PAGE_SIZE == 0
        invariant Tight(regions, k, base, length)
        decreases |nodes| - k
      {
        assert VmeOk(nodes, regions, k) && RegionOk(regions[k], base, limit);
        if candidate <= next.start && length <= next.start - candidate {
          break;
        }
        candidate := next.end;
        prev := next;
        next := next.next;
        k := k + 1;
      }
    }

    // The end of insert_vme: a new node between prev and next.
    method Link(prev: Vme?, next: Vme?, start: nat, length: nat, node: Option<nat>, offset: nat, shared: bool,
                ghost k: nat, ghost base: nat, ghost limit: nat)
      requires Valid() && Sorted(regions, base, limit) && k <= |nodes| && next == At(nodes, k)
      requires PrevOk(prev, k)
      requires 0 < length && length % PAGE_SIZE == 0 && start % PAGE_SIZE == 0
      requires start == GapStart(regions, k, base) && start + length <= limit && base <= start
      requires k < |regions| ==> start + length <= regions[k].start
      modifies this, nodes
      ensures forall i :: 0 <= i < |nodes| ==> nodes[i] in old(nodes) || fresh(nodes[i])
      ensures Valid() && Sorted(regions, base, limit)
      ensures OneMore(old(regions), regions, Region(start, start + length, node, offset, shared))
      ensures Adds(old(regions), regions, Region(start, start + length, node, offset, shared))
    {
      hide Sorted;
      hide GapStart;
      hide Valid;
      hide Adds;
      AlignedSum(start, length);
      ghost var r, rs := Region(start, start + length, node, offset, shared), regions;
      LinkNode(prev, next, start, length, node, offset, shared, k);
      InsertSorted(rs, k, base, limit, r);
      InsertAdds(rs, k, base, limit, r);
    }

    // The new node and the pointers to it.
    method LinkNode(prev: Vme?, next: Vme?, start: nat, length: nat, node: Option<nat>, offset: nat, shared: bool, ghost k: nat)
      requires Valid() && k <= |nodes| && next == At(nodes, k) && PrevOk(prev, k)
      modifies this, nodes
      ensures forall i :: 0 <= i < |nodes| ==> nodes[i] in old(nodes) || fresh(nodes[i])
      ensures Valid() && old(k <= |regions|)
      ensures regions == Inserted(old(regions), k, Region(start, start + length, node, offset, shared))
    {
      ghost var r, rs, ns := Region(start, start + length, node, offset, shared), regions, nodes;
      var vme := new Vme(start, start + length, node, offset, shared, next);
      if prev == null {
        head := vme;
      } else {
        prev.next := vme;
      }
      nodes := ns[..k] + [vme] + ns[k..];
      regions := Inserted(rs, k, r);
      OneNodeMore(ns, k, vme);
      forall j {:trigger VmeOk(nodes, regions, j)} | 0 <= j < |nodes| ensures VmeOk(nodes, regions, j) {
        var j0 := if j < k then j else j - 1;
        assert j != k ==> nodes[j] == ns[j0] && regions[j] == rs[j0] && old(VmeOk(ns, rs, j0));
      }
    }
  
    // munmap trims the front or the tail of a VME: its links stay.
    method Trim(curr: Vme, ghost r: Region, start: nat, end: nat, offset: nat, ghost k: nat)
      requires Valid() && k < |nodes| && nodes[k] == curr && r == regions[k].(start := start, end := end, offset := offset)
      modifies curr, this`regions
      ensures Valid() && nodes == old(nodes) && regions == old(regions)[k := r]
    {
      ghost var rs, ns := regions, nodes;
      assert VmeOk(ns, rs, k);
      curr.start := start;
      curr.end := end;
      curr.offset := offset;
      regions := rs[k := r];
      forall j {:trigger VmeOk(nodes, regions, j)} | 0 <= j < |nodes| ensures VmeOk(nodes, regions, j) {
        assert old(VmeOk(ns, rs, j));
      }
    }

    // munmap punches a hole: a new VME holds what is behind it.
    method PunchHole(curr: Vme, from: nat, to: nat, ghost k: nat) returns (tail: Vme)
      requires Valid() && k < |nodes| && nodes[k] == curr
      requires regions[k].start <= from <= to < regions[k].end
      modifies this, curr
      ensures Valid() && fresh(tail)
      ensures nodes == old(nodes)[..k + 1] + [tail] + old(nodes)[k + 1..]
      ensures var r := old(regions[k]);
        var back := Region(to, r.end, r.node, (r.offset + (to - r.start)) % U64, false);
        regions == old(regions)[..k] + [r.(end := from), back] + old(regions)[k + 1..]
    {
      ghost var rs, ns := regions, nodes;
      ghost var r := rs[k];
      assert VmeOk(ns, rs, k);
      tail := new Vme(to, curr.end, curr.node, (curr.offset + (to - curr.start)) % U64, false, curr.next);
      curr.end := from;
      curr.next := tail;
      nodes := ns[..k + 1] + [tail] + ns[k + 1..];
      regions := rs[..k] + [r.(end := from), Region(to, r.end, r.node, (r.offset + (to - r.start)) % U64, false)] + rs[k + 1..];
      forall j {:trigger VmeOk(nodes, regions, j)} | 0 <= j < |nodes| ensures VmeOk(nodes, regions, j) {
        var j0 := if j <= k then j else j - 1;
        assert j != k + 1 ==> nodes[j] == ns[j0] && (j != k ==> regions[j] == rs[j0]) && old(VmeOk(ns, rs, j0));
      }
    }

    // munmap drops a VME.
    method Drop(prev: Vme?, curr: Vme, ghost k: nat)
      requires Valid() && k < |nodes| && nodes[k] == curr
      requires PrevOk(prev, k)
      modifies this, nodes
      ensures Valid() && nodes == old(nodes)[..k] + old(nodes)[k + 1..]
      ensures regions == old(regions)[..k] + old(regions)[k + 1..]
    {
      ghost var rs, ns := regions, nodes;
      assert VmeOk(ns, rs, k);
      if prev == null {
        head := curr.next;
      } else {
        prev.next := curr.next;
      }
      nodes := ns[..k] + ns[k + 1..];
      regions := rs[..k] + rs[k + 1..];
      forall j {:trigger VmeOk(nodes, regions, j)} | 0 <= j < |nodes| ensures VmeOk(nodes, regions, j) {
        var j0 := if j < k then j else j + 1;
        assert nodes[j] == ns[j0] && regions[j] == rs[j0] && old(VmeOk(ns, rs, j0));
      }
    }

    // A new last node.
    method Append(last: Vme?, start: nat, end: nat, node: Option<nat>, offset: nat, shared: bool, ghost r: Region)
      returns (vme: Vme)
      requires Valid() && PrevOk(last, |nodes|) && r == Region(start, end, node, offset, shared)
      modifies this, nodes
      ensures Valid() && fresh(vme) && nodes == old(nodes) + [vme] && regions == old(regions) + [r]
    {
      ghost var rs, ns := regions, nodes;
      vme := new Vme(start, end, node, offset, shared, null);
      if last == null {
        head := vme;
      } else {
        last.next := vme;
      }
      nodes := ns + [vme];
      regions := rs + [r];
      forall j {:trigger VmeOk(nodes, regions, j)} | 0 <= j < |nodes| ensures VmeOk(nodes, regions, j) {
        assert j < |ns| ==> nodes[j] == ns[j] && regions[j] == rs[j] && old(VmeOk(ns, rs, j));
      }
    }

    // The four ways munmap changes an overlapping VME: a hole, its front, its tail, all of it.
    method CutNode(prev: Vme?, curr: Vme, lo: nat, hi: nat, ghost k: nat)
      returns (prev': Vme?, next: Vme?, ghost k': nat)
      requires Valid() && k < |nodes| && nodes[k] == curr && lo < hi
      requires PrevOk(prev, k)
      requires regions[k].start < regions[k].end && lo < regions[k].end && regions[k].start < hi
      modifies this, nodes
      ensures Valid() && forall i :: 0 <= i < |nodes| ==> nodes[i] in old(nodes) || fresh(nodes[i])
      ensures regions == old(regions[..k]) + Cut(old(regions[k]), lo, hi) + old(regions[k + 1..])
      ensures k' == k + |Cut(old(regions[k]), lo, hi)| && next == At(nodes, k')
      ensures PrevOk(prev', k') || hi < old(regions[k]).end
    {
      ghost var rs, ns, r := regions, nodes, regions[k];
      assert VmeOk(ns, rs, k);
      var from := if curr.start > lo then curr.start else lo;
      var to := if curr.end < hi then curr.end else hi;
      if from > curr.start && to < curr.end {
        var tail := PunchHole(curr, from, to, k);
        assert VmeOk(nodes, regions, k + 1);
        prev', next, k' := curr, tail.next, k + 2;
      } else if from == curr.start && to < curr.end {
        Trim(curr, Cut(r, lo, hi)[0], to, curr.end, (curr.offset + (to - curr.start)) % U64, k);
        assert VmeOk(nodes, regions, k);
        prev', next, k' := curr, curr.next, k + 1;
      } else if from > curr.start && to == curr.end {
        Trim(curr, Cut(r, lo, hi)[0], curr.start, from, curr.offset, k);
        assert VmeOk(nodes, regions, k);
        prev', next, k' := curr, curr.next, k + 1;
      } else {
        next := curr.next;
        Drop(prev, curr, k);
        prev', k' := prev, k;
      }
    }
  }

  // clone_vme_list: fresh nodes that show the same regions.
  method Clone(list: VmeList) returns (copy: VmeList)
    requires list.Valid()
    ensures copy.Valid() && copy.regions == list.regions && fresh(copy)
    ensures forall i :: 0 <= i < |copy.nodes| ==> fresh(copy.nodes[i])
  {
    copy := new VmeList();
    var tail: Vme? := null;
    var curr := list.head;
    ghost var k := 0;
    while curr != null
      invariant list.Valid() && copy.Valid() && fresh(copy)
      invariant forall i :: 0 <= i < |copy.nodes| ==> fresh(copy.nodes[i])
      invariant k <= |list.nodes| && curr == At(list.nodes, k)
      invariant copy.regions == list.regions[..k] && |copy.nodes| == k && copy.PrevOk(tail, k)
      decreases |list.nodes| - k
    {
      assert VmeOk(list.nodes, list.regions, k) && |copy.regions| == k;
      tail := copy.Append(tail, curr.start, curr.end, curr.node, curr.offset, curr.shared, list.regions[k]);
      curr := curr.next;
      k := k + 1;
    }
  }

  lemma InsertAdds(rs: seq<Region>, k: nat, base: nat, limit: nat, r: Region)
    requires k <= |rs| && Sorted(Inserted(rs, k, r), base, limit)
    ensures Adds(rs, Inserted(rs, k, r), r)
  {
    forall va: nat ensures Lookup(Inserted(rs, k, r), va) == if Contains(r, va) then Some(BackingAt(r, va)) else Lookup(rs, va) {
      InsertLookup(rs, k, base, limit, r, va);
    }
  }
}

// The page loop of munmap, over the page tables.
module PageUnmapping {
  import opened Basics
  import opened Words
  import opened PhysicalMemory
  import opened PageTableTree
  import opened PageMapping

  // The frame a present leaf entry names.
  ghost function LeafFrame(mem: map<nat, Frame>, tree: Tree, vpn: nat): nat
    requires LeafPresent(mem, tree, vpn)
  {
    mem[tree[Node(vpn, 0)]][Index(vpn, 0)].ppn
  }

  // A page of the address space that is not backed by a page-table frame.
  ghost predicate Clearable(mem: map<nat, Frame>, tree: Tree, top: nat, v: nat) {
    v < VPN_LIMIT && Index(v, 3) < top && (LeafPresent(mem, tree, v) ==> LeafFrame(mem, tree, v) !in tree.Values)
  }

  ghost predicate SameLeaf(mem: map<nat, Frame>, mem': map<nat, Frame>, tree: Tree, v: nat) {
    LeafPresent(mem', tree, v) == LeafPresent(mem, tree, v) &&
    (LeafPresent(mem, tree, v) ==> LeafFrame(mem', tree, v) == LeafFrame(mem, tree, v))
  }

  ghost predicate LeafCleared(mem: map<nat, Frame>, mem': map<nat, Frame>, tree: Tree, pages: set<nat>, v: nat) {
    if v in pages then !LeafPresent(mem', tree, v) else SameLeaf(mem, mem', tree, v)
  }

  ghost predicate WalkCleared(mem: map<nat, Frame>, mem': map<nat, Frame>, tree: Tree, root: nat, pages: set<nat>, v: nat) {
    Walk(mem', root, 3, v) == if v in pages && LeafPresent(mem, tree, v) then None else Walk(mem, root, 3, v)
  }

  // A page of the set is mapped to the frame.
  ghost predicate MapsTo(mem: map<nat, Frame>, tree: Tree, pages: set<nat>, f: nat) {
    exists v: nat :: v in pages && LeafPresent(mem, tree, v) && LeafFrame(mem, tree, v) == f
  }

  // Exactly the frames of the leaves of the pages go back to the allocator.
  ghost predicate FramesFreed(mem: map<nat, Frame>, inUse: set<nat>, inUse': set<nat>, tree: Tree, pages: set<nat>) {
    forall f: nat :: f in inUse' <==> f in inUse && (f == 0 || !MapsTo(mem, tree, pages, f))
  }

  // The pages lose their leaf entries, every other page keeps its entry and its
  // translation, and the frames of the cleared entries are free.
  ghost predicate Unmaps(mem: map<nat, Frame>, mem': map<nat, Frame>, inUse: set<nat>, inUse': set<nat>,
                         tree: Tree, root: nat, top: nat, pages: set<nat>) {
    (forall v: nat :: v < VPN_LIMIT ==> LeafCleared(mem, mem', tree, pages, v)) &&
    (forall v: nat :: v < VPN_LIMIT && Index(v, 3) < top ==> WalkCleared(mem, mem', tree, root, pages, v)) &&
    FramesFreed(mem, inUse, inUse', tree, pages) && SameRights(mem, mem', root, top) &&
    (NoHuge(mem, tree, top) ==> NoHuge(mem', tree, top))
  }

  // Clearing one leaf word leaves every other leaf word alone.
  lemma OtherLeaves(mem: map<nat, Frame>, mem': map<nat, Frame>, tree: Tree, root: nat, top: nat, vpn: nat, v: nat)
    requires TreeOk(mem, tree, root, top) && Node(vpn, 0) in tree && v != vpn && v < VPN_LIMIT && vpn < VPN_LIMIT
    requires SlotChanged(mem, mem', tree, Node(vpn, 0), Index(vpn, 0), ZERO_WORD)
    ensures SameLeaf(mem, mem', tree, v)
  {
    if Node(v, 0) == Node(vpn, 0) && Index(v, 0) == Index(vpn, 0) {
      SameNode(v, vpn, 0);
      IndicesDetermine(v, vpn);
    }
    if Node(v, 0) in tree {
      assert NodeOk(mem, tree, top, Node(v, 0));
    }
  }

  lemma UnmapsNothing(mem: map<nat, Frame>, inUse: set<nat>, tree: Tree, root: nat, top: nat)
    ensures Unmaps(mem, mem, inUse, inUse, tree, root, top, {})
  {
  }

  lemma PresentNode(mem: map<nat, Frame>, tree: Tree, v: nat)
    requires LeafPresent(mem, tree, v)
    ensures Node(v, 0) in tree
  {
  }

  lemma UnmapsOne(mem: map<nat, Frame>, mem': map<nat, Frame>, inUse: set<nat>, inUse': set<nat>,
                  tree: Tree, root: nat, top: nat, page: nat)
    requires TreeOk(mem, tree, root, top) && page < VPN_LIMIT && Index(page, 3) < top && !LeafPresent(mem', tree, page)
    requires LeafPresent(mem, tree, page) ==>
      inUse' == inUse - (if LeafFrame(mem, tree, page) == 0 then {} else {LeafFrame(mem, tree, page)}) &&
      SlotChanged(mem, mem', tree, Node(page, 0), Index(page, 0), ZERO_WORD) &&
      forall v: nat :: v < VPN_LIMIT && Index(v, 3) < top ==>
        Walk(mem', root, 3, v) == if v == page then None else Walk(mem, root, 3, v)
    requires !LeafPresent(mem, tree, page) ==> mem' == mem && inUse' == inUse
    requires NoHuge(mem, tree, top) ==> NoHuge(mem', tree, top)
    requires SameRights(mem, mem', root, top)
    ensures Unmaps(mem, mem', inUse, inUse', tree, root, top, {page})
  {
    hide SameRights;
    hide TreeOk;
    hide SlotChanged;
    hide NoHuge;
    hide Walk;
    hide LeafPresent;
    hide LeafFrame;
    forall v: nat | v < VPN_LIMIT ensures LeafCleared(mem, mem', tree, {page}, v) {
      if v != page && LeafPresent(mem, tree, page) {
        PresentNode(mem, tree, page);
        OtherLeaves(mem, mem', tree, root, top, page, v);
      }
    }
    forall f: nat ensures MapsTo(mem, tree, {page}, f) <==> LeafPresent(mem, tree, page) && LeafFrame(mem, tree, page) == f {
      assert page in {page};
    }
  }

  lemma UnmapsBoth(mem: map<nat, Frame>, mem1: map<nat, Frame>, mem2: map<nat, Frame>,
                   inUse: set<nat>, inUse1: set<nat>, inUse2: set<nat>,
                   tree: Tree, root: nat, top: nat, p: set<nat>, q: set<nat>)
    requires Unmaps(mem, mem1, inUse, inUse1, tree, root, top, p)
    requires Unmaps(mem1, mem2, inUse1, inUse2, tree, root, top, q)
    requires forall v :: v in p ==> v < VPN_LIMIT
    requires forall v :: v in q ==> v < VPN_LIMIT
    ensures Unmaps(mem, mem2, inUse, inUse2, tree, root, top, p + q)
  {
    hide LeafPresent;
    hide LeafFrame;
    hide NoHuge;
    hide SameRights;
    SameTwice(mem, mem1, mem2, root, top);
    forall v: nat | v < VPN_LIMIT ensures LeafCleared(mem, mem2, tree, p + q, v) {
      assert LeafCleared(mem, mem1, tree, p, v) && LeafCleared(mem1, mem2, tree, q, v);
    }
    forall v: nat | v < VPN_LIMIT && Index(v, 3) < top ensures WalkCleared(mem, mem2, tree, root, p + q, v) {
      assert WalkCleared(mem, mem1, tree, root, p, v) && WalkCleared(mem1, mem2, tree, root, q, v);
      assert LeafCleared(mem, mem1, tree, p, v);
    }
    forall f: nat ensures f in inUse2 <==> f in inUse && (f == 0 || !MapsTo(mem, tree, p + q, f)) {
      MapsToBoth(mem, mem1, tree, p, q, f);
    }
  }

  lemma MapsToBoth(mem: map<nat, Frame>, mem1: map<nat, Frame>, tree: Tree, p: set<nat>, q: set<nat>, f: nat)
    requires forall v: nat :: v < VPN_LIMIT ==> LeafCleared(mem, mem1, tree, p, v)
    requires forall v :: v in p ==> v < VPN_LIMIT
    requires forall v :: v in q ==> v < VPN_LIMIT
    ensures MapsTo(mem, tree, p + q, f) <==> MapsTo(mem, tree, p, f) || MapsTo(mem1, tree, q, f)
  {
    hide LeafPresent;
    if MapsTo(mem, tree, p + q, f) {
      var v: nat :| v in p + q && LeafPresent(mem, tree, v) && LeafFrame(mem, tree, v) == f;
      assert LeafCleared(mem, mem1, tree, p, v);
    }
    if MapsTo(mem1, tree, q, f) {
      var v: nat :| v in q && LeafPresent(mem1, tree, v) && LeafFrame(mem1, tree, v) == f;
      assert LeafCleared(mem, mem1, tree, p, v) && v in p + q;
    }
    if MapsTo(mem, tree, p, f) {
      var v: nat :| v in p && LeafPresent(mem, tree, v) && LeafFrame(mem, tree, v) == f;
      assert v in p + q;
    }
  }

  ghost function PagesFrom(first: nat, last: nat): (r: set<nat>)
    ensures forall v :: v in r <==> first <= v < last
  {
    if first < last then PagesFrom(first, last - 1) + {last - 1} else {}
  }

  // The pages find_pte finds for page numbers: it drops the address bits from 48 up.
  ghost function Aliases(pages: set<nat>): (r: set<nat>)
    ensures forall a :: a in r ==> a < VPN_LIMIT
  {
    set v | v in pages :: Alias(v)
  }

  lemma AliasesUnion(p: set<nat>, q: set<nat>)
    ensures Aliases(p + q) == Aliases(p) + Aliases(q)
  {
    assert forall v :: v in p + q <==> v in p || v in q;
  }

  // Every page number of [first, last) loses the leaf entry it leads to, and gives its
  // frame back.
  method UnmapPages(pm: PhysMem, ghost tree: Tree, ghost top: nat, root: nat, first: nat, last: nat)
    requires Space(pm, tree, root, top) && first <= last
    requires forall v {:trigger Alias(v)} :: first <= v < last ==> Clearable(pm.mem, tree, top, Alias(v))
    modifies pm, pm.frameState
    ensures Space(pm, tree, root, top)
    ensures Unmaps(old(pm.mem), pm.mem, old(pm.inUse), pm.inUse, tree, root, top, Aliases(PagesFrom(first, last)))
  {
    hide Space;
    hide Unmaps;
    hide Clearable;
    hide Alias;
    var page := first;
    ghost var done: set<nat> := {};
    UnmapsNothing(pm.mem, pm.inUse, tree, root, top);
    assert Aliases({}) == {};
    while page < last
      invariant first <= page <= last && done == PagesFrom(first, page)
      invariant Space(pm, tree, root, top)
      invariant Unmaps(old(pm.mem), pm.mem, old(pm.inUse), pm.inUse, tree, root, top, Aliases(done))
    {
      StillClearable(old(pm.mem), pm.mem, old(pm.inUse), pm.inUse, tree, root, top, Aliases(done), Alias(page));
      ghost var mem1, inUse1 := pm.mem, pm.inUse;
      UnmapPage(pm, tree, top, root, page);
      UnmapsBoth(old(pm.mem), mem1, pm.mem, old(pm.inUse), inUse1, pm.inUse, tree, root, top, Aliases(done), {Alias(page)});
      AliasesUnion(done, {page});
      assert Aliases({page}) == {Alias(page)};
      done := done + {page};
      page := page + 1;
    }
  }

  method UnmapPage(pm: PhysMem, ghost tree: Tree, ghost top: nat, root: nat, page: nat)
    requires Space(pm, tree, root, top) && Clearable(pm.mem, tree, top, Alias(page))
    modifies pm, pm.frameState
    ensures Space(pm, tree, root, top)
    ensures Unmaps(old(pm.mem), pm.mem, old(pm.inUse), pm.inUse, tree, root, top, {Alias(page)})
  {
    hide PhysMem.Valid;
    hide TreeOk;
    hide Unmaps;
    hide Alias;
    hide NoHuge;
    AliasNode(page, 0);
    AliasNode(page, 3);
    ClearPage(pm, tree, top, root, page);
    UnmapsOne(old(pm.mem), pm.mem, old(pm.inUse), pm.inUse, tree, root, top, Alias(page));
  }

  lemma StillClearable(mem: map<nat, Frame>, mem': map<nat, Frame>, inUse: set<nat>, inUse': set<nat>,
                       tree: Tree, root: nat, top: nat, done: set<nat>, page: nat)
    requires Unmaps(mem, mem', inUse, inUse', tree, root, top, done)
    requires Clearable(mem, tree, top, page)
    ensures Clearable(mem', tree, top, page)
  {
    assert LeafCleared(mem, mem', tree, done, page);
  }
}

module MemoryMapping {
  import opened Basics
  import opened Words
  import opened Regions
  import opened VmeLists
  import opened PhysicalMemory
  import opened PageTableTree
  import opened PageMapping
  import opened PageUnmapping

  const PRIVATE_BASE := 4096
  const MAX_PA := 0x800_0000
  const SHARED_LIMIT := 0xffff_ffff_8000_0000

  function RoundUp(length: nat): nat { (length + (PAGE_SIZE - 1)) / PAGE_SIZE * PAGE_SIZE }

  twostate lemma Untouched(list: VmeList)
    requires old(list.Valid()) && unchanged(list) && forall n :: n in list.nodes ==> unchanged(n)
    ensures list.Valid()
  {
    forall k {:trigger VmeOk(list.nodes, list.regions, k)} | 0 <= k < |list.nodes|
      ensures VmeOk(list.nodes, list.regions, k)
    {
      assert list.nodes[k] in list.nodes && old(VmeOk(list.nodes, list.regions, k));
    }
  }

  lemma RoundUpAligned(length: nat)
    requires 0 < length
    ensures RoundUp(length) % PAGE_SIZE == 0 && length <= RoundUp(length) < length + PAGE_SIZE
  {
  }

  lemma EndOfRange(start: nat, size: nat)
    requires start < U64 && size < U64
    ensures var end := (start + size) % U64;
      end == (if start + size < U64 then start + size else start + size - U64)
  {
  }

  // mmap: the lowest free range of the private or of the shared list, or -1.
  method Mmap(own: VmeList, all: VmeList, hhdm: nat, length: nat, flags: nat, file: Option<nat>, offset: nat)
    returns (res: Option<nat>)
    requires own.Valid() && all.Valid() && own != all && (forall n :: n in own.nodes ==> n !in all.nodes)
    requires PRIVATE_BASE <= hhdm && hhdm % PAGE_SIZE == 0 && hhdm + MAX_PA <= SHARED_LIMIT
    requires Sorted(own.regions, PRIVATE_BASE, hhdm) && Sorted(all.regions, hhdm + MAX_PA, SHARED_LIMIT)
    requires length <= U64 - PAGE_SIZE
    modifies own, all, own.nodes, all.nodes
    ensures forall i :: 0 <= i < |own.nodes| ==> own.nodes[i] in old(own.nodes) || fresh(own.nodes[i])
    ensures forall i :: 0 <= i < |all.nodes| ==> all.nodes[i] in old(all.nodes) || fresh(all.nodes[i])
    ensures own.Valid() && all.Valid() && forall n :: n in own.nodes ==> n !in all.nodes
    ensures Sorted(own.regions, PRIVATE_BASE, hhdm) && Sorted(all.regions, hhdm + MAX_PA, SHARED_LIMIT)
    ensures length != 0 && offset % 4096 == 0 && (flags / 2 % 2 == 1 <==> file == None) ==>
      if flags % 2 == 1 then
        own.regions == old(own.regions) &&
        Placed(old(all.regions), all.regions, hhdm + MAX_PA, SHARED_LIMIT, RoundUp(length), file, offset, true, res)
      else
        all.regions == old(all.regions) &&
        Placed(old(own.regions), own.regions, PRIVATE_BASE, hhdm, RoundUp(length), file, offset, false, res)
    ensures length == 0 || offset % 4096 != 0 || (flags / 2 % 2 == 1 <==> file != None) ==>
      res == None && own.regions == old(own.regions) && all.regions == old(all.regions)
  {
    if length == 0 {
      return None;
    }
    if offset % PAGE_SIZE != 0 {
      return None;
    }
    var size := RoundUp(length);
    var anonymous := flags / 2 % 2 == 1;
    var shared := flags % 2 == 1;
    if anonymous != (file == None) {
      return None;
    }
    if shared {
      res := all.Insert(hhdm + MAX_PA, SHARED_LIMIT, size, file, offset, true);
      Untouched(own);
    } else {
      res := own.Insert(PRIVATE_BASE, hhdm, size, file, offset, false);
      Untouched(all);
    }
  }

  // The lowest range that fits is added, or nothing fits and nothing changes.
  ghost predicate Placed(rs: seq<Region>, rs': seq<Region>, base: nat, limit: nat, size: nat,
                         file: Option<nat>, offset: nat, shared: bool, res: Option<nat>) {
    match res
    case None => rs' == rs && forall a: nat :: !Fits(rs, base, limit, size, a)
    case Some(start) =>
      Fits(rs, base, limit, size, start) &&
      (forall a: nat :: Fits(rs, base, limit, size, a) ==> start <= a) &&
      Adds(rs, rs', Region(start, start + size, file, offset, shared)) &&
      OneMore(rs, rs', Region(start, start + size, file, offset, shared))
  }

  // The pages of one region that lie in [lo, hi).
  ghost function Overlap(r: Region, lo: nat, hi: nat): set<nat> {
    if r.end <= lo || hi <= r.start then {}
    else
      var from := if lo < r.start then r.start else lo;
      var to := if r.end < hi then r.end else hi;
      PagesFrom(from / PAGE_SIZE, to / PAGE_SIZE)
  }

  ghost function CoveredPages(rs: seq<Region>, j: nat, lo: nat, hi: nat): set<nat>
    requires j <= |rs|
  {
    if j == 0 then {} else CoveredPages(rs, j - 1, lo, hi) + Overlap(rs[j - 1], lo, hi)
  }

  lemma InOverlap(r: Region, base: nat, limit: nat, lo: nat, hi: nat, v: nat)
    requires RegionOk(r, base, limit) && lo % PAGE_SIZE == 0 && hi % PAGE_SIZE == 0
    ensures v in Overlap(r, lo, hi) <==> lo <= v * PAGE_SIZE < hi && Contains(r, v * PAGE_SIZE)
  {
  }

  lemma {:induction false} InCovered(rs: seq<Region>, base: nat, limit: nat, j: nat, lo: nat, hi: nat, v: nat)
    requires Sorted(rs, base, limit) && j <= |rs| && lo % PAGE_SIZE == 0 && hi % PAGE_SIZE == 0
    ensures v in CoveredPages(rs, j, lo, hi) <==> lo <= v * PAGE_SIZE < hi && exists i :: 0 <= i < j && Contains(rs[i], v * PAGE_SIZE)
  {
    if j > 0 {
      InCovered(rs, base, limit, j - 1, lo, hi, v);
      assert RegionOk(rs[j - 1], base, limit);
      InOverlap(rs[j - 1], base, limit, lo, hi, v);
    }
  }

  // The pages munmap clears are the mapped pages of the range.
  lemma CoveredMeansMapped(rs: seq<Region>, base: nat, limit: nat, lo: nat, hi: nat, v: nat)
    requires Sorted(rs, base, limit) && lo % PAGE_SIZE == 0 && hi % PAGE_SIZE == 0
    ensures v in CoveredPages(rs, |rs|, lo, hi) <==> lo <= v * PAGE_SIZE < hi && Lookup(rs, v * PAGE_SIZE) != None
  {
    InCovered(rs, base, limit, |rs|, lo, hi, v);
    LookupFinds(rs, v * PAGE_SIZE);
  }

  lemma {:induction false} LookupFinds(rs: seq<Region>, va: nat)
    ensures Lookup(rs, va) != None <==> exists i :: 0 <= i < |rs| && Contains(rs[i], va)
  {
    if rs != [] {
      LookupFinds(rs[1..], va);
      assert forall i :: 0 < i < |rs| ==> rs[1..][i - 1] == rs[i];
      assert (exists i :: 0 <= i < |rs[1..]| && Contains(rs[1..][i], va)) <==> exists i :: 1 <= i < |rs| && Contains(rs[i], va);
    }
  }

  // Every page that munmap of [lo, hi) reaches can be cleared: the tree describes it, and
  // it is not backed by a page-table frame.
  ghost predicate RangeClearable(rs: seq<Region>, mem: map<nat, Frame>, tree: Tree, top: nat, lo: nat, hi: nat) {
    forall v: nat {:trigger Alias(v)} :: lo <= v * PAGE_SIZE < hi && Lookup(rs, v * PAGE_SIZE) != None ==>
      Clearable(mem, tree, top, Alias(v))
  }

  // munmap: false stands for -1.
  method Munmap(list: VmeList, pm: PhysMem, ghost tree: Tree, ghost top: nat, root: nat, hhdm: nat, start: nat, length: nat)
    returns (ok: bool)
    requires list.Valid() && Sorted(list.regions, PRIVATE_BASE, hhdm)
    requires Space(pm, tree, root, top) && RangeClearable(list.regions, pm.mem, tree, top, start, start + RoundUp(length))
    requires PRIVATE_BASE <= hhdm && hhdm % PAGE_SIZE == 0 && hhdm + MAX_PA < U64
    requires start < U64 && length <= U64 - PAGE_SIZE
    modifies list, list.nodes, pm, pm.frameState
    ensures forall i :: 0 <= i < |list.nodes| ==> list.nodes[i] in old(list.nodes) || fresh(list.nodes[i])
    ensures list.Valid() && Sorted(list.regions, PRIVATE_BASE, hhdm) && Space(pm, tree, root, top)
    ensures ok <==> start % 4096 == 0 && length != 0 && 4096 <= start && start + RoundUp(length) <= hhdm
    ensures !ok ==> list.regions == old(list.regions) && pm.mem == old(pm.mem) && pm.inUse == old(pm.inUse)
    ensures ok ==> Removes(old(list.regions), list.regions, start, start + RoundUp(length))
    ensures ok ==> IsUnmapped(old(list.regions), list.regions, start, start + RoundUp(length))
    ensures ok ==> Unmaps(old(pm.mem), pm.mem, old(pm.inUse), pm.inUse, tree, root, top,
                          Aliases(CoveredPages(old(list.regions), |old(list.regions)|, start, start + RoundUp(length))))
  {
    hide Space;
    hide Unmaps;
    hide RangeClearable;
    hide CoveredPages;
    hide VmeList.Valid;
    if start % PAGE_SIZE != 0 {
      return false;
    }
    if length == 0 {
      return false;
    }
    var size := RoundUp(length);
    RoundUpAligned(length);
    hide RoundUp;
    EndOfRange(start, size);
    AlignedSum(start, size);
    var end := (start + size) % U64;
    if end < start {
      return false;
    }
    if start < PRIVATE_BASE || end > hhdm {
      return false;
    }
    if start >= hhdm + MAX_PA || end > hhdm + MAX_PA {
      return false;
    }
    ghost var rs := list.regions;
    RemoveRange(list, pm, tree, top, root, hhdm, start, end);
    UnmappedSorted(rs, PRIVATE_BASE, hhdm, start, end);
    UnmappedRemoves(rs, start, end);
    hide Unmapped;
    hide Removes;
    hide Sorted;
    ok := true;
  }

  // The list after munmap, region by region.
  ghost predicate IsUnmapped(rs: seq<Region>, rs': seq<Region>, lo: nat, hi: nat) {
    lo < hi && NonEmpty(rs) && rs' == Unmapped(rs, lo, hi)
  }

  // Exactly the addresses of [lo, hi) lose their region.
  ghost predicate Removes(rs: seq<Region>, rs': seq<Region>, lo: nat, hi: nat) {
    forall va: nat :: Lookup(rs', va) == if lo <= va < hi then None else Lookup(rs, va)
  }

  lemma UnmappedRemoves(rs: seq<Region>, lo: nat, hi: nat)
    requires lo < hi && NonEmpty(rs)
    ensures Removes(rs, Unmapped(rs, lo, hi), lo, hi)
  {
    forall va: nat ensures Lookup(Unmapped(rs, lo, hi), va) == if lo <= va < hi then None else Lookup(rs, va) {
      UnmappedLookup(rs, lo, hi, va);
    }
  }

  // munmap has handled the first j of the original regions.
  ghost predicate Reached(list: VmeList, rs: seq<Region>, lo: nat, hi: nat, j: nat, prev: Vme?, curr: Vme?)
    requires lo < hi && NonEmpty(rs)
    reads list, list.nodes
  {
    list.Valid() && j <= |rs| &&
    var done := Unmapped(rs[..j], lo, hi);
    list.regions == done + rs[j..] && curr == At(list.nodes, |done|) &&
    (list.PrevOk(prev, |done|) || (j < |rs| ==> hi < rs[j].start))
  }

  lemma UnmappedStep(rs: seq<Region>, lo: nat, hi: nat, j: nat)
    requires lo < hi && NonEmpty(rs) && j < |rs|
    ensures Unmapped(rs[..j + 1], lo, hi) == Unmapped(rs[..j], lo, hi) + Cut(rs[j], lo, hi)
  {
    assert rs[..j] + [rs[j]] == rs[..j + 1];
    UnmappedAppend(rs[..j], rs[j], lo, hi);
  }

  // One turn of the loop: the next region is passed by or cut.
  method PassOrCut(list: VmeList, prev: Vme?, curr: Vme, lo: nat, hi: nat, ghost rs: seq<Region>, ghost base: nat, ghost limit: nat, ghost j: nat)
    returns (prev': Vme?, next: Vme?)
    requires lo < hi && NonEmpty(rs) && Sorted(rs, base, limit) && Reached(list, rs, lo, hi, j, prev, curr)
    modifies list, list.nodes
    ensures j < |rs| && Reached(list, rs, lo, hi, j + 1, prev', next)
    ensures forall i :: 0 <= i < |list.nodes| ==> list.nodes[i] in old(list.nodes) || fresh(list.nodes[i])
  {
    hide Sorted;
    hide NonEmpty;
    hide Reached;
    hide VmeList.Valid;
    hide Unmapped;
    hide Cut;
    ghost var done, cut := BeforeTurn(list, rs, base, limit, lo, hi, j, prev, curr);
    ghost var k := |done|;
    ghost var k';
    if curr.end <= lo || curr.start >= hi {
      Passed(rs[j], lo, hi);
      prev', next, k' := curr, curr.next, k + 1;
    } else {
      prev', next, k' := list.CutNode(prev, curr, lo, hi, k);
    }
    ReachedNow(list, rs, lo, hi, j + 1, prev', next, done + cut, k');
  }

  lemma BeforeTurn(list: VmeList, rs: seq<Region>, base: nat, limit: nat, lo: nat, hi: nat, j: nat, prev: Vme?, curr: Vme)
    returns (done: seq<Region>, cut: seq<Region>)
    requires lo < hi && NonEmpty(rs) && Sorted(rs, base, limit) && Reached(list, rs, lo, hi, j, prev, curr)
    ensures j < |rs| && rs[j].start < rs[j].end && cut == Cut(rs[j], lo, hi)
    ensures Unmapped(rs[..j + 1], lo, hi) == done + cut
    ensures list.Valid() && |done| < |list.nodes| == |list.regions| && list.nodes[|done|] == curr
    ensures list.regions[|done|] == rs[j] && curr.next == At(list.nodes, |done| + 1)
    ensures list.PrevOk(prev, |done|) || hi < rs[j].start
    ensures list.regions[..|done|] + cut + list.regions[|done| + 1..] == (done + cut) + rs[j + 1..]
    ensures curr.start == rs[j].start && curr.end == rs[j].end
    ensures j + 1 < |rs| ==> rs[j].end <= rs[j + 1].start
  {
    CurrentRegion(list, rs, lo, hi, j, prev, curr);
    done, cut := Unmapped(rs[..j], lo, hi), Cut(rs[j], lo, hi);
    assert VmeOk(list.nodes, list.regions, |done|);
    UnmappedStep(rs, lo, hi, j);
    hide Unmapped;
    hide Cut;
    Splice(done, rs, j, cut, list.regions);
    NextBehind(rs, base, limit, j);
    hide Sorted;
  }

  lemma ReachedNow(list: VmeList, rs: seq<Region>, lo: nat, hi: nat, j: nat, prev: Vme?, curr: Vme?,
                   done: seq<Region>, k: nat)
    requires lo < hi && NonEmpty(rs) && j <= |rs| && list.Valid() && done == Unmapped(rs[..j], lo, hi) && k == |done|
    requires list.regions == done + rs[j..] && curr == At(list.nodes, k)
    requires list.PrevOk(prev, k) || (j < |rs| ==> hi < rs[j].start)
    ensures Reached(list, rs, lo, hi, j, prev, curr)
  {
  }

  lemma NextBehind(rs: seq<Region>, base: nat, limit: nat, j: nat)
    requires Sorted(rs, base, limit) && j < |rs|
    ensures j + 1 < |rs| ==> rs[j].end <= rs[j + 1].start
  {
  }

  lemma Splice(done: seq<Region>, rs: seq<Region>, j: nat, cut: seq<Region>, all: seq<Region>)
    requires j < |rs| && all == done + rs[j..]
    ensures all[|done|] == rs[j]
    ensures all[..|done|] + cut + all[|done| + 1..] == (done + cut) + rs[j + 1..]
  {
    assert all[..|done|] == done && all[|done| + 1..] == rs[j + 1..];
  }

  lemma Passed(r: Region, lo: nat, hi: nat)
    requires r.start < r.end && lo < hi && (r.end <= lo || hi <= r.start)
    ensures Cut(r, lo, hi) == [r]
  {
  }

  // The page loop for one region.
  method ClearOverlap(pm: PhysMem, ghost tree: Tree, ghost top: nat, root: nat, from: nat, to: nat,
                      ghost mem: map<nat, Frame>, ghost inUse: set<nat>, ghost done: set<nat>)
    requires Space(pm, tree, root, top) && from < to
    requires Unmaps(mem, pm.mem, inUse, pm.inUse, tree, root, top, Aliases(done))
    requires forall v {:trigger Alias(v)} :: from / PAGE_SIZE <= v < to / PAGE_SIZE ==> Clearable(pm.mem, tree, top, Alias(v))
    modifies pm, pm.frameState
    ensures Space(pm, tree, root, top)
    ensures Unmaps(mem, pm.mem, inUse, pm.inUse, tree, root, top,
                   Aliases(done + PagesFrom(from / PAGE_SIZE, to / PAGE_SIZE)))
  {
    hide Space;
    hide Unmaps;
    hide Aliases;
    hide Alias;
    ghost var mem1, inUse1, pages := pm.mem, pm.inUse, PagesFrom(from / PAGE_SIZE, to / PAGE_SIZE);
    UnmapPages(pm, tree, top, root, from / PAGE_SIZE, to / PAGE_SIZE);
    UnmapsBoth(mem, mem1, pm.mem, inUse, inUse1, pm.inUse, tree, root, top, Aliases(done), Aliases(pages));
    AliasesUnion(done, pages);
  }

  // The loop of munmap over the list.
  method RemoveRange(list: VmeList, pm: PhysMem, ghost tree: Tree, ghost top: nat, root: nat, ghost hhdm: nat, lo: nat, hi: nat)
    requires list.Valid() && Sorted(list.regions, PRIVATE_BASE, hhdm) && lo < hi && lo % PAGE_SIZE == 0 && hi % PAGE_SIZE == 0
    requires Space(pm, tree, root, top) && RangeClearable(list.regions, pm.mem, tree, top, lo, hi)
    modifies list, list.nodes, pm, pm.frameState
    ensures forall i :: 0 <= i < |list.nodes| ==> list.nodes[i] in old(list.nodes) || fresh(list.nodes[i])
    ensures list.Valid() && Space(pm, tree, root, top) && NonEmpty(old(list.regions))
    ensures list.regions == Unmapped(old(list.regions), lo, hi)
    ensures Unmaps(old(pm.mem), pm.mem, old(pm.inUse), pm.inUse, tree, root, top,
                   Aliases(CoveredPages(old(list.regions), |old(list.regions)|, lo, hi)))
  {
    hide Space;
    hide Unmaps;
    hide VmeList.Valid;
    hide RangeClearable;
    hide Clearable;
    hide Sorted;
    hide Unmapped;
    hide Overlap;
    hide Reached;
    hide NonEmpty;
    hide VmeList.PrevOk;
    var prev: Vme? := null;
    var curr := list.head;
    ghost var rs, j, done := list.regions, 0, {};
    SortedNonEmpty(rs, PRIVATE_BASE, hhdm);
    ReachedStart(list, lo, hi);
    UnmapsNothing(pm.mem, pm.inUse, tree, root, top);
    assert done == CoveredPages(rs, 0, lo, hi) && Aliases({}) == {};
    hide CoveredPages;
    while curr != null
      invariant j <= |rs| && Reached(list, rs, lo, hi, j, prev, curr)
      invariant forall i :: 0 <= i < |list.nodes| ==> list.nodes[i] in old(list.nodes) || fresh(list.nodes[i])
      invariant Space(pm, tree, root, top) && done == CoveredPages(rs, j, lo, hi)
      invariant Unmaps(old(pm.mem), pm.mem, old(pm.inUse), pm.inUse, tree, root, top, Aliases(done))
      decreases |rs| - j
    {
      CurrentRegion(list, rs, lo, hi, j, prev, curr);
      done := ClearPages(list, pm, tree, top, root, hhdm, old(pm.mem), old(pm.inUse), rs, lo, hi, j, prev, curr, done);
      prev, curr := PassOrCut(list, prev, curr, lo, hi, rs, PRIVATE_BASE, hhdm, j);
      j := j + 1;
    }
    ReachedEnd(list, rs, lo, hi, j, prev);
  }

  // The page loop of one turn.
  method ClearPages(ghost list: VmeList, pm: PhysMem, ghost tree: Tree, ghost top: nat, root: nat, ghost hhdm: nat,
                    ghost mem: map<nat, Frame>, ghost inUse: set<nat>, ghost rs: seq<Region>, lo: nat, hi: nat,
                    ghost j: nat, ghost prev: Vme?, curr: Vme, ghost done: set<nat>)
    returns (ghost done': set<nat>)
    requires Sorted(rs, PRIVATE_BASE, hhdm) && lo < hi && lo % PAGE_SIZE == 0 && hi % PAGE_SIZE == 0 && NonEmpty(rs)
    requires Reached(list, rs, lo, hi, j, prev, curr) && RangeClearable(rs, mem, tree, top, lo, hi)
    requires Space(pm, tree, root, top) && j < |rs| && done == CoveredPages(rs, j, lo, hi)
    requires Unmaps(mem, pm.mem, inUse, pm.inUse, tree, root, top, Aliases(done))
    modifies pm, pm.frameState
    ensures Space(pm, tree, root, top) && done' == CoveredPages(rs, j + 1, lo, hi)
    ensures Unmaps(mem, pm.mem, inUse, pm.inUse, tree, root, top, Aliases(done'))
  {
    hide Space;
    hide Unmaps;
    hide RangeClearable;
    hide Clearable;
    hide Sorted;
    hide NonEmpty;
    hide Alias;
    hide Aliases;
    CurrentRegion(list, rs, lo, hi, j, prev, curr);
    hide Reached;
    done' := done + Overlap(rs[j], lo, hi);
    if !(curr.end <= lo || curr.start >= hi) {
      var from := if curr.start > lo then curr.start else lo;
      var to := if curr.end < hi then curr.end else hi;
      OverlapClearable(rs, hhdm, mem, pm.mem, inUse, pm.inUse, tree, root, top, done, j, lo, hi, from, to);
      ClearOverlap(pm, tree, top, root, from, to, mem, inUse, done);
    } else {
      assert done' == done;
    }
  }

  lemma ReachedStart(list: VmeList, lo: nat, hi: nat)
    requires list.Valid() && lo < hi && NonEmpty(list.regions)
    ensures Reached(list, list.regions, lo, hi, 0, null, list.head)
  {
  }

  lemma CurrentRegion(list: VmeList, rs: seq<Region>, lo: nat, hi: nat, j: nat, prev: Vme?, curr: Vme)
    requires lo < hi && NonEmpty(rs) && Reached(list, rs, lo, hi, j, prev, curr)
    ensures j < |rs| && curr.start == rs[j].start && curr.end == rs[j].end && rs[j].start < rs[j].end
  {
    assert VmeOk(list.nodes, list.regions, |Unmapped(rs[..j], lo, hi)|);
  }

  lemma ReachedEnd(list: VmeList, rs: seq<Region>, lo: nat, hi: nat, j: nat, prev: Vme?)
    requires lo < hi && NonEmpty(rs) && Reached(list, rs, lo, hi, j, prev, null)
    ensures j == |rs| && list.Valid() && list.regions == Unmapped(rs, lo, hi)
  {
    assert j == |rs|;
    assert rs[..j] == rs;
  }

  lemma SortedNonEmpty(rs: seq<Region>, base: nat, limit: nat)
    requires Sorted(rs, base, limit)
    ensures NonEmpty(rs)
  {
    forall i | 0 <= i < |rs| ensures rs[i].start < rs[i].end {
      assert RegionOk(rs[i], base, limit);
    }
  }

  // The pages about to be cleared can be cleared, whatever was cleared before.
  lemma OverlapClearable(rs: seq<Region>, hhdm: nat, mem: map<nat, Frame>, mem1: map<nat, Frame>,
                         inUse: set<nat>, inUse1: set<nat>, tree: Tree, root: nat, top: nat,
                         done: set<nat>, j: nat, lo: nat, hi: nat, from: nat, to: nat)
    requires Sorted(rs, PRIVATE_BASE, hhdm) && j < |rs| && lo % PAGE_SIZE == 0 && hi % PAGE_SIZE == 0
    requires RangeClearable(rs, mem, tree, top, lo, hi) && Unmaps(mem, mem1, inUse, inUse1, tree, root, top, Aliases(done))
    requires lo < hi && lo < rs[j].end && rs[j].start < hi
    requires from == (if lo < rs[j].start then rs[j].start else lo) && to == if rs[j].end < hi then rs[j].end else hi
    ensures forall v {:trigger Alias(v)} :: from / PAGE_SIZE <= v < to / PAGE_SIZE ==> Clearable(mem1, tree, top, Alias(v))
  {
    assert RegionOk(rs[j], PRIVATE_BASE, hhdm);
    forall v: nat {:trigger Alias(v)} | from / PAGE_SIZE <= v < to / PAGE_SIZE ensures Clearable(mem1, tree, top, Alias(v)) {
      InOverlap(rs[j], PRIVATE_BASE, hhdm, lo, hi, v);
      LookupFinds(rs, v * PAGE_SIZE);
      StillClearable(mem, mem1, inUse, inUse1, tree, root, top, Aliases(done), Alias(v));
    }
  }

  // munmap leaves every other range clearable that was.
  lemma StaysClearable(rs: seq<Region>, rs': seq<Region>, a: nat, b: nat, mem: map<nat, Frame>, mem': map<nat, Frame>,
                       inUse: set<nat>, inUse': set<nat>, tree: Tree, root: nat, top: nat, pages: set<nat>, lo: nat, hi: nat)
    requires Removes(rs, rs', a, b) && Unmaps(mem, mem', inUse, inUse', tree, root, top, pages)
    requires RangeClearable(rs, mem, tree, top, lo, hi)
    ensures RangeClearable(rs', mem', tree, top, lo, hi)
  {
    forall v: nat {:trigger Alias(v)} | lo <= v * PAGE_SIZE < hi && Lookup(rs', v * PAGE_SIZE) != None
      ensures Clearable(mem', tree, top, Alias(v))
    {
      assert Lookup(rs, v * PAGE_SIZE) != None;
      StillClearable(mem, mem', inUse, inUse', tree, root, top, pages, Alias(v));
    }
  }

  // No leaf entry of the address space leads to a page-table frame.
  ghost predicate LeavesClear(mem: map<nat, Frame>, tree: Tree, top: nat) {
    forall v: nat {:trigger Clearable(mem, tree, top, v)} :: v < VPN_LIMIT && Index(v, 3) < top ==> Clearable(mem, tree, top, v)
  }

  // That suffices for every range, as long as no region reaches above the part of the address
  // space the tree describes; munmap keeps it, and mmap writes no page table.
  lemma LeavesClearSuffices(rs: seq<Region>, limit: nat, mem: map<nat, Frame>, tree: Tree, top: nat, lo: nat, hi: nat)
    requires Sorted(rs, PRIVATE_BASE, limit) && LeavesClear(mem, tree, top)
    requires top == FRAME_WORDS || (top < FRAME_WORDS && limit <= top * 0x80_0000_0000)
    ensures RangeClearable(rs, mem, tree, top, lo, hi)
  {
    forall v: nat {:trigger Alias(v)} | lo <= v * PAGE_SIZE < hi && Lookup(rs, v * PAGE_SIZE) != None
      ensures Clearable(mem, tree, top, Alias(v))
    {
      LookupFinds(rs, v * PAGE_SIZE);
      var i :| 0 <= i < |rs| && Contains(rs[i], v * PAGE_SIZE);
      assert RegionOk(rs[i], PRIVATE_BASE, limit);
      AliasIndices(v);
      if top < FRAME_WORDS {
        TopSlots(v, top);
      }
    }
  }

  lemma TopSlots(v: nat, top: nat)
    requires v * PAGE_SIZE < top * 0x80_0000_0000 && top <= FRAME_WORDS
    ensures v < VPN_LIMIT && Index(v, 3) < top
  {
    assert v < top * 0x800_0000 && v / 0x800_0000 < top;
  }

  lemma LeavesStayClear(mem: map<nat, Frame>, mem': map<nat, Frame>, inUse: set<nat>, inUse': set<nat>,
                        tree: Tree, root: nat, top: nat, pages: set<nat>)
    requires Unmaps(mem, mem', inUse, inUse', tree, root, top, pages) && LeavesClear(mem, tree, top)
    ensures LeavesClear(mem', tree, top)
  {
    forall v: nat {:trigger Clearable(mem', tree, top, v)} | v < VPN_LIMIT && Index(v, 3) < top ensures Clearable(mem', tree, top, v) {
      assert Clearable(mem, tree, top, v);
      StillClearable(mem, mem', inUse, inUse', tree, root, top, pages, v);
    }
  }

  const LOWER_HALF := LOWER_LIMIT * PAGE_SIZE   // 2^47

  // Below 2^47 the pages cleared are the mapped pages of the range, at their own addresses.
  lemma CanonicalPages(rs: seq<Region>, base: nat, limit: nat, lo: nat, hi: nat)
    requires Sorted(rs, base, limit) && lo % PAGE_SIZE == 0 && hi % PAGE_SIZE == 0 && hi <= LOWER_HALF
    ensures Aliases(CoveredPages(rs, |rs|, lo, hi)) == CoveredPages(rs, |rs|, lo, hi)
    ensures forall v :: v in CoveredPages(rs, |rs|, lo, hi) ==> v < LOWER_LIMIT && PageAddress(v) == v * PAGE_SIZE
  {
    var pages := CoveredPages(rs, |rs|, lo, hi);
    forall v | v in pages ensures v < LOWER_LIMIT && Alias(v) in Aliases(pages) {
      InCovered(rs, base, limit, |rs|, lo, hi, v);
    }
  }

  // No page whose address lies outside the range loses its entry.
  ghost predicate InsideRange(rs: seq<Region>, lo: nat, hi: nat) {
    forall a :: a in Aliases(CoveredPages(rs, |rs|, lo, hi)) ==> lo <= PageAddress(a) < hi
  }

  // munmap of a range clears only pages of the range, whatever is mapped there, exactly
  // when the range ends at or below 2^47 or lies in the upper half.
  lemma OnlyTheRange(hhdm: nat, lo: nat, hi: nat)
    requires PRIVATE_BASE <= lo < hi <= hhdm < U64 && lo % PAGE_SIZE == 0 && hi % PAGE_SIZE == 0
    ensures (forall rs: seq<Region> :: Sorted(rs, PRIVATE_BASE, hhdm) ==> InsideRange(rs, lo, hi))
      <==> hi <= LOWER_HALF || UPPER_HALF <= lo
  {
    if hi <= LOWER_HALF || UPPER_HALF <= lo {
      forall rs: seq<Region> | Sorted(rs, PRIVATE_BASE, hhdm) ensures InsideRange(rs, lo, hi) {
        OwnAddresses(rs, PRIVATE_BASE, hhdm, lo, hi);
      }
    } else {
      var rs := [Region(lo, hi, None, 0, false)];
      var v := LeavesRange(lo, hi);
      OneRegion(lo, hi, v);
      assert !InsideRange(rs, lo, hi) && Sorted(rs, PRIVATE_BASE, hhdm);
    }
  }

  lemma OwnAddresses(rs: seq<Region>, base: nat, limit: nat, lo: nat, hi: nat)
    requires Sorted(rs, base, limit) && lo % PAGE_SIZE == 0 && hi % PAGE_SIZE == 0
    requires hi <= LOWER_HALF || (UPPER_HALF <= lo && hi <= U64)
    ensures InsideRange(rs, lo, hi)
  {
    hide Alias;
    hide PageAddress;
    forall v | v in CoveredPages(rs, |rs|, lo, hi) ensures lo <= PageAddress(Alias(v)) < hi {
      InCovered(rs, base, limit, |rs|, lo, hi, v);
      OwnAddress(lo, hi, v);
    }
    hide CoveredPages;
  }

  lemma OwnAddress(lo: nat, hi: nat, v: nat)
    requires lo <= v * PAGE_SIZE < hi && (hi <= LOWER_HALF || (UPPER_HALF <= lo && hi <= U64))
    ensures PageAddress(Alias(v)) == v * PAGE_SIZE
  {
  }

  // A page of any other range leads to one outside it.
  lemma LeavesRange(lo: nat, hi: nat) returns (v: nat)
    requires PRIVATE_BASE <= lo < hi && lo % PAGE_SIZE == 0 && LOWER_HALF < hi && lo < UPPER_HALF
    ensures lo <= v * PAGE_SIZE < hi && !(lo <= PageAddress(Alias(v)) < hi)
  {
    if hi <= UPPER_HALF {
      v := if lo <= LOWER_HALF then LOWER_LIMIT else lo / PAGE_SIZE;
    } else {
      v := if lo <= LOWER_HALF then VPN_LIMIT else lo / PAGE_SIZE;
      if Alias(v) >= LOWER_LIMIT {
        v := (v / VPN_LIMIT + 1) * VPN_LIMIT;
        assert Alias(v) == 0;
      }
    }
  }

  lemma OneRegion(lo: nat, hi: nat, v: nat)
    requires lo < hi && lo % PAGE_SIZE == 0 && hi % PAGE_SIZE == 0 && lo <= v * PAGE_SIZE < hi
    ensures Alias(v) in Aliases(CoveredPages([Region(lo, hi, None, 0, false)], 1, lo, hi))
  {
    var r := Region(lo, hi, None, 0, false);
    InOverlap(r, lo, hi, lo, hi, v);
    assert CoveredPages([r], 0, lo, hi) == {} && v in CoveredPages([r], 1, lo, hi);
  }

  // The first mapping of an empty list starts at its base.
  lemma FirstPlaced(rs: seq<Region>, hhdm: nat, size: nat, res: Option<nat>)
    requires PRIVATE_BASE + size <= hhdm && Placed([], rs, PRIVATE_BASE, hhdm, size, None, 0, false, res)
    ensures res == Some(PRIVATE_BASE) && rs == [Region(PRIVATE_BASE, PRIVATE_BASE + size, None, 0, false)]
  {
    assert Fits([], PRIVATE_BASE, hhdm, size, PRIVATE_BASE);
    var k: nat :| k <= 0 && rs == Inserted([], k, Region(PRIVATE_BASE, PRIVATE_BASE + size, None, 0, false));
  }

  // mmap grants 2^49 bytes at 4096; then unmapping the page at 2^48 + 4096 clears the entry
  // of the page at 4096, which stays in the list.
  lemma WideMapping(rs: seq<Region>, hhdm: nat, res: Option<nat>)
    requires hhdm == UPPER_HALF
    requires Placed([], rs, PRIVATE_BASE, hhdm, RoundUp(0x2_0000_0000_0000), None, 0, false, res)
    ensures res == Some(4096) && rs == [Region(4096, 0x2_0000_0000_1000, None, 0, false)]
    ensures var lo, hi := 0x1_0000_0000_1000, 0x1_0000_0000_2000;
      lo % 4096 == 0 && 4096 <= lo && lo + RoundUp(PAGE_SIZE) <= hhdm && Aliases(CoveredPages(rs, |rs|, lo, hi)) == {1} &&
      IsUnmapped(rs, Unmapped(rs, lo, hi), lo, hi) && Lookup(Unmapped(rs, lo, hi), 4096) != None
  {
    hide Placed;
    hide Unmapped;
    var lo, hi := 0x1_0000_0000_1000, 0x1_0000_0000_2000;
    FirstPlaced(rs, hhdm, RoundUp(0x2_0000_0000_0000), res);
    OnePage(rs[0], lo, hi, VPN_LIMIT + 1);
    hide CoveredPages;
    hide Aliases;
    UnmappedLookup(rs, lo, hi, 4096);
  }

  // mmap grants 2^48 - 4096 bytes at 4096; then unmapping the page at 2^47 + 4096 clears the
  // entry of the shared page at 0xffff_8000_0000_1000.
  lemma UpperMapping(rs: seq<Region>, hhdm: nat, res: Option<nat>)
    requires hhdm == UPPER_HALF
    requires Placed([], rs, PRIVATE_BASE, hhdm, RoundUp(0xffff_ffff_f000), None, 0, false, res)
    ensures res == Some(4096) && rs == [Region(4096, 0x1_0000_0000_0000, None, 0, false)]
    ensures var lo, hi := 0x8000_0000_1000, 0x8000_0000_2000;
      lo % 4096 == 0 && 4096 <= lo && lo + RoundUp(PAGE_SIZE) <= hhdm && Aliases(CoveredPages(rs, |rs|, lo, hi)) == {LOWER_LIMIT + 1} &&
      PageAddress(LOWER_LIMIT + 1) == 0xffff_8000_0000_1000
  {
    hide Placed;
    FirstPlaced(rs, hhdm, RoundUp(0xffff_ffff_f000), res);
    OnePage(rs[0], 0x8000_0000_1000, 0x8000_0000_2000, LOWER_LIMIT + 1);
    hide CoveredPages;
    hide Aliases;
  }

  lemma OnePage(r: Region, lo: nat, hi: nat, v: nat)
    requires r.start < lo == v * PAGE_SIZE && hi == lo + PAGE_SIZE < r.end
    ensures Aliases(CoveredPages([r], 1, lo, hi)) == {Alias(v)}
  {
    hide Alias;
    assert PagesFrom(v, v + 1) == {v};
    assert lo / PAGE_SIZE == v && hi / PAGE_SIZE == v + 1;
    assert CoveredPages([r], 0, lo, hi) == {};
    assert CoveredPages([r], 1, lo, hi) == {v};
  }
}
