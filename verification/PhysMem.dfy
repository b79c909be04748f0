// The physical frame allocator: unclaimed memory-map ranges, and an intrusive
// free list threaded through the first word of every freed frame.

module Words {
  import opened Basics

  const FRAME_WORDS := 512

  // One 64-bit word of physical memory, by what was last stored in it.  The
  // fields of an Entry are the page-table bits P, R/W, U/S, PS and bits 12..47.
  datatype Word =
    | Entry(present: bool, write: bool, user: bool, huge: bool, ppn: nat)
    | Link(next: Option<nat>)
    | Data(value: nat)

  type Frame = f: seq<Word> | |f| == FRAME_WORDS witness seq(FRAME_WORDS, _ => ZERO_WORD)

  const ZERO_WORD := Entry(false, false, false, false, 0)
  const ZERO_FRAME: Frame := seq(FRAME_WORDS, _ => ZERO_WORD)
}

module PhysicalMemory {
  import opened Basics
  import opened Words

  const MAX_TRACKED_PPN := 256 * 1024 * 1024 / PAGE_SIZE

  // frame_state values
  const UNKNOWN := 0
  const ALLOCATED := 1
  const ON_FREELIST := 2

  datatype Range = Range(base: nat, length: nat)
  datatype MapEntry = MapEntry(range: Range, usable: bool)

  // Frame ppn lies wholly inside r.
  predicate InRange(r: Range, ppn: nat) {
    r.base <= ppn * PAGE_SIZE && ppn * PAGE_SIZE + PAGE_SIZE <= r.base + r.length
  }

  predicate Apart(r: Range, q: Range) {
    r.base + r.length <= q.base || q.base + q.length <= r.base
  }

  predicate Aligned(r: Range) {
    r.base % PAGE_SIZE == 0 && r.length % PAGE_SIZE == 0 && r.length > 0
  }

  // What the code demands of the boot loader's memory map: the usable ranges are
  // page aligned, non-empty, disjoint, and below the tracked 256 MiB.
  ghost predicate GoodMap(memmap: seq<MapEntry>) {
    (forall i :: 0 <= i < |memmap| && memmap[i].usable ==>
       Aligned(memmap[i].range) &&
       memmap[i].range.base + memmap[i].range.length <= MAX_TRACKED_PPN * PAGE_SIZE) &&
    (forall i, j :: 0 <= i < j < |memmap| && memmap[i].usable && memmap[j].usable ==>
       Apart(memmap[i].range, memmap[j].range))
  }

  ghost predicate Usable(memmap: seq<MapEntry>, ppn: nat) {
    exists i :: 0 <= i < |memmap| && memmap[i].usable && InRange(memmap[i].range, ppn)
  }

  ghost predicate Unclaimed(ranges: seq<Range>, ppn: nat) {
    exists i :: 0 <= i < |ranges| && InRange(ranges[i], ppn)
  }

  // The list reached from `avail` through the first words of the frames is fl.
  ghost predicate Linked(mem: map<nat, Frame>, avail: Option<nat>, fl: seq<nat>) {
    avail == ElementAt(fl, 0) &&
    (forall k :: 0 <= k < |fl| ==> fl[k] in mem && mem[fl[k]][0] == Link(ElementAt(fl, k + 1))) &&
    (forall j, k :: 0 <= j < k < |fl| ==> fl[j] != fl[k])
  }

  ghost function ElementAt(fl: seq<nat>, k: nat): Option<nat> {
    if k < |fl| then Some(fl[k]) else None
  }

  ghost predicate GoodRanges(memmap: seq<MapEntry>, ranges: seq<Range>) {
    (forall i :: 0 <= i < |ranges| ==> Aligned(ranges[i])) &&
    (forall i, j :: 0 <= i < j < |ranges| ==> Apart(ranges[i], ranges[j])) &&
    (forall p: nat :: Unclaimed(ranges, p) ==> Usable(memmap, p) && p < MAX_TRACKED_PPN)
  }

  // Some usable entry holds the whole frame that starts at physical address pa.
  ghost predicate Covers(memmap: seq<MapEntry>, pa: nat) {
    exists i :: 0 <= i < |memmap| && memmap[i].usable && memmap[i].range.base <= pa &&
      pa + PAGE_SIZE <= memmap[i].range.base + memmap[i].range.length
  }

  class PhysMem {
    const memmap: seq<MapEntry>
    var mem: map<nat, Frame>
    var avail: Option<nat>
    var freeRanges: seq<Range>
    const frameState: array<int>

    ghost var freeList: seq<nat>
    ghost var inUse: set<nat>

    // Every usable frame is in exactly one of the unclaimed ranges, the free
    // list and the allocated set, and frame_state says which.
    ghost predicate Valid()
      reads this, frameState
    {
      frameState.Length == MAX_TRACKED_PPN &&
      GoodMap(memmap) &&
      GoodRanges(memmap, freeRanges) &&
      Linked(mem, avail, freeList) &&
      (forall p: nat :: Usable(memmap, p) ==> p in mem && p < MAX_TRACKED_PPN) &&
      (forall p: nat :: p in inUse ==> Usable(memmap, p) && !Unclaimed(freeRanges, p) && p !in freeList) &&
      (forall p: nat :: p in freeList ==> Usable(memmap, p) && !Unclaimed(freeRanges, p) && p != 0) &&
      (forall p: nat :: Usable(memmap, p) ==> Unclaimed(freeRanges, p) || p in freeList || p in inUse) &&
      (forall p: nat :: 0 <= p < MAX_TRACKED_PPN ==>
         frameState[p] == (if p in inUse then ALLOCATED else if p in freeList then ON_FREELIST else UNKNOWN))
    }

    ghost predicate Exhausted()
      reads this
    {
      freeList == [] && freeRanges == []
    }

    constructor (memmap: seq<MapEntry>, mem: map<nat, Frame>)
      requires GoodMap(memmap)
      requires forall p: nat :: Usable(memmap, p) ==> p in mem
      ensures Valid() && fresh(frameState)
      ensures this.memmap == memmap && this.mem == mem
      ensures inUse == {} && freeList == []
      ensures forall p: nat :: Unclaimed(freeRanges, p) <==> Usable(memmap, p)
    {
      this.memmap := memmap;
      this.mem := mem;
      avail := None;
      frameState := new int[MAX_TRACKED_PPN](_ => UNKNOWN);
      freeList, inUse := [], {};
      freeRanges := [];
      new;
      var i := 0;
      while i < |memmap|
        invariant 0 <= i <= |memmap|
        invariant freeRanges == UsableRanges(memmap[..i])
        invariant mem == this.mem && avail == None && freeList == [] && inUse == {}
        invariant forall k :: 0 <= k < MAX_TRACKED_PPN ==> frameState[k] == UNKNOWN
      {
        assert memmap[..i + 1][..i] == memmap[..i];
        if memmap[i].usable {
          freeRanges := [memmap[i].range] + freeRanges;
        }
        i := i + 1;
      }
      assert memmap[..i] == memmap;
      UsableRangesGood(memmap);
    }

    // Returns a zeroed frame that was not allocated.  When no frame is left the
    // source panics; the model then returns ok == false and changes nothing.
    method Alloc() returns (ok: bool, ppn: nat)
      requires Valid()
      modifies this, frameState
      ensures Valid()
      ensures ok <==> !old(Exhausted())
      ensures ok ==> Usable(memmap, ppn) && ppn !in old(inUse) && inUse == old(inUse) + {ppn}
      ensures ok ==> mem == old(mem)[ppn := ZERO_FRAME]
      ensures !ok ==> mem == old(mem) && inUse == old(inUse) && Exhausted()
    {
      if avail.Some? {
        ppn := PopFreeList();
      } else {
        if freeRanges == [] {
          return false, 0;
        }
        ppn := TakeFromRange();
      }
      inUse := inUse + {ppn};
      ZeroWords(ppn);
      ok := true;
    }

    method ZeroWords(ppn: nat)
      requires ppn in mem
      modifies this`mem
      ensures mem == old(mem)[ppn := ZERO_FRAME]
    {
      var i := 0;
      while i < FRAME_WORDS
        invariant 0 <= i <= FRAME_WORDS
        invariant ppn in mem && mem == old(mem)[ppn := mem[ppn]]
        invariant forall k :: 0 <= k < i ==> mem[ppn][k] == ZERO_WORD
      {
        mem := mem[ppn := mem[ppn][i := ZERO_WORD]];
        i := i + 1;
      }
      assert mem[ppn] == ZERO_FRAME;
    }

    // The free-list half of alloc: unlinks the head frame and marks it taken.
    method PopFreeList() returns (ppn: nat)
      requires Valid() && freeList != []
      modifies this`avail, this`freeList, frameState
      ensures Linked(mem, avail, freeList)
      ensures ppn == old(freeList)[0] && freeList == old(freeList)[1..]
      ensures forall p: nat :: 0 <= p < MAX_TRACKED_PPN ==>
        frameState[p] == if p == ppn then ALLOCATED else old(frameState[p])
    {
      ppn := avail.value;
      avail := mem[ppn][0].next;
      if ppn < MAX_TRACKED_PPN {
        frameState[ppn] := ALLOCATED;
      }
      freeList := freeList[1..];
    }

    // The range half of alloc: the first frame of the first range.
    method TakeFromRange() returns (ppn: nat)
      requires Valid() && freeRanges != []
      modifies this`freeRanges, frameState
      ensures GoodRanges(memmap, freeRanges)
      ensures old(Unclaimed(freeRanges, ppn)) && ppn < MAX_TRACKED_PPN
      ensures forall p: nat :: Unclaimed(freeRanges, p) <==> old(Unclaimed(freeRanges, p)) && p != ppn
      ensures forall p: nat :: 0 <= p < MAX_TRACKED_PPN ==>
        frameState[p] == if p == ppn then ALLOCATED else old(frameState[p])
    {
      var r := freeRanges[0];
      ppn := r.base / PAGE_SIZE;
      TakeFirstFrame(freeRanges);
      if ppn < MAX_TRACKED_PPN {
        frameState[ppn] := ALLOCATED;
      }
      freeRanges := TakeFirst(freeRanges);
    }

    // Frees an allocated frame by threading it onto the free list.  Frame 0, a
    // frame outside usable memory, one already free and one never handed out
    // are all ignored.
    method Free(ppn: nat)
      requires Valid()
      modifies this, frameState
      ensures Valid()
      ensures ppn != 0 && ppn in old(inUse) ==>
        inUse == old(inUse) - {ppn} && freeList == [ppn] + old(freeList) &&
        mem == old(mem)[ppn := old(mem[ppn])[0 := Link(old(avail))]]
      ensures ppn == 0 || ppn !in old(inUse) ==>
        unchanged(this) && frameState[..] == old(frameState[..])
    {
      if ppn == 0 {
        return;
      }
      var usable := PaInUsableRange(ppn * PAGE_SIZE);
      assert usable <==> Usable(memmap, ppn);
      if !usable {
        return;
      }
      if ppn < MAX_TRACKED_PPN {
        if frameState[ppn] != ALLOCATED {
          return;
        }
        frameState[ppn] := ON_FREELIST;
      }
      PushKeepsLinks(mem, avail, freeList, ppn);
      mem := mem[ppn := mem[ppn][0 := Link(avail)]];
      avail := Some(ppn);
      freeList := [ppn] + freeList;
      inUse := inUse - {ppn};
    }

    method PaInUsableRange(pa: nat) returns (found: bool)
      requires GoodMap(memmap)
      ensures found <==> Covers(memmap, pa)
    {
      var i := 0;
      while i < |memmap|
        invariant 0 <= i <= |memmap|
        invariant !Covers(memmap[..i], pa)
      {
        if memmap[i].usable && memmap[i].range.length >= PAGE_SIZE {
          var end := memmap[i].range.base + memmap[i].range.length;
          if pa >= memmap[i].range.base && pa <= end - PAGE_SIZE {
            return true;
          }
        }
        assert memmap[..i + 1][..i] == memmap[..i];
        assert memmap[..i + 1][i] == memmap[i];
        i := i + 1;
      }
      assert memmap[..i] == memmap;
      found := false;
    }

    // A frame some owner holds: handed out by Alloc, or never the allocator's.
    ghost predicate Owned(ppn: nat)
      reads this
    {
      ppn in mem && (ppn in inUse || !Usable(memmap, ppn))
    }

    // A kernel write to one word of an owned frame.
    method Store(ppn: nat, index: nat, word: Word)
      requires Valid() && Owned(ppn) && index < FRAME_WORDS
      modifies this`mem
      ensures Valid()
      ensures mem == old(mem)[ppn := old(mem[ppn])[index := word]]
    {
      mem := mem[ppn := mem[ppn][index := word]];
    }
  }

  // The range list the constructor builds, newest memory-map entry first.
  function UsableRanges(memmap: seq<MapEntry>): seq<Range> {
    if memmap == [] then [] else
      var last := memmap[|memmap| - 1];
      (if last.usable then [last.range] else []) + UsableRanges(memmap[..|memmap| - 1])
  }

  lemma {:induction false} UsableRangesMatch(memmap: seq<MapEntry>, p: nat)
    ensures Unclaimed(UsableRanges(memmap), p) <==> Usable(memmap, p)
  {
    if memmap != [] {
      var n := |memmap| - 1;
      UsableRangesMatch(memmap[..n], p);
      var rs := UsableRanges(memmap);
      if memmap[n].usable {
        UnclaimedSplit(rs, p);
        assert rs[1..] == UsableRanges(memmap[..n]);
      } else {
        assert rs == UsableRanges(memmap[..n]);
      }
      if Usable(memmap, p) && !Usable(memmap[..n], p) {
        var i :| 0 <= i < |memmap| && memmap[i].usable && InRange(memmap[i].range, p);
        assert i == n || memmap[..n][i] == memmap[i];
      }
    }
  }

  ghost predicate FromMap(memmap: seq<MapEntry>, r: Range) {
    exists k :: 0 <= k < |memmap| && memmap[k].usable && memmap[k].range == r
  }

  lemma {:induction false} UsableRangesApart(memmap: seq<MapEntry>)
    requires GoodMap(memmap)
    ensures forall i :: 0 <= i < |UsableRanges(memmap)| ==> (
      Aligned(UsableRanges(memmap)[i]) && FromMap(memmap, UsableRanges(memmap)[i]))
    ensures forall i, j :: 0 <= i < j < |UsableRanges(memmap)| ==>
      Apart(UsableRanges(memmap)[i], UsableRanges(memmap)[j])
  {
    if memmap != [] {
      var n := |memmap| - 1;
      var init := memmap[..n];
      assert forall k :: 0 <= k < n ==> init[k] == memmap[k];
      UsableRangesApart(init);
      var rs, tail := UsableRanges(memmap), UsableRanges(init);
      forall r | FromMap(init, r) ensures FromMap(memmap, r) {
        var k :| 0 <= k < |init| && init[k].usable && init[k].range == r;
        assert memmap[k].usable && memmap[k].range == r;
      }
      if memmap[n].usable {
        assert forall i :: 0 < i < |rs| ==> rs[i] == tail[i - 1];
        assert rs[0] == memmap[n].range;
      } else {
        assert rs == tail;
      }
    }
  }

  lemma UsableRangesGood(memmap: seq<MapEntry>)
    requires GoodMap(memmap)
    ensures GoodRanges(memmap, UsableRanges(memmap))
    ensures forall p: nat :: Unclaimed(UsableRanges(memmap), p) <==> Usable(memmap, p)
    ensures forall p: nat :: Usable(memmap, p) ==> p < MAX_TRACKED_PPN
  {
    forall p: nat ensures Unclaimed(UsableRanges(memmap), p) <==> Usable(memmap, p) {
      UsableRangesMatch(memmap, p);
    }
    UsableRangesApart(memmap);
  }

  // Pushing a frame that is not on the list keeps the list well linked.
  lemma PushKeepsLinks(mem: map<nat, Frame>, avail: Option<nat>, fl: seq<nat>, ppn: nat)
    requires Linked(mem, avail, fl) && ppn !in fl && ppn in mem
    ensures Linked(mem[ppn := mem[ppn][0 := Link(avail)]], Some(ppn), [ppn] + fl)
  {
    var fl', mem' := [ppn] + fl, mem[ppn := mem[ppn][0 := Link(avail)]];
    forall k | 0 <= k < |fl'|
      ensures fl'[k] in mem' && mem'[fl'[k]][0] == Link(ElementAt(fl', k + 1))
    {
      if k > 0 {
        assert fl[k - 1] in fl;
      }
    }
  }

  // The range list after alloc takes its first frame: the head range shrinks
  // from below, and is dropped once it is empty.
  function TakeFirst(ranges: seq<Range>): seq<Range>
    requires ranges != [] && ranges[0].length >= PAGE_SIZE
  {
    var r := Range(ranges[0].base + PAGE_SIZE, ranges[0].length - PAGE_SIZE);
    if r.length == 0 then ranges[1..] else [r] + ranges[1..]
  }

  lemma UnclaimedSplit(ranges: seq<Range>, p: nat)
    requires ranges != []
    ensures Unclaimed(ranges, p) <==> InRange(ranges[0], p) || Unclaimed(ranges[1..], p)
  {
    if Unclaimed(ranges, p) && !InRange(ranges[0], p) {
      var i :| 0 <= i < |ranges| && InRange(ranges[i], p);
      assert ranges[1..][i - 1] == ranges[i];
    }
    if Unclaimed(ranges[1..], p) {
      var i :| 0 <= i < |ranges[1..]| && InRange(ranges[1..][i], p);
      assert ranges[i + 1] == ranges[1..][i];
    }
  }

  // Cutting the first frame off a range loses that frame and no other.
  lemma Shrink(r: Range, first: nat, p: nat)
    requires Aligned(r) && r.base == first * PAGE_SIZE
    ensures r.length >= PAGE_SIZE && InRange(r, first)
    ensures InRange(Range(r.base + PAGE_SIZE, r.length - PAGE_SIZE), p) <==> InRange(r, p) && p != first
  {
  }

  // Taking the first frame removes exactly that frame from the unclaimed ones.
  lemma TakeFirstFrame(ranges: seq<Range>)
    requires ranges != []
    requires forall i :: 0 <= i < |ranges| ==> Aligned(ranges[i])
    requires forall i, j :: 0 <= i < j < |ranges| ==> Apart(ranges[i], ranges[j])
    ensures ranges[0].length >= PAGE_SIZE
    ensures Unclaimed(ranges, ranges[0].base / PAGE_SIZE)
    ensures forall p: nat :: Unclaimed(TakeFirst(ranges), p) <==>
      Unclaimed(ranges, p) && p != ranges[0].base / PAGE_SIZE
    ensures forall i :: 0 <= i < |TakeFirst(ranges)| ==> Aligned(TakeFirst(ranges)[i])
    ensures forall i, j :: 0 <= i < j < |TakeFirst(ranges)| ==> Apart(TakeFirst(ranges)[i], TakeFirst(ranges)[j])
  {
    var r, first := ranges[0], ranges[0].base / PAGE_SIZE;
    Shrink(r, first, first);
    forall i | 0 <= i < |ranges[1..]| ensures !InRange(ranges[1..][i], first) {
      assert Apart(ranges[0], ranges[i + 1]);
    }
    forall p: nat ensures Unclaimed(TakeFirst(ranges), p) <==> Unclaimed(ranges, p) && p != first {
      TakeFirstAt(ranges, first, p);
    }
    TakeFirstApart(ranges);
  }

  lemma TakeFirstAt(ranges: seq<Range>, first: nat, p: nat)
    requires ranges != [] && Aligned(ranges[0]) && ranges[0].base == first * PAGE_SIZE
    requires !Unclaimed(ranges[1..], first)
    ensures Unclaimed(TakeFirst(ranges), p) <==> Unclaimed(ranges, p) && p != first
  {
    hide InRange;
    var r := ranges[0];
    var shrunk := Range(r.base + PAGE_SIZE, r.length - PAGE_SIZE);
    Shrink(r, first, p);
    UnclaimedSplit(ranges, p);
    if shrunk.length != 0 {
      UnclaimedSplit([shrunk] + ranges[1..], p);
      assert ([shrunk] + ranges[1..])[1..] == ranges[1..];
    } else {
      EmptyRange(shrunk, p);
    }
  }

  lemma EmptyRange(r: Range, p: nat)
    requires r.length == 0
    ensures !InRange(r, p)
  {
  }

  lemma TakeFirstApart(ranges: seq<Range>)
    requires ranges != [] && ranges[0].length >= PAGE_SIZE
    requires forall i :: 0 <= i < |ranges| ==> Aligned(ranges[i])
    requires forall i, j :: 0 <= i < j < |ranges| ==> Apart(ranges[i], ranges[j])
    ensures forall i :: 0 <= i < |TakeFirst(ranges)| ==> Aligned(TakeFirst(ranges)[i])
    ensures forall i, j :: 0 <= i < j < |TakeFirst(ranges)| ==> Apart(TakeFirst(ranges)[i], TakeFirst(ranges)[j])
  {
    var rest := TakeFirst(ranges);
    if |rest| == |ranges| {
      assert forall i :: 0 < i < |rest| ==> rest[i] == ranges[i];
    } else {
      assert forall i :: 0 <= i < |rest| ==> rest[i] == ranges[i + 1];
    }
  }
}
