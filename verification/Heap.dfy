// The kernel heap of kernel/heap.cc: one array of 64-bit words cut into blocks. Each
// block has its size, plus one when taken, in its first and in its last word. The free
// blocks are chained through their second word (next) and third word (previous), and
// index 0 ends the chain.

module BlockTiling {
  datatype Block = Block(size: nat, taken: bool)

  type Blocks = map<nat, Block>

  function Tag(b: Block): nat { if b.taken then b.size + 1 else b.size }

  // The array is two taken sentinels with blocks in between, without gap or overlap.
  ghost predicate Tiling(bs: Blocks, len: nat) {
    && 10 <= len && len % 2 == 0
    && 0 in bs && bs[0] == Block(2, true)
    && len - 2 in bs && bs[len - 2] == Block(2, true)
    && (forall h {:trigger BlockOk(bs, len, h)} :: h in bs ==> BlockOk(bs, len, h))
    && Apart(bs)
    && (forall h {:trigger Follows(bs, h)} :: h in bs && 0 < h ==> Follows(bs, h))
  }

  ghost predicate BlockOk(bs: Blocks, len: nat, h: nat)
    requires h in bs
  {
    var n := bs[h].size;
    && h % 2 == 0 && n % 2 == 0 && 2 <= n && h + n <= len
    && (h != 0 && h != len - 2 ==> 4 <= n)
    && (h != len - 2 ==> h + n in bs)
  }

  ghost predicate Apart(bs: Blocks) {
    forall g, h :: g in bs && h in bs && g < h ==> g + bs[g].size <= h
  }

  // Some block ends where h starts.
  ghost predicate Follows(bs: Blocks, h: nat) {
    exists g :: g in bs && g + bs[g].size == h
  }

  // Freed neighbours are always merged.
  ghost predicate NoFreeNeighbours(bs: Blocks) {
    forall g, h :: g in bs && h in bs && g + bs[g].size == h ==> bs[g].taken || bs[h].taken
  }

  function Marked(bs: Blocks, i: nat, taken: bool): Blocks
    requires i in bs
  {
    bs[i := Block(bs[i].size, taken)]
  }

  function Split(bs: Blocks, i: nat, n: nat): Blocks
    requires i in bs && n <= bs[i].size
  {
    bs[i := Block(n, true)][i + n := Block(bs[i].size - n, false)]
  }

  function Merged(bs: Blocks, a: nat, b: nat): Blocks
    requires a in bs && b in bs
  {
    (bs - {b})[a := Block(bs[a].size + bs[b].size, false)]
  }

  lemma MarkKeepsTiling(bs: Blocks, len: nat, i: nat, taken: bool)
    requires Tiling(bs, len) && i in bs && i != 0 && i != len - 2
    ensures Tiling(Marked(bs, i, taken), len)
  {
    var bs' := Marked(bs, i, taken);
    forall h {:trigger BlockOk(bs', len, h)} | h in bs' ensures BlockOk(bs', len, h) {
      assert BlockOk(bs, len, h);
    }
    forall h {:trigger Follows(bs', h)} | h in bs' && 0 < h ensures Follows(bs', h) {
      assert Follows(bs, h);
      var g :| g in bs && g + bs[g].size == h;
      assert g in bs' && g + bs'[g].size == h;
    }
  }

  lemma EvenSum(x: nat, y: nat)
    requires x % 2 == 0 && y % 2 == 0
    ensures (x + y) % 2 == 0
  {
  }

  lemma SplitFollows(bs: Blocks, i: nat, n: nat, h: nat)
    requires i in bs && 0 < n < bs[i].size && i + n !in bs && h in Split(bs, i, n)
    requires h != i + n ==> Follows(bs, h)
    ensures Follows(Split(bs, i, n), h)
  {
    var bs' := Split(bs, i, n);
    if h == i + n {
      assert i in bs' && i + bs'[i].size == h;
    } else {
      var g :| g in bs && g + bs[g].size == h;
      var g' := if g == i then i + n else g;
      assert g' in bs' && g' + bs'[g'].size == h;
    }
  }

  lemma SplitBlockOk(bs: Blocks, len: nat, i: nat, n: nat, h: nat)
    requires i in bs && i != 0 && i != len - 2 && BlockOk(bs, len, i)
    requires 4 <= n && n % 2 == 0 && n + 4 <= bs[i].size && i + n != len - 2
    requires h in Split(bs, i, n) && (h in bs && h != i + n ==> BlockOk(bs, len, h))
    ensures BlockOk(Split(bs, i, n), len, h)
  {
    var m := bs[i].size - n;
    EvenSum(i, n);
    EvenDifference(bs[i].size, n);
    if h == i + n {
      assert Split(bs, i, n)[h].size == m && h + m <= len;
    } else if h == i {
      assert Split(bs, i, n)[h].size == n && h + n <= len;
    } else {
      assert Split(bs, i, n)[h] == bs[h];
    }
  }

  lemma EvenDifference(a: nat, b: nat)
    requires a % 2 == 0 && b % 2 == 0 && b <= a
    ensures (a - b) % 2 == 0
  {
  }

  lemma SplitKeepsTiling(bs: Blocks, len: nat, i: nat, n: nat)
    requires Tiling(bs, len) && i in bs && i != 0 && i != len - 2
    requires 4 <= n && n % 2 == 0 && n + 4 <= bs[i].size
    ensures Tiling(Split(bs, i, n), len)
    ensures i + n !in bs
  {
    var bs' := Split(bs, i, n);
    assert BlockOk(bs, len, i);
    assert i + n !in bs;
    SplitApart(bs, len, i, n);
    forall h {:trigger BlockOk(bs', len, h)} | h in bs' ensures BlockOk(bs', len, h) {
      assert h in bs ==> BlockOk(bs, len, h);
      SplitBlockOk(bs, len, i, n, h);
    }
    hide BlockOk;
    hide Apart;
    forall h {:trigger Follows(bs', h)} | h in bs' && 0 < h ensures Follows(bs', h) {
      assert h != i + n ==> Follows(bs, h);
      SplitFollows(bs, i, n, h);
    }
    hide Follows;
  }

  lemma SplitApart(bs: Blocks, len: nat, i: nat, n: nat)
    requires Tiling(bs, len) && i in bs && n <= bs[i].size
    ensures Apart(Split(bs, i, n))
  {
    hide BlockOk;
  }

  lemma MergeApart(bs: Blocks, a: nat, b: nat)
    requires Apart(bs) && a in bs && b in bs && a < b && a + bs[a].size == b
    ensures Apart(Merged(bs, a, b))
  {
  }

  lemma MergeBlockOk(bs: Blocks, len: nat, a: nat, b: nat, h: nat)
    requires Tiling(bs, len) && a in bs && b in bs && a < b && a + bs[a].size == b
    requires a != 0 && b != len - 2 && h in Merged(bs, a, b)
    ensures BlockOk(Merged(bs, a, b), len, h)
  {
    assert BlockOk(bs, len, h) && BlockOk(bs, len, b);
    EvenSum(bs[h].size, bs[b].size);
    assert h < a ==> h + bs[h].size <= a;
  }

  lemma MergeFollows(bs: Blocks, a: nat, b: nat, h: nat)
    requires a in bs && b in bs && a < b && a + bs[a].size == b
    requires h in Merged(bs, a, b) && Follows(bs, h)
    ensures Follows(Merged(bs, a, b), h)
  {
    var bs' := Merged(bs, a, b);
    var g :| g in bs && g + bs[g].size == h;
    var g' := if g == b then a else g;
    assert g' in bs' && g' + bs'[g'].size == h;
  }

  lemma MergeKeepsTiling(bs: Blocks, len: nat, a: nat, b: nat)
    requires Tiling(bs, len) && a in bs && b in bs && a < b && a + bs[a].size == b
    requires a != 0 && b != len - 2
    ensures Tiling(Merged(bs, a, b), len)
  {
    var bs' := Merged(bs, a, b);
    MergeApart(bs, a, b);
    assert BlockOk(bs, len, b);
    forall h {:trigger BlockOk(bs', len, h)} | h in bs' ensures BlockOk(bs', len, h) {
      MergeBlockOk(bs, len, a, b, h);
    }
    forall h {:trigger Follows(bs', h)} | h in bs' && 0 < h ensures Follows(bs', h) {
      assert Follows(bs, h);
      MergeFollows(bs, a, b, h);
    }
    hide BlockOk;
    hide Follows;
    hide Apart;
  }

  // A word strictly inside one block is not the first or last word of any block.
  lemma InsideOne(bs: Blocks, len: nat, h: nat, k: nat, g: nat)
    requires Tiling(bs, len) && h in bs && g in bs && h < k < h + bs[h].size - 1
    ensures k != g && k != g + bs[g].size - 1
    ensures g < k < g + bs[g].size - 1 ==> g == h
  {
    assert BlockOk(bs, len, g);
    assert g < h || g == h || h < g;
  }

  lemma OnePredecessor(bs: Blocks, len: nat, g: nat, h: nat)
    requires Tiling(bs, len) && g in bs && h in bs && g + bs[g].size == h + bs[h].size
    ensures g == h
  {
    assert BlockOk(bs, len, g) && BlockOk(bs, len, h);
  }

  // What free() leaves: the block, joined with the free blocks on either side of it.
  function Left(bs: Blocks, i: nat, g: nat): (head: nat)
    requires i in bs && g in bs
  {
    if bs[g].taken then i else g
  }

  function JoinedSize(bs: Blocks, i: nat, g: nat, r: nat): nat
    requires i in bs && g in bs && r in bs
  {
    bs[i].size + (if bs[g].taken then 0 else bs[g].size) + (if bs[r].taken then 0 else bs[r].size)
  }

  function JoinedLeft(bs: Blocks, i: nat, g: nat): Blocks
    requires i in bs && g in bs && g != i
  {
    var bs1 := Marked(bs, i, false);
    if bs[g].taken then bs1 else Merged(bs1, g, i)
  }

  function Released(bs: Blocks, i: nat, g: nat, r: nat): Blocks
    requires i in bs && g in bs && r in bs && g < i < r
  {
    var bs2 := JoinedLeft(bs, i, g);
    if bs[r].taken then bs2 else Merged(bs2, Left(bs, i, g), r)
  }

  ghost predicate Around(bs: Blocks, i: nat, g: nat, r: nat) {
    i in bs && g in bs && r in bs && g < i < r && g + bs[g].size == i && i + bs[i].size == r
  }

  lemma ReleaseKeepsTiling(bs: Blocks, len: nat, i: nat, g: nat, r: nat)
    requires Tiling(bs, len) && Around(bs, i, g, r) && i != 0 && i != len - 2
    ensures Tiling(Released(bs, i, g, r), len)
  {
    var bs1 := Marked(bs, i, false);
    MarkKeepsTiling(bs, len, i, false);
    var bs2 := JoinedLeft(bs, i, g);
    if !bs[g].taken {
      MergeKeepsTiling(bs1, len, g, i);
    }
    if !bs[r].taken {
      MergeKeepsTiling(bs2, len, Left(bs, i, g), r);
    }
  }

  // The released block, and what it swallowed; everything else is as before.
  lemma ReleasedBlocks(bs: Blocks, len: nat, i: nat, g: nat, r: nat)
    requires Tiling(bs, len) && Around(bs, i, g, r)
    ensures var head := Left(bs, i, g);
      var n := JoinedSize(bs, i, g, r);
      && head in Released(bs, i, g, r) && Released(bs, i, g, r)[head] == Block(n, false)
      && (forall h :: h in Released(bs, i, g, r) && h != head ==>
        h in bs && Released(bs, i, g, r)[h] == bs[h] && h != i && (h == g ==> bs[g].taken) && (h == r ==> bs[r].taken))
      && (forall h :: h in bs && h != i && (h == g ==> bs[g].taken) && (h == r ==> bs[r].taken) ==>
        h in Released(bs, i, g, r))
  {
  }

  lemma ReleaseKeepsNeighbours(bs: Blocks, len: nat, i: nat, g: nat, r: nat)
    requires Tiling(bs, len) && NoFreeNeighbours(bs) && Around(bs, i, g, r) && i != 0 && i != len - 2
    ensures NoFreeNeighbours(Released(bs, i, g, r))
  {
    var bs' := Released(bs, i, g, r);
    var head := Left(bs, i, g);
    ReleasedBlocks(bs, len, i, g, r);
    hide Released;
    forall x, y | x in bs' && y in bs' && x + bs'[x].size == y
      ensures bs'[x].taken || bs'[y].taken
    {
      if x == head {
        assert y == if bs[r].taken then r else r + bs[r].size;
      } else if y == head && bs[g].taken {
        OnePredecessor(bs, len, x, g);
      }
    }
  }

  // Once every block between the sentinels is free there is only one.
  lemma AllFreeIsOne(bs: Blocks, len: nat)
    requires Tiling(bs, len) && NoFreeNeighbours(bs)
    requires forall h :: h in bs && h != 0 && h != len - 2 ==> !bs[h].taken
    ensures bs == map[0 := Block(2, true), 2 := Block(len - 4, false), len - 2 := Block(2, true)]
  {
    assert BlockOk(bs, len, 0);
    assert 2 in bs && BlockOk(bs, len, 2);
    var r := 2 + bs[2].size;
    assert r in bs && bs[r].taken;
    assert r == len - 2;
    forall h | h in bs ensures h == 0 || h == 2 || h == len - 2 {
      assert BlockOk(bs, len, h);
    }
  }
}

module FreeList {
  function First(fl: seq<nat>): nat { if fl == [] then 0 else fl[0] }

  function NextOf(fl: seq<nat>, k: nat): nat { if k + 1 < |fl| then fl[k + 1] else 0 }

  function PrevOf(fl: seq<nat>, k: nat): nat
    requires k <= |fl|
  {
    if 0 < k then fl[k - 1] else 0
  }

  // The blocks of the list have room for a header, two links and a footer each.
  ghost predicate Spaced(fl: seq<nat>, len: nat) {
    && (forall k :: 0 <= k < |fl| ==> 0 < fl[k] && fl[k] + 3 < len)
    && (forall j, k :: 0 <= j < |fl| && 0 <= k < |fl| && j != k ==> fl[j] + 3 < fl[k] || fl[k] + 3 < fl[j])
  }

  // A block holds its successor and its predecessor; 0 ends the list both ways.
  ghost predicate LinkedAt(m: seq<nat>, fl: seq<nat>, k: nat)
    requires k < |fl| && fl[k] + 3 < |m|
  {
    m[fl[k] + 1] == NextOf(fl, k) && m[fl[k] + 2] == PrevOf(fl, k)
  }

  ghost predicate Linked(m: seq<nat>, fl: seq<nat>)
    requires Spaced(fl, |m|)
  {
    forall k {:trigger LinkedAt(m, fl, k)} :: 0 <= k < |fl| ==> LinkedAt(m, fl, k)
  }

  ghost predicate ListOk(m: seq<nat>, fl: seq<nat>) {
    Spaced(fl, |m|) && Linked(m, fl)
  }

  lemma NoRepeats(fl: seq<nat>, len: nat, j: nat, k: nat)
    requires Spaced(fl, len) && j < k < |fl|
    ensures fl[j] != fl[k]
  {
  }

  lemma OneItem(fl: seq<nat>, len: nat, x: nat)
    requires Spaced(fl, len) && forall k :: 0 <= k < |fl| ==> fl[k] == x
    ensures |fl| <= 1
  {
    if 1 < |fl| {
      NoRepeats(fl, len, 0, 1);
    }
  }

  function Without(fl: seq<nat>, k: nat): seq<nat>
    requires k < |fl|
  {
    fl[..k] + fl[k + 1..]
  }

  // The memory after remove() of the k-th block of the list.
  function Unlinked(m: seq<nat>, p: nat, n: nat): seq<nat>
    requires p + 2 < |m| && n + 2 < |m|
  {
    var m1 := if p == 0 then m else m[p + 1 := n];
    if n == 0 then m1 else m1[n + 2 := p]
  }

  lemma UnlinkKeepsSpaced(fl: seq<nat>, len: nat, k: nat)
    requires Spaced(fl, len) && k < |fl|
    ensures Spaced(Without(fl, k), len)
  {
  }

  // remove() leaves the list without the k-th block, correctly linked both ways.
  lemma UnlinkKeepsList(m: seq<nat>, fl: seq<nat>, k: nat, p: nat, n: nat)
    requires ListOk(m, fl) && k < |fl| && p == PrevOf(fl, k) && n == NextOf(fl, k) && 2 < |m|
    ensures ListOk(Unlinked(m, p, n), Without(fl, k))
    ensures First(Without(fl, k)) == if p == 0 then n else First(fl)
  {
    UnlinkKeepsSpaced(fl, |m|, k);
    var fl', m' := Without(fl, k), Unlinked(m, p, n);
    forall j {:trigger LinkedAt(m', fl', j)} | 0 <= j < |fl'| ensures LinkedAt(m', fl', j) {
      var j0 := if j < k then j else j + 1;
      assert fl'[j] == fl[j0];
      assert LinkedAt(m, fl, j0);
    }
  }

  lemma UnlinkWrites(m: seq<nat>, fl: seq<nat>, k: nat, p: nat, n: nat, c: nat)
    requires ListOk(m, fl) && k < |fl| && p == PrevOf(fl, k) && n == NextOf(fl, k) && 2 < |m|
    requires c < |m| && Unlinked(m, p, n)[c] != m[c]
    ensures exists x :: x in fl && x < c < x + 3
  {
    if c == p + 1 {
      assert fl[k - 1] in fl && p < c < p + 3;
    } else {
      assert fl[k + 1] in fl && n < c < n + 3;
    }
  }

  lemma WithoutMembers(fl: seq<nat>, len: nat, k: nat)
    requires Spaced(fl, len) && k < |fl|
    ensures forall x :: x in Without(fl, k) <==> x in fl && x != fl[k]
  {
    forall x | x in fl && x != fl[k] ensures x in Without(fl, k) {
      var j :| 0 <= j < |fl| && fl[j] == x;
      assert Without(fl, k)[if j < k then j else j - 1] == x;
    }
  }

  // The memory after makeAvail(i, n).
  function Pushed(m: seq<nat>, first: nat, i: nat, n: nat): seq<nat>
    requires 4 <= n && i + n <= |m| && first + 2 < |m|
  {
    var m1 := m[i := n][i + n - 1 := n][i + 1 := first][i + 2 := 0];
    if first == 0 then m1 else m1[first + 2 := i]
  }

  // makeAvail() puts the block in front of the list.
  lemma PushKeepsList(m: seq<nat>, fl: seq<nat>, i: nat, n: nat)
    requires ListOk(m, fl) && 0 < i && 4 <= n && i + n <= |m|
    requires forall x :: x in fl ==> x + 3 < i || i + n <= x
    ensures First(fl) + 2 < |m| && ListOk(Pushed(m, First(fl), i, n), [i] + fl)
  {
    var fl', m' := [i] + fl, Pushed(m, First(fl), i, n);
    forall k | 0 <= k < |fl| ensures fl[k] + 3 < i || i + n <= fl[k] {
      assert fl[k] in fl;
    }
    assert Spaced(fl', |m|);
    forall j {:trigger LinkedAt(m', fl', j)} | 0 <= j < |fl'| ensures LinkedAt(m', fl', j) {
      if 0 < j {
        assert LinkedAt(m, fl, j - 1);
      }
    }
  }
}

module BoundaryTagHeap {
  import opened BlockTiling
  import opened FreeList

  const MAX_WORDS := 0x8000_0000  // free() keeps indices in an int
  const MAX_BYTES := 0xffff_ffff_ffff_fff8
  const PROBES := 20

  // A pointer into the heap array: &array[index], or null.
  datatype Pointer = Null | Word(index: nat)

  // The first and last word of the block carry its tag.
  ghost predicate TagsAt(m: seq<nat>, bs: Blocks, h: nat)
    requires h in bs
  {
    var n := bs[h].size;
    2 <= n && h + n <= |m| && m[h] == Tag(bs[h]) && m[h + n - 1] == Tag(bs[h])
  }

  ghost predicate AgreesExcept(m: seq<nat>, bs: Blocks, i: nat) {
    forall h {:trigger TagsAt(m, bs, h)} :: h in bs && h != i ==> TagsAt(m, bs, h)
  }

  ghost predicate Agrees(m: seq<nat>, bs: Blocks) {
    forall h {:trigger TagsAt(m, bs, h)} :: h in bs ==> TagsAt(m, bs, h)
  }

  // The list holds exactly the free blocks.
  ghost predicate Covers(fl: seq<nat>, bs: Blocks) {
    forall h :: h in fl <==> h in bs && !bs[h].taken
  }

  ghost predicate HeapOk(m: seq<nat>, first: nat, fl: seq<nat>, bs: Blocks) {
    && |m| < MAX_WORDS
    && Tiling(bs, |m|)
    && NoFreeNeighbours(bs)
    && Agrees(m, bs)
    && ListOk(m, fl)
    && Covers(fl, bs)
    && first == First(fl)
  }

  // The words of taken blocks other than their tags are as before.
  ghost predicate Kept(m: seq<nat>, m': seq<nat>, bs: Blocks) {
    |m'| == |m| &&
    forall h, k :: h in bs && bs[h].taken && h < k < h + bs[h].size - 1 && k < |m| ==> m'[k] == m[k]
  }

  ghost predicate InFree(bs: Blocks, c: nat) {
    exists h :: h in bs && !bs[h].taken && h <= c < h + bs[h].size
  }

  ghost predicate WritesIn(m: seq<nat>, m': seq<nat>, bs: Blocks) {
    |m'| == |m| && forall c {:trigger m'[c]} :: 0 <= c < |m| && m'[c] != m[c] ==> InFree(bs, c)
  }

  lemma WritesKeep(m: seq<nat>, m': seq<nat>, bs: Blocks)
    requires WritesIn(m, m', bs) && Apart(bs)
    ensures Kept(m, m', bs)
  {
  }

  function TakenAt(m: seq<nat>, i: nat, n: nat): seq<nat>
    requires 0 < n && i + n <= |m|
  {
    m[i := n + 1][i + n - 1 := n + 1]
  }

  function Entries(bytes: nat): nat {
    var wanted := (bytes + 7) / 8 + 2;
    var room := if wanted < 4 then 4 else wanted;
    if room % 2 == 1 then room + 1 else room
  }

  // A block of n words has room for so many bytes between its tags.
  predicate Holds(n: nat, bytes: nat) {
    n % 2 == 0 && 4 <= n && bytes <= 8 * (n - 2)
  }

  // malloc() asks for the smallest block with room, and a block is too small for it exactly
  // when it has no room.
  lemma LeastRoom(bytes: nat)
    ensures Holds(Entries(bytes), bytes)
    ensures forall n: nat :: n % 2 == 0 && 4 <= n ==> (n < Entries(bytes) <==> 8 * (n - 2) < bytes)
    ensures forall n: nat :: Holds(n, bytes) ==> Entries(bytes) <= n
  {
  }

  lemma Chained(m: seq<nat>, m1: seq<nat>, m2: seq<nat>, bs: Blocks)
    requires WritesIn(m, m1, bs) && WritesIn(m1, m2, bs)
    ensures WritesIn(m, m2, bs)
  {
    forall c {:trigger m2[c]} | 0 <= c < |m| && m2[c] != m[c] ensures InFree(bs, c) {
      assert m1[c] != m[c] || m2[c] != m1[c];
    }
  }

  // --- unlinking -----------------------------------------------------------

  lemma UnlinkKeepsTags(m: seq<nat>, fl: seq<nat>, bs: Blocks, k: nat, p: nat, n: nat, h: nat)
    requires Tiling(bs, |m|) && ListOk(m, fl) && k < |fl| && p == PrevOf(fl, k) && n == NextOf(fl, k)
    requires forall x :: x in fl ==> x in bs && !bs[x].taken && 4 <= bs[x].size
    requires h in bs && TagsAt(m, bs, h)
    ensures TagsAt(Unlinked(m, p, n), bs, h)
  {
    var m' := Unlinked(m, p, n);
    var e := h + bs[h].size - 1;
    forall x | x in fl ensures !(x < h < x + 3) && !(x < e < x + 3) {
      assert x < h || h <= x;
    }
    if m'[h] != m[h] {
      UnlinkWrites(m, fl, k, p, n, h);
    }
    if m'[e] != m[e] {
      UnlinkWrites(m, fl, k, p, n, e);
    }
  }

  lemma UnlinkWritesIn(m: seq<nat>, fl: seq<nat>, bs: Blocks, k: nat, p: nat, n: nat)
    requires ListOk(m, fl) && k < |fl| && p == PrevOf(fl, k) && n == NextOf(fl, k) && 2 < |m|
    requires forall x :: x in fl ==> x in bs && !bs[x].taken && 4 <= bs[x].size
    ensures WritesIn(m, Unlinked(m, p, n), bs)
  {
    var m' := Unlinked(m, p, n);
    forall c {:trigger m'[c]} | 0 <= c < |m| && m'[c] != m[c] ensures InFree(bs, c) {
      UnlinkWrites(m, fl, k, p, n, c);
    }
  }

  // --- pushing -------------------------------------------------------------

  lemma PushKeepsTags(m: seq<nat>, fl: seq<nat>, bs: Blocks, i: nat, h: nat)
    requires Tiling(bs, |m|) && ListOk(m, fl) && i in bs && !bs[i].taken && 4 <= bs[i].size && i + bs[i].size <= |m|
    requires First(fl) + 2 < |m|
    requires forall x :: x in fl ==> x in bs && !bs[x].taken && 4 <= bs[x].size && x != i
    requires h in bs && (h != i ==> TagsAt(m, bs, h))
    ensures TagsAt(Pushed(m, First(fl), i, bs[i].size), bs, h)
  {
    var first := First(fl);
    if first != 0 {
      InsideOne(bs, |m|, first, first + 2, h);
    }
    InsideOne(bs, |m|, i, i + 1, h);
    InsideOne(bs, |m|, i, i + 2, h);
    assert h < i || i < h || h == i;
  }

  lemma PushWritesIn(m: seq<nat>, fl: seq<nat>, bs: Blocks, i: nat, n: nat)
    requires First(fl) + 2 < |m| && 4 <= n && i + n <= |m|
    requires forall x :: x in fl ==> x in bs && !bs[x].taken && 4 <= bs[x].size
    requires forall c :: i <= c < i + n ==> InFree(bs, c)
    ensures WritesIn(m, Pushed(m, First(fl), i, n), bs)
  {
    var m' := Pushed(m, First(fl), i, n);
    forall c {:trigger m'[c]} | 0 <= c < |m| && m'[c] != m[c] ensures InFree(bs, c) {
      if !(i <= c < i + n) {
        assert First(fl) in fl;
      }
    }
  }

  // --- malloc --------------------------------------------------------------

  lemma FreeRoom(bs: Blocks, len: nat, h: nat)
    requires Tiling(bs, len) && h in bs && !bs[h].taken
    ensures 4 <= bs[h].size && 2 <= h && h + bs[h].size <= len - 2
  {
    assert BlockOk(bs, len, h) && BlockOk(bs, len, 0);
  }

  lemma SameLinks(m: seq<nat>, m': seq<nat>, fl: seq<nat>)
    requires ListOk(m, fl) && |m'| == |m|
    requires forall x :: x in fl && x + 2 < |m| ==> m'[x + 1] == m[x + 1] && m'[x + 2] == m[x + 2]
    ensures ListOk(m', fl)
  {
    forall k {:trigger LinkedAt(m', fl, k)} | 0 <= k < |fl| ensures LinkedAt(m', fl, k) {
      assert LinkedAt(m, fl, k) && fl[k] in fl;
    }
  }

  // remove() of the k-th block of the list: the list loses it and every tag stays.
  lemma Unlinking(m: seq<nat>, fl: seq<nat>, bs: Blocks, k: nat, m1: seq<nat>, fl1: seq<nat>)
    requires Tiling(bs, |m|) && Agrees(m, bs) && ListOk(m, fl) && k < |fl|
    requires forall x :: x in fl ==> x in bs && !bs[x].taken
    requires PrevOf(fl, k) + 2 < |m| && NextOf(fl, k) + 2 < |m|
    requires m1 == Unlinked(m, PrevOf(fl, k), NextOf(fl, k)) && fl1 == Without(fl, k)
    ensures ListOk(m1, fl1) && Agrees(m1, bs) && WritesIn(m, m1, bs)
    ensures forall x :: x in fl1 <==> x in fl && x != fl[k]
    ensures First(fl1) == if PrevOf(fl, k) == 0 then NextOf(fl, k) else First(fl)
  {
    var p, n := PrevOf(fl, k), NextOf(fl, k);
    forall x | x in fl ensures 4 <= bs[x].size {
      FreeRoom(bs, |m|, x);
    }
    UnlinkKeepsList(m, fl, k, p, n);
    UnlinkWritesIn(m, fl, bs, k, p, n);
    WithoutMembers(fl, |m|, k);
    hide ListOk;
    forall h {:trigger TagsAt(m1, bs, h)} | h in bs ensures TagsAt(m1, bs, h) {
      assert TagsAt(m, bs, h);
      UnlinkKeepsTags(m, fl, bs, k, p, n, h);
    }
  }

  lemma TakenAtWritesIn(m: seq<nat>, bs: Blocks, i: nat, n: nat)
    requires i in bs && !bs[i].taken && 0 < n <= bs[i].size && i + n <= |m|
    ensures WritesIn(m, TakenAt(m, i, n), bs)
  {
    var m' := TakenAt(m, i, n);
    forall c {:trigger m'[c]} | 0 <= c < |m| && m'[c] != m[c] ensures InFree(bs, c) {
      assert i <= c < i + bs[i].size;
    }
  }

  // makeTaken() at a block that is off the list leaves the list alone.
  lemma TakingKeepsList(m: seq<nat>, fl: seq<nat>, bs: Blocks, i: nat, n: nat)
    requires Tiling(bs, |m|) && ListOk(m, fl) && i in bs && !bs[i].taken && 0 < n <= bs[i].size && i + n <= |m|
    requires forall x :: x in fl ==> x in bs && !bs[x].taken && x != i
    ensures ListOk(TakenAt(m, i, n), fl)
  {
    forall x | x in fl ensures x + 3 < i || i + n <= x {
      FreeRoom(bs, |m|, x);
      assert x < i || i < x;
    }
    SameLinks(m, TakenAt(m, i, n), fl);
  }

  lemma OtherTags(m: seq<nat>, m': seq<nat>, bs: Blocks, bs': Blocks, i: nat, h: nat)
    requires Tiling(bs, |m|) && |m'| == |m| && i in bs && h in bs && h != i && TagsAt(m, bs, h)
    requires forall c :: 0 <= c < |m| && !(i <= c < i + bs[i].size) ==> m'[c] == m[c]
    requires h in bs' && bs'[h] == bs[h]
    ensures TagsAt(m', bs', h)
  {
    assert h < i || i < h;
  }

  lemma MarkedNeighbours(bs: Blocks, i: nat)
    requires NoFreeNeighbours(bs) && i in bs
    ensures NoFreeNeighbours(Marked(bs, i, true))
  {
  }

  // malloc() takes a whole block.
  lemma TakeWhole(m: seq<nat>, first: nat, fl: seq<nat>, bs: Blocks, k: nat, m1: seq<nat>, fl1: seq<nat>, m2: seq<nat>)
    requires HeapOk(m, first, fl, bs) && k < |fl| && fl[k] in bs && !bs[fl[k]].taken
    requires ListOk(m1, fl1) && Agrees(m1, bs) && WritesIn(m, m1, bs)
    requires forall x :: x in fl1 <==> x in bs && !bs[x].taken && x != fl[k]
    requires 0 < bs[fl[k]].size && fl[k] + bs[fl[k]].size <= |m|
    requires m2 == TakenAt(m1, fl[k], bs[fl[k]].size)
    ensures HeapOk(m2, First(fl1), fl1, Marked(bs, fl[k], true))
    ensures WritesIn(m, m2, bs)
  {
    var i := fl[k];
    var bs' := Marked(bs, i, true);
    FreeRoom(bs, |m|, i);
    MarkKeepsTiling(bs, |m|, i, true);
    MarkedNeighbours(bs, i);
    TakingKeepsList(m1, fl1, bs, i, bs[i].size);
    TakenAtWritesIn(m1, bs, i, bs[i].size);
    Chained(m, m1, m2, bs);
    hide WritesIn;
    hide ListOk;
    hide NoFreeNeighbours;
    TakenAgrees(m1, bs, i, m2);
    hide Tiling;
    hide Agrees;
    hide TagsAt;
    hide Marked;
  }

  lemma TakenAgrees(m: seq<nat>, bs: Blocks, i: nat, m': seq<nat>)
    requires Tiling(bs, |m|) && Agrees(m, bs) && i in bs && 0 < bs[i].size && i + bs[i].size <= |m|
    requires m' == TakenAt(m, i, bs[i].size)
    ensures Agrees(m', Marked(bs, i, true))
  {
    var bs' := Marked(bs, i, true);
    forall h {:trigger TagsAt(m', bs', h)} | h in bs' ensures TagsAt(m', bs', h) {
      assert TagsAt(m, bs, h);
      if h != i {
        OtherTags(m, m', bs, bs', i, h);
      }
    }
  }

  lemma SplitNeighbours(bs: Blocks, len: nat, i: nat, n: nat)
    requires Tiling(bs, len) && NoFreeNeighbours(bs) && i in bs && !bs[i].taken && 4 <= n && n + 4 <= bs[i].size
    ensures NoFreeNeighbours(Split(bs, i, n))
  {
    var bs' := Split(bs, i, n);
    forall x, y | x in bs' && y in bs' && x + bs'[x].size == y ensures bs'[x].taken || bs'[y].taken {
      if x == i + n {
        assert i + bs[i].size == y;
      }
    }
  }

  // malloc() takes the front of a block and puts the rest back.
  lemma TakeFront(m: seq<nat>, first: nat, fl: seq<nat>, bs: Blocks, i: nat, n: nat, m1: seq<nat>, fl1: seq<nat>, m2: seq<nat>, m3: seq<nat>)
    requires HeapOk(m, first, fl, bs) && i in bs && !bs[i].taken
    requires ListOk(m1, fl1) && Agrees(m1, bs) && WritesIn(m, m1, bs)
    requires forall x :: x in fl1 <==> x in bs && !bs[x].taken && x != i
    requires 4 <= n && n % 2 == 0 && n + 4 <= bs[i].size && i + bs[i].size <= |m|
    requires First(fl1) + 2 < |m|
    requires m2 == TakenAt(m1, i, n) && m3 == Pushed(m2, First(fl1), i + n, bs[i].size - n)
    ensures HeapOk(m3, i + n, [i + n] + fl1, Split(bs, i, n))
    ensures WritesIn(m, m3, bs)
  {
    hide Tiling;
    hide ListOk;
    hide Agrees;
    hide NoFreeNeighbours;
    hide InFree;
    hide Pushed;
    var bs', r, rest := Split(bs, i, n), i + n, bs[i].size - n;
    FreeRoom(bs, |m|, i);
    SplitKeepsTiling(bs, |m|, i, n);
    SplitNeighbours(bs, |m|, i, n);
    TakingKeepsList(m1, fl1, bs, i, n);
    TakenAtWritesIn(m1, bs, i, n);
    SplitListRoom(fl1, bs, |m|, i, n);
    PushKeepsList(m2, fl1, r, rest);
    PushWritesIn(m2, fl1, bs, r, rest);
    SplitTags(m1, fl1, bs, i, n, m2, m3);
    Chained(m, m1, m2, bs);
    Chained(m, m2, m3, bs);
    assert Covers([r] + fl1, bs');
  }

  lemma SplitListRoom(fl1: seq<nat>, bs: Blocks, len: nat, i: nat, n: nat)
    requires Tiling(bs, len) && i in bs && !bs[i].taken && 4 <= n && n + 4 <= bs[i].size
    requires forall x :: x in fl1 <==> x in bs && !bs[x].taken && x != i
    ensures forall x :: x in fl1 ==> x in bs && !bs[x].taken && 4 <= bs[x].size
    ensures forall x :: x in fl1 ==> x + 3 < i + n || i + bs[i].size <= x
    ensures forall c :: i <= c < i + bs[i].size ==> InFree(bs, c)
  {
    forall x | x in fl1 ensures 4 <= bs[x].size && (x + 3 < i + n || i + bs[i].size <= x) {
      FreeRoom(bs, len, x);
      assert x < i || i < x;
    }
  }

  lemma SplitTags(m1: seq<nat>, fl1: seq<nat>, bs: Blocks, i: nat, n: nat, m2: seq<nat>, m3: seq<nat>)
    requires Tiling(bs, |m1|) && i in bs && !bs[i].taken && Agrees(m1, bs)
    requires 4 <= n && n + 4 <= bs[i].size && i + bs[i].size <= |m1| && i + n !in bs
    requires Tiling(Split(bs, i, n), |m1|)
    requires First(fl1) + 2 < |m1|
    requires m2 == TakenAt(m1, i, n) && m3 == Pushed(m2, First(fl1), i + n, bs[i].size - n)
    requires ListOk(m2, fl1)
    requires forall x :: x in fl1 ==> x in bs && !bs[x].taken && 4 <= bs[x].size && x != i
    ensures Agrees(m3, Split(bs, i, n))
  {
    var bs', r := Split(bs, i, n), i + n;
    SplitOldTags(m1, bs, i, n, m2);
    SplitFree(fl1, bs, i, n);
    assert r in bs' && bs'[r] == Block(bs[i].size - n, false);
    hide Split;
    hide Agrees;
    PushTags(m2, fl1, bs', r, m3);
  }

  lemma SplitFree(fl1: seq<nat>, bs: Blocks, i: nat, n: nat)
    requires i in bs && n <= bs[i].size && i + n !in bs
    requires forall x :: x in fl1 ==> x in bs && !bs[x].taken && 4 <= bs[x].size && x != i
    ensures var bs' := Split(bs, i, n);
      forall x :: x in fl1 ==> x in bs' && !bs'[x].taken && 4 <= bs'[x].size && x != i + n
  {
  }

  lemma SplitOldTags(m1: seq<nat>, bs: Blocks, i: nat, n: nat, m2: seq<nat>)
    requires Tiling(bs, |m1|) && i in bs && Agrees(m1, bs)
    requires 4 <= n && n + 4 <= bs[i].size && i + bs[i].size <= |m1| && i + n !in bs
    requires m2 == TakenAt(m1, i, n)
    ensures AgreesExcept(m2, Split(bs, i, n), i + n)
  {
    var bs' := Split(bs, i, n);
    forall h {:trigger TagsAt(m2, bs', h)} | h in bs' && h != i + n ensures TagsAt(m2, bs', h) {
      if h != i {
        assert TagsAt(m1, bs, h);
        OtherTags(m1, m2, bs, bs', i, h);
      }
    }
  }

  // After makeAvail() every block carries its tags when all others did before.
  lemma PushTags(m: seq<nat>, fl: seq<nat>, bs: Blocks, i: nat, m': seq<nat>)
    requires Tiling(bs, |m|) && ListOk(m, fl) && i in bs && !bs[i].taken && 4 <= bs[i].size && i + bs[i].size <= |m|
    requires First(fl) + 2 < |m| && AgreesExcept(m, bs, i)
    requires forall x :: x in fl ==> x in bs && !bs[x].taken && 4 <= bs[x].size && x != i
    requires m' == Pushed(m, First(fl), i, bs[i].size)
    ensures Agrees(m', bs)
  {
    forall h {:trigger TagsAt(m', bs, h)} | h in bs ensures TagsAt(m', bs, h) {
      assert h != i ==> TagsAt(m, bs, h);
      PushKeepsTags(m, fl, bs, i, h);
    }
  }

  // --- free ----------------------------------------------------------------

  lemma JoinedWrites(bs: Blocks, i: nat, g: nat, r: nat, head: nat, n: nat)
    requires Around(bs, i, g, r) && head == Left(bs, i, g)
    requires n == JoinedSize(bs, i, g, r)
    ensures forall c :: head <= c < head + n ==> InFree(Marked(bs, i, false), c)
  {
    var bs' := Marked(bs, i, false);
    forall c | head <= c < head + n ensures InFree(bs', c) {
      var h := if c < i then g else if c < r then i else r;
      assert h in bs' && !bs'[h].taken && h <= c < h + bs'[h].size;
    }
  }

  // free() pushes the block joined with its free neighbours.
  lemma PutBack(m: seq<nat>, bs: Blocks, i: nat, g: nat, r: nat, m2: seq<nat>, fl2: seq<nat>, n: nat, m3: seq<nat>)
    requires |m| < MAX_WORDS && Tiling(bs, |m|) && NoFreeNeighbours(bs)
    requires Around(bs, i, g, r) && i != 0 && i != |m| - 2
    requires |m2| == |m| && WritesIn(m, m2, bs) && ListOk(m2, fl2) && Agrees(m2, bs) && bs[i].taken
    requires forall x :: x in fl2 <==> x in bs && !bs[x].taken && x != g && x != r
    requires n == JoinedSize(bs, i, g, r)
    requires 4 <= n && Left(bs, i, g) + n <= |m| && First(fl2) + 2 < |m|
    requires m3 == Pushed(m2, First(fl2), Left(bs, i, g), n)
    ensures HeapOk(m3, Left(bs, i, g), [Left(bs, i, g)] + fl2, Released(bs, i, g, r))
    ensures WritesIn(m, m3, Marked(bs, i, false))
  {
    hide NoFreeNeighbours;
    hide ListOk;
    hide Agrees;
    hide WritesIn;
    hide Pushed;
    hide Tiling;
    var head, bs' := Left(bs, i, g), Released(bs, i, g, r);
    ReleaseKeepsTiling(bs, |m|, i, g, r);
    ReleaseKeepsNeighbours(bs, |m|, i, g, r);
    ReleasedBlocks(bs, |m|, i, g, r);
    hide Released;
    ReleasedRoom(bs, |m|, i, g, r, fl2, bs', head);
    FreeRoom(bs', |m|, head);
    hide Left;
    PushKeepsList(m2, fl2, head, n);
    PutBackTags(m2, bs, bs', fl2, head, n, m3);
    PutBackWrites(m, bs, i, g, r, m2, fl2, head, n, m3);
    PutBackCovers(bs, i, g, r, fl2, bs', head);
    hide Covers;
  }

  lemma PutBackCovers(bs: Blocks, i: nat, g: nat, r: nat, fl2: seq<nat>, bs': Blocks, head: nat)
    requires i in bs && g in bs && r in bs && bs[i].taken && head in bs' && !bs'[head].taken
    requires forall h :: h in bs' && h != head ==>
      h in bs && bs'[h] == bs[h] && h != i && (h == g ==> bs[g].taken) && (h == r ==> bs[r].taken)
    requires forall x :: x in fl2 <==> x in bs && !bs[x].taken && x != g && x != r
    requires forall x :: x in fl2 ==> x in bs' && !bs'[x].taken
    ensures Covers([head] + fl2, bs')
  {
  }

  lemma PutBackWrites(m: seq<nat>, bs: Blocks, i: nat, g: nat, r: nat, m2: seq<nat>, fl2: seq<nat>, head: nat, n: nat, m3: seq<nat>)
    requires Around(bs, i, g, r) && bs[i].taken && head == Left(bs, i, g) && WritesIn(m, m2, bs)
    requires n == JoinedSize(bs, i, g, r)
    requires forall x :: x in fl2 ==> x in bs && !bs[x].taken && 4 <= bs[x].size && x != i
    requires 4 <= n && head + n <= |m2| && First(fl2) + 2 < |m2|
    requires m3 == Pushed(m2, First(fl2), head, n)
    ensures |m3| == |m2| && WritesIn(m, m3, Marked(bs, i, false))
  {
    var free := Marked(bs, i, false);
    JoinedWrites(bs, i, g, r, head, n);
    hide Left;
    PushWritesIn(m2, fl2, free, head, n);
    MoreFree(m, m2, bs, i);
    Chained(m, m2, m3, free);
  }

  lemma PutBackTags(m2: seq<nat>, bs: Blocks, bs': Blocks, fl2: seq<nat>, head: nat, n: nat, m3: seq<nat>)
    requires Tiling(bs', |m2|) && Agrees(m2, bs) && ListOk(m2, fl2)
    requires head in bs' && bs'[head] == Block(n, false) && 4 <= n && head + n <= |m2| && First(fl2) + 2 < |m2|
    requires forall h :: h in bs' && h != head ==> h in bs && bs'[h] == bs[h]
    requires forall x :: x in fl2 ==> x in bs' && !bs'[x].taken && 4 <= bs'[x].size && x != head
    requires m3 == Pushed(m2, First(fl2), head, n)
    ensures Agrees(m3, bs')
  {
    forall h {:trigger TagsAt(m2, bs', h)} | h in bs' && h != head ensures TagsAt(m2, bs', h) {
      assert TagsAt(m2, bs, h);
    }
    PushTags(m2, fl2, bs', head, m3);
  }

  lemma MoreFree(m: seq<nat>, m': seq<nat>, bs: Blocks, i: nat)
    requires WritesIn(m, m', bs) && i in bs
    ensures WritesIn(m, m', Marked(bs, i, false))
  {
    var bs' := Marked(bs, i, false);
    forall c {:trigger m'[c]} | 0 <= c < |m| && m'[c] != m[c] ensures InFree(bs', c) {
      var h :| h in bs && !bs[h].taken && h <= c < h + bs[h].size;
      assert h in bs' && !bs'[h].taken && h <= c < h + bs'[h].size;
    }
  }

  lemma ReleasedRoom(bs: Blocks, len: nat, i: nat, g: nat, r: nat, fl2: seq<nat>, bs': Blocks, head: nat)
    requires Tiling(bs, len) && Tiling(bs', len) && Around(bs, i, g, r) && bs[i].taken
    requires forall x :: x in fl2 <==> x in bs && !bs[x].taken && x != g && x != r
    requires head == Left(bs, i, g) && head in bs'
    requires forall h :: h in bs && h != i && (h == g ==> bs[g].taken) && (h == r ==> bs[r].taken) ==> h in bs'
    requires forall h :: h in bs' && h != head ==> h in bs && bs'[h] == bs[h]
    ensures forall x :: x in fl2 ==> x in bs && !bs[x].taken && 4 <= bs[x].size && x != i
    ensures forall x :: x in fl2 ==> x in bs' && !bs'[x].taken && bs'[x] == bs[x] && x != head
    ensures forall x :: x in fl2 ==> x + 3 < head || head + bs'[head].size <= x
  {
    forall x | x in fl2
      ensures 4 <= bs[x].size && x in bs' && x != head && bs'[x] == bs[x]
      ensures x + 3 < head || head + bs'[head].size <= x
    {
      FreeRoom(bs, len, x);
      assert x < head || head < x;
    }
  }

  // --- the search ----------------------------------------------------------

  // How many of the first n blocks of the list are big enough.
  ghost function Fits(fl: seq<nat>, bs: Blocks, entries: nat, n: nat): (c: nat)
    requires n <= |fl|
    ensures c <= n
    ensures c == 0 <==> forall j :: 0 <= j < n ==> !Fit(bs, entries, fl[j])
  {
    if n == 0 then 0 else Fits(fl, bs, entries, n - 1) + if Fit(bs, entries, fl[n - 1]) then 1 else 0
  }

  ghost predicate Fit(bs: Blocks, entries: nat, h: nat) {
    h in bs && entries <= bs[h].size
  }

  // The k-th block is the smallest, and the first of that size, of the fitting blocks
  // among the first n of the list.
  ghost predicate Best(fl: seq<nat>, bs: Blocks, entries: nat, n: nat, k: nat) {
    && k < n <= |fl| && Fit(bs, entries, fl[k])
    && (forall j :: 0 <= j < n && Fit(bs, entries, fl[j]) ==> bs[fl[k]].size <= bs[fl[j]].size)
    && (forall j :: 0 <= j < k && Fit(bs, entries, fl[j]) ==> bs[fl[k]].size < bs[fl[j]].size)
  }

  // malloc() looks no further than an exact fit or the twentieth fitting block.
  ghost predicate BestFit(fl: seq<nat>, bs: Blocks, entries: nat, k: nat) {
    exists n :: Best(fl, bs, entries, n, k) && Fits(fl, bs, entries, n) <= PROBES &&
      (n == |fl| || Fits(fl, bs, entries, n) == PROBES || bs[fl[k]].size == entries)
  }

  // The blocks after malloc() took block i.
  function Carved(bs: Blocks, i: nat, entries: nat): Blocks
    requires i in bs && entries <= bs[i].size
  {
    if 4 <= bs[i].size - entries then Split(bs, i, entries) else Marked(bs, i, true)
  }

  // The first address whose payloads are 16-byte aligned, and the whole words from there.
  function Aligned(start: nat): nat { (start + 8 + 15) / 16 * 16 - 8 }

  function Words(start: nat, bytes: nat): nat
    requires Aligned(start) - start <= bytes
  {
    (bytes - (Aligned(start) - start)) / 16 * 16 / 8
  }

  lemma InsideRange(start: nat, bytes: nat)
    requires Aligned(start) - start <= bytes
    ensures start <= Aligned(start) && Aligned(start) % 16 == 8 && Words(start, bytes) % 2 == 0
    ensures Aligned(start) + 8 * Words(start, bytes) <= start + bytes
    ensures Aligned(start) < start + 16 && start + bytes < Aligned(start) + 8 * Words(start, bytes) + 16
  {
  }

  class Heap {
    const mem: array<nat>
    const base: nat
    var avail: nat
    ghost var free: seq<nat>
    ghost var blocks: Blocks

    ghost predicate Valid()
      reads this, mem
    {
      HeapOk(mem[..], avail, free, blocks) && base % 16 == 8
    }

    // A block handed out and not yet freed.
    ghost predicate Live(i: nat)
      reads this
    {
      i in blocks && blocks[i].taken && i != 0 && i != mem.Length - 2
    }

    // The word of the size field without its low bit.
    function SizeOf(i: nat): nat
      requires i < mem.Length
      reads mem
    {
      mem[i] - mem[i] % 2
    }

    // heap::init over the given range of addresses.
    constructor Init(start: nat, bytes: nat)
      requires Aligned(start) - start <= bytes && 64 < 8 * Words(start, bytes) < MAX_WORDS
      ensures Valid() && fresh(mem)
      ensures start <= base < start + 16 && base + 8 * mem.Length <= start + bytes < base + 8 * mem.Length + 16
      ensures blocks == map[0 := Block(2, true), 2 := Block(mem.Length - 4, false), mem.Length - 2 := Block(2, true)]
    {
      InsideRange(start, bytes);
      hide Aligned;
      hide Words;
      hide HeapOk;
      var len := Words(start, bytes);
      base := Aligned(start);
      mem := new nat[len];
      avail := 2;
      free := [2];
      blocks := map[0 := Block(2, true), 2 := Block(len - 4, false), len - 2 := Block(2, true)];
      new;
      mem[0], mem[1] := 3, 3;
      mem[2], mem[len - 3] := len - 4, len - 4;
      mem[3], mem[4] := 0, 0;
      mem[len - 2], mem[len - 1] := 3, 3;
      InitialHeap(mem[..], len);
    }

    method Remove(i: nat, ghost k: nat)
      requires ListOk(mem[..], free) && k < |free| && free[k] == i && avail == First(free)
      requires 2 < mem.Length
      modifies mem, this`avail, this`free
      ensures PrevOf(old(free), k) + 2 < mem.Length && NextOf(old(free), k) + 2 < mem.Length
      ensures mem[..] == Unlinked(old(mem[..]), PrevOf(old(free), k), NextOf(old(free), k))
      ensures free == Without(old(free), k) && avail == First(free)
    {
      assert LinkedAt(mem[..], free, k);
      UnlinkKeepsList(mem[..], free, k, PrevOf(free, k), NextOf(free, k));
      var prevIndex := mem[i + 2];
      var nextIndex := mem[i + 1];
      if prevIndex == 0 {
        avail := nextIndex;
      } else {
        mem[prevIndex + 1] := nextIndex;
      }
      if nextIndex != 0 {
        mem[nextIndex + 2] := prevIndex;
      }
      free := Without(free, k);
    }

    method MakeAvail(i: nat, n: nat)
      requires 4 <= n && n % 2 == 0 && i + n <= mem.Length && avail + 2 < mem.Length
      modifies mem, this`avail, this`free
      ensures mem[..] == Pushed(old(mem[..]), old(avail), i, n)
      ensures avail == i && free == [i] + old(free)
    {
      mem[i] := n;
      mem[i + n - 1] := n;
      mem[i + 1] := avail;
      mem[i + 2] := 0;
      if avail != 0 {
        mem[avail + 2] := i;
      }
      avail := i;
      free := [i] + free;
    }

    method MakeTaken(i: nat, n: nat)
      requires 0 < n && n % 2 == 0 && i + n <= mem.Length
      modifies mem
      ensures mem[..] == TakenAt(old(mem[..]), i, n)
    {
      mem[i] := n + 1;
      mem[i + n - 1] := n + 1;
    }

    // The best-fit search of malloc(): 0 when no free block is big enough.
    method Search(entries: nat) returns (it: nat, mx: nat, ghost at: nat)
      requires Valid() && 0 < entries <= NO_SIZE
      ensures it == 0 <==> forall h :: h in blocks && !blocks[h].taken ==> blocks[h].size < entries
      ensures it != 0 ==> at < |free| && free[at] == it && it in blocks && blocks[it].size == mx
      ensures it != 0 ==> entries <= mx && BestFit(free, blocks, entries, at)
    {
      hide HeapOk;
      hide Best;
      hide Fit;
      hide Fits;
      mx := NO_SIZE;
      it, at := 0, 0;
      var countDown := PROBES;
      var p := avail;
      ghost var k := 0;
      StartOfList(mem[..], avail, free, blocks, entries);
      while p != 0
        invariant k <= |free| && p == (if k < |free| then free[k] else 0)
        invariant p == 0 ==> k == |free|
        invariant 1 <= countDown <= PROBES && Fits(free, blocks, entries, k) == PROBES - countDown
        invariant Chosen(free, blocks, entries, k, it, mx, at)
        decreases |free| - k
      {
        FreeBlockTag(mem[..], avail, free, blocks, k);
        assert mem[p] % 2 == 0;
        var sz := SizeOf(p);
        ChooseNext(free, blocks, entries, k, it, mx, at);
        k := k + 1;
        if entries <= sz {
          if sz < mx {
            mx := sz;
            it, at := p, k - 1;
          }
          countDown := countDown - 1;
          if countDown == 0 || sz == entries {
            break;
          }
        }
        p := mem[p + 1];
      }
      EndOfSearch(mem[..], avail, free, blocks, entries, k, it, mx, at);
    }

    // malloc: null exactly when no free block is big enough; otherwise the payload of
    // the best fitting block found, and no live payload is written.
    method Malloc(bytes: nat) returns (res: Pointer)
      requires Valid() && bytes <= MAX_BYTES
      modifies mem, this`avail, this`free, this`blocks
      ensures Valid() && Kept(old(mem[..]), mem[..], old(blocks))
      ensures bytes == 0 ==> res == Word(0)
      ensures bytes != 0 ==>
        (res == Null <==> forall h :: h in old(blocks) && !old(blocks)[h].taken ==> 8 * (old(blocks)[h].size - 2) < bytes)
      ensures bytes == 0 || res == Null ==> blocks == old(blocks) && mem[..] == old(mem[..])
      ensures bytes != 0 && res != Null ==> Taken(old(free), old(blocks), blocks, bytes, res)
    {
      hide HeapOk;
      hide Kept;
      hide BestFit;
      ValidTiling(mem[..], avail, free, blocks);
      hide Tiling;
      WritesKeep(mem[..], mem[..], blocks);
      if bytes == 0 {
        return Word(0);
      }
      var entries := (bytes + 7) / 8 + 2;
      if entries < 4 {
        entries := 4;
      }
      if entries % 2 == 1 {
        entries := entries + 1;
      }
      res := Null;
      var it, mx, at := Search(entries);
      TooSmall(mem[..], avail, free, blocks, bytes);
      if it != 0 {
        Carve(it, mx, entries, at);
        res := Word(it + 1);
        assert Granted(old(free), old(blocks), bytes, res, at);
      }
    }

    // The end of malloc(): take the block off the list, and put back what is left of
    // it when that can be a block.
    method Carve(it: nat, mx: nat, entries: nat, ghost at: nat)
      requires Valid() && at < |free| && free[at] == it && it in blocks && blocks[it].size == mx
      requires 4 <= entries <= mx && entries % 2 == 0
      modifies mem, this`avail, this`free, this`blocks
      ensures Valid() && Kept(old(mem[..]), mem[..], old(blocks))
      ensures blocks == Carved(old(blocks), it, entries)
    {
      hide HeapOk;
      hide Unlinked;
      hide Pushed;
      hide Agrees;
      hide ListOk;
      hide Kept;
      ghost var m, first, fl, bs := mem[..], avail, free, blocks;
      FreeBlockTag(m, first, fl, bs, at);
      ListFacts(m, first, fl, bs, at);
      Remove(it, at);
      ghost var m1, fl1 := mem[..], free;
      Unlinking(m, fl, bs, at, m1, fl1);
      var extra := mx - entries;
      if 4 <= extra {
        MakeTaken(it, entries);
        ghost var m2 := mem[..];
        MakeAvail(it + entries, extra);
        TakeFront(m, first, fl, bs, it, entries, m1, fl1, m2, mem[..]);
      } else {
        MakeTaken(it, mx);
        TakeWhole(m, first, fl, bs, at, m1, fl1, mem[..]);
      }
      blocks := Carved(bs, it, entries);
      WritesKeep(m, mem[..], bs);
    }

    // left() and right(): the neighbours of a block, found through the tags.
    method Neighbours(i: nat) returns (left: nat, right: nat)
      requires Valid() && Live(i)
      ensures Around(blocks, i, left, right)
    {
      NeighbourTags(mem[..], avail, free, blocks, i);
      left := i - 1 - SizeOf(i - 1) + 1;
      right := i + SizeOf(i);
    }

    // free: the block joins the free blocks next to it, and no other payload is written.
    method Free(p: Pointer)
      requires Valid() && (p == Null || p == Word(0) || (0 < p.index && Live(p.index - 1)))
      modifies mem, this`avail, this`free, this`blocks
      ensures Valid()
      ensures p == Null || p == Word(0) ==> blocks == old(blocks) && mem[..] == old(mem[..])
      ensures p != Null && p != Word(0) ==>
        Kept(old(mem[..]), mem[..], old(blocks) - {p.index - 1}) && Freed(old(blocks), blocks, p.index - 1)
    {
      if p == Null || p == Word(0) {
        return;
      }
      Release(p.index - 1);
    }

    method Release(i: nat)
      requires Valid() && Live(i)
      modifies mem, this`avail, this`free, this`blocks
      ensures Valid()
      ensures Kept(old(mem[..]), mem[..], old(blocks) - {i}) && Freed(old(blocks), blocks, i)
    {
      hide HeapOk;
      hide Kept;
      hide ListOk;
      hide Agrees;
      hide Pushed;
      hide Tiling;
      hide NoFreeNeighbours;
      hide WritesIn;
      hide Released;
      hide JoinedSize;
      hide Left;
      hide Freed;
      hide Apart;
      var leftIndex, rightIndex := Neighbours(i);
      ghost var m, bs := mem[..], blocks;
      ReleaseFacts(m, avail, free, bs, i, leftIndex, rightIndex);
      var idx, sz := Join(i, leftIndex, rightIndex);
      PushJoined(m, i, leftIndex, rightIndex, idx, sz);
      FreedBy(bs, i, leftIndex, rightIndex);
    }

    // The middle of free(): the available neighbours leave the list and join the block.
    method Join(i: nat, leftIndex: nat, rightIndex: nat) returns (idx: nat, sz: nat)
      requires Tiling(blocks, mem.Length) && Agrees(mem[..], blocks) && ListOk(mem[..], free) && avail == First(free)
      requires Around(blocks, i, leftIndex, rightIndex) && i < mem.Length && SizeOf(i) == blocks[i].size
      requires forall x :: x in free <==> x in blocks && !blocks[x].taken
      modifies mem, this`avail, this`free
      ensures WritesIn(old(mem[..]), mem[..], blocks) && ListOk(mem[..], free) && Agrees(mem[..], blocks)
      ensures avail == First(free) && avail + 2 < mem.Length
      ensures forall x :: x in free <==> x in blocks && !blocks[x].taken && x != leftIndex && x != rightIndex
      ensures idx == Left(blocks, i, leftIndex) && sz == JoinedSize(blocks, i, leftIndex, rightIndex)
    {
      hide ListOk;
      hide Agrees;
      hide Tiling;
      hide WritesIn;
      ghost var m, bs := mem[..], blocks;
      idx, sz := i, SizeOf(i);
      var joinLeft, leftSize := Absorb(leftIndex);
      if joinLeft {
        idx := leftIndex;
        sz := sz + leftSize;
      }
      ghost var m1 := mem[..];
      var joinRight, rightSize := Absorb(rightIndex);
      if joinRight {
        sz := sz + rightSize;
      }
      Chained(m, m1, mem[..], bs);
      FirstInRange(free, bs, |m|);
    }

    // The end of free(): the joined block goes on the list.
    method PushJoined(ghost m: seq<nat>, i: nat, ghost g: nat, ghost r: nat, idx: nat, sz: nat)
      requires |m| == mem.Length < MAX_WORDS && base % 16 == 8
      requires Tiling(blocks, |m|) && NoFreeNeighbours(blocks) && Apart(blocks)
      requires Around(blocks, i, g, r) && i != 0 && i != |m| - 2 && blocks[i].taken
      requires WritesIn(m, mem[..], blocks) && ListOk(mem[..], free) && Agrees(mem[..], blocks) && avail == First(free)
      requires forall x :: x in free <==> x in blocks && !blocks[x].taken && x != g && x != r
      requires idx == Left(blocks, i, g)
      requires sz == JoinedSize(blocks, i, g, r)
      requires 4 <= sz && sz % 2 == 0 && idx + sz <= |m| && avail + 2 < |m|
      modifies mem, this`avail, this`free, this`blocks
      ensures Valid() && blocks == Released(old(blocks), i, g, r) && Kept(m, mem[..], old(blocks) - {i})
    {
      hide HeapOk;
      hide Kept;
      hide ListOk;
      hide Agrees;
      hide Pushed;
      hide Tiling;
      hide NoFreeNeighbours;
      hide WritesIn;
      hide Released;
      hide Apart;
      hide Left;
      ghost var m2, fl2, bs := mem[..], free, blocks;
      MakeAvail(idx, sz);
      PutBack(m, bs, i, g, r, m2, fl2, sz, mem[..]);
      blocks := Released(bs, i, g, r);
      OthersKept(m, mem[..], bs, i);
    }

    // What free() does on either side: an available neighbour leaves the list.
    method Absorb(h: nat) returns (available: bool, size: nat)
      requires Tiling(blocks, mem.Length) && Agrees(mem[..], blocks) && ListOk(mem[..], free) && avail == First(free)
      requires h in blocks && forall x :: x in free ==> x in blocks && !blocks[x].taken
      requires !blocks[h].taken ==> h in free
      modifies mem, this`avail, this`free
      ensures Agrees(mem[..], blocks) && ListOk(mem[..], free) && avail == First(free)
      ensures forall x :: x in free <==> x in old(free) && x != h
      ensures WritesIn(old(mem[..]), mem[..], blocks)
      ensures available == !blocks[h].taken && (available ==> size == blocks[h].size)
    {
      hide ListOk;
      ghost var m, fl := mem[..], free;
      SameTag(m, blocks, h);
      available, size := mem[h] % 2 == 0, 0;
      if available {
        FreeRoom(blocks, |m|, h);
        ghost var k :| 0 <= k < |free| && free[k] == h;
        Remove(h, k);
        Unlinking(m, fl, blocks, k, mem[..], free);
        assert TagsAt(mem[..], blocks, h) && BlockOk(blocks, |m|, h);
        size := SizeOf(h);
      }
    }
  }

  const NO_SIZE := 0xffff_ffff_ffff_ffff

  // What the search holds after k blocks of the list.
  ghost predicate Chosen(fl: seq<nat>, bs: Blocks, entries: nat, k: nat, it: nat, mx: nat, at: nat)
    requires k <= |fl|
  {
    if it == 0 then Fits(fl, bs, entries, k) == 0 && mx == NO_SIZE
    else Best(fl, bs, entries, k, at) && it == fl[at] && mx == bs[it].size
  }

  lemma StartOfList(m: seq<nat>, first: nat, fl: seq<nat>, bs: Blocks, entries: nat)
    requires HeapOk(m, first, fl, bs)
    ensures first == First(fl) && (fl != [] ==> 0 < first)
    ensures Fits(fl, bs, entries, 0) == 0
  {
  }

  lemma ChooseNext(fl: seq<nat>, bs: Blocks, entries: nat, k: nat, it: nat, mx: nat, at: nat)
    requires k < |fl| && fl[k] in bs && 0 < fl[k] && bs[fl[k]].size < NO_SIZE && entries <= NO_SIZE
    requires Chosen(fl, bs, entries, k, it, mx, at)
    ensures entries <= mx
    ensures var sz := bs[fl[k]].size;
      && (entries <= sz < mx ==> Chosen(fl, bs, entries, k + 1, fl[k], sz, k))
      && (!(entries <= sz < mx) ==> Chosen(fl, bs, entries, k + 1, it, mx, at))
      && Fits(fl, bs, entries, k + 1) == Fits(fl, bs, entries, k) + if entries <= sz then 1 else 0
  {
  }

  lemma EndOfSearch(m: seq<nat>, first: nat, fl: seq<nat>, bs: Blocks, entries: nat, k: nat, it: nat, mx: nat, at: nat)
    requires HeapOk(m, first, fl, bs) && k <= |fl| && Chosen(fl, bs, entries, k, it, mx, at)
    requires Fits(fl, bs, entries, k) <= PROBES
    requires k == |fl| || Fits(fl, bs, entries, k) == PROBES || (it != 0 && mx == entries)
    ensures it == 0 <==> forall h :: h in bs && !bs[h].taken ==> bs[h].size < entries
    ensures it != 0 ==> at < |fl| && fl[at] == it && it in bs && bs[it].size == mx
    ensures it != 0 ==> entries <= mx && BestFit(fl, bs, entries, at)
  {
    if it == 0 {
      NoneFits(fl, bs, entries);
    } else {
      assert it in fl && Fit(bs, entries, it);
    }
  }

  // res points just behind the header of the best fit, which is on the free list.
  ghost predicate Granted(fl: seq<nat>, bs: Blocks, bytes: nat, res: Pointer, k: nat) {
    k < |fl| && Fit(bs, Entries(bytes), fl[k]) && BestFit(fl, bs, Entries(bytes), k) && res == Word(fl[k] + 1)
  }

  ghost predicate Taken(fl: seq<nat>, bs: Blocks, bs': Blocks, bytes: nat, res: Pointer) {
    exists k: nat {:trigger Granted(fl, bs, bytes, res, k)} ::
      Granted(fl, bs, bytes, res, k) && bs' == Carved(bs, fl[k], Entries(bytes))
  }

  ghost predicate Freed(bs: Blocks, bs': Blocks, i: nat) {
    exists g, r :: Around(bs, i, g, r) && bs' == Released(bs, i, g, r)
  }

  lemma ListFacts(m: seq<nat>, first: nat, fl: seq<nat>, bs: Blocks, k: nat)
    requires HeapOk(m, first, fl, bs) && k < |fl| && fl[k] in bs
    ensures Tiling(bs, |m|) && Apart(bs) && Agrees(m, bs) && ListOk(m, fl) && first == First(fl) && 10 <= |m|
    ensures forall x :: x in fl <==> x in bs && !bs[x].taken
    ensures fl[k] + bs[fl[k]].size <= |m| && First(fl) + 2 < |m|
  {
    assert fl[k] in fl;
    FreeRoom(bs, |m|, fl[k]);
  }

  lemma ValidTiling(m: seq<nat>, first: nat, fl: seq<nat>, bs: Blocks)
    requires HeapOk(m, first, fl, bs)
    ensures Tiling(bs, |m|) && Apart(bs)
  {
  }

  lemma FreedBy(bs: Blocks, i: nat, g: nat, r: nat)
    requires Around(bs, i, g, r)
    ensures Freed(bs, Released(bs, i, g, r), i)
  {
  }

  lemma SameTag(m: seq<nat>, bs: Blocks, h: nat)
    requires Tiling(bs, |m|) && Agrees(m, bs) && h in bs
    ensures h + bs[h].size <= |m| && h < |m| && (m[h] % 2 == 0 <==> !bs[h].taken)
  {
    assert TagsAt(m, bs, h) && BlockOk(bs, |m|, h);
  }

  lemma FirstInRange(fl: seq<nat>, bs: Blocks, len: nat)
    requires Tiling(bs, len) && forall x :: x in fl ==> x in bs && !bs[x].taken
    ensures First(fl) + 2 < len
  {
    if fl != [] {
      assert fl[0] in fl;
      FreeRoom(bs, len, fl[0]);
    }
  }

  // What free() knows about the block and its neighbours.
  lemma ReleaseFacts(m: seq<nat>, first: nat, fl: seq<nat>, bs: Blocks, i: nat, g: nat, r: nat)
    requires HeapOk(m, first, fl, bs) && Around(bs, i, g, r) && bs[i].taken && i != 0 && i != |m| - 2
    ensures Tiling(bs, |m|) && NoFreeNeighbours(bs) && Agrees(m, bs) && ListOk(m, fl) && first == First(fl)
    ensures |m| < MAX_WORDS && WritesIn(m, m, bs) && Apart(bs)
    ensures forall x :: x in fl <==> x in bs && !bs[x].taken
    ensures i < |m| && m[i] == bs[i].size + 1 && bs[i].size % 2 == 0
    ensures var n := JoinedSize(bs, i, g, r); 4 <= n && n % 2 == 0 && Left(bs, i, g) + n <= |m|
  {
    assert TagsAt(m, bs, i);
    JoinedRoom(bs, |m|, i, g, r);
  }

  lemma JoinedRoom(bs: Blocks, len: nat, i: nat, g: nat, r: nat)
    requires Tiling(bs, len) && Around(bs, i, g, r) && i != 0 && i != len - 2
    ensures var n := JoinedSize(bs, i, g, r); 4 <= n && n % 2 == 0 && Left(bs, i, g) + n <= len
    ensures bs[i].size % 2 == 0 && i < len
  {
    assert BlockOk(bs, len, i) && BlockOk(bs, len, g) && BlockOk(bs, len, r);
    hide Tiling;
    EvenSums(bs[i].size, bs[g].size, bs[r].size);
  }

  lemma EvenSums(x: nat, y: nat, z: nat)
    requires x % 2 == 0 && y % 2 == 0 && z % 2 == 0
    ensures (x + y) % 2 == 0 && (x + z) % 2 == 0 && (x + y + z) % 2 == 0
  {
  }

  lemma OthersKept(m: seq<nat>, m': seq<nat>, bs: Blocks, i: nat)
    requires Apart(bs) && i in bs && WritesIn(m, m', Marked(bs, i, false))
    ensures Kept(m, m', bs - {i})
  {
  }

  lemma TagSize(b: Block)
    requires b.size % 2 == 0
    ensures Tag(b) - Tag(b) % 2 == b.size
  {
  }

  lemma NeighbourTags(m: seq<nat>, first: nat, fl: seq<nat>, bs: Blocks, i: nat)
    requires HeapOk(m, first, fl, bs) && i in bs && i != 0 && i != |m| - 2 && bs[i].taken
    ensures 2 <= i < |m| && m[i] == bs[i].size + 1 && bs[i].size % 2 == 0
    ensures var n := m[i - 1] - m[i - 1] % 2; n <= i && Around(bs, i, i - n, i + bs[i].size)
  {
    assert BlockOk(bs, |m|, i) && TagsAt(m, bs, i) && Follows(bs, i);
    var g :| g in bs && g + bs[g].size == i;
    assert TagsAt(m, bs, g) && BlockOk(bs, |m|, g);
    TagSize(bs[g]);
  }

  lemma FreeBlockTag(m: seq<nat>, first: nat, fl: seq<nat>, bs: Blocks, k: nat)
    requires HeapOk(m, first, fl, bs) && k < |fl|
    ensures fl[k] in bs && !bs[fl[k]].taken && 0 < fl[k] && fl[k] + 3 < |m| && bs[fl[k]].size < MAX_WORDS
    ensures m[fl[k]] == bs[fl[k]].size && bs[fl[k]].size % 2 == 0
    ensures m[fl[k] + 1] == NextOf(fl, k)
    ensures k + 1 < |fl| ==> 0 < fl[k + 1]
  {
    assert fl[k] in fl;
    assert TagsAt(m, bs, fl[k]) && BlockOk(bs, |m|, fl[k]) && LinkedAt(m, fl, k);
  }

  lemma NoneFits(fl: seq<nat>, bs: Blocks, entries: nat)
    requires Covers(fl, bs) && Fits(fl, bs, entries, |fl|) == 0
    ensures forall h :: h in bs && !bs[h].taken ==> bs[h].size < entries
  {
    forall h | h in bs && !bs[h].taken ensures bs[h].size < entries {
      assert h in fl;
      var j :| 0 <= j < |fl| && fl[j] == h;
      assert !Fit(bs, entries, fl[j]);
    }
  }

  lemma InitialTiling(len: nat, bs: Blocks)
    requires len % 2 == 0 && 10 <= len
    requires bs == map[0 := Block(2, true), 2 := Block(len - 4, false), len - 2 := Block(2, true)]
    ensures Tiling(bs, len) && NoFreeNeighbours(bs)
  {
    assert Follows(bs, 2) by { assert 0 in bs && 0 + bs[0].size == 2; }
    assert Follows(bs, len - 2) by { assert 2 in bs && 2 + bs[2].size == len - 2; }
    hide Follows;
    forall h {:trigger BlockOk(bs, len, h)} | h in bs ensures BlockOk(bs, len, h) {
    }
    assert Apart(bs);
  }

  lemma InitialHeap(m: seq<nat>, len: nat)
    requires |m| == len && len % 2 == 0 && 10 <= len < MAX_WORDS
    requires m[0] == 3 && m[1] == 3 && m[2] == len - 4 && m[len - 3] == len - 4
    requires m[3] == 0 && m[4] == 0 && m[len - 2] == 3 && m[len - 1] == 3
    ensures HeapOk(m, 2, [2], map[0 := Block(2, true), 2 := Block(len - 4, false), len - 2 := Block(2, true)])
  {
    var bs := map[0 := Block(2, true), 2 := Block(len - 4, false), len - 2 := Block(2, true)];
    InitialTiling(len, bs);
    hide Tiling;
    hide NoFreeNeighbours;
    assert LinkedAt(m, [2], 0);
  }

  // --- what callers rely on ------------------------------------------------

  // The blocks handed out and not yet freed.
  ghost function LiveBlocks(bs: Blocks, len: nat): map<nat, nat> {
    map h | h in bs && bs[h].taken && h != 0 && h != len - 2 :: bs[h].size
  }

  lemma CarveAddsOne(bs: Blocks, len: nat, i: nat, entries: nat)
    requires Tiling(bs, len) && i in bs && !bs[i].taken && 4 <= entries <= bs[i].size && entries % 2 == 0
    ensures var bs' := Carved(bs, i, entries);
      i in bs' && LiveBlocks(bs', len) == LiveBlocks(bs, len)[i := bs'[i].size] && entries <= bs'[i].size < entries + 4
  {
    FreeRoom(bs, len, i);
    assert i != 0 && i != len - 2;
    if 4 <= bs[i].size - entries {
      SplitKeepsTiling(bs, len, i, entries);
      hide Tiling;
      SplitAddsOne(bs, len, i, entries);
    } else {
      hide Tiling;
      MarkAddsOne(bs, len, i);
    }
    hide LiveBlocks;
  }

  lemma SplitAddsOne(bs: Blocks, len: nat, i: nat, n: nat)
    requires i in bs && i != 0 && i != len - 2 && 0 < n <= bs[i].size && i + n !in bs
    ensures LiveBlocks(Split(bs, i, n), len) == LiveBlocks(bs, len)[i := n]
  {
  }

  lemma MarkAddsOne(bs: Blocks, len: nat, i: nat)
    requires i in bs && i != 0 && i != len - 2
    ensures LiveBlocks(Marked(bs, i, true), len) == LiveBlocks(bs, len)[i := bs[i].size]
  {
  }

  // malloc() adds one live block, of the size asked for up to rounding, and frees, moves
  // or resizes no other.
  lemma MallocAddsOne(fl: seq<nat>, bs: Blocks, len: nat, bs': Blocks, bytes: nat, res: Pointer)
    requires Tiling(bs, len) && Covers(fl, bs) && Taken(fl, bs, bs', bytes, res)
    ensures res.Word? && 0 < res.index && res.index - 1 in bs' && res.index - 1 !in LiveBlocks(bs, len)
    ensures LiveBlocks(bs', len) == LiveBlocks(bs, len)[res.index - 1 := bs'[res.index - 1].size]
    ensures Holds(bs'[res.index - 1].size, bytes)
    ensures forall n: nat :: Holds(n, bytes) ==> bs'[res.index - 1].size <= n + 2
  {
    hide BestFit;
    var k: nat :| Granted(fl, bs, bytes, res, k) && bs' == Carved(bs, fl[k], Entries(bytes));
    assert fl[k] in fl && BlockOk(bs, len, fl[k]);
    hide Tiling;
    hide LiveBlocks;
    EvenRoom(bytes);
    hide Entries;
    CarveAddsOne(bs, len, fl[k], Entries(bytes));
    LittleSurplus(bs'[fl[k]].size, bytes);
    hide Holds;
    NotLive(bs, len, fl[k]);
  }

  lemma EvenRoom(bytes: nat)
    ensures Entries(bytes) % 2 == 0 && 4 <= Entries(bytes)
  {
  }

  lemma LittleSurplus(n: nat, bytes: nat)
    requires n % 2 == 0 && Entries(bytes) <= n < Entries(bytes) + 4
    ensures Holds(n, bytes) && forall m: nat :: Holds(m, bytes) ==> n <= m + 2
  {
    LeastRoom(bytes);
  }

  lemma NotLive(bs: Blocks, len: nat, i: nat)
    requires i in bs && !bs[i].taken
    ensures i !in LiveBlocks(bs, len)
  {
  }

  // free() removes that live block and changes no other.
  lemma FreeRemovesOne(bs: Blocks, len: nat, bs': Blocks, i: nat)
    requires Tiling(bs, len) && Freed(bs, bs', i) && i in LiveBlocks(bs, len)
    ensures LiveBlocks(bs', len) == LiveBlocks(bs, len) - {i}
  {
    var g, r :| Around(bs, i, g, r) && bs' == Released(bs, i, g, r);
    ReleasedBlocks(bs, len, i, g, r);
    hide Released;
    hide Tiling;
    hide LiveBlocks;
    OthersLive(bs, len, bs', i, g, r, Left(bs, i, g));
  }

  lemma OthersLive(bs: Blocks, len: nat, bs': Blocks, i: nat, g: nat, r: nat, head: nat)
    requires i in bs && g in bs && r in bs && head in bs' && !bs'[head].taken
    requires head == i || (head == g && !bs[g].taken)
    requires forall h :: h in bs' && h != head ==> h in bs && bs'[h] == bs[h] && h != i
    requires forall h :: h in bs && h != i && (h == g ==> bs[g].taken) && (h == r ==> bs[r].taken) ==> h in bs'
    ensures LiveBlocks(bs', len) == LiveBlocks(bs, len) - {i}
  {
  }

  // A free block is too small for what malloc() asks exactly when it has no room.
  lemma TooSmall(m: seq<nat>, first: nat, fl: seq<nat>, bs: Blocks, bytes: nat)
    requires HeapOk(m, first, fl, bs)
    ensures forall h :: h in bs && !bs[h].taken ==> (bs[h].size < Entries(bytes) <==> 8 * (bs[h].size - 2) < bytes)
  {
    forall h | h in bs && !bs[h].taken ensures bs[h].size < Entries(bytes) <==> 8 * (bs[h].size - 2) < bytes {
      FreeRoom(bs, |m|, h);
      assert BlockOk(bs, |m|, h);
      LeastRoom(bytes);
    }
  }

  ghost predicate Roomy(bs: Blocks, h: nat, bytes: nat) { h in bs && bytes <= 8 * (bs[h].size - 2) }

  // Of at most 20 free blocks malloc() takes one that is as small as any with room, and always
  // one that is smaller than those with room in front of it on the list.
  lemma TightestTaken(m: seq<nat>, first: nat, fl: seq<nat>, bs: Blocks, bs': Blocks, bytes: nat, res: Pointer) returns (k: nat)
    requires HeapOk(m, first, fl, bs) && Taken(fl, bs, bs', bytes, res)
    ensures k < |fl| && res == Word(fl[k] + 1) && Roomy(bs, fl[k], bytes) && !bs[fl[k]].taken
    ensures |fl| <= 20 ==> forall h :: Roomy(bs, h, bytes) && !bs[h].taken ==> bs[fl[k]].size <= bs[h].size
    ensures forall j :: 0 <= j < k && Roomy(bs, fl[j], bytes) ==> bs[fl[k]].size < bs[fl[j]].size
  {
    RoomFits(m, first, fl, bs, bytes);
    hide HeapOk;
    hide Entries;
    hide Carved;
    hide BestFit;
    hide Fit;
    k :| Granted(fl, bs, bytes, res, k) && bs' == Carved(bs, fl[k], Entries(bytes));
    hide Roomy;
    Tightest(fl, bs, Entries(bytes), k);
  }

  lemma RoomFits(m: seq<nat>, first: nat, fl: seq<nat>, bs: Blocks, bytes: nat)
    requires HeapOk(m, first, fl, bs)
    ensures forall j :: 0 <= j < |fl| ==> fl[j] in bs && !bs[fl[j]].taken
    ensures forall h :: h in bs && !bs[h].taken ==> h in fl
    ensures forall j :: 0 <= j < |fl| ==> (Fit(bs, Entries(bytes), fl[j]) <==> Roomy(bs, fl[j], bytes))
  {
    assert Covers(fl, bs);
    hide Entries;
    forall j | 0 <= j < |fl|
      ensures fl[j] in bs && !bs[fl[j]].taken && (Fit(bs, Entries(bytes), fl[j]) <==> Roomy(bs, fl[j], bytes))
    {
      assert fl[j] in fl;
      TooSmall(m, first, fl, bs, bytes);
    }
    hide HeapOk;
  }

  lemma Tightest(fl: seq<nat>, bs: Blocks, entries: nat, k: nat)
    requires k < |fl| && BestFit(fl, bs, entries, k)
    ensures Fit(bs, entries, fl[k]) && forall j :: 0 <= j < k && Fit(bs, entries, fl[j]) ==> bs[fl[k]].size < bs[fl[j]].size
    ensures |fl| <= 20 ==> forall j :: 0 <= j < |fl| && Fit(bs, entries, fl[j]) ==> bs[fl[k]].size <= bs[fl[j]].size
  {
    var n :| Best(fl, bs, entries, n, k) && Fits(fl, bs, entries, n) <= PROBES &&
      (n == |fl| || Fits(fl, bs, entries, n) == PROBES || bs[fl[k]].size == entries);
    hide Fits;
  }

  // A payload from a size malloc() computed is 16-byte aligned, big enough and inside the array.
  lemma PayloadUsable(bs: Blocks, len: nat, base: nat, i: nat, bytes: nat)
    requires Tiling(bs, len) && base % 16 == 8 && i in LiveBlocks(bs, len) && Entries(bytes) <= LiveBlocks(bs, len)[i]
    ensures (base + 8 * (i + 1)) % 16 == 0
    ensures bytes <= 8 * (bs[i].size - 2) && 2 < i + 1 && i + bs[i].size - 1 < len - 2
  {
    assert BlockOk(bs, len, i) && BlockOk(bs, len, 0);
  }

  // Payloads of two live blocks share no word, nor do they touch a tag or a link.
  lemma PayloadsDisjoint(bs: Blocks, len: nat, i: nat, j: nat, c: nat)
    requires Tiling(bs, len) && i in LiveBlocks(bs, len) && j in bs && j != i
    requires i < c < i + bs[i].size - 1
    ensures !(j <= c < j + bs[j].size)
  {
    assert i < j || j < i;
  }

  // Programs that write only inside live payloads cannot damage the heap.
  lemma PayloadWritesKeepHeap(m: seq<nat>, m': seq<nat>, first: nat, fl: seq<nat>, bs: Blocks)
    requires HeapOk(m, first, fl, bs) && |m'| == |m|
    requires forall c {:trigger m'[c]} :: 0 <= c < |m| && m'[c] != m[c] ==> InPayload(bs, c)
    ensures HeapOk(m', first, fl, bs)
  {
    forall h {:trigger TagsAt(m', bs, h)} | h in bs ensures TagsAt(m', bs, h) {
      assert TagsAt(m, bs, h);
      NotInPayload(bs, |m|, h, h);
      NotInPayload(bs, |m|, h, h + bs[h].size - 1);
    }
    forall x | x in fl && x + 2 < |m| ensures m'[x + 1] == m[x + 1] && m'[x + 2] == m[x + 2] {
      FreeRoom(bs, |m|, x);
      NotInPayload(bs, |m|, x, x + 1);
      NotInPayload(bs, |m|, x, x + 2);
    }
    SameLinks(m, m', fl);
  }

  ghost predicate InPayload(bs: Blocks, c: nat) {
    exists h :: h in bs && bs[h].taken && h < c < h + bs[h].size - 1
  }

  lemma NotInPayload(bs: Blocks, len: nat, h: nat, c: nat)
    requires Tiling(bs, len) && h in bs && h <= c < h + bs[h].size
    requires c == h || c == h + bs[h].size - 1 || !bs[h].taken
    ensures !InPayload(bs, c)
  {
    forall g | g in bs && bs[g].taken ensures !(g < c < g + bs[g].size - 1) {
      assert g < h || g == h || h < g;
    }
  }

  // With nothing live the heap is one free block again, whatever came before.
  lemma AllFreedIsInitial(m: seq<nat>, first: nat, fl: seq<nat>, bs: Blocks)
    requires HeapOk(m, first, fl, bs) && LiveBlocks(bs, |m|) == map[]
    ensures bs == map[0 := Block(2, true), 2 := Block(|m| - 4, false), |m| - 2 := Block(2, true)]
    ensures fl == [2] && first == 2 && m[2] == |m| - 4
  {
    forall h | h in bs && h != 0 && h != |m| - 2 ensures !bs[h].taken {
      assert h !in LiveBlocks(bs, |m|);
    }
    AllFreeIsOne(bs, |m|);
    assert 2 in fl && TagsAt(m, bs, 2);
    forall k | 0 <= k < |fl| ensures fl[k] == 2 {
      assert fl[k] in fl;
    }
    OneItem(fl, |m|, 2);
  }
}
