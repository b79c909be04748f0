// Chunked reads (kernel/block_io.cc) through two layers: the RAM disk and the data of an
// ext2 i-node (kernel/ext2.cc).

module LayeredRead {
  import opened Blocks

  type Bytes = seq<nat>

  const U32 := 0x1_0000_0000
  const DIRECT := 12

  // Everything that implements BlockIO. A RAM disk is a range of memory whose last block may
  // run past its size; a node names the blocks of its device that hold its data.
  datatype BlockIO =
    | RamDisk(blockSize: nat, size: nat, memory: Bytes)
    | Node(blockSize: nat, size: nat, sectors: nat, direct: seq<nat>, indirect: nat, device: BlockIO)

  function Le32(s: Bytes, i: nat): nat
    requires i + 4 <= |s|
  {
    s[i] + 0x100 * s[i + 1] + 0x1_0000 * s[i + 2] + 0x100_0000 * s[i + 3]
  }

  // Block k holds some byte of b.
  predicate HasBlock(b: BlockIO, k: nat) { Times(k, b.blockSize) < b.size }

  ghost predicate Valid(b: BlockIO)
    decreases b, 2
  {
    match b
    case RamDisk(bs, size, memory) =>
      0 < bs && size <= |memory| && size < U32 &&
      forall k: nat :: HasBlock(b, k) ==> Times(k, bs) + bs <= |memory|
    case Node(bs, size, sectors, direct, indirect, device) =>
      512 <= bs && size < U32 && |direct| == DIRECT && Valid(device) &&
      forall k: nat :: HasBlock(b, k) ==> NodeBlockOk(b, k)
  }

  // The block is within the node's sectors and within reach, and it and its pointer lie on
  // the device.
  ghost predicate NodeBlockOk(b: BlockIO, k: nat)
    requires b.Node? && 512 <= b.blockSize && |b.direct| == DIRECT && Valid(b.device)
    decreases b, 1
  {
    k < b.sectors / (b.blockSize / 512) &&
    k < DIRECT + b.blockSize / 4 &&
    (DIRECT <= k ==> Times(b.indirect, b.blockSize) + (k - DIRECT) * 4 + 4 <= b.device.size) &&
    Times(Pointer(b, k), b.blockSize) + b.blockSize <= b.device.size
  }

  // The block number of the device that holds block k of the node.
  ghost function Pointer(b: BlockIO, k: nat): nat
    requires b.Node? && |b.direct| == DIRECT && Valid(b.device)
    decreases b, 0
  {
    if k < DIRECT then b.direct[k]
    else
      var at := Times(b.indirect, b.blockSize) + (k - DIRECT) * 4;
      if at + 4 <= b.device.size then Le32(Content(b.device), at) else 0
  }

  // The flat bytes of b.
  ghost function Content(b: BlockIO): (r: Bytes)
    requires Valid(b)
    ensures |r| == b.size
    decreases b, 3
  {
    match b
    case RamDisk(_, size, memory) => memory[..size]
    case Node(bs, size, _, _, _, device) => seq(size, x requires 0 <= x < size => FileByte(b, x))
  }

  // Byte x of a node: in block x / blockSize, at offset x % blockSize.
  ghost function FileByte(b: BlockIO, x: nat): nat
    requires b.Node? && 512 <= b.blockSize && |b.direct| == DIRECT && Valid(b.device)
    decreases b, 1
  {
    var at := Times(Pointer(b, BlockOf(x, b.blockSize)), b.blockSize) + OffsetOf(x, b.blockSize);
    if at < b.device.size then Content(b.device)[at] else 0
  }

  // buf holds n bytes of the content from offset on, and nothing else of it changed.
  ghost predicate Filled(buf: Bytes, before: Bytes, at: nat, content: Bytes, offset: nat, n: nat) {
    |buf| == |before| && at + n <= |buf| && offset + n <= |content| &&
    (forall i {:trigger buf[i]} :: at <= i < at + n ==> buf[i] == content[offset + (i - at)]) &&
    (forall i {:trigger buf[i]} :: 0 <= i < |buf| && !(at <= i < at + n) ==> buf[i] == before[i])
  }

  function Min(a: nat, b: nat): nat { if a < b then a else b }

  // What one call of read() delivers.
  function Chunk(b: BlockIO, offset: nat, n: nat): nat
    requires 0 < b.blockSize && offset <= b.size
  {
    Min(b.blockSize - OffsetOf(offset, b.blockSize), Min(n, b.size - offset))
  }

  // BlockIO::read_block: the whole block; what lies behind the size is unspecified.
  method ReadBlock(b: BlockIO, k: nat, buf: array<nat>, at: nat)
    requires Valid(b) && HasBlock(b, k) && at + b.blockSize <= buf.Length
    modifies buf
    ensures BlockFilled(buf[..], old(buf[..]), at, Content(b), Times(k, b.blockSize), b.blockSize)
    decreases b, 1
  {
    hide Times;
    match b
    case RamDisk(bs, size, memory) =>
      var offset := Times(k, bs);
      for i := 0 to bs
        invariant forall j :: at <= j < at + i ==> buf[j] == memory[offset + (j - at)]
        invariant forall j :: 0 <= j < buf.Length && !(at <= j < at + i) ==> buf[j] == old(buf[j])
      {
        buf[at + i] := memory[offset + i];
      }
    case Node(bs, size, sectors, direct, indirect, device) =>
      hide Content;
      assert NodeBlockOk(b, k);
      var block := ReadPointer(b, k);
      var count := ReadAll(device, Times(block, bs), bs, buf, at);
      assert count == bs;
      NodeBlockBytes(b, k, buf[..], old(buf[..]), at);
  }

  ghost predicate BlockFilled(buf: Bytes, before: Bytes, at: nat, content: Bytes, offset: nat, n: nat) {
    |buf| == |before| && at + n <= |buf| &&
    (forall i {:trigger buf[i]} :: at <= i < at + n && offset + (i - at) < |content| ==> buf[i] == content[offset + (i - at)]) &&
    (forall i {:trigger buf[i]} :: 0 <= i < |buf| && !(at <= i < at + n) ==> buf[i] == before[i])
  }

  // Node::read_block: the block pointer, direct or through the indirect block.
  method ReadPointer(b: BlockIO, k: nat) returns (block: nat)
    requires b.Node? && Valid(b) && HasBlock(b, k)
    ensures block == Pointer(b, k)
    decreases b, 0
  {
    hide Times;
    hide Content;
    assert NodeBlockOk(b, k);
    if k < DIRECT {
      block := b.direct[k];
    } else {
      var word := new nat[4];
      var at := Times(b.indirect, b.blockSize) + (k - DIRECT) * 4;
      var count := ReadAll(b.device, at, 4, word, 0);
      assert count == 4;
      block := word[0] + 0x100 * word[1] + 0x1_0000 * word[2] + 0x100_0000 * word[3];
      assert word[..][0] == Content(b.device)[at] && word[..][1] == Content(b.device)[at + 1];
      assert word[..][2] == Content(b.device)[at + 2] && word[..][3] == Content(b.device)[at + 3];
    }
  }

  // BlockIO::read: part of one block.
  method Read(b: BlockIO, offset: nat, n: nat, buf: array<nat>, at: nat) returns (count: int)
    requires Valid(b) && at + n <= buf.Length
    modifies buf
    ensures offset > b.size ==> count == -1 && buf[..] == old(buf[..])
    ensures offset == b.size ==> count == 0 && buf[..] == old(buf[..])
    ensures offset < b.size ==>
      0 < b.blockSize && count == Chunk(b, offset, n) && Filled(buf[..], old(buf[..]), at, Content(b), offset, count)
    ensures offset < b.size ==> count <= n && (0 < n ==> 0 < count)
    decreases b, 3
  {
    hide Times;
    hide BlockOf;
    hide OffsetOf;
    hide Content;
    if offset > b.size {
      return -1;
    }
    if offset == b.size {
      return 0;
    }
    var left := if n < b.size - offset then n else b.size - offset;
    Position(offset, b.blockSize, b.size);
    var block, inBlock := BlockOf(offset, b.blockSize), OffsetOf(offset, b.blockSize);
    var actual := if b.blockSize - inBlock < left then b.blockSize - inBlock else left;
    if actual == b.blockSize {
      ReadBlock(b, block, buf, at);
      WholeBlock(buf[..], old(buf[..]), at, Content(b), Times(block, b.blockSize), b.blockSize);
    } else {
      ReadPart(b, block, inBlock, actual, buf, at);
    }
    count := actual;
  }

  // The other branch of read(): through a temporary block.
  method ReadPart(b: BlockIO, block: nat, inBlock: nat, n: nat, buf: array<nat>, at: nat)
    requires Valid(b) && HasBlock(b, block) && inBlock + n <= b.blockSize && at + n <= buf.Length
    requires Times(block, b.blockSize) + inBlock + n <= b.size
    modifies buf
    ensures Filled(buf[..], old(buf[..]), at, Content(b), Times(block, b.blockSize) + inBlock, n)
    decreases b, 2
  {
    hide Times;
    hide Content;
    var temp := new nat[b.blockSize];
    ReadBlock(b, block, temp, 0);
    ghost var t, content, start := temp[..], Content(b), Times(block, b.blockSize);
    forall i | 0 <= i < n {
      buf[at + i] := temp[inBlock + i];
    }
    forall i {:trigger buf[..][i]} | at <= i < at + n ensures buf[..][i] == content[start + inBlock + (i - at)] {
      assert buf[i] == t[inBlock + (i - at)];
    }
  }

  lemma WholeBlock(buf: Bytes, before: Bytes, at: nat, content: Bytes, start: nat, n: nat)
    requires BlockFilled(buf, before, at, content, start, n) && start + n <= |content|
    ensures Filled(buf, before, at, content, start, n)
  {
  }

  // BlockIO::read_all: the slice of the content that was asked for, as far as it exists.
  method ReadAll(b: BlockIO, offset: nat, n: nat, buf: array<nat>, at: nat) returns (count: int)
    requires Valid(b) && at + n <= buf.Length
    modifies buf
    ensures n == 0 ==> count == 0 && buf[..] == old(buf[..])
    ensures n != 0 && offset > b.size ==> count == -1 && buf[..] == old(buf[..])
    ensures offset <= b.size ==>
      count == Min(n, b.size - offset) && Filled(buf[..], old(buf[..]), at, Content(b), offset, count)
    decreases b, 4
  {
    hide Times;
    hide Content;
    hide OffsetOf;
    ghost var before := buf[..];
    var total, from, left, to := 0, offset, n, at;
    while left > 0
      invariant 0 <= total <= n && from == offset + total && left == n - total && to == at + total
      invariant total == 0 ==> buf[..] == before
      invariant offset <= b.size ==> from <= b.size && Filled(buf[..], before, at, Content(b), offset, total)
      invariant offset > b.size ==> total == 0
      decreases left
    {
      ghost var mid := buf[..];
      var got := Read(b, from, left, buf, to);
      if got < 0 {
        return got;
      }
      if got == 0 {
        return total;
      }
      FilledMore(buf[..], mid, before, at, Content(b), offset, total, got);
      total := total + got;
      from := from + got;
      left := left - got;
      to := to + got;
    }
    count := total;
  }

  lemma FilledMore(buf: Bytes, mid: Bytes, before: Bytes, at: nat, content: Bytes, offset: nat, p: nat, n: nat)
    requires Filled(mid, before, at, content, offset, p) && Filled(buf, mid, at + p, content, offset + p, n)
    ensures Filled(buf, before, at, content, offset, p + n)
  {
    forall i {:trigger buf[i]} | at <= i < at + (p + n) ensures buf[i] == content[offset + (i - at)] {
      if i < at + p {
        assert buf[i] == mid[i];
      }
    }
    forall i {:trigger buf[i]} | 0 <= i < |buf| && !(at <= i < at + (p + n)) ensures buf[i] == before[i] {
      assert buf[i] == mid[i];
    }
  }

  // Reading the device at the block number the node holds gives the bytes of the node's block.
  lemma NodeBlockBytes(b: BlockIO, k: nat, buf: Bytes, before: Bytes, at: nat)
    requires b.Node? && Valid(b) && HasBlock(b, k)
    requires Filled(buf, before, at, Content(b.device), Times(Pointer(b, k), b.blockSize), b.blockSize)
    ensures BlockFilled(buf, before, at, Content(b), Times(k, b.blockSize), b.blockSize)
  {
    assert NodeBlockOk(b, k);
    var start := Times(k, b.blockSize);
    forall i {:trigger buf[i]} | at <= i < at + b.blockSize && start + (i - at) < |Content(b)|
      ensures buf[i] == Content(b)[start + (i - at)]
    {
      InBlock(k, b.blockSize, i - at);
      assert Content(b)[start + (i - at)] == FileByte(b, start + (i - at));
    }
  }

  lemma InBlock(k: nat, bs: nat, i: nat)
    requires 0 < bs && i < bs
    ensures BlockOf(Times(k, bs) + i, bs) == k && OffsetOf(Times(k, bs) + i, bs) == i
  {
    var x := k * bs + i;
    DivBounds(x, bs);
    NextBlock(x / bs, k, bs);
    NextBlock(k, x / bs, bs);
  }

  // For every file in reach, read_all is slicing: the caller's buffer receives exactly
  // [offset, min(offset + n, size)) of the blocks the i-node names, in order.
  lemma SliceOfBlocks(b: BlockIO, buf: Bytes, before: Bytes, at: nat, offset: nat, n: nat)
    requires b.Node? && Valid(b) && Filled(buf, before, at, Content(b), offset, n)
    ensures buf[at..at + n] == Content(b)[offset..offset + n]
    ensures forall x: nat :: offset <= x < offset + n ==>
      NodeBlockOk(b, BlockOf(x, b.blockSize)) &&
      buf[at + (x - offset)] ==
        Content(b.device)[Times(Pointer(b, BlockOf(x, b.blockSize)), b.blockSize) + OffsetOf(x, b.blockSize)]
  {
    forall x: nat | offset <= x < offset + n
      ensures NodeBlockOk(b, BlockOf(x, b.blockSize))
      ensures buf[at + (x - offset)] ==
        Content(b.device)[Times(Pointer(b, BlockOf(x, b.blockSize)), b.blockSize) + OffsetOf(x, b.blockSize)]
    {
      DivBounds(x, b.blockSize);
      assert HasBlock(b, BlockOf(x, b.blockSize));
      assert Content(b)[x] == FileByte(b, x);
    }
  }

  // --- a file as it lies on a disk -------------------------------------------

  // The n lowest digits of x to base 256, the lowest first.
  function LittleEndian(x: nat, n: nat): (r: Bytes)
    ensures |r| == n
  {
    if n == 0 then [] else [x % 256] + LittleEndian(x / 256, n - 1)
  }

  // The disk has these bytes at the address.
  predicate On(disk: Bytes, at: nat, bytes: Bytes) {
    at + |bytes| <= |disk| && disk[at..at + |bytes|] == bytes
  }

  // The k-th block of the file lies at the address, as far as the file goes.
  ghost predicate HoldsPart(disk: Bytes, at: nat, file: Bytes, k: nat, bs: nat) {
    at + bs <= |disk| &&
    forall i: nat {:trigger disk[at + i]} :: i < bs && Times(k, bs) + i < |file| ==> disk[at + i] == file[Times(k, bs) + i]
  }

  // The number d is in the i-node, or little-endian in its indirect block.
  ghost predicate HoldsNumber(b: BlockIO, disk: Bytes, k: nat, d: nat)
    requires b.Node? && |b.direct| == 12
  {
    if k < 12 then b.direct[k] == d
    else d < U32 && On(disk, Times(b.indirect, b.blockSize) + 4 * (k - 12), LittleEndian(d, 4))
  }

  // The disk holds the k-th block of the file in its block d[k]; the first 12 block numbers
  // are in the i-node, the others little-endian in its indirect block, one after the other.
  ghost predicate Stored(b: BlockIO, disk: Bytes, file: Bytes, d: seq<nat>) {
    b.Node? && 512 <= b.blockSize && |file| == b.size < U32 && |b.direct| == 12 &&
    |d| <= b.sectors / (b.blockSize / 512) && |d| <= 12 + b.blockSize / 4 && |file| <= Times(|d|, b.blockSize) &&
    (forall k {:trigger d[k]} :: 0 <= k < |d| ==> HoldsPart(disk, Times(d[k], b.blockSize), file, k, b.blockSize)) &&
    (forall k {:trigger d[k]} :: 0 <= k < |d| ==> HoldsNumber(b, disk, k, d[k]))
  }

  lemma FourDigits(s: Bytes, i: nat, x: nat)
    requires On(s, i, LittleEndian(x, 4)) && x < U32
    ensures i + 4 <= |s| && Le32(s, i) == x
  {
    var t := LittleEndian(x, 4);
    Digits(x);
    assert s[i..i + 4] == t;
    hide LittleEndian;
    assert s[i] == s[i..i + 4][0] && s[i + 1] == s[i..i + 4][1] && s[i + 2] == s[i..i + 4][2] && s[i + 3] == s[i..i + 4][3];
  }

  lemma Digits(x: nat)
    requires x < U32
    ensures var t := LittleEndian(x, 4);
      |t| == 4 && t[0] + 0x100 * t[1] + 0x1_0000 * t[2] + 0x100_0000 * t[3] == x
  {
    var y := x / 256;
    var z := y / 256;
    var w := z / 256;
    assert LittleEndian(w, 1) == [w % 256] + LittleEndian(w / 256, 0);
    assert LittleEndian(z, 2) == [z % 256] + LittleEndian(w, 1);
    assert LittleEndian(y, 3) == [y % 256] + LittleEndian(z, 2);
    assert LittleEndian(x, 4) == [x % 256] + LittleEndian(y, 3);
    assert LittleEndian(x, 4) == [x % 256, y % 256, z % 256, w % 256];
    assert x == 256 * y + x % 256 && y == 256 * z + y % 256 && z == 256 * w + z % 256 && w < 256;
  }

  lemma PointerStored(b: BlockIO, file: Bytes, d: seq<nat>, k: nat)
    requires b.Node? && Valid(b.device) && Stored(b, Content(b.device), file, d) && k < |d|
    ensures Pointer(b, k) == d[k]
    ensures 12 <= k ==> Times(b.indirect, b.blockSize) + (k - 12) * 4 + 4 <= b.device.size
  {
    assert HoldsNumber(b, Content(b.device), k, d[k]);
    hide Content;
    hide Times;
    hide HoldsPart;
    hide Le32;
    if 12 <= k {
      FourDigits(Content(b.device), Times(b.indirect, b.blockSize) + 4 * (k - 12), d[k]);
      hide LittleEndian;
    }
  }

  lemma BlockInFile(b: BlockIO, file: Bytes, d: seq<nat>, k: nat)
    requires |file| == b.size && |file| <= Times(|d|, b.blockSize) && HasBlock(b, k)
    ensures k < |d|
  {
    if |d| <= k {
      Monotone(|d|, k, b.blockSize);
    }
  }

  // Such an i-node can be read.
  lemma StoredValid(b: BlockIO, file: Bytes, d: seq<nat>)
    requires b.Node? && Valid(b.device) && Stored(b, Content(b.device), file, d)
    ensures Valid(b)
  {
    hide Times;
    hide Content;
    forall k: nat | HasBlock(b, k) ensures NodeBlockOk(b, k) {
      BlockInFile(b, file, d, k);
      PointerStored(b, file, d, k);
      assert HoldsPart(Content(b.device), Times(d[k], b.blockSize), file, k, b.blockSize);
    }
  }

  // Its content is the file.
  lemma StoredContent(b: BlockIO, file: Bytes, d: seq<nat>)
    requires b.Node? && Valid(b.device) && Stored(b, Content(b.device), file, d)
    ensures Valid(b) && Content(b) == file
  {
    StoredValid(b, file, d);
    forall x: nat | x < |file| ensures Content(b)[x] == file[x] {
      assert Content(b)[x] == FileByte(b, x);
      StoredByte(b, file, d, x);
    }
  }

  lemma StoredByte(b: BlockIO, file: Bytes, d: seq<nat>, x: nat)
    requires b.Node? && Valid(b.device) && Stored(b, Content(b.device), file, d) && x < |file|
    ensures FileByte(b, x) == file[x]
  {
    var bs, k, i := b.blockSize, BlockOf(x, b.blockSize), OffsetOf(x, b.blockSize);
    DivBounds(x, bs);
    assert x == Times(k, bs) + i && i < bs;
    hide Times;
    hide BlockOf;
    hide OffsetOf;
    hide Content;
    BlockInFile(b, file, d, k);
    PointerStored(b, file, d, k);
    hide Pointer;
    assert HoldsPart(Content(b.device), Times(d[k], bs), file, k, bs);
  }

  // read_all of a file stored on a RAM disk delivers the bytes of the file.
  lemma ReadsBack(b: BlockIO, file: Bytes, d: seq<nat>, buf: Bytes, before: Bytes, at: nat, offset: nat, n: nat)
    requires b.Node? && b.device.RamDisk? && Valid(b.device) && Stored(b, b.device.memory[..b.device.size], file, d)
    ensures Valid(b)
    ensures Filled(buf, before, at, Content(b), offset, n) ==>
      offset + n <= |file| && buf[at..at + n] == file[offset..offset + n]
  {
    hide Stored;
    StoredContent(b, file, d);
    hide Content;
    if Filled(buf, before, at, Content(b), offset, n) {
      assert forall i :: at <= i < at + n ==> buf[i] == file[offset + (i - at)];
    }
  }
}
