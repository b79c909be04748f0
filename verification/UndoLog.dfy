// The block cache and the undo log of limine/limine.c: a device is read and written
// through one cached block, every write first saves what it overwrites, and replaying
// the saved data in reverse restores the device.

module Blocks {
  // Products and quotients by the block size, named so that proofs can leave them closed.
  function Times(i: nat, b: nat): nat { i * b }

  function BlockOf(x: nat, b: nat): nat
    requires 0 < b
  {
    x / b
  }

  function OffsetOf(x: nat, b: nat): nat
    requires 0 < b
  {
    x % b
  }

  // A device of n bytes in blocks of b bytes.
  lemma DivBounds(x: nat, b: nat)
    requires 0 < b
    ensures x / b * b <= x < x / b * b + b && x % b == x - x / b * b
  {
  }

  lemma {:induction false} Monotone(i: nat, j: nat, b: nat)
    requires i <= j
    ensures i * b <= j * b
  {
  }

  lemma NextBlock(i: nat, j: nat, b: nat)
    ensures i < j ==> i * b + b <= j * b
  {
    if i < j {
      Monotone(i + 1, j, b);
      assert (i + 1) * b == i * b + b;
    }
  }

  // A block lies on the device exactly when its number is below the number of whole blocks.
  lemma BlockFits(i: nat, b: nat, n: nat)
    requires 0 < b
    ensures i * b + b <= n <==> i < n / b
    ensures i < n / b ==> i * b + b <= n / b * b
  {
    DivBounds(n, b);
    if i < n / b {
      Monotone(i + 1, n / b, b);
      assert (i + 1) * b == i * b + b;
    } else {
      Monotone(n / b, i, b);
    }
  }

  lemma InWholeBlocks(x: nat, b: nat, n: nat)
    requires 0 < b
    ensures x / b < n / b <==> x < n / b * b
  {
    DivBounds(x, b);
    BlockFits(x / b, b, n);
    if x / b >= n / b {
      Monotone(n / b, x / b, b);
    }
  }

  lemma WholeBlocks(b: nat, n: nat)
    requires 0 < b
    ensures Times(BlockOf(n, b), b) <= n
  {
    DivBounds(n, b);
  }

  // Where the byte at x lies.
  lemma Position(x: nat, b: nat, n: nat)
    requires 0 < b
    ensures x == Times(BlockOf(x, b), b) + OffsetOf(x, b) && OffsetOf(x, b) < b
    ensures Times(BlockOf(x, b), b) + b <= n <==> x < Times(BlockOf(n, b), b)
    ensures Times(BlockOf(x, b), b) + b <= n ==> Times(BlockOf(x, b), b) + b <= Times(BlockOf(n, b), b)
  {
    DivBounds(x, b);
    BlockFits(x / b, b, n);
    InWholeBlocks(x, b, n);
  }
}

module FlatBytes {
  type Bytes = seq<nat>

  // s with d written at loc.
  function Patch(s: Bytes, loc: nat, d: Bytes): (r: Bytes)
    requires loc + |d| <= |s|
    ensures |r| == |s|
    ensures forall x :: 0 <= x < |s| ==> r[x] == if loc <= x < loc + |d| then d[x - loc] else s[x]
  {
    s[..loc] + d + s[loc + |d|..]
  }

  lemma PatchMore(s: Bytes, loc: nat, d: Bytes, p: nat, q: nat)
    requires p <= q <= |d| && loc + q <= |s|
    ensures Patch(Patch(s, loc, d[..p]), loc + p, d[p..q]) == Patch(s, loc, d[..q])
  {
  }

  // Writing inside the patched window is writing inside the patch.
  lemma PatchInside(s: Bytes, loc: nat, d: Bytes, off: nat, e: Bytes)
    requires loc + |d| <= |s| && off + |e| <= |d|
    ensures Patch(s, loc, Patch(d, off, e)) == Patch(Patch(s, loc, d), loc + off, e)
  {
  }

  lemma PatchSame(s: Bytes, loc: nat, n: nat)
    requires loc + n <= |s|
    ensures Patch(s, loc, s[loc..loc + n]) == s
  {
  }

  lemma PatchSlice(s: Bytes, loc: nat, d: Bytes, off: nat, n: nat)
    requires loc + |d| <= |s| && off + n <= |d|
    ensures Patch(s, loc, d)[loc + off..loc + off + n] == d[off..off + n]
  {
  }
}

module UndoEntries {
  import opened FlatBytes

  // One saved range: what was on the device at loc.
  datatype Entry = Entry(loc: nat, data: Bytes)

  predicate Covers(e: Entry, x: nat) { e.loc <= x < e.loc + |e.data| }

  ghost predicate InRange(log: seq<Entry>, n: nat) {
    forall i :: 0 <= i < |log| && log[i].data != [] ==> log[i].loc + |log[i].data| <= n
  }

  // The byte at x is as it was originally, or the first entry that saved it has it.
  ghost predicate Saved(orig: nat, log: seq<Entry>, x: nat, cur: nat) {
    if log == [] then cur == orig
    else if Covers(log[0], x) then log[0].data[x - log[0].loc] == orig
    else Saved(orig, log[1..], x, cur)
  }

  // Every byte of cur can be restored from the log.
  ghost predicate Undoable(orig: Bytes, log: seq<Entry>, cur: Bytes) {
    |cur| == |orig| && forall x :: 0 <= x < |orig| ==> Saved(orig[x], log, x, cur[x])
  }

  // Replaying the entries from the last to the first.
  function Restore(cur: Bytes, log: seq<Entry>): (r: Bytes)
    requires InRange(log, |cur|)
    ensures |r| == |cur|
  {
    if log == [] then cur
    else
      assert InRange(log[1..], |cur|);
      var later := Restore(cur, log[1..]);
      if log[0].data == [] then later else Patch(later, log[0].loc, log[0].data)
  }

  lemma {:induction false} RestoreByte(orig: nat, log: seq<Entry>, cur: Bytes, x: nat)
    requires InRange(log, |cur|) && x < |cur| && Saved(orig, log, x, cur[x])
    ensures Restore(cur, log)[x] == orig
  {
    if log != [] {
      assert InRange(log[1..], |cur|);
      if !Covers(log[0], x) {
        RestoreByte(orig, log[1..], cur, x);
      }
    }
  }

  // Reversing and replaying the log restores every byte.
  lemma RestoreAll(orig: Bytes, log: seq<Entry>, cur: Bytes)
    requires InRange(log, |cur|) && Undoable(orig, log, cur)
    ensures Restore(cur, log) == orig
  {
    forall x | 0 <= x < |orig| ensures Restore(cur, log)[x] == orig[x] {
      RestoreByte(orig[x], log, cur, x);
    }
  }

  // A byte stays restorable when an entry is added that covers it, or when it does not
  // change.
  lemma {:induction false} SavedMore(orig: nat, log: seq<Entry>, e: Entry, x: nat, cur: nat, cur': nat)
    requires Saved(orig, log, x, cur)
    requires if Covers(e, x) then e.data[x - e.loc] == cur else cur' == cur
    ensures Saved(orig, log + [e], x, cur')
  {
    if log == [] {
      assert log + [e] == [e] && [e][1..] == [];
    } else {
      assert (log + [e])[1..] == log[1..] + [e];
      if !Covers(log[0], x) {
        SavedMore(orig, log[1..], e, x, cur, cur');
      }
    }
  }

  // view is what the cache shows and disk what is stored; both can be restored. After a
  // logged write of [loc, loc + n) both still can: outside the range the view is unchanged
  // and every stored byte is an old stored or an old viewed one.
  lemma WriteKeepsUndoable(orig: Bytes, log: seq<Entry>, view: Bytes, disk: Bytes, view': Bytes, disk': Bytes, e: Entry)
    requires Undoable(orig, log, view) && Undoable(orig, log, disk)
    requires e.data != [] ==> e.loc + |e.data| <= |view| && e.data == view[e.loc..e.loc + |e.data|]
    requires |view'| == |view| && |disk'| == |disk|
    requires forall x :: 0 <= x < |view| && !Covers(e, x) ==> view'[x] == view[x]
    requires forall x :: 0 <= x < |disk| && !Covers(e, x) ==> disk'[x] == disk[x] || disk'[x] == view[x]
    ensures Undoable(orig, log + [e], view') && Undoable(orig, log + [e], disk')
  {
    forall x | 0 <= x < |orig|
      ensures Saved(orig[x], log + [e], x, view'[x]) && Saved(orig[x], log + [e], x, disk'[x])
    {
      assert Saved(orig[x], log, x, view[x]) && Saved(orig[x], log, x, disk[x]);
      SavedMore(orig[x], log, e, x, view[x], view'[x]);
      if !Covers(e, x) && disk'[x] == disk[x] {
        SavedMore(orig[x], log, e, x, disk[x], disk'[x]);
      } else {
        SavedMore(orig[x], log, e, x, view[x], disk'[x]);
      }
    }
  }
}

module LoggedDevice {
  import opened Blocks
  import opened FlatBytes
  import opened UndoEntries

  const LOG_MAX := 256

  // What the program sees: the device with the cached block laid over it.
  function Overlay(disk: Bytes, start: int, cache: Bytes): (r: Bytes)
    requires 0 <= start ==> start + |cache| <= |disk|
    ensures |r| == |disk|
  {
    if start < 0 then disk else Patch(disk, start, cache)
  }

  // fread of one block: a block that is cut off by the end of the device fills only the
  // front of the buffer, and fails.
  function BlockRead(disk: Bytes, pos: nat, cache: Bytes): (r: Bytes)
    ensures |r| == |cache|
  {
    if |disk| <= pos then cache
    else if pos + |cache| <= |disk| then disk[pos..pos + |cache|]
    else disk[pos..] + cache[|disk| - pos..]
  }

  lemma WholeBlockRead(disk: Bytes, pos: nat, cache: Bytes)
    requires pos + |cache| <= |disk|
    ensures BlockRead(disk, pos, cache) == disk[pos..pos + |cache|]
  {
  }

  lemma SpoiltView(flat: Bytes, start: nat, pos: nat, cache: Bytes)
    requires start + |cache| <= |flat| && Patch(flat, start, cache) == flat
    ensures Patch(flat, start, BlockRead(flat, pos, cache)) == AfterFailure(flat, start, pos, |cache|)
  {
    assert flat[start..start + |cache|] == cache;
  }

  lemma NothingCached(flat: Bytes, pos: nat, b: nat)
    ensures AfterFailure(flat, -1, pos, b) == flat
  {
  }

  // Where the first block that cannot be read starts, for a read from loc.
  function FailPos(n: nat, b: nat, loc: nat): nat
    requires 0 < b
  {
    var usable := Times(BlockOf(n, b), b);
    if loc < usable then usable else Times(BlockOf(loc, b), b)
  }

  // Where the block starts that is cached by then.
  function LastStart(n: nat, b: nat, loc: nat, start: int): int
    requires 0 < b
  {
    var usable := Times(BlockOf(n, b), b);
    if loc < usable then usable - b else start
  }

  // What the program sees after the read of the block at pos failed: the cached block
  // at start has got what the device holds from pos on.
  function AfterFailure(flat: Bytes, start: int, pos: nat, b: nat): (r: Bytes)
    ensures |r| == |flat|
  {
    if start < 0 || |flat| < start + b then flat
    else Patch(flat, start, BlockRead(flat, pos, flat[start..start + b]))
  }

  // That block is cut off by the end of the device.
  predicate HitsTail(n: nat, b: nat, loc: nat)
    requires 0 < b
  {
    n % b != 0 && loc / b <= n / b
  }

  lemma TailPos(n: nat, b: nat, loc: nat)
    requires 0 < b
    ensures FailPos(n, b, loc) < n <==> HitsTail(n, b, loc)
    ensures Times(BlockOf(n, b), b) <= FailPos(n, b, loc)
  {
    DivBounds(n, b);
    InWholeBlocks(loc, b, n);
    if n / b < loc / b {
      BehindTail(loc, b, n);
    }
  }

  // A failing read leaves what the program sees intact, whatever is on the device,
  // exactly when it does not meet a block that is cut off.
  lemma FailedReadHarmless(n: nat, b: nat, loc: nat, start: nat)
    requires 0 < b && start + b <= Times(BlockOf(n, b), b)
    ensures (forall flat: Bytes :: |flat| == n ==> AfterFailure(flat, start, FailPos(n, b, loc), b) == flat)
      <==> !HitsTail(n, b, loc)
  {
    TailPos(n, b, loc);
    WholeBlocks(b, n);
    var pos := FailPos(n, b, loc);
    hide FailPos;
    hide HitsTail;
    hide AfterFailure;
    if pos < n {
      var flat := Spoilt(n, b, pos, start);
      assert |flat| == n && AfterFailure(flat, start, pos, b) != flat;
    } else {
      forall flat: Bytes | |flat| == n ensures AfterFailure(flat, start, pos, b) == flat {
        Unspoilt(flat, b, pos, start);
      }
    }
  }

  lemma Spoilt(n: nat, b: nat, pos: nat, start: nat) returns (flat: Bytes)
    requires 0 < b && start + b <= pos < n
    ensures |flat| == n && AfterFailure(flat, start, pos, b) != flat
  {
    flat := seq(n, x => if x < pos then 0 else 1);
    assert BlockRead(flat, pos, flat[start..start + b])[0] == flat[pos] == 1;
    assert AfterFailure(flat, start, pos, b)[start] == 1 && flat[start] == 0;
  }

  lemma Unspoilt(flat: Bytes, b: nat, pos: nat, start: nat)
    requires start + b <= |flat| <= pos
    ensures AfterFailure(flat, start, pos, b) == flat
  {
    PatchSame(flat, start, b);
  }

  class Device {
    const disk: array<nat>
    const cache: array<nat>
    const blockSize: nat
    var cachedBlock: int      // -1: none
    var dirty: bool
    var uninstalling: bool
    const saved: array<Entry>
    var count: nat
    ghost const orig: Bytes

    function Start(): int
      reads this
    {
      if cachedBlock < 0 then -1 else Times(cachedBlock, blockSize)
    }

    // The bytes that lie in whole blocks.
    function Usable(): nat
      requires 0 < blockSize
      reads disk
    {
      Times(BlockOf(disk.Length, blockSize), blockSize)
    }

    // What holds even after a failed read or write.
    ghost predicate Shape()
      reads this, disk, cache, saved
    {
      && disk != cache && cache.Length == blockSize && 0 < blockSize && saved.Length == LOG_MAX && count <= LOG_MAX
      && (0 <= cachedBlock ==> Start() + blockSize <= disk.Length)
      && InRange(Log(), Usable())
    }

    ghost predicate Valid()
      reads this, disk, cache, saved
    {
      Shape() && (dirty ==> 0 <= cachedBlock) && (!dirty ==> Flat() == disk[..])
    }

    ghost function Flat(): (r: Bytes)
      requires 0 <= cachedBlock ==> Start() + cache.Length <= disk.Length
      reads this, disk, cache
    {
      Overlay(disk[..], Start(), cache[..])
    }

    ghost function Log(): seq<Entry>
      requires count <= saved.Length
      reads this, saved
    {
      saved[..count]
    }

    // Everything logged so far can be undone, from the device with or without the cached block.
    ghost predicate Safe()
      reads this, disk, cache, saved
    {
      Valid() && Undoable(orig, Log(), Flat()) && Undoable(orig, Log(), disk[..])
    }

    // What is stored can be undone, whatever became of the cached block.
    ghost predicate Recoverable()
      reads this, disk, cache, saved
    {
      Shape() && Undoable(orig, Log(), disk[..])
    }

    // A failed read or write has stored what the program saw, and nothing else; the
    // cached block is the one at start, spoilt by the read at pos.
    twostate predicate Failed(start: int, pos: nat)
      reads this, disk, cache, saved
    {
      old(Valid()) && Shape() && !dirty && disk[..] == old(Flat()) && Log() == old(Log()) &&
      Start() == start && Flat() == AfterFailure(old(Flat()), start, pos, blockSize)
    }

    // A failed write at loc has changed nothing if the log was full; otherwise it failed
    // reading the old bytes, and has logged nothing.
    twostate predicate Unwritten(loc: nat)
      reads this, disk, cache, saved
    {
      old(Valid()) && 0 < blockSize &&
      if old(count) == LOG_MAX then unchanged(this, disk, cache, saved)
      else Failed(LastStart(disk.Length, blockSize, loc, old(Start())), FailPos(disk.Length, blockSize, loc))
    }

    // device_init with the first block size that can be read.
    constructor (content: Bytes, b: nat)
      requires 0 < b <= |content|
      ensures Safe() && Flat() == content && disk[..] == content && orig == content && cachedBlock == 0
      ensures !uninstalling && Log() == [] && blockSize == b && fresh(disk) && fresh(cache) && fresh(saved)
    {
      disk := new nat[|content|](i requires 0 <= i < |content| => content[i]);
      cache := new nat[b](i requires 0 <= i < b => content[i]);
      saved := new Entry[LOG_MAX](_ => Entry(0, []));
      blockSize, cachedBlock, dirty, uninstalling, count, orig := b, 0, false, false, 0, content;
      new;
      hide Times;
      hide BlockOf;
      StartOfDevice(b, |content|);
      assert disk[..] == content && cache[..] == content[0..0 + b];
      PatchSame(content, 0, b);
      assert Log() == [];
    }

    method FlushCache()
      requires Valid()
      modifies this`dirty, disk
      ensures Valid() && !dirty && Flat() == old(Flat()) && disk[..] == old(Flat())
      ensures old(Safe()) ==> Safe()
    {
      if !dirty {
        return;
      }
      hide Times;
      var start := Times(cachedBlock, blockSize);
      for i := 0 to blockSize
        invariant start == Start() && start + blockSize <= disk.Length && unchanged(cache)
        invariant forall x :: 0 <= x < disk.Length ==> disk[x] == if start <= x < start + i then cache[x - start] else old(disk[x])
      {
        disk[start + i] := cache[i];
      }
      assert disk[..] == old(Flat());
      dirty := false;
      assert Flat() == disk[..];
    }

    // fread of the block at pos.
    method FillCache(pos: nat) returns (full: bool)
      requires disk != cache && cache.Length == blockSize && 0 < blockSize
      modifies cache
      ensures cache[..] == BlockRead(disk[..], pos, old(cache[..]))
      ensures full <==> pos + blockSize <= disk.Length
    {
      var i := 0;
      while i < blockSize && pos + i < disk.Length
        invariant 0 <= i <= blockSize && (i == 0 || pos + i <= disk.Length)
        invariant forall k :: 0 <= k < blockSize ==> cache[k] == if k < i then disk[pos + k] else old(cache[k])
      {
        cache[i] := disk[pos + i];
        i := i + 1;
      }
      full := i == blockSize;
    }

    // device_cache_block: succeeds exactly for the whole blocks of the device.
    method CacheBlock(block: nat) returns (ok: bool)
      requires Valid()
      modifies this`dirty, this`cachedBlock, disk, cache
      ensures ok <==> Times(block, blockSize) + blockSize <= disk.Length
      ensures ok ==> Valid() && cachedBlock == block && Flat() == old(Flat())
      ensures !ok ==> Failed(old(Start()), Times(block, blockSize))
      ensures disk[..] == old(disk[..]) || disk[..] == old(Flat())
    {
      hide InRange;
      hide Undoable;
      hide Times;
      hide BlockOf;
      if cachedBlock == block {
        return true;
      }
      if dirty {
        FlushCache();
      }
      ok := LoadBlock(block);
    }

    method LoadBlock(block: nat) returns (ok: bool)
      requires Valid() && !dirty
      modifies this`cachedBlock, cache
      ensures ok <==> Times(block, blockSize) + blockSize <= disk.Length
      ensures ok ==> Valid() && cachedBlock == block && Flat() == old(Flat())
      ensures !ok ==> Failed(old(Start()), Times(block, blockSize))
    {
      hide Times;
      hide BlockOf;
      hide InRange;
      hide Undoable;
      hide BlockRead;
      hide AfterFailure;
      hide Patch;
      ghost var flat, bytes := disk[..], cache[..];
      var pos := Times(block, blockSize);
      ok := FillCache(pos);
      if ok {
        cachedBlock := block;
        WholeBlockRead(flat, pos, bytes);
        PatchSame(flat, pos, blockSize);
      } else if 0 <= cachedBlock {
        SpoiltView(flat, Start(), pos, bytes);
      } else {
        NothingCached(flat, pos, blockSize);
      }
    }

    // memcpy out of the cached block.
    method CopyOut(buffer: array<nat>, at: nat, offset: nat, n: nat)
      requires Valid() && 0 <= cachedBlock && offset + n <= blockSize && at + n <= buffer.Length
      requires buffer != disk && buffer != cache
      modifies buffer
      ensures Valid() && buffer[at..at + n] == Flat()[Start() + offset..Start() + offset + n]
      ensures buffer[..at] == old(buffer[..at])
    {
      forall k | 0 <= k < n {
        buffer[at + k] := cache[offset + k];
      }
      PatchSlice(disk[..], Start(), cache[..], offset, n);
    }

    // memcpy into the cached block.
    method CopyIn(data: Bytes, offset: nat)
      requires Valid() && 0 <= cachedBlock && offset + |data| <= blockSize
      modifies cache, this`dirty
      ensures Valid() && dirty && Flat() == Patch(old(Flat()), Start() + offset, data)
    {
      ghost var before := cache[..];
      forall k | 0 <= k < |data| {
        cache[offset + k] := data[k];
      }
      dirty := true;
      assert cache[..] == Patch(before, offset, data);
      PatchInside(disk[..], Start(), before, offset, data);
    }

    // _device_read: the bytes of the flat device, all or none.
    method Read(buffer: array<nat>, loc: nat, n: nat) returns (ok: bool)
      requires Valid() && n <= buffer.Length && buffer != disk && buffer != cache
      modifies this`dirty, this`cachedBlock, disk, cache, buffer
      ensures ok <==> n == 0 || loc + n <= Usable()
      ensures ok ==> Valid() && Flat() == old(Flat()) && (old(Safe()) ==> Safe())
      ensures ok && 0 < n ==> Usable() <= disk.Length && buffer[..n] == old(Flat())[loc..loc + n]
      ensures !ok ==>
        Failed(LastStart(disk.Length, blockSize, loc, old(Start())), FailPos(disk.Length, blockSize, loc))
      ensures !ok && !HitsTail(disk.Length, blockSize, loc) ==> Valid() && Flat() == old(Flat())
      ensures old(Safe()) ==> Recoverable()
      ensures disk[..] == old(disk[..]) || disk[..] == old(Flat())
    {
      hide Times;
      hide BlockOf;
      hide HitsTail;
      hide Overlay;
      hide InRange;
      hide Undoable;
      hide Patch;
      ok := ReadBlocks(buffer, loc, n);
      TailPos(disk.Length, blockSize, loc);
    }

    // The loop of device_read.
    method ReadBlocks(buffer: array<nat>, loc: nat, n: nat) returns (ok: bool)
      requires Valid() && n <= buffer.Length && buffer != disk && buffer != cache
      modifies this`dirty, this`cachedBlock, disk, cache, buffer
      ensures ok <==> n == 0 || loc + n <= Usable()
      ensures ok ==> Valid() && Flat() == old(Flat())
      ensures ok && 0 < n ==> Usable() <= disk.Length && buffer[..n] == old(Flat())[loc..loc + n]
      ensures !ok ==>
        Failed(LastStart(disk.Length, blockSize, loc, old(Start())), FailPos(disk.Length, blockSize, loc))
      ensures disk[..] == old(disk[..]) || disk[..] == old(Flat())
    {
      hide Times;
      hide BlockOf;
      hide Overlay;
      hide InRange;
      hide Patch;
      hide AfterFailure;
      hide FailPos;
      ghost var flat := Flat();
      WholeBlocks(blockSize, disk.Length);
      var progress := 0;
      while progress < n
        invariant 0 <= progress <= n && Valid() && Flat() == flat
        invariant progress == 0 ==> Start() == old(Start())
        invariant progress != 0 ==> loc + progress <= Usable() && Start() == Times(BlockOf(loc + progress - 1, blockSize), blockSize)
        invariant progress != 0 ==> buffer[..progress] == flat[loc..loc + progress]
        invariant disk[..] == old(disk[..]) || disk[..] == flat
      {
        var chunk;
        ok, chunk := ReadChunk(buffer, loc, progress, n);
        if !ok {
          FirstBlock(loc, progress, blockSize, disk.Length);
          return;
        }
        SliceMore(buffer[..], flat, loc, progress, chunk);
        progress := progress + chunk;
      }
      ok := true;
    }

    // One turn of the loop: as much as the block holds.
    method ReadChunk(buffer: array<nat>, loc: nat, progress: nat, n: nat) returns (ok: bool, chunk: nat)
      requires Valid() && progress < n <= buffer.Length && buffer != disk && buffer != cache
      modifies this`dirty, this`cachedBlock, disk, cache, buffer
      ensures ok <==> loc + progress < Usable()
      ensures ok ==> Valid() && Flat() == old(Flat()) && 0 < chunk && progress + chunk <= n
      ensures ok ==> loc + progress + chunk <= Usable() <= disk.Length
      ensures ok ==> buffer[..progress] == old(buffer[..progress])
      ensures ok ==> buffer[progress..progress + chunk] == old(Flat())[loc + progress..loc + progress + chunk]
      ensures ok ==> Start() == Times(BlockOf(loc + progress + chunk - 1, blockSize), blockSize)
      ensures !ok ==> Failed(old(Start()), Times(BlockOf(loc + progress, blockSize), blockSize))
      ensures disk[..] == old(disk[..]) || disk[..] == old(Flat())
    {
      hide InRange;
      hide Overlay;
      hide Patch;
      hide Device.Log;
      hide Times;
      hide BlockOf;
      hide OffsetOf;
      chunk := 0;
      var block := BlockOf(loc + progress, blockSize);
      Position(loc + progress, blockSize, disk.Length);
      WholeBlocks(blockSize, disk.Length);
      ok := CacheBlock(block);
      if !ok {
        return;
      }
      chunk := n - progress;
      var offset := OffsetOf(loc + progress, blockSize);
      if chunk > blockSize - offset {
        chunk := blockSize - offset;
      }
      CopyOut(buffer, progress, offset, chunk);
      SameBlock(loc + progress, chunk, blockSize);
    }

    // The second half of _device_write: the range must lie in whole blocks.
    method Store(data: Bytes, loc: nat) returns (ok: bool)
      requires Valid() && (data == [] || loc + |data| <= Usable())
      modifies this`dirty, this`cachedBlock, disk, cache
      ensures ok && Valid()
      ensures data == [] ==> Flat() == old(Flat())
      ensures data != [] ==> loc + |data| <= disk.Length && Flat() == Patch(old(Flat()), loc, data)
      ensures OldOutside(disk[..], old(disk[..]), old(Flat()), loc, |data|)
    {
      hide Times;
      hide BlockOf;
      hide OldOutside;
      hide InRange;
      hide Overlay;
      hide Patch;
      hide Device.Log;
      ghost var flat, stored := Flat(), disk[..];
      WholeBlocks(blockSize, disk.Length);
      assert OldOutside(disk[..], stored, flat, loc, |data|) by { NothingChanged(stored, flat, loc, |data|); }
      var progress := 0;
      while progress < |data|
        invariant 0 <= progress <= |data| && Valid()
        invariant progress == 0 ==> Flat() == flat
        invariant data != [] ==> Flat() == Patch(flat, loc, data[..progress])
        invariant OldOutside(disk[..], stored, flat, loc, |data|)
      {
        ghost var flat1, stored1 := Flat(), disk[..];
        var chunk := StoreChunk(data, loc, progress);
        PatchMore(flat, loc, data, progress, progress + chunk);
        OutsideStep(disk[..], stored1, flat1, stored, flat, loc, data, progress);
        progress := progress + chunk;
      }
      assert data[..progress] == data;
      ok := true;
    }

    // One turn of the loop: as much of the data as fits into the block.
    method StoreChunk(data: Bytes, loc: nat, progress: nat) returns (chunk: nat)
      requires Valid() && progress < |data| && loc + |data| <= Usable()
      modifies this`dirty, this`cachedBlock, disk, cache
      ensures Valid() && 0 < chunk && progress + chunk <= |data| && loc + |data| <= disk.Length
      ensures Flat() == Patch(old(Flat()), loc + progress, data[progress..progress + chunk])
      ensures disk[..] == old(disk[..]) || disk[..] == old(Flat())
    {
      hide InRange;
      hide Overlay;
      hide Patch;
      hide Device.Log;
      hide Times;
      hide BlockOf;
      hide OffsetOf;
      WholeBlocks(blockSize, disk.Length);
      var block := BlockOf(loc + progress, blockSize);
      Position(loc + progress, blockSize, disk.Length);
      var ok := CacheBlock(block);
      assert ok;
      chunk := |data| - progress;
      var offset := OffsetOf(loc + progress, blockSize);
      if chunk > blockSize - offset {
        chunk := blockSize - offset;
      }
      CopyIn(data[progress..progress + chunk], offset);
    }

    // _device_write: while installing, the old bytes go to the log first.
    method Write(data: Bytes, loc: nat) returns (ok: bool)
      requires Valid() && (uninstalling ==> data == [] || loc + |data| <= Usable())
      modifies this`dirty, this`cachedBlock, this`count, disk, cache, saved
      ensures !uninstalling ==> (ok <==> old(count) < LOG_MAX && (data == [] || loc + |data| <= Usable()))
      ensures ok ==> Valid() && (data != [] ==> loc + |data| <= disk.Length)
      ensures ok ==> Valid() && Flat() == if data == [] then old(Flat()) else Patch(old(Flat()), loc, data)
      ensures uninstalling ==> ok && Valid() && Log() == old(Log())
      ensures ok && !uninstalling ==> Valid() && Log() == old(Log()) + [Entry(loc, Overwritten(old(Flat()), loc, |data|))]
      ensures ok && !uninstalling && old(Safe()) ==> Safe()
      ensures !ok ==> Unwritten(loc)
      ensures !uninstalling && old(Safe()) ==> Recoverable()
    {
      if uninstalling {
        WholeBlocks(blockSize, disk.Length);
        ok := Store(data, loc);
      } else {
        ok := WriteLogged(data, loc);
      }
    }

    method WriteLogged(data: Bytes, loc: nat) returns (ok: bool)
      requires Valid()
      modifies this`dirty, this`cachedBlock, this`count, disk, cache, saved
      ensures ok <==> old(count) < LOG_MAX && (data == [] || loc + |data| <= Usable())
      ensures ok ==> Valid() && (data != [] ==> loc + |data| <= disk.Length)
      ensures ok ==> Valid() && Flat() == if data == [] then old(Flat()) else Patch(old(Flat()), loc, data)
      ensures ok ==> Valid() && Log() == old(Log()) + [Entry(loc, Overwritten(old(Flat()), loc, |data|))]
      ensures ok && old(Safe()) ==> Safe()
      ensures !ok ==> Unwritten(loc)
      ensures old(Safe()) ==> Recoverable()
    {
      hide Times;
      hide BlockOf;
      hide Overlay;
      hide Undoable;
      hide InRange;
      hide HitsTail;
      hide OldOutside;
      ghost var flat, stored, log, safe := Flat(), disk[..], Log(), Safe();
      WholeBlocks(blockSize, disk.Length);
      if count >= LOG_MAX {
        return false;
      }
      var oldBytes := new nat[|data|];
      ok := Read(oldBytes, loc, |data|);
      if !ok {
        return;
      }
      assert oldBytes[..] == Overwritten(flat, loc, |data|);
      ghost var stored1 := disk[..];
      ok := Store(data, loc);
      ghost var e := Entry(loc, oldBytes[..]);
      LongerLog(log, e, Usable());
      saved[count] := Entry(loc, oldBytes[..]);
      count := count + 1;
      assert Log() == log + [e];
      if safe {
        EitherOutside(disk[..], stored1, stored, flat, loc, |data|);
        StillUndoable(orig, log, flat, stored, Flat(), disk[..], e, data);
      }
    }

    // reverse_uninstall_data
    method ReverseLog()
      requires Shape()
      modifies saved
      ensures Shape() && Log() == Reversed(old(Log()))
    {
      hide Times;
      hide BlockOf;
      hide Overlay;
      hide InRange;
      hide Reversed;
      ghost var log, reversed := Log(), Reversed(Log());
      var rev := new Entry[LOG_MAX](_ => Entry(0, []));
      var j := count - 1;
      for i := 0 to count
        invariant j == count - 1 - i && unchanged(saved) && unchanged(this) && unchanged(disk) && unchanged(cache)
        invariant forall k {:trigger rev[k]} :: j < k < count ==> rev[k] == reversed[k]
      {
        rev[j] := saved[i];
        j := j - 1;
      }
      ReversedRange(log, Usable());
      forall k | 0 <= k < count {
        saved[k] := rev[k];
      }
      assert Log() == reversed;
    }

    // uninstall with the log already reversed: the cached block is dropped, the saved
    // bytes are written back and flushed.
    method Uninstall(ghost log: seq<Entry>)
      requires Shape() && Log() == Reversed(log)
      modifies this`uninstalling, this`dirty, this`cachedBlock, this`count, disk, cache, saved
      ensures InRange(log, |old(disk[..])|) && disk[..] == Restore(old(disk[..]), log)
      ensures Valid() && Flat() == disk[..]
    {
      hide Times;
      hide BlockOf;
      hide InRange;
      hide Restore;
      hide Patch;
      hide Reversed;
      WholeBlocks(blockSize, disk.Length);
      ghost var stored := disk[..];
      uninstalling := true;
      dirty := false;
      cachedBlock := -1;
      ReversedInRange(log, Usable(), |stored|);
      var i := 0;
      RestoreNone(stored, log);
      while i < count
        invariant 0 <= i <= count == |log| && Valid() && uninstalling && Log() == Reversed(log)
        invariant InRange(log[|log| - i..], |stored|) && Flat() == Restore(stored, log[|log| - i..])
        decreases count - i
      {
        var ud := saved[i];
        RestoreOneMore(stored, log, i, Usable());
        var ok := Write(ud.data, ud.loc);
        i := i + 1;
      }
      assert log[|log| - i..] == log;
      FlushCache();
    }

    // The end of a failed installation: whatever was written, whether or not the cached
    // block ever reached the device, and whether or not a failed read has spoilt it, every
    // byte is again what it was at the start.
    method UndoAll()
      requires Recoverable()
      modifies this`uninstalling, this`dirty, this`cachedBlock, this`count, disk, cache, saved
      ensures Valid() && disk[..] == orig && Flat() == orig
    {
      ghost var log, stored := Log(), disk[..];
      ReverseLog();
      Uninstall(log);
      RestoreAll(orig, log, stored);
    }

    // device_read or device_write.
    method Do(op: Op) returns (ok: bool)
      requires Safe() && !uninstalling
      modifies this`dirty, this`cachedBlock, this`count, disk, cache, saved
      ensures op.ReadOp? ==> (ok <==> op.n == 0 || op.loc + op.n <= Usable())
      ensures op.WriteOp? ==> (ok <==> old(count) < LOG_MAX && (op.data == [] || op.loc + |op.data| <= Usable()))
      ensures ok ==> Safe() && Flat() == Applied(old(Flat()), op)
      ensures ok ==> count == old(count) + (if op.WriteOp? then 1 else 0)
      ensures Recoverable()
    {
      hide Undoable;
      hide InRange;
      hide Overlay;
      hide Times;
      hide BlockOf;
      match op
      case ReadOp(loc, n) =>
        var buffer := new nat[n];
        ok := Read(buffer, loc, n);
      case WriteOp(loc, data) =>
        ok := Write(data, loc);
        assert ok ==> |Log()| == old(count) + 1;
    }

    // bios_install: reads and writes up to the first that fails, or until it gives up for a
    // reason of its own, and then everything is undone; otherwise all of them and a flush.
    method Install(ops: seq<Op>, giveUp: bool) returns (ok: bool)
      requires Safe() && !uninstalling && count == 0 && Flat() == orig
      modifies this`uninstalling, this`dirty, this`cachedBlock, this`count, disk, cache, saved
      ensures Valid() && Flat() == disk[..]
      ensures ok <==> !giveUp && Writes(ops) <= LOG_MAX && forall i :: 0 <= i < |ops| ==> End(ops[i]) <= Usable()
      ensures disk[..] == if ok then Written(orig, ops) else orig
    {
      hide Undoable;
      hide InRange;
      hide Overlay;
      hide Times;
      hide BlockOf;
      for i := 0 to |ops|
        invariant Safe() && !uninstalling && count == Writes(ops[..i]) && Flat() == Written(orig, ops[..i])
        invariant forall k :: 0 <= k < i ==> End(ops[k]) <= Usable()
      {
        assert ops[..i + 1][..i] == ops[..i];
        ok := Do(ops[i]);
        if !ok {
          MoreWrites(ops, i + 1);
          UndoAll();
          return;
        }
      }
      assert ops[..|ops|] == ops;
      if giveUp {
        UndoAll();
        return false;
      }
      FlushCache();
      ok := true;
    }
  }

  datatype Op = ReadOp(loc: nat, n: nat) | WriteOp(loc: nat, data: Bytes)

  // The device needs bytes up to here; for no bytes none.
  function End(op: Op): nat {
    match op
    case ReadOp(loc, n) => if n == 0 then 0 else loc + n
    case WriteOp(loc, data) => if data == [] then 0 else loc + |data|
  }

  function Applied(flat: Bytes, op: Op): (r: Bytes)
    ensures |r| == |flat|
  {
    if op.ReadOp? || op.data == [] || |flat| < op.loc + |op.data| then flat else Patch(flat, op.loc, op.data)
  }

  // The device after the operations, in order.
  function Written(flat: Bytes, ops: seq<Op>): (r: Bytes)
    ensures |r| == |flat|
  {
    if ops == [] then flat else Applied(Written(flat, ops[..|ops| - 1]), ops[|ops| - 1])
  }

  predicate Puts(op: Op, x: nat) { op.WriteOp? && op.loc <= x < op.loc + |op.data| }

  // Each byte is then the one written last to its place,
  lemma {:induction false} LastWritten(flat: Bytes, ops: seq<Op>, x: nat, i: nat)
    requires i < |ops| && Puts(ops[i], x) && forall j :: i < j < |ops| ==> !Puts(ops[j], x)
    requires x < |flat| && ops[i].loc + |ops[i].data| <= |flat|
    ensures Written(flat, ops)[x] == ops[i].data[x - ops[i].loc]
  {
    if i + 1 < |ops| {
      LastWritten(flat, ops[..|ops| - 1], x, i);
    }
  }

  // or as it was when none was.
  lemma {:induction false} NeverWritten(flat: Bytes, ops: seq<Op>, x: nat)
    requires x < |flat| && forall j :: 0 <= j < |ops| ==> !Puts(ops[j], x)
    ensures Written(flat, ops)[x] == flat[x]
  {
    if ops != [] {
      NeverWritten(flat, ops[..|ops| - 1], x);
    }
  }

  function Writes(ops: seq<Op>): nat {
    if ops == [] then 0 else Writes(ops[..|ops| - 1]) + (if ops[|ops| - 1].WriteOp? then 1 else 0)
  }

  lemma {:induction false} MoreWrites(ops: seq<Op>, i: nat)
    requires i <= |ops|
    ensures Writes(ops[..i]) <= Writes(ops)
  {
    if i == |ops| {
      assert ops[..i] == ops;
    } else {
      assert ops[..|ops| - 1][..i] == ops[..i];
      MoreWrites(ops[..|ops| - 1], i);
    }
  }

  // On a device of 513 bytes, whose block size is 512, reading the last byte fails and
  // puts it in front of the cached first block, where the view (before) had shown a 0.
  method SpoiltCache() returns (d: Device, ok: bool, ghost before: Bytes)
    ensures d.blockSize == 512 && d.disk.Length == 513 && d.disk[0] == 0 && d.disk[512] == 1
    ensures !ok && before == d.disk[..]
    ensures d.Shape() && d.Flat()[0] == 1 && d.Flat() != before
  {
    hide InRange;
    hide Undoable;
    var content: Bytes := seq(512, i => 0) + [1];
    d := new Device(content, 512);
    var buffer := new nat[1];
    assert d.Usable() == 512;
    assert d.Start() == 0;
    before := d.Flat();
    ok := d.Read(buffer, 512, 1);
    assert FailPos(513, 512, 512) == 512 && LastStart(513, 512, 512, 0) == 0;
    assert BlockRead(content, 512, content[0..512])[0] == content[512];
  }

  // The bytes a write of n bytes replaces.
  function Overwritten(flat: Bytes, loc: nat, n: nat): Bytes {
    if n == 0 || |flat| < loc + n then [] else flat[loc..loc + n]
  }

  function Reversed(log: seq<Entry>): (r: seq<Entry>)
    ensures |r| == |log| && forall k :: 0 <= k < |log| ==> r[k] == log[|log| - 1 - k]
  {
    seq(|log|, k requires 0 <= k < |log| => log[|log| - 1 - k])
  }

  lemma ReversedInRange(log: seq<Entry>, n: nat, m: nat)
    requires InRange(Reversed(log), n) && n <= m
    ensures InRange(log, n) && InRange(log, m) && InRange(Reversed(log), m)
  {
    forall i | 0 <= i < |log| && log[i].data != [] ensures log[i].loc + |log[i].data| <= n {
      assert Reversed(log)[|log| - 1 - i] == log[i];
    }
  }

  lemma RestoreNone(stored: Bytes, log: seq<Entry>)
    ensures InRange(log[|log| - 0..], |stored|) && Restore(stored, log[|log| - 0..]) == stored
  {
    assert log[|log| - 0..] == [];
  }

  // Restoring goes through the log from its last entry to its first.
  lemma RestoreOneMore(stored: Bytes, log: seq<Entry>, i: nat, n: nat)
    requires i < |log| && InRange(Reversed(log), n) && n <= |stored| && InRange(log[|log| - i..], |stored|)
    ensures var ud := Reversed(log)[i];
      (ud.data == [] || ud.loc + |ud.data| <= n) && InRange(log[|log| - (i + 1)..], |stored|) &&
      Restore(stored, log[|log| - (i + 1)..]) ==
        var later := Restore(stored, log[|log| - i..]);
        if ud.data == [] then later else Patch(later, ud.loc, ud.data)
  {
    var ud := Reversed(log)[i];
    var rest := log[|log| - (i + 1)..];
    assert rest[0] == ud && rest[1..] == log[|log| - i..];
    hide Patch;
  }

  lemma ReversedRange(log: seq<Entry>, n: nat)
    requires InRange(log, n)
    ensures InRange(Reversed(log), n)
  {
  }

  lemma LongerLog(log: seq<Entry>, e: Entry, n: nat)
    requires InRange(log, n) && (e.data != [] ==> e.loc + |e.data| <= n)
    ensures InRange(log + [e], n)
  {
  }

  lemma StillUndoable(orig: Bytes, log: seq<Entry>, flat: Bytes, disk: Bytes, flat': Bytes, disk': Bytes, e: Entry, data: Bytes)
    requires Undoable(orig, log, flat) && Undoable(orig, log, disk)
    requires |e.data| == |data| && (data != [] ==> e.loc + |data| <= |flat| && e.data == flat[e.loc..e.loc + |data|])
    requires flat' == if data == [] then flat else Patch(flat, e.loc, data)
    requires OldOutside(disk', disk, flat, e.loc, |data|)
    ensures Undoable(orig, log + [e], flat') && Undoable(orig, log + [e], disk')
  {
    WriteKeepsUndoable(orig, log, flat, disk, flat', disk', e);
  }

  lemma EitherOutside(disk: Bytes, disk1: Bytes, disk0: Bytes, flat0: Bytes, loc: nat, n: nat)
    requires OldOutside(disk, disk1, flat0, loc, n) && (disk1 == disk0 || disk1 == flat0) && |disk0| == |flat0|
    ensures OldOutside(disk, disk0, flat0, loc, n)
  {
  }

  lemma SliceMore(buffer: Bytes, flat: Bytes, loc: nat, p: nat, chunk: nat)
    requires p + chunk <= |buffer| && loc + p + chunk <= |flat|
    requires p != 0 ==> buffer[..p] == flat[loc..loc + p]
    requires buffer[p..p + chunk] == flat[loc + p..loc + p + chunk]
    ensures buffer[..p + chunk] == flat[loc..loc + p + chunk]
  {
    assert buffer[..p + chunk] == buffer[..p] + buffer[p..p + chunk];
    assert flat[loc..loc + p + chunk] == flat[loc..loc + p] + flat[loc + p..loc + p + chunk];
  }

  lemma NothingChanged(disk: Bytes, flat: Bytes, loc: nat, n: nat)
    requires |disk| == |flat|
    ensures OldOutside(disk, disk, flat, loc, n)
  {
  }

  lemma OutsideStep(disk: Bytes, disk1: Bytes, flat1: Bytes, disk0: Bytes, flat0: Bytes, loc: nat, data: Bytes, progress: nat)
    requires OldOutside(disk1, disk0, flat0, loc, |data|) && loc + |data| <= |flat0| && progress <= |data|
    requires disk == disk1 || (disk == flat1 && flat1 == Patch(flat0, loc, data[..progress]))
    ensures OldOutside(disk, disk0, flat0, loc, |data|)
  {
  }

  // Outside the range every stored byte is an old stored or an old viewed one.
  ghost predicate OldOutside(disk: Bytes, disk0: Bytes, flat0: Bytes, loc: nat, n: nat) {
    |disk| == |disk0| == |flat0| &&
    forall x :: 0 <= x < |disk| && !(loc <= x < loc + n) ==> disk[x] == disk0[x] || disk[x] == flat0[x]
  }

  lemma StartOfDevice(b: nat, n: nat)
    requires 0 < b <= n
    ensures Times(0, b) == 0 && Times(BlockOf(n, b), b) <= n
  {
    DivBounds(n, b);
  }

  lemma Quotient(x: nat, q: nat, b: nat)
    requires q * b <= x < q * b + b
    ensures x / b == q
  {
    DivBounds(x, b);
    NextBlock(q, x / b, b);
    NextBlock(x / b, q, b);
  }

  // Bytes of one chunk lie in one block.
  lemma SameBlock(x: nat, chunk: nat, b: nat)
    requires 0 < b && 0 < chunk <= b - OffsetOf(x, b)
    ensures BlockOf(x + chunk - 1, b) == BlockOf(x, b)
  {
    DivBounds(x, b);
    Quotient(x + chunk - 1, x / b, b);
  }

  // A read from loc that has come to loc + progress, behind the last whole block.
  lemma FirstBlock(loc: nat, progress: nat, b: nat, n: nat)
    requires 0 < b && Times(BlockOf(n, b), b) <= loc + progress
    requires progress != 0 ==> loc + progress <= Times(BlockOf(n, b), b)
    ensures FailPos(n, b, loc) == Times(BlockOf(loc + progress, b), b)
    ensures progress != 0 ==> LastStart(n, b, loc, 0) == Times(BlockOf(loc + progress - 1, b), b)
    ensures progress == 0 ==> Times(BlockOf(n, b), b) <= loc
  {
    if progress != 0 {
      var k := n / b;
      assert loc + progress == k * b && 0 < k;
      assert (k - 1) * b == k * b - b;
      Quotient(k * b, k, b);
      Quotient(k * b - 1, k - 1, b);
    }
  }

  lemma BehindTail(x: nat, b: nat, n: nat)
    requires 0 < b && n / b < x / b
    ensures n <= x / b * b
  {
    DivBounds(n, b);
    Monotone(n / b + 1, x / b, b);
    assert (n / b + 1) * b == n / b * b + b;
  }
}
