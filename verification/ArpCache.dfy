// The ARP cache of kernel/arp_cache.cc: eight slots with a clock, against a list kept in
// order of last use.

module Addresses {
  import opened InternetChecksum

  type Ip = s: Bytes | |s| == 4 witness [0, 0, 0, 0]
  type Mac = s: Bytes | |s| == 6 witness [0, 0, 0, 0, 0, 0]
}

module RecencyList {
  import opened Basics
  import opened Addresses

  const CAPACITY := 8

  datatype Pair = Pair(ip: Ip, mac: Mac)

  type Pairs = seq<Pair>

  // The list without the pair for ip.
  function Without(l: Pairs, ip: Ip): (r: Pairs)
    ensures |r| <= |l|
  {
    if l == [] then []
    else if l[0].ip == ip then Without(l[1..], ip)
    else [l[0]] + Without(l[1..], ip)
  }

  function Take(l: Pairs): Pairs { if |l| <= CAPACITY then l else l[..CAPACITY] }

  function Find(l: Pairs, ip: Ip): Option<Mac> {
    if l == [] then None
    else if l[0].ip == ip then Some(l[0].mac)
    else Find(l[1..], ip)
  }

  // Most recent first; the ninth drops out.
  function Inserted(l: Pairs, ip: Ip, mac: Mac): Pairs { Take([Pair(ip, mac)] + Without(l, ip)) }

  function Touched(l: Pairs, ip: Ip): Pairs {
    match Find(l, ip)
    case Some(mac) => [Pair(ip, mac)] + Without(l, ip)
    case None => l
  }

  ghost predicate DistinctKeys(l: Pairs) {
    forall i, j :: 0 <= i < j < |l| ==> l[i].ip != l[j].ip
  }

  lemma {:induction false} WithoutIsCut(l: Pairs, k: nat)
    requires DistinctKeys(l) && k < |l|
    ensures Without(l, l[k].ip) == l[..k] + l[k + 1..] && Find(l, l[k].ip) == Some(l[k].mac)
  {
    if k == 0 {
      WithoutNothing(l[1..], l[0].ip);
      assert l[..0] + l[1..] == l[1..];
    } else {
      var rest := l[1..];
      assert l[k] == rest[k - 1] && l[0].ip != l[k].ip && DistinctKeys(rest);
      WithoutIsCut(rest, k - 1);
      hide DistinctKeys;
      CutBehindFirst(l, k);
    }
  }

  lemma CutBehindFirst(l: Pairs, k: nat)
    requires 0 < k < |l|
    ensures l[..k] + l[k + 1..] == [l[0]] + (l[1..][..k - 1] + l[1..][k..])
  {
  }

  lemma {:induction false} WithoutNothing(l: Pairs, ip: Ip)
    requires forall i :: 0 <= i < |l| ==> l[i].ip != ip
    ensures Without(l, ip) == l && Find(l, ip) == None
  {
    if l != [] {
      WithoutNothing(l[1..], ip);
    }
  }

  lemma {:induction false} FindInWithout(l: Pairs, ip: Ip, other: Ip)
    ensures Find(Without(l, ip), other) == if other == ip then None else Find(l, other)
  {
    if l != [] {
      FindInWithout(l[1..], ip, other);
    }
  }

  // --- whole runs ----------------------------------------------------------

  datatype Op = InsertOp(ip: Ip, mac: Mac) | LookupOp(ip: Ip)

  function Run(ops: seq<Op>): Pairs {
    if ops == [] then []
    else
      var before := Run(ops[..|ops| - 1]);
      match ops[|ops| - 1]
      case InsertOp(ip, mac) => Inserted(before, ip, mac)
      case LookupOp(ip) => Touched(before, ip)
  }

  // The IPs used, in order: every insertion and every lookup that hits.
  function Used(ops: seq<Op>): seq<Ip> {
    if ops == [] then []
    else
      var prefix := ops[..|ops| - 1];
      Used(prefix) +
      match ops[|ops| - 1]
      case InsertOp(ip, _) => [ip]
      case LookupOp(ip) => if Find(Run(prefix), ip) != None then [ip] else []
  }

  function Drop(l: seq<Ip>, ip: Ip): (r: seq<Ip>) {
    if l == [] then [] else if l[0] == ip then Drop(l[1..], ip) else [l[0]] + Drop(l[1..], ip)
  }

  // The different IPs of a sequence of uses, the most recently used first.
  function Recent(used: seq<Ip>): seq<Ip> {
    if used == [] then []
    else
      var last := used[|used| - 1];
      [last] + Drop(Recent(used[..|used| - 1]), last)
  }

  function LastMac(ops: seq<Op>, ip: Ip): Option<Mac> {
    if ops == [] then None
    else
      var op := ops[|ops| - 1];
      if op.InsertOp? && op.ip == ip then Some(op.mac) else LastMac(ops[..|ops| - 1], ip)
  }

  function Keys(l: Pairs): (r: seq<Ip>)
    ensures |r| == |l|
  {
    if l == [] then [] else [l[0].ip] + Keys(l[1..])
  }

  function First(l: seq<Ip>): seq<Ip> { if |l| <= CAPACITY then l else l[..CAPACITY] }

  lemma {:induction false} KeysWithout(l: Pairs, ip: Ip)
    ensures Keys(Without(l, ip)) == Drop(Keys(l), ip)
  {
    if l != [] {
      KeysWithout(l[1..], ip);
    }
  }

  lemma {:induction false} KeyAt(l: Pairs, k: nat)
    requires k <= |l|
    ensures Keys(l[..k]) == Keys(l)[..k]
    ensures k < |l| ==> Keys(l)[k] == l[k].ip
  {
    if k > 0 {
      KeyAt(l[1..], k - 1);
      assert l[..k] == [l[0]] + l[1..][..k - 1];
    }
  }

  lemma {:induction false} FindMeansKey(l: Pairs, ip: Ip)
    ensures Find(l, ip) != None <==> ip in Keys(l)
  {
    if l != [] {
      FindMeansKey(l[1..], ip);
    }
  }

  ghost predicate Different(l: seq<Ip>) {
    forall i, j :: 0 <= i < j < |l| ==> l[i] != l[j]
  }

  lemma {:induction false} DropMembers(l: seq<Ip>, ip: Ip)
    requires Different(l)
    ensures Different(Drop(l, ip)) && forall x :: x in Drop(l, ip) <==> x in l && x != ip
    ensures ip !in l ==> Drop(l, ip) == l
    ensures ip in l ==> |Drop(l, ip)| == |l| - 1
  {
    if l != [] {
      DropMembers(l[1..], ip);
      assert l == [l[0]] + l[1..];
      if l[0] == ip {
        assert ip !in l[1..];
      } else {
        assert l[0] !in l[1..];
      }
    }
  }

  lemma {:induction false} RecentDifferent(used: seq<Ip>)
    ensures Different(Recent(used))
  {
    if used != [] {
      RecentDifferent(used[..|used| - 1]);
      DropMembers(Recent(used[..|used| - 1]), used[|used| - 1]);
    }
  }

  // Dropping from the first eight and dropping from all agree on the first seven.
  lemma {:induction false} DropPrefix(l: seq<Ip>, ip: Ip, n: nat)
    requires Different(l) && n <= |l|
    ensures Drop(l[..n], ip) <= Drop(l, ip)
  {
    if n > 0 {
      assert l[..n][1..] == l[1..][..n - 1];
      DropPrefix(l[1..], ip, n - 1);
    }
  }

  lemma FirstStep(l: seq<Ip>, ip: Ip)
    requires Different(l)
    ensures First([ip] + Drop(First(l), ip)) == First([ip] + Drop(l, ip))
    ensures ip in First(l) ==> |[ip] + Drop(First(l), ip)| <= CAPACITY
  {
    DropMembers(l, ip);
    DropMembers(First(l), ip);
    if |l| > CAPACITY {
      DropPrefix(l, ip, CAPACITY);
    }
  }

  // In every run the cache holds the eight most recently used IPs in that order.
  lemma {:induction false} HoldsMostRecent(ops: seq<Op>)
    ensures Keys(Run(ops)) == First(Recent(Used(ops)))
    decreases |ops|
  {
    if ops != [] {
      var prefix, op := ops[..|ops| - 1], ops[|ops| - 1];
      HoldsMostRecent(prefix);
      var before, used := Run(prefix), Used(prefix);
      RecentDifferent(used);
      FirstStep(Recent(used), op.ip);
      KeysWithout(before, op.ip);
      FindMeansKey(before, op.ip);
      assert (used + [op.ip])[..|used|] == used;
      match op
      case InsertOp(ip, mac) =>
        var l := [Pair(ip, mac)] + Without(before, ip);
        assert l[1..] == Without(before, ip);
        if |l| > CAPACITY {
          KeyAt(l, CAPACITY);
        }
      case LookupOp(ip) =>
        if Find(before, ip) != None {
          var l := [Pair(ip, Find(before, ip).value)] + Without(before, ip);
          assert l[1..] == Without(before, ip);
        } else {
          assert used + [] == used;
        }
    }
  }

  lemma {:induction false} FindPrefix(l: Pairs, n: nat, ip: Ip)
    requires n <= |l| && Find(l[..n], ip) != None
    ensures Find(l, ip) == Find(l[..n], ip)
  {
    if l[0].ip != ip {
      assert l[..n][1..] == l[1..][..n - 1];
      FindPrefix(l[1..], n - 1, ip);
    }
  }

  // Each with the MAC inserted last for it.
  lemma {:induction false} HoldsLastMac(ops: seq<Op>, ip: Ip)
    requires Find(Run(ops), ip) != None
    ensures LastMac(ops, ip) == Find(Run(ops), ip)
    decreases |ops|
  {
    if ops != [] {
      var prefix, op := ops[..|ops| - 1], ops[|ops| - 1];
      var before := Run(prefix);
      FindInWithout(before, op.ip, ip);
      match op
      case InsertOp(key, mac) =>
        var l := [Pair(key, mac)] + Without(before, key);
        assert l[1..] == Without(before, key);
        if |l| > CAPACITY {
          FindPrefix(l, CAPACITY, ip);
        }
        if key != ip {
          HoldsLastMac(prefix, ip);
        }
      case LookupOp(key) =>
        if Find(before, key) != None {
          var l := [Pair(key, Find(before, key).value)] + Without(before, key);
          assert l[1..] == Without(before, key);
        }
        HoldsLastMac(prefix, ip);
    }
  }
}

module ArpCaching {
  import opened Basics
  import opened Addresses
  import opened RecencyList

  const CLOCK_LIMIT: nat := 0x1_0000_0000_0000_0000

  datatype ArpEntry = ArpEntry(valid: bool, ip: Ip, mac: Mac, lastSeen: nat)

  const EMPTY := ArpEntry(false, [0, 0, 0, 0], [0, 0, 0, 0, 0, 0], 0)

  // slots[k] is where the k-th most recent pair sits; stamps fall along the list.
  ghost predicate SlotsOk(entries: seq<ArpEntry>, clock: nat, list: Pairs, slots: seq<nat>) {
    && |entries| == CAPACITY && |slots| == |list| <= CAPACITY && DistinctKeys(list)
    && (forall j, k :: 0 <= j < k < |slots| ==> slots[j] != slots[k])
    && (forall k :: 0 <= k < |slots| ==> Shows(entries, clock, list, slots, k))
    && (forall j, k :: 0 <= j < k < |slots| ==> Later(entries, slots, j, k))
  }

  ghost predicate Shows(entries: seq<ArpEntry>, clock: nat, list: Pairs, slots: seq<nat>, k: nat)
    requires k < |slots| && k < |list|
  {
    slots[k] < |entries| &&
    var e := entries[slots[k]];
    e.valid && e.ip == list[k].ip && e.mac == list[k].mac && e.lastSeen <= clock
  }

  ghost predicate Later(entries: seq<ArpEntry>, slots: seq<nat>, j: nat, k: nat)
    requires j < |slots| && k < |slots|
  {
    slots[j] < |entries| && slots[k] < |entries| && entries[slots[k]].lastSeen < entries[slots[j]].lastSeen
  }

  // Every valid slot is in the list, except possibly one.
  ghost predicate AllListed(entries: seq<ArpEntry>, slots: seq<nat>, except: int) {
    forall i :: 0 <= i < |entries| && entries[i].valid && i != except ==> i in slots
  }

  ghost predicate CacheOk(entries: seq<ArpEntry>, clock: nat, list: Pairs, slots: seq<nat>) {
    SlotsOk(entries, clock, list, slots) && AllListed(entries, slots, -1)
  }

  // Writing a freshly stamped pair into a slot that is off the list puts it in front.
  lemma PutInFront(entries: seq<ArpEntry>, clock: nat, rest: Pairs, slots: seq<nat>, s: nat, ip: Ip, mac: Mac, clock': nat)
    requires SlotsOk(entries, clock, rest, slots) && AllListed(entries, slots, s)
    requires s < CAPACITY && s !in slots && |rest| < CAPACITY && clock < clock'
    requires forall k :: 0 <= k < |rest| ==> rest[k].ip != ip
    ensures CacheOk(entries[s := ArpEntry(true, ip, mac, clock')], clock', [Pair(ip, mac)] + rest, [s] + slots)
  {
    var entries', list', slots' := entries[s := ArpEntry(true, ip, mac, clock')], [Pair(ip, mac)] + rest, [s] + slots;
    forall k | 0 <= k < |slots'| ensures Shows(entries', clock', list', slots', k) {
      if k > 0 {
        assert Shows(entries, clock, rest, slots, k - 1) && slots[k - 1] in slots;
      }
    }
    forall j, k | 0 <= j < k < |slots'| ensures Later(entries', slots', j, k) {
      assert Shows(entries, clock, rest, slots, k - 1) && slots[k - 1] in slots;
      if j > 0 {
        assert Later(entries, slots, j - 1, k - 1) && slots[j - 1] in slots;
      }
    }
    assert forall x :: x in slots' <==> x == s || x in slots;
  }

  // Taking one pair out of the list.
  lemma TakeOut(entries: seq<ArpEntry>, clock: nat, list: Pairs, slots: seq<nat>, k: nat)
    requires CacheOk(entries, clock, list, slots) && k < |list|
    ensures var rest, slots' := list[..k] + list[k + 1..], slots[..k] + slots[k + 1..];
      SlotsOk(entries, clock, rest, slots') && AllListed(entries, slots', slots[k]) && slots[k] !in slots' &&
      slots[k] < CAPACITY && forall j :: 0 <= j < |rest| ==> rest[j].ip != list[k].ip
  {
    var rest, slots' := list[..k] + list[k + 1..], slots[..k] + slots[k + 1..];
    assert Shows(entries, clock, list, slots, k);
    assert forall j :: 0 <= j < |slots'| ==> slots'[j] == slots[if j < k then j else j + 1];
    forall j | 0 <= j < |slots'| ensures Shows(entries, clock, rest, slots', j) {
      assert Shows(entries, clock, list, slots, if j < k then j else j + 1);
    }
    forall i, j | 0 <= i < j < |slots'| ensures Later(entries, slots', i, j) {
      assert Later(entries, slots, if i < k then i else i + 1, if j < k then j else j + 1);
    }
    forall i | 0 <= i < |entries| && entries[i].valid && i != slots[k] ensures i in slots' {
      assert i in slots;
      var j :| 0 <= j < |slots| && slots[j] == i;
      assert slots'[if j < k then j else j - 1] == i;
    }
  }

  class ArpCache {
    const entries: array<ArpEntry>
    var clock: nat
    ghost var list: Pairs
    ghost var slots: seq<nat>

    ghost predicate Valid()
      reads this, entries
    {
      CacheOk(entries[..], clock, list, slots)
    }

    // arp_cache_reset
    constructor ()
      ensures Valid() && list == [] && clock == 0 && fresh(entries)
    {
      entries := new ArpEntry[CAPACITY](_ => EMPTY);
      clock, list, slots := 0, [], [];
    }

    // find_entry_locked
    method FindEntry(ip: Ip) returns (slot: int, ghost k: nat)
      requires Valid()
      ensures slot == -1 ==> forall j :: 0 <= j < |list| ==> list[j].ip != ip
      ensures slot != -1 ==> k < |list| == |slots| && slots[k] == slot < CAPACITY && list[k].ip == ip
      ensures slot != -1 ==> var e := entries[slot]; e.valid && e.ip == ip && e.mac == list[k].mac
    {
      k := 0;
      for i := 0 to CAPACITY
        invariant forall x :: 0 <= x < i ==> !(entries[x].valid && entries[x].ip == ip)
      {
        if entries[i].valid && entries[i].ip == ip {
          k := SlotPosition(entries[..], clock, list, slots, i);
          return i, k;
        }
      }
      NotCached(entries[..], clock, list, slots, ip);
      slot := -1;
    }

    // choose_insert_slot_locked: a free slot, or the least recently used one.
    method ChooseSlot() returns (slot: nat)
      requires Valid()
      ensures slot < CAPACITY
      ensures if |list| < CAPACITY then !entries[slot].valid else slot == slots[CAPACITY - 1]
    {
      for i := 0 to CAPACITY
        invariant forall x :: 0 <= x < i ==> entries[x].valid
      {
        if !entries[i].valid {
          SomeFree(entries[..], clock, list, slots, i);
          return i;
        }
      }
      AllUsed(entries[..], clock, list, slots);
      slot := 0;
      for i := 1 to CAPACITY
        invariant slot < i && forall x :: 0 <= x < i ==> entries[slot].lastSeen <= entries[x].lastSeen
      {
        if entries[i].lastSeen < entries[slot].lastSeen {
          slot := i;
        }
      }
      OldestIsLast(entries[..], clock, list, slots, slot);
    }

    // arp_cache_insert
    method Insert(ip: Ip, mac: Mac)
      requires Valid() && clock + 1 < CLOCK_LIMIT
      modifies this, entries
      ensures Valid() && list == Inserted(old(list), ip, mac) && clock == old(clock) + 1
    {
      CacheShape(entries[..], clock, list, slots);
      hide CacheOk;
      hide SlotsOk;
      hide AllListed;
      hide DistinctKeys;
      var existing, k := FindEntry(ip);
      ghost var rest, restSlots := list, slots;
      var slot: nat;
      if existing >= 0 {
        slot := existing;
        TakeOut(entries[..], clock, list, slots, k);
        WithoutIsCut(list, k);
        rest, restSlots := list[..k] + list[k + 1..], slots[..k] + slots[k + 1..];
      } else {
        slot := ChooseSlot();
        WithoutNothing(list, ip);
        if |list| == CAPACITY {
          TakeOut(entries[..], clock, list, slots, CAPACITY - 1);
          rest, restSlots := list[..CAPACITY - 1] + list[CAPACITY..], slots[..CAPACITY - 1] + slots[CAPACITY..];
        } else {
          FreeIsOffList(entries[..], clock, list, slots, slot);
        }
      }
      PutInFront(entries[..], clock, rest, restSlots, slot, ip, mac, clock + 1);
      clock := clock + 1;
      entries[slot] := ArpEntry(true, ip, mac, clock);
      list, slots := [Pair(ip, mac)] + rest, [slot] + restSlots;
      assert entries[..] == old(entries[..])[slot := ArpEntry(true, ip, mac, clock)];
    }

    // arp_cache_lookup: a hit counts as a use.
    method Lookup(ip: Ip) returns (mac: Option<Mac>)
      requires Valid() && clock + 1 < CLOCK_LIMIT
      modifies this, entries
      ensures Valid() && mac == Find(old(list), ip) && list == Touched(old(list), ip) && clock <= old(clock) + 1
    {
      CacheShape(entries[..], clock, list, slots);
      hide CacheOk;
      hide SlotsOk;
      hide AllListed;
      hide DistinctKeys;
      var slot, k := FindEntry(ip);
      if slot < 0 {
        WithoutNothing(list, ip);
        return None;
      }
      TakeOut(entries[..], clock, list, slots, k);
      WithoutIsCut(list, k);
      ghost var rest, restSlots := list[..k] + list[k + 1..], slots[..k] + slots[k + 1..];
      mac := Some(entries[slot].mac);
      PutInFront(entries[..], clock, rest, restSlots, slot, ip, mac.value, clock + 1);
      clock := clock + 1;
      entries[slot] := entries[slot].(lastSeen := clock);
      list, slots := [Pair(ip, mac.value)] + rest, [slot as nat] + restSlots;
      assert entries[..] == old(entries[..])[slot := ArpEntry(true, ip, mac.value, clock)];
    }
  }

  lemma CacheShape(entries: seq<ArpEntry>, clock: nat, list: Pairs, slots: seq<nat>)
    requires CacheOk(entries, clock, list, slots)
    ensures |entries| == CAPACITY && |slots| == |list| <= CAPACITY && DistinctKeys(list)
    ensures SlotsOk(entries, clock, list, slots) && AllListed(entries, slots, -1)
  {
  }

  lemma SlotPosition(entries: seq<ArpEntry>, clock: nat, list: Pairs, slots: seq<nat>, i: nat) returns (k: nat)
    requires CacheOk(entries, clock, list, slots) && i < |entries| && entries[i].valid
    ensures k < |list| && slots[k] == i && list[k].ip == entries[i].ip && list[k].mac == entries[i].mac
  {
    assert i in slots;
    k :| 0 <= k < |slots| && slots[k] == i;
    assert Shows(entries, clock, list, slots, k);
  }

  lemma NotCached(entries: seq<ArpEntry>, clock: nat, list: Pairs, slots: seq<nat>, ip: Ip)
    requires CacheOk(entries, clock, list, slots)
    requires forall x :: 0 <= x < |entries| ==> !(entries[x].valid && entries[x].ip == ip)
    ensures forall j :: 0 <= j < |list| ==> list[j].ip != ip
  {
    forall j | 0 <= j < |list| ensures list[j].ip != ip {
      assert Shows(entries, clock, list, slots, j);
    }
  }

  lemma FreeIsOffList(entries: seq<ArpEntry>, clock: nat, list: Pairs, slots: seq<nat>, i: nat)
    requires CacheOk(entries, clock, list, slots) && i < |entries| && !entries[i].valid
    ensures i !in slots && AllListed(entries, slots, i)
  {
    forall k | 0 <= k < |slots| ensures slots[k] != i {
      assert Shows(entries, clock, list, slots, k);
    }
  }

  lemma {:induction false} SlotSet(slots: seq<nat>) returns (e: set<nat>)
    requires forall j, k :: 0 <= j < k < |slots| ==> slots[j] != slots[k]
    ensures |e| == |slots| && forall x :: x in e <==> x in slots
  {
    e := {};
    if slots != [] {
      e := SlotSet(slots[1..]);
      assert slots == [slots[0]] + slots[1..];
      assert slots[0] !in slots[1..];
      e := e + {slots[0]};
    }
  }

  ghost function Range(n: nat): (r: set<nat>)
    ensures |r| == n && forall x: nat :: x in r <==> x < n
  {
    if n == 0 then {} else
      var before := Range(n - 1);
      assert n - 1 !in before;
      before + {n - 1}
  }

  lemma SubsetCount(a: set<nat>, b: set<nat>)
    requires a <= b
    ensures |a| <= |b| && (|a| == |b| ==> a == b)
    ensures a != b ==> |a| < |b|
  {
    var rest := b - a;
    assert b == a + rest;
    assert |b| == |a| + |rest|;
  }

  lemma SomeFree(entries: seq<ArpEntry>, clock: nat, list: Pairs, slots: seq<nat>, i: nat)
    requires CacheOk(entries, clock, list, slots) && i < |entries| && !entries[i].valid
    ensures |list| < CAPACITY
  {
    var e := SlotSet(slots);
    FreeIsOffList(entries, clock, list, slots, i);
    forall x | x in e ensures x in Range(CAPACITY) {
      var k :| 0 <= k < |slots| && slots[k] == x;
      assert Shows(entries, clock, list, slots, k);
    }
    assert i in Range(CAPACITY) && i !in e;
    SubsetCount(e, Range(CAPACITY));
  }

  lemma AllUsed(entries: seq<ArpEntry>, clock: nat, list: Pairs, slots: seq<nat>)
    requires CacheOk(entries, clock, list, slots) && forall x :: 0 <= x < |entries| ==> entries[x].valid
    ensures |list| == CAPACITY
  {
    hide Shows;
    hide Later;
    hide DistinctKeys;
    var e := SlotSet(slots);
    forall x | x in Range(CAPACITY) ensures x in e {
      assert entries[x].valid;
    }
    SubsetCount(Range(CAPACITY), e);
  }

  lemma OldestIsLast(entries: seq<ArpEntry>, clock: nat, list: Pairs, slots: seq<nat>, slot: nat)
    requires CacheOk(entries, clock, list, slots) && |list| == CAPACITY && slot < |entries| && entries[slot].valid
    requires forall x :: 0 <= x < |entries| ==> entries[slot].lastSeen <= entries[x].lastSeen
    ensures slot == slots[CAPACITY - 1]
  {
    var k := SlotPosition(entries, clock, list, slots, slot);
    assert k < CAPACITY - 1 ==> Later(entries, slots, k, CAPACITY - 1);
  }
}
