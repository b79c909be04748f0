// The split virtqueues of kernel/virtio_net.cc (VIRTIO 1.2 section 2.7): the driver's
// code and, as arbitrary interleaved turns, a conforming device.

module Rings {
  import opened Basics

  const SLOTS := 8
  const WRAP := 0x1_0000   // ring indices are 16 bits wide

  type Bytes = seq<nat>

  // The ring holds these items from the given running index on.
  ghost predicate RingHolds(ring: seq<nat>, start: nat, items: seq<nat>) {
    |ring| == SLOTS && |items| <= SLOTS &&
    forall k {:trigger items[k]} :: 0 <= k < |items| ==> ring[(start + k) % SLOTS] == items[k]
  }

  lemma WrapIndex(x: nat)
    ensures x % WRAP % SLOTS == x % SLOTS
  {
    var q := x / WRAP;
    assert x == x % WRAP + SLOTS * (0x2000 * q);
    Shift(x % WRAP, 0x2000 * q);
  }

  lemma {:induction false} Shift(x: nat, q: nat)
    ensures (x + SLOTS * q) % SLOTS == x % SLOTS
  {
    if q > 0 {
      Shift(x, q - 1);
    }
  }

  // Indices that differ by less than the wrap are equal only when the totals are.
  lemma WrapEqual(x: nat, y: nat)
    requires x <= y < x + WRAP
    ensures x % WRAP == y % WRAP <==> x == y
  {
  }

  lemma WrapNext(x: nat)
    ensures (x % WRAP + 1) % WRAP == (x + 1) % WRAP
  {
  }

  lemma PlacesDiffer(start: nat, j: nat, k: nat)
    requires j < k < SLOTS
    ensures (start + j) % SLOTS != (start + k) % SLOTS
  {
  }

  lemma RingPush(ring: seq<nat>, start: nat, items: seq<nat>, x: nat)
    requires RingHolds(ring, start, items) && |items| < SLOTS
    ensures RingHolds(ring[(start + |items|) % SLOTS := x], start, items + [x])
  {
    var ring', items' := ring[(start + |items|) % SLOTS := x], items + [x];
    forall k {:trigger items'[k]} | 0 <= k < |items'| ensures ring'[(start + k) % SLOTS] == items'[k] {
      if k < |items| {
        assert items[k] == items'[k];
        PlacesDiffer(start, k, |items|);
      }
    }
  }

  lemma RingPop(ring: seq<nat>, start: nat, items: seq<nat>)
    requires RingHolds(ring, start, items) && items != []
    ensures ring[start % SLOTS] == items[0] && RingHolds(ring, start + 1, items[1..])
  {
    assert ring[(start + 0) % SLOTS] == items[0];
    forall k {:trigger items[1..][k]} | 0 <= k < |items[1..]| ensures ring[(start + 1 + k) % SLOTS] == items[1..][k] {
      assert ring[(start + (k + 1)) % SLOTS] == items[k + 1];
    }
  }

  // Every slot in flight is in exactly one of: published and not yet taken by the
  // device, held by the device, completed and not yet reclaimed.
  ghost predicate Flight(avail: seq<nat>, held: set<nat>, used: seq<nat>) {
    NoDup(avail) && NoDup(used) &&
    (forall x :: x in avail ==> x < SLOTS && x !in held && x !in used) &&
    (forall x :: x in held ==> x < SLOTS && x !in used) &&
    (forall x :: x in used ==> x < SLOTS)
  }

  ghost predicate Busy(avail: seq<nat>, held: set<nat>, used: seq<nat>, x: nat) {
    x in avail || x in held || x in used
  }

  lemma {:induction false} Distinct(s: seq<nat>) returns (e: set<nat>)
    requires NoDup(s)
    ensures |e| == |s| && forall x :: x in e <==> x in s
  {
    if s == [] {
      e := {};
    } else {
      e := Distinct(s[1..]);
      assert s[0] !in s[1..] && forall x :: x in s <==> x == s[0] || x in s[1..];
      e := e + {s[0]};
    }
  }

  ghost predicate Full(e: set<nat>, n: nat) {
    forall x: nat :: x < n ==> x in e
  }

  lemma {:induction false} AtMost(e: set<nat>, n: nat)
    requires forall x :: x in e ==> x < n
    ensures |e| <= n
    ensures |e| == n <==> Full(e, n)
  {
    if n == 0 {
      assert e == {};
    } else {
      var f := e - {n - 1};
      AtMost(f, n - 1);
      assert e == if n - 1 in e then f + {n - 1} else f;
      assert Full(e, n) <==> n - 1 in e && Full(f, n - 1);
    }
  }

  lemma Append(a: seq<Bytes>, b: seq<Bytes>, c: seq<Bytes>)
    ensures (a + b) + c == a + (b + c)
  {
  }

  lemma PopFlight(avail: seq<nat>, held: set<nat>, used: seq<nat>)
    requires Flight(avail, held, used) && used != []
    ensures Flight(avail, held, used[1..]) && used[0] in used
    ensures forall x: nat :: Busy(avail, held, used[1..], x) <==> Busy(avail, held, used, x) && x != used[0]
  {
    assert used == [used[0]] + used[1..];
    assert used[0] !in used[1..] && forall x :: x in used[1..] ==> x in used;
  }

  // The slots in flight, counted.
  lemma FlightCount(avail: seq<nat>, held: set<nat>, used: seq<nat>)
    requires Flight(avail, held, used)
    ensures |avail| + |held| + |used| <= SLOTS
    ensures |avail| + |held| + |used| == SLOTS <==> forall x: nat :: x < SLOTS ==> Busy(avail, held, used, x)
  {
    var a := Distinct(avail);
    var u := Distinct(used);
    var e := a + held + u;
    assert |a + held| == |a| + |held| by { assert a !! held; }
    assert |e| == |a| + |held| + |u| by { assert (a + held) !! u; }
    assert forall x: nat :: x in e <==> Busy(avail, held, used, x);
    AtMost(e, SLOTS);
  }

  lemma PopAvail(avail: seq<nat>, held: set<nat>, used: seq<nat>)
    requires Flight(avail, held, used) && avail != []
    ensures Flight(avail[1..], held + {avail[0]}, used) && avail[0] in avail
    ensures forall x: nat :: Busy(avail[1..], held + {avail[0]}, used, x) <==> Busy(avail, held, used, x)
  {
    assert avail == [avail[0]] + avail[1..];
    assert avail[0] !in avail[1..] && forall x :: x in avail[1..] ==> x in avail;
  }

  lemma PushUsed(avail: seq<nat>, held: set<nat>, used: seq<nat>, slot: nat)
    requires Flight(avail, held, used) && slot in held
    ensures Flight(avail, held - {slot}, used + [slot]) && slot < SLOTS && |used| < SLOTS
    ensures forall x: nat :: Busy(avail, held - {slot}, used + [slot], x) <==> Busy(avail, held, used, x)
  {
    FlightCount(avail, held, used);
    assert forall x :: x in used + [slot] <==> x in used || x == slot;
  }

  lemma PushAvail(avail: seq<nat>, held: set<nat>, used: seq<nat>, slot: nat)
    requires Flight(avail, held, used) && !Busy(avail, held, used, slot) && slot < SLOTS
    ensures Flight(avail + [slot], held, used)
    ensures forall x: nat :: Busy(avail + [slot], held, used, x) <==> Busy(avail, held, used, x) || x == slot
  {
    assert forall x :: x in avail + [slot] <==> x in avail || x == slot;
  }

  lemma PopUsed(avail: seq<nat>, held: set<nat>, used: seq<nat>)
    requires Flight(avail, held, used) && used != []
    ensures Flight(avail, held + {used[0]}, used[1..]) && used[0] !in held
    ensures forall x: nat :: Busy(avail, held + {used[0]}, used[1..], x) <==> Busy(avail, held, used, x)
  {
    PopFlight(avail, held, used);
    assert used[0] in used && used[0] !in used[1..];
  }
}

module VirtioTransmit {
  import opened Rings

  const HEADER_BYTES := 12
  const MAX_FRAME := 2048

  // The virtio header, all zero: no offload is negotiated.
  const HEADER: Bytes := [0, 0, 0, 0, 0, 0, 0, 0, 0, 0, 0, 0]

  // The queue as memory shows it, with running totals and ownership for the proofs.
  datatype Tx = Tx(
    availRing: seq<nat>, availIdx: nat, usedRing: seq<nat>, usedIdx: nat, usedConsume: nat,
    inUse: seq<bool>, bufs: seq<Bytes>, pending: nat,
    taken: nat, reclaimed: nat, avail: seq<nat>, held: set<nat>, used: seq<nat>, sent: seq<Bytes>)

  // pending counts the buffers in use, which are the entries published and not reclaimed,
  // on both sides of every wrap of the 16-bit indices.
  ghost predicate Counted(v: Tx) {
    v.availIdx == (v.taken + |v.avail|) % WRAP &&
    v.usedIdx == (v.reclaimed + |v.used|) % WRAP &&
    v.usedConsume == v.reclaimed % WRAP &&
    v.taken == v.reclaimed + |v.used| + |v.held| &&
    v.pending == |v.avail| + |v.held| + |v.used|
  }

  ghost predicate Placed(v: Tx) {
    Flight(v.avail, v.held, v.used) &&
    |v.inUse| == SLOTS && |v.bufs| == SLOTS &&
    (forall i: nat :: i < SLOTS ==> (v.inUse[i] <==> Busy(v.avail, v.held, v.used, i))) &&
    RingHolds(v.availRing, v.taken, v.avail) &&
    RingHolds(v.usedRing, v.reclaimed, v.used)
  }

  // What is published and not yet taken is what was sent, in order.
  ghost predicate Carries(v: Tx) {
    |v.sent| == v.taken + |v.avail| && |v.bufs| == SLOTS &&
    forall k {:trigger v.avail[k]} :: 0 <= k < |v.avail| ==>
      v.avail[k] < SLOTS && v.bufs[v.avail[k]] == HEADER + v.sent[v.taken + k]
  }

  ghost predicate TxOk(v: Tx) {
    Counted(v) && Placed(v) && Carries(v)
  }

  // --- the steps -----------------------------------------------------------

  // One turn of reclaim_virtio_tx_locked.
  ghost function Reclaim(v: Tx): Tx
    requires v.used != [] && v.used[0] < |v.inUse| && 0 < v.pending
  {
    v.(inUse := v.inUse[v.used[0] := false], pending := v.pending - 1,
       usedConsume := (v.usedConsume + 1) % WRAP, reclaimed := v.reclaimed + 1, used := v.used[1..])
  }

  ghost function Publish(v: Tx, slot: nat, data: Bytes): Tx
    requires slot < |v.inUse| && slot < |v.bufs| && |v.availRing| == SLOTS
  {
    v.(inUse := v.inUse[slot := true], bufs := v.bufs[slot := HEADER + data],
       availRing := v.availRing[v.availIdx % SLOTS := slot], availIdx := (v.availIdx + 1) % WRAP,
       pending := v.pending + 1, avail := v.avail + [slot], sent := v.sent + [data])
  }

  // The device takes the next published entry.
  ghost function Take(v: Tx): Tx
    requires v.avail != []
  {
    v.(taken := v.taken + 1, held := v.held + {v.avail[0]}, avail := v.avail[1..])
  }

  // The device completes one of the entries it holds, in any order.
  ghost function Complete(v: Tx, slot: nat): Tx
    requires |v.usedRing| == SLOTS
  {
    v.(held := v.held - {slot}, used := v.used + [slot],
       usedRing := v.usedRing[v.usedIdx % SLOTS := slot], usedIdx := (v.usedIdx + 1) % WRAP)
  }

  lemma ReclaimCounted(v: Tx)
    requires TxOk(v) && v.used != []
    ensures v.used[0] < SLOTS && v.usedRing[v.usedConsume % SLOTS] == v.used[0] && v.inUse[v.used[0]] && 0 < v.pending
    ensures Counted(Reclaim(v))
  {
    assert v.used[0] in v.used;
    RingPop(v.usedRing, v.reclaimed, v.used);
    WrapIndex(v.reclaimed);
    WrapNext(v.reclaimed);
  }

  lemma ReclaimKeeps(v: Tx)
    requires TxOk(v) && v.used != []
    ensures |v.usedRing| == SLOTS && |v.inUse| == SLOTS && v.used[0] < SLOTS
    ensures v.usedRing[v.usedConsume % SLOTS] == v.used[0] && v.inUse[v.used[0]] && 0 < v.pending
    ensures TxOk(Reclaim(v))
  {
    ReclaimCounted(v);
    RingPop(v.usedRing, v.reclaimed, v.used);
    var v' := Reclaim(v);
    hide RingHolds;
    PopFlight(v.avail, v.held, v.used);
    assert Carries(v');
  }

  lemma PublishKeeps(v: Tx, slot: nat, data: Bytes)
    requires TxOk(v) && slot < SLOTS && !v.inUse[slot]
    ensures TxOk(Publish(v, slot, data))
  {
    FlightCount(v.avail, v.held, v.used);
    RingPush(v.availRing, v.taken, v.avail, slot);
    WrapIndex(v.taken + |v.avail|);
    WrapNext(v.taken + |v.avail|);
    hide RingHolds;
    var v' := Publish(v, slot, data);
    assert forall x :: x in v'.avail <==> x in v.avail || x == slot;
    PublishCarries(v, slot, data);
  }

  lemma PublishCarries(v: Tx, slot: nat, data: Bytes)
    requires Carries(v) && slot < SLOTS && slot !in v.avail && slot < |v.inUse| && |v.availRing| == SLOTS
    ensures Carries(Publish(v, slot, data))
  {
    var v' := Publish(v, slot, data);
    forall k {:trigger v'.avail[k]} | 0 <= k < |v'.avail|
      ensures v'.avail[k] < SLOTS && v'.bufs[v'.avail[k]] == HEADER + v'.sent[v'.taken + k]
    {
      if k < |v.avail| {
        assert v.avail[k] in v.avail && v'.avail[k] == v.avail[k];
      }
    }
  }

  lemma TakeKeeps(v: Tx)
    requires TxOk(v) && v.avail != []
    ensures v.availRing[v.taken % SLOTS] == v.avail[0] < SLOTS
    ensures v.bufs[v.avail[0]] == HEADER + v.sent[v.taken]
    ensures TxOk(Take(v))
  {
    TakePlaced(v);
    hide Placed;
    TakeCarries(v);
    assert v.avail[0] !in v.held;
  }

  lemma TakePlaced(v: Tx)
    requires Placed(v) && v.avail != []
    ensures v.availRing[v.taken % SLOTS] == v.avail[0] < SLOTS && v.avail[0] !in v.held
    ensures Placed(Take(v))
  {
    RingPop(v.availRing, v.taken, v.avail);
    PopAvail(v.avail, v.held, v.used);
    hide RingHolds;
    hide Busy;
  }

  lemma TakeCarries(v: Tx)
    requires Carries(v) && v.avail != []
    ensures Carries(Take(v))
  {
    var v' := Take(v);
    forall k {:trigger v'.avail[k]} | 0 <= k < |v'.avail|
      ensures v'.avail[k] < SLOTS && v'.bufs[v'.avail[k]] == HEADER + v'.sent[v'.taken + k]
    {
      assert v'.avail[k] == v.avail[k + 1];
    }
  }

  lemma CompleteKeeps(v: Tx, slot: nat)
    requires TxOk(v) && slot in v.held
    ensures TxOk(Complete(v, slot))
  {
    WrapIndex(v.reclaimed + |v.used|);
    CompletePlaced(v, slot);
    assert |v.usedRing| == SLOTS;
    hide Placed;
    OneLess(v.held, slot);
    WrapNext(v.reclaimed + |v.used|);
  }

  lemma CompletePlaced(v: Tx, slot: nat)
    requires Placed(v) && slot in v.held && v.usedIdx % SLOTS == (v.reclaimed + |v.used|) % SLOTS
    ensures Placed(Complete(v, slot))
  {
    PushUsed(v.avail, v.held, v.used, slot);
    RingPush(v.usedRing, v.reclaimed, v.used, slot);
    hide RingHolds;
    hide Flight;
    hide Busy;
  }

  lemma OneLess(s: set<nat>, x: nat)
    requires x in s
    ensures |s - {x}| == |s| - 1
  {
  }

  // --- whole runs ----------------------------------------------------------

  // One turn of the driver or of the device; the device may have its turns anywhere
  // between two turns of the driver.
  datatype Event =
    | ReclaimTurn
    | PublishTurn(slot: nat, data: Bytes)
    | TakeTurn
    | CompleteTurn(slot: nat)

  ghost predicate Enabled(v: Tx, e: Event) {
    match e
    case ReclaimTurn => v.used != [] && v.used[0] < |v.inUse| && 0 < v.pending
    case PublishTurn(slot, data) =>
      slot < |v.inUse| && slot < |v.bufs| && |v.availRing| == SLOTS && slot < SLOTS && !v.inUse[slot] &&
      0 < |data| <= MAX_FRAME
    case TakeTurn => v.avail != []
    case CompleteTurn(slot) => slot in v.held && |v.usedRing| == SLOTS
  }

  ghost function Apply(v: Tx, e: Event): Tx
    requires Enabled(v, e)
  {
    match e
    case ReclaimTurn => Reclaim(v)
    case PublishTurn(slot, data) => Publish(v, slot, data)
    case TakeTurn => Take(v)
    case CompleteTurn(slot) => Complete(v, slot)
  }

  // After init_tx_buffers_locked.
  ghost predicate Initial(v: Tx) {
    |v.availRing| == SLOTS && |v.usedRing| == SLOTS && |v.bufs| == SLOTS && v.inUse == seq(SLOTS, _ => false) &&
    v.availIdx == v.usedIdx == v.usedConsume == v.pending == v.taken == v.reclaimed == 0 &&
    v.avail == [] && v.held == {} && v.used == [] && v.sent == []
  }

  ghost predicate Reaches(v: Tx, es: seq<Event>, w: Tx)
    decreases |es|
  {
    if es == [] then w == v else Enabled(v, es[0]) && Reaches(Apply(v, es[0]), es[1..], w)
  }

  // The frames sent by a run, and what the device finds in the buffers it takes.
  ghost function SentBy(es: seq<Event>): seq<Bytes> {
    if es == [] then [] else (if es[0].PublishTurn? then [es[0].data] else []) + SentBy(es[1..])
  }

  ghost function ReadBy(v: Tx, es: seq<Event>): seq<Bytes>
    decreases |es|
  {
    if es == [] || !Enabled(v, es[0]) then []
    else
      (if es[0].TakeTurn? && v.avail[0] < |v.bufs| then [v.bufs[v.avail[0]]] else []) + ReadBy(Apply(v, es[0]), es[1..])
  }

  // The driver's loop goes on, and find_free finds a slot, exactly when the turn is possible.
  lemma DriverTurns(v: Tx)
    requires TxOk(v)
    ensures v.usedConsume != v.usedIdx <==> Enabled(v, ReclaimTurn)
    ensures (exists slot: nat :: slot < SLOTS && !v.inUse[slot]) <==> v.pending < SLOTS
  {
    MoreUsed(v);
    FullWhenPending(v);
    if v.used != [] {
      ReclaimKeeps(v);
    }
  }

  lemma StepKeeps(v: Tx, e: Event)
    requires TxOk(v) && Enabled(v, e)
    ensures TxOk(Apply(v, e))
  {
    hide TxOk;
    match e
    case ReclaimTurn => ReclaimKeeps(v);
    case PublishTurn(slot, data) => PublishKeeps(v, slot, data);
    case TakeTurn => TakeKeeps(v);
    case CompleteTurn(slot) => CompleteKeeps(v, slot);
  }

  // No turn writes a buffer that is published or held by the device; the device's turns
  // write no buffer and do not take away a slot the driver has found free.
  lemma OwnedBuffersUntouched(v: Tx, e: Event)
    requires TxOk(v) && Enabled(v, e)
    ensures |v.bufs| == |Apply(v, e).bufs| == SLOTS
    ensures forall x :: x in v.avail || x in v.held ==> x < SLOTS && Apply(v, e).bufs[x] == v.bufs[x]
    ensures e.TakeTurn? || e.CompleteTurn? ==> Apply(v, e).bufs == v.bufs && Apply(v, e).inUse == v.inUse
  {
    InFlight(v);
  }

  lemma InitialOk(v: Tx)
    requires Initial(v)
    ensures TxOk(v)
  {
  }

  // In every run the queue is in order in every state, and remembers every frame sent.
  lemma {:induction false} RunKeeps(v: Tx, es: seq<Event>, w: Tx)
    requires TxOk(v) && Reaches(v, es, w)
    ensures TxOk(w) && v.taken <= w.taken <= |w.sent|
    decreases |es|
  {
    SentLength(v);
    if es != [] {
      StepKeeps(v, es[0]);
      StepReads(v, es[0]);
      hide TxOk;
      hide Apply;
      hide Enabled;
      RunKeeps(Apply(v, es[0]), es[1..], w);
    }
  }

  lemma {:induction false} RunAppends(v: Tx, es: seq<Event>, w: Tx)
    requires TxOk(v) && Reaches(v, es, w)
    ensures w.sent == v.sent + SentBy(es)
    decreases |es|
  {
    if es != [] {
      var u := Apply(v, es[0]);
      StepKeeps(v, es[0]);
      StepReads(v, es[0]);
      hide TxOk;
      hide Apply;
      hide Enabled;
      RunAppends(u, es[1..], w);
      Append(v.sent, if es[0].PublishTurn? then [es[0].data] else [], SentBy(es[1..]));
    }
  }

  lemma {:induction false} RunReads(v: Tx, es: seq<Event>, w: Tx)
    requires TxOk(v) && Reaches(v, es, w)
    ensures v.taken <= w.taken <= |w.sent| && ReadBy(v, es) == WithHeaders(w.sent[v.taken..w.taken])
    decreases |es|
  {
    RunKeeps(v, es, w);
    if es != [] {
      var u := Apply(v, es[0]);
      StepKeeps(v, es[0]);
      StepReads(v, es[0]);
      hide TxOk;
      hide Apply;
      hide WithHeaders;
      SentStays(v, es, w);
      RunReads(u, es[1..], w);
      if es[0].TakeTurn? {
        OneMore(w.sent, v.taken, w.taken);
      }
    }
  }

  lemma SentStays(v: Tx, es: seq<Event>, w: Tx)
    requires TxOk(v) && Reaches(v, es, w)
    ensures v.sent <= w.sent
  {
    RunAppends(v, es, w);
  }

  lemma OneMore(frames: seq<Bytes>, i: nat, j: nat)
    requires i < j <= |frames|
    ensures WithHeaders(frames[i..j]) == [HEADER + frames[i]] + WithHeaders(frames[i + 1..j])
  {
  }

  function WithHeaders(frames: seq<Bytes>): seq<Bytes> {
    seq(|frames|, i requires 0 <= i < |frames| => HEADER + frames[i])
  }

  lemma SentLength(v: Tx)
    requires TxOk(v)
    ensures v.taken <= |v.sent|
  {
  }

  lemma StepReads(v: Tx, e: Event)
    requires TxOk(v) && Enabled(v, e)
    ensures Apply(v, e).sent == v.sent + (if e.PublishTurn? then [e.data] else [])
    ensures Apply(v, e).taken == v.taken + (if e.TakeTurn? then 1 else 0)
    ensures e.TakeTurn? ==> v.avail[0] < |v.bufs| && v.taken < |v.sent| && v.bufs[v.avail[0]] == HEADER + v.sent[v.taken]
  {
    if e.TakeTurn? {
      TakeKeeps(v);
    }
  }

  // In every run from the start, the device has read exactly the frames sent, each behind
  // a zero header, in the order in which they were sent.
  lemma FramesInOrder(v0: Tx, es: seq<Event>, v: Tx)
    requires Initial(v0) && Reaches(v0, es, v)
    ensures TxOk(v) && v.sent == SentBy(es) && v.taken <= |v.sent|
    ensures ReadBy(v0, es) == WithHeaders(SentBy(es)[..v.taken])
  {
    InitialOk(v0);
    hide TxOk;
    RunKeeps(v0, es, v);
    RunAppends(v0, es, v);
    RunReads(v0, es, v);
    assert v.sent[0..v.taken] == SentBy(es)[..v.taken];
  }

  // A buffer the device holds keeps its contents until the device completes it.
  lemma {:induction false} HeldUntouched(v: Tx, es: seq<Event>, w: Tx, x: nat)
    requires TxOk(v) && Reaches(v, es, w) && x in v.held && CompleteTurn(x) !in es
    ensures x in w.held && x < |v.bufs| && x < |w.bufs| && w.bufs[x] == v.bufs[x]
    decreases |es|
  {
    InFlight(v);
    if es != [] {
      StepKeeps(v, es[0]);
      OwnedBuffersUntouched(v, es[0]);
      assert es[0] in es && forall e :: e in es[1..] ==> e in es;
      HeldUntouched(Apply(v, es[0]), es[1..], w, x);
    }
  }

  class TransmitQueue {
    const availRing: array<nat>
    const usedRing: array<nat>
    const inUse: array<bool>
    const bufs: array<Bytes>
    var availIdx: nat
    var usedIdx: nat
    var usedConsume: nat
    var pending: nat
    var taken: nat              // entries the device has taken, ever
    ghost var reclaimed: nat    // completions the driver has reclaimed, ever
    ghost var avail: seq<nat>
    ghost var held: set<nat>
    ghost var used: seq<nat>
    ghost var sent: seq<Bytes>  // every frame accepted, in order

    ghost function View(): Tx
      reads this, availRing, usedRing, inUse, bufs
    {
      Tx(availRing[..], availIdx, usedRing[..], usedIdx, usedConsume, inUse[..], bufs[..], pending,
         taken, reclaimed, avail, held, used, sent)
    }

    ghost predicate Valid()
      reads this, availRing, usedRing, inUse, bufs
    {
      availRing != usedRing && TxOk(View())
    }

    // init_tx_buffers_locked
    constructor ()
      ensures Valid() && Initial(View())
      ensures fresh(availRing) && fresh(usedRing) && fresh(inUse) && fresh(bufs)
    {
      availRing := new nat[SLOTS](_ => 0);
      usedRing := new nat[SLOTS](_ => 0);
      inUse := new bool[SLOTS](_ => false);
      bufs := new Bytes[SLOTS](_ => []);
      availIdx, usedIdx, usedConsume, pending := 0, 0, 0, 0;
      taken, reclaimed, avail, held, used, sent := 0, 0, [], {}, [], [];
    }

    // reclaim_virtio_tx_locked: every completion is taken back and nothing else changes.
    method ReclaimAll()
      requires Valid()
      modifies this`usedConsume, this`pending, this`reclaimed, this`used, inUse
      ensures Valid() && used == []
    {
      hide TxOk;
      while usedConsume != usedIdx
        invariant Valid()
        decreases |used|
      {
        MoreUsed(View());
        ReclaimOne();
      }
      MoreUsed(View());
    }

    // One turn of its loop.
    method ReclaimOne()
      requires Valid() && used != []
      modifies this`usedConsume, this`pending, this`reclaimed, this`used, inUse
      ensures Valid() && used == old(used)[1..] && Enabled(old(View()), ReclaimTurn)
      ensures View() == Apply(old(View()), ReclaimTurn)
    {
      ReclaimKeeps(View());
      ghost var v := Reclaim(View());
      hide TxOk;
      var slot := usedRing[usedConsume % SLOTS];
      if slot < SLOTS && inUse[slot] {
        inUse[slot] := false;
        if pending > 0 {
          pending := pending - 1;
        }
      }
      usedConsume := (usedConsume + 1) % WRAP;
      reclaimed, used := reclaimed + 1, used[1..];
      assert View() == v;
    }

    // find_free_virtio_tx_slot_locked
    method FindFree() returns (slot: int)
      requires Valid()
      ensures slot == -1 || (0 <= slot < SLOTS && !inUse[slot])
      ensures slot == -1 <==> pending == SLOTS
    {
      FullWhenPending(View());
      if pending >= SLOTS {
        return -1;
      }
      for i := 0 to SLOTS
        invariant forall k: nat :: k < i ==> inUse[k]
      {
        if !inUse[i] {
          return i;
        }
      }
      slot := -1;
    }

    // net_send_raw on the live backend. The frame goes behind all earlier ones, and no
    // buffer the device still owns is written.
    method Send(data: Bytes) returns (ok: bool)
      requires Valid()
      modifies this, availRing, inUse, bufs
      ensures Valid() && taken == old(taken) && held == old(held)
      ensures ok <==> 0 < |data| <= MAX_FRAME && old(|avail| + |held|) < SLOTS
      ensures sent == if ok then old(sent) + [data] else old(sent)
      ensures avail[..|old(avail)|] == old(avail) && |avail| == |old(avail)| + if ok then 1 else 0
      ensures forall x :: x in old(avail) || x in old(held) ==> x < SLOTS && bufs[x] == old(bufs[x])
    {
      InFlight(View());
      PendingRoom(View());
      hide TxOk;
      if |data| == 0 || |data| > MAX_FRAME {
        return false;
      }
      ReclaimAll();
      PendingOwned(View());
      var slot := FindFree();
      if slot < 0 {
        return false;
      }
      PublishSlot(slot, data);
      ok := true;
    }

    // The rest of virtio_send_raw_locked: fill the buffer, publish it.
    method PublishSlot(slot: nat, data: Bytes)
      requires Valid() && slot < SLOTS && !inUse[slot] && 0 < |data| <= MAX_FRAME
      modifies this`availIdx, this`pending, this`avail, this`sent, availRing, inUse, bufs
      ensures Enabled(old(View()), PublishTurn(slot, data))
      ensures View() == Apply(old(View()), PublishTurn(slot, data))
      ensures Valid() && sent == old(sent) + [data] && avail == old(avail) + [slot]
      ensures forall x :: x in old(avail) || x in old(held) ==> x < SLOTS && bufs[x] == old(bufs[x])
    {
      InFlight(View());
      PublishKeeps(View(), slot, data);
      ghost var v := Publish(View(), slot, data);
      hide TxOk;
      bufs[slot] := HEADER + data;
      inUse[slot] := true;
      availRing[availIdx % SLOTS] := slot;
      availIdx := (availIdx + 1) % WRAP;
      pending := pending + 1;
      avail, sent := avail + [slot], sent + [data];
      assert View() == v;
    }

    // The device takes the oldest published entry: it is the frame sent in that place.
    method DeviceTake() returns (slot: nat, frame: Bytes)
      requires Valid() && avail != []
      modifies this`taken, this`avail, this`held
      ensures View() == Apply(old(View()), TakeTurn)
      ensures Valid() && old(taken) < |sent| && slot in held && slot == old(avail)[0]
      ensures frame == HEADER + sent[old(taken)] && taken == old(taken) + 1
      ensures held == old(held) + {slot} && avail == old(avail)[1..]
    {
      TakeKeeps(View());
      ghost var v := Take(View());
      hide TxOk;
      slot := availRing[taken % SLOTS];
      frame := bufs[slot];
      taken, held, avail := taken + 1, held + {slot}, avail[1..];
      assert View() == v;
    }

    // The device completes an entry it holds.
    method DeviceComplete(slot: nat)
      requires Valid() && slot in held
      modifies this`usedIdx, this`held, this`used, usedRing
      ensures Enabled(old(View()), CompleteTurn(slot)) && View() == Apply(old(View()), CompleteTurn(slot))
      ensures Valid() && held == old(held) - {slot} && used == old(used) + [slot]
    {
      CompleteKeeps(View(), slot);
      ghost var v := Complete(View(), slot);
      hide TxOk;
      usedRing[usedIdx % SLOTS] := slot;
      usedIdx := (usedIdx + 1) % WRAP;
      held, used := held - {slot}, used + [slot];
      assert View() == v;
    }
  }

  lemma MoreUsed(v: Tx)
    requires TxOk(v)
    ensures v.usedConsume != v.usedIdx <==> v.used != []
  {
    FlightCount(v.avail, v.held, v.used);
    WrapEqual(v.reclaimed, v.reclaimed + |v.used|);
  }

  lemma FullWhenPending(v: Tx)
    requires TxOk(v)
    ensures v.pending <= SLOTS
    ensures v.pending == SLOTS <==> forall i: nat :: i < SLOTS ==> v.inUse[i]
  {
    FlightCount(v.avail, v.held, v.used);
  }

  lemma PendingRoom(v: Tx)
    requires TxOk(v)
    ensures |v.avail| + |v.held| <= SLOTS
  {
    FlightCount(v.avail, v.held, v.used);
  }

  lemma PendingOwned(v: Tx)
    requires TxOk(v) && v.used == []
    ensures v.pending == |v.avail| + |v.held| <= SLOTS
  {
    FlightCount(v.avail, v.held, v.used);
  }

  lemma InFlight(v: Tx)
    requires TxOk(v)
    ensures forall x :: x in v.avail || x in v.held ==> x < SLOTS && v.inUse[x]
  {
  }
}

module VirtioReceive {
  import opened Rings
  import Transmit = VirtioTransmit

  const HEADER_BYTES: nat := 12
  const BUFFER_BYTES: nat := 2060
  const MAX_FRAME: nat := 2048

  // The receive queue; lost holds the slots whose completion was too short for a header,
  // which the driver consumes without giving the buffer back.
  datatype Rx = Rx(
    availRing: seq<nat>, availIdx: nat, usedRing: seq<nat>, usedLen: seq<nat>, usedIdx: nat, usedConsume: nat,
    bufs: seq<Bytes>,
    taken: nat, consumed: nat, avail: seq<nat>, held: set<nat>, used: seq<nat>, lost: set<nat>,
    arrived: seq<Bytes>)

  // Every one of the 8 buffers is in exactly one place.
  ghost predicate Conserved(v: Rx) {
    Flight(v.avail, v.held + v.lost, v.used) && v.held !! v.lost &&
    forall x: nat :: x < SLOTS ==> Busy(v.avail, v.held + v.lost, v.used, x)
  }

  ghost predicate RingsOk(v: Rx) {
    RingHolds(v.availRing, v.taken, v.avail) &&
    RingHolds(v.usedRing, v.consumed, v.used) &&
    |v.usedLen| == SLOTS && |v.bufs| == SLOTS &&
    v.availIdx == (v.taken + |v.avail|) % WRAP &&
    v.usedIdx == (v.consumed + |v.used|) % WRAP &&
    v.usedConsume == v.consumed % WRAP
  }

  // Completed and not yet consumed entries still hold what arrived, in order.
  ghost predicate Holds(v: Rx) {
    |v.arrived| == v.consumed + |v.used| && |v.usedLen| == SLOTS && |v.bufs| == SLOTS &&
    forall k {:trigger v.used[k]} :: 0 <= k < |v.used| ==>
      var c := v.arrived[v.consumed + k];
      v.used[k] < SLOTS && v.usedLen[(v.consumed + k) % SLOTS] == |c| && v.bufs[v.used[k]] == c
  }

  predicate IsShort(packet: Bytes) {
    |packet| < HEADER_BYTES
  }

  // How many of the packets are too short for a header.
  function ShortOnes(packets: seq<Bytes>): nat {
    if packets == [] then 0
    else ShortOnes(packets[..|packets| - 1]) + (if IsShort(packets[|packets| - 1]) then 1 else 0)
  }

  // A buffer is lost with every short completion consumed, and with no other.
  ghost predicate Losses(v: Rx) {
    v.consumed <= |v.arrived| && |v.lost| == ShortOnes(v.arrived[..v.consumed])
  }

  ghost predicate RxOk(v: Rx) {
    Conserved(v) && RingsOk(v) && Holds(v) && Losses(v)
  }

  // --- the steps -----------------------------------------------------------

  ghost function Take(v: Rx): Rx
    requires v.avail != []
  {
    v.(taken := v.taken + 1, held := v.held + {v.avail[0]}, avail := v.avail[1..])
  }

  // The device fills a buffer it holds.
  ghost function Complete(v: Rx, slot: nat, data: Bytes): Rx
    requires |v.usedRing| == SLOTS && |v.usedLen| == SLOTS && |v.bufs| == SLOTS && slot < SLOTS
  {
    v.(held := v.held - {slot}, used := v.used + [slot], bufs := v.bufs[slot := data],
       usedRing := v.usedRing[v.usedIdx % SLOTS := slot], usedLen := v.usedLen[v.usedIdx % SLOTS := |data|],
       usedIdx := (v.usedIdx + 1) % WRAP, arrived := v.arrived + [data])
  }

  // The driver consumes a completion and gives the buffer back.
  ghost function Repost(v: Rx): Rx
    requires v.used != [] && |v.availRing| == SLOTS
  {
    v.(usedConsume := (v.usedConsume + 1) % WRAP, consumed := v.consumed + 1, used := v.used[1..],
       availRing := v.availRing[v.availIdx % SLOTS := v.used[0]], availIdx := (v.availIdx + 1) % WRAP,
       avail := v.avail + [v.used[0]])
  }

  // The driver consumes a completion too short to hold a header.
  ghost function Drop(v: Rx): Rx
    requires v.used != []
  {
    v.(usedConsume := (v.usedConsume + 1) % WRAP, consumed := v.consumed + 1, used := v.used[1..],
       lost := v.lost + {v.used[0]})
  }

  ghost predicate HeadShort(v: Rx) {
    v.consumed < |v.arrived| && IsShort(v.arrived[v.consumed])
  }

  lemma LossesMore(v: Rx, v': Rx)
    requires Losses(v) && v.consumed < |v.arrived| && v'.consumed == v.consumed + 1 && v'.arrived == v.arrived
    requires |v'.lost| == |v.lost| + (if IsShort(v.arrived[v.consumed]) then 1 else 0)
    ensures Losses(v')
  {
    assert v.arrived[..v.consumed + 1][..v.consumed] == v.arrived[..v.consumed];
  }

  lemma LossesSame(v: Rx, v': Rx)
    requires Losses(v) && v.arrived <= v'.arrived && v'.consumed == v.consumed && v'.lost == v.lost
    ensures Losses(v')
  {
    assert v'.arrived[..v.consumed] == v.arrived[..v.consumed];
  }

  lemma TakeKeeps(v: Rx)
    requires RxOk(v) && v.avail != []
    ensures v.availRing[v.taken % SLOTS] == v.avail[0] && RxOk(Take(v))
  {
    LossesSame(v, Take(v));
    TakeConserved(v);
    hide Losses;
    hide Conserved;
    SameHolds(v, Take(v));
    hide Holds;
    RingPop(v.availRing, v.taken, v.avail);
    hide RingHolds;
  }

  lemma TakeConserved(v: Rx)
    requires Conserved(v) && v.avail != []
    ensures Conserved(Take(v))
  {
    PopAvail(v.avail, v.held + v.lost, v.used);
    assert v.avail[0] !in v.held + v.lost;
    assert Take(v).held + v.lost == (v.held + v.lost) + {v.avail[0]};
    hide Flight;
    hide Busy;
  }

  lemma SameHolds(v: Rx, v': Rx)
    requires Holds(v) && v'.used == v.used && v'.consumed == v.consumed
    requires v'.usedLen == v.usedLen && v'.bufs == v.bufs && v'.arrived == v.arrived
    ensures Holds(v')
  {
    forall k {:trigger v'.used[k]} | 0 <= k < |v'.used|
      ensures var c := v'.arrived[v'.consumed + k];
        v'.used[k] < SLOTS && v'.usedLen[(v'.consumed + k) % SLOTS] == |c| && v'.bufs[v'.used[k]] == c
    {
      assert v.used[k] == v'.used[k];
    }
  }

  lemma CompletableSlot(v: Rx, slot: nat)
    requires Conserved(v) && slot in v.held
    ensures slot < SLOTS
  {
    assert slot in v.held + v.lost;
  }

  lemma CompleteKeeps(v: Rx, slot: nat, data: Bytes)
    requires RxOk(v) && slot in v.held
    ensures slot < SLOTS && RxOk(Complete(v, slot, data))
  {
    CompletableSlot(v, slot);
    CompleteConserved(v, slot, data);
    LossesSame(v, Complete(v, slot, data));
    hide Losses;
    hide Conserved;
    WrapIndex(v.consumed + |v.used|);
    CompleteHolds(v, slot, data);
    hide Holds;
    RingPush(v.usedRing, v.consumed, v.used, slot);
    WrapNext(v.consumed + |v.used|);
    hide RingHolds;
  }

  lemma CompleteConserved(v: Rx, slot: nat, data: Bytes)
    requires Conserved(v) && slot in v.held && slot < SLOTS
    requires |v.usedRing| == SLOTS && |v.usedLen| == SLOTS && |v.bufs| == SLOTS
    ensures Conserved(Complete(v, slot, data)) && |v.used| < SLOTS && slot !in v.used
  {
    PushUsed(v.avail, v.held + v.lost, v.used, slot);
    var v' := Complete(v, slot, data);
    assert v'.held + v'.lost == (v.held + v.lost) - {slot};
    assert slot in v.held + v.lost;
    hide Busy;
  }

  lemma CompleteHolds(v: Rx, slot: nat, data: Bytes)
    requires Holds(v) && slot < SLOTS && slot !in v.used && |v.usedRing| == SLOTS && |v.used| < SLOTS
    requires v.usedIdx % SLOTS == (v.consumed + |v.used|) % SLOTS
    ensures Holds(Complete(v, slot, data))
  {
    var v' := Complete(v, slot, data);
    forall k {:trigger v'.used[k]} | 0 <= k < |v'.used|
      ensures var c := v'.arrived[v'.consumed + k];
        v'.used[k] < SLOTS && v'.usedLen[(v'.consumed + k) % SLOTS] == |c| && v'.bufs[v'.used[k]] == c
    {
      if k < |v.used| {
        assert v.used[k] in v.used && v'.used[k] == v.used[k];
        PlacesDiffer(v.consumed, k, |v.used|);
      }
    }
  }

  lemma PopHolds(v: Rx, v': Rx)
    requires Holds(v) && v.used != []
    requires v'.used == v.used[1..] && v'.consumed == v.consumed + 1
    requires v'.usedLen == v.usedLen && v'.bufs == v.bufs && v'.arrived == v.arrived
    ensures Holds(v')
  {
    forall k {:trigger v'.used[k]} | 0 <= k < |v'.used|
      ensures var c := v'.arrived[v'.consumed + k];
        v'.used[k] < SLOTS && v'.usedLen[(v'.consumed + k) % SLOTS] == |c| && v'.bufs[v'.used[k]] == c
    {
      assert v.used[k + 1] == v'.used[k] && v'.consumed + k == v.consumed + (k + 1);
    }
  }

  // What the driver reads at the head of the used ring.
  lemma Head(v: Rx)
    requires RxOk(v) && v.used != []
    ensures |v.usedRing| == SLOTS && |v.usedLen| == SLOTS && |v.bufs| == SLOTS && |v.availRing| == SLOTS
    ensures v.used[0] < SLOTS && v.usedRing[v.usedConsume % SLOTS] == v.used[0]
    ensures v.consumed < |v.arrived| && v.usedLen[v.usedConsume % SLOTS] == |v.arrived[v.consumed]|
    ensures v.bufs[v.used[0]] == v.arrived[v.consumed]
    ensures HeadShort(v) <==> v.usedLen[v.usedConsume % SLOTS] < HEADER_BYTES
  {
    RingPop(v.usedRing, v.consumed, v.used);
    WrapIndex(v.consumed);
    assert v.used[0] < SLOTS;
  }

  lemma RepostKeeps(v: Rx)
    requires RxOk(v) && v.used != [] && !HeadShort(v)
    ensures |v.availRing| == SLOTS && RxOk(Repost(v))
  {
    LossesMore(v, Repost(v));
    hide Losses;
    RingPop(v.usedRing, v.consumed, v.used);
    WrapNext(v.consumed);
    PopFlight(v.avail, v.held + v.lost, v.used);
    FlightCount(v.avail, v.held + v.lost, v.used);
    RingPush(v.availRing, v.taken, v.avail, v.used[0]);
    WrapIndex(v.taken + |v.avail|);
    WrapNext(v.taken + |v.avail|);
    hide RingHolds;
    var v' := Repost(v);
    PushAvail(v.avail, v.held + v.lost, v.used[1..], v.used[0]);
    PopHolds(v, v');
    hide Holds;
  }

  lemma DropLosses(v: Rx)
    requires RxOk(v) && v.used != [] && HeadShort(v)
    ensures Losses(Drop(v)) && v.used[0] !in v.lost
  {
    assert v.used[0] in v.used && v.used[0] !in v.held + v.lost;
    LossesMore(v, Drop(v));
  }

  lemma DropKeeps(v: Rx)
    requires RxOk(v) && v.used != [] && HeadShort(v)
    ensures RxOk(Drop(v)) && v.used[0] !in v.lost
  {
    DropLosses(v);
    hide Losses;
    RingPop(v.usedRing, v.consumed, v.used);
    WrapNext(v.consumed);
    PopUsed(v.avail, v.held + v.lost, v.used);
    hide RingHolds;
    var v' := Drop(v);
    assert v'.held + v'.lost == (v.held + v.lost) + {v.used[0]};
    PopHolds(v, v');
    hide Holds;
  }

  // The driver and the device together hold all 8 buffers but one for every short
  // completion consumed; all of them, exactly as long as none of those was short.
  lemma EightBuffers(v: Rx)
    requires RxOk(v)
    ensures |v.avail| + |v.held| + |v.used| == SLOTS - ShortOnes(v.arrived[..v.consumed])
    ensures |v.avail| + |v.held| + |v.used| == SLOTS <==> forall p :: p in v.arrived[..v.consumed] ==> !IsShort(p)
  {
    FlightCount(v.avail, v.held + v.lost, v.used);
    assert |v.held + v.lost| == |v.held| + |v.lost|;
    NoneShort(v.arrived[..v.consumed]);
  }

  lemma {:induction false} NoneShort(packets: seq<Bytes>)
    ensures ShortOnes(packets) == 0 <==> forall p :: p in packets ==> !IsShort(p)
  {
    if packets != [] {
      var front, last := packets[..|packets| - 1], packets[|packets| - 1];
      NoneShort(front);
      assert packets == front + [last];
    }
  }

  // --- whole runs ----------------------------------------------------------

  datatype Event =
    | TakeTurn
    | CompleteTurn(slot: nat, data: Bytes)
    | HandUpTurn
    | DiscardTurn

  ghost predicate Enabled(v: Rx, e: Event) {
    match e
    case TakeTurn => v.avail != []
    case CompleteTurn(slot, data) =>
      slot in v.held && slot < SLOTS && |v.usedRing| == SLOTS && |v.usedLen| == SLOTS && |v.bufs| == SLOTS
    case HandUpTurn => v.used != [] && |v.availRing| == SLOTS && !HeadShort(v) && v.consumed < |v.arrived|
    case DiscardTurn => v.used != [] && HeadShort(v)
  }

  ghost function Apply(v: Rx, e: Event): Rx
    requires Enabled(v, e)
  {
    match e
    case TakeTurn => Take(v)
    case CompleteTurn(slot, data) => Complete(v, slot, data)
    case HandUpTurn => Repost(v)
    case DiscardTurn => Drop(v)
  }

  // After init_rx_buffers_locked.
  ghost predicate Initial(v: Rx) {
    v.availRing == [0, 1, 2, 3, 4, 5, 6, 7] == v.avail && v.availIdx == SLOTS &&
    |v.usedRing| == SLOTS && |v.usedLen| == SLOTS && |v.bufs| == SLOTS &&
    v.usedIdx == v.usedConsume == v.taken == v.consumed == 0 &&
    v.held == {} && v.used == [] && v.lost == {} && v.arrived == []
  }

  ghost predicate Reaches(v: Rx, es: seq<Event>, w: Rx)
    decreases |es|
  {
    if es == [] then w == v else Enabled(v, es[0]) && Reaches(Apply(v, es[0]), es[1..], w)
  }

  // The packets a run delivers into memory, and the frames it hands up.
  ghost function ArrivedBy(es: seq<Event>): seq<Bytes> {
    if es == [] then [] else (if es[0].CompleteTurn? then [es[0].data] else []) + ArrivedBy(es[1..])
  }

  ghost function HandedUp(v: Rx, es: seq<Event>): seq<Bytes>
    decreases |es|
  {
    if es == [] || !Enabled(v, es[0]) then []
    else
      (if es[0].HandUpTurn? then [v.arrived[v.consumed][HEADER_BYTES..]] else []) + HandedUp(Apply(v, es[0]), es[1..])
  }

  // The frames in packets that are long enough.
  function Frames(packets: seq<Bytes>): seq<Bytes> {
    if packets == [] then []
    else (if IsShort(packets[0]) then [] else [packets[0][HEADER_BYTES..]]) + Frames(packets[1..])
  }

  lemma InitialOk(v: Rx)
    requires Initial(v)
    ensures RxOk(v)
  {
    AllPublished(v.availRing, v.avail);
    assert v.held + v.lost == {};
    assert v.arrived[..0] == [];
  }

  // The driver finds something to consume exactly when one of its turns is possible.
  lemma DriverTurns(v: Rx)
    requires RxOk(v)
    ensures v.usedConsume != v.usedIdx <==> Enabled(v, HandUpTurn) || Enabled(v, DiscardTurn)
  {
    AnyUsed(v);
  }

  lemma StepKeeps(v: Rx, e: Event)
    requires RxOk(v) && Enabled(v, e)
    ensures RxOk(Apply(v, e))
  {
    hide RxOk;
    hide HeadShort;
    match e
    case TakeTurn => TakeKeeps(v);
    case CompleteTurn(slot, data) => CompleteKeeps(v, slot, data);
    case HandUpTurn => RepostKeeps(v);
    case DiscardTurn => DropKeeps(v);
  }

  lemma StepArrives(v: Rx, e: Event)
    requires RxOk(v) && Enabled(v, e)
    ensures Apply(v, e).arrived == v.arrived + (if e.CompleteTurn? then [e.data] else [])
    ensures Apply(v, e).consumed == v.consumed + (if e.HandUpTurn? || e.DiscardTurn? then 1 else 0)
    ensures v.consumed <= |v.arrived|
    ensures e.HandUpTurn? ==> v.consumed < |v.arrived| && !IsShort(v.arrived[v.consumed])
    ensures e.DiscardTurn? ==> v.consumed < |v.arrived| && IsShort(v.arrived[v.consumed])
  {
  }

  lemma {:induction false} RunKeeps(v: Rx, es: seq<Event>, w: Rx)
    requires RxOk(v) && Reaches(v, es, w)
    ensures RxOk(w) && v.consumed <= w.consumed <= |w.arrived|
    decreases |es|
  {
    StepBounds(v);
    if es != [] {
      StepKeeps(v, es[0]);
      StepArrives(v, es[0]);
      hide RxOk;
      hide Apply;
      hide Enabled;
      RunKeeps(Apply(v, es[0]), es[1..], w);
    }
  }

  lemma {:induction false} RunAppends(v: Rx, es: seq<Event>, w: Rx)
    requires RxOk(v) && Reaches(v, es, w)
    ensures w.arrived == v.arrived + ArrivedBy(es)
    decreases |es|
  {
    if es != [] {
      var u := Apply(v, es[0]);
      StepKeeps(v, es[0]);
      StepArrives(v, es[0]);
      hide RxOk;
      hide Apply;
      hide Enabled;
      RunAppends(u, es[1..], w);
      Append(v.arrived, if es[0].CompleteTurn? then [es[0].data] else [], ArrivedBy(es[1..]));
    }
  }

  lemma StepBounds(v: Rx)
    requires RxOk(v)
    ensures v.consumed <= |v.arrived|
  {
  }

  lemma {:induction false} RunHandsUp(v: Rx, es: seq<Event>, w: Rx)
    requires RxOk(v) && Reaches(v, es, w)
    ensures v.consumed <= w.consumed <= |w.arrived| && HandedUp(v, es) == Frames(w.arrived[v.consumed..w.consumed])
    decreases |es|
  {
    RunKeeps(v, es, w);
    if es != [] {
      var u := Apply(v, es[0]);
      StepKeeps(v, es[0]);
      StepArrives(v, es[0]);
      ArrivedStays(v, es, w);
      hide RxOk;
      hide Apply;
      hide Frames;
      hide ArrivedBy;
      RunHandsUp(u, es[1..], w);
      if es[0].HandUpTurn? || es[0].DiscardTurn? {
        RunKeeps(u, es[1..], w);
        OneMore(w.arrived, v.consumed, w.consumed);
      }
    }
  }

  lemma ArrivedStays(v: Rx, es: seq<Event>, w: Rx)
    requires RxOk(v) && Reaches(v, es, w)
    ensures v.arrived <= w.arrived
  {
    RunAppends(v, es, w);
  }

  lemma OneMore(packets: seq<Bytes>, i: nat, j: nat)
    requires i < j <= |packets|
    ensures Frames(packets[i..j]) ==
      (if IsShort(packets[i]) then [] else [packets[i][HEADER_BYTES..]]) + Frames(packets[i + 1..j])
  {
    assert packets[i..j][1..] == packets[i + 1..j];
  }

  // In every run from the start every frame that arrived behind a header is handed up once,
  // in the order of arrival, and the 8 buffers are all still there exactly as long as none
  // of the completions consumed was too short for a header.
  lemma RunFromStart(v0: Rx, es: seq<Event>, v: Rx)
    requires Initial(v0) && Reaches(v0, es, v)
    ensures RxOk(v) && v.arrived == ArrivedBy(es) && v.consumed <= |v.arrived|
    ensures HandedUp(v0, es) == Frames(ArrivedBy(es)[..v.consumed])
    ensures |v.avail| + |v.held| + |v.used| == SLOTS <==>
      forall p :: p in ArrivedBy(es)[..v.consumed] ==> !IsShort(p)
  {
    InitialOk(v0);
    hide RxOk;
    RunKeeps(v0, es, v);
    RunAppends(v0, es, v);
    RunHandsUp(v0, es, v);
    EightBuffers(v);
    assert v.arrived == ArrivedBy(es);
    assert v.arrived[0..v.consumed] == v.arrived[..v.consumed];
  }

  lemma {:induction false} HeadersOff(frames: seq<Bytes>, n: nat)
    requires n <= |frames|
    ensures Frames(Transmit.WithHeaders(frames)[..n]) == frames[..n]
    ensures forall p :: p in Transmit.WithHeaders(frames)[..n] ==> !IsShort(p)
  {
    var packets := Transmit.WithHeaders(frames)[..n];
    if n != 0 {
      HeadersOff(frames[1..], n - 1);
      assert packets[1..] == Transmit.WithHeaders(frames[1..])[..n - 1];
      assert packets == [packets[0]] + packets[1..] && frames[..n] == [frames[0]] + frames[1..][..n - 1];
      assert packets[0][HEADER_BYTES..] == frames[0];
    }
  }

  // Two machines back to back, over a wire that delivers what the sender's device reads: in
  // every run of both, the receiver hands up exactly the frames sent, once each and in order,
  // as far as it has got, and keeps its 8 buffers.
  lemma EndToEnd(t0: Transmit.Tx, es: seq<Transmit.Event>, t: Transmit.Tx, r0: Rx, fs: seq<Event>, r: Rx)
    requires Transmit.Initial(t0) && Transmit.Reaches(t0, es, t)
    requires Initial(r0) && Reaches(r0, fs, r) && ArrivedBy(fs) <= Transmit.ReadBy(t0, es)
    ensures r.consumed <= |ArrivedBy(fs)| && r.consumed <= |Transmit.SentBy(es)|
    ensures HandedUp(r0, fs) == Transmit.SentBy(es)[..r.consumed]
    ensures |r.avail| + |r.held| + |r.used| == SLOTS
  {
    hide Initial;
    hide Reaches;
    hide Transmit.Initial;
    hide Transmit.Reaches;
    hide Transmit.TxOk;
    hide RxOk;
    hide ArrivedBy;
    hide HandedUp;
    hide Frames;
    hide IsShort;
    Transmit.FramesInOrder(t0, es, t);
    RunFromStart(r0, fs, r);
    var sent := Transmit.SentBy(es)[..t.taken];
    SameFrames(ArrivedBy(fs), sent, r.consumed);
    assert sent[..r.consumed] == Transmit.SentBy(es)[..r.consumed];
  }

  lemma SameFrames(packets: seq<Bytes>, sent: seq<Bytes>, n: nat)
    requires packets <= Transmit.WithHeaders(sent) && n <= |packets|
    ensures n <= |sent| && Frames(packets[..n]) == sent[..n] && forall p :: p in packets[..n] ==> !IsShort(p)
  {
    HeadersOff(sent, n);
    assert packets[..n] == Transmit.WithHeaders(sent)[..n];
  }

  lemma Sizes(v: Rx)
    requires RxOk(v)
    ensures |v.availRing| == SLOTS && |v.usedRing| == SLOTS && |v.usedLen| == SLOTS && |v.bufs| == SLOTS
  {
  }

  class ReceiveQueue {
    const availRing: array<nat>
    const usedRing: array<nat>
    const usedLen: array<nat>
    const bufs: array<Bytes>
    var availIdx: nat
    var usedIdx: nat
    var usedConsume: nat
    var taken: nat                    // entries the device has taken, ever
    ghost var consumed: nat           // completions the driver has consumed, ever
    ghost var avail: seq<nat>
    ghost var held: set<nat>
    ghost var used: seq<nat>
    ghost var lost: set<nat>
    ghost var arrived: seq<Bytes>  // every completion, in order

    ghost function View(): Rx
      reads this, availRing, usedRing, usedLen, bufs
    {
      Rx(availRing[..], availIdx, usedRing[..], usedLen[..], usedIdx, usedConsume, bufs[..],
         taken, consumed, avail, held, used, lost, arrived)
    }

    ghost predicate Valid()
      reads this, availRing, usedRing, usedLen, bufs
    {
      availRing != usedRing && usedRing != usedLen && availRing != usedLen && RxOk(View())
    }

    // init_rx_buffers_locked: the device owns all 8 buffers.
    constructor ()
      ensures Valid() && Initial(View())
      ensures fresh(availRing) && fresh(usedRing) && fresh(usedLen) && fresh(bufs)
    {
      availRing := new nat[SLOTS](i => i);
      usedRing := new nat[SLOTS](_ => 0);
      usedLen := new nat[SLOTS](_ => 0);
      bufs := new Bytes[SLOTS](_ => []);
      availIdx, usedIdx, usedConsume := SLOTS, 0, 0;
      taken, consumed, avail, held, used, lost, arrived := 0, 0, [0, 1, 2, 3, 4, 5, 6, 7], {}, [], {}, [];
      new;
      assert availRing[..] == avail;
      InitialOk(View());
    }

    method DeviceTake() returns (slot: nat)
      requires Valid() && avail != []
      modifies this`taken, this`avail, this`held
      ensures View() == Apply(old(View()), TakeTurn)
      ensures Valid() && slot == old(avail)[0] && held == old(held) + {slot} && avail == old(avail)[1..]
    {
      hide RxOk;
      Sizes(View());
      TakeKeeps(View());
      ghost var v := Take(View());
      slot := availRing[taken % SLOTS];
      taken, held, avail := taken + 1, held + {slot}, avail[1..];
      assert View() == v;
    }

    // The device writes a packet, header included, into a buffer it holds.
    method DeviceComplete(slot: nat, data: Bytes)
      requires Valid() && slot in held && |data| <= BUFFER_BYTES
      modifies this`usedIdx, this`held, this`used, this`arrived, usedRing, usedLen, bufs
      ensures Enabled(old(View()), CompleteTurn(slot, data)) && View() == Apply(old(View()), CompleteTurn(slot, data))
      ensures Valid() && held == old(held) - {slot} && used == old(used) + [slot]
      ensures arrived == old(arrived) + [data]
    {
      hide RxOk;
      Sizes(View());
      CompleteKeeps(View(), slot, data);
      ghost var v := Complete(View(), slot, data);
      usedRing[usedIdx % SLOTS] := slot;
      usedLen[usedIdx % SLOTS] := |data|;
      bufs[slot] := data;
      usedIdx := (usedIdx + 1) % WRAP;
      held, used, arrived := held - {slot}, used + [slot], arrived + [data];
      assert View() == v;
    }

    // virtio_recv_raw_locked: the oldest packet not yet handed up, without its header.
    method Receive(maxLen: nat) returns (res: int, frame: Bytes)
      requires Valid()
      modifies this`usedConsume, this`consumed, this`used, this`avail, this`availIdx, this`lost, availRing
      ensures Valid() && held == old(held) && arrived == old(arrived) && old(consumed) + |old(used)| == |arrived|
      ensures old(used) == [] ==> res == 0 && consumed == old(consumed) && lost == old(lost)
      ensures old(used) != [] ==>
        var packet := arrived[old(consumed)];
        if |packet| < HEADER_BYTES then
          res == 0 && consumed == old(consumed) + 1 && lost == old(lost) + {old(used)[0]} && old(used)[0] !in old(lost)
        else if |packet| - HEADER_BYTES > maxLen then
          res == -1 && consumed == old(consumed) && used == old(used) && lost == old(lost)
        else
          res == |packet| - HEADER_BYTES && frame == packet[HEADER_BYTES..] &&
          consumed == old(consumed) + 1 && lost == old(lost)
    {
      hide RxOk;
      hide HeadShort;
      hide Apply;
      hide Enabled;
      frame := [];
      Sizes(View());
      AnyUsed(View());
      if usedConsume == usedIdx {
        return 0, [];
      }
      Head(View());
      var usedAt := usedConsume % SLOTS;
      var slot := usedRing[usedAt];
      var total := usedLen[usedAt];
      if slot >= SLOTS || total < HEADER_BYTES {
        Skip();
        return 0, [];
      }
      var frameLen := total - HEADER_BYTES;
      if frameLen > maxLen {
        return -1, [];
      }
      frame := bufs[slot][HEADER_BYTES..HEADER_BYTES + frameLen];
      GiveBack(slot);
      res := frameLen;
    }

    method Skip()
      requires Valid() && used != [] && HeadShort(View())
      modifies this`usedConsume, this`consumed, this`used, this`lost
      ensures Enabled(old(View()), DiscardTurn) && View() == Apply(old(View()), DiscardTurn)
      ensures Valid() && consumed == old(consumed) + 1 && used == old(used)[1..]
      ensures lost == old(lost) + {old(used)[0]} && old(used)[0] !in old(lost)
    {
      hide RxOk;
      DropKeeps(View());
      ghost var v := Drop(View());
      usedConsume := (usedConsume + 1) % WRAP;
      consumed, used, lost := consumed + 1, used[1..], lost + {used[0]};
      assert View() == v;
    }

    method GiveBack(slot: nat)
      requires Valid() && used != [] && slot == used[0] && !HeadShort(View()) && consumed < |arrived|
      modifies this`usedConsume, this`consumed, this`used, this`avail, this`availIdx, availRing
      ensures Enabled(old(View()), HandUpTurn) && View() == Apply(old(View()), HandUpTurn)
      ensures Valid() && consumed == old(consumed) + 1 && used == old(used)[1..] && avail == old(avail) + [slot]
    {
      hide RxOk;
      Sizes(View());
      RepostKeeps(View());
      ghost var v := Repost(View());
      usedConsume := (usedConsume + 1) % WRAP;
      availRing[availIdx % SLOTS] := slot;
      availIdx := (availIdx + 1) % WRAP;
      consumed, used, avail := consumed + 1, used[1..], avail + [slot];
      assert View() == v;
    }
  }

  // A completion of no bytes costs a buffer.
  method ShortCompletion() returns (q: ReceiveQueue)
    ensures q.Valid() && q.consumed == 1 && |q.avail| + |q.held| + |q.used| == SLOTS - 1
  {
    q := new ReceiveQueue();
    hide RxOk;
    var slot := q.DeviceTake();
    q.DeviceComplete(slot, []);
    var res, frame := q.Receive(MAX_FRAME);
    EightBuffers(q.View());
    assert q.arrived[..1] == [[]];
    assert ShortOnes([[]]) == 1;
  }

  lemma AllPublished(ring: seq<nat>, avail: seq<nat>)
    requires avail == [0, 1, 2, 3, 4, 5, 6, 7] && |ring| == SLOTS && forall i :: 0 <= i < SLOTS ==> ring[i] == i
    ensures RingHolds(ring, 0, avail) && Flight(avail, {}, []) && forall x: nat :: x < SLOTS ==> x in avail
  {
    assert forall x: nat :: x < SLOTS ==> avail[x] == x;
  }

  lemma AnyUsed(v: Rx)
    requires RxOk(v)
    ensures v.usedConsume == v.usedIdx <==> v.used == []
    ensures |v.arrived| == v.consumed + |v.used|
  {
    FlightCount(v.avail, v.held + v.lost, v.used);
    WrapEqual(v.consumed, v.consumed + |v.used|);
  }
}

// The fake backend of the receive path: a ring of slots the tests fill.
module FakeReceive {
  import opened Rings

  const MAX_FRAME := 2048

  // The frames injected and not yet received, oldest first, sit in distinct occupied slots.
  ghost predicate FakeOk(ring: seq<nat>, lens: seq<nat>, usedIdx: nat, usedConsume: nat, occupied: seq<bool>,
                         bufs: seq<Bytes>, ready: nat, total: nat, slots: seq<nat>, queue: seq<Bytes>) {
    RingHolds(ring, total, slots) && |lens| == SLOTS && |occupied| == SLOTS && |bufs| == SLOTS &&
    usedConsume == total % WRAP && usedIdx == (total + |slots|) % WRAP &&
    Flight(slots, {}, []) && ready == |slots| && Occupied(occupied, slots) && Holds(lens, bufs, total, slots, queue)
  }

  ghost predicate Occupied(occupied: seq<bool>, slots: seq<nat>)
    requires |occupied| == SLOTS
  {
    forall x: nat :: x < SLOTS ==> (occupied[x] <==> Busy(slots, {}, [], x))
  }

  ghost predicate Holds(lens: seq<nat>, bufs: seq<Bytes>, total: nat, slots: seq<nat>, queue: seq<Bytes>)
    requires |lens| == SLOTS && |bufs| == SLOTS
  {
    |queue| == |slots| &&
    forall k {:trigger slots[k]} :: 0 <= k < |slots| ==>
      slots[k] < SLOTS && bufs[slots[k]] == queue[k] && lens[(total + k) % SLOTS] == |queue[k]|
  }

  class FakeRing {
    const ring: array<nat>
    const lens: array<nat>
    const occupied: array<bool>
    const bufs: array<Bytes>
    var usedIdx: nat
    var usedConsume: nat
    var nextProbe: nat
    var ready: nat
    ghost var total: nat
    ghost var slots: seq<nat>
    ghost var queue: seq<Bytes>

    ghost predicate Valid()
      reads this, ring, lens, occupied, bufs
    {
      ring != lens && nextProbe < SLOTS &&
      FakeOk(ring[..], lens[..], usedIdx, usedConsume, occupied[..], bufs[..], ready, total, slots, queue)
    }

    // reset_rings_locked
    constructor ()
      ensures Valid() && queue == []
      ensures fresh(ring) && fresh(lens) && fresh(occupied) && fresh(bufs)
    {
      ring := new nat[SLOTS](_ => 0);
      lens := new nat[SLOTS](_ => 0);
      occupied := new bool[SLOTS](_ => false);
      bufs := new Bytes[SLOTS](_ => []);
      usedIdx, usedConsume, nextProbe, ready := 0, 0, 0, 0;
      total, slots, queue := 0, [], [];
    }

    // find_free_rx_slot_locked: scans all slots from the last probe point.
    method FindFree() returns (slot: int)
      requires Valid()
      modifies this`nextProbe
      ensures Valid() && (slot == -1 || (0 <= slot < SLOTS && !occupied[slot]))
      ensures slot == -1 <==> |queue| == SLOTS
    {
      FullQueue(ring[..], lens[..], usedIdx, usedConsume, occupied[..], bufs[..], ready, total, slots, queue);
      hide FakeOk;
      if ready >= SLOTS {
        return -1;
      }
      var start := nextProbe;
      for scanned := 0 to SLOTS
        invariant forall k: nat :: k < scanned ==> OccupiedAt(occupied[..], start, k)
      {
        slot := (start + scanned) % SLOTS;
        if !occupied[slot] {
          nextProbe := (slot + 1) % SLOTS;
          return;
        }
      }
      ScansAll(occupied[..], start);
      slot := -1;
    }

    // net_fake_inject_rx
    method Inject(data: Bytes) returns (ok: bool)
      requires Valid()
      modifies this, ring, lens, occupied, bufs
      ensures Valid()
      ensures ok <==> 0 < |data| <= MAX_FRAME && |old(queue)| < SLOTS
      ensures queue == if ok then old(queue) + [data] else old(queue)
    {
      if |data| == 0 || |data| > MAX_FRAME {
        return false;
      }
      FullQueue(ring[..], lens[..], usedIdx, usedConsume, occupied[..], bufs[..], ready, total, slots, queue);
      var free := FindFree();
      if free < 0 {
        return false;
      }
      var slot: nat := free;
      InjectKeeps(ring[..], lens[..], usedIdx, usedConsume, occupied[..], bufs[..], ready, total, slots, queue, slot, data);
      hide FakeOk;
      var usedAt := usedIdx % SLOTS;
      ghost var r, l, o, b: seq<Bytes> := ring[..], lens[..], occupied[..], bufs[..];
      var size: nat := |data|;
      bufs[slot] := data;
      occupied[slot] := true;
      ring[usedAt] := slot;
      lens[usedAt] := size;
      usedIdx := (usedIdx + 1) % WRAP;
      ready := ready + 1;
      slots, queue := slots + [slot], queue + [data];
      assert ring[..] == r[usedAt := slot] && lens[..] == l[usedAt := size];
      assert occupied[..] == o[slot := true] && bufs[..] == b[slot := data];
      ok := true;
    }

    // net_recv_raw on the fake backend: first in, first out.
    method Receive(maxLen: nat) returns (res: int, frame: Bytes)
      requires Valid()
      modifies this`usedConsume, this`ready, this`total, this`slots, this`queue, occupied
      ensures Valid()
      ensures maxLen == 0 ==> res == -1 && queue == old(queue)
      ensures maxLen != 0 && old(queue) == [] ==> res == 0 && queue == []
      ensures maxLen != 0 && old(queue) != [] && |old(queue)[0]| > maxLen ==> res == -1 && queue == old(queue)
      ensures maxLen != 0 && old(queue) != [] && |old(queue)[0]| <= maxLen ==>
        res == |old(queue)[0]| && frame == old(queue)[0] && queue == old(queue)[1..]
    {
      if maxLen == 0 {
        return -1, [];
      }
      frame := [];
      HeadOfQueue(ring[..], lens[..], usedIdx, usedConsume, occupied[..], bufs[..], ready, total, slots, queue);
      if usedConsume == usedIdx {
        return 0, [];
      }
      var usedAt := usedConsume % SLOTS;
      assert |ring[..]| == SLOTS;
      var slot := ring[usedAt];
      var len := lens[usedAt];
      if slot >= SLOTS || !occupied[slot] {
        assert false;
        return 0, [];
      }
      if len > maxLen {
        return -1, [];
      }
      ReceiveKeeps(ring[..], lens[..], usedIdx, usedConsume, occupied[..], bufs[..], ready, total, slots, queue);
      hide FakeOk;
      frame := bufs[slot][..len];
      usedConsume := (usedConsume + 1) % WRAP;
      if ready > 0 {
        ready := ready - 1;
      }
      ghost var o := occupied[..];
      occupied[slot] := false;
      assert occupied[..] == o[slot := false];
      total, slots, queue := total + 1, slots[1..], queue[1..];
      res := len;
    }
  }

  predicate OccupiedAt(occupied: seq<bool>, start: nat, k: nat)
    requires |occupied| == SLOTS
  {
    occupied[(start + k) % SLOTS]
  }

  lemma ScansAll(occupied: seq<bool>, start: nat)
    requires |occupied| == SLOTS && forall k: nat :: k < SLOTS ==> OccupiedAt(occupied, start, k)
    ensures forall x: nat :: x < SLOTS ==> occupied[x]
  {
    forall x: nat | x < SLOTS ensures occupied[x] {
      var k := (x + SLOTS - start % SLOTS) % SLOTS;
      assert OccupiedAt(occupied, start, k);
      assert (start + k) % SLOTS == x;
    }
  }

  lemma FullQueue(ring: seq<nat>, lens: seq<nat>, usedIdx: nat, usedConsume: nat, occupied: seq<bool>,
                  bufs: seq<Bytes>, ready: nat, total: nat, slots: seq<nat>, queue: seq<Bytes>)
    requires FakeOk(ring, lens, usedIdx, usedConsume, occupied, bufs, ready, total, slots, queue)
    ensures ready == |queue| == |slots| <= SLOTS && |occupied| == SLOTS
    ensures |queue| == SLOTS <==> forall x: nat :: x < SLOTS ==> occupied[x]
  {
    FlightCount(slots, {}, []);
  }

  lemma InjectKeeps(ring: seq<nat>, lens: seq<nat>, usedIdx: nat, usedConsume: nat, occupied: seq<bool>,
                    bufs: seq<Bytes>, ready: nat, total: nat, slots: seq<nat>, queue: seq<Bytes>,
                    slot: nat, data: Bytes)
    requires FakeOk(ring, lens, usedIdx, usedConsume, occupied, bufs, ready, total, slots, queue)
    requires slot < SLOTS && !occupied[slot] && |slots| < SLOTS
    ensures FakeOk(ring[usedIdx % SLOTS := slot], lens[usedIdx % SLOTS := |data|], (usedIdx + 1) % WRAP, usedConsume,
                   occupied[slot := true], bufs[slot := data], ready + 1, total, slots + [slot], queue + [data])
  {
    RingPush(ring, total, slots, slot);
    WrapIndex(total + |slots|);
    WrapNext(total + |slots|);
    PushAvail(slots, {}, [], slot);
    InjectHolds(lens, bufs, total, slots, queue, slot, data);
    hide RingHolds;
    hide Holds;
    hide Flight;
  }

  lemma InjectHolds(lens: seq<nat>, bufs: seq<Bytes>, total: nat, slots: seq<nat>, queue: seq<Bytes>, slot: nat, data: Bytes)
    requires |lens| == SLOTS && |bufs| == SLOTS && slot < SLOTS && slot !in slots && |slots| < SLOTS
    requires Holds(lens, bufs, total, slots, queue)
    ensures Holds(lens[(total + |slots|) % SLOTS := |data|], bufs[slot := data], total, slots + [slot], queue + [data])
  {
    var slots', queue', bufs' := slots + [slot], queue + [data], bufs[slot := data];
    var lens' := lens[(total + |slots|) % SLOTS := |data|];
    forall k {:trigger slots'[k]} | 0 <= k < |slots'|
      ensures slots'[k] < SLOTS && bufs'[slots'[k]] == queue'[k] && lens'[(total + k) % SLOTS] == |queue'[k]|
    {
      if k < |slots| {
        assert slots[k] in slots && slots'[k] == slots[k];
        PlacesDiffer(total, k, |slots|);
      }
    }
  }

  lemma HeadOfQueue(ring: seq<nat>, lens: seq<nat>, usedIdx: nat, usedConsume: nat, occupied: seq<bool>,
                    bufs: seq<Bytes>, ready: nat, total: nat, slots: seq<nat>, queue: seq<Bytes>)
    requires FakeOk(ring, lens, usedIdx, usedConsume, occupied, bufs, ready, total, slots, queue)
    ensures usedConsume == usedIdx <==> queue == []
    ensures |ring| == SLOTS && |lens| == SLOTS && |occupied| == SLOTS && |bufs| == SLOTS
    ensures queue != [] ==>
      slots != [] && ring[usedConsume % SLOTS] == slots[0] < SLOTS && occupied[slots[0]] &&
      lens[usedConsume % SLOTS] == |queue[0]| && bufs[slots[0]] == queue[0] && 0 < ready
  {
    WrapEqual(total, total + |slots|);
    WrapIndex(total);
    if queue != [] {
      RingPop(ring, total, slots);
      assert slots[0] in slots;
    }
  }

  lemma ReceiveKeeps(ring: seq<nat>, lens: seq<nat>, usedIdx: nat, usedConsume: nat, occupied: seq<bool>,
                     bufs: seq<Bytes>, ready: nat, total: nat, slots: seq<nat>, queue: seq<Bytes>)
    requires FakeOk(ring, lens, usedIdx, usedConsume, occupied, bufs, ready, total, slots, queue)
    requires queue != [] && slots != [] && slots[0] < SLOTS && 0 < ready && |occupied| == SLOTS
    ensures FakeOk(ring, lens, usedIdx, (usedConsume + 1) % WRAP, occupied[slots[0] := false], bufs, ready - 1,
                   total + 1, slots[1..], queue[1..])
  {
    RingPop(ring, total, slots);
    WrapNext(total);
    PopFreed(slots);
    ReceiveHolds(lens, bufs, total, slots, queue);
    hide RingHolds;
    hide Holds;
    hide Flight;
  }

  lemma PopFreed(slots: seq<nat>)
    requires Flight(slots, {}, []) && slots != []
    ensures Flight(slots[1..], {}, [])
    ensures forall x: nat :: Busy(slots[1..], {}, [], x) <==> Busy(slots, {}, [], x) && x != slots[0]
  {
    assert slots == [slots[0]] + slots[1..] && slots[0] !in slots[1..] && forall x :: x in slots[1..] ==> x in slots;
  }

  lemma ReceiveHolds(lens: seq<nat>, bufs: seq<Bytes>, total: nat, slots: seq<nat>, queue: seq<Bytes>)
    requires |lens| == SLOTS && |bufs| == SLOTS && slots != [] && Holds(lens, bufs, total, slots, queue)
    ensures Holds(lens, bufs, total + 1, slots[1..], queue[1..])
  {
    var slots', queue' := slots[1..], queue[1..];
    forall k {:trigger slots'[k]} | 0 <= k < |slots'|
      ensures slots'[k] < SLOTS && bufs[slots'[k]] == queue'[k] && lens[(total + 1 + k) % SLOTS] == |queue'[k]|
    {
      assert slots'[k] == slots[k + 1] && total + 1 + k == total + (k + 1);
    }
  }
}
