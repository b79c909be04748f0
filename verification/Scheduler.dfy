// The thread scheduler on any number of cores (kernel/thread.cc, kernel/condition.h)
// as a transition system.  The kernel is not preemptible, so a core leaves a
// thread only at context_switch_; spin-locked sections are single steps.

module Scheduler {
  import opened Basics

  type Tid = nat      // the address of a TCB
  type CondId = nat

  datatype Action = Ready | Stop | Wait(cond: CondId) | NoAction

  // The TCB fields the scheduler reads: deferred action and captured epoch.
  datatype Tcb = Tcb(action: Action, condEpoch: nat)

  datatype Cond = Cond(epoch: nat, waiting: seq<Tid>)

  // What a core is in the middle of, between two steps of its current thread.
  datatype Pc =
    | Run                               // the thread's own code
    | Captured(cond: CondId)            // wait(): epoch captured, spin lock released
    | Picked(next: Tid, action: Action) // next dequeued, about to switch to it
    | Post(prev: Tid)                   // switched; post_switch of prev is pending
    | Requeue(prev: Tid)                // post_switch saw a newer epoch
    | Notify(woken: seq<Tid>)           // taken off a waiting queue, not yet ready

  datatype State = State(
    cur: seq<Tid>,                 // per core: the thread fsbase points to
    pc: seq<Pc>,                   // per core
    idle: seq<Tid>,                // per core: PerCore::idle_thread
    ready: seq<Tid>,
    reaper: seq<Tid>,
    conds: map<CondId, Cond>,
    tcb: map<Tid, Tcb>,            // the TCBs allocated
    reaping: map<Tid, Tid>,        // thread inside reap() -> the TCB it is deallocating
    owed: set<Tid>,                // threads between dealloc and n_active.sub_fetch
    making: map<Tid, Option<Tid>>, // threads inside make_thread -> the new TCB, once allocated
    nActive: int,
    shutdown: bool)

  // Where a TCB can be.
  datatype Place =
    | OnCore(core: nat)
    | InHand(core: nat)
    | Parked(core: nat)
    | InReady
    | InReaper
    | Waiting(cond: CondId)
    | BeingReaped(owner: Tid)
    | BeingMade(owner: Tid)

  function Hand(pc: Pc): seq<Tid> {
    match pc
    case Run => []
    case Captured(_) => []
    case Picked(next, _) => [next]
    case Post(prev) => [prev]
    case Requeue(prev) => [prev]
    case Notify(woken) => woken
  }

  ghost predicate At(s: State, t: Tid, p: Place) {
    match p
    case OnCore(k) => k < |s.cur| && s.cur[k] == t
    case InHand(k) => k < |s.pc| && t in Hand(s.pc[k])
    case Parked(k) => k < |s.idle| && s.idle[k] == t && k < |s.cur| && s.cur[k] != t && k < |s.pc| && t !in Hand(s.pc[k])
    case InReady => t in s.ready
    case InReaper => t in s.reaper
    case Waiting(c) => c in s.conds && t in s.conds[c].waiting
    case BeingReaped(u) => u in s.reaping && s.reaping[u] == t
    case BeingMade(u) => u in s.making && s.making[u] == Some(t)
  }

  ghost predicate IsIdle(s: State, t: Tid) { t in s.idle }

  // ---- the steps of core k ----

  datatype Event =
    | YieldPick(k: nat)
    | StopPick(k: nat)
    | IdlePick(k: nat)
    | WaitCapture(k: nat, cond: CondId)
    | WaitGiveUp(k: nat)
    | WaitPick(k: nat)
    | Switch(k: nat)
    | PostSwitch(k: nat)
    | RequeueAdd(k: nat)
    | NotifyOne(k: nat, cond: CondId)
    | NotifyAll(k: nat, cond: CondId)
    | NotifyAdd(k: nat)
    | ReapPop(k: nat)
    | ReapDealloc(k: nat)
    | ReapCount(k: nat)
    | MakeBegin(k: nat)
    | MakeAlloc(k: nat, tid: Tid)
    | MakeReady(k: nat)

  // Inside reap() or make_thread(): the thread may block there, but not stop.
  ghost predicate Busy(s: State, t: Tid) {
    t in s.reaping || t in s.owed || t in s.making
  }

  ghost predicate InReap(s: State, t: Tid) {
    t in s.reaping || t in s.owed
  }

  ghost predicate Enabled(s: State, e: Event) {
    e.k < |s.cur| && e.k < |s.pc| && e.k < |s.idle| && !s.shutdown &&
    var t, pc := s.cur[e.k], s.pc[e.k];
    match e
    case YieldPick(k) => pc == Run && !IsIdle(s, t) && s.ready != []
    case StopPick(k) => pc == Run && !IsIdle(s, t) && !Busy(s, t)
    case IdlePick(k) => pc == Run && IsIdle(s, t) && s.ready != [] && !Busy(s, t)
    case WaitCapture(k, c) => pc == Run && !IsIdle(s, t) && c in s.conds && t in s.tcb
    case WaitGiveUp(k) => pc.Captured? && s.ready == []
    case WaitPick(k) => pc.Captured? && s.ready != []
    case Switch(k) => pc.Picked? && t in s.tcb
    case PostSwitch(k) => pc.Post? && pc.prev in s.tcb &&
      (s.tcb[pc.prev].action.Wait? ==> s.tcb[pc.prev].action.cond in s.conds)
    case RequeueAdd(k) => pc.Requeue?
    case NotifyOne(k, c) => pc == Run && c in s.conds
    case NotifyAll(k, c) => pc == Run && c in s.conds
    case NotifyAdd(k) => pc.Notify? && pc.woken != []
    case ReapPop(k) => pc == Run && !InReap(s, t) && s.reaper != []
    case ReapDealloc(k) => pc == Run && t in s.reaping
    case ReapCount(k) => pc == Run && t in s.owed
    case MakeBegin(k) => pc == Run && !Busy(s, t)
    case MakeAlloc(k, u) => pc == Run && !InReap(s, t) && t in s.making && s.making[t] == None && u !in s.tcb
    case MakeReady(k) => pc == Run && !InReap(s, t) && t in s.making && s.making[t].Some?
  }

  function Woken(list: seq<Tid>): Pc {
    if list == [] then Run else Notify(list)
  }

  ghost function Apply(s: State, e: Event): State
    requires Enabled(s, e)
  {
    var k, t, pc := e.k, s.cur[e.k], s.pc[e.k];
    match e
    case YieldPick(_) => s.(ready := s.ready[1..], pc := s.pc[k := Picked(s.ready[0], Ready)])
    case StopPick(_) =>
      if s.ready == [] then s.(pc := s.pc[k := Picked(s.idle[k], Stop)])
      else s.(ready := s.ready[1..], pc := s.pc[k := Picked(s.ready[0], Stop)])
    case IdlePick(_) => s.(ready := s.ready[1..], pc := s.pc[k := Picked(s.ready[0], NoAction)])
    case WaitCapture(_, c) =>
      s.(tcb := s.tcb[t := s.tcb[t].(condEpoch := s.conds[c].epoch)], pc := s.pc[k := Captured(c)])
    case WaitGiveUp(_) => s.(pc := s.pc[k := Run])
    case WaitPick(_) => s.(ready := s.ready[1..], pc := s.pc[k := Picked(s.ready[0], Wait(pc.cond))])
    case Switch(_) =>
      s.(tcb := s.tcb[t := s.tcb[t].(action := pc.action)], cur := s.cur[k := pc.next], pc := s.pc[k := Post(t)])
    case PostSwitch(_) =>
      var p := pc.prev;
      (match s.tcb[p].action
       case Ready => s.(ready := s.ready + [p], pc := s.pc[k := Run])
       case Stop => s.(reaper := s.reaper + [p], pc := s.pc[k := Run])
       case Wait(c) =>
         var cond := s.conds[c];
         if cond.epoch == s.tcb[p].condEpoch
         then s.(conds := s.conds[c := cond.(waiting := cond.waiting + [p])], pc := s.pc[k := Run])
         else s.(pc := s.pc[k := Requeue(p)])
       case NoAction => s.(pc := s.pc[k := Run]))
    case RequeueAdd(_) => s.(ready := s.ready + [pc.prev], pc := s.pc[k := Run])
    case NotifyOne(_, c) =>
      var w := s.conds[c].waiting;
      s.(conds := s.conds[c := Cond(s.conds[c].epoch + 1, if w == [] then [] else w[1..])],
         pc := s.pc[k := Woken(if w == [] then [] else [w[0]])])
    case NotifyAll(_, c) =>
      s.(conds := s.conds[c := Cond(s.conds[c].epoch + 1, [])], pc := s.pc[k := Woken(s.conds[c].waiting)])
    case NotifyAdd(_) => s.(ready := s.ready + [pc.woken[0]], pc := s.pc[k := Woken(pc.woken[1..])])
    case ReapPop(_) => s.(reaper := s.reaper[1..], reaping := s.reaping[t := s.reaper[0]])
    case ReapDealloc(_) =>
      s.(tcb := s.tcb - {s.reaping[t]}, reaping := s.reaping - {t}, owed := s.owed + {t})
    case ReapCount(_) =>
      s.(nActive := s.nActive - 1, owed := s.owed - {t}, shutdown := s.nActive - 1 == 0)
    case MakeBegin(_) => s.(nActive := s.nActive + 1, making := s.making[t := None])
    case MakeAlloc(_, u) =>
      s.(tcb := s.tcb[u := Tcb(NoAction, 0)], making := s.making[t := Some(u)])
    case MakeReady(_) => s.(ready := s.ready + [s.making[t].value], making := s.making - {t})
  }

  // ---- the invariant ----

  type Locations = map<Tid, Place>

  // loc says, for every allocated TCB, the one place it is in; freed TCBs are nowhere.
  ghost predicate Located(s: State, loc: Locations) {
    loc.Keys == s.tcb.Keys &&
    forall t, p :: At(s, t, p) <==> t in loc && loc[t] == p
  }

  ghost predicate QueuesOk(s: State) {
    NoDup(s.ready) && NoDup(s.reaper) && NoDup(s.idle) &&
    (forall c :: c in s.conds ==> NoDup(s.conds[c].waiting)) &&
    (forall k :: 0 <= k < |s.pc| ==> NoDup(Hand(s.pc[k])))
  }

  // Idle threads stay with their own core and never queue.
  ghost predicate IdleOk(s: State, loc: Locations) {
    |s.cur| == |s.pc| == |s.idle| &&
    forall k :: 0 <= k < |s.idle| ==>
      s.idle[k] in loc && (loc[s.idle[k]] == OnCore(k) || loc[s.idle[k]] == InHand(k) || loc[s.idle[k]] == Parked(k))
  }

  // What each program counter promises about the thread that will be switched
  // from, or was.
  ghost predicate PcOk(s: State, k: nat)
    requires k < |s.pc| && k < |s.cur|
  {
    match s.pc[k]
    case Run => true
    case Captured(c) => !IsIdle(s, s.cur[k]) && c in s.conds
    case Picked(next, a) =>
      (a == NoAction <==> IsIdle(s, s.cur[k])) &&
      (IsIdle(s, next) ==> a == Stop) &&
      (a == Stop ==> !Busy(s, s.cur[k])) &&
      (a.Wait? ==> a.cond in s.conds)
    case Post(prev) => prev in s.tcb &&
      (s.tcb[prev].action == NoAction <==> IsIdle(s, prev)) &&
      (s.tcb[prev].action == Stop ==> !Busy(s, prev)) &&
      (s.tcb[prev].action.Wait? ==> s.tcb[prev].action.cond in s.conds)
    case Requeue(prev) => !IsIdle(s, prev)
    case Notify(woken) => woken != [] && forall t :: t in woken ==> !IsIdle(s, t)
  }

  // A thread inside reap or make_thread exists and has not stopped.
  ghost predicate OwnersOk(s: State, loc: Locations) {
    forall t :: Busy(s, t) ==> t in loc && !loc[t].InReaper? && !loc[t].BeingReaped? && !loc[t].BeingMade?
  }

  ghost function IdleSet(idle: seq<Tid>): set<Tid> { set t | t in idle }

  ghost function Unallocated(making: map<Tid, Option<Tid>>): set<Tid> { set t | t in making && making[t] == None }

  // n_active counts the threads being created or not yet counted out.
  ghost predicate CountOk(s: State) {
    s.nActive == |s.tcb.Keys - IdleSet(s.idle)| + |s.owed| + |Unallocated(s.making)| &&
    (forall t :: t in s.reaping ==> t !in s.owed) &&
    (s.shutdown ==> s.nActive == 0)
  }

  ghost predicate Inv(s: State, loc: Locations) {
    Located(s, loc) && QueuesOk(s) && IdleOk(s, loc) && AllPcOk(s) && OwnersOk(s, loc) && CountOk(s)
  }

  ghost predicate AllPcOk(s: State) {
    |s.cur| == |s.pc| && forall k :: 0 <= k < |s.pc| ==> PcOk(s, k)
  }

  // Where everyone is after a step.
  ghost function Relocate(s: State, e: Event, loc: Locations): Locations
    requires Enabled(s, e)
  {
    var k, t, pc := e.k, s.cur[e.k], s.pc[e.k];
    match e
    case YieldPick(_) => loc[s.ready[0] := InHand(k)]
    case StopPick(_) => if s.ready == [] then loc[s.idle[k] := InHand(k)] else loc[s.ready[0] := InHand(k)]
    case IdlePick(_) => loc[s.ready[0] := InHand(k)]
    case WaitCapture(_, _) => loc
    case WaitGiveUp(_) => loc
    case WaitPick(_) => loc[s.ready[0] := InHand(k)]
    case Switch(_) => loc[t := InHand(k)][pc.next := OnCore(k)]
    case PostSwitch(_) =>
      var p := pc.prev;
      (match s.tcb[p].action
       case Ready => loc[p := InReady]
       case Stop => loc[p := InReaper]
       case Wait(c) => if s.conds[c].epoch == s.tcb[p].condEpoch then loc[p := Waiting(c)] else loc
       case NoAction => loc[p := Parked(k)])
    case RequeueAdd(_) => loc[pc.prev := InReady]
    case NotifyOne(_, c) => if s.conds[c].waiting == [] then loc else loc[s.conds[c].waiting[0] := InHand(k)]
    case NotifyAll(_, c) => AllWoken(loc, k, c)
    case NotifyAdd(_) => loc[pc.woken[0] := InReady]
    case ReapPop(_) => loc[s.reaper[0] := BeingReaped(t)]
    case ReapDealloc(_) => loc - {s.reaping[t]}
    case ReapCount(_) => loc
    case MakeBegin(_) => loc
    case MakeAlloc(_, u) => loc[u := BeingMade(t)]
    case MakeReady(_) => loc[s.making[t].value := InReady]
  }

  lemma Appended(q: seq<Tid>, p: Tid)
    requires NoDup(q) && p !in q
    ensures NoDup(q + [p])
    ensures forall t :: t in q + [p] <==> t in q || t == p
  {
  }

  lemma PickLocated(s: State, loc: Locations, k: nat, a: Action, s': State)
    requires Located(s, loc) && k < |s.pc| && s.ready != [] && NoDup(s.ready) && Hand(s.pc[k]) == []
    requires s' == s.(ready := s.ready[1..], pc := s.pc[k := Picked(s.ready[0], a)])
    ensures Located(s', loc[s.ready[0] := InHand(k)])
  {
    HeadTail(s.ready);
    hide NoDup;
    var n := s.ready[0];
    assert At(s, n, InReady) && !At(s, n, Parked(k));
    var loc' := loc[n := InHand(k)];
    forall t, p ensures At(s', t, p) <==> t in loc' && loc'[t] == p {
      assert At(s, t, p) <==> t in loc && loc[t] == p;
    }
  }

  lemma PickKeeps(s: State, loc: Locations, k: nat, a: Action, s': State)
    requires Inv(s, loc) && k < |s.pc| && s.ready != [] && Hand(s.pc[k]) == []
    requires s' == s.(ready := s.ready[1..], pc := s.pc[k := Picked(s.ready[0], a)])
    ensures s.ready[0] in loc && loc[s.ready[0]] == InReady
    ensures Located(s', loc[s.ready[0] := InHand(k)]) && QueuesOk(s')
  {
    HeadTail(s.ready);
    assert At(s, s.ready[0], InReady);
    PickLocated(s, loc, k, a, s');
  }

  lemma NotIdle(s: State, loc: Locations, t: Tid)
    requires Inv(s, loc) && t in loc
    requires loc[t].InReady? || loc[t].InReaper? || loc[t].Waiting? || loc[t].BeingReaped? || loc[t].BeingMade?
    ensures !IsIdle(s, t)
  {
  }

  // A step of core k leaves the other cores' promises standing, if it keeps their
  // threads, the TCBs they hold, and makes none of those busy.
  lemma OtherCores(s: State, s': State, k: nat)
    requires AllPcOk(s) && |s'.cur| == |s'.pc| == |s.pc| && k < |s'.pc| && PcOk(s', k)
    requires s'.idle == s.idle && s'.conds.Keys == s.conds.Keys
    requires forall j :: 0 <= j < |s.pc| && j != k ==> s'.pc[j] == s.pc[j] && s'.cur[j] == s.cur[j]
    requires forall j :: 0 <= j < |s.pc| && j != k ==> (Busy(s', s.cur[j]) ==> Busy(s, s.cur[j]))
    requires forall j :: 0 <= j < |s.pc| && j != k && s.pc[j].Post? && s.pc[j].prev in s.tcb ==> (
      s.pc[j].prev in s'.tcb && s'.tcb[s.pc[j].prev].action == s.tcb[s.pc[j].prev].action &&
      (Busy(s', s.pc[j].prev) ==> Busy(s, s.pc[j].prev)))
    ensures AllPcOk(s')
  {
    forall j | 0 <= j < |s'.pc| ensures PcOk(s', j) {
      assert PcOk(s, j);
    }
  }

  // One thread that is not idle moves; nobody becomes busy.
  lemma PeopleMoved(s: State, loc: Locations, s': State, loc': Locations, t: Tid, place: Place)
    requires IdleOk(s, loc) && OwnersOk(s, loc)
    requires t in loc && !IsIdle(s, t) && loc' == loc[t := place]
    requires s'.cur == s.cur && |s'.pc| == |s.pc| && s'.idle == s.idle
    requires forall u :: Busy(s', u) ==> Busy(s, u)
    requires place.InReaper? || place.BeingReaped? || place.BeingMade? ==> !Busy(s, t)
    ensures IdleOk(s', loc') && OwnersOk(s', loc')
  {
  }

  lemma NobodyMoved(s: State, loc: Locations, s': State)
    requires IdleOk(s, loc) && OwnersOk(s, loc)
    requires s'.cur == s.cur && |s'.pc| == |s.pc| && s'.idle == s.idle
    requires forall u :: Busy(s', u) ==> Busy(s, u)
    ensures IdleOk(s', loc) && OwnersOk(s', loc)
  {
  }

  lemma CountSame(s: State, s': State)
    requires CountOk(s) && s'.tcb.Keys == s.tcb.Keys && s'.idle == s.idle && s'.owed == s.owed
    requires s'.making == s.making && s'.reaping == s.reaping && s'.nActive == s.nActive && s'.shutdown == s.shutdown
    ensures CountOk(s')
  {
  }

  // Only core k's program counter moved.
  lemma OwnPc(s: State, loc: Locations, k: nat, s': State)
    requires Inv(s, loc) && k < |s.pc| && |s'.pc| == |s.pc| && s'.cur == s.cur && PcOk(s', k)
    requires s'.idle == s.idle && s'.conds.Keys == s.conds.Keys && s'.tcb == s.tcb
    requires forall u :: Busy(s', u) ==> Busy(s, u)
    requires forall j :: 0 <= j < |s.pc| && j != k ==> s'.pc[j] == s.pc[j]
    ensures AllPcOk(s')
  {
    OtherCores(s, s', k);
  }

  lemma StepPick(s: State, loc: Locations, k: nat, a: Action, s': State)
    requires Inv(s, loc) && k < |s.pc| && s.ready != [] && Hand(s.pc[k]) == []
    requires s' == s.(ready := s.ready[1..], pc := s.pc[k := Picked(s.ready[0], a)])
    requires a == NoAction <==> IsIdle(s, s.cur[k])
    requires a == Stop ==> !Busy(s, s.cur[k])
    requires a.Wait? ==> a.cond in s.conds
    ensures Inv(s', loc[s.ready[0] := InHand(k)])
  {
    var n := s.ready[0];
    PickKeeps(s, loc, k, a, s');
    NotIdle(s, loc, n);
    PeopleMoved(s, loc, s', loc[n := InHand(k)], n, InHand(k));
    CountSame(s, s');
    hide Located;
    hide QueuesOk;
    hide IdleOk;
    hide OwnersOk;
    hide AllPcOk;
    hide CountOk;
    OwnPc(s, loc, k, s');
  }

  // With nothing ready, stop() switches to this core's own, parked, idle thread.
  lemma StopToIdle(s: State, loc: Locations, k: nat, s': State)
    requires Inv(s, loc) && k < |s.pc| && s.pc[k] == Run && !IsIdle(s, s.cur[k]) && !Busy(s, s.cur[k])
    requires s' == s.(pc := s.pc[k := Picked(s.idle[k], Stop)])
    ensures Inv(s', loc[s.idle[k] := InHand(k)])
  {
    IdleParked(s, loc, k);
    ParkedTaken(s, loc, k, s');
    IdleMoved(s, loc, k, s', InHand(k));
    CountSame(s, s');
    hide Located;
    hide QueuesOk;
    hide IdleOk;
    hide OwnersOk;
    hide AllPcOk;
    hide CountOk;
    OwnPc(s, loc, k, s');
  }

  lemma IdleParked(s: State, loc: Locations, k: nat)
    requires Inv(s, loc) && k < |s.pc| && s.pc[k] == Run && !IsIdle(s, s.cur[k])
    ensures k < |s.idle| && s.idle[k] in loc && loc[s.idle[k]] == Parked(k)
  {
    var i := s.idle[k];
    assert i in loc && (loc[i] == OnCore(k) || loc[i] == InHand(k) || loc[i] == Parked(k));
    assert At(s, i, loc[i]);
  }

  lemma IdleMoved(s: State, loc: Locations, k: nat, s': State, place: Place)
    requires Inv(s, loc) && k < |s.idle| && (place == InHand(k) || place == Parked(k))
    requires s'.cur == s.cur && |s'.pc| == |s.pc| && s'.idle == s.idle
    requires forall u :: Busy(s', u) ==> Busy(s, u)
    ensures IdleOk(s', loc[s.idle[k] := place]) && OwnersOk(s', loc[s.idle[k] := place])
  {
  }

  lemma ParkedTaken(s: State, loc: Locations, k: nat, s': State)
    requires Located(s, loc) && QueuesOk(s) && k < |s.pc| && k < |s.idle| && s.pc[k] == Run
    requires s.idle[k] in loc && loc[s.idle[k]] == Parked(k)
    requires s' == s.(pc := s.pc[k := Picked(s.idle[k], Stop)])
    ensures Located(s', loc[s.idle[k] := InHand(k)])
  {
    var loc' := loc[s.idle[k] := InHand(k)];
    forall t, p ensures At(s', t, p) <==> t in loc' && loc'[t] == p {
      assert At(s, t, p) <==> t in loc && loc[t] == p;
    }
  }

  // context_switch_: the thread leaving is in the arriving thread's hands.
  lemma StepSwitch(s: State, loc: Locations, k: nat, s': State)
    requires Inv(s, loc) && k < |s.pc| && s.pc[k].Picked? && s.cur[k] in s.tcb
    requires var t := s.cur[k];
      s' == s.(tcb := s.tcb[t := s.tcb[t].(action := s.pc[k].action)], cur := s.cur[k := s.pc[k].next], pc := s.pc[k := Post(t)])
    ensures s.pc[k].next != s.cur[k]
    ensures Inv(s', loc[s.cur[k] := InHand(k)][s.pc[k].next := OnCore(k)])
  {
    var loc' := loc[s.cur[k] := InHand(k)][s.pc[k].next := OnCore(k)];
    SwitchMoves(s, loc, k, s', loc');
    SwitchPeople(s, loc, k, s', loc');
    SwitchPc(s, loc, k, s');
    assert s'.tcb.Keys == s.tcb.Keys;
    CountSame(s, s');
    assert At(s, s.cur[k], OnCore(k)) && At(s, s.pc[k].next, InHand(k));
    hide Located;
    hide QueuesOk;
    hide IdleOk;
    hide OwnersOk;
    hide AllPcOk;
    hide CountOk;
  }

  lemma SwitchPc(s: State, loc: Locations, k: nat, s': State)
    requires Inv(s, loc) && k < |s.pc| && s.pc[k].Picked? && s.cur[k] in s.tcb
    requires var t := s.cur[k];
      s' == s.(tcb := s.tcb[t := s.tcb[t].(action := s.pc[k].action)], cur := s.cur[k := s.pc[k].next], pc := s.pc[k := Post(t)])
    ensures AllPcOk(s')
  {
    assert PcOk(s, k);
    SwitchOthers(s, loc, k);
    hide Located;
    hide QueuesOk;
    hide IdleOk;
    hide OwnersOk;
    hide CountOk;
    OtherCores(s, s', k);
  }

  lemma SwitchPeople(s: State, loc: Locations, k: nat, s': State, loc': Locations)
    requires IdleOk(s, loc) && OwnersOk(s, loc) && k < |s.pc| && s.pc[k].Picked?
    requires s'.cur == s.cur[k := s.pc[k].next] && |s'.pc| == |s.pc| && s'.idle == s.idle
    requires s'.reaping == s.reaping && s'.owed == s.owed && s'.making == s.making
    requires loc' == loc[s.cur[k] := InHand(k)][s.pc[k].next := OnCore(k)]
    requires s.pc[k].next in loc && loc[s.pc[k].next] == InHand(k)
    requires s.cur[k] in loc && loc[s.cur[k]] == OnCore(k)
    ensures IdleOk(s', loc') && OwnersOk(s', loc')
  {
  }

  lemma SwitchMoves(s: State, loc: Locations, k: nat, s': State, loc': Locations)
    requires Located(s, loc) && QueuesOk(s) && |s.cur| == |s.pc| == |s.idle|
    requires k < |s.pc| && s.pc[k].Picked? && s.cur[k] in s.tcb
    requires var t := s.cur[k];
      s' == s.(tcb := s.tcb[t := s.tcb[t].(action := s.pc[k].action)], cur := s.cur[k := s.pc[k].next], pc := s.pc[k := Post(t)])
    requires loc' == loc[s.cur[k] := InHand(k)][s.pc[k].next := OnCore(k)]
    ensures s.pc[k].next in loc && loc[s.pc[k].next] == InHand(k)
    ensures s.cur[k] in loc && loc[s.cur[k]] == OnCore(k)
    ensures Located(s', loc') && QueuesOk(s')
  {
    var t0, n := s.cur[k], s.pc[k].next;
    assert At(s, t0, OnCore(k)) && At(s, n, InHand(k));
    forall t, p ensures At(s', t, p) <==> t in loc' && loc'[t] == p {
      assert At(s, t, p) <==> t in loc && loc[t] == p;
    }
  }

  lemma SwitchOthers(s: State, loc: Locations, k: nat)
    requires Located(s, loc) && k < |s.cur|
    ensures forall j :: 0 <= j < |s.pc| && j != k && s.pc[j].Post? ==> s.pc[j].prev != s.cur[k]
  {
    assert At(s, s.cur[k], OnCore(k));
    forall j | 0 <= j < |s.pc| && j != k && s.pc[j].Post? ensures s.pc[j].prev != s.cur[k] {
      assert At(s, s.pc[j].prev, InHand(j));
    }
  }

  // The hand of core k empties one thread into the ready queue.
  lemma StepToReady(s: State, loc: Locations, k: nat, p: Tid, rest: seq<Tid>, s': State)
    requires Inv(s, loc) && k < |s.pc| && Hand(s.pc[k]) == [p] + rest && !IsIdle(s, p)
    requires forall t :: t in rest ==> !IsIdle(s, t)
    requires s' == s.(ready := s.ready + [p], pc := s.pc[k := Woken(rest)])
    ensures Inv(s', loc[p := InReady])
  {
    ToReadyMoves(s, loc, k, p, rest, s');
    PeopleMoved(s, loc, s', loc[p := InReady], p, InReady);
    CountSame(s, s');
    hide Located;
    hide QueuesOk;
    hide IdleOk;
    hide OwnersOk;
    hide AllPcOk;
    hide CountOk;
    OwnPc(s, loc, k, s');
  }

  lemma ToReadyMoves(s: State, loc: Locations, k: nat, p: Tid, rest: seq<Tid>, s': State)
    requires Located(s, loc) && QueuesOk(s) && k < |s.pc| && Hand(s.pc[k]) == [p] + rest
    requires !IsIdle(s, p)
    requires s' == s.(ready := s.ready + [p], pc := s.pc[k := Woken(rest)])
    ensures p in loc && loc[p] == InHand(k)
    ensures Located(s', loc[p := InReady]) && QueuesOk(s')
  {
    assert ([p] + rest)[0] == p && ([p] + rest)[1..] == rest;
    HeadTail([p] + rest);
    assert At(s, p, InHand(k)) && !At(s, p, InReady);
    Appended(s.ready, p);
    var loc' := loc[p := InReady];
    forall t, q ensures At(s', t, q) <==> t in loc' && loc'[t] == q {
      assert At(s, t, q) <==> t in loc && loc[t] == q;
      assert !At(s, p, Parked(k));
    }
  }

  // post_switch of a stopped thread.
  lemma StepToReaper(s: State, loc: Locations, k: nat, p: Tid, s': State)
    requires Inv(s, loc) && k < |s.pc| && s.pc[k] == Post(p) && !IsIdle(s, p) && !Busy(s, p)
    requires s' == s.(reaper := s.reaper + [p], pc := s.pc[k := Run])
    ensures Inv(s', loc[p := InReaper])
  {
    ToReaperMoves(s, loc, k, p, s');
    PeopleMoved(s, loc, s', loc[p := InReaper], p, InReaper);
    CountSame(s, s');
    hide Located;
    hide QueuesOk;
    hide IdleOk;
    hide OwnersOk;
    hide AllPcOk;
    hide CountOk;
    OwnPc(s, loc, k, s');
  }

  lemma ToReaperMoves(s: State, loc: Locations, k: nat, p: Tid, s': State)
    requires Located(s, loc) && QueuesOk(s) && k < |s.pc| && s.pc[k] == Post(p)
    requires !IsIdle(s, p)
    requires s' == s.(reaper := s.reaper + [p], pc := s.pc[k := Run])
    ensures p in loc && loc[p] == InHand(k)
    ensures Located(s', loc[p := InReaper]) && QueuesOk(s')
  {
    assert At(s, p, InHand(k)) && !At(s, p, InReaper);
    Appended(s.reaper, p);
    var loc' := loc[p := InReaper];
    forall t, q ensures At(s', t, q) <==> t in loc' && loc'[t] == q {
      assert At(s, t, q) <==> t in loc && loc[t] == q;
      assert !At(s, p, Parked(k));
    }
  }

  // post_switch of a waiting thread whose epoch is still current.
  lemma StepToWaiting(s: State, loc: Locations, k: nat, p: Tid, c: CondId, s': State)
    requires Inv(s, loc) && k < |s.pc| && s.pc[k] == Post(p) && !IsIdle(s, p) && c in s.conds
    requires s' == s.(conds := s.conds[c := s.conds[c].(waiting := s.conds[c].waiting + [p])], pc := s.pc[k := Run])
    ensures Inv(s', loc[p := Waiting(c)])
  {
    ToWaitingMoves(s, loc, k, p, c, s');
    PeopleMoved(s, loc, s', loc[p := Waiting(c)], p, Waiting(c));
    CountSame(s, s');
    hide Located;
    hide QueuesOk;
    hide IdleOk;
    hide OwnersOk;
    hide AllPcOk;
    hide CountOk;
    OwnPc(s, loc, k, s');
  }

  lemma ToWaitingMoves(s: State, loc: Locations, k: nat, p: Tid, c: CondId, s': State)
    requires Located(s, loc) && QueuesOk(s) && k < |s.pc| && s.pc[k] == Post(p) && c in s.conds
    requires !IsIdle(s, p)
    requires s' == s.(conds := s.conds[c := s.conds[c].(waiting := s.conds[c].waiting + [p])], pc := s.pc[k := Run])
    ensures p in loc && loc[p] == InHand(k)
    ensures Located(s', loc[p := Waiting(c)]) && QueuesOk(s')
  {
    assert At(s, p, InHand(k)) && !At(s, p, Waiting(c));
    Appended(s.conds[c].waiting, p);
    var loc' := loc[p := Waiting(c)];
    forall t, q ensures At(s', t, q) <==> t in loc' && loc'[t] == q {
      assert At(s, t, q) <==> t in loc && loc[t] == q;
      assert !At(s, p, Parked(k));
    }
  }

  // post_switch of an idle thread: it is parked on its own core.
  lemma StepToParked(s: State, loc: Locations, k: nat, p: Tid, s': State)
    requires Inv(s, loc) && k < |s.pc| && s.pc[k] == Post(p) && IsIdle(s, p)
    requires s' == s.(pc := s.pc[k := Run])
    ensures Inv(s', loc[p := Parked(k)])
  {
    IdleOnOwnCore(s, loc, k, p);
    ToParkedMoves(s, loc, k, s');
    IdleMoved(s, loc, k, s', Parked(k));
    CountSame(s, s');
    hide Located;
    hide QueuesOk;
    hide IdleOk;
    hide OwnersOk;
    hide AllPcOk;
    hide CountOk;
    OwnPc(s, loc, k, s');
  }

  lemma IdleOnOwnCore(s: State, loc: Locations, k: nat, p: Tid)
    requires Inv(s, loc) && k < |s.pc| && p in Hand(s.pc[k]) && IsIdle(s, p)
    ensures k < |s.idle| && k < |s.cur| && s.idle[k] == p
  {
    assert At(s, p, InHand(k));
    var i :| 0 <= i < |s.idle| && s.idle[i] == p;
    assert i == k;
  }

  lemma ToParkedMoves(s: State, loc: Locations, k: nat, s': State)
    requires Located(s, loc) && QueuesOk(s) && k < |s.pc| && k < |s.idle| && k < |s.cur| && s.pc[k] == Post(s.idle[k])
    requires s' == s.(pc := s.pc[k := Run])
    ensures Located(s', loc[s.idle[k] := Parked(k)]) && QueuesOk(s')
  {
    var p := s.idle[k];
    assert At(s, p, InHand(k)) && !At(s, p, OnCore(k));
    var loc' := loc[p := Parked(k)];
    forall t, q ensures At(s', t, q) <==> t in loc' && loc'[t] == q {
      assert At(s, t, q) <==> t in loc && loc[t] == q;
    }
  }

  // Nobody moves, core k's thread changes what it is doing.
  lemma StepInPlace(s: State, loc: Locations, k: nat, pc: Pc, s': State)
    requires Inv(s, loc) && k < |s.pc| && s' == s.(pc := s.pc[k := pc]) && PcOk(s', k)
    requires Hand(pc) == Hand(s.pc[k])
    ensures Inv(s', loc)
  {
    InPlaceMoves(s, loc, k, pc, s');
    NobodyMoved(s, loc, s');
    CountSame(s, s');
    hide Located;
    hide QueuesOk;
    hide IdleOk;
    hide OwnersOk;
    hide AllPcOk;
    hide CountOk;
    OwnPc(s, loc, k, s');
  }

  lemma InPlaceMoves(s: State, loc: Locations, k: nat, pc: Pc, s': State)
    requires Located(s, loc) && QueuesOk(s) && k < |s.pc| && Hand(pc) == Hand(s.pc[k])
    requires s'.pc == s.pc[k := pc] && s'.tcb.Keys == s.tcb.Keys
    requires s' == s.(pc := s'.pc, tcb := s'.tcb)
    ensures Located(s', loc) && QueuesOk(s')
  {
    assert forall j :: 0 <= j < |s.pc| ==> Hand(s'.pc[j]) == Hand(s.pc[j]);
    forall t, q ensures At(s', t, q) <==> t in loc && loc[t] == q {
      assert At(s, t, q) <==> t in loc && loc[t] == q;
    }
  }

  // wait(): the running thread captures the epoch.
  lemma StepCapture(s: State, loc: Locations, k: nat, c: CondId, s': State)
    requires Inv(s, loc) && k < |s.pc| && s.pc[k] == Run && !IsIdle(s, s.cur[k]) && c in s.conds && s.cur[k] in s.tcb
    requires var t := s.cur[k];
      s' == s.(tcb := s.tcb[t := s.tcb[t].(condEpoch := s.conds[c].epoch)], pc := s.pc[k := Captured(c)])
    ensures Inv(s', loc)
  {
    assert s'.tcb.Keys == s.tcb.Keys;
    InPlaceMoves(s, loc, k, Captured(c), s');
    NobodyMoved(s, loc, s');
    CountSame(s, s');
    CapturePc(s, loc, k, c, s');
    hide Located;
    hide QueuesOk;
    hide IdleOk;
    hide OwnersOk;
    hide AllPcOk;
    hide CountOk;
  }

  lemma CapturePc(s: State, loc: Locations, k: nat, c: CondId, s': State)
    requires Inv(s, loc) && k < |s.pc| && s.pc[k] == Run && !IsIdle(s, s.cur[k]) && c in s.conds && s.cur[k] in s.tcb
    requires var t := s.cur[k];
      s' == s.(tcb := s.tcb[t := s.tcb[t].(condEpoch := s.conds[c].epoch)], pc := s.pc[k := Captured(c)])
    ensures AllPcOk(s')
  {
    hide Located;
    hide QueuesOk;
    hide IdleOk;
    hide OwnersOk;
    hide CountOk;
    OtherCores(s, s', k);
  }

  // notify_one on a condition with waiters: the first is taken, the epoch moves.
  lemma StepNotifyOne(s: State, loc: Locations, k: nat, c: CondId, e: nat, s': State)
    requires Inv(s, loc) && k < |s.pc| && s.pc[k] == Run && c in s.conds && s.conds[c].waiting != []
    requires var w := s.conds[c].waiting;
      s' == s.(conds := s.conds[c := Cond(e, w[1..])], pc := s.pc[k := Notify([w[0]])])
    ensures Inv(s', loc[s.conds[c].waiting[0] := InHand(k)])
  {
    var n := s.conds[c].waiting[0];
    NotifyOneMoves(s, loc, k, c, e, s');
    NotIdle(s, loc, n);
    PeopleMoved(s, loc, s', loc[n := InHand(k)], n, InHand(k));
    CountSame(s, s');
    hide Located;
    hide QueuesOk;
    hide IdleOk;
    hide OwnersOk;
    hide AllPcOk;
    hide CountOk;
    OwnPc(s, loc, k, s');
  }

  lemma NotifyOneMoves(s: State, loc: Locations, k: nat, c: CondId, e: nat, s': State)
    requires Located(s, loc) && QueuesOk(s) && k < |s.pc| && s.pc[k] == Run && c in s.conds && s.conds[c].waiting != []
    requires var w := s.conds[c].waiting;
      s' == s.(conds := s.conds[c := Cond(e, w[1..])], pc := s.pc[k := Notify([w[0]])])
    ensures s.conds[c].waiting[0] in loc && loc[s.conds[c].waiting[0]] == Waiting(c)
    ensures Located(s', loc[s.conds[c].waiting[0] := InHand(k)]) && QueuesOk(s')
  {
    var n := s.conds[c].waiting[0];
    HeadTail(s.conds[c].waiting);
    assert At(s, n, Waiting(c)) && !At(s, n, Parked(k));
    var loc' := loc[n := InHand(k)];
    forall t, q ensures At(s', t, q) <==> t in loc' && loc'[t] == q {
      assert At(s, t, q) <==> t in loc && loc[t] == q;
    }
  }

  ghost function AllWoken(loc: Locations, k: nat, c: CondId): (r: Locations)
    ensures r.Keys == loc.Keys
  {
    map u | u in loc :: if loc[u] == Waiting(c) then InHand(k) else loc[u]
  }

  // notify_all takes every waiter.
  lemma StepNotifyAll(s: State, loc: Locations, k: nat, c: CondId, e: nat, s': State)
    requires Inv(s, loc) && k < |s.pc| && s.pc[k] == Run && c in s.conds
    requires s' == s.(conds := s.conds[c := Cond(e, [])], pc := s.pc[k := Woken(s.conds[c].waiting)])
    ensures Inv(s', AllWoken(loc, k, c))
  {
    hide AllWoken;
    NotifyAllMoves(s, loc, k, c, e, s');
    WaitersNotIdle(s, loc, c);
    NotifyAllPeople(s, loc, k, c, s');
    CountSame(s, s');
    hide Located;
    hide QueuesOk;
    hide IdleOk;
    hide OwnersOk;
    hide AllPcOk;
    hide CountOk;
    OwnPc(s, loc, k, s');
  }

  lemma WaitersNotIdle(s: State, loc: Locations, c: CondId)
    requires Inv(s, loc) && c in s.conds
    ensures forall t :: t in s.conds[c].waiting ==> !IsIdle(s, t)
  {
    forall t | t in s.conds[c].waiting ensures !IsIdle(s, t) {
      assert At(s, t, Waiting(c));
      NotIdle(s, loc, t);
    }
  }

  lemma NotifyAllPeople(s: State, loc: Locations, k: nat, c: CondId, s': State)
    requires IdleOk(s, loc) && OwnersOk(s, loc)
    requires s'.cur == s.cur && |s'.pc| == |s.pc| && s'.idle == s.idle
    requires s'.reaping == s.reaping && s'.owed == s.owed && s'.making == s.making
    ensures IdleOk(s', AllWoken(loc, k, c)) && OwnersOk(s', AllWoken(loc, k, c))
  {
    forall t | Busy(s', t) ensures t in loc && !loc[t].InReaper? && !loc[t].BeingReaped? && !loc[t].BeingMade? {
      assert Busy(s, t);
    }
  }

  lemma NotifyAllMoves(s: State, loc: Locations, k: nat, c: CondId, e: nat, s': State)
    requires Located(s, loc) && QueuesOk(s) && k < |s.pc| && s.pc[k] == Run && c in s.conds
    requires s' == s.(conds := s.conds[c := Cond(e, [])], pc := s.pc[k := Woken(s.conds[c].waiting)])
    ensures Located(s', AllWoken(loc, k, c)) && QueuesOk(s')
  {
    var loc', w := AllWoken(loc, k, c), s.conds[c].waiting;
    assert Hand(s'.pc[k]) == w;
    forall t | t in w ensures t in loc && loc[t] == Waiting(c) && !At(s, t, Parked(k)) {
      assert At(s, t, Waiting(c));
    }
    forall t, q ensures At(s', t, q) <==> t in loc' && loc'[t] == q {
      assert At(s, t, q) <==> t in loc && loc[t] == q;
      assert At(s, t, Waiting(c)) <==> t in loc && loc[t] == Waiting(c);
      assert At(s, t, InHand(k)) <==> t in loc && loc[t] == InHand(k);
    }
  }

  // reap(): the running thread takes a stopped TCB to deallocate.
  lemma StepReapPop(s: State, loc: Locations, k: nat, s': State)
    requires Inv(s, loc) && k < |s.pc| && s.pc[k] == Run && s.reaper != [] && !InReap(s, s.cur[k])
    requires s' == s.(reaper := s.reaper[1..], reaping := s.reaping[s.cur[k] := s.reaper[0]])
    ensures Inv(s', loc[s.reaper[0] := BeingReaped(s.cur[k])])
  {
    ReapPopMoves(s, loc, k, s');
    ReapPopPeople(s, loc, k, s');
    ReapPopCount(s, k, s');
    BusyPc(s, loc, k, s');
    hide Located;
    hide QueuesOk;
    hide IdleOk;
    hide OwnersOk;
    hide AllPcOk;
    hide CountOk;
  }

  lemma ReapPopPeople(s: State, loc: Locations, k: nat, s': State)
    requires Inv(s, loc) && k < |s.pc| && s.reaper != []
    requires s.reaper[0] in loc && loc[s.reaper[0]] == InReaper && s.cur[k] in loc && loc[s.cur[k]] == OnCore(k)
    requires s' == s.(reaper := s.reaper[1..], reaping := s.reaping[s.cur[k] := s.reaper[0]])
    ensures IdleOk(s', loc[s.reaper[0] := BeingReaped(s.cur[k])])
    ensures OwnersOk(s', loc[s.reaper[0] := BeingReaped(s.cur[k])])
  {
    hide Located;
    hide QueuesOk;
    hide AllPcOk;
    hide CountOk;
    ReapPopIdle(s, loc, s', s.reaper[0], BeingReaped(s.cur[k]));
    hide IdleOk;
    forall u | Busy(s', u) && u != s.cur[k] ensures Busy(s, u) {
    }
  }

  lemma ReapPopIdle(s: State, loc: Locations, s': State, t: Tid, p: Place)
    requires IdleOk(s, loc) && t in loc && loc[t] == InReaper
    requires s'.cur == s.cur && s'.pc == s.pc && s'.idle == s.idle
    ensures IdleOk(s', loc[t := p])
  {
  }

  lemma ReapPopCount(s: State, k: nat, s': State)
    requires CountOk(s) && k < |s.cur| && s.reaper != [] && s.cur[k] !in s.owed
    requires s' == s.(reaper := s.reaper[1..], reaping := s.reaping[s.cur[k] := s.reaper[0]])
    ensures CountOk(s')
  {
  }

  // Core k's own thread, and no other, may have become busy.
  lemma BusyPc(s: State, loc: Locations, k: nat, s': State)
    requires Inv(s, loc) && k < |s.pc| && s.pc[k] == Run
    requires s'.pc == s.pc && s'.cur == s.cur && s'.idle == s.idle && s'.conds == s.conds
    requires forall j :: 0 <= j < |s.pc| && s.pc[j].Post? && s.pc[j].prev in s.tcb ==> (
      s.pc[j].prev in s'.tcb && s'.tcb[s.pc[j].prev] == s.tcb[s.pc[j].prev])
    requires forall t :: Busy(s', t) ==> Busy(s, t) || t == s.cur[k]
    ensures AllPcOk(s')
  {
    OtherBusy(s, loc, k, s');
    hide Located;
    hide QueuesOk;
    hide IdleOk;
    hide OwnersOk;
    hide CountOk;
    OtherCores(s, s', k);
  }

  lemma ReapPopMoves(s: State, loc: Locations, k: nat, s': State)
    requires Located(s, loc) && QueuesOk(s) && k < |s.cur| && s.reaper != [] && !InReap(s, s.cur[k])
    requires s' == s.(reaper := s.reaper[1..], reaping := s.reaping[s.cur[k] := s.reaper[0]])
    ensures s.reaper[0] in loc && loc[s.reaper[0]] == InReaper
    ensures s.cur[k] in loc && loc[s.cur[k]] == OnCore(k)
    ensures Located(s', loc[s.reaper[0] := BeingReaped(s.cur[k])]) && QueuesOk(s')
  {
    HeadTail(s.reaper);
    var v := s.reaper[0];
    assert At(s, v, InReaper) && At(s, s.cur[k], OnCore(k));
    var loc' := loc[v := BeingReaped(s.cur[k])];
    forall t, q ensures At(s', t, q) <==> t in loc' && loc'[t] == q {
      assert At(s, t, q) <==> t in loc && loc[t] == q;
    }
  }

  // Making the running thread of core k busy affects no other core.
  lemma OtherBusy(s: State, loc: Locations, k: nat, s': State)
    requires Inv(s, loc) && k < |s.pc| && s'.pc == s.pc && s'.cur == s.cur
    requires forall t :: Busy(s', t) ==> Busy(s, t) || t == s.cur[k]
    requires s.pc[k] == Run
    ensures PcOk(s', k)
    ensures forall j :: 0 <= j < |s.pc| && j != k ==> (Busy(s', s.cur[j]) ==> Busy(s, s.cur[j]))
    ensures forall j :: 0 <= j < |s.pc| && j != k && s.pc[j].Post? && s.pc[j].prev in s.tcb ==>
      (Busy(s', s.pc[j].prev) ==> Busy(s, s.pc[j].prev))
  {
    assert At(s, s.cur[k], OnCore(k));
    forall j | 0 <= j < |s.pc| && j != k ensures s.cur[j] != s.cur[k] && (s.pc[j].Post? ==> s.pc[j].prev != s.cur[k]) {
      assert At(s, s.cur[j], OnCore(j));
      assert s.pc[j].Post? ==> At(s, s.pc[j].prev, InHand(j));
    }
  }

  // reap(): the stopped thread's stack and TCB are freed.
  lemma StepReapDealloc(s: State, loc: Locations, k: nat, s': State)
    requires Inv(s, loc) && k < |s.pc| && s.pc[k] == Run && s.cur[k] in s.reaping
    requires var t := s.cur[k];
      s' == s.(tcb := s.tcb - {s.reaping[t]}, reaping := s.reaping - {t}, owed := s.owed + {t})
    ensures Inv(s', loc - {s.reaping[s.cur[k]]})
  {
    var v := s.reaping[s.cur[k]];
    DeallocMoves(s, loc, k, s');
    NotIdle(s, loc, v);
    DeallocCount(s, k, s');
    DeallocPeople(s, loc, k, s');
    DeallocHands(s, loc, k);
    HandsOfPost(s);
    BusyPc(s, loc, k, s');
    hide Located;
    hide QueuesOk;
    hide IdleOk;
    hide OwnersOk;
    hide AllPcOk;
    hide CountOk;
  }

  lemma HandsOfPost(s: State)
    ensures forall j :: 0 <= j < |s.pc| && s.pc[j].Post? ==> s.pc[j].prev in Hand(s.pc[j])
  {
  }

  // The TCB being freed is on no core, in no hand and in no queue.
  lemma DeallocHands(s: State, loc: Locations, k: nat)
    requires Located(s, loc) && k < |s.cur| && s.cur[k] in s.reaping
    ensures var v := s.reaping[s.cur[k]];
      v !in s.cur && v !in s.ready && v !in s.reaper &&
      (forall j :: 0 <= j < |s.pc| ==> v !in Hand(s.pc[j])) &&
      (forall c :: c in s.conds ==> v !in s.conds[c].waiting)
  {
    var t, v := s.cur[k], s.reaping[s.cur[k]];
    assert At(s, v, BeingReaped(t));
    assert !At(s, v, InReady) && !At(s, v, InReaper);
    forall j | 0 <= j < |s.cur| ensures s.cur[j] != v {
      assert !At(s, v, OnCore(j));
    }
    forall j | 0 <= j < |s.pc| ensures v !in Hand(s.pc[j]) {
      assert !At(s, v, InHand(j));
    }
    forall c | c in s.conds ensures v !in s.conds[c].waiting {
      assert !At(s, v, Waiting(c));
    }
  }

  lemma DeallocMoves(s: State, loc: Locations, k: nat, s': State)
    requires Located(s, loc) && QueuesOk(s) && |s.cur| == |s.pc| == |s.idle| && k < |s.cur| && s.cur[k] in s.reaping
    requires s'.cur == s.cur && s'.pc == s.pc && s'.idle == s.idle && s'.ready == s.ready && s'.reaper == s.reaper
    requires s'.conds == s.conds && s'.making == s.making
    requires s'.tcb == s.tcb - {s.reaping[s.cur[k]]} && s'.reaping == s.reaping - {s.cur[k]}
    ensures s.reaping[s.cur[k]] in loc && loc[s.reaping[s.cur[k]]] == BeingReaped(s.cur[k])
    ensures Located(s', loc - {s.reaping[s.cur[k]]}) && QueuesOk(s')
  {
    var t, v := s.cur[k], s.reaping[s.cur[k]];
    assert At(s, v, BeingReaped(t));
    var loc' := loc - {v};
    forall u, q ensures At(s', u, q) <==> u in loc' && loc'[u] == q {
      assert At(s, u, q) <==> u in loc && loc[u] == q;
    }
  }

  lemma DeallocCount(s: State, k: nat, s': State)
    requires CountOk(s) && k < |s.cur| && s.cur[k] in s.reaping
    requires s.reaping[s.cur[k]] in s.tcb && !IsIdle(s, s.reaping[s.cur[k]])
    requires var t := s.cur[k];
      s' == s.(tcb := s.tcb - {s.reaping[t]}, reaping := s.reaping - {t}, owed := s.owed + {t})
    ensures CountOk(s')
  {
    var t, v := s.cur[k], s.reaping[s.cur[k]];
    hide Unallocated;
    NotInIdleSet(s.idle, v);
    hide IdleSet;
    hide IsIdle;
    KeysWithout(s.tcb, v);
    assert t !in s.owed;
    SameCount(s.tcb.Keys, IdleSet(s.idle), s.owed, v, t);
  }

  lemma KeysWithout(m: map<Tid, Tcb>, v: Tid)
    ensures (m - {v}).Keys == m.Keys - {v}
  {
  }

  lemma NotInIdleSet(idle: seq<Tid>, v: Tid)
    ensures v in IdleSet(idle) <==> v in idle
  {
  }

  // A thread freed and one that has it to count out.
  lemma SameCount(keys: set<Tid>, idle: set<Tid>, owed: set<Tid>, v: Tid, t: Tid)
    requires v in keys && v !in idle && t !in owed
    ensures |(keys - {v}) - idle| + |owed + {t}| == |keys - idle| + |owed|
  {
    assert (keys - {v}) - idle == (keys - idle) - {v};
  }

  lemma DeallocPeople(s: State, loc: Locations, k: nat, s': State)
    requires IdleOk(s, loc) && OwnersOk(s, loc) && k < |s.cur| && s.cur[k] in s.reaping
    requires var v := s.reaping[s.cur[k]]; v in loc && loc[v] == BeingReaped(s.cur[k])
    requires var t := s.cur[k];
      s' == s.(tcb := s.tcb - {s.reaping[t]}, reaping := s.reaping - {t}, owed := s.owed + {t})
    ensures IdleOk(s', loc - {s.reaping[s.cur[k]]}) && OwnersOk(s', loc - {s.reaping[s.cur[k]]})
  {
    forall u | Busy(s', u) ensures Busy(s, u) {
    }
  }

  // reap(): n_active is decremented; zero means shutdown.
  lemma StepReapCount(s: State, loc: Locations, k: nat, s': State)
    requires Inv(s, loc) && k < |s.pc| && s.pc[k] == Run && s.cur[k] in s.owed
    requires s' == s.(nActive := s.nActive - 1, owed := s.owed - {s.cur[k]}, shutdown := s.nActive - 1 == 0)
    ensures Inv(s', loc)
  {
    InPlaceAll(s, loc, s');
    NobodyMoved(s, loc, s');
    ReapCountCount(s, k, s');
    BusyPc(s, loc, k, s');
    hide Located;
    hide QueuesOk;
    hide IdleOk;
    hide OwnersOk;
    hide AllPcOk;
    hide CountOk;
  }

  lemma InPlaceAll(s: State, loc: Locations, s': State)
    requires Located(s, loc) && QueuesOk(s) && s'.tcb == s.tcb && s'.reaping == s.reaping
    requires s'.cur == s.cur && s'.pc == s.pc && s'.idle == s.idle && s'.ready == s.ready && s'.reaper == s.reaper
    requires s'.conds == s.conds
    requires forall t, u :: (t in s'.making && s'.making[t] == Some(u)) <==> (t in s.making && s.making[t] == Some(u))
    ensures Located(s', loc) && QueuesOk(s')
  {
    forall t, q ensures At(s', t, q) <==> t in loc && loc[t] == q {
      assert At(s, t, q) <==> t in loc && loc[t] == q;
    }
  }

  lemma ReapCountCount(s: State, k: nat, s': State)
    requires CountOk(s) && k < |s.cur| && s.cur[k] in s.owed
    requires s' == s.(nActive := s.nActive - 1, owed := s.owed - {s.cur[k]}, shutdown := s.nActive - 1 == 0)
    ensures CountOk(s')
  {
  }

  // make_thread: n_active is incremented before anything is allocated.
  lemma StepMakeBegin(s: State, loc: Locations, k: nat, s': State)
    requires Inv(s, loc) && k < |s.pc| && s.pc[k] == Run && !Busy(s, s.cur[k]) && !s.shutdown
    requires s' == s.(nActive := s.nActive + 1, making := s.making[s.cur[k] := None])
    ensures Inv(s', loc)
  {
    assert At(s, s.cur[k], OnCore(k));
    InPlaceAll(s, loc, s');
    MakeBeginPeople(s, loc, k, s');
    MakeBeginCount(s, k, s');
    BusyPc(s, loc, k, s');
    hide Located;
    hide QueuesOk;
    hide IdleOk;
    hide OwnersOk;
    hide AllPcOk;
    hide CountOk;
  }

  lemma MakeBeginPeople(s: State, loc: Locations, k: nat, s': State)
    requires IdleOk(s, loc) && OwnersOk(s, loc) && k < |s.cur| && s.cur[k] in loc && loc[s.cur[k]] == OnCore(k)
    requires s' == s.(nActive := s.nActive + 1, making := s.making[s.cur[k] := None])
    ensures IdleOk(s', loc) && OwnersOk(s', loc)
  {
    forall u | Busy(s', u) && u != s.cur[k] ensures Busy(s, u) {
    }
  }

  lemma OneMoreUnallocated(making: map<Tid, Option<Tid>>, t: Tid)
    requires t !in making
    ensures |Unallocated(making[t := None])| == |Unallocated(making)| + 1
  {
    assert Unallocated(making[t := None]) == Unallocated(making) + {t};
  }

  lemma MakeBeginCount(s: State, k: nat, s': State)
    requires CountOk(s) && k < |s.cur| && s.cur[k] !in s.making && !s.shutdown
    requires s' == s.(nActive := s.nActive + 1, making := s.making[s.cur[k] := None])
    ensures CountOk(s')
  {
    OneMoreUnallocated(s.making, s.cur[k]);
  }

  lemma StepMakeAlloc(s: State, loc: Locations, k: nat, u: Tid, s': State)
    requires Inv(s, loc) && k < |s.pc| && s.pc[k] == Run && !s.shutdown
    requires s.cur[k] in s.making && s.making[s.cur[k]] == None && u !in s.tcb
    requires s' == s.(tcb := s.tcb[u := Tcb(NoAction, 0)], making := s.making[s.cur[k] := Some(u)])
    ensures Inv(s', loc[u := BeingMade(s.cur[k])])
  {
    MakeAllocMoves(s, loc, k, u, s');
    assert !IsIdle(s, u);
    MakeAllocCount(s, k, u, s');
    MakeAllocPeople(s, loc, k, u, s');
    BusyPc(s, loc, k, s');
    hide Located;
    hide QueuesOk;
    hide IdleOk;
    hide OwnersOk;
    hide AllPcOk;
    hide CountOk;
  }

  lemma MakeAllocPeople(s: State, loc: Locations, k: nat, u: Tid, s': State)
    requires IdleOk(s, loc) && OwnersOk(s, loc) && k < |s.cur| && u !in loc
    requires s.cur[k] in s.making
    requires s' == s.(tcb := s.tcb[u := Tcb(NoAction, 0)], making := s.making[s.cur[k] := Some(u)])
    ensures forall t :: Busy(s', t) <==> Busy(s, t)
    ensures IdleOk(s', loc[u := BeingMade(s.cur[k])]) && OwnersOk(s', loc[u := BeingMade(s.cur[k])])
  {
  }

  lemma MakeAllocMoves(s: State, loc: Locations, k: nat, u: Tid, s': State)
    requires Located(s, loc) && QueuesOk(s) && k < |s.cur| && s.cur[k] in s.making && s.making[s.cur[k]] == None && u !in s.tcb
    requires s' == s.(tcb := s.tcb[u := Tcb(NoAction, 0)], making := s.making[s.cur[k] := Some(u)])
    ensures Located(s', loc[u := BeingMade(s.cur[k])]) && QueuesOk(s')
  {
    var loc' := loc[u := BeingMade(s.cur[k])];
    forall t, q ensures At(s', t, q) <==> t in loc' && loc'[t] == q {
      assert At(s, t, q) <==> t in loc && loc[t] == q;
    }
  }

  lemma MakeAllocCount(s: State, k: nat, u: Tid, s': State)
    requires CountOk(s) && !IsIdle(s, u) && k < |s.cur| && !s.shutdown
    requires s.cur[k] in s.making && s.making[s.cur[k]] == None && u !in s.tcb
    requires s' == s.(tcb := s.tcb[u := Tcb(NoAction, 0)], making := s.making[s.cur[k] := Some(u)])
    ensures CountOk(s')
  {
    OneMoreThread(s.tcb, s.idle, u, Tcb(NoAction, 0));
    OneLessUnallocated(s.making, s.cur[k], u);
  }

  lemma OneMoreThread(tcb: map<Tid, Tcb>, idle: seq<Tid>, u: Tid, v: Tcb)
    requires u !in tcb && u !in idle
    ensures |tcb[u := v].Keys - IdleSet(idle)| == |tcb.Keys - IdleSet(idle)| + 1
  {
    assert tcb[u := v].Keys - IdleSet(idle) == (tcb.Keys - IdleSet(idle)) + {u};
  }

  lemma OneLessUnallocated(making: map<Tid, Option<Tid>>, t: Tid, u: Tid)
    requires t in making && making[t] == None
    ensures |Unallocated(making[t := Some(u)])| == |Unallocated(making)| - 1
  {
    assert t in Unallocated(making);
    assert Unallocated(making[t := Some(u)]) == Unallocated(making) - {t};
  }

  lemma StepMakeReady(s: State, loc: Locations, k: nat, s': State)
    requires Inv(s, loc) && k < |s.pc| && s.pc[k] == Run
    requires s.cur[k] in s.making && s.making[s.cur[k]].Some?
    requires s' == s.(ready := s.ready + [s.making[s.cur[k]].value], making := s.making - {s.cur[k]})
    ensures Inv(s', loc[s.making[s.cur[k]].value := InReady])
  {
    var u := s.making[s.cur[k]].value;
    MakeReadyMoves(s, loc, k, s');
    NotIdle(s, loc, u);
    PeopleMoved(s, loc, s', loc[u := InReady], u, InReady);
    MakeReadyCount(s, k, s');
    BusyPc(s, loc, k, s');
    hide Located;
    hide QueuesOk;
    hide IdleOk;
    hide OwnersOk;
    hide AllPcOk;
    hide CountOk;
  }

  lemma MakeReadyCount(s: State, k: nat, s': State)
    requires CountOk(s) && k < |s.cur| && s.cur[k] in s.making && s.making[s.cur[k]].Some?
    requires s' == s.(ready := s.ready + [s.making[s.cur[k]].value], making := s.making - {s.cur[k]})
    ensures CountOk(s')
  {
    MadeAllocated(s.making, s.cur[k]);
    hide Unallocated;
    hide IdleSet;
  }

  lemma MadeAllocated(making: map<Tid, Option<Tid>>, t: Tid)
    requires t in making && making[t].Some?
    ensures Unallocated(making - {t}) == Unallocated(making)
  {
  }

  lemma MakeReadyMoves(s: State, loc: Locations, k: nat, s': State)
    requires Located(s, loc) && QueuesOk(s) && k < |s.cur| && s.cur[k] in s.making && s.making[s.cur[k]].Some?
    requires s' == s.(ready := s.ready + [s.making[s.cur[k]].value], making := s.making - {s.cur[k]})
    ensures s.making[s.cur[k]].value in loc && loc[s.making[s.cur[k]].value] == BeingMade(s.cur[k])
    ensures Located(s', loc[s.making[s.cur[k]].value := InReady]) && QueuesOk(s')
  {
    var u := s.making[s.cur[k]].value;
    assert At(s, u, BeingMade(s.cur[k])) && !At(s, u, InReady);
    Appended(s.ready, u);
    var loc' := loc[u := InReady];
    forall t, q ensures At(s', t, q) <==> t in loc' && loc'[t] == q {
      assert At(s, t, q) <==> t in loc && loc[t] == q;
    }
  }

  // Every step keeps the invariant.
  lemma StepKeeps(s: State, loc: Locations, e: Event)
    requires Inv(s, loc) && Enabled(s, e)
    ensures Inv(Apply(s, e), Relocate(s, e, loc))
  {
    hide Inv;
    var s', k := Apply(s, e), e.k;
    match e
    case YieldPick(_) => StepPick(s, loc, k, Ready, s');
    case StopPick(_) =>
      if s.ready == [] {
        StopToIdle(s, loc, k, s');
      } else {
        StepPick(s, loc, k, Stop, s');
      }
    case IdlePick(_) => StepPick(s, loc, k, NoAction, s');
    case WaitCapture(_, c) => StepCapture(s, loc, k, c, s');
    case WaitGiveUp(_) => StepInPlace(s, loc, k, Run, s');
    case WaitPick(_) =>
      CoreOk(s, loc, k);
      StepPick(s, loc, k, Wait(s.pc[k].cond), s');
    case Switch(_) => StepSwitch(s, loc, k, s');
    case PostSwitch(_) => StepPost(s, loc, k);
    case RequeueAdd(_) =>
      CoreOk(s, loc, k);
      StepToReady(s, loc, k, s.pc[k].prev, [], s');
    case NotifyOne(_, c) => StepNotify(s, loc, k, c);
    case NotifyAll(_, c) => StepNotifyAll(s, loc, k, c, s.conds[c].epoch + 1, s');
    case NotifyAdd(_) =>
      CoreOk(s, loc, k);
      StepToReady(s, loc, k, s.pc[k].woken[0], s.pc[k].woken[1..], s');
    case ReapPop(_) => StepReapPop(s, loc, k, s');
    case ReapDealloc(_) => StepReapDealloc(s, loc, k, s');
    case ReapCount(_) => StepReapCount(s, loc, k, s');
    case MakeBegin(_) => StepMakeBegin(s, loc, k, s');
    case MakeAlloc(_, u) => StepMakeAlloc(s, loc, k, u, s');
    case MakeReady(_) => StepMakeReady(s, loc, k, s');
  }

  lemma CoreOk(s: State, loc: Locations, k: nat)
    requires Inv(s, loc) && k < |s.pc|
    ensures k < |s.cur| && PcOk(s, k)
  {
  }

  // post_switch: the ASSERTs on is_idle hold, and each action finds its queue.
  lemma StepPost(s: State, loc: Locations, k: nat)
    requires Inv(s, loc) && Enabled(s, PostSwitch(k))
    ensures Inv(Apply(s, PostSwitch(k)), Relocate(s, PostSwitch(k), loc))
  {
    CoreOk(s, loc, k);
    hide Inv;
    var s', p := Apply(s, PostSwitch(k)), s.pc[k].prev;
    match s.tcb[p].action
    case Ready => StepToReady(s, loc, k, p, [], s');
    case Stop => StepToReaper(s, loc, k, p, s');
    case Wait(c) =>
      if s.conds[c].epoch == s.tcb[p].condEpoch {
        StepToWaiting(s, loc, k, p, c, s');
      } else {
        StepInPlace(s, loc, k, Requeue(p), s');
      }
    case NoAction => StepToParked(s, loc, k, p, s');
  }

  lemma StepNotify(s: State, loc: Locations, k: nat, c: CondId)
    requires Inv(s, loc) && Enabled(s, NotifyOne(k, c))
    ensures Inv(Apply(s, NotifyOne(k, c)), Relocate(s, NotifyOne(k, c), loc))
  {
    hide Inv;
    hide AllWoken;
    var s' := Apply(s, NotifyOne(k, c));
    if s.conds[c].waiting == [] {
      StepNotifyAll(s, loc, k, c, s.conds[c].epoch + 1, s');
      NobodyWoken(s, loc, k, c);
    } else {
      StepNotifyOne(s, loc, k, c, s.conds[c].epoch + 1, s');
    }
  }

  lemma NobodyWoken(s: State, loc: Locations, k: nat, c: CondId)
    requires Inv(s, loc) && c in s.conds && s.conds[c].waiting == []
    ensures AllWoken(loc, k, c) == loc
  {
    forall u | u in loc ensures loc[u] != Waiting(c) {
      assert !At(s, u, Waiting(c));
    }
  }

  // ---- where core k's threads are ----

  ghost predicate CoreFacts(s: State, loc: Locations, k: nat) {
    k < |s.cur| && k < |s.pc| && s.cur[k] in loc && loc[s.cur[k]] == OnCore(k) &&
    (forall t :: t in loc && loc[t] == OnCore(k) ==> t == s.cur[k]) &&
    (forall t :: t in loc && loc[t] == InHand(k) <==> t in Hand(s.pc[k])) &&
    (s.ready != [] ==> s.ready[0] in loc && loc[s.ready[0]] == InReady) &&
    loc.Keys == s.tcb.Keys
  }

  lemma Core(s: State, loc: Locations, k: nat)
    requires Inv(s, loc) && k < |s.pc|
    ensures CoreFacts(s, loc, k)
  {
    hide QueuesOk;
    hide IdleOk;
    hide OwnersOk;
    hide CountOk;
    hide PcOk;
    assert At(s, s.cur[k], OnCore(k));
    forall t | t in loc && loc[t] == OnCore(k) ensures t == s.cur[k] {
      assert At(s, t, OnCore(k));
    }
    forall t ensures t in loc && loc[t] == InHand(k) <==> t in Hand(s.pc[k]) {
      assert At(s, t, InHand(k)) <==> t in loc && loc[t] == InHand(k);
    }
    if s.ready != [] {
      assert At(s, s.ready[0], InReady);
    }
  }

  lemma CoreCount(s: State, loc: Locations)
    requires Inv(s, loc)
    ensures |s.cur| == |s.pc| == |s.idle|
  {
  }

  // ---- whole runs ----

  // All cores have bootstrapped: each runs its own idle thread, nothing is queued.
  ghost predicate Initial(s: State) {
    |s.idle| > 0 && NoDup(s.idle) && s.cur == s.idle &&
    |s.pc| == |s.idle| && (forall k :: 0 <= k < |s.pc| ==> s.pc[k] == Run) &&
    s.ready == [] && s.reaper == [] &&
    (forall c :: c in s.conds ==> s.conds[c] == Cond(0, [])) &&
    s.tcb.Keys == IdleSet(s.idle) && s.reaping == map[] && s.owed == {} && s.making == map[] &&
    s.nActive == 0 && !s.shutdown
  }

  // s is reached from s0 by the steps es, taken by the cores in any order.
  ghost predicate Reaches(s0: State, es: seq<Event>, s: State)
    decreases |es|
  {
    if es == [] then s == s0
    else Enabled(s0, es[0]) && Reaches(Apply(s0, es[0]), es[1..], s)
  }

  lemma InitialInv(s: State) returns (loc: Locations)
    requires Initial(s)
    ensures Inv(s, loc)
  {
    loc := map t | t in s.tcb :: OnCore(IndexOf(s.idle, t));
    InitialLocated(s, loc);
    forall k | 0 <= k < |s.idle| ensures s.idle[k] in loc && loc[s.idle[k]] == OnCore(k) {
      assert s.idle[k] in IdleSet(s.idle);
    }
    InitialParts(s, loc);
    hide Located;
    hide QueuesOk;
    hide IdleOk;
    hide OwnersOk;
    hide AllPcOk;
    hide CountOk;
  }

  lemma InitialParts(s: State, loc: Locations)
    requires Initial(s)
    requires forall k :: 0 <= k < |s.idle| ==> s.idle[k] in loc && loc[s.idle[k]] == OnCore(k)
    ensures QueuesOk(s) && IdleOk(s, loc) && AllPcOk(s) && OwnersOk(s, loc) && CountOk(s)
  {
    assert s.tcb.Keys - IdleSet(s.idle) == {};
    assert Unallocated(s.making) == {};
  }

  lemma InitialLocated(s: State, loc: Locations)
    requires Initial(s) && loc.Keys == s.tcb.Keys
    requires forall t :: t in loc ==> loc[t] == OnCore(IndexOf(s.idle, t))
    ensures Located(s, loc)
  {
    forall t, p ensures At(s, t, p) <==> t in loc && loc[t] == p {
      if t in s.idle {
        var i := IndexOf(s.idle, t);
        assert s.cur[i] == t;
      }
    }
  }

  ghost function IndexOf(q: seq<Tid>, t: Tid): (i: nat)
    ensures t in q ==> i < |q| && q[i] == t
  {
    if t in q then var i :| 0 <= i < |q| && q[i] == t; i else 0
  }

  lemma {:induction false} RunKeeps(s0: State, loc0: Locations, es: seq<Event>, s: State) returns (loc: Locations)
    requires Inv(s0, loc0) && Reaches(s0, es, s)
    ensures Inv(s, loc)
    decreases |es|
  {
    hide Inv;
    if es == [] {
      loc := loc0;
    } else {
      StepKeeps(s0, loc0, es[0]);
      loc := RunKeeps(Apply(s0, es[0]), Relocate(s0, es[0], loc0), es[1..], s);
    }
  }

  lemma ReachableInv(s0: State, es: seq<Event>, s: State) returns (loc: Locations)
    requires Initial(s0) && Reaches(s0, es, s)
    ensures Inv(s, loc)
  {
    hide Inv;
    var loc0 := InitialInv(s0);
    loc := RunKeeps(s0, loc0, es, s);
  }

  // In every run, each allocated TCB is in exactly one place, each queue names it
  // once, and a freed TCB is nowhere.  So no thread runs on two cores.
  lemma ExactlyOnePlace(s0: State, es: seq<Event>, s: State, t: Tid)
    requires Initial(s0) && Reaches(s0, es, s)
    ensures t in s.tcb <==> exists p :: At(s, t, p)
    ensures forall p, q :: At(s, t, p) && At(s, t, q) ==> p == q
    ensures QueuesOk(s)
    ensures forall j, k :: 0 <= j < k < |s.cur| ==> s.cur[j] != s.cur[k]
    ensures forall k :: 0 <= k < |s.cur| ==> s.cur[k] in s.tcb
  {
    var loc := ReachableInv(s0, es, s);
    if t in s.tcb {
      assert At(s, t, loc[t]);
    }
    forall k | 0 <= k < |s.cur| ensures s.cur[k] in loc && loc[s.cur[k]] == OnCore(k) {
      assert At(s, s.cur[k], OnCore(k));
    }
  }

  // Whenever reap() frees a stack and TCB, no core runs on it, no core is still
  // switching away from it, and no queue or thread will lead back to it.
  lemma FreedStackUnused(s0: State, es: seq<Event>, s: State, k: nat)
    requires Initial(s0) && Reaches(s0, es, s) && Enabled(s, ReapDealloc(k))
    ensures var v := s.reaping[s.cur[k]];
      v !in s.cur && v !in s.ready && v !in s.reaper && v !in s.idle && !Busy(s, v) &&
      (forall j :: 0 <= j < |s.pc| ==> v !in Hand(s.pc[j])) &&
      (forall c :: c in s.conds ==> v !in s.conds[c].waiting)
  {
    var loc := ReachableInv(s0, es, s);
    DeallocHands(s, loc, k);
    var v := s.reaping[s.cur[k]];
    assert At(s, v, BeingReaped(s.cur[k]));
    NotIdle(s, loc, v);
  }

  lemma NobodyLeft(s: State, loc: Locations)
    requires Inv(s, loc) && s.shutdown
    ensures s.tcb.Keys == IdleSet(s.idle)
    ensures s.owed == {} && (forall t :: t in s.making ==> s.making[t] != None)
  {
    hide Located;
    hide QueuesOk;
    hide OwnersOk;
    hide AllPcOk;
    LocatedKeys(s, loc);
    assert s.tcb.Keys - IdleSet(s.idle) == {};
    forall i | 0 <= i < |s.idle| ensures s.idle[i] in s.tcb {
      assert s.idle[i] in loc;
    }
    forall t | t in s.making ensures s.making[t] != None {
      assert t !in Unallocated(s.making);
    }
  }

  lemma LocatedKeys(s: State, loc: Locations)
    requires Located(s, loc)
    ensures loc.Keys == s.tcb.Keys
  {
  }

  lemma NothingQueued(s: State, loc: Locations)
    requires Inv(s, loc) && s.tcb.Keys == IdleSet(s.idle)
    ensures s.ready == [] && s.reaper == [] && s.reaping == map[]
  {
    hide QueuesOk;
    hide OwnersOk;
    hide AllPcOk;
    hide CountOk;
    if s.ready != [] {
      assert At(s, s.ready[0], InReady);
      NotIdle(s, loc, s.ready[0]);
    }
    if s.reaper != [] {
      assert At(s, s.reaper[0], InReaper);
      NotIdle(s, loc, s.reaper[0]);
    }
    if s.reaping != map[] {
      var t :| t in s.reaping;
      assert At(s, s.reaping[t], BeingReaped(t));
      NotIdle(s, loc, s.reaping[t]);
    }
  }

  // Shutdown happens only once every thread ever made has been stopped, freed and
  // counted out, with none half made.
  lemma ShutdownMeansAllReaped(s0: State, es: seq<Event>, s: State)
    requires Initial(s0) && Reaches(s0, es, s) && s.shutdown
    ensures s.tcb.Keys == IdleSet(s.idle)
    ensures s.owed == {} && (forall t :: t in s.making ==> s.making[t] != None)
    ensures s.ready == [] && s.reaper == [] && s.reaping == map[]
  {
    hide Inv;
    hide Initial;
    hide Reaches;
    var loc := ReachableInv(s0, es, s);
    NobodyLeft(s, loc);
    NothingQueued(s, loc);
  }

  ghost predicate NobodyThere(s: State) {
    s.tcb.Keys == IdleSet(s.idle) && s.owed == {} && forall t :: t in s.making ==> s.making[t] != None
  }

  // The reap() that counts out the last thread there is shuts down, and no other does.
  lemma LastOneShutsDown(s0: State, es: seq<Event>, s: State, k: nat)
    requires Initial(s0) && Reaches(s0, es, s) && Enabled(s, ReapCount(k))
    ensures Apply(s, ReapCount(k)).shutdown <==> NobodyThere(Apply(s, ReapCount(k)))
  {
    hide Inv;
    hide NobodyThere;
    var loc := ReachableInv(s0, es, s);
    StepKeeps(s, loc, ReapCount(k));
    NobodyCounted(Apply(s, ReapCount(k)), loc);
  }

  lemma NobodyCounted(s: State, loc: Locations)
    requires Inv(s, loc)
    ensures NobodyThere(s) <==> s.nActive == 0
  {
    hide QueuesOk;
    hide OwnersOk;
    hide AllPcOk;
    LocatedKeys(s, loc);
    forall i | 0 <= i < |s.idle| ensures s.idle[i] in s.tcb {
      assert s.idle[i] in loc;
    }
    hide Located;
    assert s.tcb.Keys == IdleSet(s.idle) <==> s.tcb.Keys - IdleSet(s.idle) == {};
    if s.nActive == 0 {
      forall t | t in s.making ensures s.making[t] != None {
        assert t !in Unallocated(s.making);
      }
    }
    if NobodyThere(s) {
      assert Unallocated(s.making) == {};
    }
  }

  lemma AssertionsAt(s: State, loc: Locations, k: nat)
    requires Inv(s, loc) && k < |s.pc|
    ensures k < |s.cur|
    ensures s.pc[k].Picked? ==> s.pc[k].next != s.cur[k] && s.pc[k].next in s.tcb
    ensures s.pc[k].Post? ==> s.pc[k].prev in s.tcb
    ensures s.pc[k].Post? ==> (s.tcb[s.pc[k].prev].action == NoAction <==> s.pc[k].prev in s.idle)
  {
    hide QueuesOk;
    hide IdleOk;
    hide OwnersOk;
    hide CountOk;
    assert At(s, s.cur[k], OnCore(k));
    assert PcOk(s, k);
    if s.pc[k].Picked? {
      assert At(s, s.pc[k].next, InHand(k));
    }
  }

  // The scheduler's own assertions: yield never picks itself, and only real
  // threads reach post_switch with a queueing action.
  lemma AssertionsHold(s0: State, es: seq<Event>, s: State, k: nat)
    requires Initial(s0) && Reaches(s0, es, s)
    ensures Enabled(s, Switch(k)) ==> s.pc[k].next != s.cur[k] && s.pc[k].next in s.tcb
    ensures Enabled(s, PostSwitch(k)) ==> (s.tcb[s.pc[k].prev].action == NoAction <==> s.pc[k].prev in s.idle)
    ensures k < |s.pc| && s.pc[k].Post? ==> s.pc[k].prev in s.tcb
  {
    hide Inv;
    hide Initial;
    hide Reaches;
    var loc := ReachableInv(s0, es, s);
    if k < |s.pc| {
      AssertionsAt(s, loc, k);
    }
  }
}
