// A semaphore on the scheduler itself: down() and up() run on the scheduler's own
// conditions and context switches, and every step of the whole is a step, or none, or two,
// of the semaphore model.

module SemaphoreOnScheduler {
  import opened Scheduler
  import Pcs = Synchronization
  import Sem = SemaphoreModel

  // Where a thread is in down(): outside, about to test the count, or in wait(). `woken`:
  // a notify has made it ready.
  datatype Call = Out | Test(woken: bool) | InWait(woken: bool)

  // The scheduler, the semaphore's condition c and count, and the threads that use it.
  datatype Whole = Whole(s: State, c: CondId, count: nat, call: map<Tid, Call>)

  datatype Step = Enter(k: nat) | TestOk(k: nat) | Do(e: Event)

  ghost predicate IsOut(m: Whole, t: Tid) {
    t in m.call ==> m.call[t].Out?
  }

  // Inside down() a thread does what the code does, and nothing else; nobody else waits on
  // c or notifies it.
  ghost predicate Allowed(m: Whole, e: Event)
    requires Scheduler.Enabled(m.s, e)
  {
    var t := m.s.cur[e.k];
    match e
    case WaitCapture(_, d) => if d == m.c then t in m.call && m.call[t].Test? && m.count == 0 else IsOut(m, t)
    case NotifyOne(_, d) => IsOut(m, t) && (d == m.c ==> t in m.call)
    case NotifyAll(_, d) => IsOut(m, t) && d != m.c
    case WaitGiveUp(_) => true
    case WaitPick(_) => true
    case Switch(_) => true
    case PostSwitch(_) => true
    case RequeueAdd(_) => true
    case NotifyAdd(_) => true
    case _ => IsOut(m, t)
  }

  ghost predicate AtTest(m: Whole, k: nat) {
    k < |m.s.cur| && k < |m.s.pc| && m.s.pc[k] == Run && m.s.cur[k] in m.call && !IsIdle(m.s, m.s.cur[k])
  }

  ghost predicate Enabled(m: Whole, step: Step) {
    match step
    case Enter(k) => AtTest(m, k) && m.call[m.s.cur[k]].Out?
    case TestOk(k) => AtTest(m, k) && m.call[m.s.cur[k]].Test? && m.count > 0
    case Do(e) => Scheduler.Enabled(m.s, e) && Allowed(m, e)
  }

  ghost function Apply(m: Whole, step: Step): Whole
    requires Enabled(m, step)
  {
    match step
    case Enter(k) => m.(call := m.call[m.s.cur[k] := Test(false)])
    case TestOk(k) => m.(call := m.call[m.s.cur[k] := Out], count := m.count - 1)
    case Do(e) =>
      var m' := m.(s := Scheduler.Apply(m.s, e));
      var k := e.k;
      match e
      case WaitCapture(_, d) => if d == m.c then m'.(call := m.call[m.s.cur[k] := InWait(false)]) else m'
      case WaitGiveUp(_) =>
        if m.s.pc[k].cond == m.c then m'.(call := m.call[m.s.cur[k] := Test(false)]) else m'
      case Switch(_) => m'.(call := Resumed(m.call, m.s.pc[k].next))
      case NotifyOne(_, d) => if d == m.c then m'.(count := m.count + 1) else m'
      case NotifyAdd(_) => m'.(call := MadeReady(m.call, m.s.pc[k].woken[0]))
      case _ => m'
  }

  // A thread that is switched to returns from wait() and tests again.
  ghost function Resumed(call: map<Tid, Call>, t: Tid): map<Tid, Call> {
    if t in call && call[t].InWait? then call[t := Test(call[t].woken)] else call
  }

  ghost function MadeReady(call: map<Tid, Call>, t: Tid): map<Tid, Call> {
    if t in call && call[t].InWait? then call[t := InWait(true)] else call
  }

  // --- what the semaphore model sees -----------------------------------------

  // Where in wait() a thread at a place is.
  ghost function WaitPc(s: State, t: Tid, p: Place, woken: bool): Pcs.Pc {
    match p
    case OnCore(k) => Pcs.Captured(if t in s.tcb then s.tcb[t].condEpoch else 0)
    case InHand(k) =>
      if k >= |s.pc| then Pcs.Outside
      else (match s.pc[k]
            case Post(_) => Pcs.Leaving(if t in s.tcb then s.tcb[t].condEpoch else 0)
            case Notify(_) => Pcs.Popped
            case _ => Pcs.Ready(woken))
    case Waiting(_) => Pcs.Parked
    case InReady => Pcs.Ready(woken)
    case _ => Pcs.Outside
  }

  ghost function PcOf(m: Whole, loc: Locations, t: Tid): Pcs.Pc
    requires t in m.call
  {
    match m.call[t]
    case Out => Pcs.Outside
    case Test(woken) => Pcs.Testing(woken)
    case InWait(woken) => if t in loc then WaitPc(m.s, t, loc[t], woken) else Pcs.Outside
  }

  ghost function Abs(m: Whole, loc: Locations): Sem.State
    requires m.c in m.s.conds
  {
    Sem.State(m.count, m.s.conds[m.c].epoch, m.s.conds[m.c].waiting, map t | t in m.call :: PcOf(m, loc, t))
  }

  // --- the invariant ----------------------------------------------------------

  // A place where a thread in wait() can be.
  ghost predicate WaitPlace(s: State, c: CondId, t: Tid, p: Place, woken: bool) {
    match p
    case OnCore(k) => k < |s.pc| && !woken && WaitsAt(s.pc[k], c)
    case InHand(k) =>
      k < |s.pc| &&
      (match s.pc[k]
       case Picked(next, _) => next == t
       case Post(prev) => prev == t && !woken && t in s.tcb && s.tcb[t].action == Wait(c)
       case Requeue(prev) => prev == t && !woken
       case Notify(list) => t in list && !woken
       case _ => false)
    case Waiting(d) => d == c && !woken
    case InReady => true
    case _ => false
  }

  // The core's own thread is in wait(c), before the switch.
  ghost predicate WaitsAt(pc: Pc, c: CondId) {
    pc == Captured(c) || (pc.Picked? && pc.action == Wait(c))
  }

  ghost predicate TestsAt(pc: Pc) {
    pc == Run || pc.Post? || pc.Requeue?
  }

  ghost predicate CallOk(m: Whole, loc: Locations, t: Tid)
    requires t in m.call
  {
    match m.call[t]
    case Out => true
    case Test(_) => t in loc && loc[t].OnCore? && loc[t].core < |m.s.pc| && TestsAt(m.s.pc[loc[t].core])
    case InWait(woken) => t in loc && WaitPlace(m.s, m.c, t, loc[t], woken)
  }

  // Thread t is between capturing c's epoch and leaving c's queue.
  ghost predicate OnCondition(s: State, c: CondId, t: Tid, p: Place) {
    match p
    case OnCore(k) => k < |s.pc| && WaitsAt(s.pc[k], c)
    case InHand(k) => k < |s.pc| && s.pc[k] == Post(t) && t in s.tcb && s.tcb[t].action == Wait(c)
    case Waiting(d) => d == c
    case _ => false
  }

  ghost predicate Caller(m: Whole, t: Tid) {
    t in m.call && m.call[t].InWait?
  }

  ghost predicate ThreadOk(m: Whole, loc: Locations, t: Tid) {
    (t in m.call ==> CallOk(m, loc, t)) &&
    (t in loc && OnCondition(m.s, m.c, t, loc[t]) ==> Caller(m, t))
  }

  ghost predicate CallsOk(m: Whole, loc: Locations) {
    m.c in m.s.conds &&
    forall t {:trigger ThreadOk(m, loc, t)} :: ThreadOk(m, loc, t)
  }

  ghost predicate WholeOk(m: Whole, loc: Locations) {
    Inv(m.s, loc) && CallsOk(m, loc)
  }

  ghost function Moved(m: Whole, step: Step, loc: Locations): Locations
    requires Enabled(m, step)
  {
    if step.Do? then Relocate(m.s, step.e, loc) else loc
  }

  // The steps of the semaphore model that a step is.
  ghost function Seen(m: Whole, step: Step): seq<Sem.Event>
    requires Enabled(m, step)
  {
    match step
    case Enter(k) => [Sem.Enter(m.s.cur[k])]
    case TestOk(k) => [Sem.TestOk(m.s.cur[k])]
    case Do(e) =>
      var t, pc := m.s.cur[e.k], m.s.pc[e.k];
      match e
      case WaitCapture(_, d) => if d == m.c then [Sem.TestFail(t)] else []
      case WaitGiveUp(_) => if pc.cond == m.c then [Sem.GiveUp(t)] else []
      case Switch(_) =>
        (if pc.action == Wait(m.c) then [Sem.Leave(t)] else []) +
        (if Caller(m, pc.next) then [Sem.Resume(pc.next)] else [])
      case PostSwitch(_) =>
        var p := pc.prev;
        if m.s.tcb[p].action != Wait(m.c) then []
        else if m.s.conds[m.c].epoch == m.s.tcb[p].condEpoch then [Sem.Park(p)]
        else [Sem.Requeue(p)]
      case NotifyOne(_, d) => if d == m.c then [Sem.Up(t)] else []
      case NotifyAdd(_) => if Caller(m, pc.woken[0]) then [Sem.Wake(pc.woken[0])] else []
      case _ => []
  }

  // Nothing the semaphore sees has changed.
  ghost predicate Silent(m: Whole, loc: Locations, m': Whole, loc': Locations) {
    CallsOk(m', loc') && m.c in m.s.conds && Abs(m', loc') == Abs(m, loc)
  }

  // yield, stop, wait or the idle loop has picked the oldest ready thread.
  lemma SeePick(m: Whole, loc: Locations, k: nat, a: Action, s': State)
    requires WholeOk(m, loc) && k < |m.s.cur| && k < |m.s.pc| && m.s.ready != []
    requires if m.s.pc[k] == Run then IsOut(m, m.s.cur[k]) && !a.Wait? else m.s.pc[k].Captured? && a == Wait(m.s.pc[k].cond)
    requires s' == m.s.(ready := m.s.ready[1..], pc := m.s.pc[k := Picked(m.s.ready[0], a)])
    ensures Silent(m, loc, m.(s := s'), loc[m.s.ready[0] := InHand(k)])
  {
    hide Inv;
    Core(m.s, loc, k);
    var m', loc' := m.(s := s'), loc[m.s.ready[0] := InHand(k)];
    forall t {:trigger ThreadOk(m', loc', t)} ensures ThreadOk(m', loc', t) {
      assert ThreadOk(m, loc, t);
    }
    forall t | t in m.call ensures PcOf(m', loc', t) == PcOf(m, loc, t) {
      assert ThreadOk(m, loc, t);
    }
    hide PcOf;
  }

  // A thread that is not in down() goes somewhere, comes or goes.
  lemma SeeOther(m: Whole, loc: Locations, s': State, loc': Locations, u: Tid)
    requires CallsOk(m, loc) && IsOut(m, u)
    requires OneOther(m, loc, s', loc', u)
    ensures Silent(m, loc, m.(s := s'), loc')
  {
    var m' := m.(s := s');
    forall t {:trigger ThreadOk(m', loc', t)} ensures ThreadOk(m', loc', t) {
      assert ThreadOk(m, loc, t);
    }
    forall t | t in m.call ensures PcOf(m', loc', t) == PcOf(m, loc, t) {
      assert ThreadOk(m, loc, t);
    }
    hide PcOf;
  }

  // A thread at such a place is not in down().
  lemma NotThere(m: Whole, loc: Locations, t: Tid)
    requires CallsOk(m, loc)
    requires t in loc ==>
      !loc[t].OnCore? && !loc[t].InHand? && !loc[t].InReady? && (loc[t].Waiting? ==> loc[t].cond != m.c)
    ensures IsOut(m, t)
  {
    if t in m.call {
      assert ThreadOk(m, loc, t);
    }
  }

  // With nothing ready, stop() picks the core's parked idle thread.
  lemma SeeStopIdle(m: Whole, loc: Locations, k: nat, u: Tid, s': State)
    requires WholeOk(m, loc) && k < |m.s.cur| && k < |m.s.pc| && m.s.pc[k] == Run && IsOut(m, m.s.cur[k])
    requires u in loc && loc[u] == Parked(k)
    requires s' == m.s.(pc := m.s.pc[k := Picked(u, Stop)])
    ensures Silent(m, loc, m.(s := s'), loc[u := InHand(k)])
  {
    hide Inv;
    Core(m.s, loc, k);
    NotThere(m, loc, u);
    var m', loc' := m.(s := s'), loc[u := InHand(k)];
    forall t {:trigger ThreadOk(m', loc', t)} ensures ThreadOk(m', loc', t) {
      assert ThreadOk(m, loc, t);
    }
    forall t | t in m.call ensures PcOf(m', loc', t) == PcOf(m, loc, t) {
      assert ThreadOk(m, loc, t);
    }
    hide PcOf;
  }

  // What one step of the semaphore model looks like from here: thread t's pc is p now.
  lemma SeenPc(m: Whole, loc: Locations, m': Whole, loc': Locations, t: Tid, p: Pcs.Pc)
    requires m.c in m.s.conds && m'.c in m'.s.conds && t in m.call && m'.call.Keys == m.call.Keys
    requires forall u :: u in m.call && u != t ==> PcOf(m', loc', u) == PcOf(m, loc, u)
    requires PcOf(m', loc', t) == p
    ensures Abs(m', loc').pc == Abs(m, loc).pc[t := p]
  {
    hide PcOf;
  }

  ghost predicate CaptureAllowed(m: Whole, k: nat, d: CondId)
    requires k < |m.s.cur|
  {
    var t := m.s.cur[k];
    if d == m.c then t in m.call && m.call[t].Test? && m.count == 0 else IsOut(m, t)
  }

  // Core k's thread has captured the epoch of d.
  ghost predicate CaptureDone(m: Whole, k: nat, d: CondId, m': Whole) {
    k < |m.s.cur| && k < |m.s.pc| && m.s.pc[k] == Run && d in m.s.conds && m.s.cur[k] in m.s.tcb &&
    CaptureAllowed(m, k, d) &&
    var t := m.s.cur[k];
    m' == m.(s := m.s.(tcb := m.s.tcb[t := m.s.tcb[t].(condEpoch := m.s.conds[d].epoch)], pc := m.s.pc[k := Captured(d)]),
             call := if d == m.c then m.call[t := InWait(false)] else m.call)
  }

  lemma SeeCaptureCalls(m: Whole, loc: Locations, k: nat, d: CondId, m': Whole)
    requires CallsOk(m, loc) && CaptureDone(m, k, d, m') && CoreFacts(m.s, loc, k)
    ensures CallsOk(m', loc)
  {
    forall t {:trigger ThreadOk(m', loc, t)} ensures ThreadOk(m', loc, t) {
      assert ThreadOk(m, loc, t);
    }
  }

  lemma SeeCapturePcs(m: Whole, loc: Locations, k: nat, d: CondId, m': Whole)
    requires CallsOk(m, loc) && CaptureDone(m, k, d, m') && CoreFacts(m.s, loc, k)
    ensures forall t :: t in m.call && (t != m.s.cur[k] || d != m.c) ==> PcOf(m', loc, t) == PcOf(m, loc, t)
    ensures d == m.c ==> PcOf(m, loc, m.s.cur[k]).Testing? && PcOf(m', loc, m.s.cur[k]) == Pcs.Captured(m.s.conds[d].epoch)
  {
    forall t | t in m.call ensures t != m.s.cur[k] || d != m.c ==> PcOf(m', loc, t) == PcOf(m, loc, t) {
      assert ThreadOk(m, loc, t);
    }
  }

  lemma SeeCapture(m: Whole, loc: Locations, k: nat, d: CondId, m': Whole)
    requires WholeOk(m, loc) && CaptureDone(m, k, d, m')
    ensures d != m.c ==> Silent(m, loc, m', loc)
    ensures d == m.c ==> CallsOk(m', loc) && Sem.Enabled(Abs(m, loc), Sem.TestFail(m.s.cur[k]))
    ensures d == m.c ==> Abs(m', loc) == Sem.Apply(Abs(m, loc), Sem.TestFail(m.s.cur[k]))
  {
    hide Inv;
    Core(m.s, loc, k);
    hide CoreFacts;
    SeeCaptureCalls(m, loc, k, d, m');
    SeeCapturePcs(m, loc, k, d, m');
    hide ThreadOk;
    hide PcOf;
    if d == m.c {
      SeenPc(m, loc, m', loc, m.s.cur[k], Pcs.Captured(m.s.conds[d].epoch));
    }
  }

  // Core k's thread found nothing ready in wait().
  ghost predicate GiveUpDone(m: Whole, k: nat, m': Whole) {
    k < |m.s.cur| && k < |m.s.pc| && m.s.pc[k].Captured? &&
    var t, d := m.s.cur[k], m.s.pc[k].cond;
    m' == m.(s := m.s.(pc := m.s.pc[k := Run]), call := if d == m.c then m.call[t := Test(false)] else m.call)
  }

  lemma SeeGiveUpCalls(m: Whole, loc: Locations, k: nat, m': Whole)
    requires CallsOk(m, loc) && GiveUpDone(m, k, m') && CoreFacts(m.s, loc, k)
    ensures CallsOk(m', loc) && (m.s.pc[k].cond == m.c ==> Caller(m, m.s.cur[k]))
  {
    assert ThreadOk(m, loc, m.s.cur[k]);
    forall t {:trigger ThreadOk(m', loc, t)} ensures ThreadOk(m', loc, t) {
      assert ThreadOk(m, loc, t);
    }
  }

  lemma SeeGiveUpPcs(m: Whole, loc: Locations, k: nat, m': Whole)
    requires CallsOk(m, loc) && GiveUpDone(m, k, m') && CoreFacts(m.s, loc, k)
    requires m.s.pc[k].cond == m.c ==> Caller(m, m.s.cur[k])
    ensures var t, d := m.s.cur[k], m.s.pc[k].cond;
      (forall u :: u in m.call && (u != t || d != m.c) ==> PcOf(m', loc, u) == PcOf(m, loc, u)) &&
      (d == m.c ==> PcOf(m, loc, t).Captured? && PcOf(m', loc, t) == Pcs.Testing(false))
  {
    forall u | u in m.call ensures u != m.s.cur[k] || m.s.pc[k].cond != m.c ==> PcOf(m', loc, u) == PcOf(m, loc, u) {
      assert ThreadOk(m, loc, u);
    }
  }

  lemma SeeGiveUp(m: Whole, loc: Locations, k: nat, m': Whole)
    requires WholeOk(m, loc) && GiveUpDone(m, k, m')
    ensures m.s.pc[k].cond != m.c ==> Silent(m, loc, m', loc)
    ensures m.s.pc[k].cond == m.c ==> CallsOk(m', loc) && Sem.Enabled(Abs(m, loc), Sem.GiveUp(m.s.cur[k]))
    ensures m.s.pc[k].cond == m.c ==> Abs(m', loc) == Sem.Apply(Abs(m, loc), Sem.GiveUp(m.s.cur[k]))
  {
    hide Inv;
    Core(m.s, loc, k);
    hide CoreFacts;
    SeeGiveUpCalls(m, loc, k, m');
    SeeGiveUpPcs(m, loc, k, m');
    hide ThreadOk;
    hide PcOf;
    if m.s.pc[k].cond == m.c {
      SeenPc(m, loc, m', loc, m.s.cur[k], Pcs.Testing(false));
    }
  }

  // context_switch_: the thread left may be on its way to c's queue; the thread switched to
  // may be on its way back from it.
  ghost predicate SwitchDone(m: Whole, loc: Locations, k: nat, m': Whole, loc': Locations) {
    k < |m.s.cur| && k < |m.s.pc| && m.s.pc[k].Picked? && m.s.cur[k] in m.s.tcb &&
    var t, pc := m.s.cur[k], m.s.pc[k];
    m' == m.(s := m.s.(tcb := m.s.tcb[t := m.s.tcb[t].(action := pc.action)], cur := m.s.cur[k := pc.next], pc := m.s.pc[k := Post(t)]),
             call := Resumed(m.call, pc.next)) &&
    loc' == loc[t := InHand(k)][pc.next := OnCore(k)]
  }

  // The two threads of a switch, and which of them are in wait().
  ghost predicate SwitchFacts(m: Whole, loc: Locations, k: nat) {
    CoreFacts(m.s, loc, k) && m.s.pc[k].Picked? && m.c in m.s.conds &&
    var me, next := m.s.cur[k], m.s.pc[k].next;
    me != next && next in loc && loc[next] == InHand(k) && (m.s.pc[k].action == Wait(m.c) ==> Caller(m, me)) &&
    ThreadOk(m, loc, me) && ThreadOk(m, loc, next)
  }

  lemma SwitchStarts(m: Whole, loc: Locations, k: nat, m': Whole, loc': Locations)
    requires WholeOk(m, loc) && SwitchDone(m, loc, k, m', loc')
    ensures SwitchFacts(m, loc, k)
  {
    hide Inv;
    Core(m.s, loc, k);
    var me, next := m.s.cur[k], m.s.pc[k].next;
    assert next in Hand(m.s.pc[k]) && loc[next] == InHand(k);
    assert ThreadOk(m, loc, me) && ThreadOk(m, loc, next);
  }

  lemma SeeSwitchCalls(m: Whole, loc: Locations, k: nat, m': Whole, loc': Locations)
    requires CallsOk(m, loc) && SwitchFacts(m, loc, k) && SwitchDone(m, loc, k, m', loc')
    ensures CallsOk(m', loc')
  {
    forall t {:trigger ThreadOk(m', loc', t)} ensures ThreadOk(m', loc', t) {
      assert ThreadOk(m, loc, t);
    }
  }

  lemma SeeSwitchOthers(m: Whole, loc: Locations, k: nat, m': Whole, loc': Locations)
    requires CallsOk(m, loc) && SwitchFacts(m, loc, k) && SwitchDone(m, loc, k, m', loc')
    ensures forall t :: t in m.call && t != m.s.cur[k] && t != m.s.pc[k].next ==> PcOf(m', loc', t) == PcOf(m, loc, t)
  {
    forall t | t in m.call && t != m.s.cur[k] && t != m.s.pc[k].next ensures PcOf(m', loc', t) == PcOf(m, loc, t) {
      assert ThreadOk(m, loc, t);
    }
  }

  lemma SeeSwitchEnds(m: Whole, loc: Locations, k: nat, m': Whole, loc': Locations)
    requires SwitchFacts(m, loc, k) && SwitchDone(m, loc, k, m', loc')
    ensures SwitchedFrom(m, loc, m', loc', m.s.cur[k], m.s.pc[k].action == Wait(m.c))
    ensures SwitchedTo(m, loc, m', loc', m.s.pc[k].next)
  {
  }

  ghost predicate SwitchedFrom(m: Whole, loc: Locations, m': Whole, loc': Locations, t: Tid, waits: bool) {
    (waits ==> t in m.call) && m'.call.Keys == m.call.Keys &&
    (t in m.call ==>
       if waits then PcOf(m, loc, t).Captured? && PcOf(m', loc', t) == Pcs.Leaving(PcOf(m, loc, t).epoch)
       else PcOf(m', loc', t) == PcOf(m, loc, t))
  }

  ghost predicate SwitchedTo(m: Whole, loc: Locations, m': Whole, loc': Locations, t: Tid) {
    m'.call.Keys == m.call.Keys &&
    (t in m.call ==>
       if Caller(m, t) then PcOf(m, loc, t).Ready? && PcOf(m', loc', t) == Pcs.Testing(PcOf(m, loc, t).notified)
       else PcOf(m', loc', t) == PcOf(m, loc, t))
  }

  lemma SwitchSeen(m: Whole, loc: Locations, m': Whole, loc': Locations, me: Tid, next: Tid, waits: bool)
    requires m.c in m.s.conds && m'.c == m.c && m'.s.conds == m.s.conds && m'.count == m.count && me != next
    requires forall t :: t in m.call && t != me && t != next ==> t in m'.call && PcOf(m', loc', t) == PcOf(m, loc, t)
    requires SwitchedFrom(m, loc, m', loc', me, waits) && SwitchedTo(m, loc, m', loc', next)
    ensures Sem.Reaches(Abs(m, loc), (if waits then [Sem.Leave(me)] else []) + (if Caller(m, next) then [Sem.Resume(next)] else []),
                        Abs(m', loc'))
  {
    var a := Abs(m, loc);
    hide PcOf;
    var a1 := if waits then Sem.Apply(a, Sem.Leave(me)) else a;
    var a2 := if Caller(m, next) then Sem.Apply(a1, Sem.Resume(next)) else a1;
    assert a2.pc == Abs(m', loc').pc;
    var first, second := if waits then [Sem.Leave(me)] else [], if Caller(m, next) then [Sem.Resume(next)] else [];
    assert Sem.Reaches(a1, second, a2) by {
      if Caller(m, next) {
        OneStep(a1, Sem.Resume(next));
      }
    }
    if waits {
      FirstStep(a, Sem.Leave(me), second, a2);
    } else {
      assert first + second == second;
    }
  }

  lemma OneStep(a: Sem.State, e: Sem.Event)
    requires Sem.Enabled(a, e)
    ensures Sem.Reaches(a, [e], Sem.Apply(a, e))
  {
    assert [e][1..] == [];
  }

  lemma FirstStep(a: Sem.State, e: Sem.Event, es: seq<Sem.Event>, b: Sem.State)
    requires Sem.Enabled(a, e) && Sem.Reaches(Sem.Apply(a, e), es, b)
    ensures Sem.Reaches(a, [e] + es, b)
  {
    assert ([e] + es)[1..] == es;
  }

  // post_switch of a thread that was not waiting on c.
  lemma SeePost(m: Whole, loc: Locations, k: nat, p: Tid, s': State, place: Place)
    requires WholeOk(m, loc) && k < |m.s.cur| && k < |m.s.pc| && m.s.pc[k] == Post(p) && p in m.s.tcb
    requires m.s.tcb[p].action != Wait(m.c)
    requires m.c in s'.conds && s'.conds[m.c] == m.s.conds[m.c] && s'.tcb == m.s.tcb
    requires s'.pc == m.s.pc[k := if place.InHand? then Requeue(p) else Run]
    requires !place.OnCore? && (place.InHand? ==> place.core == k) && (place.Waiting? ==> place.cond != m.c)
    ensures Silent(m, loc, m.(s := s'), loc[p := place])
  {
    hide Inv;
    Core(m.s, loc, k);
    var m', loc' := m.(s := s'), loc[p := place];
    assert p in Hand(m.s.pc[k]) && loc[p] == InHand(k);
    if p in m.call {
      assert ThreadOk(m, loc, p);
    }
    forall t {:trigger ThreadOk(m', loc', t)} ensures ThreadOk(m', loc', t) {
      assert ThreadOk(m, loc, t);
    }
    forall t | t in m.call ensures PcOf(m', loc', t) == PcOf(m, loc, t) {
      assert ThreadOk(m, loc, t);
    }
    hide PcOf;
  }

  // post_switch of a thread that waits on c: into the queue, if c was not notified since
  // the thread captured its epoch, and else on to the ready queue.
  // The thread in core k's hands waits on c.
  ghost predicate PostFacts(m: Whole, loc: Locations, k: nat, p: Tid) {
    CoreFacts(m.s, loc, k) && m.c in m.s.conds && m.s.pc[k] == Post(p) && p in loc && loc[p] == InHand(k) &&
    p in m.s.tcb && m.s.tcb[p].action == Wait(m.c) && Caller(m, p) && CallOk(m, loc, p)
  }

  lemma PostStarts(m: Whole, loc: Locations, k: nat, p: Tid)
    requires WholeOk(m, loc) && k < |m.s.cur| && k < |m.s.pc| && m.s.pc[k] == Post(p) && p in m.s.tcb
    requires m.s.tcb[p].action == Wait(m.c)
    ensures PostFacts(m, loc, k, p)
  {
    hide Inv;
    Core(m.s, loc, k);
    assert p in Hand(m.s.pc[k]) && loc[p] == InHand(k);
    assert ThreadOk(m, loc, p);
    assert OnCondition(m.s, m.c, p, loc[p]) && Caller(m, p);
  }

  ghost predicate ParkDone(m: Whole, loc: Locations, k: nat, p: Tid, m': Whole, loc': Locations) {
    k < |m.s.pc| && m.c in m.s.conds &&
    var cond := m.s.conds[m.c];
    m' == m.(s := m.s.(conds := m.s.conds[m.c := cond.(waiting := cond.waiting + [p])], pc := m.s.pc[k := Run])) &&
    loc' == loc[p := Waiting(m.c)]
  }

  lemma SeeParkCalls(m: Whole, loc: Locations, k: nat, p: Tid, m': Whole, loc': Locations)
    requires CallsOk(m, loc) && PostFacts(m, loc, k, p) && ParkDone(m, loc, k, p, m', loc')
    ensures CallsOk(m', loc')
  {
    forall t {:trigger ThreadOk(m', loc', t)} ensures ThreadOk(m', loc', t) {
      assert ThreadOk(m, loc, t);
    }
  }

  lemma SeeParkPcs(m: Whole, loc: Locations, k: nat, p: Tid, m': Whole, loc': Locations)
    requires CallsOk(m, loc) && PostFacts(m, loc, k, p) && ParkDone(m, loc, k, p, m', loc')
    ensures forall t :: t in m.call && t != p ==> PcOf(m', loc', t) == PcOf(m, loc, t)
    ensures PcOf(m, loc, p) == Pcs.Leaving(m.s.tcb[p].condEpoch) && PcOf(m', loc', p) == Pcs.Parked
  {
    forall t | t in m.call ensures t != p ==> PcOf(m', loc', t) == PcOf(m, loc, t) {
      assert ThreadOk(m, loc, t);
    }
  }

  lemma SeePark(m: Whole, loc: Locations, k: nat, p: Tid, s': State)
    requires WholeOk(m, loc) && k < |m.s.cur| && k < |m.s.pc| && m.s.pc[k] == Post(p) && p in m.s.tcb
    requires m.s.tcb[p].action == Wait(m.c) && m.s.conds[m.c].epoch == m.s.tcb[p].condEpoch
    requires var cond := m.s.conds[m.c];
      s' == m.s.(conds := m.s.conds[m.c := cond.(waiting := cond.waiting + [p])], pc := m.s.pc[k := Run])
    ensures CallsOk(m.(s := s'), loc[p := Waiting(m.c)]) && Sem.Enabled(Abs(m, loc), Sem.Park(p))
    ensures Abs(m.(s := s'), loc[p := Waiting(m.c)]) == Sem.Apply(Abs(m, loc), Sem.Park(p))
  {
    hide Inv;
    var m', loc' := m.(s := s'), loc[p := Waiting(m.c)];
    PostStarts(m, loc, k, p);
    SeeParkCalls(m, loc, k, p, m', loc');
    SeeParkPcs(m, loc, k, p, m', loc');
    hide ThreadOk;
    hide CoreFacts;
    hide CallOk;
    hide PcOf;
    SeenPc(m, loc, m', loc', p, Pcs.Parked);
  }

  lemma SeeRequeue(m: Whole, loc: Locations, k: nat, p: Tid, s': State)
    requires WholeOk(m, loc) && k < |m.s.cur| && k < |m.s.pc| && m.s.pc[k] == Post(p) && p in m.s.tcb
    requires m.s.tcb[p].action == Wait(m.c) && m.s.conds[m.c].epoch != m.s.tcb[p].condEpoch
    requires s' == m.s.(pc := m.s.pc[k := Requeue(p)])
    ensures CallsOk(m.(s := s'), loc) && Sem.Enabled(Abs(m, loc), Sem.Requeue(p))
    ensures Abs(m.(s := s'), loc) == Sem.Apply(Abs(m, loc), Sem.Requeue(p))
  {
    hide Inv;
    Core(m.s, loc, k);
    var m' := m.(s := s');
    assert p in Hand(m.s.pc[k]) && loc[p] == InHand(k);
    assert ThreadOk(m, loc, p);
    assert OnCondition(m.s, m.c, p, loc[p]) && Caller(m, p);
    forall t {:trigger ThreadOk(m', loc, t)} ensures ThreadOk(m', loc, t) {
      assert ThreadOk(m, loc, t);
    }
    forall t | t in m.call ensures t != p ==> PcOf(m', loc, t) == PcOf(m, loc, t) {
      assert ThreadOk(m, loc, t);
    }
    SeenPc(m, loc, m', loc, p, Pcs.Ready(false));
  }

  lemma SeeRequeueAdd(m: Whole, loc: Locations, k: nat, p: Tid, s': State)
    requires WholeOk(m, loc) && k < |m.s.cur| && k < |m.s.pc| && m.s.pc[k] == Requeue(p)
    requires s' == m.s.(ready := m.s.ready + [p], pc := m.s.pc[k := Run])
    ensures Silent(m, loc, m.(s := s'), loc[p := InReady])
  {
    hide Inv;
    Core(m.s, loc, k);
    var m', loc' := m.(s := s'), loc[p := InReady];
    assert p in Hand(m.s.pc[k]) && loc[p] == InHand(k);
    forall t {:trigger ThreadOk(m', loc', t)} ensures ThreadOk(m', loc', t) {
      assert ThreadOk(m, loc, t);
    }
    forall t | t in m.call ensures PcOf(m', loc', t) == PcOf(m, loc, t) {
      assert ThreadOk(m, loc, t);
    }
    hide PcOf;
  }

  // up(): the count, and the oldest waiter of c.
  ghost predicate UpDone(m: Whole, loc: Locations, k: nat, m': Whole, loc': Locations)
    requires k < |m.s.pc| && m.c in m.s.conds
  {
    var w := m.s.conds[m.c].waiting;
    m' == m.(s := m.s.(conds := m.s.conds[m.c := Cond(m.s.conds[m.c].epoch + 1, Sem.Rest(w))],
                       pc := m.s.pc[k := Woken(if w == [] then [] else [w[0]])]),
             count := m.count + 1) &&
    loc' == (if w == [] then loc else loc[w[0] := InHand(k)]) &&
    (w != [] ==> w[0] in loc && loc[w[0]] == Waiting(m.c))
  }

  lemma SeeUpCalls(m: Whole, loc: Locations, k: nat, m': Whole, loc': Locations)
    requires WholeOk(m, loc) && k < |m.s.cur| && k < |m.s.pc| && m.s.pc[k] == Run
    requires m.s.cur[k] in m.call && m.call[m.s.cur[k]].Out?
    requires m.c in m.s.conds && UpDone(m, loc, k, m', loc')
    ensures CallsOk(m', loc')
  {
    hide Inv;
    Core(m.s, loc, k);
    var w := m.s.conds[m.c].waiting;
    if w != [] {
      assert ThreadOk(m, loc, w[0]);
    }
    forall t {:trigger ThreadOk(m', loc', t)} ensures ThreadOk(m', loc', t) {
      assert ThreadOk(m, loc, t);
    }
  }

  lemma SeeUpPcs(m: Whole, loc: Locations, k: nat, m': Whole, loc': Locations)
    requires WholeOk(m, loc) && k < |m.s.cur| && k < |m.s.pc| && m.s.pc[k] == Run
    requires m.s.cur[k] in m.call && m.call[m.s.cur[k]].Out?
    requires m.c in m.s.conds && UpDone(m, loc, k, m', loc')
    ensures var w := m.s.conds[m.c].waiting;
      (w != [] ==> w[0] in m.call) &&
      forall t :: t in m.call ==> PcOf(m', loc', t) == if w != [] && t == w[0] then Pcs.Popped else PcOf(m, loc, t)
  {
    hide Inv;
    Core(m.s, loc, k);
    var w := m.s.conds[m.c].waiting;
    if w != [] {
      assert ThreadOk(m, loc, w[0]);
    }
    forall t | t in m.call
      ensures PcOf(m', loc', t) == if w != [] && t == w[0] then Pcs.Popped else PcOf(m, loc, t)
    {
      assert ThreadOk(m, loc, t);
    }
  }

  lemma SeeUp(m: Whole, loc: Locations, k: nat, m': Whole, loc': Locations)
    requires WholeOk(m, loc) && k < |m.s.cur| && k < |m.s.pc| && m.s.pc[k] == Run
    requires m.s.cur[k] in m.call && m.call[m.s.cur[k]].Out?
    requires m.c in m.s.conds && UpDone(m, loc, k, m', loc')
    ensures CallsOk(m', loc') && Sem.Enabled(Abs(m, loc), Sem.Up(m.s.cur[k]))
    ensures Abs(m', loc') == Sem.Apply(Abs(m, loc), Sem.Up(m.s.cur[k]))
  {
    hide Inv;
    hide CallsOk;
    hide PcOf;
    SeeUpCalls(m, loc, k, m', loc');
    SeeUpPcs(m, loc, k, m', loc');
    OutPc(m, loc, m.s.cur[k]);
    var w := m.s.conds[m.c].waiting;
    if w != [] {
      SeenPc(m, loc, m', loc', w[0], Pcs.Popped);
    } else {
      assert Abs(m', loc').pc == Abs(m, loc).pc;
    }
  }

  lemma OutPc(m: Whole, loc: Locations, t: Tid)
    requires t in m.call && m.call[t].Out?
    ensures PcOf(m, loc, t) == Pcs.Outside
  {
  }

  ghost predicate OneNotified(s: State, loc: Locations, k: nat, d: CondId, s': State, loc': Locations)
    requires d in s.conds && k < |s.pc|
  {
    var w := s.conds[d].waiting;
    s' == s.(conds := s.conds[d := Cond(s.conds[d].epoch + 1, if w == [] then [] else w[1..])],
             pc := s.pc[k := Woken(if w == [] then [] else [w[0]])]) &&
    loc' == if w == [] then loc else loc[w[0] := InHand(k)]
  }

  ghost predicate AllNotified(s: State, loc: Locations, k: nat, d: CondId, s': State, loc': Locations)
    requires d in s.conds && k < |s.pc|
  {
    s' == s.(conds := s.conds[d := Cond(s.conds[d].epoch + 1, [])], pc := s.pc[k := Woken(s.conds[d].waiting)]) &&
    loc' == AllWoken(loc, k, d)
  }

  // notify_one of another condition.
  lemma SeeNotifyOneCalls(m: Whole, loc: Locations, k: nat, d: CondId, s': State, loc': Locations)
    requires CallsOk(m, loc) && CoreFacts(m.s, loc, k) && m.s.pc[k] == Run && IsOut(m, m.s.cur[k])
    requires d in m.s.conds && d != m.c && OneNotified(m.s, loc, k, d, s', loc')
    requires var w := m.s.conds[d].waiting; w != [] ==> w[0] in loc && loc[w[0]] == Waiting(d) && IsOut(m, w[0])
    ensures CallsOk(m.(s := s'), loc')
  {
    var m' := m.(s := s');
    forall t {:trigger ThreadOk(m', loc', t)} ensures ThreadOk(m', loc', t) {
      assert ThreadOk(m, loc, t);
    }
  }

  lemma SeeNotifyOnePcs(m: Whole, loc: Locations, k: nat, d: CondId, s': State, loc': Locations)
    requires CallsOk(m, loc) && CoreFacts(m.s, loc, k) && m.s.pc[k] == Run && IsOut(m, m.s.cur[k])
    requires d in m.s.conds && d != m.c && OneNotified(m.s, loc, k, d, s', loc')
    requires var w := m.s.conds[d].waiting; w != [] ==> w[0] in loc && loc[w[0]] == Waiting(d) && IsOut(m, w[0])
    ensures forall t :: t in m.call ==> PcOf(m.(s := s'), loc', t) == PcOf(m, loc, t)
  {
    var m' := m.(s := s');
    forall t | t in m.call ensures PcOf(m', loc', t) == PcOf(m, loc, t) {
      assert ThreadOk(m, loc, t);
    }
  }

  lemma SeeNotifyOne(m: Whole, loc: Locations, k: nat, d: CondId, s': State, loc': Locations)
    requires WholeOk(m, loc) && k < |m.s.cur| && k < |m.s.pc| && m.s.pc[k] == Run && IsOut(m, m.s.cur[k])
    requires d in m.s.conds && d != m.c && OneNotified(m.s, loc, k, d, s', loc')
    requires m.s.conds[d].waiting != [] ==> m.s.conds[d].waiting[0] in loc && loc[m.s.conds[d].waiting[0]] == Waiting(d)
    ensures Silent(m, loc, m.(s := s'), loc')
  {
    hide Inv;
    hide PcOf;
    hide ThreadOk;
    Core(m.s, loc, k);
    if m.s.conds[d].waiting != [] {
      NotThere(m, loc, m.s.conds[d].waiting[0]);
    }
    SeeNotifyOneCalls(m, loc, k, d, s', loc');
    SeeNotifyOnePcs(m, loc, k, d, s', loc');
    hide CoreFacts;
  }

  lemma SeeNotifyAll(m: Whole, loc: Locations, k: nat, d: CondId, s': State, loc': Locations)
    requires WholeOk(m, loc) && k < |m.s.cur| && k < |m.s.pc| && m.s.pc[k] == Run && IsOut(m, m.s.cur[k])
    requires d in m.s.conds && d != m.c && AllNotified(m.s, loc, k, d, s', loc')
    ensures Silent(m, loc, m.(s := s'), loc')
  {
    hide Inv;
    Core(m.s, loc, k);
    var m' := m.(s := s');
    forall t {:trigger ThreadOk(m', loc', t)} ensures ThreadOk(m', loc', t) {
      assert ThreadOk(m, loc, t);
      if t in loc && loc[t] == Waiting(d) {
        NotThere(m, loc, t);
      }
    }
    forall t | t in m.call ensures PcOf(m', loc', t) == PcOf(m, loc, t) {
      assert ThreadOk(m, loc, t);
    }
    hide PcOf;
  }

  ghost predicate WakeDone(m: Whole, loc: Locations, k: nat, u: Tid, m': Whole, loc': Locations)
    requires k < |m.s.pc| && m.s.pc[k].Notify? && m.s.pc[k].woken != []
  {
    u == m.s.pc[k].woken[0] && loc' == loc[u := InReady] &&
    m' == m.(s := m.s.(ready := m.s.ready + [u], pc := m.s.pc[k := Woken(m.s.pc[k].woken[1..])]), call := MadeReady(m.call, u))
  }

  // The parts of the whole that the semaphore model sees, apart from the callers.
  ghost predicate SameSemaphore(m: Whole, m': Whole) {
    m'.c == m.c && m'.s.conds == m.s.conds && m'.call.Keys == m.call.Keys && m'.count == m.count
  }

  // A woken thread is made ready.
  lemma SeeWakeCalls(m: Whole, loc: Locations, k: nat, u: Tid, m': Whole, loc': Locations)
    requires WholeOk(m, loc) && k < |m.s.cur| && k < |m.s.pc| && m.s.pc[k].Notify? && m.s.pc[k].woken != []
    requires WakeDone(m, loc, k, u, m', loc')
    ensures CallsOk(m', loc')
  {
    hide Inv;
    Core(m.s, loc, k);
    var list := m.s.pc[k].woken;
    assert u in Hand(m.s.pc[k]) && loc[u] == InHand(k);
    forall t {:trigger ThreadOk(m', loc', t)} ensures ThreadOk(m', loc', t) {
      assert ThreadOk(m, loc, t);
      if t in list && t != u {
        InTail(list, t);
      }
    }
  }

  lemma SeeWakePcs(m: Whole, loc: Locations, k: nat, u: Tid, m': Whole, loc': Locations)
    requires WholeOk(m, loc) && k < |m.s.cur| && k < |m.s.pc| && m.s.pc[k].Notify? && m.s.pc[k].woken != []
    requires WakeDone(m, loc, k, u, m', loc')
    ensures m'.call.Keys == m.call.Keys
    ensures forall t :: t in m.call && t != u ==> PcOf(m', loc', t) == PcOf(m, loc, t)
    ensures u in m.call ==>
      if Caller(m, u) then PcOf(m, loc, u) == Pcs.Popped && PcOf(m', loc', u) == Pcs.Ready(true)
      else PcOf(m', loc', u) == PcOf(m, loc, u)
  {
    hide Inv;
    Core(m.s, loc, k);
    assert u in Hand(m.s.pc[k]) && loc[u] == InHand(k);
    assert ThreadOk(m, loc, u);
    forall t | t in m.call && t != u ensures PcOf(m', loc', t) == PcOf(m, loc, t) {
      assert ThreadOk(m, loc, t);
      if t in m.s.pc[k].woken {
        InTail(m.s.pc[k].woken, t);
      }
    }
  }

  lemma SeeWake(m: Whole, loc: Locations, k: nat, u: Tid, m': Whole, loc': Locations)
    requires WholeOk(m, loc) && k < |m.s.cur| && k < |m.s.pc| && m.s.pc[k].Notify? && m.s.pc[k].woken != []
    requires WakeDone(m, loc, k, u, m', loc')
    ensures CallsOk(m', loc') && m.c in m.s.conds
    ensures if Caller(m, u) then Sem.Enabled(Abs(m, loc), Sem.Wake(u)) && Abs(m', loc') == Sem.Apply(Abs(m, loc), Sem.Wake(u))
      else Abs(m', loc') == Abs(m, loc)
  {
    CondThere(m, loc);
    assert SameSemaphore(m, m');
    hide WakeDone;
    hide SameSemaphore;
    hide WholeOk;
    hide CallsOk;
    hide PcOf;
    hide Abs;
    hide Sem.Enabled;
    hide Sem.Apply;
    SeeWakeCalls(m, loc, k, u, m', loc');
    SeeWakePcs(m, loc, k, u, m', loc');
    if Caller(m, u) {
      WakeAbs(m, loc, m', loc', u);
    } else {
      SameAbs(m, loc, m', loc');
    }
  }

  lemma SameAbs(m: Whole, loc: Locations, m': Whole, loc': Locations)
    requires m.c in m.s.conds && SameSemaphore(m, m')
    requires forall t :: t in m.call ==> PcOf(m', loc', t) == PcOf(m, loc, t)
    ensures Abs(m', loc') == Abs(m, loc)
  {
    hide PcOf;
    assert Abs(m', loc').pc == Abs(m, loc).pc;
  }

  lemma WakeAbs(m: Whole, loc: Locations, m': Whole, loc': Locations, u: Tid)
    requires m.c in m.s.conds && SameSemaphore(m, m')
    requires forall t :: t in m.call && t != u ==> PcOf(m', loc', t) == PcOf(m, loc, t)
    requires u in m.call && PcOf(m, loc, u) == Pcs.Popped && PcOf(m', loc', u) == Pcs.Ready(true)
    ensures Sem.Enabled(Abs(m, loc), Sem.Wake(u)) && Abs(m', loc') == Sem.Apply(Abs(m, loc), Sem.Wake(u))
  {
    hide PcOf;
    SeenPc(m, loc, m', loc', u, Pcs.Ready(true));
    WakeSeen(Abs(m, loc), Abs(m', loc'), u);
  }

  lemma WakeSeen(a: Sem.State, b: Sem.State, u: Tid)
    requires u in a.pc && a.pc[u] == Pcs.Popped && b == a.(pc := a.pc[u := Pcs.Ready(true)])
    ensures Sem.Enabled(a, Sem.Wake(u)) && b == Sem.Apply(a, Sem.Wake(u))
  {
  }

  lemma InTail(list: seq<Tid>, t: Tid)
    requires t in list && t != list[0]
    ensures t in list[1..]
  {
    var i :| 0 <= i < |list| && list[i] == t;
    assert list[1..][i - 1] == t;
  }

  // --- every step ----------------------------------------------------------------

  // The step is, for the semaphore model, the steps Seen says.
  ghost predicate Simulated(m: Whole, loc: Locations, step: Step)
    requires Enabled(m, step)
  {
    var m', loc' := Apply(m, step), Moved(m, step, loc);
    CallsOk(m', loc') && m.c in m.s.conds && Sem.Reaches(Abs(m, loc), Seen(m, step), Abs(m', loc'))
  }

  // The thread's own steps: it calls down(), or finds the count above zero.
  lemma SeeEnter(m: Whole, loc: Locations, t: Tid, k: nat, m': Whole)
    requires CallsOk(m, loc) && t in m.call && m.call[t].Out? && t in loc && loc[t] == OnCore(k)
    requires k < |m.s.pc| && m.s.pc[k] == Run && m' == m.(call := m.call[t := Test(false)])
    ensures CallsOk(m', loc) && Sem.Reaches(Abs(m, loc), [Sem.Enter(t)], Abs(m', loc))
  {
    forall u {:trigger ThreadOk(m', loc, u)} ensures ThreadOk(m', loc, u) {
      assert ThreadOk(m, loc, u);
    }
    forall u | u in m.call ensures u != t ==> PcOf(m', loc, u) == PcOf(m, loc, u) {
      assert ThreadOk(m, loc, u);
    }
    SeenPc(m, loc, m', loc, t, Pcs.Testing(false));
    OneStep(Abs(m, loc), Sem.Enter(t));
  }

  lemma SeeTestOk(m: Whole, loc: Locations, t: Tid, k: nat, m': Whole)
    requires CallsOk(m, loc) && t in m.call && m.call[t].Test? && t in loc && loc[t] == OnCore(k) && m.count > 0
    requires k < |m.s.pc| && m.s.pc[k] == Run && m' == m.(call := m.call[t := Out], count := m.count - 1)
    ensures CallsOk(m', loc) && Sem.Reaches(Abs(m, loc), [Sem.TestOk(t)], Abs(m', loc))
  {
    forall u {:trigger ThreadOk(m', loc, u)} ensures ThreadOk(m', loc, u) {
      assert ThreadOk(m, loc, u);
    }
    forall u | u in m.call ensures u != t ==> PcOf(m', loc, u) == PcOf(m, loc, u) {
      assert ThreadOk(m, loc, u);
    }
    SeenPc(m, loc, m', loc, t, Pcs.Outside);
    OneStep(Abs(m, loc), Sem.TestOk(t));
  }

  lemma SeeEnters(m: Whole, loc: Locations, k: nat)
    requires WholeOk(m, loc) && Enabled(m, Enter(k))
    ensures Simulated(m, loc, Enter(k))
  {
    hide Inv;
    hide CallsOk;
    hide Abs;
    Core(m.s, loc, k);
    SeeEnter(m, loc, m.s.cur[k], k, Apply(m, Enter(k)));
  }

  lemma SeeTestOks(m: Whole, loc: Locations, k: nat)
    requires WholeOk(m, loc) && Enabled(m, TestOk(k))
    ensures Simulated(m, loc, TestOk(k))
  {
    hide Inv;
    hide CallsOk;
    hide Abs;
    Core(m.s, loc, k);
    SeeTestOk(m, loc, m.s.cur[k], k, Apply(m, TestOk(k)));
  }

  lemma SeePicks(m: Whole, loc: Locations, e: Event)
    requires WholeOk(m, loc) && Enabled(m, Do(e)) && (e.YieldPick? || e.StopPick? || e.IdlePick? || e.WaitPick?)
    ensures Simulated(m, loc, Do(e))
  {
    var k, s' := e.k, Scheduler.Apply(m.s, e);
    if m.s.ready == [] {
      IdleParked(m.s, loc, k);
      hide Inv;
      SeeStopIdle(m, loc, k, m.s.idle[k], s');
    } else {
      hide Inv;
      hide CoreFacts;
      hide CallsOk;
      hide Silent;
      SeePick(m, loc, k, s'.pc[k].action, s');
      SilentSeen(m, loc, m.(s := s'), loc[m.s.ready[0] := InHand(k)]);
    }
  }

  lemma CondThere(m: Whole, loc: Locations)
    requires CallsOk(m, loc)
    ensures m.c in m.s.conds
  {
  }

  lemma SilentSeen(m: Whole, loc: Locations, m': Whole, loc': Locations)
    requires Silent(m, loc, m', loc')
    ensures CallsOk(m', loc') && m.c in m.s.conds && m'.c in m'.s.conds && Sem.Reaches(Abs(m, loc), [], Abs(m', loc'))
  {
  }

  lemma SeeWaits(m: Whole, loc: Locations, e: Event)
    requires WholeOk(m, loc) && Enabled(m, Do(e)) && (e.WaitCapture? || e.WaitGiveUp?)
    ensures Simulated(m, loc, Do(e))
  {
    var k, m' := e.k, Apply(m, Do(e));
    hide Inv;
    if e.WaitCapture? {
      SeeCapture(m, loc, k, e.cond, m');
      if e.cond == m.c {
        OneStep(Abs(m, loc), Sem.TestFail(m.s.cur[k]));
      }
    } else {
      SeeGiveUp(m, loc, k, m');
      if m.s.pc[k].cond == m.c {
        OneStep(Abs(m, loc), Sem.GiveUp(m.s.cur[k]));
      }
    }
  }

  lemma SeeSwitches(m: Whole, loc: Locations, e: Event)
    requires WholeOk(m, loc) && Enabled(m, Do(e)) && e.Switch?
    ensures Simulated(m, loc, Do(e))
  {
    var k, m', loc' := e.k, Apply(m, Do(e)), Moved(m, Do(e), loc);
    hide Inv;
    assert SwitchDone(m, loc, k, m', loc');
    SwitchStarts(m, loc, k, m', loc');
    SeeSwitchCalls(m, loc, k, m', loc');
    SeeSwitchOthers(m, loc, k, m', loc');
    SeeSwitchEnds(m, loc, k, m', loc');
    hide CoreFacts;
    hide ThreadOk;
    hide PcOf;
    hide SwitchedFrom;
    hide SwitchedTo;
    SwitchSeen(m, loc, m', loc', m.s.cur[k], m.s.pc[k].next, m.s.pc[k].action == Wait(m.c));
  }

  // Where post_switch puts the thread it was left with.
  ghost function PostPlace(s: State, k: nat, p: Tid): Place
    requires p in s.tcb && (s.tcb[p].action.Wait? ==> s.tcb[p].action.cond in s.conds)
  {
    match s.tcb[p].action
    case Ready => InReady
    case Stop => InReaper
    case Wait(d) => if s.conds[d].epoch == s.tcb[p].condEpoch then Waiting(d) else InHand(k)
    case NoAction => Parked(k)
  }

  lemma PostIs(m: Whole, loc: Locations, e: Event, p: Tid)
    requires WholeOk(m, loc) && Enabled(m, Do(e)) && e.PostSwitch? && p == m.s.pc[e.k].prev && m.s.tcb[p].action != Wait(m.c)
    ensures var s' := Scheduler.Apply(m.s, e);
      Apply(m, Do(e)) == m.(s := s') && Moved(m, Do(e), loc) == loc[p := PostPlace(m.s, e.k, p)] &&
      m.c in s'.conds && s'.conds[m.c] == m.s.conds[m.c] && s'.tcb == m.s.tcb &&
      s'.pc == m.s.pc[e.k := if PostPlace(m.s, e.k, p).InHand? then Requeue(p) else Run]
    ensures Seen(m, Do(e)) == []
  {
    hide Inv;
    Core(m.s, loc, e.k);
    assert p in Hand(m.s.pc[e.k]) && loc[p] == InHand(e.k);
    assert loc[p := InHand(e.k)] == loc;
  }

  lemma SeePostOthers(m: Whole, loc: Locations, e: Event)
    requires WholeOk(m, loc) && Enabled(m, Do(e)) && e.PostSwitch? && m.s.tcb[m.s.pc[e.k].prev].action != Wait(m.c)
    ensures Simulated(m, loc, Do(e))
  {
    var p, s' := m.s.pc[e.k].prev, Scheduler.Apply(m.s, e);
    hide WholeOk;
    hide Silent;
    hide Abs;
    PostIs(m, loc, e, p);
    SeePost(m, loc, e.k, p, s', PostPlace(m.s, e.k, p));
    SilentSeen(m, loc, m.(s := s'), loc[p := PostPlace(m.s, e.k, p)]);
  }

  lemma SeePostWaits(m: Whole, loc: Locations, e: Event)
    requires WholeOk(m, loc) && Enabled(m, Do(e)) && e.PostSwitch? && m.s.tcb[m.s.pc[e.k].prev].action == Wait(m.c)
    ensures Simulated(m, loc, Do(e))
  {
    var k, s', p := e.k, Scheduler.Apply(m.s, e), m.s.pc[e.k].prev;
    hide WholeOk;
    hide CallsOk;
    hide Abs;
    if m.s.conds[m.c].epoch == m.s.tcb[p].condEpoch {
      SeePark(m, loc, k, p, s');
      OneStep(Abs(m, loc), Sem.Park(p));
    } else {
      SeeRequeue(m, loc, k, p, s');
      OneStep(Abs(m, loc), Sem.Requeue(p));
    }
  }

  lemma SeeRequeueAdds(m: Whole, loc: Locations, e: Event)
    requires WholeOk(m, loc) && Enabled(m, Do(e)) && e.RequeueAdd?
    ensures Simulated(m, loc, Do(e))
  {
    var p, s' := m.s.pc[e.k].prev, Scheduler.Apply(m.s, e);
    hide WholeOk;
    hide Silent;
    hide Abs;
    SeeRequeueAdd(m, loc, e.k, p, s');
    SilentSeen(m, loc, m.(s := s'), loc[p := InReady]);
  }

  lemma UpIs(m: Whole, loc: Locations, e: Event)
    requires Enabled(m, Do(e)) && e.NotifyOne? && e.cond == m.c
    ensures e.k < |m.s.cur| && e.k < |m.s.pc| && m.s.pc[e.k] == Run && m.c in m.s.conds
    ensures m.s.cur[e.k] in m.call && m.call[m.s.cur[e.k]].Out? && Seen(m, Do(e)) == [Sem.Up(m.s.cur[e.k])]
    ensures var w := m.s.conds[m.c].waiting;
      Apply(m, Do(e)) ==
        m.(s := m.s.(conds := m.s.conds[m.c := Cond(m.s.conds[m.c].epoch + 1, Sem.Rest(w))],
                     pc := m.s.pc[e.k := Woken(if w == [] then [] else [w[0]])]),
           count := m.count + 1) &&
      Moved(m, Do(e), loc) == if w == [] then loc else loc[w[0] := InHand(e.k)]
  {
  }

  lemma NotifyOneIs(m: Whole, loc: Locations, e: Event)
    requires Enabled(m, Do(e)) && e.NotifyOne? && e.cond != m.c
    ensures e.k < |m.s.cur| && e.k < |m.s.pc| && m.s.pc[e.k] == Run && IsOut(m, m.s.cur[e.k]) && e.cond in m.s.conds
    ensures Seen(m, Do(e)) == [] && Apply(m, Do(e)) == m.(s := Scheduler.Apply(m.s, e))
    ensures OneNotified(m.s, loc, e.k, e.cond, Scheduler.Apply(m.s, e), Moved(m, Do(e), loc))
  {
  }

  lemma NotifyAllIs(m: Whole, loc: Locations, e: Event)
    requires Enabled(m, Do(e)) && e.NotifyAll?
    ensures e.k < |m.s.cur| && e.k < |m.s.pc| && m.s.pc[e.k] == Run && IsOut(m, m.s.cur[e.k])
    ensures e.cond in m.s.conds && e.cond != m.c && Seen(m, Do(e)) == []
    ensures Apply(m, Do(e)) == m.(s := Scheduler.Apply(m.s, e))
    ensures AllNotified(m.s, loc, e.k, e.cond, Scheduler.Apply(m.s, e), Moved(m, Do(e), loc))
  {
    hide AllWoken;
  }

  lemma SeeNotifyOnes(m: Whole, loc: Locations, e: Event)
    requires WholeOk(m, loc) && Enabled(m, Do(e)) && e.NotifyOne? && e.cond != m.c
    ensures Simulated(m, loc, Do(e))
  {
    NotifyOneIs(m, loc, e);
    var s', loc' := Scheduler.Apply(m.s, e), Moved(m, Do(e), loc);
    hide Enabled;
    hide Apply;
    hide Moved;
    hide Seen;
    hide Scheduler.Enabled;
    hide Scheduler.Apply;
    hide OneNotified;
    hide Inv;
    hide CallsOk;
    hide Silent;
    hide Abs;
    FirstWaits(m.s, loc, e.cond);
    SeeNotifyOne(m, loc, e.k, e.cond, s', loc');
    SilentSeen(m, loc, m.(s := s'), loc');
  }

  lemma SeeUps(m: Whole, loc: Locations, e: Event)
    requires WholeOk(m, loc) && Enabled(m, Do(e)) && e.NotifyOne? && e.cond == m.c
    ensures Simulated(m, loc, Do(e))
  {
    UpIs(m, loc, e);
    hide Enabled;
    hide Apply;
    hide Moved;
    hide Seen;
    hide Inv;
    hide CallsOk;
    hide Abs;
    FirstWaits(m.s, loc, e.cond);
    SeeUp(m, loc, e.k, Apply(m, Do(e)), Moved(m, Do(e), loc));
    OneStep(Abs(m, loc), Sem.Up(m.s.cur[e.k]));
  }

  lemma SeeNotifyAlls(m: Whole, loc: Locations, e: Event)
    requires WholeOk(m, loc) && Enabled(m, Do(e)) && e.NotifyAll?
    ensures Simulated(m, loc, Do(e))
  {
    NotifyAllIs(m, loc, e);
    var s', loc' := Scheduler.Apply(m.s, e), Moved(m, Do(e), loc);
    hide Enabled;
    hide Apply;
    hide Moved;
    hide Seen;
    hide Scheduler.Enabled;
    hide Scheduler.Apply;
    hide AllNotified;
    hide Inv;
    hide CallsOk;
    hide Silent;
    hide Abs;
    SeeNotifyAll(m, loc, e.k, e.cond, s', loc');
    SilentSeen(m, loc, m.(s := s'), loc');
  }

  lemma SeeNotifyAdds(m: Whole, loc: Locations, e: Event)
    requires WholeOk(m, loc) && Enabled(m, Do(e)) && e.NotifyAdd?
    ensures Simulated(m, loc, Do(e))
  {
    var k, m' := e.k, Apply(m, Do(e));
    hide Inv;
    hide CoreFacts;
    hide CallsOk;
    hide Abs;
    var u := m.s.pc[k].woken[0];
    SeeWake(m, loc, k, u, m', loc[u := InReady]);
    if Caller(m, u) {
      OneStep(Abs(m, loc), Sem.Wake(u));
    }
  }

  lemma FirstWaits(s: State, loc: Locations, d: CondId)
    requires Inv(s, loc) && d in s.conds
    ensures s.conds[d].waiting != [] ==> s.conds[d].waiting[0] in loc && loc[s.conds[d].waiting[0]] == Waiting(d)
  {
    hide QueuesOk;
    hide IdleOk;
    hide OwnersOk;
    hide CountOk;
    hide AllPcOk;
    if s.conds[d].waiting != [] {
      assert At(s, s.conds[d].waiting[0], Waiting(d));
    }
  }

  // The steps of reap() and make_thread() move a thread that is not in down(), if any.
  ghost predicate OneOther(m: Whole, loc: Locations, s': State, loc': Locations, u: Tid) {
    m.c in s'.conds && m.c in m.s.conds && s'.conds[m.c] == m.s.conds[m.c] && s'.pc == m.s.pc &&
    (forall t :: t != u ==> (t in loc <==> t in loc') && (t in loc && t in loc' ==> loc'[t] == loc[t])) &&
    (forall t :: t != u ==>
       (t in m.s.tcb <==> t in s'.tcb) && (t in m.s.tcb && t in s'.tcb ==> s'.tcb[t] == m.s.tcb[t])) &&
    (u in loc' && !(u in loc && loc'[u] == loc[u]) ==> !loc'[u].OnCore? && !loc'[u].InHand? && !loc'[u].Waiting?) &&
    (u in loc' && u in loc && loc'[u] == loc[u] ==> s'.tcb == m.s.tcb)
  }

  lemma ReapIs(m: Whole, loc: Locations, e: Event, u: Tid)
    requires m.c in m.s.conds && Enabled(m, Do(e))
    requires (e.ReapPop? && u == m.s.reaper[0]) || (e.ReapDealloc? && u == m.s.reaping[m.s.cur[e.k]]) ||
      (e.ReapCount? && u == m.s.cur[e.k])
    ensures OneOther(m, loc, Scheduler.Apply(m.s, e), Moved(m, Do(e), loc), u)
    ensures Apply(m, Do(e)) == m.(s := Scheduler.Apply(m.s, e)) && Seen(m, Do(e)) == []
  {
  }

  lemma MakeIs(m: Whole, loc: Locations, e: Event, u: Tid)
    requires m.c in m.s.conds && Enabled(m, Do(e))
    requires (e.MakeAlloc? && u == e.tid) || (e.MakeReady? && u == m.s.making[m.s.cur[e.k]].value) ||
      (e.MakeBegin? && u == m.s.cur[e.k])
    requires loc.Keys == m.s.tcb.Keys
    ensures OneOther(m, loc, Scheduler.Apply(m.s, e), Moved(m, Do(e), loc), u)
    ensures Apply(m, Do(e)) == m.(s := Scheduler.Apply(m.s, e)) && Seen(m, Do(e)) == []
  {
  }

  ghost function Mover(s: State, e: Event): Tid
    requires Scheduler.Enabled(s, e)
  {
    match e
    case ReapPop(k) => s.reaper[0]
    case ReapDealloc(k) => s.reaping[s.cur[k]]
    case MakeAlloc(k, u) => u
    case MakeReady(k) => s.making[s.cur[k]].value
    case _ => s.cur[e.k]
  }

  lemma SeePeople(m: Whole, loc: Locations, e: Event)
    requires WholeOk(m, loc) && Enabled(m, Do(e))
    requires e.ReapPop? || e.ReapDealloc? || e.ReapCount? || e.MakeBegin? || e.MakeAlloc? || e.MakeReady?
    ensures Simulated(m, loc, Do(e))
  {
    var u := Mover(m.s, e);
    CondThere(m, loc);
    if e.ReapPop? || e.ReapDealloc? || e.ReapCount? {
      ReapIs(m, loc, e, u);
    } else {
      SameKeys(m.s, loc);
      MakeIs(m, loc, e, u);
    }
    MoverOut(m, loc, e, u);
    var s', loc' := Scheduler.Apply(m.s, e), Moved(m, Do(e), loc);
    hide Inv;
    hide CallsOk;
    hide Silent;
    hide Abs;
    hide OneOther;
    hide Apply;
    hide Moved;
    hide Seen;
    hide Enabled;
    hide Mover;
    SeeOther(m, loc, s', loc', u);
    SilentSeen(m, loc, m.(s := s'), loc');
  }

  lemma SameKeys(s: State, loc: Locations)
    requires Inv(s, loc)
    ensures loc.Keys == s.tcb.Keys
  {
    LocatedKeys(s, loc);
  }

  lemma MoverOut(m: Whole, loc: Locations, e: Event, u: Tid)
    requires WholeOk(m, loc) && Enabled(m, Do(e)) && u == Mover(m.s, e)
    requires e.ReapPop? || e.ReapDealloc? || e.ReapCount? || e.MakeBegin? || e.MakeAlloc? || e.MakeReady?
    ensures IsOut(m, u)
  {
    hide Inv;
    hide CallsOk;
    if u != m.s.cur[e.k] {
      SomebodyElse(m.s, loc, e, u);
      NotThere(m, loc, u);
    }
  }

  lemma SomebodyElse(s: State, loc: Locations, e: Event, u: Tid)
    requires Inv(s, loc) && Scheduler.Enabled(s, e)
    requires (e.ReapPop? && u == s.reaper[0]) || (e.ReapDealloc? && u == s.reaping[s.cur[e.k]]) ||
      (e.MakeAlloc? && u == e.tid) || (e.MakeReady? && u == s.making[s.cur[e.k]].value) ||
      ((e.ReapCount? || e.MakeBegin?) && u == s.cur[e.k])
    ensures u in loc && u != s.cur[e.k] ==> loc[u].InReaper? || loc[u].BeingReaped? || loc[u].BeingMade?
  {
    hide QueuesOk;
    hide IdleOk;
    hide OwnersOk;
    hide CountOk;
    hide AllPcOk;
    if e.ReapPop? {
      assert At(s, u, InReaper);
    } else if e.ReapDealloc? {
      assert At(s, u, BeingReaped(s.cur[e.k]));
    } else if e.MakeReady? {
      assert At(s, u, BeingMade(s.cur[e.k]));
    }
  }

  // Every step of the whole is steps of the semaphore model, and keeps the invariant.
  lemma StepSimulates(m: Whole, loc: Locations, step: Step)
    requires WholeOk(m, loc) && Enabled(m, step)
    ensures Simulated(m, loc, step) && WholeOk(Apply(m, step), Moved(m, step, loc))
  {
    hide Inv;
    hide CallsOk;
    hide Abs;
    hide Apply;
    hide Moved;
    hide Seen;
    StepKeeps(m, loc, step);
    match step
    case Enter(k) => SeeEnters(m, loc, k);
    case TestOk(k) => SeeTestOks(m, loc, k);
    case Do(e) => EventSimulates(m, loc, e);
  }

  lemma StepKeeps(m: Whole, loc: Locations, step: Step)
    requires WholeOk(m, loc) && Enabled(m, step)
    ensures Inv(Apply(m, step).s, Moved(m, step, loc))
  {
    hide Inv;
    hide CallsOk;
    if step.Do? {
      Scheduler.StepKeeps(m.s, loc, step.e);
    }
  }

  lemma EventSimulates(m: Whole, loc: Locations, e: Event)
    requires WholeOk(m, loc) && Enabled(m, Do(e))
    ensures Simulated(m, loc, Do(e))
  {
    hide WholeOk;
    hide Simulated;
    match e
    case YieldPick(_) => SeePicks(m, loc, e);
    case StopPick(_) => SeePicks(m, loc, e);
    case IdlePick(_) => SeePicks(m, loc, e);
    case WaitPick(_) => SeePicks(m, loc, e);
    case WaitCapture(_, _) => SeeWaits(m, loc, e);
    case WaitGiveUp(_) => SeeWaits(m, loc, e);
    case Switch(_) => SeeSwitches(m, loc, e);
    case PostSwitch(_) =>
      if m.s.tcb[m.s.pc[e.k].prev].action == Wait(m.c) {
        SeePostWaits(m, loc, e);
      } else {
        SeePostOthers(m, loc, e);
      }
    case RequeueAdd(_) => SeeRequeueAdds(m, loc, e);
    case NotifyOne(_, d) =>
      if d == m.c {
        SeeUps(m, loc, e);
      } else {
        SeeNotifyOnes(m, loc, e);
      }
    case NotifyAll(_, _) => SeeNotifyAlls(m, loc, e);
    case NotifyAdd(_) => SeeNotifyAdds(m, loc, e);
    case _ => SeePeople(m, loc, e);
  }

  // --- whole runs ------------------------------------------------------------------

  // All cores have bootstrapped, nobody is in down().
  ghost predicate Initial(m: Whole) {
    Scheduler.Initial(m.s) && m.c in m.s.conds &&
    forall t :: t in m.call ==> m.call[t].Out?
  }

  ghost predicate Reaches(m: Whole, steps: seq<Step>, m': Whole)
    decreases |steps|
  {
    if steps == [] then m' == m else Enabled(m, steps[0]) && Reaches(Apply(m, steps[0]), steps[1..], m')
  }

  lemma StartsAs(m: Whole) returns (loc: Locations)
    requires Initial(m)
    ensures WholeOk(m, loc) && Sem.Initial(Abs(m, loc))
  {
    loc := InitialInv(m.s);
    hide Located;
    hide QueuesOk;
    hide IdleOk;
    hide OwnersOk;
    hide AllPcOk;
    hide CountOk;
    NobodyWaits(m, loc);
  }

  lemma NobodyWaits(m: Whole, loc: Locations)
    requires Initial(m) && Inv(m.s, loc)
    ensures CallsOk(m, loc)
  {
    hide QueuesOk;
    hide IdleOk;
    hide OwnersOk;
    hide CountOk;
    hide AllPcOk;
    forall t {:trigger ThreadOk(m, loc, t)} ensures ThreadOk(m, loc, t) {
      if t in loc {
        assert At(m.s, t, loc[t]);
      }
    }
  }

  lemma {:induction false} RunSimulates(m: Whole, loc: Locations, steps: seq<Step>, m': Whole)
    returns (loc': Locations, es: seq<Sem.Event>)
    requires WholeOk(m, loc) && Reaches(m, steps, m')
    ensures WholeOk(m', loc') && m.c in m.s.conds && Sem.Reaches(Abs(m, loc), es, Abs(m', loc'))
    decreases |steps|
  {
    hide Inv;
    hide Abs;
    if steps == [] {
      loc', es := loc, [];
    } else {
      StepSimulates(m, loc, steps[0]);
      var m1, loc1 := Apply(m, steps[0]), Moved(m, steps[0], loc);
      var rest;
      loc', rest := RunSimulates(m1, loc1, steps[1..], m');
      es := Seen(m, steps[0]) + rest;
      SemThen(Abs(m, loc), Seen(m, steps[0]), Abs(m1, loc1), rest, Abs(m', loc'));
    }
  }

  lemma {:induction false} SemThen(a: Sem.State, es: seq<Sem.Event>, b: Sem.State, fs: seq<Sem.Event>, d: Sem.State)
    requires Sem.Reaches(a, es, b) && Sem.Reaches(b, fs, d)
    ensures Sem.Reaches(a, es + fs, d)
    decreases |es|
  {
    if es == [] {
      assert es + fs == fs;
    } else {
      SemThen(Sem.Apply(a, es[0]), es[1..], b, fs, d);
      assert (es + fs)[1..] == es[1..] + fs;
    }
  }

  // A thread that a notify took off c's queue and that has not tested again.
  ghost predicate Awake(m: Whole, t: Tid)
    requires t in m.call
  {
    match m.call[t]
    case Out => false
    case Test(woken) => woken
    case InWait(woken) => woken || exists k :: 0 <= k < |m.s.pc| && m.s.pc[k].Notify? && t in m.s.pc[k].woken
  }

  ghost function AwakeThreads(m: Whole): set<Tid> {
    set t | t in m.call && Awake(m, t)
  }

  lemma PendingAwake(m: Whole, loc: Locations)
    requires CallsOk(m, loc)
    ensures |Sem.Pending(Abs(m, loc).pc)| <= |AwakeThreads(m)|
  {
    forall t | t in Sem.Pending(Abs(m, loc).pc) ensures t in AwakeThreads(m) {
      assert ThreadOk(m, loc, t);
    }
    Fewer(Sem.Pending(Abs(m, loc).pc), AwakeThreads(m));
  }

  lemma {:induction false} Fewer(a: set<Tid>, b: set<Tid>)
    requires a <= b
    ensures |a| <= |b|
  {
    assert b == a + (b - a);
  }

  // In every run of the scheduler with any number of cores and any other threads: while
  // threads wait on the semaphore's condition, every unit of the count has its own thread
  // that was woken and is on its way to test again.
  lemma NoLostWakeup(m0: Whole, steps: seq<Step>, m: Whole)
    requires Initial(m0) && Reaches(m0, steps, m)
    ensures m.c in m.s.conds && (m.s.conds[m.c].waiting != [] ==> m.count <= |AwakeThreads(m)|)
    ensures forall t :: t in m.s.conds[m.c].waiting ==> Caller(m, t)
  {
    hide Inv;
    var loc0 := StartsAs(m0);
    var loc, es := RunSimulates(m0, loc0, steps, m);
    hide Initial;
    hide Reaches;
    Sem.NoLostWakeup(Abs(m0, loc0), es, Abs(m, loc));
    PendingAwake(m, loc);
    hide Awake;
    forall t | t in m.s.conds[m.c].waiting ensures Caller(m, t) {
      assert t in Abs(m, loc).waiting && Abs(m, loc).pc[t] == Pcs.Parked;
    }
  }

  // How often up() and down() end in a run.
  function Ups(c: CondId, steps: seq<Step>): nat {
    if steps == [] then 0
    else (if steps[0].Do? && steps[0].e.NotifyOne? && steps[0].e.cond == c then 1 else 0) + Ups(c, steps[1..])
  }

  function Downs(steps: seq<Step>): nat {
    if steps == [] then 0 else (if steps[0].TestOk? then 1 else 0) + Downs(steps[1..])
  }

  // In every run the count is what up() added less what down() took.
  lemma {:induction false} UnitsKept(m0: Whole, steps: seq<Step>, m: Whole)
    requires Reaches(m0, steps, m)
    ensures m.c == m0.c && m.count + Downs(steps) == m0.count + Ups(m0.c, steps)
    decreases |steps|
  {
    if steps != [] {
      CountChanges(m0, steps[0]);
      hide Apply;
      hide Enabled;
      UnitsKept(Apply(m0, steps[0]), steps[1..], m);
    }
  }

  lemma CountChanges(m: Whole, step: Step)
    requires Enabled(m, step)
    ensures var m', up := Apply(m, step), step.Do? && step.e.NotifyOne? && step.e.cond == m.c;
      m'.c == m.c && m'.count == if step.TestOk? then m.count - 1 else if up then m.count + 1 else m.count
  {
    hide Scheduler.Enabled;
    hide Scheduler.Apply;
    hide Allowed;
    hide Resumed;
    hide MadeReady;
  }

  ghost predicate InDown(m: Whole, t: Tid) {
    t in m.call && !m.call[t].Out?
  }

  // How often thread t calls down(), and how often it takes a unit.
  ghost function Entries(m: Whole, steps: seq<Step>, t: Tid): nat
    decreases |steps|
  {
    if steps == [] || !Enabled(m, steps[0]) then 0
    else (if steps[0].Enter? && m.s.cur[steps[0].k] == t then 1 else 0) + Entries(Apply(m, steps[0]), steps[1..], t)
  }

  ghost function Takes(m: Whole, steps: seq<Step>, t: Tid): nat
    decreases |steps|
  {
    if steps == [] || !Enabled(m, steps[0]) then 0
    else (if steps[0].TestOk? && m.s.cur[steps[0].k] == t then 1 else 0) + Takes(Apply(m, steps[0]), steps[1..], t)
  }

  lemma StepInDown(m: Whole, loc: Locations, step: Step, t: Tid)
    requires WholeOk(m, loc) && Enabled(m, step)
    ensures DownChanges(m, step, t)
  {
    hide WholeOk;
    hide DownChanges;
    if step.Do? && step.e.WaitGiveUp? {
      GivesUpInside(m, loc, step.e.k);
    }
    CallChanges(m, step, t);
  }

  ghost predicate DownChanges(m: Whole, step: Step, t: Tid)
    requires Enabled(m, step)
  {
    var m' := Apply(m, step);
    if step.Enter? && m.s.cur[step.k] == t then !InDown(m, t) && InDown(m', t)
    else if step.TestOk? && m.s.cur[step.k] == t then InDown(m, t) && !InDown(m', t)
    else InDown(m', t) <==> InDown(m, t)
  }

  lemma GivesUpInside(m: Whole, loc: Locations, k: nat)
    requires WholeOk(m, loc) && Scheduler.Enabled(m.s, WaitGiveUp(k))
    ensures m.s.pc[k].cond == m.c ==> InDown(m, m.s.cur[k])
  {
    Core(m.s, loc, k);
    assert ThreadOk(m, loc, m.s.cur[k]);
    hide Inv;
  }

  lemma CallChanges(m: Whole, step: Step, t: Tid)
    requires Enabled(m, step)
    requires step.Do? && step.e.WaitGiveUp? && m.s.pc[step.e.k].cond == m.c ==> InDown(m, m.s.cur[step.e.k])
    ensures DownChanges(m, step, t)
  {
    hide Scheduler.Apply;
    match step
    case Enter(_) =>
    case TestOk(_) =>
    case Do(e) =>
      match e
      case WaitCapture(_, _) =>
      case Switch(_) =>
      case NotifyAdd(_) =>
      case _ =>
  }

  // A thread returns from down() by taking a unit, and in no other way: in every run it has
  // taken one for each of its calls, but for a call it is still in.
  lemma DownTakesOne(m0: Whole, steps: seq<Step>, m: Whole, t: Tid)
    requires Initial(m0) && Reaches(m0, steps, m)
    ensures Entries(m0, steps, t) == Takes(m0, steps, t) + (if InDown(m, t) then 1 else 0)
  {
    var loc0 := StartsAs(m0);
    TakesFrom(m0, loc0, steps, m, t);
  }

  lemma {:induction false} TakesFrom(m0: Whole, loc0: Locations, steps: seq<Step>, m: Whole, t: Tid)
    requires WholeOk(m0, loc0) && Reaches(m0, steps, m)
    ensures Entries(m0, steps, t) + (if InDown(m0, t) then 1 else 0) == Takes(m0, steps, t) + (if InDown(m, t) then 1 else 0)
    decreases |steps|
  {
    hide WholeOk;
    hide InDown;
    hide Enabled;
    hide Apply;
    hide Moved;
    if steps != [] {
      StepSimulates(m0, loc0, steps[0]);
      StepInDown(m0, loc0, steps[0], t);
      TakesFrom(Apply(m0, steps[0]), Moved(m0, steps[0], loc0), steps[1..], m, t);
    }
  }

  // A thread at the test in down() can always go on: it takes a unit if there is one, and
  // starts to wait if there is none.
  lemma TestGoesOn(m0: Whole, steps: seq<Step>, m: Whole, k: nat)
    requires Initial(m0) && Reaches(m0, steps, m) && AtTest(m, k) && m.call[m.s.cur[k]].Test? && !m.s.shutdown
    ensures if m.count > 0 then Enabled(m, TestOk(k)) else Enabled(m, Do(WaitCapture(k, m.c)))
  {
    hide Inv;
    hide CallsOk;
    hide Reaches;
    var loc0 := StartsAs(m0);
    hide Initial;
    var loc, es := RunSimulates(m0, loc0, steps, m);
    Core(m.s, loc, k);
    CoreCount(m.s, loc);
    CondThere(m, loc);
  }

  // A thread goes into the queue only while the count is zero, whatever ran on the other
  // cores between its test and its switch.
  lemma ParksOnlyAtZero(m0: Whole, steps: seq<Step>, m: Whole, k: nat)
    requires Initial(m0) && Reaches(m0, steps, m) && Enabled(m, Do(PostSwitch(k))) && m.c in m.s.conds
    requires var p := m.s.pc[k].prev; m.s.tcb[p].action == Wait(m.c) && m.s.tcb[p].condEpoch == m.s.conds[m.c].epoch
    ensures m.count == 0
  {
    hide Inv;
    hide CallsOk;
    hide Initial;
    hide Reaches;
    hide PcOf;
    var loc0 := StartsAs(m0);
    var loc, es := RunSimulates(m0, loc0, steps, m);
    SeeParks(m, loc, k);
    Sem.ParksOnlyAtZero(Abs(m0, loc0), es, Abs(m, loc), m.s.pc[k].prev);
  }

  lemma SeeParks(m: Whole, loc: Locations, k: nat)
    requires WholeOk(m, loc) && Enabled(m, Do(PostSwitch(k))) && m.c in m.s.conds
    requires var p := m.s.pc[k].prev; m.s.tcb[p].action == Wait(m.c) && m.s.tcb[p].condEpoch == m.s.conds[m.c].epoch
    ensures Sem.Enabled(Abs(m, loc), Sem.Park(m.s.pc[k].prev))
  {
    hide WholeOk;
    SeePark(m, loc, k, m.s.pc[k].prev, Scheduler.Apply(m.s, PostSwitch(k)));
  }
}

// A BlockingLock on the scheduler itself: its flag stands where the semaphore has its count,
// and only a thread that has taken the lock gives it back.
module BlockingLockOnScheduler {
  import opened Scheduler
  import Sem = SemaphoreOnScheduler

  // The scheduler, the lock's condition c and flag, the threads that use it, and the owners:
  // those that have returned from lock() and not called unlock() since.
  datatype Locking = Locking(s: State, c: CondId, locked: bool, call: map<Tid, Sem.Call>, owners: set<Tid>)

  // The lock as a semaphore that starts at one.
  ghost function AsSemaphore(l: Locking): Sem.Whole {
    Sem.Whole(l.s, l.c, if l.locked then 0 else 1, l.call)
  }

  ghost predicate Unlocks(l: Locking, step: Sem.Step) {
    step.Do? && step.e.NotifyOne? && step.e.cond == l.c
  }

  ghost predicate Enabled(l: Locking, step: Sem.Step) {
    match step
    case Enter(k) => Sem.AtTest(AsSemaphore(l), k) && l.call[l.s.cur[k]].Out?
    case TestOk(k) => Sem.AtTest(AsSemaphore(l), k) && l.call[l.s.cur[k]].Test? && !l.locked
    case Do(e) =>
      Scheduler.Enabled(l.s, e) && Sem.Allowed(AsSemaphore(l), e) && (Unlocks(l, step) ==> l.s.cur[e.k] in l.owners)
  }

  // The scheduler and the threads move as they do for a semaphore; the flag is set and
  // cleared by its own code.
  ghost function Apply(l: Locking, step: Sem.Step): Locking
    requires Enabled(l, step)
  {
    var m := Sem.Apply(AsSemaphore(l), step);
    var l' := l.(s := m.s, call := m.call);
    if step.TestOk? then l'.(locked := true, owners := l.owners + {l.s.cur[step.k]})
    else if Unlocks(l, step) then l'.(locked := false, owners := l.owners - {l.s.cur[step.e.k]})
    else l'
  }

  // The lock is taken exactly while one thread owns it.
  ghost predicate OneOwner(l: Locking) {
    |l.owners| == if l.locked then 1 else 0
  }

  lemma StepKeepsOwner(l: Locking, step: Sem.Step)
    requires OneOwner(l) && Enabled(l, step)
    ensures OneOwner(Apply(l, step)) && (Unlocks(l, step) ==> l.locked)
  {
    hide Sem.Apply;
    hide Sem.Allowed;
    if Unlocks(l, step) {
      Single(l.owners, l.s.cur[step.e.k]);
    } else if step.TestOk? {
      assert l.owners == {};
    }
  }

  // Only a test that succeeds and up() change a semaphore's counters.
  lemma Counters(m: Sem.Whole, step: Sem.Step)
    requires Sem.Enabled(m, step)
    ensures var m', up := Sem.Apply(m, step), step.Do? && step.e.NotifyOne? && step.e.cond == m.c;
      m' == m.(s := m'.s, call := m'.call, count := if step.TestOk? then m.count - 1 else if up then m.count + 1 else m.count)
    ensures !step.Do? ==> Sem.Apply(m, step).s == m.s
  {
    hide Scheduler.Enabled;
    hide Scheduler.Apply;
    hide Sem.Allowed;
    hide Sem.Resumed;
    hide Sem.MadeReady;
    match step
    case Enter(k) =>
    case TestOk(k) =>
    case Do(e) =>
      match e
      case NotifyOne(_, _) =>
      case WaitCapture(_, _) =>
      case _ =>
  }

  // Each step is the same step of the semaphore, and keeps the one owner.
  lemma StepRefines(l: Locking, step: Sem.Step)
    requires OneOwner(l) && Enabled(l, step)
    ensures Sem.Enabled(AsSemaphore(l), step)
    ensures AsSemaphore(Apply(l, step)) == Sem.Apply(AsSemaphore(l), step)
    ensures OneOwner(Apply(l, step))
  {
    StepKeepsOwner(l, step);
    hide OneOwner;
    Counters(AsSemaphore(l), step);
    hide Sem.Apply;
    hide Scheduler.Enabled;
    hide Sem.Allowed;
  }

  lemma Single(owners: set<Tid>, t: Tid)
    requires t in owners && |owners| <= 1
    ensures owners == {t} && |owners| == 1 && owners - {t} == {}
  {
    assert owners == {t} + (owners - {t}) && |owners| == 1 + |owners - {t}|;
  }

  ghost predicate Initial(l: Locking) {
    Sem.Initial(AsSemaphore(l)) && !l.locked && l.owners == {}
  }

  ghost predicate Reaches(l: Locking, steps: seq<Sem.Step>, l': Locking)
    decreases |steps|
  {
    if steps == [] then l' == l else Enabled(l, steps[0]) && Reaches(Apply(l, steps[0]), steps[1..], l')
  }

  // Every run of the lock on the scheduler is a run of the semaphore on the scheduler.
  lemma {:induction false} RunRefines(l: Locking, steps: seq<Sem.Step>, l': Locking)
    requires OneOwner(l) && Reaches(l, steps, l')
    ensures Sem.Reaches(AsSemaphore(l), steps, AsSemaphore(l')) && OneOwner(l')
    decreases |steps|
  {
    if steps != [] {
      StepRefines(l, steps[0]);
      hide Enabled;
      hide Apply;
      hide Sem.Apply;
      hide Sem.Enabled;
      hide OneOwner;
      RunRefines(Apply(l, steps[0]), steps[1..], l');
    }
  }

  // In every run of the scheduler with any number of cores and any other threads: at most one
  // thread owns the lock, unlock() finds it locked, and a free lock with threads parked on it
  // has a woken thread on its way to test it.
  lemma MutualExclusion(l0: Locking, steps: seq<Sem.Step>, l: Locking)
    requires Initial(l0) && Reaches(l0, steps, l)
    ensures forall t, u :: t in l.owners && u in l.owners ==> t == u
    ensures l.locked <==> l.owners != {}
    ensures forall step :: Enabled(l, step) && Unlocks(l, step) ==> l.locked
    ensures l.c in l.s.conds && forall t :: t in l.s.conds[l.c].waiting ==> Sem.Caller(AsSemaphore(l), t)
    ensures !l.locked && l.s.conds[l.c].waiting != [] ==> Sem.AwakeThreads(AsSemaphore(l)) != {}
  {
    RunRefines(l0, steps, l);
    Sem.NoLostWakeup(AsSemaphore(l0), steps, AsSemaphore(l));
    hide Sem.AwakeThreads;
    hide Reaches;
    hide Sem.Reaches;
    hide Sem.Initial;
    hide Sem.Allowed;
    hide Scheduler.Enabled;
    forall t, u | t in l.owners && u in l.owners ensures t == u {
      Single(l.owners, t);
    }
  }

  // A thread goes into the lock's queue only while the lock is taken.
  lemma ParksOnlyWhileLocked(l0: Locking, steps: seq<Sem.Step>, l: Locking, k: nat)
    requires Initial(l0) && Reaches(l0, steps, l) && Enabled(l, Sem.Do(PostSwitch(k))) && l.c in l.s.conds
    requires var p := l.s.pc[k].prev; l.s.tcb[p].action == Wait(l.c) && l.s.tcb[p].condEpoch == l.s.conds[l.c].epoch
    ensures l.locked
  {
    RunRefines(l0, steps, l);
    StepRefines(l, Sem.Do(PostSwitch(k)));
    Sem.ParksOnlyAtZero(AsSemaphore(l0), steps, AsSemaphore(l), k);
  }

  // How often thread t gives the lock back.
  ghost function Gives(l: Locking, steps: seq<Sem.Step>, t: Tid): nat
    decreases |steps|
  {
    if steps == [] || !Enabled(l, steps[0]) then 0
    else (if Unlocks(l, steps[0]) && l.s.cur[steps[0].e.k] == t then 1 else 0) + Gives(Apply(l, steps[0]), steps[1..], t)
  }

  // A thread returns from lock() as the owner, and in no other way, and owns the lock until
  // it calls unlock().
  lemma LockOwns(l0: Locking, steps: seq<Sem.Step>, l: Locking, t: Tid)
    requires Initial(l0) && Reaches(l0, steps, l)
    ensures var m0 := AsSemaphore(l0);
      Sem.Entries(m0, steps, t) == Sem.Takes(m0, steps, t) + (if Sem.InDown(AsSemaphore(l), t) then 1 else 0) &&
      Sem.Takes(m0, steps, t) == Gives(l0, steps, t) + (if t in l.owners then 1 else 0)
  {
    RunRefines(l0, steps, l);
    Sem.DownTakesOne(AsSemaphore(l0), steps, AsSemaphore(l), t);
    OwnsFrom(l0, steps, l, t);
  }

  lemma {:induction false} OwnsFrom(l0: Locking, steps: seq<Sem.Step>, l: Locking, t: Tid)
    requires OneOwner(l0) && Reaches(l0, steps, l)
    ensures Sem.Takes(AsSemaphore(l0), steps, t) + (if t in l0.owners then 1 else 0) ==
      Gives(l0, steps, t) + (if t in l.owners then 1 else 0)
    decreases |steps|
  {
    if steps != [] {
      StepRefines(l0, steps[0]);
      assert steps[0].TestOk? ==> t !in l0.owners;
      hide Sem.Apply;
      hide Sem.Enabled;
      hide OneOwner;
      OwnsFrom(Apply(l0, steps[0]), steps[1..], l, t);
    }
  }
}
