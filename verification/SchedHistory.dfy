// What threads asked the scheduler for, and what became of them: only a thread that called
// stop() is ever reaped, one that yielded stays ready, and one that waits when a condition is
// notified for all is never left in its queue.

module SchedulerHistory {
  import opened Basics
  import opened Scheduler

  // The call a thread is in: none, yield(), stop(), the event loop's own switch, or wait(),
  // with how often its condition had been notified, and for all, when it captured the epoch.
  datatype Call = Inside | Yielded | Stopped | Idled | Waits(cond: CondId, notified: nat, cleared: nat)

  // The calls, and how often each condition has been notified so far, and for all.
  datatype History = History(call: map<Tid, Call>, notified: map<CondId, nat>, cleared: map<CondId, nat>)

  function Count(m: map<CondId, nat>, c: CondId): nat {
    if c in m then m[c] else 0
  }

  // Kept from the events alone: who calls what, and who is switched to and so returns.
  ghost function Note(h: History, s: State, e: Event): History
    requires Enabled(s, e)
  {
    var t := s.cur[e.k];
    match e
    case YieldPick(_) => h.(call := h.call[t := Yielded])
    case StopPick(_) => h.(call := h.call[t := Stopped])
    case IdlePick(_) => h.(call := h.call[t := Idled])
    case WaitCapture(_, c) => h.(call := h.call[t := Waits(c, Count(h.notified, c), Count(h.cleared, c))])
    case WaitGiveUp(_) => h.(call := h.call[t := Inside])
    case Switch(k) => if k < |Apply(s, e).cur| then h.(call := h.call[Apply(s, e).cur[k] := Inside]) else h
    case NotifyOne(_, c) => h.(notified := h.notified[c := Count(h.notified, c) + 1])
    case NotifyAll(_, c) =>
      h.(notified := h.notified[c := Count(h.notified, c) + 1], cleared := h.cleared[c := Count(h.cleared, c) + 1])
    case MakeAlloc(_, u) => h.(call := h.call[u := Inside])
    case _ => h
  }

  // --- where a thread is while it is in a call -----------------------------------

  // The wait is over as soon as its condition has been notified since.
  ghost predicate Due(h: History, call: Call)
    requires call.Waits?
  {
    call.notified < Count(h.notified, call.cond)
  }

  ghost predicate Placed(s: State, h: History, t: Tid, p: Place)
    requires t in h.call
  {
    var call := h.call[t];
    match p
    case OnCore(k) => k < |s.pc| &&
      (match s.pc[k]
       case Picked(_, a) =>
         (a == Ready && call == Yielded) || (a == Stop && call == Stopped) || (a == NoAction && call == Idled) ||
         (a.Wait? && call.Waits? && a.cond == call.cond)
       case Captured(c) => call.Waits? && c == call.cond
       case _ => call == Inside)
    case InHand(k) => k < |s.pc| &&
      (match s.pc[k]
       case Picked(_, _) => call == Inside || call == Yielded || call == Idled || (call.Waits? && Due(h, call))
       case Post(_) => t in s.tcb &&
         (match s.tcb[t].action
          case Ready => call == Yielded
          case Stop => call == Stopped
          case NoAction => call == Idled
          case Wait(c) => call.Waits? && c == call.cond)
       case Requeue(_) => call.Waits? && Due(h, call)
       case Notify(_) => call.Waits? && Due(h, call)
       case _ => false)
    case Parked(_) => call == Idled
    case InReady => call == Inside || call == Yielded || (call.Waits? && Due(h, call))
    case InReaper => call == Stopped
    case BeingReaped(_) => call == Stopped
    case Waiting(c) => call.Waits? && c == call.cond && call.cleared == Count(h.cleared, c)
    case BeingMade(_) => call == Inside
  }

  // The epoch a waiting thread captured is the number of notifications then.
  ghost predicate EpochOk(s: State, h: History, t: Tid)
    requires t in h.call
  {
    var call := h.call[t];
    call.Waits? ==>
      t in s.tcb && s.tcb[t].condEpoch == call.notified <= Count(h.notified, call.cond) &&
      call.cleared <= Count(h.cleared, call.cond) && (call.cleared < Count(h.cleared, call.cond) ==> Due(h, call))
  }

  ghost predicate ThreadKept(s: State, loc: Locations, h: History, t: Tid) {
    t in loc ==> t in h.call && Placed(s, h, t, loc[t]) && EpochOk(s, h, t)
  }

  ghost predicate Kept(s: State, loc: Locations, h: History) {
    (forall c :: c in s.conds ==> s.conds[c].epoch == Count(h.notified, c)) &&
    forall t {:trigger ThreadKept(s, loc, h, t)} :: ThreadKept(s, loc, h, t)
  }

  // --- every step keeps it ----------------------------------------------------------

  // Core k's thread makes a call, and the oldest ready thread is in its hands.
  lemma PickKept(s: State, loc: Locations, h: History, k: nat, a: Action, s': State, h': History)
    requires Kept(s, loc, h) && CoreFacts(s, loc, k) && s.ready != []
    requires s' == s.(ready := s.ready[1..], pc := s.pc[k := Picked(s.ready[0], a)])
    requires if a.Wait? then s.pc[k] == Captured(a.cond) && h' == h else s.pc[k] == Run
    requires a == Ready ==> h' == h.(call := h.call[s.cur[k] := Yielded])
    requires a == Stop ==> h' == h.(call := h.call[s.cur[k] := Stopped])
    requires a == NoAction ==> h' == h.(call := h.call[s.cur[k] := Idled])
    ensures Kept(s', loc[s.ready[0] := InHand(k)], h')
  {
    var loc' := loc[s.ready[0] := InHand(k)];
    forall t {:trigger ThreadKept(s', loc', h', t)} ensures ThreadKept(s', loc', h', t) {
      assert ThreadKept(s, loc, h, t);
    }
  }

  lemma StopIdleKept(s: State, loc: Locations, h: History, k: nat, s': State, h': History)
    requires Kept(s, loc, h) && CoreFacts(s, loc, k) && s.pc[k] == Run
    requires k < |s.idle| && s.idle[k] in loc && loc[s.idle[k]] == Parked(k)
    requires s' == s.(pc := s.pc[k := Picked(s.idle[k], Stop)])
    requires h' == h.(call := h.call[s.cur[k] := Stopped])
    ensures Kept(s', loc[s.idle[k] := InHand(k)], h')
  {
    var loc' := loc[s.idle[k] := InHand(k)];
    forall t {:trigger ThreadKept(s', loc', h', t)} ensures ThreadKept(s', loc', h', t) {
      assert ThreadKept(s, loc, h, t);
    }
  }

  lemma CaptureKept(s: State, loc: Locations, h: History, k: nat, c: CondId, s': State, h': History)
    requires Kept(s, loc, h) && CoreFacts(s, loc, k) && s.pc[k] == Run && c in s.conds && s.cur[k] in s.tcb
    requires var t := s.cur[k];
      s' == s.(tcb := s.tcb[t := s.tcb[t].(condEpoch := s.conds[c].epoch)], pc := s.pc[k := Captured(c)]) &&
      h' == h.(call := h.call[t := Waits(c, Count(h.notified, c), Count(h.cleared, c))])
    ensures Kept(s', loc, h')
  {
    forall t {:trigger ThreadKept(s', loc, h', t)} ensures ThreadKept(s', loc, h', t) {
      assert ThreadKept(s, loc, h, t);
    }
  }

  lemma GiveUpKept(s: State, loc: Locations, h: History, k: nat, s': State, h': History)
    requires Kept(s, loc, h) && CoreFacts(s, loc, k) && s.pc[k].Captured?
    requires s' == s.(pc := s.pc[k := Run]) && h' == h.(call := h.call[s.cur[k] := Inside])
    ensures Kept(s', loc, h')
  {
    forall t {:trigger ThreadKept(s', loc, h', t)} ensures ThreadKept(s', loc, h', t) {
      assert ThreadKept(s, loc, h, t);
    }
  }

  lemma SwitchKept(s: State, loc: Locations, h: History, k: nat, s': State, h': History)
    requires Kept(s, loc, h) && CoreFacts(s, loc, k) && s.pc[k].Picked? && s.cur[k] in s.tcb
    requires var t, pc := s.cur[k], s.pc[k];
      s' == s.(tcb := s.tcb[t := s.tcb[t].(action := pc.action)], cur := s.cur[k := pc.next], pc := s.pc[k := Post(t)]) &&
      h' == h.(call := h.call[pc.next := Inside])
    ensures Kept(s', loc[s.cur[k] := InHand(k)][s.pc[k].next := OnCore(k)], h')
  {
    var loc' := loc[s.cur[k] := InHand(k)][s.pc[k].next := OnCore(k)];
    assert s.pc[k].next in Hand(s.pc[k]);
    forall t {:trigger ThreadKept(s', loc', h', t)} ensures ThreadKept(s', loc', h', t) {
      assert ThreadKept(s, loc, h, t);
    }
  }

  // post_switch of p, or the rest of it: p goes to a place that its call allows.
  lemma PostKept(s: State, loc: Locations, h: History, k: nat, p: Tid, place: Place, pc: Pc, s': State)
    requires Kept(s, loc, h) && CoreFacts(s, loc, k) && s.pc[k] == Post(p)
    requires s'.tcb == s.tcb && s'.pc == s.pc[k := pc] && (pc == Run || pc == Requeue(p))
    requires s'.conds.Keys == s.conds.Keys && forall c :: c in s.conds ==> s'.conds[c].epoch == s.conds[c].epoch
    requires p in h.call && Placed(s', h, p, place)
    ensures Kept(s', loc[p := place], h)
  {
    var loc' := loc[p := place];
    forall t {:trigger ThreadKept(s', loc', h, t)} ensures ThreadKept(s', loc', h, t) {
      assert ThreadKept(s, loc, h, t);
    }
  }

  // post_switch puts the thread it was left with where its call says.
  lemma PostPlaced(s: State, loc: Locations, h: History, k: nat)
    requires Kept(s, loc, h) && CoreFacts(s, loc, k) && Enabled(s, PostSwitch(k))
    ensures Kept(Apply(s, PostSwitch(k)), Relocate(s, PostSwitch(k), loc), h)
  {
    var p := s.pc[k].prev;
    assert p in Hand(s.pc[k]) && ThreadKept(s, loc, h, p);
    var s' := Apply(s, PostSwitch(k));
    hide Kept;
    match s.tcb[p].action
    case Ready => PostKept(s, loc, h, k, p, InReady, Run, s');
    case Stop => PostKept(s, loc, h, k, p, InReaper, Run, s');
    case NoAction => PostKept(s, loc, h, k, p, Parked(k), Run, s');
    case Wait(c) => WaitPlaced(s, loc, h, k, p, c, s');
  }

  lemma WaitPlaced(s: State, loc: Locations, h: History, k: nat, p: Tid, c: CondId, s': State)
    requires Kept(s, loc, h) && CoreFacts(s, loc, k) && s.pc[k] == Post(p) && p in s.tcb && s.tcb[p].action == Wait(c)
    requires c in s.conds
    requires var cond := s.conds[c];
      s' == if cond.epoch == s.tcb[p].condEpoch
            then s.(conds := s.conds[c := cond.(waiting := cond.waiting + [p])], pc := s.pc[k := Run])
            else s.(pc := s.pc[k := Requeue(p)])
    ensures Kept(s', if s.conds[c].epoch == s.tcb[p].condEpoch then loc[p := Waiting(c)] else loc, h)
  {
    assert p in Hand(s.pc[k]) && ThreadKept(s, loc, h, p);
    assert s.conds[c].epoch == Count(h.notified, c);
    hide Kept;
    if s.conds[c].epoch == s.tcb[p].condEpoch {
      PostKept(s, loc, h, k, p, Waiting(c), Run, s');
    } else {
      PostKept(s, loc, h, k, p, InHand(k), Requeue(p), s');
      assert loc[p := InHand(k)] == loc;
    }
  }

  // A thread in core k's hands becomes ready.
  lemma ReadyKept(s: State, loc: Locations, h: History, k: nat, u: Tid, rest: seq<Tid>, s': State)
    requires Kept(s, loc, h) && CoreFacts(s, loc, k)
    requires (s.pc[k] == Requeue(u) && rest == []) || (s.pc[k].Notify? && s.pc[k].woken == [u] + rest)
    requires s' == s.(ready := s.ready + [u], pc := s.pc[k := Woken(rest)])
    ensures Kept(s', loc[u := InReady], h)
  {
    var loc' := loc[u := InReady];
    assert u in Hand(s.pc[k]);
    forall t | t in Hand(s.pc[k]) && t != u ensures t in rest {
    }
    forall t {:trigger ThreadKept(s', loc', h, t)} ensures ThreadKept(s', loc', h, t) {
      assert ThreadKept(s, loc, h, t);
    }
  }

  // notify_one: the oldest waiter, if any, is in core k's hands.
  lemma NotifyOneKept(s: State, loc: Locations, h: History, k: nat, c: CondId, s': State, loc': Locations, h': History)
    requires Kept(s, loc, h) && CoreFacts(s, loc, k) && s.pc[k] == Run && c in s.conds
    requires s.conds[c].waiting != [] ==> s.conds[c].waiting[0] in loc && loc[s.conds[c].waiting[0]] == Waiting(c)
    requires var w := s.conds[c].waiting;
      s' == s.(conds := s.conds[c := Cond(s.conds[c].epoch + 1, if w == [] then [] else w[1..])],
               pc := s.pc[k := Woken(if w == [] then [] else [w[0]])]) &&
      loc' == if w == [] then loc else loc[w[0] := InHand(k)]
    requires h' == h.(notified := h.notified[c := Count(h.notified, c) + 1])
    ensures Kept(s', loc', h')
  {
    forall t {:trigger ThreadKept(s', loc', h', t)} ensures ThreadKept(s', loc', h', t) {
      assert ThreadKept(s, loc, h, t);
    }
  }

  // notify_all: every waiter is.
  lemma NotifyAllKept(s: State, loc: Locations, h: History, k: nat, c: CondId, s': State, h': History)
    requires Kept(s, loc, h) && CoreFacts(s, loc, k) && s.pc[k] == Run && c in s.conds
    requires forall t :: t in loc && loc[t] == Waiting(c) ==> t in s.conds[c].waiting
    requires s' == s.(conds := s.conds[c := Cond(s.conds[c].epoch + 1, [])], pc := s.pc[k := Woken(s.conds[c].waiting)])
    requires h' == h.(notified := h.notified[c := Count(h.notified, c) + 1], cleared := h.cleared[c := Count(h.cleared, c) + 1])
    ensures Kept(s', AllWoken(loc, k, c), h')
  {
    var loc' := AllWoken(loc, k, c);
    forall t {:trigger ThreadKept(s', loc', h', t)} ensures ThreadKept(s', loc', h', t) {
      assert ThreadKept(s, loc, h, t);
    }
  }

  // A thread that is not on a core or in anybody's hands comes, goes or moves.
  lemma OneKept(s: State, loc: Locations, h: History, u: Tid, place: Place, s': State, h': History)
    requires Kept(s, loc, h) && s'.pc == s.pc && s'.conds == s.conds
    requires forall t :: t in s.tcb && t != u ==> t in s'.tcb && s'.tcb[t] == s.tcb[t]
    requires forall t :: t in h.call && t != u ==> t in h'.call && h'.call[t] == h.call[t]
    requires h'.notified == h.notified && h'.cleared == h.cleared
    requires u in h'.call && Placed(s', h', u, place) && EpochOk(s', h', u)
    ensures Kept(s', loc[u := place], h')
  {
    var loc' := loc[u := place];
    forall t {:trigger ThreadKept(s', loc', h', t)} ensures ThreadKept(s', loc', h', t) {
      assert ThreadKept(s, loc, h, t);
    }
  }

  lemma FreedKept(s: State, loc: Locations, h: History, u: Tid, s': State)
    requires Kept(s, loc, h) && s'.pc == s.pc && s'.conds == s.conds && s'.tcb == s.tcb - {u}
    ensures Kept(s', loc - {u}, h)
  {
    var loc' := loc - {u};
    forall t {:trigger ThreadKept(s', loc', h, t)} ensures ThreadKept(s', loc', h, t) {
      assert ThreadKept(s, loc, h, t);
    }
  }

  lemma SameKept(s: State, loc: Locations, h: History, s': State)
    requires Kept(s, loc, h) && s'.pc == s.pc && s'.conds == s.conds && s'.tcb == s.tcb
    ensures Kept(s', loc, h)
  {
    forall t {:trigger ThreadKept(s', loc, h, t)} ensures ThreadKept(s', loc, h, t) {
      assert ThreadKept(s, loc, h, t);
    }
  }

  lemma WaitersThere(s: State, loc: Locations, c: CondId)
    requires Inv(s, loc) && c in s.conds
    ensures forall t :: t in loc && loc[t] == Waiting(c) <==> t in s.conds[c].waiting
  {
    forall t ensures t in loc && loc[t] == Waiting(c) <==> t in s.conds[c].waiting {
      assert At(s, t, Waiting(c)) <==> t in loc && loc[t] == Waiting(c);
    }
  }

  lemma ReaperThere(s: State, loc: Locations)
    requires Inv(s, loc) && s.reaper != []
    ensures s.reaper[0] in loc && loc[s.reaper[0]] == InReaper
  {
    assert At(s, s.reaper[0], InReaper);
  }

  lemma MadeThere(s: State, loc: Locations, t: Tid)
    requires Inv(s, loc) && t in s.making && s.making[t].Some?
    ensures s.making[t].value in loc && loc[s.making[t].value] == BeingMade(t)
  {
    assert At(s, s.making[t].value, BeingMade(t));
  }

  lemma ReapKept(s: State, loc: Locations, h: History, e: Event)
    requires Inv(s, loc) && Kept(s, loc, h) && Enabled(s, e) && (e.ReapPop? || e.ReapDealloc? || e.ReapCount?)
    ensures Kept(Apply(s, e), Relocate(s, e, loc), Note(h, s, e))
  {
    hide Inv;
    var t, s' := s.cur[e.k], Apply(s, e);
    match e
    case ReapPop(_) =>
      ReaperThere(s, loc);
      assert ThreadKept(s, loc, h, s.reaper[0]);
      OneKept(s, loc, h, s.reaper[0], BeingReaped(t), s', h);
    case ReapDealloc(_) => FreedKept(s, loc, h, s.reaping[t], s');
    case ReapCount(_) => SameKept(s, loc, h, s');
  }

  lemma MakeKept(s: State, loc: Locations, h: History, e: Event)
    requires Inv(s, loc) && Kept(s, loc, h) && Enabled(s, e) && (e.MakeBegin? || e.MakeAlloc?)
    ensures Kept(Apply(s, e), Relocate(s, e, loc), Note(h, s, e))
  {
    hide Inv;
    var t, s' := s.cur[e.k], Apply(s, e);
    match e
    case MakeBegin(_) => SameKept(s, loc, h, s');
    case MakeAlloc(_, u) => OneKept(s, loc, h, u, BeingMade(t), s', h.(call := h.call[u := Inside]));
  }

  lemma MadeKept(s: State, loc: Locations, h: History, e: Event)
    requires Inv(s, loc) && Kept(s, loc, h) && Enabled(s, e) && e.MakeReady?
    ensures Kept(Apply(s, e), Relocate(s, e, loc), Note(h, s, e))
  {
    hide Inv;
    var t, s' := s.cur[e.k], Apply(s, e);
    MadeThere(s, loc, t);
    assert ThreadKept(s, loc, h, s.making[t].value);
    OneKept(s, loc, h, s.making[t].value, InReady, s', h);
  }

  lemma NotifyKept(s: State, loc: Locations, h: History, e: Event)
    requires Inv(s, loc) && Kept(s, loc, h) && Enabled(s, e) && (e.NotifyOne? || e.NotifyAll?)
    ensures Kept(Apply(s, e), Relocate(s, e, loc), Note(h, s, e))
  {
    hide Inv;
    hide Kept;
    hide AllWoken;
    var k, c, s', loc', h' := e.k, e.cond, Apply(s, e), Relocate(s, e, loc), Note(h, s, e);
    Core(s, loc, k);
    WaitersThere(s, loc, c);
    if e.NotifyOne? {
      NotifyOneKept(s, loc, h, k, c, s', loc', h');
    } else {
      NotifyAllKept(s, loc, h, k, c, s', h');
    }
  }

  lemma AddKept(s: State, loc: Locations, h: History, e: Event)
    requires Inv(s, loc) && Kept(s, loc, h) && Enabled(s, e) && (e.NotifyAdd? || e.RequeueAdd?)
    ensures Kept(Apply(s, e), Relocate(s, e, loc), Note(h, s, e))
  {
    hide Inv;
    hide Kept;
    var k, s' := e.k, Apply(s, e);
    Core(s, loc, k);
    if e.NotifyAdd? {
      var w := s.pc[k].woken;
      assert w == [w[0]] + w[1..];
      ReadyKept(s, loc, h, k, w[0], w[1..], s');
    } else {
      ReadyKept(s, loc, h, k, s.pc[k].prev, [], s');
    }
  }

  lemma StepKept(s: State, loc: Locations, h: History, e: Event)
    requires Inv(s, loc) && Kept(s, loc, h) && Enabled(s, e)
    ensures Kept(Apply(s, e), Relocate(s, e, loc), Note(h, s, e))
  {
    var k, s', h' := e.k, Apply(s, e), Note(h, s, e);
    hide Kept;
    hide Inv;
    match e
    case YieldPick(_) =>
      Core(s, loc, k);
      PickKept(s, loc, h, k, Ready, s', h');
    case StopPick(_) =>
      Core(s, loc, k);
      if s.ready == [] {
        IdleParked(s, loc, k);
        StopIdleKept(s, loc, h, k, s', h');
      } else {
        PickKept(s, loc, h, k, Stop, s', h');
      }
    case IdlePick(_) =>
      Core(s, loc, k);
      PickKept(s, loc, h, k, NoAction, s', h');
    case WaitPick(_) =>
      Core(s, loc, k);
      PickKept(s, loc, h, k, Wait(s.pc[k].cond), s', h');
    case WaitCapture(_, c) =>
      Core(s, loc, k);
      CaptureKept(s, loc, h, k, c, s', h');
    case WaitGiveUp(_) =>
      Core(s, loc, k);
      GiveUpKept(s, loc, h, k, s', h');
    case Switch(_) =>
      Core(s, loc, k);
      SwitchKept(s, loc, h, k, s', h');
    case PostSwitch(_) =>
      Core(s, loc, k);
      PostPlaced(s, loc, h, k);
    case ReapPop(_) => ReapKept(s, loc, h, e);
    case ReapDealloc(_) => ReapKept(s, loc, h, e);
    case ReapCount(_) => ReapKept(s, loc, h, e);
    case MakeBegin(_) => MakeKept(s, loc, h, e);
    case MakeAlloc(_, _) => MakeKept(s, loc, h, e);
    case MakeReady(_) => MadeKept(s, loc, h, e);
    case NotifyOne(_, _) => NotifyKept(s, loc, h, e);
    case NotifyAll(_, _) => NotifyKept(s, loc, h, e);
    case NotifyAdd(_) => AddKept(s, loc, h, e);
    case RequeueAdd(_) => AddKept(s, loc, h, e);
  }

  // --- whole runs ---------------------------------------------------------------------

  // A run with what was noted on the way.
  ghost predicate Told(s0: State, h0: History, es: seq<Event>, s: State, h: History)
    decreases |es|
  {
    if es == [] then s == s0 && h == h0
    else Enabled(s0, es[0]) && Told(Apply(s0, es[0]), Note(h0, s0, es[0]), es[1..], s, h)
  }

  lemma {:induction false} Tell(s0: State, h0: History, es: seq<Event>, s: State) returns (h: History)
    requires Reaches(s0, es, s)
    ensures Told(s0, h0, es, s, h)
    decreases |es|
  {
    h := h0;
    if es != [] {
      h := Tell(Apply(s0, es[0]), Note(h0, s0, es[0]), es[1..], s);
    }
  }

  lemma {:induction false} Untold(s0: State, h0: History, es: seq<Event>, s: State, h: History)
    requires Told(s0, h0, es, s, h)
    ensures Reaches(s0, es, s)
    decreases |es|
  {
    if es != [] {
      Untold(Apply(s0, es[0]), Note(h0, s0, es[0]), es[1..], s, h);
    }
  }

  lemma {:induction false} ToldKept(s0: State, loc0: Locations, h0: History, es: seq<Event>, s: State, h: History)
    returns (loc: Locations)
    requires Inv(s0, loc0) && Kept(s0, loc0, h0) && Told(s0, h0, es, s, h)
    ensures Inv(s, loc) && Kept(s, loc, h)
    decreases |es|
  {
    hide Inv;
    hide Kept;
    loc := loc0;
    if es != [] {
      StepKeeps(s0, loc0, es[0]);
      StepKept(s0, loc0, h0, es[0]);
      loc := ToldKept(Apply(s0, es[0]), Relocate(s0, es[0], loc0), Note(h0, s0, es[0]), es[1..], s, h);
    }
  }

  // At the start every core is in its event loop.
  ghost function Start(s: State): History {
    History(map t | t in s.tcb :: Inside, map[], map[])
  }

  lemma StartKept(s: State) returns (loc: Locations)
    requires Initial(s)
    ensures Inv(s, loc) && Kept(s, loc, Start(s))
  {
    loc := InitialInv(s);
    StartPlaced(s, loc);
    hide Inv;
    hide Initial;
  }

  lemma StartPlaced(s: State, loc: Locations)
    requires Initial(s) && Inv(s, loc)
    ensures Kept(s, loc, Start(s))
  {
    forall t {:trigger ThreadKept(s, loc, Start(s), t)} ensures ThreadKept(s, loc, Start(s), t) {
      if t in loc {
        StartPlace(s, loc, t);
      }
    }
    hide Inv;
    hide ThreadKept;
  }

  lemma StartPlace(s: State, loc: Locations, t: Tid)
    requires Initial(s) && Inv(s, loc) && t in loc
    ensures ThreadKept(s, loc, Start(s), t)
  {
    OnePlace(s, loc, t, loc[t]);
    LocatedKeys(s, loc);
    hide Inv;
  }

  // In every run each thread is where the call it is in puts it: in nobody's queue while it
  // runs, ready while it yields, and so on.
  lemma CallsKept(s0: State, es: seq<Event>, s: State, h: History, t: Tid, p: Place)
    requires Initial(s0) && Told(s0, Start(s0), es, s, h) && At(s, t, p)
    ensures t in h.call && Placed(s, h, t, p)
  {
    var loc0 := StartKept(s0);
    hide Inv;
    var loc := ToldKept(s0, loc0, Start(s0), es, s, h);
    OnePlace(s, loc, t, p);
    assert ThreadKept(s, loc, h, t);
  }

  lemma OnePlace(s: State, loc: Locations, t: Tid, p: Place)
    requires Inv(s, loc)
    ensures At(s, t, p) <==> t in loc && loc[t] == p
  {
  }

  // --- only a thread that called stop() is reaped ---------------------------------------

  ghost predicate Stays(s: State, h: History, es: seq<Event>, t: Tid)
    decreases |es|
  {
    t in h.call && h.call[t] == Stopped &&
    (es == [] || (Enabled(s, es[0]) && Stays(Apply(s, es[0]), Note(h, s, es[0]), es[1..], t)))
  }

  // A thread that counts as stopped at the end has called stop() and nothing since.
  lemma {:induction false} CalledStop(s0: State, h0: History, es: seq<Event>, s: State, h: History, t: Tid)
    returns (before: seq<Event>, k: nat, s1: State, h1: History, after: seq<Event>)
    requires Told(s0, h0, es, s, h) && t in h.call && h.call[t] == Stopped && !Stays(s0, h0, es, t)
    ensures es == before + [StopPick(k)] + after && Told(s0, h0, before, s1, h1)
    ensures Enabled(s1, StopPick(k)) && s1.cur[k] == t
    ensures Told(Apply(s1, StopPick(k)), Note(h1, s1, StopPick(k)), after, s, h)
    ensures Stays(Apply(s1, StopPick(k)), Note(h1, s1, StopPick(k)), after, t)
    decreases |es|
  {
    hide Apply;
    hide Note;
    hide Enabled;
    var e := es[0];
    var sx, hx := Apply(s0, e), Note(h0, s0, e);
    if Stays(sx, hx, es[1..], t) {
      before, k, s1, h1, after := [], e.k, s0, h0, es[1..];
      NotedStop(h0, s0, e, t);
    } else {
      before, k, s1, h1, after := CalledStop(sx, hx, es[1..], s, h, t);
      before := [e] + before;
      assert before[0] == e && before[1..] + [StopPick(k)] + after == es[1..];
    }
  }

  lemma NotedStop(h: History, s: State, e: Event, t: Tid)
    requires Enabled(s, e) && !(t in h.call && h.call[t] == Stopped)
    requires t in Note(h, s, e).call && Note(h, s, e).call[t] == Stopped
    ensures e == StopPick(e.k) && s.cur[e.k] == t
  {
    hide Apply;
  }

  // Then comes the switch away from it.
  lemma {:induction false} LeavesCore(s: State, h: History, es: seq<Event>, s': State, h': History, t: Tid, k: nat)
    returns (between: seq<Event>, s2: State, h2: History, after: seq<Event>)
    requires Told(s, h, es, s', h') && Stays(s, h, es, t) && k < |s.cur| && s.cur[k] == t && t !in s'.cur
    ensures es == between + [Switch(k)] + after && Told(s, h, between, s2, h2)
    ensures Enabled(s2, Switch(k)) && s2.cur[k] == t
    ensures Told(Apply(s2, Switch(k)), Note(h2, s2, Switch(k)), after, s', h')
    ensures Stays(Apply(s2, Switch(k)), Note(h2, s2, Switch(k)), after, t)
    ensures Switched(s2, k, t)
    decreases |es|
  {
    hide Apply;
    hide Note;
    hide Enabled;
    hide Switched;
    var e := es[0];
    var sx, hx := Apply(s, e), Note(h, s, e);
    if e == Switch(k) {
      between, s2, h2, after := [], s, h, es[1..];
      AwayFrom(s, h, es[1..], k, t);
    } else {
      CoreKept(s, e, k);
      between, s2, h2, after := LeavesCore(sx, hx, es[1..], s', h', t, k);
      between := [e] + between;
      assert between[0] == e && between[1..] + [Switch(k)] + after == es[1..];
    }
  }

  // The switch goes to another thread.
  ghost predicate Switched(s: State, k: nat, t: Tid) {
    Enabled(s, Switch(k)) && s.pc[k].next != t
  }

  lemma AwayFrom(s: State, h: History, es: seq<Event>, k: nat, t: Tid)
    requires Enabled(s, Switch(k)) && Stays(Apply(s, Switch(k)), Note(h, s, Switch(k)), es, t)
    ensures Switched(s, k, t)
  {
  }

  lemma CoreKept(s: State, e: Event, k: nat)
    requires Enabled(s, e) && k < |s.cur| && e != Switch(k)
    ensures k < |Apply(s, e).cur| && Apply(s, e).cur[k] == s.cur[k]
  {
    match e
    case Switch(_) =>
    case PostSwitch(_) =>
    case _ =>
  }

  // It is never switched to again.
  lemma {:induction false} NotBack(s: State, h: History, es: seq<Event>, s': State, t: Tid)
    requires Stays(s, h, es, t) && Reaches(s, es, s') && t !in s.cur
    ensures t !in s'.cur
    decreases |es|
  {
    if es != [] {
      NoArrival(s, h, es[0], t);
      NotBack(Apply(s, es[0]), Note(h, s, es[0]), es[1..], s', t);
    }
  }

  lemma NoArrival(s: State, h: History, e: Event, t: Tid)
    requires Enabled(s, e) && t !in s.cur && t in Note(h, s, e).call && Note(h, s, e).call[t] == Stopped
    ensures t !in Apply(s, e).cur
  {
    match e
    case Switch(k) => assert Apply(s, e).cur == s.cur[k := Apply(s, e).cur[k]];
    case PostSwitch(_) =>
    case _ => assert Apply(s, e).cur == s.cur;
  }

  lemma {:induction false} StaysPrefix(s: State, h: History, es: seq<Event>, t: Tid, i: nat, s': State) returns (h': History)
    requires Stays(s, h, es, t) && i <= |es| && Reaches(s, es[..i], s')
    ensures Stays(s, h, es[..i], t) && Told(s, h, es[..i], s', h') && t in h'.call && h'.call[t] == Stopped
    decreases i
  {
    h' := h;
    if i > 0 {
      assert es[..i][0] == es[0] && es[..i][1..] == es[1..][..i - 1];
      h' := StaysPrefix(Apply(s, es[0]), Note(h, s, es[0]), es[1..], t, i - 1, s');
    }
  }

  // The thread's life is over: it is still in the hands of the core that switched away from
  // it, or waits to be reaped, or is being reaped, or is gone.
  ghost predicate Ended(s: State, t: Tid) {
    t !in s.cur &&
    forall p {:trigger At(s, t, p)} :: At(s, t, p) ==>
      p.InReaper? || p.BeingReaped? || (p.InHand? && p.core < |s.pc| && s.pc[p.core].Post?)
  }

  ghost predicate ToReap(s: State, t: Tid) {
    t in s.reaper || exists u :: u in s.reaping && s.reaping[u] == t
  }

  lemma ToReapAt(s: State, t: Tid) returns (p: Place)
    requires ToReap(s, t)
    ensures At(s, t, p) && (p.InReaper? || p.BeingReaped?)
  {
    if t in s.reaper {
      p := InReaper;
    } else {
      var u :| u in s.reaping && s.reaping[u] == t;
      p := BeingReaped(u);
    }
  }

  lemma EndedNow(s: State, loc: Locations, h: History, es: seq<Event>, t: Tid, i: nat, s': State)
    requires Inv(s, loc) && Kept(s, loc, h) && Stays(s, h, es, t) && t !in s.cur && i <= |es| && Reaches(s, es[..i], s')
    ensures Ended(s', t)
  {
    hide Inv;
    hide Kept;
    var h' := StaysPrefix(s, h, es, t, i, s');
    NotBack(s, h, es[..i], s', t);
    var loc' := ToldKept(s, loc, h, es[..i], s', h');
    StoppedPlaces(s', loc', h', t);
  }

  lemma StoppedPlaces(s: State, loc: Locations, h: History, t: Tid)
    requires Inv(s, loc) && Kept(s, loc, h) && t in h.call && h.call[t] == Stopped && t !in s.cur
    ensures Ended(s, t)
  {
    hide Inv;
    forall p {:trigger At(s, t, p)} | At(s, t, p)
      ensures p.InReaper? || p.BeingReaped? || (p.InHand? && p.core < |s.pc| && s.pc[p.core].Post?)
    {
      OnePlace(s, loc, t, p);
      assert ThreadKept(s, loc, h, t);
    }
  }

  lemma OffCore(s0: State, es: seq<Event>, s: State, t: Tid, p: Place)
    requires Initial(s0) && Reaches(s0, es, s) && At(s, t, p) && !p.OnCore?
    ensures t !in s.cur
  {
    ExactlyOnePlace(s0, es, s, t);
    if t in s.cur {
      var k :| 0 <= k < |s.cur| && s.cur[k] == t;
      assert At(s, t, OnCore(k));
    }
  }

  lemma SwitchedOff(s: State, loc: Locations, k: nat, t: Tid)
    requires Inv(s, loc) && Switched(s, k, t) && s.cur[k] == t
    ensures t !in Apply(s, Switch(k)).cur
  {
    hide QueuesOk;
    hide IdleOk;
    hide OwnersOk;
    hide CountOk;
    hide AllPcOk;
    forall j | 0 <= j < |s.cur| && j != k ensures s.cur[j] != t {
      assert At(s, s.cur[j], OnCore(j)) && At(s, t, OnCore(k));
    }
  }

  // The stop() of a thread that is to be reaped, and all that came after it.
  lemma AfterStop(s0: State, es: seq<Event>, s: State, t: Tid)
    returns (before: seq<Event>, k: nat, s1: State, h1: History, loc1: Locations, rest: seq<Event>, h: History)
    requires Initial(s0) && Reaches(s0, es, s) && ToReap(s, t)
    ensures es == before + [StopPick(k)] + rest && Reaches(s0, before, s1)
    ensures Enabled(s1, StopPick(k)) && s1.cur[k] == t && t !in s.cur && Inv(s1, loc1) && Kept(s1, loc1, h1)
    ensures Told(Apply(s1, StopPick(k)), Note(h1, s1, StopPick(k)), rest, s, h)
    ensures Stays(Apply(s1, StopPick(k)), Note(h1, s1, StopPick(k)), rest, t)
  {
    var place := ToReapAt(s, t);
    OffCore(s0, es, s, t, place);
    h := Tell(s0, Start(s0), es, s);
    CallsKept(s0, es, s, h, t, place);
    assert !Stays(s0, Start(s0), es, t);
    var loc0 := StartKept(s0);
    hide Initial;
    hide Inv;
    hide Kept;
    hide Reaches;
    hide ToReap;
    hide Placed;
    hide Apply;
    hide Note;
    before, k, s1, h1, rest := CalledStop(s0, Start(s0), es, s, h, t);
    hide Start;
    Untold(s0, Start(s0), before, s1, h1);
    loc1 := ToldKept(s0, loc0, Start(s0), before, s1, h1);
  }

  // In every run, a thread that is to be reaped, or is being freed, has called stop(); then
  // its core switched to another thread; and since then it has been on no core, in no queue
  // but the reaper's, and in no condition.
  lemma OnlyStoppedReaped(s0: State, es: seq<Event>, s: State, t: Tid)
    returns (before: seq<Event>, k: nat, s1: State, between: seq<Event>, s2: State, after: seq<Event>)
    requires Initial(s0) && Reaches(s0, es, s) && ToReap(s, t)
    ensures es == before + [StopPick(k)] + between + [Switch(k)] + after
    ensures Reaches(s0, before, s1) && Enabled(s1, StopPick(k)) && s1.cur[k] == t
    ensures Reaches(Apply(s1, StopPick(k)), between, s2) && Enabled(s2, Switch(k)) && s2.cur[k] == t
    ensures Reaches(Apply(s2, Switch(k)), after, s)
    ensures forall i: nat, s3 :: i <= |after| && Reaches(Apply(s2, Switch(k)), after[..i], s3) ==> Ended(s3, t)
  {
    hide Initial;
    hide Inv;
    hide Kept;
    hide Reaches;
    hide Told;
    hide Stays;
    hide Ended;
    hide ToReap;
    var h1, loc1, rest, h;
    before, k, s1, h1, loc1, rest, h := AfterStop(s0, es, s, t);
    StepKeeps(s1, loc1, StopPick(k));
    StepKept(s1, loc1, h1, StopPick(k));
    CoreKept(s1, StopPick(k), k);
    hide Apply;
    hide Note;
    hide Relocate;
    between, s2, after := SwitchedAway(Apply(s1, StopPick(k)), Relocate(s1, StopPick(k), loc1), Note(h1, s1, StopPick(k)),
                                       rest, s, h, t, k);
    assert es == before + [StopPick(k)] + between + [Switch(k)] + after;
  }

  lemma SwitchedAway(s: State, loc: Locations, h: History, es: seq<Event>, s': State, h': History, t: Tid, k: nat)
    returns (between: seq<Event>, s2: State, after: seq<Event>)
    requires Inv(s, loc) && Kept(s, loc, h) && Told(s, h, es, s', h') && Stays(s, h, es, t)
    requires k < |s.cur| && s.cur[k] == t && t !in s'.cur
    ensures es == between + [Switch(k)] + after
    ensures Reaches(s, between, s2) && Enabled(s2, Switch(k)) && s2.cur[k] == t
    ensures Reaches(Apply(s2, Switch(k)), after, s')
    ensures forall i: nat, s3 :: i <= |after| && Reaches(Apply(s2, Switch(k)), after[..i], s3) ==> Ended(s3, t)
  {
    hide Inv;
    hide Kept;
    hide Ended;
    var h2;
    between, s2, h2, after := LeavesCore(s, h, es, s', h', t, k);
    Untold(s, h, between, s2, h2);
    var loc2 := ToldKept(s, loc, h, between, s2, h2);
    StepKeeps(s2, loc2, Switch(k));
    StepKept(s2, loc2, h2, Switch(k));
    SwitchedOff(s2, loc2, k, t);
    hide Reaches;
    hide Told;
    hide Stays;
    var sy, locy, hy := Apply(s2, Switch(k)), Relocate(s2, Switch(k), loc2), Note(h2, s2, Switch(k));
    hide Apply;
    hide Note;
    hide Relocate;
    Untold(sy, hy, after, s', h');
    forall i: nat, s3 | i <= |after| && Reaches(sy, after[..i], s3) ensures Ended(s3, t) {
      EndedNow(sy, locy, hy, after, t, i, s3);
    }
  }

  // --- a thread that yielded, or waits -------------------------------------------------

  // No step of the run returns to t: it is not switched to, and does not give up waiting.
  ghost predicate Returns(s: State, e: Event, t: Tid)
    requires Enabled(s, e)
  {
    var s' := Apply(s, e);
    (e.Switch? && e.k < |s'.cur| && s'.cur[e.k] == t) || (e.WaitGiveUp? && s.cur[e.k] == t)
  }

  ghost predicate Away(s: State, es: seq<Event>, t: Tid)
    decreases |es|
  {
    es == [] || (Enabled(s, es[0]) && !Returns(s, es[0], t) && Away(Apply(s, es[0]), es[1..], t))
  }

  // Until then it stays in its call, and is never freed.
  lemma CallStays(s: State, loc: Locations, h: History, e: Event, t: Tid)
    requires Inv(s, loc) && Kept(s, loc, h) && Enabled(s, e) && t in loc && t in h.call
    requires (h.call[t] == Yielded || h.call[t].Waits?) && !Returns(s, e, t)
    ensures t in Relocate(s, e, loc) && t in Note(h, s, e).call && Note(h, s, e).call[t] == h.call[t]
  {
    Core(s, loc, e.k);
    assert ThreadKept(s, loc, h, t);
    if s.cur[e.k] == t {
      OnCoreInCall(s, loc, h, e.k);
    }
    NotFreed(s, loc, h, e, t);
    hide Inv;
    hide Kept;
    hide Relocate;
    NoteStays(s, h, e, t);
  }

  // A thread in such a call is on a core only just before the switch.
  lemma OnCoreInCall(s: State, loc: Locations, h: History, k: nat)
    requires CoreFacts(s, loc, k) && ThreadKept(s, loc, h, s.cur[k])
    requires h.call[s.cur[k]] == Yielded || h.call[s.cur[k]].Waits?
    ensures s.pc[k].Picked? || s.pc[k].Captured?
  {
  }

  lemma NotFreed(s: State, loc: Locations, h: History, e: Event, t: Tid)
    requires Inv(s, loc) && Enabled(s, e) && ThreadKept(s, loc, h, t) && t in loc
    requires h.call[t] == Yielded || h.call[t].Waits?
    ensures t in Relocate(s, e, loc)
  {
    if e.ReapDealloc? {
      OnePlace(s, loc, s.reaping[s.cur[e.k]], BeingReaped(s.cur[e.k]));
      assert loc[t] != BeingReaped(s.cur[e.k]);
    }
    hide Inv;
    hide ThreadKept;
    hide Apply;
    RelocateKeeps(s, loc, e, t);
  }

  lemma RelocateKeeps(s: State, loc: Locations, e: Event, t: Tid)
    requires Enabled(s, e) && t in loc && (e.ReapDealloc? ==> s.reaping[s.cur[e.k]] != t)
    ensures t in Relocate(s, e, loc)
  {
    hide Apply;
    match e
    case NotifyAll(_, _) =>
    case ReapDealloc(_) =>
    case PostSwitch(_) =>
    case _ =>
  }

  lemma NoteStays(s: State, h: History, e: Event, t: Tid)
    requires Enabled(s, e) && !Returns(s, e, t) && t in h.call && t in s.tcb
    requires s.cur[e.k] == t ==> s.pc[e.k].Picked? || s.pc[e.k].Captured?
    ensures t in Note(h, s, e).call && Note(h, s, e).call[t] == h.call[t]
  {
    hide Apply;
  }

  lemma {:induction false} CallLasts(s: State, loc: Locations, h: History, es: seq<Event>, s': State, t: Tid)
    returns (loc': Locations, h': History)
    requires Inv(s, loc) && Kept(s, loc, h) && Reaches(s, es, s') && Away(s, es, t) && t in loc && t in h.call
    requires h.call[t] == Yielded || h.call[t].Waits?
    ensures Inv(s', loc') && Kept(s', loc', h') && t in loc' && t in h'.call && h'.call[t] == h.call[t]
    ensures Told(s, h, es, s', h')
    decreases |es|
  {
    loc', h' := loc, h;
    if es != [] {
      hide Inv;
      hide Kept;
      StepKeeps(s, loc, es[0]);
      StepKept(s, loc, h, es[0]);
      CallStays(s, loc, h, es[0], t);
      hide Apply;
      hide Note;
      hide Relocate;
      loc', h' := CallLasts(Apply(s, es[0]), Relocate(s, es[0], loc), Note(h, s, es[0]), es[1..], s', t);
    }
  }

  // A state in the middle of a run, with what has been noted.
  lemma Midway(s0: State, es: seq<Event>, s: State) returns (loc: Locations, h: History)
    requires Initial(s0) && Reaches(s0, es, s)
    ensures Inv(s, loc) && Kept(s, loc, h)
  {
    hide Inv;
    var loc0 := StartKept(s0);
    h := Tell(s0, Start(s0), es, s);
    loc := ToldKept(s0, loc0, Start(s0), es, s, h);
  }

  // In every run, a thread that has called yield() and not returned is ready, or still in the
  // hands of the core it left, or the next that some core switches to: never reaped, never
  // waiting, and never forgotten.
  lemma YieldedIsReady(s0: State, before: seq<Event>, s1: State, k: nat, after: seq<Event>, s: State) returns (p: Place)
    requires Initial(s0) && Reaches(s0, before, s1) && Enabled(s1, YieldPick(k))
    requires Reaches(Apply(s1, YieldPick(k)), after, s) && Away(Apply(s1, YieldPick(k)), after, s1.cur[k])
    ensures At(s, s1.cur[k], p)
    ensures p == InReady || (p.OnCore? && p.core < |s.pc| && s.pc[p.core].Picked?) ||
      (p.InHand? && p.core < |s.pc| && (s.pc[p.core] == Post(s1.cur[k]) || s.pc[p.core].Picked?))
  {
    var t, sx := s1.cur[k], Apply(s1, YieldPick(k));
    var loc1, h1 := Midway(s0, before, s1);
    hide Inv;
    hide Kept;
    StepKeeps(s1, loc1, YieldPick(k));
    StepKept(s1, loc1, h1, YieldPick(k));
    Core(s1, loc1, k);
    var locx, hx := Relocate(s1, YieldPick(k), loc1), Note(h1, s1, YieldPick(k));
    assert t in locx && t in hx.call && hx.call[t] == Yielded;
    var loc, h := CallLasts(sx, locx, hx, after, s, t);
    p := loc[t];
    YieldPlace(s, loc, h, t);
  }

  lemma YieldPlace(s: State, loc: Locations, h: History, t: Tid)
    requires Inv(s, loc) && Kept(s, loc, h) && t in loc && t in h.call && h.call[t] == Yielded
    ensures var p := loc[t];
      At(s, t, p) && (p == InReady || (p.OnCore? && p.core < |s.pc| && s.pc[p.core].Picked?) ||
                      (p.InHand? && p.core < |s.pc| && (s.pc[p.core] == Post(t) || s.pc[p.core].Picked?)))
  {
    OnePlace(s, loc, t, loc[t]);
    hide Inv;
    assert ThreadKept(s, loc, h, t);
  }

  // In every run, a thread that captured a condition's epoch before the condition was
  // notified for all is not in its queue afterwards, however late it came to be queued, until
  // it has returned from wait().
  lemma NotifyAllReachesAll(s0: State, before: seq<Event>, s1: State, k: nat, c: CondId,
                            between: seq<Event>, s2: State, j: nat, after: seq<Event>, s: State)
    requires Initial(s0) && Reaches(s0, before, s1) && Enabled(s1, WaitCapture(k, c))
    requires var sx := Apply(s1, WaitCapture(k, c)); Reaches(sx, between, s2) && Away(sx, between, s1.cur[k])
    requires Enabled(s2, NotifyAll(j, c))
    requires var sy := Apply(s2, NotifyAll(j, c)); Reaches(sy, after, s) && Away(sy, after, s1.cur[k])
    ensures s1.cur[k] in s.tcb && !At(s, s1.cur[k], Waiting(c))
  {
    var t, sx := s1.cur[k], Apply(s1, WaitCapture(k, c));
    var loc1, h1 := Midway(s0, before, s1);
    hide Inv;
    hide Kept;
    StepKeeps(s1, loc1, WaitCapture(k, c));
    StepKept(s1, loc1, h1, WaitCapture(k, c));
    Core(s1, loc1, k);
    var locx, hx := Relocate(s1, WaitCapture(k, c), loc1), Note(h1, s1, WaitCapture(k, c));
    assert t in locx && t in hx.call && hx.call[t].Waits? && hx.call[t].cond == c;
    var loc2, h2 := CallLasts(sx, locx, hx, between, s2, t);
    ClearedSince(s2, loc2, h2, t, c, j, after, s);
  }

  lemma ClearedNow(s: State, loc: Locations, h: History, t: Tid, c: CondId, j: nat)
    requires Kept(s, loc, h) && t in loc && t in h.call && h.call[t].Waits? && h.call[t].cond == c
    requires Enabled(s, NotifyAll(j, c))
    ensures h.call[t].cleared < Count(Note(h, s, NotifyAll(j, c)).cleared, c) && !Returns(s, NotifyAll(j, c), t)
  {
    assert ThreadKept(s, loc, h, t);
    hide Apply;
  }

  // From the notification on.
  lemma ClearedSince(s: State, loc: Locations, h: History, t: Tid, c: CondId, j: nat, es: seq<Event>, s': State)
    requires Inv(s, loc) && Kept(s, loc, h) && t in loc && t in h.call && h.call[t].Waits? && h.call[t].cond == c
    requires Enabled(s, NotifyAll(j, c))
    requires var sy := Apply(s, NotifyAll(j, c)); Reaches(sy, es, s') && Away(sy, es, t)
    ensures t in s'.tcb && !At(s', t, Waiting(c))
  {
    var e := NotifyAll(j, c);
    var sy, locy, hy := Apply(s, e), Relocate(s, e, loc), Note(h, s, e);
    ClearedNow(s, loc, h, t, c, j);
    hide Inv;
    hide Kept;
    hide Apply;
    hide Note;
    hide Relocate;
    hide Returns;
    StepKeeps(s, loc, e);
    StepKept(s, loc, h, e);
    CallStays(s, loc, h, e, t);
    var loc', h' := CallLasts(sy, locy, hy, es, s', t);
    CountsGrow(sy, hy, es, s', h', c);
    QueuedSince(s', loc', h', t, c);
  }

  lemma {:induction false} CountsGrow(s: State, h: History, es: seq<Event>, s': State, h': History, c: CondId)
    requires Told(s, h, es, s', h')
    ensures Count(h.cleared, c) <= Count(h'.cleared, c)
    decreases |es|
  {
    if es != [] {
      CountsGrow(Apply(s, es[0]), Note(h, s, es[0]), es[1..], s', h', c);
    }
  }

  lemma QueuedSince(s: State, loc: Locations, h: History, t: Tid, c: CondId)
    requires Inv(s, loc) && Kept(s, loc, h) && t in loc && t in h.call
    requires h.call[t].Waits? && h.call[t].cleared < Count(h.cleared, c)
    ensures t in s.tcb && !At(s, t, Waiting(c))
  {
    OnePlace(s, loc, t, Waiting(c));
    LocatedKeys(s, loc);
    hide Inv;
    assert ThreadKept(s, loc, h, t);
  }

  // --- turns --------------------------------------------------------------------------

  // A core takes the oldest ready thread.
  ghost predicate Picks(s: State, e: Event) {
    e.YieldPick? || e.IdlePick? || e.WaitPick? || (e.StopPick? && s.ready != [])
  }

  ghost function PickCount(s: State, es: seq<Event>): nat
    decreases |es|
  {
    if es == [] || !Enabled(s, es[0]) then 0
    else (if Picks(s, es[0]) then 1 else 0) + PickCount(Apply(s, es[0]), es[1..])
  }

  lemma TurnStep(s: State, e: Event, i: nat)
    requires Enabled(s, e) && i < |s.ready|
    ensures Picks(s, e) && i == 0 ==>
      e.k < |Apply(s, e).pc| && Apply(s, e).pc[e.k].Picked? && Apply(s, e).pc[e.k].next == s.ready[0]
    ensures var n := if Picks(s, e) then 1 else 0;
      n <= i ==> i - n < |Apply(s, e).ready| && Apply(s, e).ready[i - n] == s.ready[i]
  {
  }

  // Nobody overtakes: a thread that is ready with i others in front of it is the one that the
  // (i + 1)-st core to look for a thread from now on takes, whichever cores these are and
  // whoever becomes ready meanwhile.
  lemma ReadyInTurn(s: State, es: seq<Event>, s': State, i: nat, e: Event)
    requires Reaches(s, es, s') && i < |s.ready| && PickCount(s, es) == i && Enabled(s', e) && Picks(s', e)
    ensures e.k < |Apply(s', e).pc| && Apply(s', e).pc[e.k].Picked? && Apply(s', e).pc[e.k].next == s.ready[i]
  {
    PlaceInLine(s, es, s', i);
    TurnStep(s', e, 0);
  }

  // Each of those cores moves it up by one place.
  lemma {:induction false} PlaceInLine(s: State, es: seq<Event>, s': State, i: nat)
    requires Reaches(s, es, s') && i < |s.ready| && PickCount(s, es) <= i
    ensures i - PickCount(s, es) < |s'.ready| && s'.ready[i - PickCount(s, es)] == s.ready[i]
    decreases |es|
  {
    hide Apply;
    hide Picks;
    hide Enabled;
    if es != [] {
      TurnStep(s, es[0], i);
      PlaceInLine(Apply(s, es[0]), es[1..], s', i - (if Picks(s, es[0]) then 1 else 0));
    }
  }

  predicate NotifiesOne(e: Event, c: CondId) { e.NotifyOne? && e.cond == c }

  function WakeCount(c: CondId, es: seq<Event>): nat {
    if es == [] then 0 else (if NotifiesOne(es[0], c) then 1 else 0) + WakeCount(c, es[1..])
  }

  predicate NotifiesAll(c: CondId, es: seq<Event>) {
    exists e :: e in es && e.NotifyAll? && e.cond == c
  }

  lemma WaitStep(s: State, e: Event, c: CondId, i: nat)
    requires Enabled(s, e) && c in s.conds && i < |s.conds[c].waiting| && !(e.NotifyAll? && e.cond == c)
    ensures NotifiesOne(e, c) && i == 0 ==>
      e.k < |Apply(s, e).pc| && Apply(s, e).pc[e.k] == Notify([s.conds[c].waiting[0]])
    ensures var s', n := Apply(s, e), if NotifiesOne(e, c) then 1 else 0;
      c in s'.conds && (n <= i ==> i - n < |s'.conds[c].waiting| && s'.conds[c].waiting[i - n] == s.conds[c].waiting[i])
  {
  }

  lemma {:induction false} PlaceInWait(s: State, es: seq<Event>, s': State, c: CondId, i: nat)
    requires Reaches(s, es, s') && c in s.conds && i < |s.conds[c].waiting| && WakeCount(c, es) <= i && !NotifiesAll(c, es)
    ensures c in s'.conds && i - WakeCount(c, es) < |s'.conds[c].waiting|
    ensures s'.conds[c].waiting[i - WakeCount(c, es)] == s.conds[c].waiting[i]
    decreases |es|
  {
    hide Apply;
    hide Enabled;
    hide NotifiesOne;
    if es != [] {
      assert es[0] in es && forall e :: e in es[1..] ==> e in es;
      WaitStep(s, es[0], c, i);
      PlaceInWait(Apply(s, es[0]), es[1..], s', c, i - (if NotifiesOne(es[0], c) then 1 else 0));
    }
  }

  // Waiters are woken in turn too: one with i others in front of it is woken by the
  // (i + 1)-st notify_one of the condition from now on, unless a notify_all comes before.
  lemma WokenInTurn(s: State, es: seq<Event>, s': State, c: CondId, i: nat, e: Event)
    requires Reaches(s, es, s') && c in s.conds && i < |s.conds[c].waiting| && WakeCount(c, es) == i && !NotifiesAll(c, es)
    requires Enabled(s', e) && NotifiesOne(e, c)
    ensures e.k < |Apply(s', e).pc| && Apply(s', e).pc[e.k] == Notify([s.conds[c].waiting[i]])
  {
    hide Apply;
    hide Enabled;
    hide Reaches;
    hide WakeCount;
    hide NotifiesAll;
    PlaceInWait(s, es, s', c, i);
    WaitStep(s', e, c, 0);
  }

  // --- no core gets stuck -----------------------------------------------------------------

  // A core in the middle of a scheduler call can always go on with it.
  lemma NeverStuck(s0: State, es: seq<Event>, s: State, k: nat) returns (e: Event)
    requires Initial(s0) && Reaches(s0, es, s) && k < |s.pc| && s.pc[k] != Run && !s.shutdown
    ensures e.k == k && Enabled(s, e)
  {
    hide Inv;
    var loc := ReachableInv(s0, es, s);
    e := NextStep(s, loc, k);
  }

  // Nor is a thread that runs its own code refused anything: it may notify, yield to any ready
  // thread, stop and start to wait,
  lemma NothingRefused(s0: State, es: seq<Event>, s: State, k: nat, c: CondId)
    requires Initial(s0) && Reaches(s0, es, s) && k < |s.pc| && s.pc[k] == Run && !s.shutdown && k < |s.cur| && c in s.conds
    ensures Enabled(s, NotifyOne(k, c)) && Enabled(s, NotifyAll(k, c))
    ensures var t := s.cur[k];
      if t in s.idle then !Busy(s, t) && s.ready != [] ==> Enabled(s, IdlePick(k))
      else Enabled(s, WaitCapture(k, c)) && (s.ready != [] ==> Enabled(s, YieldPick(k))) && (!Busy(s, t) ==> Enabled(s, StopPick(k)))
  {
    hide Inv;
    hide Initial;
    hide Reaches;
    var loc := ReachableInv(s0, es, s);
    Core(s, loc, k);
    CoreCount(s, loc);
    assert k < |s.idle| && s.cur[k] in s.tcb;
    hide CoreFacts;
  }

  // and it may reap and make threads.
  lemma ReapsAndMakes(s0: State, es: seq<Event>, s: State, k: nat)
    requires Initial(s0) && Reaches(s0, es, s) && k < |s.pc| && s.pc[k] == Run && !s.shutdown && k < |s.cur|
    ensures var t := s.cur[k];
      if t in s.reaping then Enabled(s, ReapDealloc(k))
      else if t in s.owed then Enabled(s, ReapCount(k))
      else (s.reaper != [] ==> Enabled(s, ReapPop(k))) && (t !in s.making ==> Enabled(s, MakeBegin(k)))
  {
    hide Inv;
    hide Initial;
    hide Reaches;
    var loc := ReachableInv(s0, es, s);
    Core(s, loc, k);
    CoreCount(s, loc);
    assert k < |s.idle| && s.cur[k] in s.tcb;
    hide CoreFacts;
  }

  lemma NextStep(s: State, loc: Locations, k: nat) returns (e: Event)
    requires Inv(s, loc) && k < |s.pc| && s.pc[k] != Run && !s.shutdown
    ensures e.k == k && Enabled(s, e)
  {
    hide Inv;
    hide Hand;
    Core(s, loc, k);
    assert s.cur[k] in s.tcb;
    hide CoreFacts;
    CoreOk(s, loc, k);
    CoreCount(s, loc);
    hide IsIdle;
    hide Busy;
    match s.pc[k]
    case Captured(_) => e := if s.ready == [] then WaitGiveUp(k) else WaitPick(k);
    case Picked(_, _) => e := Switch(k);
    case Post(_) => e := PostSwitch(k);
    case Requeue(_) => e := RequeueAdd(k);
    case Notify(_) => e := NotifyAdd(k);
  }
}
