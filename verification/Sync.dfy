// Semaphore and BlockingLock over Condition (kernel/semaphore.h, blocking_lock.h,
// condition.h): no wakeup is lost between capturing the epoch and parking.
// Each step is one spin-locked section, or one move of a thread by the scheduler.

module Synchronization {
  type Tid = nat

  // Where a thread is in down() or lock().  `notified` marks a thread that a
  // notify took off the waiting queue and that has not retested since.
  datatype Pc =
    | Outside
    | Testing(notified: bool)  // about to take the spin lock and test
    | Captured(epoch: nat)     // in wait(): epoch captured, spin lock released
    | Leaving(epoch: nat)      // switched away, post_switch pending
    | Parked                   // in the waiting queue
    | Popped                   // taken off it, not yet in the ready queue
    | Ready(notified: bool)    // in the ready queue, will retake the spin lock
    | Holding                  // owns the BlockingLock

  predicate IsPending(pc: Pc) {
    pc == Popped || pc == Ready(true) || pc == Testing(true)
  }
}

module SemaphoreModel {
  import opened Basics
  import opened Synchronization

  datatype State = State(count: nat, epoch: nat, waiting: seq<Tid>, pc: map<Tid, Pc>)

  datatype Event =
    | Enter(t: Tid)     // down() is called
    | TestOk(t: Tid)    // count != 0: taken, down() returns
    | TestFail(t: Tid)  // count == 0: capture the epoch, release the spin lock
    | GiveUp(t: Tid)    // nothing ready to switch to: retake the spin lock
    | Leave(t: Tid)     // switch to another thread
    | Park(t: Tid)      // post_switch: epoch unchanged, enqueue
    | Requeue(t: Tid)   // post_switch: epoch moved, make ready
    | Up(t: Tid)        // up(): increment and notify_one
    | Wake(t: Tid)      // the notifier makes the popped thread ready
    | Resume(t: Tid)    // the thread is scheduled again

  ghost predicate Enabled(s: State, e: Event) {
    e.t in s.pc &&
    match e
    case Enter(t) => s.pc[t] == Outside
    case TestOk(t) => s.pc[t].Testing? && s.count != 0
    case TestFail(t) => s.pc[t].Testing? && s.count == 0
    case GiveUp(t) => s.pc[t].Captured?
    case Leave(t) => s.pc[t].Captured?
    case Park(t) => s.pc[t].Leaving? && s.pc[t].epoch == s.epoch
    case Requeue(t) => s.pc[t].Leaving? && s.pc[t].epoch != s.epoch
    case Up(t) => s.pc[t] == Outside
    case Wake(t) => s.pc[t] == Popped
    case Resume(t) => s.pc[t].Ready?
  }

  // Condition::notify_one: pops the first waiter, if any.
  function PopOne(pc: map<Tid, Pc>, waiting: seq<Tid>): map<Tid, Pc> {
    if waiting == [] then pc else pc[waiting[0] := Popped]
  }

  function Rest(waiting: seq<Tid>): seq<Tid> {
    if waiting == [] then [] else waiting[1..]
  }

  ghost function Apply(s: State, e: Event): State
    requires Enabled(s, e)
  {
    match e
    case Enter(t) => s.(pc := s.pc[t := Testing(false)])
    case TestOk(t) => s.(pc := s.pc[t := Outside], count := s.count - 1)
    case TestFail(t) => s.(pc := s.pc[t := Captured(s.epoch)])
    case GiveUp(t) => s.(pc := s.pc[t := Testing(false)])
    case Leave(t) => s.(pc := s.pc[t := Leaving(s.pc[t].epoch)])
    case Park(t) => s.(pc := s.pc[t := Parked], waiting := s.waiting + [t])
    case Requeue(t) => s.(pc := s.pc[t := Ready(false)])
    case Up(t) =>
      s.(count := s.count + 1, epoch := s.epoch + 1, waiting := Rest(s.waiting), pc := PopOne(s.pc, s.waiting))
    case Wake(t) => s.(pc := s.pc[t := Ready(true)])
    case Resume(t) => s.(pc := s.pc[t := Testing(s.pc[t].notified)])
  }

  ghost function Pending(pc: map<Tid, Pc>): set<Tid> {
    set t | t in pc && IsPending(pc[t])
  }

  ghost predicate Inv(s: State) {
    NoDup(s.waiting) &&
    (forall t :: t in s.waiting <==> t in s.pc && s.pc[t] == Parked) &&
    (forall t :: t in s.pc && (s.pc[t].Captured? || s.pc[t].Leaving?) ==>
       s.pc[t].epoch <= s.epoch && (s.pc[t].epoch == s.epoch ==> s.count == 0)) &&
    (s.waiting != [] ==> s.count <= |Pending(s.pc)|)
  }

  // Changing one thread's pc changes the pending set by that thread at most.
  lemma PendingUpdate(pc: map<Tid, Pc>, t: Tid, p: Pc)
    requires t in pc
    ensures IsPending(p) && !IsPending(pc[t]) ==> |Pending(pc[t := p])| == |Pending(pc)| + 1
    ensures !IsPending(p) && IsPending(pc[t]) ==> |Pending(pc[t := p])| == |Pending(pc)| - 1
    ensures IsPending(p) == IsPending(pc[t]) ==> |Pending(pc[t := p])| == |Pending(pc)|
  {
    var before, after := Pending(pc), Pending(pc[t := p]);
    assert t in before <==> IsPending(pc[t]);
    assert t in after <==> IsPending(p);
    assert after - {t} == before - {t};
    assert |after| == |after - {t}| + (if IsPending(p) then 1 else 0);
    assert |before| == |before - {t}| + (if IsPending(pc[t]) then 1 else 0);
  }

  // Every step of every thread keeps the invariant.
  lemma StepKeeps(s: State, e: Event)
    requires Inv(s) && Enabled(s, e)
    ensures Inv(Apply(s, e))
  {
    match e
    case Park(t) =>
      PendingUpdate(s.pc, t, Parked);
    case Up(t) =>
      if s.waiting != [] {
        HeadTail(s.waiting);
        PendingUpdate(s.pc, s.waiting[0], Popped);
      }
    case _ =>
      StepInPlace(s, e);
  }

  lemma StepInPlace(s: State, e: Event)
    requires Inv(s) && Enabled(s, e) && !e.Park? && !e.Up?
    ensures Inv(Apply(s, e))
  {
    hide Pending;
    PendingUpdate(s.pc, e.t, Apply(s, e).pc[e.t]);
  }

  ghost predicate Initial(s: State) {
    s.epoch == 0 && s.waiting == [] &&
    forall t :: t in s.pc ==> s.pc[t] == Outside
  }

  ghost predicate Reaches(s0: State, es: seq<Event>, s: State)
    decreases |es|
  {
    if es == [] then s == s0
    else Enabled(s0, es[0]) && Reaches(Apply(s0, es[0]), es[1..], s)
  }

  lemma {:induction false} RunKeeps(s0: State, es: seq<Event>, s: State)
    requires Inv(s0) && Reaches(s0, es, s)
    ensures Inv(s)
    decreases |es|
  {
    hide Inv;
    if es != [] {
      StepKeeps(s0, es[0]);
      RunKeeps(Apply(s0, es[0]), es[1..], s);
    }
  }

  // In every run: while any thread is parked, each unit of the count has its own
  // woken thread that has not retested yet.
  lemma NoLostWakeup(s0: State, es: seq<Event>, s: State)
    requires Initial(s0) && Reaches(s0, es, s)
    ensures s.waiting != [] ==> s.count <= |Pending(s.pc)|
    ensures forall t :: t in s.waiting <==> t in s.pc && s.pc[t] == Parked
    ensures s.waiting != [] && s.count > 0 ==> exists t :: t in s.pc && IsPending(s.pc[t])
  {
    RunKeeps(s0, es, s);
    if s.waiting != [] && s.count > 0 {
      assert Pending(s.pc) != {};
      var t :| t in Pending(s.pc);
    }
  }

  // How often e happens in a run, and how often up() and down() end.
  function Times(es: seq<Event>, e: Event): nat {
    if es == [] then 0 else (if es[0] == e then 1 else 0) + Times(es[1..], e)
  }

  function Ups(es: seq<Event>): nat {
    if es == [] then 0 else (if es[0].Up? then 1 else 0) + Ups(es[1..])
  }

  function Downs(es: seq<Event>): nat {
    if es == [] then 0 else (if es[0].TestOk? then 1 else 0) + Downs(es[1..])
  }

  // In every run the count is what up() added less what down() took.
  lemma {:induction false} UnitsKept(s0: State, es: seq<Event>, s: State)
    requires Reaches(s0, es, s)
    ensures s.count + Downs(es) == s0.count + Ups(es)
    decreases |es|
  {
    if es != [] {
      UnitsKept(Apply(s0, es[0]), es[1..], s);
    }
  }

  ghost predicate InDown(s: State, t: Tid) {
    t in s.pc && s.pc[t] != Outside
  }

  lemma StepInDown(s: State, e: Event, t: Tid)
    requires Inv(s) && Enabled(s, e)
    ensures e == Enter(t) ==> !InDown(s, t) && InDown(Apply(s, e), t)
    ensures e == TestOk(t) ==> InDown(s, t) && !InDown(Apply(s, e), t)
    ensures e != Enter(t) && e != TestOk(t) ==> (InDown(Apply(s, e), t) <==> InDown(s, t))
  {
    if e.Up? && s.waiting != [] {
      assert s.waiting[0] in s.waiting;
    }
  }

  // A thread returns from down() by taking a unit, and in no other way: in every run it has
  // taken one for each of its calls, but for a call it is still in.
  lemma {:induction false} DownTakesOne(s0: State, es: seq<Event>, s: State, t: Tid)
    requires Inv(s0) && Reaches(s0, es, s)
    ensures Times(es, Enter(t)) + (if InDown(s0, t) then 1 else 0) == Times(es, TestOk(t)) + (if InDown(s, t) then 1 else 0)
    decreases |es|
  {
    hide Inv;
    hide InDown;
    if es != [] {
      StepKeeps(s0, es[0]);
      StepInDown(s0, es[0], t);
      DownTakesOne(Apply(s0, es[0]), es[1..], s, t);
    }
  }

  // A thread parks only while the count is zero, however many calls ran between
  // its test and the end of its switch.
  lemma ParksOnlyAtZero(s0: State, es: seq<Event>, s: State, t: Tid)
    requires Initial(s0) && Reaches(s0, es, s) && Enabled(s, Park(t))
    ensures s.count == 0
  {
    RunKeeps(s0, es, s);
  }
}

module BlockingLockModel {
  import opened Synchronization
  import Sem = SemaphoreModel

  datatype State = State(locked: bool, epoch: nat, waiting: seq<Tid>, pc: map<Tid, Pc>)

  datatype Event =
    | Enter(t: Tid)     // lock() is called
    | TestOk(t: Tid)    // not locked: taken, lock() returns
    | TestFail(t: Tid)  // locked: capture the epoch, release the spin lock
    | GiveUp(t: Tid)
    | Leave(t: Tid)
    | Park(t: Tid)
    | Requeue(t: Tid)
    | Unlock(t: Tid)    // unlock() by the owner: clear and notify_one
    | Wake(t: Tid)
    | Resume(t: Tid)

  ghost predicate Enabled(s: State, e: Event) {
    e.t in s.pc &&
    match e
    case Enter(t) => s.pc[t] == Outside
    case TestOk(t) => s.pc[t].Testing? && !s.locked
    case TestFail(t) => s.pc[t].Testing? && s.locked
    case GiveUp(t) => s.pc[t].Captured?
    case Leave(t) => s.pc[t].Captured?
    case Park(t) => s.pc[t].Leaving? && s.pc[t].epoch == s.epoch
    case Requeue(t) => s.pc[t].Leaving? && s.pc[t].epoch != s.epoch
    case Unlock(t) => s.pc[t] == Holding
    case Wake(t) => s.pc[t] == Popped
    case Resume(t) => s.pc[t].Ready?
  }

  ghost function Apply(s: State, e: Event): State
    requires Enabled(s, e)
  {
    match e
    case Enter(t) => s.(pc := s.pc[t := Testing(false)])
    case TestOk(t) => s.(pc := s.pc[t := Holding], locked := true)
    case TestFail(t) => s.(pc := s.pc[t := Captured(s.epoch)])
    case GiveUp(t) => s.(pc := s.pc[t := Testing(false)])
    case Leave(t) => s.(pc := s.pc[t := Leaving(s.pc[t].epoch)])
    case Park(t) => s.(pc := s.pc[t := Parked], waiting := s.waiting + [t])
    case Requeue(t) => s.(pc := s.pc[t := Ready(false)])
    case Unlock(t) =>
      s.(locked := false, epoch := s.epoch + 1, waiting := Sem.Rest(s.waiting), pc := Sem.PopOne(s.pc[t := Outside], s.waiting))
    case Wake(t) => s.(pc := s.pc[t := Ready(true)])
    case Resume(t) => s.(pc := s.pc[t := Testing(s.pc[t].notified)])
  }

  // A BlockingLock is a semaphore that starts at one.
  function AsPc(pc: Pc): Pc { if pc == Holding then Outside else pc }

  function Shown(pc: map<Tid, Pc>): map<Tid, Pc> { map t | t in pc :: AsPc(pc[t]) }

  function AsSemaphore(s: State): Sem.State {
    Sem.State(if s.locked then 0 else 1, s.epoch, s.waiting, Shown(s.pc))
  }

  function AsEvent(e: Event): Sem.Event {
    match e
    case Enter(t) => Sem.Enter(t)
    case TestOk(t) => Sem.TestOk(t)
    case TestFail(t) => Sem.TestFail(t)
    case GiveUp(t) => Sem.GiveUp(t)
    case Leave(t) => Sem.Leave(t)
    case Park(t) => Sem.Park(t)
    case Requeue(t) => Sem.Requeue(t)
    case Unlock(t) => Sem.Up(t)
    case Wake(t) => Sem.Wake(t)
    case Resume(t) => Sem.Resume(t)
  }

  // The lock is taken exactly while one thread owns it.
  ghost predicate Owned(s: State) {
    (s.locked <==> exists t :: t in s.pc && s.pc[t] == Holding) &&
    (forall t, u :: t in s.pc && u in s.pc && s.pc[t] == Holding && s.pc[u] == Holding ==> t == u)
  }

  ghost predicate Inv(s: State) {
    Owned(s) && Sem.Inv(AsSemaphore(s))
  }

  lemma ShownUpdate(pc: map<Tid, Pc>, t: Tid, p: Pc)
    ensures Shown(pc[t := p]) == Shown(pc)[t := AsPc(p)]
  {
  }

  lemma ShownPop(pc: map<Tid, Pc>, waiting: seq<Tid>)
    ensures Shown(Sem.PopOne(pc, waiting)) == Sem.PopOne(Shown(pc), waiting)
  {
    if waiting != [] {
      ShownUpdate(pc, waiting[0], Popped);
    }
  }

  lemma UnlockRefines(s: State, e: Event)
    requires Inv(s) && Enabled(s, e) && e.Unlock?
    ensures Sem.Enabled(AsSemaphore(s), AsEvent(e))
    ensures AsSemaphore(Apply(s, e)) == Sem.Apply(AsSemaphore(s), AsEvent(e))
  {
    hide Sem.Inv;
    assert s.locked;
    hide Owned;
    ShownUpdate(s.pc, e.t, Outside);
    ShownPop(s.pc[e.t := Outside], s.waiting);
    hide Sem.PopOne;
  }

  // Each step of the lock is a step of the semaphore.
  lemma StepRefines(s: State, e: Event)
    requires Inv(s) && Enabled(s, e)
    ensures Sem.Enabled(AsSemaphore(s), AsEvent(e))
    ensures AsSemaphore(Apply(s, e)) == Sem.Apply(AsSemaphore(s), AsEvent(e))
  {
    hide Sem.Inv;
    hide Sem.PopOne;
    if e.Unlock? {
      UnlockRefines(s, e);
    } else {
      ShownUpdate(s.pc, e.t, Apply(s, e).pc[e.t]);
      hide Owned;
    }
  }

  lemma StepKeepsOwner(s: State, e: Event)
    requires Inv(s) && Enabled(s, e)
    ensures Owned(Apply(s, e))
  {
    var s' := Apply(s, e);
    if e.Unlock? && s.waiting != [] {
      assert s.waiting[0] in s.waiting;
      assert AsSemaphore(s).pc[s.waiting[0]] == Parked;
    }
    if e.TestOk? {
      assert s'.pc[e.t] == Holding;
    } else if !e.Unlock? && s.locked {
      var t :| t in s.pc && s.pc[t] == Holding;
      assert s'.pc[t] == Holding;
    }
  }

  ghost predicate Initial(s: State) {
    !s.locked && s.epoch == 0 && s.waiting == [] &&
    forall t :: t in s.pc ==> s.pc[t] == Outside
  }

  ghost predicate Reaches(s0: State, es: seq<Event>, s: State)
    decreases |es|
  {
    if es == [] then s == s0
    else Enabled(s0, es[0]) && Reaches(Apply(s0, es[0]), es[1..], s)
  }

  lemma StepKeeps(s: State, e: Event)
    requires Inv(s) && Enabled(s, e)
    ensures Inv(Apply(s, e))
  {
    hide Sem.Inv;
    StepRefines(s, e);
    Sem.StepKeeps(AsSemaphore(s), AsEvent(e));
    StepKeepsOwner(s, e);
  }

  lemma {:induction false} RunKeeps(s0: State, es: seq<Event>, s: State)
    requires Inv(s0) && Reaches(s0, es, s)
    ensures Inv(s)
    decreases |es|
  {
    hide Inv;
    if es != [] {
      StepKeeps(s0, es[0]);
      RunKeeps(Apply(s0, es[0]), es[1..], s);
    }
  }

  // In every run: at most one owner, and a lock that is free with threads parked
  // on it has a woken thread still inside lock() that will retest it.
  lemma MutualExclusionAndNoLostWakeup(s0: State, es: seq<Event>, s: State)
    requires Initial(s0) && Reaches(s0, es, s)
    ensures forall t, u :: t in s.pc && u in s.pc && s.pc[t] == Holding && s.pc[u] == Holding ==> t == u
    ensures s.locked <==> exists t :: t in s.pc && s.pc[t] == Holding
    ensures !s.locked && s.waiting != [] ==> exists t :: t in s.pc && IsPending(s.pc[t])
  {
    RunKeeps(s0, es, s);
    var v := AsSemaphore(s);
    if !s.locked && s.waiting != [] {
      assert Sem.Pending(v.pc) != {};
      var t :| t in Sem.Pending(v.pc);
      assert IsPending(s.pc[t]);
    }
  }

  function Times(es: seq<Event>, e: Event): nat {
    if es == [] then 0 else (if es[0] == e then 1 else 0) + Times(es[1..], e)
  }

  ghost predicate InLock(s: State, t: Tid) {
    t in s.pc && s.pc[t] != Outside && s.pc[t] != Holding
  }

  ghost predicate Holds(s: State, t: Tid) {
    t in s.pc && s.pc[t] == Holding
  }

  lemma StepInLock(s: State, e: Event, t: Tid)
    requires Inv(s) && Enabled(s, e)
    ensures e == Enter(t) ==> !InLock(s, t) && InLock(Apply(s, e), t)
    ensures e == TestOk(t) ==> InLock(s, t) && !InLock(Apply(s, e), t) && !Holds(s, t) && Holds(Apply(s, e), t)
    ensures e == Unlock(t) ==> Holds(s, t) && !Holds(Apply(s, e), t)
    ensures e != Enter(t) && e != TestOk(t) ==> (InLock(Apply(s, e), t) <==> InLock(s, t))
    ensures e != Unlock(t) && e != TestOk(t) ==> (Holds(Apply(s, e), t) <==> Holds(s, t))
  {
    if e.Unlock? && s.waiting != [] {
      assert s.waiting[0] in s.waiting;
      assert AsSemaphore(s).pc[s.waiting[0]] == Parked;
    }
    hide Owned;
    hide Sem.Inv;
  }

  // A thread returns from lock() as the owner, and in no other way, and owns the lock until
  // it calls unlock().
  lemma {:induction false} LockOwns(s0: State, es: seq<Event>, s: State, t: Tid)
    requires Inv(s0) && Reaches(s0, es, s)
    ensures Times(es, Enter(t)) + (if InLock(s0, t) then 1 else 0) == Times(es, TestOk(t)) + (if InLock(s, t) then 1 else 0)
    ensures Times(es, TestOk(t)) + (if Holds(s0, t) then 1 else 0) == Times(es, Unlock(t)) + (if Holds(s, t) then 1 else 0)
    decreases |es|
  {
    hide Inv;
    hide InLock;
    hide Holds;
    if es != [] {
      StepKeeps(s0, es[0]);
      StepInLock(s0, es[0], t);
      LockOwns(Apply(s0, es[0]), es[1..], s, t);
    }
  }
}
