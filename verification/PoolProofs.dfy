/**
  Every step of the thread pool keeps every invariant.

  A step of one thread that wakes nobody is handled in two parts: a lemma `...Local` says what the
  step does to that thread and to the shared fields, and `...Step` extends it to all threads.
 */
module PoolProofs {
  import opened Basics
  import opened PoolModel

  lemma PopFacts(q: seq<Slot>)
    requires q != [] && Distinct(q)
    ensures Distinct(q[1..])
    ensures forall x :: x in q[1..] <==> x in q && x != q[0]
  {
    assert q == [q[0]] + q[1..];
  }

  lemma PushFacts(q: seq<Slot>, y: Slot)
    requires Distinct(q) && y !in q
    ensures Distinct(q + [y])
    ensures forall x :: x in q + [y] <==> x in q || x == y
  {
  }

  /** The steps that change more than one thread's pc, or the destructor. */
  predicate Global(a: Action) {
    a.SetFlag? || a.StopLock? || a.StopBroadcast? || a.Give? || a.Push?
  }

  /** The four steps that move a slot from or to a queue. */
  predicate Moves(s: Pool, a: Action)
    requires Enabled(s, a)
  {
    (a.Leave? && !s.stop && s.work != []) || (a.TakeSlot? && s.free != []) || a.Give? || a.Push?
  }

  /** A step of one thread keeps that thread's part of the lock discipline and touches nobody else's. */
  lemma LocksLocal(s: Pool, a: Action)
    requires Enabled(s, a) && !Global(a)
    requires HoldsWork(s.pcs[a.t]) <==> s.workLock == Thread(a.t)
    requires HoldsFree(s.pcs[a.t]) <==> s.freeLock == Thread(a.t)
    requires s.pcs[a.t].LeaveLoop? ==> s.work != [] || s.stop
    ensures var s' := Apply(s, a); var t := a.t; var p := s.pcs[t]; var q := s'.pcs[t];
      && s'.pcs == s.pcs[t := q] && s'.stopper == s.stopper && s'.stop == s.stop
      && (HoldsWork(q) <==> s'.workLock == Thread(t))
      && (HoldsFree(q) <==> s'.freeLock == Thread(t))
      && (s'.workLock == s.workLock
          || (s'.workLock == Thread(t) && s.workLock == Nobody)
          || (s'.workLock == Nobody && s.workLock == Thread(t)))
      && (s'.freeLock == s.freeLock
          || (s'.freeLock == Thread(t) && s.freeLock == Nobody)
          || (s'.freeLock == Nobody && s.freeLock == Thread(t)))
  {
    hide Move, Write;
  }

  lemma LocksStep(s: Pool, a: Action)
    requires Enabled(s, a) && !Global(a)
    requires Locks(s) && NoCrash(s)
    ensures Locks(Apply(s, a))
  {
    hide Apply, HoldsWork, HoldsFree;
    LocksLocal(s, a);
  }

  /** The thread that gives or pushes leaves its region; no other thread enters or leaves one. */
  lemma HoldersAfter(s: Pool, a: Action)
    requires Enabled(s, a) && Global(a)
    ensures var s' := Apply(s, a);
      && s'.pcs.Keys == s.pcs.Keys
      && (forall t <- s.pcs ::
           && HoldsWork(s'.pcs[t]) == (HoldsWork(s.pcs[t]) && a != Push(t))
           && HoldsFree(s'.pcs[t]) == (HoldsFree(s.pcs[t]) && a != Give(t)))
      && (a.Push? ==> HoldsWork(s.pcs[a.t])) && (a.Give? ==> HoldsFree(s.pcs[a.t]))
  {
    hide Move, Write;
  }

  lemma LocksGlobal(s: Pool, a: Action)
    requires Enabled(s, a) && Global(a)
    requires Locks(s)
    ensures Locks(Apply(s, a))
  {
    hide Move, Write, WakeWork, WakeFree, HoldsWork, HoldsFree;
    HoldersAfter(s, a);
  }

  lemma NoCrashLocal(s: Pool, a: Action)
    requires Enabled(s, a) && !Global(a)
    requires s.pcs[a.t].LeaveLoop? ==> s.work != [] || s.stop
    requires s.pcs[a.t].GotNothing? ==> s.stop
    requires InPossession(s.pcs[a.t]) ==> s.pcs[a.t].slot < |s.tasks|
    requires !s.pcs[a.t].Crashed?
    ensures var s' := Apply(s, a); var t := a.t; var p := s.pcs[t]; var q := s'.pcs[t];
      && s'.pcs == s.pcs[t := q] && s'.stopper == s.stopper && s'.stop == s.stop
      && !q.Crashed? && (q.LeaveLoop? ==> s'.work != [] || s'.stop) && (q.GotNothing? ==> s'.stop)
      && (s'.work != s.work ==> p.LeaveLoop?)
  {
    hide Move, Write;
  }

  lemma NoCrashStep(s: Pool, a: Action)
    requires Enabled(s, a) && !Global(a)
    requires Locks(s) && Conserved(s) && NoCrash(s)
    ensures NoCrash(Apply(s, a))
  {
    hide Apply;
    assert InPossession(s.pcs[a.t]) ==> s.pcs[a.t].slot < |s.tasks|;
    NoCrashLocal(s, a);
  }

  lemma NoCrashGlobal(s: Pool, a: Action)
    requires Enabled(s, a) && Global(a)
    requires Locks(s) && NoCrash(s)
    ensures NoCrash(Apply(s, a))
  {
    hide Move, Write;
  }

  lemma NoLostWakeupGlobal(s: Pool, a: Action)
    requires Enabled(s, a) && Global(a)
    requires Locks(s) && NoLostWakeup(s)
    ensures NoLostWakeup(Apply(s, a))
  {
    hide Move, Write;
  }

  lemma NoLostWakeupLocal(s: Pool, a: Action)
    requires Enabled(s, a) && !Global(a)
    requires s.pcs[a.t].GoingToSleep? || s.pcs[a.t].Asleep? ==> s.work == []
    requires s.pcs[a.t].AsleepFree? ==> s.free == []
    requires s.stop <==> s.stopper != NotStopping
    ensures var s' := Apply(s, a); var t := a.t; var p := s.pcs[t]; var q := s'.pcs[t];
      && s'.pcs == s.pcs[t := q] && s'.stopper == s.stopper && s'.stop == s.stop
      && (q.Asleep? || q.GoingToSleep? ==> s'.work == []) && (q.AsleepFree? ==> s'.free == [])
      && (q.GoingToSleep? ==> s.stopper == NotStopping)
      && (q.Asleep? ==> p.GoingToSleep?)
      && (s.work == [] ==> s'.work == []) && (s.free == [] ==> s'.free == [])
  {
    hide Move, Write;
  }

  lemma NoLostWakeupStep(s: Pool, a: Action)
    requires Enabled(s, a) && !Global(a)
    requires Locks(s) && NoLostWakeup(s)
    ensures NoLostWakeup(Apply(s, a))
  {
    hide Apply;
    NoLostWakeupLocal(s, a);
  }

  lemma ConservedPop(s: Pool, a: Action)
    requires Enabled(s, a) && Moves(s, a) && a.Leave?
    requires Conserved(s)
    ensures Conserved(Apply(s, a))
  {
    hide Distinct;
    assert s.work[0] in s.work;
    PopFacts(s.work);
  }

  lemma ConservedTake(s: Pool, a: Action)
    requires Enabled(s, a) && Moves(s, a) && a.TakeSlot?
    requires Conserved(s)
    ensures Conserved(Apply(s, a))
  {
    hide Distinct;
    assert s.free[0] in s.free;
    PopFacts(s.free);
  }

  /** Waking takes no slot from anybody; the thread that steps no longer has its own. */
  lemma HandsAfter(s: Pool, a: Action)
    requires Enabled(s, a) && (a.Give? || a.Push?) && s.pcs[a.t].slot < |s.locs|
    ensures var s' := Apply(s, a); var slot := s.pcs[a.t].slot;
      && InPossession(s.pcs[a.t]) && s'.pcs.Keys == s.pcs.Keys && !InPossession(s'.pcs[a.t]) && s'.tasks == s.tasks
      && (forall t <- s.pcs :: t != a.t ==>
           && InPossession(s'.pcs[t]) == InPossession(s.pcs[t])
           && (InPossession(s.pcs[t]) ==> s'.pcs[t].slot == s.pcs[t].slot))
      && s'.free == (if a.Give? then s.free + [slot] else s.free)
      && s'.work == (if a.Push? then s.work + [slot] else s.work)
      && s'.locs == s.locs[slot := if a.Give? then InFree else InWork]
  {
  }

  lemma ConservedReturn(s: Pool, a: Action)
    requires Enabled(s, a) && (a.Give? || a.Push?)
    requires Conserved(s)
    ensures Conserved(Apply(s, a))
  {
    hide Distinct, Apply;
    HandsAfter(s, a);
    PushFacts(if a.Give? then s.free else s.work, s.pcs[a.t].slot);
  }

  lemma ConservedStop(s: Pool, a: Action)
    requires Enabled(s, a) && (a.SetFlag? || a.StopLock? || a.StopBroadcast?)
    requires Conserved(s)
    ensures Conserved(Apply(s, a))
  {
    hide Distinct;
  }

  lemma ConservedLocal(s: Pool, a: Action)
    requires Enabled(s, a) && !Global(a) && !Moves(s, a)
    requires InPossession(s.pcs[a.t]) ==> s.pcs[a.t].slot < |s.tasks|
    requires s.pcs[a.t].LeaveLoop? ==> s.work != [] || s.stop
    requires |s.locs| == |s.tasks|
    requires s.pcs[a.t].GotNothing? ==> s.stop
    ensures var s' := Apply(s, a); var t := a.t; var p := s.pcs[t]; var q := s'.pcs[t];
      && s'.pcs == s.pcs[t := q] && s'.stopper == s.stopper && s'.stop == s.stop
      && s'.free == s.free && s'.work == s.work && |s'.tasks| == |s.tasks|
      && ((s'.locs == s.locs && InPossession(q) == InPossession(p) && (InPossession(p) ==> q.slot == p.slot))
          || (InPossession(p) && !InPossession(q) && s'.locs == s.locs[p.slot := Lost]))
  {
    hide Distinct;
  }

  lemma ConservedStay(s: Pool, a: Action)
    requires Enabled(s, a) && !Global(a) && !Moves(s, a)
    requires Conserved(s) && NoCrash(s)
    ensures Conserved(Apply(s, a))
  {
    hide Apply, Distinct;
    ConservedLocal(s, a);
    var p := s.pcs[a.t];
    assert InPossession(p) ==> s.locs[p.slot] == InHand(a.t);
  }

  lemma FifoGlobal(s: Pool, a: Action)
    requires Enabled(s, a) && Global(a)
    requires Fifo(s) && Conserved(s)
    ensures Fifo(Apply(s, a))
  {
    hide Distinct;
    if a.Push? {
      FifoPush(s, a);
    }
  }

  /** A push changes the pc of the thread itself and of those that it wakes. */
  lemma PushWakes(s: Pool, a: Action)
    requires Enabled(s, a) && a.Push?
    ensures var s' := Apply(s, a);
      && s'.pcs.Keys == s.pcs.Keys && s'.pcs[a.t].Idle?
      && forall t <- s.pcs :: t == a.t || s'.pcs[t] == s.pcs[t] || s'.pcs[t].WantWork?
  {
    hide Move;
  }

  lemma FifoPush(s: Pool, a: Action)
    requires Enabled(s, a) && a.Push?
    requires Fifo(s) && Conserved(s)
    ensures Fifo(Apply(s, a))
  {
    hide Distinct, Move, WakeWork;
    PushWakes(s, a);
  }

  lemma FifoMove(s: Pool, a: Action)
    requires Enabled(s, a) && !Global(a) && Moves(s, a)
    requires Fifo(s) && Conserved(s)
    ensures Fifo(Apply(s, a))
  {
    hide Distinct;
  }

  lemma FifoLocal(s: Pool, a: Action)
    requires Enabled(s, a) && !Global(a) && !Moves(s, a)
    requires InPossession(s.pcs[a.t]) ==> s.pcs[a.t].slot < |s.tasks|
    ensures var s' := Apply(s, a); var t := a.t; var p := s.pcs[t]; var q := s'.pcs[t];
      && s'.pcs == s.pcs[t := q] && s'.stopper == s.stopper && s'.stop == s.stop
      && s'.work == s.work && s'.queued == s.queued && s'.taken == s.taken
      && (q.Got? ==> p == q && s'.tasks == s.tasks)
      && (q.Filled? || q.Pushing? ==>
            && (p.Filled? || p.Holding?) && q.slot == p.slot && q.call == p.call
            && s'.tasks == if p.Filled? then s.tasks else s.tasks[q.slot := q.call])
      && (s'.tasks == s.tasks
          || (InPossession(p) && InPossession(q) && s'.tasks == s.tasks[p.slot := s'.tasks[p.slot]]))
  {
    hide Distinct;
  }

  lemma FifoStay(s: Pool, a: Action)
    requires Enabled(s, a) && !Global(a) && !Moves(s, a)
    requires Fifo(s) && Conserved(s)
    ensures Fifo(Apply(s, a))
  {
    hide Apply, Distinct;
    FifoLocal(s, a);
  }

  lemma LostToNullKept(s: Pool, a: Action)
    requires Enabled(s, a)
    requires LostToNull(s) && Fifo(s) && Conserved(s)
    ensures LostToNull(Apply(s, a))
  {
    hide Distinct, WakeWork, WakeFree;
    var s' := Apply(s, a);
    assert s.queued <= s'.queued;
    if NoNullRoutine(s') {
      assert forall i :: 0 <= i < |s.queued| ==> s.queued[i] == s'.queued[i];
      assert NoNullRoutine(s);
    }
  }

  lemma RunOnceGlobal(s: Pool, a: Action)
    requires Enabled(s, a) && Global(a)
    requires RunOnce(s)
    ensures RunOnce(Apply(s, a))
  {
    hide Distinct, Move, Write;
  }

  lemma RunOnceLocal(s: Pool, a: Action)
    requires Enabled(s, a) && !Global(a)
    requires InPossession(s.pcs[a.t]) ==> s.pcs[a.t].slot < |s.tasks|
    ensures var s' := Apply(s, a); var t := a.t; var p := s.pcs[t]; var q := s'.pcs[t];
      && s'.pcs == s.pcs[t := q] && s'.stopper == s.stopper && s'.stop == s.stop
      && s'.queued == s.queued && s.taken <= s'.taken && (s'.taken == s.taken || s.work != [])
      && s'.taken <= s.taken + 1
      && (q.Got? ==> q.ticket == s.taken && s'.taken == s.taken + 1)
      && (s'.runs == s.runs || (p.Got? && !q.Got? && s'.runs == s.runs + [Execution(p.ticket, s.tasks[p.slot])]))
  {
    hide Distinct, Move, Write;
  }

  lemma RunOnceStep(s: Pool, a: Action)
    requires Enabled(s, a) && !Global(a)
    requires Fifo(s) && RunOnce(s) && Conserved(s)
    ensures RunOnce(Apply(s, a))
  {
    hide Apply, Distinct;
    RunOnceLocal(s, a);
  }

  /** Every step of every thread keeps every invariant. */
  lemma InvKept(s: Pool, a: Action)
    requires Inv(s) && Enabled(s, a)
    ensures Inv(Apply(s, a))
  {
    hide Apply, Enabled, Locks, Conserved, Fifo, RunOnce, NoLostWakeup, NoCrash, LostToNull;
    if Global(a) {
      LocksGlobal(s, a); NoCrashGlobal(s, a); NoLostWakeupGlobal(s, a); FifoGlobal(s, a); RunOnceGlobal(s, a);
      if a.Give? || a.Push? {
        ConservedReturn(s, a);
      } else {
        ConservedStop(s, a);
      }
    } else {
      LocksStep(s, a); NoCrashStep(s, a); NoLostWakeupStep(s, a); RunOnceStep(s, a);
      if !Moves(s, a) {
        ConservedStay(s, a); FifoStay(s, a);
      } else {
        FifoMove(s, a);
        if a.Leave? {
          ConservedPop(s, a);
        } else {
          ConservedTake(s, a);
        }
      }
    }
    LostToNullKept(s, a);
  }
}
