/**
  The thread pool (src/local/threadpool.cpp) as an interleaving transition system.

  Every lock acquisition, every read of `stop_flag`, every wait and every region under a lock is a
  step of its own, so that the flag (which no lock protects) can change between a worker's test
  and its wait.  Apply is what one step of one thread does; PoolProofs shows that every step
  keeps the invariants and PoolRuns states what follows for all runs.
 */
module PoolModel {
  import opened Basics

  type Tid = nat
  type Slot = nat

  /** What a task slot holds; routine 0 is the null function pointer. */
  datatype Call = Call(routine: nat, data: nat)

  const NO_CALL := Call(0, 0)

  /** Where a thread is. */
  datatype Pc =
      // a worker, in worker_routine and get_task_to_do
    | Outside                              // about to read stop_flag without the lock
    | WantWork                             // about to lock the work queue
    | TestWork                             // holds the lock, about to evaluate the while condition
    | GoingToSleep                         // holds the lock, found the queue empty and the flag unset
    | Asleep                               // waiting on cond, lock released
    | LeaveLoop                            // holds the lock, the while loop is over
    | GotNothing                           // get_task_to_do returned NULL
    | Got(slot: Slot, ticket: nat)         // get_task_to_do returned a task
    | Running(slot: Slot, ticket: nat)     // inside the routine
    | WantFree(slot: Slot)                 // slot cleared, about to lock the free queue
    | Giving(slot: Slot)                   // holds the free lock
    | Exited
    | Crashed                              // dereferenced a NULL task or popped an empty queue
      // a submitter, in add_task
    | Idle
    | WantSlot(call: Call)                 // about to lock the free queue
    | TestFree(call: Call)                 // holds the free lock, about to evaluate the while condition
    | AsleepFree(call: Call)               // waiting on free_tasks_cond
    | Holding(slot: Slot, call: Call)      // took a slot, not yet written
    | Filled(slot: Slot, call: Call)       // slot written, about to lock the work queue
    | Pushing(slot: Slot, call: Call)      // holds the work lock

  /** The destructor up to its broadcast. */
  datatype StopPc = NotStopping | FlagSet | StopLocked | StopDone

  datatype Owner = Nobody | Thread(tid: Tid) | Destructor

  /** Ghost: where a task slot is.  Being a function of the slot, it puts each in exactly one place. */
  datatype Loc = InFree | InWork | InHand(tid: Tid) | Lost

  /** Ghost: one entry of the work queue's history. */
  datatype Entry = Entry(slot: Slot, call: Call)

  /** Ghost: one execution of a routine: which entry, and what was called. */
  datatype Execution = Execution(ticket: nat, call: Call)

  datatype Pool = Pool(
    pcs: map<Tid, Pc>, stopper: StopPc, stop: bool,
    workLock: Owner, freeLock: Owner,
    tasks: seq<Call>, free: seq<Slot>, work: seq<Slot>,
    // history
    locs: seq<Loc>, queued: seq<Entry>, taken: nat, runs: seq<Execution>)

  datatype Action =
    | ReadStop(t: Tid) | LockWork(t: Tid) | Test(t: Tid) | Sleep(t: Tid) | Wake(t: Tid) | Leave(t: Tid)
    | Begin(t: Tid) | Finish(t: Tid) | LockFree(t: Tid) | Give(t: Tid)
    | Submit(t: Tid, call: Call) | TakeSlot(t: Tid) | Fill(t: Tid) | Push(t: Tid)
    | SetFlag | StopLock | StopBroadcast

  // ---------------------------------------------------------------- one step

  function WakeWork(pcs: map<Tid, Pc>): map<Tid, Pc> {
    map t | t in pcs :: if pcs[t].Asleep? then WantWork else pcs[t]
  }

  function WakeFree(pcs: map<Tid, Pc>): map<Tid, Pc> {
    map t | t in pcs :: if pcs[t].AsleepFree? then WantSlot(pcs[t].call) else pcs[t]
  }

  predicate Enabled(s: Pool, a: Action) {
    match a
    case SetFlag => s.stopper == NotStopping
    case StopLock => s.stopper == FlagSet && s.workLock == Nobody
    case StopBroadcast => s.stopper == StopLocked
    case _ =>
      a.t in s.pcs &&
      var pc := s.pcs[a.t];
      match a
      case ReadStop(_) => pc.Outside?
      case LockWork(_) => (pc.WantWork? || pc.Filled?) && s.workLock == Nobody
      case Test(_) => pc.TestWork?
      case Sleep(_) => pc.GoingToSleep?
      case Wake(_) => pc.Asleep? || pc.AsleepFree?
      case Leave(_) => pc.LeaveLoop?
      case Begin(_) => pc.Got? || pc.GotNothing?
      case Finish(_) => pc.Running?
      case LockFree(_) => (pc.WantFree? || pc.WantSlot?) && s.freeLock == Nobody
      case Give(_) => pc.Giving?
      case Submit(_, _) => pc.Idle?
      case TakeSlot(_) => pc.TestFree?
      case Fill(_) => pc.Holding?
      case Push(_) => pc.Pushing?
  }

  /** The pc of a thread whose step touches nothing but its pc and, perhaps, a lock. */
  function At(s: Pool, t: Tid, pc: Pc): map<Tid, Pc> {
    s.pcs[t := pc]
  }

  function Apply(s: Pool, a: Action): Pool
    requires Enabled(s, a)
  {
    match a
    case SetFlag => s.(stopper := FlagSet, stop := true)
    case StopLock => s.(stopper := StopLocked, workLock := Destructor)
    case StopBroadcast => s.(stopper := StopDone, workLock := Nobody, pcs := WakeWork(s.pcs))
    case ReadStop(t) => s.(pcs := At(s, t, if s.stop then GotNothing else WantWork))
    case LockWork(t) =>
      var pc := s.pcs[t];
      s.(workLock := Thread(t), pcs := At(s, t, if pc.Filled? then Pushing(pc.slot, pc.call) else TestWork))
    case Test(t) => s.(pcs := At(s, t, if s.work == [] && !s.stop then GoingToSleep else LeaveLoop))
    case Sleep(t) => s.(workLock := Nobody, pcs := At(s, t, Asleep))
    case Wake(t) =>
      s.(pcs := At(s, t, if s.pcs[t].Asleep? then WantWork else WantSlot(s.pcs[t].call)))
    case Leave(t) =>
      if s.stop then s.(workLock := Nobody, pcs := At(s, t, GotNothing))
      else if s.work == [] then s.(pcs := At(s, t, Crashed))
      else Pop(s, t)
    case Begin(t) =>
      var pc := s.pcs[t];
      if pc.GotNothing? then s.(pcs := At(s, t, if s.stop then Exited else Crashed))
      else if pc.slot >= |s.tasks| then s.(pcs := At(s, t, Crashed))
      else if s.tasks[pc.slot].routine == 0 then
        s.(pcs := At(s, t, Outside), locs := Move(s, pc.slot, Lost))
      else
        s.(pcs := At(s, t, Running(pc.slot, pc.ticket)), runs := s.runs + [Execution(pc.ticket, s.tasks[pc.slot])])
    case Finish(t) =>
      var slot := s.pcs[t].slot;
      s.(pcs := At(s, t, WantFree(slot)), tasks := Write(s, slot, NO_CALL))
    case LockFree(t) =>
      var pc := s.pcs[t];
      s.(freeLock := Thread(t), pcs := At(s, t, if pc.WantFree? then Giving(pc.slot) else TestFree(pc.call)))
    case Give(t) =>
      var slot := s.pcs[t].slot;
      var pcs := At(s, t, Outside);
      s.(freeLock := Nobody, free := s.free + [slot], locs := Move(s, slot, InFree),
         pcs := if |s.free + [slot]| == 1 then WakeFree(pcs) else pcs)
    case Submit(t, call) => s.(pcs := At(s, t, WantSlot(call)))
    case TakeSlot(t) =>
      var call := s.pcs[t].call;
      if s.free == [] then s.(freeLock := Nobody, pcs := At(s, t, AsleepFree(call)))
      else s.(freeLock := Nobody, free := s.free[1..], locs := Move(s, s.free[0], InHand(t)),
              pcs := At(s, t, Holding(s.free[0], call)))
    case Fill(t) =>
      var pc := s.pcs[t];
      s.(pcs := At(s, t, Filled(pc.slot, pc.call)), tasks := Write(s, pc.slot, pc.call))
    case Push(t) =>
      var pc := s.pcs[t];
      var pcs := At(s, t, Idle);
      s.(workLock := Nobody, work := s.work + [pc.slot], locs := Move(s, pc.slot, InWork),
         queued := s.queued + [Entry(pc.slot, pc.call)],
         pcs := if |s.work + [pc.slot]| == 1 then WakeWork(pcs) else pcs)
  }

  function Pop(s: Pool, t: Tid): Pool
    requires s.work != []
  {
    s.(workLock := Nobody, work := s.work[1..], locs := Move(s, s.work[0], InHand(t)),
       taken := s.taken + 1, pcs := At(s, t, Got(s.work[0], s.taken)))
  }

  function Move(s: Pool, slot: Slot, l: Loc): seq<Loc> {
    if slot < |s.locs| then s.locs[slot := l] else s.locs
  }

  function Write(s: Pool, slot: Slot, c: Call): seq<Call> {
    if slot < |s.tasks| then s.tasks[slot := c] else s.tasks
  }

  // ---------------------------------------------------------------- invariants

  predicate HoldsWork(pc: Pc) { pc.TestWork? || pc.GoingToSleep? || pc.LeaveLoop? || pc.Pushing? }
  predicate HoldsFree(pc: Pc) { pc.Giving? || pc.TestFree? }
  predicate InPossession(pc: Pc) {
    pc.Got? || pc.Running? || pc.WantFree? || pc.Giving? || pc.Holding? || pc.Filled? || pc.Pushing?
  }

  /** Mutual exclusion: a lock's owner is the one thread inside its region. */
  ghost predicate Locks(s: Pool) {
    && (forall t <- s.pcs :: HoldsWork(s.pcs[t]) <==> s.workLock == Thread(t))
    && (forall t <- s.pcs :: HoldsFree(s.pcs[t]) <==> s.freeLock == Thread(t))
    && (s.stopper == StopLocked <==> s.workLock == Destructor)
    && (s.workLock.Thread? ==> s.workLock.tid in s.pcs)
    && (s.freeLock.Thread? ==> s.freeLock.tid in s.pcs)
    && s.freeLock != Destructor
  }

  /** Conservation: each slot is where its location says, and nowhere else. */
  ghost predicate Conserved(s: Pool) {
    && |s.locs| == |s.tasks|
    && Distinct(s.free) && Distinct(s.work)
    && (forall x <- s.free :: x < |s.locs|)
    && (forall x <- s.work :: x < |s.locs|)
    && (forall x :: 0 <= x < |s.locs| ==> (x in s.free <==> s.locs[x] == InFree))
    && (forall x :: 0 <= x < |s.locs| ==> (x in s.work <==> s.locs[x] == InWork))
    && (forall x :: 0 <= x < |s.locs| && s.locs[x].InHand? ==>
          s.locs[x].tid in s.pcs && InPossession(s.pcs[s.locs[x].tid]) && s.pcs[s.locs[x].tid].slot == x)
    && (forall t <- s.pcs :: InPossession(s.pcs[t]) ==>
          s.pcs[t].slot < |s.locs| && s.locs[s.pcs[t].slot] == InHand(t))
  }

  /** FIFO: what was taken is a prefix of what was queued, and the rest is the queue, in order. */
  ghost predicate Fifo(s: Pool) {
    && |s.queued| == s.taken + |s.work|
    && (forall i :: 0 <= i < |s.work| ==> s.work[i] == s.queued[s.taken + i].slot)
    && (forall i :: 0 <= i < |s.work| && s.work[i] < |s.tasks| ==> s.tasks[s.work[i]] == s.queued[s.taken + i].call)
    && (forall t <- s.pcs :: (s.pcs[t].Filled? || s.pcs[t].Pushing?) && s.pcs[t].slot < |s.tasks| ==>
          s.tasks[s.pcs[t].slot] == s.pcs[t].call)
    && (forall t <- s.pcs :: s.pcs[t].Got? ==> s.pcs[t].ticket < s.taken)
    && (forall t <- s.pcs :: s.pcs[t].Got? ==>
          (s.pcs[t].slot < |s.tasks| ==> s.tasks[s.pcs[t].slot] == s.queued[s.pcs[t].ticket].call))
  }

  /** Each entry is run at most once, and with the call it was queued with. */
  ghost predicate RunOnce(s: Pool) {
    && (forall i, j :: 0 <= i < j < |s.runs| ==> s.runs[i].ticket != s.runs[j].ticket)
    && s.taken <= |s.queued|
    && (forall i :: 0 <= i < |s.runs| ==> s.runs[i].ticket < s.taken)
    && (forall i :: 0 <= i < |s.runs| ==> s.runs[i].call == s.queued[s.runs[i].ticket].call)
    && (forall t <- s.pcs, i :: s.pcs[t].Got? && 0 <= i < |s.runs| ==> s.runs[i].ticket != s.pcs[t].ticket)
    && (forall t <- s.pcs, u <- s.pcs :: t != u && s.pcs[t].Got? && s.pcs[u].Got? ==>
          s.pcs[t].ticket != s.pcs[u].ticket)
    && (forall t <- s.pcs :: s.pcs[t].Got? ==> s.pcs[t].ticket < s.taken)
  }

  /** No lost wakeup: a thread is asleep only while its queue is empty, and once the destructor has
      broadcast no worker is asleep or on its way to sleep. */
  ghost predicate NoLostWakeup(s: Pool) {
    && (forall t <- s.pcs :: s.pcs[t].Asleep? || s.pcs[t].GoingToSleep? ==> s.work == [])
    && (forall t <- s.pcs :: s.pcs[t].AsleepFree? ==> s.free == [])
    && (s.stop <==> s.stopper != NotStopping)
    && (s.stopper == StopLocked || s.stopper == StopDone ==> forall t <- s.pcs :: !s.pcs[t].GoingToSleep?)
    && (s.stopper == StopDone ==> forall t <- s.pcs :: !s.pcs[t].Asleep?)
  }

  /** No NULL task is dereferenced and no empty queue is popped. */
  ghost predicate NoCrash(s: Pool) {
    && (forall t <- s.pcs :: s.pcs[t].LeaveLoop? ==> s.work != [] || s.stop)
    && (forall t <- s.pcs :: s.pcs[t].GotNothing? ==> s.stop)
    && (forall t <- s.pcs :: !s.pcs[t].Crashed?)
  }

  ghost predicate NoNullRoutine(s: Pool) {
    forall i :: 0 <= i < |s.queued| ==> s.queued[i].call.routine != 0
  }

  /** Slots are lost only to null routines. */
  ghost predicate LostToNull(s: Pool) {
    NoNullRoutine(s) ==> forall x :: 0 <= x < |s.locs| ==> s.locs[x] != Lost
  }

  ghost predicate Inv(s: Pool) {
    Locks(s) && Conserved(s) && Fifo(s) && RunOnce(s) && NoLostWakeup(s) && NoCrash(s) && LostToNull(s)
  }

  ghost predicate Init(s: Pool, queueSize: nat) {
    && (forall t <- s.pcs :: s.pcs[t].Outside? || s.pcs[t].Idle?)
    && s.stopper == NotStopping && !s.stop && s.workLock == Nobody && s.freeLock == Nobody
    && s.tasks == seq(queueSize, _ => NO_CALL) && s.free == seq(queueSize, i => i) && s.work == []
    && s.locs == seq(queueSize, _ => InFree) && s.queued == [] && s.taken == 0 && s.runs == []
  }

  lemma InitInv(s: Pool, queueSize: nat)
    requires Init(s, queueSize)
    ensures Inv(s)
  {
    forall x | 0 <= x < queueSize ensures x in s.free {
      assert s.free[x] == x;
    }
  }
}
