/** What the invariants of the thread pool mean for every run. */
module PoolRuns {
  import opened Basics
  import opened PoolModel
  import opened PoolProofs

  ghost predicate Run(states: seq<Pool>, actions: seq<Action>, queueSize: nat) {
    && |states| == |actions| + 1
    && Init(states[0], queueSize)
    && (forall i :: 0 <= i < |actions| ==>
          Enabled(states[i], actions[i]) && states[i + 1] == Apply(states[i], actions[i]))
  }

  /** Every state of every run satisfies every invariant. */
  lemma {:induction false} RunInv(states: seq<Pool>, actions: seq<Action>, queueSize: nat, i: nat)
    requires Run(states, actions, queueSize) && i < |states|
    ensures Inv(states[i])
  {
    hide Inv, Apply, Enabled;
    if i == 0 {
      InitInv(states[0], queueSize);
    } else {
      RunInv(states, actions, queueSize, i - 1);
      assert Enabled(states[i - 1], actions[i - 1]);
      InvKept(states[i - 1], actions[i - 1]);
    }
  }

  function Holders(s: Pool, x: Slot): set<Tid> {
    set t | t in s.pcs && InPossession(s.pcs[t]) && s.pcs[t].slot == x
  }

  function Count(b: bool): nat { if b then 1 else 0 }

  /** The number of places a slot is in: the free queue, the work queue, the hands of threads. */
  function Places(s: Pool, x: Slot): nat {
    Count(x in s.free) + Count(x in s.work) + |Holders(s, x)|
  }

  /** Conservation: a slot is in exactly one place, or, once a null routine has taken it, in none. */
  lemma OnePlace(s: Pool, x: Slot)
    requires Inv(s) && x < |s.tasks|
    ensures Places(s, x) == if s.locs[x] == Lost then 0 else 1
    ensures NoNullRoutine(s) ==> Places(s, x) == 1
  {
    hide Locks, Fifo, RunOnce, NoLostWakeup, NoCrash, Distinct;
    if s.locs[x].InHand? {
      assert Holders(s, x) == {s.locs[x].tid};
    } else {
      assert Holders(s, x) == {};
    }
  }

  /** A null routine does lose its slot: no queue and no thread has it afterwards. */
  lemma NullRoutineLosesSlot(s: Pool, t: Tid)
    requires Inv(s) && t in s.pcs && s.pcs[t].Got? && s.tasks[s.pcs[t].slot].routine == 0
    ensures Enabled(s, Begin(t)) && Places(Apply(s, Begin(t)), s.pcs[t].slot) == 0
  {
    InvKept(s, Begin(t));
    OnePlace(Apply(s, Begin(t)), s.pcs[t].slot);
  }

  /** And it is lost for good: no step of any run brings it back. */
  lemma {:induction false} LostForGood(
    states: seq<Pool>, actions: seq<Action>, queueSize: nat, i: nat, j: nat, x: Slot)
    requires Run(states, actions, queueSize) && i <= j < |states|
    requires x < |states[i].locs| && states[i].locs[x] == Lost
    ensures x < |states[j].tasks| && Places(states[j], x) == 0
    ensures |states[j].locs| == |states[j].tasks| && states[j].locs[x] == Lost
    decreases j - i
  {
    hide Inv, Apply, Enabled, Init, Places;
    RunInv(states, actions, queueSize, j);
    if i < j {
      LostForGood(states, actions, queueSize, i, j - 1, x);
      RunInv(states, actions, queueSize, j - 1);
      assert Enabled(states[j - 1], actions[j - 1]);
      LostStep(states[j - 1], actions[j - 1], x);
    }
    AllLocated(states[j]);
    OnePlace(states[j], x);
  }

  lemma AllLocated(s: Pool)
    requires Inv(s)
    ensures |s.locs| == |s.tasks|
  {
    hide Locks, Fifo, RunOnce, NoLostWakeup, NoCrash, Distinct;
  }

  lemma LostStep(s: Pool, a: Action, x: Slot)
    requires Inv(s) && Enabled(s, a) && x < |s.locs| && s.locs[x] == Lost
    ensures x < |Apply(s, a).locs| && Apply(s, a).locs[x] == Lost
  {
    hide Locks, Fifo, RunOnce, NoLostWakeup, NoCrash, Distinct, Write, WakeFree, WakeWork;
  }

  /** The slots of the entries that have been queued and not yet taken, oldest first. */
  function Pending(s: Pool): seq<Slot>
    requires s.taken <= |s.queued|
  {
    Slots(s.queued[s.taken..])
  }

  function Slots(entries: seq<Entry>): (q: seq<Slot>)
    ensures |q| == |entries| && forall i :: 0 <= i < |q| ==> q[i] == entries[i].slot
  {
    if entries == [] then [] else [entries[0].slot] + Slots(entries[1..])
  }

  lemma QueueIsPending(s: Pool)
    requires Fifo(s)
    ensures s.taken <= |s.queued| && s.work == Pending(s)
  {
  }

  /** First in, first out: the history of the queue only grows, entries leave it in order, and what
      has not left is the queue. */
  lemma {:induction false} TakenIsPrefixOfQueued(
    states: seq<Pool>, actions: seq<Action>, queueSize: nat, i: nat, j: nat)
    requires Run(states, actions, queueSize) && i <= j < |states|
    ensures states[i].queued <= states[j].queued && states[i].runs <= states[j].runs
    ensures states[i].taken <= states[j].taken <= |states[j].queued|
    ensures states[j].work == Pending(states[j])
    decreases j - i
  {
    hide Apply, Enabled, Init, Locks, RunOnce, NoLostWakeup, NoCrash, Conserved, LostToNull;
    RunInv(states, actions, queueSize, j);
    QueueIsPending(states[j]);
    if i < j {
      TakenIsPrefixOfQueued(states, actions, queueSize, i, j - 1);
      assert Enabled(states[j - 1], actions[j - 1]);
      HistoryGrows(states[j - 1], actions[j - 1]);
    }
  }

  lemma HistoryGrows(s: Pool, a: Action)
    requires Enabled(s, a)
    ensures s.queued <= Apply(s, a).queued && s.runs <= Apply(s, a).runs && s.taken <= Apply(s, a).taken
  {
    hide Move, Write, WakeFree, WakeWork;
  }

  /** Once the destructor has broadcast, no worker is asleep ever again. */
  lemma {:induction false} NobodySleepsAfterStop(
    states: seq<Pool>, actions: seq<Action>, queueSize: nat, i: nat, j: nat, t: Tid)
    requires Run(states, actions, queueSize) && i <= j < |states|
    requires states[i].stopper == StopDone && t in states[j].pcs
    ensures states[j].stopper == StopDone && !states[j].pcs[t].Asleep? && !states[j].pcs[t].GoingToSleep?
    decreases j - i
  {
    StopStays(states, actions, queueSize, i, j);
    RunInv(states, actions, queueSize, j);
    hide Locks, Fifo, RunOnce, Conserved, NoCrash, LostToNull;
  }

  lemma {:induction false} StopStays(states: seq<Pool>, actions: seq<Action>, queueSize: nat, i: nat, j: nat)
    requires Run(states, actions, queueSize) && i <= j < |states|
    requires states[i].stopper == StopDone
    ensures states[j].stopper == StopDone
    decreases j - i
  {
    hide Move, Write, WakeFree, WakeWork;
    if i < j {
      StopStays(states, actions, queueSize, i, j - 1);
      assert Enabled(states[j - 1], actions[j - 1]);
      assert states[j] == Apply(states[j - 1], actions[j - 1]);
    }
  }

  /** The next step of a thread that waits for nothing. */
  function OwnStep(t: Tid, pc: Pc): Action {
    match pc
    case Outside => ReadStop(t)
    case TestWork => Test(t)
    case GoingToSleep => Sleep(t)
    case Asleep => Wake(t)
    case AsleepFree(_) => Wake(t)
    case LeaveLoop => Leave(t)
    case GotNothing => Begin(t)
    case Got(_, _) => Begin(t)
    case Running(_, _) => Finish(t)
    case Giving(_) => Give(t)
    case TestFree(_) => TakeSlot(t)
    case Holding(_, _) => Fill(t)
    case Pushing(_, _) => Push(t)
    case WantWork => LockWork(t)
    case Filled(_, _) => LockWork(t)
    case WantFree(_) => LockFree(t)
    case WantSlot(_) => LockFree(t)
    case Idle => Submit(t, NO_CALL)
    case Exited => SetFlag
    case Crashed => SetFlag
  }

  /** The step that lets a thread get on: its own, or that of the owner of the lock it wants. */
  function Unblocking(s: Pool, t: Tid): Action
    requires t in s.pcs
  {
    var pc := s.pcs[t];
    var lock := if pc.WantWork? || pc.Filled? then s.workLock
                else if pc.WantFree? || pc.WantSlot? then s.freeLock else Nobody;
    match lock
    case Nobody => OwnStep(t, pc)
    case Destructor => StopBroadcast
    case Thread(u) => if u in s.pcs then OwnStep(u, s.pcs[u]) else OwnStep(t, pc)
  }

  /** No deadlock: a thread that has not exited and is not asleep can step, or the owner of the lock
      it waits for can, and that owner is inside its region and so waits for nothing. */
  lemma NeverStuck(s: Pool, t: Tid)
    requires Inv(s) && t in s.pcs && !s.pcs[t].Exited? && !s.pcs[t].Asleep? && !s.pcs[t].AsleepFree?
    ensures Enabled(s, Unblocking(s, t))
  {
    hide Fifo, RunOnce, Conserved, LostToNull, NoLostWakeup;
  }
}
