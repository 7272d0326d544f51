/** What becomes of the tasks that are queued: before the destructor starts they can all be run, and
    once it has raised the flag none of them is taken any more. */
module PoolDrain {
  import opened Basics
  import opened PoolModel
  import opened PoolProofs
  import opened PoolRuns

  // ---------------------------------------------------------------- nothing that was taken is forgotten

  ghost predicate Ran(s: Pool, k: nat) {
    exists i :: 0 <= i < |s.runs| && s.runs[i].ticket == k
  }

  ghost predicate PickedUp(s: Pool, k: nat) {
    exists t :: t in s.pcs && s.pcs[t].Got? && s.pcs[t].ticket == k
  }

  /** Every entry that was taken has been run, or a worker is about to run it, unless its routine is
      null. */
  ghost predicate Ledger(s: Pool) {
    && s.taken <= |s.queued|
    && forall k: nat :: k < s.taken && s.queued[k].call.routine != 0 ==> Ran(s, k) || PickedUp(s, k)
  }

  lemma LedgerKept(s: Pool, a: Action)
    requires Inv(s) && Ledger(s) && Enabled(s, a)
    ensures Ledger(Apply(s, a))
  {
    hide Inv, Apply, Enabled, Locks, Conserved, Fifo, RunOnce, NoLostWakeup, NoCrash, LostToNull, Ran, PickedUp;
    InvKept(s, a);
    HistoryGrows(s, a);
    var s' := Apply(s, a);
    RunOnceBounds(s');
    forall k: nat | k < s'.taken && s'.queued[k].call.routine != 0 ensures Ran(s', k) || PickedUp(s', k) {
      if k >= s.taken {
        JustTaken(s, a, k);
      } else if Ran(s, k) {
        RanStays(s, s', k);
      } else {
        PickedUpOn(s, a, k);
      }
    }
  }

  lemma RunOnceBounds(s: Pool)
    requires Inv(s)
    ensures s.taken <= |s.queued|
  {
  }

  lemma RanStays(s: Pool, s': Pool, k: nat)
    requires Ran(s, k) && s.runs <= s'.runs
    ensures Ran(s', k)
  {
    var i :| 0 <= i < |s.runs| && s.runs[i].ticket == k;
    assert s'.runs[i] == s.runs[i];
  }

  lemma JustTaken(s: Pool, a: Action, k: nat)
    requires Enabled(s, a) && s.taken <= k < Apply(s, a).taken
    ensures PickedUp(Apply(s, a), k)
  {
    hide Move, Write, WakeFree, WakeWork;
    assert Apply(s, a).pcs[a.t].Got?;
  }

  /** The worker that has the entry still has it, or has begun to run it. */
  lemma PickedUpOn(s: Pool, a: Action, k: nat)
    requires Inv(s) && Enabled(s, a) && PickedUp(s, k) && k < |s.queued| && s.queued[k].call.routine != 0
    ensures Ran(Apply(s, a), k) || PickedUp(Apply(s, a), k)
  {
    hide Inv, Move, Write, Locks, Conserved, Fifo, RunOnce, NoLostWakeup, NoCrash, LostToNull;
    var t :| t in s.pcs && s.pcs[t].Got? && s.pcs[t].ticket == k;
    GotCall(s, t);
    var s' := Apply(s, a);
    if a == Begin(t) {
      assert s'.runs[|s.runs|].ticket == k;
    } else {
      assert s'.pcs[t] == s.pcs[t];
    }
  }

  lemma GotCall(s: Pool, t: Tid)
    requires Inv(s) && t in s.pcs && s.pcs[t].Got?
    ensures s.pcs[t].slot < |s.tasks| && s.pcs[t].ticket < |s.queued|
    ensures s.tasks[s.pcs[t].slot] == s.queued[s.pcs[t].ticket].call
  {
    hide Locks, NoLostWakeup, NoCrash, LostToNull, Distinct;
    assert InPossession(s.pcs[t]);
  }

  lemma {:induction false} RunLedger(states: seq<Pool>, actions: seq<Action>, queueSize: nat, i: nat)
    requires Run(states, actions, queueSize) && i < |states|
    ensures Ledger(states[i])
  {
    hide Inv, Apply, Enabled, Ledger;
    if i == 0 {
      LedgerStarts(states[0], queueSize);
    } else {
      RunLedger(states, actions, queueSize, i - 1);
      RunInv(states, actions, queueSize, i - 1);
      assert Enabled(states[i - 1], actions[i - 1]);
      LedgerKept(states[i - 1], actions[i - 1]);
    }
  }

  lemma LedgerStarts(s: Pool, queueSize: nat)
    requires Init(s, queueSize)
    ensures Ledger(s)
  {
  }

  // ---------------------------------------------------------------- emptying the queue

  /** A worker that has not left its loop. */
  predicate Working(pc: Pc) {
    || pc.Outside? || pc.WantWork? || pc.TestWork? || pc.GoingToSleep? || pc.Asleep? || pc.LeaveLoop?
    || pc.Got? || pc.Running? || pc.WantFree? || pc.Giving?
  }

  /** The workers that have taken a task and not begun it. */
  function About(s: Pool): set<Tid> { set t | t in s.pcs && s.pcs[t].Got? }

  /** The state may be drained: the destructor has not started, and w works. */
  ghost predicate Drainable(s: Pool, w: Tid) {
    Inv(s) && s.stopper == NotStopping && w in s.pcs && Working(s.pcs[w])
  }

  predicate Drained(s: Pool) {
    s.work == [] && About(s) == {} && s.workLock == Nobody
  }

  /** The step that brings the pool nearer to an empty queue, w being the worker that empties it. */
  ghost function NextStep(s: Pool, w: Tid): Action
    requires w in s.pcs
  {
    if s.workLock.Thread? && s.workLock.tid in s.pcs then OwnStep(s.workLock.tid, s.pcs[s.workLock.tid])
    else if About(s) != {} then var t :| t in About(s); Begin(t)
    else if s.pcs[w].WantFree? && s.freeLock.Thread? && s.freeLock.tid in s.pcs
      then OwnStep(s.freeLock.tid, s.pcs[s.freeLock.tid])
    else OwnStep(w, s.pcs[w])
  }

  // How far it is to the empty queue: whether the owner of the lock is about to push, what is queued and
  // what is about to begin, how far the worker is from taking a task, and how far the owners of the locks
  // are from giving them up.

  function WorkOwner(s: Pool): Pc {
    if s.workLock.Thread? && s.workLock.tid in s.pcs then s.pcs[s.workLock.tid] else Idle
  }

  function Pushes(s: Pool): nat { Count(WorkOwner(s).Pushing?) }

  function LockRank(s: Pool): nat {
    var pc := WorkOwner(s);
    if pc.TestWork? then 2 else Count(pc.GoingToSleep? || pc.LeaveLoop?)
  }

  function FreeRank(s: Pool): nat { Count(s.freeLock != Nobody) }

  function Rank(pc: Pc): nat {
    match pc
    case Running(_, _) => 8
    case WantFree(_) => 7
    case Giving(_) => 6
    case Outside => 5
    case WantWork => 4
    case TestWork => 3
    case GoingToSleep => 2
    case LeaveLoop => 2
    case _ => 1
  }

  /** The distance has become less. */
  ghost predicate Nearer(s: Pool, s': Pool, w: Tid)
    requires w in s.pcs && w in s'.pcs
  {
    (Pushes(s), |s.work|, |About(s)|, Rank(s.pcs[w]), LockRank(s), FreeRank(s)
     decreases to Pushes(s'), |s'.work|, |About(s')|, Rank(s'.pcs[w]), LockRank(s'), FreeRank(s'))
  }

  ghost predicate Good(s: Pool, a: Action, w: Tid)
    requires w in s.pcs
  {
    && Enabled(s, a)
    && var s' := Apply(s, a);
    s'.stopper == s.stopper && w in s'.pcs && Working(s'.pcs[w]) && Nearer(s, s', w)
  }

  /** The owner of the work lock gets on. */
  lemma OwnerNearer(s: Pool, w: Tid)
    requires Drainable(s, w) && s.workLock != Nobody
    ensures Good(s, NextStep(s, w), w)
  {
    hide Inv, Move, Write, Conserved, Fifo, RunOnce, LostToNull, WakeFree;
    OwnerIs(s);
    var u := s.workLock.tid;
    var a := OwnStep(u, s.pcs[u]);
    var s' := Apply(s, a);
    if !s.pcs[u].LeaveLoop? && !s.pcs[u].Pushing? {
      assert About(s') == About(s);
    }
  }

  lemma OwnerIs(s: Pool)
    requires Inv(s) && s.stopper == NotStopping && s.workLock != Nobody
    ensures s.workLock.Thread? && s.workLock.tid in s.pcs && HoldsWork(s.pcs[s.workLock.tid]) && !s.stop
    ensures s.pcs[s.workLock.tid].LeaveLoop? ==> s.work != []
  {
    hide Conserved, Fifo, RunOnce, LostToNull;
  }

  /** A task that was taken is begun. */
  lemma BeginNearer(s: Pool, w: Tid)
    requires Drainable(s, w) && s.workLock == Nobody && About(s) != {}
    ensures Good(s, NextStep(s, w), w)
  {
    hide Inv, Move, Locks, Conserved, Fifo, RunOnce, LostToNull, NoCrash, NoLostWakeup;
    var a := NextStep(s, w);
    GotCall(s, a.t);
    var s' := Apply(s, a);
    assert About(s') == About(s) - {a.t};
  }

  /** The owner of the free lock, which the worker waits for, gives it up. */
  lemma FreeNearer(s: Pool, w: Tid)
    requires Drainable(s, w) && s.workLock == Nobody && About(s) == {} && s.pcs[w].WantFree? && s.freeLock != Nobody
    ensures Good(s, NextStep(s, w), w)
  {
    hide Inv, Move, Write, Conserved, Fifo, RunOnce, LostToNull, NoCrash, NoLostWakeup;
    FreeOwnerIs(s);
    var s' := Apply(s, NextStep(s, w));
    assert About(s') == About(s);
  }

  lemma FreeOwnerIs(s: Pool)
    requires Inv(s) && s.freeLock != Nobody
    ensures s.freeLock.Thread? && s.freeLock.tid in s.pcs && HoldsFree(s.pcs[s.freeLock.tid])
  {
    hide Conserved, Fifo, RunOnce, LostToNull, NoCrash, NoLostWakeup;
  }

  /** The worker itself gets on: nobody has a lock that it needs. */
  lemma WorkerNearer(s: Pool, w: Tid)
    requires Drainable(s, w) && s.workLock == Nobody && About(s) == {} && s.work != []
    requires s.pcs[w].WantFree? ==> s.freeLock == Nobody
    ensures Good(s, NextStep(s, w), w)
  {
    hide Inv, Move, Write, Conserved, Fifo, RunOnce, LostToNull, WakeWork;
    WorkerIs(s, w);
    var s' := Apply(s, NextStep(s, w));
    assert About(s') == About(s);
  }

  lemma WorkerIs(s: Pool, w: Tid)
    requires Drainable(s, w) && s.workLock == Nobody && About(s) == {} && s.work != []
    ensures !s.stop && !HoldsWork(s.pcs[w]) && !s.pcs[w].Asleep? && !s.pcs[w].Got?
  {
    hide Conserved, Fifo, RunOnce, LostToNull, NoCrash;
    assert w !in About(s);
  }

  lemma NextNearer(s: Pool, w: Tid)
    requires Drainable(s, w) && !Drained(s)
    ensures Good(s, NextStep(s, w), w)
  {
    hide Inv, Good, NextStep;
    if s.workLock != Nobody {
      OwnerNearer(s, w);
    } else if About(s) != {} {
      BeginNearer(s, w);
    } else if s.pcs[w].WantFree? && s.freeLock != Nobody {
      FreeNearer(s, w);
    } else {
      WorkerNearer(s, w);
    }
  }

  /** The actions can be taken one after the other, and lead from s to e. */
  ghost predicate Leads(s: Pool, actions: seq<Action>, e: Pool)
    decreases |actions|
  {
    if actions == [] then e == s
    else Enabled(s, actions[0]) && Leads(Apply(s, actions[0]), actions[1..], e)
  }

  /** As long as the destructor has not started and a worker is left, the queue can be emptied. */
  lemma {:induction false} Drain(s: Pool, w: Tid) returns (actions: seq<Action>, e: Pool)
    requires Drainable(s, w) && Ledger(s)
    ensures Leads(s, actions, e) && Drainable(e, w) && Ledger(e) && Drained(e) && s.queued <= e.queued
    decreases Pushes(s), |s.work|, |About(s)|, Rank(s.pcs[w]), LockRank(s), FreeRank(s)
  {
    hide Inv, Apply, Enabled, NextStep, Ledger, Pushes, LockRank, FreeRank, Rank, About;
    if Drained(s) {
      actions, e := [], s;
    } else {
      NextNearer(s, w);
      var a := NextStep(s, w);
      InvKept(s, a);
      LedgerKept(s, a);
      HistoryGrows(s, a);
      var rest;
      rest, e := Drain(Apply(s, a), w);
      actions := [a] + rest;
      assert actions[1..] == rest;
    }
  }

  /** In every state of every run before the destructor starts: if a worker is left, some interleaving
      empties the queue and runs every entry with the call it was queued with, but for null routines. */
  lemma EverythingCanRun(states: seq<Pool>, actions: seq<Action>, queueSize: nat, i: nat, w: Tid)
    returns (more: seq<Action>, e: Pool)
    requires Run(states, actions, queueSize) && i < |states| && states[i].stopper == NotStopping
    requires w in states[i].pcs && Working(states[i].pcs[w])
    ensures Leads(states[i], more, e) && e.work == [] && states[i].queued <= e.queued && Inv(e)
    ensures forall k :: 0 <= k < |e.queued| && e.queued[k].call.routine != 0 ==>
      exists j :: 0 <= j < |e.runs| && e.runs[j] == Execution(k, e.queued[k].call)
  {
    hide Inv, Apply, Enabled, Ledger, Leads;
    RunInv(states, actions, queueSize, i);
    RunLedger(states, actions, queueSize, i);
    more, e := Drain(states[i], w);
    forall k | 0 <= k < |e.queued| && e.queued[k].call.routine != 0
      ensures exists j :: 0 <= j < |e.runs| && e.runs[j] == Execution(k, e.queued[k].call)
    {
      DrainedRan(e, k);
    }
  }

  lemma DrainedRan(s: Pool, k: nat)
    requires Inv(s) && Ledger(s) && Drained(s) && k < |s.queued| && s.queued[k].call.routine != 0
    ensures exists j :: 0 <= j < |s.runs| && s.runs[j] == Execution(k, s.queued[k].call)
  {
    hide Locks, Conserved, LostToNull, NoCrash, NoLostWakeup;
    forall t <- s.pcs ensures !s.pcs[t].Got? {
      assert t !in About(s);
    }
    var j :| 0 <= j < |s.runs| && s.runs[j].ticket == k;
  }

  // ---------------------------------------------------------------- after the flag is raised

  /** Once the flag is raised nothing is taken from the queue any more, so what is in it is never run. */
  lemma {:induction false} StopAbandonsQueue(
    states: seq<Pool>, actions: seq<Action>, queueSize: nat, i: nat, j: nat)
    requires Run(states, actions, queueSize) && i <= j < |states| && states[i].stop
    ensures states[j].stop && states[j].taken == states[i].taken && states[i].work <= states[j].work
    ensures forall k :: 0 <= k < |states[j].runs| ==> states[j].runs[k].ticket < states[i].taken
    decreases j - i
  {
    hide Inv, Apply, Enabled, Init;
    RunInv(states, actions, queueSize, j);
    if i < j {
      StopAbandonsQueue(states, actions, queueSize, i, j - 1);
      assert Enabled(states[j - 1], actions[j - 1]);
      StopStep(states[j - 1], actions[j - 1]);
    }
    TicketsTaken(states[j]);
  }

  lemma StopStep(s: Pool, a: Action)
    requires Enabled(s, a) && s.stop
    ensures var s' := Apply(s, a); s'.stop && s'.taken == s.taken && s.work <= s'.work
  {
    hide Move, Write, WakeFree, WakeWork;
  }

  lemma TicketsTaken(s: Pool)
    requires Inv(s)
    ensures forall k :: 0 <= k < |s.runs| ==> s.runs[k].ticket < s.taken
  {
    hide Locks, Conserved, Fifo, LostToNull, NoCrash, NoLostWakeup;
  }

  // ---------------------------------------------------------------- the workers exit

  /** The destructor has broadcast, and w has not yet left its loop. */
  ghost predicate Stopping(s: Pool, w: Tid) {
    Inv(s) && s.stopper == StopDone && w in s.pcs && (Working(s.pcs[w]) || s.pcs[w].GotNothing?)
  }

  function ExitRank(pc: Pc): nat {
    match pc
    case Got(_, _) => 9
    case Running(_, _) => 8
    case WantFree(_) => 7
    case Giving(_) => 6
    case Outside => 5
    case WantWork => 4
    case TestWork => 3
    case LeaveLoop => 2
    case GotNothing => 1
    case _ => 0
  }

  lemma StopIs(s: Pool, w: Tid)
    requires Stopping(s, w)
    ensures s.stop && !s.pcs[w].Asleep? && !s.pcs[w].GoingToSleep?
    ensures s.workLock != Nobody ==>
      && s.workLock.Thread? && s.workLock.tid in s.pcs && HoldsWork(s.pcs[s.workLock.tid])
      && !s.pcs[s.workLock.tid].GoingToSleep?
    ensures s.freeLock != Nobody ==>
      s.freeLock.Thread? && s.freeLock.tid in s.pcs && HoldsFree(s.pcs[s.freeLock.tid])
  {
    hide Conserved, Fifo, RunOnce, LostToNull, NoCrash;
  }

  /** The step is possible and brings w nearer to its exit. */
  ghost predicate NearerExit(s: Pool, a: Action, w: Tid)
    requires w in s.pcs
  {
    && Enabled(s, a)
    && var s' := Apply(s, a);
    && s'.stopper == StopDone && w in s'.pcs
    && (s'.pcs[w].Exited? || Working(s'.pcs[w]) || s'.pcs[w].GotNothing?)
    && (ExitRank(s.pcs[w]), Pushes(s), LockRank(s), FreeRank(s)
        decreases to ExitRank(s'.pcs[w]), Pushes(s'), LockRank(s'), FreeRank(s'))
  }

  lemma OwnExit(s: Pool, w: Tid)
    requires Stopping(s, w)
    requires (s.pcs[w].WantWork? ==> s.workLock == Nobody) && (s.pcs[w].WantFree? ==> s.freeLock == Nobody)
    ensures NearerExit(s, OwnStep(w, s.pcs[w]), w)
  {
    hide Inv, Move, Write, Conserved, Fifo, RunOnce, LostToNull, NoLostWakeup, NoCrash, Locks;
    StopIs(s, w);
    if s.pcs[w].Got? {
      GotCall(s, w);
    }
  }

  lemma WorkOwnerExit(s: Pool, w: Tid)
    requires Stopping(s, w) && s.pcs[w].WantWork? && s.workLock.Thread? && s.workLock.tid in s.pcs
    ensures NearerExit(s, OwnStep(s.workLock.tid, s.pcs[s.workLock.tid]), w)
  {
    hide Inv, Move, Write, Conserved, Fifo, RunOnce, LostToNull, NoLostWakeup, NoCrash, Locks;
    StopIs(s, w);
  }

  lemma FreeOwnerExit(s: Pool, w: Tid)
    requires Stopping(s, w) && s.pcs[w].WantFree? && s.freeLock.Thread? && s.freeLock.tid in s.pcs
    ensures NearerExit(s, OwnStep(s.freeLock.tid, s.pcs[s.freeLock.tid]), w)
  {
    hide Inv, Move, Write, Conserved, Fifo, RunOnce, LostToNull, NoLostWakeup, NoCrash;
    StopIs(s, w);
  }

  /** The step is its own, or that of the owner of the lock it waits for. */
  lemma ExitNearer(s: Pool, w: Tid) returns (a: Action)
    requires Stopping(s, w)
    ensures NearerExit(s, a, w)
  {
    hide Inv, NearerExit;
    StopIs(s, w);
    if s.pcs[w].WantWork? && s.workLock != Nobody {
      a := OwnStep(s.workLock.tid, s.pcs[s.workLock.tid]);
      WorkOwnerExit(s, w);
    } else if s.pcs[w].WantFree? && s.freeLock != Nobody {
      a := OwnStep(s.freeLock.tid, s.pcs[s.freeLock.tid]);
      FreeOwnerExit(s, w);
    } else {
      a := OwnStep(w, s.pcs[w]);
      OwnExit(s, w);
    }
  }

  lemma {:induction false} Exit(s: Pool, w: Tid) returns (actions: seq<Action>, e: Pool)
    requires Stopping(s, w)
    ensures Leads(s, actions, e) && Inv(e) && w in e.pcs && e.pcs[w].Exited?
    decreases ExitRank(s.pcs[w]), Pushes(s), LockRank(s), FreeRank(s)
  {
    hide Inv, Apply, Enabled, ExitRank, Pushes, LockRank, FreeRank;
    var a := ExitNearer(s, w);
    InvKept(s, a);
    var s' := Apply(s, a);
    var rest;
    if s'.pcs[w].Exited? {
      rest, e := [], s';
    } else {
      rest, e := Exit(s', w);
    }
    actions := [a] + rest;
    assert actions[1..] == rest;
  }

  /** Once the flag is raised, a worker between two tasks leaves its loop in two steps of its own, and takes no
      lock to do so. */
  lemma OutsideExitsAtOnce(s: Pool, w: Tid)
    requires w in s.pcs && s.pcs[w].Outside? && s.stop
    ensures Enabled(s, ReadStop(w)) && Enabled(Apply(s, ReadStop(w)), Begin(w))
    ensures Apply(Apply(s, ReadStop(w)), Begin(w)) == s.(pcs := s.pcs[w := Exited])
  {
    assert s.pcs[w := GotNothing][w := Exited] == s.pcs[w := Exited];
  }

  /** In every state of every run after the destructor's broadcast, each worker that has not left its loop
      can still leave it; so the destructor's join is never bound to wait for ever. */
  lemma EveryWorkerCanExit(states: seq<Pool>, actions: seq<Action>, queueSize: nat, i: nat, w: Tid)
    returns (more: seq<Action>, e: Pool)
    requires Run(states, actions, queueSize) && i < |states| && states[i].stopper == StopDone
    requires w in states[i].pcs && (Working(states[i].pcs[w]) || states[i].pcs[w].GotNothing?)
    ensures Leads(states[i], more, e) && w in e.pcs && e.pcs[w].Exited?
  {
    hide Inv, Apply, Enabled, Leads;
    RunInv(states, actions, queueSize, i);
    more, e := Exit(states[i], w);
  }
}
