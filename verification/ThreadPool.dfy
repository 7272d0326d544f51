/**
  The pool object (src/local/threadpool.hpp, src/local/threadpool.cpp): its two queues, its task
  array and its stop flag.  Each method is one region under a lock, or one unprotected access, and
  is proved to be the step of the transition system that PoolModel gives for it.
 */
module ThreadPool {
  import opened Basics
  import opened PoolModel
  import opened PoolProofs

  const QUEUE_SIZE: nat := 10000

  class Threadpool {
    const tasks: array<Call>
    var freeTasksQueue: seq<Slot>
    var tasksQueue: seq<Slot>
    var stopFlag: bool
    /** The threads, the locks and the history. */
    ghost var m: Pool

    ghost predicate Valid()
      reads this, tasks
    {
      Inv(m) && tasks[..] == m.tasks && freeTasksQueue == m.free && tasksQueue == m.work && stopFlag == m.stop
    }

    /** All tasks start out free and cleared; `pcs` are the threads that will use the pool. */
    constructor (ghost pcs: map<Tid, Pc>)
      requires forall t <- pcs :: pcs[t].Outside? || pcs[t].Idle?
      ensures Valid() && fresh(tasks) && Init(m, QUEUE_SIZE) && m.pcs == pcs
    {
      tasks := new Call[QUEUE_SIZE];
      new;
      freeTasksQueue, tasksQueue, stopFlag := [], [], false;
      var i := 0;
      while i < QUEUE_SIZE
        invariant i <= QUEUE_SIZE
        invariant forall k :: 0 <= k < i ==> tasks[k] == NO_CALL
        invariant freeTasksQueue == seq(i, k => k) && tasksQueue == [] && !stopFlag
      {
        tasks[i] := NO_CALL;
        freeTasksQueue := freeTasksQueue + [i];
        i := i + 1;
      }
      m := Pool(pcs, NotStopping, false, Nobody, Nobody, tasks[..], freeTasksQueue, [],
                seq(QUEUE_SIZE, _ => InFree), [], 0, []);
      assert m.tasks == seq(QUEUE_SIZE, _ => NO_CALL);
      InitInv(m, QUEUE_SIZE);
    }

    /** add_task, first region: take a free task, or wait (None) when there is none. */
    method TakeFreeTask(t: Tid) returns (newtask: Option<Slot>)
      requires Valid() && Enabled(m, TakeSlot(t))
      modifies this
      ensures Valid() && m == Apply(old(m), TakeSlot(t))
      ensures newtask == if old(freeTasksQueue) == [] then None else Some(old(freeTasksQueue)[0])
      ensures freeTasksQueue == (if old(freeTasksQueue) == [] then [] else old(freeTasksQueue)[1..])
      ensures tasksQueue == old(tasksQueue) && stopFlag == old(stopFlag)
      ensures newtask == None <==> m.pcs[t].AsleepFree?
    {
      hide Locks, Conserved, Fifo, RunOnce, NoLostWakeup, NoCrash, LostToNull;
      InvKept(m, TakeSlot(t));
      m := Apply(m, TakeSlot(t));
      if |freeTasksQueue| == 0 {
        newtask := None;
      } else {
        newtask := Some(freeTasksQueue[0]);
        freeTasksQueue := freeTasksQueue[1..];
      }
    }

    /** add_task, between the regions: fill in the task just taken. */
    method FillTask(t: Tid, newtask: Slot, call: Call)
      requires Valid() && Enabled(m, Fill(t)) && m.pcs[t] == Holding(newtask, call)
      modifies this, tasks
      ensures Valid() && m == Apply(old(m), Fill(t))
      ensures newtask < tasks.Length && tasks[..] == old(tasks[..])[newtask := call]
      ensures freeTasksQueue == old(freeTasksQueue) && tasksQueue == old(tasksQueue) && stopFlag == old(stopFlag)
    {
      hide Locks, Fifo, RunOnce, NoLostWakeup, NoCrash, LostToNull;
      InvKept(m, Fill(t));
      m := Apply(m, Fill(t));
      tasks[newtask] := call;
    }

    /** add_task, second region: queue the task; broadcast says whether the workers are woken. */
    method PushTask(t: Tid, newtask: Slot) returns (broadcast: bool)
      requires Valid() && Enabled(m, Push(t)) && m.pcs[t].slot == newtask
      modifies this
      ensures Valid() && m == Apply(old(m), Push(t))
      ensures broadcast <==> old(tasksQueue) == []
      ensures tasksQueue == old(tasksQueue) + [newtask]
      ensures freeTasksQueue == old(freeTasksQueue) && stopFlag == old(stopFlag)
      ensures m.pcs.Keys == old(m.pcs).Keys && forall u <- old(m.pcs) :: u != t ==>
        m.pcs[u] == if broadcast && old(m.pcs)[u].Asleep? then WantWork else old(m.pcs)[u]
    {
      hide Locks, Conserved, Fifo, RunOnce, NoLostWakeup, NoCrash, LostToNull;
      InvKept(m, Push(t));
      m := Apply(m, Push(t));
      tasksQueue := tasksQueue + [newtask];
      broadcast := |tasksQueue| == 1;
    }

    /** get_task_to_do, the while condition: whether the worker waits. */
    method MustWait(t: Tid) returns (wait: bool)
      requires Valid() && Enabled(m, Test(t))
      modifies this
      ensures Valid() && m == Apply(old(m), Test(t)) && (wait <==> m.pcs[t].GoingToSleep?)
      ensures wait <==> tasksQueue == [] && !stopFlag
      ensures tasksQueue == old(tasksQueue) && freeTasksQueue == old(freeTasksQueue) && stopFlag == old(stopFlag)
    {
      hide Locks, Conserved, Fifo, RunOnce, NoLostWakeup, NoCrash, LostToNull;
      InvKept(m, Test(t));
      m := Apply(m, Test(t));
      wait := |tasksQueue| == 0 && !stopFlag;
    }

    /** get_task_to_do, after the loop: the queue is popped only when it is not empty. */
    method PopTask(t: Tid) returns (newtask: Option<Slot>)
      requires Valid() && Enabled(m, Leave(t))
      modifies this
      ensures Valid() && m == Apply(old(m), Leave(t))
      ensures newtask == if stopFlag then None else Some(m.pcs[t].slot)
      ensures stopFlag == old(stopFlag) && freeTasksQueue == old(freeTasksQueue)
      ensures
        if stopFlag then tasksQueue == old(tasksQueue)
        else old(tasksQueue) != [] && newtask == Some(old(tasksQueue)[0]) && tasksQueue == old(tasksQueue)[1..]
    {
      hide Locks, Conserved, Fifo, RunOnce, NoLostWakeup, LostToNull;
      InvKept(m, Leave(t));
      newtask := None;
      if !stopFlag {
        assert tasksQueue != [];
        newtask := Some(tasksQueue[0]);
        tasksQueue := tasksQueue[1..];
      }
      m := Apply(m, Leave(t));
    }

    /** worker_routine: what the worker calls, or None when it leaves its loop; the task pointer is
        NULL only when the stop flag is set, so it is never dereferenced. */
    method BeginTask(t: Tid, toDo: Option<Slot>) returns (call: Option<Call>)
      requires Valid() && Enabled(m, Begin(t))
      requires toDo == if m.pcs[t].GotNothing? then None else Some(m.pcs[t].slot)
      modifies this
      ensures Valid() && m == Apply(old(m), Begin(t))
      ensures call == None <==> m.pcs[t].Exited?
      ensures m.pcs[t].Running? ==> call == Some(m.queued[m.pcs[t].ticket].call)
      ensures if toDo == None then call == None else toDo.value < tasks.Length && call == Some(tasks[toDo.value])
      ensures tasksQueue == old(tasksQueue) && freeTasksQueue == old(freeTasksQueue) && stopFlag == old(stopFlag)
    {
      hide Locks, RunOnce, NoLostWakeup, LostToNull;
      InvKept(m, Begin(t));
      assert toDo == None ==> stopFlag;
      call := if toDo == None && stopFlag then None else Some(tasks[toDo.value]);
      m := Apply(m, Begin(t));
    }

    /** worker_routine: init_task after the routine has returned. */
    method InitTask(t: Tid, toDo: Slot)
      requires Valid() && Enabled(m, Finish(t)) && m.pcs[t].slot == toDo
      modifies this, tasks
      ensures Valid() && m == Apply(old(m), Finish(t))
      ensures toDo < tasks.Length && tasks[..] == old(tasks[..])[toDo := Call(0, 0)]
      ensures freeTasksQueue == old(freeTasksQueue) && tasksQueue == old(tasksQueue) && stopFlag == old(stopFlag)
    {
      hide Locks, Fifo, RunOnce, NoLostWakeup, NoCrash, LostToNull;
      InvKept(m, Finish(t));
      m := Apply(m, Finish(t));
      tasks[toDo] := NO_CALL;
    }

    /** worker_routine, last region: give the task back; broadcast says whether submitters are woken. */
    method GiveTask(t: Tid, toDo: Slot) returns (broadcast: bool)
      requires Valid() && Enabled(m, Give(t)) && m.pcs[t].slot == toDo
      modifies this
      ensures Valid() && m == Apply(old(m), Give(t))
      ensures broadcast <==> old(freeTasksQueue) == []
      ensures freeTasksQueue == old(freeTasksQueue) + [toDo]
      ensures tasksQueue == old(tasksQueue) && stopFlag == old(stopFlag)
      ensures m.pcs.Keys == old(m.pcs).Keys && forall u <- old(m.pcs) :: u != t ==>
        m.pcs[u] == if broadcast && old(m.pcs)[u].AsleepFree? then WantSlot(old(m.pcs)[u].call) else old(m.pcs)[u]
    {
      hide Locks, Conserved, Fifo, RunOnce, NoLostWakeup, NoCrash, LostToNull;
      InvKept(m, Give(t));
      m := Apply(m, Give(t));
      freeTasksQueue := freeTasksQueue + [toDo];
      broadcast := |freeTasksQueue| == 1;
    }

    /** The steps that leave the fields alone: a call, a lock, an unprotected read of the flag, a wait, and
        the destructor's broadcast. */
    ghost method Step(a: Action)
      requires Valid() && Enabled(m, a)
      requires
        || a.Submit? || a.LockFree? || a.LockWork? || a.ReadStop? || a.Sleep? || a.Wake? || a.StopLock?
        || a.StopBroadcast?
      modifies this`m
      ensures Valid() && m == Apply(old(m), a)
    {
      hide Locks, Conserved, Fifo, RunOnce, NoLostWakeup, NoCrash, LostToNull;
      InvKept(m, a);
      m := Apply(m, a);
    }

    /** The destructor's first step. */
    method RaiseStopFlag()
      requires Valid() && Enabled(m, SetFlag)
      modifies this
      ensures Valid() && m == Apply(old(m), SetFlag) && stopFlag
      ensures tasksQueue == old(tasksQueue) && freeTasksQueue == old(freeTasksQueue)
    {
      hide Locks, Conserved, Fifo, RunOnce, NoLostWakeup, NoCrash, LostToNull;
      InvKept(m, SetFlag);
      m := Apply(m, SetFlag);
      stopFlag := true;
    }
  }
}
