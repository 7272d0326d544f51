/** What is queued and run is what was submitted, call for call. */
module PoolSubmits {
  import opened Basics
  import opened PoolModel
  import opened PoolProofs
  import opened PoolRuns

  // ---------------------------------------------------------------- the calls of one thread

  /** The calls that thread t has submitted, in order. */
  function Submitted(actions: seq<Action>, t: Tid): seq<Call> {
    if actions == [] then []
    else
      var before, a := Submitted(actions[..|actions| - 1], t), actions[|actions| - 1];
      if a.Submit? && a.t == t then before + [a.call] else before
  }

  /** The threads that have pushed an entry, in the order of the entries. */
  function Pushers(actions: seq<Action>): seq<Tid> {
    if actions == [] then []
    else
      var before, a := Pushers(actions[..|actions| - 1]), actions[|actions| - 1];
      if a.Push? then before + [a.t] else before
  }

  /** The calls of the entries that t has pushed, in order. */
  function QueuedBy(queued: seq<Entry>, pushers: seq<Tid>, t: Tid): seq<Call>
    requires |queued| == |pushers|
  {
    if queued == [] then []
    else
      var n := |queued| - 1;
      var before := QueuedBy(queued[..n], pushers[..n], t);
      if pushers[n] == t then before + [queued[n].call] else before
  }

  /** The call a thread has submitted and not yet queued. */
  function Carried(s: Pool, t: Tid): seq<Call> {
    if t in s.pcs && Carries(s.pcs[t]) then [s.pcs[t].call] else []
  }

  predicate Carries(pc: Pc) {
    pc.WantSlot? || pc.TestFree? || pc.AsleepFree? || pc.Holding? || pc.Filled? || pc.Pushing?
  }

  /** What a step does to the call that a thread carries. */
  lemma CarriedAfter(s: Pool, a: Action, t: Tid)
    requires Enabled(s, a)
    ensures var s' := Apply(s, a);
      Carried(s', t) ==
        if a.Submit? && a.t == t then [a.call] else if a.Push? && a.t == t then [] else Carried(s, t)
    ensures a.Submit? && a.t == t ==> Carried(s, t) == []
    ensures a.Push? ==> a.t in s.pcs && Carried(s, a.t) == [s.pcs[a.t].call]
    ensures Apply(s, a).queued == if a.Push? then s.queued + [Entry(s.pcs[a.t].slot, s.pcs[a.t].call)] else s.queued
  {
    hide Move, Write;
  }

  /** Every call a thread submits is queued once, in the thread's order, with the routine and the data it
      was submitted with, or is the one that the thread carries; and nothing else is queued. */
  lemma {:induction false} QueuedIsSubmitted(
    states: seq<Pool>, actions: seq<Action>, queueSize: nat, i: nat, t: Tid)
    requires Run(states, actions, queueSize) && i < |states|
    ensures |Pushers(actions[..i])| == |states[i].queued|
    ensures QueuedBy(states[i].queued, Pushers(actions[..i]), t) + Carried(states[i], t) == Submitted(actions[..i], t)
  {
    hide Apply, Enabled, Carried;
    if i == 0 {
      NothingCarried(states[0], queueSize, t);
    } else {
      var s, a := states[i - 1], actions[i - 1];
      QueuedIsSubmitted(states, actions, queueSize, i - 1, t);
      assert Enabled(s, a) && states[i] == Apply(s, a);
      CarriedAfter(s, a, t);
      assert actions[..i][..i - 1] == actions[..i - 1];
      if a.Push? {
        var p := Pushers(actions[..i - 1]);
        assert states[i].queued[..|s.queued|] == s.queued && Pushers(actions[..i])[..|p|] == p;
      }
    }
  }

  lemma NothingCarried(s: Pool, queueSize: nat, t: Tid)
    requires Init(s, queueSize)
    ensures Carried(s, t) == [] && s.queued == []
  {
  }

  // ---------------------------------------------------------------- every entry, every execution

  lemma {:induction false} SubmittedAt(actions: seq<Action>, t: Tid, k: nat) returns (j: nat)
    requires k < |Submitted(actions, t)|
    ensures j < |actions| && actions[j] == Submit(t, Submitted(actions, t)[k])
  {
    var n := |actions| - 1;
    if k < |Submitted(actions[..n], t)| {
      j := SubmittedAt(actions[..n], t, k);
    } else {
      j := n;
    }
  }

  /** Where entry k is among those of the thread that pushed it. */
  lemma {:induction false} OwnIndex(queued: seq<Entry>, pushers: seq<Tid>, k: nat) returns (i: nat)
    requires |queued| == |pushers| && k < |queued|
    ensures i < |QueuedBy(queued, pushers, pushers[k])| && QueuedBy(queued, pushers, pushers[k])[i] == queued[k].call
  {
    var n := |queued| - 1;
    if k < n {
      i := OwnIndex(queued[..n], pushers[..n], k);
    } else {
      i := |QueuedBy(queued[..n], pushers[..n], pushers[k])|;
    }
  }

  /** For every entry, an earlier step has submitted exactly its call. */
  lemma EntryWasSubmitted(states: seq<Pool>, actions: seq<Action>, queueSize: nat, i: nat, k: nat)
    returns (j: nat, t: Tid)
    requires Run(states, actions, queueSize) && i < |states| && k < |states[i].queued|
    ensures j < i && actions[j] == Submit(t, states[i].queued[k].call)
  {
    hide Apply, Enabled, Init;
    var pushers := Pushers(actions[..i]);
    QueuedIsSubmitted(states, actions, queueSize, i, 0);
    t := pushers[k];
    QueuedIsSubmitted(states, actions, queueSize, i, t);
    var o := OwnIndex(states[i].queued, pushers, k);
    j := SubmittedAt(actions[..i], t, o);
  }

  /** And whatever has been run was submitted: the routine with the data it came with. */
  lemma RunWasSubmitted(states: seq<Pool>, actions: seq<Action>, queueSize: nat, i: nat, k: nat)
    returns (j: nat, t: Tid)
    requires Run(states, actions, queueSize) && i < |states| && k < |states[i].runs|
    ensures j < i && actions[j] == Submit(t, states[i].runs[k].call)
  {
    hide Run;
    RunInv(states, actions, queueSize, i);
    RunIsQueued(states[i], k);
    j, t := EntryWasSubmitted(states, actions, queueSize, i, states[i].runs[k].ticket);
  }

  lemma RunIsQueued(s: Pool, k: nat)
    requires Inv(s) && k < |s.runs|
    ensures s.runs[k].ticket < |s.queued| && s.runs[k].call == s.queued[s.runs[k].ticket].call
  {
    hide Locks, Conserved, Fifo, NoLostWakeup, NoCrash, LostToNull;
  }

  // ---------------------------------------------------------------- the free slots

  /** A slot in the free queue is cleared, and so is one that is on its way there. */
  ghost predicate Cleared(s: Pool) {
    && (forall x <- s.free :: x < |s.tasks| ==> s.tasks[x] == Call(0, 0))
    && (forall t <- s.pcs :: (s.pcs[t].WantFree? || s.pcs[t].Giving?) && s.pcs[t].slot < |s.tasks| ==>
          s.tasks[s.pcs[t].slot] == Call(0, 0))
  }

  lemma ClearedKept(s: Pool, a: Action)
    requires Inv(s) && Cleared(s) && Enabled(s, a)
    ensures Cleared(Apply(s, a))
  {
    hide Inv, Apply, Distinct;
    InvConserved(s);
    if Global(a) {
      ClearedGlobal(s, a);
    } else {
      assert InPossession(s.pcs[a.t]) ==> s.pcs[a.t].slot < |s.locs|;
      ClearedLocal(s, a);
      ClearedOthers(s, a);
    }
  }

  lemma InvConserved(s: Pool)
    requires Inv(s)
    ensures Conserved(s)
  {
    hide Locks, Conserved, Fifo, RunOnce, NoLostWakeup, NoCrash, LostToNull;
  }

  lemma ClearedGlobal(s: Pool, a: Action)
    requires Enabled(s, a) && Global(a) && Cleared(s)
    ensures Cleared(Apply(s, a))
  {
    hide Move;
  }

  /** What a step of one thread, which wakes nobody, does to the free queue and to the tasks. */
  lemma ClearedLocal(s: Pool, a: Action)
    requires Enabled(s, a) && !Global(a) && |s.locs| == |s.tasks|
    requires InPossession(s.pcs[a.t]) ==> s.pcs[a.t].slot < |s.locs|
    ensures var s' := Apply(s, a); var p, q := s.pcs[a.t], s'.pcs[a.t];
      && s'.pcs == s.pcs[a.t := q] && |s'.tasks| == |s.tasks|
      && (s'.free == s.free || (s.free != [] && s'.free == s.free[1..]))
      && (s'.tasks == s.tasks || (InPossession(p) && s'.tasks == s.tasks[p.slot := s'.tasks[p.slot]]))
      && (q.Giving? ==> p.WantFree? && q.slot == p.slot && s'.tasks == s.tasks)
      && (q.WantFree? ==> InPossession(p) && q.slot == p.slot && s'.tasks == s.tasks[p.slot := Call(0, 0)])
  {
    hide Move;
  }

  /** The slot that is written is in the thread's hands, so it is neither free nor in another's. */
  lemma ClearedOthers(s: Pool, a: Action)
    requires Enabled(s, a) && !Global(a) && Cleared(s) && Conserved(s)
    requires var s' := Apply(s, a); a.t in s'.pcs && var p, q := s.pcs[a.t], s'.pcs[a.t];
      && s'.pcs == s.pcs[a.t := q] && |s'.tasks| == |s.tasks|
      && (s'.free == s.free || (s.free != [] && s'.free == s.free[1..]))
      && (s'.tasks == s.tasks
          || (InPossession(p) && p.slot < |s.tasks| && s'.tasks == s.tasks[p.slot := s'.tasks[p.slot]]))
      && (q.Giving? ==> p.WantFree? && q.slot == p.slot && s'.tasks == s.tasks)
      && (q.WantFree? ==>
            InPossession(p) && p.slot < |s.tasks| && q.slot == p.slot && s'.tasks == s.tasks[p.slot := Call(0, 0)])
    ensures Cleared(Apply(s, a))
  {
    hide Apply, Distinct;
  }

  lemma {:induction false} FreeSlotsAreCleared(states: seq<Pool>, actions: seq<Action>, queueSize: nat, i: nat)
    requires Run(states, actions, queueSize) && i < |states|
    ensures Cleared(states[i])
  {
    hide Apply, Enabled, Inv;
    if i > 0 {
      FreeSlotsAreCleared(states, actions, queueSize, i - 1);
      RunInv(states, actions, queueSize, i - 1);
      assert Enabled(states[i - 1], actions[i - 1]);
      ClearedKept(states[i - 1], actions[i - 1]);
    }
  }
}
