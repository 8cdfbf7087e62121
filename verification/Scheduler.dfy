/** The bounded array queue of src/queue.c and the scheduler of src/sched.c, updated in place and
    proved against Mlq.  A process is named by its pid. */
module Scheduler {
  import opened Common
  import opened Mlq

  class Queue {
    ghost var contents: seq<nat>   // the processes in the queue, oldest first
    const proc: array<nat>
    var size: nat

    ghost predicate Valid()
      reads this, proc
    {
      proc.Length == MAX_QUEUE_SIZE && size <= MAX_QUEUE_SIZE && contents == proc[..size]
    }

    constructor ()
      ensures Valid() && contents == [] && fresh(proc)
    {
      proc := new nat[MAX_QUEUE_SIZE](_ => 0);
      size := 0;
      contents := [];
    }

    method Empty() returns (e: bool)
      requires Valid()
      ensures e <==> contents == []
    {
      e := size == 0;
    }

    method Enqueue(x: nat)
      requires Valid()
      modifies this, proc
      ensures Valid() && contents == Mlq.Enqueue(old(contents), x)
    {
      if size >= MAX_QUEUE_SIZE {
        return;
      }
      proc[size] := x;
      size := size + 1;
      contents := contents + [x];
    }

    /** The search of __sys_memmap: the first entry with the given pid. */
    method Find(pid: nat) returns (at: Option<nat>)
      requires Valid()
      ensures at.None? <==> pid !in contents
      ensures at.Some? ==> at.value < |contents| && contents[at.value] == pid && pid !in contents[..at.value]
    {
      var i := 0;
      while i < size
        invariant i <= size && pid !in contents[..i]
      {
        if proc[i] == pid {
          return Some(i);
        }
        i := i + 1;
      }
      at := None;
    }

    /** Moves the entries after position i one place down, over it. */
    method CloseGap(i: nat)
      requires Valid() && i < size
      modifies this, proc
      ensures Valid() && contents == old(contents)[..i] + old(contents)[i + 1..]
    {
      var j := i;
      ghost var was := contents;
      while j < size - 1
        invariant i <= j < size == |was| && contents == was && size == old(size)
        invariant proc[..j] == was[..i] + was[i + 1..j + 1]
        invariant forall k :: j <= k < size ==> proc[k] == was[k]
      {
        proc[j] := proc[j + 1];
        GapStep(was, i, j);
        assert proc[..j + 1] == proc[..j] + [proc[j]];
        j := j + 1;
      }
      assert was[i + 1..j + 1] == was[i + 1..];
      size := size - 1;
      contents := was[..i] + was[i + 1..];
    }

    method Dequeue() returns (x: Option<nat>)
      requires Valid()
      modifies this, proc
      ensures Valid()
      ensures if old(contents) == [] then x.None? && contents == []
              else x == Some(old(contents)[0]) && contents == old(contents)[1..]
    {
      if size == 0 {
        return None;
      }
      x := Some(proc[0]);
      CloseGap(0);
    }

    method Purgequeue(x: nat) returns (found: bool)
      requires Valid()
      modifies this, proc
      ensures Valid() && found == (x in old(contents))
      ensures contents == Purge(old(contents), x)
    {
      var i := 0;
      while i < size
        invariant i <= size && Valid() && contents == old(contents)
        invariant x !in contents[..i]
      {
        if proc[i] == x {
          PurgeAt(contents, x, i);
          CloseGap(i);
          return true;
        }
        i := i + 1;
      }
      PurgeAbsent(contents, x);
      found := false;
    }
  }

  lemma GapStep(s: seq<nat>, i: nat, j: nat)
    requires i <= j && j + 1 < |s|
    ensures s[..i] + s[i + 1..j + 2] == s[..i] + s[i + 1..j + 1] + [s[j + 1]]
  {
  }

  lemma {:induction false} PurgeAt(q: seq<nat>, x: nat, i: nat)
    requires i < |q| && q[i] == x && x !in q[..i]
    ensures Purge(q, x) == q[..i] + q[i + 1..]
  {
    if i == 0 {
    } else {
      assert q[..i][0] == q[0];
      assert q[1..][..i - 1] == q[..i][1..];
      PurgeAt(q[1..], x, i - 1);
    }
  }

  lemma {:induction false} PurgeAbsent(q: seq<nat>, x: nat)
    requires x !in q
    ensures Purge(q, x) == q
  {
    if q == [] {
    } else {
      PurgeAbsent(q[1..], x);
    }
  }

  class Scheduler {
    ghost var view: Sched
    const mlq: seq<Queue>        // mlq_ready_queue
    const slot: array<nat>
    const runningList: Queue

    ghost predicate Valid()
      reads this, slot, runningList, runningList.proc, mlq, set p | 0 <= p < |mlq| :: mlq[p].proc
    {
      && |mlq| == MAX_PRIO && slot.Length == MAX_PRIO
      && slot != runningList.proc && runningList.Valid() && runningList.contents == view.running
      && slot[..] == view.slot && Mlq.Valid(view)
      && (forall p :: 0 <= p < MAX_PRIO ==> Holds(p))
      && (forall p, q :: 0 <= p < q < MAX_PRIO ==> mlq[p] != mlq[q] && mlq[p].proc != mlq[q].proc)
    }

    /** Queue p stands apart from the other data and holds what the view says. */
    ghost predicate Holds(p: nat)
      requires p < |mlq| == |view.queues|
      reads this, mlq[p], mlq[p].proc
    {
      && mlq[p].Valid() && mlq[p].contents == view.queues[p]
      && mlq[p] != runningList && mlq[p].proc != runningList.proc && mlq[p].proc != slot
    }

    ghost function Owned(): set<object>
    {
      {this, slot, runningList, runningList.proc} + (set p | 0 <= p < |mlq| :: mlq[p]) + (set p | 0 <= p < |mlq| :: mlq[p].proc)
    }

    /** init_scheduler */
    constructor ()
      ensures Valid() && view == Init()
    {
      var budgets := new nat[MAX_PRIO](_ => 0);
      var running := new Queue();
      var queues: seq<Queue> := [];
      var i := 0;
      while i < MAX_PRIO
        invariant i <= MAX_PRIO && |queues| == i && budgets[..i] == FullBudget()[..i]
        invariant running.proc != budgets && forall p :: 0 <= p < i ==> queues[p].proc != budgets
        invariant running.Valid() && running.contents == []
        invariant forall p :: 0 <= p < i ==>
          && queues[p].Valid() && queues[p].contents == []
          && queues[p] != running && queues[p].proc != running.proc
        invariant forall p, q :: 0 <= p < q < i ==> queues[p] != queues[q] && queues[p].proc != queues[q].proc
      {
        var q := new Queue();
        queues := queues + [q];
        budgets[i] := MAX_PRIO - i;
        i := i + 1;
      }
      assert budgets[..] == FullBudget();
      mlq, slot, runningList := queues, budgets, running;
      view := Init();
    }

    /** The common tail of get_mlq_proc's loops: dequeue and charge the budget. */
    method Dispatch(prio: nat) returns (x: nat)
      requires Valid() && prio < MAX_PRIO && view.queues[prio] != [] && view.slot[prio] > 0
      modifies Owned()
      ensures Valid() && x == old(view).queues[prio][0]
      ensures view == Take(old(view), prio)
    {
      ghost var was := view;
      assert Holds(prio) && mlq[prio] in Owned() && mlq[prio].proc in Owned();
      x := DequeueAt(prio);
      slot[prio] := slot[prio] - 1;
      runningList.Enqueue(x);
      view := Take(was, prio);
      forall p | 0 <= p < MAX_PRIO ensures Holds(p) {
        assert old(Holds(p));
      }
    }

    method DequeueAt(prio: nat) returns (x: nat)
      requires Valid() && prio < MAX_PRIO && view.queues[prio] != []
      modifies mlq[prio], mlq[prio].proc
      ensures mlq[prio].Valid() && x == view.queues[prio][0] && mlq[prio].contents == view.queues[prio][1..]
    {
      assert Holds(prio);
      var proc := mlq[prio].Dequeue();
      x := proc.value;
    }

    /** The scan for a queue with budget and a process. */
    method FindServable() returns (prio: nat)
      requires Valid()
      ensures prio == FirstServable(view, 0)
    {
      prio := 0;
      while prio < MAX_PRIO
        invariant prio <= MAX_PRIO && FirstServable(view, 0) == FirstServable(view, prio)
      {
        assert Holds(prio);
        var e := mlq[prio].Empty();
        if slot[prio] > 0 && !e {
          return;
        }
        prio := prio + 1;
      }
    }

    /** The scan for any process at all. */
    method FindWaiting() returns (prio: nat)
      requires Valid()
      ensures prio == FirstWaiting(view, 0)
    {
      prio := 0;
      while prio < MAX_PRIO
        invariant prio <= MAX_PRIO && FirstWaiting(view, 0) == FirstWaiting(view, prio)
      {
        assert Holds(prio);
        var e := mlq[prio].Empty();
        if !e {
          return;
        }
        prio := prio + 1;
      }
    }

    method ResetBudgets()
      requires Valid()
      modifies this`view, slot
      ensures Valid() && view == old(view).(slot := FullBudget())
    {
      var prio := 0;
      while prio < MAX_PRIO
        invariant prio <= MAX_PRIO && view == old(view)
        invariant slot[..prio] == FullBudget()[..prio]
      {
        slot[prio] := MAX_PRIO - prio;
        prio := prio + 1;
      }
      view := view.(slot := FullBudget());
      forall p | 0 <= p < MAX_PRIO ensures Holds(p) {
        assert old(Holds(p));
      }
    }

    /** The second half of get_mlq_proc: budgets are used up, or nothing is waiting. */
    method GetAfterReset() returns (proc: Option<nat>)
      requires Valid() && FirstServable(view, 0) == MAX_PRIO
      modifies Owned()
      ensures Valid()
      ensures var w := FirstWaiting(old(view), 0);
        if w == MAX_PRIO then proc.None? && view == old(view)
        else proc == Some(old(view).queues[w][0]) && view == Take(old(view).(slot := FullBudget()), w)
    {
      var prio := FindWaiting();
      if prio == MAX_PRIO {
        return None;
      }
      ResetBudgets();
      SameWaiting(view, old(view), 0);
      prio := FindWaiting();
      var x := Dispatch(prio);
      proc := Some(x);
    }

    /** get_mlq_proc, one critical section under queue_lock */
    method GetMlqProc() returns (proc: Option<nat>)
      requires Valid()
      modifies Owned()
      ensures Valid() && (proc, view) == Get(old(view))
    {
      GetCases(view);
      var prio := FindServable();
      if prio < MAX_PRIO {
        var x := Dispatch(prio);
        proc := Some(x);
      } else {
        proc := GetAfterReset();
      }
    }

    /** put_mlq_proc and add_mlq_proc */
    method PutMlqProc(prio: nat, x: nat)
      requires Valid() && prio < MAX_PRIO
      modifies Owned()
      ensures Valid() && view == Put(old(view), prio, x)
    {
      assert Holds(prio);
      mlq[prio].Enqueue(x);
      view := Put(view, prio, x);
      forall p | 0 <= p < MAX_PRIO ensures Holds(p) {
        assert old(Holds(p));
      }
    }

    /** remove_proc */
    method RemoveProc(x: nat)
      requires Valid()
      modifies Owned()
      ensures Valid() && view == Remove(old(view), x)
    {
      var _ := runningList.Purgequeue(x);
      view := Remove(view, x);
      forall p | 0 <= p < MAX_PRIO ensures Holds(p) {
        assert old(Holds(p));
      }
    }
  }

  lemma GetCases(s: Sched)
    requires Mlq.Valid(s)
    ensures var p, w := FirstServable(s, 0), FirstWaiting(s, 0);
      Get(s) == if p < MAX_PRIO then (Some(s.queues[p][0]), Take(s, p))
                else if w < MAX_PRIO then (Some(s.queues[w][0]), Take(s.(slot := FullBudget()), w))
                else (None, s)
  {
  }

  lemma {:induction false} SameWaiting(s: Sched, t: Sched, p: nat)
    requires |s.queues| == MAX_PRIO && t.queues == s.queues && p <= MAX_PRIO
    ensures FirstWaiting(s, p) == FirstWaiting(t, p)
    decreases MAX_PRIO - p
  {
    if p == MAX_PRIO {
    } else {
      SameWaiting(s, t, p + 1);
    }
  }
}
