/** Runs with a full swap device: no page moves, and each access to a page that is not found takes one
    page of its process out of the victim queue. */
module PagingFull {
  import opened Paging
  import opened PagingSystem
  import opened PagingSteps
  import opened PagingRuns

  /** The instruction is an access of process p to a page that the test does not find. */
  ghost predicate Misses(test: Test, s: Sys, op: Op, p: nat)
    requires Ready(s, op)
  {
    op.pid == p && (op.Read? || op.Write?) &&
    var slot := SlotAt(s, p, PageOf(s, op)); slot.Unmapped? || (test.Documented? && slot.Swapped?)
  }

  ghost function CountMisses(test: Test, s: Sys, ops: seq<Op>, p: nat): nat
    requires Legal(test, s, ops)
    decreases |ops|
  {
    if ops == [] then 0
    else
      var init, op := ops[..|ops| - 1], ops[|ops| - 1];
      CountMisses(test, s, init, p) + if Misses(test, State(test, s, init), op, p) then 1 else 0
  }

  /** The queue without its k oldest pages, or without all of them. */
  function DropOldest(q: seq<nat>, k: nat): seq<nat> { if k <= |q| then q[..|q| - k] else [] }

  lemma MissStep(test: Test, s: Sys, op: Op, p: nat)
    requires Ready(s, op) && p in s.mms && s.swp.free == [] && op.pid == p && (op.Read? || op.Write?)
    ensures var (t, e) := Step(test, s, op); var m := s.mms[p];
      && t.swp == s.swp && p in t.mms && t.mms[p].pt == m.pt && t.mms[p].space == m.space
      && t.mms[p].fifo == DropOldest(m.fifo, if Misses(test, s, op, p) then 1 else 0)
      && (Misses(test, s, op, p) ==> t.ram == s.ram && e.Quiet?)
  {
    AccessOutcomes(test, s.mms[p], s.ram, s.swp, PageOf(s, op));
  }

  lemma FullStep(test: Test, s: Sys, op: Op, p: nat)
    requires Allowed(s, op) && p in s.mms && s.swp.free == [] && (op.Alloc? ==> op.pid != p)
    ensures var (t, e) := Step(test, s, op); var m := s.mms[p];
      && t.swp.free == [] && p in t.mms && t.mms[p].pt == m.pt
      && t.mms[p].fifo == DropOldest(m.fifo, if Misses(test, s, op, p) then 1 else 0)
      && (Misses(test, s, op, p) ==> e.Quiet?)
  {
    if op.Read? || op.Write? {
      MissStep(test, s, op, op.pid);
    }
  }

  /** While the swap device is full and process p allocates nothing, whatever the others do: p's entries
      stay as they are, and its queue is the old one without as many of its oldest pages as p had
      misses.  After as many misses as queued pages it is empty, and p has no victim left. */
  lemma {:induction false} FullSwapRun(test: Test, s: Sys, ops: seq<Op>, p: nat)
    requires Legal(test, s, ops) && p in s.mms && s.swp.free == []
    requires forall i :: 0 <= i < |ops| && ops[i].pid == p ==> !ops[i].Alloc?
    ensures var t := State(test, s, ops);
      && t.swp.free == [] && p in t.mms && t.mms[p].pt == s.mms[p].pt
      && t.mms[p].fifo == DropOldest(s.mms[p].fifo, CountMisses(test, s, ops, p))
      && (CountMisses(test, s, ops, p) >= |s.mms[p].fifo| ==> t.mms[p].fifo == [])
    decreases |ops|
  {
    if ops == [] {
    } else {
      var init, op := ops[..|ops| - 1], ops[|ops| - 1];
      FullSwapRun(test, s, init, p);
      FullStep(test, State(test, s, init), op, p);
    }
  }
}
