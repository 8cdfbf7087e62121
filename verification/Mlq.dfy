/** The multi-level queue policy of src/sched.c on values: what each critical section does to the
    ready queues, the slot budgets and the running list. */
module Mlq {
  import opened Common

  const MAX_PRIO: nat := 140
  const MAX_QUEUE_SIZE: nat := 50

  /** queues[p]: ready processes of priority p, oldest first. */
  datatype Sched = Sched(queues: seq<seq<nat>>, slot: seq<nat>, running: seq<nat>)

  ghost predicate Valid(s: Sched) {
    && |s.queues| == MAX_PRIO && |s.slot| == MAX_PRIO
    && (forall p :: 0 <= p < MAX_PRIO ==> s.slot[p] <= MAX_PRIO - p)
  }

  /** enqueue drops the process when the queue is full. */
  function Enqueue(q: seq<nat>, x: nat): seq<nat> {
    if |q| < MAX_QUEUE_SIZE then q + [x] else q
  }

  /** purgequeue removes the first occurrence. */
  function Purge(q: seq<nat>, x: nat): seq<nat> {
    if q == [] then []
    else if q[0] == x then q[1..]
    else [q[0]] + Purge(q[1..], x)
  }

  function FullBudget(): seq<nat> { seq<nat>(MAX_PRIO, p requires 0 <= p < MAX_PRIO => MAX_PRIO - p) }

  function Init(): Sched { Sched(seq(MAX_PRIO, _ => []), FullBudget(), []) }

  /** First priority from p on with budget left and a process waiting, or MAX_PRIO. */
  function FirstServable(s: Sched, p: nat): (r: nat)
    requires |s.queues| == MAX_PRIO && |s.slot| == MAX_PRIO && p <= MAX_PRIO
    ensures p <= r <= MAX_PRIO
    ensures r < MAX_PRIO ==> s.slot[r] > 0 && s.queues[r] != []
    ensures forall i :: p <= i < r ==> s.slot[i] == 0 || s.queues[i] == []
    decreases MAX_PRIO - p
  {
    if p == MAX_PRIO || (s.slot[p] > 0 && s.queues[p] != []) then p else FirstServable(s, p + 1)
  }

  /** First priority from p on with a process waiting, or MAX_PRIO. */
  function FirstWaiting(s: Sched, p: nat): (r: nat)
    requires |s.queues| == MAX_PRIO && p <= MAX_PRIO
    ensures p <= r <= MAX_PRIO
    ensures r < MAX_PRIO ==> s.queues[r] != []
    ensures forall i :: p <= i < r ==> s.queues[i] == []
    decreases MAX_PRIO - p
  {
    if p == MAX_PRIO || s.queues[p] != [] then p else FirstWaiting(s, p + 1)
  }

  /** What get_mlq_proc decides: a queue with budget, or a queue after resetting all budgets. */
  datatype Choice = Idle | Serve(prio: nat) | Reset(prio: nat)

  function Choose(s: Sched): (c: Choice)
    requires Valid(s)
    ensures c.Idle? <==> forall p :: 0 <= p < MAX_PRIO ==> s.queues[p] == []
    ensures !c.Idle? ==> c.prio < MAX_PRIO && s.queues[c.prio] != []
    ensures c.Serve? ==>
      s.slot[c.prio] > 0 && forall p :: 0 <= p < c.prio ==> s.slot[p] == 0 || s.queues[p] == []
    ensures c.Reset? ==>
      && (forall p :: 0 <= p < MAX_PRIO ==> s.slot[p] == 0 || s.queues[p] == [])
      && (forall p :: 0 <= p < c.prio ==> s.queues[p] == [])
  {
    var p := FirstServable(s, 0);
    if p < MAX_PRIO then Serve(p)
    else
      var w := FirstWaiting(s, 0);
      if w < MAX_PRIO then
        assert s.queues[w] != [];
        Reset(w)
      else Idle
  }

  function Take(s: Sched, p: nat): Sched
    requires |s.queues| == MAX_PRIO && |s.slot| == MAX_PRIO && p < MAX_PRIO && s.queues[p] != []
    requires s.slot[p] > 0
  {
    Sched(s.queues[p := s.queues[p][1..]], s.slot[p := (s.slot[p] - 1) as nat], Enqueue(s.running, s.queues[p][0]))
  }

  /** get_mlq_proc; None is the C NULL. */
  function Get(s: Sched): (r: (Option<nat>, Sched))
    requires Valid(s)
    ensures Valid(r.1)
    ensures r.0.None? <==> Choose(s).Idle?
  {
    match Choose(s)
    case Idle => (None, s)
    case Serve(p) => (Some(s.queues[p][0]), Take(s, p))
    case Reset(p) => (Some(s.queues[p][0]), Take(s.(slot := FullBudget()), p))
  }

  /** What get_mlq_proc does to every part: the head of the chosen queue leaves it, joins the tail of the
      running list if that has room, and is charged to the budget, after a reset to 140 - p for every p
      if the choice asks for one. */
  lemma GetShape(s: Sched)
    requires Valid(s)
    ensures var (r, t) := Get(s);
      if Choose(s).Idle? then r.None? && t == s
      else
        var p, x := Choose(s).prio, s.queues[Choose(s).prio][0];
        && p < MAX_PRIO && s.queues[p] != [] && r == Some(x) && t.queues == s.queues[p := s.queues[p][1..]]
        && t.running == s.running + (if |s.running| < 50 then [x] else [])
        && forall q :: 0 <= q < MAX_PRIO ==>
             t.slot[q] == (if Choose(s).Reset? then 140 - q else s.slot[q]) - (if q == p then 1 else 0)
  {
  }

  /** put_mlq_proc and add_mlq_proc */
  function Put(s: Sched, prio: nat, x: nat): (r: Sched)
    requires Valid(s) && prio < MAX_PRIO
    ensures Valid(r)
  {
    s.(queues := s.queues[prio := Enqueue(s.queues[prio], x)])
  }

  /** remove_proc */
  function Remove(s: Sched, x: nat): (r: Sched)
    requires Valid(s)
    ensures Valid(r)
  {
    s.(running := Purge(s.running, x))
  }

  // ----- Runs of critical sections, in any interleaving

  datatype Event = GetProc | PutProc(prio: nat, pid: nat) | RemoveProc(pid: nat)

  ghost predicate WellFormed(evs: seq<Event>) {
    forall i :: 0 <= i < |evs| && evs[i].PutProc? ==> evs[i].prio < MAX_PRIO
  }

  function Do(s: Sched, e: Event): (r: Sched)
    requires Valid(s) && (e.PutProc? ==> e.prio < MAX_PRIO)
    ensures Valid(r)
  {
    match e
    case GetProc => Get(s).1
    case PutProc(prio, pid) => Put(s, prio, pid)
    case RemoveProc(pid) => Remove(s, pid)
  }

  ghost function Run(s: Sched, evs: seq<Event>): (r: Sched)
    requires Valid(s) && WellFormed(evs)
    ensures Valid(r)
  {
    if evs == [] then s else Do(Run(s, evs[..|evs| - 1]), evs[|evs| - 1])
  }

  // ----- Proportional service

  /** Dispatches from queue p since the last reset. */
  ghost function Served(evs: seq<Event>, p: nat): nat
    requires WellFormed(evs) && Valid(Init())
  {
    if evs == [] then 0
    else
      var init := evs[..|evs| - 1];
      if !evs[|evs| - 1].GetProc? then Served(init, p)
      else match Choose(Run(Init(), init))
        case Idle => Served(init, p)
        case Serve(q) => Served(init, p) + if q == p then 1 else 0
        case Reset(q) => if q == p then 1 else 0
  }

  /** Budgets are exact: at all times slot[p] plus the dispatches from p since the last reset is
      MAX_PRIO - p. */
  lemma {:induction false} BudgetLaw(evs: seq<Event>, p: nat)
    requires WellFormed(evs) && Valid(Init()) && p < MAX_PRIO
    ensures Run(Init(), evs).slot[p] + Served(evs, p) == MAX_PRIO - p
  {
    if evs == [] {
    } else {
      var init, e := evs[..|evs| - 1], evs[|evs| - 1];
      BudgetLaw(init, p);
      BudgetStep(Run(Init(), init), e, p);
    }
  }

  /** What one event does to a budget: a reset refills it, a dispatch from the queue uses one up. */
  lemma BudgetStep(s: Sched, e: Event, p: nat)
    requires Valid(s) && (e.PutProc? ==> e.prio < MAX_PRIO) && p < MAX_PRIO
    ensures Do(s, e).slot[p] ==
      if !e.GetProc? || Choose(s).Idle? then s.slot[p]
      else (if Choose(s).Reset? then MAX_PRIO - p else s.slot[p]) - (if Choose(s).prio == p then 1 else 0)
  {
  }

  /** A reset happens only after every queue that still has a process has had its whole share. */
  lemma ResetMeansServed(evs: seq<Event>, p: nat)
    requires WellFormed(evs) && Valid(Init()) && p < MAX_PRIO
    requires Choose(Run(Init(), evs)).Reset? && Run(Init(), evs).queues[p] != []
    ensures Served(evs, p) == MAX_PRIO - p
  {
    BudgetLaw(evs, p);
    var s := Run(Init(), evs);
    assert FirstServable(s, 0) == MAX_PRIO;
  }

  // ----- Bounded waiting

  function Sum(slot: seq<nat>, n: nat): nat
    requires n <= |slot|
  {
    if n == 0 then 0 else Sum(slot, n - 1) + slot[n - 1]
  }

  /** B_q: the budgets of the queues before q. */
  function Ahead(q: nat): nat
    requires q <= MAX_PRIO
  {
    Sum(FullBudget(), q)
  }

  lemma {:induction false} AheadValue(q: nat)
    requires q <= MAX_PRIO
    ensures 2 * Ahead(q) + q * q == 281 * q
  {
    if q == 0 {
    } else {
      AheadValue(q - 1);
      assert q * q == (q - 1) * (q - 1) + 2 * q - 1;
    }
  }

  /** Dispatches that can still come before queue q's next turn. */
  function Potential(s: Sched, q: nat): nat
    requires Valid(s) && q < MAX_PRIO
  {
    if s.slot[q] > 0 then Sum(s.slot, q) else Sum(s.slot, MAX_PRIO) + Ahead(q)
  }

  lemma {:induction false} SumUpdate(slot: seq<nat>, n: nat, i: nat, v: nat)
    requires n <= |slot| && i < |slot|
    ensures i >= n ==> Sum(slot[i := v], n) == Sum(slot, n)
    ensures i < n ==> Sum(slot[i := v], n) + slot[i] == Sum(slot, n) + v
  {
    if n == 0 {
    } else {
      SumUpdate(slot, n - 1, i, v);
    }
  }

  lemma {:induction false} SumMono(a: seq<nat>, b: seq<nat>, n: nat)
    requires n <= |a| == |b| && forall i :: 0 <= i < |a| ==> a[i] <= b[i]
    ensures Sum(a, n) <= Sum(b, n)
    ensures forall i :: 0 <= i < n && a[i] < b[i] ==> Sum(a, n) < Sum(b, n)
  {
    if n == 0 {
    } else {
      SumMono(a, b, n - 1);
    }
  }

  const ROUND: nat := 9870   // all budgets together

  lemma PotentialBound(s: Sched, q: nat)
    requires Valid(s) && q < MAX_PRIO
    ensures Potential(s, q) < ROUND + Ahead(q)
  {
    AheadValue(MAX_PRIO);
    AheadValue(q);
    SumMono(s.slot, FullBudget(), q);
    SumMono(s.slot, FullBudget(), MAX_PRIO);
  }

  lemma ServeLowersPotential(s: Sched, p: nat, q: nat)
    requires Valid(s) && p < MAX_PRIO && q < MAX_PRIO && p != q && s.slot[p] > 0 && s.queues[p] != []
    requires s.slot[q] > 0 ==> p < q
    ensures var t := Take(s, p); Valid(t) && Potential(t, q) < Potential(s, q)
  {
    SumUpdate(s.slot, q, p, s.slot[p] - 1);
    SumUpdate(s.slot, MAX_PRIO, p, s.slot[p] - 1);
  }

  lemma ResetLowersPotential(s: Sched, p: nat, q: nat)
    requires Valid(s) && p < q < MAX_PRIO && s.slot[q] == 0 && s.queues[p] != []
    ensures var t := Take(s.(slot := FullBudget()), p); Valid(t) && Potential(t, q) < Potential(s, q)
  {
    SumUpdate(FullBudget(), q, p, FullBudget()[p] - 1);
  }

  /** A get that does not serve queue q, with a process waiting there, uses up potential. */
  lemma GetLowersPotential(s: Sched, q: nat)
    requires Valid(s) && q < MAX_PRIO && s.queues[q] != []
    requires Choose(s).prio != q
    ensures Potential(Get(s).1, q) < Potential(s, q)
    ensures Get(s).1.queues[q] == s.queues[q]
  {
    match Choose(s)
    case Serve(p) => ServeLowersPotential(s, p, q);
    case Reset(p) =>
      assert FirstServable(s, 0) == MAX_PRIO;
      ResetLowersPotential(s, p, q);
  }

  function Gets(evs: seq<Event>): nat {
    if evs == [] then 0 else (if evs[0].GetProc? then 1 else 0) + Gets(evs[1..])
  }

  /** The processes dispatched from queue q over a run, in order. */
  ghost function Dispatched(s: Sched, evs: seq<Event>, q: nat): seq<nat>
    requires Valid(s) && WellFormed(evs)
    decreases |evs|
  {
    if evs == [] then []
    else
      var rest := Dispatched(Do(s, evs[0]), evs[1..], q);
      if evs[0].GetProc? && !Choose(s).Idle? && Choose(s).prio == q then [Get(s).0.value] + rest else rest
  }

  function Rounds(k: nat, w: nat): nat { if k == 0 then 0 else Rounds(k - 1, w) + w }

  lemma {:induction false} RoundsIsProduct(k: nat, w: nat)
    ensures Rounds(k, w) == k * w
  {
    if k == 0 {
    } else {
      RoundsIsProduct(k - 1, w);
    }
  }

  /** Enough gets remain for the process at position k of queue q. */
  ghost predicate Due(s: Sched, evs: seq<Event>, q: nat, k: nat, w: nat) {
    && Valid(s) && WellFormed(evs) && q < MAX_PRIO && k < |s.queues[q]| && w == ROUND + Ahead(q)
    && Gets(evs) > Rounds(k, w) + Potential(s, q)
  }

  ghost predicate Reaches(s: Sched, evs: seq<Event>, q: nat, k: nat)
    requires Valid(s) && WellFormed(evs) && q < MAX_PRIO && k < |s.queues[q]|
  {
    k < |Dispatched(s, evs, q)| && Dispatched(s, evs, q)[k] == s.queues[q][k]
  }

  lemma {:induction false} Waiting(s: Sched, evs: seq<Event>, q: nat, k: nat, w: nat)
    requires Due(s, evs, q, k, w)
    ensures Reaches(s, evs, q, k)
    decreases |evs|, 1
  {
    if evs[0].GetProc? && Choose(s).prio == q {
      WaitingServed(s, evs, q, k, w);
    } else {
      OtherStep(s, evs[0], q, k);
      Waiting(Do(s, evs[0]), evs[1..], q, k, w);
    }
  }

  lemma {:induction false} WaitingServed(s: Sched, evs: seq<Event>, q: nat, k: nat, w: nat)
    requires Due(s, evs, q, k, w) && evs[0].GetProc? && Choose(s).prio == q
    ensures Reaches(s, evs, q, k)
    decreases |evs|, 0
  {
    ServedStep(s, q);
    if k == 0 {
    } else {
      PotentialBound(Do(s, evs[0]), q);
      Waiting(Do(s, evs[0]), evs[1..], q, k - 1, w);
    }
  }

  lemma ServedStep(s: Sched, q: nat)
    requires Valid(s) && q < MAX_PRIO && s.queues[q] != [] && Choose(s).prio == q
    ensures Get(s).0 == Some(s.queues[q][0]) && Get(s).1.queues[q] == s.queues[q][1..]
  {
  }

  lemma OtherStep(s: Sched, e: Event, q: nat, k: nat)
    requires Valid(s) && q < MAX_PRIO && k < |s.queues[q]| && (e.PutProc? ==> e.prio < MAX_PRIO)
    requires e.GetProc? ==> Choose(s).prio != q
    ensures var t := Do(s, e); k < |t.queues[q]| && t.queues[q][k] == s.queues[q][k]
    ensures Potential(Do(s, e), q) + (if e.GetProc? then 1 else 0) <= Potential(s, q)
  {
    if e.GetProc? { GetLowersPotential(s, q); }
  }

  /** Bounded waiting.  With any adds, puts and removes interleaved, the process at position k of
      queue q is the (k+1)-st one dispatched from q, within (k+1) * (9870 + B_q) further calls of
      get_mlq_proc. */
  lemma BoundedWaiting(s: Sched, evs: seq<Event>, q: nat, k: nat)
    requires Valid(s) && WellFormed(evs) && q < MAX_PRIO && k < |s.queues[q]|
    requires Gets(evs) >= (k + 1) * (ROUND + Ahead(q))
    ensures var d := Dispatched(s, evs, q); k < |d| && d[k] == s.queues[q][k]
  {
    PotentialBound(s, q);
    RoundsIsProduct(k + 1, ROUND + Ahead(q));
    Waiting(s, evs, q, k, ROUND + Ahead(q));
  }
}
