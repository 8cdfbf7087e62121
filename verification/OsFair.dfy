/** The machine's threads use the scheduler by its three calls only, so its bounded waiting is the
    machine's: a ready process is dispatched within a fixed number of get_proc calls. */
module OsFair {
  import opened Common
  import opened Os
  import opened OsPlaces
  import opened OsRuns
  import M = Mlq

  /** The scheduler call hidden in a machine step. */
  function SchedStep(o: Os, e: Step): Option<M.Event>
    requires |o.bar.devs| == |o.cpus| + 1 && Enabled(o, e) && o.loaded <= |o.procs|
    requires forall c :: 0 <= c < |o.cpus| && o.cpus[c].proc.Some? ==> o.cpus[c].proc.value < |o.procs|
  {
    match e
    case CpuStep(c) =>
      (match o.cpus[c]
       case Cpu(Reget(_), _, _) => Some(M.GetProc)
       case Cpu(Top, None, _) => Some(M.GetProc)
       case Cpu(Top, Some(x), left) =>
         if o.procs[x].pc == o.procs[x].size then Some(M.RemoveProc(x))
         else if left == 0 then Some(M.PutProc(o.procs[x].prio, x))
         else None
       case _ => None)
    case LoadStep =>
      if o.load.LoadTop? && o.loaded < |o.procs| && o.procs[o.loaded].start <= o.bar.time
      then Some(M.PutProc(o.procs[o.loaded].prio, o.loaded)) else None
    case BarStep(_) => None
  }

  /** What each step does to the scheduler. */
  lemma SchedNext(o: Os, e: Step)
    requires Wf(o) && Enabled(o, e)
    ensures match SchedStep(o, e)
      case Some(ev) => (ev.PutProc? ==> ev.prio < M.MAX_PRIO) && Next(o, e).sched == M.Do(o.sched, ev)
      case None => Next(o, e).sched == o.sched
  {
  }

  /** The scheduler calls of a run, in order. */
  ghost function Calls(o: Os, es: seq<Step>): (evs: seq<M.Event>)
    requires Inv(o) && Legal(o, es)
    ensures M.WellFormed(evs)
    decreases |es|
  {
    if es == [] then []
    else
      StepInv(o, es[0]);
      SchedNext(o, es[0]);
      var rest := Calls(Next(o, es[0]), es[1..]);
      match SchedStep(o, es[0]) case Some(ev) => [ev] + rest case None => rest
  }

  /** A dispatch counts for the process that get_proc hands out and for no other. */
  lemma DispStep(o: Os, e: Step, x: nat)
    requires Inv(o) && Enabled(o, e) && x < |o.procs|
    ensures var t, got := Next(o, e), SchedStep(o, e) == Some(M.GetProc) && M.Get(o.sched).0 == Some(x);
      && |t.procs| == |o.procs| && t.procs[x].disp == o.procs[x].disp + (if got then 1 else 0)
      && (got ==> e.CpuStep? && Holds(t, e.c, x))
  {
    match e
    case CpuStep(c) => CpuDisp(o, c, x);
    case LoadStep => LoadFrame(o);
    case BarStep(_) =>
  }

  lemma CpuDisp(o: Os, c: nat, x: nat)
    requires Wf(o) && QueuesPlaced(o) && Enabled(o, CpuStep(c)) && x < |o.procs|
    ensures var t, got := CpuNext(o, c), SchedStep(o, CpuStep(c)) == Some(M.GetProc) && M.Get(o.sched).0 == Some(x);
      && |t.procs| == |o.procs| && t.procs[x].disp == o.procs[x].disp + (if got then 1 else 0)
      && (got ==> Holds(t, c, x))
  {
    if SchedStep(o, CpuStep(c)) == Some(M.GetProc) {
      GetDisp(o, c, if o.cpus[c].pc == Reget(true) then 0 else o.cpus[c].left, x);
    } else {
      OtherDisp(o, c, x);
    }
  }

  lemma GetDisp(o: Os, c: nat, left: nat, x: nat)
    requires Wf(o) && QueuesPlaced(o) && c < |o.cpus| && x < |o.procs|
    ensures var t, got := GetProc(o, c, left), M.Get(o.sched).0 == Some(x);
      && |t.procs| == |o.procs| && t.procs[x].disp == o.procs[x].disp + (if got then 1 else 0)
      && (got ==> Holds(t, c, x))
  {
    GetProcShape(o, c, left);
  }

  lemma OtherDisp(o: Os, c: nat, x: nat)
    requires Wf(o) && Enabled(o, CpuStep(c)) && SchedStep(o, CpuStep(c)) != Some(M.GetProc) && x < |o.procs|
    ensures |CpuNext(o, c).procs| == |o.procs| && CpuNext(o, c).procs[x].disp == o.procs[x].disp
  {
  }

  /** The dispatches of a process are those that its scheduler calls hand out. */
  lemma {:induction false} DispCounts(o: Os, es: seq<Step>, x: nat, q: nat)
    requires Inv(o) && Legal(o, es) && x < |o.procs|
    ensures var n := Run(o, es).procs[x].disp;
      && o.procs[x].disp <= n
      && (x in M.Dispatched(o.sched, Calls(o, es), q) ==> o.procs[x].disp < n)
    decreases |es|
  {
    if es == [] {
    } else {
      var t, rest := Next(o, es[0]), es[1..];
      FirstStep(o, es);
      DispStep(o, es[0], x);
      DispCounts(t, rest, x, q);
      FirstCall(o, es, Calls(t, rest), x, q);
    }
  }

  lemma FirstStep(o: Os, es: seq<Step>)
    requires Inv(o) && Legal(o, es) && es != []
    ensures var (t, rest) := (Next(o, es[0]), es[1..]);
      && Inv(t) && Legal(t, rest) && Run(o, es) == Run(t, rest)
      && Calls(o, es) == (match SchedStep(o, es[0]) case Some(ev) => [ev] case None => []) + Calls(t, rest)
  {
    StepInv(o, es[0]);
  }

  lemma FirstCall(o: Os, es: seq<Step>, later: seq<M.Event>, x: nat, q: nat)
    requires Wf(o) && es != [] && Enabled(o, es[0]) && M.Valid(Next(o, es[0]).sched) && M.WellFormed(later)
    ensures var t := Next(o, es[0]);
      var calls := (match SchedStep(o, es[0]) case Some(ev) => [ev] case None => []) + later;
      M.WellFormed(calls) && (x in M.Dispatched(o.sched, calls, q) ==>
        x in M.Dispatched(t.sched, later, q)
        || (SchedStep(o, es[0]) == Some(M.GetProc) && M.Get(o.sched).0 == Some(x)))
  {
    SchedNext(o, es[0]);
    match SchedStep(o, es[0])
    case Some(ev) => DispatchedHead(o.sched, ev, later, x, q);
    case None => assert [] + later == later;
  }

  lemma DispatchedHead(s: M.Sched, ev: M.Event, rest: seq<M.Event>, x: nat, q: nat)
    requires M.Valid(s) && M.WellFormed([ev] + rest) && M.WellFormed(rest) && (ev.PutProc? ==> ev.prio < M.MAX_PRIO)
    ensures x in M.Dispatched(s, [ev] + rest, q) ==>
      x in M.Dispatched(M.Do(s, ev), rest, q) || (ev == M.GetProc && M.Get(s).0 == Some(x))
  {
    assert ([ev] + rest)[1..] == rest;
  }

  /** Bounded waiting on the machine: in every run, from every reachable state, whatever loader, CPUs and
      timer do, the process at position k of ready queue q has been dispatched once more by the time the
      CPUs have called get_proc (k + 1) * (9870 + B_q) times. */
  lemma ReadyIsDispatched(o: Os, es: seq<Step>, q: nat, k: nat)
    requires Inv(o) && Legal(o, es) && q < M.MAX_PRIO && k < |o.sched.queues[q]|
    requires M.Gets(Calls(o, es)) >= (k + 1) * (M.ROUND + M.Ahead(q))
    ensures var x := o.sched.queues[q][k];
      x < |o.procs| && Run(o, es).procs[x].disp > o.procs[x].disp
  {
    var x := o.sched.queues[q][k];
    assert x in o.sched.queues[q];
    M.BoundedWaiting(o.sched, Calls(o, es), q, k);
    DispCounts(o, es, x, q);
  }
}
