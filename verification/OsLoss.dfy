/** When enqueue drops a process: exactly at a full ready queue, never with at most fifty processes of
    each priority, and for good. */
module OsLoss {
  import opened Common
  import opened Os
  import opened OsPlaces
  import M = Mlq

  function OfPrio(procs: seq<Proc>, q: nat): set<nat> { set x: nat | x < |procs| && procs[x].prio == q }

  /** No priority has more processes than its queue can hold. */
  ghost predicate FitsQueues(procs: seq<Proc>) {
    forall q :: 0 <= q < M.MAX_PRIO ==> |OfPrio(procs, q)| <= M.MAX_QUEUE_SIZE
  }

  ghost predicate NoneLost(o: Os) {
    forall x :: 0 <= x < |o.place| ==> !o.place[x].Lost?
  }

  /** The queue that process x belongs in holds 50. */
  predicate Full(o: Os, x: nat)
    requires x < |o.procs| && o.procs[x].prio < |o.sched.queues|
  {
    |o.sched.queues[o.procs[x].prio]| == M.MAX_QUEUE_SIZE
  }

  /** The exact condition at an add or a yield: the process is in no queue afterwards, and is recorded
      as lost, if and only if its queue already holds 50. */
  lemma LostIff(o: Os, x: nat)
    requires Wf(o) && QueuesPlaced(o) && x < |o.procs| && !o.place[x].Ready?
    ensures var p := o.procs[x].prio;
      && ((forall q :: 0 <= q < M.MAX_PRIO ==> x !in M.Put(o.sched, p, x).queues[q]) <==> Full(o, x))
      && (Joins(o.sched, p).Lost? <==> Full(o, x))
  {
    var p := o.procs[x].prio;
    PutQueues(o, x);
    forall q | 0 <= q < M.MAX_PRIO ensures x !in o.sched.queues[q] {}
    assert Joins(o.sched, p).Ready? ==> x in M.Put(o.sched, p, x).queues[p];
  }

  // ----- Room

  function Elements(s: seq<nat>): set<nat> { set x | x in s }

  lemma {:induction false} CountDistinct(s: seq<nat>)
    requires NoDup(s)
    ensures |Elements(s)| == |s|
  {
    if s == [] {
      assert Elements(s) == {};
    } else {
      var n := |s| - 1;
      CountDistinct(s[..n]);
      assert s == s[..n] + [s[n]];
      assert Elements(s) == Elements(s[..n]) + {s[n]};
      assert s[n] !in s[..n];
    }
  }

  lemma SmallerSet(a: set<nat>, b: set<nat>, x: nat)
    requires a <= b && x in b && x !in a
    ensures |a| < |b|
  {
    assert |b| == |a| + |b - a| by { assert b == a + (b - a); }
    assert x in b - a;
  }

  /** A process outside its queue finds room there. */
  lemma RoomFor(o: Os, x: nat)
    requires Wf(o) && QueuesPlaced(o) && FitsQueues(o.procs) && x < |o.procs| && !o.place[x].Ready?
    ensures |o.sched.queues[o.procs[x].prio]| < M.MAX_QUEUE_SIZE
  {
    var p := o.procs[x].prio;
    var q := o.sched.queues[p];
    CountDistinct(q);
    assert Elements(q) <= OfPrio(o.procs, p);
    SmallerSet(Elements(q), OfPrio(o.procs, p), x);
  }

  lemma SamePrios(a: seq<Proc>, b: seq<Proc>)
    requires |a| == |b| && forall x :: 0 <= x < |a| ==> a[x].prio == b[x].prio
    ensures FitsQueues(a) <==> FitsQueues(b)
  {
    forall q: nat ensures OfPrio(a, q) == OfPrio(b, q) {}
  }

  // ----- Steps

  /** From o to t process x is lost, if at all, by CPU c at a full queue; a lost one stays as it is. */
  ghost predicate LosesAt(o: Os, t: Os, c: nat, x: nat)
    requires Wf(o) && x < |o.procs|
  {
    && |t.place| == |o.place| && |t.procs| == |o.procs|
    && (o.place[x].Lost? ==> t.place[x].Lost? && t.procs[x] == o.procs[x])
    && (t.place[x].Lost? && !o.place[x].Lost? ==> o.place[x] == OnCpu(c) && Full(o, x))
  }

  lemma CpuLoses(o: Os, c: nat, x: nat)
    requires Wf(o) && Placed(o) && Enabled(o, CpuStep(c)) && x < |o.procs|
    ensures LosesAt(o, CpuNext(o, c), c, x)
  {
    var cpu := o.cpus[c];
    if cpu.pc.Reget? || (cpu.pc.Top? && cpu.proc.None?) {
      GetLoses(o, c, if cpu.pc == Reget(true) then 0 else cpu.left, x);
    } else if cpu.proc.Some? && (cpu.pc.Top? || cpu.pc.Check?) {
      HeldLosesAt(o, c, cpu.proc.value, x);
    }
  }

  lemma GetLoses(o: Os, c: nat, left: nat, x: nat)
    requires Wf(o) && Placed(o) && c < |o.cpus| && x < |o.procs|
    ensures LosesAt(o, GetProc(o, c, left), c, x)
  {
    GetProcShape(o, c, left);
  }

  lemma HeldLosesAt(o: Os, c: nat, y: nat, x: nat)
    requires Wf(o) && Placed(o) && c < |o.cpus| && o.cpus[c].proc == Some(y) && x < |o.procs|
    ensures LosesAt(o, Finish(o, c, y), c, x) && LosesAt(o, Yield(o, c, y), c, x) && LosesAt(o, RunOne(o, c, y), c, x)
  {
    HeldLoses(o, c, y, x);
  }

  lemma HeldLoses(o: Os, c: nat, y: nat, x: nat)
    requires Wf(o) && Placed(o) && c < |o.cpus| && o.cpus[c].proc == Some(y) && x < |o.procs|
    ensures o.place[x].Lost? ==> x != y
    ensures x != y ==>
      && Finish(o, c, y).place[x] == Yield(o, c, y).place[x] == RunOne(o, c, y).place[x] == o.place[x]
      && Finish(o, c, y).procs[x] == Yield(o, c, y).procs[x] == RunOne(o, c, y).procs[x] == o.procs[x]
    ensures !Finish(o, c, y).place[y].Lost? && !RunOne(o, c, y).place[y].Lost?
    ensures o.place[y] == OnCpu(c)
    ensures Yield(o, c, y).place[y].Lost? ==> Full(o, y)
  {
    assert o.place[y] == OnCpu(c);
    LostIff(o, y);
  }

  lemma LoadLoses(o: Os, x: nat)
    requires Wf(o) && Placed(o) && Enabled(o, LoadStep) && x < |o.procs|
    ensures var t := LoadNext(o);
      && |t.place| == |o.place| && t.procs == o.procs
      && (o.place[x].Lost? ==> t.place[x].Lost?)
      && (t.place[x].Lost? && !o.place[x].Lost? ==> x == o.loaded && Full(o, x))
  {
    LoadFrame(o);
    if x == o.loaded { LostIff(o, x); }
  }

  /** A lost process stays lost: it is never dispatched or run again. */
  lemma LostForGood(o: Os, e: Step, x: nat)
    requires Wf(o) && Placed(o) && Enabled(o, e) && x < |o.procs| && o.place[x].Lost?
    ensures var t := Next(o, e); x < |t.procs| == |t.place| && t.place[x].Lost? && t.procs[x] == o.procs[x]
  {
    match e
    case CpuStep(c) =>
      CpuFrame(o, c);
      CpuLoses(o, c, x);
    case LoadStep => LoadLoses(o, x);
    case BarStep(_) =>
  }

  /** With at most fifty processes of each priority no step loses one. */
  lemma NoneLostStep(o: Os, e: Step)
    requires Wf(o) && Placed(o) && Enabled(o, e) && FitsQueues(o.procs) && NoneLost(o)
    ensures NoneLost(Next(o, e))
  {
    var t := Next(o, e);
    forall x | 0 <= x < |t.place| ensures !t.place[x].Lost? {
      StaysKept(o, e, x);
    }
  }

  lemma StaysKept(o: Os, e: Step, x: nat)
    requires Wf(o) && Placed(o) && Enabled(o, e) && FitsQueues(o.procs) && NoneLost(o)
    ensures |Next(o, e).place| == |o.place|
    ensures x < |o.place| ==> !Next(o, e).place[x].Lost?
  {
    if e.CpuStep? { CpuFrame(o, e.c); }
    if e.LoadStep? { LoadFrame(o); }
    if x < |o.place| {
      if !o.place[x].Ready? { RoomFor(o, x); }
      match e
      case CpuStep(c) => CpuLoses(o, c, x);
      case LoadStep => LoadLoses(o, x);
      case BarStep(_) =>
    }
  }
}
