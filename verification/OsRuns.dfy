/** Whole runs of the machine: what holds in every reachable state, and when all CPUs have stopped. */
module OsRuns {
  import opened Common
  import opened Os
  import opened OsPlaces
  import opened OsLoss
  import opened OsStop
  import opened OsExec
  import opened OsPids
  import opened OsTime
  import B = Barrier
  import M = Mlq

  ghost predicate Inv(o: Os) {
    Wf(o) && OnBarrier(o) && Placed(o) && Ending(o) && NoneForgotten(o) && Progress(o) && InOrder(o) && Stamped(o)
  }

  lemma InitInv(cpus: nat, procs: seq<Proc>, slot: nat)
    requires Config(cpus, procs, slot)
    ensures Inv(Init(cpus, procs, slot))
  {
    var o := Init(cpus, procs, slot);
    InitPlaced(cpus, procs, slot);
    B.StartInv(cpus + 1);
    assert !AnyReady(o.sched);
    assert forall x :: 0 <= x < |procs| ==> ProcInv(o, x);
  }

  lemma StepInv(o: Os, e: Step)
    requires Inv(o) && Enabled(o, e)
    ensures Inv(Next(o, e))
  {
    PlacedStep(o, e);
    OnBarrierStep(o, e);
    StopStep(o, e);
    ProgressStep(o, e);
    LogStep(o, e);
  }

  ghost predicate Legal(o: Os, es: seq<Step>)
    requires Inv(o)
    decreases |es|
  {
    es == [] || (Enabled(o, es[0]) && (StepInv(o, es[0]); Legal(Next(o, es[0]), es[1..])))
  }

  /** The workload: what no step changes. */
  ghost predicate SameWorkload(o: Os, t: Os) {
    && |t.cpus| == |o.cpus| && t.slot == o.slot && |t.procs| == |o.procs|
    && forall x :: 0 <= x < |o.procs| ==> t.procs[x].size == o.procs[x].size && t.procs[x].prio == o.procs[x].prio
  }

  lemma StepWorkload(o: Os, e: Step)
    requires Wf(o) && Enabled(o, e)
    ensures SameWorkload(o, Next(o, e))
  {
    if e.CpuStep? {
      CpuFrame(o, e.c);
      CpuWorkload(o, e.c);
    }
    if e.LoadStep? { LoadFrame(o); }
  }

  lemma CpuWorkload(o: Os, c: nat)
    requires Wf(o) && Enabled(o, CpuStep(c)) && |CpuNext(o, c).procs| == |o.procs|
    ensures var t := CpuNext(o, c);
      forall x :: 0 <= x < |o.procs| ==> t.procs[x].size == o.procs[x].size && t.procs[x].prio == o.procs[x].prio
  {
    var cpu := o.cpus[c];
    if cpu.pc.Reget? || (cpu.pc.Top? && cpu.proc.None?) {
      GetWorkload(o, c, if cpu.pc == Reget(true) then 0 else cpu.left);
    }
  }

  lemma GetWorkload(o: Os, c: nat, left: nat)
    requires Wf(o) && c < |o.cpus|
    ensures var t := GetProc(o, c, left);
      forall x :: 0 <= x < |o.procs| ==> t.procs[x].size == o.procs[x].size && t.procs[x].prio == o.procs[x].prio
  {
  }

  ghost function Run(o: Os, es: seq<Step>): (t: Os)
    requires Inv(o) && Legal(o, es)
    ensures Inv(t) && SameWorkload(o, t)
    decreases |es|
  {
    if es == [] then o
    else
      StepInv(o, es[0]);
      StepWorkload(o, es[0]);
      Run(Next(o, es[0]), es[1..])
  }

  ghost function Begin(cpus: nat, procs: seq<Proc>, slot: nat): (o: Os)
    requires Config(cpus, procs, slot)
    ensures Inv(o)
  {
    InitInv(cpus, procs, slot);
    Init(cpus, procs, slot)
  }

  ghost predicate AllCpusStopped(o: Os) {
    forall c :: 0 <= c < |o.cpus| ==> o.cpus[c].pc.Stopped?
  }

  /** With at most fifty processes of each priority, none is ever dropped. */
  lemma {:induction false} AlwaysKept(o: Os, es: seq<Step>)
    requires Inv(o) && Legal(o, es) && FitsQueues(o.procs) && NoneLost(o)
    ensures NoneLost(Run(o, es))
    decreases |es|
  {
    if es == [] {
    } else {
      StepInv(o, es[0]);
      StepWorkload(o, es[0]);
      NoneLostStep(o, es[0]);
      SamePrios(o.procs, Next(o, es[0]).procs);
      AlwaysKept(Next(o, es[0]), es[1..]);
    }
  }

  lemma BeginKept(cpus: nat, procs: seq<Proc>, slot: nat, es: seq<Step>)
    requires Config(cpus, procs, slot) && Legal(Begin(cpus, procs, slot), es)
    ensures FitsQueues(procs) ==> NoneLost(Run(Begin(cpus, procs, slot), es))
  {
    if FitsQueues(procs) { AlwaysKept(Begin(cpus, procs, slot), es); }
  }

  // ----- End of run

  /** No premature stop.  In every interleaving of loader, CPUs and timer, once all CPUs have stopped
      every process of the configuration was loaded, all ready queues are empty, and every process is
      finished, but for those that enqueue dropped at a full queue: with at most fifty processes of
      each priority there are none. */
  lemma NoPrematureStop(cpus: nat, procs: seq<Proc>, slot: nat, es: seq<Step>)
    requires Config(cpus, procs, slot) && Legal(Begin(cpus, procs, slot), es)
    requires AllCpusStopped(Run(Begin(cpus, procs, slot), es))
    ensures var o := Run(Begin(cpus, procs, slot), es);
      && o.loaded == |procs|
      && (forall x :: 0 <= x < |procs| ==> o.place[x].Done? || o.place[x].Lost?)
      && (FitsQueues(procs) ==> forall x :: 0 <= x < |procs| ==> o.place[x].Done?)
      && (forall q :: 0 <= q < M.MAX_PRIO ==> o.sched.queues[q] == [])
  {
    StoppedMeansDone(Run(Begin(cpus, procs, slot), es));
    BeginKept(cpus, procs, slot, es);
  }

  lemma StoppedMeansDone(o: Os)
    requires Inv(o) && AllCpusStopped(o)
    ensures o.loaded == |o.procs|
    ensures forall q :: 0 <= q < M.MAX_PRIO ==> o.sched.queues[q] == []
    ensures forall x :: 0 <= x < |o.procs| ==> o.place[x].Done? || o.place[x].Lost?
  {
    assert o.cpus[0].pc.Stopped?;
    assert forall c :: 0 <= c < |o.cpus| ==> !Attended(o, c);
    assert !AnyReady(o.sched);
  }

  // ----- In every reachable state

  /** Process exclusivity: a loaded process is either in exactly one position of one ready queue, or
      held by exactly one CPU, or finished, or was dropped unfinished at a full queue; and no loss: with
      at most fifty processes of each priority none is dropped. */
  lemma ExactlyOnePlace(cpus: nat, procs: seq<Proc>, slot: nat, es: seq<Step>, x: nat)
    requires Config(cpus, procs, slot) && Legal(Begin(cpus, procs, slot), es) && x < |procs|
    ensures var o := Run(Begin(cpus, procs, slot), es);
      && (forall q, i, r, j :: InQueue(o, q, i, x) && InQueue(o, r, j, x) ==> q == r == procs[x].prio && i == j)
      && (forall c, d :: Holds(o, c, x) && Holds(o, d, x) ==> c == d)
      && match o.place[x]
         case Unloaded => x >= o.loaded && Nowhere(o, x)
         case Ready => (exists q, i :: InQueue(o, q, i, x)) && (forall c :: !Holds(o, c, x))
         case OnCpu(c) => Holds(o, c, x) && (forall q, i :: !InQueue(o, q, i, x))
         case Done => Finished(o.procs[x], slot) && Nowhere(o, x)
         case Lost => x < o.loaded && !Finished(o.procs[x], slot) && Nowhere(o, x) && !FitsQueues(procs)
  {
    var o := Run(Begin(cpus, procs, slot), es);
    assert ProcInv(o, x);
    InOneQueue(o, x);
    OnOneCpu(o, x);
    BeginKept(cpus, procs, slot, es);
  }

  lemma OnOneCpu(o: Os, x: nat)
    requires Wf(o) && Placed(o) && x < |o.procs|
    ensures forall c, d :: Holds(o, c, x) && Holds(o, d, x) ==> c == d
    ensures forall c :: Holds(o, c, x) ==> o.place[x] == OnCpu(c)
    ensures o.place[x].OnCpu? ==> Holds(o, o.place[x].c, x)
  {
  }

  /** In no queue and on no CPU. */
  ghost predicate Nowhere(o: Os, x: nat) {
    (forall q, i :: !InQueue(o, q, i, x)) && (forall c :: !Holds(o, c, x))
  }

  predicate InQueue(o: Os, q: int, i: int, x: nat) {
    0 <= q < |o.sched.queues| && 0 <= i < |o.sched.queues[q]| && o.sched.queues[q][i] == x
  }

  predicate Holds(o: Os, c: int, x: nat) {
    0 <= c < |o.cpus| && o.cpus[c].proc == Some(x)
  }

  lemma InOneQueue(o: Os, x: nat)
    requires Wf(o) && Placed(o) && x < |o.procs|
    ensures forall q, i :: InQueue(o, q, i, x) ==> o.place[x].Ready? && q == o.procs[x].prio
    ensures forall q, i, r, j :: InQueue(o, q, i, x) && InQueue(o, r, j, x) ==> q == r && i == j
    ensures o.place[x].Ready? ==> exists q, i :: InQueue(o, q, i, x)
  {
    forall q, i | InQueue(o, q, i, x) ensures o.place[x].Ready? && q == o.procs[x].prio {
      assert x in o.sched.queues[q];
    }
    forall q, i, r, j | InQueue(o, q, i, x) && InQueue(o, r, j, x) ensures q == r && i == j {
      assert NoDup(o.sched.queues[q]);
    }
    if o.place[x].Ready? {
      var q := o.procs[x].prio;
      assert x in o.sched.queues[q];
      var i :| 0 <= i < |o.sched.queues[q]| && o.sched.queues[q][i] == x;
      assert InQueue(o, q, i, x);
    }
  }

  /** With at most fifty processes of each priority a ready queue never holds 50 when another one has to
      join it, so enqueue's silent drop is out of reach. */
  lemma NeverDropped(cpus: nat, procs: seq<Proc>, slot: nat, es: seq<Step>, x: nat)
    requires Config(cpus, procs, slot) && Legal(Begin(cpus, procs, slot), es) && x < |procs|
    requires FitsQueues(procs)
    ensures var o := Run(Begin(cpus, procs, slot), es);
      !o.place[x].Lost? && (!o.place[x].Ready? ==> |o.sched.queues[procs[x].prio]| < M.MAX_QUEUE_SIZE)
  {
    var o := Run(Begin(cpus, procs, slot), es);
    BeginKept(cpus, procs, slot, es);
    SamePrios(procs, o.procs);
    if !o.place[x].Ready? { RoomFor(o, x); }
  }

  /** Exact execution: at all times the instructions executed for a process are 0, 1, .., pc - 1, once
      each and in order, and no CPU executes two instructions in one time slot. */
  lemma ExecutionOrder(cpus: nat, procs: seq<Proc>, slot: nat, es: seq<Step>, x: nat)
    requires Config(cpus, procs, slot) && Legal(Begin(cpus, procs, slot), es) && x < |procs|
    ensures var o := Run(Begin(cpus, procs, slot), es);
      InstrsOf(o.log, x) == UpTo(o.procs[x].pc) && o.procs[x].pc <= procs[x].size && OnePerSlot(o.log)
  {
    var o := Run(Begin(cpus, procs, slot), es);
    assert ProcInv(o, x);
  }

  /** When the run is over, a process of n instructions that was not dropped has executed 0 .. n-1 and
      was dispatched exactly max(1, ceil(n / slot)) times. */
  lemma CompleteRun(cpus: nat, procs: seq<Proc>, slot: nat, es: seq<Step>, x: nat)
    requires Config(cpus, procs, slot) && Legal(Begin(cpus, procs, slot), es) && x < |procs|
    requires AllCpusStopped(Run(Begin(cpus, procs, slot), es))
    ensures var o := Run(Begin(cpus, procs, slot), es);
      && (FitsQueues(procs) ==> !o.place[x].Lost?)
      && (!o.place[x].Lost? ==>
            InstrsOf(o.log, x) == UpTo(procs[x].size) && o.procs[x].disp == Rounds(procs[x].size, slot))
  {
    var o := Run(Begin(cpus, procs, slot), es);
    StoppedMeansDone(o);
    BeginKept(cpus, procs, slot, es);
    assert ProcInv(o, x);
    if o.place[x].Done? { FinishedDispatches(o.procs[x], slot); }
  }

  /** A finished process is never dispatched or run again. */
  lemma DoneForGood(o: Os, e: Step, x: nat)
    requires Inv(o) && Enabled(o, e) && x < |o.procs| && o.place[x].Done?
    ensures var t := Next(o, e); x < |t.procs| == |t.place| && t.place[x].Done? && t.procs[x] == o.procs[x]
  {
    if e.CpuStep? { CpuDone(o, e.c, x); }
  }

  /** The three steps that touch one held process spare every other process. */
  lemma OthersKept(o: Os, c: nat, y: nat, x: nat)
    requires Wf(o) && c < |o.cpus| && y < |o.procs| && x < |o.procs| && x != y
    ensures Finish(o, c, y).place[x] == o.place[x] && Finish(o, c, y).procs[x] == o.procs[x]
    ensures Yield(o, c, y).place[x] == o.place[x] && Yield(o, c, y).procs[x] == o.procs[x]
    ensures RunOne(o, c, y).place[x] == o.place[x] && RunOne(o, c, y).procs[x] == o.procs[x]
  {
  }

  lemma CpuDone(o: Os, c: nat, x: nat)
    requires Inv(o) && Enabled(o, CpuStep(c)) && x < |o.procs| && o.place[x].Done?
    ensures var t := CpuNext(o, c); x < |t.procs| == |t.place| && t.place[x].Done? && t.procs[x] == o.procs[x]
  {
    var cpu := o.cpus[c];
    CpuFrame(o, c);
    if cpu.pc.Reget? || (cpu.pc.Top? && cpu.proc.None?) {
      GetSparesDone(o, c, if cpu.pc == Reget(true) then 0 else cpu.left, x);
    } else {
      HeldNotDone(o, c, x);
      CpuOthers(o, c, x);
    }
  }

  lemma GetSparesDone(o: Os, c: nat, left: nat, x: nat)
    requires Wf(o) && QueuesPlaced(o) && c < |o.cpus| && x < |o.procs| && o.place[x].Done?
    ensures var t := GetProc(o, c, left); x < |t.procs| == |t.place| && t.place[x].Done? && t.procs[x] == o.procs[x]
  {
    GetProcShape(o, c, left);
  }

  lemma CpuOthers(o: Os, c: nat, x: nat)
    requires Wf(o) && Enabled(o, CpuStep(c)) && x < |o.procs| && o.cpus[c].proc != Some(x)
    requires !o.cpus[c].pc.Reget? && !(o.cpus[c].pc.Top? && o.cpus[c].proc.None?)
    ensures var t := CpuNext(o, c); x < |t.procs| == |t.place| && t.place[x] == o.place[x] && t.procs[x] == o.procs[x]
  {
    if o.cpus[c].proc.Some? { OthersKept(o, c, o.cpus[c].proc.value, x); }
  }

  lemma HeldNotDone(o: Os, c: nat, x: nat)
    requires Inv(o) && c < |o.cpus| && x < |o.procs| && o.place[x].Done?
    ensures o.cpus[c].proc != Some(x)
  {
    assert o.cpus[c].proc.Some? ==> o.place[o.cpus[c].proc.value] == OnCpu(c);
  }

  // ----- Termination

  lemma {:induction false} AlwaysTimed(o: Os, es: seq<Step>, latest: nat)
    requires Inv(o) && Legal(o, es) && Timed(o, latest) && TimeOk(o, latest)
    ensures Timed(Run(o, es), latest) && TimeOk(Run(o, es), latest)
    decreases |es|
  {
    if es == [] {
    } else {
      TimedNext(o, es[0], latest);
      AlwaysTimed(Next(o, es[0]), es[1..], latest);
    }
  }

  lemma TimedNext(o: Os, e: Step, latest: nat)
    requires Inv(o) && Enabled(o, e) && Timed(o, latest) && TimeOk(o, latest)
    ensures Inv(Next(o, e)) && Timed(Next(o, e), latest) && TimeOk(Next(o, e), latest)
  {
    StepInv(o, e);
    TimedStep(o, e, latest);
    StepWorkload(o, e);
    SameDemand(o.procs, Next(o, e).procs);
    TimeOkStep(o, e, latest);
  }

  lemma BeginTimed(cpus: nat, procs: seq<Proc>, slot: nat, latest: nat)
    requires Config(cpus, procs, slot) && forall x :: 0 <= x < |procs| ==> procs[x].start <= latest
    ensures var b := Begin(cpus, procs, slot);
      Timed(b, latest) && TimeOk(b, latest) && b.bar.time == 0 && |b.cpus| == cpus && b.procs == procs
  {
  }

  /** Every run ends in time.  In every interleaving, spurious wakeups included, the barrier's time
      never passes the latest start, one slot per process to load it, one slot per instruction of the
      workload (and per empty process) and two more; and it is short of that while any thread has not
      detached. */
  lemma StopsInTime(cpus: nat, procs: seq<Proc>, slot: nat, es: seq<Step>, latest: nat)
    requires Config(cpus, procs, slot) && Legal(Begin(cpus, procs, slot), es)
    requires forall x :: 0 <= x < |procs| ==> procs[x].start <= latest
    ensures var o := Run(Begin(cpus, procs, slot), es);
      && o.bar.time <= latest + |procs| + Demand(procs) + 2
      && (o.bar.time == latest + |procs| + Demand(procs) + 2 ==> B.AllDetached(o.bar) && AllCpusStopped(o))
  {
    var b := Begin(cpus, procs, slot);
    BeginTimed(cpus, procs, slot, latest);
    AlwaysTimed(b, es, latest);
    SameDemand(procs, Run(b, es).procs);
    AtLastTime(Run(b, es), latest);
  }

  lemma AtLastTime(o: Os, latest: nat)
    requires Inv(o) && Timed(o, latest) && TimeOk(o, latest)
    ensures o.bar.time >= LastTime(o.procs, latest) ==> B.AllDetached(o.bar) && AllCpusStopped(o)
  {
    if o.bar.time >= LastTime(o.procs, latest) {
      forall d | 0 <= d < |o.bar.devs| ensures o.bar.devs[d].pc.Detached? {
        if !o.bar.devs[d].pc.Detached? { LiveBound(o, latest, d); }
      }
      DetachedMeansStopped(o);
    }
  }

  lemma DetachedMeansStopped(o: Os)
    requires Inv(o) && B.AllDetached(o.bar)
    ensures AllCpusStopped(o) && o.load.LoadStopped?
  {
    forall c | 0 <= c < |o.cpus| ensures o.cpus[c].pc.Stopped? {
      assert CpuDevice(o.cpus[c].pc, o.bar.devs[c].pc);
    }
  }

  // ----- The PID lookup

  lemma {:induction false} AlwaysListed(o: Os, es: seq<Step>)
    requires Inv(o) && Legal(o, es) && Listed(o) && Budget(o)
    ensures Listed(Run(o, es)) && Budget(Run(o, es))
    decreases |es|
  {
    if es == [] {
    } else {
      StepInv(o, es[0]);
      ListedStep(o, es[0]);
      AlwaysListed(Next(o, es[0]), es[1..]);
    }
  }

  lemma {:induction false} NothingYet(procs: seq<Proc>, places: seq<Place>)
    requires forall x :: 0 <= x < |procs| ==> procs[x].disp == 0
    requires forall x :: 0 <= x < |places| ==> places[x].Unloaded?
    ensures SumDisp(procs) == 0 && CountDone(places) == 0
    decreases |procs| + |places|
  {
    if procs != [] { NothingYet(procs[..|procs| - 1], places); }
    if places == [] {
    } else {
      NothingYet(procs, places[..|places| - 1]);
    }
  }

  /** If the dispatches of the whole workload fit the running list, then in every reachable state each
      unfinished process is on it once per dispatch so far and each finished one once less, and so
      every system call of a process on a CPU finds its own PCB by pid. */
  lemma PidLookup(cpus: nat, procs: seq<Proc>, slot: nat, es: seq<Step>)
    requires Config(cpus, procs, slot) && Legal(Begin(cpus, procs, slot), es)
    requires SumRounds(procs, slot) <= M.MAX_QUEUE_SIZE
    ensures var o := Run(Begin(cpus, procs, slot), es);
      && Listed(o)
      && (forall c :: 0 <= c < |o.cpus| && o.cpus[c].proc.Some? ==> o.cpus[c].proc.value in o.sched.running)
  {
    var b := Begin(cpus, procs, slot);
    NothingYet(b.procs, b.place);
    AlwaysListed(b, es);
    var o := Run(b, es);
    forall c | 0 <= c < |o.cpus| && o.cpus[c].proc.Some? ensures o.cpus[c].proc.value in o.sched.running {
      HeldIsListed(o, c);
    }
  }

  /** The exact condition at a dispatch: the process will be found by pid if and only if it is on the
      list already or the list has room. */
  lemma ListedIff(o: Os, c: nat, left: nat)
    requires Wf(o) && c < |o.cpus| && M.Get(o.sched).0.Some?
    ensures var x := M.Get(o.sched).0.value;
      x in GetProc(o, c, left).sched.running <==> x in o.sched.running || |o.sched.running| < M.MAX_QUEUE_SIZE
  {
    M.GetShape(o.sched);
  }

  // ----- No deadlock

  /** A thread's own step, or the timer's, without help from spurious wakeups. */
  ghost predicate Unaided(e: Step) {
    match e
    case BarStep(b) => b.Tick?
    case _ => true
  }

  lemma CpuCanMove(o: Os, c: nat)
    requires Inv(o) && c < |o.cpus| && !o.cpus[c].pc.Stopped? && !o.bar.devs[c].pc.Asleep?
    ensures Enabled(o, CpuStep(c))
  {
    assert CpuDevice(o.cpus[c].pc, o.bar.devs[c].pc);
  }

  /** Some thread can take a step, without help from a spurious wakeup, exactly until the timer thread
      has ended; by then all the others have. */
  lemma NeverStuck(o: Os)
    requires Inv(o)
    ensures (exists e :: Unaided(e) && Enabled(o, e)) <==> !o.bar.timer.Exited?
    ensures o.bar.timer.Exited? ==> B.AllDetached(o.bar) && AllCpusStopped(o) && o.load.LoadStopped?
  {
    if o.bar.timer.Exited? {
      DetachedMeansStopped(o);
    } else if o.bar.timer.Blocked? {
      B.NoLostWakeup(o.bar, o.bar.timer.i);
      DeviceCanMove(o, o.bar.timer.i);
    } else {
      assert Unaided(BarStep(B.Tick)) && Enabled(o, BarStep(B.Tick));
    }
  }

  lemma DeviceCanMove(o: Os, d: nat)
    requires Inv(o) && d <= |o.cpus| && !o.bar.devs[d].pc.Detached? && !o.bar.devs[d].pc.Asleep?
    ensures exists e :: Unaided(e) && Enabled(o, e)
  {
    if d < |o.cpus| {
      assert CpuDevice(o.cpus[d].pc, o.bar.devs[d].pc);
      CpuCanMove(o, d);
      assert Unaided(CpuStep(d));
    } else {
      assert Unaided(LoadStep) && Enabled(o, LoadStep);
    }
  }
}
