/** When each process is loaded: in the slot of its start time, or as soon after as the loader, which adds
    one process per slot in the order of the configuration, gets to it. */
module OsLoad {
  import opened Os
  import opened OsStop
  import opened OsExec
  import opened OsTime
  import opened OsRuns
  import B = Barrier

  function Starts(procs: seq<Proc>): (r: seq<nat>)
    ensures |r| == |procs| && forall x :: 0 <= x < |r| ==> r[x] == procs[x].start
  {
    seq(|procs|, x requires 0 <= x < |procs| => procs[x].start)
  }

  /** The later of the start time of process x and the slot after that of its predecessor. */
  function LoadSlot(starts: seq<nat>, x: nat): nat
    requires x < |starts|
  {
    if x == 0 then starts[0]
    else if LoadSlot(starts, x - 1) < starts[x] then starts[x] else LoadSlot(starts, x - 1) + 1
  }

  lemma {:induction false} LoadSlotGrows(starts: seq<nat>, x: nat, y: nat)
    requires x <= y < |starts|
    ensures LoadSlot(starts, x) + (y - x) <= LoadSlot(starts, y) && starts[x] <= LoadSlot(starts, x)
  {
    if x < y { LoadSlotGrows(starts, x, y - 1); }
  }

  predicate OnItsWay(pc: LoadPc) { pc.LoadArriving? || pc.LoadInSlot? }

  /** The loader has completed the slot of its last add, or is on its way to, and is not past the slot of
      its next one. */
  ghost predicate OnSchedule(o: Os, starts: seq<nat>)
    requires Wf(o)
  {
    var calls, arrived := o.bar.devs[|o.cpus|].calls, OnItsWay(o.load);
    && |starts| == |o.procs| && (forall x :: 0 <= x < |starts| ==> o.procs[x].start == starts[x])
    && (o.loaded > 0 ==> LoadSlot(starts, o.loaded - 1) + (if arrived then 0 else 1) <= calls)
    && (o.loaded < |starts| ==> calls + (if arrived then 1 else 0) <= LoadSlot(starts, o.loaded))
  }

  /** Nothing is executed before its process's slot. */
  ghost predicate LogTimely(o: Os, starts: seq<nat>) {
    forall i :: 0 <= i < |o.log| ==> o.log[i].pid < |starts| && LoadSlot(starts, o.log[i].pid) <= o.log[i].time
  }

  /** What the loader's step does to its position, its index and its calls. */
  lemma LoaderMoves(o: Os)
    requires Wf(o) && OnBarrier(o) && Enabled(o, LoadStep) && Wf(LoadNext(o))
    ensures var (t, calls) := (LoadNext(o), o.bar.devs[|o.cpus|].calls);
      && |t.cpus| == |o.cpus| && t.procs == o.procs
      && t.bar.devs[|o.cpus|].calls == calls + (if OnItsWay(o.load) && !OnItsWay(t.load) then 1 else 0)
      && (o.load.LoadTop? && o.loaded < |o.procs| ==>
            && calls == o.bar.time && OnItsWay(t.load)
            && t.loaded == o.loaded + (if o.bar.time < o.procs[o.loaded].start then 0 else 1))
      && (!o.load.LoadTop? || o.loaded == |o.procs| ==>
            t.loaded == o.loaded && (OnItsWay(t.load) ==> OnItsWay(o.load)))
  {
    LoadFrame(o);
    BarrierNext(o, LoadStep);
    assert B.DeviceInv(o.bar, |o.cpus|) && LoadDevice(o.load, o.bar.devs[|o.cpus|].pc);
  }

  lemma LoaderOnSchedule(o: Os, starts: seq<nat>)
    requires Wf(o) && OnBarrier(o) && OnSchedule(o, starts) && Enabled(o, LoadStep) && Wf(LoadNext(o))
    requires o.loaded < |o.procs| ==> o.load.LoadTop? || OnItsWay(o.load)
    ensures OnSchedule(LoadNext(o), starts)
  {
    LoaderMoves(o);
  }

  lemma CpuOnSchedule(o: Os, c: nat, starts: seq<nat>)
    requires Inv(o) && OnSchedule(o, starts) && Enabled(o, CpuStep(c)) && Wf(CpuNext(o, c))
    ensures OnSchedule(CpuNext(o, c), starts)
  {
    CpuFrame(o, c);
    CpuCalls(o, c, |o.cpus|);
    CpuStarts(o, c);
  }

  lemma ScheduleStep(o: Os, e: Step, starts: seq<nat>)
    requires Inv(o) && OnSchedule(o, starts) && Enabled(o, e) && Wf(Next(o, e))
    ensures OnSchedule(Next(o, e), starts)
  {
    match e
    case CpuStep(c) => CpuOnSchedule(o, c, starts);
    case LoadStep => LoaderOnSchedule(o, starts);
    case BarStep(b) => BarrierFrame(o.bar, b);
  }

  /** A process is unloaded before its slot and loaded after it. */
  lemma SlotOf(o: Os, starts: seq<nat>, x: nat)
    requires Inv(o) && OnSchedule(o, starts) && x < |starts|
    ensures o.bar.time < LoadSlot(starts, x) ==> o.place[x].Unloaded?
    ensures o.bar.time > LoadSlot(starts, x) ==> !o.place[x].Unloaded?
  {
    assert B.DeviceInv(o.bar, |o.cpus|) && LoadDevice(o.load, o.bar.devs[|o.cpus|].pc);
    if x < o.loaded { LoadSlotGrows(starts, x, o.loaded - 1); } else { LoadSlotGrows(starts, o.loaded, x); }
  }

  lemma LogStaysTimely(o: Os, e: Step, starts: seq<nat>)
    requires Inv(o) && OnSchedule(o, starts) && LogTimely(o, starts) && Enabled(o, e) && Wf(Next(o, e))
    ensures LogTimely(Next(o, e), starts)
  {
    if e.CpuStep? && o.cpus[e.c].pc.Check? && o.cpus[e.c].proc.Some? {
      SlotOf(o, starts, o.cpus[e.c].proc.value);
    } else {
      QuietProcs(o, e);
    }
  }

  lemma {:induction false} AlwaysOnSchedule(o: Os, es: seq<Step>, starts: seq<nat>)
    requires Inv(o) && Legal(o, es) && OnSchedule(o, starts) && LogTimely(o, starts)
    ensures OnSchedule(Run(o, es), starts) && LogTimely(Run(o, es), starts)
    decreases |es|
  {
    if es == [] {
    } else {
      StepInv(o, es[0]);
      ScheduleStep(o, es[0], starts);
      LogStaysTimely(o, es[0], starts);
      AlwaysOnSchedule(Next(o, es[0]), es[1..], starts);
    }
  }

  /** Every process is loaded exactly in its slot: at no earlier time of any run is it loaded, at no later
      time is it not.  Hence it waits for its start, processes are loaded in the order of the
      configuration, one per slot, none later than it has to be; and none executes an instruction
      before. */
  lemma LoadedOnTime(cpus: nat, procs: seq<Proc>, slot: nat, es: seq<Step>, x: nat)
    requires Config(cpus, procs, slot) && Legal(Begin(cpus, procs, slot), es) && x < |procs|
    ensures var (o, at) := (Run(Begin(cpus, procs, slot), es), LoadSlot(Starts(procs), x));
      && procs[x].start <= at
      && (o.bar.time < at ==> o.place[x].Unloaded?) && (o.bar.time > at ==> !o.place[x].Unloaded?)
      && (forall i :: 0 <= i < |o.log| && o.log[i].pid == x ==> at <= o.log[i].time)
  {
    var b, starts := Begin(cpus, procs, slot), Starts(procs);
    AlwaysOnSchedule(b, es, starts);
    SlotOf(Run(b, es), starts, x);
    LoadSlotGrows(starts, x, x);
  }
}
