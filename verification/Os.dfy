/** The whole machine of src/os.c: CPU loops, the loader loop, the ready queues of sched.c and the
    barrier of timer.c, interleaved at critical-section granularity. */
module Os {
  import opened Common
  import B = Barrier
  import M = Mlq

  /** Where a CPU is in cpu_routine.  Top: start of the loop body.  Reget: after remove_proc or
      put_proc, before the get_proc that follows.  Check: at the recheck, after which it runs, skips
      the slot or leaves.  Arriving: about to call next_slot.  InSlot: inside next_slot's wait.
      Leaving: about to call detach_event. */
  datatype CpuPc = Top | Reget(finished: bool) | Check | Arriving | InSlot | Leaving | Stopped

  /** `left` is time_left. */
  datatype Cpu = Cpu(pc: CpuPc, proc: Option<nat>, left: nat)

  /** Where the loader is in the load loop of ld_routine. */
  datatype LoadPc = LoadTop | LoadArriving | LoadInSlot | LoadLeaving | LoadStopped

  /** `disp` counts the dispatches of the process so far. */
  datatype Proc = Proc(size: nat, prio: nat, start: nat, pc: nat, disp: nat)

  /** History: which condition a process is in.  Lost: enqueue found its ready queue full and dropped
      it. */
  datatype Place = Unloaded | Ready | OnCpu(c: nat) | Done | Lost

  /** History: one executed instruction. */
  datatype Exec = Exec(cpu: nat, pid: nat, instr: nat, time: nat)

  /** Devices 0 .. |cpus| - 1 of the barrier are the CPUs, the last one is the loader.  `slot` is
      time_slot, `loaded` the loader's index i, `done` the global flag. */
  datatype Os = Os(slot: nat, bar: B.State, sched: M.Sched, cpus: seq<Cpu>, load: LoadPc, loaded: nat,
                   done: bool, procs: seq<Proc>, place: seq<Place>, log: seq<Exec>)

  datatype Step =
    | CpuStep(c: nat)
    | LoadStep
    | BarStep(e: B.Step)   // the timer thread, spurious wakeups, stop_timer

  function Init(cpus: nat, procs: seq<Proc>, slot: nat): Os {
    Os(slot, B.Start(cpus + 1), M.Init(), seq(cpus, _ => Cpu(Top, None, 0)), LoadTop, 0, false,
       procs, seq(|procs|, _ => Unloaded), [])
  }

  /** At least one CPU, a slot of at least one, processes of legal priority. */
  ghost predicate Config(cpus: nat, procs: seq<Proc>, slot: nat) {
    && cpus >= 1 && slot >= 1
    && forall x :: 0 <= x < |procs| ==> procs[x].prio < M.MAX_PRIO && procs[x].pc == 0 && procs[x].disp == 0
  }

  /** Partial operations below are defined. */
  ghost predicate Wf(o: Os) {
    && M.Valid(o.sched) && |o.bar.devs| == |o.cpus| + 1 && |o.place| == |o.procs| && o.loaded <= |o.procs|
    && o.slot >= 1
    && (forall x :: 0 <= x < |o.procs| ==> o.procs[x].prio < M.MAX_PRIO)
    && (forall q, x :: 0 <= q < M.MAX_PRIO && x in o.sched.queues[q] ==> x < |o.procs|)
    && (forall c :: 0 <= c < |o.cpus| && o.cpus[c].proc.Some? ==> o.cpus[c].proc.value < |o.procs|)
  }

  predicate Enabled(o: Os, e: Step)
    requires |o.bar.devs| == |o.cpus| + 1
  {
    match e
    case CpuStep(c) =>
      c < |o.cpus| &&
      (match o.cpus[c].pc
       case Arriving => B.Enabled(o.bar, B.Arrive(c))
       case InSlot => B.Enabled(o.bar, B.Recheck(c))
       case Leaving => B.Enabled(o.bar, B.Detach(c))
       case Stopped => false
       case _ => true)
    case LoadStep =>
      (match o.load
       case LoadTop => true
       case LoadArriving => B.Enabled(o.bar, B.Arrive(|o.cpus|))
       case LoadInSlot => B.Enabled(o.bar, B.Recheck(|o.cpus|))
       case LoadLeaving => B.Enabled(o.bar, B.Detach(|o.cpus|))
       case LoadStopped => false)
    case BarStep(b) => (b.Tick? || b.WakeDevice? || b.WakeTimer? || b.Stop?) && B.Enabled(o.bar, b)
  }

  /** get_proc, with the value time_left has afterwards. */
  ghost function GetProc(o: Os, c: nat, left: nat): (r: Os)
    requires Wf(o) && c < |o.cpus|
    ensures |r.procs| == |o.procs| && |r.place| == |o.place|
  {
    var (r, s) := M.Get(o.sched);
    match r
    case None => o.(cpus := o.cpus[c := Cpu(Check, None, left)])
    case Some(x) =>
      assert x in o.sched.queues[M.Choose(o.sched).prio];
      o.(sched := s, cpus := o.cpus[c := Cpu(Check, Some(x), left)],
         place := o.place[x := OnCpu(c)],
         procs := o.procs[x := o.procs[x].(disp := o.procs[x].disp + 1)])
  }

  /** remove_proc */
  ghost function Finish(o: Os, c: nat, x: nat): Os
    requires Wf(o) && c < |o.cpus| && x < |o.procs|
  {
    o.(sched := M.Remove(o.sched, x), cpus := o.cpus[c := Cpu(Reget(true), None, o.cpus[c].left)],
       place := o.place[x := Done])
  }

  /** What becomes of a process that is put in the queue of priority p. */
  function Joins(s: M.Sched, p: nat): Place
    requires p < |s.queues|
  {
    if |s.queues[p]| < M.MAX_QUEUE_SIZE then Ready else Lost
  }

  /** put_proc */
  ghost function Yield(o: Os, c: nat, x: nat): Os
    requires Wf(o) && c < |o.cpus| && x < |o.procs|
  {
    o.(sched := M.Put(o.sched, o.procs[x].prio, x), cpus := o.cpus[c := Cpu(Reget(false), None, o.cpus[c].left)],
       place := o.place[x := Joins(o.sched, o.procs[x].prio)])
  }

  /** Refill time_left on a fresh dispatch, run one instruction if any is left, count the slot. */
  ghost function RunOne(o: Os, c: nat, x: nat): Os
    requires Wf(o) && c < |o.cpus| && x < |o.procs|
  {
    var left := if o.cpus[c].left == 0 then o.slot else o.cpus[c].left;
    var p := o.procs[x];
    var o' := o.(cpus := o.cpus[c := Cpu(Arriving, Some(x), left - 1)]);
    if p.pc >= p.size then o'
    else o'.(procs := o.procs[x := p.(pc := p.pc + 1)], log := o.log + [Exec(c, x, p.pc, o.bar.time)])
  }

  ghost function CpuNext(o: Os, c: nat): Os
    requires Wf(o) && Enabled(o, CpuStep(c))
  {
    var cpu := o.cpus[c];
    match cpu.pc
    case Top =>
      (match cpu.proc
       case None => GetProc(o, c, cpu.left)
       case Some(x) =>
         if o.procs[x].pc == o.procs[x].size then Finish(o, c, x)
         else if cpu.left == 0 then Yield(o, c, x)
         else o.(cpus := o.cpus[c := cpu.(pc := Check)]))
    case Reget(finished) => GetProc(o, c, if finished then 0 else cpu.left)
    case Check =>
      (match cpu.proc
       case None => o.(cpus := o.cpus[c := cpu.(pc := if o.done then Leaving else Arriving)])
       case Some(x) => RunOne(o, c, x))
    case Arriving => o.(cpus := o.cpus[c := cpu.(pc := InSlot)], bar := B.Next(o.bar, B.Arrive(c)))
    case InSlot =>
      var bar := B.Next(o.bar, B.Recheck(c));
      o.(cpus := o.cpus[c := cpu.(pc := if bar.devs[c].pc.Working? then Top else InSlot)], bar := bar)
    case Leaving => o.(cpus := o.cpus[c := cpu.(pc := Stopped)], bar := B.Next(o.bar, B.Detach(c)))
  }

  /** add_proc of the loader's next process */
  ghost function Add(o: Os): Os
    requires Wf(o) && o.loaded < |o.procs|
  {
    o.(sched := M.Put(o.sched, o.procs[o.loaded].prio, o.loaded),
       place := o.place[o.loaded := Joins(o.sched, o.procs[o.loaded].prio)],
       loaded := o.loaded + 1, load := LoadArriving)
  }

  ghost function LoadNext(o: Os): Os
    requires Wf(o) && Enabled(o, LoadStep)
  {
    var d := |o.cpus|;
    match o.load
    case LoadTop =>
      if o.loaded == |o.procs| then o.(done := true, load := LoadLeaving)
      else if o.bar.time < o.procs[o.loaded].start then o.(load := LoadArriving)
      else Add(o)
    case LoadArriving => o.(load := LoadInSlot, bar := B.Next(o.bar, B.Arrive(d)))
    case LoadInSlot =>
      var bar := B.Next(o.bar, B.Recheck(d));
      o.(load := if bar.devs[d].pc.Working? then LoadTop else LoadInSlot, bar := bar)
    case LoadLeaving => o.(load := LoadStopped, bar := B.Next(o.bar, B.Detach(d)))
  }

  ghost function Next(o: Os, e: Step): Os
    requires Wf(o) && Enabled(o, e)
  {
    match e
    case CpuStep(c) => CpuNext(o, c)
    case LoadStep => LoadNext(o)
    case BarStep(b) => o.(bar := B.Next(o.bar, b))
  }

  // ----- Every thread agrees with its barrier device

  ghost predicate CpuDevice(pc: CpuPc, dev: B.Pc) {
    match pc
    case InSlot => dev.Waiting? || dev.Asleep?
    case Stopped => dev.Detached?
    case _ => dev.Working?
  }

  ghost predicate LoadDevice(pc: LoadPc, dev: B.Pc) {
    match pc
    case LoadInSlot => dev.Waiting? || dev.Asleep?
    case LoadStopped => dev.Detached?
    case _ => dev.Working?
  }

  ghost predicate OnBarrier(o: Os)
    requires Wf(o)
  {
    && B.Inv(o.bar)
    && (forall c :: 0 <= c < |o.cpus| ==> CpuDevice(o.cpus[c].pc, o.bar.devs[c].pc))
    && LoadDevice(o.load, o.bar.devs[|o.cpus|].pc)
  }

  /** The barrier step hidden in a machine step. */
  function BarrierStep(o: Os, e: Step): Option<B.Step>
    requires |o.bar.devs| == |o.cpus| + 1 && Enabled(o, e)
  {
    match e
    case BarStep(b) => Some(b)
    case CpuStep(c) =>
      (match o.cpus[c].pc
       case Arriving => Some(B.Arrive(c))
       case InSlot => Some(B.Recheck(c))
       case Leaving => Some(B.Detach(c))
       case _ => None)
    case LoadStep =>
      (match o.load
       case LoadArriving => Some(B.Arrive(|o.cpus|))
       case LoadInSlot => Some(B.Recheck(|o.cpus|))
       case LoadLeaving => Some(B.Detach(|o.cpus|))
       case _ => None)
  }

  lemma BarrierNext(o: Os, e: Step)
    requires Wf(o) && Enabled(o, e)
    ensures match BarrierStep(o, e)
      case Some(b) => B.Enabled(o.bar, b) && Next(o, e).bar == B.Next(o.bar, b)
      case None => Next(o, e).bar == o.bar
  {
  }

  /** A CPU step leaves the other CPUs and the loader where they are. */
  lemma CpuFrame(o: Os, c: nat)
    requires Wf(o) && Enabled(o, CpuStep(c))
    ensures var t := CpuNext(o, c);
      && |t.cpus| == |o.cpus| && (forall d :: 0 <= d < |o.cpus| && d != c ==> t.cpus[d] == o.cpus[d])
      && t.load == o.load && t.loaded == o.loaded && t.done == o.done && t.slot == o.slot
      && |t.procs| == |o.procs| && |t.place| == |o.place|
  {
    var cpu := o.cpus[c];
    if cpu.pc.Reget? || (cpu.pc.Top? && cpu.proc.None?) {
      GetFrame(o, c, if cpu.pc == Reget(true) then 0 else cpu.left);
    }
  }

  lemma GetFrame(o: Os, c: nat, left: nat)
    requires Wf(o) && c < |o.cpus|
    ensures var t := GetProc(o, c, left);
      && |t.cpus| == |o.cpus| && (forall d :: 0 <= d < |o.cpus| && d != c ==> t.cpus[d] == o.cpus[d])
      && t.cpus[c].pc.Check?
      && t.load == o.load && t.loaded == o.loaded && t.done == o.done && t.slot == o.slot && t.bar == o.bar
  {
  }

  lemma LoadFrame(o: Os)
    requires Wf(o) && Enabled(o, LoadStep)
    ensures var t := LoadNext(o);
      t.cpus == o.cpus && t.slot == o.slot && t.procs == o.procs && |t.place| == |o.place| && t.log == o.log
  {
  }

  /** A barrier step of device d moves the pc of no other device; a timer step never moves one
      between the groups that matter to its thread. */
  lemma BarrierFrame(b: B.State, e: B.Step)
    requires B.Enabled(b, e)
    ensures var t := B.Next(b, e);
      && |t.devs| == |b.devs|
      && (forall i :: 0 <= i < |b.devs| && !(e.Arrive? && e.d == i) && !(e.Recheck? && e.d == i) && !(e.Detach? && e.d == i) ==>
            t.devs[i].calls == b.devs[i].calls && CpuPcKept(b.devs[i].pc, t.devs[i].pc))
  {
  }

  ghost predicate CpuPcKept(p: B.Pc, q: B.Pc) {
    p == q || (p == B.Asleep && q == B.Waiting)
  }

  lemma CpuOnBarrier(o: Os, c: nat)
    requires Wf(o) && OnBarrier(o) && Enabled(o, CpuStep(c)) && Wf(CpuNext(o, c))
    ensures OnBarrier(CpuNext(o, c))
  {
    BarrierNext(o, CpuStep(c));
    CpuFrame(o, c);
    var t := CpuNext(o, c);
    if BarrierStep(o, CpuStep(c)).Some? {
      var b := BarrierStep(o, CpuStep(c)).value;
      B.StepInv(o.bar, b);
      BarrierFrame(o.bar, b);
      assert CpuDevice(t.cpus[c].pc, t.bar.devs[c].pc);
    } else {
      assert CpuDevice(t.cpus[c].pc, t.bar.devs[c].pc);
    }
  }

  lemma LoadOnBarrier(o: Os)
    requires Wf(o) && OnBarrier(o) && Enabled(o, LoadStep) && Wf(LoadNext(o))
    ensures OnBarrier(LoadNext(o))
  {
    BarrierNext(o, LoadStep);
    LoadFrame(o);
    if BarrierStep(o, LoadStep).Some? {
      var b := BarrierStep(o, LoadStep).value;
      B.StepInv(o.bar, b);
      BarrierFrame(o.bar, b);
    }
  }

  lemma OnBarrierStep(o: Os, e: Step)
    requires Wf(o) && OnBarrier(o) && Enabled(o, e) && Wf(Next(o, e))
    ensures OnBarrier(Next(o, e))
  {
    match e
    case CpuStep(c) => CpuOnBarrier(o, c);
    case LoadStep => LoadOnBarrier(o);
    case BarStep(b) =>
      B.StepInv(o.bar, b);
      BarrierFrame(o.bar, b);
  }
}
