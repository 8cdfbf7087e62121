/** How far each process has run, on how many dispatches, and what was executed when. */
module OsExec {
  import opened Common
  import opened Os
  import opened OsPlaces
  import B = Barrier
  import M = Mlq

  /** Time slots handed out by d dispatches. */
  function Granted(d: nat, slot: nat): nat { if d == 0 then 0 else Granted(d - 1, slot) + slot }

  /** Just dispatched: no slot of the new allotment is used yet. */
  predicate Fresh(cpu: Cpu) { cpu.pc.Check? && cpu.left == 0 }

  ghost predicate Running(p: Proc, cpu: Cpu, slot: nat) {
    && p.disp >= 1
    && if Fresh(cpu) then p.pc == Granted(p.disp - 1, slot) && (p.disp > 1 ==> p.pc < p.size)
       else
         && cpu.left < slot && (cpu.pc.Check? ==> p.pc < p.size)
         && if p.size == 0 then p.pc == 0 && p.disp == 1
            else p.pc + cpu.left == Granted(p.disp, slot) && Granted(p.disp - 1, slot) < p.pc <= p.size
  }

  /** All instructions executed, in as many dispatches as they need. */
  ghost predicate Finished(p: Proc, slot: nat) {
    && p.pc == p.size && p.disp >= 1 && p.size <= Granted(p.disp, slot)
    && (p.disp == 1 || Granted(p.disp - 1, slot) < p.size)
  }

  ghost predicate ProcInv(o: Os, x: nat)
    requires Wf(o) && x < |o.procs|
  {
    var p := o.procs[x];
    match o.place[x]
    case Unloaded => p.pc == 0 && p.disp == 0
    case Ready => p.pc == Granted(p.disp, o.slot) && (p.disp > 0 ==> p.pc < p.size)
    case Lost => p.pc == Granted(p.disp, o.slot) && (p.disp > 0 ==> p.pc < p.size)
    case OnCpu(c) => c < |o.cpus| && Running(p, o.cpus[c], o.slot)
    case Done => Finished(p, o.slot)
  }

  ghost predicate IdleCpu(cpu: Cpu) {
    cpu.proc.None? && cpu.pc != Reget(true) ==> cpu.left == 0
  }

  ghost predicate Progress(o: Os)
    requires Wf(o)
  {
    && (forall x :: 0 <= x < |o.procs| ==> ProcInv(o, x))
    && (forall c :: 0 <= c < |o.cpus| ==> IdleCpu(o.cpus[c]))
  }

  lemma DispatchProgress(o: Os, t: Os, c: nat, x: nat)
    requires Wf(o) && Wf(t) && Placed(o) && Progress(o) && c < |o.cpus| && x < |o.procs|
    requires o.cpus[c].proc.None? && o.place[x].Ready? && t.slot == o.slot
    requires t.cpus == o.cpus[c := Cpu(Check, Some(x), 0)] && t.place == o.place[x := OnCpu(c)]
    requires t.procs == o.procs[x := o.procs[x].(disp := o.procs[x].disp + 1)]
    ensures Progress(t)
  {
    forall y | 0 <= y < |t.procs| ensures ProcInv(t, y) {
      assert ProcInv(o, y);
    }
  }

  lemma IdleProgress(o: Os, t: Os, c: nat)
    requires Wf(o) && Wf(t) && Placed(o) && Progress(o) && c < |o.cpus| && o.cpus[c].proc.None?
    requires t.cpus == o.cpus[c := Cpu(Check, None, 0)] && t.place == o.place && t.procs == o.procs && t.slot == o.slot
    ensures Progress(t)
  {
    forall y | 0 <= y < |t.procs| ensures ProcInv(t, y) {
      assert ProcInv(o, y);
    }
  }

  lemma GetProgress(o: Os, c: nat, left: nat)
    requires Wf(o) && Placed(o) && Progress(o) && c < |o.cpus| && o.cpus[c].proc.None? && left == 0
    requires Wf(GetProc(o, c, left))
    ensures Progress(GetProc(o, c, left))
  {
    GetProcShape(o, c, left);
    if M.Get(o.sched).0.None? {
      IdleProgress(o, GetProc(o, c, left), c);
    } else {
      DispatchProgress(o, GetProc(o, c, left), c, M.Get(o.sched).0.value);
    }
  }

  /** CPU c moves to another program point with the same process and the same time left. */
  ghost predicate Moves(o: Os, t: Os, c: nat)
    requires Wf(o) && c < |o.cpus| == |t.cpus|
  {
    var (p, q) := (o.cpus[c], t.cpus[c]);
    && t.cpus == o.cpus[c := q] && q.proc == p.proc && q.left == p.left && !p.pc.Reget? && !q.pc.Reget?
    && (q.proc.Some? ==> !Fresh(p) && !Fresh(q)
                         && (q.pc.Check? ==> o.procs[q.proc.value].pc < o.procs[q.proc.value].size))
  }

  lemma SameProgress(o: Os, t: Os, c: nat)
    requires Wf(o) && Wf(t) && Placed(o) && Progress(o)
    requires t.procs == o.procs && t.place == o.place && t.slot == o.slot
    requires t.cpus == o.cpus || (c < |o.cpus| == |t.cpus| && Moves(o, t, c))
    ensures Progress(t)
  {
    forall x | 0 <= x < |t.procs| ensures ProcInv(t, x) {
      assert ProcInv(o, x);
    }
  }

  lemma EndProgress(o: Os, c: nat, x: nat)
    requires Wf(o) && Placed(o) && Progress(o) && c < |o.cpus| && o.cpus[c].proc == Some(x) && o.cpus[c].pc.Top?
    requires Wf(Finish(o, c, x)) && Wf(Yield(o, c, x))
    ensures o.procs[x].pc == o.procs[x].size ==> Progress(Finish(o, c, x))
    ensures o.procs[x].pc != o.procs[x].size && o.cpus[c].left == 0 ==> Progress(Yield(o, c, x))
  {
    var s, t := Finish(o, c, x), Yield(o, c, x);
    assert o.place[x] == OnCpu(c) && ProcInv(o, x);
    forall y | 0 <= y < |o.procs|
      ensures y != x ==> ProcInv(s, y) && ProcInv(t, y)
    {
      assert ProcInv(o, y);
    }
  }

  /** One instruction of a process with instructions left, or the empty slot of an empty one. */
  lemma RunAdvances(p: Proc, cpu: Cpu, slot: nat)
    requires slot >= 1 && Running(p, cpu, slot) && cpu.pc.Check?
    ensures var left := if cpu.left == 0 then slot else cpu.left;
      Running(if p.pc >= p.size then p else p.(pc := p.pc + 1), Cpu(Arriving, cpu.proc, left - 1), slot)
  {
  }

  lemma RunProgress(o: Os, c: nat, x: nat)
    requires Wf(o) && Placed(o) && Progress(o) && c < |o.cpus| && o.cpus[c].proc == Some(x) && o.cpus[c].pc.Check?
    requires Wf(RunOne(o, c, x))
    ensures Progress(RunOne(o, c, x))
  {
    var t := RunOne(o, c, x);
    assert o.place[x] == OnCpu(c) && ProcInv(o, x);
    RunAdvances(o.procs[x], o.cpus[c], o.slot);
    assert ProcInv(t, x);
    forall y | 0 <= y < |o.procs| && y != x ensures ProcInv(t, y) {
      OtherProgress(o, t, c, y);
    }
  }

  /** A process that is neither moved nor on CPU c stays where it was. */
  lemma OtherProgress(o: Os, t: Os, c: nat, y: nat)
    requires Wf(o) && Wf(t) && y < |o.procs| == |t.procs| && ProcInv(o, y) && t.slot == o.slot
    requires t.procs[y] == o.procs[y] && t.place[y] == o.place[y] && o.place[y] != OnCpu(c)
    requires c < |o.cpus| == |t.cpus| && forall d :: 0 <= d < |o.cpus| && d != c ==> t.cpus[d] == o.cpus[d]
    ensures ProcInv(t, y)
  {
  }

  lemma CpuProgress(o: Os, c: nat)
    requires Wf(o) && Placed(o) && Progress(o) && Enabled(o, CpuStep(c)) && Wf(CpuNext(o, c))
    ensures Progress(CpuNext(o, c))
  {
    var cpu, t := o.cpus[c], CpuNext(o, c);
    if cpu.pc.Reget? || (cpu.pc.Top? && cpu.proc.None?) {
      GetProgress(o, c, 0);
    } else if cpu.pc.Top? && (o.procs[cpu.proc.value].pc == o.procs[cpu.proc.value].size || cpu.left == 0) {
      FinishPlaced(o, c, cpu.proc.value);
      YieldPlaced(o, c, cpu.proc.value);
      EndProgress(o, c, cpu.proc.value);
    } else if cpu.pc.Check? && cpu.proc.Some? {
      RunProgress(o, c, cpu.proc.value);
    } else {
      if cpu.proc.Some? { assert ProcInv(o, cpu.proc.value); }
      SameProgress(o, t, c);
    }
  }

  lemma LoadProgress(o: Os)
    requires Wf(o) && Placed(o) && Progress(o) && Enabled(o, LoadStep) && Wf(LoadNext(o)) && |o.cpus| >= 1
    ensures Progress(LoadNext(o))
  {
    var t := LoadNext(o);
    LoadFrame(o);
    if o.load.LoadTop? && o.loaded < |o.procs| && o.bar.time >= o.procs[o.loaded].start {
      forall x | 0 <= x < |t.procs| ensures ProcInv(t, x) { assert ProcInv(o, x); }
    } else {
      SameProgress(o, t, 0);
    }
  }

  lemma ProgressStep(o: Os, e: Step)
    requires Wf(o) && Placed(o) && Progress(o) && Enabled(o, e) && Wf(Next(o, e)) && |o.cpus| >= 1
    ensures Progress(Next(o, e))
  {
    match e
    case CpuStep(c) => CpuProgress(o, c);
    case BarStep(b) => SameProgress(o, Next(o, e), 0);
    case LoadStep => LoadProgress(o);
  }

  // ----- The dispatch count

  /** max(1, ceil(size / slot)) */
  function Rounds(size: nat, slot: nat): nat
    requires slot >= 1
  {
    if size == 0 then 1 else (size + slot - 1) / slot
  }

  lemma RoundsStep(size: nat, slot: nat)
    requires slot >= 1 && size > slot
    ensures Rounds(size, slot) == Rounds(size - slot, slot) + 1
  {
    DivStep(size - 1, slot);
  }

  lemma DivStep(a: nat, d: nat)
    requires d >= 1
    ensures (a + d) / d == a / d + 1
  {
    DivModUnique(a + d, d, a / d + 1, a % d);
  }

  lemma SmallRounds(size: nat, slot: nat)
    requires 1 <= size <= slot
    ensures Rounds(size, slot) == 1
  {
  }

  lemma OneRound(size: nat, slot: nat)
    requires slot >= 1
    ensures 1 <= Rounds(size, slot)
  {
    if size > slot {
      RoundsStep(size, slot);
    } else if size > 0 {
      SmallRounds(size, slot);
    }
  }

  lemma {:induction false} AtMostRounds(d: nat, size: nat, slot: nat)
    requires slot >= 1 && d >= 1 && (d == 1 || Granted(d - 1, slot) < size)
    ensures d <= Rounds(size, slot)
  {
    if d == 1 {
      OneRound(size, slot);
    } else {
      RoundsStep(size, slot);
      AtMostRounds(d - 1, size - slot, slot);
    }
  }

  lemma {:induction false} AtLeastRounds(d: nat, size: nat, slot: nat)
    requires slot >= 1 && d >= 1 && size <= Granted(d, slot)
    ensures Rounds(size, slot) <= d
  {
    if size <= slot {
      if size > 0 { SmallRounds(size, slot); }
    } else {
      RoundsStep(size, slot);
      AtLeastRounds(d - 1, size - slot, slot);
    }
  }

  /** A finished process was dispatched exactly max(1, ceil(n / t)) times. */
  lemma FinishedDispatches(p: Proc, slot: nat)
    requires Finished(p, slot) && slot >= 1
    ensures p.disp == Rounds(p.size, slot)
  {
    AtMostRounds(p.disp, p.size, slot);
    AtLeastRounds(p.disp, p.size, slot);
  }

  // ----- What was executed, where and when

  /** Instructions of process x in the log, oldest first. */
  function InstrsOf(log: seq<Exec>, x: nat): seq<nat> {
    if log == [] then []
    else
      var e := log[|log| - 1];
      InstrsOf(log[..|log| - 1], x) + if e.pid == x then [e.instr] else []
  }

  function UpTo(n: nat): seq<nat> { seq<nat>(n, i => i) }

  ghost predicate InOrder(o: Os)
    requires Wf(o)
  {
    forall x :: 0 <= x < |o.procs| ==> InstrsOf(o.log, x) == UpTo(o.procs[x].pc)
  }

  /** No CPU executes twice in one time slot. */
  ghost predicate OnePerSlot(log: seq<Exec>) {
    forall i, j :: 0 <= i < j < |log| && log[i].cpu == log[j].cpu ==> log[i].time < log[j].time
  }

  ghost predicate Stamped(o: Os)
    requires Wf(o)
  {
    && OnePerSlot(o.log)
    && forall i :: 0 <= i < |o.log| ==> StampOk(o, o.log[i])
  }

  ghost predicate StampOk(o: Os, e: Exec)
    requires Wf(o)
  {
    && e.cpu < |o.cpus| && e.time <= o.bar.devs[e.cpu].calls
    && (o.cpus[e.cpu].pc.Top? || o.cpus[e.cpu].pc.Reget? || o.cpus[e.cpu].pc.Check? ==> e.time < o.bar.devs[e.cpu].calls)
  }

  lemma RunOrder(o: Os, c: nat, x: nat)
    requires Wf(o) && InOrder(o) && c < |o.cpus| && o.cpus[c].proc == Some(x) && Wf(RunOne(o, c, x))
    ensures InOrder(RunOne(o, c, x))
  {
    var t := RunOne(o, c, x);
    if t.log != o.log { assert t.log[..|o.log|] == o.log; }
    forall y | 0 <= y < |o.procs| ensures InstrsOf(t.log, y) == UpTo(t.procs[y].pc) {
      assert InstrsOf(o.log, y) == UpTo(o.procs[y].pc);
    }
  }

  /** The new entry is stamped with the slot its CPU is in, later than all its earlier ones. */
  lemma RunStamps(o: Os, c: nat, x: nat)
    requires Wf(o) && OnBarrier(o) && Stamped(o)
    requires c < |o.cpus| && o.cpus[c].proc == Some(x) && o.cpus[c].pc.Check? && Wf(RunOne(o, c, x))
    ensures Stamped(RunOne(o, c, x))
  {
    var t := RunOne(o, c, x);
    assert B.DeviceInv(o.bar, c) && CpuDevice(o.cpus[c].pc, o.bar.devs[c].pc);
    forall i | 0 <= i < |t.log| ensures StampOk(t, t.log[i]) {
      if i < |o.log| { assert StampOk(o, o.log[i]) && t.log[i] == o.log[i]; }
    }
    forall i, j | 0 <= i < j < |t.log| && t.log[i].cpu == t.log[j].cpu ensures t.log[i].time < t.log[j].time {
      if j == |o.log| { assert StampOk(o, o.log[i]); }
    }
  }

  lemma RunLog(o: Os, c: nat, x: nat)
    requires Wf(o) && OnBarrier(o) && InOrder(o) && Stamped(o)
    requires c < |o.cpus| && o.cpus[c].proc == Some(x) && o.cpus[c].pc.Check? && Wf(RunOne(o, c, x))
    ensures InOrder(RunOne(o, c, x)) && Stamped(RunOne(o, c, x))
  {
    RunOrder(o, c, x);
    RunStamps(o, c, x);
  }

  /** Steps that execute nothing. */
  lemma QuietLog(o: Os, e: Step)
    requires Wf(o) && OnBarrier(o) && InOrder(o) && Stamped(o) && Enabled(o, e) && Wf(Next(o, e))
    requires e.CpuStep? ==> !(o.cpus[e.c].pc.Check? && o.cpus[e.c].proc.Some?)
    ensures InOrder(Next(o, e)) && Stamped(Next(o, e))
  {
    var t := Next(o, e);
    QuietProcs(o, e);
    forall x | 0 <= x < |t.procs| ensures InstrsOf(t.log, x) == UpTo(t.procs[x].pc) {
      assert InstrsOf(o.log, x) == UpTo(o.procs[x].pc);
    }
    forall i | 0 <= i < |t.log| ensures StampOk(t, t.log[i]) {
      assert StampOk(o, o.log[i]);
      QuietCalls(o, e, o.log[i].cpu);
    }
  }

  lemma QuietProcs(o: Os, e: Step)
    requires Wf(o) && Enabled(o, e) && Wf(Next(o, e))
    requires e.CpuStep? ==> !(o.cpus[e.c].pc.Check? && o.cpus[e.c].proc.Some?)
    ensures var t := Next(o, e);
      t.log == o.log && |t.procs| == |o.procs| && forall x :: 0 <= x < |o.procs| ==> t.procs[x].pc == o.procs[x].pc
  {
    if e.CpuStep? { QuietCpu(o, e.c); }
  }

  lemma GetQuiet(o: Os, c: nat, left: nat)
    requires Wf(o) && c < |o.cpus|
    ensures var t := GetProc(o, c, left);
      t.log == o.log && forall x :: 0 <= x < |o.procs| ==> t.procs[x].pc == o.procs[x].pc
  {
  }

  lemma QuietCpu(o: Os, c: nat)
    requires Wf(o) && Enabled(o, CpuStep(c)) && !(o.cpus[c].pc.Check? && o.cpus[c].proc.Some?)
    ensures var t := CpuNext(o, c);
      t.log == o.log && |t.procs| == |o.procs| && forall x :: 0 <= x < |o.procs| ==> t.procs[x].pc == o.procs[x].pc
  {
    var cpu := o.cpus[c];
    if cpu.pc.Reget? || (cpu.pc.Top? && cpu.proc.None?) {
      GetQuiet(o, c, if cpu.pc == Reget(true) then 0 else cpu.left);
    }
  }

  /** Calls only grow, and a CPU that re-enters its loop has completed one more. */
  lemma QuietCalls(o: Os, e: Step, d: nat)
    requires Wf(o) && Enabled(o, e) && d < |o.cpus| && Wf(Next(o, e))
    ensures var t := Next(o, e); var (p, q) := (o.cpus[d].pc, t.cpus[d].pc);
      && |t.cpus| == |o.cpus|
      && o.bar.devs[d].calls <= t.bar.devs[d].calls
      && (q.Top? || q.Reget? || q.Check? ==> p.Top? || p.Reget? || p.Check? || o.bar.devs[d].calls < t.bar.devs[d].calls)
  {
    BarrierNext(o, e);
    if e.CpuStep? { CpuFrame(o, e.c); }
    if e.LoadStep? { LoadFrame(o); }
    if BarrierStep(o, e).Some? { BarrierFrame(o.bar, BarrierStep(o, e).value); }
  }

  lemma LogStep(o: Os, e: Step)
    requires Wf(o) && OnBarrier(o) && InOrder(o) && Stamped(o) && Enabled(o, e) && Wf(Next(o, e))
    ensures InOrder(Next(o, e)) && Stamped(Next(o, e))
  {
    if e.CpuStep? && o.cpus[e.c].pc.Check? && o.cpus[e.c].proc.Some? {
      RunLog(o, e.c, o.cpus[e.c].proc.value);
    } else {
      QuietLog(o, e);
    }
  }
}
