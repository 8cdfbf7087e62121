/** How long a run can last: the loader's slots and the CPUs' work bound the barrier's time. */
module OsTime {
  import opened Common
  import opened Os
  import opened OsPlaces
  import opened OsStop
  import opened OsExec
  import B = Barrier

  function Sum(s: seq<nat>): nat { if s == [] then 0 else Sum(s[..|s| - 1]) + s[|s| - 1] }

  /** Slots that process x has used on a CPU: one per instruction, and one for an empty process. */
  function Spent(o: Os, x: nat): nat
    requires x < |o.procs| && |o.place| == |o.procs|
  {
    var p := o.procs[x];
    if p.size > 0 then p.pc
    else if p.disp == 0 || (o.place[x].OnCpu? && o.place[x].c < |o.cpus| && Fresh(o.cpus[o.place[x].c])) then 0
    else 1
  }

  ghost function SpentByAll(o: Os): (r: seq<nat>)
    requires |o.place| == |o.procs|
    ensures |r| == |o.procs| && forall x :: 0 <= x < |r| ==> r[x] == Spent(o, x)
  {
    seq(|o.procs|, x requires 0 <= x < |o.procs| => Spent(o, x))
  }

  ghost function Work(o: Os): nat
    requires |o.place| == |o.procs|
  {
    Sum(SpentByAll(o))
  }

  /** Slots the process needs in all. */
  function Units(p: Proc): nat { if p.size == 0 then 1 else p.size }

  function UnitsOf(procs: seq<Proc>): (r: seq<nat>)
    ensures |r| == |procs| && forall x :: 0 <= x < |r| ==> r[x] == Units(procs[x])
  {
    seq(|procs|, x requires 0 <= x < |procs| => Units(procs[x]))
  }

  function Demand(procs: seq<Proc>): nat { Sum(UnitsOf(procs)) }

  lemma {:induction false} SumMono(a: seq<nat>, b: seq<nat>)
    requires |a| == |b| && forall i :: 0 <= i < |a| ==> a[i] <= b[i]
    ensures Sum(a) <= Sum(b)
  {
    if a == [] {
    } else {
      SumMono(a[..|a| - 1], b[..|b| - 1]);
    }
  }

  lemma {:induction false} SumStrict(a: seq<nat>, b: seq<nat>, x: nat)
    requires |a| == |b| && x < |a| && a[x] < b[x] && forall i :: 0 <= i < |a| ==> a[i] <= b[i]
    ensures Sum(a) < Sum(b)
  {
    var n := |a| - 1;
    if x == n {
      SumMono(a[..n], b[..n]);
    } else {
      SumStrict(a[..n], b[..n], x);
    }
  }

  // ----- The invariant

  predicate Arrived(pc: CpuPc) { pc.Arriving? || pc.InSlot? }

  /** The loader's slot is spent waiting for a start that is still ahead, or on an add. */
  ghost predicate LoadTimed(o: Os, latest: nat)
    requires Wf(o)
  {
    && (forall x :: 0 <= x < |o.procs| ==> o.procs[x].start <= latest)
    && o.bar.devs[|o.cpus|].calls + (if o.load.LoadArriving? || o.load.LoadInSlot? then 1 else 0) <= latest + o.loaded
  }

  /** Once the done flag is up a CPU passes a barrier only after a slot of work. */
  ghost predicate CpuTimed(o: Os, latest: nat, c: nat)
    requires Wf(o) && c < |o.cpus|
  {
    o.done && !o.cpus[c].pc.Stopped? ==>
      o.bar.devs[c].calls + (if Arrived(o.cpus[c].pc) then 1 else 0) <= latest + |o.procs| + 1 + Work(o)
  }

  ghost predicate Timed(o: Os, latest: nat)
    requires Wf(o)
  {
    LoadTimed(o, latest) && forall c :: 0 <= c < |o.cpus| ==> CpuTimed(o, latest, c)
  }

  // ----- Work never shrinks

  lemma SpentBound(o: Os, x: nat)
    requires Wf(o) && Progress(o) && x < |o.procs|
    ensures Spent(o, x) <= Units(o.procs[x])
  {
    assert ProcInv(o, x);
  }

  lemma WorkBound(o: Os)
    requires Wf(o) && Progress(o)
    ensures Work(o) <= Demand(o.procs)
  {
    forall x | 0 <= x < |o.procs| ensures Spent(o, x) <= Units(o.procs[x]) { SpentBound(o, x); }
    SumMono(SpentByAll(o), UnitsOf(o.procs));
  }

  lemma WorkMono(o: Os, t: Os)
    requires |o.place| == |o.procs| == |t.procs| == |t.place|
    requires forall x :: 0 <= x < |o.procs| ==> Spent(o, x) <= Spent(t, x)
    ensures Work(o) <= Work(t)
  {
    SumMono(SpentByAll(o), SpentByAll(t));
  }

  lemma WorkMore(o: Os, t: Os, x: nat)
    requires |o.place| == |o.procs| == |t.procs| == |t.place| && x < |o.procs|
    requires forall y :: 0 <= y < |o.procs| ==> Spent(o, y) <= Spent(t, y)
    requires Spent(o, x) < Spent(t, x)
    ensures Work(o) < Work(t)
  {
    SumStrict(SpentByAll(o), SpentByAll(t), x);
  }

  lemma GetSpent(o: Os, c: nat, left: nat, y: nat)
    requires Wf(o) && Placed(o) && Progress(o) && c < |o.cpus| && o.cpus[c].proc.None? && y < |o.procs|
    ensures Spent(o, y) <= Spent(GetProc(o, c, left), y)
  {
    GetProcShape(o, c, left);
    assert ProcInv(o, y);
  }

  lemma HeldSpent(o: Os, c: nat, x: nat, y: nat)
    requires Wf(o) && Placed(o) && Progress(o) && c < |o.cpus| && o.cpus[c].proc == Some(x) && y < |o.procs|
    ensures o.cpus[c].pc.Top? && o.procs[x].pc == o.procs[x].size ==> Spent(o, y) <= Spent(Finish(o, c, x), y)
    ensures o.cpus[c].pc.Top? && o.procs[x].pc != o.procs[x].size ==> Spent(o, y) <= Spent(Yield(o, c, x), y)
  {
    assert o.place[x] == OnCpu(c) && ProcInv(o, x) && ProcInv(o, y);
  }

  lemma RunSpent(o: Os, c: nat, x: nat, y: nat)
    requires Wf(o) && Placed(o) && Progress(o) && c < |o.cpus| && o.cpus[c].proc == Some(x) && o.cpus[c].pc.Check?
    requires y < |o.procs|
    ensures Spent(o, y) + (if y == x then 1 else 0) <= Spent(RunOne(o, c, x), y)
  {
    assert o.place[x] == OnCpu(c) && ProcInv(o, x) && ProcInv(o, y);
  }

  lemma CpuSpent(o: Os, c: nat, y: nat)
    requires Wf(o) && Placed(o) && Progress(o) && Enabled(o, CpuStep(c)) && y < |o.procs|
    ensures |CpuNext(o, c).procs| == |o.procs| == |CpuNext(o, c).place|
    ensures Spent(o, y) <= Spent(CpuNext(o, c), y)
  {
    var cpu := o.cpus[c];
    CpuFrame(o, c);
    assert ProcInv(o, y);
    if cpu.pc.Reget? || (cpu.pc.Top? && cpu.proc.None?) {
      GetSpent(o, c, if cpu.pc == Reget(true) then 0 else cpu.left, y);
    } else if cpu.pc.Top? {
      HeldSpent(o, c, cpu.proc.value, y);
    } else if cpu.pc.Check? && cpu.proc.Some? {
      RunSpent(o, c, cpu.proc.value, y);
    }
  }

  // ----- Every step keeps the bounds

  lemma CpuWork(o: Os, c: nat)
    requires Wf(o) && Placed(o) && Progress(o) && Enabled(o, CpuStep(c))
    ensures var t := CpuNext(o, c);
      && |t.procs| == |o.procs| == |t.place| && Work(o) <= Work(t)
      && (o.cpus[c].pc.Check? && o.cpus[c].proc.Some? ==> Work(o) < Work(t))
  {
    var t := CpuNext(o, c);
    CpuFrame(o, c);
    forall y | 0 <= y < |o.procs| ensures Spent(o, y) <= Spent(t, y) { CpuSpent(o, c, y); }
    WorkMono(o, t);
    if o.cpus[c].pc.Check? && o.cpus[c].proc.Some? {
      var x := o.cpus[c].proc.value;
      RunSpent(o, c, x, x);
      WorkMore(o, t, x);
    }
  }

  lemma LoadWork(o: Os)
    requires Wf(o) && Placed(o) && Progress(o) && Enabled(o, LoadStep)
    ensures var t := LoadNext(o); |t.procs| == |o.procs| == |t.place| && Work(o) <= Work(t)
  {
    var t := LoadNext(o);
    LoadFrame(o);
    forall y | 0 <= y < |o.procs| ensures Spent(o, y) <= Spent(t, y) {
      assert ProcInv(o, y);
    }
    WorkMono(o, t);
  }

  /** The calls of the acting CPU, before and after. */
  lemma CpuOwnCalls(o: Os, c: nat)
    requires Wf(o) && OnBarrier(o) && Enabled(o, CpuStep(c))
    ensures var t := CpuNext(o, c);
      && |t.bar.devs| == |o.bar.devs| && |t.cpus| == |o.cpus|
      && (if o.cpus[c].pc.InSlot? && t.cpus[c].pc.Top? then t.bar.devs[c].calls == o.bar.devs[c].calls + 1
          else t.bar.devs[c].calls == o.bar.devs[c].calls)
      && (o.cpus[c].pc.InSlot? ==> t.cpus[c].pc.Top? || t.cpus[c].pc.InSlot?)
  {
    CpuFrame(o, c);
    BarrierNext(o, CpuStep(c));
  }

  /** A CPU heads for the barrier after running something, or with the done flag still down. */
  lemma Heads(o: Os, c: nat)
    requires Wf(o) && Enabled(o, CpuStep(c))
    ensures Arrived(CpuNext(o, c).cpus[c].pc) && !Arrived(o.cpus[c].pc) ==>
      o.cpus[c].pc.Check? && (o.cpus[c].proc.Some? || !o.done)
    ensures !Arrived(o.cpus[c].pc) && o.cpus[c].pc.Leaving? ==> CpuNext(o, c).cpus[c].pc.Stopped?
  {
    var cpu := o.cpus[c];
    if cpu.pc.Reget? || (cpu.pc.Top? && cpu.proc.None?) {
      GetsToCheck(o, c, if cpu.pc == Reget(true) then 0 else cpu.left);
    }
  }

  lemma GetsToCheck(o: Os, c: nat, left: nat)
    requires Wf(o) && c < |o.cpus|
    ensures c < |GetProc(o, c, left).cpus| && GetProc(o, c, left).cpus[c].pc.Check?
  {
  }

  lemma CpuStepTimed(o: Os, c: nat, latest: nat)
    requires Wf(o) && OnBarrier(o) && Placed(o) && Progress(o) && Timed(o, latest)
    requires Enabled(o, CpuStep(c)) && Wf(CpuNext(o, c))
    ensures forall d :: 0 <= d < |o.cpus| ==> CpuTimed(CpuNext(o, c), latest, d)
  {
    var t := CpuNext(o, c);
    CpuFrame(o, c);
    CpuWork(o, c);
    CpuOwnCalls(o, c);
    Heads(o, c);
    forall d | 0 <= d < |o.cpus| ensures CpuTimed(t, latest, d) {
      assert CpuTimed(o, latest, d);
      if d != c { CpuCalls(o, c, d); }
    }
  }

  lemma CpuStepLoad(o: Os, c: nat, latest: nat)
    requires Wf(o) && LoadTimed(o, latest) && Enabled(o, CpuStep(c)) && Wf(CpuNext(o, c))
    ensures LoadTimed(CpuNext(o, c), latest)
  {
    CpuFrame(o, c);
    CpuCalls(o, c, |o.cpus|);
    CpuStarts(o, c);
  }

  lemma CpuStarts(o: Os, c: nat)
    requires Wf(o) && Enabled(o, CpuStep(c))
    ensures SameStarts(o, CpuNext(o, c))
  {
    var cpu := o.cpus[c];
    if cpu.pc.Reget? || (cpu.pc.Top? && cpu.proc.None?) {
      GetStarts(o, c, if cpu.pc == Reget(true) then 0 else cpu.left);
    }
  }

  ghost predicate SameStarts(o: Os, t: Os) {
    |t.procs| == |o.procs| && forall x :: 0 <= x < |o.procs| ==> t.procs[x].start == o.procs[x].start
  }

  lemma GetStarts(o: Os, c: nat, left: nat)
    requires Wf(o) && c < |o.cpus|
    ensures SameStarts(o, GetProc(o, c, left))
  {
  }

  /** When the flag goes up no CPU is ahead of the loader, whose slots are counted. */
  lemma LoadStepTimed(o: Os, latest: nat)
    requires Wf(o) && OnBarrier(o) && Placed(o) && Progress(o) && Timed(o, latest)
    requires Enabled(o, LoadStep) && Wf(LoadNext(o))
    ensures forall d :: 0 <= d < |o.cpus| ==> CpuTimed(LoadNext(o), latest, d)
  {
    var t := LoadNext(o);
    LoadFrame(o);
    LoadWork(o);
    assert B.DeviceInv(o.bar, |o.cpus|);
    forall d | 0 <= d < |o.cpus| ensures CpuTimed(t, latest, d) {
      assert CpuTimed(o, latest, d);
      assert B.DeviceInv(o.bar, d);
      LoadCalls(o, d);
    }
  }

  lemma LoadStepLoad(o: Os, latest: nat)
    requires Wf(o) && OnBarrier(o) && LoadTimed(o, latest) && Enabled(o, LoadStep) && Wf(LoadNext(o))
    ensures LoadTimed(LoadNext(o), latest)
  {
    LoadFrame(o);
    BarrierNext(o, LoadStep);
    assert B.DeviceInv(o.bar, |o.cpus|);
  }

  lemma BarStepTimed(o: Os, b: B.Step, latest: nat)
    requires Wf(o) && Timed(o, latest) && Enabled(o, BarStep(b)) && Wf(Next(o, BarStep(b)))
    ensures Timed(Next(o, BarStep(b)), latest)
  {
    var t := Next(o, BarStep(b));
    BarrierFrame(o.bar, b);
    assert SpentByAll(t) == SpentByAll(o);
    forall d | 0 <= d < |o.cpus| ensures CpuTimed(t, latest, d) {
      assert CpuTimed(o, latest, d);
    }
  }

  lemma TimedStep(o: Os, e: Step, latest: nat)
    requires Wf(o) && OnBarrier(o) && Placed(o) && Progress(o) && Timed(o, latest) && Enabled(o, e) && Wf(Next(o, e))
    ensures Timed(Next(o, e), latest)
  {
    match e
    case CpuStep(c) =>
      CpuFrame(o, c);
      CpuStepTimed(o, c, latest);
      CpuStepLoad(o, c, latest);
    case LoadStep =>
      LoadFrame(o);
      LoadStepTimed(o, latest);
      LoadStepLoad(o, latest);
    case BarStep(b) => BarStepTimed(o, b, latest);
  }

  /** The latest start, one slot per process to load it, one per instruction of the workload (and per
      empty process), and two more. */
  function LastTime(procs: seq<Proc>, latest: nat): nat { latest + |procs| + Demand(procs) + 2 }

  /** While a thread has not detached, the time is short of LastTime: the loader is still loading, or a
      CPU that has not stopped is at most one slot behind. */
  lemma LiveBound(o: Os, latest: nat, d: nat)
    requires Wf(o) && OnBarrier(o) && Ending(o) && Progress(o) && Timed(o, latest)
    requires d <= |o.cpus| && !o.bar.devs[d].pc.Detached?
    ensures o.bar.time < LastTime(o.procs, latest)
  {
    WorkBound(o);
    assert B.DeviceInv(o.bar, d) && B.DeviceInv(o.bar, |o.cpus|);
    if d < |o.cpus| {
      assert CpuTimed(o, latest, d) && CpuDevice(o.cpus[d].pc, o.bar.devs[d].pc);
    }
  }

  /** LastTime is reached, if at all, by the tick of the timer's last round. */
  ghost predicate TimeOk(o: Os, latest: nat) {
    || o.bar.time < LastTime(o.procs, latest)
    || (o.bar.time == LastTime(o.procs, latest) && B.FinalRound(o.bar))
  }

  lemma SameDemand(a: seq<Proc>, b: seq<Proc>)
    requires |a| == |b| && forall x :: 0 <= x < |a| ==> a[x].size == b[x].size
    ensures Demand(a) == Demand(b)
  {
    assert UnitsOf(a) == UnitsOf(b);
  }

  lemma TimeOkStep(o: Os, e: Step, latest: nat)
    requires Wf(o) && OnBarrier(o) && Enabled(o, e) && TimeOk(o, latest)
    requires var t := Next(o, e); Wf(t) && OnBarrier(t) && Ending(t) && Progress(t) && Timed(t, latest)
    requires LastTime(Next(o, e).procs, latest) == LastTime(o.procs, latest)
    ensures TimeOk(Next(o, e), latest)
  {
    var t := Next(o, e);
    BarrierNext(o, e);
    if BarrierStep(o, e).Some? {
      var b := BarrierStep(o, e).value;
      B.TimeStands(o.bar, b);
      if B.FinalRound(o.bar) { B.FinalStep(o.bar, b); }
      if d: nat :| d < |t.bar.devs| && !t.bar.devs[d].pc.Detached? {
        LiveBound(t, latest, d);
      } else if t.bar.time > o.bar.time {
        B.LastTick(o.bar, b);
      }
    }
  }
}
