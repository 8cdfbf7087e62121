/** No CPU stops while a process may still need it. */
module OsStop {
  import opened Os
  import opened OsPlaces
  import B = Barrier
  import M = Mlq

  /** The done flag is raised only after the last process was added, and CPUs leave only after it. */
  ghost predicate Ending(o: Os)
    requires Wf(o)
  {
    && |o.cpus| >= 1
    && (o.done <==> o.load.LoadLeaving? || o.load.LoadStopped?)
    && (o.done ==> o.loaded == |o.procs|)
    && (forall c :: 0 <= c < |o.cpus| && (o.cpus[c].pc.Leaving? || o.cpus[c].pc.Stopped?) ==> o.done)
  }

  ghost predicate AnyReady(s: M.Sched) {
    exists q :: 0 <= q < |s.queues| && s.queues[q] != []
  }

  /** The CPU holds a process or will ask for one again. */
  ghost predicate WillAsk(cpu: Cpu) {
    cpu.pc.Top? || cpu.pc.Reget? || cpu.pc.Arriving? || cpu.pc.InSlot? || (cpu.pc.Check? && cpu.proc.Some?)
  }

  /** The CPU was told NULL and is about to read `done`, but the loader, waiting in next_slot since
      its last add, cannot raise the flag before this CPU reaches the barrier too. */
  ghost predicate InTime(o: Os, c: nat)
    requires Wf(o) && c < |o.cpus|
  {
    && o.cpus[c].pc.Check? && o.cpus[c].proc.None?
    && (o.load.LoadArriving? || o.load.LoadInSlot?)
    && o.bar.devs[c].calls <= o.bar.devs[|o.cpus|].calls
  }

  ghost predicate Attended(o: Os, c: nat)
    requires Wf(o) && c < |o.cpus|
  {
    WillAsk(o.cpus[c]) || InTime(o, c)
  }

  /** A ready process always has a CPU that will come back for it. */
  ghost predicate NoneForgotten(o: Os)
    requires Wf(o)
  {
    AnyReady(o.sched) ==> exists c :: 0 <= c < |o.cpus| && Attended(o, c)
  }

  ghost predicate StopInv(o: Os)
    requires Wf(o)
  {
    OnBarrier(o) && CpusPlaced(o) && Ending(o) && NoneForgotten(o)
  }

  /** The calls counters that a CPU step of c leaves alone. */
  lemma CpuCalls(o: Os, c: nat, d: nat)
    requires Wf(o) && Enabled(o, CpuStep(c)) && d <= |o.cpus| && d != c
    ensures CpuNext(o, c).bar.devs[d].calls == o.bar.devs[d].calls
  {
    BarrierNext(o, CpuStep(c));
    if BarrierStep(o, CpuStep(c)).Some? { BarrierFrame(o.bar, BarrierStep(o, CpuStep(c)).value); }
  }

  /** After its step a CPU will ask again, or has just been told that every queue is empty, or has
      read the raised flag. */
  lemma CpuOutcome(o: Os, c: nat)
    requires Wf(o) && Enabled(o, CpuStep(c)) && CpusPlaced(o)
    ensures var t, cpu := CpuNext(o, c), o.cpus[c];
      || WillAsk(t.cpus[c])
      || (!AnyReady(t.sched) && t.cpus[c].pc.Check?)
      || (t.sched == o.sched && t.cpus[c].proc.None? && !WillAsk(cpu)
          && (if cpu.pc.Check? then o.done && t.cpus[c].pc.Leaving? else cpu.pc.Leaving? && t.cpus[c].pc.Stopped?))
  {
    var cpu := o.cpus[c];
    if cpu.pc.Reget? || (cpu.pc.Top? && cpu.proc.None?) {
      GetOutcome(o, c, if cpu.pc == Reget(true) then 0 else cpu.left);
    }
  }

  lemma GetOutcome(o: Os, c: nat, left: nat)
    requires Wf(o) && c < |o.cpus|
    ensures var t := GetProc(o, c, left);
      t.cpus[c].pc.Check? && (t.cpus[c].proc.Some? || !AnyReady(t.sched))
  {
    M.GetShape(o.sched);
  }

  lemma CpuEnding(o: Os, c: nat)
    requires Wf(o) && Enabled(o, CpuStep(c)) && CpusPlaced(o) && Ending(o) && Wf(CpuNext(o, c))
    ensures Ending(CpuNext(o, c))
  {
    CpuFrame(o, c);
    LeavesDone(o, c);
  }

  /** A CPU leaves its loop only when it reads the raised flag. */
  lemma LeavesDone(o: Os, c: nat)
    requires Wf(o) && Enabled(o, CpuStep(c)) && |CpuNext(o, c).cpus| == |o.cpus|
    ensures var pc := CpuNext(o, c).cpus[c].pc; pc.Leaving? || pc.Stopped? ==> o.done || o.cpus[c].pc.Leaving?
  {
    var cpu := o.cpus[c];
    if cpu.pc.Reget? || (cpu.pc.Top? && cpu.proc.None?) {
      GetFrame(o, c, if cpu.pc == Reget(true) then 0 else cpu.left);
    }
  }

  lemma CpuNoneForgotten(o: Os, c: nat)
    requires Wf(o) && StopInv(o) && Enabled(o, CpuStep(c)) && Wf(CpuNext(o, c))
    ensures NoneForgotten(CpuNext(o, c))
  {
    var t := CpuNext(o, c);
    CpuFrame(o, c);
    CpuOutcome(o, c);
    if WillAsk(t.cpus[c]) {
      assert Attended(t, c);
    } else if AnyReady(t.sched) {
      var d :| 0 <= d < |o.cpus| && Attended(o, d);
      assert d != c;
      CpuCalls(o, c, d);
      CpuCalls(o, c, |o.cpus|);
      assert Attended(t, d);
    }
  }

  /** When the loader returns from next_slot, a CPU in the middle of its slot is in a later slot than
      the one the loader last added a process in. */
  lemma LoaderReturns(o: Os, c: nat)
    requires Wf(o) && OnBarrier(o) && Enabled(o, LoadStep) && o.load.LoadInSlot? && LoadNext(o).load.LoadTop?
    requires c < |o.cpus| && o.cpus[c].pc.Check?
    ensures !InTime(o, c)
  {
    assert B.DeviceInv(o.bar, c);
    assert B.DeviceInv(o.bar, |o.cpus|);
    assert CpuDevice(o.cpus[c].pc, o.bar.devs[c].pc);
  }

  /** At an add, every CPU is still in the loader's slot or short of the next barrier. */
  lemma AddAttended(o: Os)
    requires Wf(o) && StopInv(o) && o.load.LoadTop? && o.loaded < |o.procs| && Wf(Add(o))
    ensures NoneForgotten(Add(o))
  {
    var t := Add(o);
    assert B.DeviceInv(o.bar, 0);
    assert B.DeviceInv(o.bar, |o.cpus|);
    assert CpuDevice(o.cpus[0].pc, o.bar.devs[0].pc);
    assert Attended(t, 0);
  }

  lemma LoadNoneForgotten(o: Os)
    requires Wf(o) && StopInv(o) && Enabled(o, LoadStep) && Wf(LoadNext(o))
    ensures NoneForgotten(LoadNext(o)) && Ending(LoadNext(o))
  {
    var t := LoadNext(o);
    LoadFrame(o);
    if o.load.LoadTop? && o.loaded < |o.procs| && o.bar.time >= o.procs[o.loaded].start {
      AddAttended(o);
    } else if AnyReady(t.sched) {
      var c :| 0 <= c < |o.cpus| && Attended(o, c);
      if o.load.LoadInSlot? && t.load.LoadTop? && o.cpus[c].pc.Check? { LoaderReturns(o, c); }
      LoadCalls(o, c);
      assert Attended(t, c);
    }
  }

  lemma LoadCalls(o: Os, c: nat)
    requires Wf(o) && Enabled(o, LoadStep) && c < |o.cpus|
    ensures LoadNext(o).bar.devs[c].calls == o.bar.devs[c].calls
    ensures LoadNext(o).bar.devs[|o.cpus|].calls >= o.bar.devs[|o.cpus|].calls
  {
    BarrierNext(o, LoadStep);
    if BarrierStep(o, LoadStep).Some? { BarrierFrame(o.bar, BarrierStep(o, LoadStep).value); }
  }

  lemma StopStep(o: Os, e: Step)
    requires Wf(o) && StopInv(o) && Enabled(o, e) && Wf(Next(o, e))
    ensures NoneForgotten(Next(o, e)) && Ending(Next(o, e))
  {
    match e
    case CpuStep(c) =>
      CpuNoneForgotten(o, c);
      CpuEnding(o, c);
    case LoadStep => LoadNoneForgotten(o);
    case BarStep(b) =>
      BarrierFrame(o.bar, b);
      if AnyReady(o.sched) {
        var c :| 0 <= c < |o.cpus| && Attended(o, c);
        assert Attended(Next(o, e), c);
      }
  }
}
