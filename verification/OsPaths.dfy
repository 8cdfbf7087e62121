/** A calculus of concrete runs of a machine with one CPU: what it looks like before and after each step,
    and the barrier's half of a time slot. */
module OsPaths {
  import opened Os
  import opened OsRuns
  import B = Barrier
  import M = Mlq

  // ----- Paths

  /** What there is to see of a machine with one CPU, but for the log. */
  datatype View = View(slot: nat, bar: B.State, cpu: Cpu, load: LoadPc, loaded: nat, sched: M.Sched,
                       procs: seq<Proc>, place: seq<Place>)

  ghost predicate Looks(o: Os, v: View) {
    && o.slot == v.slot && !o.done && o.cpus == [v.cpu] && o.bar == v.bar && o.load == v.load && o.loaded == v.loaded
    && o.sched == v.sched && o.procs == v.procs && o.place == v.place
  }

  /** Step e leads from what looks like v to what looks like v'. */
  ghost predicate Links(v: View, e: Step, v': View) {
    forall o :: Wf(o) && Looks(o, v) ==> Enabled(o, e) && Looks(Next(o, e), v')
  }

  ghost predicate Path(es: seq<Step>, vs: seq<View>) {
    |vs| == |es| + 1 && forall i :: 0 <= i < |es| ==> Links(vs[i], es[i], vs[i + 1])
  }

  /** Some steps lead from v to v'. */
  ghost predicate Leads(v: View, v': View) {
    exists es, vs :: Path(es, vs) && vs[0] == v && vs[|es|] == v'
  }

  lemma OneStep(v: View, e: Step, v': View)
    requires Links(v, e, v')
    ensures Leads(v, v')
  {
    assert Path([e], [v, v']);
  }

  lemma Then(v: View, v1: View, v2: View)
    requires Leads(v, v1) && Leads(v1, v2)
    ensures Leads(v, v2)
  {
    var es, vs :| Path(es, vs) && vs[0] == v && vs[|es|] == v1;
    var fs, ws :| Path(fs, ws) && ws[0] == v1 && ws[|fs|] == v2;
    Join(es, vs, fs, ws);
    assert (vs + ws[1..])[0] == v && (vs + ws[1..])[|es + fs|] == v2;
  }

  lemma Join(es: seq<Step>, vs: seq<View>, fs: seq<Step>, ws: seq<View>)
    requires Path(es, vs) && Path(fs, ws) && vs[|es|] == ws[0]
    ensures Path(es + fs, vs + ws[1..])
  {
    var gs, us := es + fs, vs + ws[1..];
    forall i | 0 <= i < |gs| ensures Links(us[i], gs[i], us[i + 1]) {
      JoinAt(es, vs, fs, ws, i);
    }
  }

  lemma JoinAt(es: seq<Step>, vs: seq<View>, fs: seq<Step>, ws: seq<View>, i: nat)
    requires |vs| == |es| + 1 && |ws| == |fs| + 1 && vs[|es|] == ws[0] && i < |es| + |fs|
    ensures var gs, us := es + fs, vs + ws[1..];
      if i < |es| then us[i] == vs[i] && gs[i] == es[i] && us[i + 1] == vs[i + 1]
      else us[i] == ws[i - |es|] && gs[i] == fs[i - |es|] && us[i + 1] == ws[i - |es| + 1]
  {
  }

  lemma StepThen(v: View, e: Step, v1: View, v2: View)
    requires Links(v, e, v1) && Leads(v1, v2)
    ensures Leads(v, v2)
  {
    OneStep(v, e, v1);
    Then(v, v1, v2);
  }

  /** The machine walks every path that starts at what it looks like. */
  lemma {:induction false} Walk(o: Os, es: seq<Step>, vs: seq<View>)
    requires Inv(o) && Path(es, vs) && Looks(o, vs[0])
    ensures Legal(o, es) && Looks(Run(o, es), vs[|es|])
    decreases |es|
  {
    if es == [] {
    } else {
      assert Links(vs[0], es[0], vs[1]);
      StepInv(o, es[0]);
      PathTail(es, vs);
      Walk(Next(o, es[0]), es[1..], vs[1..]);
    }
  }

  lemma PathTail(es: seq<Step>, vs: seq<View>)
    requires Path(es, vs) && es != []
    ensures Path(es[1..], vs[1..])
  {
    forall i | 0 <= i < |es| - 1 ensures Links(vs[1..][i], es[1..][i], vs[1..][i + 1]) {
      assert Links(vs[i + 1], es[i + 1], vs[i + 2]);
    }
  }

  // ----- The barrier half of a slot

  /** Both devices at time k, between two barriers or inside one. */
  function Dev(done: bool, pc: B.Pc, calls: nat): B.Device { B.Device(done, false, pc, calls) }

  function Bar(cpu: B.Device, load: B.Device, k: nat, timer: B.Timer): B.State {
    B.State([cpu, load], k, timer, 0, false)
  }

  function Running(k: nat): B.State { Bar(Dev(false, B.Working, k), Dev(false, B.Working, k), k, B.Top) }
  function OneIn(k: nat): B.State { Bar(Dev(false, B.Working, k), Dev(true, B.Waiting, k), k, B.Top) }
  function BothIn(k: nat): B.State { Bar(Dev(true, B.Waiting, k), Dev(true, B.Waiting, k), k, B.Top) }
  function LoaderLast(k: nat): B.State { Bar(Dev(false, B.Working, k + 1), Dev(false, B.Waiting, k), k + 1, B.Top) }
  function BothOut(k: nat): B.State { Bar(Dev(false, B.Waiting, k), Dev(false, B.Waiting, k), k + 1, B.Top) }

  lemma TickLink(v: View, bar: B.State)
    requires B.Enabled(v.bar, B.Tick) && bar == B.Next(v.bar, B.Tick)
    ensures Links(v, BarStep(B.Tick), v.(bar := bar))
  {
  }

  /** One timer step and what follows it. */
  lemma TickThen(v: View, bar: B.State, v2: View)
    requires B.Enabled(v.bar, B.Tick) && bar == B.Next(v.bar, B.Tick) && Leads(v.(bar := bar), v2)
    ensures Leads(v, v2)
  {
    TickLink(v, bar);
    StepThen(v, BarStep(B.Tick), v.(bar := bar), v2);
  }

  /** The timer lets go of both devices. */
  lemma Releases(v: View, k: nat, v2: View)
    requires v.bar == Bar(Dev(true, B.Waiting, k), Dev(true, B.Waiting, k), k + 1, B.Release(0))
    requires Leads(v.(bar := BothOut(k)), v2)
    ensures Leads(v, v2)
  {
    var d, e := Dev(true, B.Waiting, k), Dev(false, B.Waiting, k);
    var b5, b6 := Bar(e, d, k + 1, B.Release(1)), Bar(e, e, k + 1, B.Release(2));
    TickThen(v.(bar := b6), BothOut(k), v2);
    TickThen(v.(bar := b5), b6, v2);
    TickThen(v, b5, v2);
  }

  /** Seven timer steps, with both devices in. */
  lemma Ticks(v: View, k: nat, v2: View)
    requires v.bar == BothIn(k) && Leads(v.(bar := BothOut(k)), v2)
    ensures Leads(v, v2)
  {
    var d := Dev(true, B.Waiting, k);
    var b1, b2, b3 := Bar(d, d, k, B.Collect(0)), Bar(d, d, k, B.Collect(1)), Bar(d, d, k, B.Collect(2));
    var b4 := Bar(d, d, k + 1, B.Release(0));
    Releases(v.(bar := b4), k, v2);
    TickThen(v.(bar := b3), b4, v2);
    TickThen(v.(bar := b2), b3, v2);
    TickThen(v.(bar := b1), b2, v2);
    TickThen(v, b1, v2);
  }

  /** Both devices return from next_slot. */
  lemma Leave(v: View, k: nat)
    requires v.bar == BothOut(k) && v.cpu.pc.InSlot? && v.load.LoadInSlot?
    ensures Leads(v, v.(bar := Running(k + 1), cpu := v.cpu.(pc := Top), load := LoadTop))
  {
    var v1 := v.(bar := LoaderLast(k), cpu := v.cpu.(pc := Top));
    var v2 := v1.(bar := Running(k + 1), load := LoadTop);
    CpuOut(v, k, v1);
    LoaderOut(v1, k, v2);
    OneStep(v1, LoadStep, v2);
    StepThen(v, CpuStep(0), v1, v2);
  }

  lemma CpuOut(v: View, k: nat, v1: View)
    requires v.bar == BothOut(k) && v.cpu.pc.InSlot?
    requires v1 == v.(bar := LoaderLast(k), cpu := v.cpu.(pc := Top))
    ensures Links(v, CpuStep(0), v1)
  {
  }

  lemma LoaderOut(v: View, k: nat, v1: View)
    requires v.bar == LoaderLast(k) && v.load.LoadInSlot?
    requires v1 == v.(bar := Running(k + 1), load := LoadTop)
    ensures Links(v, LoadStep, v1)
  {
  }

  /** The loader enters the barrier. */
  lemma LoaderIn(v: View, k: nat)
    requires v.bar == Running(k) && v.load.LoadArriving?
    ensures Links(v, LoadStep, v.(bar := OneIn(k), load := LoadInSlot))
  {
  }

  lemma CpuIn(v: View, k: nat)
    requires v.bar == OneIn(k) && v.cpu.pc.Arriving?
    ensures Links(v, CpuStep(0), v.(bar := BothIn(k), cpu := v.cpu.(pc := InSlot)))
  {
  }

  lemma BeginDevices()
    ensures B.Start(2) == Running(0)
  {
    assert B.Start(2).devs == [Dev(false, B.Working, 0), Dev(false, B.Working, 0)];
  }
}
