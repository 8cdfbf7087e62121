/** Termination: without spurious wakeups every run ends within a fixed number of steps, with all threads
    ended and every process finished. */
module OsEnds {
  import opened Os
  import opened OsLoss
  import opened OsTime
  import opened OsRuns
  import B = Barrier

  // ----- Steps left until the next tick

  function DeviceLeft(dev: B.Device): nat { if !dev.done then 8 else if dev.pc.Waiting? then 2 else 1 }

  function CpuLeft(pc: CpuPc, dev: B.Device): nat {
    match pc
    case Top => 7
    case Reget(_) => 6
    case Check => 5
    case Arriving => 4
    case Leaving => 4
    case InSlot => DeviceLeft(dev)
    case Stopped => 0
  }

  function LoadLeft(pc: LoadPc, dev: B.Device): nat {
    match pc
    case LoadTop => 7
    case LoadArriving => 4
    case LoadLeaving => 4
    case LoadInSlot => DeviceLeft(dev)
    case LoadStopped => 0
  }

  function TimerLeft(t: B.Timer, n: nat): nat {
    match t
    case Top => 2 * n + 3
    case Collect(i) => if i <= n then 2 * (n - i) + 2 else 0
    case Blocked(i) => if i <= n then 2 * (n - i) + 1 else 0
    case Release(i) => if i <= n then 8 * (n - i) + 2 * n + 4 else 0
    case Exited => 0
  }

  ghost function CpusLeft(o: Os): (r: seq<nat>)
    requires |o.bar.devs| == |o.cpus| + 1
    ensures |r| == |o.cpus| && forall c :: 0 <= c < |r| ==> r[c] == CpuLeft(o.cpus[c].pc, o.bar.devs[c])
  {
    seq(|o.cpus|, c requires 0 <= c < |o.cpus| => CpuLeft(o.cpus[c].pc, o.bar.devs[c]))
  }

  ghost function SlotLeft(o: Os): nat
    requires |o.bar.devs| == |o.cpus| + 1
  {
    Sum(CpusLeft(o)) + LoadLeft(o.load, o.bar.devs[|o.cpus|]) + TimerLeft(o.bar.timer, |o.bar.devs|)
  }

  /** No slot takes more steps than this. */
  function SlotSteps(cpus: nat): nat { 8 * cpus + 8 + 10 * (cpus + 1) + 4 }

  lemma {:induction false} SumBelow(s: seq<nat>, b: nat)
    requires forall i :: 0 <= i < |s| ==> s[i] <= b
    ensures Sum(s) <= b * |s|
  {
    if s == [] {
    } else {
      SumBelow(s[..|s| - 1], b);
      assert b * |s| == b * (|s| - 1) + b;
    }
  }

  lemma {:induction false} SumUpdate(s: seq<nat>, x: nat, v: nat)
    requires x < |s|
    ensures Sum(s[x := v]) + s[x] == Sum(s) + v
  {
    var n := |s| - 1;
    if x == n {
      assert s[x := v][..n] == s[..n];
    } else {
      SumUpdate(s[..n], x, v);
      assert s[x := v][..n] == s[..n][x := v];
    }
  }

  lemma SlotBound(o: Os)
    requires |o.bar.devs| == |o.cpus| + 1
    ensures SlotLeft(o) <= SlotSteps(|o.cpus|)
  {
    SumBelow(CpusLeft(o), 8);
  }

  // ----- Every step but the tick uses one up

  /** What a CPU's step does to the timer and to its own device. */
  lemma CpuUses(o: Os, c: nat)
    requires Inv(o) && Enabled(o, CpuStep(c)) && Inv(CpuNext(o, c))
    ensures var t, n := CpuNext(o, c), |o.bar.devs|;
      && |t.bar.devs| == n && |t.cpus| == |o.cpus| && t.load == o.load && t.bar.time == o.bar.time
      && t.bar.devs[|o.cpus|] == o.bar.devs[|o.cpus|]
      && (forall d :: 0 <= d < |o.cpus| && d != c ==> t.cpus[d] == o.cpus[d] && t.bar.devs[d] == o.bar.devs[d])
      && CpuLeft(t.cpus[c].pc, t.bar.devs[c]) + TimerLeft(t.bar.timer, n)
           < CpuLeft(o.cpus[c].pc, o.bar.devs[c]) + TimerLeft(o.bar.timer, n)
  {
    CpuFrame(o, c);
    BarrierNext(o, CpuStep(c));
    assert CpuDevice(o.cpus[c].pc, o.bar.devs[c].pc);
    assert B.DeviceInv(o.bar, c);
    if BarrierStep(o, CpuStep(c)).None? { CpuMoves(o, c); }
  }

  lemma CpuMoves(o: Os, c: nat)
    requires Wf(o) && Enabled(o, CpuStep(c)) && BarrierStep(o, CpuStep(c)).None?
    requires c < |CpuNext(o, c).cpus|
    ensures CpuLeft(CpuNext(o, c).cpus[c].pc, o.bar.devs[c]) < CpuLeft(o.cpus[c].pc, o.bar.devs[c])
  {
    var cpu := o.cpus[c];
    if cpu.pc.Reget? || (cpu.pc.Top? && cpu.proc.None?) {
      GetsToCheck(o, c, if cpu.pc == Reget(true) then 0 else cpu.left);
    }
  }

  /** Only CPU c has moved. */
  lemma OneCpuLeft(o: Os, t: Os, c: nat)
    requires |o.bar.devs| == |t.bar.devs| == |o.cpus| + 1 == |t.cpus| + 1 && c < |o.cpus|
    requires forall d :: 0 <= d < |o.cpus| && d != c ==> t.cpus[d] == o.cpus[d] && t.bar.devs[d] == o.bar.devs[d]
    ensures Sum(CpusLeft(t)) + CpuLeft(o.cpus[c].pc, o.bar.devs[c])
         == Sum(CpusLeft(o)) + CpuLeft(t.cpus[c].pc, t.bar.devs[c])
  {
    assert CpusLeft(t) == CpusLeft(o)[c := CpusLeft(t)[c]];
    SumUpdate(CpusLeft(o), c, CpusLeft(t)[c]);
  }

  lemma CpuStepUses(o: Os, c: nat)
    requires Inv(o) && Enabled(o, CpuStep(c)) && Inv(CpuNext(o, c))
    ensures CpuNext(o, c).bar.time == o.bar.time && SlotLeft(CpuNext(o, c)) < SlotLeft(o)
  {
    CpuUses(o, c);
    OneCpuLeft(o, CpuNext(o, c), c);
  }

  lemma LoadStepUses(o: Os)
    requires Inv(o) && Enabled(o, LoadStep) && Inv(LoadNext(o))
    ensures LoadNext(o).bar.time == o.bar.time && SlotLeft(LoadNext(o)) < SlotLeft(o)
  {
    var t := LoadNext(o);
    LoadFrame(o);
    BarrierNext(o, LoadStep);
    assert LoadDevice(o.load, o.bar.devs[|o.cpus|].pc);
    assert B.DeviceInv(o.bar, |o.cpus|);
    assert CpusLeft(t) == CpusLeft(o);
  }

  /** A timer step that is not the tick, on device i if it is a release. */
  lemma TickUses(o: Os)
    requires Inv(o) && Enabled(o, BarStep(B.Tick)) && Inv(Next(o, BarStep(B.Tick)))
    requires Next(o, BarStep(B.Tick)).bar.time == o.bar.time
    ensures SlotLeft(Next(o, BarStep(B.Tick))) < SlotLeft(o)
  {
    if o.bar.timer.Release? && o.bar.timer.i < |o.cpus| {
      ReleaseUses(o, o.bar.timer.i);
    } else {
      CollectUses(o);
    }
  }

  lemma ReleaseUses(o: Os, c: nat)
    requires Inv(o) && c < |o.cpus| && o.bar.timer == B.Release(c)
    ensures SlotLeft(Next(o, BarStep(B.Tick))) < SlotLeft(o)
  {
    var t := Next(o, BarStep(B.Tick));
    DeviceCleared(o.cpus[c].pc, o.bar.devs[c], t.bar.devs[c]);
    OneCpuLeft(o, t, c);
  }

  lemma DeviceCleared(pc: CpuPc, dev: B.Device, dev': B.Device)
    ensures CpuLeft(pc, dev') <= CpuLeft(pc, dev) + 7
  {
  }

  lemma LoaderCleared(pc: LoadPc, dev: B.Device, dev': B.Device)
    ensures LoadLeft(pc, dev') <= LoadLeft(pc, dev) + 7
  {
  }

  lemma CollectUses(o: Os)
    requires Inv(o) && Enabled(o, BarStep(B.Tick)) && !(o.bar.timer.Release? && o.bar.timer.i < |o.cpus|)
    requires Next(o, BarStep(B.Tick)).bar.time == o.bar.time
    ensures SlotLeft(Next(o, BarStep(B.Tick))) < SlotLeft(o)
  {
    var t := Next(o, BarStep(B.Tick));
    LoaderCleared(o.load, o.bar.devs[|o.cpus|], t.bar.devs[|o.cpus|]);
    assert CpusLeft(t) == CpusLeft(o);
  }

  /** Every step without help from a spurious wakeup is the tick, or one step nearer to it. */
  lemma StepUses(o: Os, e: Step)
    requires Inv(o) && Enabled(o, e) && Unaided(e) && Inv(Next(o, e))
    ensures var t := Next(o, e);
      |t.bar.devs| == |t.cpus| + 1 &&
      (t.bar.time == o.bar.time + 1 || (t.bar.time == o.bar.time && SlotLeft(t) < SlotLeft(o)))
  {
    match e
    case CpuStep(c) => CpuStepUses(o, c);
    case LoadStep => LoadStepUses(o);
    case BarStep(b) =>
      B.TimeStands(o.bar, b);
      if Next(o, e).bar.time == o.bar.time { TickUses(o); }
  }

  // ----- Steps left until the timer thread has ended

  /** Steps left while the time stays within k. */
  ghost function StepsLeft(o: Os, k: nat): nat
    requires |o.bar.devs| == |o.cpus| + 1 && o.bar.time <= k
  {
    Times(k - o.bar.time, SlotSteps(|o.cpus|) + 1) + SlotLeft(o)
  }

  /** The product of two numbers. */
  function Times(a: nat, b: nat): nat { if a == 0 then 0 else Times(a - 1, b) + b }

  lemma {:induction false} TimesIsProduct(a: nat, b: nat)
    ensures Times(a, b) == a * b
  {
    if a == 0 {
    } else {
      TimesIsProduct(a - 1, b);
      assert a * b == (a - 1) * b + b;
    }
  }

  lemma StepsShrink(o: Os, t: Os, k: nat)
    requires |o.bar.devs| == |o.cpus| + 1 && |t.bar.devs| == |t.cpus| + 1 && |t.cpus| == |o.cpus|
    requires o.bar.time <= k && t.bar.time <= k
    requires t.bar.time == o.bar.time + 1 || (t.bar.time == o.bar.time && SlotLeft(t) < SlotLeft(o))
    ensures StepsLeft(t, k) < StepsLeft(o, k)
  {
    SlotBound(t);
  }

  /** Slots and steps per slot, in terms of the workload. */
  function MaxSteps(cpus: nat, procs: seq<Proc>, latest: nat): nat {
    Times(LastTime(procs, latest) + 1, SlotSteps(cpus) + 1)
  }

  lemma MaxStepsValue(cpus: nat, procs: seq<Proc>, latest: nat)
    ensures MaxSteps(cpus, procs, latest) == (latest + |procs| + Demand(procs) + 3) * (18 * cpus + 23)
  {
    TimesIsProduct(LastTime(procs, latest) + 1, SlotSteps(cpus) + 1);
  }

  /** A state on a run that began with this workload. */
  ghost predicate OnRun(o: Os, latest: nat, k: nat) {
    Inv(o) && Timed(o, latest) && TimeOk(o, latest) && k == LastTime(o.procs, latest)
  }

  lemma NextOnRun(o: Os, e: Step, latest: nat, k: nat)
    requires OnRun(o, latest, k) && Enabled(o, e)
    ensures OnRun(Next(o, e), latest, k) && |Next(o, e).cpus| == |o.cpus|
  {
    TimedNext(o, e, latest);
    StepWorkload(o, e);
    SameDemand(o.procs, Next(o, e).procs);
  }

  /** One more step uses one up. */
  lemma StepOnRun(o: Os, e: Step, latest: nat, k: nat)
    requires OnRun(o, latest, k) && Enabled(o, e) && Unaided(e)
    ensures OnRun(Next(o, e), latest, k) && StepsLeft(Next(o, e), k) < StepsLeft(o, k)
  {
    NextOnRun(o, e, latest, k);
    StepUses(o, e);
    StepsShrink(o, Next(o, e), k);
  }

  ghost predicate AllUnaided(es: seq<Step>) { forall i :: 0 <= i < |es| ==> Unaided(es[i]) }

  lemma {:induction false} UnaidedBound(o: Os, es: seq<Step>, latest: nat, k: nat)
    requires OnRun(o, latest, k) && Legal(o, es) && AllUnaided(es)
    ensures |es| <= StepsLeft(o, k)
    decreases |es|
  {
    if es == [] {
    } else {
      StepOnRun(o, es[0], latest, k);
      UnaidedBound(Next(o, es[0]), es[1..], latest, k);
    }
  }

  // ----- Termination

  /** No thread can take a step, but for spurious wakeups. */
  ghost predicate Quiescent(o: Os)
    requires Inv(o)
  {
    forall e :: Unaided(e) ==> !Enabled(o, e)
  }

  /** Everything is over: all threads have ended, every process was loaded, and is finished unless it
      was dropped at a full queue. */
  ghost predicate Over(o: Os) {
    && AllCpusStopped(o) && o.load.LoadStopped? && o.bar.timer.Exited? && o.loaded == |o.procs| == |o.place|
    && forall x :: 0 <= x < |o.procs| ==> o.place[x].Done? || o.place[x].Lost?
  }

  lemma QuiescentMeansOver(o: Os)
    requires Inv(o) && Quiescent(o)
    ensures Over(o)
  {
    NeverStuck(o);
    StoppedMeansDone(o);
  }

  /** Every run ends.  In every interleaving without spurious wakeups the run has at most MaxSteps steps,
      and when it can be continued no more, all threads have ended and every process was loaded and has
      finished; with at most fifty processes of each priority without exception. */
  lemma EveryRunStops(cpus: nat, procs: seq<Proc>, slot: nat, es: seq<Step>, latest: nat)
    requires Config(cpus, procs, slot) && Legal(Begin(cpus, procs, slot), es) && AllUnaided(es)
    requires forall x :: 0 <= x < |procs| ==> procs[x].start <= latest
    ensures |es| <= MaxSteps(cpus, procs, latest)
    ensures var o := Run(Begin(cpus, procs, slot), es);
      && (Quiescent(o) ==> Over(o))
      && (Quiescent(o) && FitsQueues(procs) ==> forall x :: 0 <= x < |procs| ==> o.place[x].Done?)
  {
    RunIsShort(cpus, procs, slot, es, latest);
    BeginKept(cpus, procs, slot, es);
    if Quiescent(Run(Begin(cpus, procs, slot), es)) { QuiescentMeansOver(Run(Begin(cpus, procs, slot), es)); }
  }

  lemma RunIsShort(cpus: nat, procs: seq<Proc>, slot: nat, es: seq<Step>, latest: nat)
    requires Config(cpus, procs, slot) && Legal(Begin(cpus, procs, slot), es) && AllUnaided(es)
    requires forall x :: 0 <= x < |procs| ==> procs[x].start <= latest
    ensures |es| <= MaxSteps(cpus, procs, latest)
  {
    BeginLeft(cpus, procs, slot, latest);
    UnaidedBound(Begin(cpus, procs, slot), es, latest, LastTime(procs, latest));
  }

  lemma BeginLeft(cpus: nat, procs: seq<Proc>, slot: nat, latest: nat)
    requires Config(cpus, procs, slot) && forall x :: 0 <= x < |procs| ==> procs[x].start <= latest
    ensures var b := Begin(cpus, procs, slot);
      && OnRun(b, latest, LastTime(procs, latest))
      && StepsLeft(b, LastTime(procs, latest)) <= MaxSteps(cpus, procs, latest)
  {
    BeginOnRun(cpus, procs, slot, latest);
    Exhausted(Begin(cpus, procs, slot), LastTime(procs, latest));
  }

  lemma BeginOnRun(cpus: nat, procs: seq<Proc>, slot: nat, latest: nat)
    requires Config(cpus, procs, slot) && forall x :: 0 <= x < |procs| ==> procs[x].start <= latest
    ensures var b := Begin(cpus, procs, slot);
      OnRun(b, latest, LastTime(procs, latest)) && b.bar.time == 0 && |b.cpus| == cpus
  {
    BeginTimed(cpus, procs, slot, latest);
  }

  lemma Exhausted(o: Os, k: nat)
    requires |o.bar.devs| == |o.cpus| + 1 && o.bar.time == 0
    ensures StepsLeft(o, k) <= Times(k + 1, SlotSteps(|o.cpus|) + 1)
  {
    SlotBound(o);
  }

  /** From every state of a run some steps lead to the end. */
  lemma {:induction false} RunOn(o: Os, latest: nat, k: nat) returns (es: seq<Step>)
    requires OnRun(o, latest, k)
    ensures Legal(o, es) && AllUnaided(es) && Quiescent(Run(o, es))
    decreases StepsLeft(o, k)
  {
    if Quiescent(o) {
      es := [];
    } else {
      var e :| Unaided(e) && Enabled(o, e);
      StepOnRun(o, e, latest, k);
      var rest := RunOn(Next(o, e), latest, k);
      es := [e] + rest;
      Prepended(o, e, rest);
    }
  }

  lemma Prepended(o: Os, e: Step, rest: seq<Step>)
    requires Inv(o) && Enabled(o, e) && Inv(Next(o, e)) && Legal(Next(o, e), rest)
    ensures Legal(o, [e] + rest) && Run(o, [e] + rest) == Run(Next(o, e), rest)
    ensures Unaided(e) && AllUnaided(rest) ==> AllUnaided([e] + rest)
  {
    assert ([e] + rest)[1..] == rest;
  }

  /** A run that ends exists, so what holds of ended runs is not said of nothing. */
  lemma SomeRunEnds(cpus: nat, procs: seq<Proc>, slot: nat)
    requires Config(cpus, procs, slot)
    ensures exists es ::
      Legal(Begin(cpus, procs, slot), es) && AllUnaided(es) && Over(Run(Begin(cpus, procs, slot), es))
  {
    var latest := LatestStart(procs);
    BeginOnRun(cpus, procs, slot, latest);
    var b := Begin(cpus, procs, slot);
    var es := RunOn(b, latest, LastTime(procs, latest));
    QuiescentMeansOver(Run(b, es));
  }

  function LatestStart(procs: seq<Proc>): (r: nat)
    ensures forall x :: 0 <= x < |procs| ==> procs[x].start <= r
  {
    if procs == [] then 0
    else
      var r := LatestStart(procs[..|procs| - 1]);
      if procs[|procs| - 1].start <= r then r else procs[|procs| - 1].start
  }
}
