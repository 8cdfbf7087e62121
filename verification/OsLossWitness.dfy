/** A run in which enqueue drops a process: one CPU, a slot of one hundred, and fifty-two processes of the
    highest priority, the first of which keeps the CPU while the loader adds the others. */
module OsLossWitness {
  import opened Common
  import opened Os
  import E = OsExec
  import opened OsEnds
  import opened OsLoss
  import opened OsPaths
  import opened OsRuns
  import opened OsTime
  import M = Mlq

  const MANY: nat := 52

  /** The workload, when process 0 has run pc instructions on disp dispatches. */
  function Procs(pc: nat, disp: nat): seq<Proc> {
    seq(MANY, x => if x == 0 then Proc(200, 0, 0, pc, disp) else Proc(200, 0, 0, 0, 0))
  }

  /** Processes 1 .. n - 1 wait in the first queue. */
  function Waiting(n: nat): seq<nat> { seq(if n == 0 then 0 else n - 1, i => i + 1) }

  /** Process 0 was dispatched; n processes are loaded. */
  function Held(n: nat): M.Sched {
    M.Sched(seq(M.MAX_PRIO, p => if p == 0 then Waiting(n) else []), M.FullBudget()[0 := 139], [0])
  }

  function Places(n: nat): seq<Place> {
    seq(MANY, x => if x == 0 then OnCpu(0) else if x < n then Ready else Unloaded)
  }

  /** Start of slot k: the CPU has run k instructions of process 0, and k processes are loaded. */
  function Start(k: nat): View
    requires k < 100
  {
    View(100, Running(k), Cpu(Top, Some(0), 100 - k), LoadTop, k, Held(k), Procs(k, 1), Places(k))
  }

  // ----- A slot

  lemma JoinsTail(k: nat)
    requires 1 <= k <= 50
    ensures M.Valid(Held(k)) && M.Put(Held(k), 0, k) == Held(k + 1) && Joins(Held(k), 0).Ready?
  {
    assert Waiting(k) + [k] == Waiting(k + 1);
    assert Held(k).queues[0 := Waiting(k + 1)] == Held(k + 1).queues;
  }

  lemma AddLink(v: View, k: nat)
    requires 1 <= k <= 50 && v == Start(k)
    ensures Links(v, LoadStep, v.(load := LoadArriving, loaded := k + 1, sched := Held(k + 1), place := Places(k + 1)))
  {
    JoinsTail(k);
    assert Places(k)[k := Ready] == Places(k + 1);
    assert Procs(k, 1)[k].prio == 0 && Procs(k, 1)[k].start == 0;
  }

  /** The CPU goes on with process 0. */
  lemma GoOnLink(v: View, k: nat)
    requires 1 <= k < 100 && v.cpu == Cpu(Top, Some(0), 100 - k) && v.procs == Procs(k, 1)
    ensures Links(v, CpuStep(0), v.(cpu := Cpu(Check, Some(0), 100 - k)))
  {
    assert Procs(k, 1)[0].pc == k;
  }

  lemma RunLink(v: View, k: nat)
    requires k < 100 && v.slot == 100 && v.cpu == Cpu(Check, Some(0), if k == 0 then 0 else 100 - k)
    requires v.procs == Procs(k, 1)
    ensures Links(v, CpuStep(0), v.(cpu := Cpu(Arriving, Some(0), 99 - k), procs := Procs(k + 1, 1)))
  {
    assert Procs(k, 1)[0 := Proc(200, 0, 0, k + 1, 1)] == Procs(k + 1, 1);
  }

  /** From the recheck of slot k to the start of slot k + 1. */
  lemma RestOfSlot(v: View, k: nat)
    requires k < 99 && v.slot == 100 && v.bar == OneIn(k) && v.load == LoadInSlot && v.loaded == k + 1
    requires v.cpu == Cpu(Check, Some(0), if k == 0 then 0 else 100 - k) && v.procs == Procs(k, 1)
    requires v.sched == Held(k + 1) && v.place == Places(k + 1)
    ensures Leads(v, Start(k + 1))
  {
    var v1 := v.(cpu := Cpu(Arriving, Some(0), 99 - k), procs := Procs(k + 1, 1));
    var v2 := v1.(bar := BothIn(k), cpu := Cpu(InSlot, Some(0), 99 - k));
    Leave(v2.(bar := BothOut(k)), k);
    Ticks(v2, k, Start(k + 1));
    CpuIn(v1, k);
    StepThen(v1, CpuStep(0), v2, Start(k + 1));
    RunLink(v, k);
    StepThen(v, CpuStep(0), v1, Start(k + 1));
  }

  lemma WholeSlot(k: nat)
    requires 1 <= k <= 50
    ensures Leads(Start(k), Start(k + 1))
  {
    var v := Start(k);
    var v1 := v.(load := LoadArriving, loaded := k + 1, sched := Held(k + 1), place := Places(k + 1));
    var v2 := v1.(bar := OneIn(k), load := LoadInSlot);
    var v3 := v2.(cpu := Cpu(Check, Some(0), 100 - k));
    RestOfSlot(v3, k);
    GoOnLink(v2, k);
    StepThen(v2, CpuStep(0), v3, Start(k + 1));
    LoaderIn(v1, k);
    StepThen(v1, LoadStep, v2, Start(k + 1));
    AddLink(v, k);
    StepThen(v, LoadStep, v1, Start(k + 1));
  }

  lemma {:induction false} Slots(k: nat, last: nat)
    requires 1 <= k < last <= 51
    ensures Leads(Start(k), Start(last))
    decreases last - k
  {
    WholeSlot(k);
    if k + 1 == last {
    } else {
      Slots(k + 1, last);
      Then(Start(k), Start(k + 1), Start(last));
    }
  }

  // ----- The first slot

  /** No process was dispatched yet; q is the first queue. */
  function Idle(q: seq<nat>): M.Sched {
    M.Sched(seq(M.MAX_PRIO, p => if p == 0 then q else []), M.FullBudget(), [])
  }

  function NonePlaced(): seq<Place> { seq(MANY, _ => Unloaded) }

  function Fresh(k: nat): View {
    View(100, Running(k), Cpu(Top, None, 0), LoadTop, 0, Idle([]), Procs(0, 0), NonePlaced())
  }

  lemma FirstAdd(v: View, k: nat)
    requires k == 0 && v == Fresh(k)
    ensures Links(v, LoadStep, v.(load := LoadArriving, loaded := 1, sched := Idle([0]),
                                  place := NonePlaced()[0 := Ready]))
  {
    assert [] + [0] == [0];
    assert Idle([]).queues[0 := [0]] == Idle([0]).queues;
    assert Procs(0, 0)[0].prio == 0 && Procs(0, 0)[0].start == 0;
  }

  lemma FirstTaken()
    ensures M.Valid(Idle([0])) && M.Get(Idle([0])) == (Some(0), Held(1))
  {
    var s := Idle([0]);
    assert s.queues[0] == [0] && s.slot[0] == 140;
    assert M.FirstServable(s, 0) == 0;
    assert [0][1..] == [] == Waiting(1);
    assert s.queues[0 := []] == Held(1).queues;
    assert [] + [0] == [0];
  }

  lemma FirstGet(v: View)
    requires v.cpu == Cpu(Top, None, 0) && v.sched == Idle([0]) && v.procs == Procs(0, 0)
    requires v.place == NonePlaced()[0 := Ready]
    ensures Links(v, CpuStep(0), v.(cpu := Cpu(Check, Some(0), 0), sched := Held(1), procs := Procs(0, 1),
                                    place := Places(1)))
  {
    FirstTaken();
    assert Procs(0, 0)[0 := Proc(200, 0, 0, 0, 1)] == Procs(0, 1);
    assert NonePlaced()[0 := Ready][0 := OnCpu(0)] == Places(1);
  }

  lemma FirstSlot(v: View, k: nat)
    requires k == 0 && v == Fresh(k)
    ensures Leads(v, Start(k + 1))
  {
    var v1 := v.(load := LoadArriving, loaded := 1, sched := Idle([0]), place := NonePlaced()[0 := Ready]);
    var v2 := v1.(bar := OneIn(k), load := LoadInSlot);
    var v3 := v2.(cpu := Cpu(Check, Some(0), 0), sched := Held(1), procs := Procs(0, 1), place := Places(1));
    RestOfSlot(v3, k);
    FirstGet(v2);
    StepThen(v2, CpuStep(0), v3, Start(k + 1));
    LoaderIn(v1, k);
    StepThen(v1, LoadStep, v2, Start(k + 1));
    FirstAdd(v, k);
    StepThen(v, LoadStep, v1, Start(k + 1));
  }

  // ----- The drop

  /** Slot 51: fifty processes wait, and the loader's next one is dropped. */
  function Dropped(): View {
    Start(51).(load := LoadArriving, loaded := MANY, place := Places(51)[51 := Lost])
  }

  lemma DropLink(v: View, k: nat)
    requires k == 51 && v == Start(k)
    ensures Links(v, LoadStep, Dropped())
  {
    assert |Held(k).queues[0]| == 50;
    assert Held(k).queues[0 := Waiting(k)] == Held(k).queues;
    assert Procs(k, 1)[k].prio == 0 && Procs(k, 1)[k].start == 0;
  }

  lemma Journey(v: View, k: nat, last: nat)
    requires k == 0 && last == 51 && v == Fresh(k)
    ensures Leads(v, Dropped())
  {
    FirstSlot(v, k);
    Slots(k + 1, last);
    DropLink(Start(last), last);
    OneStep(Start(last), LoadStep, Dropped());
    Then(v, Start(k + 1), Start(last));
    Then(v, Start(last), Dropped());
  }

  lemma BeginLooks(b: Os)
    requires b == Init(1, Procs(0, 0), 100)
    ensures Looks(b, Fresh(0))
  {
    assert Idle([]).queues == seq(M.MAX_PRIO, _ => []);
    BeginDevices();
  }

  /** Fifty processes of each priority are the limit: these fifty-two have a legal run at whose end all
      threads have ended and the last process, dropped at the full queue, was never finished. */
  lemma FiftyTwoLoseOne()
    ensures Config(1, Procs(0, 0), 100) && !FitsQueues(Procs(0, 0))
    ensures exists es :: Legal(Begin(1, Procs(0, 0), 100), es) && EndsWithout(Run(Begin(1, Procs(0, 0), 100), es))
  {
    TooMany();
    Journey(Fresh(0), 0, 51);
    EndsLost(Begin(1, Procs(0, 0), 100), Fresh(0), Dropped());
    BeginOnRun(1, Procs(0, 0), 100, LatestStart(Procs(0, 0)));
    GoesOn(Begin(1, Procs(0, 0), 100), LatestStart(Procs(0, 0)), LastTime(Procs(0, 0), LatestStart(Procs(0, 0))));
  }

  ghost predicate EndsWithout(o: Os) { Over(o) && LastIsLost(o) }

  lemma GoesOn(b: Os, latest: nat, k: nat)
    requires OnRun(b, latest, k) && exists es :: Legal(b, es) && LastIsLost(Run(b, es))
    ensures exists es :: Legal(b, es) && EndsWithout(Run(b, es))
  {
    var es :| Legal(b, es) && LastIsLost(Run(b, es));
    var fs := ToTheEnd(b, es, latest, k);
  }

  /** The run es, continued to the end. */
  lemma {:induction false} ToTheEnd(b: Os, es: seq<Step>, latest: nat, k: nat) returns (fs: seq<Step>)
    requires OnRun(b, latest, k) && Legal(b, es) && LastIsLost(Run(b, es))
    ensures Legal(b, fs) && EndsWithout(Run(b, fs))
    decreases |es|
  {
    if es == [] {
      fs := RunOn(b, latest, k);
      QuiescentMeansOver(Run(b, fs));
      LostAlong(b, fs, 51);
    } else {
      NextOnRun(b, es[0], latest, k);
      var rest := ToTheEnd(Next(b, es[0]), es[1..], latest, k);
      fs := [es[0]] + rest;
      Prepended(b, es[0], rest);
    }
  }

  lemma {:induction false} LostAlong(o: Os, es: seq<Step>, x: nat)
    requires Inv(o) && Legal(o, es) && x < |o.place| && o.place[x].Lost?
    ensures x < |Run(o, es).place| == |o.place| && Run(o, es).place[x].Lost?
    decreases |es|
  {
    if es == [] {
    } else {
      StepInv(o, es[0]);
      LostForGood(o, es[0], x);
      StepWorkload(o, es[0]);
      LostAlong(Next(o, es[0]), es[1..], x);
    }
  }

  ghost predicate LastIsLost(o: Os) { |o.place| == MANY && o.place[51].Lost? }

  lemma EndsLost(b: Os, v: View, v': View)
    requires Inv(b) && b == Init(1, Procs(0, 0), 100) && v == Fresh(0) && Leads(v, v')
    requires v'.place == Places(51)[51 := Lost]
    ensures exists es :: Legal(b, es) && LastIsLost(Run(b, es))
  {
    BeginLooks(b);
    var es, vs :| Path(es, vs) && vs[0] == v && vs[|es|] == v';
    Walk(b, es, vs);
  }

  lemma TooMany()
    ensures !FitsQueues(Procs(0, 0))
  {
    var all := E.UpTo(MANY);
    CountDistinct(all);
    var own := OfPrio(Procs(0, 0), 0);
    forall x: nat ensures x in Elements(all) <==> x in own {
      assert x < MANY ==> all[x] == x && Procs(0, 0)[x].prio == 0;
    }
    assert Elements(all) == own;
  }
}
