/** A run in which a process that a CPU holds is not on the running list: one CPU, a process of sixty
    instructions that fills the list in fifty slots, and a second process that starts after them. */
module OsPidWitness {
  import opened Common
  import opened Os
  import opened OsPaths
  import opened OsRuns
  import M = Mlq

  // ----- The workload

  function Procs(pc: nat, disp: nat): seq<Proc> { [Proc(60, 1, 0, pc, disp), Proc(1, 0, 51, 0, 0)] }

  function Queues(q0: seq<nat>, q1: seq<nat>): seq<seq<nat>> {
    seq(M.MAX_PRIO, p => if p == 0 then q0 else if p == 1 then q1 else [])
  }

  /** After k dispatches of process 0, all from queue 1; its entries fill the list up to 50. */
  function Queued(k: nat, q0: seq<nat>, q1: seq<nat>): M.Sched
    requires k < 100
  {
    M.Sched(Queues(q0, q1), M.FullBudget()[1 := 139 - k], Copies(if k < 50 then k else 50))
  }

  function Copies(n: nat): seq<nat> { seq(n, _ => 0) }

  /** Start of slot k: process 0 has run k instructions on k dispatches. */
  function Start(k: nat): View
    requires k < 100
  {
    View(1, Running(k), Cpu(Top, Some(0), 0), LoadTop, 1, Queued(k, [], []), Procs(k, k), [OnCpu(0), Unloaded])
  }

  // ----- The scheduler half

  lemma PutsFirst(k: nat, q0: seq<nat>)
    requires k < 100
    ensures M.Valid(Queued(k, q0, [])) && M.Put(Queued(k, q0, []), 1, 0) == Queued(k, q0, [0])
  {
    assert [] + [0] == [0];
    assert Queues(q0, [])[1 := [0]] == Queues(q0, [0]);
  }

  lemma TakesFirst(k: nat)
    requires k < 99
    ensures M.Valid(Queued(k, [], [0])) && M.Get(Queued(k, [], [0])) == (Some(0), Queued(k + 1, [], []))
  {
    var s, n := Queued(k, [], [0]), if k < 50 then k else 50;
    assert s.queues[0] == [] && s.queues[1] == [0] && s.slot[1] == 139 - k;
    assert M.FirstServable(s, 0) == M.FirstServable(s, 1) == 1;
    assert [0][1..] == [] && Queues([], [0])[1 := []] == Queues([], []);
    assert Copies(n) + [0] == Copies(n + 1);
    assert s.slot[1 := 138 - k] == M.FullBudget()[1 := 138 - k];
  }

  lemma TakesSecond(k: nat)
    requires 50 <= k < 100
    ensures M.Valid(Queued(k, [1], [0])) && M.Get(Queued(k, [1], [0])).0 == Some(1)
    ensures M.Get(Queued(k, [1], [0])).1.running == Copies(50)
  {
    var s := Queued(k, [1], [0]);
    assert s.queues[0] == [1] && s.slot[0] == 140;
    assert M.FirstServable(s, 0) == 0;
  }

  lemma YieldLink(v: View, k: nat, q0: seq<nat>)
    requires k < 60 && v.cpu == Cpu(Top, Some(0), 0) && v.sched == Queued(k, q0, []) && v.procs == Procs(k, k)
    requires |v.place| == 2
    ensures Links(v, CpuStep(0), v.(cpu := Cpu(Reget(false), None, 0), sched := Queued(k, q0, [0]),
                                    place := v.place[0 := Ready]))
  {
    PutsFirst(k, q0);
  }

  lemma GetLink(v: View, k: nat)
    requires k < 60 && v.cpu.proc.None? && v.cpu.left == 0 && (v.cpu.pc == Reget(false) || v.cpu.pc == Top)
    requires v.sched == Queued(k, [], [0]) && v.procs == Procs(k, k) && v.place == [Ready, Unloaded]
    ensures Links(v, CpuStep(0), v.(cpu := Cpu(Check, Some(0), 0), sched := Queued(k + 1, [], []),
                                    procs := Procs(k, k + 1), place := [OnCpu(0), Unloaded]))
  {
    TakesFirst(k);
  }

  lemma RunLink(v: View, k: nat)
    requires k < 60 && v.slot == 1 && v.cpu == Cpu(Check, Some(0), 0) && v.procs == Procs(k, k + 1)
    ensures Links(v, CpuStep(0), v.(cpu := Cpu(Arriving, Some(0), 0), procs := Procs(k + 1, k + 1)))
  {
  }

  /** From the dispatch of process 0 in slot k to the start of slot k + 1. */
  lemma RestOfSlot(v: View, k: nat)
    requires k < 60 && v.slot == 1
    requires v.bar == OneIn(k) && v.load == LoadInSlot && v.loaded == 1 && v.cpu.proc.None? && v.cpu.left == 0
    requires v.cpu.pc == Reget(false) || v.cpu.pc == Top
    requires v.sched == Queued(k, [], [0]) && v.procs == Procs(k, k) && v.place == [Ready, Unloaded]
    ensures Leads(v, Start(k + 1))
  {
    var v1 := v.(cpu := Cpu(Check, Some(0), 0), sched := Queued(k + 1, [], []), procs := Procs(k, k + 1),
                 place := [OnCpu(0), Unloaded]);
    var v2 := v1.(cpu := Cpu(Arriving, Some(0), 0), procs := Procs(k + 1, k + 1));
    var v3 := v2.(bar := BothIn(k), cpu := Cpu(InSlot, Some(0), 0));
    Leave(v3.(bar := BothOut(k)), k);
    Ticks(v3, k, Start(k + 1));
    CpuIn(v2, k);
    StepThen(v2, CpuStep(0), v3, Start(k + 1));
    RunLink(v1, k);
    StepThen(v1, CpuStep(0), v2, Start(k + 1));
    GetLink(v, k);
    StepThen(v, CpuStep(0), v1, Start(k + 1));
  }

  // ----- The run

  /** The loader waits, process 0 yields and is dispatched again. */
  lemma WholeSlot(k: nat)
    requires k < 51
    ensures Leads(Start(k), Start(k + 1))
  {
    var v := Start(k);
    var v1 := v.(load := LoadArriving);
    var v2 := v1.(bar := OneIn(k), load := LoadInSlot);
    var v3 := v2.(cpu := Cpu(Reget(false), None, 0), sched := Queued(k, [], [0]), place := [Ready, Unloaded]);
    RestOfSlot(v3, k);
    YieldLink(v2, k, []);
    StepThen(v2, CpuStep(0), v3, Start(k + 1));
    LoaderIn(v1, k);
    StepThen(v1, LoadStep, v2, Start(k + 1));
    WaitLink(v, v1, k);
    StepThen(v, LoadStep, v1, Start(k + 1));
  }

  lemma WaitLink(v: View, v1: View, k: nat)
    requires k < 51 && v == Start(k) && v1 == v.(load := LoadArriving)
    ensures Links(v, LoadStep, v1)
  {
  }

  lemma {:induction false} Slots(k: nat, last: nat)
    requires 1 <= k < last <= 51
    ensures Leads(Start(k), Start(last))
    decreases last - k
  {
    WholeSlot(k);
    if k + 1 == last {
    } else {
      Slots(k + 1, last);
      Then(Start(k), Start(k + 1), Start(last));
    }
  }

  /** The machine before its first step. */
  function Fresh(): View {
    View(1, Running(0), Cpu(Top, None, 0), LoadTop, 0, Queued(0, [], []), Procs(0, 0), [Unloaded, Unloaded])
  }

  /** Slot 0: the loader adds process 0, the idle CPU takes it. */
  lemma FirstSlot(v: View, k: nat)
    requires k == 0 && v == Fresh()
    ensures Leads(v, Start(k + 1))
  {
    var v1 := v.(load := LoadArriving, loaded := 1, sched := Queued(k, [], [0]), place := [Ready, Unloaded]);
    var v2 := v1.(bar := OneIn(k), load := LoadInSlot);
    RestOfSlot(v2, k);
    LoaderIn(v1, k);
    StepThen(v1, LoadStep, v2, Start(k + 1));
    FirstAdd(v, v1, k);
    StepThen(v, LoadStep, v1, Start(k + 1));
  }

  lemma FirstAdd(v: View, v1: View, k: nat)
    requires k == 0 && v == Fresh()
    requires v1 == v.(load := LoadArriving, loaded := 1, sched := Queued(k, [], [0]), place := [Ready, Unloaded])
    ensures Links(v, LoadStep, v1)
  {
    PutsFirst(k, []);
  }

  lemma BeginLooks(b: Os)
    requires b == Init(1, Procs(0, 0), 1)
    ensures Looks(b, Fresh())
  {
    assert M.FullBudget()[1 := 139] == M.FullBudget();
    assert Queues([], []) == seq(M.MAX_PRIO, _ => []);
    BeginDevices();
  }

  /** Slot 51, up to the dispatch: the loader adds process 1, process 0 yields. */
  function Brink(): View {
    Start(51).(load := LoadArriving, loaded := 2, cpu := Cpu(Reget(false), None, 0), sched := Queued(51, [1], [0]),
               place := [Ready, Ready])
  }

  lemma LastSlot(last: nat)
    requires last == 51
    ensures Leads(Start(last), Brink())
  {
    var v1 := Start(last).(load := LoadArriving, loaded := 2, sched := Queued(last, [1], []),
                           place := [OnCpu(0), Ready]);
    YieldLink(v1, last, [1]);
    OneStep(v1, CpuStep(0), Brink());
    AddLink(Start(last), v1, last);
    StepThen(Start(last), LoadStep, v1, Brink());
  }

  lemma AddLink(v: View, v1: View, last: nat)
    requires last == 51 && v == Start(last)
    requires v1 == v.(load := LoadArriving, loaded := 2, sched := Queued(last, [1], []), place := [OnCpu(0), Ready])
    ensures Links(v, LoadStep, v1)
  {
    assert Queues([], [])[0 := [1]] == Queues([1], []);
    assert [] + [1] == [1];
  }

  /** CPU 0 takes process 1, and the full list drops it. */
  function Over(): View
    requires M.Valid(Brink().sched)
  {
    Brink().(cpu := Cpu(Check, Some(1), 0), sched := M.Get(Brink().sched).1, place := [Ready, OnCpu(0)],
             procs := [Proc(60, 1, 0, 51, 51), Proc(1, 0, 51, 0, 1)])
  }

  lemma Dispatch()
    ensures M.Valid(Brink().sched) && Leads(Brink(), Over()) && Over().sched.running == Copies(50)
  {
    TakesSecond(51);
    OneStep(Brink(), CpuStep(0), Over());
  }

  lemma Journey(v: View, k: nat, last: nat)
    requires k == 0 && last == 51 && v == Fresh()
    ensures M.Valid(Brink().sched) && Leads(v, Over())
  {
    FirstSlot(v, k);
    Slots(k + 1, last);
    LastSlot(last);
    Dispatch();
    Then(v, Start(k + 1), Start(last));
    Then(v, Start(last), Brink());
    Then(v, Brink(), Over());
  }

  /** The state of PidLookup's conclusion, refuted: a CPU holds process 1 and the list does not. */
  ghost predicate Unlisted(o: Os) {
    |o.cpus| == 1 && o.cpus[0].proc == Some(1) && 1 !in o.sched.running
  }

  /** The bound of PidLookup cannot be dropped: with one CPU and a slot of one, a legal run of these two
      processes leads to a state in which the CPU holds process 1 and the running list, full of entries
      of process 0, does not have it. */
  lemma HeldButNotListed()
    ensures Config(1, Procs(0, 0), 1)
    ensures exists es :: Legal(Begin(1, Procs(0, 0), 1), es) && Unlisted(Run(Begin(1, Procs(0, 0), 1), es))
  {
    Journey(Fresh(), 0, 51);
    Dispatch();
    EndsUnlisted(Begin(1, Procs(0, 0), 1), Fresh(), Over());
  }

  lemma EndsUnlisted(b: Os, v: View, v': View)
    requires Inv(b) && b == Init(1, Procs(0, 0), 1) && v == Fresh() && Leads(v, v')
    requires v'.cpu.proc == Some(1) && v'.sched.running == Copies(50)
    ensures exists es :: Legal(b, es) && Unlisted(Run(b, es))
  {
    BeginLooks(b);
    var es, vs :| Path(es, vs) && vs[0] == v && vs[|es|] == v';
    Walk(b, es, vs);
  }
}
