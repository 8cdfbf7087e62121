/** The running list behind the PID lookup of system calls (src/sys_mem.c). */
module OsPids {
  import opened Common
  import opened Os
  import opened OsPlaces
  import opened OsExec
  import M = Mlq

  function SumDisp(ps: seq<Proc>): nat {
    if ps == [] then 0 else SumDisp(ps[..|ps| - 1]) + ps[|ps| - 1].disp
  }

  function SumRounds(ps: seq<Proc>, slot: nat): nat
    requires slot >= 1
  {
    if ps == [] then 0 else SumRounds(ps[..|ps| - 1], slot) + Rounds(ps[|ps| - 1].size, slot)
  }

  function CountDone(places: seq<Place>): nat {
    if places == [] then 0 else CountDone(places[..|places| - 1]) + if places[|places| - 1].Done? then 1 else 0
  }

  lemma {:induction false} SumDispUpdate(ps: seq<Proc>, x: nat, p: Proc)
    requires x < |ps|
    ensures SumDisp(ps[x := p]) + ps[x].disp == SumDisp(ps) + p.disp
  {
    var n := |ps| - 1;
    if x == n {
      assert ps[x := p][..n] == ps[..n];
    } else {
      SumDispUpdate(ps[..n], x, p);
      assert ps[x := p][..n] == ps[..n][x := p];
    }
  }

  lemma {:induction false} SumRoundsUpdate(ps: seq<Proc>, x: nat, p: Proc, slot: nat)
    requires x < |ps| && slot >= 1 && p.size == ps[x].size
    ensures SumRounds(ps[x := p], slot) == SumRounds(ps, slot)
  {
    var n := |ps| - 1;
    if x == n {
      assert ps[x := p][..n] == ps[..n];
    } else {
      SumRoundsUpdate(ps[..n], x, p, slot);
      assert ps[x := p][..n] == ps[..n][x := p];
    }
  }

  lemma {:induction false} CountDoneUpdate(places: seq<Place>, x: nat, p: Place)
    requires x < |places|
    ensures CountDone(places[x := p]) + (if places[x].Done? then 1 else 0)
         == CountDone(places) + (if p.Done? then 1 else 0)
  {
    var n := |places| - 1;
    if x == n {
      assert places[x := p][..n] == places[..n];
    } else {
      CountDoneUpdate(places[..n], x, p);
      assert places[x := p][..n] == places[..n][x := p];
    }
  }

  lemma {:induction false} DispBelowRounds(ps: seq<Proc>, slot: nat, x: nat)
    requires slot >= 1 && x < |ps| && forall i :: 0 <= i < |ps| ==> ps[i].disp <= Rounds(ps[i].size, slot)
    ensures SumDisp(ps) <= SumRounds(ps, slot)
    ensures ps[x].disp < Rounds(ps[x].size, slot) ==> SumDisp(ps) < SumRounds(ps, slot)
  {
    var n := |ps| - 1;
    if n > 0 {
      DispBelowRounds(ps[..n], slot, if x < n then x else 0);
    } else {
      assert ps[..0] == [];
    }
  }

  lemma {:induction false} PurgeCount(q: seq<nat>, x: nat)
    requires x in q
    ensures |M.Purge(q, x)| + 1 == |q|
    ensures multiset(M.Purge(q, x)) == multiset(q) - multiset{x}
  {
    assert q == [q[0]] + q[1..];
    if q[0] != x {
      PurgeCount(q[1..], x);
      assert multiset(q) == multiset{q[0]} + multiset(q[1..]);
    }
  }

  /** A process is on the list once per dispatch, less one once it has finished. */
  ghost predicate Listed(o: Os)
    requires Wf(o)
  {
    && (forall x :: 0 <= x < |o.procs| ==>
          multiset(o.sched.running)[x] + (if o.place[x].Done? then 1 else 0) == o.procs[x].disp)
    && |o.sched.running| + CountDone(o.place) == SumDisp(o.procs)
    && |o.sched.running| <= M.MAX_QUEUE_SIZE
  }

  /** The list can hold one entry per dispatch of the whole workload. */
  ghost predicate Budget(o: Os)
    requires Wf(o)
  {
    SumRounds(o.procs, o.slot) <= M.MAX_QUEUE_SIZE
  }

  /** No process is dispatched more often than it needs; a ready one not yet that often. */
  lemma DispBound(o: Os, x: nat)
    requires Wf(o) && Progress(o) && x < |o.procs|
    ensures o.procs[x].disp <= Rounds(o.procs[x].size, o.slot)
    ensures o.place[x].Ready? ==> o.procs[x].disp < Rounds(o.procs[x].size, o.slot)
  {
    assert ProcInv(o, x);
    var p := o.procs[x];
    if p.disp >= 1 && !o.place[x].Ready? {
      AtMostRounds(p.disp, p.size, o.slot);
    } else {
      AtMostRounds(p.disp + 1, p.size, o.slot);
    }
  }

  lemma RoomOnList(o: Os, x: nat)
    requires Wf(o) && Progress(o) && Listed(o) && Budget(o) && x < |o.procs| && o.place[x].Ready?
    ensures |o.sched.running| < M.MAX_QUEUE_SIZE
  {
    forall i | 0 <= i < |o.procs| ensures o.procs[i].disp <= Rounds(o.procs[i].size, o.slot) {
      DispBound(o, i);
    }
    DispBound(o, x);
    DispBelowRounds(o.procs, o.slot, x);
  }

  lemma GetListed(o: Os, c: nat, left: nat)
    requires Wf(o) && Placed(o) && Progress(o) && Listed(o) && Budget(o) && c < |o.cpus|
    requires Wf(GetProc(o, c, left))
    ensures Listed(GetProc(o, c, left)) && Budget(GetProc(o, c, left))
  {
    GetProcShape(o, c, left);
    match M.Get(o.sched).0
    case None =>
    case Some(x) =>
      RoomOnList(o, x);
      DispatchListed(o, GetProc(o, c, left), c, x);
  }

  lemma DispatchListed(o: Os, t: Os, c: nat, x: nat)
    requires Wf(o) && Wf(t) && Listed(o) && Budget(o) && x < |o.procs| && o.place[x].Ready? && t.slot == o.slot
    requires |o.sched.running| < M.MAX_QUEUE_SIZE && t.sched.running == o.sched.running + [x]
    requires t.place == o.place[x := OnCpu(c)] && t.procs == o.procs[x := o.procs[x].(disp := o.procs[x].disp + 1)]
    ensures Listed(t) && Budget(t)
  {
    var p := o.procs[x].(disp := o.procs[x].disp + 1);
    SumDispUpdate(o.procs, x, p);
    SumRoundsUpdate(o.procs, x, p, o.slot);
    CountDoneUpdate(o.place, x, OnCpu(c));
  }

  lemma FinishListed(o: Os, c: nat, x: nat)
    requires Wf(o) && Placed(o) && Progress(o) && Listed(o) && Budget(o) && c < |o.cpus| && o.cpus[c].proc == Some(x)
    requires Wf(Finish(o, c, x))
    ensures Listed(Finish(o, c, x)) && Budget(Finish(o, c, x))
  {
    assert o.place[x] == OnCpu(c) && ProcInv(o, x);
    assert multiset(o.sched.running)[x] >= 1;
    assert x in o.sched.running;
    PurgeCount(o.sched.running, x);
    CountDoneUpdate(o.place, x, Done);
  }

  /** Steps that leave the list and the dispatch counts alone. */
  lemma SameListed(o: Os, t: Os, x: nat)
    requires Wf(o) && Wf(t) && Listed(o) && Budget(o) && t.slot == o.slot && t.sched.running == o.sched.running
    requires x < |o.procs| && |t.procs| == |o.procs| && t.procs == o.procs[x := t.procs[x]]
    requires t.procs[x].disp == o.procs[x].disp && t.procs[x].size == o.procs[x].size
    requires |t.place| == |o.place| && t.place == o.place[x := t.place[x]] && !t.place[x].Done? && !o.place[x].Done?
    ensures Listed(t) && Budget(t)
  {
    SumDispUpdate(o.procs, x, t.procs[x]);
    SumRoundsUpdate(o.procs, x, t.procs[x], o.slot);
    CountDoneUpdate(o.place, x, t.place[x]);
  }

  lemma YieldListed(o: Os, c: nat, x: nat)
    requires Wf(o) && Placed(o) && Listed(o) && Budget(o) && c < |o.cpus| && o.cpus[c].proc == Some(x)
    requires Wf(Yield(o, c, x))
    ensures Listed(Yield(o, c, x)) && Budget(Yield(o, c, x))
  {
    assert o.place[x] == OnCpu(c);
    SameListed(o, Yield(o, c, x), x);
  }

  lemma RunListed(o: Os, c: nat, x: nat)
    requires Wf(o) && Placed(o) && Listed(o) && Budget(o) && c < |o.cpus| && o.cpus[c].proc == Some(x)
    requires Wf(RunOne(o, c, x))
    ensures Listed(RunOne(o, c, x)) && Budget(RunOne(o, c, x))
  {
    assert o.place[x] == OnCpu(c);
    SameListed(o, RunOne(o, c, x), x);
  }

  lemma CpuListed(o: Os, c: nat)
    requires Wf(o) && Placed(o) && Progress(o) && Listed(o) && Budget(o) && Enabled(o, CpuStep(c)) && Wf(CpuNext(o, c))
    ensures Listed(CpuNext(o, c)) && Budget(CpuNext(o, c))
  {
    var cpu := o.cpus[c];
    if cpu.pc.Reget? || (cpu.pc.Top? && cpu.proc.None?) {
      GetListed(o, c, if cpu.pc == Reget(true) then 0 else cpu.left);
    } else if cpu.pc.Top? && o.procs[cpu.proc.value].pc == o.procs[cpu.proc.value].size {
      FinishListed(o, c, cpu.proc.value);
    } else if cpu.pc.Top? && cpu.left == 0 {
      YieldListed(o, c, cpu.proc.value);
    } else if cpu.pc.Check? && cpu.proc.Some? {
      RunListed(o, c, cpu.proc.value);
    }
  }

  lemma LoadListed(o: Os)
    requires Wf(o) && Placed(o) && Listed(o) && Budget(o) && Enabled(o, LoadStep) && Wf(LoadNext(o))
    ensures Listed(LoadNext(o)) && Budget(LoadNext(o))
  {
    if o.load.LoadTop? && o.loaded < |o.procs| && o.bar.time >= o.procs[o.loaded].start {
      AddListed(o);
    } else {
      LoadStays(o);
    }
  }

  lemma AddListed(o: Os)
    requires Wf(o) && Placed(o) && Listed(o) && Budget(o) && o.loaded < |o.procs| && Wf(Add(o))
    ensures Listed(Add(o)) && Budget(Add(o))
  {
    SameListed(o, Add(o), o.loaded);
  }

  lemma LoadStays(o: Os)
    requires Wf(o) && Enabled(o, LoadStep)
    requires !(o.load.LoadTop? && o.loaded < |o.procs| && o.bar.time >= o.procs[o.loaded].start)
    ensures var t := LoadNext(o); t.sched == o.sched && t.procs == o.procs && t.place == o.place && t.slot == o.slot
  {
  }

  lemma ListedStep(o: Os, e: Step)
    requires Wf(o) && Placed(o) && Progress(o) && Listed(o) && Budget(o) && Enabled(o, e) && Wf(Next(o, e))
    ensures Listed(Next(o, e)) && Budget(Next(o, e))
  {
    match e
    case CpuStep(c) => CpuListed(o, c);
    case BarStep(_) =>
    case LoadStep => LoadListed(o);
  }

  /** The search of __sys_memmap for the caller's pid succeeds for every process a CPU holds. */
  lemma HeldIsListed(o: Os, c: nat)
    requires Wf(o) && Placed(o) && Progress(o) && Listed(o) && c < |o.cpus| && o.cpus[c].proc.Some?
    ensures o.cpus[c].proc.value in o.sched.running
  {
    var x := o.cpus[c].proc.value;
    assert o.place[x] == OnCpu(c) && ProcInv(o, x);
    assert multiset(o.sched.running)[x] >= 1;
  }
}
