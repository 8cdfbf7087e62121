/** Process exclusivity: every loaded process is in one ready-queue position, on one CPU, finished, or
    was dropped at a full queue. */
module OsPlaces {
  import opened Common
  import opened Os
  import M = Mlq

  /** The ready queues hold exactly the ready processes, each once, in the queue of its priority. */
  ghost predicate QueuesPlaced(o: Os)
    requires Wf(o)
  {
    && (forall q, x :: 0 <= q < M.MAX_PRIO && x in o.sched.queues[q] ==> o.place[x].Ready? && o.procs[x].prio == q)
    && (forall x :: 0 <= x < |o.place| && o.place[x].Ready? ==> x in o.sched.queues[o.procs[x].prio])
    && (forall q :: 0 <= q < M.MAX_PRIO ==> NoDup(o.sched.queues[q]) && |o.sched.queues[q]| <= M.MAX_QUEUE_SIZE)
  }

  /** A CPU holds a process exactly when the process is on that CPU. */
  ghost predicate CpusPlaced(o: Os)
    requires Wf(o)
  {
    && (forall c :: 0 <= c < |o.cpus| && o.cpus[c].proc.Some? ==> o.place[o.cpus[c].proc.value] == OnCpu(c))
    && (forall x :: 0 <= x < |o.place| && o.place[x].OnCpu? ==>
          o.place[x].c < |o.cpus| && o.cpus[o.place[x].c].proc == Some(x))
    && (forall c :: 0 <= c < |o.cpus| && (o.cpus[c].pc.Reget? || o.cpus[c].pc.Leaving? || o.cpus[c].pc.Stopped?) ==>
          o.cpus[c].proc.None?)
  }

  ghost predicate Placed(o: Os)
    requires Wf(o)
  {
    && (forall x :: 0 <= x < |o.place| ==> (o.place[x].Unloaded? <==> x >= o.loaded))
    && QueuesPlaced(o) && CpusPlaced(o)
  }

  /** Taking the head x of queue p. */
  lemma TakeHead(queues: seq<seq<nat>>, p: nat, q: nat, x: nat)
    requires p < |queues| && q < |queues| && queues[p] != [] && NoDup(queues[p])
    ensures var t := queues[p := queues[p][1..]];
      && NoDup(t[p])
      && (x in t[q] <==> x in queues[q] && !(q == p && x == queues[p][0]))
  {
    assert queues[p] == [queues[p][0]] + queues[p][1..];
    if x in queues[p][1..] {
      var i :| 0 < i < |queues[p]| && queues[p][i] == x;
    }
  }

  /** get_proc takes process x from the head of queue p. */
  lemma GetMembers(s: M.Sched) returns (p: nat, x: nat)
    requires M.Valid(s) && !M.Choose(s).Idle? && forall q :: 0 <= q < M.MAX_PRIO ==> NoDup(s.queues[q])
    ensures p < M.MAX_PRIO && x in s.queues[p] && M.Get(s).0 == Some(x)
    ensures Taken(s.queues, M.Get(s).1.queues, p, x)
  {
    M.GetShape(s);
    p := M.Choose(s).prio;
    x := s.queues[p][0];
    HeadTaken(s.queues, p, x);
  }

  /** The queues t are those of s without x in queue p, each still without duplicates. */
  ghost predicate Taken(s: seq<seq<nat>>, t: seq<seq<nat>>, p: nat, x: nat) {
    && |t| == |s|
    && (forall q, y :: 0 <= q < |s| ==> (y in t[q] <==> y in s[q] && !(q == p && y == x)))
    && (forall q :: 0 <= q < |s| ==> NoDup(t[q]) && |t[q]| <= |s[q]|)
  }

  lemma HeadTaken(s: seq<seq<nat>>, p: nat, x: nat)
    requires p < |s| && s[p] != [] && s[p][0] == x && forall q :: 0 <= q < |s| ==> NoDup(s[q])
    ensures Taken(s, s[p := s[p][1..]], p, x)
  {
    var t := s[p := s[p][1..]];
    forall q: nat, y: nat | q < |s|
      ensures NoDup(t[q]) && |t[q]| <= |s[q]| && (y in t[q] <==> y in s[q] && !(q == p && y == x))
    {
      TakeHead(s, p, q, y);
    }
  }

  lemma GetQueues(o: Os, c: nat, left: nat)
    requires Wf(o) && Placed(o) && c < |o.cpus| && !M.Choose(o.sched).Idle?
    ensures Wf(GetProc(o, c, left)) && QueuesPlaced(GetProc(o, c, left))
  {
    var p, x := GetMembers(o.sched);
    HeadReady(o, p, x);
    GetWf(o, c, left, p, x);
    GetTaken(o, c, left, p, x);
  }

  lemma HeadReady(o: Os, p: nat, x: nat)
    requires Wf(o) && QueuesPlaced(o) && p < M.MAX_PRIO && x in o.sched.queues[p]
    ensures x < |o.procs| && o.place[x].Ready? && o.procs[x].prio == p
  {
  }

  lemma GetTaken(o: Os, c: nat, left: nat, p: nat, x: nat)
    requires Wf(o) && QueuesPlaced(o) && c < |o.cpus| && p < M.MAX_PRIO && M.Get(o.sched).0 == Some(x) && x < |o.procs|
    requires o.place[x].Ready? && o.procs[x].prio == p && Wf(GetProc(o, c, left))
    requires Taken(o.sched.queues, M.Get(o.sched).1.queues, p, x)
    ensures QueuesPlaced(GetProc(o, c, left))
  {
    TakenPlaced(o, GetProc(o, c, left), p, x);
  }

  lemma GetWf(o: Os, c: nat, left: nat, p: nat, x: nat)
    requires Wf(o) && c < |o.cpus| && M.Get(o.sched).0 == Some(x) && x < |o.procs|
    requires Taken(o.sched.queues, M.Get(o.sched).1.queues, p, x)
    ensures var t := GetProc(o, c, left);
      && Wf(t) && t.sched == M.Get(o.sched).1 && t.place == o.place[x := OnCpu(c)]
      && forall y :: 0 <= y < |o.procs| ==> t.procs[y].prio == o.procs[y].prio
  {
  }

  /** Process x has left the head of queue p. */
  lemma TakenPlaced(o: Os, t: Os, p: nat, x: nat)
    requires Wf(o) && Wf(t) && QueuesPlaced(o) && |t.place| == |o.place| && x < |o.place| && p < M.MAX_PRIO
    requires o.place[x].Ready? && o.procs[x].prio == p && t.place[x].OnCpu?
    requires forall y :: 0 <= y < |o.place| && y != x ==> t.place[y] == o.place[y]
    requires forall y :: 0 <= y < |o.place| ==> t.procs[y].prio == o.procs[y].prio
    requires Taken(o.sched.queues, t.sched.queues, p, x)
    ensures QueuesPlaced(t)
  {
  }

  lemma GetCpus(o: Os, c: nat, left: nat)
    requires Wf(o) && Placed(o) && c < |o.cpus| && o.cpus[c].proc.None? && !M.Choose(o.sched).Idle?
    requires Wf(GetProc(o, c, left))
    ensures var t := GetProc(o, c, left);
      CpusPlaced(t) && forall x :: 0 <= x < |t.place| ==> (t.place[x].Unloaded? <==> o.place[x].Unloaded?)
  {
    M.GetShape(o.sched);
    var x := M.Get(o.sched).0.value;
    assert x in o.sched.queues[M.Choose(o.sched).prio];
    assert o.place[x].Ready?;
  }

  /** The effect of get_proc on everything but the scheduler's own data. */
  lemma GetProcShape(o: Os, c: nat, left: nat)
    requires Wf(o) && QueuesPlaced(o) && c < |o.cpus|
    ensures var (r, t) := (M.Get(o.sched).0, GetProc(o, c, left));
      && t.cpus == o.cpus[c := Cpu(Check, r, left)] && t.slot == o.slot && t.log == o.log
      && match r
         case None => t.place == o.place && t.procs == o.procs && t.sched == o.sched
         case Some(x) =>
           && x < |o.procs| && o.place[x].Ready? && t.place == o.place[x := OnCpu(c)]
           && t.procs == o.procs[x := o.procs[x].(disp := o.procs[x].disp + 1)]
           && t.sched.running == M.Enqueue(o.sched.running, x)
  {
    M.GetShape(o.sched);
    if !M.Choose(o.sched).Idle? {
      assert M.Get(o.sched).0.value in o.sched.queues[M.Choose(o.sched).prio];
    }
  }

  lemma GetPlaced(o: Os, c: nat, left: nat)
    requires Wf(o) && Placed(o) && c < |o.cpus| && o.cpus[c].proc.None?
    ensures Wf(GetProc(o, c, left)) && Placed(GetProc(o, c, left))
  {
    if M.Choose(o.sched).Idle? {
      KeepsPlaced(o, GetProc(o, c, left));
    } else {
      GetQueues(o, c, left);
      GetCpus(o, c, left);
    }
  }

  /** Steps that move no process. */
  lemma KeepsPlaced(o: Os, t: Os)
    requires Wf(o) && Placed(o)
    requires t.sched == o.sched && t.place == o.place && t.loaded == o.loaded && t.slot == o.slot
    requires |t.bar.devs| == |o.bar.devs| && |t.procs| == |o.procs| && |t.cpus| == |o.cpus|
    requires forall x :: 0 <= x < |o.procs| ==> t.procs[x].prio == o.procs[x].prio
    requires forall c :: 0 <= c < |o.cpus| ==> t.cpus[c].proc == o.cpus[c].proc
    requires forall c :: 0 <= c < |o.cpus| && (t.cpus[c].pc.Reget? || t.cpus[c].pc.Leaving? || t.cpus[c].pc.Stopped?) ==>
               t.cpus[c].proc.None?
    ensures Wf(t) && Placed(t)
  {
  }

  /** Joining the tail of a queue with room, or being dropped at a full one: the place records which. */
  lemma PutQueues(o: Os, x: nat)
    requires Wf(o) && QueuesPlaced(o) && x < |o.procs| && !o.place[x].Ready?
    ensures var p, s := o.procs[x].prio, M.Put(o.sched, o.procs[x].prio, x);
      && s.running == o.sched.running && s.slot == o.sched.slot
      && (forall q, y :: 0 <= q < M.MAX_PRIO ==>
            (y in s.queues[q] <==> y in o.sched.queues[q] || (y == x && q == p && Joins(o.sched, p).Ready?)))
      && (forall q :: 0 <= q < M.MAX_PRIO ==> NoDup(s.queues[q]) && |s.queues[q]| <= M.MAX_QUEUE_SIZE)
  {
  }

  lemma YieldPlaced(o: Os, c: nat, x: nat)
    requires Wf(o) && Placed(o) && c < |o.cpus| && o.cpus[c].proc == Some(x)
    ensures Wf(Yield(o, c, x)) && Placed(Yield(o, c, x))
  {
    assert o.place[x] == OnCpu(c);
    PutQueues(o, x);
    ReleasedCpus(o, Yield(o, c, x), c, x);
  }

  /** CPU c has let go of process x. */
  lemma ReleasedCpus(o: Os, t: Os, c: nat, x: nat)
    requires Wf(o) && Wf(t) && CpusPlaced(o) && c < |o.cpus| && o.cpus[c].proc == Some(x)
    requires |t.cpus| == |o.cpus| && t.cpus == o.cpus[c := t.cpus[c]] && t.cpus[c].proc.None?
    requires |t.place| == |o.place| && t.place == o.place[x := t.place[x]] && !t.place[x].OnCpu?
    ensures CpusPlaced(t)
  {
  }

  lemma FinishPlaced(o: Os, c: nat, x: nat)
    requires Wf(o) && Placed(o) && c < |o.cpus| && o.cpus[c].proc == Some(x)
    ensures Wf(Finish(o, c, x)) && Placed(Finish(o, c, x))
  {
    assert o.place[x] == OnCpu(c);
    ReleasedCpus(o, Finish(o, c, x), c, x);
  }

  lemma AddPlaced(o: Os)
    requires Wf(o) && Placed(o) && o.loaded < |o.procs|
    ensures Wf(Add(o)) && Placed(Add(o))
  {
    PutQueues(o, o.loaded);
  }

  lemma TopPlaced(o: Os, c: nat)
    requires Wf(o) && Placed(o) && c < |o.cpus| && o.cpus[c].pc.Top?
    ensures Wf(CpuNext(o, c)) && Placed(CpuNext(o, c))
  {
    var cpu := o.cpus[c];
    if cpu.proc.None? {
      GetPlaced(o, c, cpu.left);
    } else if o.procs[cpu.proc.value].pc == o.procs[cpu.proc.value].size {
      FinishPlaced(o, c, cpu.proc.value);
    } else if cpu.left == 0 {
      YieldPlaced(o, c, cpu.proc.value);
    } else {
      KeepsPlaced(o, CpuNext(o, c));
    }
  }

  lemma CpuPlaced(o: Os, c: nat)
    requires Wf(o) && Placed(o) && Enabled(o, CpuStep(c))
    ensures Wf(CpuNext(o, c)) && Placed(CpuNext(o, c))
  {
    var pc := o.cpus[c].pc;
    if pc.Top? {
      TopPlaced(o, c);
    } else if pc.Reget? {
      GetPlaced(o, c, if pc.finished then 0 else o.cpus[c].left);
    } else {
      KeepsPlaced(o, CpuNext(o, c));
    }
  }

  lemma LoadPlaced(o: Os)
    requires Wf(o) && Placed(o) && Enabled(o, LoadStep)
    ensures Wf(LoadNext(o)) && Placed(LoadNext(o))
  {
    if o.load.LoadTop? && o.loaded < |o.procs| && o.bar.time >= o.procs[o.loaded].start {
      AddPlaced(o);
    } else {
      KeepsPlaced(o, LoadNext(o));
    }
  }

  lemma PlacedStep(o: Os, e: Step)
    requires Wf(o) && Placed(o) && Enabled(o, e)
    ensures Wf(Next(o, e)) && Placed(Next(o, e))
  {
    match e
    case CpuStep(c) => CpuPlaced(o, c);
    case LoadStep => LoadPlaced(o);
    case BarStep(b) =>
      BarrierFrame(o.bar, b);
      KeepsPlaced(o, Next(o, e));
  }

  lemma InitPlaced(cpus: nat, procs: seq<Proc>, slot: nat)
    requires Config(cpus, procs, slot)
    ensures Wf(Init(cpus, procs, slot)) && Placed(Init(cpus, procs, slot))
  {
  }
}
