/** The time-slot barrier of src/timer.c as a step system.  One step is one critical section: an
    acquisition of a lock up to its release, or up to the wait that gives it up. */
module Barrier {

  /** Working: between two next_slot calls.  Waiting: posted `done`, about to test it under
      timer_lock.  Asleep: blocked on timer_cond.  Detached: past detach_event. */
  datatype Pc = Working | Waiting | Asleep | Detached

  /** `calls` counts completed next_slot calls. */
  datatype Device = Device(done: bool, fsh: bool, pc: Pc, calls: nat)

  /** The timer thread.  Collect(i): about to test device i under its event_lock (all of them
      collected when i is the number of devices).  Blocked(i): waiting on device i's event_cond.
      Release(i): about to clear device i's `done`. */
  datatype Timer = Top | Collect(i: nat) | Blocked(i: nat) | Release(i: nat) | Exited

  /** `fsh` counts the finished devices seen in this round; `stop` is timer_stop. */
  datatype State = State(devs: seq<Device>, time: nat, timer: Timer, fsh: nat, stop: bool)

  /** attach_event for every device, then start_timer */
  function Start(n: nat): State {
    State(seq(n, _ => Device(false, false, Working, 0)), 0, Top, 0, false)
  }

  datatype Step =
    | Tick                 // the timer thread's next critical section
    | Arrive(d: nat)       // next_slot up to the first unlock
    | Recheck(d: nat)      // one evaluation of next_slot's wait loop
    | Detach(d: nat)       // detach_event
    | WakeDevice(d: nat)   // spurious wakeup of a device
    | WakeTimer            // spurious wakeup of the timer
    | Stop                 // stop_timer, called once every thread has finished

  predicate AllDetached(s: State) {
    forall d :: 0 <= d < |s.devs| ==> s.devs[d].pc.Detached?
  }

  predicate Enabled(s: State, e: Step) {
    match e
    case Tick => !s.timer.Blocked? && !s.timer.Exited?
    case Arrive(d) => d < |s.devs| && s.devs[d].pc.Working?
    case Recheck(d) => d < |s.devs| && s.devs[d].pc.Waiting?
    case Detach(d) => d < |s.devs| && s.devs[d].pc.Working?
    case WakeDevice(d) => d < |s.devs| && s.devs[d].pc.Asleep?
    case WakeTimer => s.timer.Blocked?
    case Stop => AllDetached(s)
  }

  /** pthread_cond_signal(event_cond) of device d */
  function SignalTimer(t: Timer, d: nat): Timer { if t == Blocked(d) then Collect(d) else t }

  function TimerStep(s: State): State
    requires Enabled(s, Tick)
  {
    match s.timer
    case Top => if s.stop then s.(timer := Exited) else s.(timer := Collect(0), fsh := 0)
    case Collect(i) =>
      if i >= |s.devs| then s.(time := s.time + 1, timer := Release(0))
      else if !s.devs[i].done && !s.devs[i].fsh then s.(timer := Blocked(i))
      else s.(timer := Collect(i + 1), fsh := s.fsh + if s.devs[i].fsh then 1 else 0)
    case Release(i) =>
      if i >= |s.devs| then s.(timer := if s.fsh == |s.devs| then Exited else Top)
      else
        var dev := s.devs[i];
        var pc := if dev.pc.Asleep? then Waiting else dev.pc;
        s.(devs := s.devs[i := dev.(done := false, pc := pc)], timer := Release(i + 1))
  }

  function Next(s: State, e: Step): State
    requires Enabled(s, e)
  {
    match e
    case Tick => TimerStep(s)
    case Arrive(d) =>
      s.(devs := s.devs[d := s.devs[d].(done := true, pc := Waiting)], timer := SignalTimer(s.timer, d))
    case Recheck(d) =>
      var dev := s.devs[d];
      s.(devs := s.devs[d := if dev.done then dev.(pc := Asleep) else dev.(pc := Working, calls := dev.calls + 1)])
    case Detach(d) =>
      s.(devs := s.devs[d := s.devs[d].(fsh := true, pc := Detached)], timer := SignalTimer(s.timer, d))
    case WakeDevice(d) => s.(devs := s.devs[d := s.devs[d].(pc := Waiting)])
    case WakeTimer => s.(timer := Collect(s.timer.i))
    case Stop => s.(stop := true)
  }

  // ----- The invariant

  /** Device d is still to be released in the current round. */
  predicate Behind(s: State, d: nat) { s.timer.Release? && s.timer.i <= d }

  /** Device d has been tested in the current round. */
  predicate Collected(s: State, d: nat) { (s.timer.Collect? || s.timer.Blocked?) && d < s.timer.i }

  ghost predicate DeviceInv(s: State, d: nat)
    requires d < |s.devs|
  {
    var dev := s.devs[d];
    && (dev.fsh <==> dev.pc.Detached?)
    && (dev.pc.Asleep? ==> dev.done)
    && (Collected(s, d) || Behind(s, d) ==> dev.done || dev.fsh)
    && match dev.pc
       case Working => !dev.done && dev.calls == s.time
       case Detached => !dev.done && dev.calls <= s.time
       case _ => dev.calls + (if dev.done && !Behind(s, d) then 0 else 1) == s.time
  }

  function CountFsh(devs: seq<Device>, n: nat): nat
    requires n <= |devs|
  {
    if n == 0 then 0 else CountFsh(devs, n - 1) + if devs[n - 1].fsh then 1 else 0
  }

  ghost predicate TimerInv(s: State) {
    match s.timer
    case Top => true
    case Collect(i) => i <= |s.devs| && s.fsh == CountFsh(s.devs, i)
    case Blocked(i) => i < |s.devs| && s.fsh == CountFsh(s.devs, i) && !s.devs[i].done && !s.devs[i].fsh
    case Release(i) => i <= |s.devs| && s.fsh <= CountFsh(s.devs, |s.devs|)
    case Exited => AllDetached(s)
  }

  ghost predicate Inv(s: State) {
    && (forall d :: 0 <= d < |s.devs| ==> DeviceInv(s, d))
    && TimerInv(s)
    && (s.stop ==> AllDetached(s))
  }

  lemma {:induction false} CountGrows(a: seq<Device>, b: seq<Device>, n: nat)
    requires n <= |a| == |b| && forall i :: 0 <= i < n && a[i].fsh ==> b[i].fsh
    ensures CountFsh(a, n) <= CountFsh(b, n)
  {
    if n == 0 {
    } else {
      CountGrows(a, b, n - 1);
    }
  }

  /** A device already counted in this round cannot detach before it is let go. */
  lemma {:induction false} CountSame(a: seq<Device>, b: seq<Device>, n: nat)
    requires n <= |a| == |b| && forall i :: 0 <= i < n ==> (a[i].fsh <==> b[i].fsh)
    ensures CountFsh(a, n) == CountFsh(b, n)
  {
    if n == 0 {
    } else {
      CountSame(a, b, n - 1);
    }
  }

  lemma {:induction false} CountAll(devs: seq<Device>, n: nat)
    requires n <= |devs|
    ensures CountFsh(devs, n) <= n
    ensures CountFsh(devs, n) == n <==> forall i :: 0 <= i < n ==> devs[i].fsh
  {
    if n == 0 {
    } else {
      CountAll(devs, n - 1);
    }
  }

  lemma TickDevices(s: State)
    requires Inv(s) && Enabled(s, Tick)
    ensures forall d :: 0 <= d < |Next(s, Tick).devs| ==> DeviceInv(Next(s, Tick), d)
  {
    var t := Next(s, Tick);
    forall d | 0 <= d < |t.devs| ensures DeviceInv(t, d) {
      assert DeviceInv(s, d);
    }
  }

  lemma TickInv(s: State)
    requires Inv(s) && Enabled(s, Tick)
    ensures Inv(Next(s, Tick))
  {
    var t := Next(s, Tick);
    TickDevices(s);
    if s.timer.Release? {
      CountGrows(s.devs, t.devs, |s.devs|);
      CountAll(s.devs, |s.devs|);
      forall d | 0 <= d < |s.devs| ensures s.devs[d].fsh ==> s.devs[d].pc.Detached? {
        assert DeviceInv(s, d);
      }
    }
  }

  lemma DeviceStepInv(s: State, e: Step)
    requires Inv(s) && Enabled(s, e) && !e.Tick? && !e.WakeTimer? && !e.Stop?
    ensures Inv(Next(s, e))
  {
    var t := Next(s, e);
    forall d | 0 <= d < |t.devs| ensures DeviceInv(t, d) {
      assert DeviceInv(s, d);
    }
    if s.timer.Collect? || s.timer.Blocked? {
      forall d | 0 <= d < s.timer.i ensures t.devs[d].fsh <==> s.devs[d].fsh {
        assert DeviceInv(s, d) && Collected(s, d);
      }
      CountSame(s.devs, t.devs, s.timer.i);
    }
    if s.timer.Release? { CountGrows(s.devs, t.devs, |s.devs|); }
  }

  lemma StepInv(s: State, e: Step)
    requires Inv(s) && Enabled(s, e)
    ensures Inv(Next(s, e))
  {
    var t := Next(s, e);
    match e
    case Tick => TickInv(s);
    case WakeTimer =>
      forall d | 0 <= d < |t.devs| ensures DeviceInv(t, d) { assert DeviceInv(s, d); }
    case Stop =>
      forall d | 0 <= d < |t.devs| ensures DeviceInv(t, d) { assert DeviceInv(s, d); }
    case _ => DeviceStepInv(s, e);
  }

  // ----- Runs: every interleaving of the threads

  ghost predicate Legal(s: State, es: seq<Step>)
    decreases |es|
  {
    es == [] || (Enabled(s, es[0]) && Legal(Next(s, es[0]), es[1..]))
  }

  ghost function Run(s: State, es: seq<Step>): State
    requires Legal(s, es)
    decreases |es|
  {
    if es == [] then s else Run(Next(s, es[0]), es[1..])
  }

  lemma {:induction false} RunInv(s: State, es: seq<Step>)
    requires Inv(s) && Legal(s, es)
    ensures Inv(Run(s, es)) && |Run(s, es).devs| == |s.devs|
    decreases |es|
  {
    if es == [] {
    } else {
      StepInv(s, es[0]);
      RunInv(Next(s, es[0]), es[1..]);
    }
  }

  lemma StartInv(n: nat)
    ensures Inv(Start(n))
  {
  }

  // ----- Safety

  /** Lock-step: in every reachable state of every interleaving, a device that is running its slot
      has completed exactly `time` calls, any other live one is at most one call behind. */
  lemma LockStep(n: nat, es: seq<Step>, d: nat)
    requires Legal(Start(n), es) && d < n
    ensures var s := Run(Start(n), es);
      && |s.devs| == n
      && (s.devs[d].pc.Working? ==> s.devs[d].calls == s.time)
      && (!s.devs[d].pc.Detached? ==> s.devs[d].calls <= s.time <= s.devs[d].calls + 1)
  {
    StartInv(n);
    RunInv(Start(n), es);
    assert DeviceInv(Run(Start(n), es), d);
  }

  /** Time only advances, by one, when every unfinished device has arrived; while one is running its
      slot no step of any thread changes the time. */
  lemma TimeStands(s: State, e: Step)
    requires Inv(s) && Enabled(s, e)
    ensures s.time <= Next(s, e).time <= s.time + 1
    ensures Next(s, e).time != s.time ==>
      forall d :: 0 <= d < |s.devs| ==> s.devs[d].pc.Detached? || (s.devs[d].done && !s.devs[d].pc.Working?)
  {
    forall d | 0 <= d < |s.devs| && Next(s, e).time != s.time
      ensures s.devs[d].pc.Detached? || (s.devs[d].done && !s.devs[d].pc.Working?)
    {
      assert DeviceInv(s, d);
    }
  }

  /** Before stop_timer the timer thread ends only when every device has detached (and after it,
      they had). */
  lemma TimerExit(n: nat, es: seq<Step>)
    requires Legal(Start(n), es) && Run(Start(n), es).timer.Exited?
    ensures AllDetached(Run(Start(n), es))
  {
    StartInv(n);
    RunInv(Start(n), es);
  }

  // ----- Progress

  /** No deadlock and no lost wakeup.  The timer is blocked only on a device that has neither
      arrived nor detached, and whose own next step is enabled; a device is asleep only while the
      timer, which is still running, has its `done` flag to clear. */
  lemma NoLostWakeup(s: State, d: nat)
    requires Inv(s) && d < |s.devs|
    ensures s.timer == Blocked(d) ==>
      s.devs[d].pc.Working? || (s.devs[d].pc.Waiting? && Next(s, Recheck(d)).devs[d].pc.Working?)
    ensures s.devs[d].pc.Asleep? ==> s.devs[d].done && !s.timer.Exited?
    ensures s.timer.Exited? || s.timer.Blocked? || Enabled(s, Tick)
  {
    assert DeviceInv(s, d);
  }

  /** A spurious wakeup makes a thread test its condition again, and the test puts it back to sleep with
      nothing changed. */
  lemma SpuriousWakeup(s: State, d: nat)
    requires Inv(s) && d < |s.devs|
    ensures s.devs[d].pc.Asleep? ==>
      var t := Next(s, WakeDevice(d)); t.devs[d].pc.Waiting? && t.timer == s.timer && Next(t, Recheck(d)) == s
    ensures s.timer == Blocked(d) ==>
      var t := Next(s, WakeTimer); t.timer == Collect(d) && t.devs == s.devs && Next(t, Tick) == s
  {
    assert DeviceInv(s, d);
  }

  /** Every device has arrived or detached. */
  ghost predicate AllArrived(s: State) {
    forall d :: 0 <= d < |s.devs| ==> s.devs[d].done || s.devs[d].fsh
  }

  /** Timer steps left until the tick, once all have arrived; and until the timer has then released
      everybody. */
  function ToTick(s: State): nat {
    match s.timer
    case Top => |s.devs| + 2
    case Collect(i) => if i <= |s.devs| then |s.devs| - i + 1 else 1
    case _ => 0
  }

  function Ticks(es: seq<Step>): nat {
    if es == [] then 0 else (if es[0].Tick? then 1 else 0) + Ticks(es[1..])
  }

  lemma {:induction false} TimeGrows(s: State, es: seq<Step>)
    requires Inv(s) && Legal(s, es)
    ensures s.time <= Run(s, es).time
    decreases |es|
  {
    if es == [] {
    } else {
      StepInv(s, es[0]);
      TimeStands(s, es[0]);
      TimeGrows(Next(s, es[0]), es[1..]);
    }
  }

  lemma ArrivedStep(s: State, e: Step)
    requires Inv(s) && Enabled(s, e) && AllArrived(s) && (s.timer.Top? || s.timer.Collect?) && !s.stop && !e.Stop?
    ensures var t := Next(s, e);
      && |t.devs| == |s.devs|
      && (t.time == s.time ==> AllArrived(t) && (t.timer.Top? || t.timer.Collect?) && !t.stop)
      && (e.Tick? && t.time == s.time ==> ToTick(t) < ToTick(s))
      && (!e.Tick? ==> t.time == s.time && ToTick(t) == ToTick(s))
  {
    forall d | 0 <= d < |s.devs| ensures DeviceInv(s, d) {}
  }

  /** Bounded rounds.  Once all devices have arrived or detached, n + 2 steps of the timer thread,
      however interleaved with the devices', bring the tick. */
  lemma {:induction false} RoundBound(s: State, es: seq<Step>)
    requires Inv(s) && Legal(s, es) && AllArrived(s) && (s.timer.Top? || s.timer.Collect?)
    requires !s.stop && (forall i :: 0 <= i < |es| ==> !es[i].Stop?)
    requires Ticks(es) >= ToTick(s)
    ensures ToTick(s) <= |s.devs| + 2
    ensures Run(s, es).time > s.time
    decreases |es|
  {
    var t := Next(s, es[0]);
    StepInv(s, es[0]);
    ArrivedStep(s, es[0]);
    TimeStands(s, es[0]);
    if t.time == s.time {
      RoundBound(t, es[1..]);
    } else {
      TimeGrows(t, es[1..]);
    }
  }

  /** Timer steps left in the releasing half of a round. */
  function ToRelease(s: State): nat {
    if s.timer.Release? && s.timer.i <= |s.devs| then |s.devs| - s.timer.i + 1 else 0
  }

  /** In this round device d has been let go: its flag is clear and it is not asleep. */
  ghost predicate LetGo(s: State, d: nat) {
    d < |s.devs| && s.timer.Release? && s.timer.i > d && !s.devs[d].done && !s.devs[d].pc.Asleep?
  }

  /** At some moment of the run device d has been let go at a time later than `after`. */
  ghost predicate LetGoDuring(s: State, es: seq<Step>, d: nat, after: nat) {
    exists k :: 0 <= k <= |es| && Legal(s, es[..k]) && LetGo(Run(s, es[..k]), d) && Run(s, es[..k]).time > after
  }

  lemma LetGoLater(s: State, es: seq<Step>, d: nat, after: nat)
    requires es != [] && Enabled(s, es[0]) && LetGoDuring(Next(s, es[0]), es[1..], d, after)
    ensures LetGoDuring(s, es, d, after)
  {
    var t := Next(s, es[0]);
    var k :| 0 <= k <= |es[1..]| && Legal(t, es[1..][..k])
             && LetGo(Run(t, es[1..][..k]), d) && Run(t, es[1..][..k]).time > after;
    assert es[..k + 1][1..] == es[1..][..k];
    assert Legal(s, es[..k + 1]);
  }

  lemma LetGoNow(s: State, es: seq<Step>, d: nat, after: nat)
    requires LetGo(s, d) && s.time > after
    ensures LetGoDuring(s, es, d, after)
  {
    assert es[..0] == [];
    assert Legal(s, es[..0]) && LetGo(Run(s, es[..0]), d);
  }

  /** After the tick the timer never blocks: within n + 1 of its steps it lets go of device d. */
  lemma {:induction false} ReleaseBound(s: State, es: seq<Step>, d: nat, after: nat)
    requires Inv(s) && Legal(s, es) && s.timer.Release? && d < |s.devs| && Behind(s, d) && s.time > after
    requires Ticks(es) >= ToRelease(s)
    ensures ToRelease(s) <= |s.devs| + 1
    ensures LetGoDuring(s, es, d, after)
    decreases |es|
  {
    var t := Next(s, es[0]);
    StepInv(s, es[0]);
    if es[0] == Tick && s.timer == Release(d) {
      LetGoNow(t, es[1..], d, after);
    } else {
      assert DeviceInv(s, d);
      ReleaseBound(t, es[1..], d, after);
    }
    LetGoLater(s, es, d, after);
  }

  /** One whole round: once all devices have arrived or detached, 2n + 3 steps of the timer thread,
      however interleaved with the devices', bring the tick and let go of every device d. */
  lemma {:induction false} WholeRound(s: State, es: seq<Step>, d: nat)
    requires Inv(s) && Legal(s, es) && AllArrived(s) && (s.timer.Top? || s.timer.Collect?) && d < |s.devs|
    requires !s.stop && (forall i :: 0 <= i < |es| ==> !es[i].Stop?)
    requires Ticks(es) >= ToTick(s) + |s.devs| + 1
    ensures ToTick(s) + |s.devs| + 1 <= 2 * |s.devs| + 3
    ensures LetGoDuring(s, es, d, s.time)
    decreases |es|
  {
    var t := Next(s, es[0]);
    StepInv(s, es[0]);
    ArrivedStep(s, es[0]);
    TimeStands(s, es[0]);
    if t.time == s.time {
      WholeRound(t, es[1..], d);
    } else {
      ReleaseBound(t, es[1..], d, s.time);
    }
    LetGoLater(s, es, d, s.time);
  }

  /** The timer has counted every device as finished: it releases them and ends. */
  predicate FinalRound(s: State) { s.timer.Exited? || (s.timer.Release? && s.fsh == |s.devs|) }

  /** No step leaves the final round, and none of it is a tick. */
  lemma FinalStep(s: State, e: Step)
    requires Inv(s) && Enabled(s, e) && FinalRound(s)
    ensures FinalRound(Next(s, e)) && Next(s, e).time == s.time
  {
    CountAll(s.devs, |s.devs|);
    forall d | 0 <= d < |s.devs| ensures s.devs[d].pc.Detached? { assert DeviceInv(s, d); }
  }

  /** A tick with every device detached begins the final round. */
  lemma LastTick(s: State, e: Step)
    requires Inv(s) && Enabled(s, e) && AllDetached(Next(s, e)) && Next(s, e).time > s.time
    ensures FinalRound(Next(s, e))
  {
    forall d | 0 <= d < |s.devs| ensures s.devs[d].fsh { assert DeviceInv(s, d); }
    CountAll(s.devs, |s.devs|);
  }

  /** Timer steps left once every device has detached: the rest of this round, and the round that counts
      them all if this one was begun too early for that and no stop_timer came in time to prevent it. */
  function ToExit(s: State): nat {
    var another := if s.stop then 1 else 2 * |s.devs| + 3;
    match s.timer
    case Top => another
    case Collect(i) => if i <= |s.devs| then 2 * |s.devs| + 2 - i else 0
    case Release(i) => if i <= |s.devs| then |s.devs| + 1 - i + (if s.fsh == |s.devs| then 0 else another) else 0
    case _ => 0
  }

  /** Once all devices are detached the timer is never blocked, and a round that begins then counts
      them all.  Its steps are the only ones that bring the end nearer, but for a stop_timer. */
  lemma DetachedStep(s: State, e: Step)
    requires Inv(s) && AllDetached(s) && Enabled(s, e)
    ensures var t := Next(s, e); AllDetached(t) && |t.devs| == |s.devs| && !s.timer.Blocked?
    ensures ToExit(Next(s, e)) + (if e.Tick? then 1 else 0) <= ToExit(s)
    ensures Next(s, e).stop == s.stop ==> ToExit(Next(s, e)) + (if e.Tick? then 1 else 0) == ToExit(s)
    ensures Next(s, e).stop <==> s.stop || e.Stop?
    ensures s.timer.Exited? ==> Next(s, e).timer.Exited?
    ensures Next(s, e).time > s.time ==> Next(s, e).fsh == |s.devs|
  {
    forall d | 0 <= d < |s.devs| ensures s.devs[d].fsh { assert DeviceInv(s, d); }
    if s.timer.Collect? { CountAll(s.devs, s.timer.i); }
  }

  /** Once all devices are detached the timer thread ends within 3n + 4 of its steps, wherever in its
      round it is; within 2n + 2 after stop_timer. */
  lemma {:induction false} ExitBound(s: State, es: seq<Step>)
    requires Inv(s) && AllDetached(s) && Legal(s, es) && Ticks(es) >= ToExit(s)
    ensures ToExit(s) <= 3 * |s.devs| + 4 && (s.stop ==> ToExit(s) <= 2 * |s.devs| + 2)
    ensures Run(s, es).timer.Exited?
    decreases |es|
  {
    if es == [] {
      DetachedNotBlocked(s);
    } else {
      StepInv(s, es[0]);
      DetachedStep(s, es[0]);
      ExitBound(Next(s, es[0]), es[1..]);
    }
  }

  /** The bound is exact: after as many timer steps the thread has ended, and not before.  (Once it has,
      it takes no more steps.)  So a round that was begun before the last device detached is followed by
      another one exactly when no stop_timer came before its end. */
  lemma {:induction false} ExitExactly(s: State, es: seq<Step>)
    requires Inv(s) && AllDetached(s) && Legal(s, es)
    requires s.stop || forall i :: 0 <= i < |es| ==> !es[i].Stop?
    ensures Ticks(es) <= ToExit(s)
    ensures Run(s, es).timer.Exited? <==> Ticks(es) == ToExit(s)
    decreases |es|
  {
    if es == [] {
      DetachedNotBlocked(s);
    } else {
      StepInv(s, es[0]);
      DetachedStep(s, es[0]);
      ExitExactly(Next(s, es[0]), es[1..]);
    }
  }

  // ----- stop_timer

  /** stop_timer sets the flag, for good, and leaves the timer, the devices and the time to their own
      steps. */
  lemma StopSets(s: State, e: Step)
    requires Enabled(s, e)
    ensures Next(s, e).stop <==> s.stop || e.Stop?
    ensures e.Stop? ==>
      var t := Next(s, e); t.devs == s.devs && t.time == s.time && t.timer == s.timer && t.fsh == s.fsh
  {
  }

  /** Ticks that a stopped timer still makes: that of the round it is collecting for. */
  function LastTicks(s: State): nat { if s.timer.Collect? then 1 else 0 }

  /** After stop_timer no step begins another round. */
  lemma StoppedStep(s: State, e: Step)
    requires Inv(s) && s.stop && Enabled(s, e)
    ensures var t := Next(s, e);
      && t.stop && t.time + LastTicks(t) == s.time + LastTicks(s)
      && (s.timer.Top? && e.Tick? ==> t.timer.Exited?)
      && (t.timer.Collect? ==> s.timer.Collect? && t.timer.i >= s.timer.i)
  {
    DetachedNotBlocked(s);
    forall d | 0 <= d < |s.devs| ensures s.devs[d].fsh { assert DeviceInv(s, d); }
  }

  /** Once stop_timer has been called no further round begins: the time moves on by at most the tick of
      the round being collected, by none from the top of the loop or the releasing half.  At the top the
      timer's next step ends the thread. */
  lemma {:induction false} StopEndsRounds(s: State, es: seq<Step>)
    requires Inv(s) && s.stop && Legal(s, es)
    ensures var t := Run(s, es);
      && t.time <= s.time + (if s.timer.Collect? then 1 else 0)
      && (s.timer.Top? && Ticks(es) > 0 ==> t.timer.Exited?)
      && t.time + LastTicks(t) == s.time + LastTicks(s)
    decreases |es|
  {
    if es == [] {
    } else {
      StepInv(s, es[0]);
      StoppedStep(s, es[0]);
      StopEndsRounds(Next(s, es[0]), es[1..]);
      if s.timer.Top? && es[0].Tick? { ExitedStays(Next(s, es[0]), es[1..]); }
    }
  }

  lemma {:induction false} ExitedStays(s: State, es: seq<Step>)
    requires s.timer.Exited? && Legal(s, es)
    ensures Run(s, es).timer.Exited?
    decreases |es|
  {
    if es == [] {
    } else {
      ExitedStays(Next(s, es[0]), es[1..]);
    }
  }

  lemma DetachedNotBlocked(s: State)
    requires Inv(s) && AllDetached(s)
    ensures !s.timer.Blocked?
  {
    assert s.timer.Blocked? ==> DeviceInv(s, s.timer.i);
  }
}
