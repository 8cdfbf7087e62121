/** Whole runs of memory instructions by any number of processes. */
module PagingRuns {
  import opened Common
  import opened Memphy
  import opened Pte
  import opened Paging
  import opened PagingSystem
  import opened PagingSteps
  import S = Space

  /** Devices whose frame numbers fit the entries. */
  predicate Configured(ram: seq<Byte>, swp: seq<Byte>) {
    |ram| / PAGESZ <= MAX_FPN && |swp| / PAGESZ <= MAX_SWPOFF
  }

  /** Freshly formatted devices, no process. */
  function Boot(ram: seq<Byte>, swp: seq<Byte>): (s: Sys)
    requires Configured(ram, swp)
    ensures Inv(s) && Conserved(s)
  {
    AllFramesFree(Dev(ram, AllFrames(|ram| / PAGESZ)));
    AllFramesFree(Dev(swp, AllFrames(|swp| / PAGESZ)));
    Sys(map[], Dev(ram, AllFrames(|ram| / PAGESZ)), Dev(swp, AllFrames(|swp| / PAGESZ)))
  }

  lemma AllFramesFree(d: Dev)
    requires d.free == AllFrames(d.Frames())
    ensures DevOk(d) && forall f: nat :: f < d.Frames() ==> f in d.free
  {
    forall f: nat | f < d.Frames() ensures f in d.free { assert d.free[f] == f; }
  }

  // ----- Runs and what they may be asked to respect

  ghost predicate Legal(test: Test, s: Sys, ops: seq<Op>)
    decreases |ops|, 0
  {
    ops == [] || (Legal(test, s, ops[..|ops| - 1]) && Allowed(State(test, s, ops[..|ops| - 1]), ops[|ops| - 1]))
  }

  ghost function State(test: Test, s: Sys, ops: seq<Op>): Sys
    requires Legal(test, s, ops)
    decreases |ops|, 1
  {
    if ops == [] then s else Step(test, State(test, s, ops[..|ops| - 1]), ops[|ops| - 1]).0
  }

  ghost function Trace(test: Test, s: Sys, ops: seq<Op>): (r: seq<Event>)
    requires Legal(test, s, ops)
    ensures |r| == |ops|
    decreases |ops|
  {
    if ops == [] then []
    else
      var init := ops[..|ops| - 1];
      Trace(test, s, init) + [Step(test, State(test, s, init), ops[|ops| - 1]).1]
  }

  /** Conditions on one instruction in the state it starts from.  InRegion is about the program alone:
      accesses stay inside their regions, allocations are free.  BreakOnBus and OnBus keep accesses
      within the 22 address bits that PAGING_PGN looks at. */
  datatype Guard = Unqueued | Harmless | Clean | WithFrames | NotSwapped | InRegion | BreakOnBus | OnBus

  ghost predicate Obeys(g: Guard, s: Sys, op: Op)
    requires Ready(s, op)
  {
    match g
    case Unqueued => Orderly(s, op)
    case Harmless => op.Alloc? ==> HarmlessGrowth(s, op.pid, op.size)
    case Clean => op.Alloc? ==> CleanGrowth(s, op.pid, op.size)
    case WithFrames => op.Alloc? ==> Served(s, op.pid, op.size)
    case NotSwapped => op.Read? || op.Write? ==> !SlotAt(s, op.pid, PageOf(s, op)).Swapped?
    case InRegion => op.Read? || op.Write? ==>
      var rg := s.mms[op.pid].space.sym[op.rgid]; rg.start + op.offset < rg.end
    case BreakOnBus => op.Read? || op.Write? ==> s.mms[op.pid].space.sbrk <= BUS_SPACE
    case OnBus => op.Read? || op.Write? ==> s.mms[op.pid].space.sym[op.rgid].start + op.offset < BUS_SPACE
  }

  ghost predicate Throughout(g: Guard, test: Test, s: Sys, ops: seq<Op>)
    requires Legal(test, s, ops)
    decreases |ops|
  {
    ops == [] ||
    (Throughout(g, test, s, ops[..|ops| - 1]) && Obeys(g, State(test, s, ops[..|ops| - 1]), ops[|ops| - 1]))
  }

  lemma {:induction false} RunInv(test: Test, s: Sys, ops: seq<Op>)
    requires Inv(s) && Legal(test, s, ops) && Throughout(Unqueued, test, s, ops)
    ensures Inv(State(test, s, ops))
    decreases |ops|
  {
    if ops == [] {
    } else {
      var init := ops[..|ops| - 1];
      RunInv(test, s, init);
      StepInv(test, State(test, s, init), ops[|ops| - 1]);
    }
  }

  lemma {:induction false} HarmlessRun(test: Test, s: Sys, ops: seq<Op>)
    requires Legal(test, s, ops) && Throughout(Harmless, test, s, ops)
    ensures Throughout(Unqueued, test, s, ops)
    decreases |ops|
  {
    if ops == [] {
    } else {
      HarmlessRun(test, s, ops[..|ops| - 1]);
    }
  }

  lemma {:induction false} CleanRun(test: Test, s: Sys, ops: seq<Op>)
    requires Inv(s) && Legal(test, s, ops) && Throughout(Clean, test, s, ops)
    ensures Throughout(Harmless, test, s, ops) && Throughout(Unqueued, test, s, ops)
    decreases |ops|
  {
    if ops == [] {
    } else {
      var init, op := ops[..|ops| - 1], ops[|ops| - 1];
      CleanRun(test, s, init);
      RunInv(test, s, init);
      if op.Alloc? { CleanIsHarmless(State(test, s, init), op.pid, op.size); }
    }
  }

  /** Frame exclusivity over whole runs from boot, by either test: if no growth of the run maps a
      queued page, no RAM or swap frame backs two pages, none that backs a page is free, the free
      lists stay duplicate-free and in range, and queued pages are resident and queued once. */
  lemma RunExclusive(test: Test, ram: seq<Byte>, swp: seq<Byte>, ops: seq<Op>)
    requires Configured(ram, swp) && Legal(test, Boot(ram, swp), ops) && Throughout(Unqueued, test, Boot(ram, swp), ops)
    ensures var t := State(test, Boot(ram, swp), ops);
      && Exclusive(t) && FreeUnused(t) && DevOk(t.ram) && DevOk(t.swp) && Addressable(t.ram, t.swp)
      && (forall p :: p in t.mms ==> Local(t.mms[p], t.ram, t.swp))
  {
    RunInv(test, Boot(ram, swp), ops);
  }

  /** Exact frame conservation over whole runs whose growths all find frames and map only unmapped
      pages. */
  lemma {:induction false} RunConserves(test: Test, s: Sys, ops: seq<Op>)
    requires Inv(s) && Conserved(s) && Legal(test, s, ops)
    requires Throughout(Clean, test, s, ops) && Throughout(WithFrames, test, s, ops)
    ensures Conserved(State(test, s, ops))
    decreases |ops|
  {
    if ops == [] {
    } else {
      var init := ops[..|ops| - 1];
      RunConserves(test, s, init);
      CleanRun(test, s, init);
      RunInv(test, s, init);
      StepConserves(test, State(test, s, init), ops[|ops| - 1]);
    }
  }

  // ----- Swap transparency

  /** The last byte process p wrote at (page, offset). */
  function LastWritten(trace: seq<Event>, p: nat, n: nat, o: nat): Option<Byte> {
    if trace == [] then None
    else match trace[|trace| - 1]
      case Wrote(q, m, i, b) =>
        if q == p && m == n && i == o then Some(b) else LastWritten(trace[..|trace| - 1], p, n, o)
      case _ => LastWritten(trace[..|trace| - 1], p, n, o)
  }

  ghost predicate SeesLastWrite(past: seq<Event>, e: Event) {
    e.Got? && LastWritten(past, e.pid, e.pgn, e.off).Some? ==>
      e.data == LastWritten(past, e.pid, e.pgn, e.off).value
  }

  /** Memory holds the last byte written at every address. */
  ghost predicate Agree(s: Sys, trace: seq<Event>) {
    forall p: nat, n: nat, o: nat :: LastWritten(trace, p, n, o).Some? ==>
      && !SlotAt(s, p, n).Unmapped? && o < |Contents(s, p, n)|
      && Contents(s, p, n)[o] == LastWritten(trace, p, n, o).value
  }

  lemma AgreeQuiet(s: Sys, t: Sys, trace: seq<Event>, e: Event)
    requires KeepsContents(s, t) && Agree(s, trace) && !e.Wrote?
    ensures Agree(t, trace + [e])
  {
    assert (trace + [e])[..|trace|] == trace;
    forall p: nat, n: nat, o: nat ensures LastWritten(trace + [e], p, n, o) == LastWritten(trace, p, n, o) {}
  }

  /** The test finds the page of an access where it is. */
  ghost predicate Told(test: Test, s: Sys, op: Op)
    requires Ready(s, op)
  {
    test.Documented? || Obeys(NotSwapped, s, op)
  }

  lemma ReadAgrees(test: Test, s: Sys, op: Op, trace: seq<Event>)
    requires Inv(s) && op.Read? && Allowed(s, op) && Told(test, s, op) && Agree(s, trace)
    ensures var (t, e) := Step(test, s, op); Agree(t, trace + [e]) && SeesLastWrite(trace, e)
  {
    var fpn, n, o, u := AccessShape(test, s, op);
    ReadSees(s, u, trace, op, n, o, fpn, Step(test, s, op));
  }

  lemma ReadSees(s: Sys, u: Sys, trace: seq<Event>, op: Op, n: nat, o: nat, fpn: Option<nat>, te: (Sys, Event))
    requires op.Read? && Agree(s, trace) && KeepsContents(s, u) && Outcome(op, u, fpn, n, o, te)
    ensures Agree(te.0, trace + [te.1]) && SeesLastWrite(trace, te.1)
  {
    AgreeQuiet(s, u, trace, te.1);
    if fpn.Some? && LastWritten(trace, op.pid, n, o).Some? {
      assert Contents(u, op.pid, n) == Contents(s, op.pid, n);
      assert Contents(u, op.pid, n)[o] == u.ram.storage[fpn.value * PAGESZ + o];
    }
  }

  lemma WriteAgrees(test: Test, s: Sys, op: Op, trace: seq<Event>)
    requires Inv(s) && op.Write? && Allowed(s, op) && Told(test, s, op) && Agree(s, trace)
    ensures var (t, e) := Step(test, s, op); Agree(t, trace + [e])
  {
    var fpn, n, o, u := AccessShape(test, s, op);
    StoreAgrees(s, u, trace, op, n, o, fpn, Step(test, s, op));
  }

  lemma StoreAgrees(s: Sys, u: Sys, trace: seq<Event>, op: Op, n: nat, o: nat, fpn: Option<nat>, te: (Sys, Event))
    requires op.Write? && Inv(u) && Agree(s, trace) && KeepsContents(s, u) && Outcome(op, u, fpn, n, o, te)
    ensures Agree(te.0, trace + [te.1])
  {
    if fpn.Some? {
      AgreeQuiet(s, u, trace, Quiet);
      PutKeeps(u, fpn.value, o, op.data);
      WriteEvent(u, te.0, trace, op.pid, n, o, op.data);
    } else {
      AgreeQuiet(s, u, trace, Quiet);
    }
  }

  lemma WriteEvent(u: Sys, t: Sys, trace: seq<Event>, p: nat, n: nat, o: nat, b: Byte)
    requires Inv(u) && Agree(u, trace + [Quiet]) && o < PAGESZ && SlotAt(u, p, n).Resident?
    requires forall q, m :: SlotAt(t, q, m) == SlotAt(u, q, m)
    requires forall q, m ::
      Contents(t, q, m) == (if SlotAt(u, q, m) == SlotAt(u, p, n) then Contents(u, q, m)[o := b] else Contents(u, q, m))
    ensures Agree(t, trace + [Wrote(p, n, o, b)])
  {
    var e := Wrote(p, n, o, b);
    assert (trace + [e])[..|trace|] == trace == (trace + [Quiet])[..|trace|];
    forall q: nat, m: nat, i: nat | LastWritten(trace + [e], q, m, i).Some? ensures
      && !SlotAt(t, q, m).Unmapped? && i < |Contents(t, q, m)|
      && Contents(t, q, m)[i] == LastWritten(trace + [e], q, m, i).value
    {
      if q == p && m == n && i == o {
        assert SlotAt(u, p, n) == u.mms[p].SlotOf(n);
      } else {
        assert LastWritten(trace + [e], q, m, i) == LastWritten(trace + [Quiet], q, m, i);
      }
    }
  }

  /** What a step that writes nothing keeps. */
  lemma OtherKeeps(test: Test, s: Sys, op: Op)
    requires Inv(s) && Allowed(s, op) && Obeys(Harmless, s, op) && !op.Read? && !op.Write?
    ensures KeepsContents(s, Step(test, s, op).0)
  {
    match op
    case Load(p) => LoadInv(s, p);
    case Free(p, rgid) => FreeInv(s, p, rgid);
    case Alloc(p, rgid, size) =>
      if Growing(s, p, size) { KeepsIffHarmless(s, p, rgid, size); } else { NoMapping(s, p, rgid, size); }
  }

  lemma StepAgrees(test: Test, s: Sys, op: Op, trace: seq<Event>)
    requires Inv(s) && Allowed(s, op) && Obeys(Harmless, s, op) && Told(test, s, op) && Agree(s, trace)
    ensures var (t, e) := Step(test, s, op); Agree(t, trace + [e]) && SeesLastWrite(trace, e)
  {
    match op
    case Read(_, _, _) => ReadAgrees(test, s, op, trace);
    case Write(_, _, _, _) => WriteAgrees(test, s, op, trace);
    case _ =>
      OtherKeeps(test, s, op);
      AgreeQuiet(s, Step(test, s, op).0, trace, Quiet);
  }

  /** Every successful read of the trace returns the last byte written there by its process. */
  ghost predicate Sees(trace: seq<Event>) {
    forall i :: 0 <= i < |trace| ==> SeesLastWrite(trace[..i], trace[i])
  }

  lemma SeesSnoc(past: seq<Event>, e: Event)
    requires Sees(past) && SeesLastWrite(past, e)
    ensures Sees(past + [e])
  {
    var t := past + [e];
    forall i | 0 <= i < |t| ensures SeesLastWrite(t[..i], t[i]) {
      if i < |past| { assert t[..i] == past[..i]; } else { assert t[..i] == past; }
    }
  }

  lemma {:induction false} RunAgrees(test: Test, s: Sys, ops: seq<Op>)
    requires Inv(s) && Legal(test, s, ops) && Throughout(Harmless, test, s, ops)
    requires test.Documented? || Throughout(NotSwapped, test, s, ops)
    ensures Agree(State(test, s, ops), Trace(test, s, ops)) && Sees(Trace(test, s, ops))
    decreases |ops|
  {
    if ops == [] {
    } else {
      var init, op := ops[..|ops| - 1], ops[|ops| - 1];
      RunAgrees(test, s, init);
      HarmlessRun(test, s, init);
      RunInv(test, s, init);
      var u, past := State(test, s, init), Trace(test, s, init);
      StepAgrees(test, u, op, past);
      SeesSnoc(past, Step(test, u, op).1);
    }
  }

  /** Swap transparency.  Under the documented residency test, in every run by any number of processes
      whose growths are harmless, a successful read returns the last byte its process wrote at that
      address, however often the page was evicted and brought back in between. */
  lemma SwapTransparency(ram: seq<Byte>, swp: seq<Byte>, ops: seq<Op>)
    requires Configured(ram, swp) && Legal(Documented, Boot(ram, swp), ops)
    requires Throughout(Harmless, Documented, Boot(ram, swp), ops)
    ensures Sees(Trace(Documented, Boot(ram, swp), ops))
  {
    RunAgrees(Documented, Boot(ram, swp), ops);
  }

  /** The same for the test as written, on the runs in which no access goes to a swapped-out page. */
  lemma AsWrittenTransparency(ram: seq<Byte>, swp: seq<Byte>, ops: seq<Op>)
    requires Configured(ram, swp) && Legal(AsWritten, Boot(ram, swp), ops)
    requires Throughout(Harmless, AsWritten, Boot(ram, swp), ops)
    requires Throughout(NotSwapped, AsWritten, Boot(ram, swp), ops)
    ensures Sees(Trace(AsWritten, Boot(ram, swp), ops))
  {
    RunAgrees(AsWritten, Boot(ram, swp), ops);
  }

  // ----- Programs that stay inside their regions

  /** While RAM has free frames the break is page-aligned and nothing is mapped beyond it.  Once RAM
      has run out no growth maps anything again. */
  ghost predicate TameMm(m: Mm, free: seq<nat>) {
    && S.Valid(m.space)
    && (free != [] ==> m.space.sbrk % PAGESZ == 0)
    && (free != [] ==> forall n: nat :: !m.SlotOf(n).Unmapped? ==> n < m.space.sbrk / PAGESZ)
  }

  ghost predicate Tame(s: Sys) {
    forall p :: p in s.mms ==> TameMm(s.mms[p], s.ram.free)
  }

  lemma TameIsClean(s: Sys, p: nat, size: nat)
    requires Tame(s)
    ensures CleanGrowth(s, p, size)
  {
    if Growing(s, p, size) {
      assert TameMm(s.mms[p], s.ram.free);
      assert forall n :: SlotAt(s, p, n) == s.mms[p].SlotOf(n);
    }
  }

  /** m' is m after a growth by k pages from an aligned break. */
  ghost predicate GrownBy(m: Mm, m': Mm, k: nat, frames: seq<nat>) {
    var a := m.space.sbrk / PAGESZ;
    && S.Valid(m'.space) && m'.space.sbrk % PAGESZ == 0 && m'.space.sbrk / PAGESZ == a + k && k <= |frames|
    && (forall n: nat :: m'.SlotOf(n) == if a <= n < a + k then Resident(frames[n - a]) else m.SlotOf(n))
    && (forall n: nat :: n in m'.fifo <==> n in m.fifo || a <= n < a + k)
  }

  lemma GrowthMm(s: Sys, p: nat, rgid: S.Rgid, size: nat)
    requires Inv(s) && Growing(s, p, size) && S.Valid(s.mms[p].space) && s.mms[p].space.sbrk % PAGESZ == 0
    ensures GrownBy(s.mms[p], Step(Documented, s, Alloc(p, rgid, size)).0.mms[p], PagesFor(size), s.ram.free)
  {
    AllocGrown(s.mms[p], s.ram, rgid, size);
  }

  lemma AllocGrown(m: Mm, ram: Dev, rgid: S.Rgid, size: nat)
    requires S.Valid(m.space) && m.space.sbrk % PAGESZ == 0 && NeedsGrowth(m, size) && PagesFor(size) <= |ram.free|
    ensures GrownBy(m, AllocPages(m, ram, rgid, size).0, PagesFor(size), ram.free)
  {
    var m' := AllocPages(m, ram, rgid, size).0;
    S.AllocValid(m.space, rgid, size, true);
    AddedPages(m, m', m.space.sbrk / PAGESZ, PagesFor(size), ram.free);
    AddedSpace(m.space, m'.space, rgid, size);
  }

  lemma AddedSpace(x: S.Space, y: S.Space, rgid: S.Rgid, size: nat)
    requires S.Valid(x) && x.sbrk % PAGESZ == 0 && S.FirstFit(x.free, size) == |x.free| && size > 0
    requires y == S.Alloc(x, rgid, size, true)
    ensures y.sbrk % PAGESZ == 0 && y.sbrk / PAGESZ == x.sbrk / PAGESZ + PagesFor(size)
  {
    PagesAdd(x.sbrk, size);
  }

  lemma AddedPages(m: Mm, m': Mm, a: nat, k: nat, free: seq<nat>)
    requires k <= |free| && m'.pt == m.pt + Mapped(a, free[..k]) && m'.fifo == Descending(a, k) + m.fifo
    ensures forall n: nat :: m'.SlotOf(n) == if a <= n < a + k then Resident(free[n - a]) else m.SlotOf(n)
    ensures forall n: nat :: n in m'.fifo <==> n in m.fifo || a <= n < a + k
  {
    InDescending(a, k, m.fifo);
  }

  lemma PagesAdd(sbrk: nat, size: nat)
    requires sbrk % PAGESZ == 0
    ensures (sbrk + S.AlignUp(size)) / PAGESZ == sbrk / PAGESZ + PagesFor(size)
    ensures (sbrk + S.AlignUp(size)) % PAGESZ == 0
  {
  }

  lemma TameGrowth(s: Sys, p: nat, rgid: S.Rgid, size: nat)
    requires Inv(s) && Tame(s) && Growing(s, p, size)
    ensures var t := Step(Documented, s, Alloc(p, rgid, size)).0; TameMm(t.mms[p], t.ram.free)
  {
    assert TameMm(s.mms[p], s.ram.free);
    GrowthMm(s, p, rgid, size);
  }

  lemma TameAlloc(s: Sys, p: nat, rgid: S.Rgid, size: nat)
    requires Inv(s) && Tame(s) && p in s.mms
    ensures Tame(Step(Documented, s, Alloc(p, rgid, size)).0)
  {
    var t := Step(Documented, s, Alloc(p, rgid, size)).0;
    assert TameMm(s.mms[p], s.ram.free);
    if Growing(s, p, size) {
      TameGrowth(s, p, rgid, size);
      GrowthDevices(s, p, rgid, size);
    } else {
      S.AllocValid(s.mms[p].space, rgid, size, Enough(s, size));
      SameEntries(s.mms[p], t.mms[p], s.ram, s.swp);
      assert t.ram.free != [] ==> t.mms[p].space.sbrk == s.mms[p].space.sbrk && t.ram == s.ram;
    }
    forall q | q in t.mms ensures TameMm(t.mms[q], t.ram.free) {
      if q != p { assert t.mms[q] == s.mms[q] && TameMm(s.mms[q], s.ram.free); }
    }
  }

  lemma TameFree(s: Sys, p: nat, rgid: S.Rgid)
    requires Inv(s) && Tame(s) && p in s.mms
    ensures Tame(Step(Documented, s, Free(p, rgid)).0)
  {
    var t := Step(Documented, s, Free(p, rgid)).0;
    assert TameMm(s.mms[p], s.ram.free);
    S.FreeValid(s.mms[p].space, rgid);
    SameEntries(s.mms[p], t.mms[p], s.ram, s.swp);
    forall q | q in t.mms ensures TameMm(t.mms[q], t.ram.free) {
      if q != p { assert t.mms[q] == s.mms[q] && TameMm(s.mms[q], s.ram.free); }
    }
  }

  lemma TameLoad(s: Sys, p: nat)
    requires Inv(s) && Tame(s) && p !in s.mms
    ensures Tame(Step(Documented, s, Load(p)).0)
  {
    var t := Step(Documented, s, Load(p)).0;
    forall q | q in t.mms ensures TameMm(t.mms[q], t.ram.free) {
      if q != p { assert t.mms[q] == s.mms[q] && TameMm(s.mms[q], s.ram.free); }
    }
  }

  lemma PageBelowBreak(m: Mm, rgid: S.Rgid, offset: nat)
    requires S.Valid(m.space) && m.space.sbrk % PAGESZ == 0
    requires m.space.sym[rgid].start + offset < m.space.sym[rgid].end
    ensures PageNumber(m.space.sym[rgid].start + offset) < m.space.sbrk / PAGESZ
  {
    var a, b := m.space.sym[rgid].start + offset, m.space.sbrk;
    assert m.space.sym[rgid].end <= b;
    assert a / PAGESZ < b / PAGESZ;
    assert a % BUS_SPACE <= a;
  }

  lemma TameAccess(test: Test, s: Sys, p: nat, n: nat)
    requires Inv(s) && Tame(s) && p in s.mms && (s.ram.free != [] ==> n < FirstPage(s, p))
    ensures var t := After(s, p, GetPageOf(test, s, p, n)); Tame(t) && t.ram.free == s.ram.free
  {
    var t := After(s, p, GetPageOf(test, s, p, n));
    AccessKeeps(test, s, p, n);
    forall q | q in t.mms ensures TameMm(t.mms[q], t.ram.free) {
      assert TameMm(s.mms[q], s.ram.free);
      if q != p {
        assert t.mms[q] == s.mms[q];
      } else {
        forall m: nat | !t.mms[p].SlotOf(m).Unmapped? && m != n ensures !s.mms[p].SlotOf(m).Unmapped? {
          AccessMaps(test, s, p, n, p, m);
          assert SlotAt(t, p, m) == t.mms[p].SlotOf(m) && SlotAt(s, p, m) == s.mms[p].SlotOf(m);
        }
      }
    }
  }

  /** An instruction that stays in its region leaves the next growth with nothing mapped. */
  lemma TameStep(test: Test, s: Sys, op: Op)
    requires Inv(s) && Tame(s) && Allowed(s, op) && Obeys(InRegion, s, op)
    ensures Tame(Step(test, s, op).0)
  {
    match op
    case Load(p) => TameLoad(s, p);
    case Alloc(p, rgid, size) => TameAlloc(s, p, rgid, size);
    case Free(p, rgid) => TameFree(s, p, rgid);
    case _ =>
      assert TameMm(s.mms[op.pid], s.ram.free);
      if s.ram.free != [] { PageBelowBreak(s.mms[op.pid], op.rgid, op.offset); }
      TameAccess(test, s, op.pid, PageOf(s, op));
  }

  lemma {:induction false} RegionRun(test: Test, s: Sys, ops: seq<Op>)
    requires Inv(s) && Tame(s) && Legal(test, s, ops) && Throughout(InRegion, test, s, ops)
    ensures Throughout(Clean, test, s, ops) && Inv(State(test, s, ops)) && Tame(State(test, s, ops))
    decreases |ops|
  {
    if ops == [] {
    } else {
      var init, op := ops[..|ops| - 1], ops[|ops| - 1];
      RegionRun(test, s, init);
      var u := State(test, s, init);
      if op.Alloc? {
        TameIsClean(u, op.pid, op.size);
        CleanIsHarmless(u, op.pid, op.size);
      }
      StepInv(test, u, op);
      TameStep(test, u, op);
    }
  }

  /** Programs whose accesses stay inside their live regions need no other condition: whatever they
      allocate and free, whether or not growth finds frames and however pages are swapped, frames
      stay exclusive, growth maps only unmapped pages, no frame is lost by growths that find their
      frames, and under the documented test every read returns the last byte written there. */
  lemma RegionTransparency(test: Test, ram: seq<Byte>, swp: seq<Byte>, ops: seq<Op>)
    requires Configured(ram, swp) && Legal(test, Boot(ram, swp), ops) && Throughout(InRegion, test, Boot(ram, swp), ops)
    ensures Throughout(Clean, test, Boot(ram, swp), ops) && Inv(State(test, Boot(ram, swp), ops))
    ensures Throughout(WithFrames, test, Boot(ram, swp), ops) ==> Conserved(State(test, Boot(ram, swp), ops))
    ensures test.Documented? ==> Sees(Trace(test, Boot(ram, swp), ops))
  {
    var b := Boot(ram, swp);
    RegionRun(test, b, ops);
    CleanRun(test, b, ops);
    if Throughout(WithFrames, test, b, ops) { RunConserves(test, b, ops); }
    if test.Documented? { RunAgrees(test, b, ops); }
  }
}
