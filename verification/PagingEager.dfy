/** Programs that stay inside their regions while RAM lasts, and frame counts. */
module PagingEager {
  import opened Common
  import opened Memphy
  import opened Pte
  import opened Paging
  import opened PagingSystem
  import opened PagingSteps
  import opened PagingRuns
  import S = Space

  // ----- Eager mapping

  /** The break is page-aligned, exactly the pages below it are mapped, all of them to RAM, and
      each is in the victim queue (once, by Inv). */
  ghost predicate Eager(s: Sys) {
    forall p :: p in s.mms ==> EagerMm(s.mms[p])
  }

  ghost predicate EagerMm(m: Mm) {
    && S.Valid(m.space) && m.space.sbrk % PAGESZ == 0
    && (forall n: nat :: m.SlotOf(n).Resident? <==> n < m.space.sbrk / PAGESZ)
    && (forall n :: !m.SlotOf(n).Swapped?)
    && (forall n: nat :: n < m.space.sbrk / PAGESZ ==> n in m.fifo)
  }

  lemma EagerGrowth(s: Sys, p: nat, rgid: S.Rgid, size: nat)
    requires Inv(s) && Eager(s) && Growing(s, p, size)
    ensures EagerMm(Step(Documented, s, Alloc(p, rgid, size)).0.mms[p])
  {
    assert EagerMm(s.mms[p]);
    GrowthMm(s, p, rgid, size);
    GrownEager(s.mms[p], Step(Documented, s, Alloc(p, rgid, size)).0.mms[p], PagesFor(size), s.ram.free);
  }

  lemma GrownEager(m: Mm, m': Mm, k: nat, frames: seq<nat>)
    requires EagerMm(m) && GrownBy(m, m', k, frames)
    ensures EagerMm(m')
  {
  }

  lemma EagerAlloc(s: Sys, p: nat, rgid: S.Rgid, size: nat)
    requires Inv(s) && Eager(s) && p in s.mms && Served(s, p, size)
    ensures Eager(Step(Documented, s, Alloc(p, rgid, size)).0)
  {
    var t := Step(Documented, s, Alloc(p, rgid, size)).0;
    assert EagerMm(s.mms[p]);
    if Growing(s, p, size) {
      EagerGrowth(s, p, rgid, size);
    } else {
      S.AllocValid(s.mms[p].space, rgid, size, Enough(s, size));
      SameEntries(s.mms[p], t.mms[p], s.ram, s.swp);
      assert t.mms[p].space.sbrk == s.mms[p].space.sbrk;
    }
    forall q | q in t.mms ensures EagerMm(t.mms[q]) {
      if q != p { assert t.mms[q] == s.mms[q] && EagerMm(s.mms[q]); }
    }
  }

  lemma EagerFree(s: Sys, p: nat, rgid: S.Rgid)
    requires Inv(s) && Eager(s) && p in s.mms
    ensures Eager(Step(Documented, s, Free(p, rgid)).0)
  {
    var t := Step(Documented, s, Free(p, rgid)).0;
    assert EagerMm(s.mms[p]);
    S.FreeValid(s.mms[p].space, rgid);
    SameEntries(s.mms[p], t.mms[p], s.ram, s.swp);
    forall q | q in t.mms ensures EagerMm(t.mms[q]) {
      if q != p { assert t.mms[q] == s.mms[q] && EagerMm(s.mms[q]); }
    }
  }

  lemma EagerLoad(s: Sys, p: nat)
    requires Eager(s) && p !in s.mms
    ensures Eager(Step(Documented, s, Load(p)).0)
  {
    assert forall n :: InitMm().SlotOf(n) == Unmapped;
    assert EagerMm(InitMm());
    var t := Step(Documented, s, Load(p)).0;
    forall q | q in t.mms ensures EagerMm(t.mms[q]) {
      if q != p { assert EagerMm(s.mms[q]); }
    }
  }

  /** An access inside a live region takes the fast path: it succeeds, evicts nothing, and both
      residency tests treat it alike. */
  lemma EagerAccess(test: Test, s: Sys, op: Op)
    requires Inv(s) && Eager(s) && (op.Read? || op.Write?) && Allowed(s, op) && Obeys(InRegion, s, op)
    ensures var (t, e) := Step(test, s, op);
      && t.mms == s.mms && t.swp == s.swp && t.ram.free == s.ram.free && SameSizes(s, t)
      && e.pid == op.pid && (if op.Read? then e.Got? && t.ram == s.ram else e.Wrote? && e.data == op.data)
    ensures Obeys(NotSwapped, s, op)
  {
    var m, addr := s.mms[op.pid], AddressOf(s.mms[op.pid], op.rgid, op.offset);
    assert EagerMm(m);
    PageBelowBreak(m, op.rgid, op.offset);
    FastPath(test, s, op, addr, m.SlotOf(PageNumber(addr)));
  }

  lemma FastPath(test: Test, s: Sys, op: Op, addr: nat, slot: Slot)
    requires Inv(s) && (op.Read? || op.Write?) && Allowed(s, op)
    requires addr == AddressOf(s.mms[op.pid], op.rgid, op.offset)
    requires slot == s.mms[op.pid].SlotOf(PageNumber(addr)) && slot.Resident?
    ensures var r := Paged(Some(slot.fpn), s.mms[op.pid], s.ram, s.swp);
      After(s, op.pid, r) == s && slot.fpn < s.ram.Frames() && Step(test, s, op) == Touch(s, op, addr, r)
  {
    assert s.mms[op.pid := s.mms[op.pid]] == s.mms;
  }

  /** Every access of the run succeeded. */
  ghost predicate AllSucceed(ops: seq<Op>, trace: seq<Event>)
    requires |ops| == |trace|
  {
    forall i :: 0 <= i < |ops| ==> Succeeds(ops[i], trace[i])
  }

  predicate Succeeds(op: Op, e: Event) { (op.Read? ==> e.Got?) && (op.Write? ==> e.Wrote?) }

  lemma EagerStep(test: Test, s: Sys, op: Op)
    requires Inv(s) && Eager(s) && Allowed(s, op) && Obeys(InRegion, s, op) && Obeys(WithFrames, s, op)
    ensures Eager(Step(test, s, op).0) && Step(test, s, op).0.swp == s.swp
    ensures Obeys(NotSwapped, s, op) && Succeeds(op, Step(test, s, op).1)
  {
    match op
    case Load(p) => EagerLoad(s, p);
    case Alloc(p, rgid, size) => EagerAlloc(s, p, rgid, size);
    case Free(p, rgid) => EagerFree(s, p, rgid);
    case _ => EagerAccess(test, s, op);
  }

  lemma {:induction false} EagerState(test: Test, s: Sys, ops: seq<Op>)
    requires Inv(s) && Tame(s) && Eager(s) && Legal(test, s, ops)
    requires Throughout(InRegion, test, s, ops) && Throughout(WithFrames, test, s, ops)
    ensures Eager(State(test, s, ops)) && State(test, s, ops).swp == s.swp
    decreases |ops|
  {
    if ops == [] {
    } else {
      var init := ops[..|ops| - 1];
      EagerState(test, s, init);
      RegionRun(test, s, init);
      EagerStep(test, State(test, s, init), ops[|ops| - 1]);
    }
  }

  lemma {:induction false} EagerNotSwapped(test: Test, s: Sys, ops: seq<Op>)
    requires Inv(s) && Tame(s) && Eager(s) && Legal(test, s, ops)
    requires Throughout(InRegion, test, s, ops) && Throughout(WithFrames, test, s, ops)
    ensures Throughout(NotSwapped, test, s, ops)
    decreases |ops|
  {
    if ops == [] {
    } else {
      var init := ops[..|ops| - 1];
      EagerNotSwapped(test, s, init);
      EagerState(test, s, init);
      RegionRun(test, s, init);
      EagerStep(test, State(test, s, init), ops[|ops| - 1]);
    }
  }

  lemma {:induction false} EagerSuccess(test: Test, s: Sys, ops: seq<Op>)
    requires Inv(s) && Tame(s) && Eager(s) && Legal(test, s, ops)
    requires Throughout(InRegion, test, s, ops) && Throughout(WithFrames, test, s, ops)
    ensures AllSucceed(ops, Trace(test, s, ops))
    decreases |ops|
  {
    if ops == [] {
    } else {
      var init := ops[..|ops| - 1];
      EagerSuccess(test, s, init);
      EagerState(test, s, init);
      RegionRun(test, s, init);
      EagerStep(test, State(test, s, init), ops[|ops| - 1]);
      TraceInit(test, s, ops);
      SucceedLast(ops, Trace(test, s, ops));
    }
  }

  lemma TraceInit(test: Test, s: Sys, ops: seq<Op>)
    requires Legal(test, s, ops) && ops != []
    ensures var init, t := ops[..|ops| - 1], Trace(test, s, ops);
      t[..|ops| - 1] == Trace(test, s, init) && t[|ops| - 1] == Step(test, State(test, s, init), ops[|ops| - 1]).1
  {
  }

  lemma SucceedLast(ops: seq<Op>, trace: seq<Event>)
    requires ops != [] && |ops| == |trace|
    requires AllSucceed(ops[..|ops| - 1], trace[..|ops| - 1]) && Succeeds(ops[|ops| - 1], trace[|ops| - 1])
    ensures AllSucceed(ops, trace)
  {
    assert forall i :: 0 <= i < |ops| - 1 ==> ops[i] == ops[..|ops| - 1][i] && trace[i] == trace[..|ops| - 1][i];
  }

  /** Eager mapping, by either residency test: in every run whose accesses stay inside live regions
      and whose growths find frames, the break stays aligned with exactly the pages below it
      resident, nothing is ever swapped, every access succeeds, and every read returns the last byte
      its process wrote there. */
  lemma EagerRun(test: Test, ram: seq<Byte>, swp: seq<Byte>, ops: seq<Op>)
    requires Configured(ram, swp) && Legal(test, Boot(ram, swp), ops)
    requires Throughout(InRegion, test, Boot(ram, swp), ops) && Throughout(WithFrames, test, Boot(ram, swp), ops)
    ensures Eager(State(test, Boot(ram, swp), ops)) && State(test, Boot(ram, swp), ops).swp.storage == swp
    ensures AllSucceed(ops, Trace(test, Boot(ram, swp), ops))
    ensures Sees(Trace(test, Boot(ram, swp), ops))
  {
    var b := Boot(ram, swp);
    EagerState(test, b, ops);
    EagerNotSwapped(test, b, ops);
    EagerSuccess(test, b, ops);
    RegionRun(test, b, ops);
    CleanRun(test, b, ops);
    RunAgrees(test, b, ops);
  }

  /** Distinct (process, address) pairs on resident pages are distinct physical bytes. */
  lemma DistinctBytes(s: Sys, p: nat, a: nat, q: nat, b: nat)
    requires Inv(s) && SlotAt(s, p, PageNumber(a)).Resident? && SlotAt(s, q, PageNumber(b)).Resident?
    requires p != q || a % BUS_SPACE != b % BUS_SPACE
    ensures Physical(SlotAt(s, p, PageNumber(a)).fpn, a) != Physical(SlotAt(s, q, PageNumber(b)).fpn, b)
  {
    var f, g := SlotAt(s, p, PageNumber(a)).fpn, SlotAt(s, q, PageNumber(b)).fpn;
    Recompose(a);
    Recompose(b);
    if Physical(f, a) == Physical(g, b) {
      SameByte(f, PageOffset(a), g, PageOffset(b));
    }
  }

  lemma Recompose(a: nat)
    ensures PageNumber(a) * PAGESZ + PageOffset(a) == a % BUS_SPACE
  {
    AddressSplit(a);
  }

  lemma SameByte(f: nat, o: nat, g: nat, i: nat)
    requires o < PAGESZ && i < PAGESZ && f * PAGESZ + o == g * PAGESZ + i
    ensures f == g && o == i
  {
  }

  // ----- Counting frames

  ghost function ResidentPages(s: Sys): (r: set<(nat, nat)>)
    ensures forall p: nat, n: nat :: (p, n) in r <==> SlotAt(s, p, n).Resident?
  {
    set p: nat, n: nat | p in s.mms && n in s.mms[p].pt && s.mms[p].pt[n].Resident? :: (p, n)
  }

  ghost function SwappedPages(s: Sys): (r: set<(nat, nat)>)
    ensures forall p: nat, n: nat :: (p, n) in r <==> SlotAt(s, p, n).Swapped?
  {
    set p: nat, n: nat | p in s.mms && n in s.mms[p].pt && s.mms[p].pt[n].Swapped? :: (p, n)
  }

  lemma {:induction false} ImageSize<A, B>(a: set<A>, b: set<B>, f: map<A, B>)
    requires f.Keys == a && (forall y :: y in b <==> exists x :: x in a && f[x] == y)
    requires forall x, y :: x in a && y in a && f[x] == f[y] ==> x == y
    ensures |a| == |b|
    decreases a
  {
    if a == {} {
      assert b == {};
    } else {
      var x :| x in a;
      var f' := map y | y in a - {x} :: f[y];
      forall y ensures y in b - {f[x]} <==> exists z :: z in a - {x} && f'[z] == y {
        if y in b - {f[x]} {
          var z :| z in a && f[z] == y;
          assert z in a - {x} && f'[z] == y;
        }
      }
      ImageSize(a - {x}, b - {f[x]}, f');
    }
  }

  ghost function Below(n: nat): (r: set<nat>)
    ensures |r| == n && forall f :: f in r <==> 0 <= f < n
  {
    if n == 0 then {} else Below(n - 1) + {n - 1}
  }

  ghost function Members(l: seq<nat>): (r: set<nat>)
    requires NoDup(l)
    ensures |r| == |l| && forall f :: f in r <==> f in l
  {
    if l == [] then {} else
      assert l == l[..|l| - 1] + [l[|l| - 1]];
      Members(l[..|l| - 1]) + {l[|l| - 1]}
  }

  /** Used frames and free frames add up, for pages mapped one-to-one onto what is not free. */
  lemma CountUsed(pages: set<(nat, nat)>, frameOf: map<(nat, nat), nat>, free: seq<nat>, n: nat)
    requires frameOf.Keys == pages && NoDup(free)
    requires forall x, y :: x in pages && y in pages && frameOf[x] == frameOf[y] ==> x == y
    requires forall x :: x in pages ==> frameOf[x] < n && frameOf[x] !in free
    requires forall f :: f in free ==> f < n
    requires forall f: nat :: f < n && f !in free ==> exists x :: x in pages && frameOf[x] == f
    ensures |pages| + |free| == n
  {
    var used := Below(n) - Members(free);
    Partition(n, free);
    forall f ensures f in used <==> exists x :: x in pages && frameOf[x] == f {}
    ImageSize(pages, used, frameOf);
  }

  lemma Partition(n: nat, free: seq<nat>)
    requires NoDup(free) && forall f :: f in free ==> f < n
    ensures |Below(n) - Members(free)| + |free| == n
  {
    assert (Below(n) - Members(free)) + Members(free) == Below(n);
  }

  /** Exact frame conservation, in numbers. */
  lemma FrameCounts(s: Sys)
    requires Inv(s) && Conserved(s)
    ensures |ResidentPages(s)| + |s.ram.free| == s.ram.Frames()
    ensures |SwappedPages(s)| + |s.swp.free| == s.swp.Frames()
  {
    RamCount(s, ResidentPages(s));
    SwpCount(s, SwappedPages(s));
  }

  lemma RamCount(s: Sys, pages: set<(nat, nat)>)
    requires Inv(s) && Conserved(s) && forall p: nat, n: nat :: (p, n) in pages <==> SlotAt(s, p, n).Resident?
    ensures |pages| + |s.ram.free| == s.ram.Frames()
  {
    var frameOf := map x | x in pages :: RawFpn(SlotAt(s, x.0, x.1));
    forall x | x in pages ensures
      SlotAt(s, x.0, x.1) == Resident(frameOf[x]) && frameOf[x] < s.ram.Frames() && frameOf[x] !in s.ram.free
    {
      assert x == (x.0, x.1);
      assert SlotAt(s, x.0, x.1) == s.mms[x.0].SlotOf(x.1);
    }
    forall f: nat | f < s.ram.Frames() && f !in s.ram.free ensures exists x :: x in pages && frameOf[x] == f {
      var p: nat, n: nat :| SlotAt(s, p, n) == Resident(f);
      assert (p, n) in pages && frameOf[(p, n)] == f;
    }
    CountUsed(pages, frameOf, s.ram.free, s.ram.Frames());
  }

  lemma SwpCount(s: Sys, pages: set<(nat, nat)>)
    requires Inv(s) && Conserved(s) && forall p: nat, n: nat :: (p, n) in pages <==> SlotAt(s, p, n).Swapped?
    ensures |pages| + |s.swp.free| == s.swp.Frames()
  {
    var frameOf := map x | x in pages :: if SlotAt(s, x.0, x.1).Swapped? then SlotAt(s, x.0, x.1).off else 0;
    forall x | x in pages ensures
      SlotAt(s, x.0, x.1) == Swapped(frameOf[x]) && frameOf[x] < s.swp.Frames() && frameOf[x] !in s.swp.free
    {
      assert x == (x.0, x.1);
      assert SlotAt(s, x.0, x.1) == s.mms[x.0].SlotOf(x.1);
    }
    forall f: nat | f < s.swp.Frames() && f !in s.swp.free ensures exists x :: x in pages && frameOf[x] == f {
      var p: nat, n: nat :| SlotAt(s, p, n) == Swapped(f);
      assert (p, n) in pages && frameOf[(p, n)] == f;
    }
    CountUsed(pages, frameOf, s.swp.free, s.swp.Frames());
  }
}
