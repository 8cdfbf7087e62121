/** One memory instruction of any process: what it does, what it keeps, and exactly when it does not. */
module PagingSteps {
  import opened Common
  import opened Memphy
  import opened Pte
  import opened Paging
  import opened PagingSystem
  import S = Space

  datatype Op =
    | Load(pid: nat)                                           // init_mm
    | Alloc(pid: nat, rgid: S.Rgid, size: nat)                 // __alloc
    | Free(pid: nat, rgid: S.Rgid)                             // __free
    | Read(pid: nat, rgid: S.Rgid, offset: nat)                // __read
    | Write(pid: nat, rgid: S.Rgid, offset: nat, data: Byte)   // __write

  /** What a step did to a byte, if its access succeeded. */
  datatype Event =
    | Got(pid: nat, pgn: nat, off: nat, data: Byte)
    | Wrote(pid: nat, pgn: nat, off: nat, data: Byte)
    | Quiet

  function InitMm(): Mm { Mm(map[], [], S.Empty()) }

  function AddressOf(m: Mm, rgid: S.Rgid, offset: nat): nat
    requires |m.space.sym| == S.SYMBOLS
  {
    m.space.sym[rgid].start + offset
  }

  /** The instruction is defined: its process exists, and a swap cycle that it starts copies frames
      of the devices.  Under Inv the first is enough. */
  predicate Ready(s: Sys, op: Op)
    ensures Inv(s) && (op.Load? || op.pid in s.mms) ==> Ready(s, op)
  {
    op.Load? ||
    (&& op.pid in s.mms && |s.mms[op.pid].space.sym| == S.SYMBOLS
     && (op.Read? || op.Write? ==> CycleDefined(s.mms[op.pid], s.ram, s.swp, PageOf(s, op))))
  }

  /** The page an access goes to. */
  function PageOf(s: Sys, op: Op): nat
    requires (op.Read? || op.Write?) && op.pid in s.mms && |s.mms[op.pid].space.sym| == S.SYMBOLS
  {
    PageNumber(AddressOf(s.mms[op.pid], op.rgid, op.offset))
  }

  /** pg_getval and pg_setval after their page access: the byte is read from the bus or stored. */
  function Touch(s: Sys, op: Op, addr: nat, r: Paged): (Sys, Event)
    requires op.Read? || op.Write?
  {
    var n, o, t := PageNumber(addr), PageOffset(addr), After(s, op.pid, r);
    match op
    case Read(p, _, _) => (t, match ReadByte(r, addr) case Done(b) => Got(p, n, o, b) case _ => Quiet)
    case Write(p, _, _, b) =>
      var (done, ram) := WriteByte(r, addr, b);
      (t.(ram := ram), if done.Done? then Wrote(p, n, o, b) else Quiet)
  }

  function Step(test: Test, s: Sys, op: Op): (Sys, Event)
    requires Ready(s, op)
  {
    match op
    case Load(p) => (s.(mms := s.mms[p := InitMm()]), Quiet)
    case Alloc(p, rgid, size) =>
      var (m, ram) := AllocPages(s.mms[p], s.ram, rgid, size);
      (Sys(s.mms[p := m], ram, s.swp), Quiet)
    case Free(p, rgid) =>
      (s.(mms := s.mms[p := s.mms[p].(space := S.Free(s.mms[p].space, rgid))]), Quiet)
    case _ =>
      var addr := AddressOf(s.mms[op.pid], op.rgid, op.offset);
      Touch(s, op, addr, GetPageOf(test, s, op.pid, PageNumber(addr)))
  }

  /** A process is loaded once. */
  predicate Allowed(s: Sys, op: Op) { Ready(s, op) && (op.Load? ==> op.pid !in s.mms) }

  // ----- Accesses

  lemma SameSlots(s: Sys, t: Sys)
    requires Inv(s) && SameSizes(s, t) && t.ram.free == s.ram.free && t.swp.free == s.swp.free
    requires forall q :: q in t.mms ==> Local(t.mms[q], s.ram, s.swp) && |t.mms[q].space.sym| == S.SYMBOLS
    requires forall q, m :: SlotAt(t, q, m) == SlotAt(s, q, m)
    ensures Inv(t) && (Conserved(s) ==> Conserved(t))
    ensures t.ram == s.ram && t.swp == s.swp ==> KeepsContents(s, t)
  {
    forall slot | Backed(s, slot) ensures Backed(t, slot) {
      var q, m :| SlotAt(s, q, m) == slot;
      assert SlotAt(t, q, m) == slot;
    }
  }

  lemma PutKeeps(s: Sys, f: nat, o: nat, b: Byte)
    requires Inv(s) && f < s.ram.Frames() && o < PAGESZ
    ensures f * PAGESZ + o < |s.ram.storage|
    ensures var t := s.(ram := PutByte(s.ram, f * PAGESZ + o, b));
      && Inv(t) && SameSizes(s, t) && (Conserved(s) ==> Conserved(t))
      && (forall q, m :: SlotAt(t, q, m) == SlotAt(s, q, m))
      && (forall q, m :: Contents(t, q, m) ==
            if SlotAt(s, q, m) == Resident(f) then Contents(s, q, m)[o := b] else Contents(s, q, m))
  {
    var t := s.(ram := PutByte(s.ram, f * PAGESZ + o, b));
    assert forall q, m :: SlotAt(t, q, m) == SlotAt(s, q, m);
    SameSlots(s, t);
    forall q, m ensures Contents(t, q, m) ==
            if SlotAt(s, q, m) == Resident(f) then Contents(s, q, m)[o := b] else Contents(s, q, m)
    {
      if SlotAt(s, q, m).Resident? {
        assert SlotAt(s, q, m) == s.mms[q].SlotOf(m);
        PagesAfterPut(s.ram, f, o, b, SlotAt(s, q, m).fpn);
      }
    }
  }

  /** A byte stored past the last whole frame of RAM is in no page. */
  lemma PutPastFrames(s: Sys, a: nat, b: Byte)
    requires Inv(s) && s.ram.Frames() * PAGESZ <= a < |s.ram.storage|
    ensures var t := s.(ram := PutByte(s.ram, a, b));
      && Inv(t) && (forall q, m :: SlotAt(t, q, m) == SlotAt(s, q, m) && Contents(t, q, m) == Contents(s, q, m))
  {
    var t := s.(ram := PutByte(s.ram, a, b));
    assert forall q, m :: SlotAt(t, q, m) == SlotAt(s, q, m);
    SameSlots(s, t);
    forall f | 0 <= f < s.ram.Frames() ensures t.ram.Page(f) == s.ram.Page(f) {
      assert (f + 1) * PAGESZ <= s.ram.Frames() * PAGESZ;
    }
  }

  lemma TouchInv(s: Sys, op: Op, addr: nat, r: Paged)
    requires (op.Read? || op.Write?) && Inv(After(s, op.pid, r))
    ensures var t := Touch(s, op, addr, r).0;
      Inv(t) && (Conserved(After(s, op.pid, r)) ==> Conserved(t))
  {
    var u, t := After(s, op.pid, r), Touch(s, op, addr, r).0;
    assert forall q, m :: SlotAt(t, q, m) == SlotAt(u, q, m);
    SameSlots(u, t);
  }

  lemma AccessInv(test: Test, s: Sys, op: Op)
    requires Inv(s) && (op.Read? || op.Write?) && op.pid in s.mms
    ensures var t := Step(test, s, op).0; Inv(t) && (Conserved(s) ==> Conserved(t))
  {
    AccessKeeps(test, s, op.pid, PageOf(s, op));
    TouchInv(s, op, AddressOf(s.mms[op.pid], op.rgid, op.offset), GetPageOf(test, s, op.pid, PageOf(s, op)));
  }

  /** After a successful access that the residency test gets right, the page sits in the frame. */
  lemma AccessedPage(test: Test, s: Sys, p: nat, n: nat)
    requires Inv(s) && p in s.mms && (test.Documented? || !SlotAt(s, p, n).Swapped?)
    ensures var r := GetPageOf(test, s, p, n); var t := After(s, p, r);
      r.fpn.Some? ==> SlotAt(t, p, n) == Resident(r.fpn.value) && r.fpn.value < t.ram.Frames()
  {
    AccessKeeps(test, s, p, n);
    TestsAgree(s.mms[p], s.ram, s.swp, n);
    DocumentedResident(s.mms[p], s.ram, s.swp, n);
    var r := GetPageOf(test, s, p, n);
    var t := After(s, p, r);
    assert SlotAt(t, p, n) == t.mms[p].SlotOf(n);
  }

  /** An access maps no page but its own. */
  lemma AccessMaps(test: Test, s: Sys, p: nat, n: nat, q: nat, m: nat)
    requires Inv(s) && p in s.mms && (q != p || m != n)
    ensures SlotAt(After(s, p, GetPageOf(test, s, p, n)), q, m).Unmapped? <==> SlotAt(s, q, m).Unmapped?
    ensures q != p ==> SlotAt(After(s, p, GetPageOf(test, s, p, n)), q, m) == SlotAt(s, q, m)
  {
    assert SlotAt(s, p, n) == s.mms[p].SlotOf(n);
    if InRam(test, SlotAt(s, p, n)) || s.mms[p].fifo == [] || s.swp.free == [] {
      QuietAccess(test, s, p, n);
    } else {
      TestsAgree(s.mms[p], s.ram, s.swp, n);
      SlotsAfter(s, p, n, q, m);
    }
  }

  /** The state u after a page access with result r. */
  lemma AccessBasics(test: Test, s: Sys, p: nat, n: nat, r: Paged, u: Sys)
    requires Inv(s) && p in s.mms && (test.Documented? || !SlotAt(s, p, n).Swapped?)
    requires r == GetPageOf(test, s, p, n) && u == After(s, p, r)
    ensures Inv(u) && KeepsContents(s, u)
    ensures forall q, m :: q != p ==> SlotAt(u, q, m) == SlotAt(s, q, m)
    ensures r.fpn.Some? ==> SlotAt(u, p, n) == Resident(r.fpn.value) && r.fpn.value < u.ram.Frames()
  {
    AccessKeeps(test, s, p, n);
    AccessedPage(test, s, p, n);
  }

  /** The outcome te of a read or write of byte o of page n, whose page access led to state u and
      handed back fpn: a look at the byte of the page's frame, or a store of that byte. */
  ghost predicate Outcome(op: Op, u: Sys, fpn: Option<nat>, n: nat, o: nat, te: (Sys, Event))
    requires op.Read? || op.Write?
  {
    && o < PAGESZ
    && (fpn.Some? ==> SlotAt(u, op.pid, n) == Resident(fpn.value) && fpn.value < u.ram.Frames())
    && te ==
        if fpn.None? then (u, Quiet)
        else if op.Read? then (u, Got(op.pid, n, o, u.ram.storage[fpn.value * PAGESZ + o]))
        else (u.(ram := PutByte(u.ram, fpn.value * PAGESZ + o, op.data)), Wrote(op.pid, n, o, op.data))
  }

  lemma TouchOutcome(s: Sys, op: Op, addr: nat, r: Paged, u: Sys)
    requires (op.Read? || op.Write?) && u == After(s, op.pid, r)
    requires r.fpn.Some? ==>
      SlotAt(u, op.pid, PageNumber(addr)) == Resident(r.fpn.value) && r.fpn.value < u.ram.Frames()
    ensures Outcome(op, u, r.fpn, PageNumber(addr), PageOffset(addr), Touch(s, op, addr, r))
  {
  }

  /** A read or write is a page access, which keeps every mapped byte, and then at most one byte. */
  lemma AccessShape(test: Test, s: Sys, op: Op) returns (fpn: Option<nat>, n: nat, o: nat, u: Sys)
    requires Inv(s) && (op.Read? || op.Write?) && Allowed(s, op)
    requires test.Documented? || !SlotAt(s, op.pid, PageOf(s, op)).Swapped?
    ensures Inv(u) && KeepsContents(s, u)
    ensures forall q, m :: q != op.pid ==> SlotAt(u, q, m) == SlotAt(s, q, m)
    ensures Outcome(op, u, fpn, n, o, Step(test, s, op))
  {
    var addr := AddressOf(s.mms[op.pid], op.rgid, op.offset);
    n, o := PageNumber(addr), PageOffset(addr);
    var r := GetPageOf(test, s, op.pid, n);
    fpn, u := r.fpn, After(s, op.pid, r);
    AccessBasics(test, s, op.pid, n, r, u);
    TouchOutcome(s, op, addr, r, u);
  }

  // ----- init_mm and __free

  lemma LoadInv(s: Sys, p: nat)
    requires Inv(s) && p !in s.mms
    ensures var t := Step(Documented, s, Load(p)).0;
      && Inv(t) && (Conserved(s) ==> Conserved(t)) && KeepsContents(s, t)
      && (forall q, m :: SlotAt(t, q, m) == SlotAt(s, q, m))
  {
    var t := Step(Documented, s, Load(p)).0;
    assert forall q, m :: SlotAt(t, q, m) == SlotAt(s, q, m);
    assert Local(InitMm(), t.ram, t.swp);
    SameSlots(s, t);
  }

  lemma FreeInv(s: Sys, p: nat, rgid: S.Rgid)
    requires Inv(s) && p in s.mms
    ensures var t := Step(Documented, s, Free(p, rgid)).0;
      && Inv(t) && (Conserved(s) ==> Conserved(t)) && KeepsContents(s, t)
      && (forall q, m :: SlotAt(t, q, m) == SlotAt(s, q, m))
  {
    var t := Step(Documented, s, Free(p, rgid)).0;
    assert forall q, m :: SlotAt(t, q, m) == SlotAt(s, q, m);
    SameEntries(s.mms[p], t.mms[p], s.ram, s.swp);
    SameSlots(s, t);
  }

  lemma SameEntries(m: Mm, m': Mm, ram: Dev, swp: Dev)
    requires Local(m, ram, swp) && m'.pt == m.pt && m'.fifo == m.fifo
    ensures Local(m', ram, swp) && forall i :: m'.SlotOf(i) == m.SlotOf(i)
  {
    forall i ensures m'.SlotOf(i) == m.SlotOf(i) {}
  }

  // ----- Growth

  predicate Enough(s: Sys, size: nat) { PagesFor(size) <= |s.ram.free| }

  /** The allocation grows the heap, and RAM has a frame for each of the new pages. */
  predicate Growing(s: Sys, p: nat, size: nat) {
    p in s.mms && NeedsGrowth(s.mms[p], size) && Enough(s, size)
  }

  /** RAM has a frame for every page of the growth, if there is one. */
  predicate Served(s: Sys, p: nat, size: nat)
    requires p in s.mms
  {
    NeedsGrowth(s.mms[p], size) ==> Enough(s, size)
  }

  function FirstPage(s: Sys, p: nat): nat
    requires p in s.mms
  {
    s.mms[p].space.sbrk / PAGESZ
  }

  predicate InGrowth(s: Sys, p: nat, size: nat, n: int)
    requires p in s.mms
  {
    FirstPage(s, p) <= n < FirstPage(s, p) + PagesFor(size)
  }

  /** The growth maps only pages that no stray access has mapped before. */
  ghost predicate CleanGrowth(s: Sys, p: nat, size: nat) {
    Growing(s, p, size) ==> forall n :: InGrowth(s, p, size, n) ==> SlotAt(s, p, n).Unmapped?
  }

  /** The growth maps no page that is waiting in the victim queue. */
  ghost predicate UnqueuedGrowth(s: Sys, p: nat, size: nat) {
    Growing(s, p, size) ==> forall n :: InGrowth(s, p, size, n) ==> n !in s.mms[p].fifo
  }

  /** The growth maps no queued page, and a page that it maps anew already holds the bytes of the
      frame it is given. */
  ghost predicate HarmlessGrowth(s: Sys, p: nat, size: nat) {
    && UnqueuedGrowth(s, p, size)
    && (Growing(s, p, size) ==> forall n :: InGrowth(s, p, size, n) && !SlotAt(s, p, n).Unmapped? ==>
          Contents(s, p, n) == FrameBytes(s.ram, s.ram.free[n - FirstPage(s, p)]))
  }

  lemma CleanIsHarmless(s: Sys, p: nat, size: nat)
    requires Inv(s) && CleanGrowth(s, p, size)
    ensures HarmlessGrowth(s, p, size)
  {
    if Growing(s, p, size) {
      forall n | InGrowth(s, p, size, n) ensures n !in s.mms[p].fifo {
        assert SlotAt(s, p, n) == s.mms[p].SlotOf(n);
      }
    }
  }

  lemma GrowthSlots(s: Sys, p: nat, rgid: S.Rgid, size: nat, q: nat, m: nat)
    requires Inv(s) && Growing(s, p, size)
    ensures var t := Step(Documented, s, Alloc(p, rgid, size)).0;
      SlotAt(t, q, m) == if q == p && InGrowth(s, p, size, m) then Resident(s.ram.free[m - FirstPage(s, p)])
                         else SlotAt(s, q, m)
  {
  }

  lemma GrowthDevices(s: Sys, p: nat, rgid: S.Rgid, size: nat)
    requires Inv(s) && Growing(s, p, size)
    ensures var t := Step(Documented, s, Alloc(p, rgid, size)).0;
      t.ram == s.ram.(free := s.ram.free[PagesFor(size)..]) && t.swp == s.swp
  {
  }

  lemma GrowthFifo(s: Sys, p: nat, rgid: S.Rgid, size: nat)
    requires Inv(s) && Growing(s, p, size)
    ensures var m := Step(Documented, s, Alloc(p, rgid, size)).0.mms[p];
      && (NoDup(m.fifo) <==> UnqueuedGrowth(s, p, size))
      && (forall n :: n in m.fifo <==> n in s.mms[p].fifo || InGrowth(s, p, size, n))
  {
    DescendingQueue(FirstPage(s, p), PagesFor(size), s.mms[p].fifo);
  }

  lemma InDescending(a: nat, k: nat, q: seq<nat>)
    ensures forall n :: n in Descending(a, k) + q <==> n in q || a <= n < a + k
    ensures forall i :: 0 <= i < k ==> a <= Descending(a, k)[i] < a + k
  {
    var d := Descending(a, k);
    forall n: nat | a <= n < a + k ensures n in d { assert d[a + k - 1 - n] == n; }
  }

  lemma DescendingQueue(a: nat, k: nat, q: seq<nat>)
    requires NoDup(q)
    ensures NoDup(Descending(a, k) + q) <==> forall n :: a <= n < a + k ==> n !in q
    ensures forall n :: n in Descending(a, k) + q <==> n in q || a <= n < a + k
  {
    var d := Descending(a, k);
    InDescending(a, k, q);
    if n: nat :| a <= n < a + k && n in q {
      var j :| 0 <= j < |q| && q[j] == n;
      assert (d + q)[a + k - 1 - n] == n && (d + q)[k + j] == n;
    } else {
      assert forall j :: 0 <= j < |q| ==> q[j] in q;
    }
  }

  lemma FreshFrames(free: seq<nat>, k: nat)
    requires NoDup(free) && k <= |free|
    ensures NoDup(free[k..])
    ensures forall i :: 0 <= i < k ==> free[i] in free && free[i] !in free[k..]
    ensures forall f :: f in free <==> f in free[..k] || f in free[k..]
  {
    assert free == free[..k] + free[k..];
  }

  lemma GrowthLocal(s: Sys, p: nat, rgid: S.Rgid, size: nat, q: nat)
    requires Inv(s) && Growing(s, p, size) && UnqueuedGrowth(s, p, size) && q in s.mms
    ensures var t := Step(Documented, s, Alloc(p, rgid, size)).0; Local(t.mms[q], t.ram, t.swp)
  {
    var t := Step(Documented, s, Alloc(p, rgid, size)).0;
    FreshFrames(s.ram.free, PagesFor(size));
    GrowthFifo(s, p, rgid, size);
    forall m ensures
      && (t.mms[q].SlotOf(m).Resident? ==> t.mms[q].SlotOf(m).fpn < t.ram.Frames())
      && (t.mms[q].SlotOf(m).Swapped? ==> t.mms[q].SlotOf(m).off < t.swp.Frames())
      && (m in t.mms[q].fifo ==> t.mms[q].SlotOf(m).Resident?)
    {
      GrowthSlots(s, p, rgid, size, q, m);
      assert t.mms[q].SlotOf(m) == SlotAt(t, q, m);
      assert s.mms[q].SlotOf(m) == SlotAt(s, q, m);
    }
  }

  lemma GrowthExclusive(s: Sys, p: nat, rgid: S.Rgid, size: nat)
    requires Inv(s) && Growing(s, p, size)
    ensures var t := Step(Documented, s, Alloc(p, rgid, size)).0;
      Exclusive(t) && FreeUnused(t) && DevOk(t.ram) && DevOk(t.swp)
  {
    var t := Step(Documented, s, Alloc(p, rgid, size)).0;
    GrowthDevices(s, p, rgid, size);
    FreshFrames(s.ram.free, PagesFor(size));
    forall q, m, q', m' | SlotAt(t, q, m) == SlotAt(t, q', m') && !SlotAt(t, q, m).Unmapped?
      ensures q == q' && m == m'
    {
      GrowthSlots(s, p, rgid, size, q, m);
      GrowthSlots(s, p, rgid, size, q', m');
    }
    forall q, m ensures
      && (SlotAt(t, q, m).Resident? ==> SlotAt(t, q, m).fpn !in t.ram.free)
      && (SlotAt(t, q, m).Swapped? ==> SlotAt(t, q, m).off !in t.swp.free)
    {
      GrowthSlots(s, p, rgid, size, q, m);
    }
  }

  /** The exact condition under which a growth keeps the memory system in order: it maps no page that
      is in the victim queue. */
  lemma InvIffUnqueued(s: Sys, p: nat, rgid: S.Rgid, size: nat)
    requires Inv(s) && Growing(s, p, size)
    ensures Inv(Step(Documented, s, Alloc(p, rgid, size)).0) <==> UnqueuedGrowth(s, p, size)
  {
    var t := Step(Documented, s, Alloc(p, rgid, size)).0;
    GrowthFifo(s, p, rgid, size);
    if UnqueuedGrowth(s, p, size) {
      GrowthExclusive(s, p, rgid, size);
      forall q | q in t.mms ensures Local(t.mms[q], t.ram, t.swp) {
        GrowthLocal(s, p, rgid, size, q);
      }
    }
  }

  /** The exact condition under which such a growth keeps the bytes of every mapped page. */
  lemma KeepsIffHarmless(s: Sys, p: nat, rgid: S.Rgid, size: nat)
    requires Inv(s) && Growing(s, p, size) && UnqueuedGrowth(s, p, size)
    ensures KeepsContents(s, Step(Documented, s, Alloc(p, rgid, size)).0) <==> HarmlessGrowth(s, p, size)
  {
    var t := Step(Documented, s, Alloc(p, rgid, size)).0;
    forall q: nat, m: nat ensures GrownPage(s, t, p, size, q, m) {
      GrowthBytes(s, p, rgid, size, q, m);
    }
    KeepsIffSame(s, t, p, size);
  }

  /** What the growth does to page m of process q. */
  ghost predicate GrownPage(s: Sys, t: Sys, p: nat, size: nat, q: nat, m: nat)
    requires Growing(s, p, size)
  {
    if q == p && InGrowth(s, p, size, m) then
      SlotAt(t, q, m).Resident? && Contents(t, q, m) == FrameBytes(s.ram, s.ram.free[m - FirstPage(s, p)])
    else
      SlotAt(t, q, m) == SlotAt(s, q, m) && Contents(t, q, m) == Contents(s, q, m)
  }

  lemma GrowthBytes(s: Sys, p: nat, rgid: S.Rgid, size: nat, q: nat, m: nat)
    requires Inv(s) && Growing(s, p, size)
    ensures GrownPage(s, Step(Documented, s, Alloc(p, rgid, size)).0, p, size, q, m)
  {
    GrowthSlots(s, p, rgid, size, q, m);
    GrowthDevices(s, p, rgid, size);
    SameStorage(s, Step(Documented, s, Alloc(p, rgid, size)).0);
  }

  lemma SameStorage(s: Sys, t: Sys)
    requires t.ram.storage == s.ram.storage && t.swp == s.swp
    ensures forall f :: FrameBytes(t.ram, f) == FrameBytes(s.ram, f)
  {
  }

  lemma KeepsIffSame(s: Sys, t: Sys, p: nat, size: nat)
    requires Growing(s, p, size) && UnqueuedGrowth(s, p, size)
    requires forall q: nat, m: nat :: GrownPage(s, t, p, size, q, m)
    ensures KeepsContents(s, t) <==> HarmlessGrowth(s, p, size)
  {
    if KeepsContents(s, t) {
      forall n: nat | InGrowth(s, p, size, n) && !SlotAt(s, p, n).Unmapped?
        ensures Contents(s, p, n) == FrameBytes(s.ram, s.ram.free[n - FirstPage(s, p)])
      {
        assert GrownPage(s, t, p, size, p, n);
      }
    }
    if HarmlessGrowth(s, p, size) {
      forall q: nat, m: nat | !SlotAt(s, q, m).Unmapped?
        ensures !SlotAt(t, q, m).Unmapped? && Contents(t, q, m) == Contents(s, q, m)
      {
        assert GrownPage(s, t, p, size, q, m);
      }
    }
  }

  lemma GrowthConserves(s: Sys, p: nat, rgid: S.Rgid, size: nat)
    requires Inv(s) && Growing(s, p, size) && CleanGrowth(s, p, size) && Conserved(s)
    ensures Conserved(Step(Documented, s, Alloc(p, rgid, size)).0)
  {
    var t := Step(Documented, s, Alloc(p, rgid, size)).0;
    GrowthDevices(s, p, rgid, size);
    forall q: nat, m: nat ensures GrownSlot(s, t, p, size, q, m) {
      GrowthSlots(s, p, rgid, size, q, m);
    }
    MappingConserves(s, t, p, size);
  }

  ghost predicate GrownSlot(s: Sys, t: Sys, p: nat, size: nat, q: nat, m: nat)
    requires Growing(s, p, size)
  {
    SlotAt(t, q, m) ==
      if q == p && InGrowth(s, p, size, m) then Resident(s.ram.free[m - FirstPage(s, p)]) else SlotAt(s, q, m)
  }

  /** Moving frames off the free list onto unmapped pages loses none. */
  lemma MappingConserves(s: Sys, t: Sys, p: nat, size: nat)
    requires Conserved(s) && Growing(s, p, size) && CleanGrowth(s, p, size)
    requires t.ram == s.ram.(free := s.ram.free[PagesFor(size)..]) && t.swp == s.swp
    requires forall q: nat, m: nat :: GrownSlot(s, t, p, size, q, m)
    ensures Conserved(t)
  {
    var k, a := PagesFor(size), FirstPage(s, p);
    forall slot: Slot | Backed(s, slot) && !slot.Unmapped? ensures Backed(t, slot) {
      var q: nat, m: nat :| SlotAt(s, q, m) == slot;
      assert GrownSlot(s, t, p, size, q, m);
      assert SlotAt(t, q, m) == slot;
    }
    forall f | f in s.ram.free ensures f in t.ram.free || Backed(t, Resident(f)) {
      var i :| 0 <= i < |s.ram.free| && s.ram.free[i] == f;
      if i < k {
        assert GrownSlot(s, t, p, size, p, a + i);
        assert SlotAt(t, p, a + i) == Resident(f);
      } else {
        assert t.ram.free[i - k] == f;
      }
    }
  }

  /** A growth that runs out of frames, or no growth at all, maps nothing. */
  lemma NoMapping(s: Sys, p: nat, rgid: S.Rgid, size: nat)
    requires Inv(s) && p in s.mms && !Growing(s, p, size)
    ensures var t := Step(Documented, s, Alloc(p, rgid, size)).0;
      && Inv(t) && KeepsContents(s, t)
      && (forall q, m :: SlotAt(t, q, m) == SlotAt(s, q, m))
      && (Conserved(s) && Served(s, p, size) ==> Conserved(t))
  {
    var t := Step(Documented, s, Alloc(p, rgid, size)).0;
    SameEntries(s.mms[p], t.mms[p], s.ram, s.swp);
    assert forall q, m :: SlotAt(t, q, m) == SlotAt(s, q, m);
    assert t.ram.free == s.ram.free || (t.ram.free == [] && !Served(s, p, size));
    var u := t.(ram := s.ram);
    assert forall q, m :: SlotAt(u, q, m) == SlotAt(t, q, m);
    SameSlots(s, u);
    NoneFree(u, t);
  }

  /** An empty free list breaks nothing but conservation. */
  lemma NoneFree(u: Sys, t: Sys)
    requires Inv(u) && t.mms == u.mms && t.swp == u.swp && t.ram.storage == u.ram.storage
    requires t.ram.free == u.ram.free || t.ram.free == []
    ensures Inv(t) && KeepsContents(u, t)
  {
    assert forall q, m :: SlotAt(t, q, m) == SlotAt(u, q, m);
    SameStorage(u, t);
  }

  /** The exact condition under which a growth loses no frame: it maps only unmapped pages. */
  lemma ConservedIffClean(s: Sys, p: nat, rgid: S.Rgid, size: nat)
    requires Inv(s) && Conserved(s) && Growing(s, p, size)
    ensures Conserved(Step(Documented, s, Alloc(p, rgid, size)).0) <==> CleanGrowth(s, p, size)
  {
    var t := Step(Documented, s, Alloc(p, rgid, size)).0;
    if CleanGrowth(s, p, size) {
      GrowthConserves(s, p, rgid, size);
    } else {
      var n :| InGrowth(s, p, size, n) && !SlotAt(s, p, n).Unmapped?;
      FrameLost(s, p, rgid, size, n);
    }
  }

  lemma FrameLost(s: Sys, p: nat, rgid: S.Rgid, size: nat, n: nat)
    requires Inv(s) && Growing(s, p, size) && InGrowth(s, p, size, n) && !SlotAt(s, p, n).Unmapped?
    ensures !Conserved(Step(Documented, s, Alloc(p, rgid, size)).0)
  {
    var t, lost := Step(Documented, s, Alloc(p, rgid, size)).0, SlotAt(s, p, n);
    assert lost == s.mms[p].SlotOf(n);
    GrowthDevices(s, p, rgid, size);
    FreshFrames(s.ram.free, PagesFor(size));
    forall q, m ensures SlotAt(t, q, m) != lost {
      GrowthSlots(s, p, rgid, size, q, m);
    }
    assert !Backed(t, lost);
  }

  // ----- Any step

  ghost predicate Orderly(s: Sys, op: Op) { op.Alloc? ==> UnqueuedGrowth(s, op.pid, op.size) }

  /** Every step but a growth over a queued page keeps frames exclusive, off the free lists, in range
      and within the fields of an entry, by either test. */
  lemma StepInv(test: Test, s: Sys, op: Op)
    requires Inv(s) && Allowed(s, op) && Orderly(s, op)
    ensures Inv(Step(test, s, op).0)
  {
    match op
    case Load(p) => LoadInv(s, p);
    case Alloc(p, rgid, size) =>
      if Growing(s, p, size) { InvIffUnqueued(s, p, rgid, size); } else { NoMapping(s, p, rgid, size); }
    case Free(p, rgid) => FreeInv(s, p, rgid);
    case _ => AccessInv(test, s, op);
  }

  lemma StepConserves(test: Test, s: Sys, op: Op)
    requires Inv(s) && Allowed(s, op) && Conserved(s)
    requires op.Alloc? ==> CleanGrowth(s, op.pid, op.size) && Served(s, op.pid, op.size)
    ensures Conserved(Step(test, s, op).0)
  {
    match op
    case Load(p) => LoadInv(s, p);
    case Alloc(p, rgid, size) =>
      if Growing(s, p, size) { GrowthConserves(s, p, rgid, size); } else { NoMapping(s, p, rgid, size); }
    case Free(p, rgid) => FreeInv(s, p, rgid);
    case _ => AccessInv(test, s, op);
  }

  // ----- Isolation

  /** The write goes to a swapped-out page that the test as written takes for a resident one, the
      frame read out of the swap offset backs page m of q, and the byte there is another one. */
  predicate Clobbers(test: Test, s: Sys, op: Op, q: nat, m: nat)
    requires Ready(s, op)
  {
    op.Write? && test.AsWritten? && SlotAt(s, op.pid, PageOf(s, op)).Swapped? &&
    var f, o := RawFpn(SlotAt(s, op.pid, PageOf(s, op))), PageOffset(AddressOf(s.mms[op.pid], op.rgid, op.offset));
    SlotAt(s, q, m) == Resident(f) && o < |Contents(s, q, m)| && Contents(s, q, m)[o] != op.data
  }

  /** Isolation, exactly: an instruction of one process never changes another's entries, and changes
      its bytes if and only if it is such a write. */
  lemma IsolationIff(test: Test, s: Sys, op: Op, q: nat, m: nat)
    requires Inv(s) && Allowed(s, op) && q != op.pid
    ensures SlotAt(Step(test, s, op).0, q, m) == SlotAt(s, q, m)
    ensures Contents(Step(test, s, op).0, q, m) == Contents(s, q, m) <==> !Clobbers(test, s, op, q, m)
  {
    match op
    case Load(p) => LoadInv(s, p);
    case Free(p, rgid) => FreeInv(s, p, rgid);
    case Alloc(p, rgid, size) => AllocIsolation(s, p, rgid, size, q, m);
    case Read(p, rgid, offset) => AccessIsolation(test, s, p, PageOf(s, op), q, m);
    case Write(p, rgid, offset, b) =>
      if test.Documented? || !SlotAt(s, p, PageOf(s, op)).Swapped? {
        WriteIsolation(test, s, op, q, m);
      } else {
        StrayStore(s, op, q, m);
      }
  }

  lemma AllocIsolation(s: Sys, p: nat, rgid: S.Rgid, size: nat, q: nat, m: nat)
    requires Inv(s) && p in s.mms && q != p
    ensures var t := Step(Documented, s, Alloc(p, rgid, size)).0;
      SlotAt(t, q, m) == SlotAt(s, q, m) && Contents(t, q, m) == Contents(s, q, m)
  {
    if Growing(s, p, size) {
      GrowthSlots(s, p, rgid, size, q, m);
      GrowthDevices(s, p, rgid, size);
      forall f ensures FrameBytes(Step(Documented, s, Alloc(p, rgid, size)).0.ram, f) == FrameBytes(s.ram, f) {}
    } else {
      NoMapping(s, p, rgid, size);
    }
  }

  lemma AccessIsolation(test: Test, s: Sys, p: nat, n: nat, q: nat, m: nat)
    requires Inv(s) && p in s.mms && q != p
    ensures var t := After(s, p, GetPageOf(test, s, p, n));
      SlotAt(t, q, m) == SlotAt(s, q, m) && Contents(t, q, m) == Contents(s, q, m)
  {
    AccessKeeps(test, s, p, n);
    AccessMaps(test, s, p, n, q, m);
  }

  lemma WriteIsolation(test: Test, s: Sys, op: Op, q: nat, m: nat)
    requires Inv(s) && op.Write? && Allowed(s, op) && q != op.pid
    requires test.Documented? || !SlotAt(s, op.pid, PageOf(s, op)).Swapped?
    ensures SlotAt(Step(test, s, op).0, q, m) == SlotAt(s, q, m)
    ensures Contents(Step(test, s, op).0, q, m) == Contents(s, q, m)
  {
    var fpn, n, o, u := AccessShape(test, s, op);
    assert SlotAt(u, q, m) == SlotAt(s, q, m);
    SameElsewhere(s, u, q, m);
    StoreElsewhere(u, op, fpn, n, o, Step(test, s, op), q, m);
  }

  lemma SameElsewhere(s: Sys, u: Sys, q: nat, m: nat)
    requires KeepsContents(s, u) && SlotAt(u, q, m) == SlotAt(s, q, m)
    ensures Contents(u, q, m) == Contents(s, q, m)
  {
  }

  lemma StoreElsewhere(u: Sys, op: Op, fpn: Option<nat>, n: nat, o: nat, te: (Sys, Event), q: nat, m: nat)
    requires Inv(u) && op.Write? && q != op.pid && Outcome(op, u, fpn, n, o, te)
    ensures SlotAt(te.0, q, m) == SlotAt(u, q, m) && Contents(te.0, q, m) == Contents(u, q, m)
  {
    if fpn.Some? { PutKeeps(u, fpn.value, o, op.data); }
  }

  /** A write as written to a swapped-out page. */
  lemma StrayStore(s: Sys, op: Op, q: nat, m: nat)
    requires Inv(s) && op.Write? && Allowed(s, op) && q != op.pid && SlotAt(s, op.pid, PageOf(s, op)).Swapped?
    ensures SlotAt(Step(AsWritten, s, op).0, q, m) == SlotAt(s, q, m)
    ensures Contents(Step(AsWritten, s, op).0, q, m) == Contents(s, q, m) <==> !Clobbers(AsWritten, s, op, q, m)
  {
    var addr, f := AddressOf(s.mms[op.pid], op.rgid, op.offset), RawFpn(SlotAt(s, op.pid, PageOf(s, op)));
    StrayShape(s, op, addr, f);
    StoreAt(s, f, PageOffset(addr), op.data, q, m);
  }

  lemma StrayShape(s: Sys, op: Op, addr: nat, f: nat)
    requires Inv(s) && op.Write? && Allowed(s, op) && SlotAt(s, op.pid, PageOf(s, op)).Swapped?
    requires addr == AddressOf(s.mms[op.pid], op.rgid, op.offset) && f == RawFpn(SlotAt(s, op.pid, PageOf(s, op)))
    ensures Step(AsWritten, s, op).0 ==
      if Physical(f, addr) < |s.ram.storage| then s.(ram := PutByte(s.ram, Physical(f, addr), op.data)) else s
  {
    AsWrittenSwapped(s.mms[op.pid], s.ram, s.swp, PageNumber(addr), addr);
    assert s.mms[op.pid := s.mms[op.pid]] == s.mms;
  }

  /** A byte stored anywhere in RAM changes page m of q exactly when it falls into the page's frame
      and is another byte. */
  lemma StoreAt(s: Sys, f: nat, o: nat, b: Byte, q: nat, m: nat)
    requires Inv(s) && o < PAGESZ
    ensures var t := if f * PAGESZ + o < |s.ram.storage| then s.(ram := PutByte(s.ram, f * PAGESZ + o, b)) else s;
      && SlotAt(t, q, m) == SlotAt(s, q, m)
      && (Contents(t, q, m) == Contents(s, q, m) <==>
            !(SlotAt(s, q, m) == Resident(f) && o < |Contents(s, q, m)| && Contents(s, q, m)[o] != b))
  {
    assert SlotAt(s, q, m).Resident? ==> SlotAt(s, q, m) == s.mms[q].SlotOf(m);
    if f < s.ram.Frames() {
      PutKeeps(s, f, o, b);
    } else if f * PAGESZ + o < |s.ram.storage| {
      assert s.ram.Frames() * PAGESZ <= f * PAGESZ;
      PutPastFrames(s, f * PAGESZ + o, b);
    }
  }

  /** Isolation: whatever one process does by a test that finds the page where it is, another's
      entries and bytes stay as they are. */
  lemma Isolation(test: Test, s: Sys, op: Op, q: nat, m: nat)
    requires Inv(s) && Allowed(s, op) && q != op.pid
    requires test.Documented? || ((op.Read? || op.Write?) ==> !SlotAt(s, op.pid, PageOf(s, op)).Swapped?)
    ensures SlotAt(Step(test, s, op).0, q, m) == SlotAt(s, q, m)
    ensures Contents(Step(test, s, op).0, q, m) == Contents(s, q, m)
  {
    IsolationIff(test, s, op, q, m);
  }
}
