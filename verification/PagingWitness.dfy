/** A calculus for short concrete programs: what is known of the state before and after each of their
    instructions. */
module PagingWitness {
  import opened Common
  import opened Memphy
  import opened Pte
  import opened Paging
  import opened PagingSystem
  import opened PagingSteps
  import opened PagingRuns
  import S = Space

  /** What a program needs to know of a state that it has reached: every memory map, the free lists,
      the byte of RAM at one address, and the events so far. */
  datatype World = World(mms: map<nat, Mm>, ramFree: seq<nat>, swpFree: seq<nat>, byte: Byte, trace: seq<Event>)

  ghost predicate Describes(s: Sys, w: World, at: nat) {
    && s.mms == w.mms && s.ram.free == w.ramFree && s.swp.free == w.swpFree
    && at < |s.ram.storage| && s.ram.storage[at] == w.byte
  }

  /** op leads from every state that w describes, on devices of b's sizes, to one that w' describes. */
  ghost predicate Links(test: Test, b: Sys, at: nat, w: World, op: Op, w': World) {
    forall s :: Describes(s, w, at) && SameSizes(b, s) ==> Leads(test, s, at, w, op, w')
  }

  ghost predicate Leads(test: Test, s: Sys, at: nat, w: World, op: Op, w': World) {
    Allowed(s, op) &&
    var (t, e) := Step(test, s, op);
    SameSizes(s, t) && Describes(t, w', at) && w'.trace == w.trace + [e]
  }

  ghost predicate Linked(test: Test, b: Sys, at: nat, ops: seq<Op>, ws: seq<World>) {
    |ws| == |ops| + 1 && forall i :: 0 <= i < |ops| ==> Links(test, b, at, ws[i], ops[i], ws[i + 1])
  }

  /** A program whose instructions link the worlds ws leads from b to the last of them. */
  lemma {:induction false} Chain(test: Test, b: Sys, at: nat, ops: seq<Op>, ws: seq<World>)
    requires Linked(test, b, at, ops, ws) && Describes(b, ws[0], at) && ws[0].trace == []
    ensures Legal(test, b, ops) && Trace(test, b, ops) == ws[|ops|].trace
    ensures Describes(State(test, b, ops), ws[|ops|], at) && SameSizes(b, State(test, b, ops))
    decreases |ops|
  {
    if ops == [] {
    } else {
      var n := |ops| - 1;
      Chain(test, b, at, ops[..n], ws[..n + 1]);
      assert Links(test, b, at, ws[n], ops[n], ws[n + 1]);
      assert Leads(test, State(test, b, ops[..n]), at, ws[n], ops[n], ws[n + 1]);
    }
  }

  function BootWorld(ram: seq<Byte>, swp: seq<Byte>, at: nat): World
    requires at < |ram|
  {
    World(map[], AllFrames(|ram| / PAGESZ), AllFrames(|swp| / PAGESZ), ram[at], [])
  }

  // ----- init_mm and growth

  lemma LinkLoad(test: Test, b: Sys, at: nat, w: World, p: nat)
    requires p !in w.mms
    ensures Links(test, b, at, w, Load(p), w.(mms := w.mms[p := InitMm()], trace := w.trace + [Quiet]))
  {
  }

  /** A heap whose free list is init_mm's, after a growth by whole pages. */
  function Grown(m: Mm, rgid: S.Rgid, frames: seq<nat>): Mm
    requires |m.space.sym| == S.SYMBOLS
  {
    var a, end := m.space.sbrk, m.space.sbrk + |frames| * PAGESZ;
    Mm(m.pt + Mapped(a / PAGESZ, frames), Descending(a / PAGESZ, |frames|) + m.fifo,
       S.Space(m.space.sym[rgid := S.Region(a, end)], m.space.free, end))
  }

  lemma GrowStep(test: Test, s: Sys, p: nat, rgid: S.Rgid, k: nat)
    requires p in s.mms && |s.mms[p].space.sym| == S.SYMBOLS && 1 <= k <= |s.ram.free|
    requires s.mms[p].space.free == [S.Region(0, 0)]
    ensures Step(test, s, Alloc(p, rgid, k * PAGESZ)) ==
      (Sys(s.mms[p := Grown(s.mms[p], rgid, s.ram.free[..k])], s.ram.(free := s.ram.free[k..]), s.swp), Quiet)
  {
    var free := [S.Region(0, 0)];
    assert free[1..] == [];
    assert S.FirstFit(free, k * PAGESZ) == 1 + S.FirstFit(free[1..], k * PAGESZ) == 1;
    WholePages(k);
  }

  lemma WholePages(k: nat)
    ensures S.AlignUp(k * PAGESZ) == k * PAGESZ && PagesFor(k * PAGESZ) == k
  {
  }

  lemma LinkGrow(test: Test, b: Sys, at: nat, w: World, p: nat, rgid: S.Rgid, k: nat)
    requires p in w.mms && |w.mms[p].space.sym| == S.SYMBOLS
    requires 1 <= k <= |w.ramFree| && w.mms[p].space.free == [S.Region(0, 0)]
    ensures Links(test, b, at, w, Alloc(p, rgid, k * PAGESZ),
                  w.(mms := w.mms[p := Grown(w.mms[p], rgid, w.ramFree[..k])], ramFree := w.ramFree[k..],
                     trace := w.trace + [Quiet]))
  {
    forall s | Describes(s, w, at) && SameSizes(b, s)
      ensures Leads(test, s, at, w, Alloc(p, rgid, k * PAGESZ),
                    w.(mms := w.mms[p := Grown(w.mms[p], rgid, w.ramFree[..k])], ramFree := w.ramFree[k..],
                       trace := w.trace + [Quiet]))
    {
      GrowStep(test, s, p, rgid, k);
    }
  }

  /** Growth by one page. */
  lemma GrownOne(m: Mm, rgid: S.Rgid, f: nat)
    requires |m.space.sym| == S.SYMBOLS
    ensures var a := m.space.sbrk;
      Grown(m, rgid, [f]) == Mm(m.pt[a / PAGESZ := Resident(f)], [a / PAGESZ] + m.fifo,
                                S.Space(m.space.sym[rgid := S.Region(a, a + PAGESZ)], m.space.free, a + PAGESZ))
  {
    var a := m.space.sbrk / PAGESZ;
    assert [f][..0] == [];
    assert Mapped(a, [f]) == map[a := Resident(f)];
    assert m.pt + map[a := Resident(f)] == m.pt[a := Resident(f)];
    assert Descending(a, 1) == [a];
  }

  // ----- Accesses

  function Last(m: Mm): nat
    requires m.fifo != []
  {
    m.fifo[|m.fifo| - 1]
  }

  /** The memory map after a fault on page n, the swap device's first free frame being k. */
  function Faulted(m: Mm, n: nat, k: nat): Mm
    requires m.fifo != []
  {
    m.(pt := m.pt[Last(m) := Swapped(k)][n := Resident(RawFpn(m.SlotOf(Last(m))))],
       fifo := [n] + m.fifo[..|m.fifo| - 1])
  }

  function FreedBy(m: Mm, n: nat): seq<nat> { if m.SlotOf(n).Swapped? then [m.SlotOf(n).off] else [] }

  lemma CopyElsewhere(src: Dev, sf: nat, dst: Dev, df: nat, a: nat)
    requires sf < src.Frames() && df < dst.Frames() && a < |dst.storage| && a / PAGESZ != df
    ensures CopyPage(src, sf, dst, df).storage[a] == dst.storage[a]
  {
    if a < df * PAGESZ {
    } else {
      assert a >= df * PAGESZ + PAGESZ;
    }
  }

  /** A fault, in these terms. */
  lemma FaultStep(test: Test, m: Mm, ram: Dev, swp: Dev, n: nat, at: nat)
    requires CycleDefined(m, ram, swp, n) && m.fifo != [] && swp.free != [] && at < |ram.storage|
    requires !InRam(test, m.SlotOf(n)) && (m.SlotOf(n).Swapped? ==> at / PAGESZ != RawFpn(m.SlotOf(Last(m))))
    ensures var r := GetPage(test, m, ram, swp, n);
      && r.fpn == Some(RawFpn(m.SlotOf(Last(m)))) && r.mm == Faulted(m, n, swp.free[0])
      && r.ram.free == ram.free && r.swp.free == FreedBy(m, n) + swp.free[1..]
      && |r.ram.storage| == |ram.storage| && |r.swp.storage| == |swp.storage|
      && r.ram.storage[at] == ram.storage[at]
  {
    if m.SlotOf(n).Swapped? {
      var vf := RawFpn(m.SlotOf(Last(m)));
      var out := CopyPage(ram, vf, swp, swp.free[0]).(free := swp.free[1..]);
      CopyElsewhere(out, m.SlotOf(n).off, ram, vf, at);
    }
  }

  /** What a write of data to byte o of frame f leaves at the tracked address. */
  function Hit(f: nat, o: nat, at: nat, data: Byte, was: Byte): Byte { if f * PAGESZ + o == at then data else was }

  lemma TouchStep(s: Sys, op: Op, addr: nat, r: Paged, at: nat)
    requires (op.Read? || op.Write?) && r.fpn.Some? && r.fpn.value < r.ram.Frames() && at < |r.ram.storage|
    requires op.Read? ==> Physical(r.fpn.value, addr) == at
    ensures var (t, e) := Touch(s, op, addr, r); var n, o := PageNumber(addr), PageOffset(addr);
      && t.mms == s.mms[op.pid := r.mm] && t.ram.free == r.ram.free && t.swp == r.swp
      && |t.ram.storage| == |r.ram.storage|
      && (op.Read? ==> t.ram.storage[at] == r.ram.storage[at] && e == Got(op.pid, n, o, r.ram.storage[at]))
      && (op.Write? ==> t.ram.storage[at] == Hit(r.fpn.value, o, at, op.data, r.ram.storage[at])
                        && e == Wrote(op.pid, n, o, op.data))
  {
  }

  /** The access of op, on a memory map m, goes to byte o of page n. */
  predicate GoesTo(op: Op, m: Mm, n: nat, o: nat) {
    && (op.Read? || op.Write?) && |m.space.sym| == S.SYMBOLS
    && PageNumber(AddressOf(m, op.rgid, op.offset)) == n && PageOffset(AddressOf(m, op.rgid, op.offset)) == o
  }

  /** A write that evicts a page. */
  lemma LinkFault(test: Test, b: Sys, at: nat, w: World, op: Op, m: Mm, n: nat, o: nat)
    requires op.Write? && op.pid in w.mms && m == w.mms[op.pid] && GoesTo(op, m, n, o)
    requires m.fifo != [] && w.swpFree != [] && !InRam(test, m.SlotOf(n))
    requires CycleDefined(m, b.ram, b.swp.(free := w.swpFree), n)
    requires m.SlotOf(n).Swapped? ==> at / PAGESZ != RawFpn(m.SlotOf(Last(m)))
    ensures Links(test, b, at, w, op,
      World(w.mms[op.pid := Faulted(m, n, w.swpFree[0])], w.ramFree, FreedBy(m, n) + w.swpFree[1..],
            Hit(RawFpn(m.SlotOf(Last(m))), o, at, op.data, w.byte), w.trace + [Wrote(op.pid, n, o, op.data)]))
  {
    forall s | Describes(s, w, at) && SameSizes(b, s)
      ensures Leads(test, s, at, w, op,
        World(w.mms[op.pid := Faulted(m, n, w.swpFree[0])], w.ramFree, FreedBy(m, n) + w.swpFree[1..],
              Hit(RawFpn(m.SlotOf(Last(m))), o, at, op.data, w.byte), w.trace + [Wrote(op.pid, n, o, op.data)]))
    {
      FaultStep(test, m, s.ram, s.swp, n, at);
      TouchStep(s, op, AddressOf(m, op.rgid, op.offset), GetPage(test, m, s.ram, s.swp, n), at);
    }
  }

  /** The world after an access to a page taken for resident; a read is of the tracked byte. */
  function AfterHit(w: World, op: Op, f: nat, n: nat, o: nat, at: nat): World
    requires op.Read? || op.Write?
  {
    if op.Read? then w.(trace := w.trace + [Got(op.pid, n, o, w.byte)])
    else w.(byte := Hit(f, o, at, op.data, w.byte), trace := w.trace + [Wrote(op.pid, n, o, op.data)])
  }

  lemma LinkHit(test: Test, b: Sys, at: nat, w: World, op: Op, m: Mm, n: nat, o: nat)
    requires op.pid in w.mms && m == w.mms[op.pid] && GoesTo(op, m, n, o)
    requires InRam(test, m.SlotOf(n)) && RawFpn(m.SlotOf(n)) < b.ram.Frames()
    requires CycleDefined(m, b.ram, b.swp.(free := w.swpFree), n)
    requires op.Read? ==> RawFpn(m.SlotOf(n)) * PAGESZ + o == at
    ensures Links(test, b, at, w, op, AfterHit(w, op, RawFpn(m.SlotOf(n)), n, o, at))
  {
    forall s | Describes(s, w, at) && SameSizes(b, s)
      ensures Leads(test, s, at, w, op, AfterHit(w, op, RawFpn(m.SlotOf(n)), n, o, at))
    {
      TouchStep(s, op, AddressOf(m, op.rgid, op.offset), GetPage(test, m, s.ram, s.swp, n), at);
      assert s.mms[op.pid := m] == s.mms;
    }
  }

  // ----- A process that strays past its only page

  function OneRegion(): S.Space {
    S.Space(S.Empty().sym[0 := S.Region(0, 256)], [S.Region(0, 0)], 256)
  }

  function OnePage(f: nat): Mm { Mm(map[0 := Resident(f)], [0], OneRegion()) }

  lemma LinkOnePage(test: Test, b: Sys, at: nat, w: World, p: nat)
    requires p in w.mms && w.mms[p] == InitMm() && w.ramFree != []
    ensures Links(test, b, at, w, Alloc(p, 0, 256),
      w.(mms := w.mms[p := OnePage(w.ramFree[0])], ramFree := w.ramFree[1..], trace := w.trace + [Quiet]))
  {
    LinkGrow(test, b, at, w, p, 0, 1);
    assert w.ramFree[..1] == [w.ramFree[0]];
    OnePageIs(w.ramFree[0]);
    assert Alloc(p, 0, 1 * PAGESZ) == Alloc(p, 0, 256);
  }

  lemma OnePageIs(f: nat)
    ensures Grown(InitMm(), 0, [f]) == OnePage(f)
  {
    GrownOne(InitMm(), 0, f);
    assert map[][0 := Resident(f)] == map[0 := Resident(f)];
    assert InitMm().space.sym[0 := S.Region(0, PAGESZ)] == OneRegion().sym;
  }

  /** Its page 0 went to swap frame k, and page 1 took over frame f. */
  function StrayedMm(f: nat, k: nat): Mm { Mm(map[0 := Swapped(k), 1 := Resident(f)], [1], OneRegion()) }

  lemma StrayedIs(f: nat, k: nat)
    ensures Faulted(OnePage(f), 1, k) == StrayedMm(f, k)
  {
    assert map[0 := Resident(f)][0 := Swapped(k)][1 := Resident(f)] == map[0 := Swapped(k), 1 := Resident(f)];
    assert [1] + [0][..0] == [1];
  }

  /** A write past the end of the only region. */
  lemma LinkStray(test: Test, b: Sys, at: nat, w: World, p: nat, f: nat, x: Byte)
    requires p in w.mms && w.mms[p] == OnePage(f) && f < b.ram.Frames()
    requires w.swpFree != [] && w.swpFree[0] < b.swp.Frames()
    ensures Links(test, b, at, w, Write(p, 0, 256, x),
      World(w.mms[p := StrayedMm(f, w.swpFree[0])], w.ramFree, w.swpFree[1..], Hit(f, 0, at, x, w.byte),
            w.trace + [Wrote(p, 1, 0, x)]))
  {
    assert OnePage(f).SlotOf(1) == Unmapped && OnePage(f).SlotOf(0) == Resident(f);
    LinkFault(test, b, at, w, Write(p, 0, 256, x), OnePage(f), 1, 0);
    StrayedIs(f, w.swpFree[0]);
    assert [] + w.swpFree[1..] == w.swpFree[1..];
  }
}
