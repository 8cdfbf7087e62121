/** Demand paging of one process over the shared RAM and swap devices: pg_getpage, pg_getval,
    pg_setval, find_victim_page (src/libmem.c) and inc_vma_limit (src/mm-vm.c, src/mm64.c), as
    functions on values.  Class MmStruct performs the same steps in place. */
module Paging {
  import opened Common
  import opened Memphy
  import opened Pte
  import S = Space

  /** A page is found in RAM when its entry is PRESENT (the test in the code), or when it is
      PRESENT and not SWAPPED (the test its comment describes). */
  datatype Test = AsWritten | Documented

  /** pt: the entries that were ever set; fifo: newest page first. */
  datatype Mm = Mm(pt: map<nat, Slot>, fifo: seq<nat>, space: S.Space) {
    function SlotOf(n: nat): Slot { if n in pt then pt[n] else Unmapped }
  }

  predicate InRam(test: Test, s: Slot) {
    match test
    case AsWritten => !s.Unmapped?
    case Documented => s.Resident?
  }

  /** Result of a page access: the frame number handed back, and the new state. */
  datatype Paged = Paged(fpn: Option<nat>, mm: Mm, ram: Dev, swp: Dev)

  /** A swap cycle for page n would copy existing frames only.  (Copying others is undefined in the
      source: the devices do not check their bounds.) */
  predicate CycleDefined(m: Mm, ram: Dev, swp: Dev, n: nat) {
    m.fifo != [] && swp.free != [] ==>
      && RawFpn(m.SlotOf(m.fifo[|m.fifo| - 1])) < ram.Frames() && swp.free[0] < swp.Frames()
      && (m.SlotOf(n).Swapped? ==> m.SlotOf(n).off < swp.Frames())
  }

  /** Frame numbers fit the fields of an entry: 13 bits for RAM, 21 for swap. */
  predicate Addressable(ram: Dev, swp: Dev) { ram.Frames() <= MAX_FPN && swp.Frames() <= MAX_SWPOFF }

  /** Every entry names an existing frame; queued pages are resident, each queued once. */
  ghost predicate Local(m: Mm, ram: Dev, swp: Dev)
    ensures Local(m, ram, swp) && DevOk(swp) ==> forall n :: CycleDefined(m, ram, swp, n)
  {
    assert m.fifo != [] ==> m.fifo[|m.fifo| - 1] in m.fifo;
    assert swp.free != [] ==> swp.free[0] in swp.free;
    && (forall n :: m.SlotOf(n).Resident? ==> m.SlotOf(n).fpn < ram.Frames())
    && (forall n :: m.SlotOf(n).Swapped? ==> m.SlotOf(n).off < swp.Frames())
    && NoDup(m.fifo)
    && (forall n :: n in m.fifo ==> m.SlotOf(n).Resident?)
  }

  /** The swap-out / swap-in cycle of pg_getpage for page n, once a victim and a swap frame exist. */
  function Exchange(m: Mm, ram: Dev, swp: Dev, n: nat): Paged
    requires m.fifo != [] && swp.free != [] && CycleDefined(m, ram, swp, n)
  {
    var v, k := m.fifo[|m.fifo| - 1], swp.free[0];
    var vf := RawFpn(m.SlotOf(v));
    var out := CopyPage(ram, vf, swp, k).(free := swp.free[1..]);
    var pt := m.pt[v := Swapped(k)][n := Resident(vf)];
    var m' := m.(pt := pt, fifo := [n] + m.fifo[..|m.fifo| - 1]);
    match m.SlotOf(n)
    case Swapped(was) =>
      Paged(Some(vf), m', CopyPage(out, was, ram, vf), out.(free := [was] + out.free))
    case _ => Paged(Some(vf), m', ram, out)
  }

  /** pg_getpage.  A victim is dropped from the queue before the swap device is found full. */
  function GetPage(test: Test, m: Mm, ram: Dev, swp: Dev, n: nat): Paged
    requires CycleDefined(m, ram, swp, n)
  {
    if InRam(test, m.SlotOf(n)) then Paged(Some(RawFpn(m.SlotOf(n))), m, ram, swp)
    else if m.fifo == [] then Paged(None, m, ram, swp)
    else if swp.free == [] then Paged(None, m.(fifo := m.fifo[..|m.fifo| - 1]), ram, swp)
    else Exchange(m, ram, swp, n)
  }

  /** Physical address of a virtual address whose page sits in frame f. */
  function Physical(f: nat, addr: nat): nat { f * PAGESZ + PageOffset(addr) }

  /** A read of the RAM bus outside the device is undefined in the source. */
  datatype Access = Failed | OutOfBus | Done(data: Byte)

  function ReadByte(r: Paged, addr: nat): Access {
    if r.fpn.None? then Failed
    else if Physical(r.fpn.value, addr) >= |r.ram.storage| then OutOfBus
    else Done(r.ram.storage[Physical(r.fpn.value, addr)])
  }

  function WriteByte(r: Paged, addr: nat, b: Byte): (Access, Dev) {
    if r.fpn.None? then (Failed, r.ram)
    else if Physical(r.fpn.value, addr) >= |r.ram.storage| then (OutOfBus, r.ram)
    else (Done(b), PutByte(r.ram, Physical(r.fpn.value, addr), b))
  }

  // ----- inc_vma_limit

  function PagesFor(size: nat): nat { S.AlignUp(size) / PAGESZ }

  /** The frames of a growth in the order vmap_page_range installs them, newest queue entry first. */
  function Descending(first: nat, k: nat): seq<nat> { seq<nat>(k, i requires 0 <= i < k => first + k - 1 - i) }

  function Mapped(first: nat, frames: seq<nat>): (r: map<nat, Slot>)
    ensures forall n :: n in r <==> first <= n < first + |frames|
    ensures forall n :: n in r ==> r[n] == Resident(frames[n - first])
  {
    if frames == [] then map[]
    else
      var k := |frames| - 1;
      Mapped(first, frames[..k])[first + k := Resident(frames[k])]
  }

  /** vm_map_ram: all the frames at once, or, when the free list runs dry on the way, none is
      mapped and those already taken are lost. */
  function Extend(m: Mm, ram: Dev, mapstart: nat, pages: nat): (Mm, Dev) {
    if pages <= |ram.free| then
      var first := mapstart / PAGESZ;
      (m.(pt := m.pt + Mapped(first, ram.free[..pages]), fifo := Descending(first, pages) + m.fifo),
       ram.(free := ram.free[pages..]))
    else (m, ram.(free := []))
  }

  predicate NeedsGrowth(m: Mm, size: nat) {
    S.FirstFit(m.space.free, size) == |m.space.free| && size > 0
  }

  function AllocPages(m: Mm, ram: Dev, rgid: S.Rgid, size: nat): (Mm, Dev)
    requires |m.space.sym| == S.SYMBOLS
  {
    var (m', ram') := if NeedsGrowth(m, size) then Extend(m, ram, m.space.sbrk, PagesFor(size)) else (m, ram);
    (m'.(space := S.Alloc(m.space, rgid, size, PagesFor(size) <= |ram.free|)), ram')
  }

  /** The break after a growth: past the request, a whole number of pages on, if the free frames hold
      it; exactly past it if not. */
  ghost predicate Moved(was: nat, sbrk: nat, size: nat, frames: nat) {
    if 0 < size <= PAGESZ * frames then was + size <= sbrk < was + size + PAGESZ && (sbrk - was) % PAGESZ == 0
    else sbrk == was + size
  }

  lemma BreakMoved(sbrk: nat, size: nat, frames: nat)
    ensures Moved(sbrk, S.GrownBreak(sbrk, size, PagesFor(size) <= frames), size, frames)
    ensures S.AlignUp(size) / PAGESZ * PAGESZ == S.AlignUp(size)
  {
  }

  // ----- One page access, in full

  /** The three outcomes of a page access.  A page that the test finds costs nothing.  Otherwise the
      access fails if the queue is empty or the swap device full, and then takes exactly the oldest
      page, if any, out of the queue.  Otherwise the oldest page leaves the queue and page n joins it. */
  lemma AccessOutcomes(test: Test, m: Mm, ram: Dev, swp: Dev, n: nat)
    requires CycleDefined(m, ram, swp, n)
    ensures var found := m.SlotOf(n).Resident? || (test.AsWritten? && m.SlotOf(n).Swapped?);
      var r, oldest := GetPage(test, m, ram, swp, n), if m.fifo == [] then [] else [m.fifo[|m.fifo| - 1]];
      && r.mm.space == m.space
      && (found ==> r == Paged(Some(RawFpn(m.SlotOf(n))), m, ram, swp))
      && (r.fpn.None? <==> !found && (m.fifo == [] || swp.free == []))
      && (r.fpn.None? ==> r.mm.pt == m.pt && r.ram == ram && r.swp == swp && m.fifo == r.mm.fifo + oldest)
      && (r.fpn.Some? && !found ==> m.fifo != [] && [n] + m.fifo == r.mm.fifo + oldest)
  {
    if m.fifo != [] {
      var l := |m.fifo| - 1;
      assert m.fifo == m.fifo[..l] + [m.fifo[l]];
      assert [n] + m.fifo == ([n] + m.fifo[..l]) + [m.fifo[l]];
    }
  }

  /** What the exchange does to every entry. */
  lemma ExchangeSlots(m: Mm, ram: Dev, swp: Dev, n: nat, q: nat)
    requires Local(m, ram, swp) && DevOk(swp) && m.fifo != [] && swp.free != []
    requires !m.SlotOf(n).Resident?
    ensures var v := m.fifo[|m.fifo| - 1];
      && v in m.fifo && v != n && m.SlotOf(v).Resident?
      && GetPage(Documented, m, ram, swp, n).mm.SlotOf(q) ==
           if q == n then Resident(m.SlotOf(v).fpn)
           else if q == v then Swapped(swp.free[0])
           else m.SlotOf(q)
  {
    assert m.fifo[|m.fifo| - 1] in m.fifo && swp.free[0] in swp.free;
  }

  lemma ExchangeFifo(m: Mm, ram: Dev, swp: Dev, n: nat)
    requires Local(m, ram, swp) && DevOk(swp) && !m.SlotOf(n).Resident?
    ensures var r := GetPage(Documented, m, ram, swp, n); NoDup(r.mm.fifo)
    ensures var r := GetPage(Documented, m, ram, swp, n);
      forall q :: q in r.mm.fifo ==> r.mm.SlotOf(q).Resident?
  {
    var r, l := GetPage(Documented, m, ram, swp, n), |m.fifo|;
    if l > 0 {
      assert forall i :: 0 <= i < l ==> m.fifo[i] in m.fifo;
      var rest := m.fifo[..l - 1];
      if swp.free == [] {
        assert r.mm.fifo == rest && r.mm.pt == m.pt;
      } else {
        assert r.mm.fifo == [n] + rest;
        forall i | 0 <= i < l - 1 ensures r.mm.SlotOf(rest[i]).Resident? && rest[i] != n {
          ExchangeSlots(m, ram, swp, n, rest[i]);
        }
        ExchangeSlots(m, ram, swp, n, n);
      }
    }
  }

  /** What the exchange does to every frame of RAM and of swap. */
  lemma ExchangePages(m: Mm, ram: Dev, swp: Dev, n: nat)
    requires Local(m, ram, swp) && DevOk(swp) && m.fifo != [] && swp.free != []
    requires !m.SlotOf(n).Resident?
    requires m.SlotOf(n).Swapped? ==> m.SlotOf(n).off !in swp.free
    ensures var v, k := m.fifo[|m.fifo| - 1], swp.free[0];
      var r := GetPage(Documented, m, ram, swp, n);
      && v in m.fifo && m.SlotOf(v).Resident? && k in swp.free
      && |r.ram.storage| == |ram.storage| && |r.swp.storage| == |swp.storage| && r.ram.free == ram.free
      && (forall f :: 0 <= f < ram.Frames() && f != m.SlotOf(v).fpn ==> r.ram.Page(f) == ram.Page(f))
      && (m.SlotOf(n).Swapped? ==> r.ram.Page(m.SlotOf(v).fpn) == swp.Page(m.SlotOf(n).off))
      && (m.SlotOf(n).Unmapped? ==> r.ram.Page(m.SlotOf(v).fpn) == ram.Page(m.SlotOf(v).fpn))
      && (forall f :: 0 <= f < swp.Frames() && f != k ==> r.swp.Page(f) == swp.Page(f))
      && r.swp.Page(k) == ram.Page(m.SlotOf(v).fpn)
      && r.swp.free == (if m.SlotOf(n).Swapped? then [m.SlotOf(n).off] else []) + swp.free[1..]
  {
    var v, k := m.fifo[|m.fifo| - 1], swp.free[0];
    assert v in m.fifo && k in swp.free;
    var vf := m.SlotOf(v).fpn;
    var out := CopyPage(ram, vf, swp, k);
    var out' := out.(free := swp.free[1..]);
    forall f | 0 <= f < swp.Frames() ensures out'.Page(f) == if f == k then ram.Page(vf) else swp.Page(f) {
      PagesAfterCopy(ram, vf, swp, k, f);
      assert out'.Page(f) == out.Page(f);
    }
    if m.SlotOf(n).Swapped? {
      var was := m.SlotOf(n).off;
      forall f | 0 <= f < ram.Frames()
        ensures CopyPage(out', was, ram, vf).Page(f) == if f == vf then out'.Page(was) else ram.Page(f)
      {
        PagesAfterCopy(out', was, ram, vf, f);
      }
      SwapInPages(m, ram, swp, n, out');
    }
  }

  lemma SwapInPages(m: Mm, ram: Dev, swp: Dev, n: nat, out: Dev)
    requires Local(m, ram, swp) && DevOk(swp) && m.fifo != [] && swp.free != []
    requires m.SlotOf(n).Swapped?
    requires m.fifo[|m.fifo| - 1] in m.fifo && swp.free[0] in swp.free
    requires out == CopyPage(ram, m.SlotOf(m.fifo[|m.fifo| - 1]).fpn, swp, swp.free[0]).(free := swp.free[1..])
    ensures var r := GetPage(Documented, m, ram, swp, n);
      && r.swp == out.(free := [m.SlotOf(n).off] + swp.free[1..])
      && forall f :: 0 <= f < swp.Frames() ==> r.swp.Page(f) == out.Page(f)
  {
  }

  // ----- The two residency tests

  /** The tests differ on swapped-out pages only. */
  lemma TestsAgree(m: Mm, ram: Dev, swp: Dev, n: nat)
    requires CycleDefined(m, ram, swp, n)
    ensures !m.SlotOf(n).Swapped? ==>
      GetPage(AsWritten, m, ram, swp, n) == GetPage(Documented, m, ram, swp, n)
  {
  }

  /** With the documented test a successful access leaves the page resident at the frame it returns. */
  lemma DocumentedResident(m: Mm, ram: Dev, swp: Dev, n: nat)
    requires Local(m, ram, swp) && DevOk(swp)
    ensures var r := GetPage(Documented, m, ram, swp, n);
      r.fpn.Some? ==> r.mm.SlotOf(n) == Resident(r.fpn.value)
  {
    if !m.SlotOf(n).Resident? && m.fifo != [] && swp.free != [] {
      ExchangeSlots(m, ram, swp, n, n);
    }
  }

  /** With the test as written this holds exactly when the page was not swapped out before the call. */
  lemma AsWrittenResident(m: Mm, ram: Dev, swp: Dev, n: nat)
    requires Local(m, ram, swp) && DevOk(swp)
    ensures var r := GetPage(AsWritten, m, ram, swp, n);
      (r.fpn.Some? ==> r.mm.SlotOf(n) == Resident(r.fpn.value)) <==> !m.SlotOf(n).Swapped?
  {
    TestsAgree(m, ram, swp, n);
    DocumentedResident(m, ram, swp, n);
  }

  /** What the test as written does with a page swapped out at offset k: it reports frame
      (k mod 256) * 32, the low bits of the swap offset, and brings nothing in. */
  lemma AsWrittenSwapped(m: Mm, ram: Dev, swp: Dev, n: nat, addr: nat)
    requires CycleDefined(m, ram, swp, n) && m.SlotOf(n).Swapped?
    ensures var r, f := GetPage(AsWritten, m, ram, swp, n), (m.SlotOf(n).off % 256) * 32;
      && r == Paged(Some(f), m, ram, swp)
      && ReadByte(r, addr) == (if Physical(f, addr) < |ram.storage|
                               then Done(ram.storage[Physical(f, addr)]) else OutOfBus)
  {
  }
}
