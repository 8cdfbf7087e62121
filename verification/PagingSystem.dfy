/** All processes together: what every page access, growth and process start keeps. */
module PagingSystem {
  import opened Common
  import opened Memphy
  import opened Pte
  import opened Paging
  import S = Space

  /** One memory map per loaded process; RAM and the active swap device are shared. */
  datatype Sys = Sys(mms: map<nat, Mm>, ram: Dev, swp: Dev)

  function SlotAt(s: Sys, p: nat, n: nat): Slot {
    if p in s.mms then s.mms[p].SlotOf(n) else Unmapped
  }

  /** No RAM frame and no swap frame backs two pages. */
  ghost predicate Exclusive(s: Sys) {
    forall p, n, q, m :: SlotAt(s, p, n) == SlotAt(s, q, m) && !SlotAt(s, p, n).Unmapped? ==> p == q && n == m
  }

  /** No frame that backs a page is on a free list. */
  ghost predicate FreeUnused(s: Sys) {
    && (forall p, n :: SlotAt(s, p, n).Resident? ==> SlotAt(s, p, n).fpn !in s.ram.free)
    && (forall p, n :: SlotAt(s, p, n).Swapped? ==> SlotAt(s, p, n).off !in s.swp.free)
  }

  ghost predicate Inv(s: Sys) {
    && DevOk(s.ram) && DevOk(s.swp) && Addressable(s.ram, s.swp)
    && (forall p :: p in s.mms ==> Local(s.mms[p], s.ram, s.swp) && |s.mms[p].space.sym| == S.SYMBOLS)
    && Exclusive(s) && FreeUnused(s)
  }

  ghost predicate Backed(s: Sys, slot: Slot) {
    exists p, n :: SlotAt(s, p, n) == slot
  }

  /** Every frame is on its free list or backs a page: none is lost. */
  ghost predicate Conserved(s: Sys) {
    && (forall f :: 0 <= f < s.ram.Frames() ==> f in s.ram.free || Backed(s, Resident(f)))
    && (forall k :: 0 <= k < s.swp.Frames() ==> k in s.swp.free || Backed(s, Swapped(k)))
  }

  /** The bytes of frame f, if the device has it. */
  function FrameBytes(d: Dev, f: nat): seq<Byte> { if f < d.Frames() then d.Page(f) else [] }

  /** The 256 bytes of a page, wherever they are kept. */
  function Contents(s: Sys, p: nat, n: nat): seq<Byte> {
    match SlotAt(s, p, n)
    case Unmapped => []
    case Resident(f) => FrameBytes(s.ram, f)
    case Swapped(k) => FrameBytes(s.swp, k)
  }

  /** Every page that was mapped still is, with the same bytes. */
  ghost predicate KeepsContents(s: Sys, t: Sys) {
    forall q, m :: !SlotAt(s, q, m).Unmapped? ==>
      !SlotAt(t, q, m).Unmapped? && Contents(t, q, m) == Contents(s, q, m)
  }

  ghost predicate SameSizes(s: Sys, t: Sys) {
    |t.ram.storage| == |s.ram.storage| && |t.swp.storage| == |s.swp.storage|
  }

  /** The system after process p's page access. */
  function After(s: Sys, p: nat, r: Paged): Sys { Sys(s.mms[p := r.mm], r.ram, r.swp) }

  function GetPageOf(test: Test, s: Sys, p: nat, n: nat): Paged
    requires p in s.mms && CycleDefined(s.mms[p], s.ram, s.swp, n)
  {
    GetPage(test, s.mms[p], s.ram, s.swp, n)
  }

  // ----- The exchange of a victim for the requested page

  ghost predicate Exchanges(s: Sys, p: nat, n: nat)
    requires Inv(s)
  {
    p in s.mms && !SlotAt(s, p, n).Resident? && s.mms[p].fifo != [] && s.swp.free != []
  }

  ghost function Victim(s: Sys, p: nat): nat
    requires p in s.mms && s.mms[p].fifo != []
  {
    s.mms[p].fifo[|s.mms[p].fifo| - 1]
  }

  lemma SlotsAfter(s: Sys, p: nat, n: nat, q: nat, m: nat)
    requires Inv(s) && Exchanges(s, p, n)
    ensures var v := Victim(s, p);
      && v != n && SlotAt(s, p, v).Resident?
      && SlotAt(After(s, p, GetPageOf(Documented, s, p, n)), q, m) ==
           if q == p && m == n then Resident(SlotAt(s, p, v).fpn)
           else if q == p && m == v then Swapped(s.swp.free[0])
           else SlotAt(s, q, m)
  {
    ExchangeSlots(s.mms[p], s.ram, s.swp, n, m);
  }

  lemma ExchangeExclusive(s: Sys, p: nat, n: nat)
    requires Inv(s) && Exchanges(s, p, n)
    ensures Exclusive(After(s, p, GetPageOf(Documented, s, p, n)))
  {
    var t := After(s, p, GetPageOf(Documented, s, p, n));
    forall q, m, q', m' | SlotAt(t, q, m) == SlotAt(t, q', m') && !SlotAt(t, q, m).Unmapped?
      ensures q == q' && m == m'
    {
      SlotsAfter(s, p, n, q, m);
      SlotsAfter(s, p, n, q', m');
      assert s.swp.free[0] in s.swp.free;
      assert SlotAt(s, p, Victim(s, p)).Resident?;
    }
  }

  lemma ExchangeFreeUnused(s: Sys, p: nat, n: nat)
    requires Inv(s) && Exchanges(s, p, n)
    ensures var t := After(s, p, GetPageOf(Documented, s, p, n)); FreeUnused(t) && DevOk(t.ram) && DevOk(t.swp)
  {
    var t, free := After(s, p, GetPageOf(Documented, s, p, n)), s.swp.free;
    var back := if SlotAt(s, p, n).Swapped? then [SlotAt(s, p, n).off] else [];
    ExchangePages(s.mms[p], s.ram, s.swp, n);
    assert t.ram.free == s.ram.free && t.swp.free == back + free[1..];
    FreeListAfter(free, back);
    forall q, m ensures
      && (SlotAt(t, q, m).Resident? ==> SlotAt(t, q, m).fpn !in t.ram.free)
      && (SlotAt(t, q, m).Swapped? ==> SlotAt(t, q, m).off !in t.swp.free)
    {
      SlotsAfter(s, p, n, q, m);
    }
  }

  lemma FreeListAfter(free: seq<nat>, back: seq<nat>)
    requires NoDup(free) && free != [] && |back| <= 1 && (back != [] ==> back[0] !in free)
    ensures NoDup(back + free[1..]) && free[0] !in back + free[1..]
    ensures forall g :: g in back + free[1..] <==> g in back || (g in free && g != free[0])
  {
    var rest := free[1..];
    HeadTail(free, rest);
    if back == [] { assert back + rest == rest; } else { assert back + rest == [back[0]] + rest; }
  }

  lemma HeadTail(free: seq<nat>, rest: seq<nat>)
    requires NoDup(free) && free != [] && rest == free[1..]
    ensures NoDup(rest) && free[0] !in rest
    ensures forall g :: g in free <==> g == free[0] || g in rest
  {
    assert free == [free[0]] + rest;
    assert forall i :: 0 <= i < |rest| ==> rest[i] == free[i + 1];
  }

  lemma ExchangeLocal(s: Sys, p: nat, n: nat, q: nat)
    requires Inv(s) && Exchanges(s, p, n) && q in s.mms
    ensures var t := After(s, p, GetPageOf(Documented, s, p, n)); Local(t.mms[q], t.ram, t.swp)
  {
    var t := After(s, p, GetPageOf(Documented, s, p, n));
    ExchangePages(s.mms[p], s.ram, s.swp, n);
    ExchangeFifo(s.mms[p], s.ram, s.swp, n);
    forall m ensures
      && (t.mms[q].SlotOf(m).Resident? ==> t.mms[q].SlotOf(m).fpn < t.ram.Frames())
      && (t.mms[q].SlotOf(m).Swapped? ==> t.mms[q].SlotOf(m).off < t.swp.Frames())
    {
      SlotsAfter(s, p, n, q, m);
      assert t.mms[q].SlotOf(m) == SlotAt(t, q, m);
      assert s.swp.free[0] in s.swp.free;
      assert SlotAt(s, p, Victim(s, p)) == s.mms[p].SlotOf(Victim(s, p));
      assert SlotAt(s, q, m) == s.mms[q].SlotOf(m);
    }
  }

  lemma ExchangeInv(s: Sys, p: nat, n: nat)
    requires Inv(s) && Exchanges(s, p, n)
    ensures var t := After(s, p, GetPageOf(Documented, s, p, n)); Inv(t) && SameSizes(s, t)
  {
    var t := After(s, p, GetPageOf(Documented, s, p, n));
    ExchangeExclusive(s, p, n);
    ExchangeFreeUnused(s, p, n);
    ExchangePages(s.mms[p], s.ram, s.swp, n);
    forall q | q in t.mms ensures Local(t.mms[q], t.ram, t.swp) && |t.mms[q].space.sym| == S.SYMBOLS {
      ExchangeLocal(s, p, n, q);
    }
  }

  lemma ExchangeContents(s: Sys, p: nat, n: nat)
    requires Inv(s) && Exchanges(s, p, n)
    requires Inv(After(s, p, GetPageOf(Documented, s, p, n)))
    ensures KeepsContents(s, After(s, p, GetPageOf(Documented, s, p, n)))
  {
    var t, v := After(s, p, GetPageOf(Documented, s, p, n)), Victim(s, p);
    ExchangePages(s.mms[p], s.ram, s.swp, n);
    forall q, m | !SlotAt(s, q, m).Unmapped?
      ensures !SlotAt(t, q, m).Unmapped? && Contents(t, q, m) == Contents(s, q, m)
    {
      SlotsAfter(s, p, n, q, m);
      assert SlotAt(s, p, v).Resident?;
      match SlotAt(s, q, m)
      case Resident(f) =>
        assert f < s.ram.Frames() by { assert s.mms[q].SlotOf(m) == SlotAt(s, q, m); }
      case Swapped(k) =>
        assert k < s.swp.Frames() by { assert s.mms[q].SlotOf(m) == SlotAt(s, q, m); }
        assert k != s.swp.free[0];
    }
  }

  lemma ExchangeConserves(s: Sys, p: nat, n: nat)
    requires Inv(s) && Exchanges(s, p, n) && Conserved(s)
    ensures Conserved(After(s, p, GetPageOf(Documented, s, p, n)))
  {
    var t, v, k := After(s, p, GetPageOf(Documented, s, p, n)), Victim(s, p), s.swp.free[0];
    ExchangePages(s.mms[p], s.ram, s.swp, n);
    var vf := SlotAt(s, p, v).fpn;
    forall f | 0 <= f < t.ram.Frames() ensures f in t.ram.free || Backed(t, Resident(f)) {
      if f !in s.ram.free {
        var q, m :| SlotAt(s, q, m) == Resident(f);
        SlotsAfter(s, p, n, q, m);
        SlotsAfter(s, p, n, p, n);
        assert SlotAt(t, p, n) == Resident(vf);
        assert f == vf || SlotAt(t, q, m) == Resident(f);
      }
    }
    forall g | 0 <= g < t.swp.Frames() ensures g in t.swp.free || Backed(t, Swapped(g)) {
      SlotsAfter(s, p, n, p, v);
      if g == k {
        assert SlotAt(t, p, v) == Swapped(g);
      } else if g in s.swp.free {
        assert g in s.swp.free[1..];
      } else {
        var q, m :| SlotAt(s, q, m) == Swapped(g);
        SlotsAfter(s, p, n, q, m);
        if q == p && m == n {
          assert g in t.swp.free;
        } else {
          assert SlotAt(t, q, m) == Swapped(g);
        }
      }
    }
  }

  // ----- Any page access

  /** An access that fails or finds its page changes at most the victim queue. */
  lemma QuietAccess(test: Test, s: Sys, p: nat, n: nat)
    requires Inv(s) && p in s.mms
    requires InRam(test, SlotAt(s, p, n)) || s.mms[p].fifo == [] || s.swp.free == []
    ensures var t := After(s, p, GetPageOf(test, s, p, n));
      && Inv(t) && SameSizes(s, t) && t.ram == s.ram && t.swp == s.swp
      && (forall q, m :: SlotAt(t, q, m) == SlotAt(s, q, m))
      && KeepsContents(s, t)
      && (Conserved(s) ==> Conserved(t))
  {
    var m, r := s.mms[p], GetPageOf(test, s, p, n);
    var t := After(s, p, r);
    assert r.mm.pt == m.pt && r.mm.space == m.space && (r.mm.fifo == m.fifo || r.mm.fifo == m.fifo[..|m.fifo| - 1]);
    assert forall q, i :: SlotAt(t, q, i) == SlotAt(s, q, i);
    assert Local(r.mm, t.ram, t.swp) by {
      forall i ensures r.mm.SlotOf(i) == m.SlotOf(i) {}
    }
    forall slot | Backed(s, slot) ensures Backed(t, slot) {
      var q, i :| SlotAt(s, q, i) == slot;
      assert SlotAt(t, q, i) == slot;
    }
  }

  /** One page access, by either test, whether it succeeds or fails: frames stay exclusive, every
      mapped page of every process keeps its bytes, and no frame is lost. */
  lemma AccessKeeps(test: Test, s: Sys, p: nat, n: nat)
    requires Inv(s) && p in s.mms
    ensures var t := After(s, p, GetPageOf(test, s, p, n));
      && Inv(t) && SameSizes(s, t) && KeepsContents(s, t)
      && (Conserved(s) ==> Conserved(t))
      && t.mms[p].space == s.mms[p].space
  {
    assert SlotAt(s, p, n) == s.mms[p].SlotOf(n);
    if InRam(test, SlotAt(s, p, n)) || s.mms[p].fifo == [] || s.swp.free == [] {
      QuietAccess(test, s, p, n);
    } else {
      TestsAgree(s.mms[p], s.ram, s.swp, n);
      ExchangeInv(s, p, n);
      ExchangeContents(s, p, n);
      if Conserved(s) { ExchangeConserves(s, p, n); }
    }
  }
}
