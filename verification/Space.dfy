/** The heap of one process: symbol table, first-fit free-region list and break
    (src/libmem.c, src/mm-vm.c). */
module Space {
  import opened Common

  const SYMBOLS: nat := 30    // PAGING_MAX_SYMTBL_SZ

  type Rgid = x: nat | x < SYMBOLS

  datatype Region = Region(start: nat, end: nat) {
    function Bytes(): nat { if start <= end then end - start else 0 }
  }

  datatype Space = Space(sym: seq<Region>, free: seq<Region>, sbrk: nat)

  /** init_mm: one empty region on the free list. */
  function Empty(): Space {
    Space(seq(SYMBOLS, _ => Region(0, 0)), [Region(0, 0)], 0)
  }

  function AlignUp(size: nat): (r: nat)
    ensures size <= r < size + PAGESZ && r % PAGESZ == 0
  {
    (size + PAGESZ - 1) / PAGESZ * PAGESZ
  }

  predicate Fits(r: Region, size: nat) { r.start + size <= r.end }

  /** Position of the first region that can hold `size` bytes, or the length of the list. */
  function FirstFit(free: seq<Region>, size: nat): (k: nat)
    ensures k <= |free|
    ensures k < |free| ==> Fits(free[k], size)
    ensures forall j :: 0 <= j < k ==> !Fits(free[j], size)
  {
    if free == [] || Fits(free[0], size) then 0 else 1 + FirstFit(free[1..], size)
  }

  /** get_free_vmrg_area's update of the node it carves from. */
  function Carved(free: seq<Region>, k: nat, size: nat): seq<Region>
    requires k < |free|
  {
    var r := free[k];
    if r.start + size < r.end then free[k := Region(r.start + size, r.end)]
    else free[..k] + free[k + 1..]
  }

  /** __alloc when the free list has room */
  function Reuse(s: Space, rgid: Rgid, size: nat): Space
    requires |s.sym| == SYMBOLS && FirstFit(s.free, size) < |s.free|
  {
    var k := FirstFit(s.free, size);
    Space(s.sym[rgid := Region(s.free[k].start, s.free[k].start + size)], Carved(s.free, k, size), s.sbrk)
  }

  /** The break after inc_vma_limit.  An empty request is refused by validate_overlap_vm_area; when
      RAM runs out the break still moves, by the unrounded size. */
  function GrownBreak(sbrk: nat, size: nat, enough: bool): nat {
    if size == 0 then sbrk else if enough then sbrk + AlignUp(size) else sbrk + size
  }

  /** __alloc when the heap has to grow */
  function Grow(s: Space, rgid: Rgid, size: nat, enough: bool): Space
    requires |s.sym| == SYMBOLS
  {
    Space(s.sym[rgid := Region(s.sbrk, s.sbrk + size)], s.free, GrownBreak(s.sbrk, size, enough))
  }

  function Alloc(s: Space, rgid: Rgid, size: nat, enough: bool): Space
    requires |s.sym| == SYMBOLS
  {
    if FirstFit(s.free, size) < |s.free| then Reuse(s, rgid, size) else Grow(s, rgid, size, enough)
  }

  /** enlist_vm_freerg_list: an empty region is refused. */
  function Enlist(free: seq<Region>, r: Region): seq<Region> {
    if r.start >= r.end then free else [r] + free
  }

  /** __free: fails on an id whose region is (0, 0). */
  function Free(s: Space, rgid: Rgid): Space
    requires |s.sym| == SYMBOLS
  {
    if s.sym[rgid] == Region(0, 0) then s
    else Space(s.sym[rgid := Region(0, 0)], Enlist(s.free, s.sym[rgid]), s.sbrk)
  }

  // ----- What one call returns and leaves

  /** Node k is the first one of at least `size` bytes. */
  ghost predicate FirstRoom(free: seq<Region>, size: nat, k: nat) {
    && k < |free| && free[k].end - free[k].start >= size
    && forall j :: 0 <= j < k ==> free[j].end - free[j].start < size
  }

  ghost predicate NoRoom(free: seq<Region>, size: nat) {
    forall j :: 0 <= j < |free| ==> free[j].end - free[j].start < size
  }

  lemma RoomIsFit(free: seq<Region>, size: nat)
    ensures FirstFit(free, size) == |free| <==> NoRoom(free, size)
    ensures forall k: nat :: FirstRoom(free, size, k) <==> k < |free| && k == FirstFit(free, size)
  {
    var f := FirstFit(free, size);
    assert f < |free| ==> Fits(free[f], size);
    forall k: nat | FirstRoom(free, size, k) ensures k == f {
      assert Fits(free[k], size);
      assert f <= k;
    }
  }

  /** Reuse: the region starts where the first node with room did, which keeps what is left over; the
      break and the other ids stay. */
  lemma AllocReuses(s: Space, rgid: Rgid, size: nat, enough: bool, k: nat)
    requires |s.sym| == SYMBOLS && FirstRoom(s.free, size, k)
    ensures var (r, t) := (s.free[k], Alloc(s, rgid, size, enough));
      && t.sym == s.sym[rgid := Region(r.start, r.start + size)] && t.sbrk == s.sbrk
      && t.free == s.free[..k] + (if r.Bytes() > size then [Region(r.start + size, r.end)] else []) + s.free[k + 1..]
  {
    RoomIsFit(s.free, size);
    CarvedList(s.free, k, size);
  }

  lemma CarvedList(free: seq<Region>, k: nat, size: nat)
    requires k < |free| && Fits(free[k], size)
    ensures var r := free[k];
      Carved(free, k, size)
        == free[..k] + (if r.Bytes() > size then [Region(r.start + size, r.end)] else []) + free[k + 1..]
  {
  }

  /** Growth: the region starts at the old break, which moves to the next page boundary relative to
      it if RAM has the frames, to the end of the region if not; the list and the other ids stay. */
  lemma AllocGrows(s: Space, rgid: Rgid, size: nat, enough: bool)
    requires |s.sym| == SYMBOLS && NoRoom(s.free, size)
    ensures var t := Alloc(s, rgid, size, enough);
      && t.sym == s.sym[rgid := Region(s.sbrk, s.sbrk + size)] && t.free == s.free
      && (if size > 0 && enough then s.sbrk + size <= t.sbrk < s.sbrk + size + PAGESZ && (t.sbrk - s.sbrk) % PAGESZ == 0
          else t.sbrk == s.sbrk + size)
  {
    RoomIsFit(s.free, size);
  }

  /** The id is cleared, and a region with bytes becomes the first free node. */
  lemma FreeReturns(s: Space, rgid: Rgid)
    requires |s.sym| == SYMBOLS
    ensures var (r, t) := (s.sym[rgid], Free(s, rgid));
      && t.sym == s.sym[rgid := Region(0, 0)] && t.sbrk == s.sbrk
      && t.free == (if r.start < r.end then [r] else []) + s.free
      && Total(t.free) == Total(s.free) + r.Bytes()
  {
    if s.sym[rgid].start < s.sym[rgid].end { TotalCons(s.sym[rgid], s.free); }
  }

  /** The next request that fits a freed region gets its first bytes, and the heap does not grow. */
  lemma FreeThenAlloc(s: Space, rgid: Rgid, id: Rgid, size: nat, enough: bool)
    requires |s.sym| == SYMBOLS && 0 < size <= s.sym[rgid].Bytes()
    ensures var (r, t) := (s.sym[rgid], Alloc(Free(s, rgid), id, size, enough));
      && t.sym == s.sym[rgid := Region(0, 0)][id := Region(r.start, r.start + size)] && t.sbrk == s.sbrk
      && t.free == (if r.Bytes() > size then [Region(r.start + size, r.end)] else []) + s.free
  {
    FreeReturns(s, rgid);
    AllocReuses(Free(s, rgid), id, size, enough, 0);
  }

  /** Freeing undoes an allocation for an unused id: the table is back, and the bytes are at the head
      of the list. */
  lemma AllocThenFree(s: Space, rgid: Rgid, size: nat, enough: bool)
    requires |s.sym| == SYMBOLS && size > 0 && s.sym[rgid] == Region(0, 0)
    ensures var (t, u) := (Alloc(s, rgid, size, enough), Free(Alloc(s, rgid, size, enough), rgid));
      && u.sym == s.sym && u.sbrk == t.sbrk && u.free == [t.sym[rgid]] + t.free
      && t.sym[rgid].Bytes() == size
      && Total(u.free) == Total(s.free) + (if NoRoom(s.free, size) then size else 0)
  {
    var t, k := Alloc(s, rgid, size, enough), FirstFit(s.free, size);
    RoomIsFit(s.free, size);
    FreeReturns(t, rgid);
    if k == |s.free| {
      AllocGrows(s, rgid, size, enough);
    } else {
      AllocReuses(s, rgid, size, enough, k);
      CarveTotal(s.free, k, size);
    }
  }

  // ----- Disjointness

  predicate Disjoint(a: Region, b: Region) {
    a.start >= a.end || b.start >= b.end || a.end <= b.start || b.end <= a.start
  }

  ghost predicate PairwiseDisjoint(rs: seq<Region>) {
    forall i, j :: 0 <= i < j < |rs| ==> Disjoint(rs[i], rs[j])
  }

  ghost predicate Apart(rs: seq<Region>, ts: seq<Region>) {
    forall i, j :: 0 <= i < |rs| && 0 <= j < |ts| ==> Disjoint(rs[i], ts[j])
  }

  ghost predicate Within(rs: seq<Region>, sbrk: nat) {
    forall i :: 0 <= i < |rs| ==> rs[i].start <= rs[i].end <= sbrk
  }

  /** Live symbol regions and free regions are pairwise disjoint and lie in [0, sbrk). */
  ghost predicate Valid(s: Space) {
    && |s.sym| == SYMBOLS
    && Within(s.sym, s.sbrk) && Within(s.free, s.sbrk)
    && PairwiseDisjoint(s.sym) && PairwiseDisjoint(s.free) && Apart(s.sym, s.free)
  }

  lemma CarvedParts(free: seq<Region>, k: nat, size: nat, j: nat)
    requires k < |free| && Fits(free[k], size)
    requires j < |Carved(free, k, size)|
    ensures var r := Carved(free, k, size)[j];
      || (j < k && r == free[j])
      || (j == k && r == Region(free[k].start + size, free[k].end))
      || (j >= k && j + 1 < |free| && |Carved(free, k, size)| + 1 == |free| && r == free[j + 1])
      || (j > k && |Carved(free, k, size)| == |free| && r == free[j])
  {
  }

  lemma CarvedDisjoint(s: Space, k: nat, size: nat)
    requires Valid(s) && k < |s.free| && Fits(s.free[k], size)
    ensures var f, taken := Carved(s.free, k, size), Region(s.free[k].start, s.free[k].start + size);
      && Within(f, s.sbrk) && PairwiseDisjoint(f) && Apart(s.sym, f)
      && (forall j :: 0 <= j < |f| ==> Disjoint(taken, f[j]))
      && (forall i :: 0 <= i < |s.sym| ==> Disjoint(s.sym[i], taken))
  {
    var f := Carved(s.free, k, size);
    forall i, j | 0 <= i < j < |f| ensures Disjoint(f[i], f[j]) {
      CarvedParts(s.free, k, size, i);
      CarvedParts(s.free, k, size, j);
    }
    forall i, j | 0 <= i < |s.sym| && 0 <= j < |f| ensures Disjoint(s.sym[i], f[j]) {
      CarvedParts(s.free, k, size, j);
    }
    forall j | 0 <= j < |f|
      ensures Disjoint(Region(s.free[k].start, s.free[k].start + size), f[j]) && f[j].start <= f[j].end <= s.sbrk
    {
      CarvedParts(s.free, k, size, j);
    }
  }

  lemma AllocValid(s: Space, rgid: Rgid, size: nat, enough: bool)
    requires Valid(s)
    ensures Valid(Alloc(s, rgid, size, enough))
  {
    var k := FirstFit(s.free, size);
    if k < |s.free| {
      CarvedDisjoint(s, k, size);
    }
  }

  lemma FreeValid(s: Space, rgid: Rgid)
    requires Valid(s)
    ensures Valid(Free(s, rgid))
  {
    var r, f := s.sym[rgid], Free(s, rgid).free;
    forall i, j | 0 <= i < j < |f| ensures Disjoint(f[i], f[j]) {
      if f != s.free {
        assert f[j] == s.free[j - 1];
        assert i > 0 ==> f[i] == s.free[i - 1];
      }
    }
    forall i, j | 0 <= i < SYMBOLS && 0 <= j < |f| ensures Disjoint(Free(s, rgid).sym[i], f[j]) {
      if f != s.free && j > 0 { assert f[j] == s.free[j - 1]; }
    }
  }

  // ----- Whole runs

  /** `enough` says whether RAM had a frame for every page of a growth. */
  datatype Call = Allocate(rgid: Rgid, size: nat, enough: bool) | Release(rgid: Rgid)

  function Do(s: Space, c: Call): (r: Space)
    requires |s.sym| == SYMBOLS
    ensures |r.sym| == SYMBOLS
  {
    match c
    case Allocate(rgid, size, enough) => Alloc(s, rgid, size, enough)
    case Release(rgid) => Free(s, rgid)
  }

  function RunCalls(calls: seq<Call>): (r: Space)
    ensures |r.sym| == SYMBOLS
  {
    if calls == [] then Empty() else Do(RunCalls(calls[..|calls| - 1]), calls[|calls| - 1])
  }

  /** After every sequence of __alloc and __free, whether or not growth found frames, live and free
      regions are pairwise disjoint inside [0, sbrk). */
  lemma {:induction false} HeapDisjointness(calls: seq<Call>)
    ensures Valid(RunCalls(calls))
  {
    if calls == [] {
    } else {
      var s := RunCalls(calls[..|calls| - 1]);
      HeapDisjointness(calls[..|calls| - 1]);
      match calls[|calls| - 1]
      case Allocate(rgid, size, enough) => AllocValid(s, rgid, size, enough);
      case Release(rgid) => FreeValid(s, rgid);
    }
  }

  // ----- The byte ledger

  function Total(rs: seq<Region>): nat {
    if rs == [] then 0 else Total(rs[..|rs| - 1]) + rs[|rs| - 1].Bytes()
  }

  lemma {:induction false} TotalUpdate(rs: seq<Region>, k: nat, r: Region)
    requires k < |rs|
    ensures Total(rs[k := r]) + rs[k].Bytes() == Total(rs) + r.Bytes()
  {
    var n := |rs| - 1;
    if k == n {
      assert rs[k := r][..n] == rs[..n];
    } else {
      TotalUpdate(rs[..n], k, r);
      assert rs[k := r][..n] == rs[..n][k := r];
    }
  }

  lemma {:induction false} TotalRemove(rs: seq<Region>, k: nat)
    requires k < |rs|
    ensures Total(rs[..k] + rs[k + 1..]) + rs[k].Bytes() == Total(rs)
  {
    var n := |rs| - 1;
    if k == n {
      assert rs[..k] + rs[k + 1..] == rs[..n];
    } else {
      TotalRemove(rs[..n], k);
      var t := rs[..k] + rs[k + 1..];
      assert t[..n - 1] == rs[..n][..k] + rs[..n][k + 1..];
      assert t[n - 1] == rs[n];
    }
  }

  lemma {:induction false} TotalCons(r: Region, rs: seq<Region>)
    ensures Total([r] + rs) == r.Bytes() + Total(rs)
  {
    if rs == [] {
      assert [r] + rs == [r] && [r][..0] == [];
    } else {
      TotalCons(r, rs[..|rs| - 1]);
      assert ([r] + rs)[..|rs|] == [r] + rs[..|rs| - 1];
    }
  }

  lemma CarveTotal(free: seq<Region>, k: nat, size: nat)
    requires k < |free| && Fits(free[k], size)
    ensures Total(Carved(free, k, size)) + size == Total(free)
  {
    if free[k].start + size < free[k].end {
      TotalUpdate(free, k, Region(free[k].start + size, free[k].end));
    } else {
      TotalRemove(free, k);
    }
  }

  /** get_free_vmrg_area takes exactly `size` bytes off the first node that fits and leaves the
      other nodes in their order. */
  lemma FirstFitCarves(free: seq<Region>, size: nat)
    requires FirstFit(free, size) < |free|
    ensures var k, f := FirstFit(free, size), Carved(free, FirstFit(free, size), size);
      && (forall j :: 0 <= j < k ==> !Fits(free[j], size))
      && Total(f) + size == Total(free)
      && k <= |f| && f[..k] == free[..k]
      && (if free[k].Bytes() > size
          then k < |f| && f[k] == Region(free[k].start + size, free[k].end) && f[k + 1..] == free[k + 1..]
          else f[k..] == free[k + 1..])
  {
    var k := FirstFit(free, size);
    CarveTotal(free, k, size);
    CarveOrder(free, k, size);
  }

  lemma CarveOrder(free: seq<Region>, k: nat, size: nat)
    requires k < |free| && Fits(free[k], size)
    ensures var f := Carved(free, k, size);
      && k <= |f| && f[..k] == free[..k]
      && (if free[k].Bytes() > size
          then k < |f| && f[k] == Region(free[k].start + size, free[k].end) && f[k + 1..] == free[k + 1..]
          else f[k..] == free[k + 1..])
  {
    assert free[k].Bytes() > size <==> free[k].start + size < free[k].end;
  }

  /** Bytes below the break that no list will ever hand out again: the page-rounding tail of a
      growth, and the old region of an id that is allocated again without being freed. */
  function Abandons(s: Space, c: Call): nat
    requires |s.sym| == SYMBOLS
  {
    match c
    case Release(_) => 0
    case Allocate(rgid, size, enough) =>
      s.sym[rgid].Bytes()
      + if FirstFit(s.free, size) == |s.free| && enough then AlignUp(size) - size else 0
  }

  function Abandoned(calls: seq<Call>): nat {
    if calls == [] then 0
    else Abandoned(calls[..|calls| - 1]) + Abandons(RunCalls(calls[..|calls| - 1]), calls[|calls| - 1])
  }

  lemma LedgerStep(s: Space, c: Call)
    requires Valid(s)
    ensures var t := Do(s, c);
      Total(t.sym) + Total(t.free) + s.sbrk + Abandons(s, c) == Total(s.sym) + Total(s.free) + t.sbrk
  {
    match c
    case Release(rgid) =>
      TotalUpdate(s.sym, rgid, Region(0, 0));
      TotalCons(s.sym[rgid], s.free);
    case Allocate(rgid, size, enough) =>
      if FirstFit(s.free, size) < |s.free| {
        ReuseLedger(s, rgid, size);
      } else {
        GrowLedger(s, rgid, size, enough);
      }
  }

  lemma ReuseLedger(s: Space, rgid: Rgid, size: nat)
    requires Valid(s) && FirstFit(s.free, size) < |s.free|
    ensures var t := Reuse(s, rgid, size);
      && t.sbrk == s.sbrk
      && Total(t.sym) + Total(t.free) + s.sym[rgid].Bytes() == Total(s.sym) + Total(s.free)
  {
    var k := FirstFit(s.free, size);
    TakenTotal(s.sym, rgid, s.free[k].start, size);
    CarveTotal(s.free, k, size);
  }

  lemma TakenTotal(sym: seq<Region>, rgid: nat, start: nat, size: nat)
    requires rgid < |sym|
    ensures Total(sym[rgid := Region(start, start + size)]) + sym[rgid].Bytes() == Total(sym) + size
  {
    TotalUpdate(sym, rgid, Region(start, start + size));
  }

  lemma GrowLedger(s: Space, rgid: Rgid, size: nat, enough: bool)
    requires Valid(s)
    ensures var t := Grow(s, rgid, size, enough);
      && t.free == s.free
      && t.sbrk == s.sbrk + size + (if enough then AlignUp(size) - size else 0)
      && Total(t.sym) + s.sym[rgid].Bytes() == Total(s.sym) + size
  {
    TakenTotal(s.sym, rgid, s.sbrk, size);
  }

  lemma {:induction false} TotalZero(n: nat)
    ensures Total(seq(n, _ => Region(0, 0))) == 0
  {
    if n == 0 {
    } else {
      TotalZero(n - 1);
      assert seq(n, _ => Region(0, 0))[..n - 1] == seq(n - 1, _ => Region(0, 0));
    }
  }

  /** Over whole runs: live bytes + free bytes + abandoned bytes is the break. */
  lemma {:induction false} HeapLedger(calls: seq<Call>)
    ensures var s := RunCalls(calls); Total(s.sym) + Total(s.free) + Abandoned(calls) == s.sbrk
  {
    if calls == [] {
      TotalZero(SYMBOLS);
      assert Empty().free[..0] == [];
    } else {
      var init := calls[..|calls| - 1];
      HeapLedger(init);
      HeapDisjointness(init);
      LedgerStep(RunCalls(init), calls[|calls| - 1]);
    }
  }
}
