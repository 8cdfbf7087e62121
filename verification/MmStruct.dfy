/** One process's memory map as the source keeps it (struct mm_struct with its single vm area):
    a page-table tree, the victim queue, the symbol table and the free-region list, all updated in
    place.  Every method is proved equal to its value-level counterpart in Paging and Space. */
module MmStruct {
  import opened Common
  import opened Memphy
  import opened Pte
  import opened Paging
  import PageIndex
  import PageTable
  import S = Space

  ghost function SlotIn(slots: map<nat, Slot>, n: nat): Slot {
    if n in slots then slots[n] else Unmapped
  }

  ghost predicate EncodesAt(flat: map<nat, nat>, slots: map<nat, Slot>, n: nat) {
    Encodes(PageTable.At(flat, n), SlotIn(slots, n))
  }

  /** Every entry of the flat page table encodes the slot of its page. */
  ghost predicate EntriesEncode(flat: map<nat, nat>, slots: map<nat, Slot>) {
    && (forall n: nat :: n < PageIndex.MAX_PGN ==> EncodesAt(flat, slots, n))
    && (forall n :: n in slots ==> n < PageIndex.MAX_PGN)
  }

  lemma StoreEncodes(flat: map<nat, nat>, slots: map<nat, Slot>, pgn: nat, v: nat, slot: Slot)
    requires EntriesEncode(flat, slots) && pgn < PageIndex.MAX_PGN && Encodes(v, slot)
    ensures EntriesEncode(flat[pgn := v], slots[pgn := slot])
  {
    var flat', slots' := flat[pgn := v], slots[pgn := slot];
    forall n: nat | n < PageIndex.MAX_PGN ensures EncodesAt(flat', slots', n) {
      if n != pgn {
        assert EncodesAt(flat, slots, n);
        assert PageTable.At(flat', n) == PageTable.At(flat, n);
        assert SlotIn(slots', n) == SlotIn(slots, n);
      }
    }
  }

  /** The pieces of the exchange, put together. */
  lemma ExchangeParts(test: Test, m: Mm, ram: Dev, swp: Dev, n: nat, r: Paged)
    requires CycleDefined(m, ram, swp, n) && !InRam(test, m.SlotOf(n))
    requires m.fifo != [] && swp.free != []
    requires var v, k := m.fifo[|m.fifo| - 1], swp.free[0];
      && var vf := RawFpn(m.SlotOf(v));
      && r.fpn == Some(vf) && r.mm.space == m.space
      && r.mm.pt == m.pt[v := Swapped(k)][n := Resident(vf)]
      && r.mm.fifo == [n] + m.fifo[..|m.fifo| - 1]
      && var out := CopyPage(ram, vf, swp, k).(free := swp.free[1..]);
      if m.SlotOf(n).Unmapped? then r.ram == ram && r.swp == out
      else
        && m.SlotOf(n).Swapped?
        && r.ram == CopyPage(out, m.SlotOf(n).off, ram, vf)
        && r.swp == out.(free := [m.SlotOf(n).off] + out.free)
    ensures GetPage(test, m, ram, swp, n) == r
  {
  }

  /** Pages first, first + 1, .. sit in the given frames; every other entry is as it was. */
  ghost predicate Installed(slots: map<nat, Slot>, was: map<nat, Slot>, first: nat, frames: seq<nat>) {
    && (forall i :: 0 <= i < |frames| ==> SlotIn(slots, first + i) == Resident(frames[i]))
    && (forall n: nat :: n < first || n >= first + |frames| ==> SlotIn(slots, n) == SlotIn(was, n))
  }

  /** Pages first, .., first + k - 1 joined the queue in this order: the last one is the newest. */
  ghost predicate Queued(q: seq<nat>, was: seq<nat>, first: nat, k: nat) {
    |q| == k + |was| && q[k..] == was && forall i :: 0 <= i < k ==> q[i] == first + k - 1 - i
  }

  lemma InstalledBy(slots: map<nat, Slot>, first: nat, frames: seq<nat>, added: map<nat, Slot>)
    requires forall n :: n in added <==> first <= n < first + |frames|
    requires forall n :: n in added ==> added[n] == Resident(frames[n - first])
    ensures Installed(slots + added, slots, first, frames)
  {
    forall i | 0 <= i < |frames| ensures SlotIn(slots + added, first + i) == Resident(frames[i]) {
      assert first + i in added;
    }
  }

  lemma QueuedBy(q: seq<nat>, first: nat, k: nat)
    ensures Queued(Descending(first, k) + q, q, first, k)
  {
  }

  lemma ExtendedBy(slots: map<nat, Slot>, q: seq<nat>, first: nat, frames: seq<nat>)
    ensures Installed(slots + Mapped(first, frames), slots, first, frames)
    ensures Queued(Descending(first, |frames|) + q, q, first, |frames|)
  {
    InstalledBy(slots, first, frames, Mapped(first, frames));
    QueuedBy(q, first, |frames|);
  }

  /** The residency test, on what the entry encodes. */
  predicate Found(test: Test, s: Slot) { s.Resident? || (test.AsWritten? && s.Swapped?) }

  class MmStruct {
    const pt: PageTable.PageTable
    var symrgtbl: seq<S.Region>         // embedded in the struct, SYMBOLS long
    var fifo: seq<nat>                  // fifo_pgn, newest first
    var freerg: seq<S.Region>           // vm_freerg_list, head first
    var sbrk: nat
    ghost var slots: map<nat, Slot>     // what the entries set so far encode

    ghost function View(): Mm
      reads this
    {
      Mm(slots, fifo, S.Space(symrgtbl, freerg, sbrk))
    }

    ghost predicate Valid()
      reads this, pt
    {
      && pt.Valid() && |symrgtbl| == S.SYMBOLS && EntriesEncode(pt.flat, slots)
      && forall n :: n in fifo ==> n < PageIndex.MAX_PGN
    }

    /** init_mm; the symbol table starts out empty. */
    constructor ()
      ensures Valid() && fresh(pt)
      ensures View() == Mm(map[], [], S.Empty())
      ensures freerg == [S.Region(0, 0)] && sbrk == 0 && forall i :: 0 <= i < 30 ==> symrgtbl[i] == S.Region(0, 0)
    {
      pt := new PageTable.PageTable();
      symrgtbl := seq(S.SYMBOLS, _ => S.Region(0, 0));
      fifo, freerg, sbrk, slots := [], [S.Region(0, 0)], 0, map[];
    }

    // ----- Entries

    method PteGetEntry(pgn: nat) returns (v: nat)
      requires Valid() && pgn < PageIndex.MAX_PGN
      modifies pt
      ensures Valid() && Encodes(v, SlotIn(slots, pgn))
    {
      v := pt.Read(pgn);
      assert EncodesAt(pt.flat, slots, pgn);
    }

    /** The readings of one entry that pg_getpage makes: pte != 0, the PRESENT and SWAPPED bits,
        PAGING_FPN and PAGING_SWP. */
    method ReadPte(pgn: nat) returns (nonzero: bool, present: bool, swapped: bool, fpn: nat, swp: nat)
      requires Valid() && pgn < PageIndex.MAX_PGN
      modifies pt
      ensures Valid()
      ensures var s := SlotIn(slots, pgn);
        && (nonzero <==> !s.Unmapped?) && (present <==> !s.Unmapped?) && (swapped <==> s.Swapped?)
        && fpn == RawFpn(s) && (s.Swapped? ==> swp == s.off)
    {
      var pte := PteGetEntry(pgn);
      EncodedReads(pte, SlotIn(slots, pgn));
      nonzero, present, swapped, fpn, swp := pte != 0, IsPresent(pte), IsSwapped(pte), Fpn(pte), Swp(pte);
    }

    method PteSetFpn(pgn: nat, fpn: nat)
      requires Valid() && pgn < PageIndex.MAX_PGN && fpn < MAX_FPN
      modifies this`slots, pt
      ensures Valid() && slots == old(slots)[pgn := Resident(fpn)]
    {
      var v := PteGetEntry(pgn);
      var r := SetFpn(v, fpn);
      FrameWord(v, SlotIn(slots, pgn), fpn, r);
      StoreSlot(pgn, r, Resident(fpn));
    }

    method PteSetSwap(pgn: nat, swpoff: nat)
      requires Valid() && pgn < PageIndex.MAX_PGN && swpoff < MAX_SWPOFF
      modifies this`slots, pt
      ensures Valid() && slots == old(slots)[pgn := Swapped(swpoff)]
    {
      var v := PteGetEntry(pgn);
      var r := SetSwap(v, 0, swpoff);
      SwapWord(v, SlotIn(slots, pgn), swpoff, r);
      StoreSlot(pgn, r, Swapped(swpoff));
    }

    method StoreSlot(pgn: nat, v: nat, ghost slot: Slot)
      requires Valid() && pgn < PageIndex.MAX_PGN && Encodes(v, slot)
      modifies this`slots, pt
      ensures Valid() && slots == old(slots)[pgn := slot]
    {
      StoreEncodes(pt.flat, slots, pgn, v, slot);
      pt.Store(pgn, v);
      slots := slots[pgn := slot];
    }

    // ----- The victim queue

    /** find_victim_page: walks to the tail and unlinks it. */
    method FindVictimPage() returns (ok: bool, pgn: nat)
      modifies this`fifo
      ensures ok <==> old(fifo) != []
      ensures ok ==> old(fifo) == fifo + [pgn]
      ensures !ok ==> fifo == old(fifo)
    {
      ok, pgn := fifo != [], 0;
      if ok {
        var i := 0;
        while i + 1 < |fifo|
          invariant i < |fifo|
        {
          i := i + 1;
        }
        pgn := fifo[i];
        fifo := fifo[..i];
      }
    }

    method EnlistPgn(pgn: nat)
      modifies this`fifo
      ensures fifo == [pgn] + old(fifo)
    {
      fifo := [pgn] + fifo;
    }

    // ----- pg_getpage

    /** Two devices whose frame numbers fit the entries, on which an access to page pgn is defined. */
    ghost predicate OnDevices(mram: Memphy, mswp: Memphy, pgn: nat)
      reads this, mram, mram.storage, mswp, mswp.storage
    {
      && mram != mswp && mram.storage != mswp.storage
      && Addressable(mram.View(), mswp.View()) && CycleDefined(View(), mram.View(), mswp.View(), pgn)
    }

    /** Steps 3 to 5 of pg_getpage: the victim's frame goes to the swap frame. */
    method SwapOut(vicpgn: nat, swpfpn: nat, mram: Memphy, mswp: Memphy) returns (vicfpn: nat)
      requires Valid() && mram.storage != mswp.storage
      requires vicpgn < PageIndex.MAX_PGN && RawFpn(SlotIn(slots, vicpgn)) < mram.View().Frames()
      requires swpfpn < mswp.View().Frames() && swpfpn < MAX_SWPOFF
      modifies this`slots, pt, mswp.storage
      ensures Valid() && vicfpn == RawFpn(SlotIn(old(slots), vicpgn))
      ensures slots == old(slots)[vicpgn := Swapped(swpfpn)]
      ensures mswp.View() == CopyPage(mram.View(), vicfpn, old(mswp.View()), swpfpn)
    {
      var _, _, _, fpn, _ := ReadPte(vicpgn);
      vicfpn := fpn;
      SwapCpPage(mram, vicfpn, mswp, swpfpn);
      PteSetSwap(vicpgn, swpfpn);
    }

    /** Steps 6 to 8: the target's bytes, if it has any, come in; the frame becomes the target's. */
    method SwapIn(pgn: nat, mapped: bool, tgtswpfpn: nat, vicfpn: nat, mram: Memphy, mswp: Memphy)
      requires Valid() && pgn < PageIndex.MAX_PGN && mram != mswp && mram.storage != mswp.storage
      requires vicfpn < mram.View().Frames() && vicfpn < MAX_FPN
      requires mapped ==> tgtswpfpn < mswp.View().Frames()
      modifies this`fifo, this`slots, pt, mram.storage, mswp`freeFp
      ensures Valid() && slots == old(slots)[pgn := Resident(vicfpn)] && fifo == [pgn] + old(fifo)
      ensures mapped ==> mram.View() == CopyPage(old(mswp.View()), tgtswpfpn, old(mram.View()), vicfpn)
      ensures mapped ==> mswp.View() == old(mswp.View()).(free := [tgtswpfpn] + old(mswp.View()).free)
      ensures !mapped ==> mram.View() == old(mram.View()) && mswp.View() == old(mswp.View())
    {
      if mapped {
        SwapCpPage(mswp, tgtswpfpn, mram, vicfpn);
        mswp.PutFreefp(tgtswpfpn);
      }
      PteSetFpn(pgn, vicfpn);
      EnlistPgn(pgn);
    }

    /** Steps 3 to 8: the victim leaves, the target comes in. */
    method SwapBoth(pgn: nat, mapped: bool, swpoff: nat, vicpgn: nat, swpfpn: nat, mram: Memphy, mswp: Memphy)
      returns (vicfpn: nat)
      requires Valid() && pgn < PageIndex.MAX_PGN && vicpgn < PageIndex.MAX_PGN
      requires mram != mswp && mram.storage != mswp.storage
      requires RawFpn(SlotIn(slots, vicpgn)) < mram.View().Frames() <= MAX_FPN
      requires swpfpn < mswp.View().Frames() <= MAX_SWPOFF && (mapped ==> swpoff < mswp.View().Frames())
      modifies this`fifo, this`slots, pt, mram.storage, mswp`freeFp, mswp.storage
      ensures Valid() && vicfpn == RawFpn(SlotIn(old(slots), vicpgn))
      ensures slots == old(slots)[vicpgn := Swapped(swpfpn)][pgn := Resident(vicfpn)] && fifo == [pgn] + old(fifo)
      ensures var out := CopyPage(old(mram.View()), vicfpn, old(mswp.View()), swpfpn);
        if mapped then mram.View() == CopyPage(out, swpoff, old(mram.View()), vicfpn)
                       && mswp.View() == out.(free := [swpoff] + out.free)
        else mram.View() == old(mram.View()) && mswp.View() == out
    {
      vicfpn := SwapOut(vicpgn, swpfpn, mram, mswp);
      SwapIn(pgn, mapped, swpoff, vicfpn, mram, mswp);
    }

    /** Steps 1 to 8 of pg_getpage, for a page the residency test does not find in RAM. */
    method SwapCycle(ghost test: Test, pgn: nat, mapped: bool, swpoff: nat, mram: Memphy, mswp: Memphy)
      returns (ok: bool, fpn: nat)
      requires Valid() && pgn < PageIndex.MAX_PGN && OnDevices(mram, mswp, pgn)
      requires !InRam(test, SlotIn(slots, pgn)) && (mapped <==> !SlotIn(slots, pgn).Unmapped?)
      requires SlotIn(slots, pgn).Swapped? ==> swpoff == SlotIn(slots, pgn).off
      modifies this`fifo, this`slots, pt, mram.storage, mswp`freeFp, mswp`usedFp, mswp.storage
      ensures Valid()
      ensures GetPage(test, old(View()), old(mram.View()), old(mswp.View()), pgn)
           == Paged(if ok then Some(fpn) else None, View(), mram.View(), mswp.View())
    {
      ghost var m, ram, swp := View(), mram.View(), mswp.View();
      assert SlotIn(slots, pgn) == m.SlotOf(pgn);
      var vicpgn, swpfpn;
      fpn := 0;
      ok, vicpgn := FindVictimPage();
      if !ok {
        return;
      }
      assert fifo == m.fifo[..|m.fifo| - 1] && vicpgn == m.fifo[|m.fifo| - 1];
      assert vicpgn in m.fifo && forall n :: n in fifo ==> n in m.fifo;
      ok, swpfpn := mswp.GetFreefp();
      if !ok {
        return;
      }
      assert swpfpn == swp.free[0] && mswp.freeFp == swp.free[1..];
      fpn := SwapBoth(pgn, mapped, swpoff, vicpgn, swpfpn, mram, mswp);
      ExchangeParts(test, m, ram, swp, pgn, Paged(Some(fpn), View(), mram.View(), mswp.View()));
    }

    /** The frame of the page, after a swap cycle if the residency test asks for one. */
    method PgGetpage(test: Test, pgn: nat, mram: Memphy, mswp: Memphy) returns (ok: bool, fpn: nat)
      requires Valid() && pgn < PageIndex.MAX_PGN && OnDevices(mram, mswp, pgn)
      modifies this`fifo, this`slots, pt, mram.storage, mswp`freeFp, mswp`usedFp, mswp.storage
      ensures Valid()
      ensures var r := GetPage(test, old(View()), old(mram.View()), old(mswp.View()), pgn);
        r == Paged(if ok then Some(fpn) else None, View(), mram.View(), mswp.View())
      ensures ok <==> Found(test, SlotIn(old(slots), pgn)) || (old(fifo) != [] && old(mswp.freeFp) != [])
      ensures Found(test, SlotIn(old(slots), pgn)) ==> fifo == old(fifo) && fpn == RawFpn(SlotIn(old(slots), pgn))
      ensures !ok || Found(test, SlotIn(old(slots), pgn)) ==>
        slots == old(slots) && mram.View() == old(mram.View()) && mswp.View() == old(mswp.View())
      ensures !ok && old(fifo) != [] ==> |fifo| + 1 == |old(fifo)| && fifo == old(fifo)[..|fifo|]
      ensures ok && !Found(test, SlotIn(old(slots), pgn)) ==>
        && |fifo| == |old(fifo)| && fifo == [pgn] + old(fifo)[..|fifo| - 1]
        && slots == old(slots)[old(fifo)[|fifo| - 1] := Swapped(old(mswp.freeFp)[0])][pgn := Resident(fpn)]
    {
      var mapped, present, swapped, frame, swpoff := ReadPte(pgn);
      assert SlotIn(slots, pgn) == View().SlotOf(pgn);
      AccessOutcomes(test, View(), mram.View(), mswp.View(), pgn);
      if present && (test.AsWritten? || !swapped) {
        ok, fpn := true, frame;
      } else {
        ok, fpn := SwapCycle(test, pgn, mapped, swpoff, mram, mswp);
      }
    }

    /** PAGING_PGN and PAGING_OFFST */
    static method Split(addr: nat) returns (pgn: nat, off: nat)
      ensures pgn == PageNumber(addr) < 0x4000 && off == PageOffset(addr) < PAGESZ
    {
      AddressSplit(addr);
      pgn, off := PgnOf(addr), OffsetOf(addr);
    }

    /** pg_getval: the byte at a virtual address, through the page's frame.  An address the bus does
        not reach is undefined in the source. */
    method PgGetval(test: Test, addr: nat, mram: Memphy, mswp: Memphy) returns (access: Access)
      requires Valid() && OnDevices(mram, mswp, PageNumber(addr))
      modifies this`fifo, this`slots, pt, mram.storage, mswp`freeFp, mswp`usedFp, mswp.storage
      ensures Valid()
      ensures var r := GetPage(test, old(View()), old(mram.View()), old(mswp.View()), PageNumber(addr));
        && View() == r.mm && mram.View() == r.ram && mswp.View() == r.swp
        && access == ReadByte(r, addr)
    {
      var pgn, off := Split(addr);
      var ok, fpn := PgGetpage(test, pgn, mram, mswp);
      var phyaddr := fpn * PAGESZ + off;
      if !ok {
        access := Failed;
      } else if phyaddr >= mram.storage.Length {
        access := OutOfBus;
      } else {
        var data := mram.Read(phyaddr);
        access := Done(data);
      }
    }

    /** pg_setval */
    method PgSetval(test: Test, addr: nat, value: Byte, mram: Memphy, mswp: Memphy) returns (access: Access)
      requires Valid() && OnDevices(mram, mswp, PageNumber(addr))
      modifies this`fifo, this`slots, pt, mram.storage, mswp`freeFp, mswp`usedFp, mswp.storage
      ensures Valid()
      ensures var r := GetPage(test, old(View()), old(mram.View()), old(mswp.View()), PageNumber(addr));
        && View() == r.mm && mswp.View() == r.swp && (access, mram.View()) == WriteByte(r, addr, value)
    {
      var pgn, off := Split(addr);
      var ok, fpn := PgGetpage(test, pgn, mram, mswp);
      var phyaddr := fpn * PAGESZ + off;
      if !ok {
        access := Failed;
      } else if phyaddr >= mram.storage.Length {
        access := OutOfBus;
      } else {
        mram.Write(phyaddr, value);
        access := Done(value);
      }
    }

    // ----- Growth

    /** alloc_pages_range: takes frames one at a time; on failure those taken stay taken. */
    method AllocPagesRange(reqPgnum: nat, mram: Memphy) returns (ok: bool, frames: seq<nat>)
      modifies mram`freeFp, mram`usedFp
      ensures ok <==> reqPgnum <= |old(mram.freeFp)|
      ensures ok ==> frames == old(mram.freeFp)[..reqPgnum] && mram.freeFp == old(mram.freeFp)[reqPgnum..]
      ensures !ok ==> mram.freeFp == []
    {
      ok, frames := true, [];
      var i := 0;
      while i < reqPgnum
        invariant i <= reqPgnum && i <= |old(mram.freeFp)|
        invariant frames == old(mram.freeFp)[..i] && mram.freeFp == old(mram.freeFp)[i..]
      {
        var got, fpn := mram.GetFreefp();
        if !got {
          ok := false;
          return;
        }
        frames := frames + [fpn];
        i := i + 1;
      }
    }

    /** vmap_page_range's step for one page. */
    method MapPage(pgn: nat, fpn: nat)
      requires Valid() && pgn < PageIndex.MAX_PGN && fpn < MAX_FPN
      modifies this`fifo, this`slots, pt
      ensures Valid() && slots == old(slots)[pgn := Resident(fpn)] && fifo == [pgn] + old(fifo)
    {
      PteSetFpn(pgn, fpn);
      EnlistPgn(pgn);
    }

    /** vmap_page_range: entry and queue node for each page in turn. */
    method VmapPageRange(addr: nat, frames: seq<nat>)
      requires Valid() && addr / PAGESZ + |frames| <= PageIndex.MAX_PGN
      requires forall i :: 0 <= i < |frames| ==> frames[i] < MAX_FPN
      modifies this`fifo, this`slots, pt
      ensures Valid()
      ensures slots == old(slots) + Mapped(addr / PAGESZ, frames)
      ensures fifo == Descending(addr / PAGESZ, |frames|) + old(fifo)
      ensures Installed(slots, old(slots), addr / PAGESZ, frames) && Queued(fifo, old(fifo), addr / PAGESZ, |frames|)
    {
      var i, first := 0, addr / PAGESZ;
      while i < |frames|
        invariant i <= |frames| && Valid()
        invariant slots == old(slots) + Mapped(first, frames[..i])
        invariant fifo == Descending(first, i) + old(fifo)
      {
        MappedSnoc(old(slots), first, frames, i);
        DescendingSnoc(old(fifo), first, i);
        MapPage(first + i, frames[i]);
        i := i + 1;
      }
      assert frames[..i] == frames;
      ExtendedBy(old(slots), old(fifo), first, frames);
    }

    /** vm_map_ram */
    method VmMapRam(mapstart: nat, incpgnum: nat, mram: Memphy) returns (ok: bool)
      requires Valid() && mapstart / PAGESZ + incpgnum <= PageIndex.MAX_PGN
      requires forall f :: f in mram.freeFp ==> f < MAX_FPN
      modifies this`fifo, this`slots, pt, mram`freeFp, mram`usedFp
      ensures Valid() && ok == (incpgnum <= |old(mram.freeFp)|)
      ensures (View(), mram.View()) == Extend(old(View()), old(mram.View()), mapstart, incpgnum)
      ensures !ok ==> slots == old(slots) && fifo == old(fifo) && mram.freeFp == []
      ensures ok ==>
        && mram.freeFp == old(mram.freeFp)[incpgnum..]
        && Installed(slots, old(slots), mapstart / PAGESZ, old(mram.freeFp)[..incpgnum])
        && Queued(fifo, old(fifo), mapstart / PAGESZ, incpgnum)
    {
      ghost var free := mram.freeFp;
      var frames;
      ok, frames := AllocPagesRange(incpgnum, mram);
      if ok {
        assert forall i :: 0 <= i < |frames| ==> frames[i] == free[i] && free[i] in free;
        VmapPageRange(mapstart, frames);
      }
    }

    /** inc_vma_limit.  An empty request is refused before anything is mapped.  A failed mapping is
        reported as an unsigned value, so its test for a negative result never fires and the break
        moves to the end of the unrounded request. */
    method IncVmaLimit(incSz: nat, mram: Memphy)
      requires Valid() && sbrk / PAGESZ + PagesFor(incSz) <= PageIndex.MAX_PGN
      requires forall f :: f in mram.freeFp ==> f < MAX_FPN
      modifies this`fifo, this`slots, this`sbrk, pt, mram`freeFp, mram`usedFp
      ensures Valid()
      ensures sbrk == S.GrownBreak(old(sbrk), incSz, PagesFor(incSz) <= |old(mram.freeFp)|)
      ensures Moved(old(sbrk), sbrk, incSz, |old(mram.freeFp)|)
      ensures incSz == 0 ==> View() == old(View()) && mram.View() == old(mram.View())
      ensures incSz > 0 ==>
        (View().(space := old(View()).space), mram.View())
          == Extend(old(View()), old(mram.View()), old(sbrk), PagesFor(incSz))
    {
      BreakMoved(sbrk, incSz, |mram.freeFp|);
      var incnumpage := S.AlignUp(incSz) / PAGESZ;
      var start, end := sbrk, sbrk + incSz;
      if start >= end {
        return;
      }
      var mapped := VmMapRam(start, incnumpage, mram);
      if mapped {
        end := start + incnumpage * PAGESZ;
      }
      sbrk := end;
    }

    // ----- The heap

    /** enlist_vm_freerg_list */
    method EnlistFreerg(rg: S.Region) returns (ok: bool)
      modifies this`freerg
      ensures ok <==> rg.start < rg.end
      ensures freerg == S.Enlist(old(freerg), rg)
    {
      ok := rg.start < rg.end;
      if ok {
        freerg := [rg] + freerg;
      }
    }

    /** get_free_vmrg_area: first fit; an exhausted node is unlinked. */
    method GetFreeVmrgArea(size: nat) returns (ok: bool, newrg: S.Region)
      modifies this`freerg
      ensures ok <==> S.FirstFit(old(freerg), size) < |old(freerg)|
      ensures !ok ==> freerg == old(freerg)
      ensures ok ==> var k := S.FirstFit(old(freerg), size);
        newrg == S.Region(old(freerg)[k].start, old(freerg)[k].start + size) && freerg == S.Carved(old(freerg), k, size)
    {
      newrg := S.Region(0, 0);
      var i := 0;
      while i < |freerg|
        invariant i <= |freerg| && freerg == old(freerg)
        invariant forall j :: 0 <= j < i ==> !S.Fits(freerg[j], size)
      {
        var rgit := freerg[i];
        if rgit.start + size <= rgit.end {
          ok, newrg := true, S.Region(rgit.start, rgit.start + size);
          if rgit.start + size < rgit.end {
            freerg := freerg[i := S.Region(rgit.start + size, rgit.end)];
          } else {
            freerg := freerg[..i] + freerg[i + 1..];
          }
          return;
        }
        i := i + 1;
      }
      ok := false;
    }

    /** __alloc; the result of the growing syscall is ignored. */
    method Alloc(rgid: S.Rgid, size: nat, mram: Memphy) returns (addr: nat)
      requires Valid() && sbrk / PAGESZ + PagesFor(size) <= PageIndex.MAX_PGN
      requires forall f :: f in mram.freeFp ==> f < MAX_FPN
      modifies this, pt, mram`freeFp, mram`usedFp
      ensures Valid()
      ensures (View(), mram.View()) == AllocPages(old(View()), old(mram.View()), rgid, size)
      ensures symrgtbl == old(symrgtbl)[rgid := S.Region(addr, addr + size)]
      ensures S.NoRoom(old(freerg), size) ==>
        addr == old(sbrk) && freerg == old(freerg) && Moved(old(sbrk), sbrk, size, |old(mram.freeFp)|)
      ensures forall k: nat :: S.FirstRoom(old(freerg), size, k) ==> addr == old(freerg)[k].start && sbrk == old(sbrk)
    {
      S.RoomIsFit(freerg, size);
      var found, rgnode := GetFreeVmrgArea(size);
      if found {
        symrgtbl := symrgtbl[rgid := rgnode];
        addr := rgnode.start;
        return;
      }
      var oldSbrk := sbrk;
      IncVmaLimit(size, mram);
      symrgtbl := symrgtbl[rgid := S.Region(oldSbrk, oldSbrk + size)];
      addr := oldSbrk;
    }

    /** __free */
    method Free(rgid: S.Rgid) returns (ok: bool)
      requires Valid()
      modifies this`symrgtbl, this`freerg
      ensures Valid() && ok == (old(symrgtbl)[rgid] != S.Region(0, 0))
      ensures View() == old(View()).(space := S.Free(old(View()).space, rgid))
      ensures symrgtbl == old(symrgtbl)[rgid := S.Region(0, 0)]
      ensures var rg := old(symrgtbl)[rgid];
        freerg == (if rg.start < rg.end then [rg] else []) + old(freerg)
    {
      var rgnode := symrgtbl[rgid];
      if rgnode.start == 0 && rgnode.end == 0 {
        return false;
      }
      symrgtbl := symrgtbl[rgid := S.Region(0, 0)];
      var _ := EnlistFreerg(rgnode);
      ok := true;
    }

    /** __read, on the reader's own memory map */
    method Read(test: Test, rgid: S.Rgid, offset: nat, mram: Memphy, mswp: Memphy) returns (access: Access)
      requires Valid() && OnDevices(mram, mswp, PageNumber(symrgtbl[rgid].start + offset))
      modifies this`fifo, this`slots, pt, mram.storage, mswp`freeFp, mswp`usedFp, mswp.storage
      ensures Valid()
      ensures var addr := old(symrgtbl)[rgid].start + offset;
        var r := GetPage(test, old(View()), old(mram.View()), old(mswp.View()), PageNumber(addr));
        && View() == r.mm && mram.View() == r.ram && mswp.View() == r.swp
        && access == ReadByte(r, addr)
    {
      access := PgGetval(test, symrgtbl[rgid].start + offset, mram, mswp);
    }

    /** __write */
    method Write(test: Test, rgid: S.Rgid, offset: nat, value: Byte, mram: Memphy, mswp: Memphy)
      returns (access: Access)
      requires Valid() && OnDevices(mram, mswp, PageNumber(symrgtbl[rgid].start + offset))
      modifies this`fifo, this`slots, pt, mram.storage, mswp`freeFp, mswp`usedFp, mswp.storage
      ensures Valid()
      ensures var addr := old(symrgtbl)[rgid].start + offset;
        var r := GetPage(test, old(View()), old(mram.View()), old(mswp.View()), PageNumber(addr));
        && View() == r.mm && mswp.View() == r.swp && (access, mram.View()) == WriteByte(r, addr, value)
    {
      access := PgSetval(test, symrgtbl[rgid].start + offset, value, mram, mswp);
    }
  }

  lemma MappedSnoc(m: map<nat, Slot>, first: nat, frames: seq<nat>, i: nat)
    requires i < |frames|
    ensures m + Mapped(first, frames[..i + 1]) == (m + Mapped(first, frames[..i]))[first + i := Resident(frames[i])]
  {
    assert frames[..i + 1][..i] == frames[..i];
    assert Mapped(first, frames[..i + 1]) == Mapped(first, frames[..i])[first + i := Resident(frames[i])];
  }

  lemma DescendingSnoc(q: seq<nat>, first: nat, i: nat)
    ensures Descending(first, i + 1) + q == [first + i] + (Descending(first, i) + q)
  {
    assert Descending(first, i + 1) == [first + i] + Descending(first, i);
  }

  lemma EncodedFits(v: nat, s: Slot)
    requires Encodes(v, s)
    ensures v < WORD
  {
  }

  lemma FrameWord(v: nat, s: Slot, fpn: nat, r: nat)
    requires Encodes(v, s) && fpn < MAX_FPN && r == SetFpn(v, fpn)
    ensures Encodes(r, Resident(fpn))
  {
    EncodedFits(v, s);
    SetFpnDecodes(v, fpn, r);
    CutFits(fpn);
  }

  lemma SwapWord(v: nat, s: Slot, swpoff: nat, r: nat)
    requires Encodes(v, s) && swpoff < MAX_SWPOFF && r == SetSwap(v, 0, swpoff)
    ensures Encodes(r, Swapped(swpoff))
  {
    EncodedFits(v, s);
    SetSwapDecodes(v, 0, swpoff, r);
  }
}
