/** Transparency by virtual address.  Events name the page and offset that PAGING_PGN and PAGING_OFFST read
    from the low 22 bits of an address; on the bus these stand for the address itself. */
module PagingAddresses {
  import opened Common
  import opened Memphy
  import opened Pte
  import opened Paging
  import opened PagingSystem
  import opened PagingSteps
  import opened PagingRuns
  import opened PagingEager
  import S = Space

  /** The virtual address that each instruction accesses; 0 for the others. */
  ghost function Addresses(test: Test, s: Sys, ops: seq<Op>): (r: seq<nat>)
    requires Legal(test, s, ops)
    ensures |r| == |ops|
    decreases |ops|
  {
    if ops == [] then []
    else
      var init, op := ops[..|ops| - 1], ops[|ops| - 1];
      Addresses(test, s, init) +
      [if op.Read? || op.Write? then State(test, s, init).mms[op.pid].space.sym[op.rgid].start + op.offset else 0]
  }

  /** The event is of the byte at virtual address a. */
  predicate At(e: Event, a: nat) { !e.Quiet? ==> e.off < PAGESZ && e.pgn * PAGESZ + e.off == a }

  /** Every successful read returns what the last write of the same process to the same virtual address
      stored. */
  ghost predicate SeesByAddress(trace: seq<Event>, addrs: seq<nat>)
    requires |addrs| == |trace|
  {
    forall i, j :: 0 <= i < j < |trace| && LastWriteBefore(trace, addrs, i, j) ==> trace[j].data == trace[i].data
  }

  /** Event i is the last write before j, a read, of its process at its address. */
  ghost predicate LastWriteBefore(trace: seq<Event>, addrs: seq<nat>, i: nat, j: nat)
    requires |addrs| == |trace| && i < j < |trace|
  {
    && trace[i].Wrote? && trace[j].Got? && trace[i].pid == trace[j].pid && addrs[i] == addrs[j]
    && forall k :: i < k < j && trace[k].Wrote? && trace[k].pid == trace[j].pid ==> addrs[k] != addrs[j]
  }

  lemma StepAt(test: Test, s: Sys, op: Op)
    requires Ready(s, op) && Obeys(OnBus, s, op)
    ensures op.Read? || op.Write? ==>
      At(Step(test, s, op).1, s.mms[op.pid].space.sym[op.rgid].start + op.offset)
    ensures !(op.Read? || op.Write?) ==> Step(test, s, op).1.Quiet?
  {
    if op.Read? || op.Write? { EventAddress(test, s, op); }
  }

  /** Where an access goes: an event is of the byte at the start of the named region plus the offset,
      modulo the 22 bits of the bus, in the memory of the process that executes the instruction. */
  lemma EventAddress(test: Test, s: Sys, op: Op)
    requires Ready(s, op) && (op.Read? || op.Write?)
    ensures var e := Step(test, s, op).1;
      && At(e, (s.mms[op.pid].space.sym[op.rgid].start + op.offset) % BUS_SPACE)
      && (!e.Quiet? ==> e.pid == op.pid && (e.Got? <==> op.Read?) && (op.Write? ==> e.data == op.data))
  {
    var addr := AddressOf(s.mms[op.pid], op.rgid, op.offset);
    Recompose(addr);
    TouchAt(s, op, addr, GetPageOf(test, s, op.pid, PageNumber(addr)));
  }

  lemma TouchAt(s: Sys, op: Op, addr: nat, r: Paged)
    requires (op.Read? || op.Write?) && PageNumber(addr) * PAGESZ + PageOffset(addr) == addr % BUS_SPACE
    ensures var e := Touch(s, op, addr, r).1;
      && At(e, addr % BUS_SPACE)
      && (!e.Quiet? ==> e.pid == op.pid && (e.Got? <==> op.Read?) && (op.Write? ==> e.data == op.data))
  {
    AddressSplit(addr);
  }

  /** The bytes of one region in one state: two accesses that succeed go to the same byte of the same page
      if and only if their offsets agree modulo the bus. */
  lemma RegionBytes(test: Test, s: Sys, a: Op, b: Op)
    requires Ready(s, a) && (a.Read? || a.Write?) && Ready(s, b) && (b.Read? || b.Write?)
    requires a.pid == b.pid && a.rgid == b.rgid
    requires !Step(test, s, a).1.Quiet? && !Step(test, s, b).1.Quiet?
    ensures var (e, f) := (Step(test, s, a).1, Step(test, s, b).1);
      e.pgn == f.pgn && e.off == f.off <==> a.offset % BUS_SPACE == b.offset % BUS_SPACE
  {
    var e, f, start := Step(test, s, a).1, Step(test, s, b).1, s.mms[a.pid].space.sym[a.rgid].start;
    EventAddress(test, s, a);
    EventAddress(test, s, b);
    SameResidue(start, a.offset, b.offset);
    if e.pgn * PAGESZ + e.off == f.pgn * PAGESZ + f.off { SameByte(e.pgn, e.off, f.pgn, f.off); }
  }

  lemma SameResidue(start: nat, a: nat, b: nat)
    ensures (start + a) % BUS_SPACE == (start + b) % BUS_SPACE <==> a % BUS_SPACE == b % BUS_SPACE
  {
  }

  /** Each access of a run is __read or __write on the memory map of its process: the page access and the
      one byte that the methods are proved against, at the start of the region plus the offset. */
  lemma AccessIsCall(test: Test, s: Sys, op: Op)
    requires Ready(s, op) && (op.Read? || op.Write?)
    ensures var m, addr := s.mms[op.pid], s.mms[op.pid].space.sym[op.rgid].start + op.offset;
      && CycleDefined(m, s.ram, s.swp, PageNumber(addr))
      && var (r, t) := (GetPage(test, m, s.ram, s.swp, PageNumber(addr)), Step(test, s, op));
      && t.0.mms == s.mms[op.pid := r.mm] && t.0.swp == r.swp
      && (op.Read? ==> t.0.ram == r.ram && (ReadByte(r, addr).Done? <==> t.1.Got?)
                       && (t.1.Got? ==> ReadByte(r, addr) == Done(t.1.data)))
      && (op.Write? ==> t.0.ram == WriteByte(r, addr, op.data).1
                        && (WriteByte(r, addr, op.data).0.Done? <==> t.1.Wrote?))
  {
  }

  /** The other instructions are init_mm, __alloc and __free on that map; no other process is touched. */
  lemma OtherIsCall(test: Test, s: Sys, op: Op)
    requires Ready(s, op) && !op.Read? && !op.Write?
    ensures var (t, e) := Step(test, s, op); var p := op.pid;
      && e.Quiet? && t.swp == s.swp && p in t.mms && t.mms == s.mms[p := t.mms[p]]
      && (op.Load? ==>
            && t.ram == s.ram && t.mms[p] == Mm(map[], [], S.Empty())
            && t.mms[p].space.free == [S.Region(0, 0)] && t.mms[p].space.sbrk == 0
            && forall i :: 0 <= i < 30 ==> t.mms[p].space.sym[i] == S.Region(0, 0))
      && (op.Alloc? ==> (t.mms[p], t.ram) == AllocPages(s.mms[p], s.ram, op.rgid, op.size))
      && (op.Free? ==> t.ram == s.ram && t.mms[p] == s.mms[p].(space := S.Free(s.mms[p].space, op.rgid)))
  {
  }

  /** What a program sees of __alloc: a region that no free node has room for starts at the old break,
      another one at the first node with room. */
  lemma AllocInRun(test: Test, s: Sys, p: nat, rgid: S.Rgid, size: nat)
    requires Ready(s, Alloc(p, rgid, size))
    ensures var x, y := s.mms[p].space, Step(test, s, Alloc(p, rgid, size)).0.mms[p].space;
      && (S.NoRoom(x.free, size) ==>
            && y.sym == x.sym[rgid := S.Region(x.sbrk, x.sbrk + size)] && y.free == x.free
            && Moved(x.sbrk, y.sbrk, size, |s.ram.free|))
      && (forall k: nat :: S.FirstRoom(x.free, size, k) ==>
            y.sym == x.sym[rgid := S.Region(x.free[k].start, x.free[k].start + size)] && y.sbrk == x.sbrk)
  {
    HeapOfAlloc(s.mms[p].space, rgid, size, |s.ram.free|);
  }

  /** And of __free: the region is the first free node. */
  lemma FreeInRun(test: Test, s: Sys, p: nat, rgid: S.Rgid)
    requires Ready(s, Free(p, rgid))
    ensures var x, y := s.mms[p].space, Step(test, s, Free(p, rgid)).0.mms[p].space;
      && y.sym == x.sym[rgid := S.Region(0, 0)] && y.sbrk == x.sbrk
      && y.free == (if x.sym[rgid].start < x.sym[rgid].end then [x.sym[rgid]] else []) + x.free
  {
    S.FreeReturns(s.mms[p].space, rgid);
  }

  lemma HeapOfAlloc(x: S.Space, rgid: S.Rgid, size: nat, frames: nat)
    requires |x.sym| == S.SYMBOLS
    ensures var y := S.Alloc(x, rgid, size, PagesFor(size) <= frames);
      && (S.NoRoom(x.free, size) ==>
            && y.sym == x.sym[rgid := S.Region(x.sbrk, x.sbrk + size)] && y.free == x.free
            && Moved(x.sbrk, y.sbrk, size, frames))
      && (forall k: nat :: S.FirstRoom(x.free, size, k) ==>
            y.sym == x.sym[rgid := S.Region(x.free[k].start, x.free[k].start + size)] && y.sbrk == x.sbrk)
  {
    var enough := PagesFor(size) <= frames;
    S.RoomIsFit(x.free, size);
    if S.NoRoom(x.free, size) {
      S.AllocGrows(x, rgid, size, enough);
      BreakMoved(x.sbrk, size, frames);
    } else {
      S.AllocReuses(x, rgid, size, enough, S.FirstFit(x.free, size));
    }
  }

  /** On the bus an event's page and offset make up the virtual address of its instruction. */
  lemma {:induction false} EventsAt(test: Test, s: Sys, ops: seq<Op>)
    requires Legal(test, s, ops) && Throughout(OnBus, test, s, ops)
    ensures forall i :: 0 <= i < |ops| ==> At(Trace(test, s, ops)[i], Addresses(test, s, ops)[i])
    decreases |ops|
  {
    if ops == [] {
    } else {
      var init, op := ops[..|ops| - 1], ops[|ops| - 1];
      EventsAt(test, s, init);
      StepAt(test, State(test, s, init), op);
    }
  }

  lemma {:induction false} LastIs(t: seq<Event>, p: nat, n: nat, o: nat, i: nat)
    requires i < |t| && t[i].Wrote? && t[i].pid == p && t[i].pgn == n && t[i].off == o
    requires forall k :: i < k < |t| && t[k].Wrote? ==> t[k].pid != p || t[k].pgn != n || t[k].off != o
    ensures LastWritten(t, p, n, o) == Some(t[i].data)
    decreases |t|
  {
    if i == |t| - 1 {
    } else {
      LastIs(t[..|t| - 1], p, n, o, i);
    }
  }

  lemma ByAddress(trace: seq<Event>, addrs: seq<nat>)
    requires |addrs| == |trace| && Sees(trace) && forall i :: 0 <= i < |trace| ==> At(trace[i], addrs[i])
    ensures SeesByAddress(trace, addrs)
  {
    forall i, j | 0 <= i < j < |trace| && LastWriteBefore(trace, addrs, i, j)
      ensures trace[j].data == trace[i].data
    {
      var e, past := trace[j], trace[..j];
      SameByte(trace[i].pgn, trace[i].off, e.pgn, e.off);
      assert past[i] == trace[i] && forall k :: i < k < j ==> past[k] == trace[k];
      LastIs(past, e.pid, e.pgn, e.off, i);
      assert SeesLastWrite(past, e);
    }
  }

  /** Swap transparency by virtual address, for accesses on the bus. */
  lemma TransparencyByAddress(ram: seq<Byte>, swp: seq<Byte>, ops: seq<Op>)
    requires Configured(ram, swp) && Legal(Documented, Boot(ram, swp), ops)
    requires Throughout(Harmless, Documented, Boot(ram, swp), ops) && Throughout(OnBus, Documented, Boot(ram, swp), ops)
    ensures SeesByAddress(Trace(Documented, Boot(ram, swp), ops), Addresses(Documented, Boot(ram, swp), ops))
  {
    SwapTransparency(ram, swp, ops);
    EventsAt(Documented, Boot(ram, swp), ops);
    ByAddress(Trace(Documented, Boot(ram, swp), ops), Addresses(Documented, Boot(ram, swp), ops));
  }

  /** A region below a break on the bus is on the bus. */
  lemma RegionOnBus(s: Sys, op: Op)
    requires Tame(s) && Ready(s, op) && Obeys(InRegion, s, op) && Obeys(BreakOnBus, s, op)
    ensures Obeys(OnBus, s, op)
  {
    if op.Read? || op.Write? {
      assert TameMm(s.mms[op.pid], s.ram.free);
      assert s.mms[op.pid].space.sym[op.rgid].end <= s.mms[op.pid].space.sbrk;
    }
  }

  lemma {:induction false} RegionRunOnBus(test: Test, s: Sys, ops: seq<Op>)
    requires Inv(s) && Tame(s) && Legal(test, s, ops)
    requires Throughout(InRegion, test, s, ops) && Throughout(BreakOnBus, test, s, ops)
    ensures Throughout(OnBus, test, s, ops)
    decreases |ops|
  {
    if ops == [] {
    } else {
      var init := ops[..|ops| - 1];
      RegionRunOnBus(test, s, init);
      RegionRun(test, s, init);
      RegionOnBus(State(test, s, init), ops[|ops| - 1]);
    }
  }

  /** The same for programs that stay inside their regions while the break is on the bus: no other
      condition is needed. */
  lemma RegionByAddress(ram: seq<Byte>, swp: seq<Byte>, ops: seq<Op>)
    requires Configured(ram, swp) && Legal(Documented, Boot(ram, swp), ops)
    requires Throughout(InRegion, Documented, Boot(ram, swp), ops)
    requires Throughout(BreakOnBus, Documented, Boot(ram, swp), ops)
    ensures SeesByAddress(Trace(Documented, Boot(ram, swp), ops), Addresses(Documented, Boot(ram, swp), ops))
  {
    RegionTransparency(Documented, ram, swp, ops);
    CleanRun(Documented, Boot(ram, swp), ops);
    RegionRunOnBus(Documented, Boot(ram, swp), ops);
    TransparencyByAddress(ram, swp, ops);
  }
}
