/** Four short programs from boot, on devices of any size that has the frames they use: what goes wrong
    outside the conditions of PagingRuns. */
module PagingPrograms {
  import opened Common
  import opened Memphy
  import opened Pte
  import opened Paging
  import opened PagingSystem
  import opened PagingSteps
  import opened PagingRuns
  import opened PagingWitness
  import S = Space

  lemma FreeFrames(n: nat, k: nat)
    requires k < n
    ensures AllFrames(n)[k..] != [] && AllFrames(n)[k..][0] == k
    ensures AllFrames(n)[k..][1..] == AllFrames(n)[k + 1..] && AllFrames(n)[0..] == AllFrames(n)
  {
  }

  /** Load, allocate one page, write x past its end. */
  lemma Stray(test: Test, b: Sys, at: nat, w: World, p: nat, x: Byte) returns (w1: World, w2: World, w3: World)
    requires p !in w.mms && w.ramFree != [] && w.ramFree[0] < b.ram.Frames()
    requires w.swpFree != [] && w.swpFree[0] < b.swp.Frames()
    ensures Links(test, b, at, w, Load(p), w1) && Links(test, b, at, w1, Alloc(p, 0, 256), w2)
    ensures Links(test, b, at, w2, Write(p, 0, 256, x), w3)
    ensures w3.mms == w.mms[p := StrayedMm(w.ramFree[0], w.swpFree[0])]
    ensures w3.ramFree == w.ramFree[1..] && w3.swpFree == w.swpFree[1..]
    ensures w3.byte == Hit(w.ramFree[0], 0, at, x, w.byte)
    ensures w3.trace == w.trace + [Quiet] + [Quiet] + [Wrote(p, 1, 0, x)]
  {
    var f := w.ramFree[0];
    w1 := w.(mms := w.mms[p := InitMm()], trace := w.trace + [Quiet]);
    LinkLoad(test, b, at, w, p);
    w2 := w1.(mms := w1.mms[p := OnePage(f)], ramFree := w.ramFree[1..], trace := w1.trace + [Quiet]);
    LinkOnePage(test, b, at, w1, p);
    w3 := World(w2.mms[p := StrayedMm(f, w.swpFree[0])], w2.ramFree, w.swpFree[1..], Hit(f, 0, at, x, w.byte),
                w2.trace + [Wrote(p, 1, 0, x)]);
    LinkStray(test, b, at, w2, p, f, x);
  }

  // ----- The test as written reads a stale byte

  /** The page taken for resident is written through the frame of another page, which is then read. */
  function StaleProgram(): seq<Op> {
    [Load(1), Alloc(1, 0, 256), Write(1, 0, 256, 7), Write(1, 0, 0, 9), Read(1, 0, 256)]
  }

  /** On any devices of at least one frame each, the last read of this program returns 9 where its
      process last wrote 7. */
  lemma AsWrittenReadsStale(ram: seq<Byte>, swp: seq<Byte>)
    requires Configured(ram, swp) && |ram| >= 256 && |swp| >= 256
    ensures Legal(AsWritten, Boot(ram, swp), StaleProgram())
    ensures var t := Trace(AsWritten, Boot(ram, swp), StaleProgram());
      t[4] == Got(1, 1, 0, 9) && LastWritten(t[..4], 1, 1, 0) == Some(7) && !Sees(t)
  {
    var b, w := Boot(ram, swp), BootWorld(ram, swp, 0);
    FreeFrames(|ram| / PAGESZ, 0);
    FreeFrames(|swp| / PAGESZ, 0);
    var w1, w2, w3 := Stray(AsWritten, b, 0, w, 1, 7);
    var w4, w5 := StaleEnd(b, w3);
    Chain(AsWritten, b, 0, StaleProgram(), [w, w1, w2, w3, w4, w5]);
    StaleTrace(w5.trace, 7, 9);
  }

  lemma StaleEnd(b: Sys, w: World) returns (w1: World, w2: World)
    requires 1 in w.mms && w.mms[1] == StrayedMm(0, 0) && b.ram.Frames() > 0
    requires w.swpFree != [] ==> w.swpFree[0] < b.swp.Frames()
    ensures Links(AsWritten, b, 0, w, Write(1, 0, 0, 9), w1) && Links(AsWritten, b, 0, w1, Read(1, 0, 256), w2)
    ensures w2.trace == w.trace + [Wrote(1, 0, 0, 9)] + [Got(1, 1, 0, 9)]
  {
    var m := StrayedMm(0, 0);
    assert m.SlotOf(0) == Swapped(0) && m.SlotOf(1) == Resident(0);
    w1 := AfterHit(w, Write(1, 0, 0, 9), 0, 0, 0, 0);
    LinkHit(AsWritten, b, 0, w, Write(1, 0, 0, 9), m, 0, 0);
    w2 := AfterHit(w1, Read(1, 0, 256), 0, 1, 0, 0);
    LinkHit(AsWritten, b, 0, w1, Read(1, 0, 256), m, 1, 0);
  }

  lemma StaleTrace(t: seq<Event>, x: Byte, y: Byte)
    requires x != y && t == [] + [Quiet] + [Quiet] + [Wrote(1, 1, 0, x)] + [Wrote(1, 0, 0, y)] + [Got(1, 1, 0, y)]
    ensures t[4] == Got(1, 1, 0, y) && LastWritten(t[..4], 1, 1, 0) == Some(x) && !Sees(t)
  {
    assert t[..4][..3] == t[..3];
    assert LastWritten(t[..4], 1, 1, 0) == LastWritten(t[..3], 1, 1, 0) == Some(x);
    assert !SeesLastWrite(t[..4], t[4]);
  }

  // ----- The test as written writes another process's byte

  /** Process 2 has one page; process 1 strays and then writes its own page 0, which is swapped out. */
  function ClobberProgram(x: Byte, y: Byte): seq<Op> {
    [Load(2), Alloc(2, 0, 256), Load(1), Alloc(1, 0, 256), Write(1, 0, 256, x), Write(1, 0, 0, y)]
  }

  /** The last write, by process 1 inside its own region, stores y in process 2's page. */
  lemma AsWrittenClobbers(ram: seq<Byte>, swp: seq<Byte>, x: Byte, y: Byte)
    requires Configured(ram, swp) && |ram| >= 512 && |swp| >= 256
    ensures Legal(AsWritten, Boot(ram, swp), ClobberProgram(x, y))
    ensures var t := State(AsWritten, Boot(ram, swp), ClobberProgram(x, y));
      SlotAt(t, 2, 0) == Resident(0) && Contents(t, 2, 0) != [] && Contents(t, 2, 0)[0] == y
  {
    var b, w := Boot(ram, swp), BootWorld(ram, swp, 0);
    FreeFrames(|ram| / PAGESZ, 0);
    FreeFrames(|ram| / PAGESZ, 1);
    FreeFrames(|swp| / PAGESZ, 0);
    var w1, w2 := OtherPage(b, w);
    var w3, w4, w5 := Stray(AsWritten, b, 0, w2, 1, x);
    var w6 := ClobberEnd(b, w5, y);
    Chain(AsWritten, b, 0, ClobberProgram(x, y), [w, w1, w2, w3, w4, w5, w6]);
  }

  /** Process 2 takes frame 0. */
  lemma OtherPage(b: Sys, w: World) returns (w1: World, w2: World)
    requires w.mms == map[] && w.ramFree != []
    ensures Links(AsWritten, b, 0, w, Load(2), w1) && Links(AsWritten, b, 0, w1, Alloc(2, 0, 256), w2)
    ensures w2.mms == map[2 := OnePage(w.ramFree[0])] && w2.ramFree == w.ramFree[1..] && w2.swpFree == w.swpFree
  {
    w1 := w.(mms := w.mms[2 := InitMm()], trace := w.trace + [Quiet]);
    LinkLoad(AsWritten, b, 0, w, 2);
    w2 := w1.(mms := w1.mms[2 := OnePage(w.ramFree[0])], ramFree := w.ramFree[1..], trace := w1.trace + [Quiet]);
    LinkOnePage(AsWritten, b, 0, w1, 2);
  }

  lemma ClobberEnd(b: Sys, w: World, y: Byte) returns (w1: World)
    requires 1 in w.mms && w.mms[1] == StrayedMm(1, 0) && b.ram.Frames() > 1
    requires w.swpFree != [] ==> w.swpFree[0] < b.swp.Frames()
    ensures Links(AsWritten, b, 0, w, Write(1, 0, 0, y), w1) && w1.mms == w.mms && w1.byte == y
  {
    var m := StrayedMm(1, 0);
    assert m.SlotOf(0) == Swapped(0) && m.SlotOf(1) == Resident(1);
    w1 := AfterHit(w, Write(1, 0, 0, y), 0, 0, 0, 0);
    LinkHit(AsWritten, b, 0, w, Write(1, 0, 0, y), m, 0, 0);
  }

  // ----- A growth over a page that was swapped out

  function UncleanProgram(x: Byte, y: Byte): seq<Op> {
    [Load(1), Alloc(1, 0, 256), Write(1, 0, 256, x), Write(1, 0, 512, y), Alloc(1, 1, 256), Read(1, 0, 256)]
  }

  /** Under the documented test the growth hands page 1 a new frame: the read returns what that frame
      held at boot, not the x last written. */
  lemma UncleanReadsStale(ram: seq<Byte>, swp: seq<Byte>, x: Byte, y: Byte)
    requires Configured(ram, swp) && |ram| >= 512 && |swp| >= 512 && x != ram[256]
    ensures Legal(Documented, Boot(ram, swp), UncleanProgram(x, y))
    ensures var t := Trace(Documented, Boot(ram, swp), UncleanProgram(x, y));
      t[5] == Got(1, 1, 0, ram[256]) && LastWritten(t[..5], 1, 1, 0) == Some(x) && !Sees(t)
  {
    var b, w := Boot(ram, swp), BootWorld(ram, swp, 256);
    FreeFrames(|ram| / PAGESZ, 0);
    FreeFrames(|ram| / PAGESZ, 1);
    FreeFrames(|swp| / PAGESZ, 0);
    FreeFrames(|swp| / PAGESZ, 1);
    var w1, w2, w3 := Stray(Documented, b, 256, w, 1, x);
    var w4, w5, w6 := UncleanEnd(b, w3, y);
    Chain(Documented, b, 256, UncleanProgram(x, y), [w, w1, w2, w3, w4, w5, w6]);
    UncleanTrace(w6.trace, x, y, ram[256]);
  }

  /** Its pages 0 and 1 are swapped out, page 2 holds the frame. */
  function StrayedTwice(): Mm { Mm(map[0 := Swapped(0), 1 := Swapped(1), 2 := Resident(0)], [2], OneRegion()) }

  lemma StrayedTwiceIs()
    ensures Faulted(StrayedMm(0, 0), 2, 1) == StrayedTwice()
    ensures var m := Grown(StrayedTwice(), 1, [1]);
      m.SlotOf(1) == Resident(1) && m.fifo == [1, 2] && m.SlotOf(2) == Resident(0)
      && |m.space.sym| == S.SYMBOLS && m.space.sym[0] == S.Region(0, 256)
  {
    assert map[0 := Swapped(0), 1 := Resident(0)][1 := Swapped(1)][2 := Resident(0)]
        == map[0 := Swapped(0), 1 := Swapped(1), 2 := Resident(0)];
    assert [2] + [1][..0] == [2];
    GrownOne(StrayedTwice(), 1, 1);
  }

  lemma UncleanEnd(b: Sys, w: World, y: Byte) returns (w1: World, w2: World, w3: World)
    requires 1 in w.mms && w.mms[1] == StrayedMm(0, 0) && b.ram.Frames() > 1 && b.swp.Frames() > 1
    requires w.swpFree != [] && w.swpFree[0] == 1 && w.ramFree != [] && w.ramFree[0] == 1
    requires |w.swpFree| > 1 ==> w.swpFree[1] < b.swp.Frames()
    ensures Links(Documented, b, 256, w, Write(1, 0, 512, y), w1)
    ensures Links(Documented, b, 256, w1, Alloc(1, 1, 256), w2)
    ensures Links(Documented, b, 256, w2, Read(1, 0, 256), w3)
    ensures w3.trace == w.trace + [Wrote(1, 2, 0, y)] + [Quiet] + [Got(1, 1, 0, w.byte)]
  {
    StrayedTwiceIs();
    w1 := World(w.mms[1 := StrayedTwice()], w.ramFree, [] + w.swpFree[1..], w.byte, w.trace + [Wrote(1, 2, 0, y)]);
    assert StrayedMm(0, 0).SlotOf(2) == Unmapped && StrayedMm(0, 0).SlotOf(1) == Resident(0);
    LinkFault(Documented, b, 256, w, Write(1, 0, 512, y), StrayedMm(0, 0), 2, 0);
    w2 := LinkRegrow(b, 256, w1, StrayedTwice(), 1);
    w3 := AfterHit(w2, Read(1, 0, 256), 1, 1, 0, 256);
    LinkHit(Documented, b, 256, w2, Read(1, 0, 256), Grown(StrayedTwice(), 1, [1]), 1, 0);
  }

  /** Process 1's second region, of one page. */
  lemma LinkRegrow(b: Sys, at: nat, w: World, m: Mm, f: nat) returns (w': World)
    requires 1 in w.mms && w.mms[1] == m && |m.space.sym| == S.SYMBOLS && m.space.free == [S.Region(0, 0)]
    requires w.ramFree != [] && w.ramFree[0] == f
    ensures Links(Documented, b, at, w, Alloc(1, 1, 256), w')
    ensures w' == w.(mms := w.mms[1 := Grown(m, 1, [f])], ramFree := w.ramFree[1..], trace := w.trace + [Quiet])
  {
    w' := w.(mms := w.mms[1 := Grown(m, 1, [f])], ramFree := w.ramFree[1..], trace := w.trace + [Quiet]);
    assert w.ramFree[..1] == [f];
    LinkGrow(Documented, b, at, w, 1, 1, 1);
    assert Alloc(1, 1, 1 * PAGESZ) == Alloc(1, 1, 256);
  }

  lemma UncleanTrace(t: seq<Event>, x: Byte, y: Byte, z: Byte)
    requires x != z
    requires t == [] + [Quiet] + [Quiet] + [Wrote(1, 1, 0, x)] + [Wrote(1, 2, 0, y)] + [Quiet] + [Got(1, 1, 0, z)]
    ensures t[5] == Got(1, 1, 0, z) && LastWritten(t[..5], 1, 1, 0) == Some(x) && !Sees(t)
  {
    assert t[..5][..4] == t[..4] && t[..4][..3] == t[..3];
    assert LastWritten(t[..5], 1, 1, 0) == LastWritten(t[..4], 1, 1, 0) == LastWritten(t[..3], 1, 1, 0) == Some(x);
    assert !SeesLastWrite(t[..5], t[5]);
  }

  // ----- A growth over a page in the victim queue

  /** Process 2 has 33 pages.  Process 1 strays, grows over the queued page 1, and faults twice. */
  function QueuedProgram(x: Byte, y: Byte, z: Byte): seq<Op> {
    [Load(2), Alloc(2, 0, 33 * 256), Load(1), Alloc(1, 0, 256), Write(1, 0, 256, x),
     Alloc(1, 1, 256), Write(1, 0, 0, z), Write(1, 0, 512, y)]
  }

  /** Under the documented test: frame 32 backs a page of each process, and the last write of process 1
      stores y in process 2's page. */
  lemma QueuedBreaks(ram: seq<Byte>, swp: seq<Byte>, x: Byte, y: Byte, z: Byte)
    requires Configured(ram, swp) && |ram| >= 35 * 256 && |swp| >= 512
    ensures Legal(Documented, Boot(ram, swp), QueuedProgram(x, y, z))
    ensures var t := State(Documented, Boot(ram, swp), QueuedProgram(x, y, z));
      && SlotAt(t, 1, 2) == SlotAt(t, 2, 32) == Resident(32) && !Exclusive(t)
      && Contents(t, 2, 32) != [] && Contents(t, 2, 32)[0] == y
  {
    var b, w := Boot(ram, swp), BootWorld(ram, swp, 8192);
    var ws := QueuedWorlds(b, w, |ram| / PAGESZ, x, y, z);
    Chain(Documented, b, 8192, QueuedProgram(x, y, z), ws);
    SharedFrame(State(Documented, b, QueuedProgram(x, y, z)), ws[8], y);
  }

  lemma QueuedWorlds(b: Sys, w: World, n: nat, x: Byte, y: Byte, z: Byte) returns (ws: seq<World>)
    requires w.mms == map[] && w.ramFree == AllFrames(n) && b.ram.Frames() == n > 34
    requires |w.swpFree| > 1 && w.swpFree[0] == 0 && w.swpFree[1] == 1 && b.swp.Frames() > 1
    ensures |ws| == 9 && ws[0] == w && Linked(Documented, b, 8192, QueuedProgram(x, y, z), ws)
    ensures ws[8].byte == y && 1 in ws[8].mms && 2 in ws[8].mms
    ensures ws[8].mms[1] == EvictedTwice() && ws[8].mms[2].SlotOf(32) == Resident(32)
  {
    var w1, w2, w3, w4, w5 := QueuedStart(b, w, n, x);
    var w6, w7, w8 := QueuedEnd(b, w5, y, z);
    ws := QueuedLinked(b, x, y, z, w, w1, w2, w3, w4, w5, w6, w7, w8);
  }

  lemma QueuedStart(b: Sys, w: World, n: nat, x: Byte)
    returns (w1: World, w2: World, w3: World, w4: World, w5: World)
    requires w.mms == map[] && w.ramFree == AllFrames(n) && b.ram.Frames() == n > 34
    requires |w.swpFree| > 1 && w.swpFree[0] == 0 && w.swpFree[1] == 1 && b.swp.Frames() > 1
    ensures Links(Documented, b, 8192, w, Load(2), w1) && Links(Documented, b, 8192, w1, Alloc(2, 0, 33 * 256), w2)
    ensures Links(Documented, b, 8192, w2, Load(1), w3) && Links(Documented, b, 8192, w3, Alloc(1, 0, 256), w4)
    ensures Links(Documented, b, 8192, w4, Write(1, 0, 256, x), w5)
    ensures 1 in w5.mms && 2 in w5.mms && w5.mms[1] == StrayedMm(33, 0) && w5.mms[2].SlotOf(32) == Resident(32)
    ensures w5.ramFree != [] && w5.ramFree[0] == 34 && w5.swpFree != [] && w5.swpFree[0] == 1
  {
    w1, w2 := BigOther(b, w, n);
    w3, w4, w5 := Stray(Documented, b, 8192, w2, 1, x);
  }

  lemma QueuedLinked(b: Sys, x: Byte, y: Byte, z: Byte, w0: World, w1: World, w2: World, w3: World, w4: World,
                     w5: World, w6: World, w7: World, w8: World) returns (ws: seq<World>)
    requires Links(Documented, b, 8192, w0, Load(2), w1) && Links(Documented, b, 8192, w1, Alloc(2, 0, 33 * 256), w2)
    requires Links(Documented, b, 8192, w2, Load(1), w3) && Links(Documented, b, 8192, w3, Alloc(1, 0, 256), w4)
    requires Links(Documented, b, 8192, w4, Write(1, 0, 256, x), w5)
    requires Links(Documented, b, 8192, w5, Alloc(1, 1, 256), w6)
    requires Links(Documented, b, 8192, w6, Write(1, 0, 0, z), w7)
    requires Links(Documented, b, 8192, w7, Write(1, 0, 512, y), w8)
    ensures |ws| == 9 && ws[0] == w0 && ws[8] == w8 && Linked(Documented, b, 8192, QueuedProgram(x, y, z), ws)
  {
    ws := [w0, w1, w2, w3, w4, w5, w6, w7, w8];
  }

  /** Process 2 takes frames 0 .. 32. */
  lemma BigOther(b: Sys, w: World, n: nat) returns (w1: World, w2: World)
    requires w.mms == map[] && w.ramFree == AllFrames(n) && n > 34
    ensures Links(Documented, b, 8192, w, Load(2), w1) && Links(Documented, b, 8192, w1, Alloc(2, 0, 33 * 256), w2)
    ensures 2 in w2.mms && 1 !in w2.mms && w2.mms[2].SlotOf(32) == Resident(32)
    ensures |w2.ramFree| > 1 && w2.ramFree[0] == 33 && w2.ramFree[1] == 34 && w2.swpFree == w.swpFree
  {
    w1 := w.(mms := w.mms[2 := InitMm()], trace := w.trace + [Quiet]);
    LinkLoad(Documented, b, 8192, w, 2);
    w2 := w1.(mms := w1.mms[2 := Grown(InitMm(), 0, AllFrames(n)[..33])], ramFree := AllFrames(n)[33..],
              trace := w1.trace + [Quiet]);
    LinkGrow(Documented, b, 8192, w1, 2, 0, 33);
    assert AllFrames(n)[..33][32] == 32;
    assert Alloc(2, 0, 33 * PAGESZ) == Alloc(2, 0, 33 * 256);
  }

  function DoubledSpace(): S.Space {
    S.Space(OneRegion().sym[1 := S.Region(256, 512)], [S.Region(0, 0)], 512)
  }

  /** Page 1 is queued twice. */
  function Doubled(): Mm { Mm(map[0 := Swapped(0), 1 := Resident(34)], [1, 1], DoubledSpace()) }

  /** It was evicted once, to swap frame 1, and is still queued. */
  function EvictedOnce(): Mm { Mm(map[0 := Resident(34), 1 := Swapped(1)], [0, 1], DoubledSpace()) }

  /** It was evicted again, out of the frame number read from its swap entry. */
  function EvictedTwice(): Mm {
    Mm(map[0 := Resident(34), 1 := Swapped(0), 2 := Resident(32)], [2, 0], DoubledSpace())
  }

  lemma QueuedMms()
    ensures Grown(StrayedMm(33, 0), 1, [34]) == Doubled()
    ensures Faulted(Doubled(), 0, 1) == EvictedOnce() && Faulted(EvictedOnce(), 2, 0) == EvictedTwice()
  {
    GrownOne(StrayedMm(33, 0), 1, 34);
    assert map[0 := Swapped(0), 1 := Resident(33)][1 := Resident(34)] == map[0 := Swapped(0), 1 := Resident(34)];
    assert [1] + [1] == [1, 1];
    assert map[0 := Swapped(0), 1 := Resident(34)][1 := Swapped(1)][0 := Resident(34)]
        == map[0 := Resident(34), 1 := Swapped(1)];
    assert [0] + [1, 1][..1] == [0, 1];
    assert map[0 := Resident(34), 1 := Swapped(1)][1 := Swapped(0)][2 := Resident(32)]
        == map[0 := Resident(34), 1 := Swapped(0), 2 := Resident(32)];
    assert [2] + [0, 1][..1] == [2, 0];
  }

  lemma QueuedEnd(b: Sys, w: World, y: Byte, z: Byte) returns (w1: World, w2: World, w3: World)
    requires 1 in w.mms && w.mms[1] == StrayedMm(33, 0) && b.ram.Frames() > 34 && b.swp.Frames() > 1
    requires w.swpFree != [] && w.swpFree[0] == 1 && w.ramFree != [] && w.ramFree[0] == 34
    ensures Links(Documented, b, 8192, w, Alloc(1, 1, 256), w1)
    ensures Links(Documented, b, 8192, w1, Write(1, 0, 0, z), w2)
    ensures Links(Documented, b, 8192, w2, Write(1, 0, 512, y), w3)
    ensures w3.mms == w.mms[1 := EvictedTwice()] && w3.byte == y
  {
    QueuedMms();
    w1 := LinkRegrow(b, 8192, w, StrayedMm(33, 0), 34);
    assert Doubled().SlotOf(0) == Swapped(0) && Doubled().SlotOf(1) == Resident(34);
    w2 := World(w1.mms[1 := EvictedOnce()], w1.ramFree, [0] + w.swpFree[1..], w.byte, w1.trace + [Wrote(1, 0, 0, z)]);
    LinkFault(Documented, b, 8192, w1, Write(1, 0, 0, z), Doubled(), 0, 0);
    assert EvictedOnce().SlotOf(2) == Unmapped && EvictedOnce().SlotOf(1) == Swapped(1);
    w3 := World(w2.mms[1 := EvictedTwice()], w2.ramFree, [] + w2.swpFree[1..], y, w2.trace + [Wrote(1, 2, 0, y)]);
    LinkFault(Documented, b, 8192, w2, Write(1, 0, 512, y), EvictedOnce(), 2, 0);
  }

  lemma SharedFrame(t: Sys, w: World, y: Byte)
    requires Describes(t, w, 8192) && w.byte == y && 1 in w.mms && 2 in w.mms && t.ram.Frames() > 34
    requires w.mms[1] == EvictedTwice() && w.mms[2].SlotOf(32) == Resident(32)
    ensures SlotAt(t, 1, 2) == SlotAt(t, 2, 32) == Resident(32) && !Exclusive(t)
    ensures Contents(t, 2, 32) != [] && Contents(t, 2, 32)[0] == y
  {
  }
}
