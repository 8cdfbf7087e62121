/** The 32-bit page-table entry (include/mm.h, src/mm64.c) and the split of a virtual address. */
module Pte {
  import opened Common
  import opened Words

  const MAX_FPN: nat := 0x2000        // 13 bits, PAGING_PTE_FPN_HIBIT..LOBIT
  const MAX_SWPOFF: nat := 0x20_0000  // 21 bits, PAGING_PTE_SWPOFF_HIBIT..LOBIT
  const MAX_SWPTYP: nat := 32
  const WORD: nat := 0x1_0000_0000

  // ----- The source's readers and writers of an entry

  function SetFpn(v: nat, fpn: nat): nat {
    SetVal(ClrBit(SetBit(v, 31), 30), fpn, 12, 0)
  }

  function SetSwap(v: nat, swptyp: nat, swpoff: nat): nat {
    SetVal(SetVal(SetBit(SetBit(v, 31), 30), swptyp, 4, 0), swpoff, 25, 5)
  }

  predicate IsPresent(v: nat) { And(v, Shl(1, 31)) != 0 }
  predicate IsSwapped(v: nat) { And(v, Shl(1, 30)) != 0 }
  function Fpn(v: nat): nat { GetVal(v, 12, 0) }
  function Swp(v: nat): nat { GetVal(v, 25, 5) }
  function SwpTyp(v: nat): nat { GetVal(v, 4, 0) }

  // ----- What an entry says

  /** What an entry says about its page.  An entry that was never written is 0. */
  datatype Slot = Unmapped | Resident(fpn: nat) | Swapped(off: nat)

  /** A 32-bit entry with PRESENT set, and SWAPPED set or not. */
  predicate Flags(v: nat, swapped: bool) {
    v < WORD && (v / 0x8000_0000) % 2 == 1 && ((v / 0x4000_0000) % 2 == 1 <==> swapped)
  }

  /** An entry with both flags set and the given type and offset in bits 0..4 and 5..25. */
  predicate OnSwap(v: nat, swptyp: nat, swpoff: nat) {
    Flags(v, true) && (v / 32) % 0x20_0000 == swpoff && v % 32 == swptyp
  }

  /** The entries that SetFpn and SetSwap(.., 0, ..) leave behind. */
  predicate Encodes(v: nat, s: Slot) {
    match s
    case Unmapped => v == 0
    case Resident(f) => Flags(v, false) && v % 0x2000 == f
    case Swapped(k) => OnSwap(v, 0, k)
  }

  /** PAGING_FPN of an entry, whether or not its page is resident. */
  function RawFpn(s: Slot): nat {
    match s
    case Unmapped => 0
    case Resident(f) => f
    case Swapped(k) => (k % 256) * 32
  }

  // ----- The macros in arithmetic

  lemma Flag(v: nat, k: nat)
    ensures And(v, Shl(1, k)) != 0 <==> (v / Pow2(k)) % 2 == 1
  {
    AndBit(v, k);
    ShlZero(1, k);
    ShrIsDiv(v, k);
  }

  lemma FlagReads(v: nat)
    ensures IsPresent(v) <==> (v / 0x8000_0000) % 2 == 1
    ensures IsSwapped(v) <==> (v / 0x4000_0000) % 2 == 1
  {
    Pow2Values();
    Flag(v, 31);
    Flag(v, 30);
  }

  lemma FieldReads(v: nat)
    ensures Fpn(v) == v % 0x2000
    ensures Swp(v) == (v / 32) % 0x20_0000
    ensures SwpTyp(v) == v % 32
  {
    Pow2Values();
    assert Pow2(0) == 1;
    GetValIsField(v, 12, 0, 32);
    GetValIsField(v, 25, 5, 32);
    GetValIsField(v, 4, 0, 32);
  }

  /** Bit k, of weight p, of a word whose part from bit k on is q. */
  lemma BitAt(v: nat, k: nat, p: nat, q: nat)
    requires p == Pow2(k) && q == v / p
    ensures Shl(1, k) == p && Shr(v, k) == q
  {
    ShlIsMul(1, k);
    ShrIsDiv(v, k);
  }

  lemma BitUpdates(v: nat, k: nat, p: nat, q: nat)
    requires v <= Ones(BITS_PER_LONG) && k < BITS_PER_LONG && Shl(1, k) == p && Shr(v, k) == q
    ensures SetBit(v, k) == if q % 2 == 1 then v else v + p
    ensures ClrBit(v, k) == if q % 2 == 1 then v - p else v
  {
    SetBitValue(v, k);
    ClrBitValue(v, k);
  }

  lemma PresentBit(v: nat)
    requires v < WORD
    ensures SetBit(v, 31) == if (v / 0x8000_0000) % 2 == 1 then v else v + 0x8000_0000
  {
    Pow2Values();
    OnesIsPow2(32);
    BitAt(v, 31, 0x8000_0000, v / 0x8000_0000);
    BitUpdates(v, 31, 0x8000_0000, v / 0x8000_0000);
  }

  lemma SwappedBit(v: nat)
    requires v < WORD
    ensures SetBit(v, 30) == if (v / 0x4000_0000) % 2 == 1 then v else v + 0x4000_0000
    ensures ClrBit(v, 30) == if (v / 0x4000_0000) % 2 == 1 then v - 0x4000_0000 else v
  {
    Pow2Values();
    OnesIsPow2(32);
    BitAt(v, 30, 0x4000_0000, v / 0x4000_0000);
    BitUpdates(v, 30, 0x4000_0000, v / 0x4000_0000);
  }

  /** After SETBIT(31) the two flag bits are read off the value's quarter. */
  lemma HighBits(v: nat, v1: nat)
    requires v <= 0xFFFF_FFFF && v1 == if (v / 0x8000_0000) % 2 == 1 then v else v + 0x8000_0000
    ensures 0x8000_0000 <= v1 <= 0xFFFF_FFFF
    ensures (v1 / 0x4000_0000) % 2 == 1 <==> v1 >= 0xC000_0000
  {
  }

  /** Both writers set PRESENT, and set or clear SWAPPED. */
  lemma FlagsWritten(v: nat, v1: nat)
    requires v < WORD && v1 == SetBit(v, 31)
    ensures v1 < WORD
    ensures 0x8000_0000 <= ClrBit(v1, 30) < 0xC000_0000 && 0xC000_0000 <= SetBit(v1, 30) < WORD
  {
    PresentBit(v);
    HighBits(v, v1);
    SwappedBit(v1);
  }

  lemma FieldInPlace(v: nat, l: nat, n: nat, L: nat, F: nat)
    requires L == Pow2(l) && F == Pow2(n)
    ensures Shl(Low(Shr(v, l), n), l) == ((v / L) % F) * L
  {
    ShrIsDiv(v, l);
    LowIsMod(v / L, n);
    ShlIsMul((v / L) % F, l);
  }

  lemma ValueInPlace(value: nat, l: nat, n: nat, L: nat, F: nat)
    requires L == Pow2(l) && F == Pow2(n)
    ensures Shl(Low(value, n), l) == value % F * L
  {
    LowIsMod(value, n);
    ShlIsMul(value % F, l);
  }

  /** SETVAL on a field starting at bit l, with its two positions as powers of two. */
  lemma SetValArithmetic(v: nat, value: nat, h: nat, l: nat, L: nat, F: nat)
    requires l <= h < 32 && v <= Ones(32)
    requires L == Pow2(l) && F == Pow2(h - l + 1)
    ensures SetVal(v, value, h, l) + ((v / L) % F) * L == v + value % F * L
  {
    var a, b := ((v / L) % F) * L, value % F * L;
    FieldInPlace(v, l, h - l + 1, L, F);
    ValueInPlace(value, l, h - l + 1, L, F);
    SetValReplaces(v, value, h, l, a, b);
  }

  lemma SetSmallValue(v: nat, value: nat, h: nat, l: nat, L: nat, F: nat)
    requires l <= h < 32 && v <= Ones(32) && value < F
    requires L == Pow2(l) && F == Pow2(h - l + 1)
    ensures SetVal(v, value, h, l) + ((v / L) % F) * L == v + value * L
  {
    SetValArithmetic(v, value, h, l, L, F);
    DivModUnique(value, F, 0, value);
  }

  lemma SetValReplaces(v: nat, value: nat, h: nat, l: nat, a: nat, b: nat)
    requires l <= h < 32 && v <= Ones(32)
    requires a == Shl(Low(Shr(v, l), h - l + 1), l) && b == Shl(Low(value, h - l + 1), l)
    ensures SetVal(v, value, h, l) + a == v + b
  {
    SetValReplacesField(v, value, h, l);
  }

  // ----- pte_set_fpn

  /** pte_set_fpn: whatever stale bits the entry held, it becomes the entry of a page resident in `fpn`
      cut to the 13 bits of its field. */
  lemma SetFpnDecodes(v: nat, fpn: nat, r: nat)
    requires v < WORD && r == SetFpn(v, fpn)
    ensures Encodes(r, Resident(fpn % MAX_FPN))
  {
    var v2 := ClrBit(SetBit(v, 31), 30);
    FlagsWritten(v, SetBit(v, 31));
    OnesIsPow2(32);
    Pow2Values();
    SetValArithmetic(v2, fpn, 12, 0, 1, 0x2000);
    ResidentRange(v2, r, fpn % MAX_FPN);
  }

  lemma ResidentRange(v: nat, r: nat, fpn: nat)
    requires 0x8000_0000 <= v < 0xC000_0000 && fpn < 0x2000
    requires r + v % 0x2000 == v + fpn
    ensures 0x8000_0000 <= r < 0xC000_0000 && r % 0x2000 == fpn
    ensures r / 0x8000_0000 == 1 && (r / 0x4000_0000) % 2 == 0
  {
    assert r == (v / 0x2000) * 0x2000 + fpn;
  }

  /** So it reads back as present, not swapped, with the frame number it was given exactly when that
      fits its field: with more than 8192 frames of RAM two frames read as one. */
  lemma SetFpnReads(v: nat, fpn: nat, r: nat)
    requires v < WORD && r == SetFpn(v, fpn)
    ensures IsPresent(r) && !IsSwapped(r) && Fpn(r) == fpn % MAX_FPN
    ensures Fpn(r) == fpn <==> fpn < MAX_FPN
  {
    SetFpnDecodes(v, fpn, r);
    EntryReads(r, fpn % MAX_FPN);
    CutFits(fpn);
  }

  lemma EntryReads(r: nat, f: nat)
    requires Encodes(r, Resident(f))
    ensures IsPresent(r) && !IsSwapped(r) && Fpn(r) == f
  {
    FlagReads(r);
    FieldReads(r);
  }

  lemma CutFits(fpn: nat)
    ensures fpn % MAX_FPN == fpn <==> fpn < MAX_FPN
  {
  }

  // ----- pte_set_swap

  /** pte_set_swap: whatever stale bits the entry held, it becomes the entry of a page swapped out at
      `swpoff` of device `swptyp`. */
  lemma SetSwapDecodes(v: nat, swptyp: nat, swpoff: nat, r: nat)
    requires v < WORD && swptyp < MAX_SWPTYP && swpoff < MAX_SWPOFF && r == SetSwap(v, swptyp, swpoff)
    ensures OnSwap(r, swptyp, swpoff) && r % 0x2000 == (swpoff % 256) * 32 + swptyp
  {
    var v2 := SetBit(SetBit(v, 31), 30);
    FlagsWritten(v, SetBit(v, 31));
    OnesIsPow2(32);
    Pow2Values();
    SetSmallValue(v2, swptyp, 4, 0, 1, 32);
    var v3 := SetVal(v2, swptyp, 4, 0);
    TypWritten(v2, v3, swptyp);
    SetSmallValue(v3, swpoff, 25, 5, 32, 0x20_0000);
    DigitsOf(r, v2 / 0x400_0000, swpoff, swptyp);
  }

  /** So it reads back as present and swapped with that type and offset, and its FPN field shows the low
      bits of the offset. */
  lemma SetSwapReads(v: nat, swptyp: nat, swpoff: nat, r: nat)
    requires v < WORD && swptyp < MAX_SWPTYP && swpoff < MAX_SWPOFF && r == SetSwap(v, swptyp, swpoff)
    ensures IsPresent(r) && IsSwapped(r) && SwpTyp(r) == swptyp && Swp(r) == swpoff
    ensures Fpn(r) == (swpoff % 256) * 32 + swptyp
  {
    SetSwapDecodes(v, swptyp, swpoff, r);
    FlagReads(r);
    FieldReads(r);
  }

  lemma TypWritten(v2: nat, v3: nat, swptyp: nat)
    requires 0xC000_0000 <= v2 <= 0xFFFF_FFFF && swptyp < 32 && v3 + v2 % 32 == v2 + swptyp
    ensures v3 <= 0xFFFF_FFFF
    ensures v3 == (v2 / 0x400_0000) * 0x400_0000 + ((v3 / 32) % 0x20_0000) * 32 + swptyp
  {
    var top, mid := v2 / 0x400_0000, (v2 / 32) % 0x20_0000;
    ThreeDigits(v2, top, mid);
    DigitsOf(v3, top, mid, swptyp);
  }

  lemma ThreeDigits(v: nat, top: nat, mid: nat)
    requires top == v / 0x400_0000 && mid == (v / 32) % 0x20_0000
    ensures v == top * 0x400_0000 + mid * 32 + v % 32
  {
    assert (v / 32) / 0x20_0000 == v / 0x400_0000;
  }

  lemma DigitsOf(v: nat, top: nat, mid: nat, low: nat)
    requires v == top * 0x400_0000 + mid * 32 + low && mid < 0x20_0000 && low < 32 && 48 <= top < 64
    ensures v <= 0xFFFF_FFFF && (v / 0x8000_0000) % 2 == 1 && (v / 0x4000_0000) % 2 == 1
    ensures v % 32 == low && (v / 32) % 0x20_0000 == mid
    ensures v % 0x2000 == (mid % 256) * 32 + low
  {
    var m, n := mid / 256, mid % 256;
    DivModUnique(v, 32, top * 0x20_0000 + mid, low);
    DivModUnique(v / 32, 0x20_0000, top, mid);
    DivModUnique(v, 0x2000, top * 0x2000 + m, n * 32 + low);
    TopBits(v);
  }

  lemma TopBits(v: nat)
    requires 0xC000_0000 <= v < WORD
    ensures (v / 0x8000_0000) % 2 == 1 && (v / 0x4000_0000) % 2 == 1
  {
    DivModUnique(v, 0x8000_0000, 1, v - 0x8000_0000);
    DivModUnique(v, 0x4000_0000, 3, v - 0xC000_0000);
  }

  // ----- Reading an entry back

  /** What the two readers of an entry, pg_getpage's PRESENT test and PAGING_FPN / PAGING_SWP, see. */
  lemma EncodedReads(v: nat, s: Slot)
    requires Encodes(v, s)
    ensures IsPresent(v) <==> !s.Unmapped?
    ensures v == 0 <==> s.Unmapped?
    ensures IsSwapped(v) <==> s.Swapped?
    ensures Fpn(v) == RawFpn(s)
    ensures s.Swapped? ==> Swp(v) == s.off
  {
    FlagReads(v);
    FieldReads(v);
    LowDigits(v);
  }

  lemma LowDigits(v: nat)
    ensures v % 0x2000 == ((v / 32) % 0x20_0000) % 256 * 32 + v % 32
  {
    var q := v / 32;
    ModMod(q);
    DivModUnique(v, 0x2000, q / 256, (q % 256) * 32 + v % 32);
  }

  lemma ModMod(q: nat)
    ensures (q % 0x20_0000) % 256 == q % 256
  {
    var a, b := q / 0x20_0000, q % 0x20_0000;
    DivModUnique(q, 256, a * 0x2000 + b / 256, b % 256);
  }

  // ----- Any history of updates

  datatype Update = ToFrame(fpn: nat) | ToSwap(typ: nat, off: nat)

  predicate InRange(u: Update) {
    match u case ToFrame(f) => f < MAX_FPN case ToSwap(t, k) => t < MAX_SWPTYP && k < MAX_SWPOFF
  }

  function Apply(v: nat, u: Update): nat {
    match u case ToFrame(f) => SetFpn(v, f) case ToSwap(t, k) => SetSwap(v, t, k)
  }

  function Replay(us: seq<Update>): nat {
    if us == [] then 0 else Apply(Replay(us[..|us| - 1]), us[|us| - 1])
  }

  /** The readers see what update u asked for. */
  predicate Shows(v: nat, u: Update) {
    match u
    case ToFrame(f) => IsPresent(v) && !IsSwapped(v) && Fpn(v) == f
    case ToSwap(t, k) => IsPresent(v) && IsSwapped(v) && SwpTyp(v) == t && Swp(v) == k
  }

  lemma AppliedFits(v: nat, u: Update, r: nat)
    requires v < WORD && InRange(u) && r == Apply(v, u)
    ensures r < WORD
  {
    match u
    case ToFrame(f) => SetFpnDecodes(v, f, r);
    case ToSwap(t, k) => SetSwapDecodes(v, t, k, r);
  }

  lemma {:induction false} ReplayFits(us: seq<Update>)
    requires forall i :: 0 <= i < |us| ==> InRange(us[i])
    ensures Replay(us) < WORD
  {
    if us == [] {
    } else {
      ReplayFits(us[..|us| - 1]);
      AppliedFits(Replay(us[..|us| - 1]), us[|us| - 1], Replay(us));
    }
  }

  lemma AppliedShows(v: nat, u: Update, r: nat)
    requires v < WORD && InRange(u) && r == Apply(v, u)
    ensures Shows(r, u)
  {
    match u
    case ToFrame(f) => SetFpnReads(v, f, r);
    case ToSwap(t, k) => SetSwapReads(v, t, k, r);
  }

  /** After any non-empty history of pte_set_fpn and pte_set_swap calls, with swap devices of any type,
      the readers see what the last call asked for. */
  lemma LastUpdateWins(us: seq<Update>)
    requires us != [] && forall i :: 0 <= i < |us| ==> InRange(us[i])
    ensures Shows(Replay(us), us[|us| - 1])
  {
    ReplayFits(us[..|us| - 1]);
    AppliedShows(Replay(us[..|us| - 1]), us[|us| - 1], Replay(us));
  }

  // ----- Addresses

  const BUS_SPACE: nat := 0x40_0000   // 2^PAGING_CPU_BUS_WIDTH

  /** PAGING_PGN and PAGING_OFFST, with bit positions computed by NBITS(PAGESZ) */
  function PgnOf(addr: nat): nat {
    PageBits();
    GetVal(addr, 21, NBits(PAGESZ))
  }

  function OffsetOf(addr: nat): nat {
    PageBits();
    GetVal(addr, NBits(PAGESZ) - 1, 0)
  }

  lemma PageBits()
    ensures NBits(PAGESZ) == 8
  {
    OnesIsPow2(32);
    Pow2Values();
    NBitsIsLog2(256);
    var k := NBits(256);
    if k < 8 { Pow2Mono(k + 1, 8); }
    if 8 < k { Pow2Above(k); }
  }

  lemma Pow2Above(k: nat)
    requires 8 < k
    ensures Pow2(k) >= 512
  {
    Pow2Values();
    Pow2Mono(9, k);
  }

  lemma {:induction false} Pow2Mono(m: nat, n: nat)
    requires m <= n
    ensures Pow2(m) <= Pow2(n)
  {
    if m == n {
    } else {
      Pow2Mono(m, n - 1);
    }
  }

  lemma PgnValue(addr: nat)
    ensures PgnOf(addr) == (addr / 256) % 0x4000
  {
    PageBits();
    Pow2Values();
    GetValIsField(addr, 21, 8, 32);
  }

  lemma OffsetValue(addr: nat)
    ensures OffsetOf(addr) == addr % 256
  {
    PageBits();
    Pow2Values();
    GetValIsField(addr, 7, 0, 32);
    assert Pow2(0) == 1;
  }

  lemma WrapArithmetic(addr: nat, pgn: nat, off: nat)
    requires pgn == (addr / 256) % 0x4000 && off == addr % 256
    ensures pgn == (addr % 0x40_0000) / 256 < 0x4000
    ensures pgn * 256 + off == addr % 0x40_0000
  {
    var q, r := addr / 0x40_0000, addr % 0x40_0000;
    DivModUnique(addr, 256, q * 0x4000 + r / 256, r % 256);
    DivModUnique(addr / 256, 0x4000, q, r / 256);
  }

  /** Page and offset of an address on the 22-bit bus. */
  function PageNumber(addr: nat): nat { (addr % BUS_SPACE) / PAGESZ }
  function PageOffset(addr: nat): nat { addr % PAGESZ }

  /** The macros split an address into page and offset; addresses wrap at the bus width. */
  lemma AddressSplit(addr: nat)
    ensures PgnOf(addr) == PageNumber(addr) < 0x4000
    ensures OffsetOf(addr) == PageOffset(addr) < PAGESZ
    ensures PgnOf(addr) * PAGESZ + OffsetOf(addr) == addr % BUS_SPACE
  {
    PgnValue(addr);
    OffsetValue(addr);
    WrapArithmetic(addr, PgnOf(addr), OffsetOf(addr));
  }
}
