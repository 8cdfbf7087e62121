/** The five indices of a page number (include/mm64.h, get_pd_from_pagenum). */
module PageIndex {
  import opened Words

  const ENTRIES: nat := 512          // PAGING64_PGTBL_ENTRIES
  const LEVELS: nat := 5

  /** PAGING64_ADDR_{PT,PMD,PUD,P4D,PGD}_LOBIT: 12, 21, 30, 39, 48 for levels 0..4.  Each field is
      nine bits wide: HIBIT is 20, 29, 38, 47, 56. */
  function LoBit(level: nat): nat { 12 + 9 * level }

  function IndexOfAddress(addr: nat, level: nat): nat
    requires level < LEVELS
  {
    GetVal(addr, LoBit(level) + 8, LoBit(level), 64)
  }

  /** get_pd_from_pagenum: PGD, P4D, PUD, PMD, PT in that order; the shift is in 64-bit arithmetic. */
  function Indices(pgn: nat): (r: seq<nat>)
    ensures |r| == LEVELS
  {
    seq<nat>(LEVELS, k requires 0 <= k < LEVELS => IndexOfAddress(Low(Shl(pgn, 12), 64), 4 - k))
  }

  /** The i-th nine-bit digit of a page number, least significant first. */
  function Digit(pgn: nat, i: nat): nat { Low(Shr(pgn, 9 * i), 9) }

  lemma {:induction false} LowBound(v: nat, n: nat)
    ensures Low(v, n) <= Ones(n)
  {
    if n == 0 {
    } else {
      LowBound(v / 2, n - 1);
    }
  }

  lemma {:induction false} FieldOfLow(x: nat, width: nat, l: nat, n: nat)
    requires l + n <= width
    ensures Low(Shr(Low(x, width), l), n) == Low(Shr(x, l), n)
  {
    if l == 0 && n == 0 {
    } else if l == 0 {
      FieldOfLow(x / 2, width - 1, 0, n - 1);
    } else {
      FieldOfLow(x / 2, width - 1, l - 1, n);
    }
  }

  lemma {:induction false} ShrOfShl(v: nat, k: nat, l: nat)
    requires k <= l
    ensures Shr(Shl(v, k), l) == Shr(v, l - k)
  {
    if k == 0 {
    } else {
      ShrOfShl(v, k - 1, l - 1);
    }
  }

  lemma IndexIsDigit(pgn: nat, level: nat)
    requires level < LEVELS
    ensures IndexOfAddress(Low(Shl(pgn, 12), 64), level) == Digit(pgn, level) < ENTRIES
  {
    var a, l := Low(Shl(pgn, 12), 64), LoBit(level);
    AndMask(a, l + 8, l, 64);
    ShrShl(Low(Shr(a, l), 9), l);
    FieldOfLow(Shl(pgn, 12), 64, l, 9);
    ShrOfShl(pgn, 12, l);
    LowBound(Shr(pgn, 9 * level), 9);
    OnesIsPow2(9);
    Pow2Values();
  }

  /** The five indices are the five low nine-bit digits of the page number itself. */
  lemma IndicesAreDigits(pgn: nat)
    ensures forall k :: 0 <= k < LEVELS ==> Indices(pgn)[k] == Digit(pgn, 4 - k) < ENTRIES
  {
    forall k | 0 <= k < LEVELS ensures Indices(pgn)[k] == Digit(pgn, 4 - k) < ENTRIES {
      IndexIsDigit(pgn, 4 - k);
    }
  }

  lemma {:induction false} LowJoin(p: nat, q: nat, a: nat, b: nat)
    ensures Low(p, a + b) == Low(q, a + b)
       <==> Low(p, a) == Low(q, a) && Low(Shr(p, a), b) == Low(Shr(q, a), b)
  {
    if a == 0 {
    } else {
      LowJoin(p / 2, q / 2, a - 1, b);
    }
  }

  /** Two 64-bit page numbers share all five indices exactly when they agree on the low 45 bits. */
  lemma IndicesInjective(p: nat, q: nat)
    ensures Indices(p) == Indices(q) <==> Low(p, 45) == Low(q, 45)
  {
    SameIndices(p, q);
    SameDigits(p, q, 4);
  }

  lemma SameIndices(p: nat, q: nat)
    ensures Indices(p) == Indices(q) <==> forall i :: 0 <= i <= 4 ==> Digit(p, i) == Digit(q, i)
  {
    IndicesAreDigits(p);
    IndicesAreDigits(q);
    if Indices(p) == Indices(q) {
      forall i | 0 <= i <= 4 ensures Digit(p, i) == Digit(q, i) {
        assert Indices(p)[4 - i] == Digit(p, i) && Indices(q)[4 - i] == Digit(q, i);
      }
    }
  }

  lemma {:induction false} SameDigits(p: nat, q: nat, n: nat)
    ensures Low(p, 9 * n + 9) == Low(q, 9 * n + 9) <==> forall i :: 0 <= i <= n ==> Digit(p, i) == Digit(q, i)
  {
    LowJoin(p, q, 9 * n, 9);
    if n > 0 {
      SameDigits(p, q, n - 1);
    } else {
      assert Low(p, 0) == 0 == Low(q, 0);
    }
    assert Low(Shr(p, 9 * n), 9) == Digit(p, n) && Low(Shr(q, 9 * n), 9) == Digit(q, n);
  }

  const MAX_PGN: nat := 0x2000_0000_0000   // 2^45

  lemma InRange(p: nat)
    requires p < MAX_PGN
    ensures Low(p, 45) == p
  {
    Pow2Values();
    Pow2Add(32, 13);
    OnesIsPow2(45);
    LowFits(p, 45);
  }

  /** Below 2^45 no two page numbers share their five indices. */
  lemma IndicesDistinct(p: nat, q: nat)
    requires p < MAX_PGN && q < MAX_PGN && p != q
    ensures Indices(p) != Indices(q)
  {
    InRange(p);
    InRange(q);
    IndicesInjective(p, q);
  }

  lemma DigitIsDivMod(pgn: nat, i: nat, d: nat)
    requires d == Pow2(9 * i)
    ensures Digit(pgn, i) == (pgn / d) % 512
  {
    Pow2Values();
    ShrIsDiv(pgn, 9 * i);
    LowIsMod(pgn / d, 9);
  }

  /** The five indices recompose to the page number. */
  lemma IndicesRecompose(pgn: nat)
    requires pgn < MAX_PGN
    ensures var x := Indices(pgn);
      pgn == (((x[0] * 512 + x[1]) * 512 + x[2]) * 512 + x[3]) * 512 + x[4]
  {
    IndicesAreDigits(pgn);
    Pow2Values();
    Pow2Add(9, 9);
    Pow2Add(18, 9);
    Pow2Add(27, 9);
    DigitIsDivMod(pgn, 0, 1);
    DigitIsDivMod(pgn, 1, 0x200);
    DigitIsDivMod(pgn, 2, 0x4_0000);
    DigitIsDivMod(pgn, 3, 0x800_0000);
    DigitIsDivMod(pgn, 4, 0x10_0000_0000);
    Horner(pgn);
  }

  lemma Horner(p: nat)
    requires p < MAX_PGN
    ensures p == ((((p / 0x10_0000_0000) % 512 * 512 + (p / 0x800_0000) % 512) * 512
                   + (p / 0x4_0000) % 512) * 512 + (p / 0x200) % 512) * 512 + p % 512
  {
    var a := p / 512;
    var b := a / 512;
    var c := b / 512;
    assert b == p / 0x4_0000;
    assert c == p / 0x800_0000;
    assert c / 512 == p / 0x10_0000_0000;
  }
}

/** The lazily allocated page-table tree of src/mm64.c.  Cells of the four upper tables hold
    addresses of tables; `heap` is the memory calloc has handed out. */
module PageTable {
  import opened PageIndex

  type Table = seq<nat>
  type Heap = map<nat, Table>

  /** What calloc returns. */
  function EmptyTable(): Table { seq<nat>(ENTRIES, _ => 0) }

  function SetCell(t: Table, i: nat, v: nat): Table
    requires i < |t|
  {
    t[i := v]
  }

  /** Storing v in cell i of the table at t. */
  function Put(h: Heap, t: nat, i: nat, v: nat): Heap
    requires t in h && i < |h[t]|
  {
    h[t := SetCell(h[t], i, v)]
  }

  /** Hanging the empty table a under cell i of the table at t. */
  function Hang(h: Heap, t: nat, i: nat, a: nat): Heap
    requires t in h && i < |h[t]|
  {
    Put(h, t, i, a)[a := EmptyTable()]
  }

  /** Following idx[d], idx[d+1], .. from table t to the bottom-level table; 0 when a table on the
      way is missing. */
  ghost function Leaf(h: Heap, t: nat, idx: seq<nat>, d: nat): nat
    requires |idx| == LEVELS && d < LEVELS
    decreases LEVELS - d
  {
    if t !in h || idx[d] >= |h[t]| then 0
    else if d == 4 then t
    else if h[t][idx[d]] == 0 then 0
    else Leaf(h, h[t][idx[d]], idx, d + 1)
  }

  ghost predicate ValidTree(h: Heap, pgd: nat, path: map<nat, seq<nat>>) {
    && 0 !in h && pgd in h && path.Keys == h.Keys && path[pgd] == []
    && (forall t | t in h :: |h[t]| == ENTRIES && |path[t]| < LEVELS)
    && (forall t, i | t in h && |path[t]| < 4 && 0 <= i < ENTRIES && h[t][i] != 0 ::
          h[t][i] in h && path[h[t][i]] == path[t] + [i])
  }

  /** The value stored for a page number; 0 when its bottom table was never allocated. */
  ghost function EntryAt(h: Heap, pgd: nat, pgn: nat): nat {
    var l := Leaf(h, pgd, Indices(pgn), 0);
    if l == 0 || l !in h || Indices(pgn)[4] >= |h[l]| then 0 else h[l][Indices(pgn)[4]]
  }

  /** A bottom table knows the first four indices of every page it serves. */
  lemma {:induction false} LeafPath(h: Heap, pgd: nat, path: map<nat, seq<nat>>, t: nat, idx: seq<nat>, d: nat)
    requires ValidTree(h, pgd, path) && |idx| == LEVELS && d < LEVELS
    requires t in h && path[t] == idx[..d]
    ensures var l := Leaf(h, t, idx, d); l != 0 ==> l in h && path[l] == idx[..4]
    decreases LEVELS - d
  {
    if d < 4 && idx[d] < ENTRIES && h[t][idx[d]] != 0 {
      assert path[h[t][idx[d]]] == path[t] + [idx[d]] == idx[..d + 1];
      LeafPath(h, pgd, path, h[t][idx[d]], idx, d + 1);
    }
  }

  /** get_pte gives distinct cells for distinct page numbers. */
  lemma CellsDistinct(h: Heap, pgd: nat, path: map<nat, seq<nat>>, p: nat, q: nat)
    requires ValidTree(h, pgd, path) && p < MAX_PGN && q < MAX_PGN && p != q
    requires Leaf(h, pgd, Indices(p), 0) != 0
    ensures (Leaf(h, pgd, Indices(p), 0), Indices(p)[4]) != (Leaf(h, pgd, Indices(q), 0), Indices(q)[4])
  {
    var x, y := Indices(p), Indices(q);
    LeafPath(h, pgd, path, pgd, x, 0);
    LeafPath(h, pgd, path, pgd, y, 0);
    IndicesDistinct(p, q);
    assert x == x[..4] + [x[4]] && y == y[..4] + [y[4]];
  }

  /** Hanging an empty table under an empty cell leaves every walk at its old end, or takes it from
      nowhere into the new table. */
  lemma {:induction false} LeafAfterCalloc(h: Heap, pgd: nat, path: map<nat, seq<nat>>, t0: nat, i: nat,
                                            a: nat, h': Heap, t: nat, idx: seq<nat>, d: nat)
    requires ValidTree(h, pgd, path) && |idx| == LEVELS && d < LEVELS
    requires t0 in h && |path[t0]| < 4 && i < ENTRIES && h[t0][i] == 0 && a != 0 && a !in h
    requires h' == Hang(h, t0, i, a)
    requires t in h && |path[t]| == d
    ensures var l, l' := Leaf(h, t, idx, d), Leaf(h', t, idx, d);
      l' == l || (l == 0 && l' == a)
    decreases LEVELS - d
  {
    if d < 4 && idx[d] < ENTRIES {
      var c := h[t][idx[d]];
      if c != 0 {
        assert path[c] == path[t] + [idx[d]];
        LeafAfterCalloc(h, pgd, path, t0, i, a, h', c, idx, d + 1);
      } else if t == t0 && idx[d] == i {
        EmptyTableLeaf(h', a, idx, d + 1);
      }
    }
  }

  lemma EmptyTableLeaf(h: Heap, a: nat, idx: seq<nat>, d: nat)
    requires |idx| == LEVELS && d < LEVELS && a in h && h[a] == EmptyTable()
    ensures Leaf(h, a, idx, d) in {0, a}
  {
  }

  lemma TreeAfterCalloc(h: Heap, pgd: nat, path: map<nat, seq<nat>>, t0: nat, i: nat, a: nat)
    requires ValidTree(h, pgd, path)
    requires t0 in h && |path[t0]| < 4 && i < ENTRIES && h[t0][i] == 0 && a != 0 && a !in h
    ensures var h' := Hang(h, t0, i, a);
      && ValidTree(h', pgd, path[a := path[t0] + [i]]) && h'[t0][i] == a && a in h'
      && forall u, j :: u in h && 0 <= j < ENTRIES && h[u][j] != 0 ==> h'[u][j] == h[u][j]
  {
  }

  /** Lazy allocation is invisible in the entries. */
  lemma EntriesAfterCalloc(h: Heap, pgd: nat, path: map<nat, seq<nat>>, t0: nat, i: nat, a: nat, h': Heap, n: nat)
    requires ValidTree(h, pgd, path)
    requires t0 in h && |path[t0]| < 4 && i < ENTRIES && h[t0][i] == 0 && a != 0 && a !in h
    requires h' == Hang(h, t0, i, a)
    ensures EntryAt(h', pgd, n) == EntryAt(h, pgd, n)
  {
    var x := Indices(n);
    LeafAfterCalloc(h, pgd, path, t0, i, a, h', pgd, x, 0);
    LeafPath(h, pgd, path, pgd, x, 0);
    var l := Leaf(h, pgd, x, 0);
    if l != 0 { assert |path[l]| == 4; }
  }

  /** Storing into a bottom table moves no walk. */
  lemma {:induction false} LeafAfterStore(h: Heap, pgd: nat, path: map<nat, seq<nat>>, t0: nat, i: nat, v: nat,
                                           t: nat, idx: seq<nat>, d: nat)
    requires ValidTree(h, pgd, path) && |idx| == LEVELS && d < LEVELS
    requires t0 in h && |path[t0]| == 4 && i < ENTRIES
    requires t in h && |path[t]| == d
    ensures Leaf(Put(h, t0, i, v), t, idx, d) == Leaf(h, t, idx, d)
    decreases LEVELS - d
  {
    if d < 4 && idx[d] < ENTRIES && h[t][idx[d]] != 0 {
      assert path[h[t][idx[d]]] == path[t] + [idx[d]];
      LeafAfterStore(h, pgd, path, t0, i, v, h[t][idx[d]], idx, d + 1);
    }
  }

  /** Setting the entry of one page changes no other page's entry. */
  lemma EntriesAfterStore(h: Heap, pgd: nat, path: map<nat, seq<nat>>, pgn: nat, v: nat, n: nat)
    requires ValidTree(h, pgd, path) && pgn < MAX_PGN && n < MAX_PGN
    requires Leaf(h, pgd, Indices(pgn), 0) != 0
    ensures var t, i := Leaf(h, pgd, Indices(pgn), 0), Indices(pgn)[4];
      && t in h && i < |h[t]|
      && EntryAt(Put(h, t, i, v), pgd, n) == if n == pgn then v else EntryAt(h, pgd, n)
  {
    var t, i := Leaf(h, pgd, Indices(pgn), 0), Indices(pgn)[4];
    LeafPath(h, pgd, path, pgd, Indices(pgn), 0);
    IndicesAreDigits(pgn);
    LeafAfterStore(h, pgd, path, t, i, v, pgd, Indices(n), 0);
    if n != pgn { CellsDistinct(h, pgd, path, pgn, n); }
  }

  /** A flat map from page numbers to entries; 0 where nothing was stored. */
  function At(flat: map<nat, nat>, pgn: nat): nat { if pgn in flat then flat[pgn] else 0 }

  /** The tree stands for the flat map on all page numbers below 2^45. */
  ghost predicate Represents(h: Heap, pgd: nat, flat: map<nat, nat>) {
    forall n: nat :: n < MAX_PGN ==> EntryAt(h, pgd, n) == At(flat, n)
  }

  /** Four links followed one after the other lead to the leaf. */
  lemma LeafOfWalk(h: Heap, pgd: nat, p4d: nat, pud: nat, pmd: nat, t: nat, idx: seq<nat>)
    requires |idx| == LEVELS && (forall d :: 0 <= d < LEVELS ==> idx[d] < ENTRIES)
    requires t in h && (forall u :: u in h ==> |h[u]| == ENTRIES)
    requires pgd in h && h[pgd][idx[0]] == p4d != 0 && p4d in h && h[p4d][idx[1]] == pud != 0
    requires pud in h && h[pud][idx[2]] == pmd != 0 && pmd in h && h[pmd][idx[3]] == t != 0
    ensures Leaf(h, pgd, idx, 0) == t
  {
    assert Leaf(h, t, idx, 4) == t;
    assert Leaf(h, pmd, idx, 3) == t;
    assert Leaf(h, pud, idx, 2) == t;
    assert Leaf(h, p4d, idx, 1) == t;
  }

  class PageTable {
    var pgd: nat
    var heap: Heap
    ghost var path: map<nat, seq<nat>>   // the indices leading to each table
    ghost var flat: map<nat, nat>        // the flat page table the tree refines

    ghost predicate Valid()
      reads this
    {
      ValidTree(heap, pgd, path) && Represents(heap, pgd, flat)
    }

    /** init_mm's part: one zeroed top table. */
    constructor ()
      ensures Valid() && flat == map[]
    {
      pgd := 1;
      heap := map[1 := EmptyTable()];
      path := map[1 := []];
      flat := map[];
    }

    /** calloc: the address of a zeroed table is never null and never one already in use. */
    method Calloc() returns (a: nat)
      ensures a != 0 && a !in heap
    {
      var used := heap.Keys;
      a := 1;
      while a in heap
        invariant a != 0
        invariant used <= heap.Keys
        invariant forall b :: b in heap && b >= a ==> b in used
        decreases used
      {
        used := used - {a};
        a := a + 1;
      }
    }

    /** One of the four identical steps of get_pte: the table under cell i of t, allocated now if
        the cell is empty. */
    method Descend(t: nat, i: nat) returns (c: nat)
      requires Valid() && t in heap && |path[t]| < 4 && i < ENTRIES
      modifies this`heap, this`path
      ensures Valid()
      ensures t in heap && heap[t][i] == c
      ensures c in heap && c != 0 && path[c] == path[t] + [i]
      ensures forall u :: u in old(heap) ==> u in heap && path[u] == old(path[u])
      ensures forall u, j :: u in old(heap) && 0 <= j < ENTRIES && old(heap[u][j]) != 0 ==> heap[u][j] == old(heap[u][j])
    {
      if heap[t][i] == 0 {
        var a := Calloc();
        ghost var h, p := heap, path;
        heap := Hang(heap, t, i, a);
        path := path[a := path[t] + [i]];
        TreeAfterCalloc(h, pgd, p, t, i, a);
        forall n: nat | n < MAX_PGN ensures EntryAt(heap, pgd, n) == At(flat, n) {
          EntriesAfterCalloc(h, pgd, p, t, i, a, heap, n);
        }
      }
      c := heap[t][i];
    }

    /** get_pte: the table and index of the page's cell.  It may allocate tables, on reads too, and
        changes no entry. */
    method GetPte(pgn: nat) returns (t: nat, i: nat)
      requires Valid() && pgn < MAX_PGN
      modifies this`heap, this`path
      ensures Valid()
      ensures t == Leaf(heap, pgd, Indices(pgn), 0) != 0 && t in heap && i == Indices(pgn)[4] < ENTRIES
      ensures heap[t][i] == At(flat, pgn)
    {
      var idx := Indices(pgn);
      IndicesAreDigits(pgn);
      var p4d := Descend(pgd, idx[0]);
      var pud := Descend(p4d, idx[1]);
      var pmd := Descend(pud, idx[2]);
      t := Descend(pmd, idx[3]);
      i := idx[4];
      LeafOfWalk(heap, pgd, p4d, pud, pmd, t, idx);
      assert heap[t][i] == EntryAt(heap, pgd, pgn);
    }

    /** pte_get_entry */
    method Read(pgn: nat) returns (v: nat)
      requires Valid() && pgn < MAX_PGN
      modifies this`heap, this`path
      ensures Valid() && v == At(flat, pgn)
    {
      var t, i := GetPte(pgn);
      v := heap[t][i];
    }

    /** *get_pte(caller, pgn) = v */
    method Store(pgn: nat, v: nat)
      requires Valid() && pgn < MAX_PGN
      modifies this
      ensures Valid() && flat == old(flat)[pgn := v]
    {
      var t, i := GetPte(pgn);
      ghost var h := heap;
      LeafPath(heap, pgd, path, pgd, Indices(pgn), 0);
      heap := Put(heap, t, i, v);
      flat := flat[pgn := v];
      forall n: nat | n < MAX_PGN ensures EntryAt(heap, pgd, n) == At(flat, n) {
        EntriesAfterStore(h, pgd, path, pgn, v, n);
        assert EntryAt(h, pgd, n) == At(old(flat), n);
      }
    }
  }
}
