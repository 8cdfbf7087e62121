/** Vocabulary that the memory manager, the scheduler and the machine share. */
module Common {

  const PAGESZ: nat := 256   // PAGING_PAGESZ

  datatype Option<T> = None | Some(value: T)

  ghost predicate NoDup<T>(s: seq<T>) {
    forall i, j :: 0 <= i < j < |s| ==> s[i] != s[j]
  }

  lemma MulMono(d: nat, a: nat, b: nat)
    requires a <= b
    ensures d * a <= d * b
  {
  }

  /** Quotient and remainder are the only way to write v = d * q + r with r < d. */
  lemma DivModUnique(v: nat, d: nat, q: nat, r: nat)
    requires d > 0 && v == d * q + r && r < d
    ensures v / d == q && v % d == r
  {
    var q', r' := v / d, v % d;
    if q' < q { MulMono(d, q' + 1, q); }
    if q < q' { MulMono(d, q + 1, q'); }
  }
}
