/** Physical devices (src/mm-memphy.c): byte storage plus a list of free frames. */
module Memphy {
  import opened Common

  type Byte = bv8

  /** The value of a random-access device. */
  datatype Dev = Dev(storage: seq<Byte>, free: seq<nat>) {
    function Frames(): nat { |storage| / PAGESZ }

    /** The 256 bytes of frame f. */
    function Page(f: nat): seq<Byte>
      requires f < Frames()
    {
      storage[f * PAGESZ .. f * PAGESZ + PAGESZ]
    }
  }

  /** Free lists hold frames of the device, each once. */
  ghost predicate DevOk(d: Dev) {
    && NoDup(d.free)
    && forall f :: f in d.free ==> f < d.Frames()
  }

  /** MEMPHY_format's list: every frame, in order. */
  function AllFrames(n: nat): seq<nat> { seq<nat>(n, i => i) }

  /** __swap_cp_page: frame sf of src over frame df of dst. */
  function CopyPage(src: Dev, sf: nat, dst: Dev, df: nat): (r: Dev)
    requires sf < src.Frames() && df < dst.Frames()
    ensures |r.storage| == |dst.storage| && r.free == dst.free
  {
    dst.(storage := dst.storage[..df * PAGESZ] + src.Page(sf) + dst.storage[df * PAGESZ + PAGESZ..])
  }

  function PutByte(d: Dev, a: nat, b: Byte): (r: Dev)
    requires a < |d.storage|
    ensures |r.storage| == |d.storage| && r.free == d.free
  {
    d.(storage := d.storage[a := b])
  }

  /** A page copy changes the target frame only, and makes it equal to the source frame. */
  lemma PagesAfterCopy(src: Dev, sf: nat, dst: Dev, df: nat, g: nat)
    requires sf < src.Frames() && df < dst.Frames() && g < dst.Frames()
    ensures CopyPage(src, sf, dst, df).Page(g) == if g == df then src.Page(sf) else dst.Page(g)
  {
    var r, want := CopyPage(src, sf, dst, df), if g == df then src.Page(sf) else dst.Page(g);
    forall i | 0 <= i < PAGESZ ensures r.Page(g)[i] == want[i] {
      var a := g * PAGESZ + i;
      assert r.Page(g)[i] == r.storage[a];
      if g < df {
        assert a < df * PAGESZ;
        assert r.storage[a] == dst.storage[a];
      } else if g > df {
        assert r.storage[a] == dst.storage[df * PAGESZ + PAGESZ..][a - (df * PAGESZ + PAGESZ)] == dst.storage[a];
      } else {
        assert r.storage[a] == src.Page(sf)[i];
      }
    }
    assert r.Page(g) == want;
  }

  /** A byte write at f * 256 + o changes byte o of frame f only. */
  lemma PagesAfterPut(d: Dev, f: nat, o: nat, b: Byte, g: nat)
    requires f < d.Frames() && g < d.Frames() && o < PAGESZ
    ensures f * PAGESZ + o < |d.storage|
    ensures PutByte(d, f * PAGESZ + o, b).Page(g) == if g == f then d.Page(f)[o := b] else d.Page(g)
  {
    var a := f * PAGESZ + o;
    var r, want := PutByte(d, a, b), if g == f then d.Page(f)[o := b] else d.Page(g);
    forall i | 0 <= i < PAGESZ ensures r.Page(g)[i] == want[i] {
      assert r.Page(g)[i] == r.storage[g * PAGESZ + i];
    }
    assert r.Page(g) == want;
  }

  class Memphy {
    const maxsz: nat
    const storage: array<Byte>
    var freeFp: seq<nat>   // free_fp_list, head first
    var usedFp: seq<nat>   // used_fp_list, head first

    ghost function View(): Dev
      reads this, storage
    {
      Dev(storage[..], freeFp)
    }

    ghost predicate Valid()
      reads this
    {
      storage.Length == maxsz
    }

    /** init_memphy with its random-access flag set */
    constructor (maxSize: nat)
      ensures Valid() && maxsz == maxSize && fresh(storage)
      ensures View().free == AllFrames(View().Frames()) && usedFp == []
      ensures forall a :: 0 <= a < maxSize ==> storage[a] == 0
    {
      maxsz := maxSize;
      storage := new Byte[maxSize](_ => 0);
      freeFp := [];
      usedFp := [];
      new;
      var ok := Format(PAGESZ);
    }

    /** MEMPHY_format: fails, leaving the list alone, on a device smaller than one page. */
    method Format(pagesz: nat) returns (ok: bool)
      requires Valid() && pagesz > 0
      modifies this`freeFp
      ensures ok <==> maxsz / pagesz > 0
      ensures freeFp == if ok then AllFrames(maxsz / pagesz) else old(freeFp)
    {
      var numfp := maxsz / pagesz;
      if numfp <= 0 {
        return false;
      }
      freeFp := [0];
      var iter := 1;
      while iter < numfp
        invariant 1 <= iter <= numfp && freeFp == AllFrames(iter)
      {
        freeFp := freeFp + [iter];
        iter := iter + 1;
      }
      ok := true;
    }

    /** MEMPHY_get_freefp: None is the C -1. */
    method GetFreefp() returns (ok: bool, fpn: nat)
      modifies this`freeFp, this`usedFp
      ensures ok <==> old(freeFp) != []
      ensures ok ==> old(freeFp) == [fpn] + freeFp && usedFp == [fpn] + old(usedFp)
      ensures !ok ==> freeFp == old(freeFp) && usedFp == old(usedFp)
    {
      ok, fpn := freeFp != [], 0;
      if ok {
        fpn := freeFp[0];
        freeFp := freeFp[1..];
        usedFp := [fpn] + usedFp;
      }
    }

    /** MEMPHY_put_freefp: the frame also stays on the used list. */
    method PutFreefp(fpn: nat)
      modifies this`freeFp
      ensures freeFp == [fpn] + old(freeFp)
    {
      freeFp := [fpn] + freeFp;
    }

    method Read(addr: nat) returns (value: Byte)
      requires addr < storage.Length
      ensures value == View().storage[addr]
    {
      value := storage[addr];
    }

    method Write(addr: nat, data: Byte)
      requires addr < storage.Length
      modifies storage
      ensures View() == PutByte(old(View()), addr, data)
    {
      storage[addr] := data;
    }
  }

  /** __swap_cp_page: one byte at a time between two devices. */
  method SwapCpPage(mpsrc: Memphy, srcfpn: nat, mpdst: Memphy, dstfpn: nat)
    requires mpsrc.storage != mpdst.storage
    requires srcfpn < mpsrc.View().Frames() && dstfpn < mpdst.View().Frames()
    modifies mpdst.storage
    ensures mpdst.View() == CopyPage(mpsrc.View(), srcfpn, old(mpdst.View()), dstfpn)
  {
    ghost var was := mpdst.storage[..];
    var s, d := srcfpn * PAGESZ, dstfpn * PAGESZ;
    ghost var page := mpsrc.storage[s .. s + PAGESZ];
    var cellidx := 0;
    while cellidx < PAGESZ
      invariant cellidx <= PAGESZ
      invariant mpdst.storage[..] == Spliced(was, d, page, cellidx)
    {
      var data := mpsrc.Read(s + cellidx);
      SpliceStep(was, d, page, cellidx);
      ghost var before := mpdst.storage[..];
      mpdst.Write(d + cellidx, data);
      assert mpdst.storage[..] == before[d + cellidx := page[cellidx]];
      cellidx := cellidx + 1;
    }
    assert page[..PAGESZ] == page;
  }

  /** `was` with the first n bytes of `page` laid over it at d. */
  ghost function Spliced(was: seq<Byte>, d: nat, page: seq<Byte>, n: nat): seq<Byte>
    requires n <= |page| && d + |page| <= |was|
  {
    was[..d] + page[..n] + was[d + n..]
  }

  lemma SpliceStep(was: seq<Byte>, d: nat, page: seq<Byte>, n: nat)
    requires n < |page| && d + |page| <= |was|
    ensures Spliced(was, d, page, n + 1) == Spliced(was, d, page, n)[d + n := page[n]]
  {
  }
}
