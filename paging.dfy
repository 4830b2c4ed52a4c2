/** The paging rule of CRUDRepository.FindAll(PagingDetail) and
    FindAllAsync(PagingDetail): a guard, then a 1-based Skip/Take slice of the
    store in store order. */
module Paging {
  import opened Linq
  import opened PagingDetails

  function Min(a: int, b: int): int { if a <= b then a else b }

  function Max(a: int, b: int): int { if a <= b then b else a }

  /** The guard: requests answered with an empty list without touching the store. */
  predicate Rejected(p: PagingDetail)
  {
    p.pageSize <= 0 || p.pageNumber < 0
  }

  /** The number of items before the requested page, on exact integers. Page
      number 0 gives a negative offset, which Skip treats as 0. */
  function Offset(p: PagingDetail): int
  {
    p.pageNumber as int * p.pageSize as int - p.pageSize as int
  }

  /** The page a request selects: the slice of `store` that starts at the
      offset clamped into the store and holds at most `pageSize` items. */
  function Page<T>(store: seq<T>, p: PagingDetail): seq<T>
  {
    if Rejected(p) then []
    else
      var start := Min(Max(Offset(p), 0), |store|);
      store[start .. Min(start + p.pageSize as int, |store|)]
  }

  /** A rejected request yields the empty list, whatever the store holds. */
  lemma RejectedPageIsEmpty<T>(store: seq<T>, other: seq<T>, p: PagingDetail)
    requires Rejected(p)
    ensures Page(store, p) == [] && Page(other, p) == []
  {
  }

  /** For a positive size and a page number from 1 up, the page is the items
      at indices [(pageNumber - 1) * pageSize, pageNumber * pageSize), clipped
      to the store. */
  lemma PageIsSlice<T>(store: seq<T>, p: PagingDetail)
    requires p.pageSize > 0 && p.pageNumber >= 1
    ensures var n, size := p.pageNumber as int, p.pageSize as int;
      Page(store, p) == store[Min((n - 1) * size, |store|) .. Min(n * size, |store|)]
  {
    var n, size := p.pageNumber as int, p.pageSize as int;
    var lo, hi := (n - 1) * size, n * size;
    assert hi == lo + size by { Distribute(n, size); }
    assert lo >= 0 by { NonNegativeProduct(n - 1, size); }
    assert Offset(p) == lo;
  }

  lemma Distribute(n: int, size: int)
    ensures n * size == (n - 1) * size + size
  {
  }

  lemma NonNegativeProduct(a: int, b: int)
    requires a >= 0 && b >= 0
    ensures a * b >= 0
  {
  }

  /** A page never holds more than `pageSize` items, and is empty once the
      offset reaches the end of the store. */
  lemma PageLength<T>(store: seq<T>, p: PagingDetail)
    ensures |Page(store, p)| <= Max(p.pageSize as int, 0)
    ensures Offset(p) >= |store| ==> Page(store, p) == []
  {
  }

  /** Page 0 has offset -pageSize; clamped to 0 it selects what page 1 selects. */
  lemma PageZeroIsPageOne<T>(store: seq<T>, pageSize: Int32)
    ensures Page(store, PagingDetail(pageSize, 0)) == Page(store, PagingDetail(pageSize, 1))
  {
    assert Offset(PagingDetail(pageSize, 0)) == -(pageSize as int);
    assert Offset(PagingDetail(pageSize, 1)) == 0;
  }

  /** Pages 1 to n, one after another. */
  function FirstPages<T>(store: seq<T>, pageSize: Int32, n: nat): seq<T>
    requires n < 0x8000_0000
  {
    if n == 0 then [] else FirstPages(store, pageSize, n - 1) + Page(store, PagingDetail(pageSize, n as Int32))
  }

  /** Pages 1 to n neither overlap nor leave gaps: together they are the first
      n * pageSize items of the store. */
  lemma {:induction false} PagesCoverPrefix<T>(store: seq<T>, pageSize: Int32, n: nat)
    requires pageSize > 0 && n < 0x8000_0000
    ensures FirstPages(store, pageSize, n) == store[..Min(n * pageSize as int, |store|)]
  {
    if n > 0 {
      var size := pageSize as int;
      PagesCoverPrefix(store, pageSize, n - 1);
      PageIsSlice(store, PagingDetail(pageSize, n as Int32));
      var lo, hi := Min((n - 1) * size, |store|), Min(n * size, |store|);
      assert (n - 1) * size <= n * size;
      assert store[..lo] + store[lo..hi] == store[..hi];
    }
  }

  // The code computes the offset in 32-bit unchecked arithmetic.

  /** Two's-complement truncation of an integer to 32 bits. */
  function WrapInt32(x: int): (r: Int32)
    ensures (r as int - x) % 0x1_0000_0000 == 0
    ensures -0x8000_0000 <= x < 0x8000_0000 ==> r as int == x
  {
    ((x + 0x8000_0000) % 0x1_0000_0000 - 0x8000_0000) as Int32
  }

  /** The offset as the code computes it: the product and the difference both
      wrap around on overflow. */
  function OffsetAsWritten(p: PagingDetail): Int32
  {
    WrapInt32(WrapInt32(p.pageNumber as int * p.pageSize as int) as int - p.pageSize as int)
  }

  /** The paging rule as the code is written: guard, Skip by the wrapped
      offset, Take pageSize. */
  function PageAsWritten<T>(store: seq<T>, p: PagingDetail): (r: seq<T>)
    ensures Rejected(p) ==> r == []
    ensures |r| <= Max(p.pageSize as int, 0)
  {
    if Rejected(p) then []
    else
      var rest := Skip(store, OffsetAsWritten(p) as int);
      TakeIsPrefix(rest, p.pageSize as int);
      Take(rest, p.pageSize as int)
  }

  /** While pageNumber * pageSize fits in 32 bits, the code selects the
      intended page. */
  lemma AsWrittenAgreesWithoutOverflow<T>(store: seq<T>, p: PagingDetail)
    requires -0x8000_0000 <= p.pageNumber as int * p.pageSize as int < 0x8000_0000
    ensures PageAsWritten(store, p) == Page(store, p)
  {
    if !Rejected(p) {
      var size := p.pageSize as int;
      assert p.pageNumber as int * size >= 0;
      assert OffsetAsWritten(p) as int == Offset(p);
      SkipIsSuffix(store, Offset(p));
      var rest := Skip(store, Offset(p));
      TakeIsPrefix(rest, size);
    }
  }

  /** Page 1073741825 of size 2: the product 2147483650 wraps to -2147483646,
      the offset to -2147483648, Skip drops nothing, and the code serves the
      first page where the intended offset lies past any store that fits in
      memory. */
  lemma OverflowServesFirstPage<T>(store: seq<T>)
    requires 2 <= |store| < 0x8000_0000
    ensures Page(store, PagingDetail(2, 0x4000_0001)) == []
    ensures PageAsWritten(store, PagingDetail(2, 0x4000_0001)) == store[..2]
  {
    var p := PagingDetail(2, 0x4000_0001);
    assert Offset(p) == 0x8000_0000;
    assert OffsetAsWritten(p) as int == -0x8000_0000;
    SkipIsSuffix(store, -0x8000_0000);
    TakeIsPrefix(store, 2);
  }
}
