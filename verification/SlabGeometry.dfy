/**
 How the slab allocator sizes its slabs and routes generic requests: MemSlabCreate's search for a
 page count and MemKAlloc's choice of cache in kernel/src/mm/slab.c.
 */
module SlabGeometry {
  import opened Common

  /** sizeof(MemSlab), the header kept at the end of a small slab. */
  const HEADER_SIZE := 24

  /** sizeof(MemCache) */
  const CACHE_SIZE := 48

  /** Sizes from which the header is kept outside the slab. */
  const LARGE_FROM := PAGE_SIZE / 8

  const MAX_PAGES := 8

  /** `(size + 3) & ~3` in 32 bits. */
  function AlignWord(size: nat): (r: nat)
    ensures r % 4 == 0
    ensures size <= WORD - 4 ==> size <= r < size + 4
  {
    var sum := Add32(size, 3);
    sum - sum % 4
  }

  function Extra(size: nat): nat {
    if size >= LARGE_FROM then 0 else HEADER_SIZE
  }

  function Objects(size: nat, pages: nat): nat
    requires size > 0 && pages > 0
  {
    (pages * PAGE_SIZE - Extra(size)) / size
  }

  function Wastage(size: nat, pages: nat): nat
    requires size > 0 && pages > 0
  {
    (pages * PAGE_SIZE - Extra(size)) % size
  }

  /** A page count that gives at least eight objects. */
  predicate Enough(size: nat, pages: nat)
    requires size > 0
  {
    0 < pages < MAX_PAGES && Objects(size, pages) >= 8
  }

  /** One that wastes at most 128 bytes a page as well. */
  predicate Thrifty(size: nat, pages: nat)
    requires size > 0
  {
    Enough(size, pages) && Wastage(size, pages) <= pages * 128
  }

  /** The least thrifty count; failing that the least wasteful sufficient one; failing that eight. */
  ghost predicate BestPages(size: nat, pages: nat)
    requires size > 0
  {
    if exists p: nat :: Thrifty(size, p) then
      Thrifty(size, pages) && forall q: nat :: Thrifty(size, q) ==> pages <= q
    else if exists p: nat :: Enough(size, p) then
      && Enough(size, pages)
      && forall q: nat :: Enough(size, q) ==>
           Wastage(size, pages) < Wastage(size, q) || (Wastage(size, pages) == Wastage(size, q) && pages <= q)
    else
      pages == MAX_PAGES
  }

  /** The loop of MemSlabCreate over page counts. */
  method ChoosePages(size: nat) returns (best: nat)
    requires 0 < size < MAX_PAGES * PAGE_SIZE
    ensures BestPages(size, best)
  {
    best := MAX_PAGES;
    var bestWastage := WORD - 1;
    for pages := 1 to MAX_PAGES
      invariant forall q: nat :: Thrifty(size, q) ==> pages <= q
      invariant best == MAX_PAGES ==> bestWastage == WORD - 1 && forall q: nat :: Enough(size, q) ==> pages <= q
      invariant best != MAX_PAGES ==> best < pages && Enough(size, best) && bestWastage == Wastage(size, best)
      invariant best != MAX_PAGES ==>
        forall q: nat :: Enough(size, q) && q < pages ==>
          bestWastage < Wastage(size, q) || (bestWastage == Wastage(size, q) && best <= q)
    {
      var nrObjects := Objects(size, pages);
      var wastage := Wastage(size, pages);
      if nrObjects < 8 {
        continue;
      }
      assert Enough(size, pages);
      if wastage <= pages * 128 {
        assert Thrifty(size, pages);
        return pages;
      }
      if wastage < bestWastage {
        bestWastage := wastage;
        best := pages;
      }
    }
  }

  /** The objects fit clear of the header, there is at least one, and how many there can be. */
  lemma GeometryFits(size: nat, pages: nat)
    requires 0 < size < MAX_PAGES * PAGE_SIZE && size % 4 == 0 && BestPages(size, pages)
    ensures 1 <= pages <= MAX_PAGES
    ensures Objects(size, pages) * size + Extra(size) <= pages * PAGE_SIZE
    ensures Objects(size, pages) >= 1
    ensures Objects(size, pages) >= 8 <==> size <= PAGE_SIZE
    ensures Objects(size, pages) >= 2 <==> size <= 4 * PAGE_SIZE
  {
    if size < LARGE_FROM {
      EightFit(size, 1);
      assert Enough(size, 1);
    } else if pages == MAX_PAGES {
      ObjectsAtLeast(size, 8 * PAGE_SIZE, 8);
      ObjectsAtLeast(size, 8 * PAGE_SIZE, 2);
      ObjectsAtLeast(size, 8 * PAGE_SIZE, 1);
    } else {
      assert Enough(size, pages);
      ObjectsAtLeast(size, pages * PAGE_SIZE, 8);
    }
    DivisionFits(pages * PAGE_SIZE - Extra(size), size);
  }

  /** No further object would fit, and what is left over is the wastage. */
  lemma GeometryIsTight(size: nat, pages: nat)
    requires 0 < size && 0 < pages
    ensures
      var header := if size < 512 then 24 else 0;
      && Objects(size, pages) * size + Wastage(size, pages) + header == pages * 4096
      && Wastage(size, pages) < size
  {
    var room := pages * PAGE_SIZE - Extra(size);
    assert room == room / size * size + room % size;
  }

  /** The rule names one page count. */
  lemma BestPagesUnique(size: nat, p: nat, q: nat)
    requires size > 0 && BestPages(size, p) && BestPages(size, q)
    ensures p == q
  {
  }

  /** A thrifty count that is not the first sufficient one, the least wasteful if none is thrifty, and eight pages. */
  lemma GeometryExamples()
    ensures BestPages(600, 3) && Objects(600, 3) == 20
    ensures BestPages(1028, 7) && Objects(1028, 7) == 27
    ensures BestPages(4096, 8) && Objects(4096, 8) == 8
    ensures BestPages(48, 1) && Objects(48, 1) == 84
  {
    assert Thrifty(600, 3) && !Thrifty(600, 1) && !Thrifty(600, 2);
    assert Thrifty(48, 1);
    assert forall p: nat :: 0 < p < 8 ==> !Enough(4096, p);
    LeastWasteful();
  }

  lemma LeastWasteful()
    ensures BestPages(1028, 7)
  {
    assert !Enough(1028, 1) && !Enough(1028, 2);
    assert Enough(1028, 3) && Wastage(1028, 3) == 980;
    assert Enough(1028, 4) && Wastage(1028, 4) == 964;
    assert Enough(1028, 5) && Wastage(1028, 5) == 948;
    assert Enough(1028, 6) && Wastage(1028, 6) == 932;
    assert Enough(1028, 7) && Wastage(1028, 7) == 916;
  }

  lemma DivisionFits(room: nat, size: nat)
    requires size > 0
    ensures room / size * size <= room
  {
  }

  lemma ObjectsAtLeast(size: nat, room: nat, n: nat)
    requires size > 0
    ensures room / size >= n <==> n * size <= room
  {
    if room / size >= n {
      assert (room / size) * size >= n * size;
    } else {
      assert (room / size + 1) * size <= n * size;
    }
  }

  lemma EightFit(size: nat, pages: nat)
    requires 0 < size < LARGE_FROM && size % 4 == 0 && pages == 1
    ensures Objects(size, pages) >= 8
  {
    ObjectsAtLeast(size, PAGE_SIZE - HEADER_SIZE, 8);
  }

  /** BitScanReverse is the compiler's count of leading zeros, not the index of the top bit. */
  function BitScanReverse(n: nat): (r: nat)
    requires 0 < n < WORD
    ensures r < 32 && Pow2(31 - r) <= n < Pow2(32 - r)
    decreases WORD - n
  {
    Pow2Values();
    if n >= WORD / 2 then 0 else 1 + BitScanReverse(2 * n)
  }

  /** The object size of MemKAlloc's cache `i`. */
  function ClassSize(i: nat): nat {
    8 * Pow2(i)
  }

  const CLASSES := 11

  /** From 8 to 8192 bytes, each twice the one before. */
  lemma ClassSizes(i: nat)
    ensures ClassSize(0) == 8 && ClassSize(CLASSES - 1) == 8192 && ClassSize(i + 1) == 2 * ClassSize(i)
  {
    Pow2Values();
  }

  /** MemKAlloc's index: the smallest class that fits. */
  function CacheIndex(bytes: nat): (i: nat)
    requires 0 < bytes <= ClassSize(CLASSES - 1)
    ensures i < CLASSES
    ensures forall j: nat :: bytes <= ClassSize(j) <==> i <= j
  {
    Pow2Values();
    if bytes <= 8 then
      0
    else
      var scan := BitScanReverse(bytes);
      LeadingZerosBound(bytes, scan);
      var index := 28 - scan;
      SmallestClass(bytes, index);
      if Pow2(index + 3) != bytes then index + 1 else index
  }

  lemma LeadingZerosBound(bytes: nat, scan: nat)
    requires 8 < bytes <= 8192 && scan < 32 && Pow2(31 - scan) <= bytes < Pow2(32 - scan)
    ensures 18 <= scan <= 28
  {
    Pow2Values();
    if scan > 28 {
      Pow2Monotone(32 - scan, 3);
    } else if scan < 18 {
      Pow2Monotone(14, 31 - scan);
    }
  }

  lemma ClassFits(bytes: nat, index: nat, j: nat)
    requires Pow2(index + 3) <= bytes < Pow2(index + 4)
    ensures bytes <= ClassSize(j) <==> (if Pow2(index + 3) != bytes then index + 1 else index) <= j
  {
    assert Pow2(j + 3) == 2 * Pow2(j + 2) == 4 * Pow2(j + 1) == 8 * Pow2(j);
    if j < index {
      Pow2Monotone(j + 4, index + 3);
    } else if j > index {
      Pow2Monotone(index + 4, j + 3);
    }
  }

  lemma SmallestClass(bytes: nat, index: nat)
    requires index <= 10 && 8 < bytes <= 8192 && Pow2(index + 3) <= bytes < Pow2(index + 4)
    ensures index == 10 ==> Pow2(13) == bytes
    ensures forall j: nat :: bytes <= ClassSize(j) <==> (if Pow2(index + 3) != bytes then index + 1 else index) <= j
  {
    Pow2Values();
    forall j: nat
      ensures bytes <= ClassSize(j) <==> (if Pow2(index + 3) != bytes then index + 1 else index) <= j
    {
      ClassFits(bytes, index, j);
    }
  }
}
