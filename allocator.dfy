/**
 * The allocator module of the kernel: `align_up`, and the page-mapping boundary
 * `alloc_pages` / `free_pages` over an abstract page table (page number -> flags)
 * fed by an abstract supply of physical frames.
 */
module Allocator {
  import opened Common

  const PAGE_SIZE: nat := 4096
  const HEAP_START: nat := 0x1_0000_0000
  const HEAP_SIZE: nat := 40 * 1024 * 1024

  // ----- align_up -----

  predicate IsPowerOfTwo(n: nat)
    ensures IsPowerOfTwo(n) ==> n >= 1
    decreases n
  {
    n == 1 || (n >= 2 && n % 2 == 0 && IsPowerOfTwo(n / 2))
  }

  /** A page is 2^12 bytes. */
  lemma PageSizeIsPowerOfTwo()
    ensures IsPowerOfTwo(PAGE_SIZE)
  {
    assert IsPowerOfTwo(1);
    assert IsPowerOfTwo(2);
    assert IsPowerOfTwo(4);
    assert IsPowerOfTwo(8);
    assert IsPowerOfTwo(16);
    assert IsPowerOfTwo(32);
    assert IsPowerOfTwo(64);
    assert IsPowerOfTwo(128);
    assert IsPowerOfTwo(256);
    assert IsPowerOfTwo(512);
    assert IsPowerOfTwo(1024);
    assert IsPowerOfTwo(2048);
  }

  /** `x & !(align - 1)` for a power-of-two `align`: the bits of `x` below `align` cleared. */
  function ClearLowBits(x: nat, align: nat): nat
    requires IsPowerOfTwo(align)
    decreases align
  {
    if align == 1 then x else 2 * ClearLowBits(x / 2, align / 2)
  }

  lemma MulMono(d: int, a: int, b: int)
    requires d >= 0 && a <= b
    ensures d * a <= d * b
  {
    assert d * b - d * a == d * (b - a);
  }

  /** Euclidean division is unique. */
  lemma DivModUnique(x: int, d: int, q: int, r: int)
    requires d > 0 && 0 <= r < d && x == d * q + r
    ensures x / d == q && x % d == r
  {
    var q0, r0 := x / d, x % d;
    assert x == d * q0 + r0;
    if q0 < q {
      assert d * (q0 + 1) == d * q0 + d;
      MulMono(d, q0 + 1, q);
    } else if q < q0 {
      assert d * (q + 1) == d * q + d;
      MulMono(d, q + 1, q0);
    }
  }

  /** Clearing the low bits rounds down to a multiple of `align`. */
  lemma {:induction false} ClearLowBitsRoundsDown(x: nat, align: nat)
    requires IsPowerOfTwo(align)
    ensures ClearLowBits(x, align) == x - x % align
    decreases align
  {
    if align != 1 {
      var h := align / 2;
      ClearLowBitsRoundsDown(x / 2, h);
      var q, b := x / 2, x % 2;
      var s, t := q / h, q % h;
      assert q == h * s + t;
      assert x == align * s + (2 * t + b);
      DivModUnique(x, align, s, 2 * t + b);
    }
  }

  /**
   * `align_up(addr, align)` = `(addr + align - 1) & !(align - 1)`: the least
   * multiple of `align` that is not below `addr`.
   */
  function AlignUp(addr: nat, align: nat): (r: nat)
    requires IsPowerOfTwo(align)
    ensures r % align == 0
    ensures addr <= r < addr + align
  {
    var y := addr + align - 1;
    ClearLowBitsRoundsDown(y, align);
    RoundDownIsMultiple(y, align);
    ClearLowBits(y, align)
  }

  /** Taking away the remainder leaves a multiple. */
  lemma RoundDownIsMultiple(x: int, d: int)
    requires d > 0
    ensures (x - x % d) % d == 0
  {
    DivModUnique(x - x % d, d, x / d, 0);
  }

  /** Two different multiples of `d` are at least `d` apart. */
  lemma MultiplesApart(d: int, a: int, b: int)
    requires d > 0 && a % d == 0 && b % d == 0 && a < b
    ensures a + d <= b
  {
    var qa, qb := a / d, b / d;
    DivModUnique(a, d, qa, 0);
    DivModUnique(b, d, qb, 0);
    if qb <= qa {
      MulMono(d, qb, qa);
    } else {
      MulMono(d, qa + 1, qb);
    }
  }

  /** No multiple of `align` lies between `addr` and `AlignUp(addr, align)`. */
  lemma AlignUpIsLeast(addr: nat, align: nat, m: nat)
    requires IsPowerOfTwo(align)
    requires m % align == 0 && addr <= m
    ensures AlignUp(addr, align) <= m
  {
    var r := AlignUp(addr, align);
    if m < r {
      MultiplesApart(align, m, r);
    }
  }

  /** An address that is already aligned is left unchanged. */
  lemma AlignUpOfAligned(addr: nat, align: nat)
    requires IsPowerOfTwo(align) && addr % align == 0
    ensures AlignUp(addr, align) == addr
  {
    AlignUpIsLeast(addr, align, addr);
  }

  /** Aligning twice is aligning once. */
  lemma AlignUpIdempotent(addr: nat, align: nat)
    requires IsPowerOfTwo(align)
    ensures AlignUp(AlignUp(addr, align), align) == AlignUp(addr, align)
  {
    AlignUpOfAligned(AlignUp(addr, align), align);
  }

  // ----- page ranges -----

  /** `Page::containing_address(addr)`. */
  function PageOf(addr: nat): nat {
    addr / PAGE_SIZE
  }

  /**
   * The number of pages in `Page::range_inclusive(PageOf(addr), PageOf(addr + size - 1))`.
   * The source computes `addr + size - 1` on `u64`, so `addr + size` must be positive.
   */
  function PageCount(addr: nat, size: nat): (n: nat)
    requires addr + size >= 1
    ensures size >= 1 ==> n >= 1
  {
    PageOf(addr + size - 1) + 1 - PageOf(addr)
  }

  /** The pages a range covers are exactly the pages holding one of its bytes. */
  lemma PageRangeIsExact(addr: nat, size: nat, p: nat)
    requires size >= 1
    ensures PageOf(addr) <= p < PageOf(addr) + PageCount(addr, size)
        <==> exists b: nat :: addr <= b < addr + size && PageOf(b) == p
  {
    if PageOf(addr) <= p < PageOf(addr) + PageCount(addr, size) {
      var b: nat := if p * PAGE_SIZE < addr then addr else p * PAGE_SIZE;
      DivModUnique(p * PAGE_SIZE, PAGE_SIZE, p, 0);
      assert PageOf(b) == p;
    }
  }

  // ----- the page table -----

  datatype PageFlags = PageFlags(present: bool, writable: bool, userAccessible: bool)

  /** PRESENT | WRITABLE | USER_ACCESSIBLE, as `alloc_pages` maps. */
  const USER_RW := PageFlags(true, true, true)
  /** PRESENT | WRITABLE, as `init_heap` maps the kernel heap. */
  const KERNEL_RW := PageFlags(true, true, false)

  /** Why mapping a page range stopped: no frame left, or `map_to` refused the page. */
  datatype MapFailure = FrameAllocationFailed | PageAlreadyMapped

  /** Page `p` is one of `first .. first + n - 1`. */
  predicate InRun(p: nat, first: nat, n: nat) {
    first <= p < first + n
  }

  /** The pages `first .. first + n - 1`. */
  function PageSet(first: nat, n: nat): set<nat> {
    set p: nat | first <= p < first + n && InRun(p, first, n)
  }

  /** The mappings of pages `first .. first + n - 1`, all with `flags`. */
  function Run(first: nat, n: nat, flags: PageFlags): map<nat, PageFlags> {
    map p: nat | first <= p < first + n && InRun(p, first, n) :: flags
  }

  /**
   * How many pages of `first .. first + n - 1`, taken in ascending order, are
   * mapped before the first failure, when `supply` frames are available: the
   * walk stops at the first page with no frame left or already mapped.
   */
  function FailIndex(mapped: map<nat, PageFlags>, first: nat, n: nat, supply: nat): (k: nat)
    ensures k <= n && k <= supply
    ensures forall p :: first <= p < first + k ==> p !in mapped
    ensures k < n ==> k == supply || first + k in mapped
    decreases n
  {
    if n == 0 || supply == 0 || first in mapped then 0
    else 1 + FailIndex(mapped, first + 1, n - 1, supply - 1)
  }

  /** The walk maps the whole range exactly when there are frames enough and no page is mapped yet. */
  lemma FailIndexFull(mapped: map<nat, PageFlags>, first: nat, n: nat, supply: nat)
    ensures FailIndex(mapped, first, n, supply) == n
        <==> n <= supply && forall p :: first <= p < first + n ==> p !in mapped
  {
  }

  /** The walk stops at `j` when the pages before `j` were free and page `j` is where it fails. */
  lemma {:induction false} FailIndexIs(mapped: map<nat, PageFlags>, first: nat, n: nat, supply: nat, j: nat)
    requires j <= n && j <= supply
    requires forall p :: first <= p < first + j ==> p !in mapped
    requires j == n || j == supply || first + j in mapped
    ensures FailIndex(mapped, first, n, supply) == j
    decreases j
  {
    if j > 0 {
      FailIndexIs(mapped, first + 1, n - 1, supply - 1, j - 1);
    }
  }

  /** The walk stopped at `j` for the reason `failure` gives (None: it ran to the end). */
  lemma StopReason(mapped: map<nat, PageFlags>, first: nat, n: nat, supply: nat, j: nat, failure: Option<MapFailure>)
    requires j <= n && j <= supply
    requires forall p :: first <= p < first + j ==> p !in mapped
    requires failure.None? ==> j == n
    requires failure == Some(FrameAllocationFailed) ==> j < n && j == supply
    requires failure == Some(PageAlreadyMapped) ==> j < n && j < supply && first + j in mapped
    ensures FailIndex(mapped, first, n, supply) == j
    ensures failure.None? <==> j == n
    ensures failure == Some(FrameAllocationFailed) <==> j < n && j == supply
    ensures failure == Some(PageAlreadyMapped) <==> j < n && j < supply
  {
    if failure.Some? {
      assert failure.value.FrameAllocationFailed? || failure.value.PageAlreadyMapped?;
    }
    FailIndexIs(mapped, first, n, supply, j);
  }

  /** Mapping the page right after a run extends the run. */
  lemma ExtendRun(base: map<nat, PageFlags>, first: nat, page: nat, flags: PageFlags)
    requires first <= page
    ensures (base + Run(first, page - first, flags))[page := flags] == base + Run(first, page + 1 - first, flags)
  {
    assert Run(first, page + 1 - first, flags) == Run(first, page - first, flags)[page := flags];
  }

  class PageTable {
    /** Mapped virtual pages and their flags. */
    var mapped: map<nat, PageFlags>

    constructor (mapped: map<nat, PageFlags>)
      ensures this.mapped == mapped
    {
      this.mapped := mapped;
    }

    /**
     * The loop shared by `alloc_pages` and `init_heap`: map the pages
     * `first .. first + n - 1` in ascending order with `flags`, one frame each,
     * stopping at the first failure and keeping what was mapped before it.
     */
    method MapRange(first: nat, n: nat, supply: nat, flags: PageFlags) returns (failure: Option<MapFailure>)
      modifies this
      ensures var k := FailIndex(old(mapped), first, n, supply);
        && mapped == old(mapped) + Run(first, k, flags)
        && (failure.None? <==> k == n)
        && (failure == Some(FrameAllocationFailed) <==> k < n && k == supply)
        && (failure == Some(PageAlreadyMapped) <==> k < n && k < supply)
    {
      ghost var before := mapped;
      failure := None;
      var page := first;
      var frames := supply;
      while page < first + n
        invariant first <= page <= first + n
        invariant page - first <= supply && frames == supply - (page - first)
        invariant forall p :: first <= p < page ==> p !in before
        invariant mapped == before + Run(first, page - first, flags)
      {
        if frames == 0 {
          failure := Some(FrameAllocationFailed);
          break;
        }
        frames := frames - 1;
        if page in mapped {
          failure := Some(PageAlreadyMapped);
          break;
        }
        ExtendRun(before, first, page, flags);
        mapped := mapped[page := flags];
        page := page + 1;
      }
      StopReason(before, first, n, supply, page - first, failure);
    }

    /**
     * `alloc_pages(addr, size)`: map every page of the range with
     * PRESENT | WRITABLE | USER_ACCESSIBLE.  `supply` is the number of frames the
     * frame allocator built afresh for this call can hand out.
     */
    method AllocPages(addr: nat, size: nat, supply: nat) returns (r: Result<(), ()>)
      requires addr + size >= 1
      modifies this
      ensures var k := FailIndex(old(mapped), PageOf(addr), PageCount(addr, size), supply);
        && mapped == old(mapped) + Run(PageOf(addr), k, USER_RW)
        && (r.Ok? <==> k == PageCount(addr, size))
    {
      var failure := MapRange(PageOf(addr), PageCount(addr, size), supply, USER_RW);
      r := if failure.None? then Ok(()) else Err(());
    }

    /** `free_pages(addr, size)`: unmap every mapped page of the range, skip the others. */
    method FreePages(addr: nat, size: nat)
      requires addr + size >= 1
      modifies this
      ensures mapped == old(mapped) - PageSet(PageOf(addr), PageCount(addr, size))
    {
      var first, n := PageOf(addr), PageCount(addr, size);
      var page := first;
      while page < first + n
        invariant first <= page <= first + n
        invariant mapped == old(mapped) - PageSet(first, page - first)
      {
        if page in mapped {
          mapped := mapped - {page};
        }
        assert PageSet(first, page + 1 - first) == PageSet(first, page - first) + {page};
        page := page + 1;
      }
    }
  }

  /**
   * After a successful `alloc_pages(addr, size)` (the walk mapped every page) each
   * byte of `[addr, addr + size)` lies on a page mapped user-accessible and writable.
   */
  lemma AllocatedRangeIsMapped(mapped: map<nat, PageFlags>, addr: nat, size: nat, supply: nat)
    requires size >= 1
    requires FailIndex(mapped, PageOf(addr), PageCount(addr, size), supply) == PageCount(addr, size)
    ensures var after := mapped + Run(PageOf(addr), FailIndex(mapped, PageOf(addr), PageCount(addr, size), supply), USER_RW);
      forall a :: addr <= a < addr + size ==> PageOf(a) in after && after[PageOf(a)] == USER_RW
  {
    var n := PageCount(addr, size);
    forall a | addr <= a < addr + size
      ensures InRun(PageOf(a), PageOf(addr), n)
    {
      PageRangeIsExact(addr, size, PageOf(a));
    }
  }

  /** `free_pages` over the range of a successful `alloc_pages` gives back the page table it started from. */
  lemma FreeUndoesAlloc(mapped: map<nat, PageFlags>, first: nat, n: nat, supply: nat)
    requires FailIndex(mapped, first, n, supply) == n
    ensures (mapped + Run(first, n, USER_RW)) - PageSet(first, n) == mapped
  {
    var after := (mapped + Run(first, n, USER_RW)) - PageSet(first, n);
    assert forall p :: p in mapped ==> p !in PageSet(first, n);
    assert after.Keys == mapped.Keys;
  }

  /** The page runs `first .. first + n - 1` and `other .. other + m - 1` share no page. */
  predicate RunsDisjoint(first: nat, n: nat, other: nat, m: nat) {
    first + n <= other || other + m <= first
  }

  /**
   * A walk after a run was mapped: it maps its whole range exactly when it would
   * have done so before, and its range does not meet the run.
   */
  lemma FailIndexPastRun(mapped: map<nat, PageFlags>, first: nat, n: nat, supply: nat, other: nat, m: nat, flags: PageFlags)
    requires n >= 1 && m >= 1
    ensures FailIndex(mapped + Run(other, m, flags), first, n, supply) == n
        <==> FailIndex(mapped, first, n, supply) == n && RunsDisjoint(first, n, other, m)
  {
    FailIndexFull(mapped + Run(other, m, flags), first, n, supply);
    FailIndexFull(mapped, first, n, supply);
    if !RunsDisjoint(first, n, other, m) {
      var p := if first < other then other else first;
      assert InRun(p, other, m) && p in mapped + Run(other, m, flags);
    }
  }
}
