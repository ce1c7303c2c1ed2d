/**
 * `init_heap`: at boot, place the first code-and-stack region right above the
 * kernel heap, map the kernel heap page by page, and hand it to the global
 * allocator once every page is mapped.
 */
module HeapInit {
  import opened Common
  import opened Memory
  import opened LinkedList
  import opened Allocator
  import opened Proc

  /**
   * `init_heap(mapper, frame_allocator)`.  `supply` is how many frames the boot
   * frame allocator passed in can still hand out.  The kernel heap is mapped
   * PRESENT | WRITABLE (not user-accessible); the first failure is returned as
   * it is and the pages mapped before it stay mapped.
   */
  method InitHeap(k: Kernel, supply: nat) returns (r: Result<(), MapFailure>)
    requires k.kernelHeap.regions == []
    modifies k`codeAddr, k.pages, k.kernelHeap
    ensures k.codeAddr == HEAP_START + HEAP_SIZE
    ensures var first, n := PageOf(HEAP_START), PageCount(HEAP_START, HEAP_SIZE);
      var j := FailIndex(old(k.pages.mapped), first, n, supply);
      && k.pages.mapped == old(k.pages.mapped) + Run(first, j, KERNEL_RW)
      && (r.Ok? <==> j == n)
      && (r == Err(FrameAllocationFailed) <==> j < n && j == supply)
      && (r == Err(PageAlreadyMapped) <==> j < n && j < supply)
    ensures r.Ok? ==>
      k.kernelHeap.regions == [Region(HEAP_START, HEAP_SIZE)]
      && k.kernelHeap.freeSpace == old(k.kernelHeap.freeSpace) + HEAP_SIZE
    ensures r.Err? ==> k.kernelHeap.regions == [] && k.kernelHeap.freeSpace == old(k.kernelHeap.freeSpace)
  {
    k.InitProcessAddr(HEAP_START + HEAP_SIZE);
    var failure := k.pages.MapRange(PageOf(HEAP_START), PageCount(HEAP_START, HEAP_SIZE), supply, KERNEL_RW);
    if failure.Some? {
      return Err(failure.value);
    }
    k.kernelHeap.Init(HEAP_START, HEAP_SIZE);
    return Ok(());
  }

  /**
   * Every page `init_heap` maps lies below the first code-and-stack region, which
   * starts at the `CODE_ADDR` it sets, and below the first process heap; the kernel
   * heap itself covers whole pages.
   */
  lemma KernelHeapBelowProcesses(mapped: map<nat, PageFlags>, supply: nat, p: nat)
    requires p in Run(PageOf(HEAP_START), FailIndex(mapped, PageOf(HEAP_START), PageCount(HEAP_START, HEAP_SIZE), supply), KERNEL_RW)
    ensures HEAP_START % PAGE_SIZE == 0 && HEAP_SIZE % PAGE_SIZE == 0
    ensures p < PageOf(HEAP_START + HEAP_SIZE) <= PageOf(PROC_HEAP_START)
  {
    assert PageOf(HEAP_START) == 0x10_0000 && PageOf(HEAP_START + HEAP_SIZE - 1) == 0x10_27FF;
    assert PageOf(HEAP_START + HEAP_SIZE) == 0x10_2800 && PageOf(PROC_HEAP_START) == 0x20_0000;
    var j := FailIndex(mapped, PageOf(HEAP_START), PageCount(HEAP_START, HEAP_SIZE), supply);
    assert j <= 0x2800;
    assert InRun(p, 0x10_0000, j);
  }

  /**
   * The BIN branch of `create` as written (`Kernel.LoadImage`) maps nothing before it
   * copies: the first process created after `init_heap` has its code at the `CODE_ADDR`
   * `init_heap` sets, and byte `i` of a BIN image is written on a page that neither the
   * boot page table nor `init_heap` mapped.
   */
  lemma BinImageLandsUnmapped(mapped: map<nat, PageFlags>, supply: nat, mem: Mem, bin: seq<Byte>, i: nat)
    requires i < |bin| && PageOf(HEAP_START + HEAP_SIZE + i) !in mapped
    ensures var code := HEAP_START + HEAP_SIZE;
      var after := mapped + Run(PageOf(HEAP_START), FailIndex(mapped, PageOf(HEAP_START), PageCount(HEAP_START, HEAP_SIZE), supply), KERNEL_RW);
      && Read(Store(mem, code, bin), code + i) == bin[i]
      && PageOf(code + i) !in after
  {
    var code := HEAP_START + HEAP_SIZE;
    var run := Run(PageOf(HEAP_START), FailIndex(mapped, PageOf(HEAP_START), PageCount(HEAP_START, HEAP_SIZE), supply), KERNEL_RW);
    if PageOf(code + i) in run {
      KernelHeapBelowProcesses(mapped, supply, PageOf(code + i));
      assert false;
    }
  }
}
