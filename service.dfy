/**
 * The kernel side of the system calls that act on processes: `exit`, `spawn`,
 * `log`, the per-process heap calls `alloc` and `free`, and the two switches of
 * the scheduler.
 */
module Service {
  import opened Common
  import opened Memory
  import opened LinkedList
  import opened Allocator
  import opened Utf8
  import opened ExecArgs
  import opened Proc

  /** `isize::MAX` on x86_64: no `Layout` may be larger. */
  const ISIZE_MAX: nat := 0x7FFF_FFFF_FFFF_FFFF

  /** `exit(code)`: the process exits and the code is handed back unchanged. */
  method Exit(k: Kernel, code: ExitCode) returns (r: ExitCode)
    requires k.Ready()
    modifies k`pid, k`maxPid, k.pages
    ensures k.Ready()
    ensures r == code
    ensures k.pid == old(k.table[k.pid].parent)
    ensures k.maxPid == (old(k.maxPid) + USIZE_MODULUS - 1) % USIZE_MODULUS
    ensures k.pages.mapped == old(k.pages.mapped)
      - PageSet(PageOf(old(k.table[k.pid].codeAddr)), PageCount(old(k.table[k.pid].codeAddr), MAX_PROC_SIZE))
  {
    k.Exit();
    r := code;
  }

  // ----- spawn -----

  /** The programs built into the kernel image: 0 is `hello`, 1 is `infprint`. */
  function Embedded(number: nat, hello: seq<Byte>, infprint: seq<Byte>): Option<seq<Byte>> {
    if number == 0 then Some(hello) else if number == 1 then Some(infprint) else None
  }

  /** What `spawn` reports for the result of `Process::spawn`. */
  function SpawnStatus(res: Result<(), ExitCode>): ExitCode {
    match res
    case Ok(_) => Success
    case Err(code) => code
  }

  /**
   * `spawn(number, args_ptr, args_len, args_cap)`: pick the embedded program,
   * then create and run it.  `hello` and `infprint` are the bytes of the two
   * embedded programs; `parse` and `placement` are passed on to `Process::spawn`.
   */
  method Spawn(k: Kernel, number: nat, argsPtr: nat, argsLen: nat, hello: seq<Byte>, infprint: seq<Byte>,
               parse: seq<Byte> -> Option<ElfImage>, placement: Option<nat>)
    returns (r: Outcome<Transfer<ExitCode>>)
    requires k.Ready()
    modifies k`codeAddr, k`maxPid, k`procHeapAddr, k`mem, k`pid, k.pages, k.table
    ensures k.Ready()
    ensures number > 1 ==>
      r == Returns(Return(OpenError)) && unchanged(k) && unchanged(k.pages) && unchanged(k.table)
    ensures number <= 1 ==>
      var bin := if number == 0 then hello else infprint;
      (r == Returns(Return(ExecError)) <==> |bin| >= 4 && FormatOf(bin) == Unknown)
    ensures number <= 1 ==>
      var bin := if number == 0 then hello else infprint;
      (r.Returns? && r.value.EnterUser? <==>
        |bin| >= 4 && FormatOf(bin) != Unknown
        && CreateCompletes(old(k.pages.mapped), k.frameSupply, old(k.codeAddr), old(k.procHeapAddr), old(k.maxPid), bin, parse))
    ensures r.Returns? && r.value.Return? ==> r.value.value == OpenError || r.value.value == ExecError
    ensures number <= 1 && r == Returns(Return(ExecError)) ==>
      && k.codeAddr == old(k.codeAddr) + MAX_PROC_SIZE && k.pid == old(k.pid) && k.noSchedule == old(k.noSchedule)
      && k.table[..] == old(k.table[..]) && k.maxPid == old(k.maxPid) && k.procHeapAddr == old(k.procHeapAddr)
      && k.mem == old(k.mem) && k.pages.mapped == old(k.pages.mapped)
    ensures r.Returns? && r.value.EnterUser? ==>
      number <= 1 && |Embedded(number, hello, infprint).value| >= 4 && k.pid == old(k.maxPid) && k.maxPid == old(k.maxPid) + 1
    ensures r.Returns? && r.value.EnterUser? ==>
      var bin := Embedded(number, hello, infprint).value;
      var caller := old(k.table[k.pid]);
      var heap := k.table[k.pid].allocator;
      && k.table[k.pid] == Process(k.pid, old(k.codeAddr), old(k.codeAddr) + MAX_PROC_SIZE - PAGE_SIZE, EntryOf(bin, parse),
                                   caller.stackFrame, caller.registers, caller.data, caller.id, heap)
      && (forall j :: 0 <= j < MAX_PROCS && j != k.pid ==> k.table[j] == old(k.table[j]))
      && k.codeAddr == old(k.codeAddr) + MAX_PROC_SIZE && k.procHeapAddr == old(k.procHeapAddr) + DEFAULT_HEAP_SIZE
      && k.noSchedule == old(k.noSchedule)
      && fresh(heap) && heap.regions == [Region(old(k.procHeapAddr), DEFAULT_HEAP_SIZE)]
      && heap.freeSpace == DEFAULT_HEAP_SIZE - (if placement.Some? then ARGS_AREA_SIZE else 0)
      && k.pages.mapped == old(k.pages.mapped) + CodeRun(old(k.codeAddr), bin, parse)
                           + Run(PageOf(old(k.procHeapAddr)), PageCount(old(k.procHeapAddr), DEFAULT_HEAP_SIZE), USER_RW)
    ensures r.Returns? && r.value.EnterUser? ==>
      var bin := Embedded(number, hello, infprint).value;
      var loaded := LoadedMemory(old(k.mem), old(k.codeAddr), bin, parse);
      var src := Rebase(argsPtr, k.table[old(k.pid)].codeAddr);
      && k.mem == ExecMemory(loaded, src, argsLen, ArgsBase(placement))
      && r.value.context == UserContext(k.userDataSelector, old(k.codeAddr) + MAX_PROC_SIZE - PAGE_SIZE, RFLAGS_IF, k.userCodeSelector,
                                        old(k.codeAddr) + EntryOf(bin, parse), ExecArgsAddr(loaded, src, argsLen, ArgsBase(placement)), argsLen)
  {
    var program := Embedded(number, hello, infprint);
    if program.None? {
      return Returns(Return(OpenError));
    }
    var spawned := k.Spawn(program.value, argsPtr, argsLen, parse, placement);
    if spawned.Panics? {
      return Panics(spawned.message);
    }
    match spawned.value
    case EnterUser(context) =>
      return Returns(EnterUser(context));
    case Return(res) =>
      return Returns(Return(SpawnStatus(res)));
  }

  // ----- log -----

  /**
   * `log(msg, len)`: the status is 0 when the `len` bytes at `ptr_from_addr(msg)`
   * are well-formed UTF-8 (and are then printed), 1 otherwise.
   */
  function Log(k: Kernel, msg: nat, len: nat): (status: nat)
    reads k, k.table
    requires k.Ready()
    ensures status <= 1
    ensures status == 0 <==> WellFormed(Load(k.mem, k.PtrFromAddr(msg), len))
  {
    if WellFormed(Load(k.mem, k.PtrFromAddr(msg), len)) then 0 else 1
  }

  /** A message that holds the UTF-8 encoding of some text is accepted. */
  lemma LogAcceptsText(k: Kernel, msg: nat, cs: seq<nat>)
    requires k.Ready() && AllScalarValues(cs)
    requires Load(k.mem, k.PtrFromAddr(msg), |Encode(cs)|) == Encode(cs)
    ensures Log(k, msg, |Encode(cs)|) == 0
  {
    EncodeIsWellFormed(cs);
  }

  /** The status is 0 exactly when the message is the UTF-8 encoding of some text. */
  lemma LogAcceptsExactlyText(k: Kernel, msg: nat, len: nat)
    requires k.Ready()
    ensures Log(k, msg, len) == 0 <==> exists cs :: AllScalarValues(cs) && Encode(cs) == Load(k.mem, k.PtrFromAddr(msg), len)
  {
    WellFormedIsEncoding(Load(k.mem, k.PtrFromAddr(msg), len));
  }

  /**
   * A message starting with an overlong form, a surrogate or a code point past
   * U+10FFFF gets status 1.
   */
  lemma LogRejectsInvalidForms(k: Kernel, msg: nat, len: nat)
    requires k.Ready()
    requires var m := Load(k.mem, k.PtrFromAddr(msg), len);
      || (len >= 2 && m[..2] == [0xC0, 0x80])
      || (len >= 3 && (m[..3] == [0xE0, 0x80, 0x80] || m[..3] == [0xED, 0xA0, 0x80]))
      || (len >= 4 && m[..4] == [0xF4, 0x90, 0x80, 0x80])
    ensures Log(k, msg, len) == 1
  {
    var m := Load(k.mem, k.PtrFromAddr(msg), len);
    if len >= 2 && m[..2] == [0xC0, 0x80] {
      RejectsInvalidForms(m[2..]);
      assert m == [0xC0, 0x80] + m[2..];
    } else if len >= 3 && (m[..3] == [0xE0, 0x80, 0x80] || m[..3] == [0xED, 0xA0, 0x80]) {
      RejectsInvalidForms(m[3..]);
      assert m == m[..3] + m[3..];
    } else {
      RejectsInvalidForms(m[4..]);
      assert m == [0xF4, 0x90, 0x80, 0x80] + m[4..];
    }
  }

  /** Two accepted messages laid end to end at an absolute address make an accepted message. */
  lemma LogConcat(k: Kernel, msg: nat, a: nat, b: nat)
    requires k.Ready() && k.CodeAddr() <= msg
    requires Log(k, msg, a) == 0 && Log(k, msg + a, b) == 0
    ensures Log(k, msg, a + b) == 0
  {
    var whole := Load(k.mem, msg, a + b);
    assert whole == Load(k.mem, msg, a) + Load(k.mem, msg + a, b);
    WellFormedConcat(Load(k.mem, msg, a), Load(k.mem, msg + a, b));
  }

  // ----- alloc and free -----

  /**
   * How much `alloc` grows the heap by when `free` bytes are free and `size` are
   * asked for: the deficit rounded up to whole pages, `(size - free + 0xfff) & !0xfff`.
   */
  function GrowAmount(size: nat, free: nat): (g: nat)
    requires free < size
    ensures g % PAGE_SIZE == 0
    ensures size - free <= g < size - free + PAGE_SIZE
  {
    PageSizeIsPowerOfTwo();
    AlignUp(size - free, PAGE_SIZE)
  }

  /** The growth is the least whole number of pages that covers the deficit. */
  lemma GrowAmountIsLeast(size: nat, free: nat, m: nat)
    requires free < size && m % PAGE_SIZE == 0 && size - free <= m
    ensures GrowAmount(size, free) <= m
  {
    PageSizeIsPowerOfTwo();
    AlignUpIsLeast(size - free, PAGE_SIZE, m);
  }

  /** `Layout::from_size_align(size, align)` succeeds. */
  predicate LayoutValid(size: nat, align: nat) {
    IsPowerOfTwo(align) && size + (align - 1) <= ISIZE_MAX
  }

  /**
   * `alloc(size, align)` on the current process's heap: grow it by whole pages
   * when fewer than `size` bytes are free, then allocate.  `placement` is the
   * block the allocator's first-fit search picks, or None when none fits.
   */
  method Alloc(k: Kernel, size: nat, align: nat, placement: Option<nat>) returns (r: Outcome<nat>)
    requires k.Ready()
    modifies k`procHeapAddr, k.pages, k.table[k.pid].allocator
    ensures k.Ready() && k.HeapAllocator() == old(k.HeapAllocator())
    ensures k.kernelHeap.freeSpace == old(k.kernelHeap.freeSpace) && k.kernelHeap.regions == old(k.kernelHeap.regions)
    ensures var heap := k.HeapAllocator();
      var free := old(heap.freeSpace);
      var start := old(k.procHeapAddr);
      if size <= free then
        && k.procHeapAddr == start && k.pages.mapped == old(k.pages.mapped)
        && (r.Returns? <==> LayoutValid(size, align))
        && (r.Returns? ==> heap.regions == old(heap.regions))
        && (r.Returns? ==> heap.freeSpace == free - (if placement.Some? then size else 0))
      else
        var g := GrowAmount(size, free);
        var j := FailIndex(old(k.pages.mapped), PageOf(start), PageCount(start, g), k.frameSupply);
        && k.procHeapAddr == start + g
        && k.pages.mapped == old(k.pages.mapped) + Run(PageOf(start), j, USER_RW)
        && (r.Returns? <==> j == PageCount(start, g) && LayoutValid(size, align))
        && (r.Returns? ==> heap.regions == old(heap.regions) + [Region(start, g)])
        && (r.Returns? ==> heap.freeSpace == free + g - (if placement.Some? then size else 0))
    ensures r.Returns? ==> r.value == if placement.Some? then placement.value else 0
  {
    var heap := k.table[k.pid].allocator;
    if heap.freeSpace < size {
      var grow := GrowAmount(size, heap.freeSpace);
      var grown := k.AllocatorGrow(grow);
      if grown.Panics? {
        return Panics(grown.message);
      }
    }
    if !LayoutValid(size, align) {
      return Panics("proc mem alloc fail 5478");
    }
    var ptr := heap.Alloc(size, align, placement);
    return Returns(ptr);
  }

  /** `free(ptr, size, align)` on the current process's heap. */
  method Free(k: Kernel, ptr: nat, size: nat, align: nat) returns (r: Outcome<()>)
    requires k.Ready()
    modifies k.table[k.pid].allocator
    ensures k.Ready()
    ensures k.kernelHeap.freeSpace == old(k.kernelHeap.freeSpace) && k.kernelHeap.regions == old(k.kernelHeap.regions)
    ensures r.Returns? <==> LayoutValid(size, align)
    ensures var heap := k.HeapAllocator();
      && heap.regions == old(heap.regions)
      && heap.freeSpace == old(heap.freeSpace) + (if r.Returns? then size else 0)
  {
    var heap := k.table[k.pid].allocator;
    if !LayoutValid(size, align) {
      return Panics("proc layout fail 5472");
    }
    heap.Dealloc(ptr, size, align);
    return Returns(());
  }

  // ----- scheduling switches -----

  /** `stop_schedule()`: whatever the flag was, it is now set. */
  method StopSchedule(k: Kernel)
    modifies k`noSchedule
    ensures k.noSchedule
  {
    k.noSchedule := true;
  }

  /** `restart_schedule()`: whatever the flag was, it is now clear. */
  method RestartSchedule(k: Kernel)
    modifies k`noSchedule
    ensures !k.noSchedule
  {
    k.noSchedule := false;
  }
}
