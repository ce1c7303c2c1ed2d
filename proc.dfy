/**
 * The process module: the fixed-size process table, the current-process register
 * `PID`, the counters `MAX_PID`, `CODE_ADDR` and `PROC_HEAP_ADDR`, and the process
 * lifecycle (create, exec, exit) together with the accessors of the current process.
 *
 * The kernel's global state is one `Kernel` object.  Its byte memory `mem` is what
 * the raw-pointer reads and writes of this module touch; its page table `pages`
 * is the mapping state behind `alloc_pages` / `free_pages`.
 */
module Proc {
  import opened Common
  import opened Memory
  import opened LinkedList
  import opened Allocator
  import opened ExecArgs

  const MAX_PROCS: nat := 4
  /** `10 << 20`: the code-and-stack region of one process. */
  const MAX_PROC_SIZE: nat := 10 * 1024 * 1024
  const DEFAULT_HEAP_SIZE: nat := 0x4000
  /** Initial value of `PROC_HEAP_ADDR`. */
  const PROC_HEAP_START: nat := 0x2_0000_0000
  const ELF_MAGIC: seq<Byte> := [0x7F, 0x45, 0x4C, 0x46]
  const BIN_MAGIC: seq<Byte> := [0x7F, 0x42, 0x49, 0x4E]
  /** RFLAGS with only the interrupt flag set. */
  const RFLAGS_IF: nat := 0x200

  datatype ProcessData = ProcessData(env: map<string, string>, dir: string, user: Option<string>)

  datatype Registers = Registers(r11: nat, r10: nat, r9: nat, r8: nat, rdi: nat, rsi: nat, rdx: nat, rcx: nat, rax: nat)

  /** `InterruptStackFrameValue`. */
  datatype StackFrame = StackFrame(instructionPointer: nat, codeSegment: nat, cpuFlags: nat, stackPointer: nat, stackSegment: nat)

  datatype Process = Process(
    id: nat,
    codeAddr: nat,
    stackAddr: nat,
    entryPoint: nat,
    stackFrame: StackFrame,
    registers: Registers,
    data: ProcessData,
    parent: nat,
    allocator: LinkedListAllocator)

  /** `ProcessData::new(dir, user)`: an empty environment. */
  function NewProcessData(dir: string, user: Option<string>): ProcessData {
    ProcessData(map[], dir, user)
  }

  /** `Process::new(id)`, given the allocator it owns. */
  function NewProcess(id: nat, allocator: LinkedListAllocator): Process {
    Process(id, 0, 0, 0, StackFrame(0, 0, 0, 0, 0), Registers(0, 0, 0, 0, 0, 0, 0, 0, 0),
            NewProcessData("/", None), 0, allocator)
  }

  /** The exit codes this module and the system calls produce (the full list belongs to the system API). */
  datatype ExitCode = Success | OpenError | ExecError | Other(code: nat)

  /** A loadable segment as the ELF parser reports it: where it goes, and its bytes if it has any. */
  datatype Segment = Segment(address: nat, data: Option<seq<Byte>>)

  /** What the ELF parser reports for an image. */
  datatype ElfImage = ElfImage(entry: nat, segments: seq<Segment>)

  /** The frame `iretq` pops, and the two argument registers, on the way to user mode. */
  datatype UserContext = UserContext(
    stackSegment: nat, stackPointer: nat, rflags: nat, codeSegment: nat, instructionPointer: nat,
    rdi: nat, rsi: nat)

  /** Either control goes to user mode and never comes back, or the routine returns. */
  datatype Transfer<T> = EnterUser(context: UserContext) | Return(value: T)

  // ----- address translation -----

  /**
   * `ptr_from_addr` with the current code base `base`: an address below the base
   * is an offset from it, any other address is already absolute.
   */
  function Rebase(addr: nat, base: nat): (p: nat)
    ensures base <= p
    ensures addr < base ==> p - base == addr
    ensures base <= addr ==> p == addr
  {
    if addr < base then base + addr else addr
  }

  /** A translated address is never translated again. */
  lemma RebaseIdempotent(addr: nat, base: nat)
    ensures Rebase(Rebase(addr, base), base) == Rebase(addr, base)
  {
  }

  // ----- image formats -----

  datatype Format = Elf | Bin | Unknown

  /** The format named by the first four bytes of an image. */
  function FormatOf(bin: seq<Byte>): (f: Format)
    requires |bin| >= 4
    ensures f == Elf <==> bin[..4] == ELF_MAGIC
    ensures f == Bin <==> bin[..4] == BIN_MAGIC
  {
    if bin[..4] == ELF_MAGIC then Elf else if bin[..4] == BIN_MAGIC then Bin else Unknown
  }

  /** Memory after the segments of an ELF image are copied, in order, relative to `code`. */
  function StoreSegments(mem: Mem, code: nat, segments: seq<Segment>): Mem
    decreases |segments|
  {
    if segments == [] then mem
    else
      var before := StoreSegments(mem, code, segments[..|segments| - 1]);
      var last := segments[|segments| - 1];
      if last.data.Some? then Store(before, code + last.address, last.data.value) else before
  }

  /** The image is copied into its code-and-stack region: a BIN image, or an ELF image the parser accepts. */
  predicate LoadsIntoRegion(bin: seq<Byte>, parse: seq<Byte> -> Option<ElfImage>)
    requires |bin| >= 4
  {
    FormatOf(bin) == Bin || (FormatOf(bin) == Elf && parse(bin).Some?)
  }

  /** The entry point `create` records: the parser's for an accepted ELF image, 0 otherwise. */
  function EntryOf(bin: seq<Byte>, parse: seq<Byte> -> Option<ElfImage>): nat
    requires |bin| >= 4
  {
    if FormatOf(bin) == Elf && parse(bin).Some? then parse(bin).value.entry else 0
  }

  /** Memory once `create` has copied the image into the region at `code`. */
  function LoadedMemory(mem: Mem, code: nat, bin: seq<Byte>, parse: seq<Byte> -> Option<ElfImage>): Mem
    requires |bin| >= 4
  {
    if FormatOf(bin) == Bin then Store(mem, code, bin)
    else if FormatOf(bin) == Elf && parse(bin).Some? then StoreSegments(mem, code, parse(bin).value.segments)
    else mem
  }

  /** The mappings `create` adds for the code-and-stack region at `code`. */
  function CodeRun(code: nat, bin: seq<Byte>, parse: seq<Byte> -> Option<ElfImage>): map<nat, PageFlags>
    requires |bin| >= 4
  {
    if LoadsIntoRegion(bin, parse) then Run(PageOf(code), PageCount(code, MAX_PROC_SIZE), USER_RW) else map[]
  }

  /**
   * When `create` gets through a recognised image without a panic: the code-and-stack
   * region at `code` (if the image goes into one) and then the heap region at
   * `heapAddr` are mapped completely from `supply` frames, and `MAX_PID` names a slot.
   */
  predicate CreateCompletes(mapped: map<nat, PageFlags>, supply: nat, code: nat, heapAddr: nat, maxPid: nat,
                            bin: seq<Byte>, parse: seq<Byte> -> Option<ElfImage>)
    requires |bin| >= 4
  {
    && (LoadsIntoRegion(bin, parse) ==>
          FailIndex(mapped, PageOf(code), PageCount(code, MAX_PROC_SIZE), supply) == PageCount(code, MAX_PROC_SIZE))
    && FailIndex(mapped, PageOf(heapAddr), PageCount(heapAddr, DEFAULT_HEAP_SIZE), supply) == PageCount(heapAddr, DEFAULT_HEAP_SIZE)
    && (LoadsIntoRegion(bin, parse) ==>
          RunsDisjoint(PageOf(heapAddr), PageCount(heapAddr, DEFAULT_HEAP_SIZE), PageOf(code), PageCount(code, MAX_PROC_SIZE)))
    && maxPid < MAX_PROCS
  }

  /** The heap walk of `create` runs after the code region is mapped, whatever the image. */
  lemma HeapWalkPastCode(mapped: map<nat, PageFlags>, supply: nat, code: nat, heapAddr: nat,
                         bin: seq<Byte>, parse: seq<Byte> -> Option<ElfImage>)
    requires |bin| >= 4
    ensures var n := PageCount(heapAddr, DEFAULT_HEAP_SIZE);
      FailIndex(mapped + CodeRun(code, bin, parse), PageOf(heapAddr), n, supply) == n
      <==> && FailIndex(mapped, PageOf(heapAddr), n, supply) == n
           && (LoadsIntoRegion(bin, parse) ==> RunsDisjoint(PageOf(heapAddr), n, PageOf(code), PageCount(code, MAX_PROC_SIZE)))
  {
    if LoadsIntoRegion(bin, parse) {
      FailIndexPastRun(mapped, PageOf(heapAddr), PageCount(heapAddr, DEFAULT_HEAP_SIZE), supply,
                       PageOf(code), PageCount(code, MAX_PROC_SIZE), USER_RW);
    } else {
      assert mapped + CodeRun(code, bin, parse) == mapped;
    }
  }

  /** Where `exec`'s 1024-byte argument block starts: the block found, or null. */
  function ArgsBase(placement: Option<nat>): nat {
    if placement.Some? then placement.value else 0
  }

  /** Where `exec` puts the `&str` array: the next multiple of 8 past the copies of the strings read through `src`. */
  function ExecArgsAddr(mem: Mem, src: nat, argc: nat, base: nat): nat {
    ArgsArrayAddr(base + |Concat(ReadArgs(mem, src, argc))|)
  }

  /**
   * Memory after `exec` has copied the `argc` strings read through the `&str` array
   * at `src` back to back from `base`, then written their array of `&str`.
   */
  function ExecMemory(mem: Mem, src: nat, argc: nat, base: nat): Mem {
    var args := ReadArgs(mem, src, argc);
    Store(Store(mem, base, Concat(args)), ExecArgsAddr(mem, src, argc, base), EncodeStrRefs(StrRefs(args, base)))
  }

  /** `ExecMemory` and `ExecArgsAddr` spelled out for the strings `args` read through `src`. */
  lemma ExecLayout(mem: Mem, src: nat, argc: nat, placement: Option<nat>, args: seq<seq<Byte>>)
    requires args == ReadArgs(mem, src, argc)
    ensures var base := if placement.Some? then placement.value else 0;
      var at := ArgsArrayAddr(base + |Concat(args)|);
      && ExecArgsAddr(mem, src, argc, ArgsBase(placement)) == at
      && ExecMemory(mem, src, argc, ArgsBase(placement)) == Store(Store(mem, base, Concat(args)), at, EncodeStrRefs(StrRefs(args, base)))
  {
  }

  /**
   * The new process finds its arguments: reading `argc` strings through the array
   * `exec` leaves (the address it passes in `rdi`) gives back the strings `exec`
   * read through the caller's array at `src`, as long as the copies end below 2^64.
   */
  lemma ExecArgsReadBack(mem: Mem, src: nat, argc: nat, base: nat)
    requires base + |Concat(ReadArgs(mem, src, argc))| < USIZE_MODULUS
    ensures ReadArgs(ExecMemory(mem, src, argc, base), ExecArgsAddr(mem, src, argc, base), argc) == ReadArgs(mem, src, argc)
  {
    var args := ReadArgs(mem, src, argc);
    var strings, refs := Concat(args), StrRefs(args, base);
    PackLaidOut(args, base);
    ReadArgsAfterStores(mem, base, strings, ArgsArrayAddr(base + |strings|), EncodeStrRefs(refs), refs, args);
  }

  // ----- the kernel state -----

  /** The boot table: `MAX_PROCS` slots of `Process::new(0)`, each with an allocator of its own. */
  method NewTable() returns (t: array<Process>)
    ensures fresh(t) && t.Length == MAX_PROCS
    ensures forall i :: 0 <= i < MAX_PROCS ==> t[i] == NewProcess(0, t[i].allocator) && fresh(t[i].allocator)
    ensures forall i :: 0 <= i < MAX_PROCS ==> t[i].allocator.freeSpace == 0 && t[i].allocator.regions == []
    ensures forall i, j :: 0 <= i < j < MAX_PROCS ==> t[i].allocator != t[j].allocator
  {
    var a0 := new LinkedListAllocator();
    var a1 := new LinkedListAllocator();
    var a2 := new LinkedListAllocator();
    var a3 := new LinkedListAllocator();
    var slots := [NewProcess(0, a0), NewProcess(0, a1), NewProcess(0, a2), NewProcess(0, a3)];
    t := new Process[MAX_PROCS](i requires 0 <= i < MAX_PROCS => slots[i]);
    assert t[..] == slots;
  }

  class Kernel {
    /** `PID`: the current process. */
    var pid: nat
    /** `MAX_PID`: the next process id. */
    var maxPid: nat
    /** `CODE_ADDR`: where the next code-and-stack region starts. */
    var codeAddr: nat
    /** `PROC_HEAP_ADDR`: where the next process heap region starts. */
    var procHeapAddr: nat
    /** `NO_SCHEDULE`: suppresses rescheduling. */
    var noSchedule: bool
    var mem: Mem
    /** `PROCESS_TABLE`. */
    const table: array<Process>
    const pages: PageTable
    /** The global kernel allocator `ALLOCATOR`. */
    const kernelHeap: LinkedListAllocator
    /** How many frames a frame allocator freshly built from the boot memory map hands out. */
    const frameSupply: nat
    /** The user segment selectors of the GDT. */
    const userCodeSelector: nat
    const userDataSelector: nat

    /**
     * Every record names a slot of the table as its id and its parent, no process
     * shares its heap allocator with another one or with the kernel, and the
     * process-heap cursor has not moved below its start.
     */
    ghost predicate Valid()
      reads this, table
    {
      && table.Length == MAX_PROCS
      && maxPid < USIZE_MODULUS
      && procHeapAddr >= PROC_HEAP_START
      && (forall i :: 0 <= i < MAX_PROCS ==>
            table[i].id < MAX_PROCS && table[i].parent < MAX_PROCS && table[i].allocator != kernelHeap)
      && (forall i, j :: 0 <= i < j < MAX_PROCS ==> table[i].allocator != table[j].allocator)
    }

    /** Valid, and `table[id()]` is in bounds. */
    ghost predicate Ready()
      reads this, table
    {
      Valid() && pid < MAX_PROCS
    }

    /** The boot state: every slot holds `Process::new(0)`, process 0 is current. */
    constructor (mapped: map<nat, PageFlags>, frameSupply: nat, userCodeSelector: nat, userDataSelector: nat)
      ensures Ready()
      ensures pid == 0 && maxPid == 1 && codeAddr == 0 && procHeapAddr == PROC_HEAP_START
      ensures !noSchedule && mem == map[]
      ensures fresh(table) && fresh(pages) && fresh(kernelHeap) && pages.mapped == mapped
      ensures kernelHeap.regions == [] && kernelHeap.freeSpace == 0
      ensures forall i :: 0 <= i < MAX_PROCS ==> table[i] == NewProcess(0, table[i].allocator)
      ensures forall i :: 0 <= i < MAX_PROCS ==> table[i].allocator.freeSpace == 0 && table[i].allocator.regions == []
      ensures this.frameSupply == frameSupply
      ensures this.userCodeSelector == userCodeSelector && this.userDataSelector == userDataSelector
    {
      var t := NewTable();
      pages := new PageTable(mapped);
      kernelHeap := new LinkedListAllocator();
      table := t;
      pid, maxPid, codeAddr, procHeapAddr := 0, 1, 0, PROC_HEAP_START;
      noSchedule := false;
      mem := map[];
      this.frameSupply := frameSupply;
      this.userCodeSelector := userCodeSelector;
      this.userDataSelector := userDataSelector;
    }

    // ----- accessors of the current process -----

    /** `table[id()]`. */
    function Current(): Process
      reads this, table
      requires Ready()
    {
      table[pid]
    }

    /** `env(key)`. */
    function Env(key: string): (v: Option<string>)
      reads this, table
      requires Ready()
      ensures v.Some? <==> key in Current().data.env
      ensures v.Some? ==> v.value == Current().data.env[key]
    {
      if key in Current().data.env then Some(Current().data.env[key]) else None
    }

    /** `envs()`. */
    function Envs(): map<string, string>
      reads this, table
      requires Ready()
    {
      Current().data.env
    }

    /** `dir()`. */
    function Dir(): string
      reads this, table
      requires Ready()
    {
      Current().data.dir
    }

    /** `user()`. */
    function User(): Option<string>
      reads this, table
      requires Ready()
    {
      Current().data.user
    }

    /** `code_addr()`. */
    function CodeAddr(): nat
      reads this, table
      requires Ready()
    {
      Current().codeAddr
    }

    /** `registers()`. */
    function SavedRegisters(): Registers
      reads this, table
      requires Ready()
    {
      Current().registers
    }

    /** `stack_frame()`. */
    function SavedStackFrame(): StackFrame
      reads this, table
      requires Ready()
    {
      Current().stackFrame
    }

    /** `heap_allocator()`. */
    function HeapAllocator(): LinkedListAllocator
      reads this, table
      requires Ready()
    {
      Current().allocator
    }

    /** `ptr_from_addr(addr)`. */
    function PtrFromAddr(addr: nat): (p: nat)
      reads this, table
      requires Ready()
      ensures CodeAddr() <= p
      ensures addr < CodeAddr() ==> p == CodeAddr() + addr
      ensures CodeAddr() <= addr ==> p == addr
    {
      Rebase(addr, CodeAddr())
    }

    /**
     * `set_id(id)`: stores any value.  When `id` is not a slot, `Ready()` no longer
     * holds, and the accessors and operations, which all require it, cannot be called.
     */
    method SetId(id: nat)
      requires Valid()
      modifies this`pid
      ensures Valid() && pid == id
    {
      pid := id;
    }

    /** `set_env(key, val)`. */
    method SetEnv(key: string, val: string)
      requires Ready()
      modifies table
      ensures Ready()
      ensures Env(key) == Some(val)
      ensures forall k :: k != key ==> Env(k) == old(Env(k))
      ensures Current() == old(Current()).(data := old(Current()).data.(env := Envs()))
      ensures forall i :: 0 <= i < MAX_PROCS && i != pid ==> table[i] == old(table[i])
    {
      var p := table[pid];
      table[pid] := p.(data := p.data.(env := p.data.env[key := val]));
    }

    /** `set_dir(dir)`. */
    method SetDir(dir: string)
      requires Ready()
      modifies table
      ensures Ready() && Dir() == dir
      ensures Current() == old(Current()).(data := old(Current()).data.(dir := dir))
      ensures forall i :: 0 <= i < MAX_PROCS && i != pid ==> table[i] == old(table[i])
    {
      var p := table[pid];
      table[pid] := p.(data := p.data.(dir := dir));
    }

    /** `set_user(user)`. */
    method SetUser(user: string)
      requires Ready()
      modifies table
      ensures Ready() && User() == Some(user)
      ensures Current() == old(Current()).(data := old(Current()).data.(user := Some(user)))
      ensures forall i :: 0 <= i < MAX_PROCS && i != pid ==> table[i] == old(table[i])
    {
      var p := table[pid];
      table[pid] := p.(data := p.data.(user := Some(user)));
    }

    /** `set_code_addr(addr)`. */
    method SetCodeAddr(addr: nat)
      requires Ready()
      modifies table
      ensures Ready() && CodeAddr() == addr
      ensures Current() == old(Current()).(codeAddr := addr)
      ensures forall i :: 0 <= i < MAX_PROCS && i != pid ==> table[i] == old(table[i])
    {
      table[pid] := table[pid].(codeAddr := addr);
    }

    /** `set_registers(regs)`. */
    method SetRegisters(regs: Registers)
      requires Ready()
      modifies table
      ensures Ready() && SavedRegisters() == regs
      ensures Current() == old(Current()).(registers := regs)
      ensures forall i :: 0 <= i < MAX_PROCS && i != pid ==> table[i] == old(table[i])
    {
      table[pid] := table[pid].(registers := regs);
    }

    /** `set_stack_frame(frame)`. */
    method SetStackFrame(frame: StackFrame)
      requires Ready()
      modifies table
      ensures Ready() && SavedStackFrame() == frame
      ensures Current() == old(Current()).(stackFrame := frame)
      ensures forall i :: 0 <= i < MAX_PROCS && i != pid ==> table[i] == old(table[i])
    {
      table[pid] := table[pid].(stackFrame := frame);
    }

    /** `init_process_addr(addr)`: where code-and-stack regions start. */
    method InitProcessAddr(addr: nat)
      modifies this`codeAddr
      ensures codeAddr == addr
    {
      codeAddr := addr;
    }

    // ----- raw memory -----

    /** Copy `bytes` to `addr` one byte at a time (`core::ptr::write` in a loop, `copy_from_slice`). */
    method WriteBytes(addr: nat, bytes: seq<Byte>)
      modifies this`mem
      ensures mem == Store(old(mem), addr, bytes)
    {
      ghost var before := mem;
      var i := 0;
      while i < |bytes|
        invariant 0 <= i <= |bytes|
        invariant mem == Store(before, addr, bytes[..i])
      {
        StoreNext(before, addr, bytes, i);
        mem := mem[addr + i := bytes[i]];
        i := i + 1;
      }
      assert bytes[..|bytes|] == bytes;
    }

    // ----- heap growth and exit -----

    /**
     * `allocator_grow(size)`: take `[PROC_HEAP_ADDR, PROC_HEAP_ADDR + size)`, map it,
     * and hand it to the current process's allocator; a mapping failure panics.
     */
    method AllocatorGrow(size: nat) returns (r: Outcome<()>)
      requires Ready()
      modifies this`procHeapAddr, pages, table[pid].allocator
      ensures Ready()
      ensures procHeapAddr == old(procHeapAddr) + size
      ensures var k := FailIndex(old(pages.mapped), PageOf(old(procHeapAddr)), PageCount(old(procHeapAddr), size), frameSupply);
        && pages.mapped == old(pages.mapped) + Run(PageOf(old(procHeapAddr)), k, USER_RW)
        && (r.Returns? <==> k == PageCount(old(procHeapAddr), size))
      ensures r.Returns? ==>
        && HeapAllocator().regions == old(HeapAllocator().regions) + [Region(old(procHeapAddr), size)]
        && HeapAllocator().freeSpace == old(HeapAllocator().freeSpace) + size
      ensures r.Panics? ==>
        HeapAllocator().regions == old(HeapAllocator().regions) && HeapAllocator().freeSpace == old(HeapAllocator().freeSpace)
    {
      var allocator := table[pid].allocator;
      var addr := procHeapAddr;
      procHeapAddr := procHeapAddr + size;
      var mapped := pages.AllocPages(addr, size, frameSupply);
      if mapped.Err? {
        return Panics("proc mem grow fail 1545");
      }
      allocator.Grow(addr, size);
      return Returns(());
    }

    /**
     * `exit()`: unmap the current process's code-and-stack region, decrement
     * `MAX_PID` (wrapping like `fetch_sub` on a `usize`) and make the parent current.
     * The table slot is left as it is.
     */
    method Exit()
      requires Ready()
      modifies this`pid, this`maxPid, pages
      ensures Ready()
      ensures pid == old(table[pid].parent)
      ensures maxPid == (old(maxPid) + USIZE_MODULUS - 1) % USIZE_MODULUS
      ensures pages.mapped == old(pages.mapped) - PageSet(PageOf(old(table[pid].codeAddr)), PageCount(old(table[pid].codeAddr), MAX_PROC_SIZE))
    {
      var proc := table[pid];
      pages.FreePages(proc.codeAddr, MAX_PROC_SIZE);
      maxPid := (maxPid + USIZE_MODULUS - 1) % USIZE_MODULUS;
      pid := proc.parent;
    }

    // ----- create -----

    /**
     * The loading part of `create` as written: check the header of `bin` and copy
     * the image into the region at `code`.  `parse` is the ELF parser.  Returns the
     * entry point, or `Err` for an unknown header.  Only the ELF branch maps the
     * region; the BIN branch writes to it unmapped.
     */
    method LoadImage(code: nat, bin: seq<Byte>, parse: seq<Byte> -> Option<ElfImage>) returns (r: Outcome<Result<nat, ()>>)
      modifies this`mem, pages
      ensures |bin| < 4 ==> r.Panics? && mem == old(mem) && pages.mapped == old(pages.mapped)
      ensures |bin| >= 4 && FormatOf(bin) == Unknown ==>
        r == Returns(Err(())) && mem == old(mem) && pages.mapped == old(pages.mapped)
      ensures |bin| >= 4 && FormatOf(bin) == Bin ==>
        r == Returns(Ok(0)) && mem == Store(old(mem), code, bin) && pages.mapped == old(pages.mapped)
      ensures |bin| >= 4 && FormatOf(bin) == Elf && parse(bin).None? ==>
        r == Returns(Ok(0)) && mem == old(mem) && pages.mapped == old(pages.mapped)
      ensures |bin| >= 4 && FormatOf(bin) == Elf && parse(bin).Some? ==>
        var k := FailIndex(old(pages.mapped), PageOf(code), PageCount(code, MAX_PROC_SIZE), frameSupply);
        && pages.mapped == old(pages.mapped) + Run(PageOf(code), k, USER_RW)
        && (k == PageCount(code, MAX_PROC_SIZE) ==>
              r == Returns(Ok(parse(bin).value.entry))
              && mem == StoreSegments(old(mem), code, parse(bin).value.segments))
        && (k < PageCount(code, MAX_PROC_SIZE) ==> r.Panics? && mem == old(mem))
    {
      if |bin| < 4 {
        return Panics("range end index 4 out of range");
      }
      if bin[..4] == ELF_MAGIC {
        var parsed := parse(bin);
        if parsed.Some? {
          var image := parsed.value;
          var mapped := pages.AllocPages(code, MAX_PROC_SIZE, frameSupply);
          if mapped.Err? {
            return Panics("proc mem alloc");
          }
          CopySegments(code, image.segments);
          return Returns(Ok(image.entry));
        }
        return Returns(Ok(0));
      } else if bin[..4] == BIN_MAGIC {
        WriteBytes(code, bin);
        return Returns(Ok(0));
      } else {
        return Returns(Err(()));
      }
    }

    /**
     * The loading part of `create` with the region mapped for a BIN image as it is
     * for an ELF image, before any byte is copied into it.
     */
    method LoadImageMapped(code: nat, bin: seq<Byte>, parse: seq<Byte> -> Option<ElfImage>) returns (r: Outcome<Result<nat, ()>>)
      modifies this`mem, pages
      ensures r.Returns? ==> |bin| >= 4
      ensures |bin| < 4 ==> r.Panics? && mem == old(mem) && pages.mapped == old(pages.mapped)
      ensures |bin| >= 4 && !LoadsIntoRegion(bin, parse) ==>
        r == Returns(if FormatOf(bin) == Unknown then Err(()) else Ok(0))
        && mem == old(mem) && pages.mapped == old(pages.mapped)
      ensures |bin| >= 4 && LoadsIntoRegion(bin, parse) ==>
        var k := FailIndex(old(pages.mapped), PageOf(code), PageCount(code, MAX_PROC_SIZE), frameSupply);
        && pages.mapped == old(pages.mapped) + Run(PageOf(code), k, USER_RW)
        && (k == PageCount(code, MAX_PROC_SIZE) ==>
              r == Returns(Ok(EntryOf(bin, parse))) && mem == LoadedMemory(old(mem), code, bin, parse))
        && (k < PageCount(code, MAX_PROC_SIZE) ==> r.Panics? && mem == old(mem))
      ensures r.Returns? && r.value.Ok? && LoadsIntoRegion(bin, parse) ==>
        forall a :: code <= a < code + MAX_PROC_SIZE ==> PageOf(a) in pages.mapped && pages.mapped[PageOf(a)] == USER_RW
    {
      if |bin| < 4 {
        return Panics("range end index 4 out of range");
      }
      if bin[..4] == ELF_MAGIC {
        var parsed := parse(bin);
        if parsed.None? {
          return Returns(Ok(0));
        }
        var mapped := pages.AllocPages(code, MAX_PROC_SIZE, frameSupply);
        if mapped.Err? {
          return Panics("proc mem alloc");
        }
        AllocatedRangeIsMapped(old(pages.mapped), code, MAX_PROC_SIZE, frameSupply);
        CopySegments(code, parsed.value.segments);
        return Returns(Ok(parsed.value.entry));
      } else if bin[..4] == BIN_MAGIC {
        var mapped := pages.AllocPages(code, MAX_PROC_SIZE, frameSupply);
        if mapped.Err? {
          return Panics("proc mem alloc");
        }
        AllocatedRangeIsMapped(old(pages.mapped), code, MAX_PROC_SIZE, frameSupply);
        WriteBytes(code, bin);
        return Returns(Ok(0));
      } else {
        return Returns(Err(()));
      }
    }

    /** The segment loop of `create`: copy each segment that has data to `code + address`. */
    method CopySegments(code: nat, segments: seq<Segment>)
      modifies this`mem
      ensures mem == StoreSegments(old(mem), code, segments)
    {
      var j := 0;
      while j < |segments|
        invariant 0 <= j <= |segments|
        invariant mem == StoreSegments(old(mem), code, segments[..j])
      {
        assert segments[..j + 1][..j] == segments[..j];
        if segments[j].data.Some? {
          WriteBytes(code + segments[j].address, segments[j].data.value);
        }
        j := j + 1;
      }
      assert segments[..j] == segments;
    }

    /** The heap part of `create`: a `DEFAULT_HEAP_SIZE` region, mapped, given to a new allocator. */
    method NewHeap() returns (r: Outcome<LinkedListAllocator>)
      requires Valid()
      modifies this`procHeapAddr, pages
      ensures Valid()
      ensures procHeapAddr == old(procHeapAddr) + DEFAULT_HEAP_SIZE
      ensures var k := FailIndex(old(pages.mapped), PageOf(old(procHeapAddr)), PageCount(old(procHeapAddr), DEFAULT_HEAP_SIZE), frameSupply);
        && pages.mapped == old(pages.mapped) + Run(PageOf(old(procHeapAddr)), k, USER_RW)
        && (r.Returns? <==> k == PageCount(old(procHeapAddr), DEFAULT_HEAP_SIZE))
      ensures r.Returns? ==>
        && fresh(r.value)
        && r.value.regions == [Region(old(procHeapAddr), DEFAULT_HEAP_SIZE)]
        && r.value.freeSpace == DEFAULT_HEAP_SIZE
    {
      var allocator := new LinkedListAllocator();
      var heapAddr := procHeapAddr;
      procHeapAddr := procHeapAddr + DEFAULT_HEAP_SIZE;
      var mapped := pages.AllocPages(heapAddr, DEFAULT_HEAP_SIZE, frameSupply);
      if mapped.Err? {
        return Panics("proc heap mem alloc failed");
      }
      allocator.Init(heapAddr, DEFAULT_HEAP_SIZE);
      return Returns(allocator);
    }

    /**
     * `Process::create(bin)`: take the next code-and-stack region, load the image,
     * copy the parent's environment, directory, user, registers and stack frame,
     * give the process its own heap, and store it at `table[MAX_PID]`.
     */
    method Create(bin: seq<Byte>, parse: seq<Byte> -> Option<ElfImage>) returns (r: Outcome<Result<nat, ()>>)
      requires Ready()
      modifies this`codeAddr, this`maxPid, this`procHeapAddr, this`mem, pages, table
      ensures Ready()
      ensures codeAddr == old(codeAddr) + MAX_PROC_SIZE
      ensures pid == old(pid) && noSchedule == old(noSchedule)
      ensures r.Returns? ==> |bin| >= 4
      ensures r == Returns(Err(())) <==> |bin| >= 4 && FormatOf(bin) == Unknown
      ensures r == Returns(Err(())) ==>
        && table[..] == old(table[..]) && maxPid == old(maxPid) && procHeapAddr == old(procHeapAddr)
        && mem == old(mem) && pages.mapped == old(pages.mapped)
      ensures r.Returns? && r.value.Ok? <==>
        |bin| >= 4 && FormatOf(bin) != Unknown
        && CreateCompletes(old(pages.mapped), frameSupply, old(codeAddr), old(procHeapAddr), old(maxPid), bin, parse)
      ensures r.Returns? && r.value.Ok? ==> r.value.value == old(maxPid) < MAX_PROCS && maxPid == old(maxPid) + 1
      ensures r.Returns? && r.value.Ok? ==>
        var id := r.value.value;
        var parent := old(table[pid]);
        var heap := table[id].allocator;
        && table[id] == Process(id, old(codeAddr), old(codeAddr) + MAX_PROC_SIZE - PAGE_SIZE, EntryOf(bin, parse),
                                parent.stackFrame, parent.registers, parent.data, parent.id, heap)
        && (forall j :: 0 <= j < MAX_PROCS && j != id ==> table[j] == old(table[j]))
        && procHeapAddr == old(procHeapAddr) + DEFAULT_HEAP_SIZE
        && fresh(heap) && heap.regions == [Region(old(procHeapAddr), DEFAULT_HEAP_SIZE)]
        && heap.freeSpace == DEFAULT_HEAP_SIZE
        && mem == LoadedMemory(old(mem), old(codeAddr), bin, parse)
        && pages.mapped == old(pages.mapped) + CodeRun(old(codeAddr), bin, parse)
                           + Run(PageOf(old(procHeapAddr)), PageCount(old(procHeapAddr), DEFAULT_HEAP_SIZE), USER_RW)
    {
      var code := codeAddr;
      ghost var before, mappedBefore := mem, pages.mapped;
      codeAddr := codeAddr + MAX_PROC_SIZE;
      var loaded := LoadImageMapped(code, bin, parse);
      if loaded.Panics? {
        assert !(|bin| >= 4 && FormatOf(bin) == Unknown);
        return Panics(loaded.message);
      }
      if loaded.value.Err? {
        assert |bin| >= 4 && FormatOf(bin) == Unknown;
        assert mem == before && pages.mapped == mappedBefore;
        return Returns(Err(()));
      }
      assert FormatOf(bin) != Unknown;
      assert loaded.value.value == EntryOf(bin, parse);
      assert mem == LoadedMemory(before, code, bin, parse);
      assert pages.mapped == mappedBefore + CodeRun(code, bin, parse);
      HeapWalkPastCode(mappedBefore, frameSupply, code, procHeapAddr, bin, parse);
      var installed := Install(code, loaded.value.value);
      if installed.Panics? {
        return Panics(installed.message);
      }
      return Returns(Ok(installed.value));
    }

    /**
     * The second half of `create`: a heap for the new process, the next id from
     * `MAX_PID`, and the record — inheriting the current process's data, registers
     * and stack frame — stored in the table under that id.
     */
    method Install(code: nat, entry: nat) returns (r: Outcome<nat>)
      requires Ready()
      modifies this`maxPid, this`procHeapAddr, pages, table
      ensures Ready()
      ensures procHeapAddr == old(procHeapAddr) + DEFAULT_HEAP_SIZE
      ensures var k := FailIndex(old(pages.mapped), PageOf(old(procHeapAddr)), PageCount(old(procHeapAddr), DEFAULT_HEAP_SIZE), frameSupply);
        && pages.mapped == old(pages.mapped) + Run(PageOf(old(procHeapAddr)), k, USER_RW)
        && (r.Returns? <==> k == PageCount(old(procHeapAddr), DEFAULT_HEAP_SIZE) && old(maxPid) < MAX_PROCS)
      ensures r.Returns? ==> r.value == old(maxPid) < MAX_PROCS && maxPid == old(maxPid) + 1
      ensures r.Returns? ==>
        var id := r.value;
        var parent := old(table[pid]);
        var heap := table[id].allocator;
        && table[id] == Process(id, code, code + MAX_PROC_SIZE - PAGE_SIZE, entry,
                                parent.stackFrame, parent.registers, parent.data, parent.id, heap)
        && (forall j :: 0 <= j < MAX_PROCS && j != id ==> table[j] == old(table[j]))
        && fresh(heap) && heap.regions == [Region(old(procHeapAddr), DEFAULT_HEAP_SIZE)]
        && heap.freeSpace == DEFAULT_HEAP_SIZE
    {
      var parent := table[pid];
      var heap := NewHeap();
      if heap.Panics? {
        return Panics(heap.message);
      }
      var id := maxPid;
      maxPid := (maxPid + 1) % USIZE_MODULUS;
      if id >= MAX_PROCS {
        return Panics("index out of bounds");
      }
      table[id] := Process(id, code, code + MAX_PROC_SIZE - PAGE_SIZE, entry,
                           parent.stackFrame, parent.registers, parent.data, parent.id, heap.value);
      return Returns(id);
    }

    // ----- exec and spawn -----

    /**
     * `exec(args_ptr, args_len)` on a copy `proc` of a table record: read the caller's
     * `&str` array at `ptr_from_addr(args_ptr)`, copy the strings back to back into a
     * 1024-byte block of the new heap (`placement` is where that block's allocator puts
     * it), put an array of `&str` to the copies at the next multiple of 8 past them,
     * make `proc` current, and go to user mode at `code_addr + entry_point`.
     */
    method Exec(proc: Process, argsPtr: nat, argsLen: nat, placement: Option<nat>) returns (context: UserContext)
      requires Ready() && proc.id < MAX_PROCS
      requires placement.Some? ==> ARGS_AREA_SIZE <= proc.allocator.freeSpace
      modifies this`mem, this`pid, proc.allocator
      ensures Ready() && pid == proc.id
      ensures mem == ExecMemory(old(mem), old(PtrFromAddr(argsPtr)), argsLen, ArgsBase(placement))
      ensures context == UserContext(userDataSelector, proc.stackAddr, RFLAGS_IF, userCodeSelector, proc.codeAddr + proc.entryPoint,
                                     ExecArgsAddr(old(mem), old(PtrFromAddr(argsPtr)), argsLen, ArgsBase(placement)), argsLen)
      ensures proc.allocator.freeSpace == old(proc.allocator.freeSpace) - (if placement.Some? then ARGS_AREA_SIZE else 0)
      ensures proc.allocator.regions == old(proc.allocator.regions)
    {
      ghost var before := mem;
      var src := PtrFromAddr(argsPtr);
      var args := ReadArgs(mem, src, argsLen);
      context := Launch(proc, args, placement);
      ExecLayout(before, src, argsLen, placement, args);
    }

    /**
     * `exec` once the arguments are read: copy them and their array of `&str` into
     * the new heap, make `proc` current and build the frame for `iretq`.
     */
    method Launch(proc: Process, args: seq<seq<Byte>>, placement: Option<nat>) returns (context: UserContext)
      requires Ready() && proc.id < MAX_PROCS
      requires placement.Some? ==> ARGS_AREA_SIZE <= proc.allocator.freeSpace
      modifies this`mem, this`pid, proc.allocator
      ensures Ready() && pid == proc.id
      ensures var base := if placement.Some? then placement.value else 0;
        var at := ArgsArrayAddr(base + |Concat(args)|);
        && mem == Store(Store(old(mem), base, Concat(args)), at, EncodeStrRefs(StrRefs(args, base)))
        && context == UserContext(userDataSelector, proc.stackAddr, RFLAGS_IF, userCodeSelector,
                                  proc.codeAddr + proc.entryPoint, at, |args|)
      ensures proc.allocator.freeSpace == old(proc.allocator.freeSpace) - (if placement.Some? then ARGS_AREA_SIZE else 0)
      ensures proc.allocator.regions == old(proc.allocator.regions)
    {
      var base := proc.allocator.Alloc(ARGS_AREA_SIZE, 1, placement);
      var end, refs := CopyArgs(args, base);
      var at := ArgsArrayAddr(end);
      WriteBytes(at, EncodeStrRefs(refs));
      pid := proc.id;
      context := UserContext(userDataSelector, proc.stackAddr, RFLAGS_IF, userCodeSelector,
                             proc.codeAddr + proc.entryPoint, at, |args|);
    }

    /**
     * The copying loop of `exec`: each argument right after the previous one from
     * `base` on, collecting a `&str` for each copy.
     */
    method CopyArgs(args: seq<seq<Byte>>, base: nat) returns (end: nat, refs: seq<StrRef>)
      modifies this`mem
      ensures end == base + |Concat(args)|
      ensures refs == StrRefs(args, base)
      ensures mem == Store(old(mem), base, Concat(args))
    {
      ghost var before := mem;
      ghost var copied: seq<Byte> := [];
      end, refs := base, [];
      var i := 0;
      while i < |args|
        invariant 0 <= i <= |args|
        invariant copied == Concat(args[..i])
        invariant end == base + |copied|
        invariant refs == StrRefs(args[..i], base)
        invariant mem == Store(before, base, copied)
      {
        ConcatSnoc(args, i);
        StrRefsSnoc(args, base, i);
        StoreAdjacent(before, base, copied, args[i]);
        refs := refs + [StrRef(end, |args[i]|)];
        WriteBytes(end, args[i]);
        copied := copied + args[i];
        end := end + |args[i]|;
        i := i + 1;
      }
      assert args[..i] == args;
    }

    /**
     * `Process::spawn(bin, args_ptr, args_len)`: create the process and exec it;
     * a creation error becomes `ExecError`.
     */
    method Spawn(bin: seq<Byte>, argsPtr: nat, argsLen: nat, parse: seq<Byte> -> Option<ElfImage>, placement: Option<nat>)
      returns (r: Outcome<Transfer<Result<(), ExitCode>>>)
      requires Ready()
      modifies this`codeAddr, this`maxPid, this`procHeapAddr, this`mem, this`pid, pages, table
      ensures Ready()
      ensures r == Returns(Return(Err(ExecError))) <==> |bin| >= 4 && FormatOf(bin) == Unknown
      ensures r.Returns? ==> r.value.EnterUser? || r.value == Return(Err(ExecError))
      ensures r == Returns(Return(Err(ExecError))) ==>
        && codeAddr == old(codeAddr) + MAX_PROC_SIZE && pid == old(pid) && noSchedule == old(noSchedule)
        && table[..] == old(table[..]) && maxPid == old(maxPid) && procHeapAddr == old(procHeapAddr)
        && mem == old(mem) && pages.mapped == old(pages.mapped)
      ensures r.Returns? && r.value.EnterUser? <==>
        |bin| >= 4 && FormatOf(bin) != Unknown
        && CreateCompletes(old(pages.mapped), frameSupply, old(codeAddr), old(procHeapAddr), old(maxPid), bin, parse)
      ensures r.Returns? && r.value.EnterUser? ==>
        |bin| >= 4 && pid == old(maxPid) && maxPid == old(maxPid) + 1
      ensures r.Returns? && r.value.EnterUser? ==>
        var caller := old(table[pid]);
        var heap := table[pid].allocator;
        && table[pid] == Process(pid, old(codeAddr), old(codeAddr) + MAX_PROC_SIZE - PAGE_SIZE, EntryOf(bin, parse),
                                 caller.stackFrame, caller.registers, caller.data, caller.id, heap)
        && (forall j :: 0 <= j < MAX_PROCS && j != pid ==> table[j] == old(table[j]))
        && codeAddr == old(codeAddr) + MAX_PROC_SIZE && procHeapAddr == old(procHeapAddr) + DEFAULT_HEAP_SIZE
        && noSchedule == old(noSchedule)
        && fresh(heap) && heap.regions == [Region(old(procHeapAddr), DEFAULT_HEAP_SIZE)]
        && heap.freeSpace == DEFAULT_HEAP_SIZE - (if placement.Some? then ARGS_AREA_SIZE else 0)
        && pages.mapped == old(pages.mapped) + CodeRun(old(codeAddr), bin, parse)
                           + Run(PageOf(old(procHeapAddr)), PageCount(old(procHeapAddr), DEFAULT_HEAP_SIZE), USER_RW)
      ensures r.Returns? && r.value.EnterUser? ==>
        var loaded := LoadedMemory(old(mem), old(codeAddr), bin, parse);
        var src := Rebase(argsPtr, table[old(pid)].codeAddr);
        && mem == ExecMemory(loaded, src, argsLen, ArgsBase(placement))
        && r.value.context == UserContext(userDataSelector, old(codeAddr) + MAX_PROC_SIZE - PAGE_SIZE, RFLAGS_IF, userCodeSelector,
                                          old(codeAddr) + EntryOf(bin, parse), ExecArgsAddr(loaded, src, argsLen, ArgsBase(placement)), argsLen)
    {
      ghost var caller, code, memBefore, mappedBefore := table[pid], codeAddr, mem, pages.mapped;
      ghost var completes := |bin| >= 4 && FormatOf(bin) != Unknown
        && CreateCompletes(pages.mapped, frameSupply, codeAddr, procHeapAddr, maxPid, bin, parse);
      var created := Create(bin, parse);
      assert created.Returns? && created.value.Ok? <==> completes;
      if created.Panics? {
        assert !(|bin| >= 4 && FormatOf(bin) == Unknown);
        return Panics(created.message);
      }
      if created.value.Err? {
        assert created.value.error == ();
        assert created == Returns(Err(()));
        return Returns(Return(Err(ExecError)));
      }
      assert |bin| >= 4 && FormatOf(bin) != Unknown;
      assert completes;
      var id := created.value.value;
      var proc := table[id];
      ghost var loaded, callerBase, slots := mem, PtrFromAddr(argsPtr), table[..];
      assert loaded == LoadedMemory(memBefore, code, bin, parse);
      assert callerBase == Rebase(argsPtr, slots[old(pid)].codeAddr);
      assert proc == Process(id, code, code + MAX_PROC_SIZE - PAGE_SIZE, EntryOf(bin, parse),
                             caller.stackFrame, caller.registers, caller.data, caller.id, proc.allocator);
      var context := Exec(proc, argsPtr, argsLen, placement);
      assert table[..] == slots && pid == id;
      assert mem == ExecMemory(loaded, callerBase, argsLen, ArgsBase(placement));
      return Returns(EnterUser(context));
    }
  }
}
