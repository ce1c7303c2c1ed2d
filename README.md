# Process management of TJU-cinea-os, modelled in Dafny

TJU-cinea-os is a small x86_64 kernel written in Rust. This project models its
process-management core and proves properties about that model. The core is:

- `src/syskrnl/proc.rs`: the process table and the lifecycle.
  - The table is a fixed array of `MAX_PROCS = 4` records.
  - `PID` is the current-process register.
  - Three bump counters feed it: `MAX_PID`, `CODE_ADDR` and `PROC_HEAP_ADDR`.
  - The operations are `create`, `exec`, `spawn` and `exit`.
  - It also has the current-process accessors and `ptr_from_addr`.
- `src/syskrnl/allocator/mod.rs`: `align_up`, the page-range boundary of
  `alloc_pages` / `free_pages`, and `init_heap`.
- `src/syskrnl/syscall/service.rs`: the kernel side of these system calls:
  - `exit`, `spawn` and `log`;
  - the per-process heap calls `alloc` and `free`;
  - the scheduler switches `stop_schedule` and `restart_schedule`.

The modules follow the source:

| module | file | what it holds |
|---|---|---|
| `Common` | `common.dfy` | `Option`, Rust's `Result`, and `Outcome`. `Outcome` is either a returned value or a kernel panic (a failed `expect`, an index out of range). |
| `Memory` | `memory.dfy` | Byte memory as seen through raw pointers, plus the little-endian layout of a `usize`. |
| `LinkedList` | `linked_list.dfy` | The free-list allocator, seen from outside. It tracks its free space and the regions it was given. |
| `Allocator` | `allocator.dfy` | `align_up`. The page table is a map from page number to flags. It is fed by a count of available frames. |
| `Utf8` | `utf8.dfy` | Well-formed UTF-8 as in section 4 of RFC 3629 (the `log` status). |
| `ExecArgs` | `exec_args.dfy` | The argument area that `exec` lays out in a new heap, and how the new process reads it back. |
| `Proc` | `proc.dfy` | The class `Kernel`. Its fields are the kernel globals of `proc.rs` (`PID`, `MAX_PID`, `CODE_ADDR`, `PROC_HEAP_ADDR`), the scheduler flag `NO_SCHEDULE` of `syskrnl::interrupts` (set and cleared by `service.rs`), the table (an `array<Process>`), byte memory, the page table and the kernel allocator. |
| `HeapInit` | `heap_init.dfy` | `init_heap`. |
| `Service` | `service.dfy` | The system-call services. |

How the model treats the source's behaviour:

- **Mutation.** Operations that mutate globals are methods on `Kernel` with
  `modifies` clauses. Loops (the page walks, the byte copies, the argument copy)
  are `while` loops with invariants.
- **Pure code.** Pure computations are functions, with lemmas about them.
- **Panics.** A panic is the result `Panics(message)` (a failed `expect`, `bin[0..4]` on a short image, `table[id]` in `create` past the table). The one exception is the `table[id()]` lookup of the current process: every accessor and operation requires `Ready()`, which includes `PID < MAX_PROCS` (see "## Left out").
- **Outside inputs.** The ELF parser, the embedded program images, the number of
  frames the frame allocator can hand out, and the block the free-list search
  picks are all parameters.

The getters `envs`, `dir`, `user`, `code_addr`, `registers`, `stack_frame` and
`heap_allocator` are the functions `Kernel.Envs`, `Dir`, `User`, `CodeAddr`,
`SavedRegisters`, `SavedStackFrame` and `HeapAllocator`. Each reads
`table[pid]`, and the contracts below state properties in terms of them.

## Model

| member | source | states |
|---|---|---|
| Allocator.AlignUp | src/syskrnl/allocator/mod.rs:33-35 | `align_up(addr, align)` for a power-of-two `align` is a multiple of `align`, at least `addr` and below `addr + align` |
| Allocator.ClearLowBitsRoundsDown | src/syskrnl/allocator/mod.rs:34 | masking with `!(align - 1)` rounds down to a multiple of `align`: `x & !(align-1) == x - x % align` |
| Allocator.AlignUpIsLeast | src/syskrnl/allocator/mod.rs:33-35 | no multiple of `align` lies between `addr` and `align_up(addr, align)` |
| Allocator.AlignUpOfAligned | src/syskrnl/allocator/mod.rs:33-35 | an already aligned address is returned unchanged |
| Allocator.AlignUpIdempotent | src/syskrnl/allocator/mod.rs:33-35 | aligning twice equals aligning once |
| Allocator.PageCount | src/syskrnl/allocator/mod.rs:110-114 | a non-empty range covers at least one page |
| Allocator.PageRangeIsExact | src/syskrnl/allocator/mod.rs:92-96 | for `size >= 1` the pages `addr/4096 ..= (addr+size-1)/4096` are exactly the pages holding a byte of `[addr, addr+size)` |
| Allocator.FailIndex | src/syskrnl/allocator/mod.rs:115-131 | the number of pages mapped before the walk stops: no more than the page count or the frames, all of them unmapped before, and a stop short of the end happens at a missing frame or an already mapped page |
| Allocator.FailIndexFull | src/syskrnl/allocator/mod.rs:115-133 | the walk maps the whole range exactly when there are enough frames and none of its pages is mapped yet |
| Allocator.FailIndexPastRun | src/syskrnl/allocator/mod.rs:115-133 | after a run of pages was mapped, a walk maps its whole range exactly when it would have before and its range shares no page with the run |
| Allocator.FailIndexIs | src/syskrnl/allocator/mod.rs:115-131 | the walk stops at `j` when the pages before `j` were unmapped and `j` is the end, the last frame, or a mapped page |
| Allocator.StopReason | src/syskrnl/allocator/mod.rs:115-131 | the reported failure (none, no frame, map refused) matches where the walk stopped |
| Allocator.ExtendRun | src/syskrnl/allocator/mod.rs:120-122 | mapping the next page extends the run of pages mapped so far by one |
| Allocator.PageTable.MapRange | src/syskrnl/allocator/mod.rs:115-131 | pages are mapped in ascending order until the first missing frame or refused `map_to`; what was mapped before the failure stays mapped (no rollback); the failure kind is reported |
| Allocator.PageTable.AllocPages | src/syskrnl/allocator/mod.rs:106-134 | `Ok` exactly when every page of the range was mapped, all PRESENT, WRITABLE and USER_ACCESSIBLE; on `Err` only the pages before the failing one are added |
| Allocator.PageTable.FreePages | src/syskrnl/allocator/mod.rs:90-104 | never fails: every page of the range is unmapped afterwards and no other mapping changes; unmapped pages are skipped |
| Allocator.AllocatedRangeIsMapped | src/syskrnl/allocator/mod.rs:106-134 | when the walk of `alloc_pages(addr, size)` mapped every page (the `Ok` case of `AllocPages`), every byte of `[addr, addr + size)` lies on a page of the resulting table mapped PRESENT, WRITABLE and USER_ACCESSIBLE |
| Allocator.FreeUndoesAlloc | src/syskrnl/allocator/mod.rs:90-134 | `free_pages` over the range of a successful `alloc_pages` gives back the page table as it was before |
| LinkedList.LinkedListAllocator.constructor | src/syskrnl/proc.rs:329 | a new allocator has no free space and no regions |
| LinkedList.LinkedListAllocator.Init | src/syskrnl/proc.rs:332 | `init(start, size)` on a fresh allocator gives it the one region and `size` bytes of free space |
| LinkedList.LinkedListAllocator.Grow | src/syskrnl/proc.rs:240 | `grow(addr, size)` appends the region and adds exactly `size` to the free space |
| LinkedList.LinkedListAllocator.Alloc | src/syskrnl/syscall/service.rs:62 | a found block is returned and its size leaves the free space; with no block found the result is null and nothing changes |
| LinkedList.LinkedListAllocator.Dealloc | src/syskrnl/syscall/service.rs:67-70 | the freed block's size returns to the free space |
| Proc.Rebase | src/syskrnl/proc.rs:190-197 | an address below the code base is taken as an offset from it, any other address is kept; the result is never below the base |
| Proc.RebaseIdempotent | src/syskrnl/proc.rs:190-197 | a translated address is not translated again |
| Proc.Kernel.PtrFromAddr | src/syskrnl/proc.rs:190-197 | `ptr_from_addr(x)` is `code_addr() + x` when `x < code_addr()` and `x` otherwise |
| Proc.FormatOf | src/syskrnl/proc.rs:288-315 | an image is ELF exactly when its first four bytes are `7F 'E' 'L' 'F'` and BIN exactly when they are `7F 'B' 'I' 'N'` |
| Proc.NewTable | src/syskrnl/proc.rs:34-38 | the boot table has `MAX_PROCS` slots of `Process::new(0)`, each with its own fresh allocator, which is empty (`LinkedListAllocator::new()`: no free space, no regions) |
| Proc.Kernel.constructor | src/syskrnl/proc.rs:22-38 | the boot state: `PID = 0`, `MAX_PID = 1`, `CODE_ADDR = 0`, `PROC_HEAP_ADDR = 0x2_0000_0000`, every slot `Process::new(0)` with an empty allocator of its own; the kernel allocator is empty; the table invariant holds |
| Proc.Kernel.Env | src/syskrnl/proc.rs:127-131 | `env(key)` is `Some` exactly when the current process's environment holds `key`, and then holds its value |
| Proc.Kernel.SetId | src/syskrnl/proc.rs:122-124 | `set_id` stores any value in `PID` and nothing else changes |
| Proc.Kernel.SetEnv | src/syskrnl/proc.rs:155-159 | afterwards `env(key) == Some(val)` and every other key reads as before; only the current slot changes |
| Proc.Kernel.SetDir | src/syskrnl/proc.rs:162-166 | only the current process's directory changes |
| Proc.Kernel.SetUser | src/syskrnl/proc.rs:169-173 | only the current process's user changes, to `Some(user)` |
| Proc.Kernel.SetCodeAddr | src/syskrnl/proc.rs:183-187 | only the current process's code address changes |
| Proc.Kernel.SetRegisters | src/syskrnl/proc.rs:207-211 | only the current process's saved registers change |
| Proc.Kernel.SetStackFrame | src/syskrnl/proc.rs:221-225 | only the current process's saved stack frame changes |
| Proc.Kernel.InitProcessAddr | src/syskrnl/proc.rs:259-261 | `CODE_ADDR` becomes the given address |
| Proc.Kernel.WriteBytes | src/syskrnl/proc.rs:308-312 | copying byte by byte leaves memory equal to the old memory with the bytes stored from `addr` on |
| Proc.Kernel.AllocatorGrow | src/syskrnl/proc.rs:235-241 | `PROC_HEAP_ADDR` advances by exactly `size`; `[old, old+size)` is mapped; on success the current allocator gains that region and `size` bytes of free space; a mapping failure panics |
| Proc.Kernel.Exit | src/syskrnl/proc.rs:244-250 | the code-and-stack region's pages are unmapped, `MAX_PID` goes down by exactly 1 (wrapping as `usize`), the parent becomes current, and the table is unchanged |
| Proc.Kernel.LoadImage | src/syskrnl/proc.rs:286-315 | the loader as written: fewer than 4 bytes panic; an unknown header is `Err` with memory and pages untouched; BIN writes `bin[i]` at `code_addr + i` with entry point 0 and maps nothing; ELF maps the region, copies the segments and returns the parser's entry |
| Proc.Kernel.LoadImageMapped | src/syskrnl/proc.rs:286-315 | the loader with the BIN branch corrected (see "## Findings"): BIN and accepted ELF images both map the region first, and a mapping failure panics; on success every byte of `[code_addr, code_addr + MAX_PROC_SIZE)` lies on a page mapped user-accessible and writable; otherwise the same cases as `LoadImage` |
| Proc.Kernel.CopySegments | src/syskrnl/proc.rs:293-305 | the segment loop leaves exactly the memory `StoreSegments` describes |
| Proc.Kernel.NewHeap | src/syskrnl/proc.rs:329-333 | takes `0x4000` bytes at the old `PROC_HEAP_ADDR`, maps them, and returns a fresh allocator over exactly that region |
| Proc.Kernel.Create | src/syskrnl/proc.rs:278-352 | `CODE_ADDR` advances by `MAX_PROC_SIZE` in every case, including `Err`. `Err` happens exactly for an unknown header, and then the table, `MAX_PID`, `PROC_HEAP_ADDR`, memory and pages are unchanged. `Ok` happens exactly for a known header when `CreateCompletes` holds of the state before the call: the code-and-stack region (BIN or accepted ELF) can be mapped completely, the heap region can be mapped completely and does not overlap the code-and-stack region, and the old `MAX_PID` is below `MAX_PROCS`. Every other call panics: `bin[0..4]` on a short image, one of the two `expect`s, or `table[id]`. On success, the id is the old `MAX_PID` (below `MAX_PROCS`) and `MAX_PID` grows by 1. The new record takes `code_addr`, `stack_addr = code_addr + MAX_PROC_SIZE - 4096` and the entry point of the image. It inherits the current process's data, registers and stack frame, its parent is the current record's `id` field, and it gets a fresh heap over `[PROC_HEAP_ADDR, +0x4000)`. Only `table[id]` changes. Memory holds the image copied at `code_addr`. The page table gains exactly the code-and-stack region (for a BIN or accepted ELF image, BIN as corrected in "## Findings") and the heap region, and every earlier mapping stays. |
| Proc.HeapWalkPastCode | src/syskrnl/proc.rs:288-331 | the heap walk of `create` comes after the code-and-stack region is mapped; it maps the whole heap region exactly when it would over the earlier page table and, for a BIN or accepted ELF image, the heap pages do not overlap the code-and-stack pages |
| Proc.Kernel.Install | src/syskrnl/proc.rs:317-351 | returns exactly when the heap walk maps the whole `0x4000`-byte region and the old `MAX_PID` is below `MAX_PROCS`, and panics otherwise. Either way the page table gains the pages the walk mapped. On return, the record, built from the parent's data and a new heap, is stored at `table[old MAX_PID]` and no other slot changes |
| Proc.Kernel.Exec | src/syskrnl/proc.rs:355-407 | the strings are read through `ptr_from_addr(args_ptr)`. They are copied back to back into the 1024-byte block, and their array of `&str` is written at the next multiple of 8 strictly past them (`ExecMemory`, `ExecArgsAddr`). `PID` becomes the process's id. The `iretq` frame carries the user selectors, `stack_addr`, `RFLAGS = 0x200`, `code_addr + entry_point`, the array address and `args_len` |
| Proc.ExecArgsReadBack | src/syskrnl/proc.rs:355-407 | reading `args_len` strings through the array address `exec` passes in `rdi`, over the memory `exec` leaves, gives back the strings it read through the caller's array, when the copies end below 2^64 |
| Proc.Kernel.Launch | src/syskrnl/proc.rs:366-407 | the same layout and frame, for arguments already read |
| Proc.Kernel.CopyArgs | src/syskrnl/proc.rs:366-376 | the copy loop leaves the concatenated arguments at the block and returns one `&str` per argument, each pointing at its copy |
| Proc.Kernel.Spawn | src/syskrnl/proc.rs:265-276 | `Err(ExecError)` exactly for an unknown header, and then only `CODE_ADDR` has changed, by `MAX_PROC_SIZE`. Control enters user mode exactly when `create` returns `Ok`, that is for a known header when `CreateCompletes` holds of the state before the call; every other call panics. It enters as the new process with id the old `MAX_PID`: its record is the one `create` built (parent the caller record's `id` field, inherited data, registers and stack frame, a fresh heap that has given 1024 bytes to the argument block when a block was found), the other slots are unchanged, the page table gains the code and heap regions, memory is the image and then the argument area `exec` writes, with the arguments read through the caller's `ptr_from_addr(args_ptr)`, and the `iretq` frame is `exec`'s |
| ExecArgs.ConcatAppend | src/syskrnl/proc.rs:367-376 | the copies of two runs of arguments are the copies of the first followed by the second |
| ExecArgs.ConcatSnoc | src/syskrnl/proc.rs:367-376 | copying one more argument appends exactly its bytes |
| ExecArgs.StrRefs | src/syskrnl/proc.rs:367-376 | one `&str` per argument |
| ExecArgs.StrRefsAppend | src/syskrnl/proc.rs:367-376 | the `&str` values of two runs of copies, the second starting right after the first |
| ExecArgs.StrRefsSnoc | src/syskrnl/proc.rs:367-376 | the next `&str` starts where the previous copies end |
| ExecArgs.EncodeStrRefs | src/syskrnl/proc.rs:379-385 | an array of `&str` takes 16 bytes per element |
| ExecArgs.DecodeStrRefs | src/syskrnl/proc.rs:360-362 | reading `n` `&str` values yields `n` of them |
| ExecArgs.StrRefsRoundTrip | src/syskrnl/proc.rs:379-385 | an array of `&str` whose words fit in a `usize` reads back as written |
| ExecArgs.ArgsArrayAddr | src/syskrnl/proc.rs:377-378 | `addr += 8 - addr % 8` gives a multiple of 8 strictly past the strings and at most 8 bytes past them |
| ExecArgs.ReadArgs | src/syskrnl/proc.rs:359-362 | reading `n` strings through an array of `&str` gives `n` strings |
| ExecArgs.ReadArgsFrom | src/syskrnl/proc.rs:359-362 | strings whose array decodes to `refs`, with each `&str` pointing at its bytes, are what is read |
| ExecArgs.LoadBelowStore | src/syskrnl/proc.rs:377-385 | writing the array past the strings does not disturb them |
| ExecArgs.ReadArgsAfterStores | src/syskrnl/proc.rs:359-385 | once the strings and then the array past them are written, reading `|args|` strings through the array gives back `args`, whatever memory held before |
| ExecArgs.SliceAfterPrefix | src/syskrnl/proc.rs:367-376 | a slice of the later copies is found shifted by the length of the earlier ones |
| ExecArgs.LocatesAfterFirst | src/syskrnl/proc.rs:367-376 | a `&str` to a later copy also points into all the copies |
| ExecArgs.StrRefsLocate | src/syskrnl/proc.rs:367-376 | each `&str` built in the copy loop points, within the copies, at exactly its argument |
| ExecArgs.StrRefsLocateAll | src/syskrnl/proc.rs:367-376 | all of them do |
| ExecArgs.StrRefsDecode | src/syskrnl/proc.rs:379-385 | when the copies end below 2^64 the array of `&str` reads back as built |
| ExecArgs.PackLaidOut | src/syskrnl/proc.rs:366-385 | what `exec` writes is the layout that `ReadArgsAfterStores` reads back: the strings at the block, then their `&str` array at the next multiple of 8 |
| HeapInit.InitHeap | src/syskrnl/allocator/mod.rs:55-84 | `CODE_ADDR` becomes `HEAP_START + HEAP_SIZE` whatever happens. The heap pages are mapped PRESENT and WRITABLE, in order, up to the first failure. `FrameAllocationFailed` means the frames ran out and `PageAlreadyMapped` means `map_to` refused. The global allocator is initialised over the heap only when every page was mapped, and is untouched otherwise |
| HeapInit.KernelHeapBelowProcesses | src/syskrnl/allocator/mod.rs:52-84 | every page `init_heap` maps lies below the first code-and-stack region (at the `CODE_ADDR` it sets) and below the first process heap; the kernel heap is whole pages |
| HeapInit.BinImageLandsUnmapped | src/syskrnl/proc.rs:307-312 | the BIN branch as written: for the first process after `init_heap`, byte `i` of a BIN image is written at `CODE_ADDR + i`. Given as a premise that the boot page table does not map that page (the boot page table is not part of this model), the page is still unmapped after `init_heap`'s walk |
| Utf8.HeadLength | src/syskrnl/syscall/service.rs:39 | the length of the UTF-8 character a byte string starts with is at most 4 and within the string |
| Utf8.EncodeScalar | src/syskrnl/syscall/service.rs:39 | a scalar value encodes to 1 to 4 bytes |
| Utf8.EncodeScalarIsOneChar | src/syskrnl/syscall/service.rs:39 | the encoding of a scalar value is read as exactly one character, whatever follows it |
| Utf8.FourByteHead | src/syskrnl/syscall/service.rs:39 | scalar values from U+10000 on are read as one 4-byte character |
| Utf8.ThreeByteHead | src/syskrnl/syscall/service.rs:39 | scalar values U+0800 to U+FFFF (not surrogates) are read as one 3-byte character |
| Utf8.EncodeIsWellFormed | src/syskrnl/syscall/service.rs:39 | every string of scalar values encodes to well-formed UTF-8 |
| Utf8.WellFormedConcat | src/syskrnl/syscall/service.rs:39 | well-formed UTF-8 followed by well-formed UTF-8 is well-formed |
| Utf8.HeadLengthExtends | src/syskrnl/syscall/service.rs:39 | the first character is recognised regardless of what follows it |
| Utf8.TwoByteValue | src/syskrnl/syscall/service.rs:39 | a 2-byte character holds a scalar value from U+0080 to U+07FF and is its encoding |
| Utf8.ThreeByteValue | src/syskrnl/syscall/service.rs:39 | a 3-byte character holds a scalar value from U+0800 to U+FFFF, not a surrogate, and is its encoding |
| Utf8.FourByteValue | src/syskrnl/syscall/service.rs:39 | a 4-byte character holds a scalar value from U+10000 to U+10FFFF and is its encoding |
| Utf8.HeadValueEncodes | src/syskrnl/syscall/service.rs:39 | every character the grammar accepts is the encoding of the scalar value it holds |
| Utf8.Decode | src/syskrnl/syscall/service.rs:39 | well-formed UTF-8 decodes to scalar values only |
| Utf8.DecodeEncodes | src/syskrnl/syscall/service.rs:39 | well-formed UTF-8 is the encoding of what it decodes to |
| Utf8.WellFormedIsEncoding | src/syskrnl/syscall/service.rs:39 | a byte string is well-formed exactly when it is the encoding of some string of scalar values |
| Utf8.RejectsInvalidForms | src/syskrnl/syscall/service.rs:39 | the overlong forms `C0 80` and `E0 80 80`, the surrogate `ED A0 80` and `F4 90 80 80` (past U+10FFFF) are rejected whatever follows |
| Service.Exit | src/syskrnl/syscall/service.rs:8-11 | runs process exit (parent current, `MAX_PID` down by 1, region unmapped) and returns the code unchanged |
| Service.Spawn | src/syskrnl/syscall/service.rs:18-33 | a number other than 0 or 1 returns `OpenError` and changes nothing. Otherwise the selected embedded image is spawned: `ExecError` exactly for an unknown header, and then only `CODE_ADDR` has moved. User mode is entered exactly for a known header when `CreateCompletes` holds of the state before the call, and every other call panics. User mode is entered as the new process, with the record, heap, page table, memory and `iretq` frame that `Kernel.Spawn` states. `Success` is never reported while control stays in the kernel |
| Service.Log | src/syskrnl/syscall/service.rs:35-49 | status 0 exactly when the `len` bytes at `ptr_from_addr(msg)` are well-formed UTF-8 (RFC 3629 section 4), otherwise 1 |
| Service.LogAcceptsText | src/syskrnl/syscall/service.rs:35-49 | a message holding the UTF-8 encoding of any text gets status 0 |
| Service.LogConcat | src/syskrnl/syscall/service.rs:35-49 | two accepted messages laid end to end make an accepted message |
| Service.LogAcceptsExactlyText | src/syskrnl/syscall/service.rs:35-49 | the status is 0 exactly when the message is the UTF-8 encoding of some text |
| Service.LogRejectsInvalidForms | src/syskrnl/syscall/service.rs:35-49 | a message starting with an overlong form, a surrogate or a code point past U+10FFFF gets status 1 |
| Service.GrowAmount | src/syskrnl/syscall/service.rs:56-58 | `(size - free + 0xfff) & !0xfff` is a multiple of 4096, at least the deficit and less than the deficit plus 4096, so `free + grow >= size` |
| Service.GrowAmountIsLeast | src/syskrnl/syscall/service.rs:56-58 | it is the least whole number of pages covering the deficit |
| Service.Alloc | src/syskrnl/syscall/service.rs:51-64 | The heap grows only when `free_space < size`, and then by `GrowAmount` at the old `PROC_HEAP_ADDR`; otherwise `PROC_HEAP_ADDR` and the pages are untouched. An invalid layout or a failed growth panics. The block comes from the current process's allocator and never from the kernel allocator |
| Service.Free | src/syskrnl/syscall/service.rs:66-72 | an invalid layout panics; otherwise the block's size returns to the current process's allocator; the kernel allocator is untouched |
| Service.StopSchedule | src/syskrnl/syscall/service.rs:74-76 | `NO_SCHEDULE` is set whatever it was, so the call is idempotent |
| Service.RestartSchedule | src/syskrnl/syscall/service.rs:78-80 | `NO_SCHEDULE` is cleared whatever it was, so the call is idempotent |

## Left out

- The `cli` … `iretq` transfer to user mode (proc.rs:391-407) is a terminal `EnterUser(context)` result carrying the frame it pushes and the argument registers; nothing after it is modelled.
- Concurrency: the `spin::Mutex` of `Locked`, the `RwLock` on the table and the atomic orderings. State is owned sequentially and the atomics are plain fields.
- ELF parsing by the `object` crate is a parameter `parse`. It returns the entry point and the `(address, data)` segments, or `None` for an image it rejects (then nothing is mapped and the entry point stays 0).
- The bytes of the embedded programs `hello` and `infprint` are parameters of `Service.Spawn`.
- The internals of `LinkedListAllocator` (linked_list.rs is not part of this model). Only the free-space and region bookkeeping is kept, and the block a first-fit search picks is a parameter `placement`.
- Real page tables, frames, TLB flushes and `BootInfoFrameAllocator`. Frame supply is a count of frames available to one walk. Frames taken for intermediate page tables are not counted, and frame identity is not tracked.
- Allocator.PageTable.MapRange: `map_to` failing for reasons other than an already mapped page (a huge parent entry, no frame for a page table) is not modelled.
- Proc.Kernel.Exec: the strings are read through the caller's array before any is copied, whereas the source's `args.iter()` reads each `&str` and its bytes lazily while copying. The two differ only if the copies overlap the caller's strings or the caller's array of `&str`.
- Memory accesses are not checked against the page table: `mem` is a plain map from address to byte, so every load and store succeeds whether or not its page is mapped, and page faults are not modelled. This covers the writes of `create` and `exec` and the reads of `exec` and `log` through caller pointers. The one such access the source evidently gets wrong, the BIN branch of `create`, is under "## Findings".
- Proc.Kernel.Current: the `table[id()]` lookup of the current process panics in the source when `PID` is not a slot (after `set_id` with such a value). Here every accessor and operation requires `Ready()`, which includes `PID < MAX_PROCS`, so that panic is not modelled. `Kernel.SetId` keeps `Valid()` but not `Ready()`.
- Allocator.AlignUp: computed on unbounded integers. In the source `addr + align - 1` is `usize` arithmetic, which overflows (a panic in debug builds, a wrap in release builds) for `addr > 2^64 - align`; there the stated bounds do not hold of the source.
- Allocator.PageTable.AllocPages: `addr + size - 1` is `u64` arithmetic in the source, and `VirtAddr::new` panics on a non-canonical address (bits 47 to 63 not all equal). Page numbers here are unbounded and every address is accepted.
- Allocator.PageTable.FreePages: the same `addr + size - 1` overflow and `VirtAddr::new` panic are not modelled.
- LinkedList.LinkedListAllocator.Alloc: the free space goes down by exactly `size`. The free-list allocator (linked_list.rs, not part of this model) may round a block up for its list node or alignment, so the true decrease can be larger; `Service.Alloc` and `Kernel.Spawn`'s heap accounting rest on this.
- LinkedList.LinkedListAllocator.Dealloc: the free space goes up by exactly `size`, with the same caveat about rounding.
- Service.Spawn: `args_cap` is ignored, because `Process::spawn` takes three arguments.
- Service.Alloc: the `usize` arithmetic of `size - free_space + 0xfff` is unbounded here, so the overflow for sizes near 2^64 is not modelled.
- Proc.Kernel.Create: `CODE_ADDR` and `PROC_HEAP_ADDR` are unbounded naturals, so their `u64`/`usize` wrap-around after about 2^64 bytes is not modelled. `MAX_PID` does wrap as a `usize`.
- Proc.Kernel.PtrFromAddr: the `u64` addition `base + addr` is unbounded here.
- `sleep` (floating point, timer), `test_serde` and `list` (serialisation, file system), `test_allocator`, `Dummy`, and all `debugln!` / `println!` / `print!` output. `Service.Log` keeps only the status, not the printing.
- `src/syskrnl/syscall/call.rs` holds only call numbers, so it is not part of this model.
- `id()` is the field `pid` itself.
- `Process::new` and `ProcessData::new` are the functions `NewProcess` and `NewProcessData`, used by `NewTable`.

## Findings

| source | as written | input that shows it | evidently intended | confidence | as-written member | corrected member |
|---|---|---|---|---|---|---|
| src/syskrnl/proc.rs:307-312 | the BIN branch of `create` writes `bin[i]` to `code_addr + i` without calling `alloc_pages`; only the ELF branch (proc.rs:290) maps the code-and-stack region | the first BIN image created after `init_heap`: `CODE_ADDR` is `HEAP_START + HEAP_SIZE`, a page that neither the boot page table nor `init_heap` mapped, so the first write faults | map `[code_addr, code_addr + MAX_PROC_SIZE)` user-accessible and writable before copying, as the ELF branch does | medium, not executed | HeapInit.BinImageLandsUnmapped (over Proc.Kernel.LoadImage) | Proc.Kernel.LoadImageMapped, used by Proc.Kernel.Create |
