/**
 * The free-list allocator behind the kernel heap and behind every process heap,
 * seen from outside.  Its free-list internals are not part of this model: what the
 * rest of the kernel relies on is the amount of free space it reports and that
 * growing it by a region adds exactly that region's size to the free space.
 */
module LinkedList {
  import opened Common

  /** A byte range handed to the allocator by `init` or `grow`. */
  datatype Region = Region(start: nat, size: nat)

  class LinkedListAllocator {
    /** What `free_space()` reports. */
    var freeSpace: nat
    /** The ranges it was given, in order. */
    var regions: seq<Region>

    /** `LinkedListAllocator::new()`: manages nothing yet. */
    constructor ()
      ensures freeSpace == 0 && regions == []
    {
      freeSpace := 0;
      regions := [];
    }

    /** `init(start, size)`: the one region it starts from; never on a live allocator. */
    method Init(start: nat, size: nat)
      requires regions == []
      modifies this
      ensures regions == [Region(start, size)]
      ensures freeSpace == old(freeSpace) + size
    {
      regions := [Region(start, size)];
      freeSpace := freeSpace + size;
    }

    /** `grow(start, size)`: a freshly mapped region becomes free space. */
    method Grow(start: nat, size: nat)
      modifies this
      ensures regions == old(regions) + [Region(start, size)]
      ensures freeSpace == old(freeSpace) + size
    {
      regions := regions + [Region(start, size)];
      freeSpace := freeSpace + size;
    }

    /**
     * `alloc(layout)`: `placement` is the block the first-fit search picks, or
     * None when no block fits (then the result is the null pointer).  A block
     * can only be found while at least `size` bytes are free.
     */
    method Alloc(size: nat, align: nat, placement: Option<nat>) returns (ptr: nat)
      requires placement.Some? ==> size <= freeSpace
      modifies this
      ensures placement.None? ==> ptr == 0 && freeSpace == old(freeSpace)
      ensures placement.Some? ==> ptr == placement.value && freeSpace == old(freeSpace) - size
      ensures regions == old(regions)
    {
      if placement.None? {
        ptr := 0;
      } else {
        ptr := placement.value;
        freeSpace := freeSpace - size;
      }
    }

    /** `dealloc(ptr, layout)`: the block is free again. */
    method Dealloc(ptr: nat, size: nat, align: nat)
      modifies this
      ensures freeSpace == old(freeSpace) + size
      ensures regions == old(regions)
    {
      freeSpace := freeSpace + size;
    }
  }
}
