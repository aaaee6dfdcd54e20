/** `KPrivateMemory` (kernel/types/KPrivateMemory.cpp): guest memory owned by
    one process, and the chunk descriptors it registers with the process's
    memory manager.

    The memory manager itself is not part of this model. It is represented by
    the log of descriptors handed to `InsertChunk`, and the map it maintains
    is read back as "the most recently inserted descriptor covering an
    address" (`ChunkAt`). Addresses and sizes are naturals: pointer arithmetic
    is not wrapped. Page alignment is `v % pageSize == 0`, which
    `Common.IsAlignedIsDivisibility` shows is what `util::PageAligned` computes
    for a non-zero page size. */
module PrivateMemory {
  import opened Wrappers

  datatype Permission = Permission(r: bool, w: bool, x: bool)

  /** A default-constructed permission, `---`. */
  const NoPermission := Permission(false, false, false)

  /** The memory states (`memory::states`) that the modelled code names. */
  datatype MemoryState =
    | Unmapped | Reserved | Heap | Stack | ThreadLocal | CodeStatic | CodeMutable
    | SharedMemory | TransferMemory

  datatype ChunkDescriptor = ChunkDescriptor(ptr: nat, size: nat, permission: Permission, state: MemoryState)

  predicate Covers(c: ChunkDescriptor, address: nat) {
    c.ptr <= address < c.ptr + c.size
  }

  /** The descriptor the memory map holds for an address: the latest inserted one covering it. */
  function ChunkAt(chunks: seq<ChunkDescriptor>, address: nat): (r: Option<ChunkDescriptor>)
    ensures r.Some? ==> r.value in chunks && Covers(r.value, address)
  {
    if chunks == [] then None
    else if Covers(chunks[|chunks| - 1], address) then Some(chunks[|chunks| - 1])
    else ChunkAt(chunks[..|chunks| - 1], address)
  }

  /** Inserting a descriptor overrides the map exactly on the range it covers. */
  lemma {:induction false} ChunkAtAfterInsert(chunks: seq<ChunkDescriptor>, c: ChunkDescriptor, address: nat)
    ensures ChunkAt(chunks + [c], address) == if Covers(c, address) then Some(c) else ChunkAt(chunks, address)
  {
    assert (chunks + [c])[..|chunks|] == chunks;
  }

  /** The memory manager as far as this model needs it: the guest address
      space predicate `base.IsInside`, the page size, and the log of inserted
      descriptors. */
  class MemoryManager {
    const baseInside: nat -> bool
    const pageSize: nat
    var chunks: seq<ChunkDescriptor>

    constructor (baseInside: nat -> bool, pageSize: nat)
      requires pageSize > 0
      ensures this.baseInside == baseInside && this.pageSize == pageSize && chunks == []
    {
      this.baseInside := baseInside;
      this.pageSize := pageSize;
      chunks := [];
    }

    method InsertChunk(c: ChunkDescriptor)
      modifies this
      ensures chunks == old(chunks) + [c]
    {
      chunks := chunks + [c];
    }
  }

  /** The checks of the constructor and of Remap: both ends inside the guest
      address space, start and size page-aligned. */
  const OutsideGuestError := "KPrivateMemory allocation isn't inside guest address space"
  const UnalignedError := "KPrivateMemory mapping isn't page-aligned"

  function CheckPlacement(baseInside: nat -> bool, pageSize: nat, ptr: nat, size: nat): (r: Result<()>)
    requires pageSize > 0
    ensures r.Ok? <==> baseInside(ptr) && baseInside(ptr + size) && ptr % pageSize == 0 && size % pageSize == 0
  {
    if !baseInside(ptr) || !baseInside(ptr + size) then Err(OutsideGuestError)
    else if ptr % pageSize != 0 || size % pageSize != 0 then Err(UnalignedError)
    else Ok(())
  }

  /** The descriptor Resize registers, if any: the dropped tail as Unmapped
      when shrinking, the added tail with the object's own permission and
      state when growing, nothing when the size is unchanged. */
  function ResizeChunk(ptr: nat, size: nat, permission: Permission, memState: MemoryState, nSize: nat): (r: Option<ChunkDescriptor>)
    ensures r.None? <==> nSize == size
    ensures r.Some? ==> r.value.ptr == ptr + (if nSize < size then nSize else size)
    ensures r.Some? ==> r.value.ptr + r.value.size == ptr + (if nSize < size then size else nSize)
    ensures r.Some? && nSize < size ==> r.value.state == Unmapped && r.value.permission == NoPermission
    ensures r.Some? && size < nSize ==> r.value.state == memState && r.value.permission == permission
  {
    if nSize < size then Some(ChunkDescriptor(ptr + nSize, size - nSize, NoPermission, Unmapped))
    else if size < nSize then Some(ChunkDescriptor(ptr + size, nSize - size, permission, memState))
    else None
  }

  /** `std::clamp(p, lo, hi)` */
  function Clamp(p: nat, lo: nat, hi: nat): nat
    requires lo <= hi
  {
    if p < lo then lo else if hi < p then hi else p
  }

  /** The range UpdatePermission acts on: the start clamped into the object,
      the length cut at the object's end. It always lies within the object. */
  function ClampRange(ptr: nat, size: nat, reqPtr: nat, reqSize: nat): (r: (nat, nat))
    ensures ptr <= r.0 <= ptr + size && r.0 + r.1 <= ptr + size
    ensures ptr <= reqPtr <= ptr + size ==> r.0 == reqPtr
    ensures r.1 == if reqSize < ptr + size - r.0 then reqSize else ptr + size - r.0
  {
    var start := Clamp(reqPtr, ptr, ptr + size);
    (start, if reqSize < ptr + size - start then reqSize else ptr + size - start)
  }

  /** The CodeStatic -> CodeMutable promotion of a region mapped writable. */
  function Promote(memState: MemoryState, permission: Permission): (r: MemoryState)
    ensures r == CodeMutable <==> memState == CodeMutable || (memState == CodeStatic && permission.w)
    ensures r != memState ==> memState == CodeStatic
  {
    if memState == CodeStatic && permission.w then CodeMutable else memState
  }

  /** Promotion is never undone: whatever permissions follow, a promoted
      region stays CodeMutable, and a region other than CodeStatic never
      changes state. */
  lemma {:induction false} PromoteIsMonotone(memState: MemoryState, perms: seq<Permission>)
    ensures memState == CodeMutable ==> PromoteAll(memState, perms) == CodeMutable
    ensures memState != CodeStatic ==> PromoteAll(memState, perms) == memState
    ensures PromoteAll(memState, perms) == CodeMutable <==>
              memState == CodeMutable || (memState == CodeStatic && exists i :: 0 <= i < |perms| && perms[i].w)
    decreases |perms|
  {
    if perms != [] {
      PromoteIsMonotone(Promote(memState, perms[0]), perms[1..]);
      if memState == CodeStatic && !perms[0].w && (exists i :: 0 <= i < |perms[1..]| && perms[1..][i].w) {
        var i :| 0 <= i < |perms[1..]| && perms[1..][i].w;
        assert perms[i + 1].w;
      }
    }
  }

  /** The state after a series of UpdatePermission calls. */
  function PromoteAll(memState: MemoryState, perms: seq<Permission>): MemoryState
    decreases |perms|
  {
    if perms == [] then memState else PromoteAll(Promote(memState, perms[0]), perms[1..])
  }

  /** A KPrivateMemory object: its extent, permission and state, and the
      memory manager it registers chunks with. */
  class KPrivateMemory {
    const memory: MemoryManager
    var ptr: nat
    var size: nat
    var permission: Permission
    var memState: MemoryState

    /** The constructor's checks; on success exactly one chunk, the whole
        object with its permission and state, is registered. */
    static method Create(memory: MemoryManager, ptr: nat, size: nat, permission: Permission, memState: MemoryState)
      returns (r: Result<KPrivateMemory>)
      requires memory.pageSize > 0
      modifies memory
      ensures r.Ok? <==> CheckPlacement(memory.baseInside, memory.pageSize, ptr, size).Ok?
      ensures r.Ok? ==> fresh(r.value) && r.value.memory == memory && r.value.ptr == ptr && r.value.size == size
      ensures r.Ok? ==> r.value.permission == permission && r.value.memState == memState
      ensures r.Ok? ==> memory.chunks == old(memory.chunks) + [ChunkDescriptor(ptr, size, permission, memState)]
      ensures r.Err? ==> memory.chunks == old(memory.chunks)
    {
      var check := CheckPlacement(memory.baseInside, memory.pageSize, ptr, size);
      if check.Err? {
        return Err(check.message);
      }
      var m := new KPrivateMemory.Init(memory, ptr, size, permission, memState);
      memory.InsertChunk(ChunkDescriptor(ptr, size, permission, memState));
      r := Ok(m);
    }

    constructor Init(memory: MemoryManager, ptr: nat, size: nat, permission: Permission, memState: MemoryState)
      ensures this.memory == memory && this.ptr == ptr && this.size == size
      ensures this.permission == permission && this.memState == memState
    {
      this.memory := memory;
      this.ptr := ptr;
      this.size := size;
      this.permission := permission;
      this.memState := memState;
    }

    method Resize(nSize: nat)
      modifies this, memory
      ensures size == nSize && ptr == old(ptr) && permission == old(permission) && memState == old(memState)
      ensures var c := ResizeChunk(old(ptr), old(size), permission, memState, nSize);
              memory.chunks == old(memory.chunks) + (if c.Some? then [c.value] else [])
    {
      var c := ResizeChunk(ptr, size, permission, memState, nSize);
      if c.Some? {
        memory.InsertChunk(c.value);
      }
      size := nSize;
    }

    /** Remap only validates the new placement; the object keeps its extent. */
    method Remap(nPtr: nat, nSize: nat) returns (r: Result<()>)
      requires memory.pageSize > 0
      ensures r == CheckPlacement(memory.baseInside, memory.pageSize, nPtr, nSize)
    {
      r := CheckPlacement(memory.baseInside, memory.pageSize, nPtr, nSize);
    }

    /** Clamp the range into the object, refuse a non-null unaligned start,
        promote CodeStatic when write is granted, register the range. The
        object's own `permission` field is left as it was. */
    method UpdatePermission(reqPtr: nat, reqSize: nat, newPermission: Permission) returns (r: Result<()>)
      requires memory.pageSize > 0
      modifies this, memory
      ensures ptr == old(ptr) && size == old(size) && permission == old(permission)
      ensures var (start, len) := ClampRange(old(ptr), old(size), reqPtr, reqSize);
              r.Ok? <==> start == 0 || start % memory.pageSize == 0
      ensures r.Ok? ==> memState == Promote(old(memState), newPermission)
      ensures r.Ok? ==> var (start, len) := ClampRange(old(ptr), old(size), reqPtr, reqSize);
                        memory.chunks == old(memory.chunks) + [ChunkDescriptor(start, len, newPermission, memState)]
      ensures r.Err? ==> memState == old(memState) && memory.chunks == old(memory.chunks)
    {
      var (start, len) := ClampRange(ptr, size, reqPtr, reqSize);
      if start != 0 && start % memory.pageSize != 0 {
        return Err("KPrivateMemory permission updated with a non-page-aligned address");
      }
      memState := Promote(memState, newPermission);
      memory.InsertChunk(ChunkDescriptor(start, len, newPermission, memState));
      r := Ok(());
    }

    /** The destructor: the whole extent becomes Unmapped. */
    method Destroy()
      modifies memory
      ensures memory.chunks == old(memory.chunks) + [ChunkDescriptor(ptr, size, NoPermission, Unmapped)]
    {
      memory.InsertChunk(ChunkDescriptor(ptr, size, NoPermission, Unmapped));
    }
  }

  /** The map seen through the chunk log after a Resize: the object's new
      extent keeps its mapping, a dropped tail reads as Unmapped, a grown
      tail carries the object's permission and state, and every other
      address is untouched. */
  lemma ResizeView(chunks: seq<ChunkDescriptor>, ptr: nat, size: nat, permission: Permission, memState: MemoryState,
                   nSize: nat, address: nat)
    requires forall a :: ptr <= a < ptr + size ==> ChunkAt(chunks, a) == Some(ChunkDescriptor(ptr, size, permission, memState))
    ensures var c := ResizeChunk(ptr, size, permission, memState, nSize);
            var after := chunks + (if c.Some? then [c.value] else []);
            (ptr <= address < ptr + nSize && address < ptr + size ==> ChunkAt(after, address) == ChunkAt(chunks, address))
            && (ptr + size <= address < ptr + nSize ==>
                  ChunkAt(after, address).Some? && ChunkAt(after, address).value.permission == permission
                  && ChunkAt(after, address).value.state == memState)
            && (ptr + nSize <= address < ptr + size ==> ChunkAt(after, address).Some? && ChunkAt(after, address).value.state == Unmapped)
            && (address < ptr || ptr + (if size < nSize then nSize else size) <= address ==> ChunkAt(after, address) == ChunkAt(chunks, address))
  {
    var c := ResizeChunk(ptr, size, permission, memState, nSize);
    if c.Some? {
      ChunkAtAfterInsert(chunks, c.value, address);
    } else {
      assert chunks + [] == chunks;
    }
  }

  /** After a successful UpdatePermission the clamped range reads back with
      the new permission and the (possibly promoted) state; addresses outside
      it are untouched. */
  lemma UpdatePermissionView(chunks: seq<ChunkDescriptor>, ptr: nat, size: nat, memState: MemoryState,
                             reqPtr: nat, reqSize: nat, newPermission: Permission, address: nat)
    ensures var (start, len) := ClampRange(ptr, size, reqPtr, reqSize);
            var c := ChunkDescriptor(start, len, newPermission, Promote(memState, newPermission));
            (start <= address < start + len ==> ChunkAt(chunks + [c], address) == Some(c) && ptr <= address < ptr + size)
            && (!(start <= address < start + len) ==> ChunkAt(chunks + [c], address) == ChunkAt(chunks, address))
  {
    var (start, len) := ClampRange(ptr, size, reqPtr, reqSize);
    ChunkAtAfterInsert(chunks, ChunkDescriptor(start, len, newPermission, Promote(memState, newPermission)), address);
  }
}
