// Supervisor calls (app/src/main/cpp/skyline/kernel/svc.cpp): how each
// modelled handler validates its register arguments, which result code it
// picks, what it writes back and which kernel state it changes.
//
// The memory manager's lookups (`Get`, `GetChunk`, `GetBlock`), the
// process's `GetMemoryObject`, the thread's priority range and the layout of
// `memory::MemoryAttribute` are not part of this model: their answers are
// parameters. The result codes of results.h appear by name only.

module Svc {
  import opened Wrappers
  import opened Common
  import opened Handles
  import PrivateMemory
  import Process

  datatype SvcResult =
    | Success
    | InvalidSize
    | InvalidAddress
    | InvalidCombination
    | InvalidState
    | InvalidMemoryRegion
    | InvalidNewMemoryPermission
    | InvalidHandle
    | OutOfHandles
    | Cancelled
    | TimedOut
    | InvalidEnumValue

  /** The argument registers x0-x4 of the calling thread. */
  datatype Registers = Registers(x0: u64, x1: u64, x2: u64, x3: u64, x4: u64)

  /** The 32-bit view `wN` of a 64-bit register `xN`. */
  function W(x: u64): (r: u32)
    ensures r == x % 0x1_0000_0000
  {
    x % 0x1_0000_0000
  }

  /** What a handler writes back: the result code into w0 and, when the
      handler writes one, the value of the second output register (x1 or w1). */
  datatype Reply = Reply(result: SvcResult, out: Option<nat>)

  /** `PAGE_SIZE` and `WORD_BIT`. */
  datatype Constants = Constants(pageSize: u64, wordBit: u64)

  const HeapSizeAlignment: u64 := 0x200000
  const MaxSyncHandles: nat := 0x40
  const TotalPhysicalMemory: u64 := 0xF8000000

  // -------------------------------------------------------------------------
  // svcSetHeapSize (svc.cpp:9-27)
  // -------------------------------------------------------------------------

  /** A heap size must be a multiple of 2 MiB. */
  lemma HeapSizeAlignmentMeansMultiple(size: u64)
    ensures IsAligned(size, HeapSizeAlignment) <==> size % 0x200000 == 0
  {
    IsAlignedIsDivisibility(size, HeapSizeAlignment);
  }

  /** A size in w1 that is not a multiple of 2 MiB is refused with x1 = 0 and
      the heap untouched; otherwise the heap is resized and its address
      returned in x1. */
  method SetHeapSize(heap: PrivateMemory.KPrivateMemory, regs: Registers) returns (reply: Reply)
    modifies heap, heap.memory
    ensures var size := W(regs.x1);
            if IsAligned(size, HeapSizeAlignment) then
              && reply == Reply(Success, Some(heap.ptr))
              && heap.size == size && heap.ptr == old(heap.ptr)
              && var c := PrivateMemory.ResizeChunk(old(heap.ptr), old(heap.size), heap.permission, heap.memState, size);
                 heap.memory.chunks == old(heap.memory.chunks) + (if c.Some? then [c.value] else [])
            else
              reply == Reply(InvalidSize, Some(0)) && unchanged(heap) && unchanged(heap.memory)
  {
    var size := W(regs.x1);
    if !IsAligned(size, HeapSizeAlignment) {
      return Reply(InvalidSize, Some(0));
    }
    heap.Resize(size);
    reply := Reply(Success, Some(heap.ptr));
  }

  // -------------------------------------------------------------------------
  // svcSetMemoryAttribute (svc.cpp:29-73)
  // -------------------------------------------------------------------------

  /** The bit of each attribute flag in a `MemoryAttribute` word. */
  datatype AttributeBits = AttributeBits(uncached: bv32, deviceShared: bv32, borrowed: bv32, ipcLocked: bv32)

  /** What the memory manager holds at an address: whether its chunk's state
      allows attribute changes, and its block's attribute word. */
  datatype AttributeTarget = AttributeTarget(attributeChangeAllowed: bool, attributes: bv32)

  /** The mask may only name the uncached flag, must name it, and the value
      may only set bits the mask names. */
  predicate AttributeCombinationValid(mask: bv32, value: bv32, bits: AttributeBits) {
    (mask | value) == mask && mask & bits.uncached != 0
    && mask & bits.deviceShared == 0 && mask & bits.borrowed == 0 && mask & bits.ipcLocked == 0
  }

  /** `mask | value == mask` says exactly that `value` sets no bit outside `mask`. */
  lemma MaskedValueIsSubset(mask: bv32, value: bv32)
    ensures (mask | value) == mask <==> value & !mask == 0
  {
  }

  /** The 32-bit attribute word a register carries. */
  function AttributeWord(x: u64): bv32 {
    W(x) as bv32
  }

  /** The block's attribute word with its uncached flag taken from `value`:
      the other flags are kept and the uncached flag reads as in `value`. */
  function CopyUncached(attributes: bv32, value: bv32, uncached: bv32): (r: bv32)
    ensures r & !uncached == attributes & !uncached
    ensures r & uncached == value & uncached
  {
    (attributes & !uncached) | (value & uncached)
  }

  /** The checks in their order, then the block's uncached flag copied from
      `value` (w3): the reply, and the new attribute word of the block when
      it is updated. */
  function SetMemoryAttribute(regs: Registers, c: Constants, bits: AttributeBits, target: Option<AttributeTarget>)
    : (r: (Reply, Option<bv32>))
    ensures r.0.out == None
    ensures r.0.result == Success <==>
              && PageAligned(regs.x0, c.pageSize) && PageAligned(regs.x1, c.pageSize)
              && AttributeCombinationValid(AttributeWord(regs.x2), AttributeWord(regs.x3), bits)
              && target.Some? && target.value.attributeChangeAllowed
    ensures r.1.Some? <==> r.0.result == Success
    ensures !PageAligned(regs.x0, c.pageSize) ==> r.0.result == InvalidAddress
    ensures PageAligned(regs.x0, c.pageSize) && !PageAligned(regs.x1, c.pageSize) ==> r.0.result == InvalidSize
    ensures r.0.result == InvalidCombination <==>
              PageAligned(regs.x0, c.pageSize) && PageAligned(regs.x1, c.pageSize)
              && !AttributeCombinationValid(AttributeWord(regs.x2), AttributeWord(regs.x3), bits)
    ensures r.0.result == InvalidState ==> target.Some? && !target.value.attributeChangeAllowed
    ensures r.1.Some? ==> r.1.value == CopyUncached(target.value.attributes, AttributeWord(regs.x3), bits.uncached)
  {
    var mask, value := AttributeWord(regs.x2), AttributeWord(regs.x3);
    if !PageAligned(regs.x0, c.pageSize) then (Reply(InvalidAddress, None), None)
    else if !PageAligned(regs.x1, c.pageSize) then (Reply(InvalidSize, None), None)
    else if !AttributeCombinationValid(mask, value, bits) then (Reply(InvalidCombination, None), None)
    else if target.None? then (Reply(InvalidAddress, None), None)
    else if !target.value.attributeChangeAllowed then (Reply(InvalidState, None), None)
    else (Reply(Success, None), Some(CopyUncached(target.value.attributes, value, bits.uncached)))
  }

  /** A zero size passes the size check: 0 is aligned to every page size. */
  lemma ZeroSizeIsAligned(pageSize: u64)
    ensures PageAligned(0, pageSize)
  {
    IsAlignedIsDivisibility(0, pageSize);
  }

  // -------------------------------------------------------------------------
  // svcMapMemory and svcUnmapMemory (svc.cpp:75-178)
  // -------------------------------------------------------------------------

  /** The memory manager's descriptor for an address: its block's permission
      and whether its chunk's state allows svcMapMemory. */
  datatype Descriptor = Descriptor(permission: PrivateMemory.Permission, mapAllowed: bool)

  /** The checks of svcMapMemory (destination x0, source x1, size x2), in
      order; None when they all pass. */
  function MapMemoryCheck(regs: Registers, c: Constants, stackInside: u64 -> bool, source: Option<Descriptor>)
    : (r: Option<SvcResult>)
    ensures r.None? <==>
              && PageAligned(regs.x0, c.pageSize) && PageAligned(regs.x1, c.pageSize) && PageAligned(regs.x2, c.pageSize)
              && stackInside(regs.x0) && source.Some? && source.value.mapAllowed
    ensures !PageAligned(regs.x0, c.pageSize) || !PageAligned(regs.x1, c.pageSize) ==> r == Some(InvalidAddress)
    ensures r == Some(InvalidMemoryRegion) <==>
              PageAligned(regs.x0, c.pageSize) && PageAligned(regs.x1, c.pageSize) && PageAligned(regs.x2, c.pageSize)
              && !stackInside(regs.x0)
  {
    var destination, src, size := regs.x0, regs.x1, regs.x2;
    if !PageAligned(destination, c.pageSize) || !PageAligned(src, c.pageSize) then Some(InvalidAddress)
    else if !PageAligned(size, c.pageSize) then Some(InvalidSize)
    else if !stackInside(destination) then Some(InvalidMemoryRegion)
    else if source.None? then Some(InvalidAddress)
    else if !source.value.mapAllowed then Some(InvalidState)
    else None
  }

  /** The checks of svcUnmapMemory (source x0, destination x1, size x2), in
      order; None when they all pass. The stack check is on the source. */
  function UnmapMemoryCheck(regs: Registers, c: Constants, stackInside: u64 -> bool,
                            source: Option<Descriptor>, destination: Option<Descriptor>)
    : (r: Option<SvcResult>)
    ensures r.None? <==>
              && PageAligned(regs.x0, c.pageSize) && PageAligned(regs.x1, c.pageSize) && PageAligned(regs.x2, c.pageSize)
              && stackInside(regs.x0) && source.Some? && destination.Some? && destination.value.mapAllowed
    ensures !PageAligned(regs.x0, c.pageSize) || !PageAligned(regs.x1, c.pageSize) ==> r == Some(InvalidAddress)
    ensures r == Some(InvalidMemoryRegion) <==>
              PageAligned(regs.x0, c.pageSize) && PageAligned(regs.x1, c.pageSize) && PageAligned(regs.x2, c.pageSize)
              && !stackInside(regs.x0)
  {
    var src, dst, size := regs.x0, regs.x1, regs.x2;
    if !PageAligned(dst, c.pageSize) || !PageAligned(src, c.pageSize) then Some(InvalidAddress)
    else if !PageAligned(size, c.pageSize) then Some(InvalidSize)
    else if !stackInside(src) then Some(InvalidMemoryRegion)
    else if source.None? || destination.None? then Some(InvalidAddress)
    else if !destination.value.mapAllowed then Some(InvalidState)
    else None
  }

  /** A memory object found through the handle table: its handle and the
      object, which covers the address it was looked up by. */
  datatype FoundObject = FoundObject(handle: Handle, item: PrivateMemory.KPrivateMemory)

  /** `GetMemoryObject(address)` found `found` in `handles` for the memory
      manager `memory`. */
  ghost predicate FoundIn(found: Option<FoundObject>, handles: HandleTable, memory: PrivateMemory.MemoryManager, address: nat)
    reads handles
  {
    found.Some? ==>
      && found.value.handle in handles.objects
      && handles.objects[found.value.handle] == MemoryObject(found.value.item)
      && found.value.item.memory == memory
  }

  /** After the checks: a new private-memory object for the destination with
      the source's permission and the Stack state gets a handle, and the
      object holding the source loses every permission on the range. A
      placement the new object refuses, a source without a memory object, or
      a refused permission update is an error (an exception in the source). */
  method MapMemory(memory: PrivateMemory.MemoryManager, handles: HandleTable, regs: Registers, c: Constants,
                   stackInside: u64 -> bool, source: Option<Descriptor>, sourceObject: Option<FoundObject>)
    returns (r: Result<Reply>, aliasHandle: Handle)
    requires memory.pageSize == c.pageSize > 0 && handles.Valid()
    requires FoundIn(sourceObject, handles, memory, regs.x1)
    modifies memory, handles, if sourceObject.Some? then {sourceObject.value.item} else {}
    ensures handles.Valid()
    ensures var check := MapMemoryCheck(regs, c, stackInside, source);
            check.Some? ==> r == Ok(Reply(check.value, None)) && unchanged(memory) && unchanged(handles)
    ensures r == Ok(Reply(Success, None)) ==>
              && MapMemoryCheck(regs, c, stackInside, source).None?
              && sourceObject.Some?
              && aliasHandle !in old(handles.objects) && aliasHandle in handles.objects
              && handles.objects == old(handles.objects)[aliasHandle := handles.objects[aliasHandle]]
              && handles.objects[aliasHandle].MemoryObject?
              && handles.objects[aliasHandle].memory.ptr == regs.x0
              && handles.objects[aliasHandle].memory.size == regs.x2
              && handles.objects[aliasHandle].memory.permission == source.value.permission
              && handles.objects[aliasHandle].memory.memState == PrivateMemory.Stack
              && sourceObject.value.item.memState ==
                   PrivateMemory.Promote(old(sourceObject.value.item.memState), PrivateMemory.NoPermission)
              && var item := sourceObject.value.item;
                 var (start, len) := PrivateMemory.ClampRange(item.ptr, item.size, regs.x1, regs.x2);
                 memory.chunks == old(memory.chunks)
                   + [PrivateMemory.ChunkDescriptor(regs.x0, regs.x2, source.value.permission, PrivateMemory.Stack),
                      PrivateMemory.ChunkDescriptor(start, len, PrivateMemory.NoPermission, item.memState)]
    ensures r.Ok? ==> r.value.result != Success || MapMemoryCheck(regs, c, stackInside, source).None?
  {
    aliasHandle := 0;
    var check := MapMemoryCheck(regs, c, stackInside, source);
    if check.Some? {
      return Ok(Reply(check.value, None)), aliasHandle;
    }
    var alias :- PrivateMemory.KPrivateMemory.Create(memory, regs.x0, regs.x2, source.value.permission, PrivateMemory.Stack);
    aliasHandle := handles.NewHandle(MemoryObject(alias));
    if sourceObject.None? {
      return Err("svcMapMemory: Cannot find memory object in handle table"), aliasHandle;
    }
    var updated := sourceObject.value.item.UpdatePermission(regs.x1, regs.x2, PrivateMemory.NoPermission);
    if updated.Err? {
      return Err(updated.message), aliasHandle;
    }
    r := Ok(Reply(Success, None));
  }

  /** The memory map after a successful svcMapMemory, read through the two
      descriptors it registers: the source's clamped range reads with no
      permission, the rest of the alias range reads as Stack with the
      source's permission, and every other address is untouched. */
  lemma MapMemoryView(chunks: seq<PrivateMemory.ChunkDescriptor>, alias: PrivateMemory.ChunkDescriptor,
                      stripped: PrivateMemory.ChunkDescriptor, address: nat)
    requires alias.state == PrivateMemory.Stack && stripped.permission == PrivateMemory.NoPermission
    ensures var after := chunks + [alias, stripped];
            && (PrivateMemory.Covers(stripped, address) ==> PrivateMemory.ChunkAt(after, address) == Some(stripped))
            && (PrivateMemory.Covers(alias, address) && !PrivateMemory.Covers(stripped, address) ==>
                  PrivateMemory.ChunkAt(after, address) == Some(alias))
            && (!PrivateMemory.Covers(alias, address) && !PrivateMemory.Covers(stripped, address) ==>
                  PrivateMemory.ChunkAt(after, address) == PrivateMemory.ChunkAt(chunks, address))
  {
    assert chunks + [alias, stripped] == (chunks + [alias]) + [stripped];
    PrivateMemory.ChunkAtAfterInsert(chunks + [alias], stripped, address);
    PrivateMemory.ChunkAtAfterInsert(chunks, alias, address);
  }

  /** After the checks: the object holding the destination gets back the
      source's permission on the range, and the object holding the source
      (the stack alias svcMapMemory made) loses its handle. A missing object
      or a refused permission update is an error. */
  method UnmapMemory(memory: PrivateMemory.MemoryManager, handles: HandleTable, regs: Registers, c: Constants,
                     stackInside: u64 -> bool, source: Option<Descriptor>, destination: Option<Descriptor>,
                     sourceObject: Option<FoundObject>, destinationObject: Option<FoundObject>)
    returns (r: Result<Reply>)
    requires memory.pageSize == c.pageSize > 0 && handles.Valid()
    requires FoundIn(sourceObject, handles, memory, regs.x0) && FoundIn(destinationObject, handles, memory, regs.x1)
    modifies memory, handles, if destinationObject.Some? then {destinationObject.value.item} else {}
    ensures handles.Valid()
    ensures var check := UnmapMemoryCheck(regs, c, stackInside, source, destination);
            check.Some? ==> r == Ok(Reply(check.value, None)) && unchanged(memory) && unchanged(handles)
    ensures r == Ok(Reply(Success, None)) ==>
              && UnmapMemoryCheck(regs, c, stackInside, source, destination).None?
              && sourceObject.Some? && destinationObject.Some?
              && handles.objects == old(handles.objects) - {sourceObject.value.handle}
              && var item := destinationObject.value.item;
                 var (start, len) := PrivateMemory.ClampRange(item.ptr, item.size, regs.x1, regs.x2);
                 && item.memState == PrivateMemory.Promote(old(item.memState), source.value.permission)
                 && memory.chunks == old(memory.chunks)
                      + [PrivateMemory.ChunkDescriptor(start, len, source.value.permission, item.memState)]
    ensures r.Ok? ==> r.value.result != Success || UnmapMemoryCheck(regs, c, stackInside, source, destination).None?
  {
    var check := UnmapMemoryCheck(regs, c, stackInside, source, destination);
    if check.Some? {
      return Ok(Reply(check.value, None));
    }
    if destinationObject.None? {
      return Err("svcUnmapMemory: Cannot find destination memory object in handle table");
    }
    var updated := destinationObject.value.item.UpdatePermission(regs.x1, regs.x2, source.value.permission);
    if updated.Err? {
      return Err(updated.message);
    }
    if sourceObject.None? {
      return Err("svcUnmapMemory: Cannot find source memory object in handle table");
    }
    handles.DeleteHandle(sourceObject.value.handle);
    r := Ok(Reply(Success, None));
  }

  /** The handle svcUnmapMemory deletes as written: the object is looked up
      a second time by the destination address, so it is the destination's
      object that loses its handle. */
  function UnmapDeletesAsWritten(sourceObject: Option<FoundObject>, destinationObject: Option<FoundObject>): (r: Option<Handle>)
    ensures r.Some? ==> destinationObject.Some? && r.value == destinationObject.value.handle
  {
    if destinationObject.Some? then Some(destinationObject.value.handle) else None
  }

  /** The handle svcUnmapMemory is meant to delete: the source's, the stack
      alias that svcMapMemory created. */
  function UnmapDeletes(sourceObject: Option<FoundObject>, destinationObject: Option<FoundObject>): (r: Option<Handle>)
    ensures r.Some? ==> sourceObject.Some? && r.value == sourceObject.value.handle
  {
    if sourceObject.Some? then Some(sourceObject.value.handle) else None
  }

  /** As written, unmapping a stack alias whose object differs from the
      original memory's deletes the original's handle and keeps the alias's. */
  lemma UnmapAsWrittenDeletesOriginal(alias: FoundObject, original: FoundObject, objects: map<Handle, KObject>)
    requires alias.handle != original.handle && alias.handle in objects && original.handle in objects
    ensures var deleted := UnmapDeletesAsWritten(Some(alias), Some(original));
            deleted == Some(original.handle) && alias.handle in objects - {deleted.value}
            && original.handle !in objects - {deleted.value}
    ensures var deleted := UnmapDeletes(Some(alias), Some(original));
            deleted == Some(alias.handle) && alias.handle !in objects - {deleted.value}
            && original.handle in objects - {deleted.value}
  {
  }

  // -------------------------------------------------------------------------
  // svcQueryMemory (svc.cpp:180-213)
  // -------------------------------------------------------------------------

  /** The record written to guest memory at x0. */
  datatype MemoryInfo = MemoryInfo(address: u64, size: u64, memType: u32, attributes: u32, permissions: u32,
                                   deviceRefCount: u32, ipcRefCount: u32)

  /** The memory manager's block for the queried address: its extent, the
      type of its chunk's state, its attribute word and its permission bits. */
  datatype QueriedBlock = QueriedBlock(address: u64, size: u64, memType: u32, attributes: u32, permissions: u32)

  datatype Region = Region(address: u64, size: u64)

  /** A mapped address reports its block; any other reports the reserved
      space from the end of the address space to the top of the 64-bit
      space. The call itself always succeeds. */
  function QueryMemory(found: Option<QueriedBlock>, addressSpace: Region, reservedType: u32): (r: (MemoryInfo, Reply))
    ensures r.1 == Reply(Success, None)
    ensures r.0.deviceRefCount == 0 && r.0.ipcRefCount == 0
    ensures found.Some? ==> r.0.address == found.value.address && r.0.size == found.value.size
                            && r.0.memType == found.value.memType && r.0.attributes == found.value.attributes
                            && r.0.permissions == found.value.permissions
    ensures found.None? ==> r.0.address == Wrap64(addressSpace.address + addressSpace.size)
                            && r.0.memType == reservedType && r.0.attributes == 0 && r.0.permissions == 0
    ensures found.None? ==> (r.0.address + r.0.size) % U64_MODULUS == 0
    ensures found.None? && r.0.address != 0 ==> r.0.address + r.0.size == U64_MODULUS
  {
    match found
    case Some(b) => (MemoryInfo(b.address, b.size, b.memType, b.attributes, b.permissions, 0, 0), Reply(Success, None))
    case None =>
      var end := Wrap64(addressSpace.address + addressSpace.size);
      (MemoryInfo(end, Wrap64(Not64(end) + 1), reservedType, 0, 0, 0, 0), Reply(Success, None))
  }

  // -------------------------------------------------------------------------
  // svcCreateThread (svc.cpp:220-237)
  // -------------------------------------------------------------------------

  /** `static_cast<i8>` of a 32-bit register: its low byte, two's complement. */
  function ToI8(w: u32): (r: i8)
    ensures (r + 0x100) % 0x100 == w % 0x100
  {
    var b := w % 0x100;
    if b < 0x80 then b else b - 0x100
  }

  /** A priority outside the thread's range is reported as InvalidAddress;
      otherwise a new thread gets a handle, returned in w1. The thread's
      creation itself is not part of this model. */
  method CreateThread(handles: HandleTable, regs: Registers, validPriority: i8 -> bool) returns (reply: Reply)
    requires handles.Valid()
    modifies handles
    ensures handles.Valid()
    ensures !validPriority(ToI8(W(regs.x4))) ==> reply == Reply(InvalidAddress, None) && unchanged(handles)
    ensures validPriority(ToI8(W(regs.x4))) ==>
              && reply.result == Success && reply.out.Some?
              && reply.out.value !in old(handles.objects)
              && handles.objects == old(handles.objects)[reply.out.value := OtherObject(KThread)]
  {
    if !validPriority(ToI8(W(regs.x4))) {
      return Reply(InvalidAddress, None);
    }
    var h := handles.NewHandle(OtherObject(KThread));
    reply := Reply(Success, Some(h));
  }

  // -------------------------------------------------------------------------
  // svcMapSharedMemory and svcCreateTransferMemory (svc.cpp:310-374)
  // -------------------------------------------------------------------------

  /** A permission with write or execute but without read is refused. */
  predicate PermissionValid(p: PrivateMemory.Permission) {
    !((p.w && !p.r) || (p.x && !p.r))
  }

  /** Equivalently: read is granted, or nothing is. */
  lemma PermissionValidMeansReadable(p: PrivateMemory.Permission)
    ensures PermissionValid(p) <==> p.r || (!p.w && !p.x)
  {
  }

  /** A handle (w0) that does not name shared memory is InvalidHandle, before
      any other check; then the address (x1), the size (x2) and the
      permission (w3, decoded) are checked. Mapping the object is not part
      of this model: `mapThrows` says whether it throws, and the handler
      catches that exception as InvalidHandle too. */
  function MapSharedMemory(kind: Option<KType>, regs: Registers, c: Constants, permission: PrivateMemory.Permission,
                           mapThrows: bool)
    : (r: Reply)
    ensures r.out == None
    ensures r.result == Success <==>
              kind == Some(KSharedMemory) && PageAligned(regs.x1, c.pageSize) && PageAligned(regs.x2, c.pageSize)
              && PermissionValid(permission) && !mapThrows
    ensures r.result == InvalidHandle <==>
              kind != Some(KSharedMemory)
              || (PageAligned(regs.x1, c.pageSize) && PageAligned(regs.x2, c.pageSize) && PermissionValid(permission) && mapThrows)
    ensures r.result == InvalidNewMemoryPermission <==>
              kind == Some(KSharedMemory) && PageAligned(regs.x1, c.pageSize) && PageAligned(regs.x2, c.pageSize)
              && !PermissionValid(permission)
  {
    if kind != Some(KSharedMemory) then Reply(InvalidHandle, None)
    else if !PageAligned(regs.x1, c.pageSize) then Reply(InvalidAddress, None)
    else if !PageAligned(regs.x2, c.pageSize) then Reply(InvalidSize, None)
    else if !PermissionValid(permission) then Reply(InvalidNewMemoryPermission, None)
    else if mapThrows then Reply(InvalidHandle, None)
    else Reply(Success, None)
  }

  /** The checks of svcCreateTransferMemory (address x1, size x2, permission
      w3) in order; None when they pass. */
  function TransferMemoryCheck(regs: Registers, c: Constants, permission: PrivateMemory.Permission): (r: Option<SvcResult>)
    ensures r.None? <==> PageAligned(regs.x1, c.pageSize) && PageAligned(regs.x2, c.pageSize) && PermissionValid(permission)
    ensures r == Some(InvalidNewMemoryPermission) <==>
              PageAligned(regs.x1, c.pageSize) && PageAligned(regs.x2, c.pageSize) && !PermissionValid(permission)
  {
    if !PageAligned(regs.x1, c.pageSize) then Some(InvalidAddress)
    else if !PageAligned(regs.x2, c.pageSize) then Some(InvalidSize)
    else if !PermissionValid(permission) then Some(InvalidNewMemoryPermission)
    else None
  }

  /** After the checks, a new transfer-memory object gets a handle, returned in w1. */
  method CreateTransferMemory(handles: HandleTable, regs: Registers, c: Constants, permission: PrivateMemory.Permission)
    returns (reply: Reply)
    requires handles.Valid()
    modifies handles
    ensures handles.Valid()
    ensures var check := TransferMemoryCheck(regs, c, permission);
            check.Some? ==> reply == Reply(check.value, None) && unchanged(handles)
    ensures TransferMemoryCheck(regs, c, permission).None? ==>
              && reply.result == Success && reply.out.Some?
              && reply.out.value !in old(handles.objects)
              && handles.objects == old(handles.objects)[reply.out.value := OtherObject(KTransferMemory)]
  {
    var check := TransferMemoryCheck(regs, c, permission);
    if check.Some? {
      return Reply(check.value, None);
    }
    var h := handles.NewHandle(OtherObject(KTransferMemory));
    reply := Reply(Success, Some(h));
  }

  // -------------------------------------------------------------------------
  // svcCloseHandle (svc.cpp:376-386)
  // -------------------------------------------------------------------------

  /** The handle in w0 is erased from the table; erasing a handle that is
      not in use is not an error, so the call always succeeds. */
  method CloseHandle(handles: HandleTable, regs: Registers) returns (reply: Reply)
    requires handles.Valid()
    modifies handles
    ensures handles.Valid()
    ensures reply == Reply(Success, None)
    ensures handles.objects == old(handles.objects) - {W(regs.x0)}
  {
    handles.DeleteHandle(W(regs.x0));
    reply := Reply(Success, None);
  }

  // -------------------------------------------------------------------------
  // svcWaitSynchronization (svc.cpp:417-480)
  // -------------------------------------------------------------------------

  predicate Waitable(k: KType) {
    k == KProcess || k == KThread || k == KEvent || k == KSession
  }

  /** The walk over the handles to wait on: a handle not in the table is an
      error (the table lookup throws); a handle of a kind that cannot be
      waited on ends the walk with false; true when every handle is fine. */
  function WaitHandlesValid(waitHandles: seq<Handle>, objects: map<Handle, KObject>): (r: Result<bool>)
    ensures r == Ok(true) <==> forall i :: 0 <= i < |waitHandles| ==>
                                  waitHandles[i] in objects && Waitable(objects[waitHandles[i]].Kind())
    ensures r.Err? ==> exists i :: 0 <= i < |waitHandles| && waitHandles[i] !in objects
    ensures r == Ok(false) ==> exists i :: 0 <= i < |waitHandles| && waitHandles[i] in objects
                                           && !Waitable(objects[waitHandles[i]].Kind())
  {
    if waitHandles == [] then Ok(true)
    else if waitHandles[0] !in objects then Err("handle not in table")
    else if !Waitable(objects[waitHandles[0]].Kind()) then Ok(false)
    else
      var rest := WaitHandlesValid(waitHandles[1..], objects);
      assert forall i :: 1 <= i < |waitHandles| ==> waitHandles[i] == waitHandles[1..][i - 1];
      rest
  }

  /** The checks before waiting: more than 0x40 handles is OutOfHandles, an
      unknown handle is an error and a handle that cannot be waited on is
      InvalidHandle; None when the wait can start. The handles are those
      read from guest memory at x1, as many as w2 says. */
  method WaitSynchronizationCheck(regs: Registers, waitHandles: seq<Handle>, objects: map<Handle, KObject>)
    returns (r: Result<Option<Reply>>)
    requires |waitHandles| == W(regs.x2) || W(regs.x2) > MaxSyncHandles
    ensures W(regs.x2) > MaxSyncHandles ==> r == Ok(Some(Reply(OutOfHandles, None)))
    ensures W(regs.x2) <= MaxSyncHandles ==>
              && (r.Err? <==> WaitHandlesValid(waitHandles, objects).Err?)
              && (r == Ok(Some(Reply(InvalidHandle, None))) <==> WaitHandlesValid(waitHandles, objects) == Ok(false))
              && (r == Ok(None) <==> WaitHandlesValid(waitHandles, objects) == Ok(true))
  {
    if W(regs.x2) > MaxSyncHandles {
      return Ok(Some(Reply(OutOfHandles, None)));
    }
    var i := 0;
    while i < |waitHandles|
      invariant 0 <= i <= |waitHandles|
      invariant WaitHandlesValid(waitHandles, objects) == WaitHandlesValid(waitHandles[i..], objects)
    {
      if waitHandles[i] !in objects {
        return Err("svcWaitSynchronization: handle not in table");
      }
      if !Waitable(objects[waitHandles[i]].Kind()) {
        return Ok(Some(Reply(InvalidHandle, None)));
      }
      assert waitHandles[i..][1..] == waitHandles[i + 1..];
      i := i + 1;
    }
    r := Ok(None);
  }

  /** The index of the first signalled object, or the count when none is. */
  function FirstSignalled(signalled: seq<bool>): (r: nat)
    ensures r <= |signalled|
    ensures forall i :: 0 <= i < r ==> !signalled[i]
    ensures r < |signalled| ==> signalled[r]
  {
    if signalled == [] then 0
    else if signalled[0] then 0
    else 1 + FirstSignalled(signalled[1..])
  }

  /** One round of the wait: a pending cancel is consumed first and gives
      Cancelled; then the first signalled object's index is returned in w1;
      then a wait whose elapsed time reached the timeout gives TimedOut;
      otherwise (None) the wait goes on. The second value is the thread's
      cancel flag afterwards. */
  function PollOutcome(cancelSync: bool, signalled: seq<bool>, elapsed: u64, timeout: u64): (r: (Option<Reply>, bool))
    ensures cancelSync ==> r == (Some(Reply(Cancelled, None)), false)
    ensures !cancelSync ==> !r.1
    ensures !cancelSync && FirstSignalled(signalled) < |signalled| ==>
              r.0 == Some(Reply(Success, Some(FirstSignalled(signalled))))
    ensures !cancelSync && FirstSignalled(signalled) == |signalled| ==>
              r.0 == (if elapsed >= timeout then Some(Reply(TimedOut, None)) else None)
  {
    if cancelSync then (Some(Reply(Cancelled, None)), false)
    else if FirstSignalled(signalled) < |signalled| then (Some(Reply(Success, Some(FirstSignalled(signalled)))), false)
    else if elapsed >= timeout then (Some(Reply(TimedOut, None)), false)
    else (None, false)
  }

  /** One round of the wait, as the loop over the objects does it. */
  method Poll(cancelSync: bool, signalled: seq<bool>, now: u64, start: u64, timeout: u64) returns (reply: Option<Reply>, cancel: bool)
    ensures (reply, cancel) == PollOutcome(cancelSync, signalled, Wrap64(now - start), timeout)
  {
    if cancelSync {
      return Some(Reply(Cancelled, None)), false;
    }
    var index := 0;
    while index < |signalled|
      invariant 0 <= index <= |signalled|
      invariant forall i :: 0 <= i < index ==> !signalled[i]
    {
      if signalled[index] {
        FirstSignalledIsFirst(signalled, index);
        return Some(Reply(Success, Some(index))), false;
      }
      index := index + 1;
    }
    FirstSignalledIsFirst(signalled, |signalled|);
    if Wrap64(now - start) >= timeout {
      return Some(Reply(TimedOut, None)), false;
    }
    reply, cancel := None, false;
  }

  /** FirstSignalled is the only index with its two properties. */
  lemma {:induction false} FirstSignalledIsFirst(signalled: seq<bool>, k: nat)
    requires k <= |signalled|
    requires forall i :: 0 <= i < k ==> !signalled[i]
    requires k < |signalled| ==> signalled[k]
    ensures FirstSignalled(signalled) == k
  {
    if signalled != [] && !signalled[0] {
      assert forall i :: 0 <= i < k - 1 ==> !signalled[1..][i] by {
        forall i | 0 <= i < k - 1 ensures !signalled[1..][i] {
          assert signalled[1..][i] == signalled[i + 1];
        }
      }
      FirstSignalledIsFirst(signalled[1..], k - 1);
    }
  }

  /** A zero timeout still looks at the objects once, and then stops. */
  lemma ZeroTimeoutPollsOnce(signalled: seq<bool>, elapsed: u64)
    ensures PollOutcome(false, signalled, elapsed, 0).0.Some?
    ensures PollOutcome(false, signalled, elapsed, 0).0.value.result == (if true in signalled then Success else TimedOut)
  {
    if true in signalled {
      var i :| 0 <= i < |signalled| && signalled[i];
      assert FirstSignalled(signalled) <= i;
    } else {
      assert FirstSignalled(signalled) == |signalled|;
    }
  }

  // -------------------------------------------------------------------------
  // Mutexes and condition variables (svc.cpp:491-571)
  // -------------------------------------------------------------------------

  function AsWord(x: u64): Process.Word {
    W(x) as Process.Word
  }

  /** A mutex address (x1) that is not word-aligned is InvalidAddress; a
      requester handle (w2) other than the caller's is an error. Otherwise
      the lock is attempted with the owner handle in w0 and the call
      succeeds whatever the outcome. */
  method ArbitrateLock(p: Process.KProcess, regs: Registers, c: Constants, current: Process.ThreadRef)
    returns (r: Result<Reply>, outcome: Option<Process.LockOutcome>)
    modifies p
    ensures !WordAligned(regs.x1, c.wordBit) ==> r == Ok(Reply(InvalidAddress, None)) && outcome == None && unchanged(p)
    ensures WordAligned(regs.x1, c.wordBit) && AsWord(regs.x2) != current.handle ==> r.Err? && unchanged(p)
    ensures WordAligned(regs.x1, c.wordBit) && AsWord(regs.x2) == current.handle ==>
              && r == Ok(Reply(Success, None)) && outcome.Some?
              && outcome.value == Process.LockDecision(old(Process.Load(p.words, regs.x1)),
                                                      old(Process.Waiters(p.mutexes, regs.x1)) == [],
                                                      AsWord(regs.x0), p.ownerMask)
              && (outcome.value.Acquired? ==>
                    p.words == old(p.words)[regs.x1 := p.ownerMask & current.handle] && p.mutexes == old(p.mutexes))
              && (outcome.value.Refused? ==> p.words == old(p.words) && p.mutexes == old(p.mutexes))
              && (outcome.value.Enqueued? ==>
                    && p.words == old(p.words)
                    && p.mutexes == old(p.mutexes)[regs.x1 := Process.PriorityInsert(old(Process.Waiters(p.mutexes, regs.x1)),
                                                      Process.WaitStatus(current.priority, current.handle, 0, false))])
              && p.conditionals == old(p.conditionals)
  {
    if !WordAligned(regs.x1, c.wordBit) {
      return Ok(Reply(InvalidAddress, None)), None;
    }
    if AsWord(regs.x2) != current.handle {
      return Err("svcArbitrateLock: Handle doesn't match current thread"), None;
    }
    var o := p.MutexLock(regs.x1, AsWord(regs.x0), current);
    r, outcome := Ok(Reply(Success, None)), Some(o);
  }

  /** A mutex address (x0) that is not word-aligned is InvalidAddress; an
      unlock the caller may not do is InvalidAddress too. */
  method ArbitrateUnlock(p: Process.KProcess, regs: Registers, c: Constants, self: Process.Word) returns (reply: Reply)
    modifies p
    ensures !WordAligned(regs.x0, c.wordBit) ==> reply == Reply(InvalidAddress, None) && unchanged(p)
    ensures WordAligned(regs.x0, c.wordBit) ==>
              var released := Process.UnlockReleases(old(Process.Load(p.words, regs.x0)), self, p.ownerMask);
              var ws := old(Process.Waiters(p.mutexes, regs.x0));
              var desired := Process.UnlockDesired(ws, p.ownerMask);
              && reply == Reply(if released then Success else InvalidAddress, None)
              && p.words == (if released then old(p.words)[regs.x0 := desired] else old(p.words))
              && p.mutexes == (if released && desired != 0 then old(p.mutexes)[regs.x0 := ws[0 := ws[0].(flag := true)]]
                               else old(p.mutexes))
              && p.conditionals == old(p.conditionals)
  {
    if !WordAligned(regs.x0, c.wordBit) {
      return Reply(InvalidAddress, None);
    }
    var released := p.MutexUnlock(regs.x0, self);
    reply := Reply(if released then Success else InvalidAddress, None);
  }

  /** The mutex (x0) must be word-aligned and the handle (w2) the caller's;
      the caller releases the mutex (InvalidAddress if it may not) and queues
      on the condition variable (x1). `None` means the thread now waits;
      its reply comes from `WaitProcessWideKeyAtomicWoken`. */
  method WaitProcessWideKeyAtomic(p: Process.KProcess, regs: Registers, c: Constants, current: Process.ThreadRef)
    returns (r: Result<Option<Reply>>)
    modifies p
    ensures !WordAligned(regs.x0, c.wordBit) ==> r == Ok(Some(Reply(InvalidAddress, None))) && unchanged(p)
    ensures WordAligned(regs.x0, c.wordBit) && AsWord(regs.x2) != current.handle ==> r.Err? && unchanged(p)
    ensures WordAligned(regs.x0, c.wordBit) && AsWord(regs.x2) == current.handle ==>
              var released := Process.UnlockReleases(old(Process.Load(p.words, regs.x0)), current.handle, p.ownerMask);
              var ws := old(Process.Waiters(p.mutexes, regs.x0));
              var desired := Process.UnlockDesired(ws, p.ownerMask);
              && p.words == (if released then old(p.words)[regs.x0 := desired] else old(p.words))
              && p.mutexes == (if released && desired != 0 then old(p.mutexes)[regs.x0 := ws[0 := ws[0].(flag := true)]]
                               else old(p.mutexes))
              && (!released ==> r == Ok(Some(Reply(InvalidAddress, None))) && p.conditionals == old(p.conditionals))
              && (released ==> (r == Ok(None)
                   && p.conditionals == old(p.conditionals)[regs.x1 :=
                        Process.PriorityInsert(old(Process.Waiters(p.conditionals, regs.x1)),
                                               Process.WaitStatus(current.priority, current.handle, regs.x0, false))]))
  {
    if !WordAligned(regs.x0, c.wordBit) {
      return Ok(Some(Reply(InvalidAddress, None)));
    }
    if AsWord(regs.x2) != current.handle {
      return Err("svcWaitProcessWideKeyAtomic: Handle doesn't match current thread");
    }
    var released := p.MutexUnlock(regs.x0, current.handle);
    if !released {
      return Ok(Some(Reply(InvalidAddress, None)));
    }
    p.ConditionalVariableWait(regs.x1, regs.x0, current);
    r := Ok(None);
  }

  /** The waiting thread was signalled: Success, or TimedOut when its timeout
      (x3) had elapsed. */
  method WaitProcessWideKeyAtomicWoken(p: Process.KProcess, conditionalAddress: u64, handle: Process.Word, timedOut: bool)
    returns (reply: Reply)
    requires var ws := Process.Waiters(p.conditionals, conditionalAddress);
             Process.FindHandle(ws, handle) < |ws| && ws[Process.FindHandle(ws, handle)].flag
    modifies p
    ensures reply == Reply(if timedOut then TimedOut else Success, None)
    ensures p.conditionals == old(p.conditionals)[conditionalAddress :=
              Process.EraseFirst(old(Process.Waiters(p.conditionals, conditionalAddress)), handle)]
  {
    var woken := p.ConditionalVariableWaitWoken(conditionalAddress, handle, timedOut);
    reply := Reply(if woken then Success else TimedOut, None);
  }

  /** Wakes up to w1 waiters of the condition variable at x0; always succeeds. */
  method SignalProcessWideKey(p: Process.KProcess, regs: Registers, self: Process.Word) returns (reply: Reply, woken: nat)
    modifies p
    ensures reply == Reply(Success, None)
    ensures var ws := old(Process.Waiters(p.conditionals, regs.x0));
            && woken == Process.Min(W(regs.x1), |ws|)
            && p.words == Process.SignalFold(old(p.words), ws[..woken], self, p.ownerMask).0
            && p.conditionals == old(p.conditionals)[regs.x0 := Process.FlagFirst(ws, woken)]
            && p.mutexes == old(p.mutexes)
  {
    var queued;
    woken, queued := p.ConditionalVariableSignal(regs.x0, W(regs.x1), self);
    reply := Reply(Success, None);
  }

  // -------------------------------------------------------------------------
  // svcGetInfo (svc.cpp:636-723)
  // -------------------------------------------------------------------------

  /** The values of id0 the handler lists, and any other. */
  datatype InfoId =
    | AllowedCpuIdBitmask
    | AllowedThreadPriorityMask
    | IsCurrentProcessBeingDebugged
    | TitleId
    | PrivilegedProcessId
    | AliasRegionBaseAddr
    | AliasRegionSize
    | HeapRegionBaseAddr
    | HeapRegionSize
    | TotalMemoryAvailable
    | TotalMemoryUsage
    | AddressSpaceBaseAddr
    | AddressSpaceSize
    | StackRegionBaseAddr
    | StackRegionSize
    | PersonalMmHeapSize
    | PersonalMmHeapUsage
    | TotalMemoryAvailableWithoutMmHeap
    | TotalMemoryUsedWithoutMmHeap
    | UserExceptionContextAddr
    | UnlistedInfo(raw: u32)

  /** What GetInfo reads: the memory manager's regions and program size,
      the process heap's size and address, and the address of slot 0 of the
      process's first TLS page. */
  datatype InfoSource = InfoSource(alias: Region, heapRegion: Region, base: Region, stack: Region,
                                   programSize: u64, heapSize: u64, heapAddress: u64, userExceptionContext: u64)

  /** A listed id0 succeeds with its value in x1; any other is InvalidEnumValue. */
  function GetInfo(id0: InfoId, s: InfoSource): (r: Reply)
    ensures r.result == Success <==> !id0.UnlistedInfo?
    ensures r.result == Success <==> r.out.Some?
    ensures !id0.UnlistedInfo? ==> r.out.value < U64_MODULUS
    ensures id0 in {TotalMemoryAvailable, PersonalMmHeapSize, TotalMemoryAvailableWithoutMmHeap} ==>
              r.out == Some(TotalPhysicalMemory)
    ensures id0 in {AllowedCpuIdBitmask, AllowedThreadPriorityMask, IsCurrentProcessBeingDebugged, TitleId, PrivilegedProcessId} ==>
              r.out == Some(0)
  {
    match id0
    case UnlistedInfo(_) => Reply(InvalidEnumValue, None)
    case _ => Reply(Success, Some(InfoValue(id0, s)))
  }

  /** The value of a listed id0. Memory usage adds the heap's size, the
      default stack size and (for TotalMemoryUsage) the program's size,
      in 64-bit arithmetic. */
  function InfoValue(id0: InfoId, s: InfoSource): u64
    requires !id0.UnlistedInfo?
  {
    match id0
    case AllowedCpuIdBitmask | AllowedThreadPriorityMask | IsCurrentProcessBeingDebugged | TitleId | PrivilegedProcessId => 0
    case AliasRegionBaseAddr => s.alias.address
    case AliasRegionSize => s.alias.size
    case HeapRegionBaseAddr => s.heapRegion.address
    case HeapRegionSize => s.heapRegion.size
    case TotalMemoryAvailable => TotalPhysicalMemory
    case TotalMemoryUsage => Wrap64(s.heapSize + DefStackSize + s.programSize)
    case AddressSpaceBaseAddr => s.base.address
    case AddressSpaceSize => s.base.size
    case StackRegionBaseAddr => s.stack.address
    case StackRegionSize => s.stack.size
    case PersonalMmHeapSize => TotalPhysicalMemory
    case PersonalMmHeapUsage => Wrap64(s.heapAddress + DefStackSize)
    case TotalMemoryAvailableWithoutMmHeap => TotalPhysicalMemory
    case TotalMemoryUsedWithoutMmHeap => Wrap64(s.heapSize + DefStackSize)
    case UserExceptionContextAddr => s.userExceptionContext
  }

  /** The memory in use without the program's image is the total in use
      minus the program's size, modulo 2^64. */
  lemma UsageWithoutProgram(s: InfoSource)
    ensures Wrap64(InfoValue(TotalMemoryUsedWithoutMmHeap, s) + s.programSize) == InfoValue(TotalMemoryUsage, s)
  {
    var x := s.heapSize + DefStackSize;
    assert Wrap64(Wrap64(x) + s.programSize) == Wrap64(x + s.programSize) by {
      ModUnique(x, U64_MODULUS, x / U64_MODULUS, x % U64_MODULUS);
      var q := x / U64_MODULUS;
      assert Wrap64(x) + s.programSize == x + s.programSize - q * U64_MODULUS;
      ModAddMultiple(x + s.programSize, q);
    }
  }

  lemma ModAddMultiple(a: nat, q: nat)
    requires a >= q * U64_MODULUS
    ensures (a - q * U64_MODULUS) % U64_MODULUS == a % U64_MODULUS
  {
    ModUnique(a - q * U64_MODULUS, U64_MODULUS, a / U64_MODULUS - q, a % U64_MODULUS);
  }
}
