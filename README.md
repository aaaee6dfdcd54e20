# A Dafny model of the skyline emulator's core

skyline runs Nintendo Switch (Horizon OS) programs on Android. It emulates the
guest kernel and a catalogue of system services, and its Kotlin front end reads
the game files a user picks. This project models the parts of that code that
compute something. Each model is stated in Dafny and its promises are proved.

- **Kernel.**
  - A process's TLS pages and slots.
  - Guest mutexes and condition variables, with their priority-ordered waiter lists.
  - Private memory objects and the handle table.
  - The supervisor calls that use these: memory and heap calls, handles, synchronisation and `GetInfo`.
  - Sessions, with their domain object tables.
- **Services.**
  - The service manager.
  - The graphic buffer producer of the display service, and nvmap.
  - The applet controller, applet functions and applet storage.
  - The settings server and the platform (shared font) service.
  - Audio output and audio renderer voices.
  - The filesystem directory and storage services.
- **Loading.**
  - The executable loader's segment layout.
  - Backing stores and the virtual file system's paths.
  - The key store.
  - NSP container lookup and NACP titles.
  - The Kotlin NRO loader and ROM file format detection.
- **Graphics and input.**
  - Texture formats.
  - GPFIFO entries and pushbuffer method headers.
  - Parcels.
  - The shared-memory layout of the input (npad) section.

There is one Dafny module per source file, in a file of the same stem.

- Objects that the source updates in place are classes. Their fields are
  sequences, maps and arrays, and their methods carry `modifies` clauses.
- Parsing, encoding and arithmetic are functions, with lemmas about them.
- A thrown exception (`skyline::exception`, an `IOException`, a
  `NullPointerException`) is a `Result.Err`.
- A Horizon result code is a `HosResult` value.

Fixed-width integers are subset types of `int` (`u8` … `u64`, `i32`, `i64`).
Wrap-around and truncation are written out where the source relies on them.

## Model

| member | source | states |
|---|---|---|
| Common.MakeResult | app/src/main/cpp/skyline/common.h:47-50 | the module field of a result code is the module id in 9 bits and the description field is the id in 12 bits; the code is Success exactly when both truncated ids are zero |
| Common.TicksToNsRoundsHalfUp | app/src/main/cpp/skyline/common.h:88-95 | whenever the whole seconds scaled to nanoseconds fit in 64 bits (and the frequency is below about 1.8*10^10 Hz), the conversion is `ticks * 10^9` divided by the frequency, rounded to nearest with halves up, even when `ticks * 10^9` itself overflows: it is the unique integer q with `q * f <= ticks * 10^9 + f / 2 < (q + 1) * f` |
| Common.AlignUpIsCeiling | app/src/main/cpp/skyline/common.h:111-115 | for a power-of-two multiple, `AlignUp` gives a multiple of it that is at least the value and less than the value plus the multiple |
| Common.AlignDownIsFloor | app/src/main/cpp/skyline/common.h:121-124 | for a power-of-two multiple, `AlignDown` gives a multiple of it that is at most the value and more than the value minus the multiple |
| Common.IsAlignedIsDivisibility | app/src/main/cpp/skyline/common.h:129-135 | `IsAligned` holds exactly when the value is divisible by the multiple; with a zero multiple, only for zero |
| Common.AlignedToZero | app/src/main/cpp/skyline/common.h:129-135 | alignment to zero is equality with zero |
| Common.AlignedToPositive | app/src/main/cpp/skyline/common.h:129-135 | alignment to a positive multiple is divisibility, whether the multiple is a power of two or not |
| Common.MakeMagicIsLittleEndian | app/src/main/cpp/skyline/common.h:155-166 | `MakeMagic` packs the characters little-endian: the first character is the lowest byte, and the result fits in `8 * n` bits |
| Common.MakeMagicByte | app/src/main/cpp/skyline/common.h:155-166 | the i-th byte of a magic is its i-th character |
| Common.MagicBytes | app/src/main/cpp/skyline/common.h:155-166 | a magic stored in n bytes is its characters followed by zero padding |
| Common.HexDigitToByte | app/src/main/cpp/skyline/common.h:168-176 | a character converts exactly when it is a hexadecimal digit, to a value below 16; anything else throws |
| Common.HexDigitRoundTrip | app/src/main/cpp/skyline/common.h:168-176 | every value below 16 converts back from its digit |
| Common.HexStringToArray | app/src/main/cpp/skyline/common.h:178-188 | the string converts exactly when it has twice the requested length and only hex digits; byte i is 16 times digit 2i plus digit 2i+1 |
| Common.HexPairs | app/src/main/cpp/skyline/common.h:178-188 | the pairwise decoding succeeds exactly on hex strings, and each output byte is the value of its digit pair |
| Common.HexRoundTrip | app/src/main/cpp/skyline/common.h:178-188 | decoding the hex spelling of any byte string gives the bytes back |
| Common.SpanAsReadsPrefix | app/src/main/cpp/skyline/common.h:220-224 | `as<Out>` of a span that starts with an object's bytes gives those bytes back, whatever follows (SpanAs throws exactly when the span is shorter than the object) |
| Common.SpanAsString | app/src/main/cpp/skyline/common.h:229-231 | `as_string` gives a prefix of the span: all of it when not null-terminated, otherwise the bytes up to the first NUL, which contain no NUL |
| Common.UntilNulPadded | app/src/main/cpp/skyline/common.h:229-231 | a NUL-free string padded with NULs reads back as itself |
| Common.SpanCast | app/src/main/cpp/skyline/common.h:233-238 | `cast<Out>` throws exactly when the size is not a multiple of the element size, and otherwise yields size / element size elements |
| Common.SpanCastRoundTrip | app/src/main/cpp/skyline/common.h:233-238 | the cast elements all have the element size and concatenate back to the span |
| Common.CopyFrom | app/src/main/cpp/skyline/common.h:244-250 | `copy_from` throws, leaving the destination alone, exactly when the destination is smaller than the byte count; otherwise the destination starts with that many source bytes and keeps its other bytes |
| PrivateMemory.CheckPlacement | app/src/main/cpp/skyline/kernel/types/KPrivateMemory.cpp:12-15 | a placement is accepted exactly when both ends lie inside the guest address space and the start and size are page-aligned |
| PrivateMemory.KPrivateMemory.Create | app/src/main/cpp/skyline/kernel/types/KPrivateMemory.cpp:11-26 | construction throws exactly when the placement check fails, and registers nothing then; otherwise exactly one chunk is registered: the whole object with its permission and state |
| PrivateMemory.ResizeChunk | app/src/main/cpp/skyline/kernel/types/KPrivateMemory.cpp:32-45 | Resize registers nothing when the size is unchanged; a shrink registers the dropped tail as Unmapped with no permission; a growth registers the added tail with the object's permission and state |
| PrivateMemory.KPrivateMemory.Resize | app/src/main/cpp/skyline/kernel/types/KPrivateMemory.cpp:28-48 | the object takes the new size and keeps its start, permission and state; the memory map gains exactly the chunk `ResizeChunk` describes |
| PrivateMemory.ResizeView | app/src/main/cpp/skyline/kernel/types/KPrivateMemory.cpp:28-48 | after Resize, the part of the object that remains maps as before; a grown tail reads with the object's permission and state; a dropped tail reads as Unmapped; every other address is untouched |
| PrivateMemory.KPrivateMemory.Remap | app/src/main/cpp/skyline/kernel/types/KPrivateMemory.cpp:50-54 | Remap throws exactly when the new placement fails the placement check |
| PrivateMemory.ClampRange | app/src/main/cpp/skyline/kernel/types/KPrivateMemory.cpp:64-65 | the permission range always lies inside the object; a start already inside the object is kept; the length is the requested one cut at the object's end |
| PrivateMemory.Promote | app/src/main/cpp/skyline/kernel/types/KPrivateMemory.cpp:70-72 | the state becomes CodeMutable exactly when it already was, or it was CodeStatic and write is granted; CodeStatic is the only state that changes |
| PrivateMemory.PromoteIsMonotone | app/src/main/cpp/skyline/kernel/types/KPrivateMemory.cpp:70-72 | over any series of permission updates, a CodeMutable region stays so, no other state but CodeStatic ever changes, and CodeStatic becomes CodeMutable exactly when some update grants write |
| PrivateMemory.KPrivateMemory.UpdatePermission | app/src/main/cpp/skyline/kernel/types/KPrivateMemory.cpp:63-80 | throws exactly when the clamped start is non-null and not page-aligned, changing nothing; otherwise the state is promoted and the clamped range is registered with the new permission; the object's extent and recorded permission stay as they were |
| PrivateMemory.UpdatePermissionView | app/src/main/cpp/skyline/kernel/types/KPrivateMemory.cpp:74-79 | after UpdatePermission, every address of the clamped range lies in the object and reads with the new permission and the promoted state; addresses outside the range are untouched |
| PrivateMemory.KPrivateMemory.Destroy | app/src/main/cpp/skyline/kernel/types/KPrivateMemory.cpp:82-89 | the destructor registers the object's whole extent as Unmapped with no permission |
| Process.TlsPage.constructor | app/src/main/cpp/skyline/kernel/types/KProcess.cpp:14 | a new page has every slot free and its cursor at slot 0 |
| Process.TlsPage.Get | app/src/main/cpp/skyline/kernel/types/KProcess.cpp:24-29 | a slot number past the page's last slot throws; otherwise the address is the page address plus the slot size times the number, and the whole slot lies inside the page's slots |
| Process.TlsPage.Full | app/src/main/cpp/skyline/kernel/types/KProcess.cpp:31-33 | on a valid page, reading the last slot's flag means exactly that the cursor has reached the end |
| Process.TlsPage.ReserveSlot | app/src/main/cpp/skyline/kernel/types/KProcess.cpp:16-22 | a full page throws and is left unchanged; otherwise the slot at the cursor is marked and its address returned, and the cursor advances by one; exactly the slots below the cursor stay marked |
| Process.SlotAddressesIncrease | app/src/main/cpp/skyline/kernel/types/KProcess.cpp:24-29 | distinct slots of a page have distinct addresses, increasing with the slot number |
| Process.GetHostAddress | app/src/main/cpp/skyline/kernel/types/KProcess.cpp:105-108 | the host address is 0 exactly when no chunk covers the address or the chunk has no host mapping |
| Process.HostAddressKeepsOffsets | app/src/main/cpp/skyline/kernel/types/KProcess.cpp:105-108 | within one host-backed chunk, translation is a shift: distances between guest addresses are kept on the host side |
| Process.KProcess.constructor | app/src/main/cpp/skyline/kernel/types/KProcess.cpp:64-74 | a new process has no TLS pages, no issued slots and empty waiter lists |
| Process.KProcess.GetTlsSlot | app/src/main/cpp/skyline/kernel/types/KProcess.cpp:35-56 | a slot comes from the first page with room, or else from a new thread-local page one page after the last (the first at the TLS-IO base, or 0 when there is none); every slot is above every slot issued before, so no slot is issued twice; a new page is registered as a read-write thread-local chunk; the mutex and condition-variable state is untouched |
| Process.KProcess.MapTlsPage | app/src/main/cpp/skyline/kernel/types/KProcess.cpp:48-55 | with every page full, the new page is mapped at the next address and its first slot is that address; a failed mapping changes nothing |
| Process.KProcess.ReserveFromLastPage | app/src/main/cpp/skyline/kernel/types/KProcess.cpp:36-38 | the slot taken from the only page with room is the allocation frontier, above every issued slot |
| Process.KProcess.AppendTlsPage | app/src/main/cpp/skyline/kernel/types/KProcess.cpp:49 | the new page is empty, lies at the given address, and is appended after the existing pages, which are kept |
| Process.InsertIndex | app/src/main/cpp/skyline/kernel/types/KProcess.cpp:216-223 | a new waiter goes after every entry whose priority value is at least its own, and before the first entry with a smaller value |
| Process.InsertWaiter | app/src/main/cpp/skyline/kernel/types/KProcess.cpp:215-223 | the insertion loop builds exactly the priority insertion |
| Process.PriorityInsertKeepsOrder | app/src/main/cpp/skyline/kernel/types/KProcess.cpp:215-223 | inserting keeps the waiter list ordered by non-increasing priority value |
| Process.PriorityInsertAddsEntry | app/src/main/cpp/skyline/kernel/types/KProcess.cpp:215-223 | inserting adds exactly the new entry to the list's contents |
| Process.PriorityInsertPosition | app/src/main/cpp/skyline/kernel/types/KProcess.cpp:215-223 | in an ordered list the new entry lands behind every entry with an equal or larger value, so equal priorities keep arrival order |
| Process.FindHandle | app/src/main/cpp/skyline/kernel/types/KProcess.cpp:230-235 | the position found holds the first entry with the handle; no earlier entry has it |
| Process.EraseWaiter | app/src/main/cpp/skyline/kernel/types/KProcess.cpp:230-235 | the erase loop removes exactly the first entry with the handle |
| Process.EraseFirstKeepsOrder | app/src/main/cpp/skyline/kernel/types/KProcess.cpp:230-235 | erasing keeps the list ordered; it removes one entry with the handle when one exists and changes nothing otherwise |
| Process.RemoveAtKeepsOrder | app/src/main/cpp/skyline/kernel/types/KProcess.cpp:230-235 | removing any one entry of an ordered list keeps it ordered and keeps all other entries |
| Process.LockDecision | app/src/main/cpp/skyline/kernel/types/KProcess.cpp:206-213 | the lock is taken on the fast path exactly when nobody waits and the word is 0; it is refused exactly when the fast path fails and the word is not the owner handle with the waiter bit |
| Process.KProcess.MutexLock | app/src/main/cpp/skyline/kernel/types/KProcess.cpp:200-223 | an acquired mutex word becomes the caller's handle under the owner mask; a refusal changes nothing; otherwise the caller is inserted into the mutex's waiter list by priority and the word is left alone; the condition variables and TLS state are untouched |
| Process.KProcess.MutexLockWoken | app/src/main/cpp/skyline/kernel/types/KProcess.cpp:225-237 | a flagged waiter removes its own entry from the mutex queue and reports success, changing no word |
| Process.UnlockHandsOffToHead | app/src/main/cpp/skyline/kernel/types/KProcess.cpp:245-247 | the unlocked word names the head waiter, and has the waiter bit exactly when other waiters remain |
| Process.UnlockReleases | app/src/main/cpp/skyline/kernel/types/KProcess.cpp:249-255 | the intended release rule: only a word that names the caller can be released |
| Process.ReleasedWordShape | app/src/main/cpp/skyline/kernel/types/KProcess.cpp:249-255 | a releasable word carries either no waiter bits or all of them |
| Process.OwnerCanUnlock | app/src/main/cpp/skyline/kernel/types/KProcess.cpp:249-255 | the owner can always release its mutex, with or without the waiter bit |
| Process.UnlockAsWrittenReleasesForeignMutex | app/src/main/cpp/skyline/kernel/types/KProcess.cpp:249-255 | as written, thread 0x5678 releases the mutex that 0x1234 owns without waiters |
| Process.UnlockAsWrittenIgnoresCaller | app/src/main/cpp/skyline/kernel/types/KProcess.cpp:249-255 | as written, the second compare-and-swap succeeds for any word without waiter bits, whoever calls |
| Process.LockUnlockRoundTrip | app/src/main/cpp/skyline/kernel/types/KProcess.cpp:206-255 | a mutex taken on the fast path is released back to 0 by its taker |
| Process.KProcess.MutexUnlock | app/src/main/cpp/skyline/kernel/types/KProcess.cpp:240-266 | as intended (Findings row 1): only a caller the word names releases; the word then becomes the head waiter's handle with the waiter bit when others remain, or 0 without waiters, and the head waiter is flagged; a refusal changes nothing |
| Process.KProcess.ConditionalVariableWait | app/src/main/cpp/skyline/kernel/types/KProcess.cpp:268-280 | the caller is inserted by priority into the condition variable's list, remembering its mutex; nothing else changes |
| Process.KProcess.ConditionalVariableWaitWoken | app/src/main/cpp/skyline/kernel/types/KProcess.cpp:282-306 | the signalled waiter removes its entry and reports success unless its timeout elapsed while it waited |
| Process.SignalWord | app/src/main/cpp/skyline/kernel/types/KProcess.cpp:321-335 | the word is left alone exactly when it is held, not by the signaller, and has no waiter bit |
| Process.SignalWordOnlySetsBits | app/src/main/cpp/skyline/kernel/types/KProcess.cpp:321-335 | a signal never clears a bit of the mutex word; a free mutex goes to the waiter; a contended word held by another thread gains the waiter bit |
| Process.SignalFoldFrame | app/src/main/cpp/skyline/kernel/types/KProcess.cpp:309-373 | signalling touches only the mutex words of the waiters it visits, and queues at most one mutex hand-off per waiter |
| Process.FlagFirst | app/src/main/cpp/skyline/kernel/types/KProcess.cpp:365 | every waiter keeps its place, thread, priority and mutex address; an entry is flagged exactly when it is among the first `count` or was flagged before |
| Process.SignalledWaitersCanWake | app/src/main/cpp/skyline/kernel/types/KProcess.cpp:286-301 | after a signal of `count` waiters, each of them is found by its handle in the list with the flag its woken thread waits for set, and the list keeps its priority order |
| Process.KProcess.ConditionalVariableSignal | app/src/main/cpp/skyline/kernel/types/KProcess.cpp:309-373 | the first min(amount, waiters) waiters are visited in list order; each updates its mutex word by `SignalWord` and is queued for the mutex when the word is held by another thread; exactly those waiters are flagged; the mutex queues and TLS state are untouched |
| Session.PostIncrementAdd | app/src/main/cpp/skyline/kernel/types/KSession.h:30-34 | a post-increment allocation reports the old cursor, which now names the object; every other entry is kept and the cursor moves just past it |
| Session.PreIncrementAdd | app/src/main/cpp/skyline/services/serviceman.cpp:134-136 | a pre-increment allocation reports one past the old cursor, which now names the object; every other entry is kept and the cursor equals the reported handle |
| Session.PostIncrementKeepsFresh | app/src/main/cpp/skyline/kernel/types/KSession.h:30-34 | when every virtual handle in use is below the cursor, a post-increment allocation uses a handle not in use and keeps that property |
| Session.PostIncrementKeepsBounded | app/src/main/cpp/skyline/kernel/types/KSession.h:30-34 | a post-increment allocation keeps every virtual handle at most the cursor |
| Session.PreIncrementUsesCursor | app/src/main/cpp/skyline/services/serviceman.cpp:134-136 | a pre-increment allocation never reuses a handle of a bounded domain, but it leaves the cursor itself in use |
| Session.PreThenPostOverwrites | app/src/main/cpp/skyline/services/serviceman.cpp:134-151 | NewService and then RegisterService on one domain report the same virtual handle, and the second object replaces the first |
| Session.PostThenPreSkips | app/src/main/cpp/skyline/services/serviceman.cpp:134-151 | RegisterService and then NewService skip one virtual handle, which stays unused |
| Session.KSession.constructor | app/src/main/cpp/skyline/kernel/types/KSession.h:13-24 | a new session is open and not a domain, has an empty domain table and the cursor at the base virtual handle index, and takes its service's type |
| Session.KSession.ConvertDomain | app/src/main/cpp/skyline/kernel/types/KSession.h:30-34 | the session becomes a domain whose virtual handle at the old cursor names the session's own service, and that handle is returned; the session stays open or closed as before |
| ServiceManager.ReleasedTypes | app/src/main/cpp/skyline/services/serviceman.cpp:164-170 | a closing domain session releases exactly the types of its domain objects; any other session releases its own service's type |
| ServiceManager.Manager.constructor | app/src/main/cpp/skyline/services/serviceman.cpp:33 | the service cache starts empty |
| ServiceManager.Manager.CreateService | app/src/main/cpp/skyline/services/serviceman.cpp:35-122 | a cached instance is returned unchanged; otherwise a constructible type gets a new instance, cached under that type; an unlisted type throws and changes nothing; every cached instance stays cached under its own type |
| ServiceManager.Manager.NewSession | app/src/main/cpp/skyline/services/serviceman.cpp:124-127 | the call succeeds exactly when the type is cached or constructible, as CreateService does; the new handle was not in use and names a new session serving the instance now cached under the type; no other handle changes; the cache gains at most that one entry and is unchanged when the type was cached; a failure changes neither the handles nor the cache |
| ServiceManager.Manager.NewService | app/src/main/cpp/skyline/services/serviceman.cpp:129-143 | an unknown name or unconstructible type throws and changes nothing; otherwise the object returned is the instance cached under the name's type, the one already cached when there was one, and the cache gains only that entry; in a domain the service gets the pre-incremented virtual handle, reported in the response's domain objects; otherwise a new session handle on it is moved to the client and no other handle changes |
| ServiceManager.Manager.RegisterService | app/src/main/cpp/skyline/services/serviceman.cpp:145-159 | in a domain the object takes the current virtual handle, which is then advanced and reported; otherwise a new session handle on it is moved to the client and no other handle changes; a submodule is not cached, any other object is cached under its type |
| ServiceManager.Manager.CloseSession | app/src/main/cpp/skyline/services/serviceman.cpp:161-173 | closing an open session drops the cached instances of exactly the types it released and marks it closed; closing a closed session changes nothing; a handle that names no session throws |
| ServiceManager.Manager.EraseTypes | app/src/main/cpp/skyline/services/serviceman.cpp:166-167 | the loop over the domain table drops the types of all its objects from the cache, whatever order it visits them in |
| ServiceManager.Manager.HandleRequest | app/src/main/cpp/skyline/services/serviceman.cpp:184-206 | a plain request goes to the session's service or, in a domain, to the object its id names; an unknown id throws; CloseVHandle drops that object from the domain and its type from the cache |
| ServiceManager.Manager.HandleControl | app/src/main/cpp/skyline/services/serviceman.cpp:207-225 | ConvertCurrentObjectToDomain pushes the new domain handle; a clone moves a new handle to the same session; QueryPointerBufferSize pushes 0x1000; an unknown control command throws |
| ServiceManager.Manager.SyncRequestHandler | app/src/main/cpp/skyline/services/serviceman.cpp:175-237 | a closed session ignores every request and changes nothing; plain, control and close requests end as above; an unknown message type throws and changes nothing; a handle that names no session throws |
| Svc.HeapSizeAlignmentMeansMultiple | app/src/main/cpp/skyline/kernel/svc.cpp:12 | the heap-size check passes exactly for multiples of 2 MiB |
| Svc.SetHeapSize | app/src/main/cpp/skyline/kernel/svc.cpp:9-27 | a size that is not a multiple of 2 MiB gives InvalidSize with x1 = 0 and leaves the heap alone; any other size resizes the heap, registering the chunk `ResizeChunk` describes, and returns Success with the heap's address |
| Svc.MaskedValueIsSubset | app/src/main/cpp/skyline/kernel/svc.cpp:47-48 | `mask \| value == mask` holds exactly when the value sets no bit outside the mask |
| Svc.CopyUncached | app/src/main/cpp/skyline/kernel/svc.cpp:68 | the block's new attribute word takes the uncached flag from the value and keeps every other flag |
| Svc.SetMemoryAttribute | app/src/main/cpp/skyline/kernel/svc.cpp:29-73 | the checks run in order: an unaligned address is InvalidAddress; an unaligned size is InvalidSize; a mask that is not exactly an uncached-only mask covering the value is InvalidCombination; an unmapped address is InvalidAddress; a state that forbids attribute changes is InvalidState; the block is updated exactly on Success |
| Svc.ZeroSizeIsAligned | app/src/main/cpp/skyline/kernel/svc.cpp:38-41 | a zero size passes the page-alignment check |
| Svc.MapMemoryCheck | app/src/main/cpp/skyline/kernel/svc.cpp:75-109 | the checks pass exactly when destination, source and size are page-aligned, the destination lies in the stack region and the source is mapped in a state that allows mapping; a destination outside the stack region gives InvalidMemoryRegion exactly when the alignment checks pass |
| Svc.MapMemory | app/src/main/cpp/skyline/kernel/svc.cpp:75-122 | a failed check is returned and changes nothing; on Success a new stack-state object with the source's permission covers the destination under a new handle and no other handle changes; the memory map gains exactly the Stack descriptor over the destination range followed by a no-permission descriptor over the source range clamped into its object, whose state is promoted as `Promote` says |
| Svc.MapMemoryView | app/src/main/cpp/skyline/kernel/svc.cpp:110-117 | after svcMapMemory's two descriptors, the source's clamped range reads with no permission, the rest of the destination range reads as Stack with the source's permission, and every other address reads as before |
| Svc.UnmapMemoryCheck | app/src/main/cpp/skyline/kernel/svc.cpp:124-160 | the checks pass exactly when both addresses and the size are page-aligned, the source lies in the stack region, both addresses are mapped and the destination's state allows mapping |
| Svc.UnmapMemory | app/src/main/cpp/skyline/kernel/svc.cpp:124-178 | as intended (Findings row 2): a failed check is returned and changes nothing; on Success the memory map gains exactly one descriptor giving the destination range, clamped into the destination's object, the source's permission; that object's state is promoted as `Promote` says; the source's object (the stack alias) loses its handle, no other handle changing |
| Svc.UnmapDeletesAsWritten | app/src/main/cpp/skyline/kernel/svc.cpp:170-174 | as written, the handle deleted is that of the object found at the destination |
| Svc.UnmapDeletes | app/src/main/cpp/skyline/kernel/svc.cpp:170-174 | the handle deleted is that of the object holding the source, the stack alias |
| Svc.UnmapAsWrittenDeletesOriginal | app/src/main/cpp/skyline/kernel/svc.cpp:170-174 | as written, unmapping deletes the original memory's handle and keeps the alias's; the corrected rule does the opposite |
| Svc.QueryMemory | app/src/main/cpp/skyline/kernel/svc.cpp:180-213 | the call always succeeds with zero reference counts; a mapped address reports its block's extent, type, attributes and permissions; any other reports the reserved region from the end of the address space to the top of the 64-bit space, with no attributes or permissions |
| Svc.ToI8 | app/src/main/cpp/skyline/kernel/svc.cpp:224 | the priority is the register's low byte read as a two's-complement byte |
| Svc.CreateThread | app/src/main/cpp/skyline/kernel/svc.cpp:220-237 | a priority outside the valid range is InvalidAddress and changes nothing; otherwise a new thread gets a handle not in use, returned with Success |
| Svc.PermissionValidMeansReadable | app/src/main/cpp/skyline/kernel/svc.cpp:328-332 | a permission is accepted exactly when it grants read or grants nothing |
| Svc.MapSharedMemory | app/src/main/cpp/skyline/kernel/svc.cpp:310-344 | a handle that does not name shared memory is InvalidHandle before any other check; then the address, size and permission checks; a mapping that throws is caught as InvalidHandle; Success exactly when all pass and the mapping does not throw, and InvalidNewMemoryPermission exactly when only the permission is refused |
| Svc.TransferMemoryCheck | app/src/main/cpp/skyline/kernel/svc.cpp:346-366 | the checks pass exactly when address and size are page-aligned and the permission is accepted; InvalidNewMemoryPermission exactly when only the permission is refused |
| Svc.CreateTransferMemory | app/src/main/cpp/skyline/kernel/svc.cpp:346-374 | a failed check is returned and changes nothing; otherwise a new transfer-memory object gets a handle not in use, returned with Success |
| Svc.CloseHandle | app/src/main/cpp/skyline/kernel/svc.cpp:376-386 | the handle is erased from the table and the call succeeds |
| Svc.WaitHandlesValid | app/src/main/cpp/skyline/kernel/svc.cpp:432-448 | the walk succeeds exactly when every handle is in the table and names a process, thread, event or session; a handle not in the table throws; an unwaitable kind gives false |
| Svc.WaitSynchronizationCheck | app/src/main/cpp/skyline/kernel/svc.cpp:417-448 | more than 0x40 handles is OutOfHandles; otherwise the loop throws, answers InvalidHandle, or lets the wait start exactly as `WaitHandlesValid` says |
| Svc.FirstSignalled | app/src/main/cpp/skyline/kernel/svc.cpp:461-469 | the index found is that of the first signalled object, or the count when none is signalled |
| Svc.FirstSignalledIsFirst | app/src/main/cpp/skyline/kernel/svc.cpp:461-469 | the first signalled index is the only index that is signalled with no signalled object before it |
| Svc.PollOutcome | app/src/main/cpp/skyline/kernel/svc.cpp:453-478 | a pending cancel is consumed and gives Cancelled; otherwise the first signalled object's index is returned with Success; otherwise an elapsed timeout gives TimedOut; otherwise the wait goes on |
| Svc.Poll | app/src/main/cpp/skyline/kernel/svc.cpp:452-479 | one pass of the wait loop ends exactly as `PollOutcome` says, with the elapsed time computed in 64-bit arithmetic |
| Svc.ZeroTimeoutPollsOnce | app/src/main/cpp/skyline/kernel/svc.cpp:453-478 | with a zero timeout the first pass always ends the wait: Success when some object is signalled, TimedOut otherwise |
| Svc.ArbitrateLock | app/src/main/cpp/skyline/kernel/svc.cpp:491-512 | an unaligned mutex address is InvalidAddress and changes nothing; a requester other than the caller throws and changes nothing; otherwise the call succeeds with the outcome `LockDecision` gives: an acquired mutex word holds the caller's handle, a refusal changes nothing, and an enqueued caller is inserted by priority into the mutex's queue with the word left alone; condition variables are untouched |
| Svc.ArbitrateUnlock | app/src/main/cpp/skyline/kernel/svc.cpp:514-531 | as intended (Findings row 1): an unaligned address is InvalidAddress; otherwise the result is Success exactly when the caller may release the mutex; a release writes `UnlockDesired` into the word (0, or the head waiter with the waiter bit when others remain) and flags the head waiter when there is one; a refused unlock changes nothing |
| Svc.WaitProcessWideKeyAtomic | app/src/main/cpp/skyline/kernel/svc.cpp:533-561 | as intended (Findings row 1): an unaligned mutex is InvalidAddress and changes nothing; a handle other than the caller's throws; a mutex the caller may not release gives InvalidAddress and changes nothing; otherwise the mutex is released to its head waiter as in ArbitrateUnlock and the caller is queued by priority on the condition variable, remembering the mutex |
| Svc.WaitProcessWideKeyAtomicWoken | app/src/main/cpp/skyline/kernel/svc.cpp:555-561 | a woken waiter leaves the queue and gets Success, or TimedOut when its timeout elapsed |
| Svc.SignalProcessWideKey | app/src/main/cpp/skyline/kernel/svc.cpp:564-571 | the call succeeds and wakes the smaller of w1 and the number of waiters: those first waiters are flagged in list order, their mutex words become what `SignalFold` gives, and the mutex queues are untouched |
| Svc.GetInfo | app/src/main/cpp/skyline/kernel/svc.cpp:636-723 | a listed id succeeds with a 64-bit value in x1, and any other gives InvalidEnumValue; the three memory-availability ids give the total physical memory 0xF8000000; the five fixed ids give 0 |
| Svc.UsageWithoutProgram | app/src/main/cpp/skyline/kernel/svc.cpp:673-707 | the memory used without the program's image plus the program's size is the total memory in use, modulo 2^64 |
| Loader.LayoutCheck | app/src/main/cpp/skyline/loader/loader.cpp:16-24 | loading throws exactly when a section size (text, read-only, data plus bss in 64-bit arithmetic) or a section offset is not page-aligned |
| Loader.Regions | app/src/main/cpp/skyline/loader/loader.cpp:26-39 | the patch is reserved with no permission at the load address; text (R-X, CodeStatic), read-only data (R--, CodeStatic) and data plus bss (RW-, CodeMutable) follow the patch at their own offsets with their own sizes |
| Loader.Loader.MapRegion | app/src/main/cpp/skyline/loader/loader.cpp:29-38 | mapping a region registers exactly that region under a new handle naming a private-memory object over it, no other handle changing, or throws and changes nothing when the memory object refuses the placement |
| Loader.Loader.MapRegions | app/src/main/cpp/skyline/loader/loader.cpp:29-38 | the regions are mapped in order, each under a new, distinct handle naming a private-memory object over it, every old handle unchanged; mapping stops, with an error, at the first region whose placement the memory object refuses, the regions before it staying mapped |
| Loader.UpperBound | app/src/main/cpp/skyline/loader/loader.cpp:56 | the bisection returns the first position whose entry starts after the load address: every entry before it starts at or before the address, every entry from it starts after |
| Loader.InsertKeepsSorted | app/src/main/cpp/skyline/loader/loader.cpp:56 | inserting at that position keeps the executables sorted by start address |
| Loader.Loader.constructor | app/src/main/cpp/skyline/loader/loader.cpp:13 | the loader starts with no executables |
| Loader.Loader.LoadExecutable | app/src/main/cpp/skyline/loader/loader.cpp:13-59 | a failed layout check throws and changes nothing; otherwise the regions are mapped in order, each under a new handle naming a private-memory object over it, every other handle unchanged; a refused region throws with the regions before it left mapped and the executables unchanged; on success all four are mapped, the result is the load address, the total size and the program start, and the executable's record is inserted after every entry with a start at or before it; the list stays sorted |
| Loader.FirstEndingAtOrAfter | app/src/main/cpp/skyline/loader/loader.cpp:62 | the search finds the first executable that ends at or after the pointer; every executable before it ends before the pointer |
| Loader.FirstContaining | app/src/main/cpp/skyline/loader/loader.cpp:66 | the search finds the first symbol whose extent contains the offset; no earlier symbol contains it |
| Loader.SymbolName | app/src/main/cpp/skyline/loader/loader.cpp:66-71 | a name is found exactly when a symbol contains the offset and its name index is non-zero and inside the string table; the name is the NUL-terminated string at that index |
| Loader.ResolveSymbol | app/src/main/cpp/skyline/loader/loader.cpp:61-77 | a pointer in the patch region resolves to the executable's patch name; a pointer in the program resolves to its symbol's name, if any, and the executable's name; any other pointer resolves to nothing |
| Loader.ResolvesToContainingExecutable | app/src/main/cpp/skyline/loader/loader.cpp:61-77 | a pointer inside an executable that every earlier executable ends before resolves to that executable: to its patch name in the patch region, to its own name in the program |
| Backing.Backing.constructor | app/src/main/cpp/skyline/vfs/backing.h:41 | a backing takes the given mode and size |
| Backing.Backing.ReadUnchecked | app/src/main/cpp/skyline/vfs/backing.h:56-61 | an unreadable backing throws; otherwise the read delivers as many bytes as the contents hold at the offset, up to the requested length, and reports that count |
| Backing.Backing.ReadAsWritten | app/src/main/cpp/skyline/vfs/backing.h:69-80 | as written, a read succeeds only when the requested length is the backing's whole size (so the offset is 0), and it returns the backing's size |
| Backing.Backing.Read | app/src/main/cpp/skyline/vfs/backing.h:69-80 | a read succeeds exactly when the backing is readable, the offset is within it and enough bytes follow; it then returns the requested length and exactly the bytes at the offset |
| Backing.Backing.Resize | app/src/main/cpp/skyline/vfs/backing.h:20-22 | resizing throws and changes nothing unless the concrete backing implements it; otherwise the size is the new one and the contents are cut or zero-padded to it |
| Backing.Backing.Write | app/src/main/cpp/skyline/vfs/backing.h:108-120 | a write succeeds exactly when the backing is writable, the concrete backing implements writing and, for a write past the end (room computed in unsigned 64-bit arithmetic), the backing may be appended to and resized; it then grows the backing to offset plus length when past the end, writes the bytes at the offset and returns their count; an unwritable backing is untouched |
| Backing.Backing.WriteObject | app/src/main/cpp/skyline/vfs/backing.h:127-132 | writing an object succeeds under the same conditions as Write, and the object's bytes then lie at the offset |
| Backing.WriteThenReadBack | app/src/main/cpp/skyline/vfs/backing.h:69-120 | a write inside the backing keeps its size, and reading the same range returns the bytes written |
| KeyStore.AtMostOneTable | app/src/main/cpp/skyline/crypto/key_store.h:54-59 | the four table prefixes are such that a name matches at most one of them, so the unordered map's iteration order never changes which table a key lands in |
| KeyStore.MatchingTable | app/src/main/cpp/skyline/crypto/key_store.cpp:53-55 | a name belongs to a table exactly when it is that table's prefix followed by two characters; a name matching no prefix belongs to none |
| KeyStore.ParseIndex | app/src/main/cpp/skyline/crypto/key_store.cpp:56 | the slot named by the two-character suffix, read as base-16 `stoul` reads it: two hex digits give their value, one digit followed by anything gives that digit, a leading space or sign is skipped, a minus wraps modulo 2^64, and a suffix that does not start a number is an error |
| KeyStore.Snapshot.WithTable | app/src/main/cpp/skyline/crypto/key_store.h:25-28 | replacing one table leaves the other three tables, the header key and the title keys as they were |
| KeyStore.TitleKeyUpdate | app/src/main/cpp/skyline/crypto/key_store.cpp:37-41 | a title-key line succeeds exactly when both sides are 32 hex digits; the title then maps to the value unless it was already present, in which case the map is unchanged |
| KeyStore.SlotKeepsWellFormed | app/src/main/cpp/skyline/crypto/key_store.h:21-28 | storing a 16-byte key in one of the 20 slots keeps every table at 20 slots of 16-byte keys |
| KeyStore.PopulateKeepsWellFormed | app/src/main/cpp/skyline/crypto/key_store.cpp:37-74 | every successful key-line update, of either file, keeps the store well formed |
| KeyStore.TitleKeyKeepsWellFormed | app/src/main/cpp/skyline/crypto/key_store.cpp:37-41 | a title-key update keeps every table and key at its size |
| KeyStore.KeyUpdateKeepsWellFormed | app/src/main/cpp/skyline/crypto/key_store.cpp:43-74 | a product-key update keeps every table and key at its size |
| KeyStore.UnrecognisedNameIgnored | app/src/main/cpp/skyline/crypto/key_store.cpp:43-74 | a product-key name that is neither "header_key" nor an indexed name changes nothing and is not an error |
| KeyStore.IndexedNameTable | app/src/main/cpp/skyline/crypto/key_store.cpp:44-55 | an indexed name is never the header-key name and is dispatched to the one table it matches |
| KeyStore.IndexedKeyStored | app/src/main/cpp/skyline/crypto/key_store.cpp:53-71 | an indexed key line with a valid index and value succeeds exactly when the index is below 20; it then stores the key in that slot of that table and changes no other table |
| KeyStore.GetTitleKey | app/src/main/cpp/skyline/crypto/key_store.h:70-75 | the lookup finds nothing exactly when the title is absent, and otherwise returns the stored key |
| KeyStore.FirstTitleKeyKept | app/src/main/cpp/skyline/crypto/key_store.cpp:40 | because `insert` does not overwrite, the first key read for a title is the one later looked up, whatever later lines say |
| KeyStore.IndexOf | app/src/main/cpp/skyline/crypto/key_store.cpp:23-24 | `std::find`: the position of the first occurrence, or the length when there is none; no earlier character matches |
| KeyStore.Lines | app/src/main/cpp/skyline/crypto/key_store.cpp:21-34 | the newline-terminated lines of the file, none containing a newline |
| KeyStore.Trailing | app/src/main/cpp/skyline/crypto/key_store.cpp:23 | the text after the last newline, which is never read as a line |
| KeyStore.LinesCoverText | app/src/main/cpp/skyline/crypto/key_store.cpp:21-34 | the lines, each followed by a newline, and then the trailing text, make up the whole file: no byte is skipped or read twice |
| KeyStore.SplitLine | app/src/main/cpp/skyline/crypto/key_store.cpp:24-30 | a line splits exactly when it holds an '='; the key is the text before the first '=' and the value everything after it, and key, '=' and value make up the line |
| KeyStore.LineStep | app/src/main/cpp/skyline/crypto/key_store.cpp:24-31 | one line succeeds exactly when it splits and its callback accepts it; a failing line leaves the store unchanged; the store stays well formed |
| KeyStore.RunLines | app/src/main/cpp/skyline/crypto/key_store.cpp:23-34 | the lines in order, stopping at the first failure, keep the store well formed |
| KeyStore.RunLinesAppend | app/src/main/cpp/skyline/crypto/key_store.cpp:23-34 | processing two blocks of lines is processing the first and then, unless it failed, the second from where the first left the store |
| KeyStore.LoadFiles | app/src/main/cpp/skyline/crypto/key_store.cpp:9-15 | loading keeps the store well formed, and with neither file present changes nothing |
| KeyStore.KeyStore.constructor | app/src/main/cpp/skyline/crypto/key_store.h:21-28 | a new store has no header key, no title keys and 20 empty slots in every table |
| KeyStore.KeyStore.PopulateTitleKeys | app/src/main/cpp/skyline/crypto/key_store.cpp:37-41 | the store's new state and the outcome are those of the title-key update; on an error the store is unchanged |
| KeyStore.KeyStore.PopulateKeys | app/src/main/cpp/skyline/crypto/key_store.cpp:43-74 | the store's new state and the outcome are those of the product-key update; on an error the store is unchanged |
| KeyStore.KeyStore.Find | app/src/main/cpp/skyline/crypto/key_store.cpp:23-24 | the scan returns the position of the first occurrence, or the length |
| KeyStore.KeyStore.ProcessLine | app/src/main/cpp/skyline/crypto/key_store.cpp:24-31 | the store's new state and the outcome are those of processing one line |
| KeyStore.KeyStore.ReadPairs | app/src/main/cpp/skyline/crypto/key_store.cpp:17-35 | the loop leaves the store and the outcome as processing the file's lines in order would |
| KeyStore.KeyStore.Load | app/src/main/cpp/skyline/crypto/key_store.cpp:9-15 | the title-key file is read first and then, unless it failed, the product-key file, each only when present |
| Fssrv.StorageRead | app/src/main/cpp/skyline/services/fssrv/IStorage.cpp:14-30 | a negative offset answers InvalidOffset, then a negative size InvalidSize; then a request without an output buffer throws; otherwise, as intended over the corrected Backing.Read, the read succeeds exactly when the backing is readable and the range lies within it, and the guest receives exactly the bytes of that range |
| Fssrv.StorageGetSize | app/src/main/cpp/skyline/services/fssrv/IStorage.cpp:32-35 | the reported size is the backing's, and a read of that many bytes from offset 0 is within bounds |
| Fssrv.Blank | app/src/main/cpp/skyline/services/fssrv/IDirectory.cpp:34-38 | the initialised record has an all-NUL name, the directory bit set exactly for directories, the archive bit clear, and the entry's type and size |
| Fssrv.Packed | app/src/main/cpp/skyline/services/fssrv/IDirectory.cpp:34-40 | the finished record starts with the entry's name, is NUL after it, and keeps the attributes, type and size of the initialised record |
| Fssrv.FirstLongName | app/src/main/cpp/skyline/services/fssrv/IDirectory.cpp:31-41 | the first entry whose name does not fit the 0x301-byte field, every earlier one fitting |
| Fssrv.DirectoryRead | app/src/main/cpp/skyline/services/fssrv/IDirectory.cpp:26-45 | after the listing, a request without an input buffer throws, and an input buffer that is not a whole number of records throws, the records untouched either way; otherwise the first min(entries, records) records are packed in order and their count returned, unless a name is too long, which throws with the earlier records written and that record initialised; later records are untouched |
| Fssrv.FieldName | app/src/main/cpp/skyline/services/fssrv/IDirectory.cpp:10 | the name a guest reads from the field: its characters up to the first NUL |
| Fssrv.FieldNameRoundTrip | app/src/main/cpp/skyline/services/fssrv/IDirectory.cpp:10 | a NUL-free name followed by a NUL in the field is read back unchanged |
| Fssrv.PackedNameReadsBack | app/src/main/cpp/skyline/services/fssrv/IDirectory.cpp:34-40 | a packed record whose name is shorter than the field gives the entry's name back to the guest |
| NvMap.NewObject | app/src/main/cpp/skyline/services/nvdrv/devices/nvmap.h:18-32 | a new object carries its id and size, has every other field zero and is Created, not yet Allocated |
| NvMap.Initial | app/src/main/cpp/skyline/services/nvdrv/devices/nvmap.h:36-38 | a new device has an empty object table and hands out ids from 1 |
| NvMap.GetObject | app/src/main/cpp/skyline/services/nvdrv/devices/nvmap.h:42-50 | the lookup succeeds exactly when the handle is non-zero, handle - 1 is within the table and that slot is not freed, and then returns the object in slot handle - 1 |
| NvMap.InitialHasNoObjects | app/src/main/cpp/skyline/services/nvdrv/devices/nvmap.h:36-50 | no handle is valid on a new device |
| NvMap.AppendedObjectFound | app/src/main/cpp/skyline/services/nvdrv/devices/nvmap.h:42-50 | an object appended to the table is found under the handle equal to the new table length, and every other handle resolves as before |
| BufferProducer.CountQueued | app/src/main/cpp/skyline/services/hosbinder/GraphicBufferProducer.cpp:19-25 | the number of Queued slots in a run of slots, never more than its length |
| BufferProducer.CountQueuedIsQueuedIndices | app/src/main/cpp/skyline/services/hosbinder/GraphicBufferProducer.cpp:19-25 | the count equals the size of the set of Queued slot indices |
| BufferProducer.CountBuffers | app/src/main/cpp/skyline/services/hosbinder/GraphicBufferProducer.cpp:373 | the number of slots holding a buffer, never more than the slot count |
| BufferProducer.CountBuffersUpdate | app/src/main/cpp/skyline/services/hosbinder/GraphicBufferProducer.cpp:373 | replacing one slot changes the buffer count by exactly the difference between the old and the new slot |
| BufferProducer.CountBuffersEmpty | app/src/main/cpp/skyline/services/hosbinder/GraphicBufferProducer.cpp:274-279 | slots without buffers count zero, so a disconnect leaves no buffer held |
| BufferProducer.StoringBufferCounts | app/src/main/cpp/skyline/services/hosbinder/GraphicBufferProducer.cpp:366-373 | storing a buffer in an empty slot raises the buffer count by one; storing it over a held one keeps it |
| BufferProducer.DequeueStatus | app/src/main/cpp/skyline/services/hosbinder/GraphicBufferProducer.cpp:63-81 | for the slot the presentation engine picked: out of range throws, an empty slot is NoMemory, and the answer is Ok exactly when the slot's buffer has the format, surface size and every requested usage bit; otherwise NoInit |
| BufferProducer.QueueStatus | app/src/main/cpp/skyline/services/hosbinder/GraphicBufferProducer.cpp:85-151 | an unknown scaling mode, an out-of-range slot, a slot not dequeued and a slot never requested are BadValue in that order; the queue succeeds exactly when the slot is dequeued, requested, holds a buffer the crop fits (compared unsigned), the transform is known and the sticky transform is the identity |
| BufferProducer.TileModeAsWritten | app/src/main/cpp/skyline/services/hosbinder/GraphicBufferProducer.cpp:346-362 | as written, a pitch surface gets the block tile mode, a block-linear one the pitch mode, and the legacy-tiled error is never raised |
| BufferProducer.TileModeOf | app/src/main/cpp/skyline/services/hosbinder/GraphicBufferProducer.cpp:346-362 | as intended, a block-linear surface is tiled in blocks, a pitch surface by pitch, and a legacy tiled surface is refused |
| BufferProducer.TileModeAsWrittenSwapsLayouts | app/src/main/cpp/skyline/services/hosbinder/GraphicBufferProducer.cpp:348-362 | a pitch surface and a tiled surface are both handled differently as written than intended |
| BufferProducer.TextureFormatOf | app/src/main/cpp/skyline/services/hosbinder/GraphicBufferProducer.cpp:297-310 | RGBA8888 and RGBX8888 map to RGBA8888Unorm, RGB565 to RGB565Unorm, and every other format throws |
| BufferProducer.FindById | app/src/main/cpp/skyline/services/hosbinder/GraphicBufferProducer.cpp:331-339 | the search succeeds exactly when an object with the id comes before any freed slot, and then returns the first such object; otherwise it fails |
| BufferProducer.IdSearchEnd | app/src/main/cpp/skyline/services/hosbinder/GraphicBufferProducer.cpp:331-339 | the scan stops at the first freed slot or object with the id, every entry before it being a live object with another id, or at the end |
| BufferProducer.PreallocatedTexture | app/src/main/cpp/skyline/services/hosbinder/GraphicBufferProducer.cpp:292-364 | as intended (Findings row 4): a buffer is accepted exactly when it has the expected magics and integer count, a known format, exactly one progressive, non-tiled surface, a resolvable nvmap object (by handle, or by id without one) and a surface size within the object's size minus the offset, a 32-bit difference; its texture then has the surface's size, the object's address plus the surface offset, the mapped format and the intended tile mode |
| BufferProducer.DisplayByName | app/src/main/cpp/skyline/services/hosbinder/GraphicBufferProducer.cpp:465-476 | a display name is found exactly when it is one of the five in the table |
| BufferProducer.DisplayNamesRoundTrip | app/src/main/cpp/skyline/services/hosbinder/GraphicBufferProducer.cpp:465-471 | every display is found under its own name, so the table is one to one |
| BufferProducer.GraphicBufferProducer.constructor | app/src/main/cpp/skyline/services/hosbinder/GraphicBufferProducer.cpp:17 | a new producer has every slot free, frame 0, unrequested and empty, no connected API, no display and no buffers held |
| BufferProducer.GraphicBufferProducer.GetPendingBufferCount | app/src/main/cpp/skyline/services/hosbinder/GraphicBufferProducer.cpp:19-25 | the loop counts the Queued slots among the first activeSlotCount, never more than that |
| BufferProducer.GraphicBufferProducer.RequestBuffer | app/src/main/cpp/skyline/services/hosbinder/GraphicBufferProducer.cpp:27-40 | an out-of-range slot is BadValue and changes nothing; otherwise exactly that slot becomes requested and its buffer is returned |
| BufferProducer.GraphicBufferProducer.DequeueBuffer | app/src/main/cpp/skyline/services/hosbinder/GraphicBufferProducer.cpp:42-82 | exactly one zero dimension is BadValue with the slot untouched; otherwise the slot and a failing status come from the presentation engine, and the outcome is DequeueStatus for the defaulted request; only a success dequeues that one slot and hands out a fence |
| BufferProducer.GraphicBufferProducer.QueueBuffer | app/src/main/cpp/skyline/services/hosbinder/GraphicBufferProducer.cpp:84-151 | the outcome is QueueStatus; a success reports the default size and the pending count |
| BufferProducer.GraphicBufferProducer.CancelBuffer | app/src/main/cpp/skyline/services/hosbinder/GraphicBufferProducer.cpp:153-174 | an in-range dequeued slot becomes Free with frame number 0; every other call changes nothing |
| BufferProducer.GraphicBufferProducer.Query | app/src/main/cpp/skyline/services/hosbinder/GraphicBufferProducer.cpp:176-223 | the defaults and the active slot count are reported, the unsupported queries answer 0, and exactly the unknown queries are BadValue |
| BufferProducer.GraphicBufferProducer.Connect | app/src/main/cpp/skyline/services/hosbinder/GraphicBufferProducer.cpp:225-252 | the connection succeeds exactly when nothing is connected and the API is EGL, CPU, Media or Camera; it then records the API and reports the defaults and the pending count; a refusal is BadValue and changes nothing |
| BufferProducer.GraphicBufferProducer.Disconnect | app/src/main/cpp/skyline/services/hosbinder/GraphicBufferProducer.cpp:254-283 | the disconnection succeeds exactly for a known API equal to the connected one; it then clears the connection and frees every slot with frame number UINT32_MAX and no buffer, leaving no buffer held |
| BufferProducer.GraphicBufferProducer.SetPreallocatedBuffer | app/src/main/cpp/skyline/services/hosbinder/GraphicBufferProducer.cpp:285-379 | as intended (Findings row 4): a slot outside the fixed slot count is BadValue; otherwise it succeeds exactly when the buffer passes the checks, and then that slot alone becomes free, frame 0, unrequested, holding the buffer and its texture, with the active count equal to the slots holding a buffer |
| BufferProducer.GraphicBufferProducer.SetDisplay | app/src/main/cpp/skyline/services/hosbinder/GraphicBufferProducer.cpp:473-482 | a display is chosen exactly when none is shown and the name is in the table; otherwise the display is unchanged |
| BufferProducer.GraphicBufferProducer.CloseDisplay | app/src/main/cpp/skyline/services/hosbinder/GraphicBufferProducer.cpp:484-488 | the display is reset to Null whatever it was, and nothing else changes |
| AppletStorage.Pushed | app/src/main/cpp/skyline/services/am/storage/IStorage.h:37 | the value's bytes lie at the offset, the content keeps its size and every byte outside the value is unchanged |
| AppletStorage.PushesConcatenate | app/src/main/cpp/skyline/services/am/storage/IStorage.h:32-39 | two pushes in a row lay out the two values back to back, as a single push of both would |
| AppletStorage.Storage.constructor | app/src/main/cpp/skyline/services/am/storage/IStorage.h:15-20 | a new storage holds size zero bytes with the push cursor at the start |
| AppletStorage.Storage.Push | app/src/main/cpp/skyline/services/am/storage/IStorage.h:32-39 | a push succeeds exactly when the value fits after the cursor; it then copies the value there and moves the cursor past it; a value that does not fit throws and changes nothing |
| AppletStorage.GetSize | app/src/main/cpp/skyline/services/am/storage/IStorageAccessor.cpp:15-18 | the reported size is the content's length |
| AppletStorage.TransferLength | app/src/main/cpp/skyline/services/am/storage/IStorageAccessor.cpp:22 | the number of bytes moved is the smaller of the buffer size and the bytes after the offset |
| AppletStorage.InBoundsOffsetIsNatural | app/src/main/cpp/skyline/services/am/storage/IStorageAccessor.cpp:24 | because the signed offset is compared unsigned, an offset the check lets through is never negative and never past the content |
| AppletStorage.Write | app/src/main/cpp/skyline/services/am/storage/IStorageAccessor.cpp:20-31 | a missing input buffer throws; an offset past the content is OutOfBounds; otherwise as much of the input as fits is copied at the offset and nothing else changes |
| AppletStorage.ReadAsWritten | app/src/main/cpp/skyline/services/am/storage/IStorageAccessor.cpp:33-44 | as written, a read throws without an input buffer, and with one returns as many content bytes as the input buffer's size allows, whatever the output buffer's size |
| AppletStorage.Read | app/src/main/cpp/skyline/services/am/storage/IStorageAccessor.cpp:33-44 | as intended, a read within bounds returns the content bytes at the offset, as many as the output buffer holds or the content has, and never more than the output buffer holds; an offset past the content is OutOfBounds |
| AppletStorage.ReadAsWrittenIgnoresOutputBuffer | app/src/main/cpp/skyline/services/am/storage/IStorageAccessor.cpp:35 | a read request with only an output buffer throws as written but succeeds as intended; with a large input buffer, as written more bytes are returned than a small output buffer holds |
| AppletStorage.WriteThenRead | app/src/main/cpp/skyline/services/am/storage/IStorageAccessor.cpp:20-44 | bytes written at an offset read back unchanged |
| AppletFunctions.UserIdBytes | app/src/main/cpp/skyline/services/am/controller/IApplicationFunctions.cpp:30 | a user ID is laid out in 16 bytes |
| AppletFunctions.LaunchParameter | app/src/main/cpp/skyline/services/am/controller/IApplicationFunctions.cpp:22-30 | the launch parameter content is 0x88 bytes long |
| AppletFunctions.LaunchParameterLayout | app/src/main/cpp/skyline/services/am/controller/IApplicationFunctions.cpp:23-30 | the launch parameter reads back, field by field, as the magic 0xc79497ca, the kind 1, the default user's two halves, and zeros to the end |
| AppletFunctions.PopLaunchParameter | app/src/main/cpp/skyline/services/am/controller/IApplicationFunctions.cpp:22-33 | the new storage is 0x88 bytes holding exactly the launch parameter, with its push cursor after the 24 bytes written: all three pushes fit |
| AppletFunctions.ConstantReply | app/src/main/cpp/skyline/services/am/controller/IApplicationFunctions.cpp:35-50 | EnsureSaveData replies with a u8 0, GetDesiredLanguage with "en-US" padded with NULs to 8 bytes, NotifyRunning with a u8 1, and GetPseudoDeviceId with 16 zero bytes |
| AppletFunctions.DesiredLanguageBytes | app/src/main/cpp/skyline/services/am/controller/IApplicationFunctions.cpp:40 | the u64 magic of "en-US" is those five characters followed by three NULs in memory |
| AppletController.ModeValue | app/src/main/cpp/skyline/services/am/appletController.cpp:42 | the guest reads handheld as 0 and docked as 1 |
| AppletController.ModeOfSetting | app/src/main/cpp/skyline/services/am/appletController.cpp:17 | the operation_mode setting selects docked when true and handheld when false |
| AppletController.DefaultDisplayResolution | app/src/main/cpp/skyline/services/am/appletController.cpp:49-57 | handheld mode reports 1280x720 and docked mode 1920x1080 |
| AppletController.ResolutionsAreSixteenByNine | app/src/main/cpp/skyline/services/am/appletController.cpp:49-57 | both default resolutions are 16:9, and docked is one and a half times handheld in each direction |
| AppletController.Receive | app/src/main/cpp/skyline/services/am/appletController.cpp:28-35 | receiving from an empty queue yields no message and leaves it empty; otherwise it yields the oldest message and removes exactly that one |
| AppletController.DrainIsQueueOrder | app/src/main/cpp/skyline/services/am/appletController.cpp:4-35 | receiving until empty yields every queued message once, in the order queued |
| AppletController.QueueKeepsOrder | app/src/main/cpp/skyline/services/am/appletController.cpp:4-35 | queueing a message does not change which message is received next, unless the queue was empty |
| AppletController.CommonStateGetter.constructor | app/src/main/cpp/skyline/services/am/appletController.cpp:9-20 | the mode comes from the setting, and the queue starts holding the focus-state-change message alone, with the event signalled |
| AppletController.CommonStateGetter.QueueMessage | app/src/main/cpp/skyline/services/am/appletController.cpp:4-7 | the message is appended at the back and the event is signalled |
| AppletController.CommonStateGetter.ReceiveMessage | app/src/main/cpp/skyline/services/am/appletController.cpp:28-35 | the reply and the new queue are those of Receive: NoMessages with nothing pushed on an empty queue, otherwise the oldest message, removed |
| AppletController.CommonStateGetter.GetCurrentFocusState | app/src/main/cpp/skyline/services/am/appletController.cpp:37-39 | the reply is the focus state |
| AppletController.CommonStateGetter.GetOperationMode | app/src/main/cpp/skyline/services/am/appletController.cpp:41-43 | the reply is 0 in handheld mode and 1 in docked mode |
| AppletController.CommonStateGetter.GetPerformanceMode | app/src/main/cpp/skyline/services/am/appletController.cpp:45-47 | the reply is GetOperationMode's widened to 32 bits, so the performance mode follows the operation mode: 0 handheld, 1 docked |
| AppletController.CommonStateGetter.GetDefaultDisplayResolution | app/src/main/cpp/skyline/services/am/appletController.cpp:49-57 | the reply is the default resolution of the current mode, width first |
| AppletController.Gpu.constructor | app/src/main/cpp/skyline/services/am/appletController.cpp:77 | the display layer starts uninitialised |
| AppletController.CreateManagedDisplayLayer | app/src/main/cpp/skyline/services/am/appletController.cpp:75-81 | creating a layer throws exactly when one already exists; otherwise it replies with layer 0; afterwards the layer exists |
| AppletController.CreateTwice | app/src/main/cpp/skyline/services/am/appletController.cpp:75-81 | example: of two layer creations, the first succeeds with layer 0 and the second throws |
| Settings.NamesAreShortAscii | app/src/main/cpp/skyline/services/settings/ISettingsServer.cpp:14-32 | the table holds 17 tags, each of at most 8 NUL-free ASCII characters, so each fits a u64 code |
| Settings.TagBytes | app/src/main/cpp/skyline/services/settings/ISettingsServer.cpp:14-32 | a tag's bytes fit in 8 and hold no NUL |
| Settings.LanguageCodeList | app/src/main/cpp/skyline/services/settings/ISettingsServer.cpp:14-32 | the table holds 17 codes |
| Settings.TagOf | app/src/main/cpp/skyline/services/settings/ISettingsServer.cpp:14-32 | the tag a code spells has at most 8 bytes and no NUL |
| Settings.CodesSpellTags | app/src/main/cpp/skyline/services/settings/ISettingsServer.cpp:14-32 | each code's bytes, read up to the first NUL, are its language's tag |
| Settings.CodesAreDistinct | app/src/main/cpp/skyline/services/settings/ISettingsServer.cpp:14-32 | no two languages share a code |
| Settings.MakeLanguageCode | app/src/main/cpp/skyline/services/settings/ISettingsServer.cpp:40-42 | the code is returned exactly when the index is within the 17 entries (a negative index throws), and it spells that language's tag |
| Settings.AvailableLanguageCodes | app/src/main/cpp/skyline/services/settings/ISettingsServer.cpp:34-48 | a request without an output buffer throws; otherwise the old command writes the first 15 codes and pushes 15, the new one all 17 and pushes 17, each code spelling its language's tag |
| Pl.SharedFontKeyIsXorOfMagics | app/src/main/cpp/skyline/services/pl/IPlatformServiceManager.cpp:38-40 | the key the lengths are hidden with is the XOR of the encrypted and the decrypted magic, 0x49621806 |
| Pl.EncodeLength | app/src/main/cpp/skyline/services/pl/IPlatformServiceManager.cpp:45 | applying the key to a stored length gives the font's length back |
| Pl.Record | app/src/main/cpp/skyline/services/pl/IPlatformServiceManager.cpp:44-49 | a font's record is its 8-byte header followed by the font |
| Pl.Entries | app/src/main/cpp/skyline/services/pl/IPlatformServiceManager.cpp:43-50 | the table has one entry per font |
| Pl.EntriesAreContiguous | app/src/main/cpp/skyline/services/pl/IPlatformServiceManager.cpp:43-50 | the first font starts after its 8-byte header, and each later font starts 8 bytes after the end of the one before: the records are contiguous and do not overlap |
| Pl.ImagePrefix | app/src/main/cpp/skyline/services/pl/IPlatformServiceManager.cpp:43-50 | the records of the first k fonts are a prefix of the whole image |
| Pl.ImageHoldsRecords | app/src/main/cpp/skyline/services/pl/IPlatformServiceManager.cpp:43-50 | at each table entry, the shared memory holds the decrypted magic before the font, then the length that decodes to the font's length, then exactly the font's bytes, all within the image |
| Pl.RecordInImage | app/src/main/cpp/skyline/services/pl/IPlatformServiceManager.cpp:43-50 | each font's record lies in the image right after the records of the fonts before it |
| Pl.RecordFields | app/src/main/cpp/skyline/services/pl/IPlatformServiceManager.cpp:44-48 | a record's magic, decoded length and font bytes read back from wherever the record is stored |
| Pl.CopyTo | app/src/main/cpp/skyline/services/pl/IPlatformServiceManager.cpp:48 | the bytes are copied at the offset and every other byte of the block is unchanged |
| Pl.WriteRecord | app/src/main/cpp/skyline/services/pl/IPlatformServiceManager.cpp:44-49 | one turn of the layout loop writes exactly the font's record at the cursor and changes nothing else |
| Pl.CopiesCompose | app/src/main/cpp/skyline/services/pl/IPlatformServiceManager.cpp:44-48 | two adjacent copies equal one copy of both |
| Pl.WriteFonts | app/src/main/cpp/skyline/services/pl/IPlatformServiceManager.cpp:42-50 | the layout loop leaves the records of all fonts, in table order, at the start of the block, the rest unchanged, and the table records each font's length and the offset of its bytes |
| Pl.WrittenAfter | app/src/main/cpp/skyline/services/pl/IPlatformServiceManager.cpp:43-50 | writing the next record at the end of what was written extends the image by that record |
| Pl.LayoutStep | app/src/main/cpp/skyline/services/pl/IPlatformServiceManager.cpp:43-50 | one more font adds its record to the image and its entry, at the current end of the image plus 8, to the table |
| Pl.PlatformServiceManager.constructor | app/src/main/cpp/skyline/services/pl/IPlatformServiceManager.cpp:32-51 | as intended (Findings row 6): a new service has a fresh zero-filled shared block of FontSharedMemSize bytes holding the fonts' records at its start, and its table records each font's length and offset |
| Pl.PlatformServiceManager.GetLoadState | app/src/main/cpp/skyline/services/pl/IPlatformServiceManager.cpp:53-57 | the fonts are always reported loaded (1) |
| Pl.PlatformServiceManager.GetSize | app/src/main/cpp/skyline/services/pl/IPlatformServiceManager.cpp:59-63 | the size is returned exactly for an id within the table, and is that font's recorded length |
| Pl.PlatformServiceManager.GetSharedMemoryAddressOffset | app/src/main/cpp/skyline/services/pl/IPlatformServiceManager.cpp:65-69 | the offset is returned exactly for an id within the table, and is that font's recorded offset truncated to 32 bits |
| Pl.TableLengthsAsWritten | app/src/main/cpp/skyline/services/pl/IPlatformServiceManager.cpp:23-30 | as written, the table has six lengths, the first of which is the extended simplified Chinese font's |
| Pl.TableLengthAsWrittenIsWrong | app/src/main/cpp/skyline/services/pl/IPlatformServiceManager.cpp:24 | when the two simplified Chinese fonts differ in length, the length recorded for font 0 as written is not its own, while the corrected table's is |
| AudioOut.OpenAudioOut | app/src/main/cpp/skyline/services/audio/IAudioOutManager.cpp:20-35 | the channel count is truncated to 16 bits, then a zero rate or zero channel count takes the default; the reply carries these values, a zero u16, the 16-bit sample format and the stopped state, and with real defaults neither value is zero |
| AudioOut.OpenAudioOutIsIdempotent | app/src/main/cpp/skyline/services/audio/IAudioOutManager.cpp:26-27 | asking again for the rate and channel count granted gets the same reply |
| AudioOut.WideChannelCountGetsDefault | app/src/main/cpp/skyline/services/audio/IAudioOutManager.cpp:22-27 | a channel count that is a nonzero multiple of 2^16 truncates to zero and gets the default, exactly like a request for zero |
| AudioOut.ReplyBytes | app/src/main/cpp/skyline/services/audio/IAudioOutManager.cpp:30-34 | the reply is pushed as 16 bytes |
| AudioOut.ReplyBytesReadBack | app/src/main/cpp/skyline/services/audio/IAudioOutManager.cpp:30-34 | reading the pushed bytes field by field gives back the rate, channel count, reserved field, format and state |
| AudioVoice.WaveBufferIndex | app/src/main/cpp/skyline/services/audren/voice.cpp:106-109 | the selected wave buffer is the index modulo 4, always one of the four |
| AudioVoice.DivTrunc | app/src/main/cpp/skyline/services/audren/voice.cpp:88 | C++ integer division: it rounds toward zero for negative amounts too |
| AudioVoice.UpMixed | app/src/main/cpp/skyline/services/audren/voice.cpp:62-69 | the intended up-mix has one frame of c samples per mono sample |
| AudioVoice.UpMixedFrame | app/src/main/cpp/skyline/services/audren/voice.cpp:62-69 | frame k of the intended up-mix holds mono sample k on every channel |
| AudioVoice.UpMixedFirstChannel | app/src/main/cpp/skyline/services/audren/voice.cpp:62-69 | the first channel of the intended up-mix gives back the mono samples |
| AudioVoice.Resized | app/src/main/cpp/skyline/services/audren/voice.cpp:64 | resizing keeps the samples and pads with zeros |
| AudioVoice.UpMixedAsWritten | app/src/main/cpp/skyline/services/audren/voice.cpp:62-69 | as written, frame 0 keeps the first c samples of the resized buffer, and the other frames are up-mixed |
| AudioVoice.UpMixAsWrittenDiffersInFrameZero | app/src/main/cpp/skyline/services/audren/voice.cpp:66 | as written, only frame 0 can differ from the intended up-mix, and it does exactly when it is not c copies of the first sample |
| AudioVoice.UpMixAsWrittenDuplicatesSecondSample | app/src/main/cpp/skyline/services/audren/voice.cpp:66-68 | two mono samples 1, 2 on two channels come out as written as 1, 2, 2, 2 instead of 1, 1, 2, 2 |
| AudioVoice.FirstMonoIndexAsWritten | app/src/main/cpp/skyline/services/audren/voice.cpp:63-66 | the loop's first mono index is the size minus one, and wraps to 2^64 - 1 on an empty buffer |
| AudioVoice.OneByteWaveBufferIndexesPastEnd | app/src/main/cpp/skyline/services/audren/voice.cpp:47-68 | a one-byte wave buffer passes the size check but yields no sample, so the loop starts at index 2^64 - 1, past the end of the buffer, and runs |
| AudioVoice.BytesReadAsWritten | app/src/main/cpp/skyline/services/audren/voice.cpp:52-53 | as written, the copy reads the wave buffer's whole size in bytes |
| AudioVoice.OddSizeOverrunsSampleBuffer | app/src/main/cpp/skyline/services/audren/voice.cpp:52-53 | as written, an odd size copies one byte more than the size / 2 samples the buffer holds |
| AudioVoice.BytesRead | app/src/main/cpp/skyline/services/audren/voice.cpp:52-53 | as intended, the copy reads the whole samples that fit: an even number of bytes, size / 2 samples, never more than the size |
| AudioVoice.Reload | app/src/main/cpp/skyline/services/audren/voice.cpp:44-70 | as intended, over the corrected AudioVoice.BytesRead and AudioVoice.UpMixed: an empty wave buffer leaves the samples as they were; a format other than Int16 throws; otherwise the samples read, or the resampled ones when the rates differ, up-mixed when the voice is mono and the output is not |
| AudioVoice.ReloadedMonoFrames | app/src/main/cpp/skyline/services/audren/voice.cpp:52-69 | a mono voice at the output rate loads one frame per sample read, holding that sample on every output channel |
| AudioVoice.Take | app/src/main/cpp/skyline/services/audren/voice.cpp:86 | a call hands out at most maxSamples frames' worth and at most what is left, and exactly one of the two |
| AudioVoice.Play | app/src/main/cpp/skyline/services/audren/voice.cpp:85-101 | a step hands out Take's amount, and finishes the buffer, returning the offset to 0, exactly when that reaches the end |
| AudioVoice.PlayStaysInBuffer | app/src/main/cpp/skyline/services/audren/voice.cpp:85-92 | within the buffer, a step hands out at least one sample and at most maxSamples frames, stays within the buffer, and finishes it exactly when what was left fits |
| AudioVoice.DeliveredCoversBuffer | app/src/main/cpp/skyline/services/audren/voice.cpp:85-101 | successive steps hand out every sample after the offset exactly once, none more than maxSamples frames |
| AudioVoice.Voice.constructor | app/src/main/cpp/skyline/services/audren/voice.cpp:6 | a new voice is released, at wave buffer 0 with a reload pending, offset 0, stopped, with no samples and zero counters |
| AudioVoice.Voice.SetWaveBufferIndex | app/src/main/cpp/skyline/services/audren/voice.cpp:106-109 | the selected buffer becomes the index modulo 4 and a reload is pending; nothing else changes |
| AudioVoice.Voice.ProcessInput | app/src/main/cpp/skyline/services/audren/voice.cpp:8-42 | a released voice is reset to buffer 0, offset 0 and zero counters, with a reload pending; a voice not acquired stops there; a first update throws on a format other than Int16 and then on more than two channels, else takes the channels and the base buffer; every accepted update takes the wave buffers and the playback state |
| AudioVoice.Voice.UpdateBuffers | app/src/main/cpp/skyline/services/audren/voice.cpp:44-70 | as intended: the sample buffer becomes what Reload gives for the current wave buffer; a throw leaves it unchanged; nothing else changes |
| AudioVoice.Voice.GetBufferData | app/src/main/cpp/skyline/services/audren/voice.cpp:72-104 | a voice not acquired or not started hands out nothing and changes nothing; otherwise a pending reload runs first, then the samples from the offset are handed out as Play says, counted in frames, and on finishing the buffer a last buffer pauses, a non-looping one moves to the next buffer modulo 4 and the buffer is counted as played |
| AudioVoice.Voice.PlayStep | app/src/main/cpp/skyline/services/audren/voice.cpp:85-101 | the cursor moves as Play says, the counters grow by the frames handed out and by one finished buffer, a last buffer pauses and a non-looping one advances |
| AudioVoice.Voice.UpMixAsWritten | app/src/main/cpp/skyline/services/audren/voice.cpp:62-69 | as written, an empty buffer (from a one-byte wave buffer) is an error, for the first index wraps and the loop indexes out of bounds; any other buffer ends as UpMixedAsWritten of the mono samples |
| AudioVoice.Voice.UpMix | app/src/main/cpp/skyline/services/audren/voice.cpp:62-69 | the corrected loop leaves the buffer equal to the intended up-mix of the mono samples |
| AudioVoice.Voice.FillFrameFrom | app/src/main/cpp/skyline/services/audren/voice.cpp:67-68 | the inner loop as written fills the c slots before the target with the sample at the source slot, which lies before them |
| AudioVoice.Voice.FillFrame | app/src/main/cpp/skyline/services/audren/voice.cpp:67-68 | the inner loop fills the c slots before the target with the sample |
| Nsp.LastIndexOf | app/src/main/cpp/skyline/loader/nsp.cpp:12 | `find_last_of` gives the position of the last occurrence of the character, with none after it, or none when it does not occur |
| Nsp.IsNcaNameIffSuffix | app/src/main/cpp/skyline/loader/nsp.cpp:12-13 | a root entry is considered exactly when its name ends in ".nca" or is "nca" itself (no dot: `npos + 1` wraps to the whole name) |
| Nsp.DotNcaSuffix | app/src/main/cpp/skyline/loader/nsp.cpp:12-13 | every name ending in ".nca" is considered |
| Nsp.NcaExtension | app/src/main/cpp/skyline/loader/nsp.cpp:12-13 | every name considered ends in ".nca" or is "nca" |
| Nsp.LastWhere | app/src/main/cpp/skyline/loader/nsp.cpp:11-25 | the index found satisfies the predicate and no later element does; none is found only when no element does |
| Nsp.LastMatch | app/src/main/cpp/skyline/loader/nsp.cpp:11-25 | the entry kept for a role is the last entry that qualifies for it |
| Nsp.RolesAreDisjoint | app/src/main/cpp/skyline/loader/nsp.cpp:18-21 | no entry qualifies as both the program and the control NCA |
| Nsp.ChosenStep | app/src/main/cpp/skyline/loader/nsp.cpp:18-21 | one more entry replaces the choice for a role exactly when it qualifies, and otherwise leaves it |
| Nsp.SelectNcas | app/src/main/cpp/skyline/loader/nsp.cpp:11-25 | the loop keeps, for each role, the NCA of the last qualifying entry; names without the extension and NCAs that throw are skipped |
| Nsp.OpenNsp | app/src/main/cpp/skyline/loader/nsp.cpp:8-33 | the constructor fails with "Incomplete NSP file" unless both a program and a control NCA were found; when both were, it keeps those two and takes the program NCA's RomFS |
| Nsp.NspLoader.constructor | app/src/main/cpp/skyline/loader/nsp.cpp:30 | the loader keeps the chosen NCAs and its RomFS is the program NCA's |
| Nsp.RFind | app/src/main/cpp/skyline/loader/nsp.cpp:48 | `rfind` gives the last position at which the pattern occurs, or none when it does not occur |
| Nsp.OccursInInit | app/src/main/cpp/skyline/loader/nsp.cpp:48 | an occurrence within all but the last character is exactly an occurrence that ends before it |
| Nsp.OccursInInitAt | app/src/main/cpp/skyline/loader/nsp.cpp:48 | the same, at one position |
| Nsp.IsIconNameIff | app/src/main/cpp/skyline/loader/nsp.cpp:48 | a name is an icon name exactly when it starts with "icon" and "icon" does not occur again later in it |
| Nsp.FirstWhere | app/src/main/cpp/skyline/loader/nsp.cpp:46-52 | the index found satisfies the predicate and no earlier element does; none is found only when no element does |
| Nsp.FirstIcon | app/src/main/cpp/skyline/loader/nsp.cpp:46-52 | the icon used is the first root entry of the control RomFS with an icon name |
| Nsp.FindFirst | app/src/main/cpp/skyline/loader/nsp.cpp:47-52 | the search loop that breaks at the first match agrees with FirstWhere |
| Nsp.FirstWhereIs | app/src/main/cpp/skyline/loader/nsp.cpp:47-52 | a matching element with no match before it is the first |
| Nsp.NspLoader.GetIcon | app/src/main/cpp/skyline/loader/nsp.cpp:39-61 | nothing without a RomFS or without an icon entry, and otherwise the whole contents of the first icon entry |
| Nacp.LayoutFits | app/src/main/cpp/skyline/vfs/nacp.h:19-32 | a title entry is a name followed by a publisher, and the sixteen entries fit in the 0x4000-byte block |
| Nacp.TitleOf | app/src/main/cpp/skyline/vfs/nacp.cpp:11-13 | the name and publisher are taken from title entry 0 at their full fixed lengths |
| Nacp.BlockOf | app/src/main/cpp/skyline/vfs/nacp.h:19-32 | a block laid out from a name, a publisher and the other bytes is 0x4000 bytes long |
| Nacp.TitleOfBlockOf | app/src/main/cpp/skyline/vfs/nacp.cpp:11-13 | reading a block gives back the name and publisher it was laid out from, whatever the other entries and the padding hold |
| Nacp.BlockOfTitleOf | app/src/main/cpp/skyline/vfs/nacp.h:19-32 | a block is determined by its entry-0 strings and the bytes after them |
| Nacp.OpenNacp | app/src/main/cpp/skyline/vfs/nacp.cpp:7-14 | as intended over the corrected Backing.Read, the constructor succeeds exactly when the backing is readable and holds a whole block, and then gives entry 0's strings of the block at its start |
| VfsPaths.GetFullPath | app/src/main/cpp/skyline/filesystem/vfs.cpp:32-35 | the host path is the root, the base path, a slash and the file name, each readable back at its place |
| VfsPaths.GetFullPathSplits | app/src/main/cpp/skyline/filesystem/vfs.cpp:32-35 | when file names hold no slash, equal host paths come from equal base paths and file names |
| VfsPaths.Rewrite | app/src/main/cpp/skyline/filesystem/vfs.cpp:8-19 | each mount-point literal stands for its directory under the NAND or the SD card; any other path stands for itself |
| VfsPaths.RewriteIsIdempotent | app/src/main/cpp/skyline/filesystem/vfs.cpp:8-19 | no rewritten path is a literal again, so rewriting twice changes nothing |
| VfsPaths.FullPathOf | app/src/main/cpp/skyline/filesystem/vfs.cpp:8-21 | the directory a path names is the rewritten path under the root, ending in a slash |
| VfsPaths.Split | app/src/main/cpp/skyline/filesystem/vfs.cpp:57-61 | the pieces between the colons hold no colon, and there is at least one |
| VfsPaths.JoinSplit | app/src/main/cpp/skyline/filesystem/vfs.cpp:57-61 | splitting loses nothing: joining the pieces with colons gives the string back |
| VfsPaths.Tokens | app/src/main/cpp/skyline/filesystem/vfs.cpp:57-61 | the tokens `getline` collects hold no colon; a trailing empty piece is not read |
| VfsPaths.Tokenize | app/src/main/cpp/skyline/filesystem/vfs.cpp:55-61 | the character loop collects exactly Tokens of the path |
| VfsPaths.TwoTokens | app/src/main/cpp/skyline/filesystem/vfs.cpp:57-63 | "mount:file", both free of colons and the file not empty, gives exactly the two tokens |
| VfsPaths.SplitNoColon | app/src/main/cpp/skyline/filesystem/vfs.cpp:57-61 | a string without colons is one piece |
| VfsPaths.SplitAppend | app/src/main/cpp/skyline/filesystem/vfs.cpp:57-61 | appending a colon and a colon-free text adds that text as one more piece |
| VfsPaths.SwitchPathAsWritten | app/src/main/cpp/skyline/filesystem/vfs.cpp:54-67 | as written, the conversion succeeds exactly for two tokens and passes the mount's full path to GetFullPath again; otherwise a null pointer becomes a string and fails |
| VfsPaths.SwitchPath | app/src/main/cpp/skyline/filesystem/vfs.cpp:54-67 | as intended, the conversion succeeds exactly for two tokens and gives the file under the rewritten mount directory |
| VfsPaths.SwitchPathAsWrittenDoublesRoot | app/src/main/cpp/skyline/filesystem/vfs.cpp:63-64 | for every "mount:file" the path as written starts with the root twice and differs from the intended host path |
| VfsPaths.RootTwice | app/src/main/cpp/skyline/filesystem/vfs.cpp:32-35 | a full path given as the base path keeps its own root after the one GetFullPath adds |
| VfsPaths.FullPathIsNotHostPath | app/src/main/cpp/skyline/filesystem/vfs.cpp:64 | the file under a mount's full path is never the file under its directory |
| VfsPaths.Vfs.constructor | app/src/main/cpp/skyline/filesystem/vfs.cpp:6 | the host file system starts as given |
| VfsPaths.Vfs.Mkdir | app/src/main/cpp/skyline/filesystem/vfs.cpp:26 | `mkdir` succeeds exactly where nothing is, and then adds a directory there and nothing else |
| VfsPaths.Vfs.MakeFullPathAsWritten | app/src/main/cpp/skyline/filesystem/vfs.cpp:7-30 | as written, the full path is returned and the host file system is never changed: `mkdir` is tried only where something that is not a directory already is |
| VfsPaths.Vfs.MakeFullPath | app/src/main/cpp/skyline/filesystem/vfs.cpp:7-30 | as intended, the full path is returned and a missing directory is created when one is asked for |
| VfsPaths.Vfs.SwitchPathToSystemPath | app/src/main/cpp/skyline/filesystem/vfs.cpp:54-67 | as intended, over the corrected SwitchPath and MakeFullPath: the conversion gives SwitchPath of the path and creates the mount's directory when it is missing |
| Texture.EmptyDimensions | app/src/main/cpp/skyline/gpu/texture.h:20 | the default dimensions are all zero |
| Texture.Dimensions2D | app/src/main/cpp/skyline/gpu/texture.h:22 | two-dimensional dimensions have a depth of one layer |
| Texture.CompareDimensions | app/src/main/cpp/skyline/gpu/texture.h:26 | the defaulted three-way comparison is zero exactly for equal dimensions and negative exactly when the first is lexicographically smaller (width, then height, then depth) |
| Texture.CompareIsTotalOrder | app/src/main/cpp/skyline/gpu/texture.h:26 | the comparison is antisymmetric and transitive |
| Texture.SameFormatIgnoresLayout | app/src/main/cpp/skyline/gpu/texture.h:56-62 | formats compare equal when their host formats do, whatever their bytes per block and block sizes |
| Texture.GetSizeIsExact | app/src/main/cpp/skyline/gpu/texture.h:48-50 | when no product overflows, the 32-bit size is whole blocks across times whole blocks down times bytes per block times depth |
| Texture.UncompressedSize | app/src/main/cpp/skyline/gpu/texture.h:38-50 | for an uncompressed format the size is width times height times bytes per pixel times depth |
| Texture.SizeScalesWithDepth | app/src/main/cpp/skyline/gpu/texture.h:48-54 | a texture of several layers is that many single layers, when it fits in 32 bits |
| Texture.ValidTextureHasBytes | app/src/main/cpp/skyline/gpu/texture.h:48-69 | a valid format gives a texture of at least one block and one layer a nonzero size, when it fits in 32 bits |
| Texture.LargeTextureWraps | app/src/main/cpp/skyline/gpu/texture.h:48-50 | the products wrap at 32 bits before being widened: 0x10000 by 0x10000 one-byte texels have size zero |
| Gpfifo.DecodeEntry0 | app/src/main/cpp/skyline/gpu/gpfifo.h:26-33 | the word index read from entry0 is below 2^30 |
| Gpfifo.DecodeEntry1 | app/src/main/cpp/skyline/gpu/gpfifo.h:57-69 | the segment size read from entry1 is below 2^21 |
| Gpfifo.DecodeGpEntry | app/src/main/cpp/skyline/gpu/gpfifo.h:20-71 | every pair of words decodes to a well-formed entry |
| Gpfifo.DecodeEncodeGpEntry | app/src/main/cpp/skyline/gpu/gpfifo.h:20-71 | decoding the words an entry is stored as gives every field back |
| Gpfifo.EncodeDecodeGpEntry | app/src/main/cpp/skyline/gpu/gpfifo.h:20-71 | encoding decoded words gives them back, except for the unused bit 1 of entry0 |
| Gpfifo.FetchAddressValue | app/src/main/cpp/skyline/gpu/gpfifo.h:146 | the fetch address `(getHi << 32) \| (get << 2)` is getHi times 2^32 plus four times get: word-aligned and below 2^40 |
| Gpfifo.SecOpValue | app/src/main/cpp/skyline/gpu/gpfifo.h:87-96 | each secondary opcode has a three-bit value |
| Gpfifo.SecOpOf | app/src/main/cpp/skyline/gpu/gpfifo.h:87-96 | every three-bit value names the opcode with that value |
| Gpfifo.SecOpRoundTrip | app/src/main/cpp/skyline/gpu/gpfifo.h:87-96 | an opcode's value names that opcode again |
| Gpfifo.DecodeHeader | app/src/main/cpp/skyline/gpu/gpfifo.h:98-123 | every header word decodes to an address below 2^12, a subchannel below 8 and a count below 2^13 |
| Gpfifo.DecodeEncodeHeader | app/src/main/cpp/skyline/gpu/gpfifo.h:98-123 | decoding the word for well-formed fields gives the fields back |
| Gpfifo.EncodeDecodeHeader | app/src/main/cpp/skyline/gpu/gpfifo.h:98-123 | encoding a decoded header gives the word back, except for bit 12 |
| Gpfifo.TertOp | app/src/main/cpp/skyline/gpu/gpfifo.h:109-113 | the tertiary opcode is the low three bits of the method count, which shares its bits |
| Gpfifo.PushBuffer.constructor | app/src/main/cpp/skyline/gpu/gpfifo.h:139-142 | the pushbuffer keeps its entry and fetches the segment only when asked to |
| Gpfifo.PushBuffer.Fetch | app/src/main/cpp/skyline/gpu/gpfifo.h:144-147 | the segment becomes the entry's size words stored at its address |
| Parcel.HeaderBytes | app/src/main/cpp/skyline/gpu/parcel.h:15-21 | the stored header is 16 bytes: four little-endian u32 fields |
| Parcel.LittleEndianBound | app/src/main/cpp/skyline/gpu/parcel.h:15-21 | four stored bytes hold a u32 |
| Parcel.ParseHeaderBytes | app/src/main/cpp/skyline/gpu/parcel.h:15-21 | storing a header and reading it back gives the same header |
| Parcel.Parcel.constructor | app/src/main/cpp/skyline/gpu/parcel.h:44-48 | an empty parcel has a zero header and empty data and objects |
| Parcel.Parcel.WriteData | app/src/main/cpp/skyline/gpu/parcel.h:55-63 | the value's bytes are appended to the data in memory order; the objects and the header are untouched |
| Parcel.Parcel.WriteObject | app/src/main/cpp/skyline/gpu/parcel.h:70-78 | the value's bytes are appended to the objects in memory order; the data and the header are untouched |
| Parcel.Parcel.WriteU32 | app/src/main/cpp/skyline/gpu/parcel.h:55-63 | writing a u32 appends its four little-endian bytes to the data, where it reads back as the same value |
| Npad.ControllerTypeValue | app/src/main/cpp/skyline/input/sections/Npad.h:13-20 | None is 0 and every other controller type is a single bit among bits 0-4 |
| Npad.JoyAssignmentValue | app/src/main/cpp/skyline/input/sections/Npad.h:26-29 | Dual is 0 and Single is 1 |
| Npad.ColorReadStatusValue | app/src/main/cpp/skyline/input/sections/Npad.h:34-38 | each color read status is one of 0, 1, 2 |
| Npad.ColorReadStatusOf | app/src/main/cpp/skyline/input/sections/Npad.h:34-38 | exactly the values 0-2 name a status, and each names the status with that value |
| Npad.ColorReadStatusRoundTrip | app/src/main/cpp/skyline/input/sections/Npad.h:34-38 | a status's value names that status again |
| Npad.BatteryLevelValue | app/src/main/cpp/skyline/input/sections/Npad.h:249-255 | the battery levels are 0-4, Empty 0 and Full 4 |
| Npad.BatteryLevelOf | app/src/main/cpp/skyline/input/sections/Npad.h:249-255 | exactly the values 0-4 name a level, and each names the level with that value |
| Npad.BatteryLevelRoundTrip | app/src/main/cpp/skyline/input/sections/Npad.h:249-255 | a level's value names that level again |
| Npad.InitialHeader | app/src/main/cpp/skyline/input/sections/Npad.h:52-62 | a new header reports both color reads as disconnected and keeps the type, assignment and colors |
| Npad.Flags | app/src/main/cpp/skyline/input/sections/Npad.h:68-100 | n one-bit fields are read from a word |
| Npad.FlagsValue | app/src/main/cpp/skyline/input/sections/Npad.h:68-100 | n flags are stored in a word below 2^n |
| Npad.FlagIsBit | app/src/main/cpp/skyline/input/sections/Npad.h:68-100 | flag k is bit k of the word: the first declared field is the lowest bit |
| Npad.FlagsOfValue | app/src/main/cpp/skyline/input/sections/Npad.h:68-100 | storing flags and reading them back gives the flags |
| Npad.ValueOfFlags | app/src/main/cpp/skyline/input/sections/Npad.h:68-100 | reading n flags and storing them keeps the low n bits of the word |
| Npad.ButtonBit | app/src/main/cpp/skyline/input/sections/Npad.h:71-98 | each button has its own bit among 0-27, in the declared order |
| Npad.ButtonBitsAreDistinct | app/src/main/cpp/skyline/input/sections/Npad.h:71-98 | two buttons share a bit exactly when they are the same button |
| Npad.PressedIsBit | app/src/main/cpp/skyline/input/sections/Npad.h:68-100 | a button reads as pressed exactly when its bit of the word is set |
| Npad.FlagsFitInWord | app/src/main/cpp/skyline/input/sections/Npad.h:68-101 | the 28 button flags fit in the u64 word |
| Npad.ButtonsWordRoundTrip | app/src/main/cpp/skyline/input/sections/Npad.h:68-100 | the word made from a set of pressed buttons reads back as exactly that set |
| Npad.DecodeConnectionState | app/src/main/cpp/skyline/input/sections/Npad.h:106-117 | the connected flag is bit 0 of the word |
| Npad.EncodeConnectionState | app/src/main/cpp/skyline/input/sections/Npad.h:106-117 | the six connection flags occupy bits 0-5 only |
| Npad.DecodeEncodeConnectionState | app/src/main/cpp/skyline/input/sections/Npad.h:106-117 | storing a connection state and reading it back gives the same state |
| Npad.EncodeDecodeConnectionState | app/src/main/cpp/skyline/input/sections/Npad.h:106-117 | reading a word and storing the state keeps bits 0-5 and clears the rest |
| Npad.ConnectionFlagBits | app/src/main/cpp/skyline/input/sections/Npad.h:109-114 | each connection flag is its bit, in the declared order |
| Npad.AlignUp | app/src/main/cpp/skyline/input/sections/Npad.h:52-290 | a field is placed at the first multiple of its alignment at or after the end of the previous one |
| Npad.OffsetOf | app/src/main/cpp/skyline/input/sections/Npad.h:52-290 | each field starts aligned, after the previous fields, and ends where the next layout step begins |
| Npad.FieldsAreDisjoint | app/src/main/cpp/skyline/input/sections/Npad.h:52-290 | fields are laid out in declaration order and do not overlap |
| Npad.MaxAlign | app/src/main/cpp/skyline/input/sections/Npad.h:52-290 | a structure's alignment is the largest of its fields' alignments |
| Npad.SizeOf | app/src/main/cpp/skyline/input/sections/Npad.h:52-290 | a structure's size covers its fields and is a multiple of its alignment |
| Npad.ControllerStateSize | app/src/main/cpp/skyline/input/sections/Npad.h:122-136 | the controller state is 0x30 bytes, 8-aligned, as asserted |
| Npad.EntryTableSizesFixCount | app/src/main/cpp/skyline/input/sections/Npad.h:141-181 | the two entry tables' asserted sizes allow only a 0x20-byte common header and 17 entries |
| Npad.ControllerInfoSize | app/src/main/cpp/skyline/input/sections/Npad.h:141-145 | the controller table is 0x350 bytes, as asserted |
| Npad.HeaderAndArraySize | app/src/main/cpp/skyline/input/sections/Npad.h:141-181 | a common header followed by an 8-aligned array is the header's size plus the array's |
| Npad.VectorSize | app/src/main/cpp/skyline/input/sections/Npad.h:150-155 | a sixaxis vector is 0xC bytes, as asserted |
| Npad.SixaxisStateSize | app/src/main/cpp/skyline/input/sections/Npad.h:160-172 | the sixaxis state is 0x68 bytes, as asserted |
| Npad.SixaxisInfoSize | app/src/main/cpp/skyline/input/sections/Npad.h:177-181 | the sixaxis table is 0x708 bytes, as asserted |
| Npad.HeaderSize | app/src/main/cpp/skyline/input/sections/Npad.h:52-63 | the Npad header is 0x28 bytes, as asserted |
| Npad.SectionMembersAreTheStructures | app/src/main/cpp/skyline/input/sections/Npad.h:260-289 | the section's header and tables have the sizes and alignments of their structures |
| Npad.SectionControllersEnd | app/src/main/cpp/skyline/input/sections/Npad.h:260-269 | the header and the seven controller tables end at 0x1758 |
| Npad.SectionSixaxisEnd | app/src/main/cpp/skyline/input/sections/Npad.h:271-276 | the six sixaxis tables end at 0x4188 |
| Npad.SectionFieldsEnd | app/src/main/cpp/skyline/input/sections/Npad.h:278-288 | the trailing fields end at 0x4FFC, the single battery level at 0x419C to 0x41A0 |
| Npad.SectionSize | app/src/main/cpp/skyline/input/sections/Npad.h:260-290 | the section is 0x5000 bytes as asserted, four of them trailing padding, with the battery levels at 0x419C and 0x41A4 |
| Npad.EndStep | app/src/main/cpp/skyline/input/sections/Npad.h:52-290 | laying out one more field extends the end by its aligned placement and size |
| Npad.MaxAlignStays | app/src/main/cpp/skyline/input/sections/Npad.h:260-290 | once the alignment is 8, fields aligned to at most 8 keep it |
| NroLoader.Zeros | app/src/main/java/emu/skyline/loader/NroLoader.kt:16 | a fresh byte array of n bytes holds zeros |
| NroLoader.ReadBytes | app/src/main/java/emu/skyline/loader/NroLoader.kt:16-17 | `read` into a fresh array takes the file's bytes from the position on and leaves zeros past the end |
| NroLoader.ReadLe | app/src/main/java/emu/skyline/loader/NroLoader.kt:14-29 | a byte-reversed big-endian read is the little-endian field, present exactly when the file holds it whole |
| NroLoader.ReadInt | app/src/main/java/emu/skyline/loader/NroLoader.kt:14-21 | `reverseBytes(readInt())` succeeds exactly when four bytes remain |
| NroLoader.ReadLong | app/src/main/java/emu/skyline/loader/NroLoader.kt:20-29 | `reverseBytes(readLong())` succeeds exactly when eight bytes remain |
| NroLoader.VerifyFile | app/src/main/java/emu/skyline/loader/NroLoader.kt:42-52 | a file is an NRO exactly when it holds "NRO0" at 0x10; a short file fails |
| NroLoader.IconStage | app/src/main/java/emu/skyline/loader/NroLoader.kt:13-23 | the icon is read only after the ASET magic matched and a nonzero icon size was read |
| NroLoader.Finish | app/src/main/java/emu/skyline/loader/NroLoader.kt:27-36 | the name and author are cut at their first NUL and fit their fields; the icon has the size read |
| NroLoader.GetTitleEntryAsWritten | app/src/main/java/emu/skyline/loader/NroLoader.kt:11-40 | as written, the loader throws past its IOException handler exactly when the icon stage succeeds with a negative icon size |
| NroLoader.GetTitleEntry | app/src/main/java/emu/skyline/loader/NroLoader.kt:11-40 | as intended, a title entry is valid only with a positive icon size, has NUL-free name and author within their fields and the icon of the size read; every failure gives the ASET-missing entry |
| NroLoader.AsWrittenAgreesWhenItReturns | app/src/main/java/emu/skyline/loader/NroLoader.kt:11-40 | whenever the loader as written returns, it returns the intended entry |
| NroLoader.NroFile | app/src/main/java/emu/skyline/loader/NroLoader.kt:13-35 | a laid-out NRO has the headers, the icon and the padded name and author |
| NroLoader.NroHeader | app/src/main/java/emu/skyline/loader/NroLoader.kt:13-14 | the NRO header is 0x20 bytes |
| NroLoader.AsetHeader | app/src/main/java/emu/skyline/loader/NroLoader.kt:18-29 | the ASET header is 0x28 bytes |
| NroLoader.NroFileFields | app/src/main/java/emu/skyline/loader/NroLoader.kt:13-35 | each field the loader reads from a laid-out NRO is the value laid out there |
| NroLoader.NroFileHeaders | app/src/main/java/emu/skyline/loader/NroLoader.kt:13-29 | a laid-out NRO starts with its NRO header and then its ASET header |
| NroLoader.AsetHeaderFields | app/src/main/java/emu/skyline/loader/NroLoader.kt:18-29 | the ASET magic, icon offset, icon size, NACP offset and NACP size lie where the loader reads them |
| NroLoader.NroHeaderOffset | app/src/main/java/emu/skyline/loader/NroLoader.kt:13-14 | the NRO header holds the ASET offset at 0x18 |
| NroLoader.NroFileIconFields | app/src/main/java/emu/skyline/loader/NroLoader.kt:13-21 | the ASET offset, magic, icon offset and icon size read back from a laid-out NRO |
| NroLoader.NroFileAset | app/src/main/java/emu/skyline/loader/NroLoader.kt:13-18 | the ASET offset and the magic at it read back |
| NroLoader.NroFileIconHeader | app/src/main/java/emu/skyline/loader/NroLoader.kt:19-21 | the icon offset and the icon size field read back |
| NroLoader.NroFileNacpFields | app/src/main/java/emu/skyline/loader/NroLoader.kt:27-29 | the NACP offset and size read back |
| NroLoader.LongAt | app/src/main/java/emu/skyline/loader/NroLoader.kt:20-29 | eight bytes holding a value below 2^63 read back as that long |
| NroLoader.IntAt | app/src/main/java/emu/skyline/loader/NroLoader.kt:14-21 | four bytes holding a u32 read back as that int |
| NroLoader.NroFileContents | app/src/main/java/emu/skyline/loader/NroLoader.kt:23-35 | the icon, the padded name and the padded author read back |
| NroLoader.LeInverse | app/src/main/java/emu/skyline/loader/NroLoader.kt:14-29 | the little-endian bytes of a value read back as the value |
| NroLoader.NroFileIconStage | app/src/main/java/emu/skyline/loader/NroLoader.kt:13-23 | the icon stage of a laid-out NRO finds the ASET section at 0x20 and the icon at 0x48 |
| NroLoader.NroFileNacpStage | app/src/main/java/emu/skyline/loader/NroLoader.kt:27-31 | its NACP stage finds the name right after the icon |
| NroLoader.NroFileVerifies | app/src/main/java/emu/skyline/loader/NroLoader.kt:42-52 | a laid-out NRO passes verifyFile |
| NroLoader.NroFileRoundTrip | app/src/main/java/emu/skyline/loader/NroLoader.kt:11-40 | the title entry of a laid-out NRO with a correct icon size is its name, author and icon, both as written and as intended |
| NroLoader.NegativeIconSizeEscapes | app/src/main/java/emu/skyline/loader/NroLoader.kt:21-24 | an icon size field of 0xFFFFFFFF is the Int -1: the loader as written throws past its handler, the intended one gives the ASET-missing entry |
| RomFile.FormatValue | app/src/main/java/emu/skyline/loader/RomFile.kt:24-30 | each format's number is below 5 |
| RomFile.FormatValueIsOrdinal | app/src/main/java/emu/skyline/loader/RomFile.kt:24-30 | each format's number is its position in the declaration, so distinct formats have distinct numbers |
| RomFile.FormatName | app/src/main/java/emu/skyline/loader/RomFile.kt:24-30 | each format's name has three letters |
| RomFile.ValueOf | app/src/main/java/emu/skyline/loader/RomFile.kt:45 | `valueOf` gives the format with exactly that name and throws for a text that names none |
| RomFile.Extension | app/src/main/java/emu/skyline/loader/RomFile.kt:45 | the text after the last dot, or the whole name without one, is a dot-free suffix preceded by the dot |
| RomFile.Upper | app/src/main/java/emu/skyline/loader/RomFile.kt:45 | upper-casing keeps the length and maps each character on its own |
| RomFile.GetRomFormat | app/src/main/java/emu/skyline/loader/RomFile.kt:38-46 | a format found is the one named by the upper-cased extension of the display name |
| RomFile.GetRomFormatOfExtension | app/src/main/java/emu/skyline/loader/RomFile.kt:38-46 | a name with a format's extension, in any letter case, has that format |
| RomFile.ValueOfName | app/src/main/java/emu/skyline/loader/RomFile.kt:45 | a format's name gives that format back |
| RomFile.ExtensionOfSuffix | app/src/main/java/emu/skyline/loader/RomFile.kt:45 | the extension of a name ending in a dot and a dot-free text is that text |
| RomFile.UnknownExtensionThrows | app/src/main/java/emu/skyline/loader/RomFile.kt:45 | example: only the last extension counts: "game.nsp.bak" throws |
| RomFile.DotlessINamesXci | app/src/main/java/emu/skyline/loader/RomFile.kt:45 | example: root-locale upper case maps a dotless i to I, so ".xcı" names an XCI |
| RomFile.LoaderResultValue | app/src/main/java/emu/skyline/loader/RomFile.kt:51-57 | the loader results are 0-5, and 0 is exactly Success |
| RomFile.LoaderResultGet | app/src/main/java/emu/skyline/loader/RomFile.kt:59-61 | `get` succeeds exactly for 0-5 and gives the result with that value |
| RomFile.LoaderResultRoundTrip | app/src/main/java/emu/skyline/loader/RomFile.kt:51-61 | a result's value gives that result back |
| RomFile.DropLast | app/src/main/java/emu/skyline/loader/RomFile.kt:103 | `dropLast(n)` is a prefix n characters shorter, or empty when there are fewer |
| RomFile.EntryFromDisplayName | app/src/main/java/emu/skyline/loader/RomFile.kt:98-106 | the entry made from a display name has no author and no icon, the given format and URI, and a name that is a prefix of the display name |
| RomFile.DisplayNameDropsExtension | app/src/main/java/emu/skyline/loader/RomFile.kt:98-106 | a display name of a base, a dot and a three-letter extension gives the base |
| RomFile.OpenRom | app/src/main/java/emu/skyline/loader/RomFile.kt:175-186 | the ROM opens exactly when the native result names a constant; it is valid exactly for Success; its entry is the native name, author and icon bytes when all three were filled in (the icon is kept undecoded), and the display-name entry otherwise |
| RomFile.ModifiedUtf8Length | app/src/main/java/emu/skyline/loader/RomFile.kt:115-120 | a string takes at least one encoded byte per character in `writeUTF` |
| RomFile.WriteObject | app/src/main/java/emu/skyline/loader/RomFile.kt:113-129 | serializing succeeds exactly when the name, the URI and any author fit `writeUTF` |
| RomFile.ReadObject | app/src/main/java/emu/skyline/loader/RomFile.kt:136-145 | deserializing consumes at least one record |
| RomFile.ReadOptional | app/src/main/java/emu/skyline/loader/RomFile.kt:141-144 | a presence flag consumes at least one record, and a present value is of the expected kind |
| RomFile.ReadWriteObject | app/src/main/java/emu/skyline/loader/RomFile.kt:113-145 | reading back what was written gives the entry, whatever follows it in the stream |

## Left out

- Host concurrency is not modelled: the spin-waits on a waiter's flag, the host locks around the mutex and condition-variable queues, the producer's mutex and nvmap's shared lock. The guest mutex and condition-variable protocol is a sequence of state transitions. A blocking call is split into the call and an explicit "woken" step.
- Process.KProcess.ConditionalVariableSignal: the hand-off to a woken waiter is recorded as a queued handle; the spin until the waiter takes it is not modelled.
- The timing loop of `ConditionalVariableWait`, clock register reads and sleeping are left out. Only the tick-to-nanosecond formula is modelled (Common.TicksToNsRoundsHalfUp).
- The memory manager (`InsertChunk`/`GetChunk`) is not part of this model. It is the log of inserted chunk descriptors, read back as "the latest descriptor covering an address".
- The handle table (`NewHandle`, `GetHandle`, `DeleteHandle` of KProcess.h) is not part of this model. The Handles module stands in for it as a map with a counter, with only the contracts its callers rely on; it has no rows of its own.
- Host memory effects are parameters or left out: `mprotect`, `ReadMemory`/`WriteMemory`, `CopyMemory`, `memcpy` into host pointers, `process_vm_readv/writev` and `/proc/<pid>/mem`.
- Loader.Loader.LoadExecutable: the total size is not wrapped at 64 bits. `PatchCode`, the copying of section contents, and stack traces (`GetStackTrace`, `dladdr`, demangling) are left out.
- Process.KProcess.GetTlsSlot: the extra reservation guarded by an empty page list cannot run after a page was pushed, and is not modelled.
- Constants defined in headers that are not part of this model are parameters with the narrowest contract the code relies on: `PAGE_SIZE`, `TlsSlots`, `TlsSlotSize`, `MtxOwnerMask`, `MaxSlotCount` and the producer's other header constants, the parcel magics and `intCount`, the audio sample rate, channel count and sample format, `BaseVirtualHandleIndex`, the shared-font lengths, and the applet focus-state and message values.
- The HID `CommonHeader` size and `HidEntryCount` are not part of this model. Npad uses 0x20 and 17, the only values the two entry tables' asserted sizes allow (Npad.EntryTableSizesFixCount).
- `DefaultUserId` is defined in a header that is not part of this model. AppletFunctions uses the user id (1, 0).
- Svc.SetMemoryAttribute: the bit layout of `MemoryAttribute` is a parameter.
- AudioVoice: floating point, volume and the resampler are left out. The samples read from guest memory are a parameter.
- AudioOut: `ListAudioOuts` writes a name constant to guest memory and is left out.
- Nsp: parsing an NCA and listing a RomFS belong to classes that are not part of this model. Each partition entry carries the NCA it opens as, or an error. `LoadProcessData` is left out because it delegates to the NCA loader.
- Nacp: only title entry 0 is read, as in the source. No language selection is modelled.
- Npad: the bit fields of the device type, the system properties and the system button properties are laid out but not decoded.
- NroLoader: `RandomAccessDocument` is not part of this model. Reads follow `java.io.RandomAccessFile`. Byte arrays are kept as bytes: the charset decoding of `String(buffer)` and the icon's bitmap decoding are left out.
- RomFile: upper-casing with the root locale is modelled for ASCII letters, dotless i and long s only. No other character can upper-case into a letter of a format name. Bitmap compression is left out: the serialized icon is one record of its bytes. The content resolver's query is a parameter (the display name).
- VfsPaths: `GetSdCardPath`, `GetNandPath` and `GetSystemPath` are `MakeFullPath` of a constant, and `GetSavePath` returns the empty string; they have no members of their own. `stat` and `mkdir` act on a map of host paths; parents and permissions are not modelled.
- KeyStore: a key index of 20 or more is an error. The source writes past the end of its array there, which is undefined behaviour.
- AppletStorage.ReadAsWritten: the source throws at `outputBuf.at(0)` on a request with an input buffer and no output buffer; the model does not cover that request.
- Commands left out, because they hand out kernel handles to objects this model does not hold: `GetGpuErrorDetectedSystemEvent`, `GetEventHandle` and `GetSharedMemoryNativeHandle`.
- Also left out: `OnTransact` parcel parsing beyond what the buffer producer's model states, service commands that are empty stubs (such as `InitializeGamePlayRecording`), and `IWindowController`.
- The presentation engine, Vulkan, fences and texture creation inside `SetPreallocatedBuffer` are opaque calls. The GPFIFO engine's `Process`, `Send`, `Run` and `Push` are defined in a file that is not part of this model.
- Callers of the corrected definitions of the Findings are modelled as intended: Process.KProcess.MutexUnlock, Svc.ArbitrateUnlock and Svc.WaitProcessWideKeyAtomic use the corrected release rule (row 1), Svc.UnmapMemory the corrected deletion (row 2), BufferProducer.PreallocatedTexture and BufferProducer.GraphicBufferProducer.SetPreallocatedBuffer the corrected tile mode (row 4), Pl.PlatformServiceManager.constructor the corrected font table (row 6), AudioVoice.Reload and AudioVoice.Voice.UpdateBuffers use the corrected up-mix and read size, VfsPaths.Vfs.SwitchPathToSystemPath the corrected SwitchPath and MakeFullPath, and Fssrv.StorageRead and Nacp.OpenNacp the corrected Backing.Read. The as-written behaviour of each is stated by its as-written member only.
- Nsp.OpenNsp: the exceptions thrown by listing the program NCA's RomFS and by reading `control.nacp` (nsp.cpp:31-32) are not modelled, because both parsers are not part of this model; with both NCAs found the model's constructor succeeds.
- RomFile.OpenRom: the icon is kept as its bytes. `BitmapFactory.decodeByteArray` is not modelled, so the null icon it gives for undecodable bytes is not either.
- Error messages are informative only: no contract depends on an exception's text.

## Findings

| source | as written | input that shows it | evidently intended | confidence | as-written member | corrected member |
|---|---|---|---|---|---|---|
| app/src/main/cpp/skyline/kernel/types/KProcess.cpp:249-255 | a failed compare-and-swap stores the current word in `mtxExpected`, so the second one expects the word's own owner bits and succeeds for any word without waiter bits, whoever calls | the word 0x1234 (owned by thread 0x1234, no waiters) unlocked by thread 0x5678 | only a word that names the caller is released | not executed | Process.UnlockAsWrittenIgnoresCaller | Process.UnlockReleases |
| app/src/main/cpp/skyline/kernel/svc.cpp:170-174 | the object to delete is looked up a second time by the destination address, the original memory | unmapping a stack alias whose object differs from the original memory's deletes the original's handle and keeps the alias's | the source's object, the stack alias, loses its handle | not executed | Svc.UnmapAsWrittenDeletesOriginal | Svc.UnmapDeletes |
| app/src/main/cpp/skyline/vfs/backing.h:76-79 | `Read` compares the bytes read with the backing's `size` instead of the output's size | reading 2 bytes from a readable 4-byte backing throws | the read succeeds when the output is filled | not executed | Backing.Backing.ReadAsWritten | Backing.Backing.Read |
| app/src/main/cpp/skyline/services/hosbinder/GraphicBufferProducer.cpp:348-362 | the first test is `layout != Blocklinear`, so pitch and legacy tiled surfaces get the Block tile mode, a block-linear one gets Pitch, and the tiled error is never reached | a pitch surface is tiled in blocks; a legacy tiled surface is accepted | block-linear surfaces get Block, pitch surfaces Pitch, and tiled surfaces are refused | not executed | BufferProducer.TileModeAsWrittenSwapsLayouts | BufferProducer.TileModeOf |
| app/src/main/cpp/skyline/services/am/storage/IStorageAccessor.cpp:35 | `Read` takes the copy length from the first input buffer and writes that many bytes to the output buffer | a read request without an input buffer throws at `inputBuf.at(0)`; with a 0x88-byte input buffer all 0x88 bytes of a 0x88-byte storage are written, whatever the output buffer's size | the copy length comes from the output buffer it fills | not executed | AppletStorage.ReadAsWrittenIgnoresOutputBuffer | AppletStorage.Read |
| app/src/main/cpp/skyline/services/pl/IPlatformServiceManager.cpp:24 | entry 0 of the font table, the simplified-Chinese font, is given the length of the extended simplified-Chinese font | fonts of 1, 0, 2, 0, 0 and 0 bytes: entry 0 is given length 2 | each entry takes its own font's length | not executed | Pl.TableLengthAsWrittenIsWrong | Pl.Entries |
| app/src/main/cpp/skyline/services/audren/voice.cpp:66-68 | the up-mix loop stops at mono index 1, so the first two mono samples stay in place as frame 0 | the mono samples 1, 2 up-mix to 1, 2, 2, 2 | every frame holds its mono sample in both channels: 1, 1, 2, 2 | not executed | AudioVoice.UpMixAsWrittenDuplicatesSecondSample | AudioVoice.Voice.UpMix |
| app/src/main/cpp/skyline/services/audren/voice.cpp:52-53 | the sample buffer holds the byte size halved, rounded down, in samples, while the read copies the whole byte size | any odd wave-buffer size overruns the sample buffer by one byte | the read copies the whole samples the buffer holds | not executed | AudioVoice.OddSizeOverrunsSampleBuffer | AudioVoice.BytesRead |
| app/src/main/cpp/skyline/filesystem/vfs.cpp:25-26 | `mkdir` is called only when `stat` finds something that is not a directory | a missing directory is never created | a missing directory is created | not executed | VfsPaths.Vfs.MakeFullPathAsWritten | VfsPaths.Vfs.MakeFullPath |
| app/src/main/cpp/skyline/filesystem/vfs.cpp:63-64 | the mount's full path is passed to `GetFullPath` again, which adds the root a second time | every "mount:file", such as "@Sdcard:file", gives a path that starts with the root twice | the file under the mount's directory | not executed | VfsPaths.SwitchPathAsWrittenDoublesRoot | VfsPaths.SwitchPath |
| app/src/main/java/emu/skyline/loader/NroLoader.kt:21-24 | a negative icon size makes `ByteArray(iconSize)` throw NegativeArraySizeException, which the IOException handler does not catch | an ASET icon size field of 0xFFFFFFFF | a malformed ASET section gives the ASET-missing entry | not executed | NroLoader.NegativeIconSizeEscapes | NroLoader.GetTitleEntry |
| app/src/main/cpp/skyline/services/audren/voice.cpp:47-68 | the early return catches only a zero-byte wave buffer; a one-byte buffer resizes the samples to 0, `originalSize - 1` wraps to SIZE_MAX and the up-mix loop reads and writes out of bounds | a mono voice with a one-byte wave buffer | an empty buffer up-mixes to an empty buffer | not executed | AudioVoice.OneByteWaveBufferIndexesPastEnd | AudioVoice.Voice.UpMix |
