/** `KProcess` (kernel/types/KProcess.cpp): thread-local-storage slot
    allocation, host address translation, and the guest mutex and
    condition-variable rules.

    The guest's 32-bit mutex words are a map from address to `bv32` (a word
    never written reads as 0). `ownerMask` is `constant::MtxOwnerMask`; its
    complement is the "has waiters" bit. Each blocking hand-off is split into
    the call that enqueues or flags a waiter and a separate "woken" step that
    the waiting thread runs once its flag is set. */
module Process {
  import opened Wrappers
  import opened Common
  import PrivateMemory

  // ---------------------------------------------------------------------
  // TLS pages and slots
  // ---------------------------------------------------------------------

  /** A page of `slot.Length` (`constant::TlsSlots`) TLS slots of `slotSize`
      (`constant::TlsSlotSize`) bytes each, handed out in order from `index`. */
  class TlsPage {
    const address: nat
    const slotSize: nat
    const slot: array<bool>
    var index: nat

    /** Exactly the slots below the cursor are reserved. */
    ghost predicate Valid()
      reads this, slot
    {
      0 < slot.Length && index <= slot.Length
      && forall i :: 0 <= i < slot.Length ==> (slot[i] <==> i < index)
    }

    constructor (address: nat, slotSize: nat, slotCount: nat)
      requires slotCount > 0
      ensures Valid() && fresh(slot)
      ensures this.address == address && this.slotSize == slotSize && slot.Length == slotCount && index == 0
    {
      this.address := address;
      this.slotSize := slotSize;
      slot := new bool[slotCount](_ => false);
      index := 0;
    }

    /** The address of slot `slotNo`; slots past the page's end are refused.
        Every slot lies inside the page's `slotCount * slotSize` bytes. */
    function Get(slotNo: nat): (r: Result<nat>)
      ensures r.Ok? <==> slotNo < slot.Length
      ensures r.Ok? ==> r.value == address + slotSize * slotNo
      ensures r.Ok? ==> address <= r.value && r.value + slotSize <= address + slotSize * slot.Length
    {
      if slotNo >= slot.Length then Err("TLS slot is out of range")
      else
        MulMonotone(slotNo + 1, slot.Length, slotSize);
        Ok(address + slotSize * slotNo)
    }

    /** A page is full when its last slot is taken, which for a valid page is
        when the cursor has reached the end. */
    function Full(): (r: bool)
      requires 0 < slot.Length
      reads this, slot
      ensures Valid() ==> (r <==> index == slot.Length)
    {
      slot[slot.Length - 1]
    }

    method ReserveSlot() returns (r: Result<nat>)
      requires Valid()
      modifies this, slot
      ensures Valid()
      ensures r.Ok? <==> old(index) < slot.Length
      ensures r.Ok? ==> r.value == address + slotSize * old(index) && index == old(index) + 1
      ensures r.Err? ==> index == old(index) && slot[..] == old(slot[..])
    {
      if Full() {
        return Err("Trying to get TLS slot from full page");
      }
      slot[index] := true;
      r := Get(index);
      index := index + 1;
    }
  }

  /** Distinct slots of a page have distinct addresses, in slot order. */
  lemma SlotAddressesIncrease(page: TlsPage, i: nat, j: nat)
    requires i < j < page.slot.Length && page.slotSize > 0
    ensures page.Get(i).value < page.Get(j).value
  {
    MulMonotone(i + 1, j, page.slotSize);
  }

  // ---------------------------------------------------------------------
  // Host address translation
  // ---------------------------------------------------------------------

  /** The part of a memory chunk GetHostAddress looks at. */
  datatype HostChunk = HostChunk(address: nat, host: nat)

  /** `chunk` is the memory manager's chunk covering `address`, if any. */
  function GetHostAddress(address: nat, chunk: Option<HostChunk>): (r: nat)
    requires chunk.Some? ==> chunk.value.address <= address
    ensures r == 0 <==> chunk.None? || chunk.value.host == 0
  {
    if chunk.Some? && chunk.value.host != 0 then chunk.value.host + (address - chunk.value.address) else 0
  }

  /** Translation is a shift: guest addresses in one host-backed chunk keep
      their distances on the host side. */
  lemma HostAddressKeepsOffsets(a: nat, b: nat, chunk: HostChunk)
    requires chunk.address <= a && chunk.address <= b && chunk.host != 0
    ensures GetHostAddress(b, Some(chunk)) - GetHostAddress(a, Some(chunk)) == b - a
    ensures GetHostAddress(a, Some(chunk)) - a == chunk.host - chunk.address
  {
  }

  // ---------------------------------------------------------------------
  // Waiter lists
  // ---------------------------------------------------------------------

  type Word = bv32

  /** A waiting thread: its priority (a larger value is a lower priority),
      its handle, the mutex it needs back (condition variables only), and the
      flag its waker sets. */
  datatype WaitStatus = WaitStatus(priority: u8, handle: Word, mutexAddress: u64, flag: bool)

  datatype ThreadRef = ThreadRef(handle: Word, priority: u8)

  /** Where a new waiter goes: before the first entry with a strictly
      smaller priority value, otherwise at the end. */
  function InsertIndex(waiters: seq<WaitStatus>, priority: u8): (r: nat)
    ensures r <= |waiters|
    ensures forall i :: 0 <= i < r ==> waiters[i].priority >= priority
    ensures r < |waiters| ==> waiters[r].priority < priority
  {
    if waiters == [] || waiters[0].priority < priority then 0
    else 1 + InsertIndex(waiters[1..], priority)
  }

  function PriorityInsert(waiters: seq<WaitStatus>, status: WaitStatus): seq<WaitStatus>
  {
    var i := InsertIndex(waiters, status.priority);
    waiters[..i] + [status] + waiters[i..]
  }

  predicate NonIncreasing(waiters: seq<WaitStatus>)
  {
    forall i, j :: 0 <= i < j < |waiters| ==> waiters[i].priority >= waiters[j].priority
  }

  /** Insertion keeps the list ordered by non-increasing priority value. */
  lemma PriorityInsertKeepsOrder(waiters: seq<WaitStatus>, status: WaitStatus)
    requires NonIncreasing(waiters)
    ensures NonIncreasing(PriorityInsert(waiters, status))
  {
    var k := InsertIndex(waiters, status.priority);
    var r := waiters[..k] + [status] + waiters[k..];
    assert r == PriorityInsert(waiters, status);
    assert r[k] == status;
    forall i | 0 <= i < k ensures r[i] == waiters[i] {
    }
    forall i | k < i < |r| ensures r[i] == waiters[i - 1] {
    }
    InsertedOrder(waiters, status, k, r);
  }

  /** Insertion adds exactly the new entry. */
  lemma PriorityInsertAddsEntry(waiters: seq<WaitStatus>, status: WaitStatus)
    ensures multiset(PriorityInsert(waiters, status)) == multiset(waiters) + multiset{status}
  {
    var k := InsertIndex(waiters, status.priority);
    var front, back := waiters[..k], waiters[k..];
    assert waiters == front + back;
    assert multiset(front + [status] + back) == multiset(front) + multiset{status} + multiset(back);
  }

  /** In an ordered list the new entry lands after every entry whose value is
      at least its own and before the rest, so equal values keep arrival
      order. */
  lemma PriorityInsertPosition(waiters: seq<WaitStatus>, status: WaitStatus)
    requires NonIncreasing(waiters)
    ensures var k := InsertIndex(waiters, status.priority);
            && PriorityInsert(waiters, status)[k] == status
            && forall i :: 0 <= i < |waiters| ==> (waiters[i].priority >= status.priority <==> i < k)
  {
    var k := InsertIndex(waiters, status.priority);
    assert (waiters[..k] + [status] + waiters[k..])[k] == status;
  }

  lemma InsertedOrder(waiters: seq<WaitStatus>, status: WaitStatus, k: nat, r: seq<WaitStatus>)
    requires NonIncreasing(waiters) && k <= |waiters| && |r| == |waiters| + 1
    requires forall i :: 0 <= i < k ==> waiters[i].priority >= status.priority
    requires k < |waiters| ==> waiters[k].priority < status.priority
    requires r[k] == status
    requires forall i :: 0 <= i < k ==> r[i] == waiters[i]
    requires forall i :: k < i < |r| ==> r[i] == waiters[i - 1]
    ensures NonIncreasing(r)
  {
    forall i, j | 0 <= i < j < |r| ensures r[i].priority >= r[j].priority {
      if j < k {
      } else if i > k {
        assert r[i] == waiters[i - 1] && r[j] == waiters[j - 1];
      } else if i == k {
        assert r[j] == waiters[j - 1];
      } else if j == k {
      } else {
        assert r[i] == waiters[i] && r[j] == waiters[j - 1];
        assert waiters[i].priority >= waiters[j - 1].priority;
      }
    }
  }

  /** The insertion loop of MutexLock and ConditionalVariableWait. */
  method InsertWaiter(waiters: seq<WaitStatus>, status: WaitStatus) returns (r: seq<WaitStatus>)
    ensures r == PriorityInsert(waiters, status)
  {
    var i := 0;
    while i < |waiters| && waiters[i].priority >= status.priority
      invariant 0 <= i <= |waiters|
      invariant forall k :: 0 <= k < i ==> waiters[k].priority >= status.priority
    {
      i := i + 1;
    }
    r := waiters[..i] + [status] + waiters[i..];
  }

  /** The position of the first entry with this handle, or |waiters|. */
  function FindHandle(waiters: seq<WaitStatus>, handle: Word): (r: nat)
    ensures r <= |waiters|
    ensures forall i :: 0 <= i < r ==> waiters[i].handle != handle
    ensures r < |waiters| ==> waiters[r].handle == handle
  {
    if waiters == [] || waiters[0].handle == handle then 0
    else 1 + FindHandle(waiters[1..], handle)
  }

  /** Removing the first entry with a handle, as the woken thread does. */
  function EraseFirst(waiters: seq<WaitStatus>, handle: Word): seq<WaitStatus>
  {
    var i := FindHandle(waiters, handle);
    if i < |waiters| then waiters[..i] + waiters[i + 1..] else waiters
  }

  /** Erasing removes one entry with the handle if there is one, nothing
      otherwise, and keeps the order of the rest. */
  lemma EraseFirstKeepsOrder(waiters: seq<WaitStatus>, handle: Word)
    requires NonIncreasing(waiters)
    ensures NonIncreasing(EraseFirst(waiters, handle))
    ensures (exists i :: 0 <= i < |waiters| && waiters[i].handle == handle) ==>
              |EraseFirst(waiters, handle)| == |waiters| - 1
              && multiset(EraseFirst(waiters, handle)) + multiset{waiters[FindHandle(waiters, handle)]} == multiset(waiters)
    ensures (forall i :: 0 <= i < |waiters| ==> waiters[i].handle != handle) ==> EraseFirst(waiters, handle) == waiters
  {
    var i := FindHandle(waiters, handle);
    if i < |waiters| {
      RemoveAtKeepsOrder(waiters, i);
    }
  }

  /** Removing the entry at i keeps the order and the other entries. */
  lemma RemoveAtKeepsOrder(waiters: seq<WaitStatus>, i: nat)
    requires NonIncreasing(waiters) && i < |waiters|
    ensures NonIncreasing(waiters[..i] + waiters[i + 1..])
    ensures multiset(waiters[..i] + waiters[i + 1..]) + multiset{waiters[i]} == multiset(waiters)
  {
    var r := waiters[..i] + waiters[i + 1..];
    assert waiters == waiters[..i] + [waiters[i]] + waiters[i + 1..];
    forall a, b | 0 <= a < b < |r| ensures r[a].priority >= r[b].priority {
      var a' := if a < i then a else a + 1;
      var b' := if b < i then b else b + 1;
      assert r[a] == waiters[a'] && r[b] == waiters[b'];
    }
  }

  /** The erase loop run by a woken waiter. */
  method EraseWaiter(waiters: seq<WaitStatus>, handle: Word) returns (r: seq<WaitStatus>)
    ensures r == EraseFirst(waiters, handle)
  {
    var i := 0;
    while i < |waiters|
      invariant 0 <= i <= |waiters|
      invariant forall k :: 0 <= k < i ==> waiters[k].handle != handle
    {
      if waiters[i].handle == handle {
        return waiters[..i] + waiters[i + 1..];
      }
      i := i + 1;
    }
    r := waiters;
  }

  function Waiters(lists: map<u64, seq<WaitStatus>>, address: u64): seq<WaitStatus>
  {
    if address in lists then lists[address] else []
  }

  function Load(words: map<u64, Word>, address: u64): Word
  {
    if address in words then words[address] else 0
  }

  // ---------------------------------------------------------------------
  // Mutex word rules
  // ---------------------------------------------------------------------

  datatype LockOutcome = Acquired | Refused | Enqueued

  /** MutexLock's decision: take a free mutex nobody waits on, refuse unless
      the word names `owner` with the waiter bit set, otherwise queue up. */
  function LockDecision(word: Word, noWaiters: bool, owner: Word, mask: Word): (r: LockOutcome)
    ensures r.Acquired? <==> noWaiters && word == 0
    ensures r.Refused? <==> !(noWaiters && word == 0) && word != owner | !mask
  {
    if noWaiters && word == 0 then Acquired
    else if word != owner | !mask then Refused
    else Enqueued
  }

  /** The word MutexUnlock hands over: 0 with no waiters, otherwise the head
      waiter's handle plus the waiter bit when others remain. */
  function UnlockDesired(waiters: seq<WaitStatus>, mask: Word): Word
  {
    if waiters == [] then 0 else waiters[0].handle | (if |waiters| > 1 then !mask else 0)
  }

  /** Unlocking hands ownership to the head waiter, and the waiter bit stays
      set exactly when more waiters remain. */
  lemma UnlockHandsOffToHead(waiters: seq<WaitStatus>, mask: Word)
    requires waiters != [] && waiters[0].handle & !mask == 0
    ensures UnlockDesired(waiters, mask) & mask == waiters[0].handle
    ensures UnlockDesired(waiters, mask) & !mask == if |waiters| > 1 then !mask else 0
  {
  }

  /** Whether MutexUnlock's pair of compare-and-swaps replaces the word, as
      written: after the first one fails, `mtxExpected` holds the current
      word, so the second one succeeds for any word without waiter bits. */
  function UnlockAsWritten(word: Word, self: Word, mask: Word): bool
  {
    var expected := (mask & self) | !mask;
    word == expected || word == word & mask
  }

  /** The intended rule: the second compare-and-swap expects the caller's
      handle without the waiter bit. */
  function UnlockReleases(word: Word, self: Word, mask: Word): (r: bool)
    ensures r ==> word & mask == self & mask
  {
    word == (mask & self) | !mask || word == mask & self
  }

  /** A word the caller may release carries either no waiter bits or all of them. */
  lemma ReleasedWordShape(word: Word, self: Word, mask: Word)
    requires UnlockReleases(word, self, mask)
    ensures word & !mask == 0 || word & !mask == !mask
  {
    if word == mask & self {
      assert word & !mask == 0;
    }
  }

  /** The owner can always release, with or without the waiter bit. */
  lemma OwnerCanUnlock(word: Word, self: Word, mask: Word)
    requires word & mask == self & mask
    requires word & !mask == 0 || word & !mask == !mask
    ensures UnlockReleases(word, self, mask)
  {
    if word & !mask == 0 {
      assert word == mask & self;
    } else {
      assert word == (mask & self) | !mask;
    }
  }

  /** As written, any thread releases a mutex held without waiters: here
      thread 0x5678 unlocks the mutex owned by 0x1234. */
  lemma UnlockAsWrittenReleasesForeignMutex()
    ensures var mask: Word := 0xBFFF_FFFF;
            UnlockAsWritten(0x1234, 0x5678, mask) && !UnlockReleases(0x1234, 0x5678, mask)
  {
  }

  /** As written the second compare-and-swap ignores the caller entirely. */
  lemma UnlockAsWrittenIgnoresCaller(word: Word, self: Word, mask: Word)
    requires word & !mask == 0
    ensures UnlockAsWritten(word, self, mask)
  {
  }

  /** A thread that took a free mutex on the fast path releases it back to 0. */
  lemma LockUnlockRoundTrip(self: Word, mask: Word)
    ensures LockDecision(0, true, 0, mask).Acquired?
    ensures UnlockReleases(mask & self, self, mask) && UnlockDesired([], mask) == 0
  {
  }

  // ---------------------------------------------------------------------
  // Condition-variable signal
  // ---------------------------------------------------------------------

  /** The word ConditionalVariableSignal's compare-and-swap loop stores for a
      waiter, or None when it leaves the word alone. */
  function SignalWord(value: Word, waiter: Word, self: Word, mask: Word): (r: Option<Word>)
    ensures r.None? <==> value != 0 && value & mask != self && value & !mask == 0
  {
    if value == 0 then Some(mask & waiter)
    else if value & mask == self then Some(value | (mask & waiter))
    else if value & !mask != 0 then Some(value | !mask)
    else None
  }

  /** The word update never clears a bit, and a free mutex goes to the waiter. */
  lemma SignalWordOnlySetsBits(value: Word, waiter: Word, self: Word, mask: Word)
    ensures SignalWord(value, waiter, self, mask).Some? ==> SignalWord(value, waiter, self, mask).value & value == value
    ensures value == 0 ==> SignalWord(value, waiter, self, mask).value & mask == waiter & mask
    ensures value & !mask != 0 && value & mask != self ==> SignalWord(value, waiter, self, mask) == Some(value | !mask)
  {
  }

  /** The waiter must first get the mutex back through the mutex queue when
      the word (as loaded) is held by someone other than the signaller. */
  predicate NeedsMutexHandoff(value: Word, self: Word, mask: Word)
  {
    value != 0 && value & mask != self
  }

  /** The words after visiting `visited` in order, and the handles that went
      through the mutex queue. */
  function SignalFold(words: map<u64, Word>, visited: seq<WaitStatus>, self: Word, mask: Word): (map<u64, Word>, seq<Word>)
  {
    if visited == [] then (words, [])
    else
      var (w, queued) := SignalFold(words, visited[..|visited| - 1], self, mask);
      var t := visited[|visited| - 1];
      var value := Load(w, t.mutexAddress);
      var desired := SignalWord(value, t.handle, self, mask);
      (if desired.Some? then w[t.mutexAddress := desired.value] else w,
       if NeedsMutexHandoff(value, self, mask) then queued + [t.handle] else queued)
  }

  /** Signalling touches only the mutex words of the waiters it visits, and
      routes at most one hand-off per visited waiter. */
  lemma {:induction false} SignalFoldFrame(words: map<u64, Word>, visited: seq<WaitStatus>, self: Word, mask: Word, address: u64)
    requires forall i :: 0 <= i < |visited| ==> visited[i].mutexAddress != address
    ensures Load(SignalFold(words, visited, self, mask).0, address) == Load(words, address)
    ensures |SignalFold(words, visited, self, mask).1| <= |visited|
  {
    if visited != [] {
      SignalFoldFrame(words, visited[..|visited| - 1], self, mask, address);
    }
  }

  function Min(a: nat, b: nat): nat { if a < b then a else b }

  /** A waiter list with the first `count` entries flagged as woken: every
      entry keeps its place, thread, priority and mutex address. */
  function FlagFirst(waiters: seq<WaitStatus>, count: nat): (r: seq<WaitStatus>)
    requires count <= |waiters|
    ensures |r| == |waiters|
    ensures forall i :: 0 <= i < |r| ==> SameThread(r[i], waiters[i])
    ensures forall i :: 0 <= i < |r| ==> (r[i].flag <==> i < count || waiters[i].flag)
  {
    seq(|waiters|, i requires 0 <= i < |waiters| => if i < count then waiters[i].(flag := true) else waiters[i])
  }

  /** Two entries for the same waiting thread, whatever their flags. */
  predicate SameThread(a: WaitStatus, b: WaitStatus)
  {
    a.priority == b.priority && a.handle == b.handle && a.mutexAddress == b.mutexAddress
  }

  /** Lists that agree on every entry's thread give the same position to a handle. */
  lemma {:induction false} FindHandleSameThreads(a: seq<WaitStatus>, b: seq<WaitStatus>, handle: Word)
    requires |a| == |b| && forall i :: 0 <= i < |a| ==> SameThread(a[i], b[i])
    ensures FindHandle(a, handle) == FindHandle(b, handle)
  {
    if a != [] && a[0].handle != handle {
      assert SameThread(a[0], b[0]);
      forall i | 0 <= i < |a| - 1 ensures SameThread(a[1..][i], b[1..][i]) {
        assert SameThread(a[i + 1], b[i + 1]);
      }
      FindHandleSameThreads(a[1..], b[1..], handle);
    } else if a != [] {
      assert SameThread(a[0], b[0]);
    }
  }

  /** After a signal of `count` waiters, each of them is found by its handle
      with the woken flag set, which is what the woken thread checks before
      leaving the list; the list keeps its priority order. */
  lemma SignalledWaitersCanWake(waiters: seq<WaitStatus>, count: nat, i: nat)
    requires count <= |waiters| && i < count
    ensures var r, h := FlagFirst(waiters, count), waiters[i].handle;
            FindHandle(r, h) <= i && r[FindHandle(r, h)].flag
    ensures NonIncreasing(waiters) ==> NonIncreasing(FlagFirst(waiters, count))
  {
    var r := FlagFirst(waiters, count);
    FindHandleSameThreads(r, waiters, waiters[i].handle);
    if NonIncreasing(waiters) {
      forall j, k | 0 <= j < k < |r| ensures r[j].priority >= r[k].priority {
        assert SameThread(r[j], waiters[j]) && SameThread(r[k], waiters[k]);
      }
    }
  }

  // ---------------------------------------------------------------------
  // The process
  // ---------------------------------------------------------------------

  /** Pages and their slot arrays are all different objects. */
  ghost predicate Distinct(pages: seq<TlsPage>)
  {
    forall i, j :: 0 <= i < j < |pages| ==> pages[i] != pages[j] && pages[i].slot != pages[j].slot
  }

  /** Each page starts one page after the previous one. */
  ghost predicate Consecutive(pages: seq<TlsPage>, pageSize: nat)
  {
    forall i :: 0 < i < |pages| ==> pages[i].address == pages[i - 1].address + pageSize
  }

  lemma AppendPage(pages: seq<TlsPage>, page: TlsPage, pageSize: nat)
    requires Distinct(pages) && Consecutive(pages, pageSize)
    requires forall i :: 0 <= i < |pages| ==> pages[i] != page && pages[i].slot != page.slot
    requires |pages| > 0 ==> page.address == pages[|pages| - 1].address + pageSize
    ensures Distinct(pages + [page]) && Consecutive(pages + [page], pageSize)
  {
  }

  class KProcess {
    const memory: PrivateMemory.MemoryManager
    /** The TLS-IO region of the address space (`memory.tlsIo`). */
    const tlsIoAddress: nat
    const tlsIoSize: nat
    const slotSize: nat
    const slotCount: nat
    const ownerMask: Word
    var tlsPages: seq<TlsPage>
    /** Every TLS slot address handed out so far. */
    ghost var issued: set<nat>
    /** The TLS pages and their slot arrays. */
    ghost var Repr: set<object>

    var words: map<u64, Word>
    var mutexes: map<u64, seq<WaitStatus>>
    var conditionals: map<u64, seq<WaitStatus>>

    constructor (memory: PrivateMemory.MemoryManager, tlsIoAddress: nat, tlsIoSize: nat, slotSize: nat, slotCount: nat,
                 ownerMask: Word, words: map<u64, Word>)
      requires 0 < slotSize && 0 < slotCount && slotCount * slotSize <= memory.pageSize
      ensures TlsValid() && tlsPages == [] && issued == {}
      ensures this.memory == memory && this.tlsIoAddress == tlsIoAddress && this.tlsIoSize == tlsIoSize
      ensures this.slotSize == slotSize && this.slotCount == slotCount && this.ownerMask == ownerMask
      ensures this.words == words && mutexes == map[] && conditionals == map[]
    {
      this.memory := memory;
      this.tlsIoAddress := tlsIoAddress;
      this.tlsIoSize := tlsIoSize;
      this.slotSize := slotSize;
      this.slotCount := slotCount;
      this.ownerMask := ownerMask;
      tlsPages := [];
      issued := {};
      Repr := {};
      this.words := words;
      mutexes := map[];
      conditionals := map[];
    }

    /** The next address the TLS allocator would hand out from the last page. */
    ghost function Frontier(): nat
      requires |tlsPages| > 0
      reads this, tlsPages
    {
      tlsPages[|tlsPages| - 1].address + slotSize * tlsPages[|tlsPages| - 1].index
    }

    /** Pages are consecutive, all but the last are full, and every address
        handed out lies below the allocation frontier. */
    ghost predicate TlsValid()
      reads this, Repr
    {
      memory !in Repr
      && (forall i :: 0 <= i < |tlsPages| ==> tlsPages[i] in Repr && tlsPages[i].slot in Repr)
      && 0 < slotSize && 0 < slotCount && slotCount * slotSize <= memory.pageSize && 0 < memory.pageSize
      && (forall i :: 0 <= i < |tlsPages| ==>
            tlsPages[i].Valid() && tlsPages[i].slot.Length == slotCount && tlsPages[i].slotSize == slotSize)
      && Distinct(tlsPages) && Consecutive(tlsPages, memory.pageSize)
      && (forall i :: 0 <= i < |tlsPages| - 1 ==> tlsPages[i].index == slotCount)
      && (|tlsPages| == 0 ==> issued == {})
      && (|tlsPages| > 0 ==> forall a :: a in issued ==> a < Frontier())
    }

    /** A slot from the first page with room, or else from a new page mapped
        after the last one (the first at the TLS-IO base, or 0 without one).
        Every slot is above every slot handed out before it. */
    method GetTlsSlot() returns (r: Result<nat>)
      requires TlsValid()
      modifies this, memory, Repr
      ensures TlsValid() && fresh(Repr - old(Repr))
      ensures r.Ok? ==> (forall a :: a in old(issued) ==> a < r.value) && issued == old(issued) + {r.value}
      ensures r.Ok? && old(|tlsPages|) == 0 ==> r.value == if tlsIoSize != 0 then tlsIoAddress else 0
      ensures r.Err? ==> issued == old(issued) && tlsPages == old(tlsPages) && memory.chunks == old(memory.chunks)
      ensures tlsPages == old(tlsPages) || (|tlsPages| == old(|tlsPages|) + 1 && tlsPages[..|tlsPages| - 1] == old(tlsPages))
      ensures memory.chunks == old(memory.chunks) || (|tlsPages| == old(|tlsPages|) + 1
                && memory.chunks == old(memory.chunks) + [PrivateMemory.ChunkDescriptor(tlsPages[|tlsPages| - 1].address,
                     memory.pageSize, PrivateMemory.Permission(true, true, false), PrivateMemory.ThreadLocal)])
      ensures words == old(words) && mutexes == old(mutexes) && conditionals == old(conditionals)
    {
      var i := 0;
      while i < |tlsPages|
        invariant 0 <= i <= |tlsPages|
        invariant forall k :: 0 <= k < i ==> tlsPages[k].index == slotCount
      {
        if !tlsPages[i].Full() {
          r := ReserveFromLastPage();
          return;
        }
        i := i + 1;
      }
      var address: nat;
      if |tlsPages| == 0 {
        address := if tlsIoSize != 0 then tlsIoAddress else 0;
      } else {
        address := tlsPages[|tlsPages| - 1].address + memory.pageSize;
        assert Frontier() <= address;
      }
      r := MapTlsPage(address);
    }

    /** Every page is full: map a thread-local page at `address`, track it,
        and reserve its first slot. */
    method MapTlsPage(address: nat) returns (r: Result<nat>)
      requires TlsValid() && forall k :: 0 <= k < |tlsPages| ==> tlsPages[k].index == slotCount
      requires |tlsPages| > 0 ==> address == tlsPages[|tlsPages| - 1].address + memory.pageSize
      requires forall a :: a in issued ==> a < address
      modifies this, memory
      ensures TlsValid() && fresh(Repr - old(Repr))
      ensures r.Ok? ==> r.value == address && issued == old(issued) + {r.value}
      ensures r.Ok? ==> |tlsPages| == old(|tlsPages|) + 1 && tlsPages[..|tlsPages| - 1] == old(tlsPages)
      ensures r.Ok? ==> tlsPages[|tlsPages| - 1].address == address
      ensures r.Ok? ==> memory.chunks == old(memory.chunks) + [PrivateMemory.ChunkDescriptor(address,
                          memory.pageSize, PrivateMemory.Permission(true, true, false), PrivateMemory.ThreadLocal)]
      ensures r.Err? ==> issued == old(issued) && tlsPages == old(tlsPages) && memory.chunks == old(memory.chunks)
      ensures words == old(words) && mutexes == old(mutexes) && conditionals == old(conditionals)
    {
      ghost var sync := (words, mutexes, conditionals);
      var tlsMem := PrivateMemory.KPrivateMemory.Create(memory, address, memory.pageSize,
                                                         PrivateMemory.Permission(true, true, false), PrivateMemory.ThreadLocal);
      assert (words, mutexes, conditionals) == sync && TlsValid() && issued == old(issued) && tlsPages == old(tlsPages);
      if tlsMem.Err? {
        return Err(tlsMem.message);
      }
      ghost var chunks := memory.chunks;
      AppendTlsPage(tlsMem.value.ptr);
      assert memory.chunks == chunks && (words, mutexes, conditionals) == sync && fresh(Repr - old(Repr));
      // The source's extra reservation for an empty list cannot run here.
      r := ReserveFromLastPage();
      assert memory.chunks == chunks && (words, mutexes, conditionals) == sync;
    }

    /** The first page with room is the last one; take its next slot. */
    method ReserveFromLastPage() returns (r: Result<nat>)
      requires TlsValid() && |tlsPages| > 0 && tlsPages[|tlsPages| - 1].index < slotCount
      modifies this, tlsPages[|tlsPages| - 1], tlsPages[|tlsPages| - 1].slot
      ensures TlsValid() && r.Ok? && tlsPages == old(tlsPages) && Repr == old(Repr) && r.value == old(Frontier())
      ensures (forall a :: a in old(issued) ==> a < r.value) && issued == old(issued) + {r.value}
      ensures words == old(words) && mutexes == old(mutexes) && conditionals == old(conditionals)
    {
      var page := tlsPages[|tlsPages| - 1];
      ghost var oldFrontier := Frontier();
      r := page.ReserveSlot();
      assert r.value == oldFrontier;
      forall k | 0 <= k < |tlsPages| - 1
        ensures tlsPages[k].Valid() && tlsPages[k].index == slotCount
      {
        assert tlsPages[k] != page && tlsPages[k].slot != page.slot;
      }
      issued := issued + {r.value};
      assert Frontier() == r.value + slotSize;
    }

    /** Every page is full: append an empty page at `address`. */
    method AppendTlsPage(address: nat)
      requires TlsValid() && forall k :: 0 <= k < |tlsPages| ==> tlsPages[k].index == slotCount
      requires |tlsPages| > 0 ==> address == tlsPages[|tlsPages| - 1].address + memory.pageSize
      requires forall a :: a in issued ==> a < address
      modifies this
      ensures TlsValid() && issued == old(issued)
      ensures |tlsPages| == old(|tlsPages|) + 1 && tlsPages[..|tlsPages| - 1] == old(tlsPages)
      ensures tlsPages[|tlsPages| - 1].address == address && tlsPages[|tlsPages| - 1].index == 0
      ensures fresh(tlsPages[|tlsPages| - 1]) && fresh(tlsPages[|tlsPages| - 1].slot)
      ensures Repr == old(Repr) + {tlsPages[|tlsPages| - 1], tlsPages[|tlsPages| - 1].slot}
      ensures words == old(words) && mutexes == old(mutexes) && conditionals == old(conditionals)
    {
      var page := new TlsPage(address, slotSize, slotCount);
      AppendPage(tlsPages, page, memory.pageSize);
      tlsPages := tlsPages + [page];
      Repr := Repr + {page, page.slot};
    }

    /** The fast path takes a free, uncontended mutex; a word other than
        `owner` with the waiter bit is refused; otherwise the caller queues. */
    method MutexLock(address: u64, owner: Word, self: ThreadRef) returns (r: LockOutcome)
      modifies this
      ensures r == LockDecision(old(Load(words, address)), old(Waiters(mutexes, address)) == [], owner, ownerMask)
      ensures r.Acquired? ==> words == old(words)[address := ownerMask & self.handle] && mutexes == old(mutexes)
      ensures r.Refused? ==> words == old(words) && mutexes == old(mutexes)
      ensures r.Enqueued? ==> words == old(words)
      ensures r.Enqueued? ==>
                mutexes == old(mutexes)[address := PriorityInsert(old(Waiters(mutexes, address)), WaitStatus(self.priority, self.handle, 0, false))]
      ensures conditionals == old(conditionals) && tlsPages == old(tlsPages) && issued == old(issued)
    {
      var waiters := Waiters(mutexes, address);
      if waiters == [] && Load(words, address) == 0 {
        words := words[address := ownerMask & self.handle];
        return Acquired;
      }
      if Load(words, address) != owner | !ownerMask {
        return Refused;
      }
      var inserted := InsertWaiter(waiters, WaitStatus(self.priority, self.handle, 0, false));
      mutexes := mutexes[address := inserted];
      r := Enqueued;
    }

    /** A queued locker whose flag was set: it leaves the queue and owns the mutex. */
    method MutexLockWoken(address: u64, handle: Word) returns (r: bool)
      requires var ws := Waiters(mutexes, address); FindHandle(ws, handle) < |ws| && ws[FindHandle(ws, handle)].flag
      modifies this
      ensures r
      ensures mutexes == old(mutexes)[address := EraseFirst(old(Waiters(mutexes, address)), handle)]
      ensures words == old(words) && conditionals == old(conditionals) && tlsPages == old(tlsPages) && issued == old(issued)
    {
      var erased := EraseWaiter(Waiters(mutexes, address), handle);
      mutexes := mutexes[address := erased];
      r := true;
    }

    /** The owner releases the mutex to the head waiter (flagging it) or to
        nobody; anyone else is refused and nothing changes. */
    method MutexUnlock(address: u64, self: Word) returns (r: bool)
      modifies this
      ensures var ws := old(Waiters(mutexes, address));
              var desired := UnlockDesired(ws, ownerMask);
              && r == UnlockReleases(old(Load(words, address)), self, ownerMask)
              && words == (if r then old(words)[address := desired] else old(words))
              && mutexes == (if r && desired != 0 then old(mutexes)[address := ws[0 := ws[0].(flag := true)]] else old(mutexes))
      ensures conditionals == old(conditionals) && tlsPages == old(tlsPages) && issued == old(issued)
    {
      var waiters := Waiters(mutexes, address);
      var desired := UnlockDesired(waiters, ownerMask);
      if !UnlockReleases(Load(words, address), self, ownerMask) {
        return false;
      }
      words := words[address := desired];
      if desired != 0 {
        mutexes := mutexes[address := waiters[0 := waiters[0].(flag := true)]];
      }
      r := true;
    }

    /** The waiting thread queues on the condition variable, remembering its mutex. */
    method ConditionalVariableWait(conditionalAddress: u64, mutexAddress: u64, self: ThreadRef)
      modifies this
      ensures conditionals == old(conditionals)[conditionalAddress :=
                PriorityInsert(old(Waiters(conditionals, conditionalAddress)), WaitStatus(self.priority, self.handle, mutexAddress, false))]
      ensures words == old(words) && mutexes == old(mutexes) && tlsPages == old(tlsPages) && issued == old(issued)
    {
      var inserted := InsertWaiter(Waiters(conditionals, conditionalAddress), WaitStatus(self.priority, self.handle, mutexAddress, false));
      conditionals := conditionals[conditionalAddress := inserted];
    }

    /** The signalled waiter leaves the queue; it reports a timeout when the
        timeout elapsed while it spun, even though it was signalled. */
    method ConditionalVariableWaitWoken(conditionalAddress: u64, handle: Word, timedOut: bool) returns (r: bool)
      requires var ws := Waiters(conditionals, conditionalAddress); FindHandle(ws, handle) < |ws| && ws[FindHandle(ws, handle)].flag
      modifies this
      ensures r == !timedOut
      ensures conditionals == old(conditionals)[conditionalAddress := EraseFirst(old(Waiters(conditionals, conditionalAddress)), handle)]
      ensures words == old(words) && mutexes == old(mutexes) && tlsPages == old(tlsPages) && issued == old(issued)
    {
      var erased := EraseWaiter(Waiters(conditionals, conditionalAddress), handle);
      conditionals := conditionals[conditionalAddress := erased];
      r := !timedOut;
    }

    /** Wakes the first `amount` waiters in list order: for each, updates its
        mutex word and decides whether it must get the mutex back through the
        mutex queue, then flags it. */
    method ConditionalVariableSignal(address: u64, amount: nat, self: Word) returns (count: nat, queued: seq<Word>)
      modifies this
      ensures var ws := old(Waiters(conditionals, address));
              && count == Min(amount, |ws|)
              && (words, queued) == SignalFold(old(words), ws[..count], self, ownerMask)
              && conditionals == old(conditionals)[address := FlagFirst(ws, count)]
      ensures mutexes == old(mutexes) && tlsPages == old(tlsPages) && issued == old(issued)
    {
      var waiters := Waiters(conditionals, address);
      ghost var words0 := words;
      count := 0;
      queued := [];
      while count < |waiters| && count < amount
        invariant count <= |waiters| && count <= amount
        invariant (words, queued) == SignalFold(words0, waiters[..count], self, ownerMask)
        invariant mutexes == old(mutexes) && conditionals == old(conditionals)
        invariant tlsPages == old(tlsPages) && issued == old(issued)
      {
        var thread := waiters[count];
        var value := Load(words, thread.mutexAddress);
        var desired := SignalWord(value, thread.handle, self, ownerMask);
        if desired.Some? {
          words := words[thread.mutexAddress := desired.value];
        }
        if NeedsMutexHandoff(value, self, ownerMask) {
          queued := queued + [thread.handle];
        }
        assert waiters[..count + 1][..count] == waiters[..count];
        count := count + 1;
      }
      conditionals := conditionals[address := FlagFirst(waiters, count)];
    }
  }
}
