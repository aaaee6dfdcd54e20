// Executable loading and symbol lookup (app/src/main/cpp/skyline/loader/loader.cpp).
//
// The code patch the NCE generates (`GetPatchData`, `PatchCode`) is not part
// of this model: its size is a parameter. Copying the section contents into
// guest memory is not modelled; the symbol and string tables read back from
// the loaded read-only section are parameters.

module Loader {
  import opened Wrappers
  import opened Common
  import PrivateMemory
  import Handles

  /** A section of an executable: its offset in the image and the byte size of its contents. */
  datatype Section = Section(offset: u64, size: u64)

  datatype Executable = Executable(text: Section, ro: Section, data: Section, bssSize: u64,
                                   dynsym: Section, dynstr: Section)

  /** An `Elf64_Sym` as far as the lookup reads it. */
  datatype Symbol = Symbol(stName: nat, stValue: nat, stSize: nat)

  /** What the loader keeps per executable for symbol lookup. */
  datatype SymbolicInfo = SymbolicInfo(patchStart: nat, programStart: nat, programEnd: nat,
                                       name: string, patchName: string,
                                       symbols: seq<Symbol>, symbolStrings: seq<u8>)

  /** The load address, the total size, and where the program proper starts. */
  datatype LoadInfo = LoadInfo(base: nat, size: nat, entry: nat)

  /** A lookup result: the symbol's name when one is found, and the name of
      the executable ("" when the pointer is in none). */
  datatype SymbolInfo = SymbolInfo(name: Option<seq<u8>>, executableName: string)

  /** `.data` and `.bss` together, in 64-bit arithmetic. */
  function DataSize(e: Executable): u64 {
    Wrap64(e.data.size + e.bssSize)
  }

  /** The two checks before mapping: every section size, then every section
      offset, page-aligned. */
  function LayoutCheck(e: Executable, pageSize: u64): (r: Result<()>)
    ensures r.Ok? <==>
              && PageAligned(e.text.size, pageSize) && PageAligned(e.ro.size, pageSize) && PageAligned(DataSize(e), pageSize)
              && PageAligned(e.text.offset, pageSize) && PageAligned(e.ro.offset, pageSize) && PageAligned(e.data.offset, pageSize)
  {
    if !PageAligned(e.text.size, pageSize) || !PageAligned(e.ro.size, pageSize) || !PageAligned(DataSize(e), pageSize) then
      Err("LoadProcessData: Sections are not aligned with page size")
    else if !PageAligned(e.text.offset, pageSize) || !PageAligned(e.ro.offset, pageSize) || !PageAligned(e.data.offset, pageSize) then
      Err("LoadProcessData: Section offsets are not aligned with page size")
    else Ok(())
  }

  const ReadExecute := PrivateMemory.Permission(true, false, true)
  const ReadOnly := PrivateMemory.Permission(true, false, false)
  const ReadWrite := PrivateMemory.Permission(true, true, false)

  /** The four regions an executable loaded at `base` occupies, in mapping
      order: the patch, then text, read-only data and data+bss after it at
      their own offsets. */
  function Regions(base: nat, patchSize: nat, e: Executable): (r: seq<PrivateMemory.ChunkDescriptor>)
    ensures |r| == 4
    ensures r[0] == PrivateMemory.ChunkDescriptor(base, patchSize, PrivateMemory.NoPermission, PrivateMemory.Reserved)
    ensures r[1].ptr == base + patchSize + e.text.offset && r[1].size == e.text.size
    ensures r[2].ptr == base + patchSize + e.ro.offset && r[2].size == e.ro.size
    ensures r[3].ptr == base + patchSize + e.data.offset && r[3].size == DataSize(e)
    ensures r[1].permission == ReadExecute && r[1].state == PrivateMemory.CodeStatic
    ensures r[2].permission == ReadOnly && r[2].state == PrivateMemory.CodeStatic
    ensures r[3].permission == ReadWrite && r[3].state == PrivateMemory.CodeMutable
  {
    var program := base + patchSize;
    [ PrivateMemory.ChunkDescriptor(base, patchSize, PrivateMemory.NoPermission, PrivateMemory.Reserved),
      PrivateMemory.ChunkDescriptor(program + e.text.offset, e.text.size, ReadExecute, PrivateMemory.CodeStatic),
      PrivateMemory.ChunkDescriptor(program + e.ro.offset, e.ro.size, ReadOnly, PrivateMemory.CodeStatic),
      PrivateMemory.ChunkDescriptor(program + e.data.offset, DataSize(e), ReadWrite, PrivateMemory.CodeMutable) ]
  }

  ghost predicate SortedByPatchStart(s: seq<SymbolicInfo>) {
    forall i, j :: 0 <= i < j < |s| ==> s[i].patchStart <= s[j].patchStart
  }

  /** Inserting at a position with no greater key before it and only greater
      keys after it keeps the list sorted. */
  lemma InsertKeepsSorted(s: seq<SymbolicInfo>, i: nat, x: SymbolicInfo)
    requires SortedByPatchStart(s) && i <= |s|
    requires forall j :: 0 <= j < i ==> s[j].patchStart <= x.patchStart
    requires forall j :: i <= j < |s| ==> x.patchStart < s[j].patchStart
    ensures SortedByPatchStart(s[..i] + [x] + s[i..])
  {
    var t := s[..i] + [x] + s[i..];
    forall a, b | 0 <= a < b < |t| ensures t[a].patchStart <= t[b].patchStart {
      if a < i && b > i { assert t[a] == s[a] && t[b] == s[b - 1]; }
    }
  }

  /** The first index at which `base` sorts strictly before the entry, as
      `std::upper_bound` finds it by bisection: every entry before it has a
      key at most `base`, every entry from it on a greater key. */
  method UpperBound(s: seq<SymbolicInfo>, base: nat) returns (i: nat)
    requires SortedByPatchStart(s)
    ensures i <= |s|
    ensures forall j :: 0 <= j < i ==> s[j].patchStart <= base
    ensures forall j :: i <= j < |s| ==> base < s[j].patchStart
  {
    var lo, hi := 0, |s|;
    while lo < hi
      invariant 0 <= lo <= hi <= |s|
      invariant forall j :: 0 <= j < lo ==> s[j].patchStart <= base
      invariant forall j :: hi <= j < |s| ==> base < s[j].patchStart
      decreases hi - lo
    {
      var mid := lo + (hi - lo) / 2;
      if base < s[mid].patchStart {
        hi := mid;
      } else {
        lo := mid + 1;
      }
    }
    i := lo;
  }

  /** The index of the first executable ending at or after `ptr`, which is
      what `std::lower_bound` finds when the list is ordered by end address. */
  function FirstEndingAtOrAfter(s: seq<SymbolicInfo>, ptr: nat): (r: nat)
    ensures r <= |s|
    ensures forall j :: 0 <= j < r ==> s[j].programEnd < ptr
    ensures r < |s| ==> ptr <= s[r].programEnd
  {
    if s == [] then 0
    else if ptr <= s[0].programEnd then 0
    else
      var k := FirstEndingAtOrAfter(s[1..], ptr);
      assert forall j :: 1 <= j < 1 + k ==> s[j] == s[1..][j - 1];
      1 + k
  }

  predicate Contains(sym: Symbol, offset: nat) {
    sym.stValue <= offset < sym.stValue + sym.stSize
  }

  /** The index of the first symbol whose extent contains `offset`. */
  function FirstContaining(symbols: seq<Symbol>, offset: nat): (r: nat)
    ensures r <= |symbols|
    ensures forall j :: 0 <= j < r ==> !Contains(symbols[j], offset)
    ensures r < |symbols| ==> Contains(symbols[r], offset)
  {
    if symbols == [] then 0
    else if Contains(symbols[0], offset) then 0
    else
      var k := FirstContaining(symbols[1..], offset);
      assert forall j :: 1 <= j < 1 + k ==> symbols[j] == symbols[1..][j - 1];
      1 + k
  }

  /** The name of a symbol in the lookup of an executable: the first symbol
      containing the offset, when its name index is non-zero and inside the
      string table; the name is the NUL-terminated string there. */
  function SymbolName(e: SymbolicInfo, offset: nat): (r: Option<seq<u8>>)
    ensures r.Some? <==> FirstContaining(e.symbols, offset) < |e.symbols|
                         && 0 < e.symbols[FirstContaining(e.symbols, offset)].stName < |e.symbolStrings|
    ensures r.Some? ==> r.value == UntilNul(e.symbolStrings[e.symbols[FirstContaining(e.symbols, offset)].stName..])
  {
    var k := FirstContaining(e.symbols, offset);
    if k < |e.symbols| && 0 < e.symbols[k].stName < |e.symbolStrings| then
      Some(UntilNul(e.symbolStrings[e.symbols[k].stName..]))
    else None
  }

  /** Lookup of a host pointer among the loaded executables. */
  function ResolveSymbol(executables: seq<SymbolicInfo>, ptr: nat): (r: SymbolInfo)
    ensures var k := FirstEndingAtOrAfter(executables, ptr);
            if k < |executables| && executables[k].patchStart <= ptr <= executables[k].programEnd then
              if ptr < executables[k].programStart then
                r == SymbolInfo(None, executables[k].patchName)
              else
                r == SymbolInfo(SymbolName(executables[k], ptr - executables[k].programStart), executables[k].name)
            else
              r == SymbolInfo(None, "")
  {
    var k := FirstEndingAtOrAfter(executables, ptr);
    if k < |executables| && executables[k].patchStart <= ptr <= executables[k].programEnd then
      var e := executables[k];
      if ptr < e.programStart then SymbolInfo(None, e.patchName)
      else SymbolInfo(SymbolName(e, ptr - e.programStart), e.name)
    else SymbolInfo(None, "")
  }

  /** A pointer inside an executable that every earlier executable ends
      before resolves to that executable: to its patch name in the patch
      region, to its own name in the program. */
  lemma ResolvesToContainingExecutable(executables: seq<SymbolicInfo>, k: nat, ptr: nat)
    requires k < |executables|
    requires forall j :: 0 <= j < k ==> executables[j].programEnd < ptr
    requires executables[k].patchStart <= ptr <= executables[k].programEnd
    ensures ptr < executables[k].programStart ==> ResolveSymbol(executables, ptr).executableName == executables[k].patchName
    ensures executables[k].programStart <= ptr ==> ResolveSymbol(executables, ptr).executableName == executables[k].name
  {
  }

  /** A handle names a private-memory object over exactly the region `c`. */
  ghost predicate HoldsRegion(o: Handles.KObject, c: PrivateMemory.ChunkDescriptor)
    reads if o.MemoryObject? then {o.memory} else {}
  {
    && o.MemoryObject?
    && o.memory.ptr == c.ptr && o.memory.size == c.size
    && o.memory.permission == c.permission && o.memory.memState == c.state
  }

  /** The handle table `after` is `before` plus the new, distinct handles
      `hs`; every old handle names what it named before. */
  ghost predicate AddsHandles(before: map<Handles.Handle, Handles.KObject>, after: map<Handles.Handle, Handles.KObject>,
                              hs: seq<Handles.Handle>)
  {
    && (forall h :: h in before ==> h in after && after[h] == before[h])
    && (forall h :: h in after ==> h in before || h in hs)
    && (forall k :: 0 <= k < |hs| ==> hs[k] !in before && hs[k] in after)
    && (forall j, k :: 0 <= j < k < |hs| ==> hs[j] != hs[k])
  }

  /** One more new handle extends the handles added, and leaves the objects
      of those added before as they were. */
  lemma AddsHandlesStep(before: map<Handles.Handle, Handles.KObject>, mid: map<Handles.Handle, Handles.KObject>,
                        hs: seq<Handles.Handle>, h: Handles.Handle, o: Handles.KObject)
    requires AddsHandles(before, mid, hs) && h !in mid
    ensures AddsHandles(before, mid[h := o], hs + [h])
    ensures forall k :: 0 <= k < |hs| ==> mid[h := o][hs[k]] == mid[hs[k]]
  {
    var after := mid[h := o];
    var hs' := hs + [h];
    forall x | x in after ensures x in before || x in hs' {
      if x != h {
        assert x in mid;
        if x !in before {
          var k :| 0 <= k < |hs| && hs[k] == x;
          assert hs'[k] == x;
        }
      } else {
        assert hs'[|hs|] == h;
      }
    }
  }

  /** The loader's table of loaded executables. */
  class Loader {
    var executables: seq<SymbolicInfo>

    ghost predicate Valid()
      reads this
    {
      SortedByPatchStart(executables)
    }

    constructor ()
      ensures Valid() && executables == []
    {
      executables := [];
    }

    /** Maps one region as a new private-memory object with a handle. */
    static method MapRegion(memory: PrivateMemory.MemoryManager, handles: Handles.HandleTable, c: PrivateMemory.ChunkDescriptor)
      returns (r: Result<Handles.Handle>)
      requires memory.pageSize > 0 && handles.Valid()
      modifies memory, handles
      ensures handles.Valid()
      ensures r.Ok? <==> PrivateMemory.CheckPlacement(memory.baseInside, memory.pageSize, c.ptr, c.size).Ok?
      ensures r.Ok? ==> memory.chunks == old(memory.chunks) + [c]
      ensures r.Ok? ==> r.value !in old(handles.objects) && r.value in handles.objects
                        && handles.objects == old(handles.objects)[r.value := handles.objects[r.value]]
      ensures r.Ok? ==> HoldsRegion(handles.objects[r.value], c)
      ensures r.Err? ==> memory.chunks == old(memory.chunks) && handles.objects == old(handles.objects)
    {
      var m :- PrivateMemory.KPrivateMemory.Create(memory, c.ptr, c.size, c.permission, c.state);
      var h := handles.NewHandle(Handles.MemoryObject(m));
      r := Ok(h);
    }

    /** Maps the regions in order, each under a new handle, stopping at the
        first region the memory manager refuses. `mapped` names the handles
        of the regions mapped, in order. */
    static method MapRegions(memory: PrivateMemory.MemoryManager, handles: Handles.HandleTable,
                             regions: seq<PrivateMemory.ChunkDescriptor>)
      returns (r: Result<()>, ghost mapped: seq<Handles.Handle>)
      requires memory.pageSize > 0 && handles.Valid()
      modifies memory, handles
      ensures handles.Valid()
      ensures r.Ok? ==> |mapped| == |regions|
      ensures r.Err? ==> |mapped| < |regions|
                         && PrivateMemory.CheckPlacement(memory.baseInside, memory.pageSize, regions[|mapped|].ptr, regions[|mapped|].size).Err?
      ensures memory.chunks == old(memory.chunks) + regions[..|mapped|]
      ensures AddsHandles(old(handles.objects), handles.objects, mapped)
      ensures forall k :: 0 <= k < |mapped| ==> HoldsRegion(handles.objects[mapped[k]], regions[k])
    {
      mapped := [];
      var i := 0;
      while i < |regions|
        invariant 0 <= i <= |regions| && handles.Valid()
        invariant memory.chunks == old(memory.chunks) + regions[..i]
        invariant |mapped| == i && AddsHandles(old(handles.objects), handles.objects, mapped)
        invariant forall k :: 0 <= k < i ==> HoldsRegion(handles.objects[mapped[k]], regions[k])
      {
        ghost var mid := handles.objects;
        var h := MapRegion(memory, handles, regions[i]);
        if h.Err? {
          return Err(h.message), mapped;
        }
        AddsHandlesStep(old(handles.objects), mid, mapped, h.value, handles.objects[h.value]);
        assert regions[..i + 1] == regions[..i] + [regions[i]];
        mapped := mapped + [h.value];
        i := i + 1;
      }
      assert regions[..i] == regions;
      r := Ok(());
    }

    /** Checks the layout, maps the four regions at `memoryBase + offset`,
        records the executable for symbol lookup at its place in the sorted
        list (after any entry with the same start), and returns the load
        address, the total size and the program start. A region the memory
        manager refuses is an error, after the regions before it are mapped.
        `mapped` names the handles of the regions mapped, in order. */
    method LoadExecutable(memory: PrivateMemory.MemoryManager, handles: Handles.HandleTable, pageSize: u64,
                          memoryBase: nat, e: Executable, offset: nat, name: string, patchSize: nat,
                          symbols: seq<Symbol>, symbolStrings: seq<u8>)
      returns (r: Result<LoadInfo>, ghost mapped: seq<Handles.Handle>)
      requires Valid() && handles.Valid() && memory.pageSize == pageSize > 0
      modifies this, memory, handles
      ensures Valid() && handles.Valid()
      ensures LayoutCheck(e, pageSize).Err? ==> r.Err? && unchanged(this) && unchanged(memory) && unchanged(handles)
      ensures r.Ok? ==> LayoutCheck(e, pageSize).Ok?
      ensures r.Ok? ==> var base := memoryBase + offset;
                        && r.value == LoadInfo(base, patchSize + e.text.size + e.ro.size + DataSize(e), base + patchSize)
                        && memory.chunks == old(memory.chunks) + Regions(base, patchSize, e)
      ensures r.Ok? ==> var info := SymbolicInfo(r.value.base, r.value.entry, r.value.base + r.value.size,
                                                 name, name + ".patch", symbols, symbolStrings);
                        exists i :: 0 <= i <= |old(executables)| && executables == old(executables)[..i] + [info] + old(executables)[i..]
                                    && (forall j :: 0 <= j < i ==> old(executables)[j].patchStart <= info.patchStart)
      ensures r.Ok? ==> |mapped| == 4
      ensures r.Err? ==> executables == old(executables) && |mapped| < 4
      ensures LayoutCheck(e, pageSize).Ok? ==>
                var regions := Regions(memoryBase + offset, patchSize, e);
                && memory.chunks == old(memory.chunks) + regions[..|mapped|]
                && AddsHandles(old(handles.objects), handles.objects, mapped)
                && forall k :: 0 <= k < |mapped| ==> HoldsRegion(handles.objects[mapped[k]], regions[k])
      ensures LayoutCheck(e, pageSize).Ok? && r.Err? ==>
                var c := Regions(memoryBase + offset, patchSize, e)[|mapped|];
                PrivateMemory.CheckPlacement(memory.baseInside, pageSize, c.ptr, c.size).Err?
    {
      var check := LayoutCheck(e, pageSize);
      if check.Err? {
        return Err(check.message), [];
      }
      var base := memoryBase + offset;
      var regions := Regions(base, patchSize, e);
      var mappedAll;
      mappedAll, mapped := MapRegions(memory, handles, regions);
      if mappedAll.Err? {
        return Err(mappedAll.message), mapped;
      }
      var size := patchSize + e.text.size + e.ro.size + DataSize(e);
      var info := SymbolicInfo(base, base + patchSize, base + size, name, name + ".patch", symbols, symbolStrings);
      var at := UpperBound(executables, base);
      InsertKeepsSorted(executables, at, info);
      executables := executables[..at] + [info] + executables[at..];
      r := Ok(LoadInfo(base, size, base + patchSize));
      assert regions[..|mapped|] == regions;
    }
  }
}
