// The nvmap device's object table
// (app/src/main/cpp/skyline/services/nvdrv/devices/nvmap.h): a new object's
// initial state and the lookup of an object by its handle.
//
// The shared lock around the table is not modelled; the ioctls declared in
// the header have no bodies there and are not part of this model.

module NvMap {
  import opened Wrappers
  import opened Common

  datatype Status = Created | Allocated

  /** The state held for one nvmap object; `ptr` is the guest address of its memory. */
  datatype NvMapObject = NvMapObject(id: u32, size: u32, ptr: nat, flags: u32, align: u32,
                                     heapMask: u32, kind: u8, status: Status)

  /** A freshly created object: only its id and size are set, everything else is zero
      and it is not yet allocated. */
  function NewObject(id: u32, size: u32): (o: NvMapObject)
    ensures o.id == id && o.size == size
    ensures o.ptr == 0 && o.flags == 0 && o.align == 0 && o.heapMask == 0 && o.kind == 0
    ensures o.status == Created
  {
    NvMapObject(id, size, 0, 0, 0, 0, 0, Created)
  }

  /** The device: the object table (a freed slot holds nothing) and the next id. */
  datatype NvMap = NvMap(maps: seq<Option<NvMapObject>>, idIndex: u32)

  /** A new device has no objects and hands out ids from 1. */
  function Initial(): (m: NvMap)
    ensures m.maps == [] && m.idIndex == 1
  {
    NvMap([], 1)
  }

  /** `GetObject`: handle h names table slot h - 1, so handle 0 is invalid; a
      slot past the table or a freed one throws. */
  function GetObject(m: NvMap, handle: u32): (r: Result<NvMapObject>)
    ensures r.Ok? <==> 0 < handle <= |m.maps| && m.maps[handle - 1].Some?
    ensures r.Ok? ==> r.value == m.maps[handle - 1].value
  {
    if handle == 0 then Err("0 is an invalid nvmap handle")
    else if handle - 1 >= |m.maps| then Err("vector::at: index out of range")
    else if m.maps[handle - 1].None? then Err("A freed nvmap handle was requested")
    else Ok(m.maps[handle - 1].value)
  }

  /** A new device has no valid handle. */
  lemma InitialHasNoObjects(handle: u32)
    ensures GetObject(Initial(), handle).Err?
  {
  }

  /** The object stored in the slot after the table is found under the handle
      one past the table's length, and the objects already there keep theirs. */
  lemma {:induction false} AppendedObjectFound(m: NvMap, o: NvMapObject, handle: u32)
    requires |m.maps| < 0xFFFF_FFFF
    ensures var m' := m.(maps := m.maps + [Some(o)]);
            && GetObject(m', |m.maps| + 1) == Ok(o)
            && (handle != |m.maps| + 1 ==> GetObject(m', handle) == GetObject(m, handle))
  {
    var m' := m.(maps := m.maps + [Some(o)]);
    assert m'.maps[|m.maps|] == Some(o);
    if 0 < handle <= |m.maps| {
      assert m'.maps[handle - 1] == m.maps[handle - 1];
    }
  }
}
