// The process handle table the kernel and the service manager allocate
// handles from. KProcess.h (NewHandle, InsertItem, GetHandle, DeleteHandle)
// is not part of this model: the table here is a map with a counter, with
// only the contracts its callers rely on.

module Handles {
  import opened Wrappers
  import Session
  import PrivateMemory

  type Handle = nat

  /** The kernel object kinds a handle can name. */
  datatype KType = KThread | KProcess | KSharedMemory | KTransferMemory | KPrivateMemory | KSession | KEvent

  /** What a handle names: a session or a private-memory object in full,
      any other kind by its kind alone. */
  datatype KObject =
    | SessionObject(session: Session.KSession)
    | MemoryObject(memory: PrivateMemory.KPrivateMemory)
    | OtherObject(kind: KType)
  {
    function Kind(): KType {
      match this
      case SessionObject(_) => KSession
      case MemoryObject(_) => KPrivateMemory
      case OtherObject(k) => k
    }
  }

  class HandleTable {
    var objects: map<Handle, KObject>
    var nextHandle: Handle

    /** Every handle in use is below the next one to hand out. */
    ghost predicate Valid()
      reads this
    {
      forall h :: h in objects ==> h < nextHandle
    }

    constructor (baseHandleIndex: Handle)
      ensures Valid() && objects == map[] && nextHandle == baseHandleIndex
    {
      objects := map[];
      nextHandle := baseHandleIndex;
    }

    /** A new handle, different from every handle in use, now names `o`. */
    method NewHandle(o: KObject) returns (h: Handle)
      requires Valid()
      modifies this
      ensures Valid()
      ensures h !in old(objects) && objects == old(objects)[h := o]
    {
      h := nextHandle;
      objects := objects[h := o];
      nextHandle := nextHandle + 1;
    }

    /** Erasing a handle that is not in use changes nothing. */
    method DeleteHandle(h: Handle)
      requires Valid()
      modifies this
      ensures Valid()
      ensures objects == old(objects) - {h}
    {
      objects := objects - {h};
    }

    /** `GetHandle<KSession>`: the session a handle names, or an error when the
        handle is not in use or names another kind of object. */
    function GetSession(h: Handle): (r: Result<Session.KSession>)
      reads this
      ensures r.Ok? <==> h in objects && objects[h].SessionObject?
      ensures r.Ok? ==> objects[h] == SessionObject(r.value)
    {
      if h in objects && objects[h].SessionObject? then Ok(objects[h].session)
      else Err("handle does not name a session")
    }

    /** The sessions named by some handle. */
    function Sessions(): set<object>
      reads this
    {
      set h | h in objects && objects[h].SessionObject? :: objects[h].session as object
    }
  }
}
