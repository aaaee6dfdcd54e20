// The service manager: the cache of service instances, handing out sessions
// and virtual handles, closing sessions and routing a synchronous request
// (app/src/main/cpp/skyline/services/serviceman.cpp). The IPC request and
// response buffers are abstract: a request is its decoded header fields and
// a response is the lists of values and handles written to it.

module ServiceManager {
  import opened Wrappers
  import opened Session
  import opened Handles

  /** The parts of an IPC response the manager writes: virtual handles of
      new domain objects, handles to move to the client, and raw values. */
  class IpcResponse {
    var domainObjects: seq<nat>
    var moveHandles: seq<Handle>
    var pushed: seq<nat>

    constructor ()
      ensures domainObjects == [] && moveHandles == [] && pushed == []
    {
      domainObjects := [];
      moveHandles := [];
      pushed := [];
    }
  }

  datatype CommandType = Request | RequestWithContext | Control | ControlWithContext | Close | OtherCommandType(raw: nat)
  datatype DomainCommand = SendMessage | CloseVHandle | OtherDomainCommand(raw: nat)
  datatype ControlCommand =
    | ConvertCurrentObjectToDomain
    | CloneCurrentObject
    | CloneCurrentObjectEx
    | QueryPointerBufferSize
    | OtherControlCommand(raw: nat)

  /** The decoded header of a request: its type, the domain header's object
      id and command, and the control command in the payload. */
  datatype IpcRequest = IpcRequest(kind: CommandType, objectId: nat, domainCommand: DomainCommand, controlCommand: ControlCommand)

  /** What a handled request amounted to. `Dispatched(s)` means the request
      went to service `s` (whose own handler is not part of this model). */
  datatype Handled =
    | Dispatched(service: ServiceObject)
    | VirtualHandleClosed
    | UnknownDomainCommand
    | ControlHandled
    | SessionClosed
    | IgnoredClosedSession

  /** The types the manager has a constructor for. */
  predicate Constructible(t: ServiceType) {
    !t.Unlisted?
  }

  /** The service types a session releases from the cache when it closes:
      those of all its domain objects, or that of its own service. */
  function ReleasedTypes(isDomain: bool, domainTable: map<nat, ServiceObject>, serviceObject: ServiceObject): (r: set<ServiceType>)
    ensures isDomain ==> forall o :: o in domainTable.Values ==> o.serviceType in r
    ensures isDomain ==> forall t :: t in r ==> exists o :: o in domainTable.Values && o.serviceType == t
    ensures !isDomain ==> r == {serviceObject.serviceType}
  {
    if isDomain then TypesOf(domainTable.Values) else {serviceObject.serviceType}
  }

  /** The types of a set of service objects. */
  function TypesOf(objects: set<ServiceObject>): set<ServiceType> {
    set o | o in objects :: o.serviceType
  }

  lemma TypesOfAdd(objects: set<ServiceObject>, o: ServiceObject)
    ensures TypesOf(objects + {o}) == TypesOf(objects) + {o.serviceType}
  {
  }

  /** Every instance of a cache is cached under its own type. */
  predicate CachedUnderOwnType(cache: map<ServiceType, ServiceObject>) {
    forall t :: t in cache ==> cache[t].serviceType == t
  }

  /** Caching an object under its own type keeps the cache consistent. */
  lemma CachedUnderOwnTypeAdd(cache: map<ServiceType, ServiceObject>, o: ServiceObject)
    requires CachedUnderOwnType(cache)
    ensures CachedUnderOwnType(cache[o.serviceType := o])
  {
  }

  const MissingObjectError := "CreateService called on missing object"

  class Manager {
    var serviceMap: map<ServiceType, ServiceObject>
    /** `ServiceString`: the service names a client may ask for. */
    const serviceString: map<string, ServiceType>
    const baseVirtualHandleIndex: nat
    const handles: HandleTable

    /** Every cached instance is cached under its own type. */
    ghost predicate CacheValid()
      reads this
    {
      CachedUnderOwnType(serviceMap)
    }

    constructor (serviceString: map<string, ServiceType>, baseVirtualHandleIndex: nat, handles: HandleTable)
      ensures CacheValid()
      ensures serviceMap == map[] && this.serviceString == serviceString
      ensures this.baseVirtualHandleIndex == baseVirtualHandleIndex && this.handles == handles
    {
      serviceMap := map[];
      this.serviceString := serviceString;
      this.baseVirtualHandleIndex := baseVirtualHandleIndex;
      this.handles := handles;
    }

    /** A cached instance is returned as is; otherwise a known type gets a
        new instance that is cached under its type, and an unknown type is
        an error that changes nothing. */
    method CreateService(t: ServiceType) returns (r: Result<ServiceObject>)
      requires CacheValid()
      modifies this
      ensures CacheValid()
      ensures r.Ok? ==> r.value.serviceType == t
      ensures t in old(serviceMap) ==> r == Ok(old(serviceMap)[t]) && serviceMap == old(serviceMap)
      ensures t !in old(serviceMap) ==> (r.Ok? <==> Constructible(t))
      ensures t !in old(serviceMap) && r.Ok? ==>
                fresh(r.value) && r.value.serviceType == t && serviceMap == old(serviceMap)[t := r.value]
      ensures r.Err? ==> serviceMap == old(serviceMap)
    {
      if t in serviceMap {
        r := Ok(serviceMap[t]);
      } else if !Constructible(t) {
        r := Err(MissingObjectError);
      } else {
        var o := new ServiceObject(t);
        CachedUnderOwnTypeAdd(serviceMap, o);
        serviceMap := serviceMap[t := o];
        r := Ok(o);
      }
    }

    /** A new session on the service of type `t`, and a handle to it: the
        call succeeds exactly when `CreateService` does, the session serves
        the cached instance, and no other handle changes. */
    method NewSession(t: ServiceType) returns (r: Result<Handle>)
      requires CacheValid() && handles.Valid()
      modifies this, handles
      ensures CacheValid()
      ensures handles.Valid()
      ensures r.Ok? <==> t in old(serviceMap) || Constructible(t)
      ensures r.Ok? ==> r.value !in old(handles.objects) && r.value in handles.objects
      ensures r.Ok? ==> var s := handles.objects[r.value];
                        s.SessionObject? && fresh(s.session) && s.session.serviceType == t
      ensures r.Ok? ==>
                && t in serviceMap
                && handles.objects[r.value].session.serviceObject == serviceMap[t]
                && handles.objects == old(handles.objects)[r.value := handles.objects[r.value]]
                && serviceMap == old(serviceMap)[t := serviceMap[t]]
      ensures t in old(serviceMap) ==> serviceMap == old(serviceMap)
      ensures r.Err? ==> handles.objects == old(handles.objects) && serviceMap == old(serviceMap)
    {
      var o :- CreateService(t);
      var session := new KSession(o, baseVirtualHandleIndex);
      var h := handles.NewHandle(SessionObject(session));
      r := Ok(h);
    }

    /** A service asked for by name: an unknown name is an error; in a domain
        the service gets the pre-incremented virtual handle, reported in the
        response's domain objects; otherwise a new session handle is moved
        to the client. */
    method NewService(name: string, session: KSession, response: IpcResponse) returns (r: Result<ServiceObject>)
      requires CacheValid() && handles.Valid()
      modifies this, session, response, handles
      ensures CacheValid()
      ensures handles.Valid()
      ensures r.Ok? <==> name in serviceString && (serviceString[name] in old(serviceMap) || Constructible(serviceString[name]))
      ensures r.Ok? ==>
                var t := serviceString[name];
                && t in serviceMap && r.value == serviceMap[t] && r.value.serviceType == t
                && serviceMap == old(serviceMap)[t := r.value]
                && (t in old(serviceMap) ==> r.value == old(serviceMap)[t])
      ensures r.Err? ==> serviceMap == old(serviceMap)
      ensures r.Ok? && session.isDomain ==>
                var (d, h) := PreIncrementAdd(old(session.DomainState()), r.value);
                && session.DomainState() == d
                && response.domainObjects == old(response.domainObjects) + [h]
                && response.moveHandles == old(response.moveHandles)
                && handles.objects == old(handles.objects)
      ensures r.Ok? && !session.isDomain ==>
                && session.DomainState() == old(session.DomainState())
                && response.domainObjects == old(response.domainObjects)
                && |response.moveHandles| == |old(response.moveHandles)| + 1
                && response.moveHandles[..|old(response.moveHandles)|] == old(response.moveHandles)
                && var h := response.moveHandles[|old(response.moveHandles)|];
                   h !in old(handles.objects) && h in handles.objects && handles.objects[h].SessionObject?
                   && handles.objects[h].session.serviceObject == r.value
                   && handles.objects == old(handles.objects)[h := handles.objects[h]]
      ensures r.Err? ==> session.DomainState() == old(session.DomainState()) && handles.objects == old(handles.objects)
      ensures r.Err? ==> response.domainObjects == old(response.domainObjects) && response.moveHandles == old(response.moveHandles)
      ensures session.isDomain == old(session.isDomain) && session.serviceStatus == old(session.serviceStatus)
      ensures response.pushed == old(response.pushed)
    {
      if name !in serviceString {
        return Err("unknown service name");
      }
      var o :- CreateService(serviceString[name]);
      if session.isDomain {
        var (d, h) := PreIncrementAdd(session.DomainState(), o);
        session.domainTable, session.handleIndex := d.table, d.handleIndex;
        response.domainObjects := response.domainObjects + [h];
      } else {
        var s := new KSession(o, baseVirtualHandleIndex);
        var h := handles.NewHandle(SessionObject(s));
        response.moveHandles := response.moveHandles + [h];
      }
      r := Ok(o);
    }

    /** A service object created by another service: in a domain it takes the
        current virtual handle, which is then advanced; otherwise a new session
        handle is moved to the client. Only a top-level service is cached. */
    method RegisterService(o: ServiceObject, session: KSession, response: IpcResponse, submodule: bool)
      requires CacheValid() && handles.Valid()
      modifies this, session, response, handles
      ensures CacheValid()
      ensures handles.Valid()
      ensures serviceMap == if submodule then old(serviceMap) else old(serviceMap)[o.serviceType := o]
      ensures session.isDomain ==>
                var (d, h) := PostIncrementAdd(old(session.DomainState()), o);
                && session.DomainState() == d
                && response.domainObjects == old(response.domainObjects) + [h]
                && response.moveHandles == old(response.moveHandles)
                && handles.objects == old(handles.objects)
      ensures !session.isDomain ==>
                && session.DomainState() == old(session.DomainState())
                && response.domainObjects == old(response.domainObjects)
                && |response.moveHandles| == |old(response.moveHandles)| + 1
                && response.moveHandles[..|old(response.moveHandles)|] == old(response.moveHandles)
                && var h := response.moveHandles[|old(response.moveHandles)|];
                   h !in old(handles.objects) && h in handles.objects && handles.objects[h].SessionObject?
                   && handles.objects[h].session.serviceObject == o
                   && handles.objects == old(handles.objects)[h := handles.objects[h]]
      ensures session.isDomain == old(session.isDomain) && session.serviceStatus == old(session.serviceStatus)
      ensures response.pushed == old(response.pushed)
    {
      if session.isDomain {
        var (d, h) := PostIncrementAdd(session.DomainState(), o);
        session.domainTable, session.handleIndex := d.table, d.handleIndex;
        response.domainObjects := response.domainObjects + [h];
      } else {
        var s := new KSession(o, baseVirtualHandleIndex);
        var h := handles.NewHandle(SessionObject(s));
        response.moveHandles := response.moveHandles + [h];
      }
      if !submodule {
        serviceMap := serviceMap[o.serviceType := o];
      }
    }

    /** Closing an open session drops the cached instances of the types it
        used and marks it closed; closing a closed session changes nothing.
        A handle that names no session is an error. */
    method CloseSession(handle: Handle) returns (r: Result<()>)
      requires CacheValid()
      modifies this, if handles.GetSession(handle).Ok? then {handles.GetSession(handle).value} else {}
      ensures CacheValid()
      ensures r.Ok? <==> handles.GetSession(handle).Ok?
      ensures r.Ok? ==> var s := handles.GetSession(handle).value;
                        && s.serviceStatus == Closed
                        && serviceMap == (if old(s.serviceStatus) == Open
                                          then old(serviceMap) - ReleasedTypes(s.isDomain, s.domainTable, s.serviceObject)
                                          else old(serviceMap))
                        && s.DomainState() == old(s.DomainState()) && s.isDomain == old(s.isDomain)
      ensures r.Err? ==> serviceMap == old(serviceMap)
    {
      var session :- handles.GetSession(handle);
      if session.serviceStatus == Open {
        if session.isDomain {
          EraseTypes(session.domainTable.Values);
        } else {
          serviceMap := serviceMap - {session.serviceObject.serviceType};
        }
        session.serviceStatus := Closed;
      }
      r := Ok(());
    }

    /** The loop of CloseSession over a domain's objects: the type of each is
        dropped from the cache, in whatever order the table yields them. */
    method EraseTypes(objects: set<ServiceObject>)
      requires CacheValid()
      modifies this
      ensures CacheValid()
      ensures serviceMap == old(serviceMap) - TypesOf(objects)
    {
      var remaining := objects;
      ghost var done: set<ServiceObject> := {};
      while remaining != {}
        invariant remaining + done == objects && remaining !! done
        invariant serviceMap == old(serviceMap) - TypesOf(done)
        invariant CacheValid()
        decreases remaining
      {
        var o :| o in remaining;
        serviceMap := serviceMap - {o.serviceType};
        TypesOfAdd(done, o);
        remaining := remaining - {o};
        done := done + {o};
      }
    }

    /** A request on an open session. A plain request goes to the session's
        service or, in a domain, to the object its id names (an unknown id is
        an error); CloseVHandle drops that object from the domain and its type
        from the cache. Control requests convert the session to a domain,
        clone it into a new handle or report the pointer-buffer size 0x1000;
        an unknown control command or request type is an error. A closed
        session ignores every request. The response is a new one. */
    method SyncRequestHandler(handle: Handle, request: IpcRequest) returns (r: Result<Handled>, response: IpcResponse)
      requires CacheValid() && handles.Valid()
      modifies this, handles, if handles.GetSession(handle).Ok? then {handles.GetSession(handle).value} else {}
      ensures CacheValid() && handles.Valid() && fresh(response)
      ensures old(handles.GetSession(handle)).Err? ==> r.Err? && serviceMap == old(serviceMap) && handles.objects == old(handles.objects)
      ensures old(handles.GetSession(handle)).Ok? ==>
                var s := old(handles.GetSession(handle)).value;
                old(s.serviceStatus) == Closed ==>
                  r == Ok(IgnoredClosedSession) && serviceMap == old(serviceMap) && handles.objects == old(handles.objects)
                  && unchanged(s) && response.domainObjects == [] && response.moveHandles == [] && response.pushed == []
      ensures old(handles.GetSession(handle)).Ok? ==>
                var s := old(handles.GetSession(handle)).value;
                old(s.serviceStatus) == Open && request.kind in {Request, RequestWithContext} ==>
                  RequestOutcome(old(s.isDomain), old(s.domainTable), s.serviceObject, request, old(serviceMap), r, s.domainTable, serviceMap)
                  && s.handleIndex == old(s.handleIndex) && s.isDomain == old(s.isDomain) && s.serviceStatus == Open
                  && handles.objects == old(handles.objects)
      ensures old(handles.GetSession(handle)).Ok? ==>
                var s := old(handles.GetSession(handle)).value;
                old(s.serviceStatus) == Open && request.kind in {Control, ControlWithContext} ==>
                  ControlOutcome(old(s.DomainState()), s, request.controlCommand, old(handles.objects), r, s.DomainState(), s.isDomain,
                                 handles.objects, response.pushed, response.moveHandles)
                  && serviceMap == old(serviceMap) && s.serviceStatus == Open
      ensures old(handles.GetSession(handle)).Ok? ==>
                var s := old(handles.GetSession(handle)).value;
                old(s.serviceStatus) == Open && request.kind == Close ==>
                  r == Ok(SessionClosed) && s.serviceStatus == Closed
                  && serviceMap == old(serviceMap) - ReleasedTypes(old(s.isDomain), old(s.domainTable), s.serviceObject)
                  && handles.objects == old(handles.objects)
      ensures old(handles.GetSession(handle)).Ok? ==>
                var s := old(handles.GetSession(handle)).value;
                old(s.serviceStatus) == Open && request.kind.OtherCommandType? ==>
                  r.Err? && serviceMap == old(serviceMap) && handles.objects == old(handles.objects) && unchanged(s)
    {
      response := new IpcResponse();
      var session :- handles.GetSession(handle);
      if session.serviceStatus == Closed {
        return Ok(IgnoredClosedSession), response;
      }
      match request.kind {
        case Request | RequestWithContext =>
          r := HandleRequest(session, request);
        case Control | ControlWithContext =>
          r := HandleControl(session, request.controlCommand, response);
        case Close =>
          var closed := CloseSession(handle);
          r := Ok(SessionClosed);
        case OtherCommandType(_) =>
          r := Err("Unimplemented IPC message type");
      }
    }

    /** The dispatch of a plain request on an open session. */
    method HandleRequest(session: KSession, request: IpcRequest) returns (r: Result<Handled>)
      requires CacheValid()
      modifies this, session
      ensures CacheValid()
      ensures RequestOutcome(old(session.isDomain), old(session.domainTable), session.serviceObject, request, old(serviceMap),
                             r, session.domainTable, serviceMap)
      ensures session.handleIndex == old(session.handleIndex) && session.isDomain == old(session.isDomain)
      ensures session.serviceStatus == old(session.serviceStatus)
    {
      if !session.isDomain {
        return Ok(Dispatched(session.serviceObject));
      }
      if request.objectId !in session.domainTable {
        return Err("Invalid object ID was used with domain request");
      }
      var service := session.domainTable[request.objectId];
      match request.domainCommand {
        case SendMessage =>
          r := Ok(Dispatched(service));
        case CloseVHandle =>
          serviceMap := serviceMap - {service.serviceType};
          session.domainTable := session.domainTable - {request.objectId};
          r := Ok(VirtualHandleClosed);
        case OtherDomainCommand(_) =>
          r := Ok(UnknownDomainCommand);
      }
    }

    /** The handling of a control request on an open session. */
    method HandleControl(session: KSession, command: ControlCommand, response: IpcResponse) returns (r: Result<Handled>)
      requires handles.Valid() && response.pushed == [] && response.moveHandles == []
      modifies session, handles, response
      ensures handles.Valid()
      ensures ControlOutcome(old(session.DomainState()), session, command, old(handles.objects), r, session.DomainState(),
                             session.isDomain, handles.objects, response.pushed, response.moveHandles)
      ensures session.serviceStatus == old(session.serviceStatus)
    {
      match command {
        case ConvertCurrentObjectToDomain =>
          var h := session.ConvertDomain();
          response.pushed := response.pushed + [h];
          r := Ok(ControlHandled);
        case CloneCurrentObject | CloneCurrentObjectEx =>
          var h := handles.NewHandle(SessionObject(session));
          response.moveHandles := response.moveHandles + [h];
          r := Ok(ControlHandled);
        case QueryPointerBufferSize =>
          response.pushed := response.pushed + [0x1000];
          r := Ok(ControlHandled);
        case OtherControlCommand(_) =>
          r := Err("Unknown Control Command");
      }
    }
  }

  /** How a plain request on an open session ends, relating the domain table
      and cache before (`table`, `cache`) and after (`table'`, `cache'`). */
  ghost predicate RequestOutcome(isDomain: bool, table: map<nat, ServiceObject>, serviceObject: ServiceObject, request: IpcRequest,
                                 cache: map<ServiceType, ServiceObject>,
                                 r: Result<Handled>, table': map<nat, ServiceObject>, cache': map<ServiceType, ServiceObject>)
  {
    if !isDomain then r == Ok(Dispatched(serviceObject)) && table' == table && cache' == cache
    else if request.objectId !in table then r.Err? && table' == table && cache' == cache
    else match request.domainCommand
      case SendMessage => r == Ok(Dispatched(table[request.objectId])) && table' == table && cache' == cache
      case CloseVHandle =>
        r == Ok(VirtualHandleClosed) && table' == table - {request.objectId} && cache' == cache - {table[request.objectId].serviceType}
      case OtherDomainCommand(_) => r == Ok(UnknownDomainCommand) && table' == table && cache' == cache
  }

  /** How a control request on an open session ends: the domain state, the
      handle table and the response's pushed values and moved handles after. */
  ghost predicate ControlOutcome(d: Domain, session: KSession, command: ControlCommand, objects: map<Handle, KObject>,
                                 r: Result<Handled>, d': Domain, isDomain': bool, objects': map<Handle, KObject>,
                                 pushed: seq<nat>, moved: seq<Handle>)
  {
    match command
    case ConvertCurrentObjectToDomain =>
      var (d1, h) := PostIncrementAdd(d, session.serviceObject);
      r == Ok(ControlHandled) && d' == d1 && isDomain' && objects' == objects && pushed == [h] && moved == []
    case CloneCurrentObject | CloneCurrentObjectEx =>
      r == Ok(ControlHandled) && d' == d && |moved| == 1 && moved[0] !in objects
      && objects' == objects[moved[0] := SessionObject(session)] && pushed == []
    case QueryPointerBufferSize =>
      r == Ok(ControlHandled) && d' == d && objects' == objects && pushed == [0x1000] && moved == []
    case OtherControlCommand(_) =>
      r.Err? && d' == d && objects' == objects && pushed == [] && moved == []
  }
}
