// A session to a service and its domain of virtual handles
// (app/src/main/cpp/skyline/kernel/types/KSession.h).

module Session {

  /** The service types the service manager knows how to construct
      (serviceman.cpp:42-116), plus any other value of the enumeration. */
  datatype ServiceType =
    | sm_IUserInterface
    | fatalsrv_IService
    | settings_ISettingsServer
    | settings_ISystemSettingsServer
    | apm_IManager
    | am_IApplicationProxyService
    | am_IAllSystemAppletProxiesService
    | audio_IAudioOutManager
    | audio_IAudioRendererManager
    | hid_IHidServer
    | timesrv_IStaticService
    | fssrv_IFileSystemProxy
    | nvdrv_INvDrvServices
    | visrv_IManagerRootService
    | pl_IPlatformServiceManager
    | aocsrv_IAddOnContentManager
    | pctl_IParentalControlServiceFactory
    | lm_ILogService
    | account_IAccountServiceForApplication
    | friends_IServiceCreator
    | nfp_IUserManager
    | nifm_IStaticService
    | socket_IClient
    | ssl_ISslService
    | prepo_IPrepoService
    | Unlisted(raw: nat)

  /** A service instance; only its identity and its type matter here. */
  class ServiceObject {
    const serviceType: ServiceType

    constructor (serviceType: ServiceType)
      ensures this.serviceType == serviceType
    {
      this.serviceType := serviceType;
    }
  }

  datatype ServiceStatus = Open | Closed

  /** The virtual-handle table of a domain and its allocation cursor. */
  datatype Domain = Domain(table: map<nat, ServiceObject>, handleIndex: nat)

  /** Every virtual handle in use is at most the cursor. */
  ghost predicate Bounded(d: Domain) {
    forall h :: h in d.table ==> h <= d.handleIndex
  }

  /** Every virtual handle in use is below the cursor, so the cursor is free. */
  ghost predicate Fresh(d: Domain) {
    forall h :: h in d.table ==> h < d.handleIndex
  }

  /** `table[handleIndex] = o; return handleIndex++` (KSession.h:32-33,
      serviceman.cpp:149-151): the reported handle is the old cursor, it now
      names `o`, every other entry is kept, and the cursor moves just past it. */
  function PostIncrementAdd(d: Domain, o: ServiceObject): (r: (Domain, nat))
    ensures r.1 == d.handleIndex && r.0.handleIndex == r.1 + 1
    ensures r.1 in r.0.table && r.0.table[r.1] == o
    ensures forall h :: h != r.1 ==> (h in r.0.table <==> h in d.table)
    ensures forall h :: h != r.1 && h in d.table ==> r.0.table[h] == d.table[h]
  {
    (Domain(d.table[d.handleIndex := o], d.handleIndex + 1), d.handleIndex)
  }

  /** `table[++handleIndex] = o; return handleIndex` (serviceman.cpp:134-136):
      the reported handle is one past the old cursor, it names `o`, every other
      entry is kept, and the cursor now equals the reported handle. */
  function PreIncrementAdd(d: Domain, o: ServiceObject): (r: (Domain, nat))
    ensures r.1 == d.handleIndex + 1 && r.0.handleIndex == r.1
    ensures r.1 in r.0.table && r.0.table[r.1] == o
    ensures forall h :: h != r.1 ==> (h in r.0.table <==> h in d.table)
    ensures forall h :: h != r.1 && h in d.table ==> r.0.table[h] == d.table[h]
  {
    (Domain(d.table[d.handleIndex + 1 := o], d.handleIndex + 1), d.handleIndex + 1)
  }

  /** A post-increment allocation from a domain whose cursor is free uses a
      handle not in use and leaves the cursor free. */
  lemma PostIncrementKeepsFresh(d: Domain, o: ServiceObject)
    requires Fresh(d)
    ensures PostIncrementAdd(d, o).1 !in d.table
    ensures Fresh(PostIncrementAdd(d, o).0)
  {
  }

  /** A pre-increment allocation never reuses a handle of a bounded domain,
      but it leaves the cursor itself in use. */
  lemma PreIncrementUsesCursor(d: Domain, o: ServiceObject)
    requires Bounded(d)
    ensures PreIncrementAdd(d, o).1 !in d.table
    ensures Bounded(PreIncrementAdd(d, o).0)
    ensures !Fresh(PreIncrementAdd(d, o).0)
  {
    var (d', h) := PreIncrementAdd(d, o);
    assert h in d'.table && h == d'.handleIndex;
  }

  /** A post-increment allocation keeps a domain bounded. */
  lemma PostIncrementKeepsBounded(d: Domain, o: ServiceObject)
    requires Bounded(d)
    ensures Bounded(PostIncrementAdd(d, o).0)
  {
  }

  /** NewService and then RegisterService on the same domain: both report
      the same virtual handle, and the object NewService stored is replaced. */
  lemma PreThenPostOverwrites(d: Domain, first: ServiceObject, second: ServiceObject)
    requires first != second
    ensures var (d1, h1) := PreIncrementAdd(d, first);
            var (d2, h2) := PostIncrementAdd(d1, second);
            h1 == h2 && d2.table[h1] == second && d2.table[h1] != first
  {
  }

  /** RegisterService and then NewService on a domain whose cursor is free:
      the handle in between is skipped and stays unused. */
  lemma PostThenPreSkips(d: Domain, first: ServiceObject, second: ServiceObject)
    requires Fresh(d)
    ensures var (d1, h1) := PostIncrementAdd(d, first);
            var (d2, h2) := PreIncrementAdd(d1, second);
            h2 == h1 + 2 && h1 + 1 !in d2.table
  {
  }

  /** A session: the service it was opened on, its domain table and cursor,
      and whether it is open and whether it is a domain. */
  class KSession {
    const serviceObject: ServiceObject
    var domainTable: map<nat, ServiceObject>
    var handleIndex: nat
    const serviceType: ServiceType
    var serviceStatus: ServiceStatus
    var isDomain: bool

    /** A new session is open, not a domain, with an empty table and the
        cursor at the base virtual handle index; its type is its service's. */
    constructor (serviceObject: ServiceObject, baseVirtualHandleIndex: nat)
      ensures this.serviceObject == serviceObject && serviceType == serviceObject.serviceType
      ensures domainTable == map[] && handleIndex == baseVirtualHandleIndex
      ensures serviceStatus == Open && !isDomain
    {
      this.serviceObject := serviceObject;
      this.serviceType := serviceObject.serviceType;
      domainTable := map[];
      handleIndex := baseVirtualHandleIndex;
      serviceStatus := Open;
      isDomain := false;
    }

    function DomainState(): Domain
      reads this
    {
      Domain(domainTable, handleIndex)
    }

    /** Turns the session into a domain whose first virtual handle, the old
        cursor, names the session's own service. */
    method ConvertDomain() returns (h: nat)
      modifies this
      ensures isDomain
      ensures (DomainState(), h) == PostIncrementAdd(old(DomainState()), serviceObject)
      ensures serviceStatus == old(serviceStatus)
    {
      isDomain := true;
      domainTable := domainTable[handleIndex := serviceObject];
      h := handleIndex;
      handleIndex := handleIndex + 1;
    }
  }
}
