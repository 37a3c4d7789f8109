/** A store spread over the groups a router sends keys to. */
module ShardStores {
  import opened ByteStrings
  import opened Wrappers
  import opened Routers
  import HashRings

  datatype StoreError =
    | RouteFailed(error: HashRings.RingError)
    | ErrNilRouter
    | ErrNoShardGroup
    | ErrEmptyGroup
    | ErrGroupNotFound
    | GroupFailed(message: string)  // whatever the group's store reports

  /** A group's store, as a map. Which calls fail, and with what message, is the environment's choice, made once and for
      all; a write that reports failure may have happened. */
  class GroupStore {
    const fails: nat -> Option<string>
    var calls: nat
    var data: map<Bytes, Bytes>

    constructor (fails: nat -> Option<string>)
      ensures this.fails == fails && calls == 0 && data == map[]
    {
      this.fails, calls, data := fails, 0, map[];
    }

    /** What the next call answers if it fails. */
    function Failure(): Option<StoreError>
      reads this
    {
      if fails(calls).Some? then Some(GroupFailed(fails(calls).value)) else None
    }

    method Put(key: Bytes, value: Bytes) returns (err: Option<StoreError>)
      modifies this
      ensures calls == old(calls) + 1 && err == old(Failure())
      ensures data == old(data)[key := value] || (err.Some? && data == old(data))
    {
      err := Failure();
      calls := calls + 1;
      var done: bool := *;
      if err == None || done {
        data := data[key := value];
      }
    }

    method Delete(key: Bytes) returns (err: Option<StoreError>)
      modifies this
      ensures calls == old(calls) + 1 && err == old(Failure())
      ensures data == old(data) - {key} || (err.Some? && data == old(data))
    {
      err := Failure();
      calls := calls + 1;
      var done: bool := *;
      if err == None || done {
        data := data - {key};
      }
    }

    method Get(key: Bytes) returns (err: Option<StoreError>, value: Bytes)
      modifies this`calls
      ensures calls == old(calls) + 1 && err == old(Failure())
      ensures err == None ==> value == if key in data then data[key] else []
    {
      err := Failure();
      calls := calls + 1;
      value := if key in data then data[key] else [];
    }
  }

  datatype StoreResult<+T> = Stored(value: T) | Refused(error: StoreError)

  class ShardStore {
    const router: Router
    const groups: map<GroupID, GroupStore>

    constructor (router: Router, groups: map<GroupID, GroupStore>)
      ensures this.router == router && this.groups == groups
    {
      this.router, this.groups := router, groups;
    }

    /** Together the groups hold the flat map: each key where it is routed, as far as that group has a store. */
    ghost predicate Shows(flat: map<Bytes, Bytes>)
      requires router.Valid()
      reads groups.Values
    {
      forall key :: key != [] && router.Route(key).group in groups ==>
        var data := groups[router.Route(key).group].data;
        (key in data <==> key in flat) && (key in flat ==> data[key] == flat[key])
    }

    /** How an operation on a key fails before it reaches a store. */
    ghost function RouteError(key: Bytes): Option<StoreError>
      requires router.Valid()
    {
      if key == [] then Some(RouteFailed(HashRings.RingError.ErrEmptyKey))
      else if router.Route(key).group !in groups then Some(ErrGroupNotFound)
      else None
    }

    /** route. */
    method RouteTo(key: Bytes) returns (r: StoreResult<GroupStore>)
      requires router.Valid()
      ensures r == if RouteError(key).Some? then Refused(RouteError(key).value)
              else Stored(groups[router.Route(key).group])
    {
      var route := router.RouteKey(key);
      if route.Err? {
        return Refused(RouteFailed(route.error));
      }
      if route.value.group !in groups {
        return Refused(ErrGroupNotFound);
      }
      r := Stored(groups[route.value.group]);
    }

    /** Put reaches the store of the key's group alone and passes its answer on. The groups together then hold the
        updated flat map; if the group's store failed, possibly the old one still. */
    method Put(key: Bytes, value: Bytes, ghost flat: map<Bytes, Bytes>) returns (err: Option<StoreError>)
      requires router.Valid() && Shows(flat)
      modifies groups.Values
      ensures err == if RouteError(key).Some? then RouteError(key) else old(groups[router.Route(key).group].Failure())
      ensures RouteError(key) == None ==>
              var store := groups[router.Route(key).group]; store.calls == old(store.calls) + 1
      ensures RouteError(key).Some? ==> Shows(flat)
      ensures RouteError(key) == None && err == None ==> Shows(flat[key := value])
      ensures RouteError(key) == None && err.Some? ==> Shows(flat) || Shows(flat[key := value])
      ensures forall g :: g in groups && (RouteError(key).Some? || groups[g] != groups[router.Route(key).group]) ==>
                groups[g].data == old(groups[g].data) && groups[g].calls == old(groups[g].calls)
    {
      var store := RouteTo(key);
      if store.Refused? {
        return Some(store.error);
      }
      err := store.value.Put(key, value);
    }

    method Delete(key: Bytes, ghost flat: map<Bytes, Bytes>) returns (err: Option<StoreError>)
      requires router.Valid() && Shows(flat)
      modifies groups.Values
      ensures err == if RouteError(key).Some? then RouteError(key) else old(groups[router.Route(key).group].Failure())
      ensures RouteError(key) == None ==>
              var store := groups[router.Route(key).group]; store.calls == old(store.calls) + 1
      ensures RouteError(key).Some? ==> Shows(flat)
      ensures RouteError(key) == None && err == None ==> Shows(flat - {key})
      ensures RouteError(key) == None && err.Some? ==> Shows(flat) || Shows(flat - {key})
      ensures forall g :: g in groups && (RouteError(key).Some? || groups[g] != groups[router.Route(key).group]) ==>
                groups[g].data == old(groups[g].data) && groups[g].calls == old(groups[g].calls)
    {
      var store := RouteTo(key);
      if store.Refused? {
        return Some(store.error);
      }
      err := store.value.Delete(key);
    }

    method Get(key: Bytes, ghost flat: map<Bytes, Bytes>) returns (err: Option<StoreError>, value: Bytes)
      requires router.Valid() && Shows(flat)
      modifies groups.Values
      ensures err == if RouteError(key).Some? then RouteError(key) else old(groups[router.Route(key).group].Failure())
      ensures RouteError(key) == None ==>
              var store := groups[router.Route(key).group]; store.calls == old(store.calls) + 1
      ensures Shows(flat) && forall g :: g in groups ==> groups[g].data == old(groups[g].data)
      ensures err == None ==> value == if key in flat then flat[key] else []
      ensures forall g :: g in groups && (RouteError(key).Some? || groups[g] != groups[router.Route(key).group]) ==>
                groups[g].calls == old(groups[g].calls)
    {
      var store := RouteTo(key);
      if store.Refused? {
        return Some(store.error), [];
      }
      err, value := store.value.Get(key);
    }
  }

  /** NewShardStore, over the group map in whatever order its entries come. */
  method NewShardStore(router: Router?, config: map<GroupID, GroupStore?>) returns (r: StoreResult<ShardStore>)
    ensures r.Stored? <==> router != null && config != map[] && forall g :: g in config ==> g != "" && config[g] != null
    ensures r.Stored? ==> r.value.router == router && r.value.groups.Keys == config.Keys
    ensures r.Stored? ==> forall g :: g in config ==> r.value.groups[g] == config[g]
    ensures router == null ==> r == Refused(ErrNilRouter)
    ensures router != null && config == map[] ==> r == Refused(ErrNoShardGroup)
    // an unnamed group and a missing store are reported as such; of several faults the one come to first
    ensures router != null && config != map[] && r.Refused? ==>
              || (r.error == ErrEmptyGroup && "" in config)
              || (r.error == ErrGroupNotFound && exists g :: g in config && g != "" && config[g] == null)
  {
    if router == null {
      return Refused(ErrNilRouter);
    }
    if |config| == 0 {
      return Refused(ErrNoShardGroup);
    }
    var groups: map<GroupID, GroupStore> := map[];
    var left := config.Keys;
    while left != {}
      invariant left <= config.Keys && groups.Keys == config.Keys - left
      invariant forall g :: g in groups ==> groups[g] == config[g] && g != ""
      decreases left
    {
      var group :| group in left;
      if group == "" {
        return Refused(ErrEmptyGroup);
      }
      var store := config[group];
      if store == null {
        return Refused(ErrGroupNotFound);
      }
      groups, left := groups[group := store], left - {group};
    }
    var made := new ShardStore(router, groups);
    r := Stored(made);
  }
}
