/** internal/integrations/integrationsManager.go: lookups over a snapshot of the
    integrations store (`integrationsStore.GetAllValues()`), a map from store
    key to integration. */
module IntegrationsManager {
  import opened Wrappers
  import opened IntegrationsDto

  type Store = map<string, Integration>

  /** The filter `GetIntegrationsByType` applies. */
  predicate Selected(v: Integration, integrationType: string)
  {
    v.integrationType == integrationType && !v.disabled && !v.deleted
  }

  /** `GetIntegrationById(id)`: the entry stored under `id`, or nil. */
  function GetIntegrationById(store: Store, id: string): (r: Option<Integration>)
    ensures r.Some? <==> id in store
    ensures r.Some? ==> r.value == store[id]
  {
    if id in store then Some(store[id]) else None
  }

  /** `GetIntegrationsByType(t)`: walks the snapshot (in the map's unspecified
      order) and keeps every enabled, undeleted integration of type `t`, keyed
      by its own `Id`. When two kept integrations share an Id, one of them
      (which one depends on the iteration order) survives. */
  method GetIntegrationsByType(store: Store, integrationType: string) returns (filtered: map<string, Integration>)
    ensures forall k :: k in filtered ==> Selected(filtered[k], integrationType) && filtered[k].id == k
    ensures forall k :: k in filtered ==> filtered[k] in store.Values
    ensures forall v :: v in store.Values && Selected(v, integrationType) ==> v.id in filtered
  {
    filtered := map[];
    var rest := store.Keys;
    while rest != {}
      invariant rest <= store.Keys
      invariant forall k :: k in filtered ==> Selected(filtered[k], integrationType) && filtered[k].id == k
      invariant forall k :: k in filtered ==> filtered[k] in store.Values
      invariant forall key :: key in store && key !in rest && Selected(store[key], integrationType) ==> store[key].id in filtered
      decreases |rest|
    {
      var key :| key in rest;
      var integration := store[key];
      if integration.integrationType == integrationType && !integration.disabled && !integration.deleted {
        filtered := filtered[integration.id := integration];
      }
      rest := rest - {key};
    }
  }
}
