/** The entity registry's delete command (`Entity.Delete` with `InUse` and
    `GetNegativeEntity`), specified by a function and performed by a method on a Store
    and a BotMemory. */
module RegistryDelete {
  import opened Wrappers
  import opened Strings
  import opened Entities
  import opened RemoteStore
  import opened Memory
  import opened Registry

  function DeleteUsage(k: Consts): string
  {
    "You must provide the ID of the entity to delete.\n\n     " + k.deleteEntity + " {app ID}"
  }

  const NegativeDeleteMessage := "Can't delete a reversable Entity directly"

  const InUseReason := "Entity is being used by App"

  /** `InUse`: the application, exported with its entity list cleared and serialised,
      mentions the entity's id or the id of its negative counterpart. */
  function InUse(e: Entity, app: AppContent, serialise: AppContent -> string): (r: bool)
    ensures r <==> (Truthy(e.metadata.negative) && Contains(serialise(app.(entities := None)), e.metadata.negative.value))
                   || Contains(serialise(app.(entities := None)), e.id)
  {
    var text := serialise(app.(entities := None));
    var negId := e.metadata.negative;
    if Truthy(negId) && Contains(text, negId.value) then true
    else Contains(text, e.id)
  }

  /** The card of a deleted entity. */
  function DeletedCard(e: Entity): Response
  {
    Deleted(e.name, e.id, Description(e.entityType, e.luisPreName, e.metadata))
  }

  /** Deleting the linked negative after the entity itself is gone (Entity.ts:396-403). */
  function DeleteNegativeSpec(s: StoreState, m: map<string, string>, first: Response, negId: string): Outcome
  {
    var (g, s1) := GetEntityOp(s, negId);
    match g
    case Failure(err) => Outcome([Error(err)], s1, m)
    case Success(ne) =>
      var s2 := DeleteEntityOp(s1, negId).1;
      Outcome([first, DeletedCard(ne)], s2, m - {ne.name})
  }

  /** `Entity.Delete` (Entity.ts:360-415). */
  function DeleteSpec(s: StoreState, m: map<string, string>, k: Consts, entityId: string,
                      serialise: AppContent -> string): Outcome
  {
    if entityId == "" then Outcome([Info(DeleteUsage(k))], s, m)
    else
      var (g, s1) := GetEntityOp(s, entityId);
      match g
      case Failure(err) => Outcome([Error(err)], s1, m)
      case Success(e) =>
        if Truthy(e.metadata.positive) then Outcome([Error(NegativeDeleteMessage)], s1, m)
        else
          var (app, s2) := ExportAppOp(s1);
          if InUse(e, app, serialise) then Outcome([Refused(e.name, InUseReason)], s2, m)
          else
            var s3 := DeleteEntityOp(s2, entityId).1;
            var m3 := m - {e.name};
            if !Truthy(e.metadata.negative) then Outcome([DeletedCard(e)], s3, m3)
            else DeleteNegativeSpec(s3, m3, DeletedCard(e), e.metadata.negative.value)
  }

  method DeleteNegative(store: Store, memory: BotMemory, first: Response, negId: string)
    returns (responses: seq<Response>)
    modifies store, memory
    ensures Outcome(responses, store.State(), memory.lookup)
            == DeleteNegativeSpec(old(store.State()), old(memory.lookup), first, negId)
  {
    var g := store.GetEntity(negId);
    if g.Failure? {
      return [Error(g.error)];
    }
    var negEntity := g.value;
    var _ := store.DeleteEntity(negId);
    memory.RemoveEntityLookup(negEntity.name);
    responses := [first, DeletedCard(negEntity)];
  }

  /** `Entity.Delete`: refuses an empty id, a negative entity and an entity in use;
      otherwise deletes the entity and its negative and forgets both names. */
  method Delete(store: Store, memory: BotMemory, k: Consts, entityId: string,
                serialise: AppContent -> string) returns (responses: seq<Response>)
    modifies store, memory
    ensures Outcome(responses, store.State(), memory.lookup)
            == DeleteSpec(old(store.State()), old(memory.lookup), k, entityId, serialise)
    ensures old(store.Valid()) ==> store.Valid()
  {
    if store.Valid() {
      DeletePreservesValid(store.State(), memory.lookup, k, entityId, serialise);
    }
    if entityId == "" {
      return [Info(DeleteUsage(k))];
    }
    var g := store.GetEntity(entityId);
    if g.Failure? {
      return [Error(g.error)];
    }
    var entity := g.value;
    if Truthy(entity.metadata.positive) {
      return [Error(NegativeDeleteMessage)];
    }
    var app := store.ExportApp();
    if InUse(entity, app, serialise) {
      return [Refused(entity.name, InUseReason)];
    }
    var _ := store.DeleteEntity(entityId);
    memory.RemoveEntityLookup(entity.name);
    var first := DeletedCard(entity);
    if Truthy(entity.metadata.negative) {
      responses := DeleteNegative(store, memory, first, entity.metadata.negative.value);
    } else {
      responses := [first];
    }
  }

  // ---------------------------------------------------------------------------------
  // Properties of the delete command.

  lemma DeleteNegativePreservesValid(s: StoreState, m: map<string, string>, first: Response, negId: string)
    requires ValidState(s)
    ensures ValidState(DeleteNegativeSpec(s, m, first, negId).store)
  {
    DeleteEntityPreservesValid(GetEntityOp(s, negId).1, negId);
  }

  lemma DeletePreservesValid(s: StoreState, m: map<string, string>, k: Consts, entityId: string,
                             serialise: AppContent -> string)
    requires ValidState(s)
    ensures ValidState(DeleteSpec(s, m, k, entityId, serialise).store)
  {
    var o := DeleteSpec(s, m, k, entityId, serialise);
    if entityId == "" {
      assert o.store == s;
    } else if entityId !in s.entities {
      assert o.store == Logged(s, GetCall(entityId));
    } else {
      var e := s.entities[entityId];
      var s1 := GetEntityOp(s, entityId).1;
      var (app, s2) := ExportAppOp(s1);
      if Truthy(e.metadata.positive) {
        assert o.store == s1;
      } else if InUse(e, app, serialise) {
        assert o.store == s2;
      } else {
        DeleteEntityPreservesValid(s2, entityId);
        var s3 := DeleteEntityOp(s2, entityId).1;
        if Truthy(e.metadata.negative) {
          var negId := e.metadata.negative.value;
          assert o == DeleteNegativeSpec(s3, m - {e.name}, DeletedCard(e), negId);
          DeleteNegativePreservesValid(s3, m - {e.name}, DeletedCard(e), negId);
        } else {
          assert o.store == s3;
        }
      }
    }
  }

  /** The three refusals. An empty id is answered with the usage text and no remote call;
      a negative entity (one with a positive link) after fetching it; an entity in use
      after exporting the application. None of them changes the store or the lookup. */
  lemma DeleteRefusals(s: StoreState, m: map<string, string>, k: Consts, entityId: string,
                       serialise: AppContent -> string)
    ensures entityId == "" ==> DeleteSpec(s, m, k, entityId, serialise) == Outcome([Info(DeleteUsage(k))], s, m)
    ensures entityId in s.entities && entityId != "" && Truthy(s.entities[entityId].metadata.positive) ==>
      DeleteSpec(s, m, k, entityId, serialise)
      == Outcome([Error(NegativeDeleteMessage)], s.(log := s.log + [GetCall(entityId)]), m)
    ensures entityId in s.entities && entityId != "" && !Truthy(s.entities[entityId].metadata.positive)
            && InUse(s.entities[entityId], AppContent(Some(s.entities), s.rest), serialise) ==>
      DeleteSpec(s, m, k, entityId, serialise)
      == Outcome([Refused(s.entities[entityId].name, InUseReason)], s.(log := s.log + [GetCall(entityId), ExportCall]), m)
  {
  }

  /** The calls an operation appended to the log. */
  function CallsMade(before: StoreState, after: StoreState): seq<Call>
  {
    if |before.log| <= |after.log| then after.log[|before.log|..] else []
  }

  lemma CallsMadeAppend(s: StoreState, t: StoreState, cs: seq<Call>)
    requires t.log == s.log + cs
    ensures CallsMade(s, t) == cs
  {
  }

  /** Whether Delete may delete the entity: the id is non-empty and names a stored entity
      that is not negative and not in use. */
  predicate DeleteAllowed(s: StoreState, entityId: string, serialise: AppContent -> string)
  {
    && entityId != "" && entityId in s.entities
    && !Truthy(s.entities[entityId].metadata.positive)
    && !InUse(s.entities[entityId], AppContent(Some(s.entities), s.rest), serialise)
  }

  /** The store after an allowed delete has fetched, exported and deleted the entity. */
  function AfterDelete(s: StoreState, entityId: string): StoreState
  {
    DeleteEntityOp(Logged(Logged(s, GetCall(entityId)), ExportCall), entityId).1
  }

  /** What an allowed delete does once the entity itself is gone. */
  lemma DeleteAllowedUnfolds(s: StoreState, m: map<string, string>, k: Consts, entityId: string,
                             serialise: AppContent -> string)
    requires DeleteAllowed(s, entityId, serialise)
    ensures var e := s.entities[entityId];
            var s3 := AfterDelete(s, entityId);
            && s3.log == s.log + [GetCall(entityId), ExportCall, DeleteCall(entityId)]
            && s3.entities == s.entities - {entityId}
            && DeleteSpec(s, m, k, entityId, serialise)
               == if Truthy(e.metadata.negative)
                  then DeleteNegativeSpec(s3, m - {e.name}, DeletedCard(e), e.metadata.negative.value)
                  else Outcome([DeletedCard(e)], s3, m - {e.name})
  {
    var s1 := GetEntityOp(s, entityId).1;
    assert s1 == Logged(s, GetCall(entityId));
    var (app, s2) := ExportAppOp(s1);
    assert app == AppContent(Some(s.entities), s.rest);
    assert s2 == Logged(Logged(s, GetCall(entityId)), ExportCall);
  }

  lemma DeleteAllowedCalls(s: StoreState, m: map<string, string>, k: Consts, entityId: string,
                           serialise: AppContent -> string)
    requires DeleteAllowed(s, entityId, serialise)
    ensures var calls := CallsMade(s, DeleteSpec(s, m, k, entityId, serialise).store);
            |calls| >= 3 && calls[..3] == [GetCall(entityId), ExportCall, DeleteCall(entityId)]
  {
    DeleteAllowedUnfolds(s, m, k, entityId, serialise);
    var e := s.entities[entityId];
    var s3 := AfterDelete(s, entityId);
    var o := DeleteSpec(s, m, k, entityId, serialise);
    var first := [GetCall(entityId), ExportCall, DeleteCall(entityId)];
    if Truthy(e.metadata.negative) {
      var negId := e.metadata.negative.value;
      var s4 := GetEntityOp(s3, negId).1;
      if negId in s3.entities {
        assert o.store == DeleteEntityOp(s4, negId).1;
        CallsMadeAppend(s, o.store, first + [GetCall(negId), DeleteCall(negId)]);
      } else {
        assert o.store == s4;
        CallsMadeAppend(s, o.store, first + [GetCall(negId)]);
      }
    } else {
      CallsMadeAppend(s, o.store, first);
    }
  }

  lemma DeleteRefusedCalls(s: StoreState, m: map<string, string>, k: Consts, entityId: string,
                           serialise: AppContent -> string)
    requires !DeleteAllowed(s, entityId, serialise)
    ensures var calls := CallsMade(s, DeleteSpec(s, m, k, entityId, serialise).store);
            calls == [] || calls == [GetCall(entityId)] || calls == [GetCall(entityId), ExportCall]
  {
    var o := DeleteSpec(s, m, k, entityId, serialise);
    DeleteRefusals(s, m, k, entityId, serialise);
    if entityId == "" {
      CallsMadeAppend(s, o.store, []);
    } else if entityId !in s.entities || Truthy(s.entities[entityId].metadata.positive) {
      CallsMadeAppend(s, o.store, [GetCall(entityId)]);
    } else {
      CallsMadeAppend(s, o.store, [GetCall(entityId), ExportCall]);
    }
  }

  /** Delete asks the service to delete the entity exactly when DeleteAllowed holds;
      otherwise it sends no delete at all. */
  lemma DeleteCallIffAllowed(s: StoreState, m: map<string, string>, k: Consts, entityId: string,
                             serialise: AppContent -> string)
    ensures var calls := CallsMade(s, DeleteSpec(s, m, k, entityId, serialise).store);
            && (DeleteAllowed(s, entityId, serialise) <==> DeleteCall(entityId) in calls)
            && (!DeleteAllowed(s, entityId, serialise) ==> forall c :: c in calls ==> !c.DeleteCall?)
  {
    var calls := CallsMade(s, DeleteSpec(s, m, k, entityId, serialise).store);
    if DeleteAllowed(s, entityId, serialise) {
      DeleteAllowedCalls(s, m, k, entityId, serialise);
      assert calls[2] == DeleteCall(entityId);
    } else {
      DeleteRefusedCalls(s, m, k, entityId, serialise);
    }
  }

  /** Deleting an entity without a negative: it leaves the store and its name leaves the
      lookup. */
  lemma DeletePlainEntity(s: StoreState, m: map<string, string>, k: Consts, entityId: string,
                          serialise: AppContent -> string)
    requires DeleteAllowed(s, entityId, serialise) && !Truthy(s.entities[entityId].metadata.negative)
    ensures var o := DeleteSpec(s, m, k, entityId, serialise);
            var e := s.entities[entityId];
            && o.store.entities == s.entities - {entityId}
            && o.lookup == m - {e.name}
            && o.responses == [DeletedCard(e)]
  {
    DeleteAllowedUnfolds(s, m, k, entityId, serialise);
  }

  /** Deleting a negatable entity: it and its negative leave the store, and both names
      leave the lookup. */
  lemma DeleteNegatableEntity(s: StoreState, m: map<string, string>, k: Consts, entityId: string,
                              serialise: AppContent -> string)
    requires DeleteAllowed(s, entityId, serialise)
    requires var e := s.entities[entityId];
             Truthy(e.metadata.negative) && e.metadata.negative.value in s.entities && e.metadata.negative.value != entityId
    ensures var o := DeleteSpec(s, m, k, entityId, serialise);
            var e := s.entities[entityId];
            var negId := e.metadata.negative.value;
            var ne := s.entities[negId];
            && o.store.entities == s.entities - {entityId, negId}
            && o.lookup == m - {e.name} - {ne.name}
            && o.responses == [DeletedCard(e), DeletedCard(ne)]
            && o.store.log == s.log + [GetCall(entityId), ExportCall, DeleteCall(entityId), GetCall(negId), DeleteCall(negId)]
  {
    DeleteAllowedUnfolds(s, m, k, entityId, serialise);
    var e := s.entities[entityId];
    var negId := e.metadata.negative.value;
    var s3 := AfterDelete(s, entityId);
    assert negId in s3.entities && s3.entities[negId] == s.entities[negId];
    var s4 := GetEntityOp(s3, negId).1;
    assert s4.log == s.log + [GetCall(entityId), ExportCall, DeleteCall(entityId), GetCall(negId)];
    assert s.entities - {entityId} - {negId} == s.entities - {entityId, negId};
  }
}
