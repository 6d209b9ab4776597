/** The remote dialog service as the entity registry uses it: an entity store reached by
    AddEntity, EditEntity, DeleteEntity, GetEntity, GetEntities, ExportApp and TrainModel.
    The store's state is a value (StoreState) with one pure transition per call; the class
    Store holds that state in fields and its methods perform the transitions. Every call is
    recorded in a log, so that a caller's contract can say which calls it made, in which
    order, and which it did not make. */
module RemoteStore {
  import opened Wrappers
  import opened Strings
  import opened Entities
  import Seqs

  /** One call to the remote service, with the arguments that were sent. */
  datatype Call =
    | AddCall(name: string, entityType: string, prebuilt: Option<string>, metadata: EntityMetaData)
    | EditCall(id: string, name: string, kind: Option<string>, prebuilt: Option<string>, metadata: EntityMetaData)
    | DeleteCall(id: string)
    | GetCall(id: string)
    | ListCall
    | ExportCall
    | TrainCall

  /** The exported application: its entity list (None once cleared) and the rest of the
      application (actions, training dialogs), kept as its serialised text. */
  datatype AppContent = AppContent(entities: Option<map<string, Entity>>, rest: string)

  /** The service's state: the entities by id, their ids in creation order, the counter
      that mints fresh ids, the rest of the application, whether training succeeds, the
      number of models trained, and the log of calls received. */
  datatype StoreState = StoreState(
    entities: map<string, Entity>,
    order: seq<string>,
    nextId: nat,
    rest: string,
    trainable: bool,
    models: nat,
    log: seq<Call>)

  /** The id the service gives to the n-th entity it creates. */
  function EntityId(n: nat): (id: string)
    ensures StartsWith(id, "ent") && |id| > 3
  {
    "ent" + Decimal(n)
  }

  lemma EntityIdInjective(a: nat, b: nat)
    ensures EntityId(a) == EntityId(b) ==> a == b
  {
    if EntityId(a) == EntityId(b) {
      assert Decimal(a) == EntityId(a)[3..] == EntityId(b)[3..] == Decimal(b);
      DecimalInjective(a, b);
    }
  }

  ghost predicate Issued(id: string, nextId: nat)
  {
    exists n :: 0 <= n < nextId && id == EntityId(n)
  }

  /** Every stored entity carries its own id. */
  predicate SelfKeyed(s: StoreState)
  {
    forall id :: id in s.entities ==> s.entities[id].id == id
  }

  /** Every stored entity carries its own id, every id was minted before the counter, and
      the listing order holds each stored id once. */
  ghost predicate ValidState(s: StoreState)
  {
    && (forall id :: id in s.entities ==> s.entities[id].id == id && Issued(id, s.nextId))
    && Seqs.Distinct(s.order)
    && (forall id :: id in s.order <==> id in s.entities)
  }

  function NotFound(id: string): string
  {
    "Entity " + id + " not found"
  }

  const TrainFailed := "Training failed"

  function Logged(s: StoreState, c: Call): StoreState
  {
    s.(log := s.log + [c])
  }

  /** `AddEntity(appId, name, type, prebuiltName, metadata) -> entityId`. */
  function AddEntityOp(s: StoreState, name: string, entityType: string, prebuilt: Option<string>,
                       metadata: EntityMetaData): (string, StoreState)
  {
    var id := EntityId(s.nextId);
    (id, Logged(s, AddCall(name, entityType, prebuilt, metadata)).(
       entities := s.entities[id := Entity(id, entityType, prebuilt, name, metadata)],
       order := s.order + [id],
       nextId := s.nextId + 1))
  }

  /** `EditEntity(appId, entityId, name, type, prebuiltName, metadata)`: replaces the name,
      the prebuilt name and the metadata; a null type keeps the entity's kind. Fails for an
      unknown id. */
  function EditEntityOp(s: StoreState, id: string, name: string, kind: Option<string>,
                        prebuilt: Option<string>, metadata: EntityMetaData): (Result<()>, StoreState)
  {
    var s1 := Logged(s, EditCall(id, name, kind, prebuilt, metadata));
    if id !in s.entities then (Failure(NotFound(id)), s1)
    else
      var newKind := if kind.Some? then kind.value else s.entities[id].entityType;
      (Success(()), s1.(entities := s.entities[id := Entity(id, newKind, prebuilt, name, metadata)]))
  }

  /** Removes x from a sequence. */
  function Without(xs: seq<string>, x: string): (r: seq<string>)
    ensures forall y :: y in r <==> y in xs && y != x
    ensures Seqs.Distinct(xs) ==> Seqs.Distinct(r)
  {
    if xs == [] then []
    else if xs[0] == x then Without(xs[1..], x)
    else
      var r := Without(xs[1..], x);
      assert Seqs.Distinct(xs) ==> xs[0] !in xs[1..] by {
        if Seqs.Distinct(xs) {
          forall j | 0 <= j < |xs[1..]| ensures xs[1..][j] != xs[0] { assert xs[1..][j] == xs[j + 1]; }
        }
      }
      [xs[0]] + r
  }

  /** `DeleteEntity(appId, entityId)`. Fails for an unknown id. */
  function DeleteEntityOp(s: StoreState, id: string): (Result<()>, StoreState)
  {
    var s1 := Logged(s, DeleteCall(id));
    if id !in s.entities then (Failure(NotFound(id)), s1)
    else (Success(()), s1.(entities := s.entities - {id}, order := Without(s.order, id)))
  }

  /** `GetEntity(appId, entityId)`. Fails for an unknown id. */
  function GetEntityOp(s: StoreState, id: string): (Result<Entity>, StoreState)
  {
    var s1 := Logged(s, GetCall(id));
    if id !in s.entities then (Failure(NotFound(id)), s1) else (Success(s.entities[id]), s1)
  }

  /** `GetEntities(appId)`: the ids of all entities, in creation order. */
  function GetEntitiesOp(s: StoreState): (seq<string>, StoreState)
  {
    (s.order, Logged(s, ListCall))
  }

  /** `ExportApp(appId)`. */
  function ExportAppOp(s: StoreState): (AppContent, StoreState)
  {
    (AppContent(Some(s.entities), s.rest), Logged(s, ExportCall))
  }

  /** `TrainModel(appId) -> modelId`; fails while the service cannot train. */
  function TrainModelOp(s: StoreState): (Result<string>, StoreState)
  {
    var s1 := Logged(s, TrainCall);
    if s.trainable then (Success("model" + Decimal(s.models)), s1.(models := s.models + 1))
    else (Failure(TrainFailed), s1)
  }

  /** The id the next AddEntity mints is not in use. */
  lemma FreshIdUnused(s: StoreState)
    requires ValidState(s)
    ensures EntityId(s.nextId) !in s.entities
  {
    LaterIdUnused(s, 0);
  }

  /** Nor is any id the counter reaches later. */
  lemma LaterIdUnused(s: StoreState, d: nat)
    requires ValidState(s)
    ensures EntityId(s.nextId + d) !in s.entities
  {
    forall n | 0 <= n < s.nextId ensures EntityId(n) != EntityId(s.nextId + d) {
      EntityIdInjective(n, s.nextId + d);
    }
  }

  /** The empty id (the source's null id) never names a stored entity. */
  lemma EmptyIdUnused(s: StoreState)
    requires ValidState(s)
    ensures "" !in s.entities
  {
  }

  lemma {:induction false} AddEntityPreservesValid(s: StoreState, name: string, entityType: string,
                                                     prebuilt: Option<string>, metadata: EntityMetaData)
    requires ValidState(s)
    ensures ValidState(AddEntityOp(s, name, entityType, prebuilt, metadata).1)
    ensures AddEntityOp(s, name, entityType, prebuilt, metadata).0 !in s.entities
  {
    var (id, s') := AddEntityOp(s, name, entityType, prebuilt, metadata);
    FreshIdUnused(s);
    forall x | x in s'.entities ensures s'.entities[x].id == x && Issued(x, s'.nextId) {
      if x == id {
        assert id == EntityId(s.nextId);
      } else {
        var n :| 0 <= n < s.nextId && x == EntityId(n);
        assert 0 <= n < s'.nextId;
      }
    }
    assert id !in s.order;
    forall i, j | 0 <= i < j < |s'.order| ensures s'.order[i] != s'.order[j] {
      if j == |s.order| { assert s.order[i] in s.order; }
    }
  }

  lemma EditEntityPreservesValid(s: StoreState, id: string, name: string, kind: Option<string>,
                                 prebuilt: Option<string>, metadata: EntityMetaData)
    requires ValidState(s)
    ensures ValidState(EditEntityOp(s, id, name, kind, prebuilt, metadata).1)
    ensures EditEntityOp(s, id, name, kind, prebuilt, metadata).1.entities.Keys == s.entities.Keys
  {
  }

  lemma DeleteEntityPreservesValid(s: StoreState, id: string)
    requires ValidState(s)
    ensures ValidState(DeleteEntityOp(s, id).1)
    ensures DeleteEntityOp(s, id).1.entities.Keys == s.entities.Keys - {id}
  {
  }

  /** The service as an object: its fields are the components of StoreState. */
  class Store {
    var entities: map<string, Entity>
    var order: seq<string>
    var nextId: nat
    var rest: string
    var trainable: bool
    var models: nat
    ghost var log: seq<Call>

    ghost function State(): StoreState
      reads this
    {
      StoreState(entities, order, nextId, rest, trainable, models, log)
    }

    ghost predicate Valid()
      reads this
    {
      ValidState(State())
    }

    /** A service holding no entities. */
    constructor (rest: string, trainable: bool)
      ensures State() == StoreState(map[], [], 0, rest, trainable, 0, [])
      ensures Valid()
    {
      this.entities := map[];
      this.order := [];
      this.nextId := 0;
      this.rest := rest;
      this.trainable := trainable;
      this.models := 0;
      this.log := [];
    }

    method AddEntity(name: string, entityType: string, prebuilt: Option<string>, metadata: EntityMetaData)
      returns (id: string)
      modifies this
      ensures (id, State()) == AddEntityOp(old(State()), name, entityType, prebuilt, metadata)
    {
      id := EntityId(nextId);
      log := log + [AddCall(name, entityType, prebuilt, metadata)];
      entities := entities[id := Entity(id, entityType, prebuilt, name, metadata)];
      order := order + [id];
      nextId := nextId + 1;
    }

    method EditEntity(id: string, name: string, kind: Option<string>, prebuilt: Option<string>,
                      metadata: EntityMetaData)
      returns (r: Result<()>)
      modifies this
      ensures (r, State()) == EditEntityOp(old(State()), id, name, kind, prebuilt, metadata)
    {
      log := log + [EditCall(id, name, kind, prebuilt, metadata)];
      if id !in entities {
        r := Failure(NotFound(id));
      } else {
        var newKind := if kind.Some? then kind.value else entities[id].entityType;
        entities := entities[id := Entity(id, newKind, prebuilt, name, metadata)];
        r := Success(());
      }
    }

    method DeleteEntity(id: string) returns (r: Result<()>)
      modifies this
      ensures (r, State()) == DeleteEntityOp(old(State()), id)
    {
      log := log + [DeleteCall(id)];
      if id !in entities {
        r := Failure(NotFound(id));
      } else {
        entities := entities - {id};
        order := Without(order, id);
        r := Success(());
      }
    }

    method GetEntity(id: string) returns (r: Result<Entity>)
      modifies this
      ensures (r, State()) == GetEntityOp(old(State()), id)
    {
      log := log + [GetCall(id)];
      r := if id in entities then Success(entities[id]) else Failure(NotFound(id));
    }

    method GetEntities() returns (ids: seq<string>)
      modifies this
      ensures (ids, State()) == GetEntitiesOp(old(State()))
    {
      log := log + [ListCall];
      ids := order;
    }

    method ExportApp() returns (app: AppContent)
      modifies this
      ensures (app, State()) == ExportAppOp(old(State()))
    {
      log := log + [ExportCall];
      app := AppContent(Some(entities), rest);
    }

    method TrainModel() returns (r: Result<string>)
      modifies this
      ensures (r, State()) == TrainModelOp(old(State()))
    {
      log := log + [TrainCall];
      if trainable {
        r := Success("model" + Decimal(models));
        models := models + 1;
      } else {
        r := Failure(TrainFailed);
      }
    }
  }
}

/** The entity lookup of conversation memory: display name to entity id. */
module Memory {
  import opened Wrappers
  import Entities

  class BotMemory {
    var lookup: map<string, string>

    constructor ()
      ensures lookup == map[]
    {
      lookup := map[];
    }

    /** `EntityName2Id(name)`, None standing for null. */
    function EntityName2Id(name: string): (r: Option<string>)
      reads this
      ensures r == Entities.Lookup(lookup, name)
    {
      if name in lookup then Some(lookup[name]) else None
    }

    method AddEntityLookup(name: string, id: string)
      modifies this
      ensures lookup == old(lookup)[name := id]
    {
      lookup := lookup[name := id];
    }

    method RemoveEntityLookup(name: string)
      modifies this
      ensures lookup == old(lookup) - {name}
    {
      lookup := lookup - {name};
    }
  }
}
