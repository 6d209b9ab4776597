/** The entity registry's add/edit command. Each branch of the source is specified by a
    function from the service's state and the memory lookup before the command to the
    responses, the service's state and the lookup after it; the methods perform the same
    remote calls, in the same order, on a Store and a BotMemory, and are proved to end in
    the state the functions describe. */
module Registry {
  import opened Wrappers
  import opened Strings
  import opened Entities
  import opened RemoteStore
  import opened Memory

  /** The cards and messages an operation sends back. */
  datatype Response =
    | Added(name: string, id: string, description: string)
    | Edited(name: string, id: string, description: string)
    | Deleted(name: string, id: string, description: string)
    | Listed(name: string, description: string, buttons: Option<ButtonSet>)
    | Text(text: string)
    | Info(text: string)
    | Refused(name: string, reason: string)
    | Error(text: string)
    | NoApp

  /** What an operation leaves behind. */
  datatype Outcome = Outcome(responses: seq<Response>, store: StoreState, lookup: map<string, string>)

  /** The metadata Add writes for a positive entity, linked to `negative` or not. */
  function PositiveMeta(req: Request, negative: Option<string>): EntityMetaData
  {
    EntityMetaData(req.bucket, negative, None, req.taskId)
  }

  /** The metadata Add writes for a negative entity whose positive is posId. */
  function NegativeMeta(req: Request, posId: string): EntityMetaData
  {
    EntityMetaData(req.bucket, None, Some(posId), req.taskId)
  }

  /** The negative metadata Add writes is the negation of the positive metadata. */
  lemma NegativeMetaIsMakeNegative(req: Request, negative: Option<string>, posId: string)
    ensures NegativeMeta(req, posId) == MakeNegative(PositiveMeta(req, negative), posId)
  {
  }

  /** The id the source passes for a lookup that found nothing (null). */
  function IdOrNull(id: Option<string>): string
  {
    if id.Some? then id.value else ""
  }

  /** A new entity (Entity.ts:312-336): add the positive; if negatable, add the negative
      linked to it, then link the positive to the negative. */
  function AddNewSpec(s: StoreState, m: map<string, string>, k: Consts, req: Request): Outcome
  {
    var meta := PositiveMeta(req, None);
    var (posId, s1) := AddEntityOp(s, req.content, req.entityType, req.prebuilt, meta);
    var m1 := m[req.content := posId];
    if !req.negatable then
      Outcome([Added(req.content, posId, Description(req.entityType, req.prebuilt, meta))], s1, m1)
    else
      var negName := NegativeName(k, req.content);
      var negMeta := NegativeMeta(req, posId);
      var (negId, s2) := AddEntityOp(s1, negName, req.entityType, req.prebuilt, negMeta);
      var m2 := m1[negName := negId];
      var linked := PositiveMeta(req, Some(negId));
      var s3 := EditEntityOp(s2, posId, req.content, None, req.prebuilt, linked).1;
      Outcome([Added(negName, negId, Description(req.entityType, req.prebuilt, negMeta)),
               Edited(req.content, posId, Description(req.entityType, req.prebuilt, linked))], s3, m2)
  }

  /** Editing an entity that has a negative and stays negatable (Entity.ts:260-273): edit
      the positive, then rename the negative. */
  function EditBothSpec(s: StoreState, m: map<string, string>, entityId: string, req: Request,
                        kind: string, negName: string, oldNegId: Option<string>): (Outcome, bool)
  {
    var meta := PositiveMeta(req, oldNegId);
    var s2 := EditEntityOp(s, entityId, req.content, None, req.prebuilt, meta).1;
    var m2 := m[req.content := entityId];
    var negId := IdOrNull(oldNegId);
    var negMeta := NegativeMeta(req, entityId);
    var (e, s3) := EditEntityOp(s2, negId, negName, None, req.prebuilt, negMeta);
    if e.Failure? then (Outcome([Error(e.error)], s3, m2), false)
    else
      (Outcome([Edited(req.content, entityId, Description(kind, req.prebuilt, meta)),
                Edited(negName, negId, Description(kind, req.prebuilt, negMeta))], s3, m2[negName := negId]), true)
  }

  /** Editing an entity that has a negative into a non-negatable one (Entity.ts:274-286):
      unlink the positive first, then delete the negative. */
  function DropNegativeSpec(s: StoreState, m: map<string, string>, entityId: string, req: Request,
                            kind: string, oldNegName: string, oldNegId: Option<string>,
                            oldMeta: EntityMetaData): (Outcome, bool)
  {
    var meta := PositiveMeta(req, None);
    var s2 := EditEntityOp(s, entityId, req.content, None, req.prebuilt, meta).1;
    var m2 := m[req.content := entityId];
    var negId := IdOrNull(oldNegId);
    var (e, s3) := DeleteEntityOp(s2, negId);
    if e.Failure? then (Outcome([Error(e.error)], s3, m2), false)
    else
      (Outcome([Edited(req.content, entityId, Description(kind, req.prebuilt, meta)),
                Deleted(oldNegName, negId, Description(kind, req.prebuilt, oldMeta))], s3, m2 - {oldNegName}), true)
  }

  /** Editing an entity without a negative into a negatable one (Entity.ts:289-302): add the
      negative linked to the positive, then link the positive to it. */
  function AddNegativeSpec(s: StoreState, m: map<string, string>, entityId: string, oldId: string,
                           req: Request, kind: string, negName: string): (Outcome, bool)
  {
    var negMeta := NegativeMeta(req, oldId);
    var (negId, s2) := AddEntityOp(s, negName, kind, req.prebuilt, negMeta);
    var m2 := m[negName := negId];
    var meta := PositiveMeta(req, Some(negId));
    var s3 := EditEntityOp(s2, entityId, req.content, None, req.prebuilt, meta).1;
    (Outcome([Added(negName, negId, Description(kind, req.prebuilt, negMeta)),
              Edited(req.content, entityId, Description(kind, req.prebuilt, meta))], s3, m2[req.content := entityId]), true)
  }

  /** Editing an entity that is and stays without a negative (Entity.ts:303-310). */
  function EditOnlySpec(s: StoreState, m: map<string, string>, entityId: string, req: Request,
                        kind: string): (Outcome, bool)
  {
    var meta := PositiveMeta(req, None);
    var s2 := EditEntityOp(s, entityId, req.content, None, req.prebuilt, meta).1;
    (Outcome([Edited(req.content, entityId, Description(kind, req.prebuilt, meta))], s2, m[req.content := entityId]), true)
  }

  /** Editing an existing entity (Entity.ts:247-311): fetch it, keep its kind, and branch on
      whether it has a negative and whether the command asks for one. */
  function EditSpec(s: StoreState, m: map<string, string>, k: Consts, entityId: string,
                    req: Request): (Outcome, bool)
  {
    var (g, s1) := GetEntityOp(s, entityId);
    match g
    case Failure(e) => (Outcome([Error(e)], s1, m), false)
    case Success(prev) =>
      var kind := prev.entityType;
      var negName := NegativeName(k, req.content);
      var oldNegName := NegativeName(k, prev.name);
      if Truthy(prev.metadata.negative) then
        var oldNegId := Lookup(m, oldNegName);
        if req.negatable then EditBothSpec(s1, m, entityId, req, kind, negName, oldNegId)
        else DropNegativeSpec(s1, m, entityId, req, kind, oldNegName, oldNegId, prev.metadata)
      else if req.negatable then AddNegativeSpec(s1, m, entityId, prev.id, req, kind, negName)
      else EditOnlySpec(s1, m, entityId, req, kind)
  }

  /** The first try block of Add (Entity.ts:189-345); the flag says whether it ran to
      its end, after which the model is retrained. */
  function AddBodySpec(s: StoreState, m: map<string, string>, k: Consts, haveApp: bool,
                       entityId: string, entityType: string, userInput: string): (Outcome, bool)
  {
    if !haveApp then (Outcome([NoApp], s, m), false)
    else
      match ParseCommand(k, m, entityId, entityType, userInput)
      case Rejected(msg) => (Outcome([Info(msg)], s, m), false)
      case Accepted(req) =>
        if entityId == "" then (AddNewSpec(s, m, k, req), true)
        else EditSpec(s, m, k, entityId, req)
  }

  /** Add with its retraining step (Entity.ts:346-356), whose failure is ignored. The
      second component is the model id the context records when training succeeds. */
  function AddSpec(s: StoreState, m: map<string, string>, k: Consts, haveApp: bool,
                   entityId: string, entityType: string, userInput: string): (Outcome, Option<string>)
  {
    var (o, completed) := AddBodySpec(s, m, k, haveApp, entityId, entityType, userInput);
    if !completed then (o, None)
    else
      var (t, s') := TrainModelOp(o.store);
      (o.(store := s'), if t.Success? then Some(t.value) else None)
  }

  // ---------------------------------------------------------------------------------
  // The command as a sequence of remote calls and memory updates.

  method AddNew(store: Store, memory: BotMemory, k: Consts, req: Request) returns (responses: seq<Response>)
    modifies store, memory
    ensures Outcome(responses, store.State(), memory.lookup)
            == AddNewSpec(old(store.State()), old(memory.lookup), k, req)
  {
    var meta := PositiveMeta(req, None);
    var posId := store.AddEntity(req.content, req.entityType, req.prebuilt, meta);
    memory.AddEntityLookup(req.content, posId);
    if !req.negatable {
      responses := [Added(req.content, posId, Description(req.entityType, req.prebuilt, meta))];
    } else {
      var negName := NegativeName(k, req.content);
      var negMeta := NegativeMeta(req, posId);
      var negId := store.AddEntity(negName, req.entityType, req.prebuilt, negMeta);
      memory.AddEntityLookup(negName, negId);
      responses := [Added(negName, negId, Description(req.entityType, req.prebuilt, negMeta))];
      var linked := PositiveMeta(req, Some(negId));
      var _ := store.EditEntity(posId, req.content, None, req.prebuilt, linked);
      responses := responses + [Edited(req.content, posId, Description(req.entityType, req.prebuilt, linked))];
    }
  }

  method EditBoth(store: Store, memory: BotMemory, entityId: string, req: Request, kind: string,
                  negName: string, oldNegId: Option<string>) returns (responses: seq<Response>, completed: bool)
    modifies store, memory
    ensures (Outcome(responses, store.State(), memory.lookup), completed)
            == EditBothSpec(old(store.State()), old(memory.lookup), entityId, req, kind, negName, oldNegId)
  {
    var meta := PositiveMeta(req, oldNegId);
    var _ := store.EditEntity(entityId, req.content, None, req.prebuilt, meta);
    memory.AddEntityLookup(req.content, entityId);
    var first := Edited(req.content, entityId, Description(kind, req.prebuilt, meta));
    var negId := IdOrNull(oldNegId);
    var negMeta := NegativeMeta(req, entityId);
    var e := store.EditEntity(negId, negName, None, req.prebuilt, negMeta);
    if e.Failure? {
      return [Error(e.error)], false;
    }
    memory.AddEntityLookup(negName, negId);
    responses := [first, Edited(negName, negId, Description(kind, req.prebuilt, negMeta))];
    completed := true;
  }

  method DropNegative(store: Store, memory: BotMemory, entityId: string, req: Request, kind: string,
                      oldNegName: string, oldNegId: Option<string>, oldMeta: EntityMetaData)
    returns (responses: seq<Response>, completed: bool)
    modifies store, memory
    ensures (Outcome(responses, store.State(), memory.lookup), completed)
            == DropNegativeSpec(old(store.State()), old(memory.lookup), entityId, req, kind, oldNegName, oldNegId, oldMeta)
  {
    var meta := PositiveMeta(req, None);
    var _ := store.EditEntity(entityId, req.content, None, req.prebuilt, meta);
    memory.AddEntityLookup(req.content, entityId);
    var first := Edited(req.content, entityId, Description(kind, req.prebuilt, meta));
    var negId := IdOrNull(oldNegId);
    var e := store.DeleteEntity(negId);
    if e.Failure? {
      return [Error(e.error)], false;
    }
    memory.RemoveEntityLookup(oldNegName);
    responses := [first, Deleted(oldNegName, negId, Description(kind, req.prebuilt, oldMeta))];
    completed := true;
  }

  method AddNegative(store: Store, memory: BotMemory, entityId: string, oldId: string, req: Request,
                     kind: string, negName: string) returns (responses: seq<Response>, completed: bool)
    modifies store, memory
    ensures (Outcome(responses, store.State(), memory.lookup), completed)
            == AddNegativeSpec(old(store.State()), old(memory.lookup), entityId, oldId, req, kind, negName)
  {
    var negMeta := NegativeMeta(req, oldId);
    var negId := store.AddEntity(negName, kind, req.prebuilt, negMeta);
    memory.AddEntityLookup(negName, negId);
    var first := Added(negName, negId, Description(kind, req.prebuilt, negMeta));
    var meta := PositiveMeta(req, Some(negId));
    var _ := store.EditEntity(entityId, req.content, None, req.prebuilt, meta);
    memory.AddEntityLookup(req.content, entityId);
    responses := [first, Edited(req.content, entityId, Description(kind, req.prebuilt, meta))];
    completed := true;
  }

  method EditOnly(store: Store, memory: BotMemory, entityId: string, req: Request, kind: string)
    returns (responses: seq<Response>, completed: bool)
    modifies store, memory
    ensures (Outcome(responses, store.State(), memory.lookup), completed)
            == EditOnlySpec(old(store.State()), old(memory.lookup), entityId, req, kind)
  {
    var meta := PositiveMeta(req, None);
    var _ := store.EditEntity(entityId, req.content, None, req.prebuilt, meta);
    memory.AddEntityLookup(req.content, entityId);
    responses := [Edited(req.content, entityId, Description(kind, req.prebuilt, meta))];
    completed := true;
  }

  method Edit(store: Store, memory: BotMemory, k: Consts, entityId: string, req: Request)
    returns (responses: seq<Response>, completed: bool)
    modifies store, memory
    ensures (Outcome(responses, store.State(), memory.lookup), completed)
            == EditSpec(old(store.State()), old(memory.lookup), k, entityId, req)
  {
    var g := store.GetEntity(entityId);
    if g.Failure? {
      return [Error(g.error)], false;
    }
    var oldEntity := g.value;
    var kind := oldEntity.entityType;
    var negName := NegativeName(k, req.content);
    var oldNegName := NegativeName(k, oldEntity.name);
    if Truthy(oldEntity.metadata.negative) {
      var oldNegId := memory.EntityName2Id(oldNegName);
      if req.negatable {
        responses, completed := EditBoth(store, memory, entityId, req, kind, negName, oldNegId);
      } else {
        responses, completed := DropNegative(store, memory, entityId, req, kind, oldNegName, oldNegId, oldEntity.metadata);
      }
    } else if req.negatable {
      responses, completed := AddNegative(store, memory, entityId, oldEntity.id, req, kind, negName);
    } else {
      responses, completed := EditOnly(store, memory, entityId, req, kind);
    }
  }

  /** `Entity.Add`: add a new entity (entityId "") or edit an existing one from a
      free-text command, then retrain the model. */
  method Add(store: Store, memory: BotMemory, k: Consts, haveApp: bool, entityId: string,
             entityType: string, userInput: string) returns (responses: seq<Response>, model: Option<string>)
    modifies store, memory
    ensures (Outcome(responses, store.State(), memory.lookup), model)
            == AddSpec(old(store.State()), old(memory.lookup), k, haveApp, entityId, entityType, userInput)
    ensures old(store.Valid()) ==> store.Valid()
  {
    ghost var s0, m0 := store.State(), memory.lookup;
    model := None;
    if !haveApp {
      return [NoApp], None;
    }
    var parsed := ParseCommand(k, memory.lookup, entityId, entityType, userInput);
    if parsed.Rejected? {
      return [Info(parsed.message)], None;
    }
    var req := parsed.req;
    var completed;
    if entityId == "" {
      responses := AddNew(store, memory, k, req);
      completed := true;
    } else {
      responses, completed := Edit(store, memory, k, entityId, req);
    }
    assert (Outcome(responses, store.State(), memory.lookup), completed)
           == AddBodySpec(s0, m0, k, haveApp, entityId, entityType, userInput);
    if completed {
      var t := store.TrainModel();
      if t.Success? {
        model := Some(t.value);
      }
    }
    AddPreservesValid(s0, m0, k, haveApp, entityId, entityType, userInput);
  }

  // ---------------------------------------------------------------------------------
  // Properties of the add/edit command.

  /** Add leaves the service well formed. */
  lemma AddPreservesValid(s: StoreState, m: map<string, string>, k: Consts, haveApp: bool,
                          entityId: string, entityType: string, userInput: string)
    ensures ValidState(s) ==> ValidState(AddSpec(s, m, k, haveApp, entityId, entityType, userInput).0.store)
  {
    var parsed := ParseCommand(k, m, entityId, entityType, userInput);
    if !ValidState(s) {
    } else if haveApp && parsed.Accepted? {
      var req := parsed.req;
      AddRunsBranch(s, m, k, entityId, entityType, userInput, req);
      var (o, completed) := if entityId == "" then (AddNewSpec(s, m, k, req), true) else EditSpec(s, m, k, entityId, req);
      if entityId == "" {
        AddNewPreservesValid(s, m, k, req);
      } else {
        EditPreservesValid(s, m, k, entityId, req);
      }
      assert ValidState(TrainModelOp(o.store).1);
    } else {
      assert AddSpec(s, m, k, haveApp, entityId, entityType, userInput).0.store == s;
    }
  }

  lemma AddNewPreservesValid(s: StoreState, m: map<string, string>, k: Consts, req: Request)
    requires ValidState(s)
    ensures ValidState(AddNewSpec(s, m, k, req).store)
  {
    var meta := PositiveMeta(req, None);
    AddEntityPreservesValid(s, req.content, req.entityType, req.prebuilt, meta);
    var (posId, s1) := AddEntityOp(s, req.content, req.entityType, req.prebuilt, meta);
    var negName := NegativeName(k, req.content);
    AddEntityPreservesValid(s1, negName, req.entityType, req.prebuilt, NegativeMeta(req, posId));
    var (negId, s2) := AddEntityOp(s1, negName, req.entityType, req.prebuilt, NegativeMeta(req, posId));
    EditEntityPreservesValid(s2, posId, req.content, None, req.prebuilt, PositiveMeta(req, Some(negId)));
  }

  lemma EditPreservesValid(s: StoreState, m: map<string, string>, k: Consts, entityId: string, req: Request)
    requires ValidState(s)
    ensures ValidState(EditSpec(s, m, k, entityId, req).0.store)
  {
    var (g, s1) := GetEntityOp(s, entityId);
    assert s1 == Logged(s, GetCall(entityId));
    if g.Success? {
      var prev := g.value;
      var kind := prev.entityType;
      var negName := NegativeName(k, req.content);
      var oldNegName := NegativeName(k, prev.name);
      var oldNegId := Lookup(m, oldNegName);
      var o := EditSpec(s, m, k, entityId, req).0;
      if Truthy(prev.metadata.negative) && req.negatable {
        assert o == EditBothSpec(s1, m, entityId, req, kind, negName, oldNegId).0;
        EditBothPreservesValid(s1, m, entityId, req, kind, negName, oldNegId);
      } else if Truthy(prev.metadata.negative) {
        assert o == DropNegativeSpec(s1, m, entityId, req, kind, oldNegName, oldNegId, prev.metadata).0;
        DropNegativePreservesValid(s1, m, entityId, req, kind, oldNegName, oldNegId, prev.metadata);
      } else if req.negatable {
        assert o == AddNegativeSpec(s1, m, entityId, prev.id, req, kind, negName).0;
        AddNegativePreservesValid(s1, m, entityId, prev.id, req, kind, negName);
      } else {
        assert o == EditOnlySpec(s1, m, entityId, req, kind).0;
        EditEntityPreservesValid(s1, entityId, req.content, None, req.prebuilt, PositiveMeta(req, None));
      }
    }
  }

  lemma EditBothPreservesValid(s: StoreState, m: map<string, string>, entityId: string, req: Request,
                               kind: string, negName: string, oldNegId: Option<string>)
    requires ValidState(s)
    ensures ValidState(EditBothSpec(s, m, entityId, req, kind, negName, oldNegId).0.store)
  {
    var meta := PositiveMeta(req, oldNegId);
    EditEntityPreservesValid(s, entityId, req.content, None, req.prebuilt, meta);
    var s2 := EditEntityOp(s, entityId, req.content, None, req.prebuilt, meta).1;
    EditEntityPreservesValid(s2, IdOrNull(oldNegId), negName, None, req.prebuilt, NegativeMeta(req, entityId));
  }

  lemma DropNegativePreservesValid(s: StoreState, m: map<string, string>, entityId: string, req: Request,
                                   kind: string, oldNegName: string, oldNegId: Option<string>,
                                   oldMeta: EntityMetaData)
    requires ValidState(s)
    ensures ValidState(DropNegativeSpec(s, m, entityId, req, kind, oldNegName, oldNegId, oldMeta).0.store)
  {
    var meta := PositiveMeta(req, None);
    EditEntityPreservesValid(s, entityId, req.content, None, req.prebuilt, meta);
    var s2 := EditEntityOp(s, entityId, req.content, None, req.prebuilt, meta).1;
    DeleteEntityPreservesValid(s2, IdOrNull(oldNegId));
  }

  lemma AddNegativePreservesValid(s: StoreState, m: map<string, string>, entityId: string, oldId: string,
                                  req: Request, kind: string, negName: string)
    requires ValidState(s)
    ensures ValidState(AddNegativeSpec(s, m, entityId, oldId, req, kind, negName).0.store)
  {
    var negMeta := NegativeMeta(req, oldId);
    AddEntityPreservesValid(s, negName, kind, req.prebuilt, negMeta);
    var (nid, s2) := AddEntityOp(s, negName, kind, req.prebuilt, negMeta);
    EditEntityPreservesValid(s2, entityId, req.content, None, req.prebuilt, PositiveMeta(req, Some(nid)));
  }

  /** After an accepted command, Add runs the new-entity branch for an empty id and the
      edit branch otherwise; Add retrains exactly when that branch completes. */
  lemma AddRunsBranch(s: StoreState, m: map<string, string>, k: Consts, entityId: string,
                      entityType: string, userInput: string, req: Request)
    requires ParseCommand(k, m, entityId, entityType, userInput) == Accepted(req)
    ensures var (o, completed) := if entityId == "" then (AddNewSpec(s, m, k, req), true)
                                  else EditSpec(s, m, k, entityId, req);
            var (o', model) := AddSpec(s, m, k, true, entityId, entityType, userInput);
            && o'.responses == o.responses && o'.lookup == o.lookup
            && (completed ==> o'.store == TrainModelOp(o.store).1 && (model.Some? <==> o.store.trainable))
            && (!completed ==> o'.store == o.store && model.None?)
  {
  }

  /** Without an application, and for an empty command or an unknown task, Add answers
      with one message and makes no remote call and no lookup change. */
  lemma AddRejectionsMakeNoCall(s: StoreState, m: map<string, string>, k: Consts, haveApp: bool,
                                entityId: string, entityType: string, userInput: string)
    ensures !haveApp ==> AddSpec(s, m, k, haveApp, entityId, entityType, userInput) == (Outcome([NoApp], s, m), None)
    ensures haveApp && userInput == "" ==>
      AddSpec(s, m, k, haveApp, entityId, entityType, userInput) == (Outcome([Info(NoNameMessage)], s, m), None)
    ensures haveApp && userInput != "" && SecondPiece(userInput, "//") != ""
            && !Truthy(Lookup(m, SecondPiece(userInput, "//"))) ==>
      AddSpec(s, m, k, haveApp, entityId, entityType, userInput)
      == (Outcome([Info(TaskNotFoundMessage(SecondPiece(userInput, "//")))], s, m), None)
  {
  }

  /** A new, non-negatable entity: one AddEntity call with link-free metadata and its name
      mapped to the fresh id. */
  lemma AddPlainEntity(s: StoreState, m: map<string, string>, k: Consts, req: Request)
    requires ValidState(s) && !req.negatable
    ensures EntityId(s.nextId) !in s.entities
    ensures var o := AddNewSpec(s, m, k, req);
            var id := EntityId(s.nextId);
            var meta := PositiveMeta(req, None);
            && o.store.entities == s.entities[id := Entity(id, req.entityType, req.prebuilt, req.content, meta)]
            && o.lookup == m[req.content := id]
            && o.store.log == s.log + [AddCall(req.content, req.entityType, req.prebuilt, meta)]
            && o.responses == [Added(req.content, id, Description(req.entityType, req.prebuilt, meta))]
  {
    FreshIdUnused(s);
  }

  /** The three calls a new negatable entity makes, written out as the state they leave. */
  lemma AddNewNegatableUnfolds(s: StoreState, m: map<string, string>, k: Consts, req: Request)
    requires req.negatable
    ensures var posId, negId := EntityId(s.nextId), EntityId(s.nextId + 1);
            var negName := NegativeName(k, req.content);
            var negMeta, linked := NegativeMeta(req, posId), PositiveMeta(req, Some(negId));
            AddNewSpec(s, m, k, req)
            == Outcome([Added(negName, negId, Description(req.entityType, req.prebuilt, negMeta)),
                        Edited(req.content, posId, Description(req.entityType, req.prebuilt, linked))],
                       s.(entities := s.entities[posId := Entity(posId, req.entityType, req.prebuilt, req.content, PositiveMeta(req, None))]
                                                [negId := Entity(negId, req.entityType, req.prebuilt, negName, negMeta)]
                                                [posId := Entity(posId, req.entityType, req.prebuilt, req.content, linked)],
                          order := s.order + [posId] + [negId],
                          nextId := s.nextId + 2,
                          log := s.log + [AddCall(req.content, req.entityType, req.prebuilt, PositiveMeta(req, None)),
                                          AddCall(negName, req.entityType, req.prebuilt, negMeta),
                                          EditCall(posId, req.content, None, req.prebuilt, linked)]),
                       m[req.content := posId][negName := negId])
  {
  }

  /** A new negatable entity: the positive is added first, then the negative named
      NEGATIVE+content linked to it, then the positive is linked to the negative; both
      names end up in the lookup. */
  lemma AddNegatableEntity(s: StoreState, m: map<string, string>, k: Consts, req: Request)
    requires ValidState(s) && req.negatable
    ensures EntityId(s.nextId) != EntityId(s.nextId + 1)
    ensures EntityId(s.nextId) !in s.entities && EntityId(s.nextId + 1) !in s.entities
    ensures var o := AddNewSpec(s, m, k, req);
            var posId, negId := EntityId(s.nextId), EntityId(s.nextId + 1);
            var negName := NegativeName(k, req.content);
            o.store.entities == s.entities[posId := Entity(posId, req.entityType, req.prebuilt, req.content, PositiveMeta(req, Some(negId)))]
                                          [negId := Entity(negId, req.entityType, req.prebuilt, negName, NegativeMeta(req, posId))]
    ensures var o := AddNewSpec(s, m, k, req);
            var posId, negId := EntityId(s.nextId), EntityId(s.nextId + 1);
            o.lookup == m[req.content := posId][NegativeName(k, req.content) := negId]
    ensures var o := AddNewSpec(s, m, k, req);
            var posId, negId := EntityId(s.nextId), EntityId(s.nextId + 1);
            var negName := NegativeName(k, req.content);
            o.store.log == s.log + [AddCall(req.content, req.entityType, req.prebuilt, PositiveMeta(req, None)),
                                    AddCall(negName, req.entityType, req.prebuilt, NegativeMeta(req, posId)),
                                    EditCall(posId, req.content, None, req.prebuilt, PositiveMeta(req, Some(negId)))]
  {
    FreshIdUnused(s);
    LaterIdUnused(s, 1);
    EntityIdInjective(s.nextId, s.nextId + 1);
    AddNewNegatableUnfolds(s, m, k, req);
    var posId, negId := EntityId(s.nextId), EntityId(s.nextId + 1);
    var negName := NegativeName(k, req.content);
    var pos := Entity(posId, req.entityType, req.prebuilt, req.content, PositiveMeta(req, None));
    var neg := Entity(negId, req.entityType, req.prebuilt, negName, NegativeMeta(req, posId));
    var pos' := Entity(posId, req.entityType, req.prebuilt, req.content, PositiveMeta(req, Some(negId)));
    Seqs.UpdateAgain(s.entities, posId, negId, pos, neg, pos');
  }

  /** Editing an unknown id: only the GetEntity call is made, the error is reported and
      the edit does not complete (so the model is not retrained). */
  lemma EditUnknownEntity(s: StoreState, m: map<string, string>, k: Consts, entityId: string, req: Request)
    requires entityId !in s.entities
    ensures EditSpec(s, m, k, entityId, req)
            == (Outcome([Error(NotFound(entityId))], s.(log := s.log + [GetCall(entityId)]), m), false)
  {
  }

  /** Toggling negation on in an edit: one new negative entity linked to the edited one,
      then the edited one linked to it; the kind of both is the edited entity's. */
  lemma EditTogglesNegationOn(s: StoreState, m: map<string, string>, k: Consts, entityId: string, req: Request)
    requires ValidState(s) && entityId in s.entities && req.negatable
    requires !Truthy(s.entities[entityId].metadata.negative)
    ensures EntityId(s.nextId) !in s.entities
    ensures var (o, completed) := EditSpec(s, m, k, entityId, req);
            var negId := EntityId(s.nextId);
            var kind := s.entities[entityId].entityType;
            var negName := NegativeName(k, req.content);
            && completed
            && o.store.entities == s.entities[negId := Entity(negId, kind, req.prebuilt, negName, NegativeMeta(req, entityId))]
                                             [entityId := Entity(entityId, kind, req.prebuilt, req.content, PositiveMeta(req, Some(negId)))]
            && o.lookup == m[negName := negId][req.content := entityId]
            && o.store.log == s.log + [GetCall(entityId),
                                       AddCall(negName, kind, req.prebuilt, NegativeMeta(req, entityId)),
                                       EditCall(entityId, req.content, None, req.prebuilt, PositiveMeta(req, Some(negId)))]
  {
    FreshIdUnused(s);
  }

  /** Toggling negation off in an edit: the positive is unlinked before the old negative
      (found through the lookup) is deleted, and the old negative's name leaves the
      lookup. */
  lemma EditTogglesNegationOff(s: StoreState, m: map<string, string>, k: Consts, entityId: string, req: Request)
    requires entityId in s.entities && !req.negatable
    requires Truthy(s.entities[entityId].metadata.negative)
    requires var oldNegName := NegativeName(k, s.entities[entityId].name);
             oldNegName in m && m[oldNegName] in s.entities && m[oldNegName] != entityId
    ensures var (o, completed) := EditSpec(s, m, k, entityId, req);
            var prev := s.entities[entityId];
            var oldNegName := NegativeName(k, prev.name);
            var negId := m[oldNegName];
            && completed
            && o.store.entities == s.entities[entityId := Entity(entityId, prev.entityType, req.prebuilt, req.content, PositiveMeta(req, None))] - {negId}
            && o.lookup == m[req.content := entityId] - {oldNegName}
            && o.store.log == s.log + [GetCall(entityId),
                                       EditCall(entityId, req.content, None, req.prebuilt, PositiveMeta(req, None)),
                                       DeleteCall(negId)]
  {
  }

  /** Toggling negation off when the lookup has no live id for the old negative: the
      positive has already been unlinked when the delete fails, so the edit is left half
      done and does not complete. */
  lemma EditTogglesNegationOffStale(s: StoreState, m: map<string, string>, k: Consts, entityId: string, req: Request)
    requires entityId in s.entities && !req.negatable
    requires Truthy(s.entities[entityId].metadata.negative)
    requires IdOrNull(Lookup(m, NegativeName(k, s.entities[entityId].name))) !in s.entities
    ensures var (o, completed) := EditSpec(s, m, k, entityId, req);
            var prev := s.entities[entityId];
            var negId := IdOrNull(Lookup(m, NegativeName(k, prev.name)));
            && !completed
            && o.responses == [Error(NotFound(negId))]
            && o.store.entities == s.entities[entityId := Entity(entityId, prev.entityType, req.prebuilt, req.content, PositiveMeta(req, None))]
            && o.lookup == m[req.content := entityId]
            && o.store.log == s.log + [GetCall(entityId),
                                       EditCall(entityId, req.content, None, req.prebuilt, PositiveMeta(req, None)),
                                       DeleteCall(negId)]
  {
  }

  /** Renaming a negatable entity that stays negatable: the positive keeps its link and
      the negative (found through the lookup) is renamed to NEGATIVE+content and keeps its
      own kind. */
  lemma EditRenamesNegative(s: StoreState, m: map<string, string>, k: Consts, entityId: string, req: Request)
    requires entityId in s.entities && req.negatable
    requires Truthy(s.entities[entityId].metadata.negative)
    requires var oldNegName := NegativeName(k, s.entities[entityId].name);
             oldNegName in m && m[oldNegName] in s.entities && m[oldNegName] != entityId
    ensures var (o, completed) := EditSpec(s, m, k, entityId, req);
            var prev := s.entities[entityId];
            var negId := m[NegativeName(k, prev.name)];
            var negName := NegativeName(k, req.content);
            && completed
            && o.store.entities == s.entities[entityId := Entity(entityId, prev.entityType, req.prebuilt, req.content, PositiveMeta(req, Some(negId)))]
                                             [negId := Entity(negId, s.entities[negId].entityType, req.prebuilt, negName, NegativeMeta(req, entityId))]
            && o.lookup == m[req.content := entityId][negName := negId]
            && o.store.log == s.log + [GetCall(entityId),
                                       EditCall(entityId, req.content, None, req.prebuilt, PositiveMeta(req, Some(negId))),
                                       EditCall(negId, negName, None, req.prebuilt, NegativeMeta(req, entityId))]
  {
  }

  /** Editing an entity that has no negative and is not made negatable: one EditEntity
      call, which keeps the kind. */
  lemma EditPlainEntity(s: StoreState, m: map<string, string>, k: Consts, entityId: string, req: Request)
    requires entityId in s.entities && !req.negatable
    requires !Truthy(s.entities[entityId].metadata.negative)
    ensures var (o, completed) := EditSpec(s, m, k, entityId, req);
            var prev := s.entities[entityId];
            && completed
            && o.store.entities == s.entities[entityId := Entity(entityId, prev.entityType, req.prebuilt, req.content, PositiveMeta(req, None))]
            && o.lookup == m[req.content := entityId]
            && o.store.log == s.log + [GetCall(entityId), EditCall(entityId, req.content, None, req.prebuilt, PositiveMeta(req, None))]
  {
  }

  // ---------------------------------------------------------------------------------
  // The link invariant.

  /** A call that writes metadata writes metadata with at most one link set. */
  predicate SingleLinked(c: Call)
  {
    match c
    case AddCall(_, _, _, meta) => AtMostOneLink(meta)
    case EditCall(_, _, _, _, meta) => AtMostOneLink(meta)
    case _ => true
  }

  /** `after`'s log extends `before`'s, and every call in between writes single-linked
      metadata. */
  predicate SingleLinkedCalls(before: StoreState, after: StoreState)
  {
    && |before.log| <= |after.log|
    && after.log[..|before.log|] == before.log
    && forall i :: |before.log| <= i < |after.log| ==> SingleLinked(after.log[i])
  }

  lemma SingleLinkedCallsStep(a: StoreState, b: StoreState, c: Call, b': StoreState)
    requires SingleLinkedCalls(a, b) && SingleLinked(c) && b'.log == b.log + [c]
    ensures SingleLinkedCalls(a, b')
  {
    assert b'.log[..|a.log|] == b.log[..|a.log|];
  }

  lemma AddNewSendsSingleLinks(s: StoreState, m: map<string, string>, k: Consts, req: Request)
    ensures SingleLinkedCalls(s, AddNewSpec(s, m, k, req).store)
  {
    var meta := PositiveMeta(req, None);
    var (posId, s1) := AddEntityOp(s, req.content, req.entityType, req.prebuilt, meta);
    SingleLinkedCallsStep(s, s, AddCall(req.content, req.entityType, req.prebuilt, meta), s1);
    if req.negatable {
      var negName := NegativeName(k, req.content);
      var (negId, s2) := AddEntityOp(s1, negName, req.entityType, req.prebuilt, NegativeMeta(req, posId));
      SingleLinkedCallsStep(s, s1, AddCall(negName, req.entityType, req.prebuilt, NegativeMeta(req, posId)), s2);
      var linked := PositiveMeta(req, Some(negId));
      var s3 := EditEntityOp(s2, posId, req.content, None, req.prebuilt, linked).1;
      SingleLinkedCallsStep(s, s2, EditCall(posId, req.content, None, req.prebuilt, linked), s3);
      assert AddNewSpec(s, m, k, req).store == s3;
    } else {
      assert AddNewSpec(s, m, k, req).store == s1;
    }
  }

  lemma SingleLinkedCallsTrans(a: StoreState, b: StoreState, c: StoreState)
    requires SingleLinkedCalls(a, b) && SingleLinkedCalls(b, c)
    ensures SingleLinkedCalls(a, c)
  {
    assert c.log[..|a.log|] == c.log[..|b.log|][..|a.log|];
    forall i | |a.log| <= i < |c.log| ensures SingleLinked(c.log[i]) {
      if i < |b.log| {
        assert c.log[i] == c.log[..|b.log|][i];
      }
    }
  }

  lemma EditSendsSingleLinks(s: StoreState, m: map<string, string>, k: Consts, entityId: string, req: Request)
    ensures SingleLinkedCalls(s, EditSpec(s, m, k, entityId, req).0.store)
  {
    var (g, s1) := GetEntityOp(s, entityId);
    SingleLinkedCallsStep(s, s, GetCall(entityId), s1);
    var o := EditSpec(s, m, k, entityId, req).0;
    if g.Failure? {
      assert o.store == s1;
    } else {
      var prev := g.value;
      var kind := prev.entityType;
      var negName := NegativeName(k, req.content);
      var oldNegName := NegativeName(k, prev.name);
      var oldNegId := Lookup(m, oldNegName);
      if Truthy(prev.metadata.negative) && req.negatable {
        assert o == EditBothSpec(s1, m, entityId, req, kind, negName, oldNegId).0;
        EditBothSendsSingleLinks(s1, m, entityId, req, kind, negName, oldNegId);
      } else if Truthy(prev.metadata.negative) {
        assert o == DropNegativeSpec(s1, m, entityId, req, kind, oldNegName, oldNegId, prev.metadata).0;
        DropNegativeSendsSingleLinks(s1, m, entityId, req, kind, oldNegName, oldNegId, prev.metadata);
      } else if req.negatable {
        assert o == AddNegativeSpec(s1, m, entityId, prev.id, req, kind, negName).0;
        AddNegativeSendsSingleLinks(s1, m, entityId, prev.id, req, kind, negName);
      } else {
        assert o == EditOnlySpec(s1, m, entityId, req, kind).0;
        var meta := PositiveMeta(req, None);
        SingleLinkedCallsStep(s1, s1, EditCall(entityId, req.content, None, req.prebuilt, meta), o.store);
      }
      SingleLinkedCallsTrans(s, s1, o.store);
    }
  }

  lemma EditBothSendsSingleLinks(s: StoreState, m: map<string, string>, entityId: string, req: Request,
                                 kind: string, negName: string, oldNegId: Option<string>)
    ensures SingleLinkedCalls(s, EditBothSpec(s, m, entityId, req, kind, negName, oldNegId).0.store)
  {
    var meta := PositiveMeta(req, oldNegId);
    var s2 := EditEntityOp(s, entityId, req.content, None, req.prebuilt, meta).1;
    SingleLinkedCallsStep(s, s, EditCall(entityId, req.content, None, req.prebuilt, meta), s2);
    var negId := IdOrNull(oldNegId);
    var s3 := EditEntityOp(s2, negId, negName, None, req.prebuilt, NegativeMeta(req, entityId)).1;
    SingleLinkedCallsStep(s, s2, EditCall(negId, negName, None, req.prebuilt, NegativeMeta(req, entityId)), s3);
  }

  lemma DropNegativeSendsSingleLinks(s: StoreState, m: map<string, string>, entityId: string, req: Request,
                                     kind: string, oldNegName: string, oldNegId: Option<string>,
                                     oldMeta: EntityMetaData)
    ensures SingleLinkedCalls(s, DropNegativeSpec(s, m, entityId, req, kind, oldNegName, oldNegId, oldMeta).0.store)
  {
    var meta := PositiveMeta(req, None);
    var s2 := EditEntityOp(s, entityId, req.content, None, req.prebuilt, meta).1;
    SingleLinkedCallsStep(s, s, EditCall(entityId, req.content, None, req.prebuilt, meta), s2);
    var negId := IdOrNull(oldNegId);
    SingleLinkedCallsStep(s, s2, DeleteCall(negId), DeleteEntityOp(s2, negId).1);
  }

  lemma AddNegativeSendsSingleLinks(s: StoreState, m: map<string, string>, entityId: string, oldId: string,
                                    req: Request, kind: string, negName: string)
    ensures SingleLinkedCalls(s, AddNegativeSpec(s, m, entityId, oldId, req, kind, negName).0.store)
  {
    var negMeta := NegativeMeta(req, oldId);
    var (nid, s2) := AddEntityOp(s, negName, kind, req.prebuilt, negMeta);
    SingleLinkedCallsStep(s, s, AddCall(negName, kind, req.prebuilt, negMeta), s2);
    var meta := PositiveMeta(req, Some(nid));
    SingleLinkedCallsStep(s, s2, EditCall(entityId, req.content, None, req.prebuilt, meta),
                          EditEntityOp(s2, entityId, req.content, None, req.prebuilt, meta).1);
  }

  /** Link invariant: every metadata value Add sends to the service sets at most one of
      `negative` and `positive`, and Add only appends to the call log. */
  lemma AddSendsSingleLinks(s: StoreState, m: map<string, string>, k: Consts, haveApp: bool,
                            entityId: string, entityType: string, userInput: string)
    ensures SingleLinkedCalls(s, AddSpec(s, m, k, haveApp, entityId, entityType, userInput).0.store)
  {
    var parsed := ParseCommand(k, m, entityId, entityType, userInput);
    if haveApp && parsed.Accepted? {
      var req := parsed.req;
      AddRunsBranch(s, m, k, entityId, entityType, userInput, req);
      var (o, completed) := if entityId == "" then (AddNewSpec(s, m, k, req), true) else EditSpec(s, m, k, entityId, req);
      if entityId == "" {
        AddNewSendsSingleLinks(s, m, k, req);
      } else {
        EditSendsSingleLinks(s, m, k, entityId, req);
      }
      SingleLinkedCallsStep(s, o.store, TrainCall, TrainModelOp(o.store).1);
    } else {
      assert AddSpec(s, m, k, haveApp, entityId, entityType, userInput).0.store == s;
    }
  }
}
