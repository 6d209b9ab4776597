/** Entities of the dialog service and the pure helpers of the entity command processor:
    metadata negation, equality, the reserved negative name, card buttons and descriptions,
    and the parsing and validation of a free-text add/edit command. */
module Entities {
  import opened Wrappers
  import opened Strings

  /** The command constants the processor is configured with: the negation and bucket
      markers and the debug marker of a listing, the two structural entity kinds, and the
      edit/delete command words that card buttons carry. */
  datatype Consts = Consts(
    negative: string,
    bucket: string,
    debug: string,
    local: string,
    luis: string,
    editEntity: string,
    deleteEntity: string)
  {
    /** The markers are non-empty, as a marker that is the empty string would occur in
        every input. */
    predicate Valid()
    {
      |negative| > 0 && |bucket| > 0 && |debug| > 0
    }
  }

  /** `bucket`; the id of the negative counterpart (on a positive entity); the id of the
      positive counterpart (on a negative entity); the id of an associated task.
      None stands for `null`/`undefined`. */
  datatype EntityMetaData = EntityMetaData(
    bucket: bool,
    negative: Option<string>,
    positive: Option<string>,
    task: Option<string>)

  datatype Entity = Entity(
    id: string,
    entityType: string,
    luisPreName: Option<string>,
    name: string,
    metadata: EntityMetaData)

  /** The pairing invariant on one metadata value: it is not both a positive entity linked
      to a negative and a negative entity linked to a positive. */
  predicate AtMostOneLink(m: EntityMetaData)
  {
    m.negative.None? || m.positive.None?
  }

  /** The metadata of the negative counterpart of an entity with metadata m. */
  function MakeNegative(m: EntityMetaData, posId: string): (r: EntityMetaData)
    ensures r.positive == Some(posId) && r.negative.None?
    ensures r.bucket == m.bucket && r.task == m.task
    ensures AtMostOneLink(r)
  {
    EntityMetaData(m.bucket, None, Some(posId), m.task)
  }

  /** What makes two entities the same for the service: kind, prebuilt name and name. */
  function Identity(e: Entity): (string, Option<string>, string)
  {
    (e.entityType, e.luisPreName, e.name)
  }

  function Equal(a: Entity, b: Entity): (r: bool)
    ensures r <==> Identity(a) == Identity(b)
  {
    if a.entityType != b.entityType then false
    else if a.luisPreName != b.luisPreName then false
    else a.name == b.name
  }

  /** Equal never looks at the id or the metadata. */
  lemma EqualIgnoresIdAndMetadata(a: Entity, b: Entity, id: string, m: EntityMetaData)
    ensures Equal(a.(id := id, metadata := m), b) == Equal(a, b)
    ensures Equal(a, b.(id := id, metadata := m)) == Equal(a, b)
  {
  }

  lemma EqualIsEquivalence(a: Entity, b: Entity, c: Entity)
    ensures Equal(a, a)
    ensures Equal(a, b) == Equal(b, a)
    ensures Equal(a, b) && Equal(b, c) ==> Equal(a, c)
  {
  }

  /** The name of the negative counterpart of an entity called name. */
  function NegativeName(k: Consts, name: string): (r: string)
    ensures StartsWith(r, k.negative) && r[|k.negative|..] == name
  {
    k.negative + name
  }

  lemma NegativeNameInjective(k: Consts, a: string, b: string)
    requires NegativeName(k, a) == NegativeName(k, b)
    ensures a == b
  {
    assert a == NegativeName(k, a)[|k.negative|..];
  }

  datatype ButtonSet = ButtonSet(edit: string, delete: string)

  /** The edit and delete buttons of an entity card; none for a negative entity, which is
      only edited or deleted through its positive counterpart. */
  function Buttons(k: Consts, name: string, id: string): (r: Option<ButtonSet>)
    ensures r.None? <==> StartsWith(name, k.negative)
    ensures r.Some? ==> StartsWith(r.value.edit, k.editEntity) && EndsWith(r.value.edit, " " + id)
    ensures r.Some? ==> StartsWith(r.value.delete, k.deleteEntity) && EndsWith(r.value.delete, " " + id)
    ensures r.Some? ==> r.value == ButtonSet(k.editEntity + " " + id, k.deleteEntity + " " + id)
  {
    if StartsWith(name, k.negative) then None
    else
      var edit, delete := k.editEntity + " " + id, k.deleteEntity + " " + id;
      assert edit[..|k.editEntity|] == k.editEntity && edit[|edit| - |" " + id|..] == " " + id;
      assert delete[..|k.deleteEntity|] == k.deleteEntity && delete[|delete| - |" " + id|..] == " " + id;
      Some(ButtonSet(edit, delete))
  }

  lemma {:induction false} NegativeEntitiesHaveNoButtons(k: Consts, name: string, id: string)
    ensures Buttons(k, NegativeName(k, name), id).None?
  {
    var n := NegativeName(k, name);
    assert n[..|k.negative|] == k.negative;
  }

  /** The flags that an entity description shows. */
  datatype TagFlags = TagFlags(bucket: bool, negatable: bool, isNegative: bool, task: Option<string>)

  function Flags(m: EntityMetaData): TagFlags
  {
    TagFlags(m.bucket, Truthy(m.negative), Truthy(m.positive),
             if Truthy(m.task) then m.task else None)
  }

  function DescriptionHead(entityType: string, prebuilt: Option<string>): string
  {
    if Truthy(prebuilt) then prebuilt.value else entityType
  }

  const BucketTag := " (bucket)"
  const NegatableTag := " (negatable)"
  const DeleteTag := " (delete)"
  const TaskPrefix := " (Task: "

  /** The tags after the head of a description, built from the last one back. The task
      tag lacks its closing parenthesis, as the source writes it. */
  function TaskTag(m: EntityMetaData): string
  {
    if Truthy(m.task) then TaskPrefix + m.task.value else ""
  }

  function DeleteTags(m: EntityMetaData): string
  {
    (if Truthy(m.positive) then DeleteTag else "") + TaskTag(m)
  }

  function NegatableTags(m: EntityMetaData): string
  {
    (if Truthy(m.negative) then NegatableTag else "") + DeleteTags(m)
  }

  function Tags(m: EntityMetaData): string
  {
    (if m.bucket then BucketTag else "") + NegatableTags(m)
  }

  /** The one-line description of an entity shown on its card. */
  function Description(entityType: string, prebuilt: Option<string>, m: EntityMetaData): (r: string)
    ensures StartsWith(r, DescriptionHead(entityType, prebuilt))
    ensures r[|DescriptionHead(entityType, prebuilt)|..] == Tags(m)
  {
    var head := DescriptionHead(entityType, prebuilt);
    assert (head + Tags(m))[..|head|] == head;
    head + Tags(m)
  }

  function DropPrefix(s: string, p: string): (bool, string)
  {
    if StartsWith(s, p) then (true, s[|p|..]) else (false, s)
  }

  /** Reads the flags back from the tags of a description. */
  function DecodeTags(s: string): TagFlags
  {
    var (b, s1) := DropPrefix(s, BucketTag);
    var (n, s2) := DropPrefix(s1, NegatableTag);
    var (d, s3) := DropPrefix(s2, DeleteTag);
    TagFlags(b, n, d, if StartsWith(s3, TaskPrefix) then Some(s3[|TaskPrefix|..]) else None)
  }

  lemma DropPrefixHit(p: string, rest: string)
    ensures DropPrefix(p + rest, p) == (true, rest)
  {
    assert (p + rest)[..|p|] == p;
  }

  /** A string whose third character differs from that of p does not start with p. */
  lemma DropPrefixMiss(s: string, p: string)
    requires 3 <= |p| && (|s| < 3 || s[2] != p[2])
    ensures DropPrefix(s, p) == (false, s)
  {
    if |p| <= |s| { assert s[..|p|][2] == s[2]; }
  }

  lemma DecodeTaskTag(m: EntityMetaData)
    ensures StartsWith(TaskTag(m), TaskPrefix) == Truthy(m.task)
    ensures Truthy(m.task) ==> TaskTag(m)[|TaskPrefix|..] == m.task.value
    ensures |TaskTag(m)| < 3 || TaskTag(m)[2] == 'T'
  {
    if Truthy(m.task) {
      var t := TaskPrefix + m.task.value;
      assert t[..|TaskPrefix|] == TaskPrefix && t[|TaskPrefix|..] == m.task.value && t[2] == 'T';
    }
  }

  lemma DecodeDeleteTags(m: EntityMetaData)
    ensures DropPrefix(DeleteTags(m), DeleteTag) == (Truthy(m.positive), TaskTag(m))
    ensures |DeleteTags(m)| < 3 || DeleteTags(m)[2] in "dT"
  {
    DecodeTaskTag(m);
    if Truthy(m.positive) { DropPrefixHit(DeleteTag, TaskTag(m)); }
    else { assert DeleteTags(m) == TaskTag(m); DropPrefixMiss(TaskTag(m), DeleteTag); }
  }

  lemma DecodeBucketTag(m: EntityMetaData)
    ensures DropPrefix(Tags(m), BucketTag) == (m.bucket, NegatableTags(m))
  {
    if m.bucket { DecodeBucketHit(m); } else { DecodeBucketMiss(m); }
  }

  lemma DecodeBucketHit(m: EntityMetaData)
    requires m.bucket
    ensures DropPrefix(Tags(m), BucketTag) == (true, NegatableTags(m))
  {
    DropPrefixHit(BucketTag, NegatableTags(m));
  }

  lemma DecodeBucketMiss(m: EntityMetaData)
    requires !m.bucket
    ensures DropPrefix(Tags(m), BucketTag) == (false, NegatableTags(m))
  {
    DecodeNegatableTags(m);
    assert Tags(m) == NegatableTags(m);
    DropPrefixMiss(NegatableTags(m), BucketTag);
  }

  lemma DecodeNegatableTags(m: EntityMetaData)
    ensures DropPrefix(NegatableTags(m), NegatableTag) == (Truthy(m.negative), DeleteTags(m))
    ensures |NegatableTags(m)| < 3 || NegatableTags(m)[2] in "ndT"
  {
    DecodeDeleteTags(m);
    if Truthy(m.negative) { DropPrefixHit(NegatableTag, DeleteTags(m)); }
    else { assert NegatableTags(m) == DeleteTags(m); DropPrefixMiss(DeleteTags(m), NegatableTag); }
  }

  /** The description shows exactly the metadata's flags: decoding its tags gives them back. */
  lemma DescriptionShowsFlags(entityType: string, prebuilt: Option<string>, m: EntityMetaData)
    ensures DecodeTags(Description(entityType, prebuilt, m)[|DescriptionHead(entityType, prebuilt)|..]) == Flags(m)
  {
    TagsShowFlags(m);
  }

  lemma TagsShowFlags(m: EntityMetaData)
    ensures DecodeTags(Tags(m)) == Flags(m)
  {
    DecodeBucketTag(m);
    DecodeNegatableTags(m);
    DecodeDeleteTags(m);
    DecodeTaskTag(m);
    DecodeTagsSteps(Tags(m), NegatableTags(m), DeleteTags(m), TaskTag(m), m.bucket, Truthy(m.negative), Truthy(m.positive));
  }

  /** DecodeTags strips the three flag tags in turn and reads the task from what is left. */
  lemma DecodeTagsSteps(s: string, s1: string, s2: string, s3: string, b: bool, n: bool, d: bool)
    requires DropPrefix(s, BucketTag) == (b, s1)
    requires DropPrefix(s1, NegatableTag) == (n, s2)
    requires DropPrefix(s2, DeleteTag) == (d, s3)
    ensures DecodeTags(s) == TagFlags(b, n, d, if StartsWith(s3, TaskPrefix) then Some(s3[|TaskPrefix|..]) else None)
  {
  }

  /** A name-to-id lookup of conversation memory (`EntityName2Id`). */
  function Lookup(lookup: map<string, string>, name: string): (r: Option<string>)
    ensures r.Some? <==> name in lookup
    ensures r.Some? ==> r.value == lookup[name]
  {
    if name in lookup then Some(lookup[name]) else None
  }

  /** A validated add/edit command. */
  datatype Request = Request(
    content: string,
    task: string,
    taskId: Option<string>,
    bucket: bool,
    negatable: bool,
    entityType: string,
    prebuilt: Option<string>)

  datatype Parsed = Rejected(message: string) | Accepted(req: Request)

  const NoNameMessage := "You must provide an entity name for the entity to create."

  function TaskNotFoundMessage(task: string): string
  {
    "Task " + task + " not found."
  }

  /** The kind and prebuilt name that a given entity type stands for: LOCAL and LUIS are
      structural kinds; any other (upper-cased) value is a LUIS prebuilt. */
  function NormaliseType(k: Consts, entityType: string): (r: (string, Option<string>))
    ensures entityType == "" ==> r == ("", None)
    ensures entityType != "" && (ToUpper(entityType) == k.local || ToUpper(entityType) == k.luis)
      ==> r == (ToUpper(entityType), None)
    ensures entityType != "" && ToUpper(entityType) != k.local && ToUpper(entityType) != k.luis
      ==> r == (k.luis, Some(ToUpper(entityType)))
  {
    if entityType == "" then ("", None)
    else
      var upper := ToUpper(entityType);
      if upper != k.local && upper != k.luis then (k.luis, Some(upper)) else (upper, None)
  }

  /** Validation and normalisation of an add/edit command (the source's steps before its
      first remote call). entityId and entityType are "" when not given. */
  function ParseCommand(k: Consts, lookup: map<string, string>, entityId: string,
                        entityType: string, userInput: string): (r: Parsed)
    ensures userInput == "" ==> r == Rejected(NoNameMessage)
    ensures userInput != "" && SecondPiece(userInput, "//") != ""
            && !Truthy(Lookup(lookup, SecondPiece(userInput, "//")))
      ==> r == Rejected(TaskNotFoundMessage(SecondPiece(userInput, "//")))
    ensures r.Rejected? ==>
      userInput == "" || (SecondPiece(userInput, "//") != "" && !Truthy(Lookup(lookup, SecondPiece(userInput, "//"))))
    ensures r.Accepted? ==>
      && r.req.content == StripMarkers(Before(userInput, "//"))
      && r.req.task == SecondPiece(userInput, "//")
      && r.req.bucket == Contains(userInput, k.bucket)
      && r.req.negatable == Contains(userInput, k.negative)
      && (r.req.task == "" ==> r.req.taskId.None?)
      && (r.req.task != "" ==> r.req.taskId == Lookup(lookup, r.req.task) && Truthy(r.req.taskId))
    ensures r.Accepted? && entityId == "" && entityType == "" ==> (r.req.entityType, r.req.prebuilt) == NormaliseType(k, k.luis)
    ensures r.Accepted? && entityType != "" ==> (r.req.entityType, r.req.prebuilt) == NormaliseType(k, entityType)
    ensures r.Accepted? && entityId != "" && entityType == "" ==> r.req.entityType == "" && r.req.prebuilt.None?
  {
    if userInput == "" then Rejected(NoNameMessage)
    else
      var givenType := if entityType == "" && entityId == "" then k.luis else entityType;
      var isBucket := Contains(userInput, k.bucket);
      var isNegatable := Contains(userInput, k.negative);
      var content := StripMarkers(Before(userInput, "//"));
      var task := SecondPiece(userInput, "//");
      var taskId := if task != "" then Lookup(lookup, task) else None;
      if task != "" && !Truthy(taskId) then Rejected(TaskNotFoundMessage(task))
      else
        var (kind, prebuilt) := NormaliseType(k, givenType);
        Accepted(Request(content, task, taskId, isBucket, isNegatable, kind, prebuilt))
  }

  /** A command without markers and without "//" is taken as the name itself. */
  lemma PlainCommandIsName(k: Consts, lookup: map<string, string>, entityId: string,
                           entityType: string, userInput: string)
    requires userInput != "" && '#' !in userInput && '~' !in userInput && !Contains(userInput, "//")
    ensures ParseCommand(k, lookup, entityId, entityType, userInput).Accepted?
    ensures ParseCommand(k, lookup, entityId, entityType, userInput).req.content == userInput
    ensures ParseCommand(k, lookup, entityId, entityType, userInput).req.taskId.None?
  {
    StripMarkersIdentity(userInput);
  }

  /** A command without "//" is accepted whatever its markers: the name is the command with
      `#` and `~` removed, and there is no task. */
  lemma UntaskedCommandIsStrippedName(k: Consts, lookup: map<string, string>, entityId: string,
                                      entityType: string, userInput: string)
    requires userInput != "" && !Contains(userInput, "//")
    ensures ParseCommand(k, lookup, entityId, entityType, userInput).Accepted?
    ensures ParseCommand(k, lookup, entityId, entityType, userInput).req.content == StripMarkers(userInput)
    ensures ParseCommand(k, lookup, entityId, entityType, userInput).req.task == ""
    ensures ParseCommand(k, lookup, entityId, entityType, userInput).req.taskId.None?
  {
  }
}
