# Entity registry and card templates of ConversationLearner-SDK, in Dafny

This project models two parts of the ConversationLearner (BLIS) bot SDK.

- **The entity registry** (`src/Model/Entity.ts`). These are the text commands that add, edit, delete and list the entities of a dialog application. The commands keep three things consistent:
  - the remote entity store;
  - the conversation memory's name→id lookup;
  - the pairing of a *negatable* entity with its *negative* counterpart.
- **The template provider** (`src/TemplateProvider.ts`). It finds the `{{name}}` placeholders of a JSON card template, renders a template by substituting action arguments, and walks a template to collect its variables. It also checks that every template in the catalogue carries a submit action.

## How the model is organised

| file | module | what it holds |
|---|---|---|
| `wrappers.dfy` | `Wrappers` | `Option`/`Result`, and JavaScript truthiness of an optional string |
| `strings.dfy` | `Strings`, `Seqs` | the string built-ins the source relies on (`indexOf`, `split`, `replace`, `toLowerCase`, string `<`) and sequence helpers (`new Set`, concatenation) |
| `entities.dfy` | `Entities` | the entity and metadata datatypes, the pure helpers, and the parsing of an add/edit command |
| `store.dfy` | `RemoteStore`, `Memory` | the remote service and the memory lookup: a class with fields, whose state is also a value |
| `registry_add.dfy` | `Registry` | `Entity.Add`: one specification function per branch, and methods that make the same remote calls |
| `sort.dfy` | `EntitySort` | `Entity.Sort`, as an in-place insertion sort on an `array` |
| `registry_delete.dfy` | `RegistryDelete` | `Entity.Delete` and `InUse` |
| `registry_get.dfy` | `RegistryGet` | `Entity.Get`: the fetch loop, the filter, the sort and the output loop |
| `json.dfy` | `Json` | JSON values and `JSON.stringify`, plus what `typeof`, `for…in`, property lookup and truthiness do on them |
| `mustache.dfy` | `Mustache` | the global match of `/{{\s*[\w\.]+\s*}}/g`, and `GetArgumentNames` |
| `render.dfy` | `Render` | `RenderTemplate`, with literal replace-all of `{{name}}` |
| `templates.dfy` | `Templates` | `GetVarNames`, `GetTemplateVariables`, `UniqueTemplateVariables`, `GetTemplatesNames`, `GetTemplates` |

### The remote service and the lookup

- **State.** The service is a `StoreState` value:
  - the entities by id;
  - their ids in creation order;
  - a counter that mints ids `ent0`, `ent1`, …;
  - the rest of the application;
  - whether training succeeds;
  - a log of every call received.
- **Operations.** There is one pure transition per remote call. The class `RemoteStore.Store` holds the same components in fields; each of its methods is proved to perform its transition.
- **Commands.** Every command is specified twice:
  - a function from the state and lookup before to the responses, state and lookup after (`AddSpec`, `DeleteSpec`, `GetSpec`);
  - a method that makes the source's calls, in the source's order, on a `Store` and a `BotMemory`.

  Each method is proved to end where its function says. The lemmas about the functions state the source's promises. The log lets a contract say which calls were made, and in what order.
- **Constants.** `NEGATIVE`, `BUCKET`, `DEBUG`, `LOCAL`, `LUIS` and the edit/delete command words are fields of a `Consts` parameter.
- **Absent values.** JavaScript `null`/`undefined` is `None`. For an id or a type it is the empty string.

### Behaviour worth knowing

- **Type conflicts in variable merging.** When two occurrences of a key carry different non-null types, the existing type is kept and the conflict is only logged; a later type fills in only an absent one (`src/TemplateProvider.ts:73-78`).
- **Order of calls for a new negatable entity.** The positive is added first, then the negative that points at it, and then the positive is relinked to the negative. An edit that turns negation on instead adds the negative first and then edits the positive (`src/Model/Entity.ts:289-302`, `314-335`).
- **Where a variable's type comes from.** A variable takes the `type` member of the object whose own member holds it, and that `type` may be absent. Nothing is inherited from enclosing objects (`src/TemplateProvider.ts:130-135`).
- **Lookup after a rename.** Renaming an entity by an edit maps the new name but leaves the old name's entry in place, so the lookup can keep names no entity has any more (`src/Model/Entity.ts:265`, `279`, `300`, `308`).
- **The task tag.** The description of an entity with a task has no closing parenthesis: ` (Task: <id>` (`src/Model/Entity.ts:165`).
- **Spaced placeholders.** `{{ name }}` is a match of the placeholder pattern, so its name is an argument name, but the replacement only looks for `{{name}}`. A spaced placeholder is therefore left in the rendered text even when an argument supplies its name (`src/TemplateProvider.ts:26`, `90-92`; `Render.RenderKeepsSpacedPlaceholders`).

## Model

| member | source | states |
|---|---|---|
| Entities.MakeNegative | src/Model/Entity.ts:43-46 | the negated metadata points back at `posId`, has no negative link, keeps bucket and task, and so has at most one link |
| Entities.Equal | src/Model/Entity.ts:77-83 | true exactly when entity type, prebuilt name and name agree |
| Entities.EqualIgnoresIdAndMetadata | src/Model/Entity.ts:77-83 | replacing the id or the metadata of either entity never changes the answer |
| Entities.EqualIsEquivalence | src/Model/Entity.ts:77-83 | the comparison is reflexive, symmetric and transitive |
| Entities.NegativeName | src/Model/Entity.ts:99-102 | the name starts with the NEGATIVE marker and what follows it is the original name |
| Entities.NegativeNameInjective | src/Model/Entity.ts:99-102 | different names have different negative names |
| Entities.Buttons | src/Model/Entity.ts:134-147 | no buttons exactly when the name starts with the NEGATIVE marker; otherwise the buttons are exactly the edit and the delete command words, each followed by a space and the id |
| Entities.NegativeEntitiesHaveNoButtons | src/Model/Entity.ts:134-140 | the card of any negative entity never offers edit or delete |
| Entities.Description | src/Model/Entity.ts:160-167 | the description starts with the prebuilt name when truthy, else the type, and the rest is the tags of the metadata |
| Entities.DescriptionShowsFlags | src/Model/Entity.ts:160-167 | round trip: reading the tags back from a description gives bucket, truthy negative, truthy positive and the truthy task |
| Entities.TagsShowFlags | src/Model/Entity.ts:162-165 | round trip on the tag text alone |
| Entities.DecodeBucketTag | src/Model/Entity.ts:162 | the text starts with ` (bucket)` exactly when the entity is a bucket, and the remaining tags follow |
| Entities.DecodeNegatableTags | src/Model/Entity.ts:163 | the text starts with ` (negatable)` exactly when a negative is linked |
| Entities.DecodeDeleteTags | src/Model/Entity.ts:164 | the text starts with ` (delete)` exactly when a positive is linked |
| Entities.DecodeTaskTag | src/Model/Entity.ts:165 | the text starts with ` (Task: ` exactly when the task is truthy, and the task id follows with no closing parenthesis |
| Entities.Lookup | src/Model/Entity.ts:226 | `EntityName2Id` finds an id exactly when the name is in the lookup, and it finds that entry's id |
| Entities.NormaliseType | src/Model/Entity.ts:233-242 | an absent type stays absent; LOCAL and LUIS are kept upper-cased; any other given type becomes the upper-cased prebuilt name, with kind LUIS |
| Entities.ParseCommand | src/Model/Entity.ts:196-242 | see the list after this table |
| Entities.PlainCommandIsName | src/Model/Entity.ts:215-219 | a command without `#`, `~` or `//` is accepted with the command itself as the name and no task |
| Entities.UntaskedCommandIsStrippedName | src/Model/Entity.ts:196-230 | a non-empty command without `//` is always accepted, with `#` and `~` removed from the name and no task |
| Strings.IndexOf | src/Model/Entity.ts:209-210 | the first position of the pattern, or none when it occurs nowhere |
| Strings.Before | src/Model/Entity.ts:215 | `split('//')[0]`: a prefix that holds no separator, followed in the text by the first separator, or the whole text |
| Strings.SecondPiece | src/Model/Entity.ts:215 | `split('//')[1]`: empty without a separator; otherwise the text between the first and the second separator |
| Strings.StripMarkers | src/Model/Entity.ts:218-219 | the characters kept are exactly those other than `#` and `~` |
| Strings.StripMarkersAppend | src/Model/Entity.ts:218-219 | stripping distributes over concatenation |
| Strings.StripMarkersIdentity | src/Model/Entity.ts:218-219 | text without markers is unchanged |
| Strings.ToUpper | src/Model/Entity.ts:236 | each character is upper-cased in place |
| Strings.ToLower | src/Model/Entity.ts:452-457 | each character is lower-cased in place |
| Strings.ReplaceFirst | src/Model/Entity.ts:433 | only the first occurrence of the debug marker is replaced; without one the text is unchanged |
| Strings.LessIrreflexive | src/Model/Entity.ts:174-179 | string `<` is irreflexive |
| Strings.LessAsymmetric | src/Model/Entity.ts:174-179 | string `<` is asymmetric |
| Strings.LessTransitive | src/Model/Entity.ts:174-179 | string `<` is transitive |
| Strings.LessTotal | src/Model/Entity.ts:174-179 | of two different strings, one is smaller |
| Strings.NotGreaterTransitive | src/Model/Entity.ts:174-179 | "not greater" is transitive, so the comparator is a consistent total preorder |
| Seqs.Dedupe | src/TemplateProvider.ts:92 | `[...new Set(xs)]` has no repeats, and holds exactly the elements of xs |
| Seqs.DedupeFirstOccurrenceOrder | src/TemplateProvider.ts:92 | the kept elements are in the order of their first occurrences |
| Registry.NegativeMetaIsMakeNegative | src/Model/Entity.ts:326 | the metadata written for a negative is `MakeNegative` of the positive's metadata |
| Registry.AddNew | src/Model/Entity.ts:312-336 | the calls and lookup updates of a new entity end in the state `AddNewSpec` describes |
| Registry.EditBoth | src/Model/Entity.ts:260-273 | edit the positive, then rename the negative; the end state is `EditBothSpec` |
| Registry.DropNegative | src/Model/Entity.ts:274-286 | unlink the positive, then delete the negative; the end state is `DropNegativeSpec` |
| Registry.AddNegative | src/Model/Entity.ts:289-302 | add the negative, then link the positive; the end state is `AddNegativeSpec` |
| Registry.EditOnly | src/Model/Entity.ts:303-310 | one edit; the end state is `EditOnlySpec` |
| Registry.Edit | src/Model/Entity.ts:247-311 | fetch the old entity and run the branch its negative link and the command's marker select; the end state is `EditSpec` |
| Registry.Add | src/Model/Entity.ts:184-357 | the whole command, with retraining, ends in the state `AddSpec` describes, and a well-formed service stays well formed |
| Registry.AddPreservesValid | src/Model/Entity.ts:184-357 | every stored entity keeps its own minted id, and the listing holds each stored id once |
| Registry.AddNewPreservesValid | src/Model/Entity.ts:312-336 | the same for the new-entity branch |
| Registry.EditPreservesValid | src/Model/Entity.ts:247-311 | the same for the edit branches |
| Registry.EditBothPreservesValid | src/Model/Entity.ts:260-273 | the same for the rename of a negatable entity |
| Registry.DropNegativePreservesValid | src/Model/Entity.ts:274-286 | the same for turning negation off |
| Registry.AddNegativePreservesValid | src/Model/Entity.ts:289-302 | the same for turning negation on |
| Registry.AddRunsBranch | src/Model/Entity.ts:247-356 | after an accepted command, Add runs the new-entity branch for an empty id, else the edit; it retrains exactly when the branch completed, which sets the model id exactly when training succeeds |
| Registry.AddRejectionsMakeNoCall | src/Model/Entity.ts:191-231 | without an application, for an empty command, or for an unknown task: one message, with no remote call and no lookup change |
| Registry.AddPlainEntity | src/Model/Entity.ts:314-322 | a new non-negatable entity: one AddEntity with link-free metadata under a fresh id, its name mapped to that id, one Added card |
| Registry.AddNewNegatableUnfolds | src/Model/Entity.ts:314-335 | a new negatable entity: the three calls and the state they leave, written out |
| Registry.AddNegatableEntity | src/Model/Entity.ts:314-335 | positive added first, then the negative named NEGATIVE+content pointing at it, then the positive relinked to the negative; both fresh ids are distinct; both names enter the lookup |
| Registry.EditUnknownEntity | src/Model/Entity.ts:250-344 | editing an unknown id: only the GetEntity call, the error reported, no lookup change, no retraining |
| Registry.EditTogglesNegationOn | src/Model/Entity.ts:289-302 | exactly one new entity, whose positive is the original id, and the original's negative is the new id; the old type is kept |
| Registry.EditTogglesNegationOff | src/Model/Entity.ts:274-286 | the positive is edited with no negative before the old negative is deleted; the negative leaves the store and its name the lookup |
| Registry.EditTogglesNegationOffStale | src/Model/Entity.ts:259-286 | when the lookup has no live id for the old negative, the unlink is still done; the delete then fails and the error is reported |
| Registry.EditRenamesNegative | src/Model/Entity.ts:257-273 | renaming a negatable entity keeps its link and renames its negative to NEGATIVE+content; both names are mapped |
| Registry.EditPlainEntity | src/Model/Entity.ts:303-310 | one GetEntity, one EditEntity keeping the old type, and the new name mapped |
| Registry.AddNewSendsSingleLinks | src/Model/Entity.ts:315-332 | every metadata value a new entity writes sets at most one link |
| Registry.EditBothSendsSingleLinks | src/Model/Entity.ts:263-269 | the same for the rename branch |
| Registry.DropNegativeSendsSingleLinks | src/Model/Entity.ts:277 | the same for turning negation off |
| Registry.AddNegativeSendsSingleLinks | src/Model/Entity.ts:292-298 | the same for turning negation on |
| Registry.EditSendsSingleLinks | src/Model/Entity.ts:247-311 | the same for every edit |
| Registry.AddSendsSingleLinks | src/Model/Entity.ts:184-357 | link invariant: every metadata value Add sends to the service sets at most one of negative and positive |
| EntitySort.InsertPermutes | src/Model/Entity.ts:169-182 | inserting adds exactly the one entity |
| EntitySort.InsertSorted | src/Model/Entity.ts:169-182 | inserting into a sorted list keeps it sorted |
| EntitySort.SortedByNameIsSorted | src/Model/Entity.ts:169-182 | the sorted list is ordered by lower-cased name |
| EntitySort.SortedByNamePermutes | src/Model/Entity.ts:169-182 | the sorted list is a permutation of the input |
| EntitySort.SortedByNameKeepsSorted | src/Model/Entity.ts:169-182 | sorting an already sorted list changes nothing |
| EntitySort.InsertAt | src/Model/Entity.ts:171-181 | one insertion step on the array: the prefix becomes the insertion of a[i] into it, and the rest of the array is untouched |
| EntitySort.Sort | src/Model/Entity.ts:169-182 | the array ends as the stable sort of its old contents, which the three lemmas above show is ordered and a permutation |
| RegistryDelete.InUse | src/Model/Entity.ts:115-132 | in use exactly when the exported application, with its entity list cleared and serialised, contains the entity's id or its truthy negative's id |
| RegistryDelete.DeleteNegative | src/Model/Entity.ts:398-406 | the fetch and delete of the linked negative end in the state `DeleteNegativeSpec` describes |
| RegistryDelete.Delete | src/Model/Entity.ts:360-415 | the whole command ends in the state `DeleteSpec` describes, and a well-formed service stays well formed |
| RegistryDelete.DeleteNegativePreservesValid | src/Model/Entity.ts:398-406 | deleting the negative keeps the service well formed |
| RegistryDelete.DeletePreservesValid | src/Model/Entity.ts:360-415 | Delete keeps the service well formed |
| RegistryDelete.DeleteRefusals | src/Model/Entity.ts:364-391 | an empty id gets the usage text and no call; a negative gets the "reversable" error after one GetEntity; an entity in use gets "Delete Failed" after GetEntity and ExportApp; nothing changes in store or lookup |
| RegistryDelete.DeleteAllowedUnfolds | src/Model/Entity.ts:376-406 | once deletion is allowed: GetEntity, ExportApp, DeleteEntity in that order, the entity gone and its name removed, then the negative's deletion if one is linked |
| RegistryDelete.DeleteAllowedCalls | src/Model/Entity.ts:376-394 | an allowed delete starts with exactly these three calls |
| RegistryDelete.DeleteRefusedCalls | src/Model/Entity.ts:364-391 | a refused delete makes no call, only GetEntity, or only GetEntity and ExportApp |
| RegistryDelete.DeleteCallIffAllowed | src/Model/Entity.ts:364-406 | DeleteEntity of the id is called exactly when the id is non-empty, the entity exists, is not a negative and is not in use; otherwise no delete call of any id is made |
| RegistryDelete.DeletePlainEntity | src/Model/Entity.ts:394-396 | an entity without a negative leaves the store, its name leaves the lookup, one Deleted card |
| RegistryDelete.DeleteNegatableEntity | src/Model/Entity.ts:394-406 | a negatable entity and its negative both leave the store, both names leave the lookup, two Deleted cards, and the five calls in order |
| RegistryGet.SearchOf | src/Model/Entity.ts:429-434 | debug mode exactly when the search is non-empty and contains the DEBUG marker; then the first marker is cut out, else the search is unchanged |
| RegistryGet.Cards | src/Model/Entity.ts:469-479 | one card per listed entity |
| RegistryGet.Filter | src/Model/Entity.ts:457 | keeps exactly the entities that match the search |
| RegistryGet.FetchStopsAtFailure | src/Model/Entity.ts:454-464 | a failed GetEntity ends the loop with the state at the failure |
| RegistryGet.FetchAll | src/Model/Entity.ts:454-464 | the fetch loop ends in the state `FetchSpec` describes |
| RegistryGet.FetchSucceeds | src/Model/Entity.ts:454-464 | when every listed id is stored, the loop does not fail and adds one GetEntity per id, in order, to the log |
| RegistryGet.FetchKeepsMatches | src/Model/Entity.ts:454-460 | the loop keeps the matching entities in listing order |
| RegistryGet.FetchRegistersNames | src/Model/Entity.ts:462-463 | the loop registers every fetched name under its id, later entities winning |
| RegistryGet.RegisterMapsNames | src/Model/Entity.ts:463 | every fetched name is registered, every changed entry is the id of an entity of that name, and other names keep their entry |
| RegistryGet.RegisterStoredEntities | src/Model/Entity.ts:454-464 | the same, stated for stored entities |
| RegistryGet.Render | src/Model/Entity.ts:468-485 | the output loop gives one text listing in debug mode, else one card per entity in order |
| RegistryGet.Get | src/Model/Entity.ts:418-499 | the whole command ends in the state `GetSpec` describes |
| RegistryGet.GetEmptyCases | src/Model/Entity.ts:424-447 | without an application, no call; for an application without entities, "This app contains no Entities." after only the listing call |
| RegistryGet.GetRegistersEveryEntity | src/Model/Entity.ts:454-464 | every entity of the application is registered in the lookup, matching or not; the entities are unchanged |
| RegistryGet.GetFetchesMatches | src/Model/Entity.ts:452-464 | after the listing, fetching succeeds and keeps exactly the matches |
| RegistryGet.GetPlainResponses | src/Model/Entity.ts:469-491 | outside debug mode the answer is the sorted cards, or "No Entities match your query." when there are none |
| RegistryGet.SortedCardsFacts | src/Model/Entity.ts:466-479 | the listed entities are ordered and a permutation of the matches, and there are cards exactly when there are matches |
| RegistryGet.GetListsMatchesSorted | src/Model/Entity.ts:452-491 | outside debug mode Get lists exactly the entities whose lower-cased name contains the lower-cased search, sorted by lower-cased name, and says "No Entities match your query." exactly when there is none |
| RegistryGet.GetDebugAlwaysLists | src/Model/Entity.ts:471-485 | in debug mode the answer is always one text listing of the sorted matches, never the no-match message |
| Json.Get | src/TemplateProvider.ts:133 | `o[key]` finds a member exactly when one has the key |
| Json.Members | src/TemplateProvider.ts:139-144 | `for…in` visits an object's member values, an array's items, a string's characters, and nothing else |
| Json.Quote | src/TemplateProvider.ts:17 | a serialised string is enclosed in double quotes |
| Json.EscapeChar | src/TemplateProvider.ts:113 | an escaped character is short, holds a brace only when it is one, and a long escape is a control character |
| Json.OneCharQuote | src/TemplateProvider.ts:113 | a serialised one-character string is at most four characters or holds no brace |
| Mustache.MatchAt | src/TemplateProvider.ts:90 | a match at i starts at i, and its name lies strictly inside the braces |
| Mustache.MatchAtMatches | src/TemplateProvider.ts:90 | a greedy match is a match of `{{\s*[\w\.]+\s*}}` |
| Mustache.MatchAtIsTheRegexMatch | src/TemplateProvider.ts:90 | wherever the regular expression matches, the greedy reading finds that match |
| Mustache.SkipSpacesSpec | src/TemplateProvider.ts:90 | `\s*` passes only white space and stops at the first other character |
| Mustache.SkipNameSpec | src/TemplateProvider.ts:90 | `[\w\.]+` passes only name characters and stops at the first other character |
| Mustache.Scan | src/TemplateProvider.ts:90 | the global match reports matches at or after i, each inside the text |
| Mustache.ScanMatches | src/TemplateProvider.ts:90 | each reported match is the match found at its start |
| Mustache.NoOverlap | src/TemplateProvider.ts:90 | no match starts inside another |
| Mustache.ScanComplete | src/TemplateProvider.ts:90 | every match at or after i is reported |
| Mustache.ScanOrdered | src/TemplateProvider.ts:90 | matches are reported left to right without overlap |
| Mustache.NamesFromScan | src/TemplateProvider.ts:90-92 | the names are those of the reported matches, one per match, in order |
| Mustache.ScanNameOccurs | src/TemplateProvider.ts:90-92 | each reported name is carried by a match in the text |
| Mustache.OccurringNameScanned | src/TemplateProvider.ts:90-92 | each match's name is reported |
| Mustache.ArgumentNamesAreTheOccurringNames | src/TemplateProvider.ts:87-96 | a name is returned exactly when some `{{ … }}` match carries it |
| Mustache.ArgumentNamesAreNameRuns | src/TemplateProvider.ts:92 | each returned name is a non-empty run of word characters and dots |
| Mustache.ArgumentNamesEmpty | src/TemplateProvider.ts:91-95 | the result is empty exactly when nothing matches |
| Mustache.ScanIndexOrder | src/TemplateProvider.ts:90 | a later match index is a later position |
| Mustache.FirstScanIndexIsFirstPosition | src/TemplateProvider.ts:90-92 | a name's first match index is its first position in the text |
| Mustache.ArgumentNamesInTextOrder | src/TemplateProvider.ts:87-96 | names come in the order of their first occurrences: the earlier name occurs before any occurrence of the later one |
| Mustache.ScanNeedsOpening | src/TemplateProvider.ts:90 | without two adjacent opening braces nothing matches |
| Mustache.ScanNeedsLength | src/TemplateProvider.ts:90 | text shorter than `{{x}}` has no match |
| Render.ReplaceAll | src/TemplateProvider.ts:26 | text without the pattern is unchanged |
| Render.SplitOn | src/TemplateProvider.ts:26 | the pieces between the occurrences contain no occurrence |
| Render.SplitOnJoin | src/TemplateProvider.ts:26 | joining the pieces with the pattern gives the text back |
| Render.ReplaceAllIsJoin | src/TemplateProvider.ts:26 | replacing every occurrence puts the value where each occurrence was and keeps everything between them |
| Render.ReplaceAllKeepsOtherToken | src/TemplateProvider.ts:26 | replacing `{{a}}` keeps every `{{b}}` of another name |
| Render.FindArgument | src/TemplateProvider.ts:22 | `arguments.find`: none exactly when no argument has the name, else the first argument with that name |
| Render.GetTemplate | src/TemplateProvider.ts:98-100 | the file `name.json` when it exists, else a failure |
| Render.RenderTemplate | src/TemplateProvider.ts:12-30 | the loop yields the text `RenderSpec` describes, and fails exactly when the template file is missing |
| Render.SubstitutePass | src/TemplateProvider.ts:21-28 | a pass for a name with an argument replaces every `{{name}}` by the substituted value of its first argument; a pass for a name without one changes nothing |
| Render.SubstituteKeepsUnsupplied | src/TemplateProvider.ts:21-28 | a placeholder no argument supplies survives every pass |
| Render.RenderKeepsUnsuppliedPlaceholders | src/TemplateProvider.ts:12-30 | a placeholder of the template no argument supplies is left literally in the rendered text |
| Render.TokensApart | src/TemplateProvider.ts:26 | the placeholders of two different names never overlap in any text |
| Render.ReplaceAllKeepsApart | src/TemplateProvider.ts:26 | replacing every `{{a}}` keeps each occurrence of a pattern that `{{a}}` cannot overlap |
| Render.SubstituteKeepsApart | src/TemplateProvider.ts:21-28 | such an occurrence survives every pass of the substitution loop |
| Render.SpacedApart | src/TemplateProvider.ts:26 | no `{{a}}` overlaps a spaced placeholder `{{ n }}` |
| Render.SpacedIsArgument | src/TemplateProvider.ts:90-92 | the name of a spaced placeholder is among the argument names |
| Render.RenderKeepsSpacedPlaceholders | src/TemplateProvider.ts:12-30 | a spaced placeholder's name is an argument name, yet the placeholder is left literally in the rendered text whatever the arguments |
| Templates.GetVarNames | src/TemplateProvider.ts:109-121 | the loop collects the names of the serialised non-object members, in order |
| Templates.MemberNamesIff | src/TemplateProvider.ts:111-117 | a name is collected exactly when it is a placeholder name in the serialisation of a member that is not object-typed |
| Templates.StringHasNoVariables | src/TemplateProvider.ts:111-117 | a string yields no variable names: each of its indices holds one character |
| Templates.Typed | src/TemplateProvider.ts:132-135 | one variable per collected name, in order, each carrying the type read from the object |
| Templates.TypedIff | src/TemplateProvider.ts:132-135 | a variable is produced exactly when its key is a name and its type is the declared type |
| Templates.Walk | src/TemplateProvider.ts:123-154 | the corrected walk never fails |
| Templates.WalkVisits | src/TemplateProvider.ts:123-154 | the walk as written fails exactly when it visits a `null`; otherwise it and the corrected walk collect the contributions of the visited values in visiting order |
| Templates.WalkFieldsVisit | src/TemplateProvider.ts:139-151 | the same over an object's members |
| Templates.WalkMemberVisits | src/TemplateProvider.ts:143-150 | the same for one member |
| Templates.WalkSeqVisits | src/TemplateProvider.ts:144-146 | the same over a sequence of items |
| Templates.WalkSubmitIff | src/TemplateProvider.ts:125-127 | the flag is set exactly when some visited value has a truthy `data.submit` |
| Templates.WalkVariablesIff | src/TemplateProvider.ts:123-154 | a variable is collected exactly when a visited value has its key among its own member names and declares its type |
| Templates.WalkAsWrittenFailsOnVisitedNull | src/TemplateProvider.ts:125-149 | the code as written throws exactly on templates in which it visits a `null`, and agrees with the corrected walk otherwise |
| Templates.WalkAsWrittenFailsOnNullMember | src/TemplateProvider.ts:148-149 | `{"body": null}` makes the code as written throw, while the corrected walk succeeds |
| Templates.GetTemplateVariables | src/TemplateProvider.ts:123-154 | the recursive walk returns the variables of the corrected walk, and sets the flag when the walk finds a submit item |
| Templates.TypeVariables | src/TemplateProvider.ts:131-136 | the push loop gives the typed names |
| Templates.VisitFields | src/TemplateProvider.ts:139-151 | the member loop over an object appends the members' variables and flag |
| Templates.VisitArray | src/TemplateProvider.ts:139-151 | the member loop over an array appends the members' variables and flag |
| Templates.VisitMember | src/TemplateProvider.ts:143-150 | an array member's items are walked one by one, other object-typed members walked, the rest skipped |
| Templates.VisitItems | src/TemplateProvider.ts:144-146 | the items of an array member are walked in order |
| Templates.KeyIndex | src/TemplateProvider.ts:70 | `unique.find` by key: an index holding the key, or none when no entry has it |
| Templates.KeyIndexFinds | src/TemplateProvider.ts:70 | the lookup finds a key exactly when it is among the keys |
| Templates.UniqueTemplateVariables | src/TemplateProvider.ts:62-85 | the merged variables of the corrected walk, with the flag |
| Templates.MergeVariables | src/TemplateProvider.ts:68-84 | the merging loop yields `Unique` of the collected variables |
| Templates.UniqueKeys | src/TemplateProvider.ts:68-84 | the keys of the merged list are the distinct keys, in first-occurrence order |
| Templates.UniqueTypes | src/TemplateProvider.ts:71-78 | each entry's type is the left-to-right merge of every type given to its key |
| Templates.MergeAllFirstType | src/TemplateProvider.ts:73-77 | a key's type is its first non-null type when that is non-empty: earlier nulls are filled and later conflicting types ignored |
| Templates.MergeAllNone | src/TemplateProvider.ts:73-77 | a key whose types are all null gets no type |
| Templates.GetTemplatesNames | src/TemplateProvider.ts:102-107 | no returned name contains a dot |
| Templates.TemplatesNamesIff | src/TemplateProvider.ts:104-105 | a name is returned exactly when it is the prefix before the first dot of some file name ending in `.json` |
| Templates.TemplateNameRoundTrip | src/TemplateProvider.ts:98-105 | a name without a dot names its own file again |
| Templates.FirstMissing | src/TemplateProvider.ts:35-36 | the first name without a template file, or none when every file exists |
| Templates.GetTemplates | src/TemplateProvider.ts:32-59 | the loop yields, for the names derived from the directory listing, the failure of the first missing file, or one entry per name, in order |
| Templates.AppendTemplate | src/TemplateProvider.ts:36-55 | one pass of the loop extends the entries by the entry of that file |
| Templates.LoadTemplate | src/TemplateProvider.ts:38-54 | the entry of one file, with the flag cleared before its walk |
| Templates.ValidationErrorIff | src/TemplateProvider.ts:38-44 | an entry has no validation error exactly when some value its walk visits has a truthy `data.submit` |

`Entities.ParseCommand` states the following:

- An empty command gets the "must provide an entity name" message.
- A non-empty task suffix that the lookup cannot resolve gets "Task … not found".
- Every other command is accepted; these two are the only rejections:
  - the name is the text before the first `//`, with every `#` and `~` removed;
  - the task is the second piece;
  - the bucket and negatable flags say whether the command contains the markers;
  - a task is resolved through the lookup;
  - a new entity that is given no type gets the type LUIS;
  - an edit that is given no type keeps the type empty and the prebuilt name null; every edit branch then sends that null prebuilt name on;
  - a given type is upper-cased: LOCAL and LUIS stay kinds, any other value becomes a LUIS prebuilt of that name.

## Left out

- The remote client (`BlisClient`) and conversation memory (`BlisMemory`) are not part of this model.
  - They appear only through the operations the registry calls. `RemoteStore.Store` stands for the service and `Memory.BotMemory` for the lookup.
  - The service mints ids as `ent<counter>`.
  - The service fails only for an unknown id. Network failures are not modelled.
- Hero cards, `Menu.AddEditCards`, `Menu.EditCards`, `Menu.Home` and `Utils.MakeHero` become small response tags.
  - The edit cards that Add and Delete append, and the `null, Menu.Home()` that Get appends, are not modelled.
  - The buttons on Add's cards are not modelled; `Entities.Buttons` states them for the listing cards.
- `BlisApp.HaveApp` is a boolean parameter. `BlisDebug` logging is left out.
- `Entity.toText` and the instance `Description()` are left out. `toText` is a bare GetEntity lookup; `Description()` delegates to the static `Description`, which is modelled.
- An exception from the service becomes an `Error` response carrying the failure's message. The formatting done by `BlisDebug.Error` is not modelled.
- Retraining after Add returns the model id. `context.SetState` is not modelled. A training failure is ignored, as in the source.
- `GetEntities` returns the ids directly. The `JSON.parse(json)['ids']` step is not modelled.
- `toLowerCase` and `toUpperCase` are modelled on ASCII letters only.
- String `<` compares characters. JavaScript compares UTF-16 code units, so the two can differ only outside the Basic Multilingual Plane.
- EntitySort.Sort: the model is a stable insertion sort. The JavaScript engine's own algorithm is not modelled; an engine whose sort is not stable could order entities with equal lower-cased names differently.
- RegistryDelete.InUse: `JSON.stringify` of the exported application is a function parameter `serialise`.
- Render.RenderTemplate: the result is the text handed to `JSON.parse`. The parse itself, and a failure of the parse, are not modelled.
- Render.ReplaceAll: `replace(new RegExp('{{name}}', 'g'), value)` is modelled as literal replace-all. Three RegExp effects are not modelled:
  - a `.` in a name matches any character;
  - a name made only of digits turns the inner `{n}` into a quantifier, so for the name `1` the pattern matches `{}` (for example an empty object in the template) and leaves `{{1}}` in place;
  - `$` sequences in the value are special.
- `memory.BotMemory.SubstituteEntities` is a deterministic function parameter `subst`. Its asynchrony is left out.
- `fs.readdirSync` of the template directory is a file-name parameter.
- `require` of a template file is a lookup in a map from file name to parsed JSON. Malformed JSON is not modelled. The second `GetTemplate` of a file in `GetTemplates` returns the same value, as `require`'s cache does.
- JSON numbers are integers; fractions and exponents are not modelled.
- Json.Get: objects are taken to have distinct keys. The lookup finds the first member with a key, while `JSON.parse` keeps the last.
- `for…in` visits, and Json.Stringify writes, an object's members in their written order. JavaScript visits and `JSON.stringify` writes integer-like keys first, in ascending order. For an object with such keys this changes the body text and the order of the argument names.
- A `type` member that is not a string is read as absent. The source would copy the value as it is.
- The `hasOwnProperty` check always passes on parsed JSON, so it is not modelled.
- The static `hasSumbitItem` flag is a boolean passed into and out of the walk.
- Concurrency is left out. Every `await` is a sequential call.

## Findings

| source | as written | input that shows it | evidently intended | confidence | as-written member | corrected member |
|---|---|---|---|---|---|---|
| src/TemplateProvider.ts:148-149 | `typeof null == 'object'`, so a `null` member (or a `null` array item, line 144-145) is walked, and `template.data` at line 125 then throws a TypeError that aborts the whole catalogue | the template `{"body": null}` | a `null` member, like any other value without properties, contributes nothing | medium; not executed | Templates.WalkAsWrittenFailsOnNullMember | Templates.GetTemplateVariables |

The walk as written is `Templates.Walk(t, false)`. `Templates.WalkAsWrittenFailsOnVisitedNull` shows that it fails exactly on templates in which it visits a `null`, and that it agrees with the corrected walk on every other template. The rest of the model uses the corrected walk, `Walk(t, true)`, which skips `null`.
