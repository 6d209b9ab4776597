/** The entity registry's listing command (`Entity.Get`): fetch every entity, register
    every name in the memory lookup, keep the entities whose name contains the search,
    sort them by name and render them as cards or, in debug mode, as one text. */
module RegistryGet {
  import opened Wrappers
  import opened Strings
  import opened Entities
  import opened RemoteStore
  import opened Memory
  import opened Registry
  import opened EntitySort

  const NoEntitiesMessage := "This app contains no Entities."

  const NoMatchMessage := "No Entities match your query."

  const ListingHead := "**Entities**\n\n"

  /** Whether the listing is in debug mode, and the search with the first debug marker
      removed (`search.replace(DEBUG, "")`). */
  function SearchOf(k: Consts, search: string): (r: (bool, string))
    ensures r.0 <==> search != "" && Contains(search, k.debug)
    ensures !r.0 ==> r.1 == search
    ensures r.0 && |k.debug| > 0 ==> r.1 == Before(search, k.debug) + After(search, k.debug).value
  {
    var debug := search != "" && Contains(search, k.debug);
    // Replacing the empty pattern inserts "" at the front, which changes nothing.
    (debug, if debug && |k.debug| > 0 then ReplaceFirst(search, k.debug, "") else search)
  }

  /** `!search || entity.name.toLowerCase().indexOf(search) > -1`, with the search
      already lower-cased. */
  predicate Matches(needle: string, e: Entity)
  {
    needle == "" || Contains(ToLower(e.name), needle)
  }

  /** The state of the fetch loop: the first failure, if any, the matching entities so
      far, and the store and lookup. */
  datatype Fetch = Fetch(failure: Option<string>, matched: seq<Entity>, store: StoreState, lookup: map<string, string>)

  /** The fetch loop over ids (Entity.ts:453-463): GetEntity each id in turn, keep the
      matches and register every fetched name under the listed id; the first failure ends
      the loop. */
  function FetchSpec(s: StoreState, m: map<string, string>, ids: seq<string>, needle: string): Fetch
    decreases |ids|
  {
    if ids == [] then Fetch(None, [], s, m)
    else
      var f := FetchSpec(s, m, ids[..|ids| - 1], needle);
      if f.failure.Some? then f
      else
        var id := ids[|ids| - 1];
        var (g, s1) := GetEntityOp(f.store, id);
        match g
        case Failure(err) => Fetch(Some(err), f.matched, s1, f.lookup)
        case Success(e) =>
          Fetch(None, f.matched + (if Matches(needle, e) then [e] else []), s1, f.lookup[e.name := id])
  }

  /** One debug line: name, description and id. */
  function ListingLine(e: Entity): string
  {
    e.name + "  " + Description(e.entityType, e.luisPreName, e.metadata) + " " + e.id + "\n\n"
  }

  /** The debug listing: the heading, then one line per entity. */
  function Listing(es: seq<Entity>): string
    decreases |es|
  {
    if es == [] then ListingHead else Listing(es[..|es| - 1]) + ListingLine(es[|es| - 1])
  }

  /** The card of a listed entity, with its edit/delete buttons. */
  function Card(k: Consts, e: Entity): Response
  {
    Listed(e.name, Description(e.entityType, e.luisPreName, e.metadata), Buttons(k, e.name, e.id))
  }

  function Cards(k: Consts, es: seq<Entity>): (r: seq<Response>)
    ensures |r| == |es|
    decreases |es|
  {
    if es == [] then [] else Cards(k, es[..|es| - 1]) + [Card(k, es[|es| - 1])]
  }

  /** `Entity.Get` (Entity.ts:418-499). */
  function GetSpec(s: StoreState, m: map<string, string>, k: Consts, haveApp: bool, search: string): Outcome
  {
    if !haveApp then Outcome([NoApp], s, m)
    else
      var (debug, rest) := SearchOf(k, search);
      var (ids, s1) := GetEntitiesOp(s);
      if |ids| == 0 then Outcome([Info(NoEntitiesMessage)], s1, m)
      else
        // Lower-casing "" gives "", so the guard `if (search)` needs no branch.
        var f := FetchSpec(s1, m, ids, ToLower(rest));
        if f.failure.Some? then Outcome([Error(f.failure.value)], f.store, f.lookup)
        else
          var sorted := SortedByName(f.matched);
          var responses := if debug then [Text(Listing(sorted))] else Cards(k, sorted);
          if |responses| == 0 then Outcome([Info(NoMatchMessage)], f.store, f.lookup)
          else Outcome(responses, f.store, f.lookup)
  }

  /** A failure ends the fetch loop: the state at the failure is the final state. */
  lemma {:induction false} FetchStopsAtFailure(s: StoreState, m: map<string, string>, ids: seq<string>,
                                               n: nat, needle: string)
    requires n <= |ids| && FetchSpec(s, m, ids[..n], needle).failure.Some?
    ensures FetchSpec(s, m, ids, needle) == FetchSpec(s, m, ids[..n], needle)
    decreases |ids| - n
  {
    if n < |ids| {
      assert ids[..n + 1][..n] == ids[..n];
      FetchStopsAtFailure(s, m, ids, n + 1, needle);
    } else {
      assert ids[..n] == ids;
    }
  }

  /** The fetch loop as a loop. */
  method FetchAll(store: Store, memory: BotMemory, ids: seq<string>, needle: string)
    returns (failure: Option<string>, matched: seq<Entity>)
    modifies store, memory
    ensures Fetch(failure, matched, store.State(), memory.lookup)
            == FetchSpec(old(store.State()), old(memory.lookup), ids, needle)
  {
    ghost var s0, m0 := store.State(), memory.lookup;
    matched := [];
    var i := 0;
    while i < |ids|
      invariant 0 <= i <= |ids|
      invariant FetchSpec(s0, m0, ids[..i], needle) == Fetch(None, matched, store.State(), memory.lookup)
    {
      assert ids[..i + 1][..i] == ids[..i];
      var g := store.GetEntity(ids[i]);
      if g.Failure? {
        FetchStopsAtFailure(s0, m0, ids, i + 1, needle);
        return Some(g.error), matched;
      }
      var entity := g.value;
      if Matches(needle, entity) {
        matched := matched + [entity];
      }
      memory.AddEntityLookup(entity.name, ids[i]);
      i := i + 1;
    }
    assert ids[..i] == ids;
    failure := None;
  }

  lemma RenderStep(k: Consts, sorted: seq<Entity>, j: nat)
    requires j < |sorted|
    ensures Listing(sorted[..j + 1]) == Listing(sorted[..j]) + ListingLine(sorted[j])
    ensures Cards(k, sorted[..j + 1]) == Cards(k, sorted[..j]) + [Card(k, sorted[j])]
  {
    assert sorted[..j + 1][..j] == sorted[..j];
  }

  /** The output loop (Entity.ts:468-485). */
  method Render(k: Consts, debug: bool, sorted: seq<Entity>) returns (responses: seq<Response>)
    ensures responses == if debug then [Text(Listing(sorted))] else Cards(k, sorted)
  {
    var msg := ListingHead;
    responses := [];
    var j := 0;
    while j < |sorted|
      invariant 0 <= j <= |sorted|
      invariant debug ==> msg == Listing(sorted[..j]) && responses == []
      invariant !debug ==> responses == Cards(k, sorted[..j])
    {
      var e := sorted[j];
      RenderStep(k, sorted, j);
      if debug {
        msg := msg + ListingLine(e);
      } else {
        responses := responses + [Card(k, e)];
      }
      j := j + 1;
    }
    assert sorted[..j] == sorted;
    if debug {
      responses := responses + [Text(msg)];
    }
  }

  /** `Entity.Get`. */
  method Get(store: Store, memory: BotMemory, k: Consts, haveApp: bool, search: string)
    returns (responses: seq<Response>)
    modifies store, memory
    ensures Outcome(responses, store.State(), memory.lookup)
            == GetSpec(old(store.State()), old(memory.lookup), k, haveApp, search)
  {
    if !haveApp {
      return [NoApp];
    }
    var (debug, rest) := SearchOf(k, search);
    var ids := store.GetEntities();
    if |ids| == 0 {
      return [Info(NoEntitiesMessage)];
    }
    var failure, matched := FetchAll(store, memory, ids, ToLower(rest));
    if failure.Some? {
      return [Error(failure.value)];
    }
    var entities := new Entity[|matched|](i requires 0 <= i < |matched| => matched[i]);
    assert entities[..] == matched;
    Sort(entities);
    responses := Render(k, debug, entities[..]);
    if |responses| == 0 {
      return [Info(NoMatchMessage)];
    }
  }

  // ---------------------------------------------------------------------------------
  // Properties of the listing command.

  /** The entities of a list of ids, in that order. */
  function EntitiesOf(s: StoreState, ids: seq<string>): (r: seq<Entity>)
    requires forall id :: id in ids ==> id in s.entities
    ensures |r| == |ids| && forall i :: 0 <= i < |ids| ==> r[i] == s.entities[ids[i]]
    decreases |ids|
  {
    if ids == [] then [] else EntitiesOf(s, ids[..|ids| - 1]) + [s.entities[ids[|ids| - 1]]]
  }

  /** The entities that match. */
  function Filter(needle: string, es: seq<Entity>): (r: seq<Entity>)
    ensures forall e :: e in r <==> e in es && Matches(needle, e)
    decreases |es|
  {
    if es == [] then []
    else
      var init, last := es[..|es| - 1], es[|es| - 1];
      assert es == init + [last];
      Filter(needle, init) + (if Matches(needle, last) then [last] else [])
  }

  /** Every entity's name registered under its id, later entities winning. */
  function Register(m: map<string, string>, es: seq<Entity>): map<string, string>
    decreases |es|
  {
    if es == [] then m else Register(m, es[..|es| - 1])[es[|es| - 1].name := es[|es| - 1].id]
  }

  /** The GetEntity calls for a list of ids. */
  function GetCalls(ids: seq<string>): (r: seq<Call>)
    ensures |r| == |ids|
    decreases |ids|
  {
    if ids == [] then [] else GetCalls(ids[..|ids| - 1]) + [GetCall(ids[|ids| - 1])]
  }

  /** When every listed id is stored, the fetch loop does not fail and changes nothing
      but the log, to which it adds one GetEntity call per id. */
  lemma {:induction false} FetchSucceeds(s: StoreState, m: map<string, string>, ids: seq<string>, needle: string)
    requires forall id :: id in ids ==> id in s.entities
    ensures FetchSpec(s, m, ids, needle).failure.None?
    ensures FetchSpec(s, m, ids, needle).store == s.(log := s.log + GetCalls(ids))
    decreases |ids|
  {
    if ids != [] {
      var init, id := ids[..|ids| - 1], ids[|ids| - 1];
      assert forall x :: x in init ==> x in ids;
      FetchSucceeds(s, m, init, needle);
      assert s.log + GetCalls(init) + [GetCall(id)] == s.log + GetCalls(ids);
    }
  }

  /** ... keeps the matching entities in listing order ... */
  lemma {:induction false} FetchKeepsMatches(s: StoreState, m: map<string, string>, ids: seq<string>, needle: string)
    requires forall id :: id in ids ==> id in s.entities
    ensures FetchSpec(s, m, ids, needle).matched == Filter(needle, EntitiesOf(s, ids))
    decreases |ids|
  {
    if ids != [] {
      var init, id := ids[..|ids| - 1], ids[|ids| - 1];
      assert forall x :: x in init ==> x in ids;
      FetchKeepsMatches(s, m, init, needle);
      FetchSucceeds(s, m, init, needle);
      var es, e := EntitiesOf(s, init), s.entities[id];
      var f := FetchSpec(s, m, init, needle);
      assert f.store.entities == s.entities;
      assert FetchSpec(s, m, ids, needle).matched == f.matched + (if Matches(needle, e) then [e] else []);
      assert EntitiesOf(s, ids) == es + [e];
      FilterSnoc(needle, es, e);
    }
  }

  lemma FilterSnoc(needle: string, es: seq<Entity>, e: Entity)
    ensures Filter(needle, es + [e]) == Filter(needle, es) + (if Matches(needle, e) then [e] else [])
  {
    assert (es + [e])[..|es|] == es;
  }

  /** ... and registers every fetched name under its id. */
  lemma {:induction false} FetchRegistersNames(s: StoreState, m: map<string, string>, ids: seq<string>, needle: string)
    requires SelfKeyed(s) && forall id :: id in ids ==> id in s.entities
    ensures FetchSpec(s, m, ids, needle).lookup == Register(m, EntitiesOf(s, ids))
    decreases |ids|
  {
    if ids != [] {
      var init, id := ids[..|ids| - 1], ids[|ids| - 1];
      assert forall x :: x in init ==> x in ids;
      FetchRegistersNames(s, m, init, needle);
      FetchSucceeds(s, m, init, needle);
      var es, e := EntitiesOf(s, init), s.entities[id];
      var f := FetchSpec(s, m, init, needle);
      assert f.store.entities == s.entities;
      assert FetchSpec(s, m, ids, needle).lookup == f.lookup[e.name := id];
      assert EntitiesOf(s, ids) == es + [e];
      RegisterSnoc(m, es, e);
    }
  }

  lemma RegisterSnoc(m: map<string, string>, es: seq<Entity>, e: Entity)
    ensures Register(m, es + [e]) == Register(m, es)[e.name := e.id]
  {
    assert (es + [e])[..|es|] == es;
  }

  lemma {:induction false} RegisterMapsNames(m: map<string, string>, es: seq<Entity>)
    ensures forall i :: 0 <= i < |es| ==> es[i].name in Register(m, es)
    ensures forall name :: name in Register(m, es) && Register(m, es)[name] != (if name in m then m[name] else "") ==>
              exists i :: 0 <= i < |es| && es[i].name == name && Register(m, es)[name] == es[i].id
    ensures forall name :: (forall i :: 0 <= i < |es| ==> es[i].name != name) ==>
              (name in Register(m, es) <==> name in m) && (name in m ==> Register(m, es)[name] == m[name])
    decreases |es|
  {
    if es != [] {
      var init, last := es[..|es| - 1], es[|es| - 1];
      RegisterMapsNames(m, init);
      forall i | 0 <= i < |es| - 1 ensures es[i] == init[i] { }
      var r := Register(m, es);
      forall name | name in r && r[name] != (if name in m then m[name] else "")
        ensures exists i :: 0 <= i < |es| && es[i].name == name && r[name] == es[i].id
      {
        if name == last.name {
          assert es[|es| - 1].name == name && r[name] == es[|es| - 1].id;
        } else {
          var i :| 0 <= i < |init| && init[i].name == name && Register(m, init)[name] == init[i].id;
          assert es[i] == init[i];
        }
      }
    }
  }

  /** Without an application Get makes no call; with an empty application it answers
      "This app contains no Entities." after listing. */
  lemma GetEmptyCases(s: StoreState, m: map<string, string>, k: Consts, haveApp: bool, search: string)
    ensures !haveApp ==> GetSpec(s, m, k, haveApp, search) == Outcome([NoApp], s, m)
    ensures haveApp && s.order == [] ==>
      GetSpec(s, m, k, haveApp, search) == Outcome([Info(NoEntitiesMessage)], s.(log := s.log + [ListCall]), m)
  {
  }

  /** Registering the entities of some stored ids: every one of their names maps to a
      stored entity of that name, and other names keep their entry. */
  lemma RegisterStoredEntities(s: StoreState, m: map<string, string>, ids: seq<string>)
    requires SelfKeyed(s) && forall id :: id in ids ==> id in s.entities
    ensures var r := Register(m, EntitiesOf(s, ids));
            && (forall id :: id in ids ==> s.entities[id].name in r)
            && (forall name :: name in r && r[name] != (if name in m then m[name] else "") ==>
                  r[name] in s.entities && s.entities[r[name]].name == name)
            && (forall name :: (forall id :: id in ids ==> s.entities[id].name != name) ==>
                  (name in r <==> name in m) && (name in m ==> r[name] == m[name]))
  {
    var es := EntitiesOf(s, ids);
    var r := Register(m, es);
    RegisterMapsNames(m, es);
    forall id | id in ids ensures s.entities[id].name in r {
      var i :| 0 <= i < |ids| && ids[i] == id;
      assert es[i].name == s.entities[id].name;
    }
    forall name | name in r && r[name] != (if name in m then m[name] else "")
      ensures r[name] in s.entities && s.entities[r[name]].name == name
    {
      var i :| 0 <= i < |es| && es[i].name == name && r[name] == es[i].id;
      assert es[i] == s.entities[ids[i]];
    }
    forall name | forall id :: id in ids ==> s.entities[id].name != name
      ensures (name in r <==> name in m) && (name in m ==> r[name] == m[name])
    {
      forall i | 0 <= i < |es| ensures es[i].name != name {
        assert ids[i] in ids;
      }
    }
  }

  /** Every entity of the application is registered in the lookup, whether or not it
      matches: its name then maps to a stored entity of that name. Names of no entity
      keep their old entry, and the entities themselves are unchanged. */
  lemma GetRegistersEveryEntity(s: StoreState, m: map<string, string>, k: Consts, search: string)
    requires ValidState(s) && s.order != []
    ensures var o := GetSpec(s, m, k, true, search);
            && o.store.entities == s.entities
            && (forall id :: id in s.entities ==> s.entities[id].name in o.lookup)
            && (forall name :: name in o.lookup && o.lookup[name] != (if name in m then m[name] else "") ==>
                  o.lookup[name] in s.entities && s.entities[o.lookup[name]].name == name)
            && (forall name :: (forall id :: id in s.entities ==> s.entities[id].name != name) ==>
                  (name in o.lookup <==> name in m) && (name in m ==> o.lookup[name] == m[name]))
  {
    var s1 := GetEntitiesOp(s).1;
    var needle := ToLower(SearchOf(k, search).1);
    FetchSucceeds(s1, m, s.order, needle);
    FetchRegistersNames(s1, m, s.order, needle);
    var f := FetchSpec(s1, m, s.order, needle);
    var o := GetSpec(s, m, k, true, search);
    assert o.lookup == f.lookup && o.store == f.store;
    RegisterStoredEntities(s1, m, s.order);
  }

  /** Outside debug mode Get lists, as cards sorted by lower-cased name, exactly the
      entities whose lower-cased name contains the lower-cased search, and says "No
      Entities match your query." exactly when there is none. */
  lemma GetListsMatchesSorted(s: StoreState, m: map<string, string>, k: Consts, search: string)
    requires ValidState(s) && s.order != [] && !SearchOf(k, search).0
    ensures var o := GetSpec(s, m, k, true, search);
            var matched := Filter(ToLower(search), EntitiesOf(s, s.order));
            && (matched == [] ==> o.responses == [Info(NoMatchMessage)])
            && (matched != [] ==> o.responses == Cards(k, SortedByName(matched)))
            && SortedByKey(SortedByName(matched))
            && multiset(SortedByName(matched)) == multiset(matched)
  {
    var matched := Filter(ToLower(search), EntitiesOf(s, s.order));
    GetFetchesMatches(s, m, ToLower(search));
    GetPlainResponses(s, m, k, search, matched);
    SortedCardsFacts(k, matched);
  }

  /** Sorting keeps the entities and orders them; there are cards exactly when there
      are entities. */
  lemma SortedCardsFacts(k: Consts, es: seq<Entity>)
    ensures SortedByKey(SortedByName(es)) && multiset(SortedByName(es)) == multiset(es)
    ensures |Cards(k, SortedByName(es))| == 0 <==> es == []
  {
    SortedByNameIsSorted(es);
    SortedByNamePermutes(es);
    if es != [] {
      assert es[0] in multiset(SortedByName(es));
    }
  }

  /** After listing, fetching every listed entity succeeds and keeps the matching ones. */
  lemma GetFetchesMatches(s: StoreState, m: map<string, string>, needle: string)
    requires ValidState(s)
    ensures var f := FetchSpec(GetEntitiesOp(s).1, m, s.order, needle);
            f.failure.None? && f.matched == Filter(needle, EntitiesOf(s, s.order))
  {
    var s1 := GetEntitiesOp(s).1;
    FetchSucceeds(s1, m, s.order, needle);
    FetchKeepsMatches(s1, m, s.order, needle);
    assert EntitiesOf(s1, s.order) == EntitiesOf(s, s.order);
  }

  /** Outside debug mode, once the fetch has succeeded with `matched`, Get answers
      with their sorted cards, or with "No Entities match your query." when there are
      none. */
  lemma GetPlainResponses(s: StoreState, m: map<string, string>, k: Consts, search: string, matched: seq<Entity>)
    requires s.order != [] && !SearchOf(k, search).0
    requires FetchSpec(GetEntitiesOp(s).1, m, s.order, ToLower(search)).failure.None?
    requires FetchSpec(GetEntitiesOp(s).1, m, s.order, ToLower(search)).matched == matched
    ensures var cards := Cards(k, SortedByName(matched));
            GetSpec(s, m, k, true, search).responses == if |cards| == 0 then [Info(NoMatchMessage)] else cards
  {
    assert SearchOf(k, search) == (false, search);
  }

  /** In debug mode Get always answers with one text listing, never with "No Entities
      match your query.". */
  lemma GetDebugAlwaysLists(s: StoreState, m: map<string, string>, k: Consts, search: string)
    requires ValidState(s) && s.order != [] && SearchOf(k, search).0
    ensures var o := GetSpec(s, m, k, true, search);
            var matched := Filter(ToLower(SearchOf(k, search).1), EntitiesOf(s, s.order));
            o.responses == [Text(Listing(SortedByName(matched)))]
  {
    GetFetchesMatches(s, m, ToLower(SearchOf(k, search).1));
  }
}
