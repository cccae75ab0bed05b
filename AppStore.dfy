/** The application store of src/store/useAppStore.ts: the user's company lists, the saved
    searches, and the discovery filters. Every action computes the new value of one store
    field from the old one; the functions below are those computations and the class
    `Store` assigns their results to its fields, as the store's `set` does. Fresh ids
    (`crypto.randomUUID()`) and timestamps (`new Date().toISOString()`) are parameters. */
module AppStore {
  import opened Types
  import opened Seqs

  /** What a saved search remembers: the query text and the two facet selections. */
  datatype Filters = Filters(search: string, sectors: seq<string>, stages: seq<string>)

  datatype SavedSearch = SavedSearch(id: string, name: string, filters: Filters, savedAt: string)

  /** A user-defined list of company ids. */
  datatype List = List(id: string, name: string, companyIds: seq<string>, createdAt: string)

  function ListIds(lists: seq<List>): (r: seq<string>)
    ensures |r| == |lists|
    ensures forall i :: 0 <= i < |lists| ==> r[i] == lists[i].id
  {
    seq(|lists|, i requires 0 <= i < |lists| => lists[i].id)
  }

  function SearchIds(searches: seq<SavedSearch>): (r: seq<string>)
    ensures |r| == |searches|
    ensures forall i :: 0 <= i < |searches| ==> r[i] == searches[i].id
  {
    seq(|searches|, i requires 0 <= i < |searches| => searches[i].id)
  }

  /** What the store's actions keep true of the lists: ids are unique and no list holds
      a company id twice. */
  predicate ListsValid(lists: seq<List>) {
    NoDup(ListIds(lists)) && forall i :: 0 <= i < |lists| ==> NoDup(lists[i].companyIds)
  }

  // ---- createList --------------------------------------------------------------------

  /** `createList(name)`: one new, empty list at the end. */
  function ListsAfterCreate(lists: seq<List>, name: string, id: string, createdAt: string): (r: seq<List>)
    ensures |r| == |lists| + 1 && r[..|lists|] == lists
    ensures r[|lists|].id == id && r[|lists|].name == name && r[|lists|].companyIds == []
    ensures r[|lists|].createdAt == createdAt
  {
    lists + [List(id, name, [], createdAt)]
  }

  /** Creating a list under a fresh id keeps the store invariant. */
  lemma CreateKeepsValid(lists: seq<List>, name: string, id: string, createdAt: string)
    requires ListsValid(lists) && id !in ListIds(lists)
    ensures ListsValid(ListsAfterCreate(lists, name, id, createdAt))
  {
    var r := ListsAfterCreate(lists, name, id, createdAt);
    assert ListIds(r) == ListIds(lists) + [id];
    NoDupAppend(ListIds(lists), id);
  }

  // ---- deleteList --------------------------------------------------------------------

  /** `deleteList(id)`: exactly the lists whose id differs, in their order. */
  function ListsAfterDelete(lists: seq<List>, id: string): (r: seq<List>)
    ensures forall i :: 0 <= i < |r| ==> r[i] in lists && r[i].id != id
    ensures forall i :: 0 <= i < |lists| && lists[i].id != id ==> lists[i] in r
  {
    Filter((l: List) => l.id != id, lists)
  }

  /** Deleting an unknown id changes nothing. */
  lemma DeleteUnknownIsNoOp(lists: seq<List>, id: string)
    requires id !in ListIds(lists)
    ensures ListsAfterDelete(lists, id) == lists
  {
    assert forall i :: 0 <= i < |lists| ==> lists[i].id != id by {
      forall i | 0 <= i < |lists| ensures lists[i].id != id {
        assert ListIds(lists)[i] == lists[i].id;
      }
    }
    FilterKeepsAll((l: List) => l.id != id, lists);
  }

  /** Deleting twice is deleting once. */
  lemma DeleteIdempotent(lists: seq<List>, id: string)
    ensures ListsAfterDelete(ListsAfterDelete(lists, id), id) == ListsAfterDelete(lists, id)
  {
    FilterIdempotent((l: List) => l.id != id, lists);
  }

  /** The ids left after a delete are the old ids with the deleted one removed. */
  lemma {:induction false} DeleteIds(lists: seq<List>, id: string)
    ensures ListIds(ListsAfterDelete(lists, id)) == RemoveAll(ListIds(lists), id)
  {
    if lists != [] {
      var l, rest := lists[0], lists[1..];
      assert lists == [l] + rest;
      DeleteIds(rest, id);
      DeleteCons(l, rest, id);
      ListIdsCons(l, rest);
      RemoveAllCons(l.id, ListIds(rest), id);
      var after := ListsAfterDelete(rest, id);
      if l.id != id {
        ListIdsCons(l, after);
      } else {
        assert [] + after == after;
        assert [] + RemoveAll(ListIds(rest), id) == RemoveAll(ListIds(rest), id);
      }
    }
  }

  lemma ListIdsCons(l: List, rest: seq<List>)
    ensures ListIds([l] + rest) == [l.id] + ListIds(rest)
  {
  }

  /** `ListsAfterDelete` one list at a time. */
  lemma DeleteCons(l: List, rest: seq<List>, id: string)
    ensures ListsAfterDelete([l] + rest, id) == (if l.id != id then [l] else []) + ListsAfterDelete(rest, id)
  {
    var t := [l] + rest;
    assert t[0] == l && t[1..] == rest;
  }

  lemma DeleteKeepsValid(lists: seq<List>, id: string)
    requires ListsValid(lists)
    ensures ListsValid(ListsAfterDelete(lists, id))
  {
    DeleteIds(lists, id);
    RemoveAllNoDup(ListIds(lists), id);
    var r := ListsAfterDelete(lists, id);
    forall i | 0 <= i < |r| ensures NoDup(r[i].companyIds) {
      MemberHasNoDup(lists, r[i]);
    }
  }

  lemma MemberHasNoDup(lists: seq<List>, l: List)
    requires ListsValid(lists) && l in lists
    ensures NoDup(l.companyIds)
  {
    var j :| 0 <= j < |lists| && lists[j] == l;
  }

  // ---- addToList ---------------------------------------------------------------------

  function AddedTo(l: List, listId: string, companyId: string): List {
    if l.id == listId && companyId !in l.companyIds
    then l.(companyIds := l.companyIds + [companyId])
    else l
  }

  /** `addToList(listId, companyId)`: only lists with the given id change; in each of them
      the old ids stay first, in order, and `companyId` becomes a member, appended at the
      end exactly when it was absent. */
  function ListsAfterAdd(lists: seq<List>, listId: string, companyId: string): (r: seq<List>)
    ensures |r| == |lists|
    ensures forall i :: 0 <= i < |lists| && lists[i].id != listId ==> r[i] == lists[i]
    ensures forall i :: 0 <= i < |lists| && lists[i].id == listId ==>
      && r[i].id == lists[i].id && r[i].name == lists[i].name && r[i].createdAt == lists[i].createdAt
      && companyId in r[i].companyIds
      && |r[i].companyIds| == |lists[i].companyIds| + (if companyId in lists[i].companyIds then 0 else 1)
      && r[i].companyIds[..|lists[i].companyIds|] == lists[i].companyIds
  {
    seq(|lists|, i requires 0 <= i < |lists| => AddedTo(lists[i], listId, companyId))
  }

  /** Adding the same company twice is adding it once. */
  lemma AddIdempotent(lists: seq<List>, listId: string, companyId: string)
    ensures ListsAfterAdd(ListsAfterAdd(lists, listId, companyId), listId, companyId)
         == ListsAfterAdd(lists, listId, companyId)
  {
  }

  /** Adding never introduces a duplicate id into a list, and keeps the invariant. */
  lemma AddKeepsValid(lists: seq<List>, listId: string, companyId: string)
    requires ListsValid(lists)
    ensures ListsValid(ListsAfterAdd(lists, listId, companyId))
  {
    var r := ListsAfterAdd(lists, listId, companyId);
    assert ListIds(r) == ListIds(lists);
    forall i | 0 <= i < |r| ensures NoDup(r[i].companyIds) {
      if lists[i].id == listId && companyId !in lists[i].companyIds {
        NoDupAppend(lists[i].companyIds, companyId);
      }
    }
  }

  // ---- removeFromList ----------------------------------------------------------------

  function RemovedFrom(l: List, listId: string, companyId: string): List {
    if l.id == listId then l.(companyIds := RemoveAll(l.companyIds, companyId)) else l
  }

  /** `removeFromList(listId, companyId)`: only lists with the given id change, and in each
      of them every occurrence of `companyId`, and nothing else, is removed. */
  function ListsAfterRemove(lists: seq<List>, listId: string, companyId: string): (r: seq<List>)
    ensures |r| == |lists|
    ensures forall i :: 0 <= i < |lists| && lists[i].id != listId ==> r[i] == lists[i]
    ensures forall i :: 0 <= i < |lists| && lists[i].id == listId ==>
      && r[i] == lists[i].(companyIds := RemoveAll(lists[i].companyIds, companyId))
      && companyId !in r[i].companyIds
  {
    seq(|lists|, i requires 0 <= i < |lists| => RemovedFrom(lists[i], listId, companyId))
  }

  lemma RemoveKeepsValid(lists: seq<List>, listId: string, companyId: string)
    requires ListsValid(lists)
    ensures ListsValid(ListsAfterRemove(lists, listId, companyId))
  {
    var r := ListsAfterRemove(lists, listId, companyId);
    assert ListIds(r) == ListIds(lists);
    forall i | 0 <= i < |r| ensures NoDup(r[i].companyIds) {
      if lists[i].id == listId {
        RemoveAllNoDup(lists[i].companyIds, companyId);
      }
    }
  }

  /** Adding a company that no list with that id holds, then removing it again, restores
      the lists exactly. */
  lemma AddThenRemoveRestores(lists: seq<List>, listId: string, companyId: string)
    requires forall i :: 0 <= i < |lists| && lists[i].id == listId ==> companyId !in lists[i].companyIds
    ensures ListsAfterRemove(ListsAfterAdd(lists, listId, companyId), listId, companyId) == lists
  {
    var a := ListsAfterAdd(lists, listId, companyId);
    var r := ListsAfterRemove(a, listId, companyId);
    forall i | 0 <= i < |lists| ensures r[i] == lists[i] {
      if lists[i].id == listId {
        RemoveAllAppended(lists[i].companyIds, companyId);
        assert a[i].companyIds == lists[i].companyIds + [companyId];
      }
    }
  }

  // ---- saved searches ----------------------------------------------------------------

  /** `addSavedSearch(search)`: one new entry at the end, stamped with the id and time. */
  function SearchesAfterAdd(searches: seq<SavedSearch>, name: string, filters: Filters,
                            id: string, savedAt: string): (r: seq<SavedSearch>)
    ensures |r| == |searches| + 1 && r[..|searches|] == searches
    ensures r[|searches|] == SavedSearch(id, name, filters, savedAt)
  {
    searches + [SavedSearch(id, name, filters, savedAt)]
  }

  /** `removeSavedSearch(id)`: exactly the entries with a different id, in order. */
  function SearchesAfterRemove(searches: seq<SavedSearch>, id: string): (r: seq<SavedSearch>)
    ensures forall i :: 0 <= i < |r| ==> r[i] in searches && r[i].id != id
    ensures forall i :: 0 <= i < |searches| && searches[i].id != id ==> searches[i] in r
  {
    Filter((s: SavedSearch) => s.id != id, searches)
  }

  /** Saving under a fresh id keeps saved-search ids unique. */
  lemma AddSearchKeepsUnique(searches: seq<SavedSearch>, name: string, filters: Filters,
                             id: string, savedAt: string)
    requires NoDup(SearchIds(searches)) && id !in SearchIds(searches)
    ensures NoDup(SearchIds(SearchesAfterAdd(searches, name, filters, id, savedAt)))
  {
    assert SearchIds(SearchesAfterAdd(searches, name, filters, id, savedAt)) == SearchIds(searches) + [id];
    NoDupAppend(SearchIds(searches), id);
  }

  /** Removing a saved search keeps the ids unique. */
  lemma RemoveSearchKeepsUnique(searches: seq<SavedSearch>, id: string)
    requires NoDup(SearchIds(searches))
    ensures NoDup(SearchIds(SearchesAfterRemove(searches, id)))
  {
    RemoveSearchIds(searches, id);
    RemoveAllNoDup(SearchIds(searches), id);
  }

  /** The ids left after removing a saved search are the old ids without that one. */
  lemma {:induction false} RemoveSearchIds(searches: seq<SavedSearch>, id: string)
    ensures SearchIds(SearchesAfterRemove(searches, id)) == RemoveAll(SearchIds(searches), id)
  {
    if searches != [] {
      var x, rest := searches[0], searches[1..];
      assert searches == [x] + rest;
      RemoveSearchIds(rest, id);
      RemoveSearchCons(x, rest, id);
      SearchIdsCons(x, rest);
      RemoveAllCons(x.id, SearchIds(rest), id);
      var after := SearchesAfterRemove(rest, id);
      if x.id != id {
        SearchIdsCons(x, after);
      } else {
        assert [] + after == after;
        assert [] + RemoveAll(SearchIds(rest), id) == RemoveAll(SearchIds(rest), id);
      }
    }
  }

  lemma SearchIdsCons(x: SavedSearch, rest: seq<SavedSearch>)
    ensures SearchIds([x] + rest) == [x.id] + SearchIds(rest)
  {
  }

  /** `SearchesAfterRemove` one search at a time. */
  lemma RemoveSearchCons(x: SavedSearch, rest: seq<SavedSearch>, id: string)
    ensures SearchesAfterRemove([x] + rest, id) == (if x.id != id then [x] else []) + SearchesAfterRemove(rest, id)
  {
    var t := [x] + rest;
    assert t[0] == x && t[1..] == rest;
  }

  /** Saving a search and removing it by its fresh id restores the saved searches. */
  lemma AddThenRemoveSearchRestores(searches: seq<SavedSearch>, name: string, filters: Filters,
                                    id: string, savedAt: string)
    requires id !in SearchIds(searches)
    ensures SearchesAfterRemove(SearchesAfterAdd(searches, name, filters, id, savedAt), id) == searches
  {
    var p := (s: SavedSearch) => s.id != id;
    FilterConcat(p, searches, [SavedSearch(id, name, filters, savedAt)]);
    forall i | 0 <= i < |searches| ensures p(searches[i]) {
      assert SearchIds(searches)[i] == searches[i].id;
    }
    FilterKeepsAll(p, searches);
  }

  // ---- the store ---------------------------------------------------------------------

  /** The store's state and its actions. Each action replaces exactly the field(s) its
      `modifies` clause names. */
  class Store {
    var savedSearches: seq<SavedSearch>
    var lists: seq<List>
    var globalSearch: string
    var filterSectors: seq<string>
    var filterStages: seq<string>

    ghost predicate Valid()
      reads this
    {
      ListsValid(lists) && NoDup(SearchIds(savedSearches))
    }

    /** The initial state: nothing saved, no filters. */
    constructor ()
      ensures Valid()
      ensures savedSearches == [] && lists == [] && globalSearch == ""
      ensures filterSectors == [] && filterStages == []
    {
      savedSearches := [];
      lists := [];
      globalSearch := "";
      filterSectors := [];
      filterStages := [];
    }

    method SetGlobalSearch(search: string)
      modifies this`globalSearch
      ensures globalSearch == search
    {
      globalSearch := search;
    }

    method SetFilterSectors(sectors: seq<string>)
      modifies this`filterSectors
      ensures filterSectors == sectors
    {
      filterSectors := sectors;
    }

    method SetFilterStages(stages: seq<string>)
      modifies this`filterStages
      ensures filterStages == stages
    {
      filterStages := stages;
    }

    method AddSavedSearch(name: string, filters: Filters, id: string, savedAt: string)
      modifies this`savedSearches
      ensures savedSearches == SearchesAfterAdd(old(savedSearches), name, filters, id, savedAt)
      ensures old(Valid()) && id !in SearchIds(old(savedSearches)) ==> Valid()
    {
      if Valid() && id !in SearchIds(savedSearches) {
        AddSearchKeepsUnique(savedSearches, name, filters, id, savedAt);
      }
      savedSearches := SearchesAfterAdd(savedSearches, name, filters, id, savedAt);
    }

    method RemoveSavedSearch(id: string)
      modifies this`savedSearches
      ensures savedSearches == SearchesAfterRemove(old(savedSearches), id)
      ensures old(Valid()) ==> Valid()
    {
      if Valid() {
        RemoveSearchKeepsUnique(savedSearches, id);
      }
      savedSearches := SearchesAfterRemove(savedSearches, id);
    }

    method CreateList(name: string, id: string, createdAt: string)
      modifies this`lists
      ensures lists == ListsAfterCreate(old(lists), name, id, createdAt)
      ensures old(Valid()) && id !in ListIds(old(lists)) ==> Valid()
    {
      if Valid() && id !in ListIds(lists) {
        CreateKeepsValid(lists, name, id, createdAt);
      }
      lists := ListsAfterCreate(lists, name, id, createdAt);
    }

    method DeleteList(id: string)
      modifies this`lists
      ensures lists == ListsAfterDelete(old(lists), id)
      ensures old(Valid()) ==> Valid()
    {
      if Valid() {
        DeleteKeepsValid(lists, id);
      }
      lists := ListsAfterDelete(lists, id);
    }

    method AddToList(listId: string, companyId: string)
      modifies this`lists
      ensures lists == ListsAfterAdd(old(lists), listId, companyId)
      ensures old(Valid()) ==> Valid()
    {
      if Valid() {
        AddKeepsValid(lists, listId, companyId);
      }
      lists := ListsAfterAdd(lists, listId, companyId);
    }

    method RemoveFromList(listId: string, companyId: string)
      modifies this`lists
      ensures lists == ListsAfterRemove(old(lists), listId, companyId)
      ensures old(Valid()) ==> Valid()
    {
      if Valid() {
        RemoveKeepsValid(lists, listId, companyId);
      }
      lists := ListsAfterRemove(lists, listId, companyId);
    }
  }
}
