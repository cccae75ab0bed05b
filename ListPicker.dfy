/** The "Save to List" popover, src/components/ListPicker.tsx: a click on a list adds the
    company to it or removes it, and the form creates a list from the trimmed name typed
    into its input. The same create guard serves the lists page. */
module ListPicker {
  import opened Types
  import opened Seqs
  import opened Strings
  import opened AppStore

  /** A click on `lists[k]`: the check mark shows when the list already holds the company,
      and the click then removes it from every list with that id; otherwise it adds it. */
  function ClickList(lists: seq<List>, k: int, companyId: string): (r: seq<List>)
    requires 0 <= k < |lists|
    ensures companyId in lists[k].companyIds ==> r == ListsAfterRemove(lists, lists[k].id, companyId)
    ensures companyId !in lists[k].companyIds ==> r == ListsAfterAdd(lists, lists[k].id, companyId)
  {
    var isAdded := companyId in lists[k].companyIds;
    if isAdded then ListsAfterRemove(lists, lists[k].id, companyId)
    else ListsAfterAdd(lists, lists[k].id, companyId)
  }

  /** With distinct list ids a click flips the company's membership in the clicked list,
      keeps every other id of that list, and leaves every other list as it was. */
  lemma ClickFlipsMembership(lists: seq<List>, k: int, companyId: string)
    requires 0 <= k < |lists| && NoDup(ListIds(lists))
    ensures |ClickList(lists, k, companyId)| == |lists|
    ensures companyId in ClickList(lists, k, companyId)[k].companyIds <==> companyId !in lists[k].companyIds
    ensures forall x :: x != companyId ==>
      (x in ClickList(lists, k, companyId)[k].companyIds <==> x in lists[k].companyIds)
    ensures forall i :: 0 <= i < |lists| && i != k ==> ClickList(lists, k, companyId)[i] == lists[i]
  {
    var r := ClickList(lists, k, companyId);
    forall i | 0 <= i < |lists| && i != k ensures lists[i].id != lists[k].id {
      assert ListIds(lists)[i] == lists[i].id && ListIds(lists)[k] == lists[k].id;
    }
  }

  /** Two clicks on the same list restore the lists when the company was not in it. */
  lemma ClickTwiceRestores(lists: seq<List>, k: int, companyId: string)
    requires 0 <= k < |lists| && NoDup(ListIds(lists))
    requires companyId !in lists[k].companyIds
    ensures ClickList(ClickList(lists, k, companyId), k, companyId) == lists
  {
    ClickFlipsMembership(lists, k, companyId);
    assert ClickList(lists, k, companyId) == ListsAfterAdd(lists, lists[k].id, companyId);
    AddThenRemoveRestores(lists, lists[k].id, companyId);
  }

  /** The click handler on the store. */
  method Click(store: Store, k: int, companyId: string)
    requires 0 <= k < |store.lists|
    modifies store`lists
    ensures store.lists == ClickList(old(store.lists), k, companyId)
    ensures old(store.Valid()) ==> store.Valid()
  {
    if companyId in store.lists[k].companyIds {
      store.RemoveFromList(store.lists[k].id, companyId);
    } else {
      store.AddToList(store.lists[k].id, companyId);
    }
  }

  /** The name a submitted form creates a list with: none when the input is blank, the
      trimmed input otherwise. */
  function NewListName(input: string): (r: Option<string>)
    ensures r.None? <==> AllWhitespace(input)
    ensures r.Some? ==> r.value == Trim(input) && r.value != []
  {
    TrimEmptyIff(input);
    if Trim(input) == [] then None else Some(Trim(input))
  }

  /** The submit button is disabled exactly when submitting would create nothing. */
  predicate CreateDisabled(input: string) {
    Trim(input) == []
  }

  lemma DisabledIffNothingCreated(input: string)
    ensures CreateDisabled(input) <==> NewListName(input).None?
    ensures CreateDisabled(input) <==> AllWhitespace(input)
  {
    TrimEmptyIff(input);
  }

  /** `handleCreate` on a submitted form: a blank input changes nothing; otherwise one list
      with the trimmed name is created and the input is cleared. The new list's id and
      creation time are parameters. */
  method SubmitNewList(store: Store, input: string, id: string, createdAt: string)
      returns (newInput: string)
    modifies store`lists
    ensures NewListName(input).None? ==> store.lists == old(store.lists) && newInput == input
    ensures NewListName(input).Some? ==>
      && store.lists == ListsAfterCreate(old(store.lists), NewListName(input).value, id, createdAt)
      && newInput == ""
    ensures old(store.Valid()) && id !in ListIds(old(store.lists)) ==> store.Valid()
  {
    var name := NewListName(input);
    if name.None? {
      return input;
    }
    store.CreateList(name.value, id, createdAt);
    newInput := "";
  }
}
