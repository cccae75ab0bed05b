/** The discovery page, src/app/companies/page.tsx: the client-side filter over the static
    company data (a case-insensitive text search combined with sector and stage facets)
    and the guard in front of "Save Search". The company data is a parameter. */
module DiscoveryPage {
  import opened Types
  import opened Seqs
  import opened Strings
  import opened AppStore

  /** Some tag of `c` contains the lower-cased query `q` once lower-cased itself. */
  predicate SomeTagMatches(c: Company, q: string) {
    exists i :: 0 <= i < |c.tags| && Includes(Lower(c.tags[i]), q)
  }

  /** The search criterion: an empty search accepts every company; otherwise the lower-cased
      search must occur in the lower-cased name, description or some tag. */
  predicate MatchSearch(c: Company, search: string) {
    if search == "" then true
    else
      var q := Lower(search);
      Includes(Lower(c.name), q) || Includes(Lower(c.description), q) || SomeTagMatches(c, q)
  }

  /** An empty facet selection accepts every company; otherwise the value must be selected. */
  predicate MatchSector(c: Company, sectors: seq<string>) {
    if |sectors| > 0 then c.sector in sectors else true
  }

  predicate MatchStage(c: Company, stages: seq<string>) {
    if |stages| > 0 then StageName(c.stage) in stages else true
  }

  predicate Matches(c: Company, search: string, sectors: seq<string>, stages: seq<string>) {
    MatchSearch(c, search) && MatchSector(c, sectors) && MatchStage(c, stages)
  }

  /** `filteredCompanies`: the companies satisfying all three criteria, in data order. */
  function FilteredCompanies(companies: seq<Company>, search: string, sectors: seq<string>,
                             stages: seq<string>): (r: seq<Company>)
    ensures |r| <= |companies|
    ensures forall i :: 0 <= i < |r| ==> r[i] in companies && Matches(r[i], search, sectors, stages)
    ensures forall i :: 0 <= i < |companies| && Matches(companies[i], search, sectors, stages)
              ==> companies[i] in r
  {
    Filter((c: Company) => Matches(c, search, sectors, stages), companies)
  }

  /** The result depends on the data order only through concatenation: filtering the first
      part of the data and then the rest gives the filtered whole. */
  lemma FilteredCompaniesConcat(a: seq<Company>, b: seq<Company>, search: string,
                                sectors: seq<string>, stages: seq<string>)
    ensures FilteredCompanies(a + b, search, sectors, stages)
         == FilteredCompanies(a, search, sectors, stages) + FilteredCompanies(b, search, sectors, stages)
  {
    FilterConcat((c: Company) => Matches(c, search, sectors, stages), a, b);
  }

  /** Every matching company keeps all its occurrences; non-matching ones keep none. */
  lemma FilteredCompaniesCount(companies: seq<Company>, search: string, sectors: seq<string>,
                               stages: seq<string>, c: Company)
    ensures multiset(FilteredCompanies(companies, search, sectors, stages))[c]
         == if Matches(c, search, sectors, stages) then multiset(companies)[c] else 0
  {
    FilterMultiset((c: Company) => Matches(c, search, sectors, stages), companies, c);
  }

  /** With no search and no facets the whole data set is shown, in its order. */
  lemma NoFiltersShowsAll(companies: seq<Company>)
    ensures FilteredCompanies(companies, "", [], []) == companies
  {
    FilterKeepsAll((c: Company) => Matches(c, "", [], []), companies);
  }

  /** The search is case-insensitive in the query: lower-casing it changes nothing. */
  lemma SearchIgnoresQueryCase(c: Company, search: string)
    ensures MatchSearch(c, Lower(search)) == MatchSearch(c, search)
  {
    LowerIdempotent(search);
  }

  /** A query that occurs verbatim, in lower case, in a company's name finds the company. */
  lemma NameOccurrenceMatches(c: Company, search: string, k: nat)
    requires search != [] && k + |search| <= |c.name|
    requires Lower(c.name)[k..k + |search|] == Lower(search)
    ensures MatchSearch(c, search)
  {
    IncludesAt(Lower(c.name), Lower(search), k);
  }

  /** The same for the description. */
  lemma DescriptionOccurrenceMatches(c: Company, search: string, k: nat)
    requires search != [] && k + |search| <= |c.description|
    requires Lower(c.description)[k..k + |search|] == Lower(search)
    ensures MatchSearch(c, search)
  {
    IncludesAt(Lower(c.description), Lower(search), k);
  }

  /** The same for one of the tags. */
  lemma TagOccurrenceMatches(c: Company, search: string, i: nat, k: nat)
    requires search != [] && i < |c.tags| && k + |search| <= |c.tags[i]|
    requires Lower(c.tags[i])[k..k + |search|] == Lower(search)
    ensures MatchSearch(c, search)
  {
    IncludesAt(Lower(c.tags[i]), Lower(search), k);
  }

  /** A non-empty search accepts a company exactly when the lower-cased query occurs at
      some offset of its lower-cased name, its description or one of its tags; a company
      where it occurs nowhere is hidden. */
  lemma MatchSearchIff(c: Company, search: string)
    requires search != ""
    ensures var q := Lower(search);
      MatchSearch(c, search) <==>
        (exists k :: OccursAt(Lower(c.name), q, k))
        || (exists k :: OccursAt(Lower(c.description), q, k))
        || (exists i, k :: 0 <= i < |c.tags| && OccursAt(Lower(c.tags[i]), q, k))
  {
    var q := Lower(search);
    IncludesIff(Lower(c.name), q);
    IncludesIff(Lower(c.description), q);
    forall i | 0 <= i < |c.tags| {
      IncludesIff(Lower(c.tags[i]), q);
    }
  }

  /** The outcome of "Save Search". */
  datatype SaveOutcome =
    | NothingToSave           // no search and no facet: the error toast
    | PromptDismissed         // the name prompt was cancelled or answered with ""
    | Saved(name: string, filters: Filters)

  /** `handleSaveSearch`: `answer` is what the name prompt returned (`None` on cancel). */
  function HandleSaveSearch(search: string, sectors: seq<string>, stages: seq<string>,
                            answer: Option<string>): (r: SaveOutcome)
    ensures r.NothingToSave? <==> search == "" && sectors == [] && stages == []
    ensures r.PromptDismissed? <==> !r.NothingToSave? && (answer.None? || answer.value == "")
    ensures r.Saved? ==>
      r.name == answer.value && r.name != "" && r.filters == Filters(search, sectors, stages)
  {
    if search == "" && |sectors| == 0 && |stages| == 0 then NothingToSave
    else if answer.None? || answer.value == "" then PromptDismissed
    else Saved(answer.value, Filters(search, sectors, stages))
  }

  /** The page's handler: on `Saved` the store gains exactly one entry with the page's own
      search text and the store's facet selections; otherwise the store is untouched. */
  method SaveSearch(store: Store, search: string, answer: Option<string>, id: string, savedAt: string)
      returns (outcome: SaveOutcome)
    modifies store`savedSearches
    ensures outcome == HandleSaveSearch(search, store.filterSectors, store.filterStages, answer)
    ensures outcome.Saved? ==>
      store.savedSearches == SearchesAfterAdd(old(store.savedSearches), outcome.name, outcome.filters, id, savedAt)
    ensures !outcome.Saved? ==> store.savedSearches == old(store.savedSearches)
  {
    outcome := HandleSaveSearch(search, store.filterSectors, store.filterStages, answer);
    if outcome.Saved? {
      store.AddSavedSearch(outcome.name, outcome.filters, id, savedAt);
    }
  }
}
