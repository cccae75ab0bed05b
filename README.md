# VC sourcing dashboard: a verified model of its core

The application is a Next.js dashboard for venture-capital sourcing. A static data set of
companies can be searched, filtered and sorted. Companies can be collected into named lists
and exported as CSV, searches can be saved and run again, and a server endpoint enriches a
company profile. It scrapes the company website through a reader service and asks a language
model for a structured summary.

This project models that core in Dafny, one module per source file:

- `Types`: the records of `src/types/index.ts`.
- `AppStore`: the store of `src/store/useAppStore.ts`. Its actions are pure functions on the
  old field values, a class `Store` assigns their results to its fields, and lemmas show
  that the actions keep list ids and saved-search ids unique and keep every list free of
  duplicate company ids.
- `DiscoveryPage`: the company filter and "Save Search" of `src/app/companies/page.tsx`.
- `FilterPanel`: facet toggling, the sorted sector options and the trigger badges.
- `CompanyTable`: the sort header state machine, the comparator, the sort itself (an
  insertion sort on a fresh array), pagination and the bookmark indicator.
- `ListPicker`: the "Save to List" popover.
- `ListsPage`: the active list and the CSV export. The export is read back under the quoting rule of RFC 4180.
- `SavedPage`: the query parameters a saved search runs with, and the filter count.
- `CompanyProfile`: the displayed domain and the logo address.
- `EnrichRoute`: the `POST` handler of `src/app/api/enrich/route.ts`, as a method whose
  every exit is stated. The reader service, the model call, the API key and the clock are
  parameters.
- `Seqs` and `Strings`: the JavaScript built-ins the source relies on. `Strings` covers
  `trim`, the `\s` class, `includes`, ASCII `toLowerCase`, `join`, `split`, string `<` and
  the decimal rendering of integers.

## Model

| member | source | states |
|---|---|---|
| Types.StageNameInjective | src/types/index.ts:26 | distinct stages have distinct string values, so filtering on stage names is filtering on stages |
| Types.CompanyIds | src/types/index.ts:21-35 | the ids of a sequence of companies, position by position |
| AppStore.ListsAfterCreate | src/store/useAppStore.ts:59-65 | `createList` appends exactly one list, with the given name, fresh id and timestamp and no companies; the old lists stay first and unchanged |
| AppStore.CreateKeepsValid | src/store/useAppStore.ts:59-65 | creating a list under an id not yet used keeps list ids unique and lists duplicate-free |
| AppStore.ListsAfterDelete | src/store/useAppStore.ts:66-69 | `deleteList` keeps exactly the lists whose id differs |
| AppStore.DeleteUnknownIsNoOp | src/store/useAppStore.ts:66-69 | deleting an id no list has changes nothing |
| AppStore.DeleteIdempotent | src/store/useAppStore.ts:66-69 | deleting twice equals deleting once |
| AppStore.DeleteIds | src/store/useAppStore.ts:66-69 | the remaining ids are the old ids, in order, with every copy of the deleted id removed |
| AppStore.DeleteKeepsValid | src/store/useAppStore.ts:66-69 | deleting keeps the store invariant |
| AppStore.ListsAfterAdd | src/store/useAppStore.ts:70-77 | `addToList` changes only lists with that id; in them the old ids stay first and the company becomes a member, appended exactly when it was absent |
| AppStore.AddIdempotent | src/store/useAppStore.ts:70-77 | adding the same company twice equals adding it once |
| AppStore.AddKeepsValid | src/store/useAppStore.ts:70-77 | the membership guard means a list never holds a company twice |
| AppStore.ListsAfterRemove | src/store/useAppStore.ts:78-85 | `removeFromList` changes only lists with that id, and in them removes every copy of the company and nothing else |
| AppStore.RemoveKeepsValid | src/store/useAppStore.ts:78-85 | removing keeps the store invariant |
| AppStore.AddThenRemoveRestores | src/store/useAppStore.ts:70-85 | adding a company that is absent and then removing it restores the lists exactly |
| AppStore.SearchesAfterAdd | src/store/useAppStore.ts:48-54 | `addSavedSearch` appends one entry stamped with the fresh id and time; older entries are kept |
| AppStore.SearchesAfterRemove | src/store/useAppStore.ts:55-58 | `removeSavedSearch` keeps exactly the entries with a different id |
| AppStore.AddSearchKeepsUnique | src/store/useAppStore.ts:48-54 | saving under a fresh id keeps saved-search ids unique |
| AppStore.RemoveSearchIds | src/store/useAppStore.ts:55-58 | the remaining ids are the old ids with the removed one taken out |
| AppStore.RemoveSearchKeepsUnique | src/store/useAppStore.ts:55-58 | removing keeps saved-search ids unique |
| AppStore.AddThenRemoveSearchRestores | src/store/useAppStore.ts:48-58 | saving and then removing by the fresh id restores the saved searches |
| AppStore.Store.constructor | src/store/useAppStore.ts:40-44 | the initial state: no saved searches, no lists, empty search and facets |
| AppStore.Store.SetGlobalSearch | src/store/useAppStore.ts:45 | the query field takes the new value |
| AppStore.Store.SetFilterSectors | src/store/useAppStore.ts:46 | the sector selection takes the new value |
| AppStore.Store.SetFilterStages | src/store/useAppStore.ts:47 | the stage selection takes the new value |
| AppStore.Store.AddSavedSearch | src/store/useAppStore.ts:48-54 | the saved searches become `SearchesAfterAdd` of the old ones; with a fresh id the invariant is kept |
| AppStore.Store.RemoveSavedSearch | src/store/useAppStore.ts:55-58 | the saved searches become `SearchesAfterRemove` of the old ones, and the invariant is kept |
| AppStore.Store.CreateList | src/store/useAppStore.ts:59-65 | the lists become `ListsAfterCreate` of the old ones; with a fresh id the invariant is kept |
| AppStore.Store.DeleteList | src/store/useAppStore.ts:66-69 | the lists become `ListsAfterDelete` of the old ones, and the invariant is kept |
| AppStore.Store.AddToList | src/store/useAppStore.ts:70-77 | the lists become `ListsAfterAdd` of the old ones, and the invariant is kept |
| AppStore.Store.RemoveFromList | src/store/useAppStore.ts:78-85 | the lists become `ListsAfterRemove` of the old ones, and the invariant is kept |
| DiscoveryPage.MatchSearch | src/app/companies/page.tsx:26-30 | an empty query accepts every company; otherwise the lower-cased query must occur in the lower-cased name, description or some tag (defined, no contract of its own; see `MatchSearchIff`) |
| DiscoveryPage.MatchSector | src/app/companies/page.tsx:32 | an empty sector selection accepts every company; otherwise the company's sector must be selected (defined, no contract of its own) |
| DiscoveryPage.MatchStage | src/app/companies/page.tsx:33 | the same for the stage, compared by its string value (defined, no contract of its own) |
| DiscoveryPage.Matches | src/app/companies/page.tsx:35 | a company is shown when all three criteria hold (defined, no contract of its own) |
| DiscoveryPage.FilteredCompanies | src/app/companies/page.tsx:24-37 | the shown companies are exactly the data entries that pass the search, sector and stage criteria |
| DiscoveryPage.FilteredCompaniesConcat | src/app/companies/page.tsx:24-37 | filtering works entry by entry and keeps the data order |
| DiscoveryPage.FilteredCompaniesCount | src/app/companies/page.tsx:24-37 | a matching company keeps all its occurrences; a non-matching one keeps none |
| DiscoveryPage.NoFiltersShowsAll | src/app/companies/page.tsx:26-35 | an empty query and empty facets show the whole data set in order |
| DiscoveryPage.SearchIgnoresQueryCase | src/app/companies/page.tsx:26-30 | lower-casing the query does not change which companies match |
| DiscoveryPage.NameOccurrenceMatches | src/app/companies/page.tsx:26-30 | a query occurring, case-insensitively, in a company name finds that company |
| DiscoveryPage.DescriptionOccurrenceMatches | src/app/companies/page.tsx:28 | a query occurring, case-insensitively, in a company description finds that company |
| DiscoveryPage.TagOccurrenceMatches | src/app/companies/page.tsx:29 | a query occurring, case-insensitively, in one of the tags finds that company |
| DiscoveryPage.MatchSearchIff | src/app/companies/page.tsx:26-30 | a non-empty query accepts a company exactly when it occurs at some offset of the lower-cased name, description or a tag; a company where it occurs nowhere is hidden |
| DiscoveryPage.HandleSaveSearch | src/app/companies/page.tsx:39-49 | nothing is saved exactly when query and facets are all empty; a cancelled or empty name saves nothing; otherwise the name and the current filters are saved |
| DiscoveryPage.SaveSearch | src/app/companies/page.tsx:39-49 | the store gains exactly one entry when the outcome is `Saved`, and is unchanged otherwise |
| FilterPanel.Toggle | src/components/FilterPanel.tsx:31-45 | toggling flips the membership of the value and keeps the membership of every other value |
| FilterPanel.TogglePresentRemovesAll | src/components/FilterPanel.tsx:31-37 | toggling a selected value removes all its copies and nothing else |
| FilterPanel.ToggleAbsentAppends | src/components/FilterPanel.tsx:31-37 | toggling an unselected value appends it at the end |
| FilterPanel.ToggleTwiceRestores | src/components/FilterPanel.tsx:31-37 | toggling an unselected value twice restores the selection |
| FilterPanel.ToggleKeepsNoDup | src/components/FilterPanel.tsx:31-45 | a duplicate-free selection stays duplicate-free |
| FilterPanel.ToggleSector | src/components/FilterPanel.tsx:31-37 | the store's sector selection becomes `Toggle` of the old one |
| FilterPanel.ToggleStage | src/components/FilterPanel.tsx:39-45 | the store's stage selection becomes `Toggle` of the old one |
| FilterPanel.HasFilters | src/components/FilterPanel.tsx:52 | the Reset button shows when some sector or some stage is selected (defined, no contract of its own; `ClearFilters` states that it hides the button) |
| FilterPanel.ClearFilters | src/components/FilterPanel.tsx:47-52 | both selections become empty, so the Reset button is hidden |
| FilterPanel.StageOptions | src/components/FilterPanel.tsx:29 | five distinct options, one for every stage |
| FilterPanel.Dedup | src/components/FilterPanel.tsx:24-27 | `new Set` keeps exactly the values that occur, each once |
| FilterPanel.Insert | src/components/FilterPanel.tsx:24-27 | inserting a new value into an ascending sequence keeps it ascending and adds exactly that value |
| FilterPanel.SortDistinct | src/components/FilterPanel.tsx:24-27 | `sort()` on distinct strings gives an ascending permutation |
| FilterPanel.SectorOptions | src/components/FilterPanel.tsx:24-27 | the sector options are strictly ascending and are exactly the sectors that occur in the data |
| FilterPanel.StrictlySortedUnique | src/components/FilterPanel.tsx:24-27 | a strictly ascending sequence is determined by its elements |
| FilterPanel.SectorOptionsDependOnlyOnSectors | src/components/FilterPanel.tsx:24-27 | the options depend only on which sectors occur, not on data order or repetition |
| FilterPanel.WideBadges | src/components/FilterPanel.tsx:68-78 | up to two selected values are shown as they are; more are summarised in one "N selected" badge |
| CompanyTable.SortKey | src/components/CompanyTable.tsx:24 | the founding year is a number, the other columns are strings, and only a missing total funding is undefined |
| CompanyTable.Comparison | src/components/CompanyTable.tsx:43-48 | the comparator answers -1, 0 or 1, and 0 whenever a key is undefined |
| CompanyTable.DescendingNegates | src/components/CompanyTable.tsx:47 | descending order is the negation of ascending order |
| CompanyTable.SameKind | src/components/CompanyTable.tsx:24 | two defined keys of one column are of the same kind |
| CompanyTable.ComparisonAntisymmetric | src/components/CompanyTable.tsx:43-48 | with defined keys the comparator is antisymmetric and answers 0 exactly for equal keys |
| CompanyTable.UndefinedEqualsEverything | src/components/CompanyTable.tsx:45-46 | a missing total funding compares equal to every company |
| CompanyTable.LeTotal | src/components/CompanyTable.tsx:43-48 | with defined keys any two companies are ordered one way or the other |
| CompanyTable.LeTransitive | src/components/CompanyTable.tsx:43-48 | with defined keys the order is transitive |
| CompanyTable.InsertAt | src/components/CompanyTable.tsx:43-48 | one insertion step permutes the array and extends the sorted prefix by one |
| CompanyTable.SortedData | src/components/CompanyTable.tsx:43-48 | the sorted copy is a permutation of the data, ordered by the comparator when every key is defined |
| CompanyTable.AfterSort | src/components/CompanyTable.tsx:34-41 | a header click selects that column; it is descending exactly when it was the current ascending column |
| CompanyTable.SortTwiceOnCurrentRestores | src/components/CompanyTable.tsx:34-41 | two clicks on the current column restore the state |
| CompanyTable.SortTwiceOnOtherIsDescending | src/components/CompanyTable.tsx:34-41 | two clicks on another column leave it selected in descending order |
| CompanyTable.TotalPages | src/components/CompanyTable.tsx:50 | the fewest pages of fifteen rows that hold all rows |
| CompanyTable.PageSlice | src/components/CompanyTable.tsx:51-54 | the page holds the rows from `(p-1)*15` on, at most 15, clamped to the data |
| CompanyTable.PagesCoverData | src/components/CompanyTable.tsx:50-54 | pages 1 to `totalPages`, read in turn, give back every sorted row once, in order |
| CompanyTable.PageBeyondEndIsEmpty | src/components/CompanyTable.tsx:51-54 | a page past the last one shows no rows |
| CompanyTable.PaginationShownIff | src/components/CompanyTable.tsx:154 | the pagination controls show exactly when there are more than fifteen rows |
| CompanyTable.ShowingFrom | src/components/CompanyTable.tsx:157 | the first row number of the "Showing" line, `(page - 1) * 15 + 1` (defined, no contract of its own; see `ShowingMatchesSlice`) |
| CompanyTable.ShowingTo | src/components/CompanyTable.tsx:157 | the last row number of the "Showing" line, `min(page * 15, n)` (defined, no contract of its own; see `ShowingMatchesSlice`) |
| CompanyTable.ShowingMatchesSlice | src/components/CompanyTable.tsx:157 | on an existing page the "Showing x to y" line names exactly the first and last row displayed |
| CompanyTable.PreviousPage | src/components/CompanyTable.tsx:163 | Previous goes one page back, never below page 1 |
| CompanyTable.NextPage | src/components/CompanyTable.tsx:174 | Next goes one page on, never beyond the last page |
| CompanyTable.ButtonsStayInRange | src/components/CompanyTable.tsx:163-174 | from an existing page both buttons lead to an existing page, and Previous undoes Next |
| CompanyTable.NextFromStalePage | src/components/CompanyTable.tsx:174 | from a stale page past the end, Next moves backwards |
| CompanyTable.IsSaved | src/components/CompanyTable.tsx:124 | a row's bookmark is filled when some list holds the company's id (defined, no contract of its own; see the three lemmas below) |
| CompanyTable.AddMakesSaved | src/components/CompanyTable.tsx:124 | adding a company to an existing list fills its bookmark |
| CompanyTable.RemoveKeepsOthersSaved | src/components/CompanyTable.tsx:124 | removing a company from a list leaves every other company's bookmark as it was |
| CompanyTable.RemoveFromOnlyListUnsaves | src/components/CompanyTable.tsx:124 | removing a company from the only list holding it clears its bookmark |
| CompanyTable.TableState.constructor | src/components/CompanyTable.tsx:29-31 | the table starts sorted by name, ascending, on page 1 |
| CompanyTable.TableState.HandleSort | src/components/CompanyTable.tsx:34-41 | the sort state becomes `AfterSort` of the old state |
| CompanyTable.TableState.Previous | src/components/CompanyTable.tsx:163 | the page becomes `PreviousPage` of the old page |
| CompanyTable.TableState.Next | src/components/CompanyTable.tsx:174 | the page becomes `NextPage` of the old page |
| CompanyTable.TableState.VisibleRows | src/components/CompanyTable.tsx:43-54 | the page's row count, at most fifteen and clamped to the data; every row comes from the data; the rows are in comparator order when every key is defined |
| ListPicker.ClickList | src/components/ListPicker.tsx:39-43 | a click removes the company from a list that holds it and adds it to one that does not |
| ListPicker.ClickFlipsMembership | src/components/ListPicker.tsx:39-43 | with distinct list ids a click flips the company's membership in the clicked list and changes no other list |
| ListPicker.ClickTwiceRestores | src/components/ListPicker.tsx:39-43 | two clicks restore the lists when the company was not in the list |
| ListPicker.Click | src/components/ListPicker.tsx:43 | the store's lists become `ClickList` of the old ones, and the invariant is kept |
| ListPicker.NewListName | src/components/ListPicker.tsx:14-19 | a blank input creates nothing; otherwise the list is named by the trimmed, non-empty input |
| ListPicker.DisabledIffNothingCreated | src/components/ListPicker.tsx:61 | the submit button is disabled exactly when submitting would create nothing |
| ListPicker.SubmitNewList | src/components/ListPicker.tsx:14-19 | a blank input changes nothing; otherwise exactly one list named by the trimmed input is appended and the input is cleared |
| Strings.TrimShape | src/components/ListPicker.tsx:16-17 | `trim` gives the block left when whitespace is removed from both ends |
| Strings.TrimEnds | src/components/ListPicker.tsx:16-17 | a trimmed string neither starts nor ends with whitespace |
| Strings.TrimEmptyIff | src/components/ListPicker.tsx:16 | a string trims to empty exactly when it is all whitespace |
| Strings.TrimIdempotent | src/components/ListPicker.tsx:17 | trimming twice equals trimming once |
| Strings.IncludesIff | src/app/companies/page.tsx:27-29 | `includes` holds exactly when the block occurs at some offset |
| Strings.UnderscoreRuns | src/app/lists/page.tsx:54 | `replace(/\s+/g, '_')` leaves no whitespace and never lengthens the name |
| Strings.UnderscoreRunsStep | src/app/lists/page.tsx:54 | a word is kept, the whitespace run after it becomes exactly one `_`, and the rest is rewritten on its own |
| Strings.LowerIdempotent | src/app/companies/page.tsx:26-30 | lower-casing twice equals lower-casing once |
| Strings.SplitJoin | src/app/saved/page.tsx:19-22 | splitting a comma-joined selection gives it back when no value has a comma |
| Strings.NatToStringValue | src/components/FilterPanel.tsx:68-70 | the digits of a count read back as the count, with no leading zero except for zero |
| Strings.IntToStringValue | src/app/lists/page.tsx:47 | `String(n)` starts with `-` exactly for a negative number, and the digits after the sign read back as its absolute value |
| Strings.LessTransitive | src/components/FilterPanel.tsx:24-27 | string `<` is transitive |
| Strings.LessTotal | src/components/FilterPanel.tsx:24-27 | two different strings are ordered one way or the other by `<` |
| ListsPage.InitialActiveListId | src/app/lists/page.tsx:18 | the first list's id is selected initially, or nothing when there are no lists |
| ListsPage.FindListIndex | src/app/lists/page.tsx:20 | `find` stops at the first list with the id, or finds nothing when no list has it |
| ListsPage.ActiveList | src/app/lists/page.tsx:20 | the selected list when its id exists, otherwise the first list; nothing only when there are no lists |
| ListsPage.InitiallyFirstList | src/app/lists/page.tsx:18-20 | on first render the first list is shown |
| ListsPage.ActiveAfterDelete | src/app/lists/page.tsx:122 | with the deleted id still selected, the page falls back to the first remaining list |
| ListsPage.ActiveAfterDeleteShown | src/app/lists/page.tsx:122 | with the shown list being `activeList` of lines 18-20, whatever `activeListId` holds (the shown id, `null`, or a stale id), deleting the shown list leaves the first remaining list shown, or nothing when none remain |
| ListsPage.FindCompany | src/app/lists/page.tsx:35 | nothing exactly when the data has no company with the id; otherwise the company at the first position with that id |
| ListsPage.Resolve | src/app/lists/page.tsx:34-36 | the resolved companies' ids are exactly the known ids of the list, in list order |
| ListsPage.ResolveFindsFirst | src/app/lists/page.tsx:34-36 | each resolved company is the company `find` returns for its id, the first company of the data with that id |
| ListsPage.ResolveEmptyIff | src/app/lists/page.tsx:34-38 | nothing resolves exactly when no id of the list is known |
| ListsPage.Quote | src/app/lists/page.tsx:42-49 | a string field is wrapped in double quotes with its contents unchanged |
| ListsPage.Row | src/app/lists/page.tsx:41-50 | one field per header column; which field goes in which column is given only by the definition |
| ListsPage.Lines | src/app/lists/page.tsx:52 | the header line, then one line per company, in order |
| ListsPage.RowSingleLine | src/app/lists/page.tsx:41-52 | a company whose fields hold no line break is written on one line |
| ListsPage.HeaderSingleLine | src/app/lists/page.tsx:40 | the header is one line |
| ListsPage.CsvLines | src/app/lists/page.tsx:52 | split at line breaks, the file gives the header and exactly one line per company |
| ListsPage.DecodeQuoted | src/app/lists/page.tsx:42-49 | a relaxed reader of a quoted field, against which the export is judged: it keeps the doubled-quote rule of section 2 of RFC 4180 but accepts any other character, where the RFC's TEXTDATA is printable ASCII; a decoded value is shorter than the field |
| ListsPage.QuoteRoundTripIff | src/app/lists/page.tsx:42-49 | a quoted field reads back as its value under the RFC 4180 quoting rule exactly when the value has no double quote |
| ListsPage.UnescapeLoneQuote | src/app/lists/page.tsx:42-49 | an undoubled quote after a quote-free start makes the field malformed |
| ListsPage.EmbeddedQuoteBreaksField | src/app/lists/page.tsx:42 | a company named `Say "Hi"` is exported as a field a conforming reader rejects |
| ListsPage.FileName | src/app/lists/page.tsx:54 | the list name with its whitespace runs replaced, then `_`, the date and `.csv` (defined, no contract of its own; see the three lemmas below) |
| ListsPage.FileNamePlain | src/app/lists/page.tsx:54 | a name without whitespace is kept as it is, followed by `_`, the date and `.csv` |
| ListsPage.FileNameRun | src/app/lists/page.tsx:54 | in the file name, a word of the list name is kept and the whitespace run after it becomes exactly one `_` |
| ListsPage.FileNameStem | src/app/lists/page.tsx:54 | the part of the file name that comes from the list name holds no whitespace and is no longer than the name |
| ListsPage.ExportCsv | src/app/lists/page.tsx:33-55 | no file when no id resolves; otherwise the file name and the CSV of the resolved companies |
| SavedPage.GetNoneIff | src/app/saved/page.tsx:19-22 | `get` finds nothing exactly when no pair has the key |
| SavedPage.SetParam | src/app/saved/page.tsx:19-22 | after `set` the key reads the new value, and a new key is appended at the end |
| SavedPage.SetParamKeepsOthers | src/app/saved/page.tsx:19-22 | after `set` the key occurs once and the other pairs are unchanged, in order |
| SavedPage.SearchParams | src/app/saved/page.tsx:19-22 | the parameters are `q`, `sectors`, `stages` in that order, each present exactly when its filter is non-empty, with comma-joined values |
| SavedPage.RunSearchParams | src/app/saved/page.tsx:15-25 | the three conditional `set` calls build exactly `SearchParams` |
| SavedPage.SectorsParamRoundTrip | src/app/saved/page.tsx:20 | splitting the `sectors` value at commas gives back the selection, in order |
| SavedPage.FilterCount | src/app/saved/page.tsx:53 | the count is zero exactly when no filter is set, and counts every selected value |
| SavedPage.NoFiltersIffNoParams | src/app/saved/page.tsx:91-93 | "No filters applied" shows exactly when running the search sets no parameter |
| SavedPage.SavedSearchHasFilters | src/app/companies/page.tsx:40-46 | a search saved from the discovery page never shows "No filters applied" |
| CompanyProfile.Domain | src/components/CompanyProfile.tsx:11 | the website with the removed prefix cut off, up to the first `/` (defined, no contract of its own; see `DomainShape`) |
| CompanyProfile.SchemeLength | src/components/CompanyProfile.tsx:11 | the pattern removes 0, 7, 8, 11 or 12 characters, and removes some exactly when the website starts with a scheme |
| CompanyProfile.DomainShape | src/components/CompanyProfile.tsx:11 | the domain is the slash-free block right after the removed prefix |
| CompanyProfile.WwwKeptWithoutScheme | src/components/CompanyProfile.tsx:11 | without a scheme a leading `www.` is kept |
| CompanyProfile.WwwRemovedAfterScheme | src/components/CompanyProfile.tsx:11 | after either scheme a `www.` is removed too, leaving the slash-free rest |
| CompanyProfile.DomainIdempotent | src/components/CompanyProfile.tsx:11 | extracting the domain of a domain changes nothing |
| CompanyProfile.LogoUrl | src/components/CompanyProfile.tsx:12 | the logo service address followed by the domain (defined, no contract of its own; see `LogoUrlSegments`) |
| CompanyProfile.LogoUrlSegments | src/components/CompanyProfile.tsx:12 | the logo address is the service host followed by exactly one path segment, the domain |
| EnrichRoute.FallbackText | src/app/api/enrich/route.ts:39-46 | the canned page for unreachable `example.com` sites is long enough to pass the length check |
| EnrichRoute.Truncate | src/app/api/enrich/route.ts:58 | the text is cut to its first 15000 characters |
| EnrichRoute.PromptHoldsPagePrefix | src/app/api/enrich/route.ts:58-69 | the model sees the instructions and then at most the first 15000 characters of the page |
| EnrichRoute.Caught | src/app/api/enrich/route.ts:102-129 | the inner `catch` runs unless the reply is non-empty and parses; an empty or unparsable reply throws an `Error` |
| EnrichRoute.ErrorMessage | src/app/api/enrich/route.ts:133 | the message of an `Error` is used when it is non-empty, otherwise the string form of the value |
| EnrichRoute.MockResult | src/app/api/enrich/route.ts:140-158 | the mock payload carries the sources and timestamp and names the website in its summary |
| EnrichRoute.ModelFailure | src/app/api/enrich/route.ts:129-162 | a truthy thrown value gives the mock payload; a null or undefined one ends in the outer 500; only a falsy primitive without an API-error message gives the 502 |
| EnrichRoute.FalsyPrimitiveGives502 | src/app/api/enrich/route.ts:133-161 | every string a falsy primitive can give (`""`, `0`, `NaN`, `false`) lacks the API-error texts, so a thrown falsy primitive gets the 502 with its string in the message |
| EnrichRoute.ModelErrorsFallBack | src/app/api/enrich/route.ts:115-158 | every `Error` from the model stage falls back to the mock payload |
| EnrichRoute.ScrapedText | src/app/api/enrich/route.ts:22-50 | a fetched page is used as is; a failed fetch of an `example.com` site uses the canned page; any other failure ends the request |
| EnrichRoute.ModelStage | src/app/api/enrich/route.ts:102-162 | a parsed reply is returned with the sources and timestamp; status 200 is returned exactly for an enrichment payload |
| EnrichRoute.Scrape | src/app/api/enrich/route.ts:22-50 | the scrape stage continues exactly when `ScrapedText` gives a text, with that text and one source; otherwise it ends with the 502 or the outer 500 |
| EnrichRoute.Post | src/app/api/enrich/route.ts:6-171 | every exit (unparsable JSON 500, missing URL 400, missing key 500, failed scrape 502, short text 422, model stage) is stated; the prompt is sent exactly when all checks pass |

## Left out

- Persistence: the store's `persist` to local storage (`src/store/useAppStore.ts:87-89`) is
  not modelled. The model starts from the initial state.
- Rendering, styling, icons, the popover's open state, and the enrichment panel and note
  editor components are not part of this model.
- Network and SDK calls: the reader service and the language model are parameters
  (`ScrapeOutcome`, `LlmOutcome`). The response schema and the request options are not
  modelled, and neither is the JSON parsing of the reply beyond parsed or failed.
- `crypto.randomUUID()` and `new Date()` are parameters (`id`, `createdAt`, `savedAt`,
  `scrapedAt`, `enrichedAt`, the export `date`). The `yyyy-MM-dd` formatting of date-fns is
  not modelled.
- The blob download (`saveAs`), router navigation, and the percent-encoding of
  `URLSearchParams.toString()` are not modelled. The parameters are modelled as ordered
  key/value pairs.
- The request's `companyId` is read but never used by the route, so the model ignores it.
  A `websiteUrl` that is not a string is not modelled.
- The `filters` of a saved search are typed `any` in the source. The model assumes the three
  fields are present, so the `?.length || 0` fallbacks on the saved page are not modelled.
- Strings are sequences of Unicode code points: a Dafny `char` is a scalar value, while
  JavaScript strings are UTF-16 code units. They agree on text without characters beyond
  U+FFFF. Text with such characters makes the model differ from the source in the three
  places named in the next three lines.
- EnrichRoute.Post: the 100-character check at `src/app/api/enrich/route.ts:53` counts code
  points. A page of 60 emoji is rejected with 422, where the source counts 120 code units
  and sends it to the model.
- EnrichRoute.Truncate: the 15000-character cut at `src/app/api/enrich/route.ts:58` counts
  code points, not code units.
- Strings.Less: string `<` and `sort()` (`src/components/FilterPanel.tsx:26`,
  `src/components/CompanyTable.tsx:45-46`) compare code points, not code units. U+10000
  therefore sorts after U+E000 here and before it in JavaScript.
- Strings.LowerChar: `toLowerCase` lowers only `A`–`Z`. Unicode case mapping is not
  modelled.
- The founding year (`founded: number`, `src/types/index.ts:28`) is an unbounded `int`.
  Floating point, fractional years and `NaN` are not modelled. Only the whole-number years
  of the data are.
- The lists page's own create form (`src/app/lists/page.tsx:22-31`) behaves as
  `ListPicker.SubmitNewList` does, so it has no member of its own.
- CompanyTable.SortedData: the engine's sort algorithm is not modelled. An insertion sort
  stands in for it. The language requires `sort` to be stable, but the contract states
  neither stability nor the order of equal keys.
- CompanyTable.SortedData: order is proved only when every key is defined. When a
  `totalFunding` is missing, the comparator is not a consistent order
  (`UndefinedEqualsEverything`), and JavaScript leaves the result implementation-defined.
- CompanyTable.TableState.VisibleRows: same restriction as `SortedData`. The row count and
  the rows' origin in the data are proved. Which slice of the engine's order is shown is
  not stated.
- ListsPage.Row: states only the field count. Which field goes in which column is given
  only by the definition of `Row`.
- Some behaviour of the code as written is stated as lemmas, not as defects:
  - the page number is not reset when the filtered data shrinks (`PageBeyondEndIsEmpty`,
    `NextFromStalePage`);
  - CSV fields are not escaped (`QuoteRoundTripIff`, `EmbeddedQuoteBreaksField`);
  - a thrown falsy primitive reaches the 502 branch, while `null` reaches the outer 500
    (`ModelFailure`).
