/** The company table, src/components/CompanyTable.tsx: the sort header state machine,
    the comparator built from JavaScript's `>` and `<` on the selected field, the sort of a
    copy of the data, the fifteen-row pagination with its Previous/Next buttons and the
    "Showing x to y of n" line, and the saved-to-a-list indicator of each row. */
module CompanyTable {
  import opened Types
  import opened Strings
  import opened AppStore

  // ---- sort keys and the comparator --------------------------------------------------

  /** The columns the table can be sorted by. */
  datatype SortField = ByName | ByStage | ByEmployees | ByFounded | ByTotalFunding

  /** The value `a[sortField]` evaluates to: a string, a number, or `undefined` for a
      missing `totalFunding`. */
  datatype Key = Text(s: string) | Number(n: int) | Undefined

  function SortKey(c: Company, field: SortField): (k: Key)
    ensures field == ByFounded ==> k == Number(c.founded)
    ensures field != ByFounded ==> !k.Number?
    ensures k.Undefined? <==> field == ByTotalFunding && c.totalFunding.None?
  {
    match field
    case ByName => Text(c.name)
    case ByStage => Text(StageName(c.stage))
    case ByEmployees => Text(c.employees)
    case ByFounded => Number(c.founded)
    case ByTotalFunding => if c.totalFunding.Some? then Text(c.totalFunding.value) else Undefined
  }

  predicate KeyDefined(c: Company, field: SortField) {
    !SortKey(c, field).Undefined?
  }

  /** JavaScript's `a > b` on two keys: strings by character codes, numbers numerically;
      a comparison involving `undefined` is false. */
  predicate KeyGreater(a: Key, b: Key) {
    match (a, b)
    case (Text(x), Text(y)) => Less(y, x)
    case (Number(x), Number(y)) => x > y
    case _ => false
  }

  predicate KeyLess(a: Key, b: Key) {
    KeyGreater(b, a)
  }

  /** The comparator handed to `sort`: start from 0, set 1 when `a > b`, then -1 when
      `a < b`, and negate the result in descending mode. */
  function Comparison(a: Company, b: Company, field: SortField, desc: bool): (r: int)
    ensures r == -1 || r == 0 || r == 1
    ensures !KeyDefined(a, field) || !KeyDefined(b, field) ==> r == 0
  {
    var ka, kb := SortKey(a, field), SortKey(b, field);
    var c1 := if KeyGreater(ka, kb) then 1 else 0;
    var c2 := if KeyLess(ka, kb) then -1 else c1;
    if desc then -c2 else c2
  }

  /** Descending mode is exactly the negation of ascending mode. */
  lemma DescendingNegates(a: Company, b: Company, field: SortField)
    ensures Comparison(a, b, field, true) == -Comparison(a, b, field, false)
  {
  }

  /** Two keys of one field are both strings or both numbers unless one is missing. */
  lemma SameKind(a: Company, b: Company, field: SortField)
    requires KeyDefined(a, field) && KeyDefined(b, field)
    ensures SortKey(a, field).Text? <==> SortKey(b, field).Text?
  {
  }

  /** With both keys present the comparator is antisymmetric, and it answers 0 exactly
      for equal keys. */
  lemma ComparisonAntisymmetric(a: Company, b: Company, field: SortField, desc: bool)
    requires KeyDefined(a, field) && KeyDefined(b, field)
    ensures Comparison(a, b, field, desc) == -Comparison(b, a, field, desc)
    ensures Comparison(a, b, field, desc) == 0 <==> SortKey(a, field) == SortKey(b, field)
  {
    var ka, kb := SortKey(a, field), SortKey(b, field);
    SameKind(a, b, field);
    if ka.Text? {
      LessAsymmetric(ka.s, kb.s);
      LessIrreflexive(ka.s);
      if ka.s != kb.s {
        LessTotal(ka.s, kb.s);
      }
    }
  }

  /** A missing `totalFunding` compares equal to everything, so the comparator is not an
      order on that field: two different present values are both "equal" to a missing one. */
  lemma UndefinedEqualsEverything(a: Company, b: Company, desc: bool)
    requires a.totalFunding.None?
    ensures Comparison(a, b, ByTotalFunding, desc) == 0
    ensures Comparison(b, a, ByTotalFunding, desc) == 0
  {
  }

  /** "Belongs no later than": the comparator does not ask to swap `a` before `b`. */
  predicate Le(a: Company, b: Company, field: SortField, desc: bool) {
    Comparison(a, b, field, desc) <= 0
  }

  lemma LeTotal(a: Company, b: Company, field: SortField, desc: bool)
    requires KeyDefined(a, field) && KeyDefined(b, field)
    ensures Le(a, b, field, desc) || Le(b, a, field, desc)
  {
    ComparisonAntisymmetric(a, b, field, desc);
  }

  lemma LeTransitive(a: Company, b: Company, c: Company, field: SortField, desc: bool)
    requires KeyDefined(a, field) && KeyDefined(b, field) && KeyDefined(c, field)
    requires Le(a, b, field, desc) && Le(b, c, field, desc)
    ensures Le(a, c, field, desc)
  {
    var ka, kb, kc := SortKey(a, field), SortKey(b, field), SortKey(c, field);
    SameKind(a, b, field);
    SameKind(b, c, field);
    ComparisonAntisymmetric(a, b, field, desc);
    ComparisonAntisymmetric(b, c, field, desc);
    ComparisonAntisymmetric(a, c, field, desc);
    if ka.Text? {
      if Less(ka.s, kb.s) && Less(kb.s, kc.s) { LessTransitive(ka.s, kb.s, kc.s); }
      if Less(kc.s, kb.s) && Less(kb.s, ka.s) { LessTransitive(kc.s, kb.s, ka.s); }
    }
  }

  // ---- the sort ----------------------------------------------------------------------

  predicate AllDefined(s: seq<Company>, field: SortField) {
    forall i :: 0 <= i < |s| ==> KeyDefined(s[i], field)
  }

  /** `s` is in the order the comparator asks for. */
  predicate Ordered(s: seq<Company>, field: SortField, desc: bool) {
    forall i, j :: 0 <= i < j < |s| ==> Le(s[i], s[j], field, desc)
  }

  /** Every pair of positions up to `k` is in order, except pairs ending at `j`. */
  predicate OrderedExcept(s: seq<Company>, k: int, j: int, field: SortField, desc: bool)
    requires k < |s|
  {
    forall p, q :: 0 <= p < q <= k && q != j ==> Le(s[p], s[q], field, desc)
  }

  function Swapped(s: seq<Company>, j: int): (r: seq<Company>)
    requires 0 < j < |s|
    ensures |r| == |s| && r[j - 1] == s[j] && r[j] == s[j - 1]
    ensures forall i :: 0 <= i < |s| && i != j - 1 && i != j ==> r[i] == s[i]
  {
    s[j - 1 := s[j]][j := s[j - 1]]
  }

  lemma SwappedMultiset(s: seq<Company>, j: int)
    requires 0 < j < |s|
    ensures multiset(Swapped(s, j)) == multiset(s)
  {
    var r := Swapped(s, j);
    assert s == s[..j - 1] + [s[j - 1], s[j]] + s[j + 1..];
    assert r == s[..j - 1] + [s[j], s[j - 1]] + s[j + 1..];
  }

  /** One swap of the insertion step moves the exception one place to the left. */
  lemma SwapStep(s: seq<Company>, j: int, k: int, field: SortField, desc: bool)
    requires 0 < j <= k < |s| && AllDefined(s, field)
    requires OrderedExcept(s, k, j, field, desc)
    requires Comparison(s[j - 1], s[j], field, desc) > 0
    ensures AllDefined(Swapped(s, j), field)
    ensures OrderedExcept(Swapped(s, j), k, j - 1, field, desc)
  {
    var r := Swapped(s, j);
    LeTotal(s[j - 1], s[j], field, desc);
    forall p, q | 0 <= p < q <= k && q != j - 1
      ensures Le(r[p], r[q], field, desc)
    {
      if q == j && p < j - 1 {
        assert Le(s[p], s[j - 1], field, desc);
      } else if q > j && p == j {
        assert Le(s[j - 1], s[q], field, desc);
      } else if q > j && p == j - 1 {
        assert Le(s[j], s[q], field, desc);
      }
    }
  }

  /** When the moving element has stopped, the prefix up to `k` is in order. */
  lemma StopStep(s: seq<Company>, j: int, k: int, field: SortField, desc: bool)
    requires 0 <= j <= k < |s| && AllDefined(s, field)
    requires OrderedExcept(s, k, j, field, desc)
    requires j == 0 || Le(s[j - 1], s[j], field, desc)
    ensures Ordered(s[..k + 1], field, desc)
  {
    forall p, q | 0 <= p < q <= k
      ensures Le(s[p], s[q], field, desc)
    {
      if q == j && p < j - 1 {
        LeTransitive(s[p], s[j - 1], s[j], field, desc);
      }
    }
  }

  /** Before the insertion step only pairs ending at `k` may be out of order. */
  lemma EnterStep(s: seq<Company>, k: int, field: SortField, desc: bool)
    requires 0 <= k < |s| && Ordered(s[..k], field, desc)
    ensures OrderedExcept(s, k, k, field, desc)
  {
    forall p, q | 0 <= p < q <= k && q != k
      ensures Le(s[p], s[q], field, desc)
    {
      assert s[p] == s[..k][p] && s[q] == s[..k][q];
    }
  }

  /** One insertion step: the element at `k` moves left past every element the comparator
      ranks after it, so that an ordered prefix of length `k` becomes one of length `k + 1`. */
  method InsertAt(a: array<Company>, k: int, field: SortField, desc: bool, ghost ok: bool)
    requires 0 <= k < a.Length
    requires ok ==> AllDefined(a[..], field) && Ordered(a[..k], field, desc)
    modifies a
    ensures multiset(a[..]) == old(multiset(a[..]))
    ensures ok ==> AllDefined(a[..], field) && Ordered(a[..k + 1], field, desc)
  {
    var j := k;
    if ok {
      EnterStep(a[..], k, field, desc);
    }
    while j > 0 && Comparison(a[j - 1], a[j], field, desc) > 0
      invariant 0 <= j <= k
      invariant multiset(a[..]) == old(multiset(a[..]))
      invariant ok ==> AllDefined(a[..], field) && OrderedExcept(a[..], k, j, field, desc)
      decreases j
    {
      ghost var before := a[..];
      a[j - 1], a[j] := a[j], a[j - 1];
      assert a[..] == Swapped(before, j);
      SwappedMultiset(before, j);
      if ok {
        SwapStep(before, j, k, field, desc);
      }
      j := j - 1;
    }
    if ok {
      StopStep(a[..], j, k, field, desc);
      assert a[..][..k + 1] == a[..k + 1];
    }
  }

  /** `[...data].sort(comparator)`: the data are copied into a fresh array, which is
      sorted in place by insertion (the engine's own algorithm is not part of this model).
      The result is a permutation of the data, and it is in comparator order whenever every
      key of the field is present. */
  method SortedData(data: seq<Company>, field: SortField, desc: bool) returns (sorted: seq<Company>)
    ensures multiset(sorted) == multiset(data)
    ensures AllDefined(data, field) ==> Ordered(sorted, field, desc)
  {
    var a := new Company[|data|](i requires 0 <= i < |data| => data[i]);
    ghost var ok := AllDefined(data, field);
    assert a[..] == data;
    var k := 0;
    while k < a.Length
      invariant 0 <= k <= a.Length
      invariant multiset(a[..]) == multiset(data)
      invariant ok ==> AllDefined(a[..], field) && Ordered(a[..k], field, desc)
    {
      InsertAt(a, k, field, desc, ok);
      k := k + 1;
    }
    assert a[..a.Length] == a[..];
    sorted := a[..];
  }

  // ---- the header state machine ------------------------------------------------------

  datatype SortState = SortState(field: SortField, desc: bool)

  /** `handleSort(field)`: a click on the current column flips the direction; a click on
      another column selects it in ascending order. */
  function AfterSort(s: SortState, field: SortField): (r: SortState)
    ensures r.field == field
    ensures r.desc <==> s.field == field && !s.desc
  {
    if s.field == field then s.(desc := !s.desc) else SortState(field, false)
  }

  /** Two clicks on the current column restore the state. */
  lemma SortTwiceOnCurrentRestores(s: SortState)
    ensures AfterSort(AfterSort(s, s.field), s.field) == s
  {
  }

  /** Two clicks on another column select it in descending order, whatever the state. */
  lemma SortTwiceOnOtherIsDescending(s: SortState, field: SortField)
    requires s.field != field
    ensures AfterSort(AfterSort(s, field), field) == SortState(field, true)
  {
  }

  // ---- pagination --------------------------------------------------------------------

  const ItemsPerPage := 15

  function Min(a: int, b: int): int { if a < b then a else b }

  function Max(a: int, b: int): int { if a < b then b else a }

  /** `Math.ceil(n / itemsPerPage)`: the fewest pages of fifteen that hold `n` rows. */
  function TotalPages(n: nat): (r: nat)
    ensures r * ItemsPerPage >= n
    ensures (r - 1) * ItemsPerPage < n
  {
    (n + ItemsPerPage - 1) / ItemsPerPage
  }

  /** `slice((p - 1) * 15, p * 15)` with JavaScript's clamping of both bounds to the length:
      the rows from position `(p - 1) * 15` on, at most fifteen of them. */
  function PageSlice<T>(s: seq<T>, page: int): (r: seq<T>)
    requires page >= 1
    ensures |r| == Max(0, Min(ItemsPerPage, |s| - (page - 1) * ItemsPerPage))
    ensures forall i :: 0 <= i < |r| ==> r[i] == s[(page - 1) * ItemsPerPage + i]
  {
    var lo := Min((page - 1) * ItemsPerPage, |s|);
    var hi := Min(page * ItemsPerPage, |s|);
    s[lo..hi]
  }

  /** A page of a permutation of `data` holds elements of `data`. */
  lemma PageElements<T>(sorted: seq<T>, data: seq<T>, page: int)
    requires page >= 1 && multiset(sorted) == multiset(data)
    ensures forall i :: 0 <= i < |PageSlice(sorted, page)| ==> PageSlice(sorted, page)[i] in multiset(data)
  {
    var rows := PageSlice(sorted, page);
    forall i | 0 <= i < |rows| ensures rows[i] in multiset(data) {
      assert rows[i] in multiset(sorted);
    }
  }

  /** A page of an ordered sequence is ordered. */
  lemma PageOrdered(sorted: seq<Company>, page: int, field: SortField, desc: bool)
    requires page >= 1 && Ordered(sorted, field, desc)
    ensures Ordered(PageSlice(sorted, page), field, desc)
  {
    var rows := PageSlice(sorted, page);
    var o := (page - 1) * ItemsPerPage;
    forall i, j | 0 <= i < j < |rows|
      ensures Le(rows[i], rows[j], field, desc)
    {
      PairOrdered(sorted, o + i, o + j, field, desc);
    }
  }

  lemma PairOrdered(s: seq<Company>, i: int, j: int, field: SortField, desc: bool)
    requires Ordered(s, field, desc) && 0 <= i < j < |s|
    ensures Le(s[i], s[j], field, desc)
  {
  }

  /** Pages `p` to `last`, one after the other. */
  function PagesFrom<T>(s: seq<T>, p: int, last: int): seq<T>
    requires p >= 1
    decreases last - p
  {
    if p > last then [] else PageSlice(s, p) + PagesFrom(s, p + 1, last)
  }

  lemma {:induction false} PagesFromRest<T>(s: seq<T>, p: int)
    requires 1 <= p
    requires (p - 1) * ItemsPerPage <= |s|
    ensures PagesFrom(s, p, TotalPages(|s|)) == s[(p - 1) * ItemsPerPage..]
    decreases TotalPages(|s|) - p
  {
    var lo := (p - 1) * ItemsPerPage;
    if p > TotalPages(|s|) {
      assert lo == |s|;
    } else if p * ItemsPerPage >= |s| {
      assert PageSlice(s, p) == s[lo..];
      assert p + 1 > TotalPages(|s|);
      assert PageSlice(s, p) + [] == s[lo..];
    } else {
      PagesFromRest(s, p + 1);
      assert PageSlice(s, p) == s[lo..lo + ItemsPerPage];
      assert s[lo..] == s[lo..lo + ItemsPerPage] + s[lo + ItemsPerPage..];
    }
  }

  /** Reading pages 1 to `totalPages` in turn shows every sorted row once, in order. */
  lemma PagesCoverData<T>(s: seq<T>)
    ensures PagesFrom(s, 1, TotalPages(|s|)) == s
  {
    PagesFromRest(s, 1);
  }

  /** A page past the last one is empty. The page number is not reset when the filtered
      data shrink, so this state is reachable. */
  lemma PageBeyondEndIsEmpty<T>(s: seq<T>, page: int)
    requires page > TotalPages(|s|)
    ensures PageSlice(s, page) == []
  {
  }

  /** The pagination controls are rendered when there is more than one page. */
  predicate PaginationShown(n: nat) {
    TotalPages(n) > 1
  }

  lemma PaginationShownIff(n: nat)
    ensures PaginationShown(n) <==> n > ItemsPerPage
  {
  }

  /** The "Showing x to y" bounds. */
  function ShowingFrom(page: int): int { (page - 1) * ItemsPerPage + 1 }

  function ShowingTo(page: int, n: nat): int { Min(page * ItemsPerPage, n) }

  /** On an existing page the line names exactly the rows on it: the first row shown is
      row `ShowingFrom` (counting from 1), the last is row `ShowingTo`. */
  lemma ShowingMatchesSlice<T>(s: seq<T>, page: int)
    requires 1 <= page <= TotalPages(|s|)
    ensures |PageSlice(s, page)| == ShowingTo(page, |s|) - ShowingFrom(page) + 1
    ensures PageSlice(s, page)[0] == s[ShowingFrom(page) - 1]
    ensures PageSlice(s, page)[|PageSlice(s, page)| - 1] == s[ShowingTo(page, |s|) - 1]
  {
  }

  /** The Previous button: one page back, never below page 1. */
  function PreviousPage(p: int): (r: int)
    ensures r >= 1
    ensures p > 1 ==> r == p - 1
    ensures p <= 1 ==> r == 1
  {
    Max(1, p - 1)
  }

  /** The Next button: one page on, never beyond the last page. */
  function NextPage(p: int, totalPages: int): (r: int)
    ensures r <= totalPages
    ensures p < totalPages ==> r == p + 1
    ensures p >= totalPages ==> r == totalPages
  {
    Min(totalPages, p + 1)
  }

  /** From a page that exists, both buttons lead to a page that exists, and Previous undoes
      a Next taken from any page but the last. */
  lemma ButtonsStayInRange(p: int, totalPages: int)
    requires 1 <= p <= totalPages
    ensures 1 <= PreviousPage(p) <= totalPages && 1 <= NextPage(p, totalPages) <= totalPages
    ensures p < totalPages ==> PreviousPage(NextPage(p, totalPages)) == p
  {
  }

  /** A stale page past the end: Next moves backwards, to the last page. */
  lemma NextFromStalePage(p: int, totalPages: int)
    requires p > totalPages
    ensures NextPage(p, totalPages) < p
  {
  }

  // ---- the saved indicator -----------------------------------------------------------

  /** The bookmark of a row is filled when some list contains the company's id. */
  predicate IsSaved(lists: seq<List>, companyId: string) {
    exists i :: 0 <= i < |lists| && companyId in lists[i].companyIds
  }

  /** Adding a company to an existing list fills its bookmark. */
  lemma AddMakesSaved(lists: seq<List>, k: int, companyId: string)
    requires 0 <= k < |lists|
    ensures IsSaved(ListsAfterAdd(lists, lists[k].id, companyId), companyId)
  {
    var r := ListsAfterAdd(lists, lists[k].id, companyId);
    assert companyId in r[k].companyIds;
  }

  /** Removing a company from a list keeps the bookmark of every other company as it was. */
  lemma RemoveKeepsOthersSaved(lists: seq<List>, listId: string, companyId: string, other: string)
    requires other != companyId
    ensures IsSaved(ListsAfterRemove(lists, listId, companyId), other) == IsSaved(lists, other)
  {
    var r := ListsAfterRemove(lists, listId, companyId);
    if IsSaved(lists, other) {
      var i :| 0 <= i < |lists| && other in lists[i].companyIds;
      assert other in r[i].companyIds;
    }
    if IsSaved(r, other) {
      var i :| 0 <= i < |r| && other in r[i].companyIds;
      assert other in lists[i].companyIds;
    }
  }

  /** Removing a company from every list that holds it empties its bookmark: a company held
      by one list only is unsaved by removing it from that list. */
  lemma RemoveFromOnlyListUnsaves(lists: seq<List>, k: int, companyId: string)
    requires 0 <= k < |lists|
    requires forall i :: 0 <= i < |lists| && companyId in lists[i].companyIds ==> lists[i].id == lists[k].id
    ensures !IsSaved(ListsAfterRemove(lists, lists[k].id, companyId), companyId)
  {
  }

  // ---- the table's own state ---------------------------------------------------------

  /** The component state: the sort column and direction and the current page. */
  class TableState {
    var sortField: SortField
    var sortDesc: bool
    var currentPage: int

    ghost predicate Valid()
      reads this
    {
      currentPage >= 1
    }

    /** Sorted by name, ascending, on page 1. */
    constructor()
      ensures Valid()
      ensures sortField == ByName && !sortDesc && currentPage == 1
    {
      sortField := ByName;
      sortDesc := false;
      currentPage := 1;
    }

    method HandleSort(field: SortField)
      modifies this`sortField, this`sortDesc
      ensures SortState(sortField, sortDesc) == AfterSort(SortState(old(sortField), old(sortDesc)), field)
    {
      var s := AfterSort(SortState(sortField, sortDesc), field);
      sortField := s.field;
      sortDesc := s.desc;
    }

    method Previous()
      modifies this`currentPage
      ensures currentPage == PreviousPage(old(currentPage))
      ensures Valid()
    {
      currentPage := PreviousPage(currentPage);
    }

    /** The Next button exists only while the pagination is shown, that is, while there is
        more than one page of `n` rows. */
    method Next(n: nat)
      requires PaginationShown(n)
      modifies this`currentPage
      ensures currentPage == NextPage(old(currentPage), TotalPages(n))
      ensures old(Valid()) ==> Valid()
    {
      currentPage := NextPage(currentPage, TotalPages(n));
    }

    /** The rows the table shows: the sorted copy of the data, cut to the current page. */
    method VisibleRows(data: seq<Company>) returns (rows: seq<Company>)
      requires Valid()
      ensures |rows| <= ItemsPerPage
      ensures |rows| == Max(0, Min(ItemsPerPage, |data| - (currentPage - 1) * ItemsPerPage))
      ensures forall i :: 0 <= i < |rows| ==> rows[i] in multiset(data)
      ensures AllDefined(data, sortField) ==> Ordered(rows, sortField, sortDesc)
    {
      var sorted := SortedData(data, sortField, sortDesc);
      assert |sorted| == |multiset(sorted)| == |data|;
      rows := PageSlice(sorted, currentPage);
      PageElements(sorted, data, currentPage);
      if AllDefined(data, sortField) {
        PageOrdered(sorted, currentPage, sortField, sortDesc);
      }
    }
  }
}
