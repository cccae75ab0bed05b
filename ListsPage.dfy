/** The lists page, src/app/lists/page.tsx: which list is shown, and the CSV export of a
    list: its company ids resolved against the static data, one quoted row per company
    under a fixed header, and a file name made from the list name and the day's date. The
    date (`format(new Date(), 'yyyy-MM-dd')`) is a parameter. */
module ListsPage {
  import opened Types
  import opened Seqs
  import opened Strings
  import opened AppStore

  // ---- the active list ---------------------------------------------------------------

  /** The initial selection: the first list's id, or nothing when there are no lists. */
  function InitialActiveListId(lists: seq<List>): (r: Option<string>)
    ensures r.None? <==> lists == []
    ensures r.Some? ==> r.value == lists[0].id
  {
    if |lists| > 0 then Some(lists[0].id) else None
  }

  /** The position `lists.find(l => l.id === id)` stops at: the first list with that id,
      or -1 when there is none. */
  function FindListIndex(lists: seq<List>, id: string): (k: int)
    ensures -1 <= k < |lists|
    ensures k == -1 <==> id !in ListIds(lists)
    ensures k >= 0 ==> lists[k].id == id && forall i :: 0 <= i < k ==> lists[i].id != id
  {
    if lists == [] then -1
    else if lists[0].id == id then 0
    else
      var k := FindListIndex(lists[1..], id);
      assert ListIds(lists) == [lists[0].id] + ListIds(lists[1..]);
      if k == -1 then -1
      else
        FirstListCons(lists, id, k);
        k + 1
  }

  lemma FirstListCons(lists: seq<List>, id: string, k: int)
    requires |lists| > 0 && lists[0].id != id && 0 <= k < |lists| - 1
    requires lists[1..][k].id == id && forall i :: 0 <= i < k ==> lists[1..][i].id != id
    ensures lists[k + 1].id == id && forall i :: 0 <= i < k + 1 ==> lists[i].id != id
  {
    forall i | 0 <= i < k + 1 ensures lists[i].id != id {
      if i > 0 { assert lists[i] == lists[1..][i - 1]; }
    }
  }

  /** `activeList`: the list whose id is selected, falling back to the first list; nothing
      only when there are no lists at all. */
  function ActiveList(lists: seq<List>, activeListId: Option<string>): (r: Option<List>)
    ensures r.None? <==> lists == []
    ensures r.Some? ==> r.value in lists
    ensures activeListId.Some? && activeListId.value in ListIds(lists) ==>
      r == Some(lists[FindListIndex(lists, activeListId.value)])
    ensures (activeListId.None? || activeListId.value !in ListIds(lists)) && lists != [] ==>
      r == Some(lists[0])
  {
    var k := if activeListId.Some? then FindListIndex(lists, activeListId.value) else -1;
    if k >= 0 then Some(lists[k])
    else if |lists| > 0 then Some(lists[0])
    else None
  }

  /** On first render the first list is shown. */
  lemma InitiallyFirstList(lists: seq<List>)
    requires lists != []
    ensures ActiveList(lists, InitialActiveListId(lists)) == Some(lists[0])
  {
  }

  /** "Delete List" removes the shown list; the page then falls back to the first of the
      remaining lists, or shows nothing when none remain. */
  lemma ActiveAfterDelete(lists: seq<List>, id: string)
    ensures var after := ListsAfterDelete(lists, id);
      ActiveList(after, Some(id)) == if after == [] then None else Some(after[0])
  {
    DeleteIds(lists, id);
  }

  /** The same for whatever `activeListId` holds (the deleted id, `null` for a list created
      on this page, or an id deleted before): "Delete List" removes the list that is shown,
      and afterwards the first remaining list is shown, or nothing when none remain. */
  lemma ActiveAfterDeleteShown(lists: seq<List>, active: Option<string>)
    requires lists != []
    ensures var id := ActiveList(lists, active).value.id;
      var after := ListsAfterDelete(lists, id);
      ActiveList(after, active) == if after == [] then None else Some(after[0])
  {
    DeleteIds(lists, ActiveList(lists, active).value.id);
  }

  // ---- resolving the list's companies ------------------------------------------------

  /** `k` is the first position of a company with that id. */
  predicate FirstWithId(companies: seq<Company>, id: string, k: int) {
    0 <= k < |companies| && companies[k].id == id && forall j :: 0 <= j < k ==> companies[j].id != id
  }

  /** `companiesData.find(c => c.id === id)`: the first company with that id. */
  function FindCompany(companies: seq<Company>, id: string): (r: Option<Company>)
    ensures r.None? <==> id !in CompanyIds(companies)
    ensures r.Some? ==> r.value in companies && r.value.id == id
    ensures r.Some? ==> exists k :: FirstWithId(companies, id, k) && companies[k] == r.value
  {
    if companies == [] then None
    else if companies[0].id == id then
      assert FirstWithId(companies, id, 0);
      Some(companies[0])
    else
      assert CompanyIds(companies) == [companies[0].id] + CompanyIds(companies[1..]);
      var r := FindCompany(companies[1..], id);
      if r.Some? then
        var k :| FirstWithId(companies[1..], id, k) && companies[1..][k] == r.value;
        FirstWithIdCons(companies, id, k);
        r
      else r
  }

  lemma FirstWithIdCons(companies: seq<Company>, id: string, k: int)
    requires |companies| > 0 && companies[0].id != id && FirstWithId(companies[1..], id, k)
    ensures FirstWithId(companies, id, k + 1) && companies[k + 1] == companies[1..][k]
  {
    forall j | 0 <= j < k + 1 ensures companies[j].id != id {
      if j > 0 { assert companies[j] == companies[1..][j - 1]; }
    }
  }

  /** `ids.map(find).filter(Boolean)`: the companies of the list in list order, with the
      ids the data do not know dropped. */
  function Resolve(ids: seq<string>, companies: seq<Company>): (r: seq<Company>)
    ensures |r| <= |ids|
    ensures forall i :: 0 <= i < |r| ==> r[i] in companies
    ensures CompanyIds(r) == Filter((id: string) => id in CompanyIds(companies), ids)
  {
    if ids == [] then []
    else
      var rest := Resolve(ids[1..], companies);
      var found := FindCompany(companies, ids[0]);
      if found.Some? then
        CompanyIdsCons(found.value, rest);
        [found.value] + rest
      else rest
  }

  /** Each resolved company is the one `find` returns for its id: the first company of the
      data with that id. */
  lemma {:induction false} ResolveFindsFirst(ids: seq<string>, companies: seq<Company>, i: nat)
    requires i < |Resolve(ids, companies)|
    ensures FindCompany(companies, Resolve(ids, companies)[i].id) == Some(Resolve(ids, companies)[i])
  {
    var r, rest := Resolve(ids, companies), Resolve(ids[1..], companies);
    var found := FindCompany(companies, ids[0]);
    if found.Some? {
      assert r == [found.value] + rest;
      FindCompanyOwnId(companies, ids[0]);
      if i > 0 {
        ResolveFindsFirst(ids[1..], companies, i - 1);
      }
      ConsFindsFirst(found.value, rest, r, companies, i);
    } else {
      assert r == rest;
      ResolveFindsFirst(ids[1..], companies, i);
    }
  }

  lemma ConsFindsFirst(c: Company, rest: seq<Company>, r: seq<Company>, companies: seq<Company>, i: nat)
    requires r == [c] + rest && i < |r|
    requires FindCompany(companies, c.id) == Some(c)
    requires i > 0 ==> FindCompany(companies, rest[i - 1].id) == Some(rest[i - 1])
    ensures FindCompany(companies, r[i].id) == Some(r[i])
  {
    if i > 0 {
      assert r[i] == rest[i - 1];
    }
  }

  lemma FindCompanyOwnId(companies: seq<Company>, id: string)
    requires FindCompany(companies, id).Some?
    ensures var c := FindCompany(companies, id).value; FindCompany(companies, c.id) == Some(c)
  {
  }

  lemma CompanyIdsCons(c: Company, rest: seq<Company>)
    ensures CompanyIds([c] + rest) == [c.id] + CompanyIds(rest)
  {
  }

  /** Nothing is resolved exactly when no id of the list is known. */
  lemma ResolveEmptyIff(ids: seq<string>, companies: seq<Company>)
    ensures Resolve(ids, companies) == [] <==> forall i :: 0 <= i < |ids| ==> ids[i] !in CompanyIds(companies)
  {
    var r := Resolve(ids, companies);
    assert |CompanyIds(r)| == |r|;
  }

  // ---- the CSV -----------------------------------------------------------------------

  /** A string field as the export writes it: wrapped in double quotes, the contents
      verbatim. */
  function Quote(s: string): (r: string)
    ensures |r| == |s| + 2 && r[0] == '"' && r[|r| - 1] == '"' && r[1..|r| - 1] == s
  {
    "\"" + s + "\""
  }

  const Header: seq<string> :=
    ["Name", "Website", "Sector", "Stage", "Location", "Founded", "Employees", "Total Funding"]

  /** One row: seven quoted string fields and the unquoted founding year, in the header's
      column order; a missing funding amount is written as an empty quoted field. */
  function Row(c: Company): (r: seq<string>)
    ensures |r| == |Header|
  {
    [Quote(c.name), Quote(c.website), Quote(c.sector), Quote(StageName(c.stage)),
     Quote(c.location), IntToString(c.founded), Quote(c.employees),
     Quote(if c.totalFunding.Some? then c.totalFunding.value else "")]
  }

  /** The lines of the file: the header, then one line per company, each line its fields
      joined by commas. */
  function Lines(companies: seq<Company>): (r: seq<string>)
    ensures |r| == |companies| + 1
    ensures r[0] == HeaderLine
    ensures r[1..] == RowLines(companies)
  {
    [HeaderLine] + RowLines(companies)
  }

  function RowLines(companies: seq<Company>): (r: seq<string>)
    ensures |r| == |companies|
    ensures forall i :: 0 <= i < |companies| ==> r[i] == RowLine(companies[i])
  {
    seq(|companies|, i requires 0 <= i < |companies| => RowLine(companies[i]))
  }

  const HeaderLine: string := Join(Header, ",")

  function RowLine(c: Company): string {
    Join(Row(c), ",")
  }

  function CsvContent(companies: seq<Company>): string {
    Join(Lines(companies), "\n")
  }

  /** A company none of whose string fields holds a line break. */
  predicate SingleLine(c: Company) {
    '\n' !in c.name && '\n' !in c.website && '\n' !in c.sector && '\n' !in c.location
    && '\n' !in c.employees && (c.totalFunding.Some? ==> '\n' !in c.totalFunding.value)
  }

  lemma RowSingleLine(c: Company)
    requires SingleLine(c)
    ensures '\n' !in RowLine(c)
  {
    var r := Row(c);
    var funding := if c.totalFunding.Some? then c.totalFunding.value else "";
    QuoteExcludes(c.name, '\n');
    QuoteExcludes(c.website, '\n');
    QuoteExcludes(c.sector, '\n');
    QuoteExcludes(StageName(c.stage), '\n');
    QuoteExcludes(c.location, '\n');
    QuoteExcludes(c.employees, '\n');
    QuoteExcludes(funding, '\n');
    assert '\n' !in IntToString(c.founded);
    assert forall i :: 0 <= i < |r| ==> '\n' !in r[i];
    JoinExcludes(r, ",", '\n');
  }

  lemma QuoteExcludes(s: string, ch: char)
    requires ch != '"' && ch !in s
    ensures ch !in Quote(s)
  {
  }

  lemma HeaderSingleLine()
    ensures '\n' !in HeaderLine
  {
    JoinExcludes(Header, ",", '\n');
  }

  /** Read back line by line, the file holds the header and then exactly one line per
      company, in order, as long as no field holds a line break. */
  lemma CsvLines(companies: seq<Company>)
    requires forall i :: 0 <= i < |companies| ==> SingleLine(companies[i])
    ensures Split(CsvContent(companies), '\n') == Lines(companies)
    ensures |Split(CsvContent(companies), '\n')| == 1 + |companies|
  {
    var ls := Lines(companies);
    forall i | 0 <= i < |ls| ensures '\n' !in ls[i] {
      if i == 0 {
        HeaderSingleLine();
      } else {
        RowSingleLine(companies[i - 1]);
      }
    }
    SplitJoin(ls, '\n');
  }

  /** A relaxed reader of a quoted field that keeps the quoting rule of RFC 4180,
      section 2: the characters between the enclosing quotes, where an embedded quote must
      be written as two quotes. Unlike the RFC's grammar it accepts every other character,
      not only the printable ASCII of TEXTDATA, a comma and a line break. `None` for a
      field whose quotes are not well formed. */
  function DecodeQuoted(f: string): (r: Option<string>)
    ensures r.Some? ==> |r.value| <= |f| - 2
  {
    if |f| < 2 || f[0] != '"' || f[|f| - 1] != '"' then None
    else Unescape(f[1..|f| - 1])
  }

  function Unescape(s: string): (r: Option<string>)
    ensures r.Some? ==> |r.value| <= |s|
    ensures r.Some? && '"' in s ==> |r.value| < |s|
  {
    if s == [] then Some([])
    else if s[0] == '"' then
      if |s| >= 2 && s[1] == '"' then
        match Unescape(s[2..])
        case Some(t) => Some(['"'] + t)
        case None => None
      else None
    else
      match Unescape(s[1..])
      case Some(t) =>
        assert '"' in s ==> '"' in s[1..];
        Some([s[0]] + t)
      case None => None
  }

  lemma {:induction false} UnescapePlain(s: string)
    requires '"' !in s
    ensures Unescape(s) == Some(s)
  {
    if s != [] {
      UnescapePlain(s[1..]);
      assert s == [s[0]] + s[1..];
    }
  }

  /** An exported string field reads back as the original value under the quoting rule of
      RFC 4180 exactly when the value holds no double quote. */
  lemma QuoteRoundTripIff(s: string)
    ensures DecodeQuoted(Quote(s)) == Some(s) <==> '"' !in s
  {
    if '"' !in s {
      UnescapePlain(s);
    }
  }

  /** A quote that is not doubled, after a quote-free start, makes the field malformed. */
  lemma {:induction false} UnescapeLoneQuote(p: string, q: string)
    requires '"' !in p
    requires |q| >= 1 && q[0] == '"' && (|q| == 1 || q[1] != '"')
    ensures Unescape(p + q) == None
  {
    if p == [] {
      assert p + q == q;
    } else {
      var pq := p + q;
      assert pq[0] == p[0] && pq[1..] == p[1..] + q;
      UnescapeLoneQuote(p[1..], q);
    }
  }

  /** A company named `Say "Hi"` is exported as a field that a conforming reader rejects. */
  lemma EmbeddedQuoteBreaksField()
    ensures DecodeQuoted(Quote("Say \"Hi\"")) == None
  {
    var name := "Say \"Hi\"";
    assert name == "Say " + "\"Hi\"";
    UnescapeLoneQuote("Say ", "\"Hi\"");
    assert Quote(name)[1..|Quote(name)| - 1] == name;
  }

  // ---- the file name and the export --------------------------------------------------

  /** `${name.replace(/\s+/g, '_')}_${date}.csv`. */
  function FileName(listName: string, date: string): string {
    UnderscoreRuns(listName) + ("_" + date + ".csv")
  }

  /** A name without whitespace is kept as it is, followed by `_`, the date and `.csv`. */
  lemma FileNamePlain(listName: string, date: string)
    requires NoWhitespace(listName)
    ensures FileName(listName, date) == listName + "_" + date + ".csv"
  {
    UnderscoreRunsNoWhitespace(listName);
  }

  /** A word, a run of whitespace, then the rest of the name: the word is kept, the whole
      run becomes one `_`, and the rest is named on its own. */
  lemma FileNameRun(x: string, w: string, y: string, date: string)
    requires NoWhitespace(x) && w != [] && AllWhitespace(w)
    requires y == [] || !IsWhitespace(y[0])
    ensures FileName(x + w + y, date) == x + "_" + FileName(y, date)
  {
    var u := UnderscoreRuns(y);
    UnderscoreRunsStep(x, w, y);
    ConcatRegroup(x, "_", u, "_" + date + ".csv");
  }

  lemma ConcatRegroup(a: string, b: string, c: string, d: string)
    ensures a + b + c + d == a + b + (c + d)
  {
  }

  /** The stem keeps no whitespace of the list name. */
  lemma FileNameStem(listName: string, date: string)
    ensures var stem := FileName(listName, date)[..|UnderscoreRuns(listName)|];
      NoWhitespace(stem) && |stem| <= |listName|
  {
    var u := UnderscoreRuns(listName);
    assert FileName(listName, date)[..|u|] == u;
  }

  datatype CsvFile = CsvFile(name: string, content: string)

  /** `exportCSV(list)`: no file when none of the list's ids resolves; otherwise the file
      named after the list and the date, holding the header and the resolved companies. */
  function ExportCsv(list: List, companies: seq<Company>, date: string): (r: Option<CsvFile>)
    ensures r.None? <==> forall i :: 0 <= i < |list.companyIds| ==> list.companyIds[i] !in CompanyIds(companies)
    ensures r.Some? ==> r.value.name == FileName(list.name, date)
    ensures r.Some? ==> r.value.content == CsvContent(Resolve(list.companyIds, companies))
  {
    var resolved := Resolve(list.companyIds, companies);
    ResolveEmptyIff(list.companyIds, companies);
    if |resolved| == 0 then None
    else Some(CsvFile(FileName(list.name, date), CsvContent(resolved)))
  }
}
