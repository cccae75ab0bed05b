/** The saved-searches page, src/app/saved/page.tsx: the query parameters "Run Search"
    builds from a saved search's filters, and the number of filters a card reports. The
    parameters are an ordered list of key/value pairs; their percent-encoded rendering is
    not part of this model. */
module SavedPage {
  import opened Types
  import opened Strings
  import opened AppStore
  import opened DiscoveryPage

  datatype Param = Param(key: string, value: string)

  function Keys(ps: seq<Param>): (r: seq<string>)
    ensures |r| == |ps|
    ensures forall i :: 0 <= i < |ps| ==> r[i] == ps[i].key
  {
    seq(|ps|, i requires 0 <= i < |ps| => ps[i].key)
  }

  /** `params.get(key)`: the value of the first pair with that key. */
  function Get(ps: seq<Param>, key: string): Option<string> {
    if ps == [] then None
    else if ps[0].key == key then Some(ps[0].value)
    else Get(ps[1..], key)
  }

  /** `get` finds nothing exactly when no pair has the key. */
  lemma {:induction false} GetNoneIff(ps: seq<Param>, key: string)
    ensures Get(ps, key).None? <==> key !in Keys(ps)
  {
    if ps != [] {
      assert Keys(ps) == [ps[0].key] + Keys(ps[1..]);
      GetNoneIff(ps[1..], key);
    }
  }

  /** The pairs whose key differs from `key`, in order. */
  function Without(ps: seq<Param>, key: string): (r: seq<Param>)
    ensures |r| <= |ps|
    ensures key !in Keys(r)
  {
    if ps == [] then []
    else
      var rest := Without(ps[1..], key);
      if ps[0].key == key then rest
      else
        assert Keys([ps[0]] + rest) == [ps[0].key] + Keys(rest);
        [ps[0]] + rest
  }

  lemma {:induction false} WithoutAbsent(ps: seq<Param>, key: string)
    requires key !in Keys(ps)
    ensures Without(ps, key) == ps
  {
    if ps != [] {
      assert Keys(ps) == [ps[0].key] + Keys(ps[1..]);
      WithoutAbsent(ps[1..], key);
    }
  }

  lemma {:induction false} GetAppend(a: seq<Param>, b: seq<Param>, key: string)
    requires key !in Keys(a)
    ensures Get(a + b, key) == Get(b, key)
  {
    if a != [] {
      var ab := a + b;
      assert Keys(a)[0] == a[0].key;
      assert ab[0] == a[0] && ab[1..] == a[1..] + b;
      assert Get(ab, key) == Get(ab[1..], key);
      assert forall i :: 0 <= i < |a[1..]| ==> Keys(a[1..])[i] == Keys(a)[i + 1];
      GetAppend(a[1..], b, key);
    } else {
      assert a + b == b;
    }
  }

  /** `params.set(key, value)` of the URL Standard: the first pair with that key takes the
      new value and every later pair with that key is dropped; without such a pair, the
      pair is appended. */
  function SetParam(ps: seq<Param>, key: string, value: string): (r: seq<Param>)
    ensures Get(r, key) == Some(value)
    ensures key !in Keys(ps) ==> r == ps + [Param(key, value)]
  {
    if ps == [] then [Param(key, value)]
    else if ps[0].key == key then [Param(key, value)] + Without(ps[1..], key)
    else
      assert Keys(ps) == [ps[0].key] + Keys(ps[1..]);
      [ps[0]] + SetParam(ps[1..], key, value)
  }

  /** After `set` the key occurs exactly once, and the pairs with other keys are those of
      before, in their order. */
  lemma {:induction false} SetParamKeepsOthers(ps: seq<Param>, key: string, value: string)
    ensures Without(SetParam(ps, key, value), key) == Without(ps, key)
    ensures |SetParam(ps, key, value)| == |Without(ps, key)| + 1
  {
    if ps == [] {
    } else if ps[0].key == key {
      var rest := Without(ps[1..], key);
      WithoutAbsent(rest, key);
      assert ([Param(key, value)] + rest)[1..] == rest;
    } else {
      SetParamKeepsOthers(ps[1..], key, value);
      var r := [ps[0]] + SetParam(ps[1..], key, value);
      assert r[1..] == SetParam(ps[1..], key, value);
    }
  }

  /** At most one pair with key `k`. */
  predicate Slot(ps: seq<Param>, k: string) {
    |ps| <= 1 && (|ps| == 1 ==> ps[0].key == k)
  }

  /** The value stored under `k` in an optional slot. */
  function SlotValue(ps: seq<Param>): Option<string> {
    if ps == [] then None else Some(ps[0].value)
  }

  lemma KeysAppend(a: seq<Param>, b: seq<Param>)
    ensures Keys(a + b) == Keys(a) + Keys(b)
  {
  }

  /** Reading past an optional slot. */
  lemma GetSlot(a: seq<Param>, rest: seq<Param>, ka: string, k: string)
    requires Slot(a, ka)
    ensures Get(a + rest, k) == if k == ka && a != [] then Some(a[0].value) else Get(rest, k)
  {
    if a == [] {
      assert a + rest == rest;
    } else {
      var ar := a + rest;
      assert ar[0] == a[0] && ar[1..] == rest;
    }
  }

  /** Three slots with distinct keys, one after the other: each key reads its own slot. */
  lemma GetSlots(a: seq<Param>, b: seq<Param>, c: seq<Param>, ka: string, kb: string, kc: string)
    requires ka != kb && kb != kc && ka != kc
    requires Slot(a, ka) && Slot(b, kb) && Slot(c, kc)
    ensures Keys(a + b + c) == Keys(a) + Keys(b) + Keys(c)
    ensures Get(a + b + c, ka) == SlotValue(a)
    ensures Get(a + b + c, kb) == SlotValue(b)
    ensures Get(a + b + c, kc) == SlotValue(c)
  {
    KeysAppend(a, b);
    KeysAppend(a + b, c);
    var bc := b + c;
    assert a + b + c == a + bc;
    GetSlot(a, bc, ka, ka);
    GetSlot(a, bc, ka, kb);
    GetSlot(a, bc, ka, kc);
    GetSlot(b, c, kb, ka);
    GetSlot(b, c, kb, kb);
    GetSlot(b, c, kb, kc);
    GetSlot(c, [], kc, ka);
    GetSlot(c, [], kc, kb);
    GetSlot(c, [], kc, kc);
    assert c + [] == c;
  }

  /** The parameters of a saved search, in the order they are set: `q` for a non-empty
      query, then `sectors` and `stages` for non-empty selections, each holding the
      selected values joined by commas in selection order. */
  function SearchParams(f: Filters): (r: seq<Param>)
    ensures Keys(r) == (if f.search != "" then ["q"] else [])
                       + (if |f.sectors| > 0 then ["sectors"] else [])
                       + (if |f.stages| > 0 then ["stages"] else [])
    ensures Get(r, "q") == if f.search != "" then Some(f.search) else None
    ensures Get(r, "sectors") == if |f.sectors| > 0 then Some(Join(f.sectors, ",")) else None
    ensures Get(r, "stages") == if |f.stages| > 0 then Some(Join(f.stages, ",")) else None
  {
    GetSlots(QSlot(f), SectorsSlot(f), StagesSlot(f), "q", "sectors", "stages");
    QSlot(f) + SectorsSlot(f) + StagesSlot(f)
  }

  function QSlot(f: Filters): seq<Param> {
    if f.search != "" then [Param("q", f.search)] else []
  }

  function SectorsSlot(f: Filters): seq<Param> {
    if |f.sectors| > 0 then [Param("sectors", Join(f.sectors, ","))] else []
  }

  function StagesSlot(f: Filters): seq<Param> {
    if |f.stages| > 0 then [Param("stages", Join(f.stages, ","))] else []
  }

  /** `handleRunSearch(filters)` up to the navigation: a fresh parameter list filled by one
      `set` per non-empty filter. */
  method RunSearchParams(f: Filters) returns (params: seq<Param>)
    ensures params == SearchParams(f)
  {
    params := [];
    if f.search != "" {
      params := SetParam(params, "q", f.search);
    }
    assert params == QSlot(f);
    assert Keys(params) == if f.search != "" then ["q"] else [];
    if |f.sectors| > 0 {
      params := SetParam(params, "sectors", Join(f.sectors, ","));
    }
    assert params == QSlot(f) + SectorsSlot(f);
    KeysAppend(QSlot(f), SectorsSlot(f));
    assert Keys(params) == (if f.search != "" then ["q"] else []) + (if |f.sectors| > 0 then ["sectors"] else []);
    if |f.stages| > 0 {
      params := SetParam(params, "stages", Join(f.stages, ","));
    }
    assert params == QSlot(f) + SectorsSlot(f) + StagesSlot(f);
  }

  /** Splitting the `sectors` value at its commas gives back the selection, in order, when
      no sector name holds a comma. */
  lemma SectorsParamRoundTrip(f: Filters)
    requires |f.sectors| > 0
    requires forall i :: 0 <= i < |f.sectors| ==> ',' !in f.sectors[i]
    ensures Get(SearchParams(f), "sectors").Some?
    ensures Split(Get(SearchParams(f), "sectors").value, ',') == f.sectors
  {
    SplitJoin(f.sectors, ',');
  }

  /** The number a card reports: one per selected sector and stage, one for a query. */
  function FilterCount(f: Filters): (r: nat)
    ensures r == 0 <==> f.search == "" && f.sectors == [] && f.stages == []
    ensures r >= |f.sectors| + |f.stages|
  {
    |f.sectors| + |f.stages| + (if f.search != "" then 1 else 0)
  }

  /** "No filters applied" is shown exactly when running the search sets no parameter. */
  predicate NoFiltersLine(f: Filters) {
    FilterCount(f) == 0
  }

  lemma NoFiltersIffNoParams(f: Filters)
    ensures NoFiltersLine(f) <==> SearchParams(f) == []
    ensures |SearchParams(f)| <= FilterCount(f)
  {
    assert |Keys(SearchParams(f))| == |SearchParams(f)|;
  }

  /** A search saved from the discovery page always has at least one filter, so its card
      never shows "No filters applied". */
  lemma SavedSearchHasFilters(search: string, sectors: seq<string>, stages: seq<string>,
                              answer: Option<string>)
    requires HandleSaveSearch(search, sectors, stages, answer).Saved?
    ensures !NoFiltersLine(HandleSaveSearch(search, sectors, stages, answer).filters)
  {
  }
}
