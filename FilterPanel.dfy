/** The facet panel, src/components/FilterPanel.tsx: toggling a sector or stage in the
    store's selection, clearing both selections, the sector options derived from the
    company data, and the rule that summarises a long selection on the trigger button. */
module FilterPanel {
  import opened Types
  import opened Seqs
  import opened Strings
  import opened AppStore

  // ---- toggling ----------------------------------------------------------------------

  /** `toggleSector` / `toggleStage` on a selection: a selected value is removed (every
      occurrence), an unselected one is appended. Membership of `v` flips and membership of
      every other value is kept. */
  function Toggle(selected: seq<string>, v: string): (r: seq<string>)
    ensures v in r <==> v !in selected
    ensures forall x :: x != v ==> (x in r <==> x in selected)
  {
    if v in selected then RemoveAll(selected, v) else selected + [v]
  }

  /** Toggling a selected value removes all its copies and no other element. */
  lemma TogglePresentRemovesAll(selected: seq<string>, v: string, x: string)
    requires v in selected
    ensures multiset(Toggle(selected, v))[x] == if x == v then 0 else multiset(selected)[x]
  {
    RemoveAllMultiset(selected, v, x);
  }

  /** Toggling an unselected value appends it at the end. */
  lemma ToggleAbsentAppends(selected: seq<string>, v: string)
    requires v !in selected
    ensures Toggle(selected, v) == selected + [v]
  {
  }

  /** Toggling an unselected value twice restores the selection exactly. */
  lemma ToggleTwiceRestores(selected: seq<string>, v: string)
    requires v !in selected
    ensures Toggle(Toggle(selected, v), v) == selected
  {
    RemoveAllAppended(selected, v);
  }

  /** A selection without duplicates stays without duplicates. */
  lemma ToggleKeepsNoDup(selected: seq<string>, v: string)
    requires NoDup(selected)
    ensures NoDup(Toggle(selected, v))
  {
    if v in selected {
      RemoveAllNoDup(selected, v);
    } else {
      NoDupAppend(selected, v);
    }
  }

  method ToggleSector(store: Store, sector: string)
    modifies store`filterSectors
    ensures store.filterSectors == Toggle(old(store.filterSectors), sector)
  {
    store.SetFilterSectors(Toggle(store.filterSectors, sector));
  }

  method ToggleStage(store: Store, stage: string)
    modifies store`filterStages
    ensures store.filterStages == Toggle(old(store.filterStages), stage)
  {
    store.SetFilterStages(Toggle(store.filterStages, stage));
  }

  /** `hasFilters`: some sector or some stage is selected (the Reset button shows). */
  predicate HasFilters(sectors: seq<string>, stages: seq<string>) {
    |sectors| > 0 || |stages| > 0
  }

  /** `clearFilters`: both selections become empty, so the Reset button disappears. */
  method ClearFilters(store: Store)
    modifies store`filterSectors, store`filterStages
    ensures store.filterSectors == [] && store.filterStages == []
    ensures !HasFilters(store.filterSectors, store.filterStages)
  {
    store.SetFilterSectors([]);
    store.SetFilterStages([]);
  }

  // ---- the option lists --------------------------------------------------------------

  /** The stage options, in the fixed order the panel lists them. */
  function StageOptions(): (r: seq<string>)
    ensures |r| == 5 && NoDup(r)
    ensures forall s: Stage :: StageName(s) in r
  {
    [StageName(PreSeed), StageName(Seed), StageName(SeriesA), StageName(SeriesB), StageName(SeriesC)]
  }

  function Sectors(companies: seq<Company>): (r: seq<string>)
    ensures |r| == |companies|
    ensures forall i :: 0 <= i < |companies| ==> r[i] == companies[i].sector
  {
    seq(|companies|, i requires 0 <= i < |companies| => companies[i].sector)
  }

  /** `new Set(values)` read back as an array: first occurrences, in order. */
  function Dedup(s: seq<string>): (r: seq<string>)
    ensures NoDup(r)
    ensures forall x :: x in r <==> x in s
  {
    if s == [] then []
    else
      var r := Dedup(s[..|s| - 1]);
      var x := s[|s| - 1];
      assert forall i :: 0 <= i < |s| - 1 ==> s[i] in s[..|s| - 1];
      if x in r then r else r + [x]
  }

  predicate StrictlySorted(s: seq<string>) {
    forall i, j :: 0 <= i < j < |s| ==> Less(s[i], s[j])
  }

  /** Inserting a new value into a strictly ascending sequence. */
  function Insert(x: string, s: seq<string>): (r: seq<string>)
    requires StrictlySorted(s) && x !in s
    ensures StrictlySorted(r)
    ensures multiset(r) == multiset(s) + multiset{x}
  {
    if s == [] then [x]
    else if Less(x, s[0]) then
      assert forall j :: 0 < j < |s| ==> Less(x, s[j]) by {
        forall j | 0 < j < |s| ensures Less(x, s[j]) {
          LessTransitive(x, s[0], s[j]);
        }
      }
      [x] + s
    else
      LessTotal(x, s[0]);
      var t := Insert(x, s[1..]);
      assert s == [s[0]] + s[1..];
      assert forall j :: 0 <= j < |t| ==> Less(s[0], t[j]) by {
        forall j | 0 <= j < |t| ensures Less(s[0], t[j]) {
          assert t[j] in multiset(t);
          assert t[j] == x || t[j] in s[1..];
        }
      }
      [s[0]] + t
  }

  /** `Array.prototype.sort()` on distinct strings: ascending by character codes. */
  function SortDistinct(s: seq<string>): (r: seq<string>)
    requires NoDup(s)
    ensures StrictlySorted(r)
    ensures multiset(r) == multiset(s)
  {
    if s == [] then []
    else
      assert s == [s[0]] + s[1..];
      var t := SortDistinct(s[1..]);
      assert s[0] !in multiset(t);
      Insert(s[0], t)
  }

  /** `sectors`: the distinct sectors of the data, ascending, each exactly once. */
  function SectorOptions(companies: seq<Company>): (r: seq<string>)
    ensures StrictlySorted(r)
    ensures forall x :: x in r <==> x in Sectors(companies)
  {
    var d := Dedup(Sectors(companies));
    SortDistinctElements(d);
    SortDistinct(d)
  }

  lemma SortDistinctElements(d: seq<string>)
    requires NoDup(d)
    ensures forall x :: x in SortDistinct(d) <==> x in d
  {
    var r := SortDistinct(d);
    forall x ensures x in r <==> x in d {
      assert x in r <==> x in multiset(r);
      assert x in d <==> x in multiset(d);
    }
  }

  /** A strictly ascending sequence is determined by its elements. */
  lemma {:induction false} StrictlySortedUnique(a: seq<string>, b: seq<string>)
    requires StrictlySorted(a) && StrictlySorted(b)
    requires forall x :: x in a <==> x in b
    ensures a == b
  {
    if a == [] {
      assert forall i :: 0 <= i < |b| ==> b[i] in a;
    } else {
      assert a[0] in b && b[0] in a;
      if a[0] != b[0] {
        var i :| 0 <= i < |b| && b[i] == a[0];
        var j :| 0 <= j < |a| && a[j] == b[0];
        LessAsymmetric(a[0], b[0]);
        assert false;
      }
      forall x ensures x in a[1..] <==> x in b[1..] {
        if x in a[1..] {
          var k :| 1 <= k < |a| && a[k] == x;
          LessIrreflexive(a[0]);
          assert x != a[0];
          assert x in b;
        }
        if x in b[1..] {
          var k :| 1 <= k < |b| && b[k] == x;
          LessIrreflexive(b[0]);
          assert x != b[0];
          assert x in a;
        }
      }
      StrictlySortedUnique(a[1..], b[1..]);
    }
  }

  /** The sector options depend only on which sectors occur, not on the data's order or
      on how often a sector repeats. */
  lemma SectorOptionsDependOnlyOnSectors(c1: seq<Company>, c2: seq<Company>)
    requires forall x :: x in Sectors(c1) <==> x in Sectors(c2)
    ensures SectorOptions(c1) == SectorOptions(c2)
  {
    StrictlySortedUnique(SectorOptions(c1), SectorOptions(c2));
  }

  // ---- the trigger badges ------------------------------------------------------------

  /** The badges the trigger button shows on a wide screen: none for an empty selection,
      each value for one or two, and a single "N selected" badge for more than two. */
  function WideBadges(selected: seq<string>): (r: seq<string>)
    ensures |r| <= 2
    ensures |selected| <= 2 ==> r == selected
    ensures |selected| > 2 ==> r == [IntToString(|selected|) + " selected"]
  {
    if |selected| > 2 then [IntToString(|selected|) + " selected"] else selected
  }
}
