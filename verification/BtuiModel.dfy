/** The records of the log viewer: which of them are shown, and in what order. */
module BtuiModels {
  import opened Entries

  datatype LogRecord = LogRecord(severity: u16, category: string, writerName: string, message: string, clockValue: u64)

  datatype FilterState = FilterState(
    minSeverity: u16, categoryFilter: string, writerFilter: string, messageFilter: string)

  datatype SortOrder = Unsorted | Ascending | Descending

  const TRACE: u16 := 0x20
  const DEBUG: u16 := 0x40
  const INFO: u16 := 0x80
  const WARNING: u16 := 0x100
  const ERROR: u16 := 0x200
  const CRITICAL: u16 := 0x400

  const NO_FILTER: FilterState := FilterState(TRACE, "", "", "")

  // ---------------------------------------------------------------- substrings

  function ToLower(c: char): char {
    if 'A' <= c <= 'Z' then c + ('a' - 'A') else c
  }

  /** Whether `needle` stands at position `i`, but for case. */
  predicate MatchesAt(haystack: string, needle: string, i: nat) {
    i + |needle| <= |haystack|
    && forall j :: 0 <= j < |needle| ==> ToLower(haystack[i + j]) == ToLower(needle[j])
  }

  ghost predicate Contains(haystack: string, needle: string) {
    exists i: nat :: MatchesAt(haystack, needle, i)
  }

  method ContainsSubstringCaseInsensitive(haystack: string, needle: string) returns (found: bool)
    ensures found <==> Contains(haystack, needle)
  {
    if needle == "" {
      assert MatchesAt(haystack, needle, 0);
      return true;
    }
    if |haystack| < |needle| {
      return false;
    }
    for i := 0 to |haystack| - |needle| + 1
      invariant forall k :: 0 <= k < i ==> !MatchesAt(haystack, needle, k)
    {
      var matches := true;
      for j := 0 to |needle|
        invariant matches && forall k :: 0 <= k < j ==> ToLower(haystack[i + k]) == ToLower(needle[k])
      {
        if ToLower(haystack[i + j]) != ToLower(needle[j]) {
          matches := false;
          break;
        }
      }
      if matches {
        assert MatchesAt(haystack, needle, i);
        return true;
      }
    }
    return false;
  }

  ghost predicate Passes(rec: LogRecord, f: FilterState) {
    && rec.severity >= f.minSeverity
    && Contains(rec.category, f.categoryFilter)
    && Contains(rec.writerName, f.writerFilter)
    && Contains(rec.message, f.messageFilter)
  }

  /** The letters, and nothing else. */
  lemma LowerCase(c: char)
    ensures forall i :: 0 <= i < 26 ==> ToLower("ABCDEFGHIJKLMNOPQRSTUVWXYZ"[i]) == "abcdefghijklmnopqrstuvwxyz"[i]
    ensures c !in "ABCDEFGHIJKLMNOPQRSTUVWXYZ" ==> ToLower(c) == c
  {
    if 'A' <= c <= 'Z' {
      assert "ABCDEFGHIJKLMNOPQRSTUVWXYZ"[(c - 'A') as int] == c;
    }
  }

  /** Without a filter all records pass from the lowest severity on, and each filter is about its own member. */
  lemma FiltersAreIndependent(rec: LogRecord, s: string, severity: u16)
    ensures Passes(rec, NO_FILTER) <==> rec.severity >= 0x20
    ensures Passes(rec, NO_FILTER.(minSeverity := severity)) <==> rec.severity >= severity
    ensures Passes(rec, NO_FILTER.(categoryFilter := s)) <==> rec.severity >= 0x20 && Contains(rec.category, s)
    ensures Passes(rec, NO_FILTER.(writerFilter := s)) <==> rec.severity >= 0x20 && Contains(rec.writerName, s)
    ensures Passes(rec, NO_FILTER.(messageFilter := s)) <==> rec.severity >= 0x20 && Contains(rec.message, s)
  {
    assert MatchesAt(rec.category, "", 0) && MatchesAt(rec.writerName, "", 0) && MatchesAt(rec.message, "", 0);
  }

  /** All filters together let through what each of them does. */
  lemma FiltersCombine(rec: LogRecord, f: FilterState)
    ensures Passes(rec, f) <==>
              && Passes(rec, FilterState(f.minSeverity, f.categoryFilter, "", ""))
              && Passes(rec, FilterState(f.minSeverity, "", f.writerFilter, ""))
              && Passes(rec, FilterState(f.minSeverity, "", "", f.messageFilter))
  {
    assert MatchesAt(rec.category, "", 0) && MatchesAt(rec.writerName, "", 0) && MatchesAt(rec.message, "", 0);
  }

  // ---------------------------------------------------------------- lists of record indices

  ghost predicate InRange(records: seq<LogRecord>, list: seq<nat>) {
    forall k :: 0 <= k < |list| ==> list[k] < |records|
  }

  /** The indices, without repetition, of the records among the first `n` that pass; equal clocks in file order. */
  ghost predicate Shows(records: seq<LogRecord>, n: nat, f: FilterState, list: seq<nat>)
    requires n <= |records|
  {
    && InRange(records, list)
    && (forall i :: i in list <==> 0 <= i < n && Passes(records[i], f))
    && (forall a, b :: 0 <= a < b < |list| ==> list[a] != list[b])
    && (forall a, b :: 0 <= a < b < |list| && records[list[a]].clockValue == records[list[b]].clockValue ==> list[a] < list[b])
  }

  /** The comparison given to `stable_sort`. */
  predicate Before(records: seq<LogRecord>, ascending: bool, i: nat, j: nat)
    requires i < |records| && j < |records|
  {
    if ascending then records[i].clockValue < records[j].clockValue else records[i].clockValue > records[j].clockValue
  }

  ghost predicate Sorted(records: seq<LogRecord>, ascending: bool, list: seq<nat>)
    requires InRange(records, list)
  {
    forall a, b :: 0 <= a < b < |list| ==> !Before(records, ascending, list[b], list[a])
  }

  ghost predicate SortedBy(records: seq<LogRecord>, order: SortOrder, list: seq<nat>)
    requires InRange(records, list)
  {
    order.Unsorted? || Sorted(records, order.Ascending?, list)
  }

  /** In terms of the clocks themselves. */
  lemma SortedMeans(records: seq<LogRecord>, list: seq<nat>)
    requires InRange(records, list)
    ensures Sorted(records, true, list) <==>
              forall a, b :: 0 <= a < b < |list| ==> records[list[a]].clockValue <= records[list[b]].clockValue
    ensures Sorted(records, false, list) <==>
              forall a, b :: 0 <= a < b < |list| ==> records[list[a]].clockValue >= records[list[b]].clockValue
  {
    if Sorted(records, true, list) {
      forall a, b | 0 <= a < b < |list|
        ensures records[list[a]].clockValue <= records[list[b]].clockValue
      {
        assert !Before(records, true, list[b], list[a]);
      }
    }
    if Sorted(records, false, list) {
      forall a, b | 0 <= a < b < |list|
        ensures records[list[a]].clockValue >= records[list[b]].clockValue
      {
        assert !Before(records, false, list[b], list[a]);
      }
    }
  }

  /** Elements that compare equal keep their order. */
  ghost predicate KeepsTies(records: seq<LogRecord>, list: seq<nat>, list': seq<nat>)
    requires InRange(records, list) && InRange(records, list')
  {
    forall a, b :: 0 <= a < b < |list'| && records[list'[a]].clockValue == records[list'[b]].clockValue ==>
      Follows(list, list'[a], list'[b])
  }

  ghost predicate Follows(list: seq<nat>, i: nat, j: nat) {
    exists a, b :: 0 <= a < b < |list| && list[a] == i && list[b] == j
  }

  lemma FollowsAppend(list: seq<nat>, x: nat, i: nat, j: nat)
    requires Follows(list, i, j) || (i in list && j == x)
    ensures Follows(list + [x], i, j)
  {
    var list' := list + [x];
    if Follows(list, i, j) {
      var a, b :| 0 <= a < b < |list| && list[a] == i && list[b] == j;
      assert list'[a] == i && list'[b] == j;
    } else {
      var a :| 0 <= a < |list| && list[a] == i;
      assert list'[a] == i && list'[|list|] == j;
    }
  }

  /** The element goes behind those it is not before, so behind its equals. */
  method InsertStable(records: seq<LogRecord>, ascending: bool, ghost source: seq<nat>, sorted: seq<nat>, x: nat)
    returns (list: seq<nat>)
    requires InRange(records, sorted) && InRange(records, source) && x < |records|
    requires Sorted(records, ascending, sorted) && KeepsTies(records, source, sorted)
    requires multiset(sorted) == multiset(source)
    ensures InRange(records, list) && InRange(records, source + [x])
    ensures Sorted(records, ascending, list) && KeepsTies(records, source + [x], list)
    ensures multiset(list) == multiset(source + [x])
  {
    var i := |sorted|;
    while i > 0 && Before(records, ascending, x, sorted[i - 1])
      invariant 0 <= i <= |sorted|
      invariant forall k :: i <= k < |sorted| ==> Before(records, ascending, x, sorted[k])
    {
      i := i - 1;
    }
    list := sorted[..i] + [x] + sorted[i..];
    Inserted(sorted, i, x);
    InsertedSorted(records, ascending, sorted, i, x);
    forall a, b | 0 <= a < b < |list| && records[list[a]].clockValue == records[list[b]].clockValue
      ensures Follows(source + [x], list[a], list[b])
    {
      InsertedTie(records, ascending, source, sorted, i, x, a, b);
    }
  }

  lemma Inserted(sorted: seq<nat>, i: nat, x: nat)
    requires i <= |sorted|
    ensures multiset(sorted[..i] + [x] + sorted[i..]) == multiset(sorted) + multiset{x}
  {
    assert sorted == sorted[..i] + sorted[i..];
  }

  lemma InsertedSorted(records: seq<LogRecord>, ascending: bool, sorted: seq<nat>, i: nat, x: nat)
    requires InRange(records, sorted) && x < |records| && i <= |sorted| && Sorted(records, ascending, sorted)
    requires forall k :: i <= k < |sorted| ==> Before(records, ascending, x, sorted[k])
    requires i > 0 ==> !Before(records, ascending, x, sorted[i - 1])
    ensures InRange(records, sorted[..i] + [x] + sorted[i..])
    ensures Sorted(records, ascending, sorted[..i] + [x] + sorted[i..])
  {
    forall k | 0 <= k < i
      ensures !Before(records, ascending, x, sorted[k])
    {
      assert k == i - 1 || !Before(records, ascending, sorted[i - 1], sorted[k]);
    }
  }

  lemma InsertedTie(
    records: seq<LogRecord>, ascending: bool, source: seq<nat>, sorted: seq<nat>, i: nat, x: nat, a: nat, b: nat)
    requires InRange(records, sorted) && InRange(records, source) && x < |records| && i <= |sorted|
    requires forall k :: i <= k < |sorted| ==> Before(records, ascending, x, sorted[k])
    requires KeepsTies(records, source, sorted) && multiset(sorted) == multiset(source)
    requires a < b <= |sorted|
    requires var list := sorted[..i] + [x] + sorted[i..];
             InRange(records, list) && records[list[a]].clockValue == records[list[b]].clockValue
    ensures var list := sorted[..i] + [x] + sorted[i..]; Follows(source + [x], list[a], list[b])
  {
    var list := sorted[..i] + [x] + sorted[i..];
    if b == i {
      assert list[a] == sorted[a];
      assert sorted[a] in multiset(sorted);
      FollowsAppend(source, x, list[a], x);
    } else if a != i {
      var a', b' := if a < i then a else a - 1, if b < i then b else b - 1;
      assert list[a] == sorted[a'] && list[b] == sorted[b'];
      FollowsAppend(source, x, list[a], list[b]);
    }
  }

  /** What `std::stable_sort` promises. */
  method StableSort(records: seq<LogRecord>, ascending: bool, list: seq<nat>) returns (r: seq<nat>)
    requires InRange(records, list)
    ensures multiset(r) == multiset(list) && InRange(records, r)
    ensures Sorted(records, ascending, r) && KeepsTies(records, list, r)
  {
    r := [];
    for i := 0 to |list|
      invariant InRange(records, list[..i]) && InRange(records, r)
      invariant multiset(r) == multiset(list[..i])
      invariant Sorted(records, ascending, r) && KeepsTies(records, list[..i], r)
    {
      assert list[..i + 1] == list[..i] + [list[i]];
      r := InsertStable(records, ascending, list[..i], r, list[i]);
    }
    assert list[..|list|] == list;
  }

  /** A stable sort changes neither what is shown nor the file order of equal clocks. */
  lemma StableSortShows(records: seq<LogRecord>, n: nat, f: FilterState, list: seq<nat>, list': seq<nat>)
    requires n <= |records| && Shows(records, n, f, list) && multiset(list') == multiset(list)
    requires InRange(records, list) && InRange(records, list') && KeepsTies(records, list, list')
    ensures Shows(records, n, f, list')
  {
    hide Passes;
    forall i
      ensures i in list' <==> i in list
    {
      assert i in multiset(list') <==> i in multiset(list);
    }
    NoDuplicates(list, list');
    forall a, b | 0 <= a < b < |list'| && records[list'[a]].clockValue == records[list'[b]].clockValue
      ensures list'[a] < list'[b]
    {
      assert Follows(list, list'[a], list'[b]);
    }
  }

  lemma NoDuplicates(list: seq<nat>, list': seq<nat>)
    requires multiset(list') == multiset(list)
    requires forall a, b :: 0 <= a < b < |list| ==> list[a] != list[b]
    ensures forall a, b :: 0 <= a < b < |list'| ==> list'[a] != list'[b]
  {
    forall i | i in list
      ensures multiset(list)[i] == 1
    {
      OccursOnce(list, i);
    }
    forall a, b | 0 <= a < b < |list'|
      ensures list'[a] != list'[b]
    {
      assert list'[a] in multiset(list');
      if list'[a] == list'[b] {
        OccursTwice(list', a, b);
      }
    }
  }

  lemma OccursOnce(list: seq<nat>, i: nat)
    requires i in list && forall a, b :: 0 <= a < b < |list| ==> list[a] != list[b]
    ensures multiset(list)[i] == 1
  {
    var k :| 0 <= k < |list| && list[k] == i;
    assert list == list[..k] + [i] + list[k + 1..];
  }

  lemma OccursTwice(list: seq<nat>, a: nat, b: nat)
    requires a < b < |list| && list[a] == list[b]
    ensures multiset(list)[list[a]] >= 2
  {
    assert list == list[..a] + [list[a]] + list[a + 1..b] + [list[b]] + list[b + 1..];
  }

  // ---------------------------------------------------------------- the order is determined

  /** `i` is shown before `j`, if both are, in a list in the given order. */
  predicate Precedes(records: seq<LogRecord>, ascending: bool, i: nat, j: nat)
    requires i < |records| && j < |records|
  {
    Before(records, ascending, i, j) || (records[i].clockValue == records[j].clockValue && i < j)
  }

  lemma SortedPrecedes(records: seq<LogRecord>, n: nat, f: FilterState, ascending: bool, list: seq<nat>, a: nat, b: nat)
    requires n <= |records| && Shows(records, n, f, list) && InRange(records, list) && Sorted(records, ascending, list)
    requires a < b < |list|
    ensures Precedes(records, ascending, list[a], list[b])
  {
    assert !Before(records, ascending, list[b], list[a]);
  }

  lemma {:induction false} SameOrder(records: seq<LogRecord>, ascending: bool, a: seq<nat>, b: seq<nat>)
    requires InRange(records, a) && InRange(records, b)
    requires forall i, j :: 0 <= i < j < |a| ==> Precedes(records, ascending, a[i], a[j])
    requires forall i, j :: 0 <= i < j < |b| ==> Precedes(records, ascending, b[i], b[j])
    requires forall i :: i in a <==> i in b
    ensures a == b
  {
    assert b != [] ==> b[0] in b && b[0] in a;
    if a != [] {
      assert a[0] in b && b != [] && b[0] in a;
      FirstIsFirst(records, ascending, a, b);
      forall i
        ensures i in a[1..] <==> i in b[1..]
      {
        TailHas(records, ascending, a, i);
        TailHas(records, ascending, b, i);
      }
      SameOrder(records, ascending, a[1..], b[1..]);
    }
  }

  lemma FirstIsFirst(records: seq<LogRecord>, ascending: bool, a: seq<nat>, b: seq<nat>)
    requires InRange(records, a) && InRange(records, b) && a != [] && b != [] && a[0] in b && b[0] in a
    requires forall i, j :: 0 <= i < j < |a| ==> Precedes(records, ascending, a[i], a[j])
    requires forall i, j :: 0 <= i < j < |b| ==> Precedes(records, ascending, b[i], b[j])
    ensures a[0] == b[0]
  {
    var i :| 0 <= i < |b| && b[i] == a[0];
    var j :| 0 <= j < |a| && a[j] == b[0];
  }

  lemma TailHas(records: seq<LogRecord>, ascending: bool, a: seq<nat>, i: int)
    requires InRange(records, a) && a != []
    requires forall i, j :: 0 <= i < j < |a| ==> Precedes(records, ascending, a[i], a[j])
    ensures i in a[1..] <==> i in a && i != a[0]
  {
    if i in a && i != a[0] {
      var k :| 0 <= k < |a| && a[k] == i;
      assert a[1..][k - 1] == i;
    }
    if i in a[1..] {
      var k :| 0 <= k < |a[1..]| && a[1..][k] == i;
      assert Precedes(records, ascending, a[0], a[k + 1]);
    }
  }

  /**
   After sorting, the list depends on what passed the filter and on the order alone: however two lists of the
   same records came about, once sorted alike they are the same.
   */
  lemma SortedListIsDetermined(records: seq<LogRecord>, n: nat, f: FilterState, order: SortOrder, a: seq<nat>, b: seq<nat>)
    requires n <= |records| && Shows(records, n, f, a) && Shows(records, n, f, b) && !order.Unsorted?
    requires InRange(records, a) && InRange(records, b) && SortedBy(records, order, a) && SortedBy(records, order, b)
    ensures a == b
  {
    hide Passes;
    forall i, j | 0 <= i < j < |a|
      ensures Precedes(records, order.Ascending?, a[i], a[j])
    {
      SortedPrecedes(records, n, f, order.Ascending?, a, i, j);
    }
    forall i, j | 0 <= i < j < |b|
      ensures Precedes(records, order.Ascending?, b[i], b[j])
    {
      SortedPrecedes(records, n, f, order.Ascending?, b, i, j);
    }
    hide Shows;
    assert forall i :: i in a <==> i in b by {
      SameMembers(records, n, f, a, b);
    }
    SameOrder(records, order.Ascending?, a, b);
  }

  lemma SameMembers(records: seq<LogRecord>, n: nat, f: FilterState, a: seq<nat>, b: seq<nat>)
    requires n <= |records| && Shows(records, n, f, a) && Shows(records, n, f, b)
    ensures forall i :: i in a <==> i in b
  {
    hide Passes;
  }

  // ---------------------------------------------------------------- the model

  /**
   `loaded` and `applied` are history: how many records there were, and which filter was set, when filters
   were last applied. The filter state may have been changed since, without effect on the list.
   */
  class BtuiModel {
    var allRecords: seq<LogRecord>
    var filteredIndices: seq<nat>
    var filterState: FilterState
    var sortOrder: SortOrder
    ghost var loaded: nat
    ghost var applied: FilterState

    ghost predicate Valid()
      reads this
    {
      && loaded <= |allRecords|
      && InRange(allRecords, filteredIndices)
      && Shows(allRecords, loaded, applied, filteredIndices)
    }

    constructor ()
      ensures Valid() && allRecords == [] && filterState == NO_FILTER && sortOrder == Unsorted
    {
      allRecords, filteredIndices := [], [];
      filterState, sortOrder := NO_FILTER, Unsorted;
      loaded, applied := 0, NO_FILTER;
    }

    /** Shows the passing ones of all records; with a sort order set, in that order. */
    method ApplyFilters()
      requires loaded <= |allRecords|
      modifies this`filteredIndices, this`loaded, this`applied
      ensures Valid() && loaded == |allRecords| && applied == filterState
      ensures SortedBy(allRecords, sortOrder, filteredIndices)
    {
      hide Passes;
      filteredIndices := [];
      for i := 0 to |allRecords|
        modifies this`filteredIndices
        invariant InRange(allRecords, filteredIndices)
        invariant forall k :: k in filteredIndices <==> 0 <= k < i && Passes(allRecords[k], filterState)
        invariant forall a :: 0 <= a < |filteredIndices| ==> filteredIndices[a] < i
        invariant forall a, b :: 0 <= a < b < |filteredIndices| ==> filteredIndices[a] < filteredIndices[b]
      {
        var passes := ComputePasses(allRecords[i], filterState);
        if passes {
          filteredIndices := filteredIndices + [i];
        }
      }
      loaded, applied := |allRecords|, filterState;
      ApplySorting();
    }

    /** Sorts what is shown; without a sort order the list stays as it is, in whatever order that is. */
    method ApplySorting()
      requires Valid()
      modifies this`filteredIndices
      ensures Valid() && SortedBy(allRecords, sortOrder, filteredIndices)
      ensures sortOrder.Ascending? ==>
                forall a, b :: 0 <= a < b < |filteredIndices| ==>
                  allRecords[filteredIndices[a]].clockValue <= allRecords[filteredIndices[b]].clockValue
      ensures sortOrder.Descending? ==>
                forall a, b :: 0 <= a < b < |filteredIndices| ==>
                  allRecords[filteredIndices[a]].clockValue >= allRecords[filteredIndices[b]].clockValue
      ensures sortOrder.Unsorted? ==> filteredIndices == old(filteredIndices)
      ensures multiset(filteredIndices) == multiset(old(filteredIndices))
    {
      hide Passes;
      if sortOrder == Unsorted {
        return;
      }
      var sorted := StableSort(allRecords, sortOrder == Ascending, filteredIndices);
      StableSortShows(allRecords, loaded, applied, filteredIndices, sorted);
      SortedMeans(allRecords, sorted);
      filteredIndices := sorted;
    }

    /**
     Appends the records read from a file and applies the filters to all. When reading throws, those read so
     far are kept but the list is not updated.
     */
    method Load(records: seq<LogRecord>, threw: bool)
      requires Valid()
      modifies this`allRecords, this`filteredIndices, this`loaded, this`applied
      ensures Valid() && allRecords == old(allRecords) + records
      ensures threw ==> filteredIndices == old(filteredIndices) && loaded == old(loaded) && applied == old(applied)
      ensures !threw ==> loaded == |allRecords| && applied == filterState && SortedBy(allRecords, sortOrder, filteredIndices)
    {
      hide Passes;
      ghost var before := allRecords;
      allRecords := allRecords + records;
      assert forall i :: 0 <= i < |before| ==> allRecords[i] == before[i];
      if !threw {
        ApplyFilters();
      }
    }

    method SetFilterState(f: FilterState)
      requires Valid()
      modifies this`filterState
      ensures Valid() && filterState == f
    {
      filterState := f;
    }

    method SetSortOrder(order: SortOrder)
      requires Valid()
      modifies this`sortOrder
      ensures Valid() && sortOrder == order
    {
      sortOrder := order;
    }

    /** From descending back to no order the list stays sorted descending. */
    method CycleSortOrder()
      requires Valid()
      modifies this`sortOrder, this`filteredIndices
      ensures Valid() && SortedBy(allRecords, sortOrder, filteredIndices)
      ensures old(sortOrder).Descending? <==> sortOrder.Unsorted?
      ensures old(sortOrder).Unsorted? <==> sortOrder.Ascending?
      ensures sortOrder.Unsorted? ==> filteredIndices == old(filteredIndices)
      ensures multiset(filteredIndices) == multiset(old(filteredIndices))
    {
      hide Passes;
      match sortOrder {
        case Unsorted => sortOrder := Ascending;
        case Ascending => sortOrder := Descending;
        case Descending => sortOrder := Unsorted;
      }
      ApplySorting();
    }

    method CycleSeverityFilter()
      requires Valid()
      modifies this`filterState, this`filteredIndices, this`loaded, this`applied
      ensures Valid() && loaded == |allRecords| && applied == filterState
      ensures filterState == old(filterState).(minSeverity := filterState.minSeverity)
      ensures filterState.minSeverity in {0x20, 0x40, 0x80, 0x100, 0x200, 0x400}
      ensures if old(filterState).minSeverity in {0x20, 0x40, 0x80, 0x100, 0x200}
              then filterState.minSeverity == 2 * old(filterState).minSeverity
              else filterState.minSeverity == 0x20
      ensures SortedBy(allRecords, sortOrder, filteredIndices)
    {
      hide Passes;
      var next := TRACE;
      match filterState.minSeverity {
        case 0x20 => next := DEBUG;
        case 0x40 => next := INFO;
        case 0x80 => next := WARNING;
        case 0x100 => next := ERROR;
        case 0x200 => next := CRITICAL;
        case _ =>
      }
      filterState := filterState.(minSeverity := next);
      ApplyFilters();
    }

    method ResetFilters()
      requires Valid()
      modifies this`filterState, this`filteredIndices, this`loaded, this`applied
      ensures Valid() && loaded == |allRecords| && applied == filterState == NO_FILTER
      ensures SortedBy(allRecords, sortOrder, filteredIndices)
    {
      filterState := NO_FILTER;
      ApplyFilters();
    }
  }

  method ComputePasses(rec: LogRecord, f: FilterState) returns (passes: bool)
    ensures passes <==> Passes(rec, f)
  {
    if rec.severity < f.minSeverity {
      return false;
    }
    var category := ContainsSubstringCaseInsensitive(rec.category, f.categoryFilter);
    if !category {
      return false;
    }
    var writer := ContainsSubstringCaseInsensitive(rec.writerName, f.writerFilter);
    if !writer {
      return false;
    }
    passes := ContainsSubstringCaseInsensitive(rec.message, f.messageFilter);
  }
}
