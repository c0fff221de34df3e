/** The status filter and the sort state of the interest table
    (`src/components/interest-transaction-table.tsx`): the popover's toggle,
    its two derived flags, and the sort direction sent with the query. */
module StatusFilter {
  import opened Wrappers
  import W = Waterfall
  import P = Projections

  /** `statusFilter`: `undefined` (None) or a list of statuses. */
  type Filter = Option<seq<W.Status>>

  /** `filter.filter(s => s !== status)`. */
  function Without(xs: seq<W.Status>, s: W.Status): (r: seq<W.Status>)
    ensures s !in r
    ensures forall t :: t != s ==> (t in r <==> t in xs)
    ensures |r| <= |xs|
  {
    if xs == [] then [] else (if xs[0] == s then [] else [xs[0]]) + Without(xs[1..], s)
  }

  /** `toggleStatus`: an absent or empty filter becomes the one status; a
      listed status is removed, and a filter left empty becomes absent; an
      unlisted status is appended. */
  function Toggle(filter: Filter, s: W.Status): Filter {
    if filter.None? || |filter.value| == 0 then Some([s])
    else if s in filter.value then
      var rest := Without(filter.value, s);
      if |rest| > 0 then Some(rest) else None
    else Some(filter.value + [s])
  }

  /** `isSelected`. */
  predicate IsSelected(filter: Filter, s: W.Status) {
    filter.Some? && s in filter.value
  }

  /** `hasActiveFilter`. */
  predicate HasActiveFilter(filter: Filter) {
    filter.Some? && |filter.value| > 0
  }

  predicate NoDuplicates(xs: seq<W.Status>) {
    forall i, j :: 0 <= i < j < |xs| ==> xs[i] != xs[j]
  }

  // ---------------------------------------------------------------------------
  // The toggle
  // ---------------------------------------------------------------------------

  /** Removal keeps the other statuses in their order: it distributes over
      concatenation and leaves a list without the status as it is. */
  lemma {:induction false} WithoutKeepsOrder(a: seq<W.Status>, b: seq<W.Status>, s: W.Status)
    ensures Without(a + b, s) == Without(a, s) + Without(b, s)
  {
    if a == [] {
      assert a + b == b;
    } else {
      assert (a + b)[0] == a[0];
      assert (a + b)[1..] == a[1..] + b;
      WithoutKeepsOrder(a[1..], b, s);
    }
  }

  lemma {:induction false} WithoutAbsent(xs: seq<W.Status>, s: W.Status)
    requires s !in xs
    ensures Without(xs, s) == xs
  {
    if xs != [] {
      WithoutAbsent(xs[1..], s);
      assert xs == [xs[0]] + xs[1..];
    }
  }

  /** The toggled status changes membership and no other status does. */
  lemma ToggleFlips(filter: Filter, s: W.Status)
    ensures IsSelected(Toggle(filter, s), s) == !IsSelected(filter, s)
    ensures forall t :: t != s ==> IsSelected(Toggle(filter, s), t) == IsSelected(filter, t)
  {
    if filter.Some? && |filter.value| > 0 && s in filter.value {
      var rest := Without(filter.value, s);
      if |rest| == 0 {
        forall t | t != s
          ensures t !in filter.value
        {
          assert t !in rest;
        }
      }
    }
  }

  /** Toggling the same status twice selects what was selected before. */
  lemma ToggleTwiceRestores(filter: Filter, s: W.Status, t: W.Status)
    ensures IsSelected(Toggle(Toggle(filter, s), s), t) == IsSelected(filter, t)
  {
    ToggleFlips(filter, s);
    ToggleFlips(Toggle(filter, s), s);
  }

  /** The filter is never an empty list after a toggle. */
  lemma ToggleIsNeverEmpty(filter: Filter, s: W.Status)
    ensures Toggle(filter, s).Some? ==> |Toggle(filter, s).value| > 0
    ensures HasActiveFilter(Toggle(filter, s)) <==> Toggle(filter, s).Some?
  {
  }

  lemma {:induction false} WithoutKeepsDistinct(xs: seq<W.Status>, s: W.Status)
    requires NoDuplicates(xs)
    ensures NoDuplicates(Without(xs, s))
  {
    if xs != [] {
      WithoutKeepsDistinct(xs[1..], s);
      var r := Without(xs, s);
      var tail := Without(xs[1..], s);
      forall j | 0 <= j < |xs[1..]|
        ensures xs[1..][j] != xs[0]
      {
        assert xs[1..][j] == xs[j + 1];
      }
      assert xs[0] !in tail;
      if xs[0] != s {
        assert r == [xs[0]] + tail;
        forall i, j | 0 <= i < j < |r|
          ensures r[i] != r[j]
        {
          assert r[j] == tail[j - 1];
          if i > 0 {
            assert r[i] == tail[i - 1];
          }
        }
      }
    }
  }

  /** A filter without duplicates stays without duplicates. */
  lemma ToggleKeepsDistinct(filter: Filter, s: W.Status)
    requires filter.Some? ==> NoDuplicates(filter.value)
    ensures Toggle(filter, s).Some? ==> NoDuplicates(Toggle(filter, s).value)
  {
    if HasActiveFilter(filter) {
      if s in filter.value {
        WithoutKeepsDistinct(filter.value, s);
      } else {
        var r := filter.value + [s];
        forall i, j | 0 <= i < j < |r|
          ensures r[i] != r[j]
        {
          if j == |r| - 1 {
            assert r[i] == filter.value[i];
          }
        }
      }
    }
  }

  // ---------------------------------------------------------------------------
  // The flags, and what the query keeps
  // ---------------------------------------------------------------------------

  /** `hasActiveFilter` holds exactly when some status is selected. */
  lemma ActiveMeansSomeSelected(filter: Filter)
    ensures HasActiveFilter(filter) <==>
              IsSelected(filter, W.NotDonated) || IsSelected(filter, W.PartiallyDonated)
              || IsSelected(filter, W.FullyDonated)
  {
    if HasActiveFilter(filter) {
      var s := filter.value[0];
      assert IsSelected(filter, s);
      assert s.NotDonated? || s.PartiallyDonated? || s.FullyDonated?;
    }
  }

  /** With an active filter the listing keeps exactly the selected statuses;
      without one it keeps everything. */
  lemma QueryKeepsSelected(filter: Filter, s: W.Status)
    ensures HasActiveFilter(filter) ==> (P.StatusAllowed(filter, s) <==> IsSelected(filter, s))
    ensures !HasActiveFilter(filter) ==> P.StatusAllowed(filter, s)
  {
  }

  // ---------------------------------------------------------------------------
  // The sort direction
  // ---------------------------------------------------------------------------

  /** One entry of the table's `SortingState`. */
  datatype SortEntry = SortEntry(id: string, desc: bool)

  /** The initial sorting state: newest transaction date first. */
  const InitialSorting: seq<SortEntry> := [SortEntry("transactionDate", true)]

  /** `sorting[0]?.desc ? "desc" : "asc"`. */
  function SortDirection(sorting: seq<SortEntry>): (d: P.Direction)
    ensures d == P.Desc <==> |sorting| > 0 && sorting[0].desc
    ensures |sorting| == 0 ==> d == P.Asc
  {
    if |sorting| > 0 && sorting[0].desc then P.Desc else P.Asc
  }

  /** The table opens sorted by date, descending. */
  lemma InitialIsDescending()
    ensures InitialSorting[0].id == "transactionDate"
    ensures SortDirection(InitialSorting) == P.Desc
  {
  }
}
