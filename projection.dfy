/** The projection listing of `src/server/projection-action.ts`: one page
    of the user's projection rows, in date order with the row id as tie
    break, continuing after a `date_id` cursor. The rows come in as the
    query's ORDER BY returns them; the query's filters and its LIMIT are
    modelled. */
module Projections {
  import opened Wrappers
  import opened Text
  import W = Waterfall

  /** The columns the listing filters and orders by. */
  datatype Listed = Listed(id: string, userId: string, transactionDate: string, status: W.Status)

  datatype Direction = Asc | Desc

  /** The result object. */
  datatype Page = Page(success: bool, data: seq<Listed>, nextCursor: Option<string>, hasNextPage: bool)

  // ---------------------------------------------------------------------------
  // Cursor, limit and filter
  // ---------------------------------------------------------------------------

  /** `s.split(c)` for a one-character separator. */
  function SplitOn(s: string, c: char): (parts: seq<string>)
    ensures |parts| >= 1
    ensures forall k :: 0 <= k < |parts| ==> c !in parts[k]
    decreases |s|
  {
    var k := IndexOf(s, c);
    if k == |s| then [s] else [s[..k]] + SplitOn(s[k + 1..], c)
  }

  /** Splitting and joining with the same separator gives the text back. */
  lemma {:induction false} JoinSplitOn(s: string, c: char)
    ensures Join(SplitOn(s, c), [c]) == s
    decreases |s|
  {
    var k := IndexOf(s, c);
    if k < |s| {
      JoinSplitOn(s[k + 1..], c);
      assert s == s[..k] + [c] + s[k + 1..];
    }
  }

  /** A cursor split on `_`: the two parts when there are exactly two, None
      for an absent or empty cursor or any other number of parts. */
  function SplitCursor(cursor: Option<string>): (r: Option<(string, string)>)
  {
    if cursor.None? || |cursor.value| == 0 then None
    else
      var parts := SplitOn(cursor.value, '_');
      if |parts| == 2 then Some((parts[0], parts[1])) else None
  }

  /** The keyset condition is applied only when both parts are non-empty
      (`cursorDate && cursorId`). */
  function ActiveCursor(cursor: Option<string>): (r: Option<(string, string)>)
    ensures r.Some? ==> |r.value.0| > 0 && |r.value.1| > 0
  {
    match SplitCursor(cursor)
    case Some((d, i)) => if |d| > 0 && |i| > 0 then Some((d, i)) else None
    case None => None
  }

  /** `${transactionDate}_${id}`. */
  function FormatCursor(date: string, id: string): string {
    date + "_" + id
  }

  /** A cursor built from a date and an id without `_` splits back into
      them. */
  lemma CursorRoundTrip(date: string, id: string)
    requires '_' !in date && '_' !in id
    ensures SplitCursor(Some(FormatCursor(date, id))) == Some((date, id))
  {
    var s := FormatCursor(date, id);
    assert s[..|date|] == date && s[|date| + 1..] == id;
    NoCharIndexOf(date, '_');
    IndexOfAt(s, '_', |date|);
    NoCharIndexOf(id, '_');
    assert SplitOn(id, '_') == [id];
    assert SplitOn(s, '_') == [date, id];
  }

  /** Conversely, a cursor that splits into two parts is exactly those parts
      joined by `_`, and it contains `_` exactly once. */
  lemma CursorIsFormatted(cursor: string)
    requires SplitCursor(Some(cursor)).Some?
    ensures var (d, i) := SplitCursor(Some(cursor)).value;
            FormatCursor(d, i) == cursor && '_' !in d && '_' !in i
  {
    var parts := SplitOn(cursor, '_');
    JoinSplitOn(cursor, '_');
    assert parts[1..] == [parts[1]];
  }

  lemma NoCharIndexOf(s: string, c: char)
    requires c !in s
    ensures IndexOf(s, c) == |s|
  {
  }

  /** The first `c` in a text whose prefix before `k` has none and whose
      `k`-th character is `c` is at `k`. */
  lemma {:induction false} IndexOfAt(s: string, c: char, k: nat)
    requires k < |s| && s[k] == c && c !in s[..k]
    ensures IndexOf(s, c) == k
  {
    var j := IndexOf(s, c);
    if j != k {
      assert false;
    }
  }

  /** `Math.min(limit, 100)` with the default of 50. */
  function PageSize(limit: Option<nat>): (n: nat)
    ensures n <= 100
    ensures limit.None? ==> n == 50
    ensures limit.Some? ==> n == if limit.value <= 100 then limit.value else 100
  {
    var l := if limit.None? then 50 else limit.value;
    if l <= 100 then l else 100
  }

  /** The status condition: a non-empty filter keeps the statuses it lists;
      an absent or empty one keeps everything. */
  predicate StatusAllowed(filter: Option<seq<W.Status>>, s: W.Status) {
    filter.None? || |filter.value| == 0 || s in filter.value
  }

  // ---------------------------------------------------------------------------
  // Order and the keyset condition
  // ---------------------------------------------------------------------------

  /** Text (and `date`, and `uuid`) comparison: strictly before in
      lexicographic order of characters. */
  predicate LexLess(a: string, b: string)
    decreases |a|
  {
    if |a| == 0 then |b| > 0
    else if |b| == 0 then false
    else a[0] < b[0] || (a[0] == b[0] && LexLess(a[1..], b[1..]))
  }

  lemma {:induction false} LexLessAsymmetric(a: string, b: string)
    ensures !(LexLess(a, b) && LexLess(b, a))
    decreases |a|
  {
    if |a| > 0 && |b| > 0 && a[0] == b[0] {
      LexLessAsymmetric(a[1..], b[1..]);
    }
  }

  /** `a` comes before `b` in the ORDER BY: date in the requested direction,
      then id descending. */
  predicate Precedes(dir: Direction, a: Listed, b: Listed) {
    (if dir == Asc then LexLess(a.transactionDate, b.transactionDate) else LexLess(b.transactionDate, a.transactionDate))
    || (a.transactionDate == b.transactionDate && LexLess(b.id, a.id))
  }

  /** Rows in strict ORDER BY order. */
  predicate Ordered(dir: Direction, rows: seq<Listed>) {
    forall i, j :: 0 <= i < j < |rows| ==> Precedes(dir, rows[i], rows[j])
  }

  /** The keyset condition as written: `date < cursorDate`, or the same
      date and `id < cursorId`, whatever the direction. */
  predicate AfterAsWritten(dir: Direction, r: Listed, date: string, id: string) {
    LexLess(r.transactionDate, date) || (r.transactionDate == date && LexLess(r.id, id))
  }

  /** The keyset condition the ORDER BY calls for: a later date when
      ascending, an earlier one when descending, and a smaller id on the
      same date. */
  predicate After(dir: Direction, r: Listed, date: string, id: string) {
    (if dir == Asc then LexLess(date, r.transactionDate) else LexLess(r.transactionDate, date))
    || (r.transactionDate == date && LexLess(r.id, id))
  }

  /** With the corrected condition, the rows after the cursor of row `j`
      are exactly the rows that follow row `j` in either direction, so the
      next page continues where the previous one ended. */
  lemma ContinuesAfter(dir: Direction, rows: seq<Listed>, j: nat)
    requires Ordered(dir, rows) && j < |rows|
    ensures forall k :: 0 <= k < |rows| ==>
              (After(dir, rows[k], rows[j].transactionDate, rows[j].id) <==> j < k)
  {
    forall k | 0 <= k < |rows|
      ensures After(dir, rows[k], rows[j].transactionDate, rows[j].id) <==> j < k
    {
      LexLessAsymmetric(rows[k].transactionDate, rows[j].transactionDate);
      LexLessAsymmetric(rows[k].id, rows[j].id);
      if k == j {
        LexLessAsymmetric(rows[k].id, rows[k].id);
        LexLessAsymmetric(rows[k].transactionDate, rows[k].transactionDate);
      }
    }
  }

  /** For the descending order of the default listing the condition as
      written is the corrected one. */
  lemma DescendingAsWritten(r: Listed, date: string, id: string)
    ensures AfterAsWritten(Desc, r, date, id) <==> After(Desc, r, date, id)
  {
  }

  // ---------------------------------------------------------------------------
  // The page
  // ---------------------------------------------------------------------------

  /** The query's WHERE on one row: the user's, with an allowed status,
      after the cursor when one is active. */
  predicate Keep(follows: (Direction, Listed, string, string) -> bool, user: string, dir: Direction,
                 filter: Option<seq<W.Status>>, cursor: Option<(string, string)>, x: Listed) {
    x.userId == user && StatusAllowed(filter, x.status)
    && (cursor.None? || follows(dir, x, cursor.value.0, cursor.value.1))
  }

  /** The rows the WHERE keeps, in order. */
  function Where(follows: (Direction, Listed, string, string) -> bool, user: string, dir: Direction,
                 filter: Option<seq<W.Status>>, cursor: Option<(string, string)>, rows: seq<Listed>): (r: seq<Listed>)
    ensures |r| <= |rows|
    decreases |rows|
  {
    if rows == [] then []
    else (if Keep(follows, user, dir, filter, cursor, rows[0]) then [rows[0]] else [])
         + Where(follows, user, dir, filter, cursor, rows[1..])
  }

  /** `getInterestProjection` with the keyset condition `follows`: the
      session's user (None without a session), the arguments, and the rows
      in ORDER BY order. */
  function PageWith(follows: (Direction, Listed, string, string) -> bool, session: Option<string>,
                    cursor: Option<string>, limit: Option<nat>, dir: Option<Direction>,
                    filter: Option<seq<W.Status>>, rows: seq<Listed>): Page
  {
    if session.None? then Page(false, [], None, false)
    else
      var size := PageSize(limit);
      var selected := Where(follows, session.value, if dir.None? then Desc else dir.value, filter, ActiveCursor(cursor), rows);
      var data := selected[..if |selected| <= size + 1 then |selected| else size + 1];
      var hasNextPage := |data| > size;
      var items := if hasNextPage then data[..size] else data;
      var nextCursor := if |items| > 0 then Some(FormatCursor(items[|items| - 1].transactionDate, items[|items| - 1].id)) else None;
      Page(true, items, if hasNextPage then nextCursor else None, hasNextPage)
  }

  /** The listing as written. */
  function GetInterestProjection(session: Option<string>, cursor: Option<string>, limit: Option<nat>,
                                 dir: Option<Direction>, filter: Option<seq<W.Status>>, rows: seq<Listed>): Page
  {
    PageWith(AfterAsWritten, session, cursor, limit, dir, filter, rows)
  }

  /** The listing with the keyset condition that follows the sort
      direction. */
  function GetInterestProjectionFixed(session: Option<string>, cursor: Option<string>, limit: Option<nat>,
                                      dir: Option<Direction>, filter: Option<seq<W.Status>>, rows: seq<Listed>): Page
  {
    PageWith(After, session, cursor, limit, dir, filter, rows)
  }

  /** Every selected row is one of the rows and passes the WHERE. */
  lemma {:induction false} WhereSound(follows: (Direction, Listed, string, string) -> bool, user: string,
                                      dir: Direction, filter: Option<seq<W.Status>>,
                                      cursor: Option<(string, string)>, rows: seq<Listed>)
    ensures forall x :: x in Where(follows, user, dir, filter, cursor, rows) ==>
              x in rows && Keep(follows, user, dir, filter, cursor, x)
    decreases |rows|
  {
    if rows != [] {
      WhereSound(follows, user, dir, filter, cursor, rows[1..]);
      forall x | x in Where(follows, user, dir, filter, cursor, rows[1..]) ensures x in rows {
        var i :| 0 <= i < |rows[1..]| && rows[1..][i] == x;
        assert rows[i + 1] == x;
      }
    }
  }

  /** Every row that passes the WHERE is selected. */
  lemma {:induction false} WhereComplete(follows: (Direction, Listed, string, string) -> bool, user: string,
                                         dir: Direction, filter: Option<seq<W.Status>>,
                                         cursor: Option<(string, string)>, rows: seq<Listed>)
    ensures forall k :: 0 <= k < |rows| && Keep(follows, user, dir, filter, cursor, rows[k])
              ==> rows[k] in Where(follows, user, dir, filter, cursor, rows)
    decreases |rows|
  {
    if rows != [] {
      WhereComplete(follows, user, dir, filter, cursor, rows[1..]);
      forall k | 0 <= k < |rows| && Keep(follows, user, dir, filter, cursor, rows[k])
        ensures rows[k] in Where(follows, user, dir, filter, cursor, rows)
      {
        if k > 0 {
          assert rows[1..][k - 1] == rows[k];
        }
      }
    }
  }

  /** The page: without a session, a failure with nothing in it; otherwise
      the first `min(n, size)` selected rows, a next page exactly when more
      than `size` rows were selected, and a cursor for the last item on a
      page that has one. */
  lemma PageShape(follows: (Direction, Listed, string, string) -> bool, session: Option<string>,
                  cursor: Option<string>, limit: Option<nat>, dir: Option<Direction>,
                  filter: Option<seq<W.Status>>, rows: seq<Listed>)
    ensures session.None? ==> PageWith(follows, session, cursor, limit, dir, filter, rows) == Page(false, [], None, false)
    ensures session.Some? ==>
              var p := PageWith(follows, session, cursor, limit, dir, filter, rows);
              var size := PageSize(limit);
              var selected := Where(follows, session.value, if dir.None? then Desc else dir.value, filter, ActiveCursor(cursor), rows);
              && p.success
              && (p.hasNextPage <==> |selected| > size)
              && p.data == selected[..if |selected| <= size then |selected| else size]
              && (p.nextCursor.Some? <==> p.hasNextPage && size > 0)
              && (p.nextCursor.Some? ==>
                    p.nextCursor.value == FormatCursor(p.data[size - 1].transactionDate, p.data[size - 1].id))
  {
    if session.Some? {
      var size := PageSize(limit);
      var selected := Where(follows, session.value, if dir.None? then Desc else dir.value, filter, ActiveCursor(cursor), rows);
      var data := selected[..if |selected| <= size + 1 then |selected| else size + 1];
      if |data| > size {
        assert data[..size] == selected[..size];
      }
    }
  }

  // ---------------------------------------------------------------------------
  // The ascending listing skips rows
  // ---------------------------------------------------------------------------

  /** Any two rows of a user on ascending dates, one per page: as written,
      the cursor of the first page selects neither row, so the later row is
      never listed; the corrected condition lists it on the second page. */
  lemma AscendingPageSkipsRow(user: string, r0: Listed, r1: Listed)
    requires r0.userId == user && r1.userId == user
    requires LexLess(r0.transactionDate, r1.transactionDate)
    requires |r0.transactionDate| > 0 && |r0.id| > 0 && '_' !in r0.transactionDate && '_' !in r0.id
    ensures Ordered(Asc, [r0, r1])
    ensures var first := GetInterestProjection(Some(user), None, Some(1), Some(Asc), None, [r0, r1]);
            && first.data == [r0] && first.hasNextPage
            && first.nextCursor == Some(FormatCursor(r0.transactionDate, r0.id))
            && GetInterestProjection(Some(user), first.nextCursor, Some(1), Some(Asc), None, [r0, r1]).data == []
            && GetInterestProjectionFixed(Some(user), first.nextCursor, Some(1), Some(Asc), None, [r0, r1]).data == [r1]
  {
    LexLessAsymmetric(r0.transactionDate, r1.transactionDate);
    AscendingFirstPage(user, r0, r1);
    AscendingSecondPageAsWritten(user, r0, r1);
    AscendingSecondPageFixed(user, r0, r1);
  }

  /** The first ascending page of one row holds the earlier row and a cursor
      to it. */
  lemma AscendingFirstPage(user: string, r0: Listed, r1: Listed)
    requires r0.userId == user && r1.userId == user
    ensures var first := GetInterestProjection(Some(user), None, Some(1), Some(Asc), None, [r0, r1]);
            && first.data == [r0] && first.hasNextPage
            && first.nextCursor == Some(FormatCursor(r0.transactionDate, r0.id))
  {
    var rows := [r0, r1];
    assert rows[1..] == [r1] && rows[1..][1..] == [];
    assert Where(AfterAsWritten, user, Asc, None, None, rows) == rows;
    PageShape(AfterAsWritten, Some(user), None, Some(1), Some(Asc), None, rows);
  }

  /** As written, the ascending page after the earlier row's cursor is
      empty: `lt` keeps only rows before the cursor. */
  lemma AscendingSecondPageAsWritten(user: string, r0: Listed, r1: Listed)
    requires r0.userId == user && r1.userId == user
    requires LexLess(r0.transactionDate, r1.transactionDate)
    requires |r0.transactionDate| > 0 && |r0.id| > 0 && '_' !in r0.transactionDate && '_' !in r0.id
    ensures GetInterestProjection(Some(user), Some(FormatCursor(r0.transactionDate, r0.id)), Some(1), Some(Asc), None,
                                  [r0, r1]).data == []
  {
    var rows := [r0, r1];
    var d := r0.transactionDate;
    var c := Some((d, r0.id));
    LexLessAsymmetric(d, r1.transactionDate);
    LexLessAsymmetric(d, d);
    LexLessAsymmetric(r0.id, r0.id);
    assert rows[1..] == [r1] && rows[1..][1..] == [];
    CursorRoundTrip(d, r0.id);
    assert ActiveCursor(Some(FormatCursor(d, r0.id))) == c;
    assert Where(AfterAsWritten, user, Asc, None, c, rows) == [];
    PageShape(AfterAsWritten, Some(user), Some(FormatCursor(d, r0.id)), Some(1), Some(Asc), None, rows);
  }

  /** With the comparison made `gt` for ascending order, the page after the
      earlier row's cursor holds the later row. */
  lemma AscendingSecondPageFixed(user: string, r0: Listed, r1: Listed)
    requires r0.userId == user && r1.userId == user
    requires LexLess(r0.transactionDate, r1.transactionDate)
    requires |r0.transactionDate| > 0 && |r0.id| > 0 && '_' !in r0.transactionDate && '_' !in r0.id
    ensures GetInterestProjectionFixed(Some(user), Some(FormatCursor(r0.transactionDate, r0.id)), Some(1), Some(Asc), None,
                                       [r0, r1]).data == [r1]
  {
    var rows := [r0, r1];
    var d := r0.transactionDate;
    var c := Some((d, r0.id));
    LexLessAsymmetric(d, r1.transactionDate);
    LexLessAsymmetric(d, d);
    LexLessAsymmetric(r0.id, r0.id);
    assert rows[1..] == [r1] && rows[1..][1..] == [];
    CursorRoundTrip(d, r0.id);
    assert ActiveCursor(Some(FormatCursor(d, r0.id))) == c;
    assert Where(After, user, Asc, None, c, rows) == [r1];
    PageShape(After, Some(user), Some(FormatCursor(d, r0.id)), Some(1), Some(Asc), None, rows);
  }
}
