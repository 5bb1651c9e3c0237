/** Keyset pagination of the market list: the cursor predicate, the order, and what following the pages yields. */
module Pagination {
  import opened Outcomes

  /** The sort column, which may be null, and the launch id that breaks ties. */
  datatype Key = Key(value: Option<real>, launchId: nat)

  datatype Row = Row(key: Key, launchpad: nat)

  datatype Page = Page(rows: seq<Row>, next: Option<Key>)

  /** Descending values with nulls last, then descending launch ids. */
  predicate Before(a: Key, b: Key) {
    match (a.value, b.value)
    case (Some(x), Some(y)) => x > y || (x == y && a.launchId > b.launchId)
    case (Some(_), None) => true
    case (None, Some(_)) => false
    case (None, None) => a.launchId > b.launchId
  }

  /** The condition that the query puts on rows when it is given a cursor; a comparison with null is not true. */
  predicate CursorCondition(cursor: Key, row: Key) {
    || (cursor.value.None? && row.value.None? && row.launchId < cursor.launchId)
    || (cursor.value.Some? &&
          (|| (row.value.Some? && row.value.value < cursor.value.value)
           || (row.value.Some? && row.value.value == cursor.value.value && row.launchId < cursor.launchId)
           || row.value.None?))
  }

  predicate Selected(cursor: Option<Key>, row: Row) {
    cursor.None? || CursorCondition(cursor.value, row.key)
  }

  lemma CursorConditionIsTheOrder(cursor: Key, row: Key)
    ensures CursorCondition(cursor, row) <==> Before(cursor, row)
  {
  }

  lemma BeforeIsTotalOrder(a: Key, b: Key, c: Key)
    ensures !(Before(a, b) && Before(b, a))
    ensures Before(a, b) || Before(b, a) || a == b
    ensures Before(a, b) && Before(b, c) ==> Before(a, c)
  {
  }

  // ---------------------------------------------------------------------------
  // The sorted table
  // ---------------------------------------------------------------------------

  function InsertRow(sorted: seq<Row>, row: Row): seq<Row> {
    if sorted == [] || !Before(row.key, sorted[|sorted| - 1].key) then sorted + [row]
    else InsertRow(sorted[..|sorted| - 1], row) + [sorted[|sorted| - 1]]
  }

  function SortRows(table: seq<Row>): seq<Row> {
    if table == [] then [] else InsertRow(SortRows(table[..|table| - 1]), table[|table| - 1])
  }

  predicate Sorted(rows: seq<Row>) {
    forall i, j :: 0 <= i < j < |rows| ==> !Before(rows[j].key, rows[i].key)
  }

  predicate DistinctKeys(rows: seq<Row>) {
    forall i, j :: 0 <= i < j < |rows| ==> rows[i].key != rows[j].key
  }

  lemma {:induction false} InsertRowSorts(sorted: seq<Row>, row: Row)
    requires Sorted(sorted)
    ensures Sorted(InsertRow(sorted, row))
    ensures multiset(InsertRow(sorted, row)) == multiset(sorted) + multiset{row}
  {
    hide Before;
    if sorted != [] {
      var n := |sorted| - 1;
      var last := sorted[n];
      assert sorted == sorted[..n] + [last];
      BeforeIsTotalOrder(row.key, last.key, row.key);
      if !Before(row.key, last.key) {
        forall i | 0 <= i <= n ensures !Before(row.key, sorted[i].key) {
          BeforeIsTotalOrder(row.key, sorted[i].key, last.key);
          BeforeIsTotalOrder(sorted[i].key, last.key, row.key);
          assert !Before(last.key, sorted[i].key);
        }
      } else {
        InsertRowSorts(sorted[..n], row);
        var r := InsertRow(sorted[..n], row);
        forall i | 0 <= i < |r| ensures !Before(last.key, r[i].key) {
          assert r[i] in multiset(r);
          assert r[i] == row || r[i] in sorted[..n];
        }
      }
    }
  }

  lemma {:induction false} SortRowsSorts(table: seq<Row>)
    ensures Sorted(SortRows(table)) && multiset(SortRows(table)) == multiset(table)
  {
    if table != [] {
      hide InsertRow, Sorted, Before;
      var n := |table| - 1;
      assert table == table[..n] + [table[n]];
      SortRowsSorts(table[..n]);
      InsertRowSorts(SortRows(table[..n]), table[n]);
    } else {
      assert SortRows(table) == table;
    }
  }

  // ---------------------------------------------------------------------------
  // Pages
  // ---------------------------------------------------------------------------

  /** The rows that the cursor lets through, in the order they have. */
  function Rest(sorted: seq<Row>, cursor: Option<Key>): seq<Row> {
    if sorted == [] then []
    else
      var last := sorted[|sorted| - 1];
      Rest(sorted[..|sorted| - 1], cursor) + if Selected(cursor, last) then [last] else []
  }

  /** One more row than the page holds is asked for, to know whether another page follows. */
  function ListMarkets(sorted: seq<Row>, cursor: Option<Key>, limit: nat): (page: Page)
    requires limit >= 1
    ensures |page.rows| <= limit && page.rows <= Rest(sorted, cursor)
    ensures page.next.Some? <==> |Rest(sorted, cursor)| > |page.rows|
    ensures page.next.Some? ==> |page.rows| == limit
  {
    var rest := Rest(sorted, cursor);
    var rows := if |rest| > limit + 1 then rest[..limit + 1] else rest;
    var page := if |rows| > limit then rows[..limit] else rows;
    Page(page, if |rows| > limit then Some(page[|page| - 1].key) else None)
  }

  lemma {:induction false} RestMembers(sorted: seq<Row>, cursor: Option<Key>)
    ensures forall row :: row in Rest(sorted, cursor) <==> row in sorted && Selected(cursor, row)
    ensures |Rest(sorted, cursor)| <= |sorted|
  {
    if sorted != [] {
      RestMembers(sorted[..|sorted| - 1], cursor);
      assert sorted == sorted[..|sorted| - 1] + [sorted[|sorted| - 1]];
    }
  }

  /** A later cursor lets no more rows through, and fewer if it stops one that was let through. */
  lemma {:induction false} RestShrinks(sorted: seq<Row>, cursor: Option<Key>, later: Key)
    requires cursor.Some? ==> !Before(later, cursor.value)
    ensures |Rest(sorted, Some(later))| <= |Rest(sorted, cursor)|
    ensures (exists row :: row in Rest(sorted, cursor) && row.key == later)
            ==> |Rest(sorted, Some(later))| < |Rest(sorted, cursor)|
  {
    hide Before, CursorCondition;
    if sorted != [] {
      var n := |sorted| - 1;
      RestShrinks(sorted[..n], cursor, later);
      CursorConditionIsTheOrder(later, sorted[n].key);
      BeforeIsTotalOrder(later, later, later);
      if cursor.Some? {
        CursorConditionIsTheOrder(cursor.value, sorted[n].key);
        BeforeIsTotalOrder(cursor.value, later, sorted[n].key);
      }
      if row :| row in Rest(sorted, cursor) && row.key == later {
        assert row in Rest(sorted[..n], cursor) || row == sorted[n];
      }
    }
  }

  lemma NextIsLater(sorted: seq<Row>, cursor: Option<Key>, limit: nat)
    requires limit >= 1 && ListMarkets(sorted, cursor, limit).next.Some?
    ensures |Rest(sorted, ListMarkets(sorted, cursor, limit).next)| < |Rest(sorted, cursor)|
  {
    var page := ListMarkets(sorted, cursor, limit);
    var row := page.rows[|page.rows| - 1];
    RestMembers(sorted, cursor);
    assert row in Rest(sorted, cursor);
    if cursor.Some? {
      BeforeIsTotalOrder(cursor.value, row.key, row.key);
      CursorConditionIsTheOrder(cursor.value, row.key);
    }
    RestShrinks(sorted, cursor, row.key);
  }

  /** What a client gets that follows the cursor of each page to the next; it always comes to an end. */
  function Follow(sorted: seq<Row>, cursor: Option<Key>, limit: nat): seq<Row>
    requires limit >= 1
    decreases |Rest(sorted, cursor)|
  {
    var page := ListMarkets(sorted, cursor, limit);
    if page.next.None? then page.rows
    else
      NextIsLater(sorted, cursor, limit);
      page.rows + Follow(sorted, page.next, limit)
  }

  // ---------------------------------------------------------------------------
  // Every row exactly once
  // ---------------------------------------------------------------------------

  /** After the key of the row at `k - 1`, what is left of a sorted table with distinct keys starts at `k`. */
  lemma {:induction false} RestIsSuffix(sorted: seq<Row>, n: nat, k: nat)
    requires Sorted(sorted) && DistinctKeys(sorted) && 0 < k <= |sorted| && n <= |sorted|
    ensures Rest(sorted[..n], Some(sorted[k - 1].key)) == if n <= k then [] else sorted[k..n]
    decreases n
  {
    hide Before, CursorCondition;
    if n > 0 {
      RestIsSuffix(sorted, n - 1, k);
      assert sorted[..n][..n - 1] == sorted[..n - 1];
      var (cursor, key) := (sorted[k - 1].key, sorted[n - 1].key);
      CursorConditionIsTheOrder(cursor, key);
      BeforeIsTotalOrder(cursor, key, key);
      if n > k {
        assert sorted[k..n] == sorted[k..n - 1] + [sorted[n - 1]];
      }
    }
  }

  lemma {:induction false} RestOfAll(sorted: seq<Row>)
    ensures Rest(sorted, None) == sorted
  {
    if sorted != [] {
      RestOfAll(sorted[..|sorted| - 1]);
      assert sorted == sorted[..|sorted| - 1] + [sorted[|sorted| - 1]];
    }
  }

  lemma FullPage(sorted: seq<Row>, cursor: Option<Key>, limit: nat)
    requires limit >= 1 && |Rest(sorted, cursor)| > limit
    ensures var rest := Rest(sorted, cursor);
            ListMarkets(sorted, cursor, limit) == Page(rest[..limit], Some(rest[limit - 1].key))
  {
    hide Rest;
    var rest := Rest(sorted, cursor);
    assert |rest| > limit + 1 ==> rest[..limit + 1][..limit] == rest[..limit];
  }

  lemma {:induction false} FollowFrom(sorted: seq<Row>, k: nat, limit: nat)
    requires Sorted(sorted) && DistinctKeys(sorted) && k <= |sorted| && limit >= 1
    ensures var cursor := if k == 0 then None else Some(sorted[k - 1].key);
            Follow(sorted, cursor, limit) == sorted[k..]
    decreases |sorted| - k
  {
    hide Before, CursorCondition, Rest, Sorted, DistinctKeys;
    var cursor := if k == 0 then None else Some(sorted[k - 1].key);
    assert sorted[..|sorted|] == sorted;
    if k == 0 {
      RestOfAll(sorted);
    } else {
      RestIsSuffix(sorted, |sorted|, k);
    }
    assert Rest(sorted, cursor) == sorted[k..];
    if |sorted| - k > limit {
      FullPage(sorted, cursor, limit);
      assert sorted[k..][..limit] == sorted[k..k + limit];
      assert sorted[k..][limit - 1] == sorted[k + limit - 1];
      FollowFrom(sorted, k + limit, limit);
      assert sorted[k..] == sorted[k..k + limit] + sorted[k + limit..];
    }
  }

  /** Following on from a cursor never comes back to a row that the cursor stops. */
  lemma {:induction false} FollowStaysAfter(sorted: seq<Row>, cursor: Option<Key>, limit: nat, row: Row)
    requires limit >= 1 && row in Follow(sorted, cursor, limit)
    ensures row in sorted && Selected(cursor, row)
    decreases |Rest(sorted, cursor)|
  {
    hide Before, CursorCondition, Rest;
    RestMembers(sorted, cursor);
    var page := ListMarkets(sorted, cursor, limit);
    assert forall r :: r in page.rows ==> r in Rest(sorted, cursor);
    if row !in page.rows {
      NextIsLater(sorted, cursor, limit);
      FollowStaysAfter(sorted, page.next, limit, row);
      if cursor.Some? {
        var last := page.rows[|page.rows| - 1];
        assert last in Rest(sorted, cursor);
        CursorConditionIsTheOrder(cursor.value, last.key);
        CursorConditionIsTheOrder(last.key, row.key);
        CursorConditionIsTheOrder(cursor.value, row.key);
        BeforeIsTotalOrder(cursor.value, last.key, row.key);
      }
    }
  }

  /** A page that ends at the first of two rows with one key skips the second. */
  lemma EqualKeysSkip(sorted: seq<Row>, i: nat)
    requires Sorted(sorted) && i + 1 < |sorted| && sorted[i].key == sorted[i + 1].key
    ensures Follow(sorted, None, i + 1) != sorted
  {
    hide Before, CursorCondition, Rest, Sorted;
    RestOfAll(sorted);
    var page := ListMarkets(sorted, None, i + 1);
    assert page.rows == sorted[..i + 1] && page.next == Some(sorted[i].key);
    NextIsLater(sorted, None, i + 1);
    var after := Follow(sorted, page.next, i + 1);
    assert Follow(sorted, None, i + 1) == sorted[..i + 1] + after;
    if after != [] && after[0] == sorted[i + 1] {
      FollowStaysAfter(sorted, page.next, i + 1, after[0]);
      CursorConditionIsTheOrder(sorted[i].key, sorted[i + 1].key);
      BeforeIsTotalOrder(sorted[i].key, sorted[i + 1].key, sorted[i].key);
    }
  }

  lemma EqualKeysAreNeighbours(sorted: seq<Row>, i: nat, j: nat)
    requires Sorted(sorted) && i < j < |sorted| && sorted[i].key == sorted[j].key
    ensures sorted[i].key == sorted[i + 1].key
  {
    BeforeIsTotalOrder(sorted[i].key, sorted[i + 1].key, sorted[j].key);
    if i + 1 < j {
      BeforeIsTotalOrder(sorted[i + 1].key, sorted[j].key, sorted[i].key);
    }
  }

  /** Following the pages of a fixed table yields its rows, each once and in order, whatever the page size, exactly when
      no two rows share their sort value and launch id. */
  lemma PagesAreExact(table: seq<Row>)
    ensures Sorted(SortRows(table)) && multiset(SortRows(table)) == multiset(table)
    ensures (forall limit :: limit >= 1 ==> Follow(SortRows(table), None, limit) == SortRows(table))
            <==> DistinctKeys(SortRows(table))
  {
    hide Sorted, Follow, SortRows;
    var sorted := SortRows(table);
    SortRowsSorts(table);
    if DistinctKeys(sorted) {
      forall limit | limit >= 1 ensures Follow(sorted, None, limit) == sorted {
        FollowFrom(sorted, 0, limit);
        assert sorted[0..] == sorted;
      }
    } else {
      var i, j :| 0 <= i < j < |sorted| && sorted[i].key == sorted[j].key;
      EqualKeysAreNeighbours(sorted, i, j);
      EqualKeysSkip(sorted, i);
    }
  }

  /** Two launchpads that give one launch id to markets of one value lose a market to a client with pages of one. */
  lemma TwoLaunchpadsLoseARow(value: Option<real>, launchId: nat)
    ensures var table := [Row(Key(value, launchId), 1), Row(Key(value, launchId), 2)];
            SortRows(table) == table && Follow(table, None, 1) == [table[0]]
  {
    var table := [Row(Key(value, launchId), 1), Row(Key(value, launchId), 2)];
    var key := Key(value, launchId);
    BeforeIsTotalOrder(key, key, key);
    CursorConditionIsTheOrder(key, key);
    assert table[..1] == [table[0]] && [table[0]][..0] == [];
    assert SortRows([table[0]]) == [table[0]];
    assert Rest([table[0]], Some(key)) == [];
    assert Rest(table, Some(key)) == [];
    assert Rest([table[0]], None) == [table[0]];
    assert Rest(table, None) == table;
    NextIsLater(table, None, 1);
    assert Follow(table, Some(key), 1) == [];
  }

  predicate DistinctLaunches(rows: seq<Row>) {
    forall i, j :: 0 <= i < j < |rows| ==> rows[i].key.launchId != rows[j].key.launchId
  }

  lemma {:induction false} InsertKeepsDistinct(sorted: seq<Row>, row: Row)
    requires DistinctLaunches(sorted) && forall r :: r in sorted ==> r.key.launchId != row.key.launchId
    ensures DistinctLaunches(InsertRow(sorted, row))
    ensures forall r :: r in InsertRow(sorted, row) <==> r in sorted || r == row
  {
    hide Before;
    if sorted != [] {
      var n := |sorted| - 1;
      assert sorted == sorted[..n] + [sorted[n]];
      InsertKeepsDistinct(sorted[..n], row);
      var r := InsertRow(sorted[..n], row);
      forall i | 0 <= i < |r| ensures r[i].key.launchId != sorted[n].key.launchId {
        assert r[i] in r;
      }
    }
  }

  lemma {:induction false} SortKeepsDistinct(table: seq<Row>)
    requires DistinctLaunches(table)
    ensures DistinctLaunches(SortRows(table)) && forall r :: r in SortRows(table) <==> r in table
  {
    hide InsertRow;
    if table != [] {
      var n := |table| - 1;
      assert table == table[..n] + [table[n]];
      SortKeepsDistinct(table[..n]);
      InsertKeepsDistinct(SortRows(table[..n]), table[n]);
    }
  }

  /** Distinct launch ids are enough. */
  lemma DistinctLaunchIdsSuffice(table: seq<Row>, limit: nat)
    requires limit >= 1 && DistinctLaunches(table)
    ensures Follow(SortRows(table), None, limit) == SortRows(table)
  {
    hide Sorted, Follow, SortRows;
    SortKeepsDistinct(table);
    PagesAreExact(table);
  }
}
