/** Keyset paging (withCursor, listOutput and searchKinds of knowledge-access.service.ts; findAll
    of audit.service.ts).  A row is its sort key, which ends in a unique id; a table is the sequence
    that the ORDER BY clause makes of its visible rows. */
module Keyset {
  import opened Options

  /** `updatedAt desc, id desc`; the audit log uses `createdAt` in the same way. */
  datatype ListKey = ListKey(at: int, id: nat)

  /** `score desc, updatedAt desc, kind asc, id desc`. */
  datatype SearchKey = SearchKey(score: real, at: int, kind: nat, id: nat)

  predicate ListBefore(a: ListKey, b: ListKey) {
    if a.at != b.at then a.at > b.at else a.id > b.id
  }

  predicate SearchBefore(a: SearchKey, b: SearchKey) {
    if a.score != b.score then a.score > b.score
    else if a.at != b.at then a.at > b.at
    else if a.kind != b.kind then a.kind < b.kind
    else a.id > b.id
  }

  /** The condition that `withCursor` and the audit log add to the query. */
  predicate ListCursor(cursor: ListKey, row: ListKey) {
    row.at < cursor.at || (row.at == cursor.at && row.id < cursor.id)
  }

  /** The condition that `searchKinds` adds to the query. */
  predicate SearchCursor(cursor: SearchKey, row: SearchKey) {
    || row.score < cursor.score
    || (row.score == cursor.score
        && (|| row.at < cursor.at
            || (row.at == cursor.at
                && (row.kind > cursor.kind || (row.kind == cursor.kind && row.id < cursor.id)))))
  }

  ghost predicate StrictTotalOrder<T(!new)>(before: (T, T) -> bool) {
    && (forall a :: !before(a, a))
    && (forall a, b, c | before(a, b) && before(b, c) :: before(a, c))
    && (forall a, b | a != b :: before(a, b) || before(b, a))
  }

  /** Both cursor conditions are the sort orders themselves, and these are strict and total: the
      condition selects exactly the rows that the ORDER BY clause puts after the cursor. */
  lemma CursorsFollowOrders()
    ensures StrictTotalOrder(ListBefore) && StrictTotalOrder(SearchBefore)
    ensures forall c: ListKey, row: ListKey :: ListCursor(c, row) <==> ListBefore(c, row)
    ensures forall c: SearchKey, row: SearchKey :: SearchCursor(c, row) <==> SearchBefore(c, row)
  {
  }

  ghost predicate Ordered<T(!new)>(table: seq<T>, before: (T, T) -> bool) {
    forall i, j | 0 <= i < j < |table| :: before(table[i], table[j])
  }

  /** The rows that the cursor condition selects, in order. */
  function Selected<T>(table: seq<T>, follows: (T, T) -> bool, cursor: Option<T>): seq<T> {
    if cursor.None? || table == [] then table
    else (if follows(cursor.value, table[0]) then [table[0]] else []) + Selected(table[1..], follows, cursor)
  }

  /** One query and its answer: at most `limit` rows, and a cursor when one more was fetched. */
  function Page<T>(table: seq<T>, follows: (T, T) -> bool, cursor: Option<T>, limit: nat): (seq<T>, Option<T>) {
    var selected := Selected(table, follows, cursor);
    var fetched := if |selected| > limit + 1 then selected[..limit + 1] else selected;
    var visible := if |fetched| > limit then fetched[..limit] else fetched;
    (visible, if |fetched| > limit && visible != [] then Some(visible[|visible| - 1]) else None)
  }

  /** On an ordered table the selected rows are a tail of it. */
  lemma {:induction false} SelectedIsTail<T(!new)>(table: seq<T>, follows: (T, T) -> bool, cursor: Option<T>) returns (m: nat)
    requires StrictTotalOrder(follows) && Ordered(table, follows)
    ensures m <= |table| && Selected(table, follows, cursor) == table[m..]
    ensures forall k | 0 <= k < m :: cursor.Some? && !follows(cursor.value, table[k])
  {
    if cursor.None? || table == [] {
      m := 0;
    } else {
      var n := SelectedIsTail(table[1..], follows, cursor);
      if follows(cursor.value, table[0]) {
        if |table| > 1 {
          assert table[1..][0] == table[1] && follows(table[0], table[1]);
          assert follows(cursor.value, table[1]);
        }
        assert n == 0;
        m := 0;
      } else {
        m := n + 1;
        assert forall k | 1 <= k < m :: table[k] == table[1..][k - 1];
      }
    }
  }

  /** After a row of the table come exactly the rows behind it. */
  lemma SelectedAfterRow<T(!new)>(table: seq<T>, follows: (T, T) -> bool, i: nat)
    requires StrictTotalOrder(follows) && Ordered(table, follows) && i < |table|
    ensures Selected(table, follows, Some(table[i])) == table[i + 1..]
  {
    var m := SelectedIsTail(table, follows, Some(table[i]));
    TailHasRow(table, follows, Some(table[i]), m, i);
    if i + 1 < |table| { assert follows(table[i], table[i + 1]); }
  }

  lemma {:induction false} SelectedFollow<T(!new)>(table: seq<T>, follows: (T, T) -> bool, cursor: Option<T>)
    requires cursor.Some?
    ensures forall k | 0 <= k < |Selected(table, follows, cursor)| :: follows(cursor.value, Selected(table, follows, cursor)[k])
  {
    if table != [] { SelectedFollow(table[1..], follows, cursor); }
  }

  lemma TailHasRow<T(!new)>(table: seq<T>, follows: (T, T) -> bool, cursor: Option<T>, m: nat, i: nat)
    requires cursor.Some? && m <= |table| && i < |table| && Selected(table, follows, cursor) == table[m..]
    ensures m <= i ==> follows(cursor.value, table[i])
  {
    SelectedFollow(table, follows, cursor);
    if m <= i { assert Selected(table, follows, cursor)[i - m] == table[i]; }
  }

  /** A page is as full as it can be, and there is a next cursor, its last row, exactly when more was
      selected.  The page and what that cursor selects make up what the page's own cursor selected;
      without a next cursor the page is all of it. */
  lemma PageSplits<T(!new)>(table: seq<T>, follows: (T, T) -> bool, cursor: Option<T>, limit: nat)
    requires StrictTotalOrder(follows) && Ordered(table, follows) && limit >= 1
    ensures var (rows, next), selected := Page(table, follows, cursor, limit), |Selected(table, follows, cursor)|;
            && |rows| == (if selected < limit then selected else limit)
            && (next.Some? <==> selected > limit)
            && (next.Some? ==> next.value == rows[|rows| - 1])
            && (next.Some? ==> rows != [] && rows + Selected(table, follows, next) == Selected(table, follows, cursor))
            && (next.None? ==> rows == Selected(table, follows, cursor))
  {
    hide StrictTotalOrder, Ordered, Selected;
    var m := SelectedIsTail(table, follows, cursor);
    var (rows, next) := Page(table, follows, cursor, limit);
    if next.Some? {
      assert rows == table[m..][..limit] && next.value == table[m + limit - 1];
      SelectedAfterRow(table, follows, m + limit - 1);
      assert table[m..] == table[m..][..limit] + table[m + limit..];
    }
  }

  // ------------------------------------------------------------- following cursors

  /** One answered query of a client that pages through a table that may change in between. */
  datatype View<T> = View(table: seq<T>, limit: nat, cursor: Option<T>)

  function RowsOf<T>(v: View<T>, follows: (T, T) -> bool): seq<T> { Page(v.table, follows, v.cursor, v.limit).0 }

  function NextOf<T>(v: View<T>, follows: (T, T) -> bool): Option<T> { Page(v.table, follows, v.cursor, v.limit).1 }

  /** The client follows `nextCursor` until it is null, and between two pages only rows that are
      not behind the cursor come or go. */
  ghost predicate Reading<T(!new)>(views: seq<View<T>>, follows: (T, T) -> bool) {
    && views != []
    && (forall i | 0 <= i < |views| :: views[i].limit >= 1 && Ordered(views[i].table, follows))
    && NextOf(views[|views| - 1], follows).None?
    && (forall i | 0 <= i < |views| - 1 :: Continues(views[i], views[i + 1], follows))
  }

  ghost predicate Continues<T(!new)>(v: View<T>, w: View<T>, follows: (T, T) -> bool) {
    && NextOf(v, follows).Some? && w.cursor == NextOf(v, follows)
    && Selected(w.table, follows, w.cursor) == Selected(v.table, follows, w.cursor)
  }

  function Collected<T>(views: seq<View<T>>, follows: (T, T) -> bool): seq<T> {
    if views == [] then [] else RowsOf(views[0], follows) + Collected(views[1..], follows)
  }

  /** Whatever the page sizes, and whatever is inserted before the cursor meanwhile, the pages of a
      complete reading are together exactly the rows that the first cursor selected, once each and in
      order, and every page but a single empty one brings something. */
  lemma {:induction false} ReadingIsComplete<T(!new)>(views: seq<View<T>>, follows: (T, T) -> bool)
    requires StrictTotalOrder(follows) && Reading(views, follows)
    ensures Collected(views, follows) == Selected(views[0].table, follows, views[0].cursor)
    ensures |views| <= 1 + |Collected(views, follows)|
  {
    hide StrictTotalOrder, Ordered, Selected, Page;
    var v := views[0];
    PageSplits(v.table, follows, v.cursor, v.limit);
    if |views| == 1 {
      assert Collected(views[1..], follows) == [];
    } else {
      assert Continues(views[0], views[1], follows);
      assert views[1..][0] == views[1];
      var rest := views[1..];
      forall i | 0 <= i < |rest| - 1 ensures Continues(rest[i], rest[i + 1], follows) {
        var k := i + 1;
        assert Continues(views[k], views[k + 1], follows);
      }
      ReadingIsComplete(rest, follows);
    }
  }

  /** New audit entries sort before the cursor, so they leave the rest of the reading unchanged. */
  lemma {:induction false} NewerRowsDoNotMatter<T(!new)>(table: seq<T>, grown: seq<T>, follows: (T, T) -> bool, cursor: T)
    requires StrictTotalOrder(follows) && Ordered(table, follows) && Ordered(grown, follows)
    requires forall x | x in table :: x in grown
    requires forall x | x in grown && x !in table :: follows(x, cursor)
    ensures Selected(grown, follows, Some(cursor)) == Selected(table, follows, Some(cursor))
  {
    var m := SelectedIsTail(table, follows, Some(cursor));
    var n := SelectedIsTail(grown, follows, Some(cursor));
    SameRows(table[m..], grown[n..], follows) by {
      SelectedFollow(table, follows, Some(cursor));
      SelectedFollow(grown, follows, Some(cursor));
      forall x | x in table[m..] ensures x in grown[n..] {
        InTail(table, m, x);
        var k :| 0 <= k < |grown| && grown[k] == x;
        assert follows(cursor, x);
        assert grown[k] == grown[n..][k - n];
      }
      forall x | x in grown[n..] ensures x in table[m..] {
        InTail(grown, n, x);
        assert follows(cursor, x) && !follows(x, cursor);
        assert x in table;
        var k :| 0 <= k < |table| && table[k] == x;
        assert table[k] == table[m..][k - m];
      }
    }
  }

  /** The client follows `nextCursor` until it is null, while rows that sort before the cursor, and
      no others, are inserted. */
  ghost predicate GrowingReading<T(!new)>(views: seq<View<T>>, follows: (T, T) -> bool) {
    && views != []
    && (forall i | 0 <= i < |views| :: views[i].limit >= 1 && Ordered(views[i].table, follows))
    && NextOf(views[|views| - 1], follows).None?
    && (forall i | 0 <= i < |views| - 1 :: Grows(views[i], views[i + 1], follows))
  }

  ghost predicate Grows<T(!new)>(v: View<T>, w: View<T>, follows: (T, T) -> bool) {
    && NextOf(v, follows).Some? && w.cursor == NextOf(v, follows)
    && (forall x | x in v.table :: x in w.table)
    && (forall x | x in w.table && x !in v.table :: follows(x, w.cursor.value))
  }

  lemma GrowsContinues<T(!new)>(v: View<T>, w: View<T>, follows: (T, T) -> bool)
    requires StrictTotalOrder(follows) && Ordered(v.table, follows) && Ordered(w.table, follows) && Grows(v, w, follows)
    ensures Continues(v, w, follows)
  {
    NewerRowsDoNotMatter(v.table, w.table, follows, w.cursor.value);
  }

  /** Reading the audit log from its first page to its last, with any page sizes and newer entries
      inserted between any two pages, returns exactly the entries of the table at the first page, once
      each and newest first. */
  lemma AuditReadingIsComplete(views: seq<View<ListKey>>)
    requires GrowingReading(views, ListCursor) && views[0].cursor.None?
    ensures Collected(views, ListCursor) == views[0].table
    ensures forall i, j | 0 <= i < j < |Collected(views, ListCursor)| ::
              ListBefore(Collected(views, ListCursor)[i], Collected(views, ListCursor)[j])
  {
    CursorsFollowOrders();
    assert StrictTotalOrder(ListCursor);
    hide StrictTotalOrder, Ordered, Grows, Continues, Selected, Page, ListCursor, ListBefore;
    forall i | 0 <= i < |views| - 1 ensures Continues(views[i], views[i + 1], ListCursor) {
      GrowsContinues(views[i], views[i + 1], ListCursor);
    }
    ReadingIsComplete(views, ListCursor);
    FirstPage(views[0].table, ListCursor);
    OrderedMeans(views[0].table);
  }

  lemma OrderedMeans(table: seq<ListKey>)
    requires Ordered(table, ListCursor)
    ensures forall i, j | 0 <= i < j < |table| :: ListBefore(table[i], table[j])
  {
  }

  lemma InTail<T>(s: seq<T>, m: nat, x: T)
    requires m <= |s| && x in s[m..]
    ensures x in s
  {
    var k :| 0 <= k < |s[m..]| && s[m..][k] == x;
    assert s[k + m] == x;
  }

  /** Ordered sequences with the same members are equal. */
  lemma {:induction false} SameRows<T(!new)>(a: seq<T>, b: seq<T>, before: (T, T) -> bool)
    requires StrictTotalOrder(before) && Ordered(a, before) && Ordered(b, before)
    requires (forall x | x in a :: x in b) && (forall x | x in b :: x in a)
    ensures a == b
  {
    assert a != [] ==> a[0] in b;
    assert b != [] ==> b[0] in a;
    if a != [] && b != [] {
      assert a[0] in a && b[0] in b;
      assert a[0] in b && b[0] in a;
      var i :| 0 <= i < |b| && b[i] == a[0];
      var j :| 0 <= j < |a| && a[j] == b[0];
      assert i == 0;
      forall x | x in a[1..] ensures x in b[1..] { RestMember(a, b, before, x); }
      forall x | x in b[1..] ensures x in a[1..] { RestMember(b, a, before, x); }
      SameRows(a[1..], b[1..], before);
    }
  }

  lemma RestMember<T(!new)>(a: seq<T>, b: seq<T>, before: (T, T) -> bool, x: T)
    requires StrictTotalOrder(before) && Ordered(a, before)
    requires a != [] && b != [] && a[0] == b[0] && x in a[1..] && x in b
    ensures x in b[1..]
  {
    var i :| 0 <= i < |a[1..]| && a[1..][i] == x;
    assert before(a[0], a[i + 1]) && a[i + 1] == x;
    var k :| 0 <= k < |b| && b[k] == x;
    assert k > 0 && b[1..][k - 1] == x;
  }

  /** Following the cursor over a fixed table ends and collects the whole table. */
  method ReadAll<T(!new)>(table: seq<T>, follows: (T, T) -> bool, limits: nat -> nat) returns (rows: seq<T>)
    requires StrictTotalOrder(follows) && Ordered(table, follows)
    requires forall n :: limits(n) >= 1
    ensures rows == table
  {
    hide *;
    var cursor: Option<T> := None;
    var n := 0;
    rows := [];
    FirstPage(table, follows);
    while true
      invariant rows + Selected(table, follows, cursor) == table
      decreases |Selected(table, follows, cursor)|
    {
      var (page, next) := Page(table, follows, cursor, limits(n));
      PageSplits(table, follows, cursor, limits(n));
      rows := rows + page;
      if next.None? { return; }
      cursor := next;
      n := n + 1;
    }
  }

  lemma FirstPage<T>(table: seq<T>, follows: (T, T) -> bool)
    ensures Selected(table, follows, None) == table
  {
  }

  lemma SameOrder<T(!new)>(table: seq<T>, before: (T, T) -> bool, follows: (T, T) -> bool)
    requires StrictTotalOrder(before) && Ordered(table, before)
    requires forall a, b :: follows(a, b) <==> before(a, b)
    ensures StrictTotalOrder(follows) && Ordered(table, follows)
  {
  }

  /** Paging through the lists and through the search results returns every row once, in order. */
  method ReadListsAndSearch(list: seq<ListKey>, search: seq<SearchKey>, limits: nat -> nat)
    returns (rows: seq<ListKey>, hits: seq<SearchKey>)
    requires Ordered(list, ListBefore) && Ordered(search, SearchBefore)
    requires forall n :: limits(n) >= 1
    ensures rows == list && hits == search
  {
    CursorsFollowOrders();
    SameOrder(list, ListBefore, ListCursor);
    SameOrder(search, SearchBefore, SearchCursor);
    rows := ReadAll(list, ListCursor, limits);
    hits := ReadAll(search, SearchCursor, limits);
  }
}
