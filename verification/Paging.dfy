/**
 Keyset paging over a table that may change between one page and the next. A row is known by the pair it is ordered
 by, its creation time and its id; neither ever changes.
 */
module Paging {
  import opened Prelude

  datatype Key = Key(createdAt: int, id: nat)

  type Table = set<Key>

  predicate Less(a: Key, b: Key) {
    a.createdAt < b.createdAt || (a.createdAt == b.createdAt && a.id < b.id)
  }

  predicate Descending(s: seq<Key>) {
    forall i, j :: 0 <= i < j < |s| ==> Less(s[j], s[i])
  }

  // ---- the query ----

  /** A cursor lets through the keys strictly below it; no cursor lets through all. */
  predicate Passes(cursor: Option<Key>, k: Key) {
    cursor.Some? ==> Less(k, cursor.value)
  }

  function Below(t: Table, cursor: Option<Key>): Table {
    set k | k in t && Passes(cursor, k)
  }

  lemma {:induction false} MaxExists(s: Table)
    requires s != {}
    ensures exists m <- s :: forall k <- s :: k == m || Less(k, m)
  {
    var x :| x in s;
    if s == {x} {
      assert forall k <- s :: k == x;
    } else {
      MaxExists(s - {x});
      var m :| m in s - {x} && forall k <- s - {x} :: k == m || Less(k, m);
      var top := if Less(m, x) then x else m;
      forall k | k in s ensures k == top || Less(k, top) {
        if k != x { assert k in s - {x}; }
      }
    }
  }

  function Max(s: Table): (m: Key)
    requires s != {}
    ensures m in s && forall k <- s :: k == m || Less(k, m)
  {
    MaxExists(s);
    var m :| m in s && forall k <- s :: k == m || Less(k, m);
    m
  }

  /** The rows in the query's order: newest first. */
  function Sorted(s: Table): seq<Key> {
    if s == {} then [] else [Max(s)] + Sorted(s - {Max(s)})
  }

  /** WHERE the cursor lets through, ORDER BY descending, LIMIT. */
  function Page(t: Table, cursor: Option<Key>, limit: nat): seq<Key> {
    var all := Sorted(Below(t, cursor));
    if |all| <= limit then all else all[..limit]
  }

  lemma {:induction false} SortedIsRight(s: Table)
    ensures Descending(Sorted(s)) && |Sorted(s)| == |s|
    ensures forall k :: k in Sorted(s) <==> k in s
  {
    if s != {} {
      SortedIsRight(s - {Max(s)});
      var rest := Sorted(s - {Max(s)});
      forall i, j | 0 <= i < j < |Sorted(s)| ensures Less(Sorted(s)[j], Sorted(s)[i]) {
        if i == 0 { assert rest[j - 1] in s - {Max(s)}; }
      }
    }
  }

  lemma HeadIsMember(s: seq<Key>)
    requires s != []
    ensures exists k :: k in s
  {
    assert s[0] in s;
  }

  /** A descending list is determined by its elements. */
  lemma {:induction false} DescendingUnique(a: seq<Key>, b: seq<Key>)
    requires Descending(a) && Descending(b) && forall k :: k in a <==> k in b
    ensures a == b
  {
    if a == [] {
      if b != [] { HeadIsMember(b); }
    } else {
      assert a[0] in b;
      assert b[0] in a;
      assert a[0] == b[0];
      forall k ensures k in a[1..] <==> k in b[1..] {
        assert k in a <==> k == a[0] || k in a[1..];
        assert k in b <==> k == b[0] || k in b[1..];
        assert k in a[1..] ==> k != a[0];
        assert k in b[1..] ==> k != b[0];
      }
      DescendingUnique(a[1..], b[1..]);
    }
  }

  /** A page is descending, below its cursor, from its table; what it leaves out is below its last row. */
  lemma PageIsRight(t: Table, cursor: Option<Key>, limit: nat)
    ensures var p := Page(t, cursor, limit);
            && Descending(p) && |p| <= limit
            && (forall k <- p :: k in t && Passes(cursor, k))
            && (|p| < limit ==> forall k <- t :: Passes(cursor, k) ==> k in p)
            && (|p| == limit && limit > 0 ==> forall k <- t :: Passes(cursor, k) ==> k in p || Less(k, p[|p| - 1]))
            && (|p| == limit ==> |Below(t, cursor)| >= limit)
  {
    var all, p := Sorted(Below(t, cursor)), Page(t, cursor, limit);
    SortedIsRight(Below(t, cursor));
    forall k | k in p ensures k in Below(t, cursor) {
      var i :| 0 <= i < |p| && p[i] == k;
      assert all[i] == k;
    }
    forall k | k in t && Passes(cursor, k) ensures k in p || (|p| == limit && (limit > 0 ==> Less(k, p[|p| - 1]))) {
      assert k in all;
      var i :| 0 <= i < |all| && all[i] == k;
      if i < |p| { assert p[i] == k; }
    }
  }

  // ---- following the cursors ----

  /** What the pages read so far, ending at `cursor`, amount to. */
  ghost predicate Collected(rows: seq<Key>, cursor: Option<Key>, tables: seq<Table>, fixed: Table) {
    && Descending(rows)
    && (rows == [] ==> cursor.None?) && (rows != [] ==> cursor == Some(rows[|rows| - 1]))
    && (forall k <- rows :: exists i :: 0 <= i < |tables| && k in tables[i])
    && (forall k <- fixed :: !Passes(cursor, k) ==> k in rows)
  }

  lemma AppendDescending(rows: seq<Key>, page: seq<Key>, cursor: Option<Key>)
    requires Descending(rows) && Descending(page)
    requires rows != [] ==> cursor == Some(rows[|rows| - 1])
    requires forall k <- page :: Passes(cursor, k)
    ensures Descending(rows + page)
  {
    forall i, j | 0 <= i < |rows| && 0 <= j < |page| ensures Less(page[j], rows[i]) {
      assert page[j] in page;
      assert i < |rows| - 1 ==> Less(rows[|rows| - 1], rows[i]);
    }
  }

  /** Appending a page that keeps everything below the cursor down to its last row. */
  lemma CollectPage(rows: seq<Key>, cursor: Option<Key>, tables: seq<Table>, fixed: Table, t: Table, page: seq<Key>)
    requires Collected(rows, cursor, tables, fixed) && t in tables && fixed <= t && page != []
    requires Descending(page) && forall k <- page :: k in t && Passes(cursor, k)
    requires forall k <- t :: Passes(cursor, k) ==> k in page || Less(k, page[|page| - 1])
    ensures Collected(rows + page, Some(page[|page| - 1]), tables, fixed)
  {
    AppendDescending(rows, page, cursor);
    var last := page[|page| - 1];
    forall k | k in fixed && !Less(k, last) ensures k in rows + page {
      if Passes(cursor, k) { assert k in page; } else { assert k in rows; }
    }
    var i :| 0 <= i < |tables| && tables[i] == t;
    forall k | k in page ensures exists i :: 0 <= i < |tables| && k in tables[i] {
      assert k in tables[i];
    }
  }

  /** The rows that no page read could miss: those present in every version of the table. */
  ghost function Throughout(tables: seq<Table>): Table
    requires tables != []
  {
    set k | k in tables[0] && forall i :: 0 <= i < |tables| ==> k in tables[i]
  }

  function Version(tables: seq<Table>, i: nat): Table
    requires tables != []
  {
    if i < |tables| then tables[i] else tables[|tables| - 1]
  }

  /** What following the cursors from the first page to the last must return. */
  ghost predicate Complete(rows: seq<Key>, tables: seq<Table>)
    requires tables != []
  {
    && Descending(rows)
    && (forall k <- Throughout(tables) :: k in rows)
    && (forall k <- rows :: exists i :: 0 <= i < |tables| && k in tables[i])
    && ((forall i :: 0 <= i < |tables| ==> tables[i] == tables[0]) ==> rows == Sorted(tables[0]))
  }

  lemma CollectedIsComplete(rows: seq<Key>, cursor: Option<Key>, tables: seq<Table>)
    requires tables != [] && Collected(rows, cursor, tables, Throughout(tables))
    requires forall k <- Throughout(tables) :: k in rows
    ensures Complete(rows, tables)
  {
    if forall i :: 0 <= i < |tables| ==> tables[i] == tables[0] {
      SortedIsRight(tables[0]);
      forall k ensures k in rows <==> k in Sorted(tables[0]) {
        if k in tables[0] { assert k in Throughout(tables); }
      }
      DescendingUnique(rows, Sorted(tables[0]));
    }
  }

  lemma CursorDescends(t: Table, cursor: Option<Key>, page: seq<Key>)
    requires page != [] && Descending(page) && forall k <- page :: k in t && Passes(cursor, k)
    ensures Below(t, Some(page[|page| - 1])) < Below(t, cursor)
  {
    var last := page[|page| - 1];
    assert last in page && last in Below(t, cursor) && last !in Below(t, Some(last));
  }

  /** One request of a list view: it reads one row more than it shows, to know whether there are more. */
  method ListPage(t: Table, cursor: Option<Key>, limit: nat) returns (rows: seq<Key>, next: Option<Key>, hasMore: bool)
    requires limit > 0
    ensures rows == Page(t, cursor, limit)
    ensures hasMore <==> |Below(t, cursor)| > limit
    ensures next == if hasMore then Some(rows[|rows| - 1]) else None
    ensures hasMore ==> |rows| == limit
  {
    rows := Page(t, cursor, limit + 1);
    SortedIsRight(Below(t, cursor));
    hasMore := |rows| > limit;
    next := None;
    if hasMore {
      rows := rows[..limit];
      next := Some(rows[|rows| - 1]);
    }
  }

  /**
   The export: pages are appended until one comes back short. `tables[i]` is the table as the i-th page reads it;
   it stays as in the last version from then on. The loop ends, and no row present throughout is missed or repeated.
   */
  method Export(tables: seq<Table>, pageSize: nat) returns (rows: seq<Key>)
    requires tables != [] && pageSize > 0
    ensures Complete(rows, tables)
  {
    rows := [];
    var cursor: Option<Key> := None;
    var i: nat := 0;
    var fixed := Throughout(tables);
    while true
      invariant Collected(rows, cursor, tables, fixed)
      decreases if i < |tables| then |tables| - i else 0, Below(tables[|tables| - 1], cursor)
    {
      var t := Version(tables, i);
      assert t in tables && fixed <= t;
      var page := Page(t, cursor, pageSize);
      PageIsRight(t, cursor, pageSize);
      if |page| < pageSize {
        LastPage(rows, cursor, tables, fixed, t, page);
        rows := rows + page;
        return;
      }
      CollectPage(rows, cursor, tables, fixed, t, page);
      CursorDescends(t, cursor, page);
      rows := rows + page;
      cursor := Some(page[|page| - 1]);
      i := i + 1;
    }
  }

  lemma LastPage(rows: seq<Key>, cursor: Option<Key>, tables: seq<Table>, fixed: Table, t: Table, page: seq<Key>)
    requires tables != [] && fixed == Throughout(tables)
    requires Collected(rows, cursor, tables, fixed) && t in tables && fixed <= t
    requires Descending(page) && forall k <- page :: k in t && Passes(cursor, k)
    requires forall k <- t :: Passes(cursor, k) ==> k in page
    ensures Complete(rows + page, tables)
  {
    if page == [] {
      assert rows + page == rows;
      CollectedIsComplete(rows, cursor, tables);
    } else {
      CollectPage(rows, cursor, tables, fixed, t, page);
      CollectedIsComplete(rows + page, Some(page[|page| - 1]), tables);
    }
  }

  /** A client that follows `next_cursor` until `has_more` is false gets the same guarantee. */
  method FollowCursors(tables: seq<Table>, limit: nat) returns (rows: seq<Key>)
    requires tables != [] && limit > 0
    ensures Complete(rows, tables)
  {
    rows := [];
    var cursor: Option<Key> := None;
    var i: nat := 0;
    var fixed := Throughout(tables);
    while true
      invariant Collected(rows, cursor, tables, fixed)
      decreases if i < |tables| then |tables| - i else 0, Below(tables[|tables| - 1], cursor)
    {
      var t := Version(tables, i);
      assert t in tables && fixed <= t;
      var page, next, hasMore := ListPage(t, cursor, limit);
      PageIsRight(t, cursor, limit);
      if !hasMore {
        forall k | k in t && Passes(cursor, k) ensures k in page {
          SortedIsRight(Below(t, cursor));
          assert k in Below(t, cursor);
        }
        LastPage(rows, cursor, tables, fixed, t, page);
        rows := rows + page;
        return;
      }
      CollectPage(rows, cursor, tables, fixed, t, page);
      CursorDescends(t, cursor, page);
      rows := rows + page;
      cursor := next;
      i := i + 1;
    }
  }
}
