/** Keyset pagination of `df.list_instances` (src/monitoring.rs:411-633): single pages, and
    whole walks along `next_cursor` while the table may change between pages. */
module Listing {
  import opened Prelude

  type Id = nat       // rank of an identifier under the column's collation

  datatype Row = Row(createdAt: Option<int>, status: string, tag: Option<string>)

  type Table = map<Id, Row>

  /** Position in the listing; what a cursor token carries (`Cursor` has the token itself). */
  datatype Key = Key(createdAt: int, id: Id)

  datatype Filter = Filter(status: Option<string>, tag: Option<string>)

  /** The WHERE clause without the cursor; rows without a creation time are excluded. */
  predicate Matches(r: Row, f: Filter) {
    && r.createdAt.Some?
    && (f.status.Some? ==> r.status == f.status.value)
    && (f.tag.Some? ==> r.tag == f.tag)
  }

  function Matching(t: Table, f: Filter): set<Key> {
    set id | id in t && Matches(t[id], f) :: Key(t[id].createdAt.value, id)
  }

  /** ORDER BY created_at DESC, id ASC */
  predicate Before(a: Key, b: Key) {
    a.createdAt > b.createdAt || (a.createdAt == b.createdAt && a.id < b.id)
  }

  /** The keyset condition as the query writes it. */
  predicate KeysetCondition(k: Key, c: Key) {
    k.createdAt <= c.createdAt && (k.createdAt < c.createdAt || (k.createdAt == c.createdAt && k.id > c.id))
  }

  function After(keys: set<Key>, c: Option<Key>): set<Key> {
    set k | k in keys && (c.Some? ==> KeysetCondition(k, c.value))
  }

  predicate Ascending(q: seq<Key>) { forall i, j :: 0 <= i < j < |q| ==> Before(q[i], q[j]) }

  /** `q` is the result of `ORDER BY … LIMIT n` over the keys: sorted, and nothing left out
      unless the limit is reached, and then only what sorts later. */
  ghost predicate IsTop(q: seq<Key>, keys: set<Key>, n: nat) {
    && Ascending(q) && |q| <= n
    && (forall k :: k in q ==> k in keys)
    && (forall k :: k in keys && k !in q ==> |q| == n && forall i :: 0 <= i < |q| ==> Before(q[i], k))
  }

  /** `rows`: the page of the table; `shown`: those the engine lookup found; `next`: the cursor
      value repeated on every shown row. */
  datatype Page = Page(rows: seq<Key>, shown: seq<Key>, next: Option<Key>)

  function Shown(rows: seq<Key>, known: set<Id>): (r: seq<Key>)
    ensures forall k :: k in r <==> k in rows && k.id in known
  {
    if rows == [] then []
    else
      var n := |rows| - 1;
      Shown(rows[..n], known) + (if rows[n].id in known then [rows[n]] else [])
  }

  ghost predicate IsPage(p: Page, t: Table, f: Filter, limit: nat, cursor: Option<Key>, known: set<Id>) {
    var rest := After(Matching(t, f), cursor);
    && IsTop(p.rows, rest, limit)
    && p.shown == Shown(p.rows, known)
    // a next cursor exactly when a further row exists, and then it is the last row's
    && (p.next.None? <==> forall k :: k in rest ==> k in p.rows)
    && (p.next.Some? ==> |p.rows| == limit > 0 && p.next == Some(p.rows[limit - 1]))
  }

  /** `list_instances_paged`, given the query's `limit + 1` rows and the identifiers the
      engine knows. */
  method ListPage(fetched: seq<Key>, limit: nat, known: set<Id>, ghost t: Table, ghost f: Filter,
                  ghost cursor: Option<Key>)
      returns (p: Page)
    requires limit >= 1 && IsTop(fetched, After(Matching(t, f), cursor), limit + 1)
    ensures IsPage(p, t, f, limit, cursor, known)
  {
    var hasMore := |fetched| > limit;
    var rows := if hasMore then fetched[..limit] else fetched;
    var next := if hasMore then Some(rows[|rows| - 1]) else None;
    var shown: seq<Key> := [];
    for i := 0 to |rows|
      invariant shown == Shown(rows[..i], known)
    {
      assert rows[..i + 1][..i] == rows[..i];
      if rows[i].id in known {
        shown := shown + [rows[i]];
      }
    }
    assert rows[..|rows|] == rows;
    p := Page(rows, shown, next);
    if hasMore {
      assert fetched == rows + [fetched[limit]];
      BeforeIrreflexive(rows, fetched[limit]);
    }
  }

  lemma BeforeIrreflexive(q: seq<Key>, k: Key)
    requires forall i :: 0 <= i < |q| ==> Before(q[i], k)
    ensures k !in q
  {
  }

  // ----- walks -----

  /** What a client reads as the cursor: it is repeated on the shown rows only. */
  function ClientCursor(p: Page): Option<Key> { if p.shown == [] then None else p.next }

  /** The tables, and the engine's knowledge, when each page was taken. */
  datatype Moment = Moment(table: Table, known: set<Id>)

  /** The pages a client gets by following the cursor from NULL, until it reads NULL. */
  ghost predicate IsWalk(pages: seq<Page>, at: seq<Moment>, f: Filter, limit: nat) {
    && |pages| == |at| > 0
    && (forall i :: 0 <= i < |pages| ==>
          IsPage(pages[i], at[i].table, f, limit, CursorOf(pages, i), at[i].known))
    && (forall i :: 0 <= i < |pages| - 1 ==> ClientCursor(pages[i]).Some?)
  }

  /** The cursor of page `i`. */
  function CursorOf(pages: seq<Page>, i: nat): Option<Key>
    requires i <= |pages|
  {
    if i == 0 then None else ClientCursor(pages[i - 1])
  }

  predicate Finished(pages: seq<Page>) { |pages| > 0 && ClientCursor(pages[|pages| - 1]) == None }

  /** The last page ended the walk although more rows exist: nothing on it was shown. */
  predicate Lost(pages: seq<Page>) { |pages| > 0 && pages[|pages| - 1].shown == [] && pages[|pages| - 1].next.Some? }

  function AllRows(pages: seq<Page>): seq<Key> {
    if pages == [] then [] else AllRows(pages[..|pages| - 1]) + pages[|pages| - 1].rows
  }

  function AllShown(pages: seq<Page>): seq<Key> {
    if pages == [] then [] else AllShown(pages[..|pages| - 1]) + pages[|pages| - 1].shown
  }

  lemma WalkPrefix(pages: seq<Page>, at: seq<Moment>, f: Filter, limit: nat)
    requires IsWalk(pages, at, f, limit) && |pages| > 1
    ensures IsWalk(pages[..|pages| - 1], at[..|at| - 1], f, limit)
  {
    var n := |pages| - 1;
    forall i | 0 <= i < n ensures CursorOf(pages[..n], i) == CursorOf(pages, i) {}
  }

  lemma AscendingAppend(a: seq<Key>, b: seq<Key>, c: Key)
    requires Ascending(a) && Ascending(b)
    requires UpTo(a, c)
    requires forall k :: k in b ==> Before(c, k)
    ensures Ascending(a + b)
  {
    forall i, j | 0 <= i < j < |a + b| ensures Before((a + b)[i], (a + b)[j]) {
      if i < |a| <= j {
        assert a[i] in a && b[j - |a|] in b;
      }
    }
  }

  lemma LastIsLargest(q: seq<Key>, k: Key)
    requires Ascending(q) && k in q
    ensures k == q[|q| - 1] || Before(k, q[|q| - 1])
  {
  }

  /** A page's rows are sorted, come after its cursor, and end at its next cursor. */
  lemma PageFacts(p: Page, t: Table, f: Filter, limit: nat, cursor: Option<Key>, known: set<Id>)
    requires IsPage(p, t, f, limit, cursor, known)
    ensures Ascending(p.rows)
    ensures cursor.Some? ==> forall k :: k in p.rows ==> Before(cursor.value, k)
    ensures p.next.Some? ==> |p.rows| == limit > 0 && p.next.value == p.rows[limit - 1]
  {
  }

  /** The last page of a walk, and where it starts. */
  lemma LastPage(pages: seq<Page>, at: seq<Moment>, f: Filter, limit: nat)
    requires IsWalk(pages, at, f, limit)
    ensures var n := |pages| - 1;
            && |pages| == |at| > 0
            && IsPage(pages[n], at[n].table, f, limit, CursorOf(pages, n), at[n].known)
            && (n > 0 ==> pages[n - 1].next.Some? && CursorOf(pages, n) == pages[n - 1].next)
  {
    assert |pages| > 1 ==> ClientCursor(pages[|pages| - 2]).Some?;
  }

  lemma AllRowsStep(pages: seq<Page>)
    requires pages != []
    ensures AllRows(pages) == AllRows(pages[..|pages| - 1]) + pages[|pages| - 1].rows
    ensures |pages| == 1 ==> AllRows(pages) == pages[0].rows
  {
    assert AllRows([]) == [];
  }

  /** All of `q` comes at or before `k`. */
  predicate UpTo(q: seq<Key>, k: Key) { forall x :: x in q ==> x == k || Before(x, k) }

  lemma UpToLast(q: seq<Key>)
    requires Ascending(q) && q != []
    ensures UpTo(q, q[|q| - 1])
  {
    forall x | x in q ensures x == q[|q| - 1] || Before(x, q[|q| - 1]) { LastIsLargest(q, x); }
  }

  /** Whatever happens to the table between pages, the rows of a walk are strictly increasing
      in (created_at DESC, id ASC), all before or at the last cursor. */
  lemma {:induction false} WalkAscends(pages: seq<Page>, at: seq<Moment>, f: Filter, limit: nat)
    requires IsWalk(pages, at, f, limit) && limit >= 1
    ensures Ascending(AllRows(pages))
    ensures pages[|pages| - 1].next.Some? ==> UpTo(AllRows(pages), pages[|pages| - 1].next.value)
  {
    hide IsWalk, AllRows, IsPage, Ascending, UpTo;
    var n := |pages| - 1;
    LastPage(pages, at, f, limit);
    var last := pages[n];
    AllRowsStep(pages);
    PageFacts(last, at[n].table, f, limit, CursorOf(pages, n), at[n].known);
    if n > 0 {
      WalkPrefix(pages, at, f, limit);
      WalkAscends(pages[..n], at[..n], f, limit);
      AscendingAppend(AllRows(pages[..n]), last.rows, pages[n - 1].next.value);
    }
    if last.next.Some? {
      UpToLast(AllRows(pages));
    }
  }

  /** The rows the client is shown are strictly increasing as well. */
  lemma {:induction false} ShownAscends(pages: seq<Page>, at: seq<Moment>, f: Filter, limit: nat)
    requires IsWalk(pages, at, f, limit) && limit >= 1
    ensures Ascending(AllShown(pages))
    ensures pages[|pages| - 1].next.Some? ==> UpTo(AllShown(pages), pages[|pages| - 1].next.value)
    decreases |pages|
  {
    hide IsWalk, AllRows, AllShown, IsPage, Ascending, UpTo;
    var n := |pages| - 1;
    LastPage(pages, at, f, limit);
    var last := pages[n];
    AllShownStep(pages);
    PageFacts(last, at[n].table, f, limit, CursorOf(pages, n), at[n].known);
    ShownIsFiltered(last, at[n].table, f, limit, CursorOf(pages, n), at[n].known);
    PageShownAscends(last.rows, at[n].known);
    if n > 0 {
      WalkPrefix(pages, at, f, limit);
      ShownAscends(pages[..n], at[..n], f, limit);
      AscendingAppend(AllShown(pages[..n]), last.shown, pages[n - 1].next.value);
    }
    if last.next.Some? {
      WalkAscends(pages, at, f, limit);
      ShownUpTo(pages, at, f, limit, last.next.value);
    }
  }

  lemma ShownIsFiltered(p: Page, t: Table, f: Filter, limit: nat, cursor: Option<Key>, known: set<Id>)
    requires IsPage(p, t, f, limit, cursor, known)
    ensures p.shown == Shown(p.rows, known)
  {
  }

  lemma ShownUpTo(pages: seq<Page>, at: seq<Moment>, f: Filter, limit: nat, k: Key)
    requires IsWalk(pages, at, f, limit) && UpTo(AllRows(pages), k)
    ensures UpTo(AllShown(pages), k)
  {
    hide IsWalk, AllRows, AllShown;
    forall x | x in AllShown(pages) ensures x in AllRows(pages) {
      ShownInWalk(pages, at, f, limit, x);
    }
  }

  lemma AllShownStep(pages: seq<Page>)
    requires pages != []
    ensures AllShown(pages) == AllShown(pages[..|pages| - 1]) + pages[|pages| - 1].shown
    ensures |pages| == 1 ==> AllShown(pages) == pages[0].shown
  {
    assert AllShown([]) == [];
  }

  /** What the filters let through: rows with a creation time, of the requested status and label. */
  lemma MatchingExactly(t: Table, f: Filter, k: Key)
    ensures k in Matching(t, f) <==>
              && k.id in t && t[k.id].createdAt == Some(k.createdAt)
              && (f.status == None || Some(t[k.id].status) == f.status)
              && (f.tag == None || t[k.id].tag == f.tag)
  {
    if k.id in t && Matches(t[k.id], f) && t[k.id].createdAt == Some(k.createdAt) {
      assert Key(t[k.id].createdAt.value, k.id) in Matching(t, f);
    }
  }

  /** Every row shown was, when its page was taken, in the table with the requested status and
      label, and known to the engine; newer rows come before older ones, and rows of one instant
      in the order of their ids. */
  lemma ShownRowsMatch(pages: seq<Page>, at: seq<Moment>, f: Filter, limit: nat, i: nat) returns (m: nat)
    requires IsWalk(pages, at, f, limit) && limit >= 1 && i < |AllShown(pages)|
    ensures var k := AllShown(pages)[i];
            && m < |at| && k.id in at[m].known && k.id in at[m].table
            && at[m].table[k.id].createdAt == Some(k.createdAt)
            && (f.status == None || Some(at[m].table[k.id].status) == f.status)
            && (f.tag == None || at[m].table[k.id].tag == f.tag)
    ensures forall j :: i < j < |AllShown(pages)| ==>
              || AllShown(pages)[i].createdAt > AllShown(pages)[j].createdAt
              || (AllShown(pages)[i].createdAt == AllShown(pages)[j].createdAt
                  && AllShown(pages)[i].id < AllShown(pages)[j].id)
  {
    ShownAscends(pages, at, f, limit);
    hide IsWalk, AllShown, Matching;
    m := ShownHasMoment(pages, at, f, limit, AllShown(pages)[i]);
    MatchingExactly(at[m].table, f, AllShown(pages)[i]);
  }

  lemma {:induction false} ShownHasMoment(pages: seq<Page>, at: seq<Moment>, f: Filter, limit: nat, k: Key)
      returns (m: nat)
    requires IsWalk(pages, at, f, limit) && k in AllShown(pages)
    ensures m < |at| && k.id in at[m].known && k in Matching(at[m].table, f)
  {
    hide IsWalk, AllShown, Matching;
    var n := |pages| - 1;
    LastPage(pages, at, f, limit);
    ShownIsFiltered(pages[n], at[n].table, f, limit, CursorOf(pages, n), at[n].known);
    AllShownStep(pages);
    if k in pages[n].shown {
      m := n;
      assert k in After(Matching(at[n].table, f), CursorOf(pages, n));
    } else {
      WalkPrefix(pages, at, f, limit);
      m := ShownHasMoment(pages[..n], at[..n], f, limit, k);
    }
  }

  /** No instance has its creation time changed between pages. */
  predicate CreationFixed(at: seq<Moment>) {
    forall i, j, id :: 0 <= i < |at| && 0 <= j < |at| && id in at[i].table && id in at[j].table ==>
      at[i].table[id].createdAt == at[j].table[id].createdAt
  }

  /** A fetched row is a row of the table of its moment. */
  lemma {:induction false} RowHasMoment(pages: seq<Page>, at: seq<Moment>, f: Filter, limit: nat, k: Key)
      returns (i: nat)
    requires IsWalk(pages, at, f, limit) && k in AllRows(pages)
    ensures i < |at| && k.id in at[i].table && at[i].table[k.id].createdAt == Some(k.createdAt)
  {
    var n := |pages| - 1;
    if k in pages[n].rows {
      i := n;
      assert k in After(Matching(at[n].table, f), CursorOf(pages, n));
    } else {
      WalkPrefix(pages, at, f, limit);
      i := RowHasMoment(pages[..n], at[..n], f, limit, k);
    }
  }

  /** No position of the order is shown twice, and, since creation times do not change, no
      instance is. */
  lemma WalkHasNoDuplicates(pages: seq<Page>, at: seq<Moment>, f: Filter, limit: nat, i: nat, j: nat)
    requires IsWalk(pages, at, f, limit) && limit >= 1
    requires i < j < |AllShown(pages)|
    ensures AllShown(pages)[i] != AllShown(pages)[j]
    ensures CreationFixed(at) ==> AllShown(pages)[i].id != AllShown(pages)[j].id
    ensures AllShown(pages)[i].id == AllShown(pages)[j].id ==>
              AllShown(pages)[i].createdAt > AllShown(pages)[j].createdAt
  {
    ShownAscends(pages, at, f, limit);
    var a, b := AllShown(pages)[i], AllShown(pages)[j];
    assert a in AllShown(pages) && b in AllShown(pages);
    hide IsWalk, AllRows, AllShown;
    ShownInWalk(pages, at, f, limit, a);
    ShownInWalk(pages, at, f, limit, b);
    var x := RowHasMoment(pages, at, f, limit, a);
    var y := RowHasMoment(pages, at, f, limit, b);
  }

  /** A row that matches throughout has been returned, or sorts after the last page. */
  lemma {:induction false} StableRowIsReached(pages: seq<Page>, at: seq<Moment>, f: Filter, limit: nat, k: Key)
    requires IsWalk(pages, at, f, limit) && limit >= 1
    requires forall i :: 0 <= i < |at| ==> k in Matching(at[i].table, f)
    ensures k in AllRows(pages) || (pages[|pages| - 1].next.Some? && Before(pages[|pages| - 1].next.value, k))
  {
    hide Matching;
    var n := |pages| - 1;
    if n > 0 {
      WalkPrefix(pages, at, f, limit);
      StableRowIsReached(pages[..n], at[..n], f, limit, k);
    }
    var rest := After(Matching(at[n].table, f), CursorOf(pages, n));
    if k !in AllRows(pages) {
      assert k in rest;
    }
  }

  lemma {:induction false} ShownInWalk(pages: seq<Page>, at: seq<Moment>, f: Filter, limit: nat, k: Key)
    requires IsWalk(pages, at, f, limit)
    ensures k in AllShown(pages) ==> k in AllRows(pages)
    ensures k in AllRows(pages) && (forall i :: 0 <= i < |at| ==> k.id in at[i].known) ==> k in AllShown(pages)
  {
    var n := |pages| - 1;
    LastPage(pages, at, f, limit);
    assert pages[n].shown == Shown(pages[n].rows, at[n].known);
    if n > 0 {
      WalkPrefix(pages, at, f, limit);
      ShownInWalk(pages[..n], at[..n], f, limit, k);
    } else {
      assert pages[..0] == [] && AllRows(pages[..0]) == [] && AllShown(pages[..0]) == [];
    }
    hide IsWalk, IsPage;
  }

  lemma {:induction false} PageShownAscends(rows: seq<Key>, known: set<Id>)
    requires Ascending(rows)
    ensures Ascending(Shown(rows, known))
  {
    if rows != [] {
      PageShownAscends(rows[..|rows| - 1], known);
    }
  }

  /** In a finished walk, whatever else changes, a row that matches and is known to the engine
      throughout is shown exactly once; only a lost walk does not show it, and exactly if it
      sorts after the row the walk was lost on. */
  lemma StableRowShownOnce(pages: seq<Page>, at: seq<Moment>, f: Filter, limit: nat, k: Key)
    requires IsWalk(pages, at, f, limit) && limit >= 1 && Finished(pages)
    requires forall i :: 0 <= i < |at| ==> k in Matching(at[i].table, f) && k.id in at[i].known
    ensures multiset(AllShown(pages))[k] ==
            if Lost(pages) && Before(pages[|pages| - 1].next.value, k) then 0 else 1
  {
    hide Matching, IsWalk, AllRows, AllShown;
    StableRowIsReached(pages, at, f, limit, k);
    ShownInWalk(pages, at, f, limit, k);
    WalkAscends(pages, at, f, limit);
    ShownAscends(pages, at, f, limit);
    CountInAscending(AllShown(pages), k);
  }

  lemma {:induction false} CountInAscending(q: seq<Key>, k: Key)
    requires Ascending(q)
    ensures multiset(q)[k] == if k in q then 1 else 0
  {
    if q != [] {
      var n := |q| - 1;
      CountInAscending(q[..n], k);
      assert q == q[..n] + [q[n]];
    }
  }

  /** The table is the same at every page. */
  predicate Unchanged(at: seq<Moment>, t: Table) { forall i :: 0 <= i < |at| ==> at[i].table == t }

  /** On an unchanged table a finished walk fetches exactly the sorted list of all matching
      rows if and only if it is not lost. */
  lemma WalkIsSortedTable(pages: seq<Page>, at: seq<Moment>, f: Filter, limit: nat, t: Table)
    requires IsWalk(pages, at, f, limit) && limit >= 1 && Finished(pages) && Unchanged(at, t)
    ensures IsListing(AllRows(pages), Matching(t, f)) <==> !Lost(pages)
  {
    hide Matching;
    if Lost(pages) {
      LostRowIsMissed(pages, at, f, limit, t);
    } else {
      WalkAscends(pages, at, f, limit);
      forall k | k in Matching(t, f) ensures k in AllRows(pages) {
        StableRowIsReached(pages, at, f, limit, k);
      }
      forall k | k in AllRows(pages) ensures k in Matching(t, f) {
        RowsComeFromTable(pages, at, f, limit, t, k);
      }
    }
  }

  /** Behind the last page of a lost walk there is a row that no page has. */
  lemma LostRowIsMissed(pages: seq<Page>, at: seq<Moment>, f: Filter, limit: nat, t: Table)
    requires IsWalk(pages, at, f, limit) && limit >= 1 && Unchanged(at, t) && pages[|pages| - 1].next.Some?
    ensures exists k :: k in Matching(t, f) && k !in AllRows(pages)
  {
    hide Matching, AllRows;
    var n := |pages| - 1;
    LastPage(pages, at, f, limit);
    WalkAscends(pages, at, f, limit);
    hide IsWalk;
    var rest := After(Matching(t, f), CursorOf(pages, n));
    var k :| k in rest && k !in pages[n].rows;
    BehindLastRow(pages[n].rows, rest, limit, k);
    assert Before(pages[n].next.value, k);
    assert k !in AllRows(pages);
  }

  lemma BehindLastRow(q: seq<Key>, keys: set<Key>, n: nat, k: Key)
    requires IsTop(q, keys, n) && k in keys && k !in q && q != []
    ensures Before(q[|q| - 1], k)
  {
  }

  /** If every matching instance is known to the engine whenever a page is taken, no walk is
      lost, whatever else happens to the table. */
  lemma KnownWalkIsNotLost(pages: seq<Page>, at: seq<Moment>, f: Filter, limit: nat)
    requires IsWalk(pages, at, f, limit) && limit >= 1
    requires forall i, k :: 0 <= i < |at| && k in Matching(at[i].table, f) ==> k.id in at[i].known
    ensures !Lost(pages)
  {
    hide Matching, IsWalk;
    var n := |pages| - 1;
    LastPage(pages, at, f, limit);
    if pages[n].next.Some? {
      var k := pages[n].rows[0];
      assert k in After(Matching(at[n].table, f), CursorOf(pages, n));
      assert k in pages[n].shown;
    }
  }

  /** Every lookup of the walk found its row. */
  predicate AllFound(pages: seq<Page>) { forall i :: 0 <= i < |pages| ==> pages[i].shown == pages[i].rows }

  /** On an unchanged table the client of a finished walk is shown exactly the sorted list of
      all matching rows if and only if every lookup found its row. */
  lemma WalkShowsSortedTable(pages: seq<Page>, at: seq<Moment>, f: Filter, limit: nat, t: Table)
    requires IsWalk(pages, at, f, limit) && limit >= 1 && Finished(pages) && Unchanged(at, t)
    ensures IsListing(AllShown(pages), Matching(t, f)) <==> AllFound(pages)
  {
    hide Matching, IsWalk, AllRows, AllShown, IsListing;
    if AllFound(pages) {
      FoundIsShown(pages);
      FoundIsNotLost(pages, at, f, limit);
      WalkIsSortedTable(pages, at, f, limit, t);
    }
    if IsListing(AllShown(pages), Matching(t, f)) {
      ShownListingIsFetched(pages, at, f, limit, t);
      SameLengthIsFound(pages, at, f, limit);
    }
  }

  lemma {:induction false} FoundIsShown(pages: seq<Page>)
    requires AllFound(pages)
    ensures AllShown(pages) == AllRows(pages)
  {
    if pages != [] { FoundIsShown(pages[..|pages| - 1]); }
  }

  lemma FoundIsNotLost(pages: seq<Page>, at: seq<Moment>, f: Filter, limit: nat)
    requires IsWalk(pages, at, f, limit) && limit >= 1 && AllFound(pages)
    ensures !Lost(pages)
  {
    LastPage(pages, at, f, limit);
  }

  lemma ShownListingIsFetched(pages: seq<Page>, at: seq<Moment>, f: Filter, limit: nat, t: Table)
    requires IsWalk(pages, at, f, limit) && limit >= 1 && Unchanged(at, t) && IsListing(AllShown(pages), Matching(t, f))
    ensures AllShown(pages) == AllRows(pages)
  {
    hide Matching, IsWalk, AllRows, AllShown;
    WalkAscends(pages, at, f, limit);
    forall k ensures k in AllRows(pages) <==> k in Matching(t, f) {
      ShownInWalk(pages, at, f, limit, k);
      if k in AllRows(pages) { RowsComeFromTable(pages, at, f, limit, t, k); }
    }
    ListingUnique(AllShown(pages), AllRows(pages), Matching(t, f));
  }

  lemma {:induction false} ShownIsShorter(rows: seq<Key>, known: set<Id>)
    ensures |Shown(rows, known)| <= |rows|
    ensures |Shown(rows, known)| == |rows| ==> Shown(rows, known) == rows
  {
    if rows != [] { ShownIsShorter(rows[..|rows| - 1], known); }
  }

  lemma {:induction false} SameLengthIsFound(pages: seq<Page>, at: seq<Moment>, f: Filter, limit: nat)
    requires IsWalk(pages, at, f, limit)
    ensures |AllShown(pages)| <= |AllRows(pages)|
    ensures |AllShown(pages)| == |AllRows(pages)| ==> AllFound(pages)
  {
    hide IsWalk, AllRows, AllShown, Shown;
    var n := |pages| - 1;
    LastPage(pages, at, f, limit);
    ShownIsFiltered(pages[n], at[n].table, f, limit, CursorOf(pages, n), at[n].known);
    ShownIsShorter(pages[n].rows, at[n].known);
    AllRowsStep(pages);
    AllShownStep(pages);
    if n > 0 {
      WalkPrefix(pages, at, f, limit);
      SameLengthIsFound(pages[..n], at[..n], f, limit);
    }
  }

  /** In particular: every lookup finds its row when the engine knows every matching instance. */
  lemma KnownWalkShowsSortedTable(pages: seq<Page>, at: seq<Moment>, f: Filter, limit: nat, t: Table)
    requires IsWalk(pages, at, f, limit) && limit >= 1 && Finished(pages) && Unchanged(at, t)
    requires forall i, k :: 0 <= i < |at| && k in Matching(t, f) ==> k.id in at[i].known
    ensures IsListing(AllShown(pages), Matching(t, f))
  {
    hide Matching, IsWalk, AllRows, AllShown;
    KnownWalkIsNotLost(pages, at, f, limit);
    WalkIsSortedTable(pages, at, f, limit, t);
    ShownAscends(pages, at, f, limit);
    forall k ensures k in AllShown(pages) <==> k in Matching(t, f) {
      ShownInWalk(pages, at, f, limit, k);
    }
  }

  /** The whole result set, in order. */
  ghost predicate IsListing(q: seq<Key>, keys: set<Key>) {
    Ascending(q) && forall k :: k in q <==> k in keys
  }

  lemma {:induction false} ListingUnique(q: seq<Key>, q': seq<Key>, keys: set<Key>)
    requires IsListing(q, keys) && IsListing(q', keys)
    ensures q == q'
    decreases |q|
  {
    assert q' != [] ==> q'[0] in q';
    if q != [] {
      var n := |q| - 1;
      assert q[n] in q';
      var m := |q'| - 1;
      LastIsLargest(q', q[n]);
      assert q'[m] in q;
      LastIsLargest(q, q'[m]);
      assert q[n] == q'[m];
      ListingInit(q, keys);
      ListingInit(q', keys);
      ListingUnique(q[..n], q'[..m], keys - {q[n]});
    }
  }

  lemma ListingInit(q: seq<Key>, keys: set<Key>)
    requires IsListing(q, keys) && q != []
    ensures IsListing(q[..|q| - 1], keys - {q[|q| - 1]})
  {
    var n := |q| - 1;
    forall k | k in keys - {q[n]} ensures k in q[..n] {
      var i :| 0 <= i < |q| && q[i] == k;
      assert q[..n][i] == k;
    }
  }

  lemma {:induction false} RowsComeFromTable(pages: seq<Page>, at: seq<Moment>, f: Filter, limit: nat, t: Table, k: Key)
    requires IsWalk(pages, at, f, limit) && k in AllRows(pages)
    requires Unchanged(at, t)
    ensures k in Matching(t, f)
  {
    hide Matching;
    var n := |pages| - 1;
    if k !in pages[n].rows {
      WalkPrefix(pages, at, f, limit);
      RowsComeFromTable(pages[..n], at[..n], f, limit, t, k);
    }
  }

  /** Every page but the last returns `limit` rows, so on an unchanged table a walk ends:
      it never has more pages than rows / limit, rounded down, plus one. */
  lemma WalkTerminates(pages: seq<Page>, at: seq<Moment>, f: Filter, limit: nat, t: Table)
    requires IsWalk(pages, at, f, limit) && limit >= 1
    requires Unchanged(at, t)
    ensures (|pages| - 1) * limit <= |AllRows(pages)| <= |Matching(t, f)|
  {
    hide Matching;
    FullPages(pages, at, f, limit);
    WalkAscends(pages, at, f, limit);
    forall k | k in AllRows(pages) ensures k in Matching(t, f) {
      RowsComeFromTable(pages, at, f, limit, t, k);
    }
    AscendingFits(AllRows(pages), Matching(t, f));
  }

  lemma {:induction false} FullPages(pages: seq<Page>, at: seq<Moment>, f: Filter, limit: nat)
    requires IsWalk(pages, at, f, limit)
    ensures |AllRows(pages)| == (|pages| - 1) * limit + |pages[|pages| - 1].rows|
  {
    hide IsWalk, AllRows;
    LastPage(pages, at, f, limit);
    var n := |pages| - 1;
    AllRowsStep(pages);
    if n > 0 {
      WalkPrefix(pages, at, f, limit);
      PreviousIsFull(pages, at, f, limit);
      hide IsPage;
      FullPages(pages[..n], at[..n], f, limit);
      assert n * limit == (n - 1) * limit + limit;
    }
  }

  lemma PreviousIsFull(pages: seq<Page>, at: seq<Moment>, f: Filter, limit: nat)
    requires IsWalk(pages, at, f, limit) && |pages| > 1
    ensures |pages[|pages| - 2].rows| == limit
  {
    var m := |pages| - 2;
    assert ClientCursor(pages[m]).Some? && IsPage(pages[m], at[m].table, f, limit, CursorOf(pages, m), at[m].known);
  }

  lemma {:induction false} AscendingFits(q: seq<Key>, keys: set<Key>)
    requires Ascending(q) && forall k :: k in q ==> k in keys
    ensures |q| <= |keys|
  {
    if q != [] {
      var n := |q| - 1;
      assert forall i :: 0 <= i < n ==> q[i] in q;
      AscendingFits(q[..n], keys - {q[n]});
    }
  }

  function Early(): Table { map[1 := Row(Some(30), "running", None), 2 := Row(Some(20), "running", None)] }

  function Late(): Table { map[1 := Row(Some(10), "running", None)] }

  /** Creation times matter: an instance whose time is set back between two pages is shown on
      both. */
  lemma MovedRowIsShownTwice() returns (pages: seq<Page>, at: seq<Moment>, f: Filter)
    ensures IsWalk(pages, at, f, 1) && Finished(pages) && !Lost(pages)
    ensures |AllShown(pages)| == 2 && AllShown(pages)[0].id == AllShown(pages)[1].id
  {
    hide IsPage, AllShown;
    f := Filter(None, None);
    var first, second := Page([Key(30, 1)], [Key(30, 1)], Some(Key(30, 1))), Page([Key(10, 1)], [Key(10, 1)], None);
    pages, at := [first, second], [Moment(Early(), {1}), Moment(Late(), {1})];
    EarlyPage();
    LatePage();
    assert pages[..1] == [first];
    AllShownStep(pages);
    AllShownStep([first]);
  }

  lemma EarlyPage()
    ensures IsPage(Page([Key(30, 1)], [Key(30, 1)], Some(Key(30, 1))), Early(), Filter(None, None), 1, None, {1})
  {
    ShownOne(Key(30, 1), {1});
    hide Shown;
    var t, f := Early(), Filter(None, None);
    assert 1 in t && Matches(t[1], f) && 2 in t && Matches(t[2], f);
    assert Key(t[1].createdAt.value, 1) in Matching(t, f) && Key(t[2].createdAt.value, 2) in Matching(t, f);
  }

  lemma LatePage()
    ensures IsPage(Page([Key(10, 1)], [Key(10, 1)], None), Late(), Filter(None, None), 1, Some(Key(30, 1)), {1})
  {
    ShownOne(Key(10, 1), {1});
    hide Shown;
    var t, f := Late(), Filter(None, None);
    assert 1 in t && Matches(t[1], f);
    assert Key(t[1].createdAt.value, 1) in Matching(t, f);
  }

  lemma ShownOne(k: Key, known: set<Id>)
    requires k.id in known
    ensures Shown([k], known) == [k]
  {
    assert [k][..0] == [];
  }

  // ----- which walks are lost, told from the table and the engine beforehand -----

  /** Nothing changes during the walk, neither the table nor what the engine knows. */
  predicate Steady(at: seq<Moment>, t: Table, known: set<Id>) {
    forall i :: 0 <= i < |at| ==> at[i] == Moment(t, known)
  }

  /** The `j`-th run of `limit` rows of the listing has a row behind it and none the engine knows. */
  predicate DarkBlock(listing: seq<Key>, limit: nat, known: set<Id>, j: nat) {
    (j + 1) * limit < |listing| && forall i :: j * limit <= i < (j + 1) * limit ==> listing[i].id !in known
  }

  /** A sorted list that leaves out only what comes later is a prefix of the listing. */
  lemma {:induction false} PrefixOfListing(q: seq<Key>, listing: seq<Key>, keys: set<Key>, i: nat)
    requires Ascending(q) && IsListing(listing, keys) && i <= |q|
    requires forall k :: k in q ==> k in keys
    requires forall k :: k in keys && k !in q ==> forall j :: 0 <= j < |q| ==> Before(q[j], k)
    ensures i <= |listing| && q[..i] == listing[..i]
  {
    if i > 0 {
      PrefixOfListing(q, listing, keys, i - 1);
      var at := q[i - 1];
      assert at in keys;
      forall l | 0 <= l < i - 1 ensures q[l] == listing[l] && Before(q[l], at) {
        assert q[l] == q[..i - 1][l] == listing[..i - 1][l];
      }
      var j :| 0 <= j < |listing| && listing[j] == at;
      var other := listing[i - 1];
      assert other in keys;
      if other in q { var l :| 0 <= l < |q| && q[l] == other; }
      assert q[..i] == q[..i - 1] + [q[i - 1]] && listing[..i] == listing[..i - 1] + [listing[i - 1]];
    }
  }

  /** On an unchanged table what has been fetched is a prefix of the listing. */
  lemma WalkIsPrefix(pages: seq<Page>, at: seq<Moment>, f: Filter, limit: nat, t: Table, listing: seq<Key>)
    requires IsWalk(pages, at, f, limit) && limit >= 1 && Unchanged(at, t) && IsListing(listing, Matching(t, f))
    ensures |AllRows(pages)| <= |listing| && AllRows(pages) == listing[..|AllRows(pages)|]
  {
    hide Matching, IsWalk, AllRows;
    var q := AllRows(pages);
    WalkAscends(pages, at, f, limit);
    forall k | k in q ensures k in Matching(t, f) { RowsComeFromTable(pages, at, f, limit, t, k); }
    forall k | k in Matching(t, f) && k !in q ensures forall j :: 0 <= j < |q| ==> Before(q[j], k) {
      StableRowIsReached(pages, at, f, limit, k);
      assert forall j :: 0 <= j < |q| ==> q[j] in q;
    }
    PrefixOfListing(q, listing, Matching(t, f), |q|);
    assert q[..|q|] == q;
  }

  predicate IsBlock(listing: seq<Key>, from: int, rows: seq<Key>) {
    0 <= from && from + |rows| <= |listing| && rows == listing[from..from + |rows|]
  }

  /** Page by page, the fetched rows are the runs of the listing. */
  lemma {:induction false} PageIsBlock(pages: seq<Page>, at: seq<Moment>, f: Filter, limit: nat, t: Table,
                                       listing: seq<Key>, j: nat)
    requires IsWalk(pages, at, f, limit) && limit >= 1 && Unchanged(at, t) && IsListing(listing, Matching(t, f))
             && j < |pages|
    ensures IsBlock(listing, j * limit, pages[j].rows)
    ensures j < |pages| - 1 ==> |pages[j].rows| == limit
    decreases |pages|
  {
    hide Matching, IsWalk, IsListing, IsPage, IsBlock;
    var n := |pages| - 1;
    LastPage(pages, at, f, limit);
    if j < n {
      WalkPrefix(pages, at, f, limit);
      PageIsBlock(pages[..n], at[..n], f, limit, t, listing, j);
      if j == n - 1 { PreviousIsFull(pages, at, f, limit); }
    } else {
      LastIsBlock(pages, at, f, limit, t, listing);
    }
  }

  lemma LastIsBlock(pages: seq<Page>, at: seq<Moment>, f: Filter, limit: nat, t: Table, listing: seq<Key>)
    requires IsWalk(pages, at, f, limit) && limit >= 1 && Unchanged(at, t) && IsListing(listing, Matching(t, f))
    ensures var n := |pages| - 1;
            n >= 0 && n * limit + |pages[n].rows| == |AllRows(pages)| && IsBlock(listing, n * limit, pages[n].rows)
  {
    hide Matching, IsWalk, AllRows, IsListing, IsPage;
    var n := |pages| - 1;
    LastPage(pages, at, f, limit);
    WalkIsPrefix(pages, at, f, limit, t, listing);
    FullPages(pages, at, f, limit);
    AllRowsStep(pages);
    hide IsBlock;
    var front := AllRows(pages[..n]);
    assert |front| == n * limit;
    TailOfPrefix(listing, front, pages[n].rows);
  }

  lemma TailOfPrefix(listing: seq<Key>, front: seq<Key>, rows: seq<Key>)
    requires |front + rows| <= |listing| && front + rows == listing[..|front + rows|]
    ensures IsBlock(listing, |front|, rows)
  {
    assert rows == (front + rows)[|front|..];
  }

  lemma NoneShown(rows: seq<Key>, known: set<Id>)
    ensures Shown(rows, known) == [] <==> forall i :: 0 <= i < |rows| ==> rows[i].id !in known
  {
    if Shown(rows, known) == [] {
      forall i | 0 <= i < |rows| ensures rows[i].id !in known { assert rows[i] in rows; }
    } else {
      assert Shown(rows, known)[0] in Shown(rows, known);
    }
  }

  lemma Runs(j: nat, n: nat, limit: nat)
    ensures j < n ==> (j + 1) * limit <= n * limit
    ensures (j + 1) * limit == j * limit + limit
  {
    if j < n { Multiples(j + 1, n, limit); }
  }

  lemma Multiples(j: nat, n: nat, limit: nat)
    requires j <= n
    ensures j * limit <= n * limit
  {
  }

  /** A steady walk is lost exactly when some full run of the sorted listing, not the last, is
      unknown to the engine as a whole. */
  lemma LostIffDarkBlock(pages: seq<Page>, at: seq<Moment>, f: Filter, limit: nat, t: Table, known: set<Id>,
                         listing: seq<Key>)
    requires IsWalk(pages, at, f, limit) && limit >= 1 && Finished(pages) && Steady(at, t, known)
    requires IsListing(listing, Matching(t, f))
    ensures Lost(pages) <==> exists j: nat :: DarkBlock(listing, limit, known, j)
  {
    hide Matching, IsWalk, AllRows, IsListing;
    if Lost(pages) { LostIsDark(pages, at, f, limit, t, known, listing); }
    if j: nat :| DarkBlock(listing, limit, known, j) { DarkIsLost(pages, at, f, limit, t, known, listing, j); }
  }

  lemma LostIsDark(pages: seq<Page>, at: seq<Moment>, f: Filter, limit: nat, t: Table, known: set<Id>,
                   listing: seq<Key>)
    requires IsWalk(pages, at, f, limit) && limit >= 1 && Steady(at, t, known) && Lost(pages)
    requires IsListing(listing, Matching(t, f))
    ensures DarkBlock(listing, limit, known, |pages| - 1)
  {
    hide Matching, IsWalk, AllRows, IsPage;
    var n := |pages| - 1;
    LastPage(pages, at, f, limit);
    LostPageFacts(pages[n], t, f, limit, CursorOf(pages, n), known);
    LastIsBlock(pages, at, f, limit, t, listing);
    WalkIsPrefix(pages, at, f, limit, t, listing);
    MoreBehind(pages, at, f, limit, t, listing);
    Runs(n, n, limit);
    hide IsListing;
    forall i | n * limit <= i < (n + 1) * limit ensures listing[i].id !in known {
      assert listing[i] == pages[n].rows[i - n * limit];
    }
  }

  lemma MoreBehind(pages: seq<Page>, at: seq<Moment>, f: Filter, limit: nat, t: Table, listing: seq<Key>)
    requires IsWalk(pages, at, f, limit) && limit >= 1 && Unchanged(at, t) && IsListing(listing, Matching(t, f))
    requires pages[|pages| - 1].next.Some?
    ensures |listing| > |AllRows(pages)|
  {
    hide Matching, IsWalk, AllRows;
    WalkIsPrefix(pages, at, f, limit, t, listing);
    LostRowIsMissed(pages, at, f, limit, t);
    assert listing[..|listing|] == listing;
  }

  lemma LostPageFacts(p: Page, t: Table, f: Filter, limit: nat, cursor: Option<Key>, known: set<Id>)
    requires IsPage(p, t, f, limit, cursor, known) && p.shown == [] && p.next.Some?
    ensures |p.rows| == limit && forall i :: 0 <= i < limit ==> p.rows[i].id !in known
  {
    NoneShown(p.rows, known);
  }

  lemma DarkIsLost(pages: seq<Page>, at: seq<Moment>, f: Filter, limit: nat, t: Table, known: set<Id>,
                   listing: seq<Key>, j: nat)
    requires IsWalk(pages, at, f, limit) && limit >= 1 && Finished(pages) && Steady(at, t, known)
    requires IsListing(listing, Matching(t, f)) && DarkBlock(listing, limit, known, j)
    ensures Lost(pages)
  {
    hide Matching, IsWalk, AllRows;
    var n := |pages| - 1;
    if !Lost(pages) {
      WalkIsSortedTable(pages, at, f, limit, t);
      ListingUnique(AllRows(pages), listing, Matching(t, f));
      FullPages(pages, at, f, limit);
      LastPage(pages, at, f, limit);
      Runs(n, j + 1, limit);
      Runs(j, n, limit);
      assert |pages[n].rows| <= limit;
      assert j < n;
      PageIsBlock(pages, at, f, limit, t, listing, j);
      assert forall i :: 0 <= i < limit ==> pages[j].rows[i] == listing[j * limit + i];
      NoneShown(pages[j].rows, known);
      PageGoesOn(pages, at, f, limit, j);
    }
  }

  /** Every page but the last shows a row. */
  lemma PageGoesOn(pages: seq<Page>, at: seq<Moment>, f: Filter, limit: nat, j: nat)
    requires IsWalk(pages, at, f, limit) && j < |pages| - 1
    ensures pages[j].shown != [] && pages[j].shown == Shown(pages[j].rows, at[j].known)
  {
    assert ClientCursor(pages[j]).Some? && IsPage(pages[j], at[j].table, f, limit, CursorOf(pages, j), at[j].known);
  }

  /** A finished steady walk shows the whole sorted listing exactly when the engine knows every
      matching instance. */
  lemma SteadyWalkShowsListing(pages: seq<Page>, at: seq<Moment>, f: Filter, limit: nat, t: Table, known: set<Id>)
    requires IsWalk(pages, at, f, limit) && limit >= 1 && Finished(pages) && Steady(at, t, known)
    ensures IsListing(AllShown(pages), Matching(t, f)) <==> forall k :: k in Matching(t, f) ==> k.id in known
  {
    hide Matching, IsWalk, AllRows;
    if forall k :: k in Matching(t, f) ==> k.id in known {
      KnownWalkShowsSortedTable(pages, at, f, limit, t);
    }
    if IsListing(AllShown(pages), Matching(t, f)) {
      forall k | k in Matching(t, f) ensures k.id in known {
        assert k in AllShown(pages);
        ShownIsKnown(pages, at, f, limit, known, k);
      }
    }
  }

  lemma {:induction false} ShownIsKnown(pages: seq<Page>, at: seq<Moment>, f: Filter, limit: nat, known: set<Id>,
                                        k: Key)
    requires IsWalk(pages, at, f, limit) && k in AllShown(pages) && forall i :: 0 <= i < |at| ==> at[i].known == known
    ensures k.id in known
  {
    hide IsWalk, AllShown;
    var n := |pages| - 1;
    LastPage(pages, at, f, limit);
    ShownIsFiltered(pages[n], at[n].table, f, limit, CursorOf(pages, n), at[n].known);
    AllShownStep(pages);
    if n > 0 && k !in pages[n].shown {
      WalkPrefix(pages, at, f, limit);
      ShownIsKnown(pages[..n], at[..n], f, limit, known, k);
    }
  }

  /** The known limitation is real: two rows, pages of one, and an engine that has not yet
      heard of the newest. The first page shows nothing, so the client stops. */
  lemma LostWalkDropsRows() returns (pages: seq<Page>, at: seq<Moment>, f: Filter)
    ensures IsWalk(pages, at, f, 1) && Finished(pages) && Lost(pages)
    ensures exists k :: k in Matching(at[0].table, f) && k.id in at[0].known && k !in AllRows(pages)
  {
    var newer, older := Row(Some(30), "running", None), Row(Some(20), "running", None);
    var t: Table := map[1 := newer, 2 := older];
    f := Filter(None, None);
    var p := Page([Key(30, 1)], [], Some(Key(30, 1)));
    pages, at := [p], [Moment(t, {2})];
    assert 1 in t && Matches(t[1], f) && 2 in t && Matches(t[2], f);
    assert Key(t[1].createdAt.value, 1) in Matching(t, f) && Key(t[2].createdAt.value, 2) in Matching(t, f);
    assert Shown(p.rows, {2}) == [];
    assert AllRows(pages) == AllRows(pages[..0]) + p.rows;
  }
}
