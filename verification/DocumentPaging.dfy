/**
  Cursor pages over the document and version lists. A table is what the listing query would
  return without cursor and limit: rows in strictly descending key order.
 */
module DocumentPaging {
  import opened Wrappers

  datatype Status = Pending | Processing | RetryWait | Completed | Failed

  /** A listed document with the parts of its summary that SQL cannot filter on. */
  datatype Row = Row(id: nat, status: Status, searchableNo: Option<nat>)

  datatype Filter = Filter(status: Option<Status>, searchable: Option<bool>)

  type Table = seq<Row>

  type Cursor = Option<nat>

  /** The table at each query; it may change between two fetches of one request. */
  type World = nat -> Table

  predicate Passes(r: Row, f: Filter) {
    && (f.status.Some? ==> r.status == f.status.value)
    && (f.searchable.Some? ==> r.searchableNo.Some? == f.searchable.value)
  }

  ghost predicate Descending(t: Table) {
    forall i, k | 0 <= i < k < |t| :: t[i].id > t[k].id
  }

  predicate Under(id: nat, c: Cursor) { c.None? || id < c.value }

  /** WHERE id < :cursorId (or no cursor). */
  function Below(t: Table, c: Cursor): Table {
    if t == [] then [] else if Under(t[0].id, c) then [t[0]] + Below(t[1..], c) else Below(t[1..], c)
  }

  /** ORDER BY id DESC LIMIT size. */
  function Fetch(t: Table, c: Cursor, size: nat): Table {
    Take(Below(t, c), size)
  }

  function Take(t: Table, n: nat): Table { if |t| <= n then t else t[..n] }

  function Matching(t: Table, f: Filter): Table {
    if t == [] then [] else if Passes(t[0], f) then [t[0]] + Matching(t[1..], f) else Matching(t[1..], f)
  }

  lemma {:induction false} BelowRows(t: Table, c: Cursor)
    requires Descending(t)
    ensures Descending(Below(t, c))
    ensures forall r :: r in Below(t, c) <==> r in t && Under(r.id, c)
  {
    if t != [] {
      BelowRows(t[1..], c);
      assert forall r :: r in t <==> r == t[0] || r in t[1..];
      var b := Below(t[1..], c);
      forall i | 0 <= i < |b|
        ensures b[i].id < t[0].id
      {
        assert b[i] in t[1..];
      }
    }
  }

  lemma {:induction false} MatchingRows(t: Table, f: Filter)
    requires Descending(t)
    ensures Descending(Matching(t, f))
    ensures forall r :: r in Matching(t, f) <==> r in t && Passes(r, f)
  {
    if t != [] {
      MatchingRows(t[1..], f);
      assert forall r :: r in t <==> r == t[0] || r in t[1..];
      var m := Matching(t[1..], f);
      forall i | 0 <= i < |m|
        ensures m[i].id < t[0].id
      {
        assert m[i] in t[1..];
      }
    }
  }

  /** A fetch sees everything under the cursor down to its last row, and to the end when short. */
  lemma FetchRows(t: Table, c: Cursor, size: nat)
    requires Descending(t) && size >= 1
    ensures var p := Fetch(t, c, size);
      && Descending(p)
      && (forall r | r in p :: r in t && Under(r.id, c))
      && (forall r | r in t && Under(r.id, c) && r !in p :: |p| == size && r.id < p[size - 1].id)
  {
    BelowRows(t, c);
    var b := Below(t, c);
    var p := Fetch(t, c, size);
    assert forall j | 0 <= j < |p| :: p[j] == b[j] && p[j] in p;
    forall r | r in t && Under(r.id, c) && r !in p
      ensures |b| > size && r.id < b[size - 1].id
    {
      var i :| 0 <= i < |b| && b[i] == r;
    }
  }

  // ----- what a page promises -------------------------------------------------------------

  /** The row with this id is present and passes the filter at every query from..to. */
  ghost predicate Steady(w: World, f: Filter, from: nat, to: nat, id: nat) {
    forall k | from <= k < to :: Matches(w(k), f, id)
  }

  ghost predicate Matches(t: Table, f: Filter, id: nat) {
    exists r | r in t :: r.id == id && Passes(r, f)
  }

  ghost predicate HasId(rows: seq<Row>, id: nat) { exists r | r in rows :: r.id == id }

  ghost predicate AllDescending(w: World) { forall k :: Descending(w(k)) }

  /** Rows come in order from under the cursor, each passing at some query. */
  ghost predicate Sound(w: World, f: Filter, c: Cursor, from: nat, to: nat, rows: seq<Row>) {
    && Descending(rows)
    && forall r | r in rows ::
         Under(r.id, c) && Passes(r, f) && exists k :: from <= k < to && r in w(k)
  }

  /** Every steady row under the cursor and not under the bound is among the rows. */
  ghost predicate Seen(w: World, f: Filter, c: Cursor, from: nat, to: nat, rows: seq<Row>, bound: Cursor) {
    forall id | Under(id, c) && !Under(id, bound) && Steady(w, f, from, to, id) :: HasId(rows, id)
  }

  /** No key is under this bound. */
  const END: Cursor := Some(0)

  lemma SoundGrows(w: World, f: Filter, c: Cursor, from: nat, k: nat, rows: seq<Row>, at: Cursor, scan: nat, n: nat)
    requires AllDescending(w) && from <= k && scan >= 1
    requires n <= |Fetch(w(k), at, scan)|
    requires Sound(w, f, c, from, k, rows) && (forall r | r in rows :: at.Some? && r.id >= at.value)
    requires forall id | Under(id, at) :: Under(id, c)
    ensures Sound(w, f, c, from, k + 1, rows + Matching(Fetch(w(k), at, scan)[..n], f))
  {
    var p := Fetch(w(k), at, scan);
    FetchRows(w(k), at, scan);
    MatchingRows(p[..n], f);
    var more := Matching(p[..n], f);
    forall r | r in rows + more
      ensures Under(r.id, c) && Passes(r, f) && exists j :: from <= j < k + 1 && r in w(j)
    {
      if r in more {
        assert r in p[..n] && r in p && r in w(k);
      } else {
        var j :| from <= j < k && r in w(j);
        assert j < k + 1;
      }
    }
    forall a, b | 0 <= a < b < |rows + more|
      ensures (rows + more)[a].id > (rows + more)[b].id
    {
      if a < |rows| <= b {
        assert rows[a] in rows && more[b - |rows|] in more;
      }
    }
  }

  lemma SeenGrows(w: World, f: Filter, c: Cursor, from: nat, k: nat, rows: seq<Row>, at: Cursor, scan: nat, n: nat, bound: Cursor)
    requires AllDescending(w) && from <= k && scan >= 1
    requires n <= |Fetch(w(k), at, scan)|
    requires Seen(w, f, c, from, k, rows, at)
    requires var p := Fetch(w(k), at, scan);
      || (n > 0 && bound == Some(p[n - 1].id))
      || (n == |p| < scan && bound == END)
    ensures Seen(w, f, c, from, k + 1, rows + Matching(Fetch(w(k), at, scan)[..n], f), bound)
  {
    var p := Fetch(w(k), at, scan);
    var more := Matching(p[..n], f);
    FetchRows(w(k), at, scan);
    MatchingRows(p[..n], f);
    forall id | Under(id, c) && !Under(id, bound) && Steady(w, f, from, k + 1, id)
      ensures HasId(rows + more, id)
    {
      if !Under(id, at) {
        assert Steady(w, f, from, k, id) by {
          assert forall j | from <= j < k :: Matches(w(j), f, id);
        }
        var r :| r in rows && r.id == id;
        assert r in rows + more;
      } else {
        assert Matches(w(k), f, id);
        var r :| r in w(k) && r.id == id && Passes(r, f);
        assert r in p;
        var i :| 0 <= i < |p| && p[i] == r;
        assert i < n;
        assert p[..n][i] == r;
        assert r in rows + more;
      }
    }
  }

  /** Inner loop: take matching rows of one fetched page until one more than the limit is found. */
  method Collect(documents: Table, f: Filter, limit: nat, rows0: seq<Row>) returns (rows: seq<Row>, full: bool, ghost n: nat)
    requires limit >= 1 && |rows0| <= limit
    ensures rows0 <= rows
    ensures full <==> |rows| > limit
    ensures |rows| <= limit + 1
    ensures n <= |documents| && rows == rows0 + Matching(documents[..n], f)
    ensures full ==> n > 0 && rows[limit] == documents[n - 1]
    ensures !full ==> n == |documents|
  {
    rows := rows0;
    assert documents[..0] == [];
    for i := 0 to |documents|
      invariant rows == rows0 + Matching(documents[..i], f)
      invariant |rows| <= limit
    {
      MatchingSnoc(documents[..i], documents[i], f);
      assert documents[..i + 1] == documents[..i] + [documents[i]];
      var summary := documents[i];
      if f.status.Some? && summary.status != f.status.value {
        continue;
      }
      if f.searchable.Some? && (summary.searchableNo != None) != f.searchable.value {
        continue;
      }
      rows := rows + [summary];
      if |rows| > limit {
        return rows, true, i + 1;
      }
    }
    full, n := false, |documents|;
    assert documents[..n] == documents;
  }

  lemma {:induction false} MatchingSnoc(t: Table, r: Row, f: Filter)
    ensures Matching(t + [r], f) == Matching(t, f) + (if Passes(r, f) then [r] else [])
  {
    if t == [] {
      assert [] + [r] == [r];
    } else {
      MatchingSnoc(t[1..], r, f);
      assert (t + [r])[1..] == t[1..] + [r];
    }
  }

  /** What one page promises about the tables that its queries saw. */
  ghost predicate IsPage(w: World, f: Filter, limit: nat, cursor: Cursor, from: nat, to: nat, page: seq<Row>, next: Cursor) {
    && |page| <= limit
    && Sound(w, f, cursor, from, to, page)
    && Seen(w, f, cursor, from, to, page, if next.Some? then next else END)
    && (next.Some? ==>
          && limit >= 1 && |page| == limit && next.value == page[limit - 1].id
          && exists k, r :: from <= k < to && r in w(k) && r.id < next.value && Passes(r, f))
  }

  /** The state of the scan before the next fetch under `at`. */
  ghost predicate Progress(w: World, f: Filter, c: Cursor, from: nat, to: nat, rows: seq<Row>, at: Cursor) {
    && Sound(w, f, c, from, to, rows)
    && Seen(w, f, c, from, to, rows, at)
    && (forall r | r in rows :: at.Some? && r.id >= at.value)
    && (forall id | Under(id, at) :: Under(id, c))
  }

  lemma ScanStarts(w: World, f: Filter, c: Cursor, from: nat)
    ensures Progress(w, f, c, from, from, [], c)
  {
  }

  lemma NextFetch(w: World, f: Filter, c: Cursor, from: nat, k: nat, rows: seq<Row>, at: Cursor, scan: nat)
    requires AllDescending(w) && from <= k && scan >= 1
    requires Progress(w, f, c, from, k, rows, at)
    requires |Fetch(w(k), at, scan)| == scan
    ensures var p := Fetch(w(k), at, scan); var last := Some(p[scan - 1].id);
      && Progress(w, f, c, from, k + 1, rows + Matching(p, f), last)
      && Under(last.value, at)
  {
    var p := Fetch(w(k), at, scan);
    assert p[..scan] == p;
    FetchRows(w(k), at, scan);
    MatchingRows(p, f);
    SoundGrows(w, f, c, from, k, rows, at, scan, scan);
    SeenGrows(w, f, c, from, k, rows, at, scan, scan, Some(p[scan - 1].id));
    assert p[scan - 1] in p;
    forall r | r in rows + Matching(p, f)
      ensures r.id >= p[scan - 1].id
    {
      if r in Matching(p, f) {
        var i :| 0 <= i < |p| && p[i] == r;
      }
    }
  }

  /** A short fetch ends the list. */
  lemma LastFetch(w: World, f: Filter, c: Cursor, from: nat, k: nat, rows: seq<Row>, at: Cursor, scan: nat, limit: nat)
    requires AllDescending(w) && from <= k && scan >= 1
    requires Progress(w, f, c, from, k, rows, at)
    requires |Fetch(w(k), at, scan)| < scan
    requires |rows + Matching(Fetch(w(k), at, scan), f)| <= limit
    ensures IsPage(w, f, limit, c, from, k + 1, rows + Matching(Fetch(w(k), at, scan), f), None)
  {
    var p := Fetch(w(k), at, scan);
    assert p[..|p|] == p;
    SoundGrows(w, f, c, from, k, rows, at, scan, |p|);
    SeenGrows(w, f, c, from, k, rows, at, scan, |p|, END);
  }

  /** One row more than the limit proves that another page exists. */
  lemma FullFetch(w: World, f: Filter, c: Cursor, from: nat, k: nat, rows: seq<Row>, at: Cursor, scan: nat, n: nat, limit: nat)
    requires AllDescending(w) && from <= k && scan >= 1 && limit >= 1
    requires Progress(w, f, c, from, k, rows, at)
    requires 0 < n <= |Fetch(w(k), at, scan)|
    requires var more := rows + Matching(Fetch(w(k), at, scan)[..n], f);
      |more| == limit + 1 && more[limit] == Fetch(w(k), at, scan)[n - 1]
    ensures var more := rows + Matching(Fetch(w(k), at, scan)[..n], f);
      IsPage(w, f, limit, c, from, k + 1, more[..limit], Some(more[limit - 1].id))
  {
    var more := rows + Matching(Fetch(w(k), at, scan)[..n], f);
    SoundGrows(w, f, c, from, k, rows, at, scan, n);
    SeenGrows(w, f, c, from, k, rows, at, scan, n, Some(more[limit].id));
    FullPage(w, f, c, from, k + 1, more, limit);
  }

  lemma FullPage(w: World, f: Filter, c: Cursor, from: nat, to: nat, rows: seq<Row>, limit: nat)
    requires limit >= 1 && |rows| == limit + 1
    requires Sound(w, f, c, from, to, rows) && Seen(w, f, c, from, to, rows, Some(rows[limit].id))
    ensures IsPage(w, f, limit, c, from, to, rows[..limit], Some(rows[limit - 1].id))
  {
    var page, next := rows[..limit], Some(rows[limit - 1].id);
    forall id | Under(id, c) && !Under(id, next) && Steady(w, f, from, to, id)
      ensures HasId(page, id)
    {
      var r :| r in rows && r.id == id;
      var i :| 0 <= i <= limit && rows[i] == r;
      assert page[i] == r;
    }
    forall r | r in page
      ensures Under(r.id, c) && Passes(r, f) && exists k :: from <= k < to && r in w(k)
    {
      assert r in rows;
    }
    assert rows[limit] in rows;
  }

  /** The scan loop of the document list, with the limit and the scan size free. */
  method FindSummaryPage(w: World, f: Filter, limit: nat, scan: nat, cursor: Cursor, from: nat)
    returns (page: seq<Row>, next: Cursor, to: nat)
    requires limit >= 1 && scan >= 1 && AllDescending(w)
    ensures from < to
    ensures IsPage(w, f, limit, cursor, from, to, page, next)
  {
    hide Progress, IsPage, AllDescending;
    var cursorId := cursor;
    var rows: seq<Row> := [];
    to := from;
    ScanStarts(w, f, cursor, from);
    while true
      invariant from <= to && |rows| <= limit
      invariant Progress(w, f, cursor, from, to, rows, cursorId)
      decreases cursorId.None?, if cursorId.Some? then cursorId.value else 0
    {
      var documents := Fetch(w(to), cursorId, scan);
      ghost var before := rows;
      to := to + 1;
      if documents == [] {
        assert rows + Matching(documents, f) == rows;
        LastFetch(w, f, cursor, from, to - 1, rows, cursorId, scan, limit);
        return rows, None, to;
      }
      var full;
      ghost var n;
      rows, full, n := Collect(documents, f, limit, rows);
      if full {
        FullFetch(w, f, cursor, from, to - 1, before, cursorId, scan, n, limit);
        return rows[..limit], Some(rows[limit - 1].id), to;
      }
      assert documents[..n] == documents;
      if |documents| < scan {
        LastFetch(w, f, cursor, from, to - 1, before, cursorId, scan, limit);
        return rows, None, to;
      }
      NextFetch(w, f, cursor, from, to - 1, before, cursorId, scan);
      cursorId := Some(documents[|documents| - 1].id);
    }
  }

  // ----- an unchanging table --------------------------------------------------------------

  lemma HeadAgrees(m: Table, page: seq<Row>, bound: nat)
    requires Descending(m) && Descending(page)
    requires forall r :: r in page <==> r in m && r.id >= bound
    ensures page == [] <==> m == [] || m[0].id < bound
    ensures page != [] ==> page[0] == m[0]
  {
    if page != [] {
      assert page[0] in page;
      var k :| 0 <= k < |m| && m[k] == page[0];
      assert m[0] in m;
      assert m[0] in page;
      var i :| 0 <= i < |page| && page[i] == m[0];
    } else if m != [] {
      assert m[0] in m;
    }
  }

  /** A descending selection that misses nothing at or above the bound is a prefix. */
  lemma {:induction false} SelectionIsPrefix(m: Table, page: seq<Row>, bound: nat)
    requires Descending(m) && Descending(page)
    requires forall r :: r in page <==> r in m && r.id >= bound
    ensures |page| <= |m| && page == m[..|page|]
    ensures |page| < |m| ==> m[|page|].id < bound
  {
    HeadAgrees(m, page, bound);
    if page != [] {
      assert forall r :: r in page <==> r == page[0] || r in page[1..];
      assert forall r :: r in m <==> r == m[0] || r in m[1..];
      assert m[0] !in m[1..] && page[0] !in page[1..];
      SelectionIsPrefix(m[1..], page[1..], bound);
    }
  }

  ghost predicate Fixed(w: World, t: Table) { forall k :: w(k) == t }

  lemma SteadyRow(w: World, t: Table, f: Filter, from: nat, to: nat, r: Row)
    requires Fixed(w, t) && r in t && Passes(r, f)
    ensures Steady(w, f, from, to, r.id)
  {
    assert Matches(t, f, r.id);
  }

  lemma SteadySelection(w: World, t: Table, f: Filter, c: Cursor, from: nat, to: nat, rows: seq<Row>, bound: Cursor)
    requires Fixed(w, t) && Descending(t) && from < to && bound.Some?
    requires Sound(w, f, c, from, to, rows) && Seen(w, f, c, from, to, rows, bound)
    requires forall r | r in rows :: r.id >= bound.value
    ensures var m := Matching(Below(t, c), f);
      && |rows| <= |m| && rows == m[..|rows|]
      && (|rows| < |m| ==> m[|rows|].id < bound.value)
  {
    hide Matching, Below;
    BelowRows(t, c);
    var below := Below(t, c);
    MatchingRows(below, f);
    var m := Matching(below, f);
    forall r | r in m && r.id >= bound.value
      ensures r in rows
    {
      SteadyRow(w, t, f, from, to, r);
      assert HasId(rows, r.id);
      var x :| x in rows && x.id == r.id;
      assert x in t && r in t;
    }
    forall r | r in rows
      ensures r in m
    {
      assert r in t;
    }
    SelectionIsPrefix(m, rows, bound.value);
  }

  /** Without concurrent changes a page is "filter everything, take limit". */
  lemma PageOfFixedTable(w: World, t: Table, f: Filter, limit: nat, c: Cursor, from: nat, to: nat, page: seq<Row>, next: Cursor)
    requires Fixed(w, t) && Descending(t) && limit >= 1 && from < to
    requires IsPage(w, f, limit, c, from, to, page, next)
    ensures var m := Matching(Below(t, c), f);
      && page == Take(m, limit)
      && next == (if |m| > limit then Some(m[limit - 1].id) else None)
  {
    if next.Some? {
      forall r | r in page
        ensures r.id >= next.value
      {
        var i :| 0 <= i < |page| && page[i] == r;
      }
      SteadySelection(w, t, f, c, from, to, page, next);
      MoreRemain(w, t, f, limit, c, from, to, page, next);
    } else {
      SteadySelection(w, t, f, c, from, to, page, END);
    }
  }

  lemma SoundParts(w: World, f: Filter, c: Cursor, from: nat, to: nat, rows: seq<Row>, limit: nat)
    requires Sound(w, f, c, from, to, rows) && 1 <= limit <= |rows|
    ensures Descending(rows) && Under(rows[limit - 1].id, c)
  {
    assert rows[limit - 1] in rows;
  }

  lemma BelowLast(page: seq<Row>, limit: nat, r: Row)
    requires Descending(page) && |page| == limit >= 1 && r.id < page[limit - 1].id
    ensures r !in page
  {
    forall i | 0 <= i < |page|
      ensures page[i].id >= page[limit - 1].id
    {
    }
  }

  lemma MoreRemain(w: World, t: Table, f: Filter, limit: nat, c: Cursor, from: nat, to: nat, page: seq<Row>, next: Cursor)
    requires Fixed(w, t) && Descending(t) && next.Some?
    requires IsPage(w, f, limit, c, from, to, page, next)
    ensures Matching(Below(t, c), f) != page
  {
    hide Matching, Below, Steady, Seen;
    var k, r :| from <= k < to && r in w(k) && r.id < next.value && Passes(r, f);
    SoundParts(w, f, c, from, to, page, limit);
    BelowRows(t, c);
    MatchingRows(Below(t, c), f);
    assert r in Matching(Below(t, c), f);
    BelowLast(page, limit, r);
  }

  // ----- following the cursors ------------------------------------------------------------

  lemma PageJoins(w: World, f: Filter, limit: nat, from: nat, mid: nat, to: nat, rows: seq<Row>, c: Cursor, page: seq<Row>, next: Cursor)
    requires from <= mid < to
    requires Progress(w, f, None, from, mid, rows, c) && IsPage(w, f, limit, c, mid, to, page, next)
    ensures Progress(w, f, None, from, to, rows + page, if next.Some? then next else END)
    ensures next.Some? ==> Under(next.value, c)
  {
    var all, bound := rows + page, if next.Some? then next else END;
    forall id | !Under(id, bound) && Steady(w, f, from, to, id)
      ensures HasId(all, id)
    {
      assert Steady(w, f, from, mid, id) && Steady(w, f, mid, to, id);
      if !Under(id, c) {
        var r :| r in rows && r.id == id;
        assert r in all;
      } else {
        var r :| r in page && r.id == id;
        assert r in all;
      }
    }
    forall r | r in all
      ensures Passes(r, f) && r.id >= bound.value && exists k :: from <= k < to && r in w(k)
    {
      if r in rows {
        var k :| from <= k < mid && r in w(k);
        if next.Some? {
          assert page[limit - 1] in page;
        }
        assert k < to;
      } else {
        var k :| mid <= k < to && r in w(k);
        var i :| 0 <= i < |page| && page[i] == r;
        assert from <= k;
      }
    }
    forall a, b | 0 <= a < b < |all|
      ensures all[a].id > all[b].id
    {
      if a < |rows| <= b {
        assert rows[a] in rows && page[b - |rows|] in page;
      }
    }
    if next.Some? {
      assert page[limit - 1] in page;
    }
  }

  /**
    A client that follows the cursors until none comes back: it ends, and every document that
    was present and matching throughout is listed exactly once, in order.
   */
  method FollowCursors(w: World, f: Filter, limit: nat, scan: nat) returns (rows: seq<Row>, to: nat)
    requires limit >= 1 && scan >= 1 && AllDescending(w)
    ensures to > 0 && Descending(rows)
    ensures forall id | Steady(w, f, 0, to, id) :: HasId(rows, id)
    ensures forall r | r in rows :: Passes(r, f) && exists k :: 0 <= k < to && r in w(k)
    ensures forall t | Fixed(w, t) :: rows == Matching(t, f)
  {
    hide IsPage;
    var cursor: Cursor := None;
    rows, to := [], 0;
    ScanStarts(w, f, None, 0);
    var more := true;
    while more
      invariant Progress(w, f, None, 0, to, rows, if more then cursor else END)
      invariant more || to > 0
      decreases more, cursor.None?, if cursor.Some? then cursor.value else 0
    {
      ghost var mid := to;
      var page, next;
      page, next, to := FindSummaryPage(w, f, limit, scan, cursor, to);
      PageJoins(w, f, limit, 0, mid, to, rows, cursor, page, next);
      rows, more := rows + page, next.Some?;
      if more {
        cursor := next;
      }
    }
    forall t | Fixed(w, t)
      ensures rows == Matching(t, f)
    {
      assert w(0) == t;
      SteadySelection(w, t, f, None, 0, to, rows, END);
      BelowNone(t);
    }
  }

  lemma {:induction false} BelowNone(t: Table)
    ensures Below(t, None) == t
  {
    if t != [] {
      BelowNone(t[1..]);
    }
  }

  // ----- the version list -----------------------------------------------------------------

  const ANY: Filter := Filter(None, None)

  /** One query of limit + 1 rows; the extra row only tells that there is a next page. */
  function ListVersions(t: Table, c: Cursor, limit: nat): (Table, Cursor) {
    var versions := Fetch(t, c, limit + 1);
    var items := Take(versions, limit);
    (items, if |versions| > limit && items != [] then Some(items[|items| - 1].id) else None)
  }

  /** The single-query list is a page in the same sense as the scan loop's. */
  lemma VersionsArePages(t: Table, c: Cursor, limit: nat)
    requires Descending(t) && limit >= 1
    ensures var (items, next) := ListVersions(t, c, limit); IsPage(_ => t, ANY, limit, c, 0, 1, items, next)
  {
    var (items, next) := ListVersions(t, c, limit);
    BelowRows(t, c);
    FirstRows(Below(t, c), limit);
    PrefixIsPage(t, c, limit, Below(t, c), items, next);
  }

  lemma FirstRows(b: Table, limit: nat)
    requires Descending(b) && limit >= 1
    ensures Take(Take(b, limit + 1), limit) == Take(b, limit)
    ensures |Take(b, limit + 1)| > limit <==> |b| > limit
    ensures Descending(Take(b, limit))
  {
  }

  lemma TakeRows(b: Table, limit: nat)
    requires Descending(b)
    ensures var items := Take(b, limit);
      && Descending(items) && |items| == (if |b| <= limit then |b| else limit)
      && (forall i | 0 <= i < |items| :: items[i] == b[i])
      && (forall r | r in items :: r in b)
  {
  }

  lemma PrefixIsSound(t: Table, c: Cursor, b: Table, items: Table)
    requires Descending(items) && (forall r | r in items :: r in b) && (forall r | r in b :: r in t && Under(r.id, c))
    ensures Sound(_ => t, ANY, c, 0, 1, items)
  {
    var w: World := _ => t;
    forall r | r in items
      ensures exists k :: 0 <= k < 1 && r in w(k)
    {
      assert r in b && r in w(0);
    }
  }

  lemma PrefixIsSeen(t: Table, c: Cursor, limit: nat, b: Table, items: Table, next: Cursor)
    requires limit >= 1 && Descending(b) && (forall r :: r in b <==> r in t && Under(r.id, c))
    requires |items| == (if |b| <= limit then |b| else limit) && forall i | 0 <= i < |items| :: items[i] == b[i]
    requires next == (if |b| > limit then Some(b[limit - 1].id) else None)
    ensures Seen(_ => t, ANY, c, 0, 1, items, if next.Some? then next else END)
  {
    var w: World := _ => t;
    forall id | Under(id, c) && !Under(id, if next.Some? then next else END) && Steady(w, ANY, 0, 1, id)
      ensures HasId(items, id)
    {
      assert Matches(w(0), ANY, id);
      var r :| r in t && r.id == id;
      var i :| 0 <= i < |b| && b[i] == r;
      assert items[i] in items;
    }
  }

  lemma PrefixIsPage(t: Table, c: Cursor, limit: nat, b: Table, items: Table, next: Cursor)
    requires limit >= 1 && Descending(b) && (forall r :: r in b <==> r in t && Under(r.id, c))
    requires items == Take(b, limit)
    requires next == (if |b| > limit then Some(b[limit - 1].id) else None)
    ensures IsPage(_ => t, ANY, limit, c, 0, 1, items, next)
  {
    hide Take, Sound, Seen;
    var w: World := _ => t;
    TakeRows(b, limit);
    PrefixIsSound(t, c, b, items);
    PrefixIsSeen(t, c, limit, b, items, next);
    if next.Some? {
      assert b[limit] in b;
      assert b[limit] in w(0);
    }
  }
}
