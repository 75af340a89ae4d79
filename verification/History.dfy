/** The tool-call history table: recording, pruning and keyset listing
    (internal/storage/history_repo.go). */
module History {
  import opened Bytes

  const DEFAULT_PAGE_SIZE := 50
  const MAX_PAGE_SIZE := 200

  datatype Row = Row(id: Text, actorId: Text, tool: Text, isError: bool, calledAt: int)

  // ------------------------------------------------------------------- order

  predicate TextLess(a: Text, b: Text) {
    b != [] && (a == [] || a[0] < b[0] || (a[0] == b[0] && TextLess(a[1..], b[1..])))
  }

  /** a comes after b in "called_at DESC, id DESC". */
  predicate Older(a: Row, b: Row) {
    a.calledAt < b.calledAt || (a.calledAt == b.calledAt && TextLess(a.id, b.id))
  }

  lemma {:induction false} TextLessIrreflexive(a: Text)
    ensures !TextLess(a, a)
  {
    if a != [] { TextLessIrreflexive(a[1..]); }
  }

  lemma {:induction false} TextLessTransitive(a: Text, b: Text, c: Text)
    requires TextLess(a, b) && TextLess(b, c)
    ensures TextLess(a, c)
  {
    if a != [] && a[0] == b[0] == c[0] { TextLessTransitive(a[1..], b[1..], c[1..]); }
  }

  lemma {:induction false} TextLessTotal(a: Text, b: Text)
    ensures TextLess(a, b) || a == b || TextLess(b, a)
  {
    if a != [] && b != [] && a[0] == b[0] {
      TextLessTotal(a[1..], b[1..]);
      assert a == [a[0]] + a[1..] && b == [b[0]] + b[1..];
    }
  }

  /** It is the byte order: a is a proper prefix of b, or smaller where they
      first differ. */
  lemma {:induction false} TextLessExactly(a: Text, b: Text)
    ensures TextLess(a, b)
            <==> exists n: nat :: n <= |a| && n < |b| && a[..n] == b[..n] && (n == |a| || a[n] < b[n])
  {
    if a != [] && b != [] && a[0] == b[0] {
      TextLessExactly(a[1..], b[1..]);
      if TextLess(a[1..], b[1..]) {
        var n: nat :| n < |b| && n <= |a| - 1 && n < |b| - 1 && a[1..][..n] == b[1..][..n]
                      && (n == |a| - 1 || a[1..][n] < b[1..][n]);
        assert a[..n + 1] == [a[0]] + a[1..][..n] && b[..n + 1] == [b[0]] + b[1..][..n];
      }
      if n: nat :| n <= |a| && n < |b| && a[..n] == b[..n] && (n == |a| || a[n] < b[n]) {
        assert n > 0;
        assert a[1..][..n - 1] == a[..n][1..] && b[1..][..n - 1] == b[..n][1..];
      }
    } else if b != [] {
      assert a[..0] == b[..0];
    }
  }

  /** Older is a strict total order on rows with distinct ids. */
  lemma OlderIsOrder(a: Row, b: Row, c: Row)
    ensures !Older(a, a)
    ensures Older(a, b) && Older(b, c) ==> Older(a, c)
    ensures a.id != b.id ==> Older(a, b) || Older(b, a)
  {
    TextLessIrreflexive(a.id);
    TextLessTotal(a.id, b.id);
    if TextLess(a.id, b.id) && TextLess(b.id, c.id) { TextLessTransitive(a.id, b.id, c.id); }
  }

  // ------------------------------------------------------------------- table

  ghost predicate UniqueIds(t: seq<Row>) {
    forall i, j :: 0 <= i < j < |t| ==> t[i].id != t[j].id
  }

  ghost predicate TableOk(t: seq<Row>) {
    UniqueIds(t) && forall i :: 0 <= i < |t| ==> t[i].id != []
  }

  function FindRow(t: seq<Row>, id: Text): (i: nat)
    ensures i <= |t|
    ensures i < |t| ==> t[i].id == id
    ensures forall j :: 0 <= j < i ==> t[j].id != id
  {
    FirstWhere(t, (r: Row) => r.id == id)
  }

  /** DELETE ... WHERE called_at < cutoff. */
  function Surviving(t: seq<Row>, cutoff: int): (r: seq<Row>)
    ensures |r| <= |t|
    ensures forall x :: x in r <==> x in t && x.calledAt >= cutoff
  {
    if t == [] then []
    else if t[0].calledAt < cutoff then Surviving(t[1..], cutoff)
    else [t[0]] + Surviving(t[1..], cutoff)
  }

  lemma {:induction false} SurvivingOk(t: seq<Row>, cutoff: int)
    requires TableOk(t)
    ensures TableOk(Surviving(t, cutoff))
  {
    if t != [] {
      SurvivingOk(t[1..], cutoff);
      var r := Surviving(t[1..], cutoff);
      forall j | 0 <= j < |r| ensures r[j].id != t[0].id && r[j].id != [] { assert r[j] in t[1..]; }
    }
  }

  // ----------------------------------------------------------------- listing

  datatype Filter = Filter(actorId: Text, tool: Text, isError: Option<bool>, limit: int)

  function PageSize(limit: int): (n: nat)
    ensures 1 <= n <= 200 && (1 <= limit <= 200 ==> n == limit)
    ensures limit <= 0 || limit > 200 ==> n == 50
  {
    if limit <= 0 || limit > MAX_PAGE_SIZE then DEFAULT_PAGE_SIZE else limit
  }

  predicate Matches(f: Filter, r: Row) {
    && (f.actorId != [] ==> r.actorId == f.actorId)
    && (f.tool != [] ==> r.tool == f.tool)
    && (f.isError.Some? ==> r.isError == f.isError.value)
  }

  /** The WHERE clause: the filter, and older than the cursor's row if any. */
  function Selected(t: seq<Row>, f: Filter, after: Option<Row>): (r: seq<Row>)
    ensures forall x :: x in r <==> x in t && Matches(f, x) && (after.Some? ==> Older(x, after.value))
  {
    if t == [] then []
    else if Matches(f, t[0]) && (after.Some? ==> Older(t[0], after.value))
    then [t[0]] + Selected(t[1..], f, after)
    else Selected(t[1..], f, after)
  }

  function Insert(r: Row, s: seq<Row>): seq<Row> {
    if s == [] || Older(s[0], r) then [r] + s else [s[0]] + Insert(r, s[1..])
  }

  /** ORDER BY called_at DESC, id DESC. */
  function NewestFirst(t: seq<Row>): seq<Row> {
    if t == [] then [] else Insert(t[0], NewestFirst(t[1..]))
  }

  datatype Listing = UnknownCursor | Page(rows: seq<Row>, next: Text)

  function PageOf(s: seq<Row>, limit: nat): Listing
    requires limit > 0
  {
    var rows := s[..Min(limit, |s|)];
    Page(rows, if |rows| == limit then rows[|rows| - 1].id else [])
  }

  /** ListToolCalls: the cursor names a row, whose position is re-read from
      the table whether or not that row matches the filter. */
  function ListToolCalls(t: seq<Row>, f: Filter, cursor: Text): Listing {
    var limit := PageSize(f.limit);
    if cursor == [] then PageOf(NewestFirst(Selected(t, f, None)), limit)
    else
      var i := FindRow(t, cursor);
      if i == |t| then UnknownCursor
      else PageOf(NewestFirst(Selected(t, f, Some(t[i]))), limit)
  }

  ghost predicate Descending(s: seq<Row>) {
    forall i, j :: 0 <= i < j < |s| ==> Older(s[j], s[i])
  }

  lemma {:induction false} InsertMembers(r: Row, s: seq<Row>)
    ensures |Insert(r, s)| == |s| + 1
    ensures forall x :: x in Insert(r, s) <==> x == r || x in s
  {
    if !(s == [] || Older(s[0], r)) {
      InsertMembers(r, s[1..]);
      assert forall x :: x in s <==> x == s[0] || x in s[1..];
    }
  }

  lemma {:induction false} InsertDescending(r: Row, s: seq<Row>)
    requires Descending(s) && forall i :: 0 <= i < |s| ==> s[i].id != r.id
    ensures Descending(Insert(r, s))
  {
    if s != [] && Older(s[0], r) {
      forall i | 0 <= i < |s| ensures Older(s[i], r) { OlderIsOrder(s[i], s[0], r); }
    } else if s != [] {
      OlderIsOrder(s[0], r, r);
      InsertDescending(r, s[1..]);
      InsertMembers(r, s[1..]);
      var t := Insert(r, s[1..]);
      forall j | 0 <= j < |t| ensures Older(t[j], s[0]) {
        assert t[j] in t;
        assert t[j] == r || t[j] in s[1..];
      }
    }
  }

  lemma {:induction false} NewestFirstMembers(t: seq<Row>)
    ensures |NewestFirst(t)| == |t|
    ensures forall x :: x in NewestFirst(t) <==> x in t
  {
    if t != [] {
      NewestFirstMembers(t[1..]);
      InsertMembers(t[0], NewestFirst(t[1..]));
      assert forall x :: x in t <==> x == t[0] || x in t[1..];
    }
  }

  lemma {:induction false} NewestFirstDescending(t: seq<Row>)
    requires UniqueIds(t)
    ensures Descending(NewestFirst(t))
  {
    if t != [] {
      NewestFirstDescending(t[1..]);
      NewestFirstMembers(t[1..]);
      var s := NewestFirst(t[1..]);
      forall i | 0 <= i < |s| ensures s[i].id != t[0].id { assert s[i] in t[1..]; }
      InsertDescending(t[0], s);
    }
  }

  lemma {:induction false} SelectedUnique(t: seq<Row>, f: Filter, after: Option<Row>)
    requires UniqueIds(t)
    ensures UniqueIds(Selected(t, f, after))
  {
    if t != [] {
      SelectedUnique(t[1..], f, after);
      var s := Selected(t[1..], f, after);
      forall i | 0 <= i < |s| ensures s[i].id != t[0].id { assert s[i] in t[1..]; }
    }
  }

  /** A page is the newest limit rows that match and lie behind the cursor, in
      strictly descending order; the next cursor is its last id exactly when
      the page is full, so an empty cursor means nothing was left out. */
  lemma PageMeaning(t: seq<Row>, f: Filter, after: Option<Row>)
    requires TableOk(t)
    ensures var p := PageOf(NewestFirst(Selected(t, f, after)), PageSize(f.limit));
            var wanted := Selected(t, f, after);
            && Descending(p.rows) && |p.rows| <= PageSize(f.limit)
            && (forall i :: 0 <= i < |p.rows| ==> p.rows[i] in wanted)
            && (forall x, i :: x in wanted && x !in p.rows && 0 <= i < |p.rows| ==> Older(x, p.rows[i]))
            && (p.next == [] ==> forall x :: x in wanted ==> x in p.rows)
            && (p.next != [] ==> p.rows != [] && p.next == p.rows[|p.rows| - 1].id)
  {
    var w := Selected(t, f, after);
    ListingFacts(t, f, after);
    PageOfMeaning(w, NewestFirst(w), PageSize(f.limit));
  }

  lemma ListingFacts(t: seq<Row>, f: Filter, after: Option<Row>)
    requires TableOk(t)
    ensures var w := Selected(t, f, after);
            && Descending(NewestFirst(w)) && |NewestFirst(w)| == |w|
            && (forall x :: x in NewestFirst(w) <==> x in w)
            && (forall x :: x in w ==> x.id != [])
  {
    var w := Selected(t, f, after);
    SelectedUnique(t, f, after);
    NewestFirstDescending(w);
    NewestFirstMembers(w);
    forall x | x in w ensures x.id != [] { assert x in t; }
  }

  lemma PageOfMeaning(w: seq<Row>, s: seq<Row>, limit: nat)
    requires limit > 0 && Descending(s) && (forall x :: x in s <==> x in w) && forall x :: x in w ==> x.id != []
    ensures var p := PageOf(s, limit);
            && Descending(p.rows) && |p.rows| <= limit
            && (forall i :: 0 <= i < |p.rows| ==> p.rows[i] in w)
            && (forall x, i :: x in w && x !in p.rows && 0 <= i < |p.rows| ==> Older(x, p.rows[i]))
            && (p.next == [] ==> forall x :: x in w ==> x in p.rows)
            && (p.next != [] ==> p.rows != [] && p.next == p.rows[|p.rows| - 1].id)
  {
    var p := PageOf(s, limit);
    forall i | 0 <= i < |p.rows| ensures p.rows[i] in w { assert p.rows[i] == s[i] && s[i] in s; }
    assert forall k :: 0 <= k < |p.rows| ==> p.rows[k] == s[k];
    forall x, i | x in w && x !in p.rows && 0 <= i < |p.rows|
      ensures Older(x, p.rows[i])
    {
      assert x in s;
      var j :| 0 <= j < |s| && s[j] == x;
    }
    if |p.rows| == limit {
      assert p.rows[|p.rows| - 1] in w;
    } else {
      assert p.rows == s;
    }
  }

  /** What a listing returns, in terms of the rows' columns: the cursor must name
      a row; every row returned fits the filter and lies behind that row; they
      are in order, newest first; whatever fits and lies behind is on the page
      or behind all of it; and a next cursor is given exactly for a full page. */
  lemma ListingMeaning(t: seq<Row>, f: Filter, cursor: Text)
    requires TableOk(t)
    ensures match ListToolCalls(t, f, cursor)
            case UnknownCursor => cursor != [] && forall x :: x in t ==> x.id != cursor
            case Page(rows, next) =>
              && (cursor != [] ==> exists c :: c in t && c.id == cursor)
              && |rows| <= PageSize(f.limit)
              && (forall x :: x in rows ==> x in t && Fits(f, x) && BehindCursor(t, cursor, x))
              && (forall i, j :: 0 <= i < j < |rows| ==> ListedAfter(rows[j], rows[i]))
              && (forall x :: x in t && Fits(f, x) && BehindCursor(t, cursor, x) ==>
                    x in rows || (|rows| == PageSize(f.limit) && forall y :: y in rows ==> ListedAfter(x, y)))
              && next == (if |rows| == PageSize(f.limit) then rows[|rows| - 1].id else [])
  {
    var i := FindRow(t, cursor);
    if cursor == [] {
      ListedPage(t, f, cursor, None);
    } else if i < |t| {
      CursorIsRow(t, cursor, i);
      ListedPage(t, f, cursor, Some(t[i]));
    }
  }

  /** x has what f asks for, column by column. */
  ghost predicate Fits(f: Filter, x: Row) {
    && (f.actorId == [] || x.actorId == f.actorId)
    && (f.tool == [] || x.tool == f.tool)
    && (f.isError == None || f.isError == Some(x.isError))
  }

  /** x is listed behind c: called earlier, or at the same time with a smaller id. */
  ghost predicate ListedAfter(x: Row, c: Row) {
    x.calledAt < c.calledAt || (x.calledAt == c.calledAt && TextLess(x.id, c.id))
  }

  /** Without a cursor every row is. */
  ghost predicate BehindCursor(t: seq<Row>, cursor: Text, x: Row) {
    cursor == [] || exists c :: c in t && c.id == cursor && ListedAfter(x, c)
  }

  lemma CursorIsRow(t: seq<Row>, cursor: Text, i: nat)
    requires UniqueIds(t) && i < |t| && t[i].id == cursor && cursor != []
    ensures t[i] in t
    ensures forall x :: BehindCursor(t, cursor, x) <==> Older(x, t[i])
  {
    forall x
      ensures BehindCursor(t, cursor, x) <==> Older(x, t[i])
    {
      if BehindCursor(t, cursor, x) {
        var c :| c in t && c.id == cursor && ListedAfter(x, c);
        var j :| 0 <= j < |t| && t[j] == c;
        assert i == j;
      }
    }
  }

  lemma ListedPage(t: seq<Row>, f: Filter, cursor: Text, after: Option<Row>)
    requires TableOk(t)
    requires forall x :: BehindCursor(t, cursor, x) <==> (after.Some? ==> Older(x, after.value))
    ensures var p := PageOf(NewestFirst(Selected(t, f, after)), PageSize(f.limit));
            && |p.rows| <= PageSize(f.limit)
            && (forall x :: x in p.rows ==> x in t && Fits(f, x) && BehindCursor(t, cursor, x))
            && (forall i, j :: 0 <= i < j < |p.rows| ==> ListedAfter(p.rows[j], p.rows[i]))
            && (forall x :: x in t && Fits(f, x) && BehindCursor(t, cursor, x) ==>
                  x in p.rows || (|p.rows| == PageSize(f.limit) && forall y :: y in p.rows ==> ListedAfter(x, y)))
            && p.next == (if |p.rows| == PageSize(f.limit) then p.rows[|p.rows| - 1].id else [])
  {
    PageMeaning(t, f, after);
    var w, p := Selected(t, f, after), PageOf(NewestFirst(Selected(t, f, after)), PageSize(f.limit));
    forall x | x in p.rows
      ensures x in t && Fits(f, x) && BehindCursor(t, cursor, x)
    {
      assert x in w;
    }
    forall x | x in t && Fits(f, x) && BehindCursor(t, cursor, x)
      ensures x in p.rows || (|p.rows| == PageSize(f.limit) && forall y :: y in p.rows ==> ListedAfter(x, y))
    {
      assert x in w;
    }
  }

  // --------------------------------------------------------------- the store

  /** What the caller of RecordToolCall may leave unset. */
  datatype NewCall = NewCall(id: Text, actorId: Text, tool: Text, isError: bool, calledAt: Option<int>)

  class HistoryTable {
    var rows: seq<Row>

    ghost predicate Valid()
      reads this
    {
      TableOk(rows)
    }

    constructor ()
      ensures Valid() && rows == []
    {
      rows := [];
    }

    /** RecordToolCall fills in id and time and inserts; a duplicate id is
        refused by the primary key and changes nothing. */
    method RecordToolCall(call: NewCall, freshId: Text, now: int) returns (ok: bool)
      requires Valid() && freshId != []
      modifies this
      ensures Valid()
      ensures var id := if call.id == [] then freshId else call.id;
              var at := if call.calledAt.Some? then call.calledAt.value else now;
              && (ok <==> forall i :: 0 <= i < |old(rows)| ==> old(rows)[i].id != id)
              && rows == if ok then old(rows) + [Row(id, call.actorId, call.tool, call.isError, at)] else old(rows)
    {
      var id := call.id;
      if id == [] { id := freshId; }
      var at := now;
      if call.calledAt.Some? { at := call.calledAt.value; }
      ok := FindRow(rows, id) == |rows|;
      if ok { rows := rows + [Row(id, call.actorId, call.tool, call.isError, at)]; }
    }

    /** PruneToolCalls: a non-positive retention deletes nothing. */
    method PruneToolCalls(retention: int, now: int) returns (deleted: nat)
      requires Valid()
      modifies this
      ensures Valid()
      ensures retention <= 0 ==> rows == old(rows) && deleted == 0
      ensures retention > 0 ==> forall x :: x in rows <==> x in old(rows) && now - x.calledAt <= retention
      ensures retention > 0 ==> rows == Surviving(old(rows), now - retention) && deleted == |old(rows)| - |rows|
    {
      if retention <= 0 { return 0; }
      SurvivingOk(rows, now - retention);
      var kept := Surviving(rows, now - retention);
      deleted := |rows| - |kept|;
      rows := kept;
    }
  }
}
