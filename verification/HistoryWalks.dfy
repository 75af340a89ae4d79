/** Walking the history page by page while rows are inserted and swept. */
module HistoryWalks {
  import opened Bytes
  import opened History

  datatype Status = Going | Finished | Lost

  /** ids are all those ever used; UUIDs are never used twice. */
  datatype State = State(
    table: seq<Row>, ids: set<Text>, cursor: Text, delivered: seq<Row>, status: Status)

  datatype Event = Record(row: Row) | Sweep(cutoff: int) | Request

  function Start(t: seq<Row>, ids: set<Text>): State { State(t, ids, [], [], Going) }

  function Step(f: Filter, s: State, e: Event): State {
    match e
    case Record(row) => s.(table := s.table + [row], ids := s.ids + {row.id})
    case Sweep(cutoff) => s.(table := Surviving(s.table, cutoff))
    case Request =>
      if !s.status.Going? then s
      else
        match ListToolCalls(s.table, f, s.cursor)
        case UnknownCursor => s.(status := Lost)
        case Page(rows, next) =>
          s.(cursor := next, delivered := s.delivered + rows, status := if next == [] then Finished else Going)
  }

  function Run(f: Filter, s: State, es: seq<Event>): State {
    if es == [] then s else Step(f, Run(f, s, es[..|es| - 1]), es[|es| - 1])
  }

  ghost predicate StartOk(t: seq<Row>, ids: set<Text>) {
    TableOk(t) && forall i :: 0 <= i < |t| ==> t[i].id in ids
  }

  /** Every recorded row has a fresh non-empty id. */
  ghost predicate GoodRun(f: Filter, s: State, es: seq<Event>) {
    es == [] ||
    (&& GoodRun(f, s, es[..|es| - 1])
     && (es[|es| - 1].Record? ==>
           es[|es| - 1].row.id != [] && es[|es| - 1].row.id !in Run(f, s, es[..|es| - 1]).ids))
  }

  ghost predicate Inv(f: Filter, s: State) {
    && StartOk(s.table, s.ids)
    && Descending(s.delivered)
    && (forall i :: 0 <= i < |s.delivered| ==> s.delivered[i].id in s.ids && Matches(f, s.delivered[i]))
    && (forall i, r :: 0 <= i < |s.delivered| && r in s.table && r.id == s.delivered[i].id ==> r == s.delivered[i])
    && (s.status.Going? ==>
          if s.delivered == [] then s.cursor == [] else s.cursor == Last(s).id && s.cursor != [])
  }

  function Last(s: State): Row
    requires s.delivered != []
  {
    s.delivered[|s.delivered| - 1]
  }

  /** The row a going walk continues behind. */
  function Behind(s: State): Option<Row> {
    if s.delivered == [] then None else Some(Last(s))
  }

  lemma FoundIsMember(t: seq<Row>, id: Text)
    ensures FindRow(t, id) < |t| ==> t[FindRow(t, id)] in t && t[FindRow(t, id)].id == id
  {
  }

  lemma MemberIsFound(t: seq<Row>, r: Row)
    requires r in t
    ensures FindRow(t, r.id) < |t|
  {
    var j :| 0 <= j < |t| && t[j] == r;
    assert t[j].id == r.id;
  }

  lemma CursorRow(f: Filter, s: State)
    requires Inv(f, s) && s.status.Going?
    ensures ListToolCalls(s.table, f, s.cursor)
            == if s.delivered != [] && FindRow(s.table, s.cursor) == |s.table| then UnknownCursor
               else PageOf(NewestFirst(Selected(s.table, f, Behind(s))), PageSize(f.limit))
  {
    var i := FindRow(s.table, s.cursor);
    if s.delivered != [] && i < |s.table| {
      assert s.table[i] in s.table && s.table[i].id == s.delivered[|s.delivered| - 1].id;
    }
  }

  lemma {:induction false} DescendingAppend(a: seq<Row>, b: seq<Row>)
    requires Descending(a) && Descending(b)
    requires a != [] ==> forall i :: 0 <= i < |b| ==> Older(b[i], a[|a| - 1])
    ensures Descending(a + b)
  {
    var s := a + b;
    forall i, j | 0 <= i < j < |s|
      ensures Older(s[j], s[i])
    {
      if i < |a| <= j {
        if i < |a| - 1 { OlderIsOrder(s[j], a[|a| - 1], a[i]); }
      }
    }
  }

  /** The rows of a page are rows of the table that match. */
  lemma PageFromTable(f: Filter, s: State)
    requires Inv(f, s) && s.status.Going? && ListToolCalls(s.table, f, s.cursor).Page?
    ensures var rows := ListToolCalls(s.table, f, s.cursor).rows;
            forall i :: 0 <= i < |rows| ==> rows[i] in s.table && rows[i].id in s.ids && Matches(f, rows[i])
  {
    CursorRow(f, s);
    PageMeaning(s.table, f, Behind(s));
    var rows := ListToolCalls(s.table, f, s.cursor).rows;
    forall i | 0 <= i < |rows|
      ensures rows[i] in s.table && rows[i].id in s.ids && Matches(f, rows[i])
    {
      assert rows[i] in s.table;
    }
  }

  lemma DeliveredDescends(f: Filter, s: State)
    requires Inv(f, s) && s.status.Going? && ListToolCalls(s.table, f, s.cursor).Page?
    ensures Descending(s.delivered + ListToolCalls(s.table, f, s.cursor).rows)
  {
    var rows := ListToolCalls(s.table, f, s.cursor).rows;
    CursorRow(f, s);
    assert Descending(rows) && (forall i :: 0 <= i < |rows| ==> rows[i] in Selected(s.table, f, Behind(s))) by {
      PageMeaning(s.table, f, Behind(s));
    }
    DescendingAppend(s.delivered, rows);
  }

  lemma NextNamesLastRow(s: seq<Row>, limit: nat)
    requires limit > 0
    ensures var p := PageOf(s, limit); p.next != [] ==> p.rows != [] && p.next == p.rows[|p.rows| - 1].id
  {
  }

  lemma NextIsLastRow(f: Filter, s: State)
    requires Inv(f, s) && s.status.Going? && ListToolCalls(s.table, f, s.cursor).Page?
    ensures var l := ListToolCalls(s.table, f, s.cursor);
            l.next != [] ==> l.rows != [] && l.next == l.rows[|l.rows| - 1].id
  {
    CursorRow(f, s);
    NextNamesLastRow(NewestFirst(Selected(s.table, f, Behind(s))), PageSize(f.limit));
  }

  lemma TableAgrees(t: seq<Row>, rows: seq<Row>)
    requires TableOk(t) && forall i :: 0 <= i < |rows| ==> rows[i] in t
    ensures forall i, r :: 0 <= i < |rows| && r in t && r.id == rows[i].id ==> r == rows[i]
  {
  }

  lemma RequestKeepsInv(f: Filter, s: State)
    requires Inv(f, s) && s.status.Going?
    ensures Inv(f, Step(f, s, Request))
  {
    var l := ListToolCalls(s.table, f, s.cursor);
    if l.Page? {
      PageFromTable(f, s);
      DeliveredDescends(f, s);
      NextIsLastRow(f, s);
      TableAgrees(s.table, l.rows);
    }
  }

  lemma StepKeepsInv(f: Filter, s: State, e: Event)
    requires Inv(f, s) && (e.Record? ==> e.row.id != [] && e.row.id !in s.ids)
    ensures Inv(f, Step(f, s, e))
  {
    match e
    case Record(row) =>
      var t := s.table + [row];
      assert forall r :: r in t <==> r in s.table || r == row;
    case Sweep(cutoff) =>
      SurvivingOk(s.table, cutoff);
      var t := Surviving(s.table, cutoff);
      forall i | 0 <= i < |t| ensures t[i].id in s.ids { assert t[i] in s.table; }
    case Request => if s.status.Going? { RequestKeepsInv(f, s); }
  }

  /** Delivered rows strictly decrease in (called_at, id) in every run, however
      rows come and go between requests: none is repeated, all match. */
  lemma {:induction false} WalkNeverRepeats(f: Filter, t: seq<Row>, ids: set<Text>, es: seq<Event>)
    requires StartOk(t, ids) && GoodRun(f, Start(t, ids), es)
    ensures Inv(f, Run(f, Start(t, ids), es))
    ensures var d := Run(f, Start(t, ids), es).delivered;
            && Descending(d)
            && (forall i, j :: 0 <= i < j < |d| ==> d[i] != d[j])
            && (forall i :: 0 <= i < |d| ==> Matches(f, d[i]))
  {
    if es != [] {
      WalkNeverRepeats(f, t, ids, es[..|es| - 1]);
      StepKeepsInv(f, Run(f, Start(t, ids), es[..|es| - 1]), es[|es| - 1]);
    }
    var d := Run(f, Start(t, ids), es).delivered;
    forall i, j | 0 <= i < j < |d| ensures d[i] != d[j] { OlderIsOrder(d[i], d[i], d[i]); }
  }

  // ------------------------------------------------------------- completeness

  /** r has been delivered, or the walk has not come to it yet. */
  ghost predicate Accounted(s: State, r: Row) {
    || r in s.delivered
    || (s.status.Going? && (s.delivered == [] || Older(r, Last(s))))
  }

  lemma RequestAccounts(f: Filter, s: State, r: Row)
    requires Inv(f, s) && s.status.Going? && Matches(f, r) && r in s.table && Accounted(s, r)
    requires ListToolCalls(s.table, f, s.cursor).Page?
    ensures Accounted(Step(f, s, Request), r)
  {
    CursorRow(f, s);
    PageMeaning(s.table, f, Behind(s));
    var l := ListToolCalls(s.table, f, s.cursor);
    var u := Step(f, s, Request);
    assert forall x :: x in u.delivered <==> x in s.delivered || x in l.rows;
    if r !in s.delivered {
      assert r in Selected(s.table, f, Behind(s));
      if r !in l.rows && l.rows != [] { assert Older(r, l.rows[|l.rows| - 1]); }
    }
  }

  ghost predicate PresentAtRequests(f: Filter, s: State, es: seq<Event>, r: Row) {
    forall k :: 0 <= k < |es| && es[k].Request? ==> r in Run(f, s, es[..k]).table
  }

  lemma PresentPrefix(f: Filter, s: State, es: seq<Event>, r: Row)
    requires es != [] && PresentAtRequests(f, s, es, r)
    ensures PresentAtRequests(f, s, es[..|es| - 1], r)
  {
    var b := es[..|es| - 1];
    forall k | 0 <= k < |b| && b[k].Request?
      ensures r in Run(f, s, b[..k]).table
    {
      assert b[..k] == es[..k] && es[k].Request?;
    }
  }

  lemma {:induction false} RunAccounts(f: Filter, t: seq<Row>, ids: set<Text>, es: seq<Event>, r: Row)
    requires StartOk(t, ids) && GoodRun(f, Start(t, ids), es)
    requires Matches(f, r) && PresentAtRequests(f, Start(t, ids), es, r)
    ensures var s := Run(f, Start(t, ids), es); s.status.Lost? || Accounted(s, r)
  {
    if es != [] {
      var b, e := es[..|es| - 1], es[|es| - 1];
      PresentPrefix(f, Start(t, ids), es, r);
      RunAccounts(f, t, ids, b, r);
      WalkNeverRepeats(f, t, ids, b);
      var s := Run(f, Start(t, ids), b);
      if e.Request? && s.status.Going? && ListToolCalls(s.table, f, s.cursor).Page? {
        RequestAccounts(f, s, r);
      }
    }
  }

  /** A walk that ends with an empty cursor has delivered every matching row
      that was there at each of its requests, whatever else came and went. */
  lemma FinishedWalkIsComplete(f: Filter, t: seq<Row>, ids: set<Text>, es: seq<Event>, r: Row)
    requires StartOk(t, ids) && GoodRun(f, Start(t, ids), es)
    requires Matches(f, r) && PresentAtRequests(f, Start(t, ids), es, r)
    requires Run(f, Start(t, ids), es).status.Finished?
    ensures r in Run(f, Start(t, ids), es).delivered
  {
    RunAccounts(f, t, ids, es, r);
  }

  // ------------------------------------------------------------------ sweeps

  /** If a sweep deletes the walk's cursor row, it deletes every row then still
      ahead of the walk with it. */
  lemma SweepNeverStrands(f: Filter, s: State, cutoff: int, r: Row)
    requires Inv(f, s) && s.status.Going? && s.delivered != []
    requires Last(s) in s.table && Last(s) !in Step(f, s, Sweep(cutoff)).table
    requires r in s.table && Older(r, Last(s))
    ensures r !in Step(f, s, Sweep(cutoff)).table
    ensures Step(f, Step(f, s, Sweep(cutoff)), Request).status.Lost?
  {
    var u := Step(f, s, Sweep(cutoff));
    StepKeepsInv(f, s, Sweep(cutoff));
    CursorRow(f, u);
    FoundIsMember(u.table, u.cursor);
  }

  ghost predicate AlwaysPresent(f: Filter, s: State, es: seq<Event>, r: Row) {
    forall k :: 0 <= k <= |es| ==> r in Run(f, s, es[..k]).table
  }

  /** As long as r is there and still ahead, so is the cursor's row. */
  lemma {:induction false} CursorOutlives(f: Filter, t: seq<Row>, ids: set<Text>, es: seq<Event>, r: Row)
    requires StartOk(t, ids) && GoodRun(f, Start(t, ids), es)
    requires Matches(f, r) && AlwaysPresent(f, Start(t, ids), es, r)
    ensures var s := Run(f, Start(t, ids), es);
            Accounted(s, r) && (r in s.delivered || s.delivered == [] || Last(s) in s.table)
  {
    if es != [] {
      var b, e := es[..|es| - 1], es[|es| - 1];
      assert es[..|es|] == es;
      forall k | 0 <= k <= |b| ensures r in Run(f, Start(t, ids), b[..k]).table { assert b[..k] == es[..k]; }
      CursorOutlives(f, t, ids, b, r);
      WalkNeverRepeats(f, t, ids, b);
      var s := Run(f, Start(t, ids), b);
      assert b[..|b|] == b;
      assert r in s.table;
      assert r in Step(f, s, e).table;
      if e.Request? && s.status.Going? { RequestFindsCursor(f, s, r); }
    }
  }

  lemma CursorIsThere(f: Filter, s: State)
    requires Inv(f, s) && s.status.Going? && (s.delivered == [] || Last(s) in s.table)
    ensures ListToolCalls(s.table, f, s.cursor).Page?
  {
    CursorRow(f, s);
    if s.delivered != [] { MemberIsFound(s.table, Last(s)); }
  }

  lemma LastStaysInTable(f: Filter, s: State)
    requires Inv(f, s) && s.status.Going? && (s.delivered == [] || Last(s) in s.table)
    ensures var u := Step(f, s, Request); u.delivered == [] || Last(u) in u.table
  {
    CursorIsThere(f, s);
    PageFromTable(f, s);
  }

  lemma RequestFindsCursor(f: Filter, s: State, r: Row)
    requires Inv(f, s) && s.status.Going? && Matches(f, r) && r in s.table && Accounted(s, r)
    requires r in s.delivered || s.delivered == [] || Last(s) in s.table
    ensures var u := Step(f, s, Request);
            Accounted(u, r) && (r in u.delivered || u.delivered == [] || Last(u) in u.table)
  {
    if r in s.delivered {
      assert r in Step(f, s, Request).delivered;
    } else {
      CursorIsThere(f, s);
      RequestAccounts(f, s, r);
      LastStaysInTable(f, s);
    }
  }

  /** However a walk ends, even with ErrUnknownCursor, every matching row that
      was there all along has been delivered: pruning strands no live row. */
  lemma EndedWalkIsComplete(f: Filter, t: seq<Row>, ids: set<Text>, es: seq<Event>, r: Row)
    requires StartOk(t, ids) && GoodRun(f, Start(t, ids), es)
    requires Matches(f, r) && AlwaysPresent(f, Start(t, ids), es, r)
    requires !Run(f, Start(t, ids), es).status.Going?
    ensures r in Run(f, Start(t, ids), es).delivered
  {
    CursorOutlives(f, t, ids, es, r);
  }

  // ------------------------------------------------------------ static table

  /** Two descending sequences with the same members are the same. */
  lemma {:induction false} DescendingUnique(a: seq<Row>, b: seq<Row>)
    requires Descending(a) && Descending(b) && forall x :: x in a <==> x in b
    ensures a == b
  {
    assert b != [] ==> b[0] in a;
    if a != [] {
      assert a[0] in b;
      HeadsEqual(a, b);
      forall x ensures x in a[1..] <==> x in b[1..] { TailMembers(a, x); TailMembers(b, x); }
      DescendingUnique(a[1..], b[1..]);
      assert a == [a[0]] + a[1..] && b == [b[0]] + b[1..];
    }
  }

  lemma HeadsEqual(a: seq<Row>, b: seq<Row>)
    requires Descending(a) && Descending(b) && a != [] && b != [] && a[0] in b && b[0] in a
    ensures a[0] == b[0]
  {
    var i :| 0 <= i < |b| && b[i] == a[0];
    var j :| 0 <= j < |a| && a[j] == b[0];
    if i > 0 && j > 0 { OlderIsOrder(a[0], b[0], a[0]); }
  }

  lemma TailMembers(a: seq<Row>, x: Row)
    requires Descending(a) && a != []
    ensures x in a[1..] <==> x in a && x != a[0]
  {
    OlderIsOrder(a[0], a[0], a[0]);
    if x in a && x != a[0] {
      var i :| 0 <= i < |a| && a[i] == x;
      assert a[1..][i - 1] == x;
    }
  }

  /** What lies behind the i-th row of a listing is the rest of the listing. */
  lemma RestOfListing(t: seq<Row>, f: Filter, i: nat)
    requires TableOk(t) && 0 < i <= |Selected(t, f, None)|
    ensures var all := NewestFirst(Selected(t, f, None));
            |all| == |Selected(t, f, None)|
            && NewestFirst(Selected(t, f, Some(all[i - 1]))) == all[i..]
  {
    var w := Selected(t, f, None);
    var all := NewestFirst(w);
    SelectedUnique(t, f, None);
    NewestFirstDescending(w);
    NewestFirstMembers(w);
    var after := all[i - 1];
    var v := Selected(t, f, Some(after));
    SelectedUnique(t, f, Some(after));
    NewestFirstDescending(v);
    NewestFirstMembers(v);
    forall x
      ensures x in NewestFirst(v) <==> x in all[i..]
    {
      if x in NewestFirst(v) {
        assert x in all;
        var j :| 0 <= j < |all| && all[j] == x;
        if j < i { OlderIsOrder(x, after, x); }
        assert all[i..][j - i] == x;
      }
      if x in all[i..] {
        var j :| i <= j < |all| && all[j] == x;
        assert x in w;
      }
    }
    DescendingUnique(NewestFirst(v), all[i..]);
  }

  function Requests(n: nat): seq<Event> { if n == 0 then [] else Requests(n - 1) + [Request] }

  lemma StaticPage(f: Filter, s: State)
    requires Inv(f, s) && s.status.Going?
    requires var all := NewestFirst(Selected(s.table, f, None));
             |s.delivered| <= |all| && s.delivered == all[..|s.delivered|]
    ensures ListToolCalls(s.table, f, s.cursor)
            == PageOf(NewestFirst(Selected(s.table, f, None))[|s.delivered|..], PageSize(f.limit))
  {
    var w := Selected(s.table, f, None);
    var all := NewestFirst(w);
    NewestFirstMembers(w);
    CursorRow(f, s);
    var d := |s.delivered|;
    if d > 0 {
      RestOfListing(s.table, f, d);
      assert all[d - 1] == Last(s);
      MemberIsFound(s.table, Last(s));
    } else {
      assert all[0..] == all;
    }
  }

  lemma PageOfSlice(all: seq<Row>, d: nat, limit: nat)
    requires d <= |all| && limit > 0 && forall i :: 0 <= i < |all| ==> all[i].id != []
    ensures var p := PageOf(all[d..], limit);
            if d + limit <= |all| then p.next != [] && all[..d] + p.rows == all[..d + limit]
            else p.next == [] && all[..d] + p.rows == all
  {
    var p := PageOf(all[d..], limit);
    if d + limit <= |all| {
      assert p.rows[limit - 1] == all[d + limit - 1];
    }
  }

  lemma ListingIds(t: seq<Row>, f: Filter)
    requires TableOk(t)
    ensures var all := NewestFirst(Selected(t, f, None));
            forall i :: 0 <= i < |all| ==> all[i].id != []
  {
    var all := NewestFirst(Selected(t, f, None));
    NewestFirstMembers(Selected(t, f, None));
    forall i | 0 <= i < |all| ensures all[i].id != [] { assert all[i] in all; }
  }

  /** How far a walk over an unchanging table is after delivering d rows' worth
      of full pages. */
  ghost predicate StaticState(f: Filter, t: seq<Row>, s: State, d: nat) {
    var all := NewestFirst(Selected(t, f, None));
    && Inv(f, s) && s.table == t
    && (d <= |all| ==> s.status.Going? && s.delivered == all[..d])
    && (d > |all| ==> s.status.Finished? && s.delivered == all)
  }

  lemma StaticRequest(f: Filter, s: State, all: seq<Row>, d: nat)
    requires Inv(f, s) && s.status.Going? && all == NewestFirst(Selected(s.table, f, None))
    requires d <= |all| && s.delivered == all[..d]
    ensures var u, k := Step(f, s, Request), d + PageSize(f.limit);
            if k <= |all| then u.status.Going? && u.delivered == all[..k]
            else u.status.Finished? && u.delivered == all
  {
    StaticPage(f, s);
    ListingIds(s.table, f);
    PageOfSlice(all, d, PageSize(f.limit));
  }

  lemma StaticStep(f: Filter, t: seq<Row>, s: State, d: nat)
    requires StaticState(f, t, s, d)
    ensures StaticState(f, t, Step(f, s, Request), d + PageSize(f.limit))
  {
    StepKeepsInv(f, s, Request);
    if s.status.Going? { StaticRequest(f, s, NewestFirst(Selected(t, f, None)), d); }
  }

  lemma RunSnoc(f: Filter, s: State, es: seq<Event>, e: Event)
    ensures Run(f, s, es + [e]) == Step(f, Run(f, s, es), e)
  {
    assert (es + [e])[..|es|] == es;
  }

  function AfterRequests(f: Filter, s: State, k: nat): State {
    if k == 0 then s else Step(f, AfterRequests(f, s, k - 1), Request)
  }

  lemma {:induction false} RunRequests(f: Filter, s: State, k: nat)
    ensures Run(f, s, Requests(k)) == AfterRequests(f, s, k)
  {
    if k > 0 {
      RunRequests(f, s, k - 1);
      RunSnoc(f, s, Requests(k - 1), Request);
    }
  }

  /** Where a walk over t is after k requests. */
  ghost predicate StaticAt(f: Filter, t: seq<Row>, ids: set<Text>, k: nat) {
    StaticState(f, t, AfterRequests(f, Start(t, ids), k), Times(k, PageSize(f.limit)))
  }

  lemma StaticStart(f: Filter, t: seq<Row>, ids: set<Text>)
    requires StartOk(t, ids)
    ensures StaticAt(f, t, ids, 0)
  {
    var s := Start(t, ids);
    assert AfterRequests(f, s, 0) == s && Times(0, PageSize(f.limit)) == 0;
    assert StaticState(f, t, s, 0);
  }

  lemma StaticNext(f: Filter, t: seq<Row>, ids: set<Text>, k: nat)
    requires StaticAt(f, t, ids, k)
    ensures StaticAt(f, t, ids, k + 1)
  {
    var s, d := AfterRequests(f, Start(t, ids), k), Times(k, PageSize(f.limit));
    StaticStep(f, t, s, d);
    assert AfterRequests(f, Start(t, ids), k + 1) == Step(f, s, Request);
    assert Times(k + 1, PageSize(f.limit)) == d + PageSize(f.limit);
  }

  lemma {:induction false} StaticRun(f: Filter, t: seq<Row>, ids: set<Text>, k: nat)
    requires StartOk(t, ids)
    ensures StaticAt(f, t, ids, k)
  {
    if k == 0 {
      StaticStart(f, t, ids);
    } else {
      StaticRun(f, t, ids, k - 1);
      StaticNext(f, t, ids, k - 1);
    }
  }

  /** On a table of n matching rows that does not change, a walk takes exactly
      n/limit + 1 requests and delivers the whole listing in order. */
  lemma StaticWalkLength(f: Filter, t: seq<Row>, ids: set<Text>, k: nat)
    requires StartOk(t, ids)
    ensures var n, limit := |Selected(t, f, None)|, PageSize(f.limit);
            var s := Run(f, Start(t, ids), Requests(k));
            && (s.status.Finished? <==> k >= n / limit + 1)
            && (s.status.Going? <==> k < n / limit + 1)
            && (s.status.Finished? ==> s.delivered == NewestFirst(Selected(t, f, None)))
  {
    var n, limit := |Selected(t, f, None)|, PageSize(f.limit);
    NewestFirstMembers(Selected(t, f, None));
    RunRequests(f, Start(t, ids), k);
    StaticRun(f, t, ids, k);
    TimesIsProduct(k, limit);
    QuotientThreshold(k, n, limit);
  }

  lemma QuotientThreshold(k: nat, n: nat, d: nat)
    requires d > 0
    ensures k * d > n <==> k >= n / d + 1
  {
    var q := n / d;
    assert n == q * d + n % d;
    if k >= q + 1 {
      assert k * d == (k - q - 1) * d + q * d + d;
    } else {
      assert q * d == (q - k) * d + k * d;
    }
  }
}
