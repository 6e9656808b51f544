/** The read-only queries of the dashboard and the reports page, as
    functions over the rows of the visitors table: selection by a WHERE
    condition, ORDER BY ... DESC, COUNT(*) and LIMIT. */
module Queries {
  import opened Wrappers
  import opened Time
  import opened Visitors

  /** The column a query orders by. */
  datatype SortKey = ByCheckIn | ByCreatedAt

  function KeyOf(v: Visitor, key: SortKey): Option<Stamp> {
    match key
    case ByCheckIn => v.checkIn
    case ByCreatedAt => Some(v.createdAt)
  }

  /** The rows are in `ORDER BY key DESC` order: no row's key is later than
      the key of a row before it. */
  predicate Descending(rows: seq<Visitor>, key: SortKey) {
    forall i, j :: 0 <= i < j < |rows| ==> NullableAtOrBefore(KeyOf(rows[j], key), KeyOf(rows[i], key))
  }

  /** Every row's key is at or before `bound`. */
  predicate NoneAfter(rows: seq<Visitor>, key: SortKey, bound: Option<Stamp>) {
    forall i :: 0 <= i < |rows| ==> NullableAtOrBefore(KeyOf(rows[i], key), bound)
  }

  /** A rearrangement of rows that are all at or before `bound` keeps them there. */
  lemma BoundSurvivesPermutation(a: seq<Visitor>, b: seq<Visitor>, key: SortKey, bound: Option<Stamp>)
    requires multiset(a) == multiset(b)
    requires NoneAfter(b, key, bound)
    ensures NoneAfter(a, key, bound)
  {
    forall i | 0 <= i < |a|
      ensures NullableAtOrBefore(KeyOf(a[i], key), bound)
    {
      assert a[i] in multiset(b);
      var j :| 0 <= j < |b| && b[j] == a[i];
    }
  }

  /** Inserts one row into rows already in descending order. */
  function Insert(v: Visitor, rows: seq<Visitor>, key: SortKey): (r: seq<Visitor>)
    requires Descending(rows, key)
    ensures multiset(r) == multiset(rows) + multiset{v}
    ensures Descending(r, key)
  {
    if rows == [] then [v]
    else if NullableAtOrBefore(KeyOf(rows[0], key), KeyOf(v, key)) then
      [v] + rows
    else
      var rest := Insert(v, rows[1..], key);
      var pool := rows[1..] + [v];
      assert rows == [rows[0]] + rows[1..];
      NullableOrderIsTotal(KeyOf(v, key), KeyOf(rows[0], key), KeyOf(v, key));
      assert NoneAfter(pool, key, KeyOf(rows[0], key));
      BoundSurvivesPermutation(rest, pool, key, KeyOf(rows[0], key));
      [rows[0]] + rest
  }

  /** The rows in `ORDER BY key DESC` order: a permutation of the input, in
      descending key order. Rows with equal keys, whose order SQL leaves
      open, keep one particular order here. */
  function SortDescending(rows: seq<Visitor>, key: SortKey): (r: seq<Visitor>)
    ensures multiset(r) == multiset(rows)
    ensures |r| == |rows|
    ensures Descending(r, key)
  {
    if rows == [] then []
    else
      assert rows == [rows[0]] + rows[1..];
      Insert(rows[0], SortDescending(rows[1..], key), key)
  }

  /** A WHERE condition of the dashboard and the reports. */
  datatype Condition =
    | StatusIs(status: Status)          // status = '...'
    | CheckedInOn(day: Date)            // DATE(check_in_time) = day
    | CheckedInMonth(year: int, month: int)  // YEAR(check_in_time) = year AND MONTH(check_in_time) = month

  predicate Matches(v: Visitor, c: Condition) {
    match c
    case StatusIs(status) => v.status == status
    case CheckedInOn(day) => OnDate(v.checkIn, day)
    case CheckedInMonth(year, month) => InMonth(v.checkIn, year, month)
  }

  /** `SELECT * ... WHERE c`: every matching row, as often as it occurs, and nothing else. */
  function Select(rows: seq<Visitor>, c: Condition): (r: seq<Visitor>)
    ensures forall v :: multiset(r)[v] == if Matches(v, c) then multiset(rows)[v] else 0
    ensures forall v :: v in r <==> v in rows && Matches(v, c)
  {
    if rows == [] then []
    else
      assert rows == [rows[0]] + rows[1..];
      (if Matches(rows[0], c) then [rows[0]] else []) + Select(rows[1..], c)
  }

  /** `SELECT COUNT(*) ... WHERE DATE(check_in_time) = day`. */
  function CountCheckedInOn(rows: seq<Visitor>, day: Date): (n: nat)
    ensures n == |Select(rows, CheckedInOn(day))|
    ensures n <= |rows|
  {
    if rows == [] then 0
    else (if OnDate(rows[0].checkIn, day) then 1 else 0) + CountCheckedInOn(rows[1..], day)
  }

  /** The dashboard's "currently inside" list: the INSIDE rows, latest check-in first. */
  function VisitorsInside(rows: seq<Visitor>): (r: seq<Visitor>)
    ensures forall v :: multiset(r)[v] == if v.status == Inside then multiset(rows)[v] else 0
    ensures Descending(r, ByCheckIn)
  {
    SortDescending(Select(rows, StatusIs(Inside)), ByCheckIn)
  }

  /** The LIMIT of the dashboard's recent-visitors list. */
  const RecentLimit: nat := 10

  function Min(a: nat, b: nat): nat {
    if a <= b then a else b
  }

  /** The dashboard's recent list: at most ten rows, newest created first. */
  function Recent(rows: seq<Visitor>): (r: seq<Visitor>)
    ensures |r| == Min(RecentLimit, |rows|)
    ensures multiset(r) <= multiset(rows)
    ensures Descending(r, ByCreatedAt)
  {
    var sorted := SortDescending(rows, ByCreatedAt);
    assert sorted == sorted[..Min(RecentLimit, |rows|)] + sorted[Min(RecentLimit, |rows|)..];
    sorted[..Min(RecentLimit, |rows|)]
  }

  /** No row left out of the recent list was created after a row shown in it. */
  lemma RecentAreNewest(rows: seq<Visitor>)
    ensures forall x, y :: x in multiset(rows) - multiset(Recent(rows)) && y in Recent(rows) ==>
      AtOrBefore(x.createdAt, y.createdAt)
  {
    var sorted := SortDescending(rows, ByCreatedAt);
    var k := Min(RecentLimit, |rows|);
    assert sorted == sorted[..k] + sorted[k..];
    assert multiset(rows) == multiset(Recent(rows)) + multiset(sorted[k..]);
    forall x, y | x in multiset(rows) - multiset(Recent(rows)) && y in Recent(rows)
      ensures AtOrBefore(x.createdAt, y.createdAt)
    {
      assert x in sorted[k..];
      var j :| k <= j < |sorted| && sorted[j] == x;
      var i :| 0 <= i < k && sorted[i] == y;
      assert NullableAtOrBefore(KeyOf(sorted[j], ByCreatedAt), KeyOf(sorted[i], ByCreatedAt));
    }
  }

  /** What the dashboard shows. */
  datatype DashboardView = DashboardView(inside: seq<Visitor>, totalToday: nat, recent: seq<Visitor>)

  function Dashboard(rows: seq<Visitor>, today: Date): DashboardView {
    DashboardView(VisitorsInside(rows), CountCheckedInOn(rows, today), Recent(rows))
  }

  /** The reports page. A missing `type` means "daily", a missing date means
      today, a missing month means today's year and month; any other type
      gives an empty list. */
  function Report(rows: seq<Visitor>, reportType: Option<string>, date: Option<Date>,
                  month: Option<(int, int)>, today: Date): (r: seq<Visitor>)
    ensures reportType.GetOr("daily") == "daily" ==>
      && (forall v :: multiset(r)[v] == if OnDate(v.checkIn, date.GetOr(today)) then multiset(rows)[v] else 0)
      && Descending(r, ByCheckIn)
    ensures reportType == Some("monthly") ==>
      var (year, m) := month.GetOr((today.year, today.month));
      && (forall v :: multiset(r)[v] == if InMonth(v.checkIn, year, m) then multiset(rows)[v] else 0)
      && Descending(r, ByCheckIn)
    ensures reportType.GetOr("daily") != "daily" && reportType != Some("monthly") ==> r == []
  {
    var kind := reportType.GetOr("daily");
    if kind == "daily" then
      SortDescending(Select(rows, CheckedInOn(date.GetOr(today))), ByCheckIn)
    else if kind == "monthly" then
      var (year, m) := month.GetOr((today.year, today.month));
      SortDescending(Select(rows, CheckedInMonth(year, m)), ByCheckIn)
    else
      []
  }
}
