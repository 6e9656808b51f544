/** The front desk: the visitors table held in place, with the handlers of
    registration, check-in and check-out updating it row by row, and the
    dashboard and reports reading it. Each handler is specified by the
    corresponding function of the Lifecycle or Queries module. */
module Desk {
  import opened Wrappers
  import opened Time
  import opened Visitors
  import Lifecycle
  import Queries

  class VisitorDesk {
    /** The visitors table, keyed by visitor_id. */
    var table: map<int, Visitor>
    /** The AUTO_INCREMENT counter: the visitor_id the next insert receives. */
    var nextId: int

    /** Key consistency, and the lifecycle invariant that every table reached
        from an empty one satisfies (see Lifecycle.ReplayIsCoherent). */
    ghost predicate Valid()
      reads this
    {
      Lifecycle.Coherent(Lifecycle.Store(table, nextId))
    }

    /** The table and counter as a value. */
    function Snapshot(): Lifecycle.Store
      reads this
    {
      Lifecycle.Store(table, nextId)
    }

    /** An empty table. */
    constructor ()
      ensures Valid()
      ensures Snapshot() == Lifecycle.Empty
    {
      table := map[];
      nextId := 1;
    }

    /** `register`: validate the form, then insert one row under the next id. */
    method Register(form: Form, now: Stamp) returns (outcome: Outcome)
      requires Valid()
      modifies this
      ensures Valid()
      ensures Lifecycle.Step(Snapshot(), outcome) == Lifecycle.Register(old(Snapshot()), form, now)
      ensures outcome.Ok? ==>
        && outcome.id == old(nextId) && outcome.id !in old(table) && nextId == old(nextId) + 1
        && table == old(table)[outcome.id := table[outcome.id]]
        && table[outcome.id].status == Inside && table[outcome.id].checkIn == Some(now)
      ensures !outcome.Ok? ==> table == old(table) && nextId == old(nextId)
    {
      var checked := ValidateRegistration(form);
      if checked.Failure? {
        return Invalid(checked.error);
      }
      var id := nextId;
      table := table[id := Lifecycle.Admit(checked.value, id, now)];
      nextId := nextId + 1;
      outcome := Ok(id);
    }

    /** `checkin`: warn if the visitor is already checked in, otherwise
        stamp check_in_time and set INSIDE. */
    method CheckIn(visitorId: Option<int>, now: Stamp) returns (outcome: Outcome)
      requires Valid()
      modifies this
      ensures Valid()
      ensures Lifecycle.Step(Snapshot(), outcome) == Lifecycle.CheckIn(old(Snapshot()), visitorId, now)
      ensures nextId == old(nextId)
      ensures outcome.Ok? ==>
        var v := old(table)[outcome.id];
        table == old(table)[outcome.id := v.(checkIn := Some(now), status := Inside)]
      ensures !outcome.Ok? ==> table == old(table)
    {
      if visitorId.None? {
        return Invalid(MissingVisitorId);
      }
      var id := visitorId.value;
      if id !in table {
        return NotFound;
      }
      var v := table[id];
      if Lifecycle.IsCheckedIn(v) {
        outcome := Warning(AlreadyCheckedIn);
      } else {
        table := table[id := v.(checkIn := Some(now), status := Inside)];
        outcome := Ok(id);
      }
    }

    /** `checkout`: warn if EXITED, stamp check_out_time and set EXITED if
        INSIDE, otherwise ask for a check-in first. */
    method CheckOut(visitorId: Option<int>, now: Stamp) returns (outcome: Outcome)
      requires Valid()
      modifies this
      ensures Valid()
      ensures Lifecycle.Step(Snapshot(), outcome) == Lifecycle.CheckOut(old(Snapshot()), visitorId, now)
      ensures nextId == old(nextId)
      ensures outcome.Ok? ==>
        var v := old(table)[outcome.id];
        v.status == Inside && table == old(table)[outcome.id := v.(checkOut := Some(now), status := Exited)]
      ensures !outcome.Ok? ==> table == old(table)
      ensures outcome != Invalid(MustCheckInFirst)
    {
      if visitorId.None? {
        return Invalid(MissingVisitorId);
      }
      var id := visitorId.value;
      if id !in table {
        return NotFound;
      }
      var v := table[id];
      if v.status == Exited {
        outcome := Warning(AlreadyCheckedOut);
      } else if v.status == Inside {
        table := table[id := v.(checkOut := Some(now), status := Exited)];
        outcome := Ok(id);
      } else {
        outcome := Invalid(MustCheckInFirst);
      }
    }

    /** `dashboard`: the INSIDE rows latest check-in first, the number of
        rows checked in today, and the ten most recently created rows. */
    method Dashboard(today: Date) returns (view: Queries.DashboardView)
      requires Valid()
      ensures forall v ::
        multiset(view.inside)[v] == if v.status == Inside && v.id in table && table[v.id] == v then 1 else 0
      ensures Queries.Descending(view.inside, Queries.ByCheckIn)
      ensures view.totalToday == |Queries.Select(Lifecycle.Rows(Snapshot()), Queries.CheckedInOn(today))|
      ensures view.recent == Queries.Recent(Lifecycle.Rows(Snapshot()))
    {
      view := Queries.Dashboard(Lifecycle.Rows(Snapshot()), today);
    }

    /** `reports`: the daily or monthly list, latest check-in first. */
    method Report(reportType: Option<string>, date: Option<Date>, month: Option<(int, int)>, today: Date)
      returns (rows: seq<Visitor>)
      requires Valid()
      ensures reportType.GetOr("daily") == "daily" ==>
        && (forall v :: multiset(rows)[v] ==
              if OnDate(v.checkIn, date.GetOr(today)) && v.id in table && table[v.id] == v then 1 else 0)
        && Queries.Descending(rows, Queries.ByCheckIn)
      ensures reportType == Some("monthly") ==>
        var (year, m) := month.GetOr((today.year, today.month));
        && (forall v :: multiset(rows)[v] ==
              if InMonth(v.checkIn, year, m) && v.id in table && table[v.id] == v then 1 else 0)
        && Queries.Descending(rows, Queries.ByCheckIn)
      ensures reportType.GetOr("daily") != "daily" && reportType != Some("monthly") ==> rows == []
    {
      rows := Queries.Report(Lifecycle.Rows(Snapshot()), reportType, date, month, today);
    }
  }
}
