/** The visitor registry as a state machine over values: the visitors table
    keyed by visitor_id, the AUTO_INCREMENT counter, and the three handlers
    that change them (registration, check-in, check-out). The class in
    desk.dfy performs the same updates in place and is specified by these
    functions. */
module Lifecycle {
  import opened Wrappers
  import opened Time
  import opened Visitors

  /** The visitors table and the id the next insert receives. */
  datatype Store = Store(table: map<int, Visitor>, nextId: int)

  /** A freshly created table: no rows, AUTO_INCREMENT starting at 1. */
  const Empty: Store := Store(map[], 1)

  /** The table after a request, and what the request reported. */
  datatype Step = Step(store: Store, outcome: Outcome)

  /** Key consistency of the table: every row carries its own key, and the
      ids in use are exactly 1 .. nextId - 1. AUTO_INCREMENT itself only
      promises a fresh, larger id; the absence of gaps holds here because the
      model has no failed inserts and no deletes. */
  ghost predicate WellKeyed(s: Store) {
    && s.nextId >= 1
    && (forall id :: id in s.table <==> 1 <= id < s.nextId)
    && (forall id :: id in s.table ==> s.table[id].id == id)
  }

  /** A row the handlers can produce: status INSIDE or EXITED, a check-in
      time, and a check-out time whenever the status is EXITED. */
  ghost predicate InLifecycle(v: Visitor) {
    && (v.status == Inside || v.status == Exited)
    && v.checkIn.Some?
    && (v.status == Exited ==> v.checkOut.Some?)
  }

  /** The invariant of every table reachable from an empty one. */
  ghost predicate Coherent(s: Store) {
    WellKeyed(s) && forall id :: id in s.table ==> InLifecycle(s.table[id])
  }

  /** The row `register` inserts; created_at takes the insert time. */
  function Admit(e: Entry, id: int, now: Stamp): Visitor {
    Visitor(id, e.name, e.contact, e.idProof, e.purpose, e.personToMeet, Some(now), None, Inside, now)
  }

  /** The guard of `checkin`: the visitor is INSIDE and has a check-in time. */
  predicate IsCheckedIn(v: Visitor) {
    v.status == Inside && v.checkIn.Some?
  }

  /** Registration: validate the form, then insert one row under the next id. */
  function Register(s: Store, form: Form, now: Stamp): (r: Step)
    ensures r.outcome.Ok? <==> ValidateRegistration(form).Success?
    ensures !r.outcome.Ok? ==> r.store == s && r.outcome == Invalid(ValidateRegistration(form).error)
    ensures WellKeyed(s) ==> WellKeyed(r.store)
    ensures Coherent(s) ==> Coherent(r.store)
    ensures WellKeyed(s) && r.outcome.Ok? ==>
      && r.outcome.id !in s.table
      && r.store.table.Keys == s.table.Keys + {r.outcome.id}
      && (forall id :: id in s.table ==> r.store.table[id] == s.table[id])
  {
    match ValidateRegistration(form)
    case Failure(problem) => Step(s, Invalid(problem))
    case Success(entry) =>
      Step(Store(s.table[s.nextId := Admit(entry, s.nextId, now)], s.nextId + 1), Ok(s.nextId))
  }

  /** Check-in: a guarded single-row update of check_in_time and status. */
  function CheckIn(s: Store, visitorId: Option<int>, now: Stamp): (r: Step)
    ensures r.store.nextId == s.nextId && r.store.table.Keys == s.table.Keys
    ensures forall id :: id in s.table && visitorId != Some(id) ==> r.store.table[id] == s.table[id]
    ensures r.outcome.Ok? <==> r.store != s
    ensures visitorId.None? ==> r == Step(s, Invalid(MissingVisitorId))
    ensures WellKeyed(s) ==> WellKeyed(r.store)
    ensures Coherent(s) ==> Coherent(r.store)
  {
    match visitorId
    case None => Step(s, Invalid(MissingVisitorId))
    case Some(id) =>
      if id !in s.table then Step(s, NotFound)
      else
        var v := s.table[id];
        if IsCheckedIn(v) then Step(s, Warning(AlreadyCheckedIn))
        else Step(Store(s.table[id := v.(checkIn := Some(now), status := Inside)], s.nextId), Ok(id))
  }

  /** Check-out: a three-way decision on the status, then a single-row update
      of check_out_time and status. */
  function CheckOut(s: Store, visitorId: Option<int>, now: Stamp): (r: Step)
    ensures r.store.nextId == s.nextId && r.store.table.Keys == s.table.Keys
    ensures forall id :: id in s.table && visitorId != Some(id) ==> r.store.table[id] == s.table[id]
    ensures r.outcome.Ok? <==> r.store != s
    ensures visitorId.None? ==> r == Step(s, Invalid(MissingVisitorId))
    ensures WellKeyed(s) ==> WellKeyed(r.store)
    ensures Coherent(s) ==> Coherent(r.store)
    ensures Coherent(s) ==> r.outcome != Invalid(MustCheckInFirst)
  {
    match visitorId
    case None => Step(s, Invalid(MissingVisitorId))
    case Some(id) =>
      if id !in s.table then Step(s, NotFound)
      else
        var v := s.table[id];
        match v.status
        case Exited => Step(s, Warning(AlreadyCheckedOut))
        case Inside => Step(Store(s.table[id := v.(checkOut := Some(now), status := Exited)], s.nextId), Ok(id))
        case Other(_) => Step(s, Invalid(MustCheckInFirst))
  }

  /** The rows whose ids lie in lo .. hi - 1, in id order. */
  function RowsBetween(t: map<int, Visitor>, lo: int, hi: int): (r: seq<Visitor>)
    requires forall id :: id in t ==> t[id].id == id
    ensures forall v :: multiset(r)[v] == if lo <= v.id < hi && v.id in t && t[v.id] == v then 1 else 0
    decreases hi - lo
  {
    if lo >= hi then []
    else (if lo in t then [t[lo]] else []) + RowsBetween(t, lo + 1, hi)
  }

  /** `SELECT * FROM visitors`: every row of the table, each exactly once. */
  function Rows(s: Store): (r: seq<Visitor>)
    requires WellKeyed(s)
    ensures forall v :: multiset(r)[v] == if v.id in s.table && s.table[v.id] == v then 1 else 0
  {
    RowsBetween(s.table, 1, s.nextId)
  }

  /** A request to one of the three state-changing handlers. */
  datatype Request =
    | RegisterVisitor(form: Form, now: Stamp)
    | CheckInVisitor(visitorId: Option<int>, now: Stamp)
    | CheckOutVisitor(visitorId: Option<int>, now: Stamp)

  function Handle(s: Store, req: Request): Step {
    match req
    case RegisterVisitor(form, now) => Register(s, form, now)
    case CheckInVisitor(visitorId, now) => CheckIn(s, visitorId, now)
    case CheckOutVisitor(visitorId, now) => CheckOut(s, visitorId, now)
  }

  /** The table after handling the requests in order, starting from an empty table. */
  function Replay(reqs: seq<Request>): Store
    decreases |reqs|
  {
    if reqs == [] then Empty
    else Handle(Replay(reqs[..|reqs| - 1]), reqs[|reqs| - 1]).store
  }

  /** Every table the handlers can reach from an empty one is coherent: only
      INSIDE and EXITED occur, every row has a check-in time, and every
      EXITED row has a check-out time. */
  lemma {:induction false} ReplayIsCoherent(reqs: seq<Request>)
    ensures Coherent(Replay(reqs))
    decreases |reqs|
  {
    if reqs != [] {
      ReplayIsCoherent(reqs[..|reqs| - 1]);
    }
  }

  /** The "check in first" branch of check-out is never taken on a reachable table. */
  lemma {:induction false} CheckInFirstIsUnreachable(reqs: seq<Request>, visitorId: Option<int>, now: Stamp)
    ensures CheckOut(Replay(reqs), visitorId, now).outcome != Invalid(MustCheckInFirst)
  {
    ReplayIsCoherent(reqs);
  }

  /** On a reachable table, checking in a visitor whose status is INSIDE
      always gives the warning and changes nothing. */
  lemma {:induction false} CheckInOfInsideVisitorWarns(reqs: seq<Request>, id: int, now: Stamp)
    requires id in Replay(reqs).table && Replay(reqs).table[id].status == Inside
    ensures CheckIn(Replay(reqs), Some(id), now) == Step(Replay(reqs), Warning(AlreadyCheckedIn))
  {
    ReplayIsCoherent(reqs);
  }

  /** Check-out of an unknown id reports not-found and changes nothing; of an
      EXITED visitor it warns and changes nothing; of an INSIDE visitor it
      stamps check_out_time, sets EXITED and keeps every other field; any
      other status asks for a check-in first and changes nothing. */
  lemma CheckOutDecision(s: Store, id: int, now: Stamp)
    ensures var r := CheckOut(s, Some(id), now);
      && (id !in s.table ==> r == Step(s, NotFound))
      && (id in s.table && s.table[id].status == Exited ==> r == Step(s, Warning(AlreadyCheckedOut)))
      && (id in s.table && s.table[id].status == Inside ==>
            var v := s.table[id];
            r.outcome == Ok(id) && r.store.table[id].checkOut == Some(now) && r.store.table[id].status == Exited
            && r.store.table[id].(checkOut := v.checkOut, status := v.status) == v)
      && (id in s.table && s.table[id].status.Other? ==> r == Step(s, Invalid(MustCheckInFirst)))
  {
  }

  /** Check-in of an unknown id reports not-found and changes nothing; a
      visitor not already checked in gets check_in_time = now and INSIDE,
      with every other field, including an earlier check_out_time, kept. */
  lemma CheckInDecision(s: Store, id: int, now: Stamp)
    ensures var r := CheckIn(s, Some(id), now);
      && (id !in s.table ==> r == Step(s, NotFound))
      && (id in s.table && IsCheckedIn(s.table[id]) ==> r == Step(s, Warning(AlreadyCheckedIn)))
      && (id in s.table && !IsCheckedIn(s.table[id]) ==>
            var v := s.table[id];
            r.outcome == Ok(id) && r.store.table[id].checkIn == Some(now) && r.store.table[id].status == Inside
            && r.store.table[id].checkOut == v.checkOut
            && r.store.table[id].(checkIn := v.checkIn, status := v.status) == v)
  {
  }

  /** A successful registration inserts the submitted fields under a fresh
      id, with status INSIDE, check-in and creation time `now` and no
      check-out time; a rejected one inserts nothing. */
  lemma RegisterInsertsSubmittedRecord(s: Store, form: Form, now: Stamp)
    requires WellKeyed(s)
    ensures var r := Register(s, form, now);
      && (r.outcome.Ok? ==>
            var v := r.store.table[r.outcome.id];
            && r.outcome.id == s.nextId && r.store.nextId == s.nextId + 1
            && v.id == r.outcome.id
            && Some(v.name) == form.name && Some(v.contact) == form.contact && Some(v.idProof) == form.idProof
            && Some(v.purpose) == form.purpose && Some(v.personToMeet) == form.personToMeet
            && v.status == Inside && v.checkIn == Some(now) && v.checkOut == None && v.createdAt == now
            && |r.store.table| == |s.table| + 1)
      && (!r.outcome.Ok? ==> r.store == s)
  {
    var r := Register(s, form, now);
    if r.outcome.Ok? {
      assert r.store.table.Keys == s.table.Keys + {s.nextId};
    }
  }

  /** Re-check-in after check-out reuses the row: the visitor is INSIDE again
      while the earlier check_out_time is still set. So "check_out_time is set
      exactly when the status is EXITED" does not hold of the handlers. */
  lemma ReCheckInKeepsCheckOutTime(form: Form, t1: Stamp, t2: Stamp, t3: Stamp)
    requires ValidateRegistration(form).Success?
    ensures var s := Replay([RegisterVisitor(form, t1), CheckOutVisitor(Some(1), t2), CheckInVisitor(Some(1), t3)]);
      1 in s.table && s.table[1].status == Inside && s.table[1].checkOut == Some(t2) && s.table[1].checkIn == Some(t3)
  {
    var reqs := [RegisterVisitor(form, t1), CheckOutVisitor(Some(1), t2), CheckInVisitor(Some(1), t3)];
    assert reqs[..2][..1] == reqs[..1] == [RegisterVisitor(form, t1)];
    assert [RegisterVisitor(form, t1)][..0] == [];
    var s1 := Replay(reqs[..1]);
    assert Replay(reqs[..1][..0]) == Empty;
    assert s1 == Register(Empty, form, t1).store;
    assert 1 in s1.table && s1.table[1].status == Inside && s1.nextId == 2;
    var s2 := Replay(reqs[..2]);
    assert s2 == CheckOut(s1, Some(1), t2).store;
    assert 1 in s2.table && s2.table[1].status == Exited && s2.table[1].checkOut == Some(t2);
    assert Replay(reqs) == CheckIn(s2, Some(1), t3).store;
  }
}
