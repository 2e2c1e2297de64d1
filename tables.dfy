/**
 * The three tables behind reservation admission, as values, and what each
 * request does to them.
 *
 *   event:        id |-> maxParticipants (a JSON number, so possibly fractional)
 *   user:         a set of ids
 *   reservation:  id |-> (eventID, userID), with UNIQUE(eventID, userID) and
 *                 foreign keys into event and user, enforced by SQLite once
 *                 `PRAGMA foreign_keys = ON` has run.
 *
 * Each request is one atomic step `Db -> Step<Outcome>`. `Inv` is the
 * conjunction of the table constraints and the capacity bound; every step
 * preserves it, so every state reached from an empty reservation table
 * satisfies it.
 */
module Tables {
  import opened Wrappers
  import Validation

  /** A row of `reservation`; its id is the key it is stored under. */
  datatype Reservation = Reservation(eventID: int, userID: int)

  datatype Db = Db(events: map<int, real>, users: set<int>, reservations: map<int, Reservation>)

  /** The result of a request: the tables afterwards and what the client is told. */
  datatype Step<O> = Step(db: Db, outcome: O)

  datatype AdmitOutcome =
    | Admitted(userID: int, eventID: int)
    | EventNotFound
    | CapacityExceeded
    | UserMissingOrDuplicate

  datatype GetOutcome = Found(id: int, reservation: Reservation) | NotFound | MalformedId

  datatype DeleteOutcome = Deleted | Absent | Referenced | InvalidId

  // ---------------------------------------------------------------------------
  // Queries

  /** The ids of the reservations for `eventID`: `SELECT * FROM reservation WHERE eventID=?`. */
  function Holders(rs: map<int, Reservation>, eventID: int): set<int> {
    set id | id in rs && rs[id].eventID == eventID
  }

  function Count(rs: map<int, Reservation>, eventID: int): nat {
    |Holders(rs, eventID)|
  }

  predicate Holds(rs: map<int, Reservation>, eventID: int, userID: int) {
    Reservation(eventID, userID) in rs.Values
  }

  predicate ReferencesUser(rs: map<int, Reservation>, userID: int) {
    exists id :: id in rs && rs[id].userID == userID
  }

  // ---------------------------------------------------------------------------
  // The invariant

  /** What `are_event_parameters_valid` lets through: `maxParticipants > 0`. */
  ghost predicate PositiveCapacities(events: map<int, real>) {
    forall e :: e in events ==> events[e] > 0.0
  }

  /** The two foreign keys of `reservation`. */
  ghost predicate ReferencesExist(db: Db) {
    forall id :: id in db.reservations ==>
      db.reservations[id].eventID in db.events && db.reservations[id].userID in db.users
  }

  /** UNIQUE(eventID, userID): no two rows hold the same pair. */
  ghost predicate UniquePairs(rs: map<int, Reservation>) {
    forall i, j :: i in rs && j in rs && rs[i] == rs[j] ==> i == j
  }

  /**
   * The capacity bound the count check keeps: fewer than maxParticipants + 1
   * reservations. For a whole maxParticipants that is at most maxParticipants
   * (`WholeCapacityBound`); a fractional one is rounded up (`FractionalCapacityOverfills`).
   */
  ghost predicate WithinCapacity(db: Db) {
    forall e :: e in db.events ==> (Count(db.reservations, e) as real) < db.events[e] + 1.0
  }

  /** Rowids start at 1. */
  ghost predicate PositiveIds(rs: map<int, Reservation>) {
    forall id :: id in rs ==> id >= 1
  }

  ghost predicate Inv(db: Db) {
    && PositiveCapacities(db.events)
    && PositiveIds(db.reservations)
    && ReferencesExist(db)
    && UniquePairs(db.reservations)
    && WithinCapacity(db)
  }

  // ---------------------------------------------------------------------------
  // Row ids

  /**
   * The rowid SQLite gives a new row of a table whose INTEGER PRIMARY KEY is not
   * AUTOINCREMENT: one above the largest id in use, or 1 in an empty table.
   */
  ghost function NextRowId(keys: set<int>): (id: int)
    ensures forall k :: k in keys ==> k < id
    ensures keys == {} ==> id == 1
    ensures keys != {} ==> id - 1 in keys
  {
    if |keys| == 0 then 1
    else
      HasElement(keys);
      var k :| k in keys;
      var rest := keys - {k};
      assert forall j :: j in keys ==> j == k || j in rest;
      if |rest| == 0 then k + 1
      else
        var m := NextRowId(rest);
        if k + 1 > m then k + 1 else m
  }

  lemma HasElement(s: set<int>)
    requires |s| != 0
    ensures exists k :: k in s
  {
    if forall k :: k !in s {
      assert false;
    }
  }

  /** The two properties of `NextRowId` determine it. */
  lemma NextRowIdUnique(keys: set<int>, id: int)
    requires forall k :: k in keys ==> k < id
    requires keys == {} ==> id == 1
    requires keys != {} ==> id - 1 in keys
    ensures id == NextRowId(keys)
  {
    var n := NextRowId(keys);
    if keys != {} {
      assert id - 1 < n && n - 1 < id;
    }
  }

  // ---------------------------------------------------------------------------
  // Requests

  /**
   * POST /api/reservation/create. The event is looked up first, then its
   * reservations are counted against maxParticipants, then the row is inserted;
   * an insert that breaks the NOT NULL, foreign-key or UNIQUE constraint of
   * `reservation` is one combined outcome.
   */
  ghost function Admit(db: Db, eventID: Option<int>, userID: Option<int>): (s: Step<AdmitOutcome>)
    ensures s.db.events == db.events && s.db.users == db.users
    ensures !s.outcome.Admitted? ==> s.db == db
    ensures s.outcome.Admitted? ==> eventID == Some(s.outcome.eventID) && userID == Some(s.outcome.userID)
  {
    if eventID.None? || eventID.value !in db.events then Step(db, EventNotFound)
    else
      var e := eventID.value;
      if Count(db.reservations, e) as real >= db.events[e] then Step(db, CapacityExceeded)
      else if userID.None? || userID.value !in db.users || Holds(db.reservations, e, userID.value) then
        Step(db, UserMissingOrDuplicate)
      else
        var id := NextRowId(db.reservations.Keys);
        Step(db.(reservations := db.reservations[id := Reservation(e, userID.value)]),
             Admitted(userID.value, e))
  }

  /** GET /api/reservation/:id. */
  function Get(db: Db, id: string): GetOutcome {
    match Validation.ParseId(id)
    case None => MalformedId
    case Some(k) => if k in db.reservations then Found(k, db.reservations[k]) else NotFound
  }

  /**
   * DELETE /api/reservation/delete?id=. No table references `reservation`, so
   * the source's constraint branch never fires. `Absent` is the intended reply
   * for an id with no row (see `ReplyAsWritten`).
   */
  function DeleteReservation(db: Db, id: string): (s: Step<DeleteOutcome>)
    ensures s.db.events == db.events && s.db.users == db.users
    ensures s.outcome != Deleted ==> s.db == db
    ensures s.outcome != Referenced
  {
    match Validation.ParseId(id)
    case None => Step(db, InvalidId)
    case Some(k) =>
      if k in db.reservations then Step(db.(reservations := db.reservations - {k}), Deleted)
      else Step(db, Absent)
  }

  /** DELETE /api/user/delete?id=: refused by the foreign key while a reservation names the user. */
  function DeleteUser(db: Db, id: string): (s: Step<DeleteOutcome>)
    ensures s.db.events == db.events && s.db.reservations == db.reservations
    ensures s.outcome != Deleted ==> s.db == db
  {
    match Validation.ParseId(id)
    case None => Step(db, InvalidId)
    case Some(k) =>
      if k !in db.users then Step(db, Absent)
      else if ReferencesUser(db.reservations, k) then Step(db, Referenced)
      else Step(db.(users := db.users - {k}), Deleted)
  }

  /** DELETE /api/event/delete?id=: refused by the foreign key while a reservation names the event. */
  function DeleteEvent(db: Db, id: string): (s: Step<DeleteOutcome>)
    ensures s.db.users == db.users && s.db.reservations == db.reservations
    ensures s.outcome != Deleted ==> s.db == db
  {
    match Validation.ParseId(id)
    case None => Step(db, InvalidId)
    case Some(k) =>
      if k !in db.events then Step(db, Absent)
      else if Count(db.reservations, k) > 0 then Step(db, Referenced)
      else Step(db.(events := db.events - {k}), Deleted)
  }

  datatype Request =
    | AdmitRequest(eventID: Option<int>, userID: Option<int>)
    | GetRequest(getId: string)
    | DeleteReservationRequest(reservationId: string)
    | DeleteUserRequest(userId: string)
    | DeleteEventRequest(eventId: string)

  ghost function Apply(db: Db, rq: Request): Db {
    match rq
    case AdmitRequest(e, u) => Admit(db, e, u).db
    case GetRequest(_) => db
    case DeleteReservationRequest(id) => DeleteReservation(db, id).db
    case DeleteUserRequest(id) => DeleteUser(db, id).db
    case DeleteEventRequest(id) => DeleteEvent(db, id).db
  }

  /** The tables after serving `rqs` one after another, each as one atomic step. */
  ghost function Run(db: Db, rqs: seq<Request>): Db
    decreases |rqs|
  {
    if rqs == [] then db else Run(Apply(db, rqs[0]), rqs[1..])
  }

  // ---------------------------------------------------------------------------
  // Counting

  lemma CountInsert(rs: map<int, Reservation>, id: int, r: Reservation, e: int)
    requires id !in rs
    ensures Count(rs[id := r], e) == Count(rs, e) + (if r.eventID == e then 1 else 0)
  {
    if r.eventID == e {
      assert Holders(rs[id := r], e) == Holders(rs, e) + {id};
    } else {
      assert Holders(rs[id := r], e) == Holders(rs, e);
    }
  }

  lemma CountRemove(rs: map<int, Reservation>, id: int, e: int)
    requires id in rs
    ensures Count(rs - {id}, e) == Count(rs, e) - (if rs[id].eventID == e then 1 else 0)
  {
    if rs[id].eventID == e {
      assert Holders(rs, e) == Holders(rs - {id}, e) + {id};
    } else {
      assert Holders(rs - {id}, e) == Holders(rs, e);
    }
  }

  // ---------------------------------------------------------------------------
  // Admission

  /** An event id with no row, or none at all, is not found, and nothing changes. */
  lemma AdmitMissingEvent(db: Db, eventID: Option<int>, userID: Option<int>)
    requires eventID.None? || eventID.value !in db.events
    ensures Admit(db, eventID, userID) == Step(db, EventNotFound)
  {
  }

  /**
   * A full event refuses every request and nothing changes; as the count comes
   * before the insert, this holds for a user who already holds a reservation too.
   */
  lemma AdmitFullEvent(db: Db, e: int, userID: Option<int>)
    requires e in db.events && Count(db.reservations, e) as real >= db.events[e]
    ensures Admit(db, Some(e), userID) == Step(db, CapacityExceeded)
  {
  }

  /**
   * With a free slot, a missing user, an unknown user or a pair already held
   * gets the one combined outcome and adds no row.
   */
  lemma AdmitMissingUserOrDuplicate(db: Db, e: int, userID: Option<int>)
    requires e in db.events && Count(db.reservations, e) as real < db.events[e]
    requires userID.None? || userID.value !in db.users || Holds(db.reservations, e, userID.value)
    ensures Admit(db, Some(e), userID) == Step(db, UserMissingOrDuplicate)
  {
  }

  /**
   * A successful admission adds exactly one row, (eventID, userID), under an id
   * above every id in use; every other row stays, the event's count rises by one,
   * every other event's count stays, and the reply echoes the pair.
   */
  lemma AdmitAddsOneRow(db: Db, e: int, u: int)
    requires Admit(db, Some(e), Some(u)).outcome.Admitted?
    ensures var s := Admit(db, Some(e), Some(u));
      var id := NextRowId(db.reservations.Keys);
      && s.outcome == Admitted(u, e)
      && id !in db.reservations
      && s.db.reservations == db.reservations[id := Reservation(e, u)]
      && Count(s.db.reservations, e) == Count(db.reservations, e) + 1
      && forall e' :: e' != e ==> Count(s.db.reservations, e') == Count(db.reservations, e')
  {
    var id := NextRowId(db.reservations.Keys);
    CountInsert(db.reservations, id, Reservation(e, u), e);
    forall e' | e' != e
      ensures Count(db.reservations[id := Reservation(e, u)], e') == Count(db.reservations, e')
    {
      CountInsert(db.reservations, id, Reservation(e, u), e');
    }
  }

  /** Admission is admitted exactly when the event exists, has a free slot, the user exists and does not yet hold it. */
  lemma AdmitSucceedsIff(db: Db, e: int, u: int)
    ensures Admit(db, Some(e), Some(u)).outcome == Admitted(u, e) <==>
      && e in db.events && Count(db.reservations, e) as real < db.events[e]
      && u in db.users && !Holds(db.reservations, e, u)
  {
  }

  lemma AdmitPreservesInv(db: Db, eventID: Option<int>, userID: Option<int>)
    requires Inv(db)
    ensures Inv(Admit(db, eventID, userID).db)
  {
    var s := Admit(db, eventID, userID);
    if s.outcome.Admitted? {
      var e, u := eventID.value, userID.value;
      var rs := db.reservations;
      var id := NextRowId(rs.Keys);
      var rs' := s.db.reservations;
      assert rs' == rs[id := Reservation(e, u)];
      forall e' | e' in db.events
        ensures (Count(rs', e') as real) < db.events[e'] + 1.0
      {
        CountInsert(rs, id, Reservation(e, u), e');
      }
      forall i, j | i in rs' && j in rs' && rs'[i] == rs'[j]
        ensures i == j
      {
      }
    }
  }

  /** Uniqueness: once a pair is admitted, admitting it again is never admitted. */
  lemma AdmitTwiceRejected(db: Db, e: int, u: int)
    requires Admit(db, Some(e), Some(u)).outcome.Admitted?
    ensures var db' := Admit(db, Some(e), Some(u)).db;
      Admit(db', Some(e), Some(u)).outcome in {CapacityExceeded, UserMissingOrDuplicate}
  {
    var id := NextRowId(db.reservations.Keys);
    var db' := Admit(db, Some(e), Some(u)).db;
    assert db'.reservations[id] == Reservation(e, u);
    assert Holds(db'.reservations, e, u);
  }

  // ---------------------------------------------------------------------------
  // Reading back and deleting

  /** A reservation just admitted is read back under its id, written in decimal. */
  lemma AdmitThenGet(db: Db, e: int, u: int)
    requires Inv(db)
    requires Admit(db, Some(e), Some(u)).outcome.Admitted?
    ensures var id := NextRowId(db.reservations.Keys);
      && id >= 1
      && Get(Admit(db, Some(e), Some(u)).db, Validation.DecimalText(id)) == Found(id, Reservation(e, u))
  {
    var id := NextRowId(db.reservations.Keys);
    assert id >= 1;
    AdmitAddsOneRow(db, e, u);
    var rs' := Admit(db, Some(e), Some(u)).db.reservations;
    assert id in rs' && rs'[id] == Reservation(e, u);
    Validation.ParseIdOfDecimalText(id);
  }

  /**
   * Deleting by id: a malformed id changes nothing; an id with no row changes
   * nothing and is told apart as `Absent`; otherwise exactly that row goes, and
   * its event has one reservation fewer while every other event keeps its count.
   */
  lemma DeleteReservationRemovesRow(db: Db, id: string)
    ensures var s := DeleteReservation(db, id);
      match Validation.ParseId(id)
      case None => s == Step(db, InvalidId)
      case Some(k) =>
        if k !in db.reservations then s == Step(db, Absent)
        else
          && s.outcome == Deleted
          && s.db.reservations == db.reservations - {k}
          && Count(s.db.reservations, db.reservations[k].eventID)
             == Count(db.reservations, db.reservations[k].eventID) - 1
          && forall e' :: e' != db.reservations[k].eventID ==>
               Count(s.db.reservations, e') == Count(db.reservations, e')
  {
    match Validation.ParseId(id)
    case None =>
    case Some(k) =>
      if k in db.reservations {
        var e := db.reservations[k].eventID;
        CountRemove(db.reservations, k, e);
        forall e' | e' != e
          ensures Count(db.reservations - {k}, e') == Count(db.reservations, e')
        {
          CountRemove(db.reservations, k, e');
        }
      }
  }

  /** After a delete, the id reads back as not found. */
  lemma DeleteThenGet(db: Db, id: string)
    requires DeleteReservation(db, id).outcome == Deleted
    ensures Get(DeleteReservation(db, id).db, id) == NotFound
  {
  }

  lemma DeleteReservationPreservesInv(db: Db, id: string)
    requires Inv(db)
    ensures Inv(DeleteReservation(db, id).db)
  {
    var s := DeleteReservation(db, id);
    if s.outcome == Deleted {
      var k := Validation.ParseId(id).value;
      forall e | e in db.events
        ensures (Count(s.db.reservations, e) as real) < db.events[e] + 1.0
      {
        CountRemove(db.reservations, k, e);
      }
    }
  }

  /** Deleting a user that a reservation names is refused and changes nothing. */
  lemma DeleteReferencedUser(db: Db, id: string)
    requires Validation.ParseId(id).Some?
    requires var k := Validation.ParseId(id).value; k in db.users && ReferencesUser(db.reservations, k)
    ensures DeleteUser(db, id) == Step(db, Referenced)
  {
  }

  /**
   * Every outcome of a user delete: a text the guard refuses is InvalidId; an
   * id with no user is Absent; a referenced user is refused; otherwise exactly
   * that user goes. Only a deletion changes the tables.
   */
  lemma DeleteUserOutcomes(db: Db, id: string)
    ensures var s := DeleteUser(db, id);
      && (s.outcome == InvalidId <==> !Validation.IsNumeric(id))
      && (Validation.IsNumeric(id) ==>
            var k := Validation.ParseId(id).value;
            && (s.outcome == Absent <==> k !in db.users)
            && (s.outcome == Referenced <==> k in db.users && ReferencesUser(db.reservations, k))
            && (s.outcome == Deleted <==> k in db.users && !ReferencesUser(db.reservations, k))
            && (s.outcome == Deleted ==> s.db == db.(users := db.users - {k})))
  {
  }

  lemma DeleteUserPreservesInv(db: Db, id: string)
    requires Inv(db)
    ensures Inv(DeleteUser(db, id).db)
  {
    var s := DeleteUser(db, id);
    if s.outcome == Deleted {
      var k := Validation.ParseId(id).value;
      forall r | r in db.reservations
        ensures db.reservations[r].userID in s.db.users
      {
        assert db.reservations[r].userID != k;
      }
    }
  }

  /** Deleting an event that a reservation names is refused and changes nothing. */
  lemma DeleteReferencedEvent(db: Db, id: string)
    requires Validation.ParseId(id).Some?
    requires var k := Validation.ParseId(id).value; k in db.events && Count(db.reservations, k) > 0
    ensures DeleteEvent(db, id) == Step(db, Referenced)
  {
  }

  /**
   * Every outcome of an event delete: a text the guard refuses is InvalidId; an
   * id with no event is Absent; an event with reservations is refused;
   * otherwise exactly that event goes. Only a deletion changes the tables.
   */
  lemma DeleteEventOutcomes(db: Db, id: string)
    ensures var s := DeleteEvent(db, id);
      && (s.outcome == InvalidId <==> !Validation.IsNumeric(id))
      && (Validation.IsNumeric(id) ==>
            var k := Validation.ParseId(id).value;
            && (s.outcome == Absent <==> k !in db.events)
            && (s.outcome == Referenced <==> k in db.events && Count(db.reservations, k) > 0)
            && (s.outcome == Deleted <==> k in db.events && Count(db.reservations, k) == 0)
            && (s.outcome == Deleted ==> s.db == db.(events := db.events - {k})))
  {
  }

  lemma DeleteEventPreservesInv(db: Db, id: string)
    requires Inv(db)
    ensures Inv(DeleteEvent(db, id).db)
  {
    var s := DeleteEvent(db, id);
    if s.outcome == Deleted {
      var k := Validation.ParseId(id).value;
      forall r | r in db.reservations
        ensures db.reservations[r].eventID in s.db.events
      {
        assert r !in Holders(db.reservations, k);
      }
    }
  }

  // ---------------------------------------------------------------------------
  // Every reachable state

  lemma ApplyPreservesInv(db: Db, rq: Request)
    requires Inv(db)
    ensures Inv(Apply(db, rq))
  {
    match rq
    case AdmitRequest(e, u) => AdmitPreservesInv(db, e, u);
    case GetRequest(_) =>
    case DeleteReservationRequest(id) => DeleteReservationPreservesInv(db, id);
    case DeleteUserRequest(id) => DeleteUserPreservesInv(db, id);
    case DeleteEventRequest(id) => DeleteEventPreservesInv(db, id);
  }

  lemma {:induction false} RunPreservesInv(db: Db, rqs: seq<Request>)
    requires Inv(db)
    ensures Inv(Run(db, rqs))
    decreases |rqs|
  {
    if rqs != [] {
      ApplyPreservesInv(db, rqs[0]);
      RunPreservesInv(Apply(db, rqs[0]), rqs[1..]);
    }
  }

  /**
   * Starting from an empty reservation table over events of positive capacity,
   * any sequence of requests, each served atomically, keeps every event within
   * its capacity, every pair unique and every reservation pointing at an
   * existing event and user.
   */
  lemma ReachableStatesKeepInv(events: map<int, real>, users: set<int>, rqs: seq<Request>)
    requires PositiveCapacities(events)
    ensures var db := Run(Db(events, users, map[]), rqs);
      && WithinCapacity(db) && UniquePairs(db.reservations) && ReferencesExist(db)
  {
    var db0 := Db(events, users, map[]);
    forall e | e in events
      ensures (Count(db0.reservations, e) as real) < events[e] + 1.0
    {
      assert Holders(db0.reservations, e) == {};
    }
    RunPreservesInv(db0, rqs);
  }

  /** An event whose maxParticipants is whole never holds more than maxParticipants reservations. */
  lemma WholeCapacityBound(db: Db, e: int)
    requires Inv(db) && e in db.events
    requires db.events[e] == db.events[e].Floor as real
    ensures Count(db.reservations, e) <= db.events[e].Floor
  {
    assert (Count(db.reservations, e) as real) < db.events[e] + 1.0;
  }

  /**
   * Deleting one reservation of a full event frees the slot: a user that exists
   * and does not hold the event is then admitted.
   */
  lemma DeleteFreesSlot(db: Db, id: string, u: int)
    requires Inv(db)
    requires Validation.ParseId(id).Some? && Validation.ParseId(id).value in db.reservations
    requires var e := db.reservations[Validation.ParseId(id).value].eventID;
      Count(db.reservations, e) as real >= db.events[e]
    requires u in db.users
    requires !Holds(DeleteReservation(db, id).db.reservations, db.reservations[Validation.ParseId(id).value].eventID, u)
    ensures var e := db.reservations[Validation.ParseId(id).value].eventID;
      Admit(DeleteReservation(db, id).db, Some(e), Some(u)).outcome == Admitted(u, e)
  {
    var k := Validation.ParseId(id).value;
    CountRemove(db.reservations, k, db.reservations[k].eventID);
  }

  // ---------------------------------------------------------------------------
  // A worked example

  /**
   * Event 1 with two seats and users 1, 2, 3: users 1 and 2 are admitted, user 3
   * finds the event full, and user 1 asking again is also told the event is full
   * (the count is checked before the insert); two reservations remain.
   */
  lemma TwoSeatEvent()
    ensures var db0 := Db(map[1 := 2.0], {1, 2, 3}, map[]);
      var s1 := Admit(db0, Some(1), Some(1));
      var s2 := Admit(s1.db, Some(1), Some(2));
      var s3 := Admit(s2.db, Some(1), Some(3));
      var s4 := Admit(s3.db, Some(1), Some(1));
      && s1.outcome == Admitted(1, 1)
      && s2.outcome == Admitted(2, 1)
      && s3.outcome == CapacityExceeded
      && s4.outcome == CapacityExceeded
      && Count(s4.db.reservations, 1) == 2
  {
    var db0 := Db(map[1 := 2.0], {1, 2, 3}, map[]);
    var r1: map<int, Reservation> := map[1 := Reservation(1, 1)];
    var r2 := r1[2 := Reservation(1, 2)];
    var db1 := db0.(reservations := r1);
    var db2 := db0.(reservations := r2);
    assert Admit(db0, Some(1), Some(1)) == Step(db1, Admitted(1, 1)) by {
      assert Holders(db0.reservations, 1) == {};
      NextRowIdUnique({}, 1);
    }
    assert Admit(db1, Some(1), Some(2)) == Step(db2, Admitted(2, 1)) by {
      assert Holders(r1, 1) == {1};
      assert r1.Values == {Reservation(1, 1)};
      assert r1.Keys == {1};
      NextRowIdUnique({1}, 2);
    }
    assert Count(r2, 1) == 2 by {
      assert Holders(r2, 1) == {1, 2};
    }
    AdmitFullEvent(db2, 1, Some(3));
    AdmitFullEvent(db2, 1, Some(1));
  }

  /**
   * A fractional maxParticipants, which `are_event_parameters_valid` accepts, is
   * rounded up: an event of capacity 1.5 admits two users.
   */
  lemma FractionalCapacityOverfills()
    ensures var db0 := Db(map[1 := 1.5], {1, 2}, map[]);
      var s1 := Admit(db0, Some(1), Some(1));
      var s2 := Admit(s1.db, Some(1), Some(2));
      && s1.outcome == Admitted(1, 1)
      && s2.outcome == Admitted(2, 1)
      && Count(s2.db.reservations, 1) == 2
      && (Count(s2.db.reservations, 1) as real) > db0.events[1]
  {
    var db0 := Db(map[1 := 1.5], {1, 2}, map[]);
    var r1: map<int, Reservation> := map[1 := Reservation(1, 1)];
    var r2 := r1[2 := Reservation(1, 2)];
    var db1 := db0.(reservations := r1);
    var db2 := db0.(reservations := r2);
    assert Admit(db0, Some(1), Some(1)) == Step(db1, Admitted(1, 1)) by {
      assert Holders(db0.reservations, 1) == {};
      NextRowIdUnique({}, 1);
    }
    assert Admit(db1, Some(1), Some(2)) == Step(db2, Admitted(2, 1)) by {
      assert Holders(r1, 1) == {1};
      assert r1.Values == {Reservation(1, 1)};
      assert r1.Keys == {1};
      NextRowIdUnique({1}, 2);
    }
    assert Holders(r2, 1) == {1, 2};
  }

  // ---------------------------------------------------------------------------
  // The delete handlers as written

  /**
   * The reply the three delete handlers send. They test `this.changes === 0`
   * inside an arrow function, where `this` is not the statement and
   * `this.changes` is undefined, so a delete that removed nothing is answered
   * like one that removed a row.
   */
  function ReplyAsWritten(o: DeleteOutcome): (r: DeleteOutcome)
    ensures r != Absent
    ensures o == Absent ==> r == Deleted
    ensures o != Absent ==> r == o
  {
    if o == Absent then Deleted else o
  }

  /** Deleting reservation 42 from an empty table is answered "OK" as written, `Absent` as intended. */
  lemma AsWrittenMissingRowReportedDeleted()
    ensures var s := DeleteReservation(Db(map[1 := 2.0], {7}, map[]), "42");
      s.outcome == Absent && ReplyAsWritten(s.outcome) == Deleted
  {
    Validation.TrimKeepsTrimmed("42");
    assert Validation.IsNumeric("42");
  }
}
