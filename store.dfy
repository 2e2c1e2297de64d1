/**
 * The reservation handlers as the service runs them: one mutable store of the
 * `event`, `user` and `reservation` tables, changed in place by each request.
 * Every method is one atomic step and is proved to do what the matching step
 * of `Tables` does; `Valid` (the table constraints and the capacity bound) holds
 * before and after each of them.
 */
module ReservationStore {
  import opened Wrappers
  import opened Tables
  import Validation

  class Store {
    /** `event`: id |-> maxParticipants. */
    var events: map<int, real>
    /** `user`: the ids present. */
    var users: set<int>
    /** `reservation`: id |-> (eventID, userID). */
    var reservations: map<int, Reservation>

    function State(): Db
      reads this
    {
      Db(events, users, reservations)
    }

    ghost predicate Valid()
      reads this
    {
      Inv(State())
    }

    /** A store over existing event and user tables and an empty reservation table. */
    constructor (events: map<int, real>, users: set<int>)
      requires PositiveCapacities(events)
      ensures Valid()
      ensures State() == Db(events, users, map[])
    {
      this.events := events;
      this.users := users;
      this.reservations := map[];
      new;
      ReachableStatesKeepInv(events, users, []);
    }

    /**
     * `SELECT * FROM reservation WHERE eventID=?` then `rows.length`: the number
     * of reservations for `eventID`, row by row.
     */
    method CountReservations(eventID: int) returns (n: nat)
      ensures n == Count(reservations, eventID)
    {
      n := 0;
      var todo := reservations.Keys;
      ghost var seen: set<int> := {};
      while todo != {}
        invariant todo !! seen && todo + seen == reservations.Keys
        invariant n == |Holders(reservations, eventID) * seen|
        decreases todo
      {
        HasElement(todo);
        var id :| id in todo;
        if reservations[id].eventID == eventID {
          assert Holders(reservations, eventID) * (seen + {id})
              == Holders(reservations, eventID) * seen + {id};
          n := n + 1;
        } else {
          assert Holders(reservations, eventID) * (seen + {id})
              == Holders(reservations, eventID) * seen;
        }
        todo := todo - {id};
        seen := seen + {id};
      }
      assert Holders(reservations, eventID) * seen == Holders(reservations, eventID);
    }

    /** The rowid SQLite assigns to the next inserted reservation. */
    method NewRowId() returns (id: int)
      ensures id == Tables.NextRowId(reservations.Keys)
    {
      id := NextRowIdOf(reservations.Keys);
      NextRowIdUnique(reservations.Keys, id);
    }

    /** POST /api/reservation/create. */
    method Admit(eventID: Option<int>, userID: Option<int>) returns (o: AdmitOutcome)
      requires Valid()
      modifies this
      ensures Valid()
      ensures var s := Tables.Admit(old(State()), eventID, userID);
        State() == s.db && o == s.outcome
    {
      if eventID.None? || eventID.value !in events {
        return EventNotFound;
      }
      var e := eventID.value;
      var maxParticipants := events[e];
      var n := CountReservations(e);
      if n as real >= maxParticipants {
        return CapacityExceeded;
      }
      // The INSERT fails on NOT NULL, on the foreign key into `user`, or on UNIQUE(eventID, userID).
      if userID.None? || userID.value !in users || Reservation(e, userID.value) in reservations.Values {
        return UserMissingOrDuplicate;
      }
      var id := NewRowId();
      reservations := reservations[id := Reservation(e, userID.value)];
      o := Admitted(userID.value, e);
      AdmitPreservesInv(old(State()), eventID, userID);
    }

    /** GET /api/reservation/:id. */
    method Get(id: string) returns (o: GetOutcome)
      ensures o == Tables.Get(State(), id)
    {
      var k := Validation.ParseId(id);
      if k.None? {
        o := MalformedId;
      } else if k.value in reservations {
        o := Found(k.value, reservations[k.value]);
      } else {
        o := NotFound;
      }
    }

    /** DELETE /api/reservation/delete?id=. */
    method DeleteReservation(id: string) returns (o: DeleteOutcome)
      requires Valid()
      modifies this
      ensures Valid()
      ensures var s := Tables.DeleteReservation(old(State()), id);
        State() == s.db && o == s.outcome
    {
      var k := Validation.ParseId(id);
      if k.None? {
        return InvalidId;
      }
      if k.value !in reservations {
        return Absent;
      }
      reservations := reservations - {k.value};
      o := Deleted;
      DeleteReservationPreservesInv(old(State()), id);
    }

    /** DELETE /api/user/delete?id=. */
    method DeleteUser(id: string) returns (o: DeleteOutcome)
      requires Valid()
      modifies this
      ensures Valid()
      ensures var s := Tables.DeleteUser(old(State()), id);
        State() == s.db && o == s.outcome
    {
      var k := Validation.ParseId(id);
      if k.None? {
        return InvalidId;
      }
      if k.value !in users {
        return Absent;
      }
      if exists r :: r in reservations && reservations[r].userID == k.value {
        return Referenced;
      }
      users := users - {k.value};
      o := Deleted;
      DeleteUserPreservesInv(old(State()), id);
    }

    /** DELETE /api/event/delete?id=. */
    method DeleteEvent(id: string) returns (o: DeleteOutcome)
      requires Valid()
      modifies this
      ensures Valid()
      ensures var s := Tables.DeleteEvent(old(State()), id);
        State() == s.db && o == s.outcome
    {
      var k := Validation.ParseId(id);
      if k.None? {
        return InvalidId;
      }
      if k.value !in events {
        return Absent;
      }
      var n := CountReservations(k.value);
      if n > 0 {
        return Referenced;
      }
      events := events - {k.value};
      o := Deleted;
      DeleteEventPreservesInv(old(State()), id);
    }
  }

  /** One above the largest id in `keys`, or 1 when there is none, found by one pass over the keys. */
  method NextRowIdOf(keys: set<int>) returns (id: int)
    ensures forall k :: k in keys ==> k < id
    ensures keys == {} ==> id == 1
    ensures keys != {} ==> id - 1 in keys
  {
    var todo := keys;
    ghost var seen: set<int> := {};
    var any, top := false, 0;
    while todo != {}
      invariant todo !! seen && todo + seen == keys
      invariant any <==> seen != {}
      invariant any ==> top in seen && forall k :: k in seen ==> k <= top
      decreases todo
    {
      HasElement(todo);
      var k :| k in todo;
      if !any || k > top {
        top := k;
      }
      any := true;
      todo := todo - {k};
      seen := seen + {k};
    }
    id := if any then top + 1 else 1;
  }
}
