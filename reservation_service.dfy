/**
 * ReservationService: the bookings. Null reservations are rejected; the
 * lookups pass the repository's answers through unchanged.
 */
module ReservationServices {
  import opened Wrappers
  import opened JavaLang
  import opened Domain
  import opened Repository

  type Reservations = map<int, Reservation>

  /** Every reservation is stored under its own id. */
  predicate KeysMatch(m: Reservations) {
    forall k :: k in m ==> m[k].id == k
  }

  /**
   * reservationRepository.findByTripId: the reservations of one trip. The
   * database adapter unboxes the id inside its try block, so a null id
   * yields the empty list rather than an exception.
   */
  function ReservationsOfTrip(m: Reservations, tripId: Option<int32>): (r: seq<Reservation>)
    ensures tripId.None? ==> r == []
    ensures tripId.Some? ==> forall x :: x in r <==> x in ValuesOf(m) && x.trip == tripId.value
  {
    if tripId.None? then [] else Filter(ValuesOf(m), (x: Reservation) => x.trip == tripId.value)
  }

  /** save(id, reservation): the new store, or the message of the IllegalArgumentException. */
  function Saved(m: Reservations, id: int32, reservation: Option<Reservation>): (r: Result<Reservations, string>)
    ensures reservation.None? <==> r.Failure?
    ensures reservation.None? ==> r.error == "Reservation cannot be null"
    ensures reservation.Some? ==> r.value == m[id := reservation.value]
  {
    if reservation.None? then Failure("Reservation cannot be null") else Success(m[id := reservation.value])
  }

  /** ReservationService over its repository. */
  class ReservationService {
    const repo: MemoryRepository<Reservation>

    constructor(repo: MemoryRepository<Reservation>)
      ensures this.repo == repo
    {
      this.repo := repo;
    }

    method FindByTripId(tripId: Option<int32>) returns (reservations: seq<Reservation>)
      ensures reservations == ReservationsOfTrip(repo.data, tripId)
    {
      reservations := ReservationsOfTrip(repo.data, tripId);
    }

    method FindById(id: Option<int32>) returns (reservation: Option<Reservation>)
      ensures id.None? ==> reservation.None?
      ensures id.Some? ==> reservation == repo.FindById(id.value)
    {
      if id.None? {
        return None;
      }
      reservation := repo.FindById(id.value);
    }

    method Save(id: int32, reservation: Option<Reservation>) returns (outcome: Outcome)
      modifies repo
      ensures Saved(old(repo.data), id, reservation).Success? ==>
        outcome == Pass && repo.data == Saved(old(repo.data), id, reservation).value
      ensures Saved(old(repo.data), id, reservation).Failure? ==>
        outcome == Fail(Saved(old(repo.data), id, reservation).error) && repo.data == old(repo.data)
    {
      if reservation.None? {
        return Fail("Reservation cannot be null");
      }
      repo.Save(id, reservation.value);
      outcome := Pass;
    }

    /** Deletes whether or not the id is present (a missing id is only logged). */
    method Delete(id: int32)
      modifies repo
      ensures repo.data == old(repo.data) - {id}
    {
      var existing := repo.FindById(id);
      repo.Delete(id);
    }
  }
}
