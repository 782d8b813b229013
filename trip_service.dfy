/**
 * TripService: the offered trips. It rejects null trips and updates of ids
 * that are not stored, and passes the two search queries through unchanged.
 */
module TripServices {
  import opened Wrappers
  import opened JavaLang
  import opened Domain
  import opened Repository

  type Trips = map<int, Trip>

  /** Every trip is stored under its own id. */
  predicate KeysMatch(m: Trips) {
    forall k :: k in m ==> m[k].id == k
  }

  /** attractionName LIKE '%attraction%'. */
  predicate AttractionLike(t: Trip, attraction: string) {
    ContainsText(t.attractionName, attraction)
  }

  /** SUBSTRING(departureTime, 1, 5) BETWEEN startTime AND endTime. */
  predicate DepartsBetween(t: Trip, startTime: string, endTime: string) {
    LexLe(startTime, Prefix(t.departureTime, 5)) && LexLe(Prefix(t.departureTime, 5), endTime)
  }

  /** The query behind findByAttractionAndTime. */
  function TripsByAttractionAndTime(m: Trips, attraction: string, startTime: string, endTime: string): (r: seq<Trip>)
    ensures forall t :: t in r <==> t in ValuesOf(m) && AttractionLike(t, attraction) && DepartsBetween(t, startTime, endTime)
  {
    Filter(ValuesOf(m), t => AttractionLike(t, attraction) && DepartsBetween(t, startTime, endTime))
  }

  /** The query behind findAllByAttractionContaining. */
  function TripsByAttraction(m: Trips, attraction: string): (r: seq<Trip>)
    ensures forall t :: t in r <==> t in ValuesOf(m) && AttractionLike(t, attraction)
  {
    Filter(ValuesOf(m), t => AttractionLike(t, attraction))
  }

  /** save(id, trip): the new store, or the message of the IllegalArgumentException. */
  function Saved(m: Trips, id: int32, trip: Option<Trip>): (r: Result<Trips, string>)
    ensures trip.None? <==> r.Failure?
    ensures trip.None? ==> r.error == "Trip cannot be null"
    ensures trip.Some? ==> r.value == m[id := trip.value]
  {
    if trip.None? then Failure("Trip cannot be null") else Success(m[id := trip.value])
  }

  /** update(id, trip): the new store, or the message of the IllegalArgumentException. */
  function Updated(m: Trips, id: int32, trip: Option<Trip>): (r: Result<Trips, string>)
    ensures trip.None? ==> r == Failure("Trip cannot be null")
    ensures trip.Some? && id !in m ==> r == Failure("Trip not found with ID: " + IntToString(id))
    ensures r.Success? <==> trip.Some? && id in m
    ensures r.Success? ==> r.value == m[id := trip.value]
  {
    if trip.None? then Failure("Trip cannot be null")
    else if id !in m then Failure("Trip not found with ID: " + IntToString(id))
    else Success(m[id := trip.value])
  }

  /** TripService over its repository. */
  class TripService {
    const repo: MemoryRepository<Trip>

    constructor(repo: MemoryRepository<Trip>)
      ensures this.repo == repo
    {
      this.repo := repo;
    }

    method FindByAttractionAndTime(attraction: string, startTime: string, endTime: string) returns (trips: seq<Trip>)
      ensures trips == TripsByAttractionAndTime(repo.data, attraction, startTime, endTime)
    {
      trips := TripsByAttractionAndTime(repo.data, attraction, startTime, endTime);
    }

    method FindAllByAttractionContaining(partialAttraction: string) returns (trips: seq<Trip>)
      ensures trips == TripsByAttraction(repo.data, partialAttraction)
    {
      trips := TripsByAttraction(repo.data, partialAttraction);
    }

    method FindById(id: int32) returns (trip: Option<Trip>)
      ensures trip == repo.FindById(id)
    {
      trip := repo.FindById(id);
    }

    /** Copies the repository iterator into a list, counting the elements. */
    method FindAll() returns (trips: seq<Trip>)
      ensures trips == ValuesOf(repo.data)
    {
      var elements := repo.FindAll();
      trips := [];
      var count := 0;
      while count < |elements|
        invariant 0 <= count <= |elements|
        invariant trips == elements[..count]
      {
        assert elements[..count + 1] == elements[..count] + [elements[count]];
        trips := trips + [elements[count]];
        count := count + 1;
      }
      assert elements[..count] == elements;
    }

    method Save(id: int32, trip: Option<Trip>) returns (outcome: Outcome)
      modifies repo
      ensures Saved(old(repo.data), id, trip).Success? ==>
        outcome == Pass && repo.data == Saved(old(repo.data), id, trip).value
      ensures Saved(old(repo.data), id, trip).Failure? ==>
        outcome == Fail(Saved(old(repo.data), id, trip).error) && repo.data == old(repo.data)
    {
      if trip.None? {
        return Fail("Trip cannot be null");
      }
      repo.Save(id, trip.value);
      outcome := Pass;
    }

    method Update(id: int32, trip: Option<Trip>) returns (outcome: Outcome)
      modifies repo
      ensures Updated(old(repo.data), id, trip).Success? ==>
        outcome == Pass && repo.data == Updated(old(repo.data), id, trip).value
      ensures Updated(old(repo.data), id, trip).Failure? ==>
        outcome == Fail(Updated(old(repo.data), id, trip).error) && repo.data == old(repo.data)
    {
      if trip.None? {
        return Fail("Trip cannot be null");
      }
      var existing := FindById(id);
      if existing.None? {
        return Fail("Trip not found with ID: " + IntToString(id));
      }
      repo.Update(id, trip.value);
      outcome := Pass;
    }

    /** Deletes whether or not the id is present (a missing id is only logged). */
    method Delete(id: int32)
      modifies repo
      ensures repo.data == old(repo.data) - {id}
    {
      var existing := FindById(id);
      repo.Delete(id);
    }
  }
}
