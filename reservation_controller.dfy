/**
 * The REST endpoints for reservations: create (seat check, find-or-create the
 * customer, save the reservation, take the seats), list by trip, and cancel,
 * the only operation that gives seats back.
 */
module ReservationApi {
  import opened Wrappers
  import opened JavaLang
  import opened Domain
  import opened Repository
  import opened TripServices
  import opened CustomerServices
  import opened ReservationServices

  /** The JSON body of a create request; a missing number is null. */
  datatype ReservationRequest = ReservationRequest(
    tripId: Option<int32>,
    customerName: string,
    customerPhone: string,
    tickets: Option<int32>)

  datatype ReservationDto = ReservationDto(
    id: int32,
    tripId: int32,
    customerId: int32,
    tickets: int32,
    customerName: string,
    tripName: string)

  /** The HTTP status and the body of a create request. */
  datatype ReservationResponse = ReservationResponse(
    status: int,
    success: bool,
    message: string,
    reservation: Option<ReservationDto>)

  /** The three stores the controller writes. */
  datatype Stores = Stores(
    trips: map<int, Trip>,
    customers: map<int, Customer>,
    reservations: map<int, Reservation>)

  datatype Created = Created(stores: Stores, response: ReservationResponse)

  /** The HTTP status and the "message" entry of the body, if there is a body. */
  datatype Cancelled = Cancelled(stores: Stores, status: int, message: Option<string>)

  /** generateCustomerId / generateReservationId: a clock reading in milliseconds modulo Integer.MAX_VALUE. */
  function ClockId(millis: nat): (id: int32)
    ensures 0 <= id < IntMax
    ensures (millis - id) % IntMax == 0
  {
    millis % IntMax
  }

  function Rejected(status: int, message: string): ReservationResponse {
    ReservationResponse(status, false, message, None)
  }

  /**
   * createReservation. The two clock readings give the new customer's id and
   * the reservation's id. A null ticket count fails when it is unboxed for the
   * seat comparison, which the catch-all turns into a 500.
   */
  function Create(st: Stores, request: ReservationRequest, customerMillis: nat, reservationMillis: nat): (c: Created)
    ensures request.tripId.None? || request.tripId.value !in st.trips ==>
      c == Created(st, Rejected(400, "Trip not found"))
    ensures request.tripId.Some? && request.tripId.value in st.trips && request.tickets.None? ==>
      c == Created(st, Rejected(500, "Failed to create reservation"))
    ensures request.tripId.Some? && request.tripId.value in st.trips && request.tickets.Some? ==>
      (st.trips[request.tripId.value].availableSeats < request.tickets.value ==>
         c == Created(st, Rejected(400, "Not enough seats available")))
    ensures c.response.success <==> c.response.status == 201
    ensures c.response.reservation.Some? <==> c.response.success
  {
    if request.tripId.None? || request.tripId.value !in st.trips then Created(st, Rejected(400, "Trip not found"))
    else if request.tickets.None? then Created(st, Rejected(500, "Failed to create reservation"))
    else
      var tripId, tickets := request.tripId.value, request.tickets.value;
      var trip := st.trips[tripId];
      if trip.availableSeats < tickets then Created(st, Rejected(400, "Not enough seats available"))
      else
        var found := CustomerNamed(st.customers, request.customerName);
        var customer := if found.Some? then found.value
          else Customer(ClockId(customerMillis), request.customerName, "", request.customerPhone);
        var customers := if found.Some? then st.customers else CustomerServices.Saved(st.customers, Some(customer)).value;
        var reservationId := ClockId(reservationMillis);
        var reservation := Reservation(reservationId, tripId, customer.id, tickets);
        var reservations := ReservationServices.Saved(st.reservations, reservationId, Some(reservation)).value;
        var booked := trip.(availableSeats := Wrap32(trip.availableSeats as int - tickets as int));
        var written := Stores(st.trips, customers, reservations);
        match TripServices.Updated(st.trips, booked.id, Some(booked))
        case Failure(_) => Created(written, Rejected(500, "Failed to create reservation"))
        case Success(trips) =>
          var dto := ReservationDto(reservationId, tripId, customer.id, tickets, customer.customerName, trip.attractionName);
          Created(written.(trips := trips), ReservationResponse(201, true, "Reservation created successfully", Some(dto)))
  }

  /** cancelReservation(id). */
  function Cancel(st: Stores, id: int32): (c: Cancelled)
    ensures id !in st.reservations ==> c == Cancelled(st, 404, None)
    ensures c.status == 200 ==> c.stores.reservations == st.reservations - {id as int} && c.stores.customers == st.customers
    ensures c.status != 200 ==> c.stores == st
  {
    if id !in st.reservations then Cancelled(st, 404, None)
    else
      var reservation := st.reservations[id];
      var cancelled := st.(reservations := st.reservations - {id as int});
      if reservation.trip in st.trips then
        var trip := st.trips[reservation.trip];
        var restored := trip.(availableSeats := Wrap32(trip.availableSeats as int + reservation.numberOfTickets as int));
        match TripServices.Updated(st.trips, trip.id, Some(restored))
        case Failure(_) => Cancelled(st, 500, Some("Error cancelling reservation"))
        case Success(trips) => Cancelled(cancelled.(trips := trips), 200, Some("Reservation cancelled successfully"))
      else
        Cancelled(cancelled, 200, Some("Reservation cancelled successfully"))
  }

  /** convertToDto: the names come from the stores, "Unknown" when the record is missing. */
  function ToDto(st: Stores, r: Reservation): (dto: ReservationDto)
    ensures dto.id == r.id && dto.tripId == r.trip && dto.customerId == r.customer && dto.tickets == r.numberOfTickets
    ensures r.customer in st.customers ==> dto.customerName == st.customers[r.customer].customerName
    ensures r.trip !in st.trips ==> dto.tripName == "Unknown"
    ensures r.trip in st.trips ==> dto.tripName == st.trips[r.trip].attractionName
  {
    ReservationDto(r.id, r.trip, r.customer, r.numberOfTickets,
      if r.customer in st.customers then st.customers[r.customer].customerName else "Unknown",
      if r.trip in st.trips then st.trips[r.trip].attractionName else "Unknown")
  }

  /** The stream of reservations mapped through convertToDto. */
  function ToDtos(st: Stores, rs: seq<Reservation>): (dtos: seq<ReservationDto>)
    ensures |dtos| == |rs|
    ensures forall i :: 0 <= i < |rs| ==> dtos[i] == ToDto(st, rs[i])
  {
    seq(|rs|, i requires 0 <= i < |rs| => ToDto(st, rs[i]))
  }

  lemma ToDtosSnoc(st: Stores, rs: seq<Reservation>, i: int, dto: ReservationDto)
    requires 0 <= i < |rs| && dto == ToDto(st, rs[i])
    ensures ToDtos(st, rs[..i + 1]) == ToDtos(st, rs[..i]) + [dto]
  {
  }

  /**
   * A create that passes the checks: 201 with the DTO, the reservation saved
   * under the clock id, the customer reused or created, the seats taken.
   */
  lemma CreateSucceeds(st: Stores, request: ReservationRequest, customerMillis: nat, reservationMillis: nat)
    requires TripServices.KeysMatch(st.trips)
    requires request.tripId.Some? && request.tickets.Some? && request.tripId.value in st.trips
    requires st.trips[request.tripId.value].availableSeats >= request.tickets.value
    ensures var c := Create(st, request, customerMillis, reservationMillis);
      var tripId, tickets := request.tripId.value, request.tickets.value;
      var trip := st.trips[tripId];
      var rid := ClockId(reservationMillis);
      && c.response.status == 201 && c.response.message == "Reservation created successfully"
      && c.response.reservation.Some?
      && c.response.reservation.value.id == rid && c.response.reservation.value.tripId == tripId
      && c.response.reservation.value.tickets == tickets
      && c.response.reservation.value.customerName == request.customerName
      && c.stores.reservations == st.reservations[rid := Reservation(rid, tripId, c.response.reservation.value.customerId, tickets)]
      && c.stores.trips == st.trips[tripId := trip.(availableSeats := Wrap32(trip.availableSeats as int - tickets as int))]
      && ((exists k :: k in st.customers && st.customers[k].customerName == request.customerName) ==>
            c.stores.customers == st.customers)
      && ((forall k :: k in st.customers ==> st.customers[k].customerName != request.customerName) ==>
            c.stores.customers == st.customers[ClockId(customerMillis) as int :=
              Customer(ClockId(customerMillis), request.customerName, "", request.customerPhone)])
  {
  }

  /** The seats a create takes are exactly the tickets, and never more than were available. */
  lemma CreateTakesSeats(st: Stores, request: ReservationRequest, customerMillis: nat, reservationMillis: nat)
    requires TripServices.KeysMatch(st.trips)
    requires request.tripId.Some? && request.tickets.Some? && request.tripId.value in st.trips
    requires st.trips[request.tripId.value].availableSeats >= request.tickets.value
    requires st.trips[request.tripId.value].availableSeats as int - request.tickets.value as int <= IntMax
    ensures var c := Create(st, request, customerMillis, reservationMillis);
      var tripId := request.tripId.value;
      && c.stores.trips[tripId].availableSeats as int == st.trips[tripId].availableSeats as int - request.tickets.value as int
      && c.stores.trips[tripId].availableSeats >= 0
  {
    CreateSucceeds(st, request, customerMillis, reservationMillis);
  }

  /** Cancelling gives the reservation's tickets back to its trip, with no upper bound, and deletes it. */
  lemma CancelRestoresSeats(st: Stores, id: int32)
    requires TripServices.KeysMatch(st.trips)
    requires id in st.reservations && st.reservations[id].trip in st.trips
    ensures var c := Cancel(st, id);
      var r := st.reservations[id];
      var trip := st.trips[r.trip];
      && c.status == 200 && c.message == Some("Reservation cancelled successfully")
      && c.stores.reservations == st.reservations - {id as int}
      && c.stores.trips == st.trips[r.trip := trip.(availableSeats := Wrap32(trip.availableSeats as int + r.numberOfTickets as int))]
      && (IntMin <= trip.availableSeats as int + r.numberOfTickets as int <= IntMax ==>
            c.stores.trips[r.trip].availableSeats as int == trip.availableSeats as int + r.numberOfTickets as int)
  {
  }

  /** Cancelling a reservation whose trip is gone still deletes it and changes no seats. */
  lemma CancelWithoutTrip(st: Stores, id: int32)
    requires id in st.reservations && st.reservations[id].trip !in st.trips
    ensures Cancel(st, id) == Cancelled(st.(reservations := st.reservations - {id as int}), 200, Some("Reservation cancelled successfully"))
  {
  }

  /**
   * Cancelling the reservation a create just made puts every trip back as it
   * was, even when the seat arithmetic wrapped around, and leaves the
   * reservations as before minus the id the clock gave.
   */
  lemma CancelUndoesCreate(st: Stores, request: ReservationRequest, customerMillis: nat, reservationMillis: nat)
    requires TripServices.KeysMatch(st.trips)
    requires Create(st, request, customerMillis, reservationMillis).response.success
    ensures var created := Create(st, request, customerMillis, reservationMillis);
      var c := Cancel(created.stores, ClockId(reservationMillis));
      && c.status == 200
      && c.stores.trips == st.trips
      && c.stores.reservations == st.reservations - {ClockId(reservationMillis) as int}
      && c.stores.customers == created.stores.customers
  {
    var tripId, tickets := request.tripId.value, request.tickets.value;
    CreateSucceeds(st, request, customerMillis, reservationMillis);
    var created := Create(st, request, customerMillis, reservationMillis);
    var trip := st.trips[tripId];
    var taken := trip.(availableSeats := Wrap32(trip.availableSeats as int - tickets as int));
    assert created.stores.trips == st.trips[tripId := taken];
    var rid := ClockId(reservationMillis);
    assert created.stores.reservations[rid].trip == tripId;
    assert TripServices.KeysMatch(created.stores.trips);
    CancelRestoresSeats(created.stores, rid);
    Wrap32SubAdd(trip.availableSeats, tickets);
    assert taken.(availableSeats := Wrap32(taken.availableSeats as int + tickets as int)) == trip;
    assert st.trips[tripId := trip] == st.trips;
    assert created.stores.reservations - {rid as int} == st.reservations - {rid as int};
  }

  /** The controller over the three services. */
  class ReservationController {
    const reservations: ReservationService
    const customers: CustomerService
    const trips: TripService

    constructor(reservations: ReservationService, customers: CustomerService, trips: TripService)
      ensures this.reservations == reservations && this.customers == customers && this.trips == trips
    {
      this.reservations := reservations;
      this.customers := customers;
      this.trips := trips;
    }

    function Current(): Stores
      reads trips.repo, customers.repo, reservations.repo
    {
      Stores(trips.repo.data, customers.repo.data, reservations.repo.data)
    }

    method CreateReservation(request: ReservationRequest, customerMillis: nat, reservationMillis: nat)
      returns (response: ReservationResponse)
      modifies trips.repo, customers.repo, reservations.repo
      ensures var c := Create(old(Current()), request, customerMillis, reservationMillis);
        response == c.response && Current() == c.stores
    {
      if request.tripId.None? {
        return Rejected(400, "Trip not found");
      }
      var trip := trips.FindById(request.tripId.value);
      if trip.None? {
        return Rejected(400, "Trip not found");
      }
      if request.tickets.None? {
        return Rejected(500, "Failed to create reservation");
      }
      var tripId, tickets := request.tripId.value, request.tickets.value;
      if trip.value.availableSeats < tickets {
        return Rejected(400, "Not enough seats available");
      }
      var customer := customers.FindByCustomerName(request.customerName);
      if customer.None? {
        var customerId := ClockId(customerMillis);
        customer := Some(Customer(customerId, request.customerName, "", request.customerPhone));
        var saved := customers.Save(customer);
      }
      var reservationId := ClockId(reservationMillis);
      var reservation := Reservation(reservationId, tripId, customer.value.id, tickets);
      var stored := reservations.Save(reservationId, Some(reservation));
      var booked := trip.value.(availableSeats := Wrap32(trip.value.availableSeats as int - tickets as int));
      var outcome := trips.Update(booked.id, Some(booked));
      if outcome.Fail? {
        return Rejected(500, "Failed to create reservation");
      }
      var dto := ReservationDto(reservationId, tripId, customer.value.id, tickets, customer.value.customerName, booked.attractionName);
      response := ReservationResponse(201, true, "Reservation created successfully", Some(dto));
    }

    method ConvertToDto(reservation: Reservation) returns (dto: ReservationDto)
      ensures dto == ToDto(Current(), reservation)
    {
      var customer := customers.FindById(reservation.customer);
      var trip := trips.FindById(reservation.trip);
      dto := ReservationDto(reservation.id, reservation.trip, reservation.customer, reservation.numberOfTickets,
        if customer.Some? then customer.value.customerName else "Unknown",
        if trip.Some? then trip.value.attractionName else "Unknown");
    }

    /** getReservationsByTrip: the trip's reservations, each converted. */
    method GetReservationsByTrip(tripId: int32) returns (dtos: seq<ReservationDto>)
      ensures dtos == ToDtos(Current(), ReservationsOfTrip(Current().reservations, Some(tripId)))
    {
      var found := reservations.FindByTripId(Some(tripId));
      ghost var st := Current();
      dtos := [];
      for i := 0 to |found|
        invariant Current() == st
        invariant dtos == ToDtos(st, found[..i])
      {
        var dto := ConvertToDto(found[i]);
        ToDtosSnoc(st, found, i, dto);
        dtos := dtos + [dto];
      }
      assert found[..|found|] == found;
    }

    method CancelReservation(id: int32) returns (status: int, message: Option<string>)
      modifies trips.repo, reservations.repo
      ensures var c := Cancel(old(Current()), id);
        status == c.status && message == c.message && Current() == c.stores
    {
      var reservation := reservations.FindById(Some(id));
      if reservation.None? {
        return 404, None;
      }
      var trip := trips.FindById(reservation.value.trip);
      if trip.Some? {
        var restored := trip.value.(availableSeats := Wrap32(trip.value.availableSeats as int + reservation.value.numberOfTickets as int));
        var outcome := trips.Update(restored.id, Some(restored));
        if outcome.Fail? {
          return 500, Some("Error cancelling reservation");
        }
      }
      reservations.Delete(id);
      status, message := 200, Some("Reservation cancelled successfully");
    }
  }
}
