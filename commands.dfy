/**
 * The TCP command processor as a function of the stores: one request line in,
 * the stores after it, one reply line and an optional broadcast out, or the
 * unchecked exception that ends the connection.
 */
module Commands {
  import opened Wrappers
  import opened JavaLang
  import opened Domain
  import opened Repository
  import opened Wire
  import UserServices
  import TripServices
  import CustomerServices
  import ReservationServices

  /** The four stores a command reads and writes. */
  datatype Db = Db(
    trips: map<int, Trip>,
    users: map<int, User>,
    customers: map<int, Customer>,
    reservations: map<int, Reservation>)

  /** The effect of one request line. */
  datatype Effect =
    | Crash(error: JavaError)
    | Reply(db: Db, line: string, broadcast: Option<string>)

  /** Every record stored under its own id, and usernames unique. */
  predicate Wellformed(db: Db) {
    TripServices.KeysMatch(db.trips) && UserServices.Consistent(db.users) &&
    CustomerServices.KeysMatch(db.customers) && ReservationServices.KeysMatch(db.reservations)
  }

  // ---------------------------------------------------------------------------
  // MAKE_RESERVATION
  // ---------------------------------------------------------------------------

  /** generateCustomerId over customerService.findAll(). */
  function NewCustomerId(customers: map<int, Customer>): int32 {
    NextId(CustomerIds(ValuesOf(customers)))
  }

  /** generateReservationId over reservationService.findByTripId(null). */
  function NewReservationId(reservations: map<int, Reservation>): int32 {
    NextId(ReservationIds(ReservationServices.ReservationsOfTrip(reservations, None)))
  }

  /** The customer a booking is for: the first with exactly that name, else a new one. */
  function BookingCustomer(customers: map<int, Customer>, name: string, phone: string): Customer {
    var found := CustomerServices.CustomerNamed(customers, name);
    if found.Some? then found.value else Customer(NewCustomerId(customers), name, "", phone)
  }

  /** The customers store after a booking: unchanged when the name is known, else with the new customer saved. */
  function BookingCustomers(customers: map<int, Customer>, name: string, phone: string): map<int, Customer> {
    if CustomerServices.CustomerNamed(customers, name).Some? then customers
    else CustomerServices.Saved(customers, Some(BookingCustomer(customers, name, phone))).value
  }

  /** The reservations store after a booking: the reservation saved under a newly generated id. */
  function BookingReservations(reservations: map<int, Reservation>, tripId: int32, customerId: int32, tickets: int32): map<int, Reservation> {
    var reservationId := NewReservationId(reservations);
    ReservationServices.Saved(reservations, reservationId, Some(Reservation(reservationId, tripId, customerId, tickets))).value
  }

  /** makeReservation once both numbers are parsed. */
  function Reserve(db: Db, customerName: string, phone: string, tripId: int32, tickets: int32): (e: Effect)
    ensures e.Reply?
    ensures tripId !in db.trips || db.trips[tripId].availableSeats < tickets ==>
      e == Reply(db, "RESERVATION_FAILED", None)
    ensures e.line == "RESERVATION_SUCCESS" <==> e.broadcast.Some?
    ensures e.broadcast.None? ==> "RESERVATION_FAILED" <= e.line
  {
    if tripId !in db.trips || db.trips[tripId].availableSeats < tickets then
      Reply(db, "RESERVATION_FAILED", None)
    else
      var trip := db.trips[tripId];
      var customer := BookingCustomer(db.customers, customerName, phone);
      var written := db.(
        customers := BookingCustomers(db.customers, customerName, phone),
        reservations := BookingReservations(db.reservations, tripId, customer.id, tickets));
      var booked := trip.(availableSeats := Wrap32(trip.availableSeats as int - tickets as int));
      match TripServices.Updated(db.trips, trip.id, Some(booked))
      case Failure(message) => Reply(written, "RESERVATION_FAILED#" + message, None)
      case Success(trips) => Reply(written.(trips := trips), "RESERVATION_SUCCESS", Some("UPDATE_TRIPS"))
  }

  /** makeReservation(customerName, phone, tripIdStr, ticketsStr). */
  function MakeReservation(db: Db, customerName: string, phone: string, tripIdText: string, ticketsText: string): (e: Effect)
    ensures e.Reply?
    ensures ParseInt(tripIdText).None? || ParseInt(ticketsText).None? ==>
      e == Reply(db, "RESERVATION_FAILED#Invalid number format", None)
  {
    var tripId := ParseInt(tripIdText);
    var tickets := ParseInt(ticketsText);
    if tripId.None? || tickets.None? then Reply(db, "RESERVATION_FAILED#Invalid number format", None)
    else Reserve(db, customerName, phone, tripId.value, tickets.value)
  }

  /** The reservation id over TCP is always 1: the scan of findByTripId(null) sees no reservation. */
  lemma ReservationIdIsOne(reservations: map<int, Reservation>)
    ensures NewReservationId(reservations) == 1
  {
  }

  /** A new customer's id is above every stored customer id unless one of them is Integer.MAX_VALUE. */
  lemma NewCustomerIdIsFresh(customers: map<int, Customer>)
    requires CustomerServices.KeysMatch(customers)
    requires forall k :: k in customers ==> customers[k].id < IntMax
    ensures NewCustomerId(customers) !in customers
    ensures NewCustomerId(customers) >= 1
  {
    var values := ValuesOf(customers);
    var ids := CustomerIds(values);
    ValuesOfMembers(customers);
    forall i | 0 <= i < |ids|
      ensures ids[i] < IntMax
    {
      assert values[i] in values;
    }
    assert LargestId(ids) < IntMax;
    forall k | k in customers
      ensures k != NewCustomerId(customers) as int
    {
      var i :| 0 <= i < |values| && values[i] == customers[k];
      assert ids[i] == k;
    }
  }

  /**
   * A reservation that passes the seat check: the reply, the broadcast, the
   * saved reservation, the customer reused or created, and the seats taken.
   */
  lemma ReserveSucceeds(db: Db, customerName: string, phone: string, tripId: int32, tickets: int32)
    requires Wellformed(db)
    requires tripId in db.trips && db.trips[tripId].availableSeats >= tickets
    ensures var e := Reserve(db, customerName, phone, tripId, tickets);
      var customer := BookingCustomer(db.customers, customerName, phone);
      var trip := db.trips[tripId];
      && e.line == "RESERVATION_SUCCESS" && e.broadcast == Some("UPDATE_TRIPS")
      && e.db.users == db.users
      && e.db.reservations == db.reservations[1 := Reservation(1, tripId, customer.id, tickets)]
      && e.db.trips == db.trips[tripId := trip.(availableSeats := Wrap32(trip.availableSeats as int - tickets as int))]
      && customer.customerName == customerName
      && ((exists k :: k in db.customers && db.customers[k].customerName == customerName) ==>
            e.db.customers == db.customers && customer in db.customers.Values)
      && ((forall k :: k in db.customers ==> db.customers[k].customerName != customerName) ==>
            customer == Customer(NewCustomerId(db.customers), customerName, "", phone) &&
            e.db.customers == db.customers[customer.id := customer])
  {
    ReservationIdIsOne(db.reservations);
    var found := CustomerServices.CustomerNamed(db.customers, customerName);
    if found.Some? {
      var k :| k in db.customers && db.customers[k] == found.value;
      assert db.customers[k] in db.customers.Values;
    }
  }

  /**
   * The seats left after a booking are the old count minus the tickets, and
   * not negative, unless the subtraction overflows (only possible with a
   * negative ticket count, which the server does not reject).
   */
  lemma ReserveTakesSeats(db: Db, customerName: string, phone: string, tripId: int32, tickets: int32)
    requires Wellformed(db)
    requires tripId in db.trips && db.trips[tripId].availableSeats >= tickets
    requires db.trips[tripId].availableSeats as int - tickets as int <= IntMax
    ensures var e := Reserve(db, customerName, phone, tripId, tickets);
      && tripId in e.db.trips
      && e.db.trips[tripId].availableSeats as int == db.trips[tripId].availableSeats as int - tickets as int
      && e.db.trips[tripId].availableSeats >= 0
      && forall k :: k in db.trips && k != tripId ==> k in e.db.trips && e.db.trips[k] == db.trips[k]
  {
    ReserveSucceeds(db, customerName, phone, tripId, tickets);
  }

  // ---------------------------------------------------------------------------
  // ADD/UPDATE/DELETE of trips and users
  // ---------------------------------------------------------------------------

  datatype Operation = Add | Update | Delete

  function OperationName(op: Operation): string {
    match op
    case Add => "ADD"
    case Update => "UPDATE"
    case Delete => "DELETE"
  }

  /** The reply of the catch blocks: NumberFormatException gets a fixed text, anything else its message. */
  function FailedReply(kind: string, op: Operation, error: JavaError): string {
    kind + "_" + OperationName(op) + "_FAILED#" +
    (if error.NumberFormat? then "Invalid number format" else Message(error))
  }

  /** The store write of a trip command, turned into its reply and broadcast. */
  function TripWritten(db: Db, op: Operation, trips: Result<map<int, Trip>, string>): Effect {
    match trips
    case Success(m) => Reply(db.(trips := m), "TRIP_" + OperationName(op) + "_SUCCESS", Some("UPDATE_TRIPS"))
    case Failure(message) => Reply(db, FailedReply("TRIP", op, IllegalArgument(message)), None)
  }

  /** handleTripUpdate(operation, tripData). */
  function TripCommand(db: Db, fp: DoubleText, op: Operation, data: string): (e: Effect)
    ensures e.Reply?
    ensures e.broadcast.Some? ==> e.broadcast == Some("UPDATE_TRIPS") && e.line == "TRIP_" + OperationName(op) + "_SUCCESS"
    ensures e.db.users == db.users && e.db.customers == db.customers && e.db.reservations == db.reservations
  {
    var fields := Split(data, ',');
    if |fields| == 0 then Reply(db, FailedReply("TRIP", op, IndexOutOfBounds(0, 0)), None)
    else
      var id := ParseInt(fields[0]);
      if id.None? then Reply(db, FailedReply("TRIP", op, NumberFormat), None)
      else
        match op
        case Add =>
          (match ParseTripFromString(fp, data)
           case Failure(error) => Reply(db, FailedReply("TRIP", op, error), None)
           case Success(trip) => TripWritten(db, op, TripServices.Saved(db.trips, id.value, Some(trip))))
        case Update =>
          (match ParseTripFromString(fp, data)
           case Failure(error) => Reply(db, FailedReply("TRIP", op, error), None)
           case Success(trip) =>
             if |fields| > 6 then
               var oldId := ParseInt(fields[6]);
               if oldId.None? then Reply(db, FailedReply("TRIP", op, NumberFormat), None)
               else
                 var trips := if oldId.value != id.value then db.trips - {oldId.value as int} else db.trips;
                 TripWritten(db.(trips := trips), op, TripServices.Updated(trips, id.value, Some(trip)))
             else
               TripWritten(db, op, TripServices.Updated(db.trips, id.value, Some(trip))))
        case Delete =>
          TripWritten(db, op, Success(db.trips - {id.value as int}))
  }

  /** The store write of a user command, turned into its reply and broadcast. */
  function UserWritten(db: Db, op: Operation, users: Result<map<int, User>, string>): Effect {
    match users
    case Success(m) => Reply(db.(users := m), "USER_" + OperationName(op) + "_SUCCESS", Some("UPDATE_USERS"))
    case Failure(message) => Reply(db, FailedReply("USER", op, IllegalArgument(message)), None)
  }

  /** handleUserUpdate(operation, userData). */
  function UserCommand(db: Db, op: Operation, data: string): (e: Effect)
    ensures e.Reply?
    ensures e.broadcast.Some? ==> e.broadcast == Some("UPDATE_USERS") && e.line == "USER_" + OperationName(op) + "_SUCCESS"
    ensures e.db.trips == db.trips && e.db.customers == db.customers && e.db.reservations == db.reservations
  {
    var fields := Split(data, ',');
    if |fields| == 0 then Reply(db, FailedReply("USER", op, IndexOutOfBounds(0, 0)), None)
    else
      var id := ParseInt(fields[0]);
      if id.None? then Reply(db, FailedReply("USER", op, NumberFormat), None)
      else
        match op
        case Add =>
          (match ParseUserFromString(data)
           case Failure(error) => Reply(db, FailedReply("USER", op, error), None)
           case Success(user) => UserWritten(db, op, UserServices.Saved(db.users, id.value, Some(user))))
        case Update =>
          (match ParseUserFromString(data)
           case Failure(error) => Reply(db, FailedReply("USER", op, error), None)
           case Success(user) =>
             if |fields| > 3 then
               var oldId := ParseInt(fields[3]);
               if oldId.None? then Reply(db, FailedReply("USER", op, NumberFormat), None)
               else
                 var users := if oldId.value != id.value then db.users - {oldId.value as int} else db.users;
                 UserWritten(db.(users := users), op, UserServices.Updated(users, id.value, Some(user)))
             else
               UserWritten(db, op, UserServices.Updated(db.users, id.value, Some(user))))
        case Delete =>
          UserWritten(db, op, Success(db.users - {id.value as int}))
  }

  lemma TripUpdateFailedText(message: string)
    ensures FailedReply("TRIP", Update, IllegalArgument(message)) == "TRIP_UPDATE_FAILED#" + message
  {
  }

  /** The store write an UPDATE_TRIP with a different 7th field makes. */
  lemma TripRenameWrites(db: Db, fp: DoubleText, data: string, trip: Trip, oldId: int32)
    requires ParseTripFromString(fp, data) == Success(trip)
    requires |Split(data, ',')| > 6 && ParseInt(Split(data, ',')[6]) == Some(oldId) && oldId != trip.id
    ensures TripCommand(db, fp, Update, data) ==
      TripWritten(db.(trips := db.trips - {oldId as int}), Update, TripServices.Updated(db.trips - {oldId as int}, trip.id, Some(trip)))
  {
    assert ParseInt(Split(data, ',')[0]) == Some(trip.id);
  }

  /**
   * UPDATE_TRIP with a 7th field naming another id: the old id is deleted
   * first, and stays deleted when the update of the new id is refused.
   */
  lemma TripRenameDeletesFirst(db: Db, fp: DoubleText, data: string, trip: Trip, oldId: int32)
    requires ParseTripFromString(fp, data) == Success(trip)
    requires |Split(data, ',')| > 6 && ParseInt(Split(data, ',')[6]) == Some(oldId) && oldId != trip.id
    ensures var e := TripCommand(db, fp, Update, data);
      var rest := db.trips - {oldId as int};
      && (trip.id in rest ==>
            e == Reply(db.(trips := rest[trip.id := trip]), "TRIP_UPDATE_SUCCESS", Some("UPDATE_TRIPS")))
      && (trip.id !in rest ==>
            e == Reply(db.(trips := rest), "TRIP_UPDATE_FAILED#" + TripServices.Updated(rest, trip.id, Some(trip)).error, None) &&
            TripServices.Updated(rest, trip.id, Some(trip)).error == "Trip not found with ID: " + IntToString(trip.id))
  {
    var rest := db.trips - {oldId as int};
    var after := TripServices.Updated(rest, trip.id, Some(trip));
    TripRenameWrites(db, fp, data, trip, oldId);
    if after.Success? {
      assert "TRIP_" + OperationName(Update) + "_SUCCESS" == "TRIP_UPDATE_SUCCESS";
    } else {
      TripUpdateFailedText(after.error);
    }
  }

  lemma UserUpdateFailedText(message: string)
    ensures FailedReply("USER", Update, IllegalArgument(message)) == "USER_UPDATE_FAILED#" + message
  {
  }

  /** The store write an UPDATE_USER with a different 4th field makes. */
  lemma UserRenameWrites(db: Db, data: string, user: User, oldId: int32)
    requires ParseUserFromString(data) == Success(user)
    requires |Split(data, ',')| > 3 && ParseInt(Split(data, ',')[3]) == Some(oldId) && oldId != user.id
    ensures UserCommand(db, Update, data) ==
      UserWritten(db.(users := db.users - {oldId as int}), Update, UserServices.Updated(db.users - {oldId as int}, user.id, Some(user)))
  {
    assert ParseInt(Split(data, ',')[0]) == Some(user.id);
  }

  /** The reply to a user update, on success and on refusal. */
  lemma UserUpdateWritten(db: Db, after: Result<map<int, User>, string>)
    ensures after.Success? ==>
      UserWritten(db, Update, after) == Reply(db.(users := after.value), "USER_UPDATE_SUCCESS", Some("UPDATE_USERS"))
    ensures after.Failure? ==>
      UserWritten(db, Update, after) == Reply(db, "USER_UPDATE_FAILED#" + after.error, None)
  {
    if after.Success? {
      assert "USER_" + OperationName(Update) + "_SUCCESS" == "USER_UPDATE_SUCCESS";
    } else {
      UserUpdateFailedText(after.error);
    }
  }

  /**
   * UPDATE_USER with a 4th field naming another id: the old id is deleted
   * first, and stays deleted when the update of the new id is refused.
   */
  lemma UserRenameDeletesFirst(db: Db, data: string, user: User, oldId: int32)
    requires ParseUserFromString(data) == Success(user)
    requires |Split(data, ',')| > 3 && ParseInt(Split(data, ',')[3]) == Some(oldId) && oldId != user.id
    ensures var e := UserCommand(db, Update, data);
      var rest := db.users - {oldId as int};
      var after := UserServices.Updated(rest, user.id, Some(user));
      && (after.Success? ==>
            e == Reply(db.(users := after.value), "USER_UPDATE_SUCCESS", Some("UPDATE_USERS")) &&
            after.value == rest[user.id := user])
      && (after.Failure? ==>
            e == Reply(db.(users := rest), "USER_UPDATE_FAILED#" + after.error, None))
  {
    var rest := db.users - {oldId as int};
    var after := UserServices.Updated(rest, user.id, Some(user));
    UserRenameWrites(db, data, user, oldId);
    UserUpdateWritten(db.(users := rest), after);
  }

  /** Trip commands store every trip under its own id. */
  lemma TripCommandKeepsKeys(db: Db, fp: DoubleText, op: Operation, data: string)
    requires TripServices.KeysMatch(db.trips)
    ensures TripServices.KeysMatch(TripCommand(db, fp, op, data).db.trips)
  {
    var fields := Split(data, ',');
    if |fields| > 0 && ParseInt(fields[0]).Some? && op != Delete {
      var parsed := ParseTripFromString(fp, data);
      if parsed.Success? {
        assert parsed.value.id == ParseInt(fields[0]).value;
      }
    }
  }

  /** User commands store every user under its own id and keep usernames unique. */
  lemma UserCommandKeepsConsistent(db: Db, op: Operation, data: string)
    requires UserServices.Consistent(db.users)
    ensures UserServices.Consistent(UserCommand(db, op, data).db.users)
  {
    var fields := Split(data, ',');
    if |fields| > 0 && ParseInt(fields[0]).Some? && op != Delete {
      var id := ParseInt(fields[0]).value;
      var parsed := ParseUserFromString(data);
      if parsed.Success? {
        var user := parsed.value;
        assert user.id == id;
        if op == Add {
          if UserServices.Saved(db.users, id, Some(user)).Success? {
            UserServices.SavedKeepsConsistent(db.users, user);
          }
        } else {
          var users := db.users;
          if |fields| > 3 && ParseInt(fields[3]).Some? && ParseInt(fields[3]).value != id {
            users := db.users - {ParseInt(fields[3]).value as int};
            UserServices.DeletedKeepsConsistent(db.users, ParseInt(fields[3]).value as int);
          }
          if UserServices.Updated(users, id, Some(user)).Success? {
            UserServices.UpdatedKeepsConsistent(users, user);
          }
        }
      }
    }
  }

  /** A booking stores every record under its own id. */
  lemma ReserveKeepsWellformed(db: Db, customerName: string, phone: string, tripId: int32, tickets: int32)
    requires Wellformed(db)
    ensures Wellformed(Reserve(db, customerName, phone, tripId, tickets).db)
  {
    if tripId in db.trips && db.trips[tripId].availableSeats >= tickets {
      ReserveSucceeds(db, customerName, phone, tripId, tickets);
    }
  }

  // ---------------------------------------------------------------------------
  // SEARCH_TRIPS and the record lists
  // ---------------------------------------------------------------------------

  /** The trips searchTrips lists: time range, else attraction substring, else all. */
  function SearchedTrips(trips: map<int, Trip>, attraction: string, startTime: string, endTime: string): (r: seq<Trip>)
    ensures startTime != "" && endTime != "" ==>
      forall t :: t in r <==>
        t in trips.Values && TripServices.AttractionLike(t, attraction) && TripServices.DepartsBetween(t, startTime, endTime)
    ensures (startTime == "" || endTime == "") && attraction != "" ==>
      forall t :: t in r <==> t in trips.Values && TripServices.AttractionLike(t, attraction)
    ensures (startTime == "" || endTime == "") && attraction == "" ==> r == ValuesOf(trips)
  {
    ValuesOfMembers(trips);
    if startTime != "" && endTime != "" then TripServices.TripsByAttractionAndTime(trips, attraction, startTime, endTime)
    else if attraction != "" then TripServices.TripsByAttraction(trips, attraction)
    else ValuesOf(trips)
  }

  /** The reply to GET_TRIPS. */
  function TripsReply(fp: DoubleText, trips: map<int, Trip>): string {
    "TRIPS#" + RecordList(TripRecords(fp, ValuesOf(trips)))
  }

  /** The reply to GET_USERS. */
  function UsersReply(users: map<int, User>): string {
    "USERS#" + RecordList(UserRecords(ValuesOf(users)))
  }

  /** The reply to SEARCH_TRIPS. */
  function SearchReply(fp: DoubleText, trips: map<int, Trip>, attraction: string, startTime: string, endTime: string): string {
    "SEARCH_RESULTS#" + RecordList(TripRecords(fp, SearchedTrips(trips, attraction, startTime, endTime)))
  }

  // ---------------------------------------------------------------------------
  // The dispatch of one request line
  // ---------------------------------------------------------------------------

  /** How many '#' fields each command reads; unknown commands read only the first. */
  function Arity(command: string): nat {
    if command == "LOGIN" then 3
    else if command == "MAKE_RESERVATION" then 5
    else if command in {"ADD_USER", "UPDATE_USER", "DELETE_USER", "ADD_TRIP", "UPDATE_TRIP", "DELETE_TRIP", "SEARCH_TRIPS"} then 2
    else 1
  }

  /** The commands the switch names. */
  predicate Known(command: string) {
    command in {"LOGIN", "GET_TRIPS", "MAKE_RESERVATION", "ADD_USER", "UPDATE_USER", "DELETE_USER",
                "GET_USERS", "ADD_TRIP", "UPDATE_TRIP", "DELETE_TRIP", "SEARCH_TRIPS"}
  }

  /** Commands that only read the stores. */
  predicate ReadOnly(command: string) {
    !Known(command) || command in {"LOGIN", "GET_TRIPS", "GET_USERS", "SEARCH_TRIPS"}
  }

  /** The switch in run() for one request line. */
  function Execute(db: Db, fp: DoubleText, request: string): (e: Effect)
    ensures var parts := Split(request, '#');
      e.Crash? <==> |parts| == 0 || |parts| < Arity(parts[0])
    ensures var parts := Split(request, '#');
      e.Reply? && !Known(parts[0]) ==> e == Reply(db, "UNKNOWN_COMMAND", None)
    ensures var parts := Split(request, '#');
      e.Reply? && ReadOnly(parts[0]) ==> e.db == db && e.broadcast == None
    ensures e.Reply? && e.broadcast.Some? ==> e.broadcast.value in {"UPDATE_TRIPS", "UPDATE_USERS"}
  {
    var parts := Split(request, '#');
    if |parts| == 0 then Crash(IndexOutOfBounds(0, 0))
    else
      var command := parts[0];
      var missing := IndexOutOfBounds(|parts|, |parts|);
      if command == "LOGIN" then
        if |parts| < 3 then Crash(missing)
        else Reply(db, if UserServices.LoginValid(db.users, parts[1], parts[2]) then "LOGIN_SUCCESS" else "LOGIN_FAILED", None)
      else if command == "GET_TRIPS" then Reply(db, TripsReply(fp, db.trips), None)
      else if command == "MAKE_RESERVATION" then
        if |parts| < 5 then Crash(missing)
        else MakeReservation(db, parts[1], parts[2], parts[3], parts[4])
      else if command == "ADD_USER" then
        if |parts| < 2 then Crash(missing) else UserCommand(db, Add, parts[1])
      else if command == "UPDATE_USER" then
        if |parts| < 2 then Crash(missing) else UserCommand(db, Update, parts[1])
      else if command == "DELETE_USER" then
        if |parts| < 2 then Crash(missing) else UserCommand(db, Delete, parts[1])
      else if command == "GET_USERS" then Reply(db, UsersReply(db.users), None)
      else if command == "ADD_TRIP" then
        if |parts| < 2 then Crash(missing) else TripCommand(db, fp, Add, parts[1])
      else if command == "UPDATE_TRIP" then
        if |parts| < 2 then Crash(missing) else TripCommand(db, fp, Update, parts[1])
      else if command == "DELETE_TRIP" then
        if |parts| < 2 then Crash(missing) else TripCommand(db, fp, Delete, parts[1])
      else if command == "SEARCH_TRIPS" then
        if |parts| < 2 then Crash(missing)
        else Reply(db, SearchReply(fp, db.trips, parts[1], if |parts| > 2 then parts[2] else "", if |parts| > 3 then parts[3] else ""), None)
      else Reply(db, "UNKNOWN_COMMAND", None)
  }

  /** Every command keeps every record under its own id and usernames unique. */
  lemma ExecuteKeepsWellformed(db: Db, fp: DoubleText, request: string)
    requires Wellformed(db)
    ensures Execute(db, fp, request).Reply? ==> Wellformed(Execute(db, fp, request).db)
  {
    var parts := Split(request, '#');
    if |parts| > 0 && |parts| >= Arity(parts[0]) {
      var command := parts[0];
      if command == "MAKE_RESERVATION" {
        var tripId, tickets := ParseInt(parts[3]), ParseInt(parts[4]);
        if tripId.Some? && tickets.Some? {
          ReserveKeepsWellformed(db, parts[1], parts[2], tripId.value, tickets.value);
        }
      } else if command in {"ADD_USER", "UPDATE_USER", "DELETE_USER"} {
        var op := if command == "ADD_USER" then Add else if command == "UPDATE_USER" then Update else Delete;
        UserCommandKeepsConsistent(db, op, parts[1]);
      } else if command in {"ADD_TRIP", "UPDATE_TRIP", "DELETE_TRIP"} {
        var op := if command == "ADD_TRIP" then Add else if command == "UPDATE_TRIP" then Update else Delete;
        TripCommandKeepsKeys(db, fp, op, parts[1]);
      }
    }
  }
}
