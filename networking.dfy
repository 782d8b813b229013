/**
 * The TCP server: the registry of connected handlers, the text written to
 * each connection, and the handler that reads request lines and answers
 * them over the shared stores.
 */
module Networking {
  import opened Wrappers
  import opened JavaLang
  import opened Domain
  import opened Repository
  import opened Wire
  import opened Commands
  import opened UserServices
  import opened TripServices
  import opened CustomerServices
  import opened ReservationServices

  /** The lines written so far to each connection, by connection number. */
  type Outbox = map<int, seq<string>>

  predicate Distinct(xs: seq<int>) {
    forall i, j :: 0 <= i < j < |xs| ==> xs[i] != xs[j]
  }

  /** broadcastUpdate(message) on the output of every registered handler. */
  function Broadcast(outbox: Outbox, clients: seq<int>, message: string): Outbox {
    map k | k in outbox :: if k in clients then outbox[k] + [message] else outbox[k]
  }

  /** clients.remove(handler): the first occurrence goes, the rest keep their order. */
  function Without(clients: seq<int>, id: int): (r: seq<int>)
    ensures id in clients ==> |r| == |clients| - 1
    ensures id !in clients ==> r == clients
    ensures forall c :: c != id ==> (c in r <==> c in clients)
    ensures forall c :: c in r ==> c in clients
    ensures Distinct(clients) ==> Distinct(r) && id !in r
  {
    if clients == [] then []
    else if clients[0] == id then clients[1..]
    else
      var rest := Without(clients[1..], id);
      assert Distinct(clients) ==> clients[0] !in clients[1..] && Distinct(clients[1..]);
      [clients[0]] + rest
  }

  /**
   * One reply written to connection `self`, then the broadcast, if any, to
   * every registered handler: the sender sees its reply before the broadcast.
   */
  function Deliver(outbox: Outbox, clients: seq<int>, self: int, line: string, broadcast: Option<string>): (r: Outbox)
    requires self in outbox
    ensures r.Keys == outbox.Keys
    ensures broadcast.None? ==> r == outbox[self := outbox[self] + [line]]
    ensures broadcast.Some? && self in clients ==> r[self] == outbox[self] + [line, broadcast.value]
    ensures broadcast.Some? && self !in clients ==> r[self] == outbox[self] + [line]
    ensures broadcast.Some? ==> forall k :: k in outbox && k != self ==>
      r[k] == if k in clients then outbox[k] + [broadcast.value] else outbox[k]
  {
    var written := outbox[self := outbox[self] + [line]];
    if broadcast.Some? then Broadcast(written, clients, broadcast.value) else written
  }

  /** The stores and the connections' output. */
  datatype Session = Session(db: Db, outbox: Outbox)

  /**
   * The loop in run(): every request line is answered in turn until the input
   * ends or a command throws outside the IOException catch, which ends the loop.
   */
  function Serve(s: Session, clients: seq<int>, self: int, fp: DoubleText, lines: seq<string>): (r: Session)
    requires self in s.outbox
    ensures r.outbox.Keys == s.outbox.Keys
    decreases |lines|
  {
    if lines == [] then s
    else
      match Execute(s.db, fp, lines[0])
      case Crash(_) => s
      case Reply(db, line, broadcast) =>
        Serve(Session(db, Deliver(s.outbox, clients, self, line, broadcast)), clients, self, fp, lines[1..])
  }

  /** A session keeps every record under its own id and usernames unique. */
  lemma {:induction false} ServeKeepsWellformed(s: Session, clients: seq<int>, self: int, fp: DoubleText, lines: seq<string>)
    requires self in s.outbox && Wellformed(s.db)
    ensures Wellformed(Serve(s, clients, self, fp, lines).db)
    decreases |lines|
  {
    if lines != [] {
      ExecuteKeepsWellformed(s.db, fp, lines[0]);
      match Execute(s.db, fp, lines[0])
      case Crash(_) =>
      case Reply(db, line, broadcast) =>
        ServeKeepsWellformed(Session(db, Deliver(s.outbox, clients, self, line, broadcast)), clients, self, fp, lines[1..]);
    }
  }

  /** A known command with too few '#' fields ends the session: nothing after it is read or answered. */
  lemma ShortLineEndsSession(s: Session, clients: seq<int>, self: int, fp: DoubleText, line: string, rest: seq<string>)
    requires self in s.outbox
    requires var parts := Split(line, '#'); |parts| == 0 || |parts| < Arity(parts[0])
    ensures Serve(s, clients, self, fp, [line] + rest) == s
  {
    assert ([line] + rest)[0] == line;
  }

  /** An unknown command is answered UNKNOWN_COMMAND and the session goes on with the same stores. */
  lemma UnknownCommandAnswered(s: Session, clients: seq<int>, self: int, fp: DoubleText, line: string, rest: seq<string>)
    requires self in s.outbox
    requires var parts := Split(line, '#'); |parts| > 0 && !Known(parts[0])
    ensures Serve(s, clients, self, fp, [line] + rest) ==
      Serve(Session(s.db, s.outbox[self := s.outbox[self] + ["UNKNOWN_COMMAND"]]), clients, self, fp, rest)
  {
    assert ([line] + rest)[0] == line && ([line] + rest)[1..] == rest;
  }

  // ---------------------------------------------------------------------------
  // Server
  // ---------------------------------------------------------------------------

  /** The server's registry of handlers and the connections it has accepted. */
  class Server {
    /** The registered handlers, by connection number, in registration order. */
    var clients: seq<int>
    /** What has been written to each accepted connection. */
    var outbox: Outbox
    /** How many connections have been accepted; connection numbers are 0 .. accepted - 1. */
    var accepted: int

    ghost predicate Valid()
      reads this
    {
      0 <= accepted &&
      (forall k :: k in outbox <==> 0 <= k < accepted) &&
      Distinct(clients) &&
      (forall i :: 0 <= i < |clients| ==> 0 <= clients[i] < accepted)
    }

    /** The registry starts empty. */
    constructor()
      ensures Valid()
      ensures clients == [] && outbox == map[] && accepted == 0
    {
      clients := [];
      outbox := map[];
      accepted := 0;
    }

    /** One iteration of start(): the accepted connection's handler is registered before it runs. */
    method Accept() returns (id: int)
      requires Valid()
      modifies this
      ensures Valid()
      ensures id == old(accepted) && accepted == old(accepted) + 1
      ensures clients == old(clients) + [id]
      ensures outbox == old(outbox)[id := []]
    {
      id := accepted;
      accepted := accepted + 1;
      clients := clients + [id];
      outbox := outbox[id := []];
    }

    /** out.println(message) on connection `id`. */
    method Write(id: int, message: string)
      requires id in outbox
      modifies this
      ensures outbox == old(outbox)[id := old(outbox)[id] + [message]]
      ensures clients == old(clients) && accepted == old(accepted)
    {
      outbox := outbox[id := outbox[id] + [message]];
    }

    /** broadcastUpdate: the message once to every registered handler, the sender included. */
    method BroadcastUpdate(message: string)
      requires Valid()
      modifies this
      ensures clients == old(clients) && accepted == old(accepted)
      ensures Valid()
      ensures outbox == Broadcast(old(outbox), clients, message)
      ensures forall i :: 0 <= i < |clients| ==> outbox[clients[i]] == old(outbox)[clients[i]] + [message]
    {
      var targets := clients;
      for i := 0 to |targets|
        invariant clients == targets && accepted == old(accepted)
        invariant outbox == Broadcast(old(outbox), targets[..i], message)
      {
        assert targets[i] !in targets[..i];
        assert targets[..i + 1] == targets[..i] + [targets[i]];
        Write(targets[i], message);
      }
      assert targets[..|targets|] == targets;
    }

    /** removeClient: the handler leaves the registry, the others stay in order. */
    method RemoveClient(id: int)
      requires Valid()
      modifies this
      ensures clients == Without(old(clients), id)
      ensures id !in clients
      ensures outbox == old(outbox) && accepted == old(accepted)
      ensures Valid()
    {
      var rest := Without(clients, id);
      forall i | 0 <= i < |rest|
        ensures 0 <= rest[i] < accepted
      {
        assert rest[i] in clients;
      }
      clients := rest;
    }
  }

  // ---------------------------------------------------------------------------
  // ClientHandler
  // ---------------------------------------------------------------------------

  /** The handler of one connection over the shared services. */
  class ClientHandler {
    const id: int
    const server: Server
    const trips: TripService
    const users: UserService
    const customers: CustomerService
    const reservations: ReservationService
    /** Double.toString, Double.parseDouble and String.format("%.2f"). */
    const fp: DoubleText

    constructor(id: int, server: Server, trips: TripService, users: UserService,
                customers: CustomerService, reservations: ReservationService, fp: DoubleText)
      ensures this.id == id && this.server == server && this.trips == trips && this.users == users
      ensures this.customers == customers && this.reservations == reservations && this.fp == fp
    {
      this.id := id;
      this.server := server;
      this.trips := trips;
      this.users := users;
      this.customers := customers;
      this.reservations := reservations;
      this.fp := fp;
    }

    /** The four stores the services write. */
    function Stores(): Db
      reads trips.repo, users.repo, customers.repo, reservations.repo
    {
      Db(trips.repo.data, users.repo.data, customers.repo.data, reservations.repo.data)
    }

    ghost predicate Valid()
      reads server
    {
      server.Valid() && id in server.outbox
    }

    /** sendMessage / out.println on this handler's connection. */
    method SendMessage(message: string)
      requires Valid()
      modifies server
      ensures server.outbox == old(server.outbox)[id := old(server.outbox)[id] + [message]]
      ensures server.clients == old(server.clients) && server.accepted == old(server.accepted)
      ensures Valid()
    {
      server.Write(id, message);
    }

    /** Writes a reply and, when there is one, broadcasts the update. */
    method Answer(line: string, broadcast: Option<string>)
      requires Valid()
      modifies server
      ensures server.outbox == Deliver(old(server.outbox), server.clients, id, line, broadcast)
      ensures server.clients == old(server.clients) && server.accepted == old(server.accepted)
      ensures Valid()
    {
      SendMessage(line);
      if broadcast.Some? {
        server.BroadcastUpdate(broadcast.value);
      }
    }

    method HandleLogin(username: string, password: string)
      requires Valid()
      modifies server
      ensures server.outbox == Deliver(old(server.outbox), server.clients, id,
        if LoginValid(Stores().users, username, password) then "LOGIN_SUCCESS" else "LOGIN_FAILED", None)
      ensures server.clients == old(server.clients) && server.accepted == old(server.accepted)
      ensures Valid()
    {
      var valid := users.CheckLogin(username, password);
      SendMessage(if valid then "LOGIN_SUCCESS" else "LOGIN_FAILED");
    }

    /** Every trip record followed by ';', as the StringBuilder collects them. */
    method SendTrips()
      requires Valid()
      modifies server
      ensures server.outbox == Deliver(old(server.outbox), server.clients, id, TripsReply(fp, Stores().trips), None)
      ensures server.clients == old(server.clients) && server.accepted == old(server.accepted)
      ensures Valid()
    {
      var all := trips.FindAll();
      var sb := BuildTripList(all);
      SendMessage("TRIPS#" + sb);
    }

    /** Every user record followed by ';'. */
    method SendUsers()
      requires Valid()
      modifies server
      ensures server.outbox == Deliver(old(server.outbox), server.clients, id, UsersReply(Stores().users), None)
      ensures server.clients == old(server.clients) && server.accepted == old(server.accepted)
      ensures Valid()
    {
      var all := users.FindAll();
      var sb := BuildUserList(all);
      SendMessage("USERS#" + sb);
    }

    /** The StringBuilder loop of sendUsers. */
    method BuildUserList(list: seq<User>) returns (sb: string)
      ensures sb == RecordList(UserRecords(list))
    {
      var records := UserRecords(list);
      sb := "";
      for i := 0 to |list|
        invariant sb == RecordList(records[..i])
      {
        RecordListSnoc(records, i);
        sb := sb + FormatUser(list[i]) + ";";
      }
      assert records[..|list|] == records;
    }

    /** The StringBuilder loop shared by sendTrips and searchTrips. */
    method BuildTripList(list: seq<Trip>) returns (sb: string)
      ensures sb == RecordList(TripRecords(fp, list))
    {
      var records := TripRecords(fp, list);
      sb := "";
      for i := 0 to |list|
        invariant sb == RecordList(records[..i])
      {
        RecordListSnoc(records, i);
        sb := sb + FormatTrip(fp, list[i]) + ";";
      }
      assert records[..|list|] == records;
    }

    /** generateCustomerId: the scan over customerService.findAll(). */
    method GenerateCustomerId() returns (newId: int32)
      ensures newId == NewCustomerId(Stores().customers)
    {
      var all := customers.FindAll();
      newId := GenerateId(CustomerIds(all));
    }

    /** generateReservationId: the scan over reservationService.findByTripId(null). */
    method GenerateReservationId() returns (newId: int32)
      ensures newId == NewReservationId(Stores().reservations)
    {
      var all := reservations.FindByTripId(None);
      newId := GenerateId(ReservationIds(all));
    }

    /** The customer of a booking: found by exact name, or created and saved. */
    method FindOrCreateCustomer(customerName: string, phone: string) returns (customer: Customer)
      modifies customers.repo
      ensures customer == BookingCustomer(old(customers.repo.data), customerName, phone)
      ensures CustomerNamed(old(customers.repo.data), customerName).Some? ==> customers.repo.data == old(customers.repo.data)
      ensures CustomerNamed(old(customers.repo.data), customerName).None? ==>
        customers.repo.data == old(customers.repo.data)[customer.id := customer]
    {
      var found := customers.FindByCustomerName(customerName);
      if found.Some? {
        return found.value;
      }
      var newCustomerId := GenerateCustomerId();
      customer := Customer(newCustomerId, customerName, "", phone);
      var saved := customers.Save(Some(customer));
    }

    method MakeReservation(customerName: string, phone: string, tripIdText: string, ticketsText: string)
      requires Valid()
      modifies server, trips.repo, customers.repo, reservations.repo
      ensures var e := Commands.MakeReservation(old(Stores()), customerName, phone, tripIdText, ticketsText);
        Stores() == e.db && server.outbox == Deliver(old(server.outbox), server.clients, id, e.line, e.broadcast)
      ensures server.clients == old(server.clients) && server.accepted == old(server.accepted)
      ensures Valid()
    {
      var tripId := ParseInt(tripIdText);
      var tickets := ParseInt(ticketsText);
      if tripId.None? || tickets.None? {
        SendMessage("RESERVATION_FAILED#Invalid number format");
        return;
      }
      var trip := trips.FindById(tripId.value);
      if trip.None? || trip.value.availableSeats < tickets.value {
        SendMessage("RESERVATION_FAILED");
        return;
      }
      Book(customerName, phone, tripId.value, trip.value, tickets.value);
    }

    /** The customer and reservation writes of a booking. */
    method Record(customerName: string, phone: string, tripId: int32, tickets: int32)
      modifies customers.repo, reservations.repo
      ensures customers.repo.data == BookingCustomers(old(customers.repo.data), customerName, phone)
      ensures reservations.repo.data == BookingReservations(old(reservations.repo.data), tripId,
        BookingCustomer(old(customers.repo.data), customerName, phone).id, tickets)
    {
      var customer := FindOrCreateCustomer(customerName, phone);
      var reservationId := GenerateReservationId();
      var reservation := Reservation(reservationId, tripId, customer.id, tickets);
      var stored := reservations.Save(reservationId, Some(reservation));
    }

    /** The writes of makeReservation once the seat check has passed. */
    method Book(customerName: string, phone: string, tripId: int32, trip: Trip, tickets: int32)
      requires Valid()
      requires tripId in Stores().trips && Stores().trips[tripId] == trip && trip.availableSeats >= tickets
      modifies server, trips.repo, customers.repo, reservations.repo
      ensures var e := Reserve(old(Stores()), customerName, phone, tripId, tickets);
        Stores() == e.db && server.outbox == Deliver(old(server.outbox), server.clients, id, e.line, e.broadcast)
      ensures server.clients == old(server.clients) && server.accepted == old(server.accepted)
      ensures Valid()
    {
      Record(customerName, phone, tripId, tickets);
      var booked := trip.(availableSeats := Wrap32(trip.availableSeats as int - tickets as int));
      var outcome := trips.Update(booked.id, Some(booked));
      if outcome.Fail? {
        SendMessage("RESERVATION_FAILED#" + outcome.error);
        return;
      }
      Answer("RESERVATION_SUCCESS", Some("UPDATE_TRIPS"));
    }

    method HandleTripUpdate(op: Operation, data: string)
      requires Valid()
      modifies server, trips.repo
      ensures var e := TripCommand(old(Stores()), fp, op, data);
        Stores() == e.db && server.outbox == Deliver(old(server.outbox), server.clients, id, e.line, e.broadcast)
      ensures server.clients == old(server.clients) && server.accepted == old(server.accepted)
      ensures Valid()
    {
      var fields := Split(data, ',');
      if |fields| == 0 {
        SendMessage(FailedReply("TRIP", op, IndexOutOfBounds(0, 0)));
        return;
      }
      var tripId := ParseInt(fields[0]);
      if tripId.None? {
        SendMessage(FailedReply("TRIP", op, NumberFormat));
        return;
      }
      var outcome := Pass;
      match op {
        case Add =>
          var parsed := ParseTripFromString(fp, data);
          if parsed.Failure? {
            SendMessage(FailedReply("TRIP", op, parsed.error));
            return;
          }
          outcome := trips.Save(tripId.value, Some(parsed.value));
        case Update =>
          var parsed := ParseTripFromString(fp, data);
          if parsed.Failure? {
            SendMessage(FailedReply("TRIP", op, parsed.error));
            return;
          }
          if |fields| > 6 {
            var oldId := ParseInt(fields[6]);
            if oldId.None? {
              SendMessage(FailedReply("TRIP", op, NumberFormat));
              return;
            }
            if oldId.value != tripId.value {
              trips.Delete(oldId.value);
            }
          }
          outcome := trips.Update(tripId.value, Some(parsed.value));
        case Delete =>
          trips.Delete(tripId.value);
      }
      if outcome.Fail? {
        SendMessage(FailedReply("TRIP", op, IllegalArgument(outcome.error)));
        return;
      }
      Answer("TRIP_" + OperationName(op) + "_SUCCESS", Some("UPDATE_TRIPS"));
    }

    method HandleUserUpdate(op: Operation, data: string)
      requires Valid()
      modifies server, users.repo
      ensures var e := UserCommand(old(Stores()), op, data);
        Stores() == e.db && server.outbox == Deliver(old(server.outbox), server.clients, id, e.line, e.broadcast)
      ensures server.clients == old(server.clients) && server.accepted == old(server.accepted)
      ensures Valid()
    {
      var fields := Split(data, ',');
      if |fields| == 0 {
        SendMessage(FailedReply("USER", op, IndexOutOfBounds(0, 0)));
        return;
      }
      var userId := ParseInt(fields[0]);
      if userId.None? {
        SendMessage(FailedReply("USER", op, NumberFormat));
        return;
      }
      var outcome := Pass;
      match op {
        case Add =>
          var parsed := ParseUserFromString(data);
          if parsed.Failure? {
            SendMessage(FailedReply("USER", op, parsed.error));
            return;
          }
          outcome := users.Save(userId.value, Some(parsed.value));
        case Update =>
          var parsed := ParseUserFromString(data);
          if parsed.Failure? {
            SendMessage(FailedReply("USER", op, parsed.error));
            return;
          }
          if |fields| > 3 {
            var oldId := ParseInt(fields[3]);
            if oldId.None? {
              SendMessage(FailedReply("USER", op, NumberFormat));
              return;
            }
            if oldId.value != userId.value {
              users.Delete(oldId.value);
            }
          }
          outcome := users.Update(userId.value, Some(parsed.value));
        case Delete =>
          users.Delete(userId.value);
      }
      if outcome.Fail? {
        SendMessage(FailedReply("USER", op, IllegalArgument(outcome.error)));
        return;
      }
      Answer("USER_" + OperationName(op) + "_SUCCESS", Some("UPDATE_USERS"));
    }

    method SearchTrips(attraction: string, startTime: string, endTime: string)
      requires Valid()
      modifies server
      ensures server.outbox == Deliver(old(server.outbox), server.clients, id,
        SearchReply(fp, Stores().trips, attraction, startTime, endTime), None)
      ensures server.clients == old(server.clients) && server.accepted == old(server.accepted)
      ensures Valid()
    {
      var found: seq<Trip>;
      if startTime != "" && endTime != "" {
        found := trips.FindByAttractionAndTime(attraction, startTime, endTime);
      } else if attraction != "" {
        found := trips.FindAllByAttractionContaining(attraction);
      } else {
        found := trips.FindAll();
      }
      var sb := BuildTripList(found);
      SendMessage("SEARCH_RESULTS#" + sb);
    }

    /** One pass of the switch in run(); `crashed` when the line throws outside the handlers' catch blocks. */
    method Dispatch(request: string) returns (crashed: bool)
      requires Valid()
      modifies server, trips.repo, users.repo, customers.repo, reservations.repo
      ensures var e := Execute(old(Stores()), fp, request);
        && crashed == e.Crash?
        && (e.Crash? ==> Stores() == old(Stores()) && server.outbox == old(server.outbox))
        && (e.Reply? ==> Stores() == e.db && server.outbox == Deliver(old(server.outbox), server.clients, id, e.line, e.broadcast))
      ensures server.clients == old(server.clients) && server.accepted == old(server.accepted)
      ensures Valid()
    {
      var parts := Split(request, '#');
      if |parts| == 0 {
        return true;
      }
      var command := parts[0];
      crashed := false;
      if command == "LOGIN" {
        if |parts| < 3 {
          return true;
        }
        HandleLogin(parts[1], parts[2]);
      } else if command == "GET_TRIPS" {
        SendTrips();
      } else if command == "MAKE_RESERVATION" {
        if |parts| < 5 {
          return true;
        }
        MakeReservation(parts[1], parts[2], parts[3], parts[4]);
      } else if command == "ADD_USER" {
        if |parts| < 2 {
          return true;
        }
        HandleUserUpdate(Add, parts[1]);
      } else if command == "UPDATE_USER" {
        if |parts| < 2 {
          return true;
        }
        HandleUserUpdate(Update, parts[1]);
      } else if command == "DELETE_USER" {
        if |parts| < 2 {
          return true;
        }
        HandleUserUpdate(Delete, parts[1]);
      } else if command == "GET_USERS" {
        SendUsers();
      } else if command == "ADD_TRIP" {
        if |parts| < 2 {
          return true;
        }
        HandleTripUpdate(Add, parts[1]);
      } else if command == "UPDATE_TRIP" {
        if |parts| < 2 {
          return true;
        }
        HandleTripUpdate(Update, parts[1]);
      } else if command == "DELETE_TRIP" {
        if |parts| < 2 {
          return true;
        }
        HandleTripUpdate(Delete, parts[1]);
      } else if command == "SEARCH_TRIPS" {
        if |parts| < 2 {
          return true;
        }
        SearchTrips(parts[1], if |parts| > 2 then parts[2] else "", if |parts| > 3 then parts[3] else "");
      } else {
        SendMessage("UNKNOWN_COMMAND");
      }
    }

    /** closeConnection: the handler leaves the registry (the socket itself is not modelled). */
    method CloseConnection()
      requires Valid()
      modifies server
      ensures server.clients == Without(old(server.clients), id)
      ensures server.outbox == old(server.outbox) && server.accepted == old(server.accepted)
      ensures Valid()
    {
      server.RemoveClient(id);
    }

    /**
     * run(): answer the lines read from the connection until the input ends
     * or a line throws, then close the connection.
     */
    method Run(lines: seq<string>)
      requires Valid()
      modifies server, trips.repo, users.repo, customers.repo, reservations.repo
      ensures var s := Serve(Session(old(Stores()), old(server.outbox)), old(server.clients), id, fp, lines);
        Stores() == s.db && server.outbox == s.outbox
      ensures server.clients == Without(old(server.clients), id) && id !in server.clients
      ensures Valid()
    {
      var i := 0;
      var crashed := false;
      while i < |lines| && !crashed
        invariant 0 <= i <= |lines|
        invariant Valid() && server.clients == old(server.clients)
        invariant Serve(Session(old(Stores()), old(server.outbox)), server.clients, id, fp, lines) ==
          if crashed then Session(Stores(), server.outbox)
          else Serve(Session(Stores(), server.outbox), server.clients, id, fp, lines[i..])
        decreases |lines| - i
      {
        assert lines[i..][0] == lines[i] && lines[i..][1..] == lines[i + 1..];
        crashed := Dispatch(lines[i]);
        i := i + 1;
      }
      CloseConnection();
    }
  }
}
