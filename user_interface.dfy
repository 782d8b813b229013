/**
 * The agent's desktop window: the attraction filter that asks the server to
 * search, the reservation form and its checks, the colour of each listed
 * trip, and the reaction to the server's replies.
 */
module UserInterface {
  import opened Wrappers
  import opened JavaLang
  import opened Domain
  import opened Repository
  import opened Wire
  import opened ClientRecords
  import Commands

  /** filterAttractions: the search to send, or None when the attraction is blank and the filtered list is cleared. */
  function FilterAttractions(attractionText: string, startText: string, endText: string): (request: Option<string>)
    ensures request.None? <==> IsBlank(attractionText)
    ensures !IsBlank(attractionText) && (IsBlank(startText) || IsBlank(endText)) ==>
      request == Some("SEARCH_TRIPS#" + Trim(attractionText))
    ensures !IsBlank(attractionText) && !IsBlank(startText) && !IsBlank(endText) ==>
      request == Some("SEARCH_TRIPS#" + Trim(attractionText) + "#" + Trim(startText) + "#" + Trim(endText))
  {
    var attraction, startTime, endTime := Trim(attractionText), Trim(startText), Trim(endText);
    if attraction != [] && (startTime == [] || endTime == []) then Some("SEARCH_TRIPS#" + attraction)
    else if attraction != [] then Some("SEARCH_TRIPS#" + attraction + "#" + startTime + "#" + endTime)
    else None
  }

  /** The trimmed text of a field, when it fits one '#' field of a request. */
  predicate Sendable(text: string) {
    '#' !in Trim(text)
  }

  /** Splitting the joined fields of a request with three or more fields. */
  lemma SplitFields(fields: seq<string>)
    requires |fields| >= 2 && fields[|fields| - 1] != []
    requires forall i :: 0 <= i < |fields| ==> '#' !in fields[i]
    ensures Split(Join(fields, '#'), '#') == fields
  {
    SplitOfJoin(fields, '#');
  }

  /** A SEARCH_TRIPS line the server splits into `parts` runs its search over parts[1..3]. */
  lemma SearchRequestRead(db: Commands.Db, fp: DoubleText, request: string, parts: seq<string>)
    requires Split(request, '#') == parts && |parts| >= 2 && parts[0] == "SEARCH_TRIPS"
    ensures Commands.Execute(db, fp, request) ==
      Commands.Reply(db, Commands.SearchReply(fp, db.trips, parts[1],
        if |parts| > 2 then parts[2] else "", if |parts| > 3 then parts[3] else ""), None)
  {
  }

  /** The four fields of a time-bounded search. */
  lemma BoundedSearchFields(attraction: string, startTime: string, endTime: string)
    requires attraction != [] && startTime != [] && endTime != []
    requires '#' !in attraction && '#' !in startTime && '#' !in endTime
    ensures Split("SEARCH_TRIPS#" + attraction + "#" + startTime + "#" + endTime, '#') ==
      ["SEARCH_TRIPS", attraction, startTime, endTime]
  {
    var fields := ["SEARCH_TRIPS", attraction, startTime, endTime];
    JoinCons(startTime, [endTime], '#');
    JoinCons(attraction, [startTime, endTime], '#');
    JoinCons("SEARCH_TRIPS", [attraction, startTime, endTime], '#');
    assert fields == ["SEARCH_TRIPS"] + [attraction, startTime, endTime];
    assert Join(fields, '#') == "SEARCH_TRIPS#" + attraction + "#" + startTime + "#" + endTime;
    SplitFields(fields);
  }

  /** A search by attraction alone. */
  lemma AttractionSearchRead(db: Commands.Db, fp: DoubleText, attraction: string)
    requires attraction != [] && '#' !in attraction
    ensures Commands.Execute(db, fp, "SEARCH_TRIPS#" + attraction) ==
      Commands.Reply(db, Commands.SearchReply(fp, db.trips, attraction, "", ""), None)
  {
    SplitRequest("SEARCH_TRIPS", attraction);
    assert "SEARCH_TRIPS#" + attraction == "SEARCH_TRIPS" + "#" + attraction;
    SearchRequestRead(db, fp, "SEARCH_TRIPS#" + attraction, ["SEARCH_TRIPS", attraction]);
  }

  /** A search by attraction and time range. */
  lemma BoundedSearchRead(db: Commands.Db, fp: DoubleText, attraction: string, startTime: string, endTime: string)
    requires attraction != [] && startTime != [] && endTime != []
    requires '#' !in attraction && '#' !in startTime && '#' !in endTime
    ensures Commands.Execute(db, fp, "SEARCH_TRIPS#" + attraction + "#" + startTime + "#" + endTime) ==
      Commands.Reply(db, Commands.SearchReply(fp, db.trips, attraction, startTime, endTime), None)
  {
    var request := "SEARCH_TRIPS#" + attraction + "#" + startTime + "#" + endTime;
    BoundedSearchFields(attraction, startTime, endTime);
    SearchRequestRead(db, fp, request, ["SEARCH_TRIPS", attraction, startTime, endTime]);
  }

  /**
   * The search the filter sends is the server's search over the same
   * attraction and, when both are given, the same time range.
   */
  lemma FilterReachesServer(db: Commands.Db, fp: DoubleText, attractionText: string, startText: string, endText: string)
    requires !IsBlank(attractionText) && Sendable(attractionText) && Sendable(startText) && Sendable(endText)
    ensures var request := FilterAttractions(attractionText, startText, endText).value;
      var attraction := Trim(attractionText);
      var bounded := !IsBlank(startText) && !IsBlank(endText);
      Commands.Execute(db, fp, request) ==
        Commands.Reply(db, Commands.SearchReply(fp, db.trips, attraction,
          if bounded then Trim(startText) else "", if bounded then Trim(endText) else ""), None)
  {
    if IsBlank(startText) || IsBlank(endText) {
      AttractionSearchRead(db, fp, Trim(attractionText));
    } else {
      BoundedSearchRead(db, fp, Trim(attractionText), Trim(startText), Trim(endText));
    }
  }

  /**
   * handleMakeReservation: a trip must be selected, name and phone must not
   * be blank, and the (untrimmed) ticket text must be a positive number no
   * larger than the selected trip's seats.
   */
  function MakeReservation(selected: Option<Trip>, nameText: string, phoneText: string, ticketsText: string): (a: Action)
    ensures a.Send? <==>
      selected.Some? && !IsBlank(nameText) && !IsBlank(phoneText) && ParseInt(ticketsText).Some? &&
      0 < ParseInt(ticketsText).value <= selected.value.availableSeats
    ensures a.Send? ==> (a.line ==
      "MAKE_RESERVATION#" + Trim(nameText) + "#" + Trim(phoneText) + "#" +
      IntToString(selected.value.id) + "#" + IntToString(ParseInt(ticketsText).value))
    ensures !a.Send? ==> a.Warning?
  {
    if selected.None? then Warning("No trip selected!")
    else if IsBlank(nameText) then Warning("Please enter customer name")
    else if IsBlank(phoneText) then Warning("Please enter customer phone")
    else
      var tickets := ParseInt(ticketsText);
      if tickets.None? || tickets.value <= 0 then Warning("Please enter a valid number of tickets")
      else if tickets.value > selected.value.availableSeats then Warning("Not enough seats available")
      else
        Send("MAKE_RESERVATION#" + Trim(nameText) + "#" + Trim(phoneText) + "#" +
          IntToString(selected.value.id) + "#" + IntToString(tickets.value))
  }

  /** The reservation line is the five '#' fields the server reads as parts[0..4]. */
  lemma ReservationLineFields(name: string, phone: string, tripId: int32, tickets: int32)
    requires name != [] && phone != [] && '#' !in name && '#' !in phone
    ensures Split("MAKE_RESERVATION#" + name + "#" + phone + "#" + IntToString(tripId) + "#" + IntToString(tickets), '#') ==
      ["MAKE_RESERVATION", name, phone, IntToString(tripId), IntToString(tickets)]
  {
    var f3, f4 := IntToString(tripId), IntToString(tickets);
    var fields := ["MAKE_RESERVATION", name, phone, f3, f4];
    NumberTextPlain(tripId, '#');
    NumberTextPlain(tickets, '#');
    JoinCons(f3, [f4], '#');
    JoinCons(phone, [f3, f4], '#');
    JoinCons(name, [phone, f3, f4], '#');
    JoinCons("MAKE_RESERVATION", [name, phone, f3, f4], '#');
    assert fields == ["MAKE_RESERVATION"] + [name, phone, f3, f4];
    assert Join(fields, '#') == "MAKE_RESERVATION#" + name + "#" + phone + "#" + f3 + "#" + f4;
    SplitFields(fields);
  }

  /** A MAKE_RESERVATION line the server splits into `parts` books through makeReservation(parts[1..4]). */
  lemma ReservationRequestRead(db: Commands.Db, fp: DoubleText, request: string, parts: seq<string>)
    requires Split(request, '#') == parts && |parts| >= 5 && parts[0] == "MAKE_RESERVATION"
    ensures Commands.Execute(db, fp, request) == Commands.MakeReservation(db, parts[1], parts[2], parts[3], parts[4])
  {
  }

  /** A reservation the window sends books the selected trip for the trimmed name and phone and the typed tickets. */
  lemma ReservationReachesServer(db: Commands.Db, fp: DoubleText, selected: Option<Trip>, nameText: string, phoneText: string, ticketsText: string)
    requires MakeReservation(selected, nameText, phoneText, ticketsText).Send?
    requires Sendable(nameText) && Sendable(phoneText)
    ensures Commands.Execute(db, fp, MakeReservation(selected, nameText, phoneText, ticketsText).line) ==
      Commands.Reserve(db, Trim(nameText), Trim(phoneText), selected.value.id, ParseInt(ticketsText).value)
  {
    var name, phone, tripId, tickets := Trim(nameText), Trim(phoneText), selected.value.id, ParseInt(ticketsText).value;
    ReservationLineFields(name, phone, tripId, tickets);
    ReservationRequestRead(db, fp, MakeReservation(selected, nameText, phoneText, ticketsText).line,
      ["MAKE_RESERVATION", name, phone, IntToString(tripId), IntToString(tickets)]);
  }

  /** The colour of a listed trip. */
  datatype Colour = Red | Green | Black

  /** The cell factory's rule, over the ticket count last typed. */
  function CellColour(seats: int32, requestedTickets: int32): (c: Colour)
    ensures c == Red <==> seats == 0 || (requestedTickets > 0 && seats < requestedTickets)
    ensures c == Green <==> seats != 0 && requestedTickets > 0 && seats >= requestedTickets
    ensures c == Black <==> seats != 0 && requestedTickets <= 0
  {
    if seats == 0 then Red
    else if requestedTickets > 0 then (if seats < requestedTickets then Red else Green)
    else Black
  }

  /** A green trip can take the typed tickets; a trip that cannot is never green. */
  lemma GreenMeansBookable(seats: int32, requestedTickets: int32)
    ensures CellColour(seats, requestedTickets) == Green <==> 0 < requestedTickets <= seats
  {
  }

  /** What the window does with one line from the server. */
  datatype Reaction =
    | Request(line: string)
    | ShowTrips(trips: seq<Trip>, refresh: Option<string>)
    | ShowFiltered(trips: seq<Trip>)
    | Inform(text: string)
    | Report(text: string)
    | Ignore

  /**
   * The message listener: the first matching test, in the listener's order,
   * decides. A new trip list also re-runs the attraction filter over the
   * filter fields' current text: `refresh` is the search to send, or None
   * when the filtered list is cleared.
   */
  function React(fp: DoubleText, attractionText: string, startText: string, endText: string, message: string): (r: Reaction)
    ensures r.Request? <==> message == "UPDATE_TRIPS"
    ensures r.ShowTrips? ==> "TRIPS#" <= message && r.refresh == FilterAttractions(attractionText, startText, endText)
    ensures r.ShowFiltered? ==> "SEARCH_RESULTS#" <= message
    ensures r.Report? ==> "RESERVATION_FAILED" <= message
    ensures r.Inform? ==> message == "RESERVATION_SUCCESS"
  {
    if message == "UPDATE_TRIPS" then Request("GET_TRIPS")
    else if "TRIPS#" <= message then
      ShowTrips(ParseTrips(fp, message[|"TRIPS#"|..]), FilterAttractions(attractionText, startText, endText))
    else if "SEARCH_RESULTS#" <= message then ShowFiltered(ParseTrips(fp, message[|"SEARCH_RESULTS#"|..]))
    else if message == "RESERVATION_SUCCESS" then Inform("Reservation successful!")
    else if "RESERVATION_FAILED" <= message then
      Report("Reservation failed: " + Reason(message, DefaultReason))
    else Ignore
  }

  /** Any TRIPS# line is read as the trip list, and the filter is run again. */
  lemma ReactToTripsLine(fp: DoubleText, attractionText: string, startText: string, endText: string, data: string)
    ensures React(fp, attractionText, startText, endText, "TRIPS#" + data) ==
      ShowTrips(ParseTrips(fp, data), FilterAttractions(attractionText, startText, endText))
  {
    var message := "TRIPS#" + data;
    assert message[..6] == "TRIPS#";
    assert message[6..] == data;
    assert message != "UPDATE_TRIPS" by {
      assert message[0] == 'T';
    }
  }

  /**
   * The reply to GET_TRIPS shows every stored trip, as stored, when the text
   * survives the record format; the attraction filter is then re-sent, or
   * the filtered list cleared when the attraction is blank.
   */
  lemma ReactToTripsReply(fp: DoubleText, attractionText: string, startText: string, endText: string, trips: map<int, Trip>)
    requires forall k :: k in trips ==> TripTextSafe(fp, trips[k])
    ensures React(fp, attractionText, startText, endText, Commands.TripsReply(fp, trips)) ==
      ShowTrips(ValuesOf(trips), FilterAttractions(attractionText, startText, endText))
  {
    ReactToTripsLine(fp, attractionText, startText, endText, RecordList(TripRecords(fp, ValuesOf(trips))));
    ParseTripList(fp, ValuesOf(trips));
  }

  /** Any SEARCH_RESULTS# line is read as the filtered list. */
  lemma ReactToSearchResults(fp: DoubleText, attractionText: string, startText: string, endText: string, data: string)
    ensures React(fp, attractionText, startText, endText, "SEARCH_RESULTS#" + data) == ShowFiltered(ParseTrips(fp, data))
  {
    var head, tail := "SEARCH_", "RESULTS#";
    var message := head + tail + data;
    assert head + tail == "SEARCH_RESULTS#";
    assert message[..|head + tail|] == head + tail;
    assert message[|head + tail|..] == data;
    assert message != "UPDATE_TRIPS" && !("TRIPS#" <= message) by {
      assert message[0] == 'S';
    }
  }

  /** The text shown when a reservation failure carries no reason. */
  const DefaultReason := "Not enough seats available or invalid trip."

  /** The success reply is announced. */
  lemma ReactToSuccess(fp: DoubleText, attractionText: string, startText: string, endText: string)
    ensures React(fp, attractionText, startText, endText, "RESERVATION_SUCCESS") == Inform("Reservation successful!")
  {
    var message := "RESERVATION_SUCCESS";
    assert message[0] == 'R';
    assert !("TRIPS#" <= message) && !("SEARCH_RESULTS#" <= message);
  }

  /** Any line that starts with RESERVATION_FAILED is reported, with its reason. */
  lemma ReactToFailure(fp: DoubleText, attractionText: string, startText: string, endText: string, message: string)
    requires "RESERVATION_FAILED" <= message
    ensures React(fp, attractionText, startText, endText, message) == Report("Reservation failed: " + Reason(message, DefaultReason))
  {
    assert message[0] == 'R' && message[12] == 'F';
    assert message != "UPDATE_TRIPS" && message != "RESERVATION_SUCCESS";
    assert !("TRIPS#" <= message) && !("SEARCH_RESULTS#" <= message);
  }

  /** The bare refusal carries no reason, so the window shows its default one. */
  lemma BareFailureReason()
    ensures Reason("RESERVATION_FAILED", DefaultReason) == DefaultReason
  {
    var head, tail := "RESERVATION", "_FAILED";
    assert '#' !in head && '#' !in tail;
    assert head + tail == "RESERVATION_FAILED";
  }

  /**
   * How the window reads the server's answer to a reservation: a success
   * is announced, a refusal over a missing trip or too few seats shows the
   * default reason, and a failed trip update shows the server's message.
   */
  lemma ReactToReservation(db: Commands.Db, fp: DoubleText, attractionText: string, startText: string, endText: string, name: string, phone: string, tripId: int32, tickets: int32)
    ensures var e := Commands.Reserve(db, name, phone, tripId, tickets);
      && (e.broadcast.Some? ==> React(fp, attractionText, startText, endText, e.line) == Inform("Reservation successful!"))
      && (tripId !in db.trips || db.trips[tripId].availableSeats < tickets ==>
            React(fp, attractionText, startText, endText, e.line) == Report("Reservation failed: " + DefaultReason))
      && (e.broadcast.None? ==> React(fp, attractionText, startText, endText, e.line) == Report("Reservation failed: " + Reason(e.line, DefaultReason)))
  {
    var e := Commands.Reserve(db, name, phone, tripId, tickets);
    if e.broadcast.Some? {
      ReactToSuccess(fp, attractionText, startText, endText);
    } else {
      ReactToFailure(fp, attractionText, startText, endText, e.line);
      if e.line == "RESERVATION_FAILED" {
        BareFailureReason();
      }
    }
  }

  /** The agent window's record of the last ticket count typed, which the colour rule reads. */
  class UserInterfaceController {
    var requestedTickets: int32

    constructor()
      ensures requestedTickets == 0
    {
      requestedTickets := 0;
    }

    /** The listener on the tickets field: the typed number, or 0 when it does not parse. */
    method TicketsEdited(text: string)
      modifies this
      ensures requestedTickets == if ParseInt(text).Some? then ParseInt(text).value else 0
    {
      var parsed := ParseInt(text);
      requestedTickets := if parsed.Some? then parsed.value else 0;
    }

    /** The colour a listed trip gets under the current ticket count. */
    function TripColour(trip: Trip): (c: Colour)
      reads this
      ensures c == Green ==> 0 < requestedTickets <= trip.availableSeats
      ensures c == Red ==> trip.availableSeats == 0 || trip.availableSeats < requestedTickets
    {
      CellColour(trip.availableSeats, requestedTickets)
    }
  }
}
