/**
 * The owner's desktop window: it validates the user and trip forms, builds
 * the ADD/UPDATE/DELETE request lines the server dispatches, and reacts to
 * the server's replies and broadcasts.
 */
module OwnerRights {
  import opened Wrappers
  import opened JavaLang
  import opened Domain
  import opened Repository
  import opened Wire
  import opened ClientRecords
  import Commands
  import UserServices
  import TripServices
  import UserInterface

  /** The text of the user form's fields. */
  datatype UserForm = UserForm(id: string, username: string, password: string)

  /** The text of the trip form's fields. */
  datatype TripForm = TripForm(id: string, attraction: string, transport: string, departure: string, price: string, seats: string)

  /** validateUserFields: the first blank field, in form order, names the error. */
  function ValidateUserFields(form: UserForm): (error: Option<string>)
    ensures error.None? <==> !IsBlank(form.id) && !IsBlank(form.username) && !IsBlank(form.password)
    ensures IsBlank(form.id) ==> error == Some("User ID is required")
    ensures !IsBlank(form.id) && IsBlank(form.username) ==> error == Some("Username is required")
    ensures !IsBlank(form.id) && !IsBlank(form.username) && IsBlank(form.password) ==> error == Some("Password is required")
  {
    if IsBlank(form.id) then Some("User ID is required")
    else if IsBlank(form.username) then Some("Username is required")
    else if IsBlank(form.password) then Some("Password is required")
    else None
  }

  /** validateTripFields: the first blank field, in form order, names the error. */
  function ValidateTripFields(form: TripForm): (error: Option<string>)
    ensures error.None? <==>
      !IsBlank(form.id) && !IsBlank(form.attraction) && !IsBlank(form.transport) &&
      !IsBlank(form.departure) && !IsBlank(form.price) && !IsBlank(form.seats)
    ensures IsBlank(form.id) ==> error == Some("Trip ID is required")
    ensures !IsBlank(form.id) && IsBlank(form.attraction) ==> error == Some("Attraction name is required")
    ensures !IsBlank(form.id) && !IsBlank(form.attraction) && IsBlank(form.transport) ==>
      error == Some("Transport company is required")
    ensures (!IsBlank(form.id) && !IsBlank(form.attraction) && !IsBlank(form.transport) &&
      IsBlank(form.departure)) ==> error == Some("Departure time is required")
    ensures (!IsBlank(form.id) && !IsBlank(form.attraction) && !IsBlank(form.transport) &&
      !IsBlank(form.departure) && IsBlank(form.price)) ==> error == Some("Price is required")
    ensures (!IsBlank(form.id) && !IsBlank(form.attraction) && !IsBlank(form.transport) &&
      !IsBlank(form.departure) && !IsBlank(form.price) && IsBlank(form.seats)) ==>
      error == Some("Available seats is required")
  {
    if IsBlank(form.id) then Some("Trip ID is required")
    else if IsBlank(form.attraction) then Some("Attraction name is required")
    else if IsBlank(form.transport) then Some("Transport company is required")
    else if IsBlank(form.departure) then Some("Departure time is required")
    else if IsBlank(form.price) then Some("Price is required")
    else if IsBlank(form.seats) then Some("Available seats is required")
    else None
  }

  /** The user the form describes once its id parses (the id text is not trimmed). */
  function FormUser(form: UserForm): Option<User> {
    match ParseInt(form.id)
    case None => None
    case Some(id) => Some(User(id, form.username, form.password))
  }

  /** handleAddUser: "%d,%s,%s" is the server's own user record. */
  function AddUser(form: UserForm): (a: Action)
    ensures a.Send? <==> ValidateUserFields(form).None? && FormUser(form).Some?
    ensures a.Send? ==> a.line == "ADD_USER#" + FormatUser(FormUser(form).value)
    ensures ValidateUserFields(form).None? && FormUser(form).None? ==> a == Error("Invalid ID format for user")
  {
    if ValidateUserFields(form).Some? then Error(ValidateUserFields(form).value)
    else if FormUser(form).None? then Error("Invalid ID format for user")
    else Send("ADD_USER#" + FormatUser(FormUser(form).value))
  }

  /** The UPDATE_USER payload: the user's record, then the selected user's id only when the id was changed. */
  function UserUpdatePayload(user: User, previousId: int32): string {
    if previousId != user.id then FormatUser(user) + "," + IntToString(previousId) else FormatUser(user)
  }

  /** handleUpdateUser: validation first, then a selection is needed, then the id must parse. */
  function UpdateUser(form: UserForm, selected: Option<User>): (a: Action)
    ensures a.Send? <==> ValidateUserFields(form).None? && selected.Some? && FormUser(form).Some?
    ensures ValidateUserFields(form).None? && selected.None? ==> a == Warning("Please select a user to update")
    ensures a.Send? ==> a.line == "UPDATE_USER#" + UserUpdatePayload(FormUser(form).value, selected.value.id)
  {
    if ValidateUserFields(form).Some? then Error(ValidateUserFields(form).value)
    else if selected.None? then Warning("Please select a user to update")
    else if FormUser(form).None? then Error("Invalid ID format for user")
    else Send("UPDATE_USER#" + UserUpdatePayload(FormUser(form).value, selected.value.id))
  }

  /** handleDeleteUser: the selected user's id, else the typed id. */
  function DeleteUser(selected: Option<User>, idText: string): (a: Action)
    ensures selected.Some? ==> a == Send("DELETE_USER#" + IntToString(selected.value.id))
    ensures selected.None? && IsBlank(idText) ==> a == Warning("Please select a user or enter an ID")
    ensures selected.None? && !IsBlank(idText) ==>
      a == (if ParseInt(idText).Some? then Send("DELETE_USER#" + IntToString(ParseInt(idText).value)) else Error("Invalid ID format for user"))
  {
    if selected.Some? then Send("DELETE_USER#" + IntToString(selected.value.id))
    else if IsBlank(idText) then Warning("Please select a user or enter an ID")
    else if ParseInt(idText).None? then Error("Invalid ID format for user")
    else Send("DELETE_USER#" + IntToString(ParseInt(idText).value))
  }

  /** handleSearchUser: the trimmed name. */
  function SearchUser(nameText: string): (a: Action)
    ensures a.Send? <==> !IsBlank(nameText)
    ensures a.Send? ==> a.line == "SEARCH_USERS#" + Trim(nameText)
  {
    if IsBlank(nameText) then Warning("Please enter a username to search") else Send("SEARCH_USERS#" + Trim(nameText))
  }

  /** The listener on the username field: search while it holds text, otherwise ask for every user. */
  function UsernameEdited(text: string): (line: string)
    ensures IsBlank(text) <==> line == "GET_USERS"
  {
    if !IsBlank(text) then "SEARCH_USERS#" + text else "GET_USERS"
  }

  /** The price text a client writes with "%.2f". */
  function ClientText(fp: DoubleText): DoubleText {
    fp.(toText := fp.format2)
  }

  /** The trip the form describes once its id, price and seats parse. */
  function FormTrip(fp: DoubleText, form: TripForm): Option<Trip> {
    var id, price, seats := ParseInt(form.id), fp.parse(form.price), ParseInt(form.seats);
    if id.None? || price.None? || seats.None? then None
    else Some(Trip(id.value, form.attraction, form.transport, form.departure, price.value, seats.value))
  }

  /** handleAddTrip: "%d,%s,%s,%s,%.2f,%d" is the server's trip record with the price in two decimals. */
  function AddTrip(fp: DoubleText, form: TripForm): (a: Action)
    ensures a.Send? <==> ValidateTripFields(form).None? && FormTrip(fp, form).Some?
    ensures a.Send? ==> a.line == "ADD_TRIP#" + FormatTrip(ClientText(fp), FormTrip(fp, form).value)
    ensures ValidateTripFields(form).None? && FormTrip(fp, form).None? ==> a == Error("Invalid number format in fields")
  {
    if ValidateTripFields(form).Some? then Error(ValidateTripFields(form).value)
    else if FormTrip(fp, form).None? then Error("Invalid number format in fields")
    else Send("ADD_TRIP#" + FormatTrip(ClientText(fp), FormTrip(fp, form).value))
  }

  /** The UPDATE_TRIP payload: the trip's record, then the selected trip's id only when the id was changed. */
  function TripUpdatePayload(fp: DoubleText, trip: Trip, previousId: int32): string {
    var record := FormatTrip(ClientText(fp), trip);
    if previousId != trip.id then record + "," + IntToString(previousId) else record
  }

  /** handleUpdateTrip: validation first, then a selection is needed, then the numbers must parse. */
  function UpdateTrip(fp: DoubleText, form: TripForm, selected: Option<Trip>): (a: Action)
    ensures a.Send? <==> ValidateTripFields(form).None? && selected.Some? && FormTrip(fp, form).Some?
    ensures ValidateTripFields(form).None? && selected.None? ==> a == Warning("Please select a trip to update")
    ensures a.Send? ==> a.line == "UPDATE_TRIP#" + TripUpdatePayload(fp, FormTrip(fp, form).value, selected.value.id)
  {
    if ValidateTripFields(form).Some? then Error(ValidateTripFields(form).value)
    else if selected.None? then Warning("Please select a trip to update")
    else if FormTrip(fp, form).None? then Error("Invalid number format in fields")
    else Send("UPDATE_TRIP#" + TripUpdatePayload(fp, FormTrip(fp, form).value, selected.value.id))
  }

  /** handleDeleteTrip: the selected trip's id, else the typed id. */
  function DeleteTrip(selected: Option<Trip>, idText: string): (a: Action)
    ensures selected.Some? ==> a == Send("DELETE_TRIP#" + IntToString(selected.value.id))
    ensures selected.None? && IsBlank(idText) ==> a == Warning("Please select a trip or enter an ID")
    ensures selected.None? && !IsBlank(idText) ==>
      a == (if ParseInt(idText).Some? then Send("DELETE_TRIP#" + IntToString(ParseInt(idText).value)) else Error("Invalid ID format for trip"))
  {
    if selected.Some? then Send("DELETE_TRIP#" + IntToString(selected.value.id))
    else if IsBlank(idText) then Warning("Please select a trip or enter an ID")
    else if ParseInt(idText).None? then Error("Invalid ID format for trip")
    else Send("DELETE_TRIP#" + IntToString(ParseInt(idText).value))
  }

  /** handleSearchTrip: the trimmed attraction. */
  function SearchTrip(attractionText: string): (a: Action)
    ensures a.Send? <==> !IsBlank(attractionText)
    ensures a.Send? ==> a.line == "SEARCH_TRIPS#" + Trim(attractionText)
  {
    if IsBlank(attractionText) then Warning("Please enter an attraction name to search") else Send("SEARCH_TRIPS#" + Trim(attractionText))
  }

  /** The listener on the attraction field: search while it holds text, otherwise ask for every trip. */
  function AttractionEdited(text: string): (line: string)
    ensures IsBlank(text) <==> line == "GET_TRIPS"
  {
    if !IsBlank(text) then "SEARCH_TRIPS#" + text else "GET_TRIPS"
  }

  /** What the window does with one line from the server. */
  datatype Reaction =
    | Request(line: string)
    | ShowUsers(users: seq<User>)
    | ShowTrips(trips: seq<Trip>)
    | Inform(text: string)
    | Report(text: string)
    | Ignore

  /** The message listener: the first matching test, in the listener's order, decides. */
  function React(fp: DoubleText, message: string): (r: Reaction)
    ensures r.ShowUsers? ==> "USERS#" <= message
    ensures r.Report? ==> ContainsText(message, "FAILED") && !ContainsText(message, "SUCCESS")
    ensures r.Inform? ==> ContainsText(message, "SUCCESS")
  {
    if message == "UPDATE_USERS" then Request("GET_USERS")
    else if message == "UPDATE_TRIPS" then Request("GET_TRIPS")
    else if "USERS#" <= message then ShowUsers(ParseUsers(message[|"USERS#"|..]))
    else if "TRIPS#" <= message then ShowTrips(ParseTrips(fp, message[|"TRIPS#"|..]))
    else if "USER_" <= message && ContainsText(message, "SUCCESS") then Inform("User operation successful")
    else if "TRIP_" <= message && ContainsText(message, "SUCCESS") then Inform("Trip operation successful")
    else if "USER_" <= message && ContainsText(message, "FAILED") then
      Report("User operation failed: " + Reason(message, "Unknown error"))
    else if "TRIP_" <= message && ContainsText(message, "FAILED") then
      Report("Trip operation failed: " + Reason(message, "Unknown error"))
    else if "SEARCH_RESULTS#" <= message then ShowTrips(ParseTrips(fp, message[|"SEARCH_RESULTS#"|..]))
    else Ignore
  }

  // ---------------------------------------------------------------------------
  // The client's requests as the server reads them
  // ---------------------------------------------------------------------------

  /** Text that fits a field of a request line: no ',' ';' or '#'. */
  predicate Sendable(s: string) {
    FieldSafe(s) && '#' !in s
  }

  /** A user from the form whose record the server reads back field for field. */
  predicate SendableUser(u: User) {
    Sendable(u.username) && Sendable(u.password) && u.password != []
  }

  lemma {:induction false} JoinSnoc(xs: seq<string>, y: string, d: char)
    requires xs != []
    ensures Join(xs + [y], d) == Join(xs, d) + [d] + y
    decreases |xs|
  {
    if |xs| == 1 {
      assert (xs + [y])[1..] == [y];
    } else {
      assert (xs + [y])[1..] == xs[1..] + [y];
      JoinSnoc(xs[1..], y, d);
    }
  }

  /** The server splits the UPDATE_USER payload into the user's fields, plus the previous id when it changed. */
  lemma UserUpdateFields(user: User, previousId: int32)
    requires SendableUser(user)
    ensures Split(UserUpdatePayload(user, previousId), ',') ==
      [IntToString(user.id), user.username, user.password] + (if previousId != user.id then [IntToString(previousId)] else [])
  {
    var fields := [IntToString(user.id), user.username, user.password];
    UserRecordJoin(user);
    NumberTextPlain(user.id, ',');
    assert forall i :: 0 <= i < |fields| ==> ',' !in fields[i];
    if previousId != user.id {
      NumberTextPlain(previousId, ',');
      var moved := fields + [IntToString(previousId)];
      assert forall i :: 0 <= i < |moved| ==> ',' !in moved[i] by {
        assert forall i :: 0 <= i < |fields| ==> moved[i] == fields[i];
      }
      JoinSnoc(fields, IntToString(previousId), ',');
      SplitOfJoin(moved, ',');
    } else {
      SplitOfJoin(fields, ',');
    }
  }

  /** The server splits the UPDATE_TRIP payload into the trip's fields, plus the previous id when it changed. */
  lemma TripUpdateFields(fp: DoubleText, trip: Trip, previousId: int32)
    requires Sendable(trip.attractionName) && Sendable(trip.transportCompany) && Sendable(trip.departureTime)
    requires Sendable(fp.format2(trip.price))
    ensures Split(TripUpdatePayload(fp, trip, previousId), ',') ==
      TripFields(fp, trip) + (if previousId != trip.id then [IntToString(previousId)] else [])
  {
    var fields := TripFields(fp, trip);
    TripRecordJoin(ClientText(fp), trip);
    TripFieldsPlain(fp, trip);
    if previousId != trip.id {
      NumberTextPlain(previousId, ',');
      var moved := fields + [IntToString(previousId)];
      assert forall i :: 0 <= i < |moved| ==> ',' !in moved[i] by {
        assert forall i :: 0 <= i < |fields| ==> moved[i] == fields[i];
      }
      JoinSnoc(fields, IntToString(previousId), ',');
      SplitOfJoin(moved, ',');
    } else {
      SplitOfJoin(fields, ',');
    }
  }

  /** The six fields of the trip record the window writes, price with two decimals. */
  function TripFields(fp: DoubleText, trip: Trip): (fields: seq<string>)
    ensures |fields| == 6 && fields[0] == IntToString(trip.id) && fields[5] == IntToString(trip.availableSeats)
  {
    [IntToString(trip.id), trip.attractionName, trip.transportCompany, trip.departureTime, fp.format2(trip.price),
     IntToString(trip.availableSeats)]
  }

  /** No field of a sendable trip holds ','. */
  lemma TripFieldsPlain(fp: DoubleText, trip: Trip)
    requires Sendable(trip.attractionName) && Sendable(trip.transportCompany) && Sendable(trip.departureTime)
    requires Sendable(fp.format2(trip.price))
    ensures forall i :: 0 <= i < 6 ==> ',' !in TripFields(fp, trip)[i]
  {
    NumberTextPlain(trip.id, ',');
    NumberTextPlain(trip.availableSeats, ',');
  }

  /** A user request line reaches the server's handleUserUpdate with its payload. */
  lemma UserRequestDispatched(db: Commands.Db, fp: DoubleText, op: Commands.Operation, payload: string)
    requires '#' !in payload && payload != []
    ensures Commands.Execute(db, fp, UserCommandName(op) + "#" + payload) == Commands.UserCommand(db, op, payload)
  {
    var request := UserCommandName(op) + "#" + payload;
    SplitRequest(UserCommandName(op), payload);
    UserOperationRead(db, fp, op, request, [UserCommandName(op), payload]);
  }

  /** A trip request line reaches the server's handleTripUpdate with its payload. */
  lemma TripRequestDispatched(db: Commands.Db, fp: DoubleText, op: Commands.Operation, payload: string)
    requires '#' !in payload && payload != []
    ensures Commands.Execute(db, fp, TripCommandName(op) + "#" + payload) == Commands.TripCommand(db, fp, op, payload)
  {
    var request := TripCommandName(op) + "#" + payload;
    SplitRequest(TripCommandName(op), payload);
    TripOperationRead(db, fp, op, request, [TripCommandName(op), payload]);
  }

  /** A trip request line the server splits into `parts` reaches handleTripUpdate with parts[1]. */
  lemma TripOperationRead(db: Commands.Db, fp: DoubleText, op: Commands.Operation, request: string, parts: seq<string>)
    requires Split(request, '#') == parts && |parts| == 2 && parts[0] == TripCommandName(op)
    ensures Commands.Execute(db, fp, request) == Commands.TripCommand(db, fp, op, parts[1])
  {
    match op
    case Add => TripAddRead(db, fp, request, parts);
    case Update => TripUpdateRead(db, fp, request, parts);
    case Delete => TripDeleteRead(db, fp, request, parts);
  }

  lemma TripAddRead(db: Commands.Db, fp: DoubleText, request: string, parts: seq<string>)
    requires Split(request, '#') == parts && |parts| == 2 && parts[0] == "ADD_TRIP"
    ensures Commands.Execute(db, fp, request) == Commands.TripCommand(db, fp, Commands.Add, parts[1])
  {
  }

  lemma TripUpdateRead(db: Commands.Db, fp: DoubleText, request: string, parts: seq<string>)
    requires Split(request, '#') == parts && |parts| == 2 && parts[0] == "UPDATE_TRIP"
    ensures Commands.Execute(db, fp, request) == Commands.TripCommand(db, fp, Commands.Update, parts[1])
  {
  }

  lemma TripDeleteRead(db: Commands.Db, fp: DoubleText, request: string, parts: seq<string>)
    requires Split(request, '#') == parts && |parts| == 2 && parts[0] == "DELETE_TRIP"
    ensures Commands.Execute(db, fp, request) == Commands.TripCommand(db, fp, Commands.Delete, parts[1])
  {
  }

  /** A user request line the server splits into `parts` reaches handleUserUpdate with parts[1]. */
  lemma UserOperationRead(db: Commands.Db, fp: DoubleText, op: Commands.Operation, request: string, parts: seq<string>)
    requires Split(request, '#') == parts && |parts| == 2 && parts[0] == UserCommandName(op)
    ensures Commands.Execute(db, fp, request) == Commands.UserCommand(db, op, parts[1])
  {
    match op
    case Add => UserAddRead(db, fp, request, parts);
    case Update => UserUpdateRead(db, fp, request, parts);
    case Delete => UserDeleteRead(db, fp, request, parts);
  }

  lemma UserAddRead(db: Commands.Db, fp: DoubleText, request: string, parts: seq<string>)
    requires Split(request, '#') == parts && |parts| == 2 && parts[0] == "ADD_USER"
    ensures Commands.Execute(db, fp, request) == Commands.UserCommand(db, Commands.Add, parts[1])
  {
  }

  lemma UserUpdateRead(db: Commands.Db, fp: DoubleText, request: string, parts: seq<string>)
    requires Split(request, '#') == parts && |parts| == 2 && parts[0] == "UPDATE_USER"
    ensures Commands.Execute(db, fp, request) == Commands.UserCommand(db, Commands.Update, parts[1])
  {
  }

  lemma UserDeleteRead(db: Commands.Db, fp: DoubleText, request: string, parts: seq<string>)
    requires Split(request, '#') == parts && |parts| == 2 && parts[0] == "DELETE_USER"
    ensures Commands.Execute(db, fp, request) == Commands.UserCommand(db, Commands.Delete, parts[1])
  {
  }

  function UserCommandName(op: Commands.Operation): string {
    match op
    case Add => "ADD_USER"
    case Update => "UPDATE_USER"
    case Delete => "DELETE_USER"
  }

  function TripCommandName(op: Commands.Operation): string {
    match op
    case Add => "ADD_TRIP"
    case Update => "UPDATE_TRIP"
    case Delete => "DELETE_TRIP"
  }

  /** The ADD_USER the window sends makes the server save exactly the form's user under the form's id. */
  lemma AddUserReachesServer(db: Commands.Db, fp: DoubleText, form: UserForm)
    requires AddUser(form).Send? && SendableUser(FormUser(form).value)
    ensures var user := FormUser(form).value;
      Commands.Execute(db, fp, AddUser(form).line) ==
      Commands.UserWritten(db, Commands.Add, UserServices.Saved(db.users, user.id, Some(user)))
  {
    var user := FormUser(form).value;
    NumberTextPlain(user.id, '#');
    assert AddUser(form).line == UserCommandName(Commands.Add) + "#" + FormatUser(user);
    UserRequestDispatched(db, fp, Commands.Add, FormatUser(user));
    AddUserCommand(db, user);
  }

  /** handleUserUpdate("ADD", record) on a record of the form's user. */
  lemma AddUserCommand(db: Commands.Db, user: User)
    requires SendableUser(user)
    ensures Commands.UserCommand(db, Commands.Add, FormatUser(user)) ==
      Commands.UserWritten(db, Commands.Add, UserServices.Saved(db.users, user.id, Some(user)))
  {
    SplitUserRecord(user);
    ParseUserOfFormatUser(user);
  }

  /**
   * The UPDATE_USER the window sends: with the id unchanged the server
   * updates that user; with a new id it first deletes the selected user's
   * id, which is what the server's fields[3] check expects.
   */
  lemma UpdateUserReachesServer(db: Commands.Db, fp: DoubleText, form: UserForm, selected: Option<User>)
    requires UpdateUser(form, selected).Send? && SendableUser(FormUser(form).value)
    ensures var user, previousId := FormUser(form).value, selected.value.id;
      Commands.Execute(db, fp, UpdateUser(form, selected).line) ==
      if previousId != user.id then
        Commands.UserWritten(db.(users := db.users - {previousId as int}), Commands.Update,
          UserServices.Updated(db.users - {previousId as int}, user.id, Some(user)))
      else
        Commands.UserWritten(db, Commands.Update, UserServices.Updated(db.users, user.id, Some(user)))
  {
    var user, previousId := FormUser(form).value, selected.value.id;
    var payload := UserUpdatePayload(user, previousId);
    NumberTextPlain(user.id, '#');
    NumberTextPlain(previousId, '#');
    assert '#' !in payload;
    assert UpdateUser(form, selected).line == UserCommandName(Commands.Update) + "#" + payload;
    UserRequestDispatched(db, fp, Commands.Update, payload);
    UpdateUserCommand(db, user, previousId);
  }

  /** handleUserUpdate("UPDATE", payload) on the payload the window builds. */
  lemma UpdateUserCommand(db: Commands.Db, user: User, previousId: int32)
    requires SendableUser(user)
    ensures Commands.UserCommand(db, Commands.Update, UserUpdatePayload(user, previousId)) ==
      if previousId != user.id then
        Commands.UserWritten(db.(users := db.users - {previousId as int}), Commands.Update,
          UserServices.Updated(db.users - {previousId as int}, user.id, Some(user)))
      else
        Commands.UserWritten(db, Commands.Update, UserServices.Updated(db.users, user.id, Some(user)))
  {
    var payload := UserUpdatePayload(user, previousId);
    UserUpdateFields(user, previousId);
    assert ParseUserFromString(payload) == Success(user);
  }

  /** A trip the form describes whose text fields survive the request line, and whose "%.2f" price reads back unchanged. */
  predicate SendableTrip(fp: DoubleText, t: Trip) {
    Sendable(t.attractionName) && Sendable(t.transportCompany) && Sendable(t.departureTime) &&
    Sendable(fp.format2(t.price)) && fp.parse(fp.format2(t.price)) == Some(t.price)
  }

  /** The ADD_TRIP the window sends makes the server save exactly the form's trip under the form's id. */
  lemma AddTripReachesServer(db: Commands.Db, fp: DoubleText, form: TripForm)
    requires AddTrip(fp, form).Send? && SendableTrip(fp, FormTrip(fp, form).value)
    ensures var trip := FormTrip(fp, form).value;
      Commands.Execute(db, fp, AddTrip(fp, form).line) ==
      Commands.TripWritten(db, Commands.Add, TripServices.Saved(db.trips, trip.id, Some(trip)))
  {
    var trip := FormTrip(fp, form).value;
    var payload := FormatTrip(ClientText(fp), trip);
    NumberTextPlain(trip.id, '#');
    NumberTextPlain(trip.availableSeats, '#');
    assert '#' !in payload;
    assert AddTrip(fp, form).line == TripCommandName(Commands.Add) + "#" + payload;
    TripRequestDispatched(db, fp, Commands.Add, payload);
    AddTripCommand(db, fp, trip);
  }

  /** handleTripUpdate("ADD", record) on the record the window builds. */
  lemma AddTripCommand(db: Commands.Db, fp: DoubleText, trip: Trip)
    requires SendableTrip(fp, trip)
    ensures Commands.TripCommand(db, fp, Commands.Add, FormatTrip(ClientText(fp), trip)) ==
      Commands.TripWritten(db, Commands.Add, TripServices.Saved(db.trips, trip.id, Some(trip)))
  {
    var payload := FormatTrip(ClientText(fp), trip);
    TripUpdateFields(fp, trip, trip.id);
    assert TripUpdatePayload(fp, trip, trip.id) == payload;
    assert ParseTripFromString(fp, payload) == Success(trip);
  }

  /** The UPDATE_TRIP the window sends: the previous id travels as the 7th field exactly when the id changed. */
  lemma UpdateTripReachesServer(db: Commands.Db, fp: DoubleText, form: TripForm, selected: Option<Trip>)
    requires UpdateTrip(fp, form, selected).Send? && SendableTrip(fp, FormTrip(fp, form).value)
    ensures var trip, previousId := FormTrip(fp, form).value, selected.value.id;
      Commands.Execute(db, fp, UpdateTrip(fp, form, selected).line) ==
      if previousId != trip.id then
        Commands.TripWritten(db.(trips := db.trips - {previousId as int}), Commands.Update,
          TripServices.Updated(db.trips - {previousId as int}, trip.id, Some(trip)))
      else
        Commands.TripWritten(db, Commands.Update, TripServices.Updated(db.trips, trip.id, Some(trip)))
  {
    var trip, previousId := FormTrip(fp, form).value, selected.value.id;
    var payload := TripUpdatePayload(fp, trip, previousId);
    NumberTextPlain(trip.id, '#');
    NumberTextPlain(trip.availableSeats, '#');
    NumberTextPlain(previousId, '#');
    assert '#' !in payload;
    assert UpdateTrip(fp, form, selected).line == TripCommandName(Commands.Update) + "#" + payload;
    TripRequestDispatched(db, fp, Commands.Update, payload);
    UpdateTripCommand(db, fp, trip, previousId);
  }

  /** handleTripUpdate("UPDATE", payload) on the payload the window builds. */
  lemma UpdateTripCommand(db: Commands.Db, fp: DoubleText, trip: Trip, previousId: int32)
    requires SendableTrip(fp, trip)
    ensures Commands.TripCommand(db, fp, Commands.Update, TripUpdatePayload(fp, trip, previousId)) ==
      if previousId != trip.id then
        Commands.TripWritten(db.(trips := db.trips - {previousId as int}), Commands.Update,
          TripServices.Updated(db.trips - {previousId as int}, trip.id, Some(trip)))
      else
        Commands.TripWritten(db, Commands.Update, TripServices.Updated(db.trips, trip.id, Some(trip)))
  {
    var payload := TripUpdatePayload(fp, trip, previousId);
    TripUpdateFields(fp, trip, previousId);
    assert ParseTripFromString(fp, payload) == Success(trip);
  }

  /** The server has no SEARCH_USERS command: the owner's user search is answered UNKNOWN_COMMAND. */
  lemma SearchUsersUnknown(db: Commands.Db, fp: DoubleText, name: string)
    ensures Commands.Execute(db, fp, "SEARCH_USERS#" + name) == Commands.Reply(db, "UNKNOWN_COMMAND", None)
  {
    var command := "SEARCH_USERS";
    assert '#' !in command;
    assert "SEARCH_USERS#" + name == command + ['#'] + name;
    SplitHead(command, name, '#');
    UnknownRead(db, fp, "SEARCH_USERS#" + name, command);
  }

  /** Typing an attraction without '#' makes the server search for the text as typed, untrimmed. */
  lemma AttractionEditedSearches(db: Commands.Db, fp: DoubleText, text: string)
    requires !IsBlank(text) && '#' !in text
    ensures Commands.Execute(db, fp, AttractionEdited(text)) ==
      Commands.Reply(db, Commands.SearchReply(fp, db.trips, text, "", ""), None)
  {
    UserInterface.AttractionSearchRead(db, fp, text);
  }

  /** Clearing the username field lists every user; typing in it is answered UNKNOWN_COMMAND. */
  lemma UsernameEditedAnswered(db: Commands.Db, fp: DoubleText, text: string)
    ensures IsBlank(text) ==>
      Commands.Execute(db, fp, UsernameEdited(text)) == Commands.Reply(db, Commands.UsersReply(db.users), None)
    ensures !IsBlank(text) ==>
      Commands.Execute(db, fp, UsernameEdited(text)) == Commands.Reply(db, "UNKNOWN_COMMAND", None)
  {
    if IsBlank(text) {
      assert Split("GET_USERS", '#') == ["GET_USERS"];
    } else {
      SearchUsersUnknown(db, fp, text);
    }
  }

  /** A line whose first field the switch does not name is answered UNKNOWN_COMMAND. */
  lemma UnknownRead(db: Commands.Db, fp: DoubleText, request: string, command: string)
    requires |Split(request, '#')| >= 1 && Split(request, '#')[0] == command && !Commands.Known(command)
    ensures Commands.Execute(db, fp, request) == Commands.Reply(db, "UNKNOWN_COMMAND", None)
  {
  }

  // ---------------------------------------------------------------------------
  // The server's replies as the window reads them
  // ---------------------------------------------------------------------------

  /** Any USERS# line is read as a user list. */
  lemma ReactToUsersLine(fp: DoubleText, data: string)
    ensures React(fp, "USERS#" + data) == ShowUsers(ParseUsers(data))
  {
    var message := "USERS#" + data;
    assert message[..6] == "USERS#";
    assert message[6..] == data;
    assert message != "UPDATE_USERS" && message != "UPDATE_TRIPS" by {
      assert message[1] == 'S';
    }
  }

  /** Any TRIPS# line is read as a trip list. */
  lemma ReactToTripsLine(fp: DoubleText, data: string)
    ensures React(fp, "TRIPS#" + data) == ShowTrips(ParseTrips(fp, data))
  {
    var message := "TRIPS#" + data;
    assert message[..6] == "TRIPS#";
    assert message[6..] == data;
    assert message != "UPDATE_USERS" && message != "UPDATE_TRIPS" && !("USERS#" <= message) by {
      assert message[0] == 'T';
    }
  }

  /** The reply to GET_USERS shows every stored user, as stored, when the text survives the record format. */
  lemma ReactToUsersReply(fp: DoubleText, users: map<int, User>)
    requires forall k :: k in users ==> UserTextSafe(users[k])
    ensures React(fp, Commands.UsersReply(users)) == ShowUsers(ValuesOf(users))
  {
    ReactToUsersLine(fp, RecordList(UserRecords(ValuesOf(users))));
    ParseUserList(ValuesOf(users));
  }

  /** The reply to GET_TRIPS shows every stored trip, as stored, when the text survives the record format. */
  lemma ReactToTripsReply(fp: DoubleText, trips: map<int, Trip>)
    requires forall k :: k in trips ==> TripTextSafe(fp, trips[k])
    ensures React(fp, Commands.TripsReply(fp, trips)) == ShowTrips(ValuesOf(trips))
  {
    ReactToTripsLine(fp, RecordList(TripRecords(fp, ValuesOf(trips))));
    ParseTripList(fp, ValuesOf(trips));
  }

  /**
   * A failure reply whose text happens to contain "SUCCESS" is shown as a
   * success: the listener tests for "SUCCESS" anywhere in the line before it
   * tests for "FAILED".
   */
  lemma FailureReadAsSuccess(fp: DoubleText, reason: string)
    requires ContainsText(reason, "SUCCESS")
    ensures React(fp, "USER_ADD_FAILED#" + reason) == Inform("User operation successful")
  {
    var head, tag := "USER_", "ADD_FAILED#";
    var message := head + tag + reason;
    assert message == "USER_ADD_FAILED#" + reason;
    assert message[..5] == head;
    var i :| 0 <= i <= |reason| - 7 && OccursAt(reason, "SUCCESS", i);
    assert message[|head + tag| + i..|head + tag| + i + 7] == reason[i..i + 7];
    assert OccursAt(message, "SUCCESS", |head + tag| + i);
    ReactToUserSuccess(fp, message);
  }

  /** Any USER_ line that mentions SUCCESS is announced as a success. */
  lemma ReactToUserSuccess(fp: DoubleText, message: string)
    requires "USER_" <= message && ContainsText(message, "SUCCESS")
    ensures React(fp, message) == Inform("User operation successful")
  {
    assert message[0] == 'U' && message[1] == 'S' && message[4] == '_';
    assert message != "UPDATE_USERS" && message != "UPDATE_TRIPS";
    assert !("USERS#" <= message) && !("TRIPS#" <= message);
  }

  /** The two change notices ask for the changed list again. */
  lemma ReactToUpdateNotices(fp: DoubleText)
    ensures React(fp, "UPDATE_USERS") == Request("GET_USERS")
    ensures React(fp, "UPDATE_TRIPS") == Request("GET_TRIPS")
  {
  }

  /** Any TRIP_ line that mentions SUCCESS is announced as a success. */
  lemma ReactToTripSuccess(fp: DoubleText, message: string)
    requires "TRIP_" <= message && ContainsText(message, "SUCCESS")
    ensures React(fp, message) == Inform("Trip operation successful")
  {
    assert message[0] == 'T' && message[3] == 'P' && message[4] == '_';
    assert message != "UPDATE_USERS" && message != "UPDATE_TRIPS";
    assert !("USERS#" <= message) && !("TRIPS#" <= message) && !("USER_" <= message);
  }

  /** A USER_ line that mentions FAILED and not SUCCESS is reported with the text after its first '#'. */
  lemma ReactToUserFailure(fp: DoubleText, message: string)
    requires "USER_" <= message && ContainsText(message, "FAILED") && !ContainsText(message, "SUCCESS")
    ensures React(fp, message) == Report("User operation failed: " + Reason(message, "Unknown error"))
  {
    assert message[0] == 'U' && message[1] == 'S' && message[4] == '_';
    assert message != "UPDATE_USERS" && message != "UPDATE_TRIPS";
    assert !("USERS#" <= message) && !("TRIPS#" <= message) && !("TRIP_" <= message);
  }

  /** A TRIP_ line that mentions FAILED and not SUCCESS is reported with the text after its first '#'. */
  lemma ReactToTripFailure(fp: DoubleText, message: string)
    requires "TRIP_" <= message && ContainsText(message, "FAILED") && !ContainsText(message, "SUCCESS")
    ensures React(fp, message) == Report("Trip operation failed: " + Reason(message, "Unknown error"))
  {
    assert message[0] == 'T' && message[3] == 'P' && message[4] == '_';
    assert message != "UPDATE_USERS" && message != "UPDATE_TRIPS";
    assert !("USERS#" <= message) && !("TRIPS#" <= message) && !("USER_" <= message);
  }

  /** Any SEARCH_RESULTS# line is read as a trip list. */
  lemma ReactToSearchResults(fp: DoubleText, data: string)
    ensures React(fp, "SEARCH_RESULTS#" + data) == ShowTrips(ParseTrips(fp, data))
  {
    var head, tail := "SEARCH_", "RESULTS#";
    var message := head + tail + data;
    assert head + tail == "SEARCH_RESULTS#";
    assert message[..|head + tail|] == head + tail;
    assert message[|head + tail|..] == data;
    assert message != "UPDATE_USERS" && message != "UPDATE_TRIPS" && !("USERS#" <= message) by {
      assert message[0] == 'S' && message[1] == 'E';
    }
    assert !("TRIPS#" <= message) && !("USER_" <= message) && !("TRIP_" <= message);
  }
}
