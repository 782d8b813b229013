/**
 * How the desktop clients read the server's record lists back into users and
 * trips: split on ';', skip empty records, split each on ',', and drop any
 * record that is short or whose numbers do not parse.
 */
module ClientRecords {
  import opened Wrappers
  import opened JavaLang
  import opened Domain
  import opened Wire

  /** What a button does in either window: send a request line, or show a warning or an error and send nothing. */
  datatype Action = Send(line: string) | Warning(text: string) | Error(text: string)

  /**
   * One user record as parseUsersFromString reads it. The client accepts
   * exactly the records the server's own parser accepts, with the same user.
   */
  function UserOfRecord(record: string): (u: Option<User>)
    ensures record != [] ==> (u.Some? <==> ParseUserFromString(record).Success?)
    ensures u.Some? ==> ParseUserFromString(record) == Success(u.value)
  {
    if record == [] then None
    else
      var fields := Split(record, ',');
      if |fields| < 3 then None
      else
        match ParseInt(fields[0])
        case None => None
        case Some(id) => Some(User(id, fields[1], fields[2]))
  }

  /** One trip record as parseTripsFromString reads it, again in step with the server's parser. */
  function TripOfRecord(fp: DoubleText, record: string): (t: Option<Trip>)
    ensures record != [] ==> (t.Some? <==> ParseTripFromString(fp, record).Success?)
    ensures t.Some? ==> ParseTripFromString(fp, record) == Success(t.value)
  {
    if record == [] then None
    else
      var fields := Split(record, ',');
      if |fields| < 6 then None
      else
        var id, price, seats := ParseInt(fields[0]), fp.parse(fields[4]), ParseInt(fields[5]);
        if id.None? || price.None? || seats.None? then None
        else Some(Trip(id.value, fields[1], fields[2], fields[3], price.value, seats.value))
  }

  /** The users of the records that read, in record order. */
  function UsersOfRecords(records: seq<string>): (users: seq<User>)
    ensures |users| <= |records|
    decreases |records|
  {
    if records == [] then []
    else
      var last := UserOfRecord(records[|records| - 1]);
      UsersOfRecords(records[..|records| - 1]) + (if last.Some? then [last.value] else [])
  }

  /** The trips of the records that read, in record order. */
  function TripsOfRecords(fp: DoubleText, records: seq<string>): (trips: seq<Trip>)
    ensures |trips| <= |records|
    decreases |records|
  {
    if records == [] then []
    else
      var last := TripOfRecord(fp, records[|records| - 1]);
      TripsOfRecords(fp, records[..|records| - 1]) + (if last.Some? then [last.value] else [])
  }

  /**
   * Records are read independently: the users of two runs of records are
   * the users of each, so a record that fails to read is dropped and the
   * records after it are still read.
   */
  lemma {:induction false} UsersOfRecordsConcat(a: seq<string>, b: seq<string>)
    ensures UsersOfRecords(a + b) == UsersOfRecords(a) + UsersOfRecords(b)
    decreases |b|
  {
    if b == [] {
      assert a + b == a;
    } else {
      var n := |b| - 1;
      assert b == b[..n] + [b[n]];
      assert a + b == (a + b[..n]) + [b[n]];
      UsersOfRecordsSnoc(a + b[..n], b[n]);
      UsersOfRecordsSnoc(b[..n], b[n]);
      UsersOfRecordsConcat(a, b[..n]);
    }
  }

  /** One more record read after the others. */
  lemma UsersOfRecordsSnoc(records: seq<string>, record: string)
    ensures UsersOfRecords(records + [record]) ==
      UsersOfRecords(records) + (if UserOfRecord(record).Some? then [UserOfRecord(record).value] else [])
  {
    assert (records + [record])[..|records|] == records;
  }

  /** A single record yields its user, or nothing when it does not read. */
  lemma UsersOfOneRecord(record: string)
    ensures UsersOfRecords([record]) == if UserOfRecord(record).Some? then [UserOfRecord(record).value] else []
  {
    assert [record][..0] == [];
  }

  /** The trip records are read independently, like the user records. */
  lemma {:induction false} TripsOfRecordsConcat(fp: DoubleText, a: seq<string>, b: seq<string>)
    ensures TripsOfRecords(fp, a + b) == TripsOfRecords(fp, a) + TripsOfRecords(fp, b)
    decreases |b|
  {
    if b == [] {
      assert a + b == a;
    } else {
      var n := |b| - 1;
      assert b == b[..n] + [b[n]];
      assert a + b == (a + b[..n]) + [b[n]];
      TripsOfRecordsSnoc(fp, a + b[..n], b[n]);
      TripsOfRecordsSnoc(fp, b[..n], b[n]);
      TripsOfRecordsConcat(fp, a, b[..n]);
    }
  }

  /** One more record read after the others. */
  lemma TripsOfRecordsSnoc(fp: DoubleText, records: seq<string>, record: string)
    ensures TripsOfRecords(fp, records + [record]) ==
      TripsOfRecords(fp, records) + (if TripOfRecord(fp, record).Some? then [TripOfRecord(fp, record).value] else [])
  {
    assert (records + [record])[..|records|] == records;
  }

  lemma TripsOfOneRecord(fp: DoubleText, record: string)
    ensures TripsOfRecords(fp, [record]) == if TripOfRecord(fp, record).Some? then [TripOfRecord(fp, record).value] else []
  {
    assert [record][..0] == [];
  }

  /** parseUsersFromString: an empty text is the empty list. */
  function ParseUsers(data: string): seq<User> {
    if data == [] then [] else UsersOfRecords(Split(data, ';'))
  }

  /** parseTripsFromString: an empty text is the empty list. */
  function ParseTrips(fp: DoubleText, data: string): seq<Trip> {
    if data == [] then [] else TripsOfRecords(fp, Split(data, ';'))
  }

  /** The for loop of parseUsersFromString, appending each user that reads. */
  method ParseUsersFromString(data: string) returns (users: seq<User>)
    ensures users == ParseUsers(data)
  {
    users := [];
    if data == [] {
      return;
    }
    var records := Split(data, ';');
    for i := 0 to |records|
      invariant users == UsersOfRecords(records[..i])
    {
      assert records[..i + 1][..i] == records[..i];
      var record := records[i];
      if record != [] {
        var fields := Split(record, ',');
        if |fields| >= 3 {
          var id := ParseInt(fields[0]);
          if id.Some? {
            users := users + [User(id.value, fields[1], fields[2])];
          }
        }
      }
    }
    assert records[..|records|] == records;
  }

  /** The for loop of parseTripsFromString, appending each trip that reads. */
  method ParseTripsFromString(fp: DoubleText, data: string) returns (trips: seq<Trip>)
    ensures trips == ParseTrips(fp, data)
  {
    trips := [];
    if data == [] {
      return;
    }
    var records := Split(data, ';');
    for i := 0 to |records|
      invariant trips == TripsOfRecords(fp, records[..i])
    {
      assert records[..i + 1][..i] == records[..i];
      var record := records[i];
      if record != [] {
        var fields := Split(record, ',');
        if |fields| >= 6 {
          var id := ParseInt(fields[0]);
          var price := fp.parse(fields[4]);
          var seats := ParseInt(fields[5]);
          if id.Some? && price.Some? && seats.Some? {
            trips := trips + [Trip(id.value, fields[1], fields[2], fields[3], price.value, seats.value)];
          }
        }
      }
    }
    assert records[..|records|] == records;
  }

  /** A user whose record reads back: field-safe text and a non-empty password (a trailing empty field is dropped by split). */
  predicate UserTextSafe(u: User) {
    FieldSafe(u.username) && FieldSafe(u.password) && u.password != []
  }

  /** A number's decimal text holds no delimiter. */
  lemma NumberTextPlain(i: int32, d: char)
    requires d == ';' || d == ',' || d == '#'
    ensures d !in IntToString(i)
  {
  }

  /** The server's record of a user reads as that user. */
  lemma UserOfUserRecord(u: User)
    requires UserTextSafe(u)
    ensures UserOfRecord(FormatUser(u)) == Some(u)
  {
    ParseUserOfFormatUser(u);
  }

  lemma TripOfTripRecord(fp: DoubleText, t: Trip)
    requires TripTextSafe(fp, t)
    ensures TripOfRecord(fp, FormatTrip(fp, t)) == Some(t)
  {
    ParseTripOfFormatTrip(fp, t);
  }

  /** Reading the records of a list of users, one record at a time from the end. */
  lemma UsersOfUserRecordsStep(users: seq<User>)
    requires users != [] && UserTextSafe(users[|users| - 1])
    ensures UsersOfRecords(UserRecords(users)) == UsersOfRecords(UserRecords(users[..|users| - 1])) + [users[|users| - 1]]
  {
    var n := |users| - 1;
    var records := UserRecords(users);
    assert records[..n] == UserRecords(users[..n]);
    UserOfUserRecord(users[n]);
  }

  lemma TripsOfTripRecordsStep(fp: DoubleText, trips: seq<Trip>)
    requires trips != [] && TripTextSafe(fp, trips[|trips| - 1])
    ensures TripsOfRecords(fp, TripRecords(fp, trips)) == TripsOfRecords(fp, TripRecords(fp, trips[..|trips| - 1])) + [trips[|trips| - 1]]
  {
    var n := |trips| - 1;
    var records := TripRecords(fp, trips);
    assert records[..n] == TripRecords(fp, trips[..n]);
    TripOfTripRecord(fp, trips[n]);
  }

  lemma {:induction false} UsersOfUserRecords(users: seq<User>)
    requires forall i :: 0 <= i < |users| ==> UserTextSafe(users[i])
    ensures UsersOfRecords(UserRecords(users)) == users
    decreases |users|
  {
    if users != [] {
      var n := |users| - 1;
      assert users == users[..n] + [users[n]];
      UsersOfUserRecords(users[..n]);
      UsersOfUserRecordsStep(users);
    }
  }

  lemma {:induction false} TripsOfTripRecords(fp: DoubleText, trips: seq<Trip>)
    requires forall i :: 0 <= i < |trips| ==> TripTextSafe(fp, trips[i])
    ensures TripsOfRecords(fp, TripRecords(fp, trips)) == trips
    decreases |trips|
  {
    if trips != [] {
      var n := |trips| - 1;
      assert trips == trips[..n] + [trips[n]];
      TripsOfTripRecords(fp, trips[..n]);
      TripsOfTripRecordsStep(fp, trips);
    }
  }

  /** The client reads the server's user list back as the same users, in the same order. */
  lemma ParseUserList(users: seq<User>)
    requires forall i :: 0 <= i < |users| ==> UserTextSafe(users[i])
    ensures ParseUsers(RecordList(UserRecords(users))) == users
  {
    var records := UserRecords(users);
    if users != [] {
      forall i | 0 <= i < |records|
        ensures ';' !in records[i]
      {
        NumberTextPlain(users[i].id, ';');
      }
      NumberTextPlain(users[|users| - 1].id, ',');
      SplitOfTerminated(records, ';');
      UsersOfUserRecords(users);
    }
  }

  /** The client reads the server's trip list back as the same trips, in the same order. */
  lemma ParseTripList(fp: DoubleText, trips: seq<Trip>)
    requires forall i :: 0 <= i < |trips| ==> TripTextSafe(fp, trips[i])
    ensures ParseTrips(fp, RecordList(TripRecords(fp, trips))) == trips
  {
    var records := TripRecords(fp, trips);
    if trips != [] {
      forall i | 0 <= i < |records|
        ensures ';' !in records[i]
      {
        NumberTextPlain(trips[i].id, ';');
        NumberTextPlain(trips[i].availableSeats, ';');
      }
      SplitOfTerminated(records, ';');
      TripsOfTripRecords(fp, trips);
    }
  }

  /** A request line built as command, '#', payload splits back into the two. */
  lemma SplitRequest(command: string, payload: string)
    requires command != [] && '#' !in command && '#' !in payload && payload != []
    ensures Split(command + "#" + payload, '#') == [command, payload]
  {
    JoinCons(command, [payload], '#');
    SplitOfJoin([command, payload], '#');
  }

  /** The text after the first '#'. */
  function AfterHash(s: string): (r: string)
    requires '#' in s
    ensures |r| < |s|
    decreases |s|
  {
    if s[0] == '#' then s[1..] else AfterHash(s[1..])
  }

  /** The reason the clients show for a failure reply: what follows the first '#', or `fallback` without one. */
  function Reason(message: string, fallback: string): (r: string)
    ensures '#' !in message ==> r == fallback
    ensures '#' in message ==> |r| < |message|
  {
    if '#' in message then AfterHash(message) else fallback
  }

  /** A reply tagged without '#' gives exactly the text after its tag as the reason. */
  lemma {:induction false} ReasonOfTaggedReply(tag: string, rest: string, fallback: string)
    requires '#' !in tag
    ensures Reason(tag + "#" + rest, fallback) == rest
    decreases |tag|
  {
    if tag == [] {
      assert tag + "#" + rest == "#" + rest;
    } else {
      assert (tag + "#" + rest)[1..] == tag[1..] + "#" + rest;
      ReasonOfTaggedReply(tag[1..], rest, fallback);
    }
  }
}
