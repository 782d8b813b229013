/**
 * The text records the TCP server exchanges with its desktop clients: a
 * trip or a user is its fields joined by ',', a list is its records each
 * followed by ';'. Also the "largest id plus one" rule that numbers new
 * customers and reservations.
 */
module Wire {
  import opened Wrappers
  import opened JavaLang
  import opened Domain

  /** formatTrip: id, attraction, transport company, departure, price, seats. */
  function FormatTrip(fp: DoubleText, t: Trip): string {
    IntToString(t.id) + "," + t.attractionName + "," + t.transportCompany + "," + t.departureTime + "," +
    fp.toText(t.price) + "," + IntToString(t.availableSeats)
  }

  /** formatUser: id, username, password. */
  function FormatUser(u: User): string {
    IntToString(u.id) + "," + u.username + "," + u.password
  }

  function TripRecords(fp: DoubleText, trips: seq<Trip>): (records: seq<string>)
    ensures |records| == |trips|
    ensures forall i :: 0 <= i < |trips| ==> records[i] == FormatTrip(fp, trips[i])
  {
    seq(|trips|, i requires 0 <= i < |trips| => FormatTrip(fp, trips[i]))
  }

  function UserRecords(users: seq<User>): (records: seq<string>)
    ensures |records| == |users|
    ensures forall i :: 0 <= i < |users| ==> records[i] == FormatUser(users[i])
  {
    seq(|users|, i requires 0 <= i < |users| => FormatUser(users[i]))
  }

  /** What the StringBuilder holds after appending every record and a ';' after each. */
  function RecordList(records: seq<string>): string {
    Terminated(records, ';')
  }

  /** One more record appended to the list, with its ';'. */
  lemma RecordListSnoc(records: seq<string>, i: int)
    requires 0 <= i < |records|
    ensures RecordList(records[..i + 1]) == RecordList(records[..i]) + records[i] + ";"
  {
    assert records[..i + 1] == records[..i] + [records[i]];
    TerminatedSnoc(records[..i], records[i], ';');
  }

  /** Text that can sit inside one field of a record without splitting it. */
  predicate FieldSafe(s: string) {
    ',' !in s && ';' !in s
  }

  /** parseUserFromString: fields 0 to 2 of the ','-split record; extra fields are ignored. */
  function ParseUserFromString(data: string): (r: Result<User, JavaError>)
    ensures r.Success? ==> |Split(data, ',')| >= 3
    ensures r.Success? ==> Some(r.value.id) == ParseInt(Split(data, ',')[0])
    ensures r.Success? ==> r.value.username == Split(data, ',')[1] && r.value.password == Split(data, ',')[2]
  {
    var fields := Split(data, ',');
    if |fields| == 0 then Failure(IndexOutOfBounds(0, 0))
    else
      var id := ParseInt(fields[0]);
      if id.None? then Failure(NumberFormat)
      else if |fields| < 3 then Failure(IndexOutOfBounds(|fields|, |fields|))
      else Success(User(id.value, fields[1], fields[2]))
  }

  /** parseTripFromString: fields 0 to 5 of the ','-split record, read and converted in order. */
  function ParseTripFromString(fp: DoubleText, data: string): (r: Result<Trip, JavaError>)
    ensures r.Success? ==> |Split(data, ',')| >= 6
    ensures r.Success? ==> Some(r.value.id) == ParseInt(Split(data, ',')[0])
    ensures r.Success? ==> Some(r.value.price) == fp.parse(Split(data, ',')[4])
    ensures r.Success? ==> Some(r.value.availableSeats) == ParseInt(Split(data, ',')[5])
    ensures r.Success? ==>
      r.value.attractionName == Split(data, ',')[1] && r.value.transportCompany == Split(data, ',')[2] && r.value.departureTime == Split(data, ',')[3]
  {
    var fields := Split(data, ',');
    if |fields| == 0 then Failure(IndexOutOfBounds(0, 0))
    else
      var id := ParseInt(fields[0]);
      if id.None? then Failure(NumberFormat)
      else if |fields| < 5 then Failure(IndexOutOfBounds(|fields|, |fields|))
      else
        var price := fp.parse(fields[4]);
        if price.None? then Failure(NumberFormat)
        else if |fields| < 6 then Failure(IndexOutOfBounds(5, 5))
        else
          var seats := ParseInt(fields[5]);
          if seats.None? then Failure(NumberFormat)
          else Success(Trip(id.value, fields[1], fields[2], fields[3], price.value, seats.value))
  }

  /** Joining one more element in front puts it and one delimiter before the rest. */
  lemma JoinCons(x: string, rest: seq<string>, d: char)
    requires rest != []
    ensures Join([x] + rest, d) == x + [d] + Join(rest, d)
  {
    assert ([x] + rest)[1..] == rest;
  }

  /** Three elements joined. */
  lemma Join3(x: string, y: string, z: string, d: char)
    ensures Join([x, y, z], d) == x + [d] + y + [d] + z
  {
    JoinCons(y, [z], d);
    JoinCons(x, [y, z], d);
    assert [x, y, z] == [x] + [y, z];
  }

  /** A user record is its three fields joined by ','. */
  lemma UserRecordJoin(u: User)
    ensures Join([IntToString(u.id), u.username, u.password], ',') == FormatUser(u)
  {
    Join3(IntToString(u.id), u.username, u.password, ',');
  }

  /** A user record splits back into exactly its three fields when they are field-safe and the password is not empty. */
  lemma SplitUserRecord(u: User)
    requires FieldSafe(u.username) && FieldSafe(u.password) && u.password != ""
    ensures Split(FormatUser(u), ',') == [IntToString(u.id), u.username, u.password]
  {
    UserRecordJoin(u);
    SplitOfJoin([IntToString(u.id), u.username, u.password], ',');
  }

  /** The server's user record reads back as the same user. */
  lemma ParseUserOfFormatUser(u: User)
    requires FieldSafe(u.username) && FieldSafe(u.password) && u.password != ""
    ensures ParseUserFromString(FormatUser(u)) == Success(u)
  {
    SplitUserRecord(u);
  }

  /** Conditions under which a trip record reads back: field-safe text, and a price text that parses back. */
  predicate TripTextSafe(fp: DoubleText, t: Trip) {
    FieldSafe(t.attractionName) && FieldSafe(t.transportCompany) && FieldSafe(t.departureTime) &&
    FieldSafe(fp.toText(t.price)) && fp.parse(fp.toText(t.price)) == Some(t.price)
  }

  /** A trip record is its six fields joined by ','. */
  lemma TripRecordJoin(fp: DoubleText, t: Trip)
    ensures Join([IntToString(t.id), t.attractionName, t.transportCompany, t.departureTime, fp.toText(t.price), IntToString(t.availableSeats)], ',') ==
      FormatTrip(fp, t)
  {
    var f0, f1, f2, f3, f4, f5 := IntToString(t.id), t.attractionName, t.transportCompany, t.departureTime,
      fp.toText(t.price), IntToString(t.availableSeats);
    var tail := [f3, f4, f5];
    Join3(f3, f4, f5, ',');
    JoinCons(f2, tail, ',');
    assert [f2] + tail == [f2, f3, f4, f5];
    JoinCons(f1, [f2, f3, f4, f5], ',');
    assert [f1] + [f2, f3, f4, f5] == [f1, f2, f3, f4, f5];
    JoinCons(f0, [f1, f2, f3, f4, f5], ',');
    assert [f0] + [f1, f2, f3, f4, f5] == [f0, f1, f2, f3, f4, f5];
  }

  /** A trip record splits back into exactly its six fields. */
  lemma SplitTripRecord(fp: DoubleText, t: Trip)
    requires TripTextSafe(fp, t)
    ensures Split(FormatTrip(fp, t), ',') ==
      [IntToString(t.id), t.attractionName, t.transportCompany, t.departureTime, fp.toText(t.price), IntToString(t.availableSeats)]
  {
    TripRecordJoin(fp, t);
    SplitOfJoin([IntToString(t.id), t.attractionName, t.transportCompany, t.departureTime, fp.toText(t.price), IntToString(t.availableSeats)], ',');
  }

  /** The server's trip record reads back as the same trip. */
  lemma ParseTripOfFormatTrip(fp: DoubleText, t: Trip)
    requires TripTextSafe(fp, t)
    ensures ParseTripFromString(fp, FormatTrip(fp, t)) == Success(t)
  {
    SplitTripRecord(fp, t);
  }

  // ---------------------------------------------------------------------------
  // New ids: one more than the largest id scanned
  // ---------------------------------------------------------------------------

  /** The running maximum of a scan that starts from 0. */
  function LargestId(ids: seq<int32>): (m: int32)
    ensures 0 <= m
    ensures forall i :: 0 <= i < |ids| ==> ids[i] <= m
    ensures m == 0 || m in ids
    decreases |ids|
  {
    if ids == [] then 0
    else
      var prefix := ids[..|ids| - 1];
      var m := LargestId(prefix);
      assert forall i :: 0 <= i < |prefix| ==> prefix[i] == ids[i];
      if ids[|ids| - 1] > m then ids[|ids| - 1] else m
  }

  /**
   * generateCustomerId / generateReservationId: `max + 1` in `int` arithmetic.
   * The result exceeds every scanned id unless some id is Integer.MAX_VALUE,
   * where the sum wraps to Integer.MIN_VALUE.
   */
  function NextId(ids: seq<int32>): (r: int32)
    ensures LargestId(ids) < IntMax ==> r == LargestId(ids) + 1
    ensures LargestId(ids) < IntMax ==> r >= 1 && forall i :: 0 <= i < |ids| ==> ids[i] < r
    ensures LargestId(ids) == IntMax ==> r == IntMin
  {
    Wrap32(LargestId(ids) + 1)
  }

  /** The scan in generateCustomerId and generateReservationId: the running maximum from 0, plus one. */
  method GenerateId(ids: seq<int32>) returns (newId: int32)
    ensures newId == NextId(ids)
  {
    var max: int32 := 0;
    for i := 0 to |ids|
      invariant max == LargestId(ids[..i])
    {
      assert ids[..i + 1][..i] == ids[..i];
      if ids[i] > max {
        max := ids[i];
      }
    }
    assert ids[..|ids|] == ids;
    newId := Wrap32(max as int + 1);
  }

  function CustomerIds(customers: seq<Customer>): (ids: seq<int32>)
    ensures |ids| == |customers|
    ensures forall i :: 0 <= i < |customers| ==> ids[i] == customers[i].id
  {
    seq(|customers|, i requires 0 <= i < |customers| => customers[i].id)
  }

  function ReservationIds(reservations: seq<Reservation>): (ids: seq<int32>)
    ensures |ids| == |reservations|
    ensures forall i :: 0 <= i < |reservations| ==> ids[i] == reservations[i].id
  {
    seq(|reservations|, i requires 0 <= i < |reservations| => reservations[i].id)
  }
}
