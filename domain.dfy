/**
 * The four entities of the trip agency (trips, users of the desktop
 * application, customers and reservations) and the exceptions that the
 * request handlers turn into reply lines.
 */
module Domain {
  import opened Wrappers
  import opened JavaLang

  /**
   * A `double` price, kept as its IEEE-754 bit pattern: no arithmetic is done
   * on prices, they are only stored, printed and parsed.
   */
  datatype Price = Price(bits: bv64)

  datatype Trip = Trip(
    id: int32,
    attractionName: string,
    transportCompany: string,
    departureTime: string,
    price: Price,
    availableSeats: int32)

  datatype User = User(id: int32, username: string, password: string)

  datatype Customer = Customer(id: int32, customerName: string, customerEmail: string, customerPhone: string)

  /** `trip` and `customer` are the ids of the trip and of the customer. */
  datatype Reservation = Reservation(id: int32, trip: int32, customer: int32, numberOfTickets: int32)

  /**
   * The floating-point text conversions, which the model does not define:
   * Double.toString (`toText`), Double.parseDouble (`parse`, None for
   * NumberFormatException) and String.format("%.2f") in the default locale
   * (`format2`).
   */
  datatype DoubleText = DoubleText(
    toText: Price -> string,
    parse: string -> Option<Price>,
    format2: Price -> string)

  /** The exceptions the request handlers catch. */
  datatype JavaError =
    | NumberFormat
    | IndexOutOfBounds(index: int, length: int)
    | IllegalArgument(message: string)

  /** getMessage() of an exception the handlers print after a `#`. */
  function Message(e: JavaError): (msg: string)
    requires !e.NumberFormat?
    ensures e.IllegalArgument? ==> msg == e.message
  {
    match e
    case IllegalArgument(m) => m
    case IndexOutOfBounds(i, n) => "Index " + IntToString(Wrap32(i)) + " out of bounds for length " + IntToString(Wrap32(n))
  }

  /** `xs[i]` on a Java array: the element, or ArrayIndexOutOfBoundsException. */
  function ElementAt<T>(xs: seq<T>, i: nat): (r: Result<T, JavaError>)
    ensures r.Success? <==> i < |xs|
    ensures r.Success? ==> r.value == xs[i]
    ensures r.Failure? ==> r.error == IndexOutOfBounds(i, |xs|)
  {
    if i < |xs| then Success(xs[i]) else Failure(IndexOutOfBounds(i, |xs|))
  }
}
