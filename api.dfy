/** The request and response shapes of the JSON API and the checks the handlers run on them. */
module Api {
  import opened Errors

  /** A point in time; 0 stands for Go's zero time.Time, the value of an absent timestamp. */
  type Timestamp = int
  const ZeroTime: Timestamp := 0

  /** A latitude or longitude. Only its comparison with 0 matters to the core. */
  type Coord = int

  datatype RegisterRequest = RegisterRequest(
    email: string, password: string,
    firstname: string, lastname: string,
    city: string, country: string)
  {
    /** A registration is well formed when none of its six fields is empty. */
    function Validate(): (ok: bool)
      ensures ok <==> |email| > 0 && |password| > 0 && |firstname| > 0 && |lastname| > 0
                      && |city| > 0 && |country| > 0
    {
      !(email == "" || password == "" || firstname == "" || lastname == "" || city == "" || country == "")
    }
  }

  /** The request after HashPassword, and the error it returned. */
  datatype Hashing = Hashing(request: RegisterRequest, err: Option<Error>)

  /** RegisterRequest.HashPassword. `generated` is what bcrypt.GenerateFromPassword produced for
      this request's password: a hash, or an error. */
  function HashPassword(rr: RegisterRequest, generated: Result<string>): (h: Hashing)
    ensures h.err == None <==> generated.Ok?
    ensures h.err == None ==> h.request.password == generated.value
    ensures h.err != None ==> h.request == rr
    ensures h.request.email == rr.email && h.request.firstname == rr.firstname
    ensures h.request.lastname == rr.lastname && h.request.city == rr.city && h.request.country == rr.country
  {
    match generated
    case Err(_) => Hashing(rr, Some(HashFailed))
    case Ok(hashed) => Hashing(rr.(password := hashed), None)
  }

  datatype LoginRequest = LoginRequest(email: string, password: string, device: string)
  {
    /** A login is well formed when email, password and device are all present. */
    function Validate(): (ok: bool)
      ensures ok <==> |email| > 0 && |password| > 0 && |device| > 0
    {
      !(email == "" || password == "" || device == "")
    }

    /** The bcrypt verdict on the stored hash and this request's password. `verify` is bcrypt's
        comparison, taken as given; the email and the device play no part. */
    predicate CompareHashAndPassword(hashedPassword: string, verify: (string, string) -> bool): (ok: bool)
      ensures ok <==> verify(hashedPassword, password)
    {
      verify(hashedPassword, password)
    }
  }

  datatype LogoutRequest = LogoutRequest(tokens: seq<int>)

  datatype Position = Position(latitude: Coord, longitude: Coord)

  datatype AddLocationRequest = AddLocationRequest(timestamp: Timestamp, position: Position, private: bool)
  {
    /** A location report needs a timestamp and a latitude and longitude other than exactly 0. */
    function Validate(): (ok: bool)
      ensures !ok <==> timestamp == ZeroTime || position.latitude == 0 || position.longitude == 0
    {
      !(timestamp == ZeroTime || position.latitude == 0 || position.longitude == 0)
    }
  }

  /** One entry of the location listing: the report and its owner's names. */
  datatype Location = Location(
    timestamp: Timestamp, position: Position, private: bool,
    firstname: string, lastname: string)
}
