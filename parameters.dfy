/** The parameter dictionary that the configuration reader fills and the
    email sender reads and extends, with the Python values it holds and the
    exceptions the core can raise. */
module Parameters {

  datatype Option<+T> = None | Some(value: T)

  /** A dictionary value: raw strings as read from the file, lists after
      `check_parameters` splits `clients_email` and `report_file_path`,
      and the integer `email_port`. */
  datatype Value = Str(s: string) | List(items: seq<string>) | Int(n: int)

  /** The Python exceptions the core raises or catches. */
  datatype Exception =
    | KeyError(key: string)          // `parameters[key]` on a missing key
    | TypeError(key: string)         // a missing or wrongly typed value handed to `strptime` or iterated
    | AttributeError(key: string)    // a string method called on a value that is not a string
    | ValueError(key: string)        // `strptime` rejecting the text of `key`
    | FileError(path: string)        // `open(path, 'rb')` failing
    | ConnectionError                // the SMTP server cannot be reached or STARTTLS fails
    | AuthenticationError            // `SMTPAuthenticationError` from `login`
    | SendError                      // `sendmail` refused by the server

  /** The result of a Python call: the value it returned, or the exception that escaped it. */
  datatype Outcome<+T> = Returned(value: T) | Raised(error: Exception)

  type Params = map<string, Value>

  /** The keys the core reads and writes. */
  const CLIENTS: string := "clients_email"
  const SCHEDULE: string := "schedule"
  const REPORTS: string := "report_file_path"
  const USERNAME: string := "email_username"
  const PASSWORD: string := "email_password"
  const SUBJECT: string := "email_subject"
  const BODY: string := "email_body"
  const SERVER: string := "email_server"
  const PORT: string := "email_port"

  /** `parameters.get(key)`. */
  function Get(m: Params, key: string): (r: Option<Value>)
    ensures r.Some? <==> key in m
    ensures r.Some? ==> r.value == m[key]
  {
    if key in m then Some(m[key]) else None
  }

  /** Python truthiness of `parameters.get(key)`: `None`, `''`, `[]` and `0` are false. */
  predicate Truthy(v: Option<Value>): (b: bool)
    ensures b <==> v.Some? && v.value !in {Str(""), List([]), Int(0)}
  {
    match v
    case None => false
    case Some(Str(s)) => s != []
    case Some(List(xs)) => xs != []
    case Some(Int(n)) => n != 0
  }

  /** What `for x in value` visits: a list yields its items and a string its
      characters one by one; iterating an integer raises `TypeError`. */
  function Elements(v: Value): (r: Option<seq<string>>)
    ensures r.None? <==> v.Int?
    ensures v.List? ==> r == Some(v.items)
    ensures v.Str? ==> r.Some? && |r.value| == |v.s| && forall k | 0 <= k < |v.s| :: r.value[k] == [v.s[k]]
  {
    match v
    case List(xs) => Some(xs)
    case Str(s) => Some(seq(|s|, k requires 0 <= k < |s| => [s[k]]))
    case Int(_) => None
  }

  /** The one dictionary object that `ConfigReader.parameters` refers to and that
      `EmailSender(parameters.parameters)` goes on sharing. */
  class Dict {
    var items: Params

    constructor ()
      ensures items == map[]
    {
      items := map[];
    }
  }
}
