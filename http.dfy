/**
 * The HTTP client the tools call (`requests.get`), as an oracle: a GET either
 * raises one of the library's exceptions or yields a response.
 */
module Http {

  import opened Strings

  /**
   * The exceptions the tools tell apart.  In the requests library a
   * `ConnectTimeout` is both a `ConnectionError` and a `Timeout`.
   */
  datatype NetError = ConnectionRefused | ConnectTimeout | ReadTimeout | OtherError(message: string)

  predicate IsConnectionError(e: NetError) {
    e.ConnectionRefused? || e.ConnectTimeout?
  }

  predicate IsTimeout(e: NetError) {
    e.ConnectTimeout? || e.ReadTimeout?
  }

  /**
   * A response: status code, headers and decoded body text.  The requests
   * library compares header names case-insensitively; here the names are held
   * folded to lower case and every lookup folds the name it asks for.
   */
  datatype Response = Response(status: int, headers: map<string, string>, body: string)

  datatype Fetch = Failed(error: NetError) | Got(response: Response)

  /** GET of a URL, following redirects or not. */
  type Client = (string, bool) -> Fetch

  /** `name in response.headers`. */
  predicate HasHeader(r: Response, name: string) {
    Lower(name) in r.headers
  }

  /** `response.headers.get(name, default)`. */
  function HeaderOr(r: Response, name: string, default: string): (v: string)
    ensures HasHeader(r, name) ==> v == r.headers[Lower(name)]
    ensures !HasHeader(r, name) ==> v == default
  {
    if HasHeader(r, name) then r.headers[Lower(name)] else default
  }

  /** A header is looked up in any letter case: asking with the name lower-cased changes nothing. */
  lemma HeaderNameCase(r: Response, name: string, default: string)
    ensures HasHeader(r, name) == HasHeader(r, Lower(name))
    ensures HeaderOr(r, name, default) == HeaderOr(r, Lower(name), default)
  {
    LowerIdempotent(name);
  }
}
