/**
 * What an edge function hands back to the runtime: a status, the headers
 * the handlers set (Location, Set-Cookie, the CORS headers) and a JSON body.
 */
module Http {
  import opened Wrappers

  /** The target of a redirect. The authorization request keeps its query as ordered name-value pairs. */
  datatype Location =
    | AuthorizationRequest(endpoint: string, query: seq<(string, string)>)
    | Url(url: string)

  /** The body: none, `{error}`, `{accessToken, expiresIn}`, or the runtime's own page for an uncaught error. */
  datatype Body =
    | NoBody
    | ErrorJson(error: string)
    | TokenJson(accessToken: string, expiresIn: int)
    | InternalServerError

  datatype Response = Response(
    status: int,
    location: Option<Location>,
    setCookie: Option<string>,
    cors: map<string, string>,
    body: Body)

  /** `jsonResponse({error: message}, {status, headers})`. */
  function ErrorResponse(status: int, message: string, cors: map<string, string>): Response
  {
    Response(status, None, None, cors, ErrorJson(message))
  }

  /** `badRequest(message)`: a 400 without extra headers. */
  function BadRequest(message: string): Response
  {
    ErrorResponse(400, message, map[])
  }

  /** `URLSearchParams.get(name)`: the value of the first pair with that name. */
  function QueryValue(query: seq<(string, string)>, name: string): Option<string>
    decreases |query|
  {
    if query == [] then None
    else if query[0].0 == name then Some(query[0].1)
    else QueryValue(query[1..], name)
  }

  /** A name that occurs once in the query gives the value paired with it. */
  lemma {:induction false} QueryValueUnique(query: seq<(string, string)>, i: nat)
    requires i < |query|
    requires forall j :: 0 <= j < |query| && j != i ==> query[j].0 != query[i].0
    ensures QueryValue(query, query[i].0) == Some(query[i].1)
    decreases i
  {
    if i > 0 {
      QueryValueUnique(query[1..], i - 1);
    }
  }

  /** A name no pair carries has no value. */
  lemma {:induction false} QueryValueAbsent(query: seq<(string, string)>, name: string)
    requires forall j :: 0 <= j < |query| ==> query[j].0 != name
    ensures QueryValue(query, name) == None
    decreases |query|
  {
    if query != [] {
      QueryValueAbsent(query[1..], name);
    }
  }

  /** `Deno.env.get(name)` or `searchParams.get(name)` over a map of set names. */
  function Lookup(m: map<string, string>, name: string): Option<string>
  {
    if name in m then Some(m[name]) else None
  }
}
