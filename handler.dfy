/**
 * The route handler for `GET /` (`handler` in main.go): it looks up the
 * `name` query parameter, asks the greeting for a reply and writes it as the
 * response body, or answers 500 with the error text when the greeting fails.
 * The request's query is taken as already parsed into Go's `url.Values`
 * (each key with the list of its values, in order).
 */
module Handler {
  import opened Wrappers
  import opened Utf8
  import opened Greetings

  type Query = map<Bytes, seq<Bytes>>

  const NameKey: Bytes := Ascii("name")

  const StatusOK: nat := 200
  const StatusInternalServerError: nat := 500

  datatype Response = Response(status: nat, body: Bytes)

  /** `url.Values.Get`: the first value given for `key`, or the empty string
      when the key is absent or has no values. */
  function QueryGet(q: Query, key: Bytes): (v: Bytes)
    ensures key !in q || q[key] == [] ==> v == []
    ensures key in q && q[key] != [] ==> v == q[key][0]
  {
    if key in q && |q[key]| > 0 then q[key][0] else []
  }

  /** Turns what the greeting returned into a response: the error text with
      status 500 if there is an error, otherwise the reply with status 200. */
  function Respond(g: Outcome): (resp: Response)
    ensures resp.status == StatusInternalServerError <==> g.err.Some?
    ensures resp.status == StatusOK <==> g.err.None?
    ensures resp.body == if g.err.Some? then g.err.value else g.reply
  {
    match g.err
    case Some(msg) => Response(StatusInternalServerError, msg)
    case None => Response(StatusOK, g.reply)
  }

  /** The response to `GET /` with query `q`: always 200, and the body is the
      greeting for the first `name` value (empty when there is none), from
      which that name can be read back. */
  function Handle(q: Query): (resp: Response)
    ensures resp.status == StatusOK
    ensures resp.body == Greeting(QueryGet(q, NameKey)).reply
    ensures ParseReply(resp.body) == Some(QueryGet(q, NameKey))
  {
    var name := QueryGet(q, NameKey);
    ParseGreeting(name);
    Respond(Greeting(name))
  }

  /** The error branch is never taken, whatever the query. */
  lemma NeverInternalError(q: Query)
    ensures Handle(q).status != StatusInternalServerError
  {
  }

  /** Without a `name` parameter (or with `name=`), the reply is the advisory
      for the empty name. */
  lemma AbsentName(q: Query)
    requires NameKey !in q || q[NameKey] == [] || q[NameKey][0] == []
    ensures Handle(q) == Response(StatusOK, Ascii("Hello ! Your name is to short\n"))
  {
    EmptyName();
  }

  /** Repeated `name` parameters: only the first value counts; the others do
      not change the response. */
  lemma FirstNameWins(q: Query, later: seq<Bytes>)
    requires NameKey in q && q[NameKey] != []
    ensures Handle(q[NameKey := q[NameKey][..1] + later]) == Handle(q)
  {
  }

  /** `GET /?name=Alice` is answered with "Hi Alice". */
  lemma Alice()
    ensures Handle(map[NameKey := [Ascii("Alice")]]).body == Ascii("Hi Alice")
  {
  }
}
