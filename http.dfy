/**
 * The HTTP objects both filters work on: URIs, message bodies and their replayable
 * streams, requests and responses, the per-client session, the exchange, and the
 * downstream handlers, which are modelled as scripted oracles that record each call.
 */
module Http {
  import opened Wrappers
  import opened Text
  import opened Headers

  /** The parts of a URI the filters read; `port` is -1 when the URI names none. */
  datatype Uri = Uri(scheme: Option<string>, host: Option<string>, port: int, path: string)

  /** A JSON object whose members are read as strings. */
  type JsonObject = map<string, string>

  /**
   * A replayable entity stream. A branch replays the whole content of the stream it was
   * taken from; `json` is what reading the content as JSON yields (`None`: it does not parse).
   */
  class Stream {
    const content: seq<uint8>
    const json: Option<JsonObject>
    const parent: Stream?
    var closed: bool

    /** A trunk over `content`, as the connector creates one for an inbound entity. */
    constructor (content: seq<uint8>, json: Option<JsonObject>)
      ensures this.content == content && this.json == json
      ensures parent == null && !closed
    {
      this.content := content;
      this.json := json;
      parent := null;
      closed := false;
    }

    constructor BranchOf(trunk: Stream)
      ensures content == trunk.content && json == trunk.json
      ensures parent == trunk && !closed
    {
      content := trunk.content;
      json := trunk.json;
      parent := trunk;
      closed := false;
    }

    /** A new, independent cursor over the same content. */
    method Branch() returns (b: Stream)
      ensures fresh(b) && !b.closed
      ensures b.parent == this && b.content == content && b.json == json
    {
      b := new Stream.BranchOf(this);
    }

    method Close()
      modifies this
      ensures closed
    {
      closed := true;
    }
  }

  /** A message entity: none, a stream, or a JSON object built in memory. */
  datatype Body = NoBody | Streamed(stream: Stream) | Json(members: JsonObject)

  /** What `entity.getJson()` yields for a body, `None` when it cannot be parsed. */
  function ParseJson(body: Body): (r: Option<JsonObject>)
    ensures body.Json? ==> r == Some(body.members)
    ensures body.NoBody? ==> r == None
  {
    match body
    case NoBody => None
    case Streamed(s) => s.json
    case Json(m) => Some(m)
  }

  /** `verb` is the request method (POST, GET, ...). */
  datatype Request = Request(verb: string, uri: Uri, headers: seq<Header>, body: Body)

  datatype Response = Response(status: int, headers: seq<Header>, body: Body)

  /** A response as `new Response()` creates it; status 0 stands for "not yet set". */
  const EmptyResponse := Response(0, [], NoBody)

  /** A per-client key/value store that outlives exchanges; a `None` value is a stored `null`. */
  class Session {
    var attributes: map<string, Option<string>>

    constructor (attributes: map<string, Option<string>>)
      ensures this.attributes == attributes
    {
      this.attributes := attributes;
    }
  }

  /** Java's `Map.get`: the stored value, or `null` when the key is absent. */
  function Lookup(attributes: map<string, Option<string>>, key: string): (r: Option<string>)
    ensures key !in attributes ==> r == None
    ensures key in attributes ==> r == attributes[key]
  {
    if key in attributes then attributes[key] else None
  }

  /** One unit of work: the request, the response once there is one, and the client's session. */
  class Exchange {
    var request: Request
    var response: Option<Response>
    const session: Session

    constructor (request: Request, session: Session)
      ensures this.request == request && response == None && this.session == session
    {
      this.request := request;
      response := None;
      this.session := session;
    }
  }

  /** What an exchange-handling handler saw when it was called. */
  datatype Call = Call(request: Request, response: Option<Response>)

  /**
   * A handler of the exchange-based interface (`handle(Exchange)`), scripted: its k-th call
   * sets the exchange's response to `reply(k)`. `calls` records what every call saw.
   */
  class ExchangeHandler {
    const reply: nat -> Response
    var calls: seq<Call>

    constructor (reply: nat -> Response)
      ensures this.reply == reply && calls == []
    {
      this.reply := reply;
      calls := [];
    }

    /** The response to the k-th call. */
    function Answer(k: nat): Response
    {
      reply(k)
    }

    method Handle(exchange: Exchange)
      modifies this, exchange`response
      ensures calls == old(calls) + [Call(exchange.request, old(exchange.response))]
      ensures exchange.response == Some(Answer(|old(calls)|))
    {
      calls := calls + [Call(exchange.request, exchange.response)];
      exchange.response := Some(reply(|calls| - 1));
    }
  }

  /**
   * A handler of the request-based interface (`handle(context, request)`), scripted: its
   * k-th call answers `reply(k)`. `received` records the request of every call.
   */
  class RequestHandler {
    const reply: nat -> Response
    var received: seq<Request>

    constructor (reply: nat -> Response)
      ensures this.reply == reply && received == []
    {
      this.reply := reply;
      received := [];
    }

    /** The response to the k-th call. */
    function Answer(k: nat): Response
    {
      reply(k)
    }

    method Handle(request: Request) returns (response: Response)
      modifies this
      ensures received == old(received) + [request]
      ensures response == Answer(|old(received)|)
    {
      response := reply(|received|);
      received := received + [request];
    }
  }
}
