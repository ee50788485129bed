/** The parts of a Guzzle 5 request message that the client-side reader
    uses. Guzzle itself is not part of this model: its setters are modelled
    as plain field updates and its getters as reads of those fields. */
module Guzzle {
  import opened PhpStrings

  /** A message body: none, a plain stream, or a form body
      (`PostBodyInterface`) holding the decoded form fields. */
  datatype Body = NoBody | Stream(contents: Bytes) | PostBody(fields: map<Bytes, Bytes>)

  /** What `getHeader` returns: one comma-joined line, or the list of values. */
  datatype HeaderValue = Line(line: Bytes) | Values(values: seq<Bytes>)

  /** The state of a request, as `MessageFactory::fromMessage` builds it;
      `verb` is the HTTP method. */
  datatype Message = Message(
    verb: Bytes,
    scheme: Bytes,
    host: Bytes,
    port: Bytes,
    path: Bytes,
    query: Bytes,
    protocolVersion: Bytes,
    headers: map<Bytes, seq<Bytes>>,
    body: Body)

  /** Joins header values with `, `. */
  function Join(values: seq<Bytes>): (r: Bytes)
    ensures |values| == 1 ==> r == values[0]
    ensures values == [] ==> r == []
  {
    if |values| == 0 then []
    else if |values| == 1 then values[0]
    else values[0] + ", " + Join(values[1..])
  }

  class Request {
    var verb: Bytes
    var scheme: Bytes
    var host: Bytes
    var port: Bytes
    var path: Bytes
    var query: Bytes
    var protocolVersion: Bytes
    var headers: map<Bytes, seq<Bytes>>
    var body: Body

    /** The request's current state as a value. */
    function Snapshot(): Message
      reads this
    {
      Message(verb, scheme, host, port, path, query, protocolVersion, headers, body)
    }

    /** `MessageFactory::fromMessage`: a new request in the given state. */
    constructor FromMessage(m: Message)
      ensures Snapshot() == m
    {
      verb, scheme, host, port, path := m.verb, m.scheme, m.host, m.port, m.path;
      query, protocolVersion, headers, body := m.query, m.protocolVersion, m.headers, m.body;
    }

    method SetHost(h: Bytes)
      modifies this
      ensures Snapshot() == old(Snapshot()).(host := h)
    {
      host := h;
    }

    method SetPort(p: Bytes)
      modifies this
      ensures Snapshot() == old(Snapshot()).(port := p)
    {
      port := p;
    }

    /** Replaces every value of the header `name` by the one value `value`. */
    method SetHeader(name: Bytes, value: Bytes)
      modifies this
      ensures Snapshot() == old(Snapshot()).(headers := old(headers)[name := [value]])
    {
      headers := headers[name := [value]];
    }

    /** `replaceFields` on the form body: its fields become exactly `fields`. */
    method ReplaceFields(fields: map<Bytes, Bytes>)
      requires body.PostBody?
      modifies this
      ensures Snapshot() == old(Snapshot()).(body := PostBody(fields))
    {
      body := PostBody(fields);
    }

    function GetMethod(): Bytes reads this { verb }
    function GetScheme(): Bytes reads this { scheme }
    function GetHost(): Bytes reads this { host }
    function GetPort(): Bytes reads this { port }
    function GetPath(): Bytes reads this { path }
    function GetQuery(): Bytes reads this { query }
    function GetProtocolVersion(): Bytes reads this { protocolVersion }
    function GetHeaders(): map<Bytes, seq<Bytes>> reads this { headers }
    function GetBody(): Body reads this { body }

    function HasHeader(name: Bytes): bool reads this { name in headers }

    /** All values of a header, joined into one line unless `asArray` is set;
        a missing header has no values. */
    function GetHeader(name: Bytes, asArray: bool): (r: HeaderValue)
      reads this
      ensures r.Line? <==> !asArray
    {
      var values := if name in headers then headers[name] else [];
      if asArray then Values(values) else Line(Join(values))
    }

    /** The path and the query string. */
    function GetResource(): Bytes
      reads this
    {
      path + (if query == [] then [] else "?" + query)
    }

    /** The request URL, composed from its parts. */
    function GetUrl(): Bytes
      reads this
    {
      scheme + "://" + host + ":" + port + path + (if query == [] then [] else "?" + query)
    }
  }
}
