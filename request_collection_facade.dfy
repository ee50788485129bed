/** `RequestCollectionFacade`: the client-side reader of the mock server's
    request log. Each read or removal is one control request to a
    `/_request/...` endpoint; the reply is checked, decoded, and turned into
    a `UnifiedRequest` whose wrapped request carries the metadata the server
    observed. Sending the control request and decoding the reply body are
    outside the model: the reply and the decoder are parameters. */
module Facade {
  import opened Wrappers
  import opened PhpStrings
  import opened Guzzle
  import opened Unified
  import BasicAuth

  // Endpoints

  /** The HTTP verbs the facade sends. */
  datatype Verb = Get | Delete

  /** The facade's public lookups: `latest`, `last`, `first`, `at($position)`,
      `pop`, `shift` and `count`. */
  datatype Lookup = Latest | Last | First | At(position: int) | Pop | Shift | Count

  datatype Endpoint = Endpoint(verb: Verb, path: Bytes)

  const LogPath: Bytes := "/_request/"

  /** The control request a lookup sends: reads are GETs, removals are
      DELETEs, and every path lies under `/_request/`. */
  function EndpointOf(q: Lookup): (e: Endpoint)
    ensures |e.path| > |LogPath| && e.path[..|LogPath|] == LogPath
    ensures e.verb == Delete <==> q.Pop? || q.Shift?
  {
    match q
    case Latest => Endpoint(Get, LogPath + "last")
    case Last => Endpoint(Get, LogPath + "last")
    case First => Endpoint(Get, LogPath + "first")
    case At(n) => Endpoint(Get, LogPath + IntToString(n))
    case Pop => Endpoint(Delete, LogPath + "last")
    case Shift => Endpoint(Delete, LogPath + "first")
    case Count => Endpoint(Get, LogPath + "count")
  }

  /** The lookup a control request stands for, read from its verb and path. */
  function LookupOf(e: Endpoint): Option<Lookup>
  {
    if |e.path| < |LogPath| || e.path[..|LogPath|] != LogPath then None
    else
      var rest := e.path[|LogPath|..];
      match e.verb
      case Get =>
        if rest == "last" then Some(Last)
        else if rest == "first" then Some(First)
        else if rest == "count" then Some(Count)
        else (match ParseInt(rest) case Some(n) => Some(At(n)) case None => None)
      case Delete =>
        if rest == "last" then Some(Pop)
        else if rest == "first" then Some(Shift)
        else None
  }

  /** `latest` is another name for `last`. */
  function Canonical(q: Lookup): Lookup {
    if q == Latest then Last else q
  }

  /** Every lookup's control request names that lookup, `latest` reading the
      same entry as `last`. */
  lemma LookupOfEndpoint(q: Lookup)
    ensures LookupOf(EndpointOf(q)) == Some(Canonical(q))
  {
    var e := EndpointOf(q);
    var rest := e.path[|LogPath|..];
    if q.At? {
      assert rest == IntToString(q.position);
      assert rest[0] != 'l' && rest[0] != 'f' && rest[0] != 'c';
      IntToStringRoundTrip(q.position);
    } else {
      assert rest == "last" || rest == "first" || rest == "count";
    }
  }

  /** Two lookups send the same control request exactly when they are the
      same lookup, up to `latest` and `last`. */
  lemma EndpointsDistinct(q1: Lookup, q2: Lookup)
    ensures EndpointOf(q1) == EndpointOf(q2) <==> Canonical(q1) == Canonical(q2)
  {
    LookupOfEndpoint(q1);
    LookupOfEndpoint(q2);
  }

  // Reply checks

  /** What the facade reads of a control reply: the status code as Guzzle
      returns it (a string), the `content-type` header if present, and the body. */
  datatype Reply = Reply(status: Bytes, contentType: Option<Bytes>, body: Bytes)

  /** The `UnexpectedValueException`s the reader raises, with the path and
      the offending value. */
  datatype ReadError =
    | UnexpectedStatus(path: Bytes, status: Bytes)
    | UnexpectedContentType(path: Bytes, contentType: Bytes)
    | Undecodable(path: Bytes, body: Bytes)

  /** The `content-type` header, or the empty string when it is missing. */
  function ContentTypeOf(reply: Reply): Bytes {
    if reply.contentType.Some? then reply.contentType.value else []
  }

  predicate StartsWith(s: Bytes, prefix: Bytes) {
    |s| >= |prefix| && s[..|prefix|] == prefix
  }

  /** The reply checks, in the order the reader runs them: the status must be
      exactly the string `200`; then the first ten bytes of the content type
      must be `text/plain`. */
  function CheckReply(reply: Reply, path: Bytes): (o: Outcome<ReadError>)
    ensures o.Pass? <==> reply.status == "200" && StartsWith(ContentTypeOf(reply), "text/plain")
    ensures o.Fail? ==> o.error.path == path && !o.error.Undecodable?
  {
    if reply.status != "200" then Fail(UnexpectedStatus(path, reply.status))
    else if Prefix(ContentTypeOf(reply), 10) != "text/plain" then
      Fail(UnexpectedContentType(path, ContentTypeOf(reply)))
    else Pass
  }

  /** A wrong status is reported whatever the content type and the body are:
      the status is checked first. */
  lemma StatusCheckedFirst(reply: Reply, path: Bytes, contentType: Option<Bytes>, body: Bytes)
    requires reply.status != "200"
    ensures CheckReply(reply.(contentType := contentType, body := body), path)
      == Fail(UnexpectedStatus(path, reply.status))
  {
  }

  /** A reply without a content type is rejected, as if its content type were empty. */
  lemma MissingContentTypeRejected(reply: Reply, path: Bytes)
    requires reply.status == "200" && reply.contentType.None?
    ensures CheckReply(reply, path) == Fail(UnexpectedContentType(path, []))
  {
  }

  /** Parameters after the media type pass; another media type, a shorter
      string, or different letter case does not. */
  lemma ContentTypeExamples(path: Bytes)
    ensures CheckReply(Reply("200", Some("text/plain; charset=UTF-8"), []), path).Pass?
    ensures CheckReply(Reply("200", Some("text/html"), []), path).Fail?
    ensures CheckReply(Reply("200", Some("text/plai"), []), path).Fail?
    ensures CheckReply(Reply("200", Some("TEXT/PLAIN"), []), path).Fail?
    ensures CheckReply(Reply("404", Some("text/plain"), []), path).Fail?
  {
    assert StartsWith("text/plain; charset=UTF-8", "text/plain");
    assert !StartsWith("text/html", "text/plain");
    assert !StartsWith("TEXT/PLAIN", "text/plain") by {
      assert "TEXT/PLAIN"[0] != "text/plain"[0];
    }
  }

  // The decoded payload and configureRequest

  /** The decoded reply body: the recorded request, the server metadata
      recorded with it, and the decoded form fields if it had a form body. */
  datatype RecordedRequest = RecordedRequest(
    request: Message,
    server: map<Bytes, Bytes>,
    enclosure: Option<map<Bytes, Bytes>>)

  /** The `$_SERVER` entries the recording keeps and `configureRequest` reads. */
  const HostKey: Bytes := "HTTP_HOST"
  const PortKey: Bytes := "HTTP_PORT"
  const UserKey: Bytes := "PHP_AUTH_USER"
  const PasswordKey: Bytes := "PHP_AUTH_PW"
  const UserAgentKey: Bytes := "HTTP_USER_AGENT"

  /** The form fields to restore: the recorded ones, or none when the payload has none. */
  function EnclosureOf(info: RecordedRequest): map<Bytes, Bytes> {
    if info.enclosure.Some? then info.enclosure.value else map[]
  }

  /** The recorded password, or the empty string when none was recorded
      (PHP concatenates `null` as the empty string). */
  function PasswordOf(server: map<Bytes, Bytes>): Bytes {
    if PasswordKey in server then server[PasswordKey] else []
  }

  /** The request once the server metadata has been applied to it: host and
      port overridden when recorded, an `Authorization: Basic` header when a
      user was recorded, and the form fields of a POST form body replaced by
      the recorded ones. */
  function Configured(m: Message, server: map<Bytes, Bytes>, enclosure: map<Bytes, Bytes>): Message
  {
    var withHost := if HostKey in server then m.(host := server[HostKey]) else m;
    var withPort := if PortKey in server then withHost.(port := server[PortKey]) else withHost;
    var withAuth :=
      if UserKey in server then
        withPort.(headers := withPort.headers["Authorization" := [BasicAuth.Credentials(server[UserKey], PasswordOf(server))]])
      else withPort;
    if withAuth.verb == "POST" && withAuth.body.PostBody? then withAuth.(body := PostBody(enclosure)) else withAuth
  }

  /** The params handed to `UnifiedRequest`: the recorded user agent, if any. */
  function ParamsOf(server: map<Bytes, Bytes>): seq<Param>
  {
    if UserAgentKey in server then [Param("userAgent", Text(server[UserAgentKey]))] else []
  }

  /** Applies the server metadata to `request` step by step and collects the params. */
  method ConfigureRequest(request: Request, server: map<Bytes, Bytes>, enclosure: map<Bytes, Bytes>)
    returns (params: seq<Param>)
    modifies request
    ensures request.Snapshot() == Configured(old(request.Snapshot()), server, enclosure)
    ensures params == ParamsOf(server)
  {
    if HostKey in server {
      request.SetHost(server[HostKey]);
    }
    if PortKey in server {
      request.SetPort(server[PortKey]);
    }
    if UserKey in server {
      var username := server[UserKey];
      var password := if PasswordKey in server then server[PasswordKey] else [];
      request.SetHeader("Authorization", BasicAuth.Credentials(username, password));
    }
    params := [];
    if UserAgentKey in server {
      params := params + [Param("userAgent", Text(server[UserAgentKey]))];
    }
    if request.GetMethod() == "POST" {
      var body := request.GetBody();
      if body.PostBody? {
        request.ReplaceFields(enclosure);
      }
    }
  }

  /** Host and port are overridden exactly when the server recorded them;
      method, scheme, path, query and protocol version never change. */
  lemma ConfiguredLocation(m: Message, server: map<Bytes, Bytes>, enclosure: map<Bytes, Bytes>)
    ensures var r := Configured(m, server, enclosure);
      && r.host == (if HostKey in server then server[HostKey] else m.host)
      && r.port == (if PortKey in server then server[PortKey] else m.port)
      && r.verb == m.verb && r.scheme == m.scheme && r.path == m.path
      && r.query == m.query && r.protocolVersion == m.protocolVersion
  {
  }

  /** An `Authorization` header is set exactly when a user was recorded; it
      reads back (RFC 7617) as that user and the recorded password, or the
      empty password; no other header changes. */
  lemma ConfiguredAuthorization(m: Message, server: map<Bytes, Bytes>, enclosure: map<Bytes, Bytes>)
    ensures var r := Configured(m, server, enclosure);
      && (UserKey in server ==>
            "Authorization" in r.headers && |r.headers["Authorization"]| == 1
            && StartsWith(r.headers["Authorization"][0], "Basic ")
            && (':' !in server[UserKey] ==>
                  BasicAuth.ParseCredentials(r.headers["Authorization"][0])
                    == Some((server[UserKey], PasswordOf(server)))))
      && (UserKey !in server ==> r.headers == m.headers)
      && (forall name :: name != "Authorization" ==>
            (name in r.headers <==> name in m.headers)
            && (name in m.headers ==> r.headers[name] == m.headers[name]))
  {
    if UserKey in server && ':' !in server[UserKey] {
      BasicAuth.CredentialsRoundTrip(server[UserKey], PasswordOf(server));
    }
  }

  /** The form fields are replaced by the recorded ones only for a POST
      request with a form body; every other body is left untouched. */
  lemma ConfiguredBody(m: Message, server: map<Bytes, Bytes>, enclosure: map<Bytes, Bytes>)
    ensures var r := Configured(m, server, enclosure);
      && (m.verb == "POST" && m.body.PostBody? ==> r.body == PostBody(enclosure))
      && (m.verb != "POST" || !m.body.PostBody? ==> r.body == m.body)
  {
  }

  /** The params hold the key `userAgent` exactly when the server recorded a
      user agent, and no other key. */
  lemma ParamsOfKeys(server: map<Bytes, Bytes>)
    ensures WellTyped(ParamsOf(server))
    ensures forall i :: 0 <= i < |ParamsOf(server)| ==> ParamsOf(server)[i].key == "userAgent"
    ensures |ParamsOf(server)| > 0 <==> UserAgentKey in server
  {
  }

  /** The user agent a `UnifiedRequest` built from these params reports, from
      an object without one, is the recorded one or null; the wrapped request stays. */
  lemma UserAgentFromServer(w: Request, server: map<Bytes, Bytes>)
    ensures WellTyped(ParamsOf(server))
    ensures Assign(Properties(w, None), ParamsOf(server)) ==
      Properties(w, if UserAgentKey in server then Some(server[UserAgentKey]) else None)
  {
    AssignIsLastWrite(Properties(w, None), ParamsOf(server));
  }

  // Reading a recorded request

  /** What a request read from the log reports: the recorded request with the
      server metadata applied, and the recorded user agent. */
  ghost predicate Delivers(u: UnifiedRequest, info: RecordedRequest)
    reads u, u.wrapped
  {
    && u.wrapped.Snapshot() == Configured(info.request, info.server, EnclosureOf(info))
    && u.GetUserAgent() == (if UserAgentKey in info.server then Some(info.server[UserAgentKey]) else None)
  }

  /** What the accessors of a request read from the log report: method,
      scheme, path, query and protocol version as recorded; host and port as
      the server observed them when it did; every recorded header but
      `Authorization` as recorded, and `Authorization` as the `Basic`
      credentials of the recorded user when there is one; a POST form body
      with the recorded form fields, or none when the payload has none; and
      the recorded user agent or null. */
  lemma DeliveredRequestReports(u: UnifiedRequest, info: RecordedRequest)
    requires Delivers(u, info)
    ensures var m := info.request;
      && u.GetMethod() == m.verb && u.GetScheme() == m.scheme && u.GetPath() == m.path
      && u.GetQuery() == m.query && u.GetProtocolVersion() == m.protocolVersion
    ensures u.GetHost() == (if HostKey in info.server then info.server[HostKey] else info.request.host)
    ensures u.GetPort() == (if PortKey in info.server then info.server[PortKey] else info.request.port)
    ensures forall name :: name != "Authorization" ==>
      (u.HasHeader(name) <==> name in info.request.headers)
      && (name in info.request.headers ==> u.GetHeaders()[name] == info.request.headers[name])
    ensures UserKey in info.server ==>
      u.HasHeader("Authorization")
      && u.GetHeader("Authorization", false)
         == Line(BasicAuth.Credentials(info.server[UserKey], PasswordOf(info.server)))
    ensures UserKey !in info.server ==> u.GetHeaders() == info.request.headers
    ensures info.request.verb == "POST" && info.request.body.PostBody? ==>
      u.GetBody() == PostBody(if info.enclosure.Some? then info.enclosure.value else map[])
    ensures info.request.verb != "POST" || !info.request.body.PostBody? ==> u.GetBody() == info.request.body
    ensures u.GetUserAgent() == (if UserAgentKey in info.server then Some(info.server[UserAgentKey]) else None)
  {
    var m, server, enclosure := info.request, info.server, EnclosureOf(info);
    ConfiguredLocation(m, server, enclosure);
    ConfiguredAuthorization(m, server, enclosure);
    ConfiguredBody(m, server, enclosure);
  }

  /** A payload without form fields restores none: the form body of a POST
      request read from it ends up empty rather than keeping its old fields. */
  lemma MissingEnclosureClearsFields(u: UnifiedRequest, info: RecordedRequest)
    requires Delivers(u, info) && info.enclosure.None?
    requires info.request.verb == "POST" && info.request.body.PostBody?
    ensures u.GetBody() == PostBody(map[])
  {
    ConfiguredBody(info.request, info.server, EnclosureOf(info));
  }

  /** Decodes the reply body (`decode` stands for the deserializer) and builds
      the request the reader returns. */
  method ParseRequestFromReply(reply: Reply, path: Bytes, decode: Bytes -> Option<RecordedRequest>)
    returns (r: Result<UnifiedRequest, ReadError>)
    ensures decode(reply.body).None? ==> r == Failure(Undecodable(path, reply.body))
    ensures decode(reply.body).Some? ==>
      r.Success? && fresh(r.value) && fresh(r.value.wrapped) && Delivers(r.value, decode(reply.body).value)
  {
    var info := decode(reply.body);
    if info.None? {
      return Failure(Undecodable(path, reply.body));
    }
    var request := new Request.FromMessage(info.value.request);
    var params := ConfigureRequest(request, info.value.server, EnclosureOf(info.value));
    UserAgentFromServer(request, info.value.server);
    var unified := new UnifiedRequest(request, params);
    return Success(unified);
  }

  /** Checks a control reply and, only if it passes, decodes it. */
  method ParseReply(reply: Reply, path: Bytes, decode: Bytes -> Option<RecordedRequest>)
    returns (r: Result<UnifiedRequest, ReadError>)
    ensures CheckReply(reply, path).Fail? ==> r == Failure(CheckReply(reply, path).error)
    ensures CheckReply(reply, path).Pass? && decode(reply.body).None? ==>
      r == Failure(Undecodable(path, reply.body))
    ensures CheckReply(reply, path).Pass? && decode(reply.body).Some? ==>
      r.Success? && fresh(r.value) && fresh(r.value.wrapped) && Delivers(r.value, decode(reply.body).value)
  {
    var status := reply.status;
    if status != "200" {
      return Failure(UnexpectedStatus(path, status));
    }
    var contentType := if reply.contentType.Some? then reply.contentType.value else [];
    if Prefix(contentType, 10) != "text/plain" {
      return Failure(UnexpectedContentType(path, contentType));
    }
    r := ParseRequestFromReply(reply, path, decode);
  }

  /** `latest`, `last`, `first`, `at`, `pop` and `shift`: sends the lookup's
      control request and reads the recorded request from `reply`, the reply
      the server sends to it. */
  method Read(q: Lookup, reply: Reply, decode: Bytes -> Option<RecordedRequest>)
    returns (sent: Endpoint, r: Result<UnifiedRequest, ReadError>)
    requires !q.Count?
    ensures sent == EndpointOf(q)
    ensures CheckReply(reply, sent.path).Fail? ==> r == Failure(CheckReply(reply, sent.path).error)
    ensures CheckReply(reply, sent.path).Pass? && decode(reply.body).None? ==>
      r == Failure(Undecodable(sent.path, reply.body))
    ensures CheckReply(reply, sent.path).Pass? && decode(reply.body).Some? ==>
      r.Success? && fresh(r.value) && fresh(r.value.wrapped) && Delivers(r.value, decode(reply.body).value)
  {
    sent := EndpointOf(q);
    r := ParseReply(reply, sent.path, decode);
  }
}
