/** `UnifiedRequest`: a read-only view of a recorded request. It wraps a
    Guzzle request, adds the user agent the server observed, and forwards
    every other accessor to the wrapped request. */
module Unified {
  import opened Wrappers
  import opened PhpStrings
  import opened Guzzle

  /** A PHP value passed in the constructor's `$params` array. */
  datatype ParamValue = Text(text: Bytes) | Null | Object(request: Request)

  /** One entry of `$params`; the array is a sequence of entries in insertion order. */
  datatype Param = Param(key: Bytes, value: ParamValue)

  /** `property_exists` holds exactly for the two declared properties. */
  predicate IsDeclared(key: Bytes) {
    key == "wrapped" || key == "userAgent"
  }

  /** An entry for a declared property carries a value of that property's
      documented type: a request for `wrapped`, a string or null for `userAgent`. */
  predicate Fits(p: Param) {
    && (p.key == "wrapped" ==> p.value.Object?)
    && (p.key == "userAgent" ==> !p.value.Object?)
  }

  predicate WellTyped(params: seq<Param>) {
    forall i :: 0 <= i < |params| ==> Fits(params[i])
  }

  /** The values of the declared properties. */
  datatype Properties = Properties(wrapped: Request, userAgent: Option<Bytes>)

  function UserAgentOf(v: ParamValue): Option<Bytes> {
    if v.Text? then Some(v.text) else None
  }

  /** One step of `init`: assigns the entry's value if its key names a declared property. */
  function Store(props: Properties, p: Param): Properties
    requires Fits(p)
  {
    if p.key == "wrapped" then props.(wrapped := p.value.request)
    else if p.key == "userAgent" then props.(userAgent := UserAgentOf(p.value))
    else props
  }

  /** The properties after `init` has gone through all of `params` in order. */
  function Assign(props: Properties, params: seq<Param>): Properties
    requires WellTyped(params)
    decreases |params|
  {
    if params == [] then props
    else Store(Assign(props, params[..|params| - 1]), params[|params| - 1])
  }

  /** The value of the last entry with the given key, if any. */
  function LastFor(params: seq<Param>, key: Bytes): (r: Option<ParamValue>)
    ensures r.Some? ==> exists i :: 0 <= i < |params| && params[i] == Param(key, r.value)
    ensures r.None? ==> forall i :: 0 <= i < |params| ==> params[i].key != key
  {
    if params == [] then None
    else
      var later := LastFor(params[1..], key);
      if later.Some? then later
      else if params[0].key == key then Some(params[0].value)
      else None
  }

  /** The entries whose keys name a declared property. */
  function DeclaredOnly(params: seq<Param>): (r: seq<Param>)
    ensures forall i :: 0 <= i < |r| ==> IsDeclared(r[i].key)
    ensures WellTyped(params) ==> WellTyped(r)
  {
    if params == [] then []
    else if IsDeclared(params[|params| - 1].key) then DeclaredOnly(params[..|params| - 1]) + [params[|params| - 1]]
    else DeclaredOnly(params[..|params| - 1])
  }

  /** An entry appended at the end is the last one for its key. */
  lemma {:induction false} LastForSnoc(params: seq<Param>, p: Param, key: Bytes)
    ensures LastFor(params + [p], key) == if p.key == key then Some(p.value) else LastFor(params, key)
    decreases |params|
  {
    if params == [] {
      assert [] + [p] == [p];
    } else {
      assert (params + [p])[1..] == params[1..] + [p];
      LastForSnoc(params[1..], p, key);
    }
  }

  /** After `init`, each declared property holds the value of the last entry
      naming it, and keeps its old value when no entry names it. */
  lemma {:induction false} AssignIsLastWrite(props: Properties, params: seq<Param>)
    requires WellTyped(params)
    ensures Assign(props, params).wrapped ==
      match LastFor(params, "wrapped") case None => props.wrapped case Some(v) => v.request
    ensures Assign(props, params).userAgent ==
      match LastFor(params, "userAgent") case None => props.userAgent case Some(v) => UserAgentOf(v)
    decreases |params|
  {
    if params != [] {
      var init, p := params[..|params| - 1], params[|params| - 1];
      assert params == init + [p];
      AssignIsLastWrite(props, init);
      LastForSnoc(init, p, "wrapped");
      LastForSnoc(init, p, "userAgent");
      assert Fits(p);
    }
  }

  /** `init` is blind to entries that do not name a declared property:
      dropping them changes nothing. */
  lemma {:induction false} AssignOnlyDeclared(props: Properties, params: seq<Param>)
    requires WellTyped(params)
    ensures Assign(props, params) == Assign(props, DeclaredOnly(params))
    decreases |params|
  {
    if params != [] {
      var init, p := params[..|params| - 1], params[|params| - 1];
      AssignOnlyDeclared(props, init);
      if IsDeclared(p.key) {
        var d := DeclaredOnly(init) + [p];
        assert d[..|d| - 1] == DeclaredOnly(init);
      }
    }
  }

  /** Params none of whose keys names a declared property leave every property as it was. */
  lemma AssignUndeclaredIsIdentity(props: Properties, params: seq<Param>)
    requires WellTyped(params)
    requires forall i :: 0 <= i < |params| ==> !IsDeclared(params[i].key)
    ensures Assign(props, params) == props
  {
    AssignOnlyDeclared(props, params);
    NoDeclared(params);
  }

  lemma {:induction false} NoDeclared(params: seq<Param>)
    requires forall i :: 0 <= i < |params| ==> !IsDeclared(params[i].key)
    ensures DeclaredOnly(params) == []
    decreases |params|
  {
    if params != [] {
      NoDeclared(params[..|params| - 1]);
    }
  }

  class UnifiedRequest {
    var wrapped: Request
    var userAgent: Option<Bytes>

    function Props(): Properties
      reads this
    {
      Properties(wrapped, userAgent)
    }

    /** Wraps `wrapped`, with no user agent, then runs `init` over `params`. */
    constructor (wrapped: Request, params: seq<Param>)
      requires WellTyped(params)
      ensures Props() == Assign(Properties(wrapped, None), params)
      ensures params == [] ==> GetUserAgent() == None && this.wrapped == wrapped
    {
      this.wrapped := wrapped;
      userAgent := None;
      new;
      Init(params);
    }

    /** Assigns each entry of `params` whose key names a declared property,
        in order, and skips every other entry. */
    method Init(params: seq<Param>)
      requires WellTyped(params)
      modifies this
      ensures Props() == Assign(old(Props()), params)
    {
      var i := 0;
      while i < |params|
        invariant 0 <= i <= |params|
        invariant Props() == Assign(old(Props()), params[..i])
      {
        var p := params[i];
        assert Fits(p);
        if IsDeclared(p.key) {
          if p.key == "wrapped" {
            wrapped := p.value.request;
          } else {
            userAgent := UserAgentOf(p.value);
          }
        }
        assert params[..i + 1][..i] == params[..i];
        i := i + 1;
      }
      assert params[..|params|] == params;
    }

    /** The user agent the server observed, or null. */
    function GetUserAgent(): Option<Bytes>
      reads this
    {
      userAgent
    }

    function GetProtocolVersion(): Bytes
      reads this, wrapped
    {
      wrapped.GetProtocolVersion()
    }

    function GetBody(): Body
      reads this, wrapped
    {
      wrapped.GetBody()
    }

    function GetHeaders(): map<Bytes, seq<Bytes>>
      reads this, wrapped
    {
      wrapped.GetHeaders()
    }

    /** A header's values joined into one line: the wrapped request is always
        asked with `asArray` false, whatever the caller passes. */
    function GetHeader(header: Bytes, asArray: bool): (r: HeaderValue)
      reads this, wrapped
      ensures r == wrapped.GetHeader(header, false)
      ensures r.Line?
    {
      wrapped.GetHeader(header, false)
    }

    /** What the documentation of `getHeader` promises: the values as a list
        when `asArray` is set, joined into one line otherwise. */
    function GetHeaderAsDocumented(header: Bytes, asArray: bool): (r: HeaderValue)
      reads this, wrapped
      ensures r == wrapped.GetHeader(header, asArray)
      ensures r.Values? <==> asArray
    {
      wrapped.GetHeader(header, asArray)
    }

    function HasHeader(header: Bytes): bool
      reads this, wrapped
    {
      wrapped.HasHeader(header)
    }

    function GetUrl(): Bytes
      reads this, wrapped
    {
      wrapped.GetUrl()
    }

    function GetResource(): Bytes
      reads this, wrapped
    {
      wrapped.GetResource()
    }

    function GetQuery(): Bytes
      reads this, wrapped
    {
      wrapped.GetQuery()
    }

    function GetMethod(): Bytes
      reads this, wrapped
    {
      wrapped.GetMethod()
    }

    function GetScheme(): Bytes
      reads this, wrapped
    {
      wrapped.GetScheme()
    }

    function GetPort(): Bytes
      reads this, wrapped
    {
      wrapped.GetPort()
    }

    function GetHost(): Bytes
      reads this, wrapped
    {
      wrapped.GetHost()
    }

    function GetPath(): Bytes
      reads this, wrapped
    {
      wrapped.GetPath()
    }
  }

  /** Asking for the values of a header as a list still yields one joined
      line, which is not what the wrapped request returns for that call. */
  lemma GetHeaderIgnoresAsArray(u: UnifiedRequest, header: Bytes)
    ensures u.GetHeader(header, true) == u.GetHeader(header, false)
    ensures u.GetHeader(header, true) != u.wrapped.GetHeader(header, true)
    ensures u.GetHeader(header, true) != u.GetHeaderAsDocumented(header, true)
  {
  }
}
