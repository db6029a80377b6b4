/**
 * The client core of go-bitly: how a request is shaped (the versioned path, the URL,
 * the three fixed headers), how a response is classified (the 2xx class of section 15.3
 * of RFC 9110) and how `Do` fills the caller's target, plus the Basic-auth transport that
 * forwards a copy of each request with an `Authorization` header.
 *
 * The network and JSON are not modelled: what `httpClient.Do` and the JSON decoders
 * produce for a request arrives as an `Exchange` value, and what the JSON encoder and
 * `http.NewRequest` make of a payload and a URL arrive as `Result`/`Option` inputs.
 */
module Bitly {
  import opened Wrappers
  import opened Text
  import Authentication

  const Version: string := "0.1.0"
  const DefaultBaseURL: string := "https://api-ssl.bitly.com"
  const DefaultUserAgent: string := "go-bitly/" + Version
  const ApiVersion: string := "v4"

  const ContentTypeHeader: string := "Content-Type"
  const AcceptHeader: string := "Accept"
  const UserAgentHeader: string := "User-Agent"
  const JsonMediaType: string := "application/json"

  // ---------------------------------------------------------------------------
  // Errors
  // ---------------------------------------------------------------------------

  /** One entry of the `errors` list of an API error body. */
  datatype ErrorJSON = ErrorJSON(field: string, message: string, errorCode: string)

  /** The JSON body of a failed API call. */
  datatype ErrorBody = ErrorBody(message: string, errors: seq<ErrorJSON>, resource: string, description: string)

  /**
   * Every error the core returns. `Transport`, `Encode` and `Decode` carry the text of an
   * error raised by code outside the model (the HTTP stack, the JSON encoder and decoder).
   */
  datatype Error =
    | TransportError(cause: string)
      /** The error `http.NewRequest` raised while building a request (a bad method or URL). */
    | RequestError(cause: string)
    | EncodeError(cause: string)
    | DecodeError(cause: string)
      /** `ErrorResponse`: the body of a non-2xx response and the request it answered. */
    | ApiError(verb: string, url: string, statusCode: int, body: ErrorBody)
      /** `errorParameter`: a required argument was empty. */
    | ParameterError(paramName: string)
      /** `errOptionsRequired`. */
    | OptionsRequired

  /** What follows the parameter name in an `errorParameter` text, with go-bitly's spelling. */
  const ParameterErrorSuffix: string := " paramater is required and cannot be empty"
  const OptionsRequiredText: string := "options cannot be empty"

  /**
   * `Error()` of each kind of error: an error raised outside the core keeps its own text,
   * an API error is framed by the request and the message, and the two fixed errors read
   * their fixed texts.
   */
  function ErrorText(e: Error): (r: string)
    ensures e.TransportError? || e.RequestError? || e.EncodeError? || e.DecodeError? ==> r == e.cause
    ensures e.ApiError? ==> IsPrefix(e.verb + " " + e.url + ": ", r) && IsSuffix(" " + e.body.message, r)
    ensures e.OptionsRequired? ==> r == "options cannot be empty"
  {
    match e
    case TransportError(cause) => cause
    case RequestError(cause) => cause
    case EncodeError(cause) => cause
    case DecodeError(cause) => cause
    case ApiError(verb, url, status, body) =>
      var head := verb + " " + url + ": ";
      var t := head + FormatInt(status) + " " + body.message;
      assert t[..|head|] == head;
      assert t[|t| - |" " + body.message|..] == " " + body.message;
      t
    case ParameterError(name) => name + ParameterErrorSuffix
    case OptionsRequired => OptionsRequiredText
  }

  /**
   * The text of an API error starts with the method and URL of the request, then gives the
   * status in decimal and ends with the message of the body.
   */
  lemma ApiErrorText(verb: string, url: string, status: nat, body: ErrorBody)
    ensures var t := ErrorText(ApiError(verb, url, status, body));
      exists digits ::
        && |digits| >= 1 && AllDigits(digits) && DigitsValue(digits) == status
        && (digits[0] == '0' ==> digits == "0")
        && t == verb + " " + url + ": " + digits + " " + body.message
  {
    var digits := FormatInt(status);
    assert |digits| >= 1 && AllDigits(digits) && DigitsValue(digits) == status;
  }

  /** A 403 answered with the message `FORBIDDEN` reads `... 403 FORBIDDEN`. */
  lemma ForbiddenText(verb: string, url: string, body: ErrorBody)
    requires body.message == "FORBIDDEN"
    ensures IsSuffix(": 403 FORBIDDEN", ErrorText(ApiError(verb, url, 403, body)))
  {
    assert FormatInt(403) == "403";
    var t := ErrorText(ApiError(verb, url, 403, body));
    assert t == (verb + " " + url) + ": 403 FORBIDDEN";
  }

  /** The parameter error names the parameter in front of the fixed text. */
  lemma ParameterErrorText(name: string)
    ensures |ErrorText(ParameterError(name))| == |name| + |ParameterErrorSuffix|
    ensures IsPrefix(name, ErrorText(ParameterError(name)))
    ensures IsSuffix(ParameterErrorSuffix, ErrorText(ParameterError(name)))
  {
    var t := ErrorText(ParameterError(name));
    assert t[..|name|] == name;
    assert t[|t| - |ParameterErrorSuffix|..] == ParameterErrorSuffix;
  }

  // ---------------------------------------------------------------------------
  // versioned
  // ---------------------------------------------------------------------------

  const VersionPrefix: string := "/" + ApiVersion + "/"

  /** `versioned`: the path, without any leading or trailing slash, under `/v4/`. */
  function Versioned(path: string): (r: string)
    ensures |r| >= 4 && r[..4] == "/v4/"
    ensures NoEdgeSlash(r[4..]) && SlashPadded(path, r[4..])
  {
    var trimmed := TrimSlashes(path);
    TrimSlashesPadded(path);
    var r := VersionPrefix + trimmed;
    assert r[4..] == trimmed;
    r
  }

  /** A path without slashes at its ends is put under `/v4/` unchanged. */
  lemma VersionedPlain(path: string)
    requires NoEdgeSlash(path)
    ensures Versioned(path) == "/v4/" + path
  {
    TrimUnpadded(path);
    assert Versioned(path) == VersionPrefix + path;
  }

  /** Slashes around the path make no difference. */
  lemma VersionedIgnoresSlashes(path: string)
    ensures Versioned("/" + path) == Versioned(path)
    ensures Versioned(path + "/") == Versioned(path)
  {
    TrimLeadingSlash(path);
    TrimTrailingSlash(path);
  }

  /** The path of the user resource. */
  lemma VersionedUser()
    ensures Versioned("user") == "/v4/user"
  {
    VersionedWord("user");
  }

  // Takes its literal through a parameter pinned by `requires`, which keeps literal unfolding stable.
  lemma VersionedWord(word: string)
    requires word == "user"
    ensures Versioned(word) == "/v4/user"
  {
    assert NoEdgeSlash(word) by {
      assert word[0] == 'u' && word[|word| - 1] == 'r';
    }
    VersionedPlain(word);
  }

  // ---------------------------------------------------------------------------
  // Response classification
  // ---------------------------------------------------------------------------

  /** The successful 2xx class of section 15.3 of RFC 9110. */
  predicate IsSuccess(status: int) {
    200 <= status <= 299
  }

  /**
   * `CheckResponse`: no error exactly for a 2xx status. Otherwise the body is decoded as an
   * error body; if that fails, the decoder's error is returned and the status is lost.
   */
  function CheckResponse(verb: string, url: string, status: int, asError: Result<ErrorBody, string>): (r: Option<Error>)
    ensures r.None? <==> IsSuccess(status)
    ensures !IsSuccess(status) && asError.Fail? ==> r == Some(DecodeError(asError.error))
    ensures !IsSuccess(status) && asError.Ok? ==> r == Some(ApiError(verb, url, status, asError.value))
  {
    if IsSuccess(status) then None
    else match asError
      case Fail(cause) => Some(DecodeError(cause))
      case Ok(body) => Some(ApiError(verb, url, status, body))
  }

  /** The statuses on either side of the 2xx class. */
  lemma CheckResponseBounds(verb: string, url: string, asError: Result<ErrorBody, string>)
    ensures CheckResponse(verb, url, 200, asError).None?
    ensures CheckResponse(verb, url, 299, asError).None?
    ensures CheckResponse(verb, url, 199, asError).Some?
    ensures CheckResponse(verb, url, 300, asError).Some?
  {
  }

  // ---------------------------------------------------------------------------
  // What a request comes back with
  // ---------------------------------------------------------------------------

  /**
   * What the network gives back for one request: either no response at all, or a status
   * together with what decoding its body would give, once as an error body and once as the
   * caller's target type.
   */
  datatype Exchange<T> =
    | Unreachable(cause: string)
    | Received(statusCode: int, asError: Result<ErrorBody, string>, asTarget: Result<T, string>)

  /**
   * The outcome of `Do` or `sendRequest`: the status of the response if there was one, the
   * error returned, and the value the target was filled with, if it was.
   */
  datatype Reply<T> = Reply(status: Option<int>, err: Option<Error>, filled: Option<T>)

  /**
   * The control flow of `Do` for a request with the given method and URL: a transport
   * failure returns no response; a non-2xx status returns the response and the error of
   * `CheckResponse`; a 2xx status fills the target when there is one.
   */
  function DoReply<T>(verb: string, url: string, exchange: Exchange<T>, hasTarget: bool): (r: Reply<T>)
    ensures r.status.Some? <==> exchange.Received?
    ensures r.status.Some? ==> r.status.value == exchange.statusCode
    ensures r.filled.Some? <==> hasTarget && exchange.Received? && IsSuccess(exchange.statusCode) && exchange.asTarget.Ok?
    ensures r.filled.Some? ==> r.filled.value == exchange.asTarget.value
    ensures r.err.None? <==> exchange.Received? && IsSuccess(exchange.statusCode) && (hasTarget ==> exchange.asTarget.Ok?)
    ensures exchange.Received? && !IsSuccess(exchange.statusCode) ==>
      r.err == CheckResponse(verb, url, exchange.statusCode, exchange.asError)
    ensures exchange.Unreachable? ==> r.err == Some(TransportError(exchange.cause))
    ensures exchange.Received? && IsSuccess(exchange.statusCode) && hasTarget && exchange.asTarget.Fail? ==>
      r.err == Some(DecodeError(exchange.asTarget.error))
  {
    match exchange
    case Unreachable(cause) => Reply(None, Some(TransportError(cause)), None)
    case Received(status, asError, asTarget) =>
      var checked := CheckResponse(verb, url, status, asError);
      if checked.Some? then Reply(Some(status), checked, None)
      else if !hasTarget then Reply(Some(status), None, None)
      else match asTarget
        case Fail(cause) => Reply(Some(status), Some(DecodeError(cause)), None)
        case Ok(v) => Reply(Some(status), None, Some(v))
  }

  /**
   * `sendRequest`: the outcome of building a request for `baseURL + path` and sending it.
   * A payload the encoder rejects, or a request `http.NewRequest` rejects, fails before
   * anything is sent.
   */
  function SendReply<T>(baseURL: string, verb: string, path: string, payload: Option<Result<seq<byte>, string>>,
                        rejected: Option<string>, exchange: Exchange<T>, hasTarget: bool): (r: Reply<T>)
    ensures payload.Some? && payload.value.Fail? ==> r == Reply(None, Some(EncodeError(payload.value.error)), None)
    ensures (payload.None? || payload.value.Ok?) && rejected.Some? ==> r == Reply(None, Some(RequestError(rejected.value)), None)
    ensures (payload.None? || payload.value.Ok?) && rejected.None? ==> r == DoReply(verb, baseURL + path, exchange, hasTarget)
  {
    if payload.Some? && payload.value.Fail? then Reply(None, Some(EncodeError(payload.value.error)), None)
    else if rejected.Some? then Reply(None, Some(RequestError(rejected.value)), None)
    else DoReply(verb, baseURL + path, exchange, hasTarget)
  }

  /** The request an operation sends, or the error it returns before sending anything. */
  datatype Call<P> =
    | Refuse(err: Error)
    | Send(verb: string, path: string, payload: Option<P>)

  /** The value left in a target that starts as `zero`, once `reply` is known. */
  function Filled<T>(zero: T, reply: Reply<T>): (v: T)
    ensures reply.filled.Some? ==> v == reply.filled.value
    ensures reply.filled.None? ==> v == zero
  {
    if reply.filled.Some? then reply.filled.value else zero
  }

  // ---------------------------------------------------------------------------
  // Requests and headers
  // ---------------------------------------------------------------------------

  /** `http.Header`: each name maps to its list of values. */
  class Header {
    var entries: map<string, seq<string>>

    constructor()
      ensures entries == map[]
    {
      entries := map[];
    }

    constructor Of(entries: map<string, seq<string>>)
      ensures this.entries == entries
    {
      this.entries := entries;
    }

    /** `Header.Set`: the name now has exactly the one value; other names keep theirs. */
    method Set(name: string, value: string)
      modifies this
      ensures entries == old(entries)[name := [value]]
    {
      entries := entries[name := [value]];
    }
  }

  /** The parts of an `http.Request` the client touches. */
  class Request {
    var verb: string
    var url: string
    var header: Header
    var body: seq<byte>

    constructor(verb: string, url: string, body: seq<byte>)
      ensures this.verb == verb && this.url == url && this.body == body
      ensures fresh(header) && header.entries == map[]
    {
      this.verb := verb;
      this.url := url;
      this.body := body;
      header := new Header();
    }
  }

  /** A value the caller hands to `Do` to be filled from a response body. */
  class Box<T> {
    var value: T

    constructor(value: T)
      ensures this.value == value
    {
      this.value := value;
    }
  }

  /** Copies a header map entry by entry, as the range loop of `RoundTrip` does. */
  method CopyEntries(h: map<string, seq<string>>) returns (c: map<string, seq<string>>)
    ensures c == h
  {
    c := map[];
    var pending := h.Keys;
    while pending != {}
      invariant pending <= h.Keys
      invariant c.Keys == h.Keys - pending
      invariant forall k :: k in c ==> c[k] == h[k]
      decreases pending
    {
      var k :| k in pending;
      c := c[k := h[k]];
      pending := pending - {k};
    }
    assert c.Keys == h.Keys;
  }

  // ---------------------------------------------------------------------------
  // The client
  // ---------------------------------------------------------------------------

  class Client {
    var baseURL: string
    var userAgent: string
    var debug: bool

    /** `NewClient`: the public API host, the library's own user agent, debugging off. */
    constructor NewClient()
      ensures baseURL == "https://api-ssl.bitly.com"
      ensures userAgent == "go-bitly/0.1.0"
      ensures !debug
    {
      baseURL := DefaultBaseURL;
      userAgent := DefaultUserAgent;
      debug := false;
    }

    /**
     * `NewRequest`: the URL is the base URL followed by the path, with nothing inserted or
     * removed; the body is the encoded payload, empty without one; the request carries JSON
     * content and accept headers and the client's user agent. `payload` is what the JSON
     * encoder made of the payload, `rejected` the error `http.NewRequest` raised, if any.
     */
    method NewRequest(verb: string, path: string, payload: Option<Result<seq<byte>, string>>, rejected: Option<string>)
      returns (req: Request?, err: Option<Error>)
      ensures payload.Some? && payload.value.Fail? ==> req == null && err == Some(EncodeError(payload.value.error))
      ensures (payload.None? || payload.value.Ok?) && rejected.Some? ==> req == null && err == Some(RequestError(rejected.value))
      ensures (payload.None? || payload.value.Ok?) && rejected.None? ==>
        && err.None? && req != null && fresh(req) && fresh(req.header)
        && req.verb == verb && req.url == baseURL + path
        && req.body == (if payload.None? then [] else payload.value.value)
        && req.header.entries.Keys == {ContentTypeHeader, AcceptHeader, UserAgentHeader}
        && req.header.entries[ContentTypeHeader] == [JsonMediaType]
        && req.header.entries[AcceptHeader] == [JsonMediaType]
        && req.header.entries[UserAgentHeader] == [userAgent]
    {
      var url := baseURL + path;
      var body: seq<byte> := [];
      if payload.Some? {
        match payload.value
        case Fail(cause) =>
          return null, Some(EncodeError(cause));
        case Ok(encoded) =>
          body := encoded;
      }
      if rejected.Some? {
        return null, Some(RequestError(rejected.value));
      }
      req := new Request(verb, url, body);
      req.header.Set(ContentTypeHeader, JsonMediaType);
      req.header.Set(AcceptHeader, JsonMediaType);
      req.header.Set(UserAgentHeader, userAgent);
      err := None;
    }

    /**
     * `Do`: sends the request and returns the status and error of `DoReply`; the target,
     * when there is one, changes only when a 2xx body decodes into it.
     */
    method Do<T>(req: Request, target: Box?<T>, exchange: Exchange<T>) returns (status: Option<int>, err: Option<Error>)
      modifies target
      ensures var r := DoReply(req.verb, req.url, exchange, target != null);
        status == r.status && err == r.err
        && (target != null ==> target.value == Filled(old(target.value), r))
    {
      if exchange.Unreachable? {
        return None, Some(TransportError(exchange.cause));
      }
      status := Some(exchange.statusCode);
      err := CheckResponse(req.verb, req.url, exchange.statusCode, exchange.asError);
      if err.Some? {
        return;
      }
      if target != null {
        match exchange.asTarget
        case Fail(cause) =>
          err := Some(DecodeError(cause));
        case Ok(v) =>
          target.value := v;
      }
    }

    /** `sendRequest`: `NewRequest`, then `Do` unless building the request failed. */
    method SendRequest<T>(path: string, payload: Option<Result<seq<byte>, string>>, target: Box?<T>, verb: string,
                          rejected: Option<string>, exchange: Exchange<T>)
      returns (status: Option<int>, err: Option<Error>)
      modifies target
      ensures var r := SendReply(old(baseURL), verb, path, payload, rejected, exchange, target != null);
        status == r.status && err == r.err
        && (target != null ==> target.value == Filled(old(target.value), r))
    {
      var req;
      req, err := NewRequest(verb, path, payload, rejected);
      if req == null {
        return None, err;
      }
      status, err := Do(req, target, exchange);
    }

    /** `get`: a GET without payload. */
    method Get<T>(path: string, target: Box?<T>, rejected: Option<string>, exchange: Exchange<T>)
      returns (status: Option<int>, err: Option<Error>)
      modifies target
      ensures var r := SendReply(old(baseURL), "GET", path, None, rejected, exchange, target != null);
        status == r.status && err == r.err
        && (target != null ==> target.value == Filled(old(target.value), r))
    {
      status, err := SendRequest(path, None, target, "GET", rejected, exchange);
    }

    /** `post`: a POST with the payload. */
    method Post<T>(path: string, payload: Option<Result<seq<byte>, string>>, target: Box?<T>, rejected: Option<string>,
                   exchange: Exchange<T>)
      returns (status: Option<int>, err: Option<Error>)
      modifies target
      ensures var r := SendReply(old(baseURL), "POST", path, payload, rejected, exchange, target != null);
        status == r.status && err == r.err
        && (target != null ==> target.value == Filled(old(target.value), r))
    {
      status, err := SendRequest(path, payload, target, "POST", rejected, exchange);
    }

    /** `put`: a PUT with the payload. */
    method Put<T>(path: string, payload: Option<Result<seq<byte>, string>>, target: Box?<T>, rejected: Option<string>,
                  exchange: Exchange<T>)
      returns (status: Option<int>, err: Option<Error>)
      modifies target
      ensures var r := SendReply(old(baseURL), "PUT", path, payload, rejected, exchange, target != null);
        status == r.status && err == r.err
        && (target != null ==> target.value == Filled(old(target.value), r))
    {
      status, err := SendRequest(path, payload, target, "PUT", rejected, exchange);
    }

    /** `patch`: a PATCH with the payload. */
    method Patch<T>(path: string, payload: Option<Result<seq<byte>, string>>, target: Box?<T>, rejected: Option<string>,
                    exchange: Exchange<T>)
      returns (status: Option<int>, err: Option<Error>)
      modifies target
      ensures var r := SendReply(old(baseURL), "PATCH", path, payload, rejected, exchange, target != null);
        status == r.status && err == r.err
        && (target != null ==> target.value == Filled(old(target.value), r))
    {
      status, err := SendRequest(path, payload, target, "PATCH", rejected, exchange);
    }

    /** `delete`: a DELETE with the payload. */
    method Delete<T>(path: string, payload: Option<Result<seq<byte>, string>>, target: Box?<T>, rejected: Option<string>,
                     exchange: Exchange<T>)
      returns (status: Option<int>, err: Option<Error>)
      modifies target
      ensures var r := SendReply(old(baseURL), "DELETE", path, payload, rejected, exchange, target != null);
        status == r.status && err == r.err
        && (target != null ==> target.value == Filled(old(target.value), r))
    {
      status, err := SendRequest(path, payload, target, "DELETE", rejected, exchange);
    }
  }

  // ---------------------------------------------------------------------------
  // BasicAuthTransport
  // ---------------------------------------------------------------------------

  /** The transport a request is finally handed to. */
  datatype RoundTripper = DefaultTransport | CustomTransport(name: string)

  /** A transport that adds HTTP Basic credentials to every request it forwards. */
  datatype BasicAuthTransport = BasicAuthTransport(username: GoString, password: GoString, transport: Option<RoundTripper>)
  {
    /** `transport()`: the configured transport, or the default one when none is set. */
    function Next(): (r: RoundTripper)
      ensures transport.Some? ==> r == transport.value
      ensures transport.None? ==> r == DefaultTransport
    {
      if transport.Some? then transport.value else DefaultTransport
    }

    /**
     * `RoundTrip`: forwards to `Next()` a fresh copy of the request whose header has every
     * original name and value plus `Authorization: Basic ...`; the caller's request and
     * header are not modified.
     */
    method RoundTrip(req: Request) returns (forwarded: Request, via: RoundTripper)
      ensures fresh(forwarded) && fresh(forwarded.header)
      ensures forwarded.verb == req.verb && forwarded.url == req.url && forwarded.body == req.body
      ensures forwarded.header.entries ==
        req.header.entries[Authentication.AuthorizationHeader :=
          [Authentication.BasicPrefix + Authentication.BasicAuth(username, password)]]
      ensures req.header.entries == old(req.header.entries)
      ensures via == Next()
    {
      forwarded := new Request(req.verb, req.url, req.body);
      var copied := CopyEntries(req.header.entries);
      forwarded.header := new Header.Of(copied);
      forwarded.header.Set(Authentication.AuthorizationHeader,
        Authentication.BasicPrefix + Authentication.BasicAuth(username, password));
      via := Next();
    }
  }

  /**
   * The forwarded header keeps every name of the original and adds only `Authorization`,
   * with the value that Basic credentials for the same user produce.
   */
  lemma ForwardedHeaderNames(original: map<string, seq<string>>, username: GoString, password: GoString)
    ensures var h := original[Authentication.AuthorizationHeader :=
        [Authentication.BasicPrefix + Authentication.BasicAuth(username, password)]];
      && h.Keys == original.Keys + {Authentication.AuthorizationHeader}
      && (forall k :: k in original && k != Authentication.AuthorizationHeader ==> h[k] == original[k])
      && h[Authentication.AuthorizationHeader]
         == [Authentication.Headers(Authentication.HttpBasic(username, password))[Authentication.AuthorizationHeader]]
  {
  }
}
