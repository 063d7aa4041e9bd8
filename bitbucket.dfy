/**
 * The Bitbucket API client of scripts/bitbucket.py: the status-code table and
 * its two checks, the bearer-token request decorator, and the URL building and
 * status check of the pull-request fetch. The HTTP traffic itself is a
 * parameter (`server`), the remote reply an abstract `Response`.
 */
module Bitbucket {
  import opened Results

  // ---------------------------------------------------------------------------
  // JSON bodies, responses and the exceptions the module raises
  // ---------------------------------------------------------------------------

  /** A decoded JSON document (numbers other than integers are not modelled). */
  datatype Json =
    | JObject(fields: map<string, Json>)
    | JArray(items: seq<Json>)
    | JString(text: string)
    | JNumber(n: int)
    | JBool(b: bool)
    | JNull

  /** What the remote service answered: a status code and the decoded body. */
  datatype Response = Response(status: int, body: Json)

  /**
   * The text of a BitbucketException. `Mapped` is an entry of ERROR_MAP;
   * `Dumped(v)` is the sorted, 4-space indented dump of `v` followed by a
   * newline; `DumpedDecoded(s)` is the same dump of the document `s` encodes.
   */
  datatype Message =
    | Mapped(text: string)
    | Dumped(value: Json)
    | DumpedDecoded(encoded: string)

  /** The exceptions the modelled code can raise. */
  datatype Failure =
    | BitbucketException(message: Message)
    | NameError(text: string)
    | KeyError(key: string)
    | TypeError

  const Forbidden403 := "HTTP 403 Forbidden - Does your bitbucket user have rights to the repo?"
  const NotFound404 := "HTTP 404 Not Found - Does the repo supplied exist?"
  const Unauthorized400 := "HTTP 401 Unauthorized - Are your bitbucket credentials correct?"

  /** ERROR_MAP: the canned message for each status code that has one. */
  const ErrorMap: map<int, string> :=
    map[403 := Forbidden403, 404 := NotFound404, 400 := Unauthorized400]

  /** The NameError Python raises when the fallback of check_status_code reads `r`. */
  const UndefinedR := NameError("name 'r' is not defined")

  /** The NameError json_pp raises for a body that is neither a dict nor a str. */
  const NotJsonLike := NameError("Must be a dictionary or json-formatted string")

  // ---------------------------------------------------------------------------
  // json_pp: only the type dispatch is modelled
  // ---------------------------------------------------------------------------

  /** json_pp: a dict is dumped, a str is decoded and then dumped, anything else is refused. */
  function JsonPp(json: Json): (r: Result<Message, Failure>)
    ensures r.Ok? <==> json.JObject? || json.JString?
    ensures json.JObject? ==> r == Ok(Dumped(json))
    ensures json.JString? ==> r == Ok(DumpedDecoded(json.text))
    ensures r.Err? ==> r.error == NotJsonLike
  {
    match json
    case JObject(_) => Ok(Dumped(json))
    case JString(s) => Ok(DumpedDecoded(s))
    case _ => Err(NotJsonLike)
  }

  // ---------------------------------------------------------------------------
  // check_status_code
  // ---------------------------------------------------------------------------

  /**
   * check_status_code: 200 and 201 pass; a code in ERROR_MAP raises its
   * message; any other code evaluates `r.json()` with no `r` in scope and so
   * raises NameError, whatever the body.
   */
  function CheckStatusCode(request: Response): (o: Outcome<Failure>)
    ensures o.Pass? <==> request.status == 200 || request.status == 201
    ensures request.status in {400, 403, 404} ==>
              o == Fail(BitbucketException(Mapped(ErrorMap[request.status])))
    ensures request.status == 400 ==> o == Fail(BitbucketException(Mapped(Unauthorized400)))
    ensures o.Fail? && request.status !in ErrorMap ==> o.error == UndefinedR
    ensures o.Fail? && o.error.BitbucketException? ==> request.status in ErrorMap
  {
    if request.status !in [200, 201] then
      if request.status in ErrorMap then Fail(BitbucketException(Mapped(ErrorMap[request.status])))
      else Fail(UndefinedR)
    else
      Pass
  }

  /** Whatever the body, only the status code decides the outcome of check_status_code. */
  lemma CheckStatusCodeIgnoresBody(a: Response, b: Response)
    requires a.status == b.status
    ensures CheckStatusCode(a) == CheckStatusCode(b)
  {
  }

  // ---------------------------------------------------------------------------
  // request_access_token, after the POST
  // ---------------------------------------------------------------------------

  /**
   * The status branch and return of request_access_token, given the reply
   * of the token endpoint. Only 200 is accepted; the token is the
   * `access_token` field of the body.
   */
  function RequestAccessToken(r: Response): (t: Result<Json, Failure>)
    ensures t.Ok? ==> r.status == 200 && r.body.JObject? && "access_token" in r.body.fields
                      && t.value == r.body.fields["access_token"]
    ensures r.status == 200 && r.body.JObject? && "access_token" in r.body.fields ==> t.Ok?
    ensures r.status == 201 ==> t.Err?
    ensures r.status in {400, 403, 404} ==>
              t == Err(BitbucketException(Mapped(ErrorMap[r.status])))
    ensures r.status != 200 && r.status !in ErrorMap ==>
              t == (match JsonPp(r.body)
                    case Ok(m) => Err(BitbucketException(m))
                    case Err(e) => Err(e))
    ensures r.status == 200 && r.body.JObject? && "access_token" !in r.body.fields ==>
              t == Err(KeyError("access_token"))
    ensures r.status == 200 && !r.body.JObject? ==> t == Err(TypeError)
    ensures t != Err(UndefinedR)
  {
    if r.status != 200 then
      if r.status in ErrorMap then Err(BitbucketException(Mapped(ErrorMap[r.status])))
      else
        match JsonPp(r.body)
        case Ok(m) => Err(BitbucketException(m))
        case Err(e) => Err(e)
    else
      match r.body
      case JObject(fields) =>
        if "access_token" in fields then Ok(fields["access_token"]) else Err(KeyError("access_token"))
      case _ => Err(TypeError)
  }

  /**
   * The two checks disagree on 201: check_status_code lets it through,
   * request_access_token raises.
   */
  lemma TokenRequestStricterThanStatusCheck(r: Response)
    ensures RequestAccessToken(r).Ok? ==> CheckStatusCode(r).Pass?
    ensures r.status == 201 ==> CheckStatusCode(r).Pass? && RequestAccessToken(r).Err?
  {
  }

  // ---------------------------------------------------------------------------
  // Headers and the bearer-token decorator
  // ---------------------------------------------------------------------------

  /** ASCII lower-casing of one character. */
  function LowerChar(c: char): (l: char) {
    if 'A' <= c <= 'Z' then (c as int + 32) as char else c
  }

  /** ASCII lower-casing of a header name. */
  function Lower(s: string): (l: string)
    ensures |l| == |s|
  {
    seq(|s|, i requires 0 <= i < |s| => LowerChar(s[i]))
  }

  /**
   * A case-insensitive header dictionary, as the HTTP library keeps it: each
   * lower-cased name maps to the name as last written and its value.
   */
  type Headers = map<string, (string, string)>

  /** Every key is the lower-cased form of the name stored under it. */
  ghost predicate WellKeyed(h: Headers) {
    forall k :: k in h ==> k == Lower(h[k].0)
  }

  /** Looking a header up by any spelling of its name. */
  function Get(h: Headers, name: string): (v: Option<string>)
    ensures v.Some? <==> Lower(name) in h
  {
    if Lower(name) in h then Some(h[Lower(name)].1) else None
  }

  /** The key "Authorization" is stored under. */
  const AuthKey := "authorization"

  lemma AuthKeyIsLowered()
    ensures Lower("Authorization") == AuthKey
  {
  }

  /** `headers['Authorization'] = "Bearer " + token` on a case-insensitive dictionary. */
  function Authorize(h: Headers, token: string): (a: Headers)
    ensures a.Keys == h.Keys + {AuthKey}
    ensures Get(a, "Authorization") == Some("Bearer " + token)
    ensures forall k :: k in h && k != AuthKey ==> a[k] == h[k]
    ensures WellKeyed(h) ==> WellKeyed(a)
  {
    AuthKeyIsLowered();
    h[AuthKey := ("Authorization", "Bearer " + token)]
  }

  /**
   * After the decorator, a header whose name is not some spelling of
   * "Authorization" reads as it did before, and every spelling of
   * "Authorization" reads the bearer token.
   */
  lemma AuthorizeLeavesOthers(h: Headers, token: string, name: string)
    ensures Lower(name) != AuthKey ==> Get(Authorize(h, token), name) == Get(h, name)
    ensures Lower(name) == AuthKey ==> Get(Authorize(h, token), name) == Some("Bearer " + token)
  {
  }

  /** Decorating twice with the same token is the same as decorating once. */
  lemma AuthorizeIdempotent(h: Headers, token: string)
    ensures Authorize(Authorize(h, token), token) == Authorize(h, token)
  {
  }

  /** The outgoing request that the HTTP library hands to an auth object. */
  class PreparedRequest {
    var url: string
    var headers: Headers

    constructor (url: string, headers: Headers)
      ensures this.url == url && this.headers == headers
    {
      this.url := url;
      this.headers := headers;
    }
  }

  /** BitbucketOAuth: holds the access token and stamps it on each request. */
  class BitbucketOAuth {
    var accessToken: string

    constructor (accessToken: string)
      ensures this.accessToken == accessToken
    {
      this.accessToken := accessToken;
    }

    /**
     * __call__: sets the Authorization header in place, changes nothing
     * else about the request, and hands back the same request object.
     */
    method Call(r: PreparedRequest) returns (same: PreparedRequest)
      modifies r
      ensures same == r
      ensures r.headers == Authorize(old(r.headers), accessToken)
      ensures r.url == old(r.url)
    {
      r.headers := Authorize(r.headers, accessToken);
      same := r;
    }
  }

  // ---------------------------------------------------------------------------
  // get_open_prs
  // ---------------------------------------------------------------------------

  const ApiPrefix := "https://api.bitbucket.org/2.0/repositories/"

  /** The URL before any keyword argument is appended. */
  function BaseUrl(project: string, repo: string, prNo: string, state: string): (u: string) {
    ApiPrefix + project + "/" + repo + "/pullrequests/" + prNo + "?pagelen=30&state=" + state
  }

  /** One keyword argument as the loop appends it. */
  function Param(kv: (string, string)): (q: string) {
    "?" + kv.0 + "=" + kv.1
  }

  /** The text the loop appends for the keyword arguments, in iteration order. */
  function QueryTail(kwargs: seq<(string, string)>): (q: string) {
    if kwargs == [] then "" else QueryTail(kwargs[..|kwargs| - 1]) + Param(kwargs[|kwargs| - 1])
  }

  /** The URL get_open_prs requests. */
  function GetUrl(project: string, repo: string, prNo: string, state: string,
                  kwargs: seq<(string, string)>): (u: string)
  {
    BaseUrl(project, repo, prNo, state) + QueryTail(kwargs)
  }

  /** The outcome get_open_prs derives from the reply: the reply itself, or the exception. */
  function Checked(response: Response): (r: Result<Response, Failure>)
    ensures r.Ok? <==> CheckStatusCode(response).Pass?
    ensures r.Ok? ==> r.value == response && r.value.status in {200, 201}
    ensures r.Err? ==> Fail(r.error) == CheckStatusCode(response)
  {
    match CheckStatusCode(response)
    case Pass => Ok(response)
    case Fail(e) => Err(e)
  }

  /**
   * get_open_prs: builds the URL, decorates the request with the bearer
   * token, sends it (`server` stands for the remote service, given the URL
   * and headers it receives) and passes the reply through check_status_code.
   * `sessionHeaders` are the headers the HTTP library prepares by itself.
   */
  method GetOpenPrs(project: string, repo: string, accessToken: string,
                    server: (string, Headers) -> Response, sessionHeaders: Headers,
                    state: string := "OPEN", prNo: string := "",
                    kwargs: seq<(string, string)> := [])
    returns (result: Result<Response, Failure>)
    ensures result == Checked(server(GetUrl(project, repo, prNo, state, kwargs),
                                     Authorize(sessionHeaders, accessToken)))
    ensures result.Ok? ==> result.value.status == 200 || result.value.status == 201
  {
    var getUrl := BaseUrl(project, repo, prNo, state);
    for i := 0 to |kwargs|
      invariant getUrl == BaseUrl(project, repo, prNo, state) + QueryTail(kwargs[..i])
    {
      var (k, v) := kwargs[i];
      assert kwargs[..i + 1][..i] == kwargs[..i];
      getUrl := getUrl + "?" + k + "=" + v;
    }
    assert kwargs[..|kwargs|] == kwargs;

    var request := new PreparedRequest(getUrl, sessionHeaders);
    var auth := new BitbucketOAuth(accessToken);
    request := auth.Call(request);
    var r := server(request.url, request.headers);

    match CheckStatusCode(r)
    case Pass => result := Ok(r);
    case Fail(e) => result := Err(e);
  }

  // ---------------------------------------------------------------------------
  // Properties of the URL
  // ---------------------------------------------------------------------------

  /** Number of occurrences of `c` in `s`. */
  function Count(s: string, c: char): (n: nat) {
    if s == [] then 0 else (if s[0] == c then 1 else 0) + Count(s[1..], c)
  }

  lemma {:induction false} CountAppend(a: string, b: string, c: char)
    ensures Count(a + b, c) == Count(a, c) + Count(b, c)
  {
    if a == [] {
      assert a + b == b;
    } else {
      assert (a + b)[1..] == a[1..] + b;
      CountAppend(a[1..], b, c);
    }
  }

  /** Each keyword argument contributes exactly its own text: the tail of a concatenation. */
  lemma {:induction false} QueryTailAppend(a: seq<(string, string)>, b: seq<(string, string)>)
    ensures QueryTail(a + b) == QueryTail(a) + QueryTail(b)
    decreases |b|
  {
    if b == [] {
      assert a + b == a;
    } else {
      var ab := a + b;
      assert ab[..|ab| - 1] == a + b[..|b| - 1];
      QueryTailAppend(a, b[..|b| - 1]);
    }
  }

  /** With no keyword arguments the URL is the base string; with any, it starts with it. */
  lemma GetUrlExtendsBase(project: string, repo: string, prNo: string, state: string,
                          kwargs: seq<(string, string)>)
    ensures kwargs == [] ==> GetUrl(project, repo, prNo, state, kwargs) == BaseUrl(project, repo, prNo, state)
    ensures BaseUrl(project, repo, prNo, state) <= GetUrl(project, repo, prNo, state, kwargs)
  {
  }

  /** With the default state and no pull-request number, the collection URL of open requests. */
  lemma DefaultUrl(project: string, repo: string)
    ensures GetUrl(project, repo, "", "OPEN", [])
            == "https://api.bitbucket.org/2.0/repositories/" + project + "/" + repo
               + "/pullrequests/?pagelen=30&state=OPEN"
  {
  }

  /** No character `c` in any key or value. */
  predicate FreeOf(kwargs: seq<(string, string)>, c: char) {
    forall i :: 0 <= i < |kwargs| ==> Count(kwargs[i].0, c) == 0 && Count(kwargs[i].1, c) == 0
  }

  /**
   * Every keyword argument is introduced by its own '?' and none by '&':
   * the appended text holds one '?' per argument and no '&'.
   */
  lemma {:induction false} QueryTailSeparators(kwargs: seq<(string, string)>)
    requires FreeOf(kwargs, '?') && FreeOf(kwargs, '&')
    ensures Count(QueryTail(kwargs), '?') == |kwargs|
    ensures Count(QueryTail(kwargs), '&') == 0
  {
    if kwargs != [] {
      var init := kwargs[..|kwargs| - 1];
      var (k, v) := kwargs[|kwargs| - 1];
      assert FreeOf(init, '?') && FreeOf(init, '&');
      QueryTailSeparators(init);
      CountAppend(QueryTail(init), Param((k, v)), '?');
      CountAppend(QueryTail(init), Param((k, v)), '&');
      CountAppend("?" + k, "=" + v, '?');
      CountAppend("?" + k, "=" + v, '&');
      CountAppend("?", k, '?');
      CountAppend("?", k, '&');
      CountAppend("=", v, '?');
      CountAppend("=", v, '&');
      assert Param((k, v)) == ("?" + k) + ("=" + v);
    }
  }

  /**
   * The keyword arguments add one '?' each and no '&' to the base URL:
   * they are always joined with '?', never with '&'.
   */
  lemma {:induction false} GetUrlSeparators(project: string, repo: string, prNo: string, state: string,
                                            kwargs: seq<(string, string)>)
    requires FreeOf(kwargs, '?') && FreeOf(kwargs, '&')
    ensures Count(GetUrl(project, repo, prNo, state, kwargs), '?')
            == Count(BaseUrl(project, repo, prNo, state), '?') + |kwargs|
    ensures Count(GetUrl(project, repo, prNo, state, kwargs), '&')
            == Count(BaseUrl(project, repo, prNo, state), '&')
  {
    QueryTailSeparators(kwargs);
    CountAppend(BaseUrl(project, repo, prNo, state), QueryTail(kwargs), '?');
    CountAppend(BaseUrl(project, repo, prNo, state), QueryTail(kwargs), '&');
  }
}
