/**
  `make_api_request` of vectra_auth.py: the request URL, the headers, the dispatch on the
  method name and the classification of the answer. The transport's answer is a parameter:
  `None` stands for an exception raised by the HTTP library.
 */
module ApiRequest {

  import opened Wrappers
  import opened Text
  import opened Config
  import opened TokenManager

  datatype HttpMethod = GET | POST | PATCH | DELETE

  datatype HttpResponse<B> = HttpResponse(status: int, body: B)

  /** A request to the platform with query parameters `P` and JSON body `D`. */
  datatype ApiRequest<P, D> = ApiRequest(
    verb: HttpMethod,
    url: string,
    authorization: string,
    accept: string,
    contentType: Option<string>,
    params: P,
    json: Option<D>)

  /** The response (whatever its status) with its success classification; no response; or the `KeyError` of a record without `access_token`. */
  datatype ApiResult<B> = Returned(response: HttpResponse<B>, success: bool) | NoResponse | KeyErrorRaised

  /** What one call did: the request sent, if any, and what it returned. */
  datatype ApiCall<P, D, B> = ApiCall(sent: Option<ApiRequest<P, D>>, result: ApiResult<B>)

  const SuccessStatuses: set<int> := {200, 201, 202, 204}

  /** The name under which a method is spelled in upper case. */
  function Name(m: HttpMethod): string {
    match m
    case GET => "GET"
    case POST => "POST"
    case PATCH => "PATCH"
    case DELETE => "DELETE"
  }

  /** `method.upper()` compared with the four supported names: the method is the one so named. */
  function ParseMethod(name: string): (m: Option<HttpMethod>)
    ensures m.Some? <==> Upper(name) in ["GET", "POST", "PATCH", "DELETE"]
    ensures m.Some? ==> Name(m.value) == Upper(name)
  {
    var u := Upper(name);
    if u == "GET" then Some(GET)
    else if u == "POST" then Some(POST)
    else if u == "PATCH" then Some(PATCH)
    else if u == "DELETE" then Some(DELETE)
    else None
  }

  /** Every method is parsed back from its own name. */
  lemma ParseName(m: HttpMethod)
    ensures ParseMethod(Name(m)) == Some(m)
  {
    assert Upper(Name(m)) == Name(m);
  }

  /** Upper-casing ignores how the letters were cased to begin with. */
  lemma UpperOfLower(s: string)
    ensures Upper(Lower(s)) == Upper(s)
  {
    assert forall i :: 0 <= i < |s| ==> Upper(Lower(s))[i] == Upper(s)[i];
  }

  /** The method name is matched whatever the case of its letters. */
  lemma ParseMethodIgnoresCase(name: string)
    ensures ParseMethod(Lower(name)) == ParseMethod(name)
  {
    UpperOfLower(name);
  }

  /** The configured URL followed by the endpoint without its leading slashes. */
  function RequestUrl(cfg: Config, endpoint: string): (url: string)
    ensures |cfg.vectraUrl| <= |url| && url[..|cfg.vectraUrl|] == cfg.vectraUrl
    ensures var rest := url[|cfg.vectraUrl|..];
      && EndsWith(endpoint, rest)
      && (forall i :: 0 <= i < |endpoint| - |rest| ==> endpoint[i] == '/')
      && (rest == [] || rest[0] != '/')
  {
    var rest := LStrip(endpoint, '/');
    assert (cfg.vectraUrl + rest)[|cfg.vectraUrl|..] == rest;
    cfg.vectraUrl + rest
  }

  function Slashes(n: nat): string {
    seq(n, _ => '/')
  }

  /** Any number of leading slashes on the endpoint leads to the same URL. */
  lemma {:induction false} LeadingSlashesIgnored(cfg: Config, n: nat, endpoint: string)
    ensures RequestUrl(cfg, Slashes(n) + endpoint) == RequestUrl(cfg, endpoint)
    decreases n
  {
    if n > 0 {
      var s := Slashes(n) + endpoint;
      assert s[0] == '/' && s[1..] == Slashes(n - 1) + endpoint;
      LeadingSlashesIgnored(cfg, n - 1, endpoint);
    } else {
      assert Slashes(n) + endpoint == endpoint;
    }
  }

  /**
    `make_api_request` with a token and a configuration supplied. A record without an access
    token raises before anything is sent; an unsupported method sends nothing and returns
    `None`; otherwise one request is sent and the response is returned whatever its status,
    marked successful for 200, 201, 202 and 204.
   */
  function MakeApiRequest<P, D, B>(cfg: Config, token: TokenRecord, endpoint: string, methodName: string,
                                   params: P, data: Option<D>, reply: Option<HttpResponse<B>>)
    : (c: ApiCall<P, D, B>)
    ensures c.result.KeyErrorRaised? <==> token.accessToken.None?
    ensures c.sent.Some? <==> token.accessToken.Some? && ParseMethod(methodName).Some?
    ensures c.sent.Some? ==>
      var r := c.sent.value;
      && r.verb == ParseMethod(methodName).value
      && r.url == RequestUrl(cfg, endpoint)
      && r.authorization == "Bearer " + token.accessToken.value
      && r.params == params
      && r.accept == "application/json"
      && ((r.verb == POST || r.verb == PATCH) ==> r.contentType == Some("application/json") && r.json == data)
      && (!(r.verb == POST || r.verb == PATCH) ==> r.contentType.None? && r.json.None?)
    ensures c.result.Returned? <==> c.sent.Some? && reply.Some?
    ensures c.result.Returned? ==>
      c.result.response == reply.value && (c.result.success <==> reply.value.status in SuccessStatuses)
  {
    if token.accessToken.None? then ApiCall(None, KeyErrorRaised)
    else
      var url := RequestUrl(cfg, endpoint);
      var bearer := "Bearer " + token.accessToken.value;
      match ParseMethod(methodName)
      case None => ApiCall(None, NoResponse)
      case Some(m) =>
        var request :=
          if m == POST || m == PATCH then ApiRequest(m, url, bearer, JsonAccept, Some("application/json"), params, data)
          else ApiRequest(m, url, bearer, JsonAccept, None, params, None);
        match reply
        case None => ApiCall(Some(request), NoResponse)
        case Some(response) => ApiCall(Some(request), Returned(response, response.status in SuccessStatuses))
  }
}
