/**
  The token lifecycle of vectra_auth.py: `get_token` decides between the cached token, a
  refresh and a new client-credentials grant; `refresh_token` performs the refresh grant.
  The token files are a map from file name to content, the identity endpoint one abstract
  reply per call, and the clock a number of seconds passed in as `now`.
 */
module TokenManager {

  import opened Wrappers
  import opened Text
  import Base64
  import opened Config

  /** A key of the token record: absent, holding a usable value, or holding one the date arithmetic rejects. */
  datatype Field<T> = Absent | Given(value: T) | Malformed

  /** The keys of a token record that the lifecycle reads; `timestamp` is in seconds. */
  datatype TokenRecord = TokenRecord(
    accessToken: Option<string>,
    expiresIn: Field<int>,
    refreshToken: Option<string>,
    refreshExpiresIn: Field<int>,
    timestamp: Field<int>)

  /** The content of an existing token file: a record, or text `json.load` rejects. */
  datatype Cached = Readable(record: TokenRecord) | Unreadable

  /** The answer of the identity endpoint: a status and a body that is a JSON object or not; or a transport exception. */
  datatype IdentityReply = Answered(status: int, body: Option<TokenRecord>) | TransportError

  /** A POST to the identity endpoint. `basicAuth` is the pair handed to the HTTP library as `auth=`. */
  datatype TokenRequest = TokenRequest(
    url: string,
    contentType: string,
    accept: string,
    authorization: Option<string>,
    basicAuth: Option<(string, string)>,
    payload: string)

  /** The three ways `get_token` can proceed once it has a configuration. */
  datatype Plan = UseCached(record: TokenRecord) | Refresh(refreshToken: string) | RequestNew

  /** A token record, Python's `None`, or an exception escaping `get_token`. */
  datatype TokenResult = Token(record: TokenRecord) | NoToken | Raised

  const DefaultTokenFile := "vectra_token.json"
  const FormContentType := "application/x-www-form-urlencoded"
  const JsonAccept := "application/json"

  /** The access token was issued at `timestamp` for `expires_in` seconds and has not expired. */
  predicate Usable(t: TokenRecord, now: int) {
    t.timestamp.Given? && t.expiresIn.Given? && now < t.timestamp.value + t.expiresIn.value
  }

  /** The record carries a refresh token whose own lifetime has not run out. */
  predicate Refreshable(t: TokenRecord, now: int) {
    t.timestamp.Given? && t.refreshToken.Some? && t.refreshExpiresIn.Given?
    && now < t.timestamp.value + t.refreshExpiresIn.value
  }

  /** The access-token expiry can be computed at all. */
  predicate ExpiryKnown(t: TokenRecord) {
    t.timestamp.Given? && t.expiresIn.Given?
  }

  /**
    The decision of `get_token` about the token file. Its branches follow the code: the key
    tests, the exceptions of the date arithmetic (caught, so they fall through), and the two
    comparisons with `now`.
   */
  function Decide(cache: Option<Cached>, forceNew: bool, now: int): (p: Plan)
    ensures p.UseCached? <==>
      !forceNew && cache.Some? && cache.value.Readable? && Usable(cache.value.record, now)
    ensures p.UseCached? ==> p.record == cache.value.record
    ensures p.Refresh? <==>
      && !forceNew && cache.Some? && cache.value.Readable?
      && ExpiryKnown(cache.value.record)
      && !Usable(cache.value.record, now) && Refreshable(cache.value.record, now)
    ensures p.Refresh? ==> p.refreshToken == cache.value.record.refreshToken.value
  {
    if forceNew || cache.None? then RequestNew
    else match cache.value
      case Unreadable => RequestNew
      case Readable(t) =>
        if t.expiresIn.Absent? || t.timestamp.Absent? then RequestNew
        else if t.timestamp.Malformed? || t.expiresIn.Malformed? then RequestNew
        else
          var created := t.timestamp.value;
          if now < created + t.expiresIn.value then UseCached(t)
          else if t.refreshToken.None? || t.refreshExpiresIn.Absent? then RequestNew
          else if t.refreshExpiresIn.Malformed? then RequestNew
          else if now < created + t.refreshExpiresIn.value then Refresh(t.refreshToken.value)
          else RequestNew
  }

  predicate IsAscii(s: string) {
    forall i :: 0 <= i < |s| ==> s[i] as int < 128
  }

  /** `s.encode('ascii')`; `None` where Python raises `UnicodeEncodeError`. */
  function AsciiEncode(s: string): (r: Option<seq<Base64.Byte>>)
    ensures r.Some? <==> IsAscii(s)
    ensures r.Some? ==> |r.value| == |s| && forall i :: 0 <= i < |s| ==> r.value[i] == s[i] as int
  {
    if IsAscii(s) then
      var bytes: seq<Base64.Byte> := seq(|s|, i requires 0 <= i < |s| => s[i] as int);
      Some(bytes)
    else None
  }

  /** `bytes.decode('ascii')` for bytes below 128. */
  function AsciiDecode(bytes: seq<Base64.Byte>): string {
    seq(|bytes|, i requires 0 <= i < |bytes| => bytes[i] as char)
  }

  /** The `Basic` credential: base64 of `client_id ":" client_secret`; `None` when that text is not ASCII. */
  function BasicCredential(clientId: string, clientSecret: string): (r: Option<string>)
    ensures r.Some? <==> IsAscii(clientId + ":" + clientSecret)
    ensures r.Some? ==> Base64.Decode(r.value) == AsciiEncode(clientId + ":" + clientSecret)
  {
    match AsciiEncode(clientId + ":" + clientSecret)
    case None => None
    case Some(bytes) => Base64.DecodeEncode(bytes); Some(Base64.Encode(bytes))
  }

  /**
    The credential decodes back to `client_id ":" client_secret`, and a receiver splitting
    at the first ':' (section 2 of RFC 7617: a user-id has no colon) recovers both parts.
   */
  lemma BasicCredentialRecovers(clientId: string, clientSecret: string)
    requires IsAscii(clientId + ":" + clientSecret)
    requires ':' !in clientId
    ensures BasicCredential(clientId, clientSecret).Some?
    ensures var decoded := Base64.Decode(BasicCredential(clientId, clientSecret).value);
      && decoded.Some?
      && AsciiDecode(decoded.value) == clientId + ":" + clientSecret
      && Before(AsciiDecode(decoded.value), ':') == clientId
      && After(AsciiDecode(decoded.value), ':') == Some(clientSecret)
  {
    var text := clientId + ":" + clientSecret;
    var bytes := AsciiEncode(text).value;
    Base64.DecodeEncode(bytes);
    assert AsciiDecode(bytes) == text;
    assert text == clientId + [':'] + clientSecret;
    SplitAt(clientId, ':', clientSecret);
    AfterAt(clientId, ':', clientSecret);
  }

  /** The identity endpoint: the configured URL followed by `oauth2/token`. */
  function TokenUrl(cfg: Config): string {
    cfg.vectraUrl + "oauth2/token"
  }

  /** The client-credentials request; `None` where building the credential raises. */
  function ClientCredentialsRequest(cfg: Config): (r: Option<TokenRequest>)
    ensures r.Some? <==> IsAscii(cfg.clientId + ":" + cfg.clientSecret)
    ensures r.Some? ==>
      && r.value.url == cfg.vectraUrl + "oauth2/token"
      && r.value.payload == "grant_type=client_credentials"
      && r.value.contentType == FormContentType
      && r.value.basicAuth.None?
      && r.value.authorization == Some("Basic " + BasicCredential(cfg.clientId, cfg.clientSecret).value)
  {
    match BasicCredential(cfg.clientId, cfg.clientSecret)
    case None => None
    case Some(credential) =>
      Some(TokenRequest(TokenUrl(cfg), FormContentType, JsonAccept, Some("Basic " + credential), None,
                        "grant_type=client_credentials"))
  }

  /** The refresh request: the same endpoint, the client pair as HTTP basic auth, the refresh token in the form body. */
  function RefreshRequest(cfg: Config, refreshToken: string): (r: TokenRequest)
    ensures r.url == TokenUrl(cfg) && r.authorization.None?
    ensures r.basicAuth == Some((cfg.clientId, cfg.clientSecret))
    ensures r.payload == "grant_type=refresh_token&refresh_token=" + refreshToken
  {
    TokenRequest(TokenUrl(cfg), FormContentType, JsonAccept, None, Some((cfg.clientId, cfg.clientSecret)),
                 "grant_type=refresh_token&refresh_token=" + refreshToken)
  }

  /**
    The record a reply grants: only a status-200 reply whose body parses grants one, and the
    record is that body with `timestamp` replaced by the time of issue.
   */
  function Granted(reply: IdentityReply, now: int): (r: Option<TokenRecord>)
    ensures r.Some? <==> reply.Answered? && reply.status == 200 && reply.body.Some?
    ensures r.Some? ==>
      var b := reply.body.value;
      && r.value.timestamp == Given(now)
      && r.value.accessToken == b.accessToken && r.value.expiresIn == b.expiresIn
      && r.value.refreshToken == b.refreshToken && r.value.refreshExpiresIn == b.refreshExpiresIn
  {
    match reply
    case TransportError => None
    case Answered(status, body) =>
      if status != 200 then None
      else match body
        case None => None
        case Some(b) => Some(b.(timestamp := Given(now)))
  }

  function AsResult(r: Option<TokenRecord>): TokenResult {
    if r.Some? then Token(r.value) else NoToken
  }

  /**
    A freshly granted token with a positive lifetime, written and read back, is used from
    the cache for the whole of its lifetime and no longer.
   */
  lemma {:induction false} GrantedThenCached(reply: IdentityReply, issued: int, now: int)
    requires Granted(reply, issued).Some?
    requires reply.body.value.expiresIn.Given?
    ensures var t := Granted(reply, issued).value;
      Decide(Some(Readable(t)), false, now) == UseCached(t)
      <==> now < issued + reply.body.value.expiresIn.value
  {
    var t := Granted(reply, issued).value;
    assert t.timestamp == Given(issued) && t.expiresIn == reply.body.value.expiresIn;
    assert Usable(t, now) <==> now < issued + reply.body.value.expiresIn.value;
  }

  /** The token files on disk. */
  class TokenFiles {
    var files: map<string, Cached>

    constructor (initial: map<string, Cached>)
      ensures files == initial
    {
      files := initial;
    }

    /** Reading `name`: `None` when no such file exists. */
    function Load(name: string): (r: Option<Cached>)
      reads this
      ensures r.Some? <==> name in files
      ensures r.Some? ==> r.value == files[name]
    {
      if name in files then Some(files[name]) else None
    }

    /** `json.dump` of `record` over the file `name`. */
    method Save(name: string, record: TokenRecord)
      modifies this
      ensures files == old(files)[name := Readable(record)]
    {
      files := files[name := Readable(record)];
    }
  }

  /**
    Where a refreshed token is written: `vectra_token.json` as the code does, or the token
    file the caller of `get_token` reads, as it evidently intends.
   */
  datatype RefreshTarget = DefaultFile | RequestedFile

  function RefreshFile(target: RefreshTarget, tokenFile: string): string {
    match target
    case DefaultFile => DefaultTokenFile
    case RequestedFile => tokenFile
  }

  /**
    `refresh_token`: one refresh request; on a granted reply the stamped record is returned
    and written to `file`; otherwise nothing is written and the result is `None`. The code
    always writes `vectra_token.json`, whichever file the caller reads.
   */
  method RefreshToken(store: TokenFiles, file: string, cfg: Config, refreshToken: string, now: int, reply: IdentityReply)
    returns (result: Option<TokenRecord>, sent: TokenRequest)
    modifies store
    ensures sent == RefreshRequest(cfg, refreshToken)
    ensures result == Granted(reply, now)
    ensures store.files ==
      if result.Some? then old(store.files)[file := Readable(result.value)] else old(store.files)
  {
    sent := RefreshRequest(cfg, refreshToken);
    result := None;
    if reply.Answered? && reply.status == 200 {
      if reply.body.Some? {
        var record := reply.body.value.(timestamp := Given(now));
        store.Save(file, record);
        result := Some(record);
      }
    }
  }

  /**
    `get_token`: the configuration (loaded from `env` when none is given), then the cached
    token, a refresh, or a new client-credentials grant written to `tokenFile`. `sent` is
    the request made to the identity endpoint, if any; `reply` is its answer. A refreshed
    token goes to the file `target` names: `DefaultFile` is the code as written.
   */
  method GetToken(store: TokenFiles, config: Option<Config>, env: Env, tokenFile: string,
                  forceNew: bool, now: int, reply: IdentityReply, target: RefreshTarget)
    returns (result: TokenResult, sent: Option<TokenRequest>)
    modifies store
    ensures config.None? && LoadConfig(env).None? ==>
      result == NoToken && sent.None? && store.files == old(store.files)
    ensures var cfg := if config.Some? then config else LoadConfig(env);
      var plan := Decide(old(store.Load(tokenFile)), forceNew, now);
      cfg.Some? && plan.UseCached? ==>
        result == Token(plan.record) && sent.None? && store.files == old(store.files)
    ensures var cfg := if config.Some? then config else LoadConfig(env);
      var plan := Decide(old(store.Load(tokenFile)), forceNew, now);
      var granted := Granted(reply, now);
      cfg.Some? && plan.Refresh? ==>
        && sent == Some(RefreshRequest(cfg.value, plan.refreshToken))
        && result == AsResult(granted)
        && store.files ==
          if granted.Some? then old(store.files)[RefreshFile(target, tokenFile) := Readable(granted.value)]
          else old(store.files)
    ensures var cfg := if config.Some? then config else LoadConfig(env);
      var plan := Decide(old(store.Load(tokenFile)), forceNew, now);
      var granted := Granted(reply, now);
      cfg.Some? && plan.RequestNew? ==>
        && sent == ClientCredentialsRequest(cfg.value)
        && (sent.None? ==> result == Raised && store.files == old(store.files))
        && (sent.Some? ==> result == AsResult(granted))
        && (sent.Some? ==>
              store.files == if granted.Some? then old(store.files)[tokenFile := Readable(granted.value)]
                             else old(store.files))
  {
    var cfg := config;
    if cfg.None? {
      cfg := LoadConfig(env);
      if cfg.None? {
        return NoToken, None;
      }
    }

    var plan := Decide(store.Load(tokenFile), forceNew, now);
    match plan {
      case UseCached(t) =>
        return Token(t), None;
      case Refresh(rt) =>
        var refreshed, request := RefreshToken(store, RefreshFile(target, tokenFile), cfg.value, rt, now, reply);
        return AsResult(refreshed), Some(request);
      case RequestNew =>
    }

    sent := ClientCredentialsRequest(cfg.value);
    if sent.None? {
      return Raised, None;
    }
    result := NoToken;
    if reply.Answered? && reply.status == 200 {
      if reply.body.Some? {
        var record := reply.body.value.(timestamp := Given(now));
        store.Save(tokenFile, record);
        result := Token(record);
      }
    }
  }

  /**
    Two runs against an empty token directory at the same second: the first obtains a token
    with a positive lifetime and writes it; the second returns that record without a request.
   */
  method SecondRunUsesCache(cfg: Config, now: int, body: TokenRecord)
    returns (first: TokenResult, second: TokenResult, secondSent: Option<TokenRequest>)
    requires IsAscii(cfg.clientId + ":" + cfg.clientSecret)
    requires body.expiresIn.Given? && body.expiresIn.value > 0
    ensures first.Token? && second == first && secondSent.None?
  {
    var store := new TokenFiles(map[]);
    var noEnv := Env(None, None, None);
    var firstSent;
    first, firstSent := GetToken(store, Some(cfg), noEnv, DefaultTokenFile, false, now, Answered(200, Some(body)), DefaultFile);
    second, secondSent := GetToken(store, Some(cfg), noEnv, DefaultTokenFile, false, now, TransportError, DefaultFile);
  }

  /**
    With a token file other than `vectra_token.json`, a successful refresh leaves that file
    as it was, so the next run at the same time refreshes again.
   */
  method CustomFileRefreshesAgain(cfg: Config, tokenFile: string, stale: TokenRecord, now: int, body: TokenRecord)
    returns (first: TokenResult, secondSent: Option<TokenRequest>)
    requires tokenFile != DefaultTokenFile
    requires ExpiryKnown(stale) && !Usable(stale, now) && Refreshable(stale, now)
    ensures first.Token?
    ensures secondSent == Some(RefreshRequest(cfg, stale.refreshToken.value))
  {
    var store := new TokenFiles(map[tokenFile := Readable(stale)]);
    var noEnv := Env(None, None, None);
    var firstSent, second;
    first, firstSent := GetToken(store, Some(cfg), noEnv, tokenFile, false, now, Answered(200, Some(body)), DefaultFile);
    second, secondSent := GetToken(store, Some(cfg), noEnv, tokenFile, false, now, TransportError, DefaultFile);
  }

  /**
    With the refreshed token written to the file the caller reads, the next run at the same
    time uses it from the cache and makes no request.
   */
  method CustomFileCachedAfterFix(cfg: Config, tokenFile: string, stale: TokenRecord, now: int, body: TokenRecord)
    returns (first: TokenResult, second: TokenResult, secondSent: Option<TokenRequest>)
    requires ExpiryKnown(stale) && !Usable(stale, now) && Refreshable(stale, now)
    requires body.expiresIn.Given? && body.expiresIn.value > 0
    ensures first.Token? && second == first && secondSent.None?
  {
    var store := new TokenFiles(map[tokenFile := Readable(stale)]);
    var noEnv := Env(None, None, None);
    var firstSent;
    first, firstSent := GetToken(store, Some(cfg), noEnv, tokenFile, false, now, Answered(200, Some(body)), RequestedFile);
    second, secondSent := GetToken(store, Some(cfg), noEnv, tokenFile, false, now, TransportError, RequestedFile);
  }
}
