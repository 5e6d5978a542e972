# Vectra API client core in Dafny

A model of the decision logic of a small command-line client for the Vectra detection
platform. Two Python files carry that logic:

- `vectra_auth.py`: configuration loading, the OAuth2 token lifecycle, the HTTP Basic
  credential, the generic API request and the status colouring.
- `active_hosts_rux.py`: paginated retrieval of hosts with retry and exponential backoff,
  and the flattening of a host record into a CSV row.

The token lifecycle decides between the cached token, a refresh and a new
client-credentials grant. Here that decision is the pure function `TokenManager.Decide`.
The token files on disk are the class `TokenFiles`, a map from file name to content.
`GetToken` and `RefreshToken` are methods that update that map. The identity endpoint's
answer is a parameter (`IdentityReply`). The clock is an integer number of seconds `now`.

Pagination talks to a finite script of replies: request number `k` gets `script[k]`, and
every request after the script runs out gets no response. `Pagination.Paginate` is the
reference definition of a run. It gives the hosts collected, the requests and sleeps made,
and each page's attempts. It takes the retry rule as a parameter: `AsWritten`, the guard
the code has, or `Stated`, the rule its comment states. `Pagination.GetAllHosts` is the
imperative loop with the guard as written, proved equal to `Paginate` with `AsWritten`. The lemmas next to `Paginate` prove the retry bound, the backoff schedule, in-order
accumulation and partial-result preservation.

Modules: `Wrappers` (Option), `Text` (the string operations Python provides: `endswith`,
`in`, `lower`, `upper`, `lstrip`, `join`, `split`), `Base64` (section 4 of RFC 4648),
`Config`, `TokenManager`, `ApiRequest`, `StatusColor`, `QueryParams`, `Pagination`,
`HostExport`.

## Model

| member | source | states |
|---|---|---|
| Config.MissingVariables | vectra_auth.py:81-88 | a variable is listed exactly when it is unset or empty |
| Config.LoadConfig | vectra_auth.py:81-100 | no configuration exactly when one of the three values is unset or empty; otherwise the credentials are copied, the URL ends in '/', is the given URL or that URL plus '/', and is unchanged when it already ends in '/' |
| Config.LoadConfigIdempotent | vectra_auth.py:96-100 | loading an already normalised configuration gives it back unchanged |
| TokenManager.Decide | vectra_auth.py:125-157 | the cached record is used exactly when it is not forced away, is readable, has both keys, and `now < timestamp + expires_in`; a refresh happens exactly when the access token has expired but a refresh token is present and `now < timestamp + refresh_expires_in`; every other case, including malformed dates, asks for a new token |
| TokenManager.AsciiEncode | vectra_auth.py:161 | encoding succeeds exactly for ASCII text and keeps every code point |
| TokenManager.BasicCredential | vectra_auth.py:159-163 | a credential exists exactly when `client_id ":" client_secret` is ASCII, and it base64-decodes to that text's bytes |
| TokenManager.BasicCredentialRecovers | vectra_auth.py:159-163 | the Basic credential base64-decodes to `client_id ":" client_secret`, and splitting at the first ':' gives both back when the id has no ':' |
| TokenManager.ClientCredentialsRequest | vectra_auth.py:159-172 | a request exists exactly when the credentials are ASCII; it goes to `vectra_url + "oauth2/token"` with body `grant_type=client_credentials`, the form content type and `Basic` plus the credential |
| TokenManager.RefreshRequest | vectra_auth.py:219-235 | the refresh goes to the same endpoint, with the client pair as HTTP basic auth and the refresh token in the body |
| TokenManager.Granted | vectra_auth.py:179-183 | a record is granted exactly by a status-200 answer with a JSON body; it is that body with `timestamp` set to the time of issue |
| TokenManager.GrantedThenCached | vectra_auth.py:131-141 | a granted token read back from the file is used from the cache exactly while `now < issued + expires_in` |
| TokenManager.TokenFiles.Load | vectra_auth.py:125-128 | a token file is read exactly when it exists, and gives its content |
| TokenManager.TokenFiles.Save | vectra_auth.py:186-187 | writing a record replaces that one file and leaves the others as they were |
| TokenManager.RefreshToken | vectra_auth.py:203-260 | sends the refresh request; on a grant returns the stamped record and writes it to the file it is given, only that file; otherwise returns None and writes nothing |
| TokenManager.GetToken | vectra_auth.py:119-201 | no configuration gives None; a usable cache is returned without a request or a write; a refresh returns exactly what the refresh returned and writes a grant to `vectra_token.json` (`DefaultFile`, as written) or to the token file (`RequestedFile`); otherwise non-ASCII credentials raise, and a grant is returned and written to the token file, anything else gives None and writes nothing |
| TokenManager.SecondRunUsesCache | vectra_auth.py:125-191 | after a successful grant, a second call at the same time returns the same record and sends nothing |
| TokenManager.CustomFileRefreshesAgain | vectra_auth.py:245-246 | as written, with a token file other than `vectra_token.json`, a successful refresh does not update that file, so the next call refreshes again |
| TokenManager.CustomFileCachedAfterFix | vectra_auth.py:119-157 | with the refreshed token written to the caller's token file, the next call at the same time returns the same record and sends nothing |
| ApiRequest.ParseMethod | vectra_auth.py:305-318 | a method is recognised exactly when its upper-cased name is GET, POST, PATCH or DELETE, and it is the method of that name |
| ApiRequest.ParseName | vectra_auth.py:305-313 | each method's own name parses back to that method |
| ApiRequest.ParseMethodIgnoresCase | vectra_auth.py:305-313 | method names match whatever the case of their letters |
| ApiRequest.RequestUrl | vectra_auth.py:294 | the URL is the configured URL followed by the endpoint with its leading '/' characters removed, and nothing else removed |
| ApiRequest.LeadingSlashesIgnored | vectra_auth.py:294 | any number of leading slashes on the endpoint gives the same URL |
| ApiRequest.MakeApiRequest | vectra_auth.py:294-334 | a record without an access token raises; an unsupported method sends nothing and returns None; otherwise one request with the joined URL, the bearer token, the JSON `Accept` header and the parameters is sent; POST and PATCH carry the JSON content type and the given body, GET and DELETE neither; the response is returned whatever its status and counts as a success exactly for 200, 201, 202 and 204; a transport failure returns None |
| StatusColor.Classify | vectra_auth.py:48-67 | the groups are tried in the order positive, warning, error, informational on the lower-cased text, and the first group with a keyword in it wins; white when none matches |
| StatusColor.ColorStatus | vectra_auth.py:48-67 | the result is nine characters longer than the status: the five-character colour code of its group, the status unchanged, then the four-character reset code |
| StatusColor.AnsiCodeInjective | vectra_auth.py:49-67 | the five colours have five different codes |
| StatusColor.ColorReadBack | vectra_auth.py:48-67 | the colour group can be read back from the code that opens the coloured text |
| StatusColor.DefaultIgnored | vectra_auth.py:37-67 | the `default` argument has no effect: unmatched text is always white |
| StatusColor.ClassifyIgnoresCase | vectra_auth.py:48 | the colour does not depend on the case of the text |
| StatusColor.PartiallyOkIsGreen | vectra_auth.py:51-56 | first match wins: "Partially OK" is green although it names a warning word |
| StatusColor.UnhealthyIsGreen | vectra_auth.py:51 | keywords match inside words: "Unhealthy" is green |
| QueryParams.InitialQuery | active_hosts_rux.py:60-62 | the query has the page size and no cursor, and has a state exactly when the filter is not "all" |
| QueryParams.PercentDecode | active_hosts_rux.py:71 | decoding never lengthens a text and leaves a non-empty text non-empty |
| QueryParams.UnquoteQuote | active_hosts_rux.py:71 | reading a name or value ('+' as space, %XX escapes decoded) gives back any text written with spaces as '+' and '%', '+', '&', '=', '#' escaped |
| QueryParams.UnquotePlain | active_hosts_rux.py:71 | text without '%' or '+' reads as itself |
| QueryParams.FieldOf | active_hosts_rux.py:71 | a part with a '=' before which there is none, and a non-empty value, is the field of its decoded name and value |
| QueryParams.EscapedCursor | active_hosts_rux.py:71-73 | `page=%32` gives the cursor "2" |
| QueryParams.PlusAndEscape | active_hosts_rux.py:71 | `a+b%2bc` reads as "a b+c": '+' is a space, a lower-case escape is decoded |
| QueryParams.BlankDropped | active_hosts_rux.py:71 | `page=` and `page` give no field |
| QueryParams.Fields | active_hosts_rux.py:71 | at most one field per part, and every value kept is non-empty |
| QueryParams.FirstValue | active_hosts_rux.py:72-73 | a value is found exactly when some field has the name, and it is the value of the first such field |
| QueryParams.PageCursor | active_hosts_rux.py:69-73 | a cursor read from a link is never empty |
| QueryParams.NextQuery | active_hosts_rux.py:68-73 | page size and state are kept; the `page` value of the link replaces the cursor when the link has one, otherwise the query is unchanged |
| QueryParams.NextLinkCursor | active_hosts_rux.py:70-73 | for a link `base?name=value&...` with names and values quoted, the cursor read is the first `page` value among its fields, for any names and any non-empty values |
| Pagination.Retry | active_hosts_rux.py:77-91 | a page takes at least one and at most `max_retries + 1` consecutive requests, and its result is the last answer |
| Pagination.RetryStops | active_hosts_rux.py:77-91 | every answer before the last one is retried on, and the last one is not, unless the attempts ran out |
| Pagination.FetchPageStops | active_hosts_rux.py:77-91 | a page stops at the first answer that exists and is not 504: every earlier answer was missing or 504, and the last one is neither unless all `max_retries + 1` attempts were made |
| Pagination.FetchPage | active_hosts_rux.py:75-91 | one page, under either retry rule, is answered from the requests that follow the previous page, at most `max_retries + 1` of them, and none when `max_retries` is negative |
| Pagination.PageRequests | active_hosts_rux.py:84-85 | each attempt sends the page's current query exactly once |
| Pagination.BackoffSchedule | active_hosts_rux.py:79-82 | a page of n attempts sleeps 2, 4, ..., 2^(n-1) seconds, in that order |
| Pagination.AlwaysRetried | active_hosts_rux.py:77-91 | a page whose every answer is retried on makes exactly `max_retries + 1` requests of its query, sleeps 2, 4, ..., 2^max_retries seconds, and ends with an answer retried on |
| Pagination.AlwaysTimingOut | active_hosts_rux.py:77-98 | a page answered 504 every time makes exactly `max_retries + 1` requests, sleeps 2, 4, ..., 2^max_retries seconds, and fails, under either rule |
| Pagination.AsWrittenGuard | active_hosts_rux.py:88 | the guard as written retries exactly on no response and on every status from 400 to 599, so on everything the stated rule retries on |
| Pagination.RejectedPageRetriedAsWritten | active_hosts_rux.py:88-89 | with the guard as written, a page refused with 401 is requested `max_retries + 1` times with the full backoff; with the stated rule, once |
| Pagination.RejectedRunAsWritten | active_hosts_rux.py:77-98 | as written, a first page refused with 401 every time is requested `max_retries + 1` times and the run returns no hosts |
| Pagination.Paginate | active_hosts_rux.py:67-116 | a run starts with the retry loop's result for the first query, and goes on to a further page exactly when that page succeeded with a truthy `next` |
| Pagination.PaginateFetches | active_hosts_rux.py:67-91 | every page of a run is the retry loop's result for its query and first request |
| Pagination.PaginateChains | active_hosts_rux.py:67-116 | every page but the last succeeded with a truthy `next`; the next page starts with the following request and carries that link's cursor; the last page failed or had no `next` |
| Pagination.PaginateKeepsFilter | active_hosts_rux.py:60-73 | every request of a run keeps the first query's page size and state filter |
| Pagination.PaginateCollects | active_hosts_rux.py:93-102 | the hosts returned are the `results` of the successful pages, in page order, duplicates kept, a page without `results` adding nothing |
| Pagination.PaginatePaced | active_hosts_rux.py:77-114 | the requests and sleeps are each page's attempts, with exactly one 1-second sleep between two pages |
| Pagination.FirstPageFails | active_hosts_rux.py:93-98 | a failed first page gives no hosts |
| Pagination.PartialResultsKept | active_hosts_rux.py:93-102 | when page 1 succeeds with a `next` and page 2 times out every time, the hosts of page 1 are returned |
| Pagination.TwoPages | active_hosts_rux.py:100-110 | two successful pages, the first with a `next`, give the hosts of both in order |
| Pagination.RequestPage | active_hosts_rux.py:75-91 | the retry loop, with its guard as written, returns the last answer, the number of the next request and the requests and sleeps of `FetchPage` with `AsWritten` |
| Pagination.GetAllHosts | active_hosts_rux.py:55-116 | the hosts returned and the requests and sleeps made are those of `Paginate` with the guard as written, from the first query |
| HostExport.ArtifactLabel | active_hosts_rux.py:130-133 | the label reads back as the type, "Unknown" when missing, before the first ':' and the value, "Unknown" when missing, after it, when the type has no ':' |
| HostExport.ExtractHostData | active_hosts_rux.py:128-151 | artifacts become "type:value" labels, "Unknown" for a missing key, joined in order with "; "; tags joined with ", "; `sensor_name` preferred to `sensor`; `ip` as the address; threat and certainty default to 0 and every other column to "" |
| HostExport.ArtifactColumnReadsBack | active_hosts_rux.py:129-149 | splitting the artifact column at ';' gives one label per artifact back, in order, when no label contains ';' |
| HostExport.TagColumnReadsBack | active_hosts_rux.py:150 | splitting the tags column at ',' gives the tags back, in order, when no tag contains ',' |
| Base64.DecodeEncode | vectra_auth.py:162 | decoding the base64 encoding of any bytes gives those bytes back |
| Base64.EncodeLength | vectra_auth.py:162 | the encoding has four characters for every started group of three bytes |

## Left out

- Real HTTP traffic: each request's answer is a parameter (`IdentityReply`, a `Reply` of the script, an optional `HttpResponse`). Timeouts become a missing answer.
- Reading and writing JSON token files: the file contents are already-parsed records; a file `json.load` rejects is `Unreadable`.
- `datetime` parsing and formatting: timestamps are integer seconds. A timestamp or lifetime the date arithmetic rejects is `Malformed`, which the code catches and treats as no cache.
- TokenManager.GetToken: one `now` for the whole call, where the code reads the clock once to check expiry and again to stamp a new token.
- TokenManager.GetToken: makes at most one request per call, so one identity reply per call is enough.
- `load_dotenv` and `os.getenv`: the three values are the input `Env`.
- `quiet`, `timeout` and every `print_*` message; colorama's `init`.
- `time.sleep`: recorded as `Sleep` events in a ghost log, not slept.
- The `page` counter of `get_all_hosts`: it only appears in messages.
- Pagination.GetAllHosts: the retry loop is the separate method `RequestPage` rather than a nested loop in the same body, so that each loop's proof stays small.
- Pagination.GetAllHosts: `response.json()` on a body that is not JSON, and a `results` key holding JSON null, raise in the code; the model's page bodies are always parsed, and a null `results` counts as a missing one.
- ApiRequest.MakeApiRequest: covers a call given both the token record and the configuration. When either is missing, the code first calls `get_token` or `load_config`. Those are modelled on their own (`TokenManager.GetToken`, `Config.LoadConfig`) but not composed into this function.
- ApiRequest.ParseMethod: upper-cases ASCII letters only, where Python's `str.upper` also maps for instance 'ſ' to 'S' and 'ı' to 'I', so a name such as "poſt" is refused here and accepted by the code.
- QueryParams.NextQuery: decodes %XX escapes of ASCII characters only; an escape of a byte from 0x80 up stays literal, where `unquote` decodes such bytes as UTF-8 and puts U+FFFD for invalid sequences.
- QueryParams.QueryString: does not model the tab, carriage return and newline characters `urlparse` removes, nor the `;` separator older Python versions also split at.
- StatusColor.Classify: lower-cases ASCII letters only, where Python's `str.lower` covers all of Unicode; `str(status)` of a non-string value is not modelled.
- Host records and token records keep only the keys the code reads; JSON values other than strings and integers are not modelled.
- `write_to_csv`, `parse_arguments` and `main`: file output and command-line handling.

## Findings

| source | as written | input that shows it | evidently intended | confidence | as-written member | corrected member |
|---|---|---|---|---|---|---|
| active_hosts_rux.py:88-89 | `if response and response.status_code != 504: break` uses the truth value of a `requests` response, which is false for every status from 400 to 599, so any client or server error is retried with backoff; `GetAllHosts` follows this guard | every attempt answered 401: `max_retries + 1` requests and 2 + 4 + ... + 2^max_retries seconds of sleep before giving up | the comment says "Success or non-timeout error, no need to retry": retry only on no response or 504 (`FetchPage` with `Stated`) | high (not executed) | Pagination.RejectedPageRetriedAsWritten | Pagination.FetchPageStops |
| vectra_auth.py:245-246 | `refresh_token` always writes `vectra_token.json`, while `get_token` reads the `token_file` its caller names | `get_token(token_file="other.json")` with an expired but refreshable token in that file: the refresh succeeds, `other.json` keeps the expired token, and the next call refreshes again | the refreshed token is written to the file `get_token` reads (`RefreshTarget.RequestedFile`) | medium (not executed) | TokenManager.CustomFileRefreshesAgain | TokenManager.CustomFileCachedAfterFix |
