/**
 * The app's connection settings and its sync call: the server address
 * with its fallback, the request headers, and the status check on the
 * answer. The two settings come from the device's local storage and the
 * HTTP exchange is a parameter.
 */
module Api {
  import opened Wrappers
  import Strings
  import Types
  import Auth

  const DefaultServerUrl := "http://localhost:8080"
  const SyncPath := "/api/sync"

  /** getServerUrl: the stored address, or the default when none or an empty one is stored. */
  function ServerUrl(stored: Option<string>): (url: string)
    ensures url != ""
  {
    if stored.Some? && stored.value != "" then stored.value else DefaultServerUrl
  }

  /** `replace(/\/$/, '')`: one '/' at the very end is removed. */
  function StripTrailingSlash(s: string): string {
    if |s| > 0 && s[|s| - 1] == '/' then s[..|s| - 1] else s
  }

  /** The address the sync request is posted to. */
  function SyncUrl(stored: Option<string>): string {
    StripTrailingSlash(ServerUrl(stored)) + SyncPath
  }

  /**
   * The sync address is the server address followed by "/api/sync", with
   * exactly one trailing slash of the address dropped: an address ending
   * in "//" keeps one of them.
   */
  lemma SyncUrlShape(stored: Option<string>, base: string)
    requires base == ServerUrl(stored)
    ensures (|base| == 0 || base[|base| - 1] != '/') ==> SyncUrl(stored) == base + SyncPath
    ensures |base| > 0 && base[|base| - 1] == '/' ==> SyncUrl(stored) == base[..|base| - 1] + SyncPath
    ensures Strings.EndsWith(SyncUrl(stored), SyncPath)
  {
  }

  /** With nothing usable stored the request goes to the default server. */
  lemma DefaultSyncUrl(stored: Option<string>)
    requires stored.None? || stored.value == ""
    ensures SyncUrl(stored) == "http://localhost:8080/api/sync"
  {
  }

  datatype Header = Header(name: string, value: string)

  /** getHeaders: JSON content, and an Authorization header when a non-empty API key is stored. */
  function Headers(apiKey: Option<string>): (hs: seq<Header>)
    ensures |hs| >= 1 && hs[0] == Header("Content-Type", "application/json")
  {
    [Header("Content-Type", "application/json")]
      + (if apiKey.Some? && apiKey.value != "" then [Header("Authorization", "Bearer " + apiKey.value)] else [])
  }

  /** An Authorization header is sent iff a non-empty key is stored, and then it carries "Bearer " and the key. */
  lemma AuthorizationSent(apiKey: Option<string>)
    ensures (exists h :: h in Headers(apiKey) && h.name == "Authorization") <==> apiKey.Some? && apiKey.value != ""
    ensures forall h :: h in Headers(apiKey) && h.name == "Authorization" ==> h.value == "Bearer " + apiKey.value
  {
    if apiKey.Some? && apiKey.value != "" {
      assert Headers(apiKey)[1].name == "Authorization";
    }
  }

  /** A stored key without spaces that the server knows authenticates the sync as its owner. */
  lemma StoredKeyAuthenticates(key: string, cookie: Option<string>, keys: map<string, string>, users: set<string>)
    requires key != "" && ' ' !in key && key in keys
    ensures Auth.Authenticate(Headers(Some(key))[1].value, cookie, keys, users) == Auth.Proceed(keys[key])
  {
    Auth.BearerKeyExact("Bearer " + key, key);
  }

  datatype HttpRequest = HttpRequest(verb: string, url: string, headers: seq<Header>, body: Types.SyncRequest)

  /** An HTTP answer: its status and its body decoded as a sync response, None when it is not one. */
  datatype HttpResponse = HttpResponse(status: int, body: Option<Types.SyncResponse>)

  /** `response.ok`. */
  predicate Ok(status: int) {
    200 <= status <= 299
  }

  /** The request performBiDirectionalSync posts. */
  function SyncRequestOf(stored: Option<string>, apiKey: Option<string>, request: Types.SyncRequest): HttpRequest {
    HttpRequest("POST", SyncUrl(stored), Headers(apiKey), request)
  }

  /**
   * performBiDirectionalSync: one POST through `fetch`; a 2xx answer yields
   * its decoded body, any other status an error naming the status, and a
   * network or decoding error is passed on.
   */
  function PerformBiDirectionalSync(stored: Option<string>, apiKey: Option<string>,
                                    fetch: HttpRequest -> Result<HttpResponse, string>,
                                    request: Types.SyncRequest): (r: Result<Types.SyncResponse, string>)
    ensures r.Success? <==>
      var answer := fetch(SyncRequestOf(stored, apiKey, request));
      answer.Success? && Ok(answer.value.status) && answer.value.body.Some?
    ensures r.Success? ==> Some(r.value) == fetch(SyncRequestOf(stored, apiKey, request)).value.body
  {
    var answer := fetch(SyncRequestOf(stored, apiKey, request));
    if answer.Failure? then Failure(answer.error)
    else if !Ok(answer.value.status) then Failure("Sync failed with status: " + Strings.IntToString(answer.value.status))
    else if answer.value.body.None? then Failure("invalid JSON")
    else Success(answer.value.body.value)
  }

  /** A non-2xx answer fails with the status in the message; a network error is passed on unchanged. */
  lemma SyncFailures(stored: Option<string>, apiKey: Option<string>,
                     fetch: HttpRequest -> Result<HttpResponse, string>, request: Types.SyncRequest)
    ensures var answer := fetch(SyncRequestOf(stored, apiKey, request));
      && (answer.Failure? ==> PerformBiDirectionalSync(stored, apiKey, fetch, request) == Failure(answer.error))
      && (answer.Success? && !Ok(answer.value.status) ==>
            PerformBiDirectionalSync(stored, apiKey, fetch, request)
              == Failure("Sync failed with status: " + Strings.IntToString(answer.value.status)))
  {
  }
}
