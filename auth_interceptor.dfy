/** The two axios interceptors of src/api/autorApiPosgreSql.js: the request
    interceptor attaches the stored bearer token, and the response
    interceptor answers a 401 by refreshing the token once and re-sending
    the request. localStorage is a string map; the refresh POST is the
    reply it got. */
module AuthInterceptor {
  import opened JsValues

  const TokenKey := "token"
  const RefreshTokenKey := "refreshToken"
  const AuthorizationHeader := "Authorization"
  const Unauthorized := 401

  function Bearer(token: string): string
  {
    "Bearer " + token
  }

  /** `localStorage.getItem(key)`: null when the key is absent. */
  function GetItem(items: map<string, string>, key: string): (r: Option<string>)
    ensures r.Some? <==> key in items
    ensures r.Some? ==> r.value == items[key]
  {
    if key in items then Some(items[key]) else None
  }

  /** The request interceptor on values: the headers after it ran. */
  function WithToken(items: map<string, string>, headers: map<string, string>): (h: map<string, string>)
    ensures Truthy(GetItem(items, TokenKey)) ==>
      h.Keys == headers.Keys + {AuthorizationHeader} && h[AuthorizationHeader] == Bearer(items[TokenKey])
    ensures forall k :: k in headers && k != AuthorizationHeader ==> k in h && h[k] == headers[k]
    ensures !Truthy(GetItem(items, TokenKey)) ==> h == headers
  {
    var token := GetItem(items, TokenKey);
    if Truthy(token) then headers[AuthorizationHeader := Bearer(token.value)] else headers
  }

  /** What the response interceptor does with the failed request: reject the
      original error (reloading the page first or not), or re-send the request
      with the refreshed token. */
  datatype Resolution = Reject(reload: bool) | Resend(token: string)

  /** One run of the response interceptor on values: the request's `_retry`
      flag and the storage afterwards, whether the refresh endpoint was
      called, and the resolution. */
  datatype ErrorStep = ErrorStep(
    retry: bool,
    items: map<string, string>,
    refreshCalled: bool,
    resolution: Resolution)

  /** The decision the response interceptor takes for a failed request whose
      `_retry` flag is `retry`, given the HTTP status (None when no response
      arrived) and what the refresh endpoint would answer. */
  function HandleError(retry: bool, items: map<string, string>, status: Option<int>, refresh: Reply<string>): (r: ErrorStep)
    // a refresh happens only for a 401 on a request not yet retried, with a refresh token stored
    ensures r.refreshCalled <==> status == Some(Unauthorized) && !retry && Truthy(GetItem(items, RefreshTokenKey))
    // the flag is raised before refreshing and never lowered
    ensures r.retry == (retry || status == Some(Unauthorized))
    // other errors, and 401s on a retried request, are rejected untouched
    ensures !(status == Some(Unauthorized) && !retry) ==> r.items == items && r.resolution == Reject(false)
    // no refresh token: reload and reject, storage untouched
    ensures status == Some(Unauthorized) && !retry && !r.refreshCalled ==> r.items == items && r.resolution == Reject(true)
    // a successful refresh stores the new token and re-sends
    ensures r.refreshCalled && refresh.Success? ==>
      r.items == items[TokenKey := refresh.value] && r.resolution == Resend(refresh.value)
    // a failed refresh clears both tokens, reloads and rejects
    ensures r.refreshCalled && refresh.Failure? ==>
      r.items == items - {TokenKey, RefreshTokenKey} && r.resolution == Reject(true)
  {
    if status == Some(Unauthorized) && !retry then
      if !Truthy(GetItem(items, RefreshTokenKey)) then ErrorStep(true, items, false, Reject(true))
      else match refresh
        case Success(newToken) => ErrorStep(true, items[TokenKey := newToken], true, Resend(newToken))
        case Failure(_) => ErrorStep(true, items - {TokenKey, RefreshTokenKey}, true, Reject(true))
    else ErrorStep(retry, items, false, Reject(false))
  }

  /** How many times the refresh endpoint is called while one request keeps
      failing: `attempts` are the errors of the successive sends (status and
      what the refresh endpoint would answer), and a send is only followed
      by another when the interceptor re-sent it. */
  function RefreshCalls(retry: bool, items: map<string, string>, attempts: seq<(Option<int>, Reply<string>)>): nat
    decreases |attempts|
  {
    if attempts == [] then 0
    else
      var step := HandleError(retry, items, attempts[0].0, attempts[0].1);
      (if step.refreshCalled then 1 else 0) +
      (if step.resolution.Resend? then RefreshCalls(step.retry, step.items, attempts[1..]) else 0)
  }

  /** No retry storms: a request is refreshed at most once, and never once it
      carries the `_retry` flag. */
  lemma {:induction false} AtMostOneRefresh(retry: bool, items: map<string, string>, attempts: seq<(Option<int>, Reply<string>)>)
    ensures RefreshCalls(retry, items, attempts) <= (if retry then 0 else 1)
    decreases |attempts|
  {
    if attempts != [] {
      var step := HandleError(retry, items, attempts[0].0, attempts[0].1);
      if step.resolution.Resend? {
        AtMostOneRefresh(step.retry, step.items, attempts[1..]);
      }
    }
  }

  /** The re-sent request passes the request interceptor again, which
      attaches the token that the refresh has just stored: the header the
      interceptor wrote and the one the server sees agree. */
  lemma ResentRequestCarriesNewToken(items: map<string, string>, newToken: string, headers: map<string, string>)
    requires Truthy(GetItem(items, RefreshTokenKey)) && newToken != ""
    ensures var step := HandleError(false, items, Some(Unauthorized), Success(newToken));
      step.resolution == Resend(newToken) &&
      WithToken(step.items, headers)[AuthorizationHeader] == Bearer(newToken)
  {
  }

  /** The browser's localStorage. */
  class LocalStorage {
    var items: map<string, string>

    constructor (items: map<string, string>)
      ensures this.items == items
    {
      this.items := items;
    }
  }

  /** The axios request config the interceptors see and change. */
  class RequestConfig {
    var retry: bool
    var headers: map<string, string>

    constructor (headers: map<string, string>)
      ensures !retry && this.headers == headers
    {
      retry := false;
      this.headers := headers;
    }
  }

  /** The request interceptor: sets `Authorization` to the bearer token when
      one is stored, and leaves the config alone otherwise. */
  method InterceptRequest(config: RequestConfig, storage: LocalStorage)
    modifies config`headers
    ensures config.headers == WithToken(storage.items, old(config.headers))
  {
    var token := GetItem(storage.items, TokenKey);
    if Truthy(token) {
      config.headers := config.headers[AuthorizationHeader := Bearer(token.value)];
    }
  }

  /** The response interceptor's error handler, step by step: it marks the
      request, reads the refresh token, writes or clears storage and the
      request headers, and says how the request ends. */
  method InterceptError(config: RequestConfig, storage: LocalStorage, status: Option<int>, refresh: Reply<string>)
    returns (resolution: Resolution)
    modifies config, storage
    ensures var step := HandleError(old(config.retry), old(storage.items), status, refresh);
      config.retry == step.retry && storage.items == step.items && resolution == step.resolution
    ensures resolution.Resend? ==>
      config.headers == old(config.headers)[AuthorizationHeader := Bearer(resolution.token)]
    ensures resolution.Reject? ==> config.headers == old(config.headers)
  {
    if status == Some(Unauthorized) && !config.retry {
      config.retry := true;
      var refreshToken := GetItem(storage.items, RefreshTokenKey);
      if !Truthy(refreshToken) {
        return Reject(true);
      }
      match refresh {
        case Success(newToken) =>
          storage.items := storage.items[TokenKey := newToken];
          config.headers := config.headers[AuthorizationHeader := Bearer(newToken)];
          return Resend(newToken);
        case Failure(_) =>
          storage.items := storage.items - {TokenKey, RefreshTokenKey};
      }
      return Reject(true);
    }
    return Reject(false);
  }
}
