/**
 * The authenticated HTTP client: the persisted token store, the request
 * interceptor that attaches the bearer token, and the response interceptor
 * that refreshes an expired access token once and parks the requests that
 * fail while that refresh is under way.
 *
 * JavaScript runs each stretch of the async error handler between two
 * `await`s without interruption, so every such stretch is one method here:
 *   - `OnResponseError`: the handler from its start to its first `await`
 *     (or to its end, when it rethrows or fails without a refresh token);
 *   - `OnRefreshSucceeded` / `OnRefreshFailed`: the handler that started the
 *     refresh, resumed after the refresh call settles.
 * A parked request is identified by its request config; releasing it hands
 * that config back to be re-sent through the request interceptor.
 */
module Http {
  import opened Wrappers

  datatype Tokens = Tokens(access: string, refresh: string)

  /** The parts of an axios request config the interceptors read or write. */
  datatype RequestConfig = RequestConfig(id: nat, headers: map<string, string>, retry: bool)

  /** A rejected request: the response status (None when no response arrived) and the request's config. */
  datatype HttpError = HttpError(status: Option<int>, config: RequestConfig)

  /** How one run of the error handler up to its first `await` ends. */
  datatype Step =
    | Rethrown(error: HttpError)      // the error is passed on untouched
    | Queued                          // parked on the queue until a refresh succeeds
    | RefreshStarted(refresh: string) // the refresh call went out with this refresh token in its body
    | RefreshAborted                  // no refresh token: tokens cleared, redirected, 'No refresh token' thrown

  /** The locals of a handler suspended on the refresh call: its request config and the tokens it read. */
  datatype Refresh = Refresh(origin: RequestConfig, saved: Tokens)

  const Unauthorized := 401
  const AuthorizationHeader := "Authorization"
  const BearerPrefix := "Bearer "

  /** The config carries `Authorization: Bearer <access>`. */
  predicate CarriesBearer(config: RequestConfig, access: string) {
    AuthorizationHeader in config.headers && config.headers[AuthorizationHeader] == BearerPrefix + access
  }

  /** The config with its Authorization header set to `Bearer <access>` and nothing else changed. */
  function WithBearer(config: RequestConfig, access: string): (r: RequestConfig)
    ensures r.id == config.id && r.retry == config.retry && CarriesBearer(r, access)
    ensures forall h :: h in config.headers && h != AuthorizationHeader ==> h in r.headers && r.headers[h] == config.headers[h]
  {
    config.(headers := config.headers[AuthorizationHeader := BearerPrefix + access])
  }

  /** An error that asks for a refresh: a 401 on a request not yet retried. */
  predicate NeedsRefresh(err: HttpError) {
    err.status == Some(Unauthorized) && !err.config.retry
  }

  class Client {
    /** `JSON.parse` of a stored text into a token pair; None where it throws or yields no pair. */
    const parse: string -> Option<Tokens>
    /** `JSON.stringify` of a token pair. */
    const stringify: Tokens -> string

    /** The text under the token key in local storage. */
    var stored: Option<string>
    var isRefreshing: bool
    /** Configs of the handlers parked on the queue, in arrival order. */
    var queue: seq<RequestConfig>
    /** Handlers suspended on an outstanding refresh call. */
    var inFlight: seq<Refresh>
    /** How many times the page was sent to the login route. */
    var redirects: nat

    /** What `JSON.parse` and `JSON.stringify` promise: a stringified pair is non-empty text that parses back to it. */
    ghost predicate CodecRoundTrips() {
      forall t :: stringify(t) != "" && parse(stringify(t)) == Some(t)
    }

    /** The client's invariant: at most one refresh is outstanding, and `isRefreshing` says whether one is. */
    ghost predicate Valid()
      reads this
    {
      && CodecRoundTrips()
      && |inFlight| <= 1
      && (isRefreshing <==> |inFlight| == 1)
      && (forall r :: r in inFlight ==> r.origin.retry && r.saved.refresh != "")
      && (forall c :: c in queue ==> !c.retry)
    }

    constructor (parse: string -> Option<Tokens>, stringify: Tokens -> string, persisted: Option<string>)
      requires forall t :: stringify(t) != "" && parse(stringify(t)) == Some(t)
      ensures Valid()
      ensures this.parse == parse && this.stringify == stringify && stored == persisted
      ensures !isRefreshing && queue == [] && inFlight == [] && redirects == 0
    {
      this.parse := parse;
      this.stringify := stringify;
      stored := persisted;
      isRefreshing := false;
      queue := [];
      inFlight := [];
      redirects := 0;
    }

    /** `tokenStore.get()`: nothing stored, an empty text or a text that does not parse all read as null. */
    function Get(): (r: Option<Tokens>)
      reads this
      ensures r.Some? ==> stored.Some? && stored.value != "" && parse(stored.value) == r
    {
      if stored.None? || stored.value == "" then None else parse(stored.value)
    }

    /** The stored access token when it is a non-empty string (`tokens?.access` is truthy). */
    function StoredAccess(): Option<string>
      reads this
    {
      if Get().Some? && Get().value.access != "" then Some(Get().value.access) else None
    }

    /** The stored pair has a non-empty refresh token (`tokens?.refresh` is truthy). */
    predicate HasRefreshToken()
      reads this
    {
      Get().Some? && Get().value.refresh != ""
    }

    /** `tokenStore.set(t)`: the pair is written and reads back as itself. */
    method Set(t: Tokens)
      requires CodecRoundTrips()
      modifies this`stored
      ensures stored == Some(stringify(t))
      ensures Get() == Some(t)
    {
      stored := Some(stringify(t));
    }

    /** `tokenStore.clear()`: the key is removed and reads back as null. */
    method Clear()
      modifies this`stored
      ensures stored == None && Get() == None
    {
      stored := None;
    }

    /** `window.location.href = '/'`, recorded. */
    method RedirectToLogin()
      modifies this`redirects
      ensures redirects == old(redirects) + 1
    {
      redirects := redirects + 1;
    }

    /**
     * The request interceptor: with a non-empty stored access token the config
     * gets `Authorization: Bearer <access>`; otherwise it goes out unchanged.
     * Every other header, the id and the retry mark are kept.
     */
    method AttachAuth(config: RequestConfig) returns (sent: RequestConfig)
      ensures sent.id == config.id && sent.retry == config.retry
      ensures StoredAccess().None? ==> sent == config
      ensures StoredAccess().Some? ==>
                sent.headers.Keys == config.headers.Keys + {AuthorizationHeader} &&
                CarriesBearer(sent, StoredAccess().value)
      ensures StoredAccess().Some? ==>
                sent == WithBearer(config, StoredAccess().value)
      ensures forall h :: h in config.headers && h != AuthorizationHeader ==>
                h in sent.headers && sent.headers[h] == config.headers[h]
    {
      var tokens := Get();
      sent := config;
      if tokens.Some? && tokens.value.access != "" {
        sent := WithBearer(config, tokens.value.access);
      }
    }

    /**
     * The response interceptor's error handler, up to its first `await`.
     * A 401 on a request not yet retried either parks behind the refresh
     * already under way or marks the request retried and starts the refresh
     * itself, in the same step that sets `isRefreshing`; without a refresh
     * token it goes straight to the failure path. Anything else is rethrown.
     */
    method OnResponseError(err: HttpError) returns (step: Step)
      requires Valid()
      modifies this
      ensures Valid()
      ensures !NeedsRefresh(err) ==>
                step == Rethrown(err) && unchanged(this)
      ensures NeedsRefresh(err) && old(isRefreshing) ==>
                && step == Queued
                && queue == old(queue) + [err.config]
                && isRefreshing && inFlight == old(inFlight)
                && stored == old(stored) && redirects == old(redirects)
      ensures NeedsRefresh(err) && !old(isRefreshing) && !old(HasRefreshToken()) ==>
                && step == RefreshAborted
                && stored == None && redirects == old(redirects) + 1
                && !isRefreshing && inFlight == [] && queue == old(queue)
      ensures NeedsRefresh(err) && !old(isRefreshing) && old(HasRefreshToken()) ==>
                && step == RefreshStarted(old(Get()).value.refresh)
                && isRefreshing
                && inFlight == [Refresh(err.config.(retry := true), old(Get()).value)]
                && stored == old(stored) && queue == old(queue) && redirects == old(redirects)
    {
      if !NeedsRefresh(err) {
        return Rethrown(err);
      }
      if isRefreshing {
        queue := queue + [err.config];
        return Queued;
      }
      var config := err.config.(retry := true);
      isRefreshing := true;
      var tokens := Get();
      if tokens.None? || tokens.value.refresh == "" {
        Clear();
        RedirectToLogin();
        isRefreshing := false;
        return RefreshAborted;
      }
      inFlight := inFlight + [Refresh(config, tokens.value)];
      step := RefreshStarted(tokens.value.refresh);
    }

    /**
     * The refreshing handler resumed with the new access token. The store
     * gets the new access token beside the refresh token read when the refresh
     * started (it is not rotated); every parked request is released, in
     * arrival order, exactly once, and the queue is emptied; the originating
     * request, already marked retried, is returned to be re-sent.
     */
    method OnRefreshSucceeded(newAccess: string) returns (retry: RequestConfig, released: seq<RequestConfig>)
      requires Valid() && isRefreshing
      modifies this
      ensures Valid()
      ensures Get() == Some(Tokens(newAccess, old(inFlight[0].saved.refresh)))
      ensures newAccess != "" ==> StoredAccess() == Some(newAccess)
      ensures released == old(queue) && queue == []
      ensures forall c :: c in released ==> !c.retry
      ensures retry == old(inFlight[0].origin) && retry.retry
      ensures stored == Some(stringify(Tokens(newAccess, old(inFlight[0].saved.refresh))))
      ensures !isRefreshing && inFlight == [] && redirects == old(redirects)
    {
      var pending := inFlight[0];
      Set(Tokens(newAccess, pending.saved.refresh));
      released := queue;
      queue := [];
      retry := pending.origin;
      inFlight := [];
      isRefreshing := false;
    }

    /**
     * The refreshing handler resumed after the refresh call failed: the
     * tokens are cleared, the page is sent to the login route and the error
     * is rethrown to the originating request, whose config is returned. The
     * parked requests are neither released nor dropped: the queue is left as
     * it was.
     */
    method OnRefreshFailed() returns (rejected: RequestConfig)
      requires Valid() && isRefreshing
      modifies this
      ensures Valid()
      ensures rejected == old(inFlight[0].origin) && rejected.retry
      ensures stored == None && Get() == None
      ensures redirects == old(redirects) + 1
      ensures queue == old(queue)
      ensures !isRefreshing && inFlight == []
    {
      rejected := inFlight[0].origin;
      Clear();
      RedirectToLogin();
      inFlight := [];
      isRefreshing := false;
    }

    /**
     * A successful refresh followed by the re-sends it triggers, before anything
     * else touches the store: the originating request and every released one,
     * in that order, go out through the request interceptor. With a non-empty
     * new access token each is its parked config with only the Authorization
     * header replaced by the new token. A response without an access token
     * stores an empty one, which the interceptor ignores, so each config goes
     * out exactly as it was parked, still carrying whatever token it had.
     */
    method ResendAfterRefresh(newAccess: string) returns (sent: seq<RequestConfig>)
      requires Valid() && isRefreshing
      modifies this
      ensures Valid() && !isRefreshing && queue == [] && inFlight == []
      ensures Get() == Some(Tokens(newAccess, old(inFlight[0].saved.refresh)))
      ensures stored == Some(stringify(Tokens(newAccess, old(inFlight[0].saved.refresh))))
      ensures redirects == old(redirects)
      ensures |sent| == 1 + |old(queue)|
      ensures sent[0].id == old(inFlight[0].origin.id) && sent[0].retry
      ensures forall k :: 1 <= k < |sent| ==> sent[k].id == old(queue)[k - 1].id && !sent[k].retry
      ensures newAccess != "" ==> forall k :: 0 <= k < |sent| ==> CarriesBearer(sent[k], newAccess)
      ensures newAccess != "" ==>
                && sent[0] == WithBearer(old(inFlight[0].origin), newAccess)
                && forall k :: 1 <= k < |sent| ==> sent[k] == WithBearer(old(queue)[k - 1], newAccess)
      ensures newAccess == "" ==>
                && sent[0] == old(inFlight[0].origin)
                && forall k :: 1 <= k < |sent| ==> sent[k] == old(queue)[k - 1]
    {
      var retry, released := OnRefreshSucceeded(newAccess);
      var first := AttachAuth(retry);
      var rest := AttachAuthAll(released);
      sent := [first] + rest;
    }

    /** The request interceptor applied to each of several configs in turn. */
    method AttachAuthAll(configs: seq<RequestConfig>) returns (sent: seq<RequestConfig>)
      ensures |sent| == |configs|
      ensures forall k :: 0 <= k < |sent| ==> sent[k].id == configs[k].id && sent[k].retry == configs[k].retry
      ensures StoredAccess().None? ==> sent == configs
      ensures StoredAccess().Some? ==> forall k :: 0 <= k < |sent| ==> CarriesBearer(sent[k], StoredAccess().value)
      ensures StoredAccess().Some? ==> forall k :: 0 <= k < |sent| ==>
                sent[k] == WithBearer(configs[k], StoredAccess().value)
    {
      sent := [];
      var i := 0;
      while i < |configs|
        invariant 0 <= i <= |configs| && |sent| == i
        invariant forall k :: 0 <= k < i ==> sent[k].id == configs[k].id && sent[k].retry == configs[k].retry
        invariant StoredAccess().None? ==> sent == configs[..i]
        invariant StoredAccess().Some? ==> forall k :: 0 <= k < i ==> CarriesBearer(sent[k], StoredAccess().value)
        invariant StoredAccess().Some? ==> forall k :: 0 <= k < i ==>
                    sent[k] == WithBearer(configs[k], StoredAccess().value)
      {
        var out := AttachAuth(configs[i]);
        sent := sent + [out];
        i := i + 1;
      }
    }

    /**
     * Many requests that each get a 401 before any refresh settles: at most one
     * refresh call is started, and every request after the one that started it
     * is parked on the queue in arrival order. Without a refresh token no
     * refresh call is made: every request takes the failure path and redirects.
     */
    method OnUnauthorizedBurst(configs: seq<RequestConfig>) returns (steps: seq<Step>)
      requires Valid()
      requires forall c :: c in configs ==> !c.retry
      modifies this
      ensures Valid()
      ensures |steps| == |configs|
      ensures RefreshesStarted(steps) + (if old(isRefreshing) then 1 else 0) <= 1
      ensures old(isRefreshing) ==>
                && (forall k :: 0 <= k < |steps| ==> steps[k] == Queued)
                && queue == old(queue) + configs
                && isRefreshing && inFlight == old(inFlight)
                && stored == old(stored) && redirects == old(redirects)
      ensures !old(isRefreshing) && old(HasRefreshToken()) && configs != [] ==>
                && steps[0] == RefreshStarted(old(Get()).value.refresh)
                && (forall k :: 1 <= k < |steps| ==> steps[k] == Queued)
                && queue == old(queue) + configs[1..]
                && isRefreshing
                && inFlight == [Refresh(configs[0].(retry := true), old(Get()).value)]
                && stored == old(stored) && redirects == old(redirects)
      ensures !old(isRefreshing) && !old(HasRefreshToken()) ==>
                && (forall k :: 0 <= k < |steps| ==> steps[k] == RefreshAborted)
                && RefreshesStarted(steps) == 0
                && redirects == old(redirects) + |configs|
                && queue == old(queue) && !isRefreshing && inFlight == []
                && stored == (if configs == [] then old(stored) else None)
      ensures configs == [] ==>
                && steps == [] && queue == old(queue) && isRefreshing == old(isRefreshing)
                && inFlight == old(inFlight) && stored == old(stored) && redirects == old(redirects)
    {
      if isRefreshing {
        steps := QueueBehindRefresh(configs);
      } else if !HasRefreshToken() {
        steps := AbortEach(configs);
      } else if configs == [] {
        steps := [];
      } else {
        assert configs[0] in configs;
        var first := OnResponseError(HttpError(Some(Unauthorized), configs[0]));
        assert forall c :: c in configs[1..] ==> c in configs;
        var rest := QueueBehindRefresh(configs[1..]);
        steps := [first] + rest;
        assert steps[1..] == rest;
      }
      NoneStartedAfterFirst(steps);
    }

    /** 401s arriving while a refresh is under way: each one parks on the queue, in arrival order. */
    method QueueBehindRefresh(configs: seq<RequestConfig>) returns (steps: seq<Step>)
      requires Valid() && isRefreshing
      requires forall c :: c in configs ==> !c.retry
      modifies this
      ensures Valid() && isRefreshing
      ensures |steps| == |configs| && forall k :: 0 <= k < |steps| ==> steps[k] == Queued
      ensures queue == old(queue) + configs
      ensures inFlight == old(inFlight) && stored == old(stored) && redirects == old(redirects)
    {
      steps := [];
      var i := 0;
      while i < |configs|
        invariant 0 <= i <= |configs| && |steps| == i
        invariant Valid() && isRefreshing
        invariant forall k :: 0 <= k < i ==> steps[k] == Queued
        invariant queue == old(queue) + configs[..i]
        invariant inFlight == old(inFlight) && stored == old(stored) && redirects == old(redirects)
      {
        assert configs[i] in configs;
        var step := OnResponseError(HttpError(Some(Unauthorized), configs[i]));
        steps := steps + [step];
        assert configs[..i + 1] == configs[..i] + [configs[i]];
        i := i + 1;
      }
    }

    /** 401s with no refresh token stored and no refresh under way: each one clears the store and redirects. */
    method AbortEach(configs: seq<RequestConfig>) returns (steps: seq<Step>)
      requires Valid() && !isRefreshing && !HasRefreshToken()
      requires forall c :: c in configs ==> !c.retry
      modifies this
      ensures Valid() && !isRefreshing && inFlight == [] && queue == old(queue)
      ensures |steps| == |configs| && forall k :: 0 <= k < |steps| ==> steps[k] == RefreshAborted
      ensures redirects == old(redirects) + |configs|
      ensures stored == (if configs == [] then old(stored) else None)
    {
      steps := [];
      var i := 0;
      while i < |configs|
        invariant 0 <= i <= |configs| && |steps| == i
        invariant Valid() && !isRefreshing && !HasRefreshToken() && inFlight == [] && queue == old(queue)
        invariant forall k :: 0 <= k < i ==> steps[k] == RefreshAborted
        invariant redirects == old(redirects) + i
        invariant stored == (if i == 0 then old(stored) else None)
      {
        assert configs[i] in configs;
        var step := OnResponseError(HttpError(Some(Unauthorized), configs[i]));
        steps := steps + [step];
        i := i + 1;
      }
    }
  }

  /** How many of the steps started a refresh call. */
  function RefreshesStarted(steps: seq<Step>): nat
  {
    if steps == [] then 0
    else (if steps[0].RefreshStarted? then 1 else 0) + RefreshesStarted(steps[1..])
  }

  /** A run in which no step after the first starts a refresh starts at most one, and none when the first does not either. */
  lemma {:induction false} NoneStartedAfterFirst(steps: seq<Step>)
    requires forall k :: 1 <= k < |steps| ==> !steps[k].RefreshStarted?
    ensures RefreshesStarted(steps) <= 1
    ensures steps == [] || !steps[0].RefreshStarted? ==> RefreshesStarted(steps) == 0
    decreases |steps|
  {
    if steps != [] {
      NoneStartedAfterFirst(steps[1..]);
    }
  }
}
