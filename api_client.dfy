/** The axios interceptors of `frontend/src/services/api.js`. The request
    interceptor attaches the stored access token as a bearer header; the
    response interceptor retries a request once after a 403 by fetching a
    new access token with the stored refresh token. `localStorage` is the
    pair of fields of `Session`; the call to `/auth/refresh` is the
    function parameter `postRefresh` (the refresh token sent, to the new
    access token or `None` on failure). Each interceptor call is one
    atomic step. */
module ApiClient {
  import opened Wrappers

  /** The request interceptor: `Authorization: Bearer <token>` exactly when
      a non-empty access token is stored; the other headers are kept. */
  function WithAuthorization(stored: Option<string>, headers: map<string, string>): (r: map<string, string>)
    ensures stored.Some? && stored.value != "" ==> r == headers["Authorization" := "Bearer " + stored.value]
    ensures stored.None? || stored.value == "" ==> r == headers
  {
    if stored.Some? && stored.value != "" then headers["Authorization" := "Bearer " + stored.value] else headers
  }

  /** `err.response?.status === 403 && !original._retry && !refreshing`;
      `status` is `None` when the error carries no response. */
  predicate ShouldRefresh(status: Option<int>, retried: bool, refreshing: bool)
    ensures ShouldRefresh(status, retried, refreshing) ==> status == Some(403)
    ensures retried || refreshing ==> !ShouldRefresh(status, retried, refreshing)
  {
    status == Some(403) && !retried && !refreshing
  }

  /** A request that has already been retried never qualifies again. */
  lemma RetriedNeverQualifies(status: Option<int>, refreshing: bool)
    ensures !ShouldRefresh(status, true, refreshing)
  {
  }

  /** What the response interceptor does with a failed request. */
  datatype Action = Retry | Reject

  /** The request config, as far as the interceptor marks it. */
  class RequestConfig {
    var retry: bool

    constructor ()
      ensures !retry
    {
      retry := false;
    }
  }

  /** The client's module-level state and its `localStorage` entries. */
  class Session {
    var refreshing: bool
    var accessToken: Option<string>
    var refreshToken: Option<string>
    /** `window.location.href = "/login"` has happened. */
    var sentToLogin: bool

    constructor (accessToken: Option<string>, refreshToken: Option<string>)
      ensures !refreshing && !sentToLogin
      ensures this.accessToken == accessToken && this.refreshToken == refreshToken
    {
      refreshing, sentToLogin := false, false;
      this.accessToken, this.refreshToken := accessToken, refreshToken;
    }

    /** The response interceptor's error branch. An error that does not
        qualify is rejected and nothing changes. Otherwise the request is
        marked retried, and `refreshing` is false again afterwards: on
        success only the access token is replaced and the request is
        retried; on failure both tokens are removed, the client goes to the
        login page, and the error is rejected. */
    method OnError(original: RequestConfig, status: Option<int>, postRefresh: Option<string> -> Option<string>)
      returns (a: Action)
      modifies this, original
      ensures !ShouldRefresh(status, old(original.retry), old(refreshing)) ==>
        a == Reject && original.retry == old(original.retry)
        && refreshing == old(refreshing) && accessToken == old(accessToken)
        && refreshToken == old(refreshToken) && sentToLogin == old(sentToLogin)
      ensures ShouldRefresh(status, old(original.retry), old(refreshing)) ==>
        original.retry && !refreshing
      ensures ShouldRefresh(status, old(original.retry), old(refreshing)) && postRefresh(old(refreshToken)).Some? ==>
        a == Retry && accessToken == postRefresh(old(refreshToken))
        && refreshToken == old(refreshToken) && sentToLogin == old(sentToLogin)
      ensures ShouldRefresh(status, old(original.retry), old(refreshing)) && postRefresh(old(refreshToken)).None? ==>
        a == Reject && accessToken == None && refreshToken == None && sentToLogin
    {
      if status == Some(403) && !original.retry && !refreshing {
        original.retry := true;
        refreshing := true;
        var data := postRefresh(refreshToken);
        if data.Some? {
          accessToken := data;
          refreshing := false;
          return Retry;
        }
        refreshing := false;
        accessToken := None;
        refreshToken := None;
        sentToLogin := true;
      }
      return Reject;
    }
  }
}
