/** The authentication middleware: requests to the health check, the API
    docs, the file routes and the auth routes pass untouched; every other
    request must carry a session, which is then touched. */
module Authentication {
  import opened Errors
  import opened Strings
  import opened Tables

  /** The route prefixes excluded together with everything below them. */
  predicate IsExcludedPrefix(p: string)
  {
    p == "/docs" || p == "/file" || p == "/auth"
  }

  /** `^<prefix>(\/.*)?$`: the prefix alone, or the prefix, a `/` and a tail
      in which `.` can match every character, that is, one with no line
      terminator. */
  predicate MatchesPrefixRoute(url: string, prefix: string)
  {
    || url == prefix
    || (&& |url| > |prefix|
        && url[..|prefix| + 1] == prefix + "/"
        && forall i :: |prefix| + 1 <= i < |url| ==> !IsLineTerminator(url[i]))
  }

  /** `excludedRoutesRegex.test(url)`: the four anchored alternatives. */
  predicate IsExcludedRoute(url: string)
  {
    || url == "/api/health"
    || MatchesPrefixRoute(url, "/docs")
    || MatchesPrefixRoute(url, "/file")
    || MatchesPrefixRoute(url, "/auth")
  }

  /** Under an excluded prefix, the prefix itself and the prefix followed by
      `/` and any single-line tail (a query string included) are excluded. */
  lemma {:induction false} PrefixRoutesExcluded(p: string, tail: string)
    requires IsExcludedPrefix(p)
    ensures IsExcludedRoute(p)
    ensures IsExcludedRoute(p + "/" + tail) <==> forall i :: 0 <= i < |tail| ==> !IsLineTerminator(tail[i])
  {
    var u := p + "/" + tail;
    assert u[..|p| + 1] == p + "/";
    if forall i :: 0 <= i < |tail| ==> !IsLineTerminator(tail[i]) {
      assert forall i :: |p| + 1 <= i < |u| ==> u[i] == tail[i - |p| - 1];
    } else {
      var k :| 0 <= k < |tail| && IsLineTerminator(tail[k]);
      assert u[|p| + 1 + k] == tail[k];
      assert !MatchesPrefixRoute(u, p);
      assert u[2] == p[2];
    }
  }

  /** A prefix followed directly by anything but `/` (`/files`, `/authz`) is
      not excluded. */
  lemma {:induction false} BarePrefixNotExcluded(p: string, c: char, rest: string)
    requires IsExcludedPrefix(p) && c != '/'
    ensures !IsExcludedRoute(p + [c] + rest)
  {
    var u := p + [c] + rest;
    assert u[5] == c && u[2] == p[2];
  }

  /** The health check is excluded only as the exact URL. */
  lemma HealthOnlyExact()
    ensures IsExcludedRoute("/api/health")
    ensures !IsExcludedRoute("/api/health/") && !IsExcludedRoute("/api/health?x")
  {
    forall url | url == "/api/health/" || url == "/api/health?x"
      ensures !MatchesPrefixRoute(url, "/docs") && !MatchesPrefixRoute(url, "/file") && !MatchesPrefixRoute(url, "/auth")
    {
      assert url[..6][2] == 'p';
    }
  }

  /** What the middleware does to the session. */
  datatype SessionStep = ReadSession | TouchSession

  /** The error the middleware throws, if any, and the steps it took. */
  datatype MiddlewareRun = MiddlewareRun(error: Option<Fault>, steps: seq<SessionStep>)

  /** `authenticationMiddleware`: an excluded URL returns at once; otherwise
      the session value is read, a missing value throws `Unauthorized`, and
      a present one is touched once. */
  function AuthenticationMiddleware(url: string, session: Option<UserSession>): (run: MiddlewareRun)
    ensures IsExcludedRoute(url) ==> run.steps == []
    ensures !IsExcludedRoute(url) && session.None? ==>
      run.steps == [ReadSession] && run.error == Some(NewError(Unauthorized, None, None))
    ensures !IsExcludedRoute(url) && session.Some? ==>
      run.steps == [ReadSession, TouchSession] && run.error.None?
    ensures run.error.Some? ==> run.error.value.Custom? && StatusCode(run.error.value.kind) == 401
    ensures run.error.None? <==> IsExcludedRoute(url) || session.Some?
    ensures TouchSession in run.steps ==> run.steps[0] == ReadSession && session.Some?
  {
    if IsExcludedRoute(url) then MiddlewareRun(None, [])
    else if session.None? then MiddlewareRun(Some(NewError(Unauthorized, None, None)), [ReadSession])
    else MiddlewareRun(None, [ReadSession, TouchSession])
  }
}
