/**
 * The authentication redirects of the application pages
 * (`AppMiddleware` in lib/middleware/app.ts).  The session token, the
 * current time and the parsed query string are inputs: reading and
 * verifying the session cookie is the authentication library's business.
 */
module AppAuth {
  import opened Text
  import opened UriComponent

  const LoginPath: string := "/login"
  const WelcomePath: string := "/welcome"
  const DashboardPath: string := "/dashboard"
  const ConfirmEmailChangePath: string := "/auth/confirm-email-change"

  /** How long after sign-up (in milliseconds) a user is sent to the welcome page. */
  const NewUserWindowMs: int := 10000

  /**
   * The decoded session token.  `createdAtMs` is what
   * `new Date(user.createdAt).getTime()` yields: None when `createdAt` is
   * absent, empty or not a date (a NaN time compares false).
   */
  datatype Token = Token(email: Option<string>, createdAtMs: Option<int>)

  /**
   * The request as the middleware sees it: the pathname, the raw query
   * string (`url.search`, with its leading `?` when non-empty), the decoded
   * query parameters in order, the session token and the current time.
   */
  datatype Request = Request(
    path: string,
    search: string,
    params: seq<(string, string)>,
    token: Option<Token>,
    nowMs: int)

  /**
   * The middleware's answer.  `RedirectToLogin.next` is the value given to
   * the `next` query parameter of the login URL (None: no parameter);
   * `RedirectTo.target` is the decoded page to go to, resolved against the
   * request URL; `DecodeFailed` is the URIError `decodeURIComponent` throws.
   */
  datatype Decision =
    | RedirectToLogin(next: Option<string>)
    | RedirectToWelcome
    | RedirectTo(target: string)
    | DecodeFailed
    | PassThrough

  /** `searchParams.has(name)`. */
  predicate HasParam(params: seq<(string, string)>, name: string) {
    exists i | 0 <= i < |params| :: params[i].0 == name
  }

  /** `searchParams.get(name)`: the value of the first parameter of that name. */
  function GetParam(params: seq<(string, string)>, name: string): (v: Option<string>)
    ensures v.None? <==> !HasParam(params, name)
    ensures v.Some? ==> exists i | 0 <= i < |params| ::
      params[i] == (name, v.value) && forall j | 0 <= j < i :: params[j].0 != name
  {
    if params == [] then None
    else if params[0].0 == name then
      assert params[0] == (name, params[0].1);
      Some(params[0].1)
    else
      var v := GetParam(params[1..], name);
      assert HasParam(params, name) <==> HasParam(params[1..], name) by {
        if HasParam(params, name) {
          var i :| 0 <= i < |params| && params[i].0 == name;
          assert params[1..][i - 1].0 == name;
        }
        if HasParam(params[1..], name) {
          var i :| 0 <= i < |params[1..]| && params[1..][i].0 == name;
          assert params[i + 1].0 == name;
        }
      }
      if v.Some? then
        var i :| 0 <= i < |params[1..]| && params[1..][i] == (name, v.value)
          && forall j | 0 <= j < i :: params[1..][j].0 != name;
        assert params[i + 1] == (name, v.value);
        assert forall j | 0 <= j < i + 1 :: params[j].0 != name by {
          forall j | 0 <= j < i + 1
            ensures params[j].0 != name
          {
            if j > 0 {
              assert params[j] == params[1..][j - 1];
            }
          }
        }
        v
      else
        v
  }

  /** The token carries an email: the user is signed in. */
  predicate Authenticated(token: Option<Token>) {
    token.Some? && Truthy(token.value.email)
  }

  /** The signed-in user was created less than ten seconds before `nowMs`. */
  predicate RecentlyCreated(token: Option<Token>, nowMs: int) {
    token.Some? && token.value.createdAtMs.Some? && token.value.createdAtMs.value > nowMs - NewUserWindowMs
  }

  /** The page the user asked for, carried through the login page. */
  function RequestedPage(path: string, search: string): string {
    if path == ConfirmEmailChangePath then path + search else path
  }

  /**
   * The `next` parameter of the login redirect: omitted for the root page,
   * otherwise the encoded requested page, from which decoding recovers it.
   */
  function NextParam(path: string, search: string): (next: Option<string>)
    ensures next.None? <==> path == "/"
    ensures next.Some? ==> Decode(next.value) == Some(RequestedPage(path, search))
    ensures next.Some? && path != "" ==> next.value != ""
  {
    if path == "/" then None
    else
      var page := RequestedPage(path, search);
      DecodeEncode(page);
      Some(Encode(page))
  }

  /** The page requested by the `next` parameter of a login, `/dashboard` when it is absent or empty. */
  function LoginTarget(params: seq<(string, string)>): (t: string)
    ensures Truthy(GetParam(params, "next")) ==> t == GetParam(params, "next").value
    ensures !Truthy(GetParam(params, "next")) ==> t == DashboardPath
    ensures t == DashboardPath <== !HasParam(params, "next")
    ensures t != ""
  {
    var next := GetParam(params, "next");
    if Truthy(next) then next.value else DashboardPath
  }

  /** The welcome-page condition: a brand-new signed-in user, not already there and not invited. */
  predicate SendToWelcome(req: Request) {
    && Authenticated(req.token)
    && RecentlyCreated(req.token, req.nowMs)
    && req.path != WelcomePath
    && !HasParam(req.params, "invitation")
  }

  /** `AppMiddleware`: the first of its rules that applies decides. */
  function AppMiddleware(req: Request): (d: Decision)
    ensures d.RedirectToLogin? <==> !Authenticated(req.token) && req.path != LoginPath
    ensures d.RedirectToLogin? ==> d.next == NextParam(req.path, req.search)
    ensures d.RedirectToWelcome? <==> SendToWelcome(req)
    ensures (d.RedirectTo? || d.DecodeFailed?) <==>
      Authenticated(req.token) && req.path == LoginPath && !SendToWelcome(req)
    ensures d.RedirectTo? ==> Decode(LoginTarget(req.params)) == Some(d.target)
    ensures d.DecodeFailed? ==> Decode(LoginTarget(req.params)).None?
    ensures d.PassThrough? <==>
      || (!Authenticated(req.token) && req.path == LoginPath)
      || (Authenticated(req.token) && req.path != LoginPath && !SendToWelcome(req))
  {
    if !Authenticated(req.token) && req.path != LoginPath then
      RedirectToLogin(NextParam(req.path, req.search))
    else if SendToWelcome(req) then
      RedirectToWelcome
    else if Authenticated(req.token) && req.path == LoginPath then
      match Decode(LoginTarget(req.params))
      case None => DecodeFailed
      case Some(target) => RedirectTo(target)
    else
      PassThrough
  }

  // ----- properties -----

  /** A string without `%` decodes to itself. */
  lemma {:induction false} DecodePlain(s: string)
    requires '%' !in s
    ensures Decode(s) == Some(s)
  {
    if s != [] {
      DecodePlain(s[1..]);
      assert [s[0]] + s[1..] == s;
    }
  }

  /** A signed-in user opening the login page without `next` lands on the dashboard. */
  lemma LoginDefaultsToDashboard(req: Request)
    requires Authenticated(req.token) && req.path == LoginPath && !SendToWelcome(req)
    requires !HasParam(req.params, "next")
    ensures AppMiddleware(req) == RedirectTo(DashboardPath)
  {
    DecodePlain(DashboardPath);
  }

  /**
   * The login round trip: a signed-out request for a page other than the
   * root and the login page is sent to the login page with a `next`
   * parameter; once signed in, opening the login page with that parameter
   * redirects to the page first requested (with its query string for the
   * email-change confirmation).
   */
  lemma LoginRoundTrip(first: Request, later: Request, v: string)
    requires !Authenticated(first.token) && first.path != LoginPath
    requires first.path != "/" && first.path != ""
    requires AppMiddleware(first) == RedirectToLogin(Some(v))
    requires Authenticated(later.token) && later.path == LoginPath && !SendToWelcome(later)
    requires GetParam(later.params, "next") == Some(v)
    ensures AppMiddleware(later) == RedirectTo(RequestedPage(first.path, first.search))
  {
    assert NextParam(first.path, first.search) == Some(v);
  }

  /** A new user is welcomed even on the login page: the welcome rule comes first. */
  lemma WelcomeBeforeLogin(req: Request)
    requires SendToWelcome(req) && req.path == LoginPath
    ensures AppMiddleware(req) == RedirectToWelcome
  {
  }

  /** A signed-out request for the login page itself is let through. */
  lemma SignedOutLoginPassesThrough(req: Request)
    requires !Authenticated(req.token) && req.path == LoginPath
    ensures AppMiddleware(req) == PassThrough
  {
  }
}
