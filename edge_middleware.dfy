/**
 * The edge middleware every page request passes through (middleware.ts):
 * it picks the handler by path and host, in a fixed order.  The deployment
 * environment (webhook host, `NODE_ENV`) and the list of blocked view
 * pathnames are inputs.
 */
module EdgeMiddleware {
  import opened Text
  import AppAuth
  import IncomingWebhooks

  const AnalyticsPrefix: string := "/ingest/"
  const ViewPrefix: string := "/view/"

  /** The deployment configuration the middleware reads. */
  datatype Env = Env(webhookHost: Option<string>, nodeEnv: Option<string>, blockedPathnames: seq<string>)

  /**
   * The handler a request goes to.  The analytics proxy and the
   * custom-domain handler are not part of this model; `NotFound` is the
   * rewrite to `/404` with status 404; `Next` lets the request through.
   */
  datatype Route =
    | Analytics
    | Webhook(rewrite: IncomingWebhooks.Rewrite)
    | CustomDomain
    | App(decision: AppAuth.Decision)
    | NotFound
    | Next

  /** `isAnalyticsPath`: the pattern `^/ingest/.*` matches, i.e. the path starts with `/ingest/`. */
  predicate IsAnalyticsPath(path: string)
    ensures IsAnalyticsPath(path) <==>
      |path| >= |AnalyticsPrefix| && path == AnalyticsPrefix + path[|AnalyticsPrefix|..]
  {
    StartsWith(path, AnalyticsPrefix)
  }

  predicate Development(nodeEnv: Option<string>) {
    nodeEnv == Some("development")
  }

  /** A host of the application's own deployments (outside development). */
  predicate OwnHost(host: string) {
    Contains(host, "localhost") || Contains(host, "cscale.io") || EndsWith(host, ".vercel.app")
  }

  /**
   * `isCustomDomain(host)`: in development a `.local` host; elsewhere any
   * host that is not one of the application's own.
   */
  function IsCustomDomain(host: string, nodeEnv: Option<string>): (b: bool)
    ensures Development(nodeEnv) ==> (b <==> Contains(host, ".local"))
    ensures !Development(nodeEnv) ==> (b <==> !OwnHost(host))
  {
    if Development(nodeEnv) then Contains(host, ".local") else !OwnHost(host)
  }

  /** Paths handled by the application's authentication middleware. */
  predicate IsAppPath(path: string) {
    !StartsWith(path, ViewPrefix) && !StartsWith(path, "/verify") && !StartsWith(path, "/unsubscribe")
  }

  /** A view path holding a dot or a blocked pathname is answered 404. */
  predicate BlockedViewPath(path: string, blockedPathnames: seq<string>) {
    && StartsWith(path, ViewPrefix)
    && ((exists b | b in blockedPathnames :: Contains(path, b)) || Contains(path, "."))
  }

  /** `host || ""`. */
  function HostOrEmpty(host: Option<string>): string {
    if host.Some? then host.value else ""
  }

  /**
   * `middleware`: analytics path, then webhook host, then custom domain,
   * then application path, then blocked view path; the first test that
   * holds decides, and a request none of them claims passes through.
   */
  function Middleware(req: AppAuth.Request, host: Option<string>, env: Env): (r: Route)
    ensures r.Analytics? <==> IsAnalyticsPath(req.path)
    ensures r.Webhook? <==>
      !IsAnalyticsPath(req.path) && IncomingWebhooks.IsWebhookPath(host, env.webhookHost)
    ensures r.Webhook? ==> r.rewrite == IncomingWebhooks.WebhookRewrite(req.path)
    ensures r.CustomDomain? <==>
      && !IsAnalyticsPath(req.path)
      && !IncomingWebhooks.IsWebhookPath(host, env.webhookHost)
      && IsCustomDomain(HostOrEmpty(host), env.nodeEnv)
    ensures r.App? <==>
      && !IsAnalyticsPath(req.path)
      && !IncomingWebhooks.IsWebhookPath(host, env.webhookHost)
      && !IsCustomDomain(HostOrEmpty(host), env.nodeEnv)
      && IsAppPath(req.path)
    ensures r.App? ==> r.decision == AppAuth.AppMiddleware(req)
    ensures r.NotFound? ==> StartsWith(req.path, ViewPrefix) && BlockedViewPath(req.path, env.blockedPathnames)
    ensures (r.NotFound? || r.Next?) ==>
      && !IsAnalyticsPath(req.path)
      && !IncomingWebhooks.IsWebhookPath(host, env.webhookHost)
      && !IsCustomDomain(HostOrEmpty(host), env.nodeEnv)
      && !IsAppPath(req.path)
    ensures r.Next? ==> !BlockedViewPath(req.path, env.blockedPathnames)
  {
    if IsAnalyticsPath(req.path) then Analytics
    else if IncomingWebhooks.IsWebhookPath(host, env.webhookHost) then
      Webhook(IncomingWebhooks.WebhookRewrite(req.path))
    else if IsCustomDomain(HostOrEmpty(host), env.nodeEnv) then CustomDomain
    else if IsAppPath(req.path) then App(AppAuth.AppMiddleware(req))
    else if BlockedViewPath(req.path, env.blockedPathnames) then NotFound
    else Next
  }

  // ----- properties -----

  /** The analytics proxy takes its paths on every host and in every environment. */
  lemma AnalyticsFirst(req: AppAuth.Request, host: Option<string>, env: Env)
    requires StartsWith(req.path, AnalyticsPrefix)
    ensures Middleware(req, host, env) == Analytics
  {
  }

  /**
   * A host named `localhost` (any host holding `localhost` and no dot) is
   * never a custom domain, in development or not.
   */
  lemma LocalhostNotCustom(host: string, nodeEnv: Option<string>)
    requires Contains(host, "localhost") && '.' !in host
    ensures !IsCustomDomain(host, nodeEnv)
  {
    NotContainsWithoutFirst(host, ".local");
  }

  /** Outside development the application's own domain is never a custom domain. */
  lemma OwnDomainNotCustom(host: string, nodeEnv: Option<string>)
    requires !Development(nodeEnv)
    requires StartsWith(host, "cscale.io") || EndsWith(host, ".vercel.app")
    ensures !IsCustomDomain(host, nodeEnv)
  {
    if StartsWith(host, "cscale.io") {
      StartsWithContains(host, "cscale.io");
    }
  }

  /**
   * A `/verify` or `/unsubscribe` path that reaches the path tests is let
   * through: only `/view/` paths can be answered 404.
   */
  lemma VerifyPassesThrough(req: AppAuth.Request, host: Option<string>, env: Env)
    requires StartsWith(req.path, "/verify") || StartsWith(req.path, "/unsubscribe")
    requires !IncomingWebhooks.IsWebhookPath(host, env.webhookHost)
    requires !IsCustomDomain(HostOrEmpty(host), env.nodeEnv)
    ensures Middleware(req, host, env) == Next
  {
    assert (req.path[1] == 'v' && req.path[2] == 'e') || req.path[1] == 'u';
  }

  /**
   * Under `/view/`, a path with a dot (a static file name, say) is answered
   * 404 whatever the blocked list holds.
   */
  lemma ViewPathWithDotNotFound(req: AppAuth.Request, host: Option<string>, env: Env)
    requires StartsWith(req.path, ViewPrefix) && Contains(req.path, ".")
    requires !IncomingWebhooks.IsWebhookPath(host, env.webhookHost)
    requires !IsCustomDomain(HostOrEmpty(host), env.nodeEnv)
    ensures Middleware(req, host, env) == NotFound
  {
    assert req.path[1] == 'v';
  }
}
