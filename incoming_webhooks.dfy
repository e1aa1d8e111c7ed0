/**
 * The webhook-host branch of the edge middleware
 * (lib/middleware/incoming-webhooks.ts): requests arriving on the dedicated
 * webhook host are rewritten into the `/api/webhooks` route tree, and only
 * `/services/...` paths are accepted there.
 */
module IncomingWebhooks {
  import opened Text

  const ServicesPrefix: string := "/services/"
  const WebhookApiPrefix: string := "/api/webhooks"
  const NotFoundPath: string := "/404"

  /**
   * A rewrite of the request to another pathname of the same application;
   * `status` is the status the rewritten response is given, None for the
   * status of the route it is rewritten to.
   */
  datatype Rewrite = Rewrite(pathname: string, status: Option<nat>)

  /** `IncomingWebhookMiddleware`: the rewrite of a request on the webhook host. */
  function WebhookRewrite(path: string): (r: Rewrite)
    ensures r.status.None? <==> StartsWith(path, ServicesPrefix)
    ensures r.status.None? ==>
      && StartsWith(r.pathname, WebhookApiPrefix + ServicesPrefix)
      && EndsWith(r.pathname, path)
      && r.pathname[|WebhookApiPrefix|..] == path
    ensures r.status.Some? ==> r == Rewrite(NotFoundPath, Some(404))
  {
    if StartsWith(path, ServicesPrefix) then
      var target := WebhookApiPrefix + path;
      assert target[..|WebhookApiPrefix + ServicesPrefix|] == WebhookApiPrefix + path[..|ServicesPrefix|];
      assert target[|target| - |path|..] == path;
      Rewrite(target, None)
    else
      Rewrite(NotFoundPath, Some(404))
  }

  /**
   * The webhook route is entered only through `/api/webhooks/services/...`
   * and a rewritten path determines the request's original path: stripping
   * the `/api/webhooks` prefix gives it back.
   */
  lemma WebhookRewriteInjective(p: string, q: string)
    requires WebhookRewrite(p).status.None? && WebhookRewrite(q).status.None?
    requires WebhookRewrite(p).pathname == WebhookRewrite(q).pathname
    ensures p == q
  {
  }

  /**
   * `isWebhookPath(host)`: the request came in on the configured webhook host.
   * An unset or empty configuration matches no host; otherwise the host must
   * equal it exactly (a missing host header never matches).
   */
  function IsWebhookPath(host: Option<string>, webhookHost: Option<string>): (b: bool)
    ensures !Truthy(webhookHost) ==> !b
    ensures Truthy(webhookHost) ==> (b <==> host == webhookHost)
    ensures b ==> host.Some? && host.value != ""
  {
    if !Truthy(webhookHost) then false
    else host == webhookHost
  }
}
