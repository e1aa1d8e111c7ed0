/**
 * The admission check shared by the two internal PDF endpoints
 * (pages/api/mupdf/convert-page.ts and pages/api/mupdf/get-pages.ts): only
 * POST is accepted, and the bearer token of the `Authorization` header must
 * equal the configured internal API key.
 */
module RequestGate {
  import opened Text

  datatype Verdict =
    | RejectMethod   // 405 Method Not Allowed
    | RejectToken    // 401 Unauthorized
    | Admitted

  /**
   * `authHeader?.split(" ")[1]`: the text between the first and the second
   * space of the header; undefined (None) when the header is missing or
   * holds no space.
   */
  function BearerToken(authorization: Option<string>): (token: Option<string>)
    ensures token.None? <==> authorization.None? || ' ' !in authorization.value
    ensures token.Some? ==> ' ' !in token.value
    ensures token.Some? ==>
      exists scheme: string | ' ' !in scheme ::
        && StartsWith(authorization.value, scheme + " " + token.value)
        && (|scheme| + 1 + |token.value| == |authorization.value|
            || authorization.value[|scheme| + 1 + |token.value|] == ' ')
  {
    match authorization
    case None => None
    case Some(h) =>
      var t := SplitSecond(h, ' ');
      if t.Some? then
        assert StartsWith(h, SplitHead(h, ' ') + " " + t.value);
        t
      else
        t
  }

  /**
   * The handler's first two checks.  `apiKey` is the configured key (None when
   * it is not set); the token is compared with it by strict equality.
   */
  function Gate(verb: string, authorization: Option<string>, apiKey: Option<string>): (v: Verdict)
    ensures v.RejectMethod? <==> verb != "POST"
    ensures v.Admitted? <==> verb == "POST" && BearerToken(authorization) == apiKey
  {
    if verb != "POST" then RejectMethod
    else if BearerToken(authorization) != apiKey then RejectToken
    else Admitted
  }

  /**
   * `Bearer <key>` (any one-word scheme) is admitted when the key is
   * configured; anything after a further space is ignored.
   */
  lemma BearerAdmitted(scheme: string, key: string, rest: string)
    requires ' ' !in scheme && ' ' !in key
    requires rest == "" || rest[0] == ' '
    ensures Gate("POST", Some(scheme + " " + key + rest), Some(key)) == Admitted
  {
    SplitSecondOf(scheme, key, rest, ' ');
  }

  /** A different key is refused. */
  lemma WrongKeyRejected(authorization: Option<string>, key: string)
    requires BearerToken(authorization) != Some(key)
    ensures Gate("POST", authorization, Some(key)) == RejectToken
  {
  }

  /**
   * With no key configured, a request without an `Authorization` header (or
   * with a header holding no space) is admitted: both sides are undefined.
   */
  lemma UnsetKeyAdmitsTokenless(authorization: Option<string>)
    requires authorization.None? || ' ' !in authorization.value
    ensures Gate("POST", authorization, None) == Admitted
  {
  }

  /** The method is checked before the token: any non-POST request is 405. */
  lemma MethodBeforeToken(verb: string, authorization: Option<string>, apiKey: Option<string>)
    requires verb != "POST"
    ensures Gate(verb, authorization, apiKey) == RejectMethod
  {
  }
}
