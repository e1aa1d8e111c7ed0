/**
 * The browser-upload endpoint (pages/api/file/browser-upload.ts).  The upload
 * transport's `handleUpload` asks `onBeforeGenerateToken` for the options of a
 * client upload token; the model keeps that callback's decisions: who may
 * upload and how large a file may be, by the team's plan.
 */
module BrowserUpload {
  import opened Text

  const MiB: nat := 1024 * 1024
  const DefaultMaxSize: nat := 30 * MiB
  const LargeMaxSize: nat := 100 * MiB

  /** Plans (after dropping a first `+old`) that may upload large files. */
  const LargeFilePlans: seq<string> := ["business", "datarooms", "datarooms-plus"]

  datatype Session = Session(userId: string)
  datatype Team = Team(plan: string)

  /**
   * The outcome of the team query: the first team of the user (None when the
   * user has none), or the database error's message.
   */
  datatype TeamLookup = Found(team: Option<Team>) | LookupFailed(message: string)

  /**
   * Options of the client token.  The list of allowed MIME types is a
   * constant of the application and is not part of this model.
   */
  datatype TokenConfig = TokenConfig(addRandomSuffix: bool, maximumSizeInBytes: nat, metadataUserId: string)

  /** The callback either returns the token options or throws. */
  datatype TokenDecision =
    | Issue(config: TokenConfig)
    | NoSession
    | Failed(message: string)

  /** The kind of request `handleUpload` receives. */
  datatype UploadBody = GenerateClientToken(pathname: string) | UploadCompleted

  /**
   * What the client receives.  `Ended401` is the response that
   * `res.status(401).end("Unauthorized")` has already finished; the 400
   * written afterwards by the outer `catch` goes to a closed response.
   */
  datatype HandlerResponse =
    | TokenIssued(config: TokenConfig)
    | CompletionAcknowledged
    | Ended401
    | BadRequest(error: string)

  /** The plan with its first `+old` removed, or None when there is no team. */
  function StrippedPlan(team: Option<Team>): (plan: Option<string>)
    ensures plan.None? <==> team.None?
    ensures team.Some? && !Contains(team.value.plan, "+old") ==> plan == Some(team.value.plan)
    ensures team.Some? && Contains(team.value.plan, "+old") ==>
      exists k: nat | OccursAt(team.value.plan, "+old", k) && (forall j: nat | j < k :: !OccursAt(team.value.plan, "+old", j)) ::
        plan == Some(team.value.plan[..k] + team.value.plan[k + 4..])
  {
    match team
    case None => None
    case Some(t) =>
      if Contains(t.plan, "+old") then
        RemoveFirst(t.plan, "+old");
        assert |"+old"| == 4;
        Some(ReplaceFirst(t.plan, "+old", ""))
      else
        Some(ReplaceFirst(t.plan, "+old", ""))
  }

  /** The maximum upload size allowed for the user's team. */
  function MaxUploadSize(team: Option<Team>): (size: nat)
    ensures size == DefaultMaxSize || size == LargeMaxSize
    ensures size == LargeMaxSize <==> exists p | p in LargeFilePlans :: StrippedPlan(team) == Some(p)
  {
    var stripped := StrippedPlan(team);
    if Truthy(stripped) && stripped.value in LargeFilePlans then LargeMaxSize else DefaultMaxSize
  }

  /** Without a team the default limit applies. */
  lemma NoTeamDefault()
    ensures MaxUploadSize(None) == DefaultMaxSize
  {
  }

  /** A plan name holding no `+` is left as it is. */
  lemma PlusFreeWithoutOld(plan: string)
    requires '+' !in plan
    ensures ReplaceFirst(plan, "+old", "") == plan
  {
    NotContainsWithoutFirst(plan, "+old");
  }

  /** A legacy `+old` plan gets the same limit as its base plan. */
  lemma LegacyPlanSameLimit(base: string)
    requires '+' !in base
    ensures MaxUploadSize(Some(Team(base + "+old"))) == MaxUploadSize(Some(Team(base)))
  {
    var legacy := base + "+old";
    ReplaceFirstAfter(base, "+old", "");
    assert base + "+old" + "" == legacy && base + "" == base;
    PlusFreeWithoutOld(base);
    assert StrippedPlan(Some(Team(legacy))) == StrippedPlan(Some(Team(base)));
  }

  /**
   * Only the first `+old` is removed: a plan with two of them keeps one and
   * falls back to the default limit.
   */
  lemma DoubleOldNotLarge(base: string)
    requires '+' !in base
    ensures MaxUploadSize(Some(Team(base + "+old" + "+old"))) == DefaultMaxSize
  {
    ReplaceFirstAfter(base, "+old", "+old");
    PlusPlanNotLarge(base + "+old", |base|);
  }

  /** No large-file plan name holds a `+`. */
  lemma PlusPlanNotLarge(plan: string, i: nat)
    requires i < |plan| && plan[i] == '+'
    ensures plan !in LargeFilePlans
  {
    assert '+' !in LargeFilePlans[0] && '+' !in LargeFilePlans[1] && '+' !in LargeFilePlans[2];
  }

  /**
   * `onBeforeGenerateToken`: no session throws Unauthorized (after ending the
   * response with 401); a failing team query throws its error; otherwise the
   * token options carry a random suffix, the size limit and the user id.
   */
  function OnBeforeGenerateToken(session: Option<Session>, team: TeamLookup): (d: TokenDecision)
    ensures session.None? <==> d.NoSession?
    ensures d.Issue? <==> session.Some? && team.Found?
    ensures session.Some? && team.LookupFailed? ==> d == Failed(team.message)
    ensures d.Issue? ==> d.config.addRandomSuffix
    ensures d.Issue? ==> d.config.metadataUserId == session.value.userId
    ensures d.Issue? ==> d.config.maximumSizeInBytes == MaxUploadSize(team.team)
  {
    match session
    case None => NoSession
    case Some(s) =>
      match team
      case LookupFailed(m) => Failed(m)
      case Found(t) => Issue(TokenConfig(true, MaxUploadSize(t), s.userId))
  }

  /**
   * The handler: `handleUpload` either generates a token (calling the
   * callback above) or acknowledges a completed upload; `transportError` is the
   * message of an error `handleUpload` throws itself.  Every thrown error
   * becomes 400 with its message, except that the no-session case has
   * already answered 401.
   */
  function Handle(body: UploadBody, session: Option<Session>, team: TeamLookup, transportError: Option<string>): (r: HandlerResponse)
    ensures r.Ended401? <==> body.GenerateClientToken? && session.None?
    ensures r.TokenIssued? ==> OnBeforeGenerateToken(session, team) == Issue(r.config) && transportError.None?
    ensures body.GenerateClientToken? && session.Some? && team.LookupFailed? ==> r == BadRequest(team.message)
    ensures r.BadRequest? ==> transportError == Some(r.error) || team == LookupFailed(r.error)
    ensures r.TokenIssued? <==>
      body.GenerateClientToken? && OnBeforeGenerateToken(session, team).Issue? && transportError.None?
    ensures r.CompletionAcknowledged? <==> body.UploadCompleted? && transportError.None?
    ensures transportError.Some? && !r.Ended401? && !(body.GenerateClientToken? && team.LookupFailed?) ==>
      r == BadRequest(transportError.value)
  {
    match body
    case UploadCompleted =>
      if transportError.Some? then BadRequest(transportError.value) else CompletionAcknowledged
    case GenerateClientToken(_) =>
      match OnBeforeGenerateToken(session, team)
      case NoSession => Ended401
      case Failed(m) => BadRequest(m)
      case Issue(config) =>
        if transportError.Some? then BadRequest(transportError.value) else TokenIssued(config)
  }
}
