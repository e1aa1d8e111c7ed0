/**
 * The download of the source PDF with retries, as both internal PDF
 * endpoints do it (pages/api/mupdf/convert-page.ts and
 * pages/api/mupdf/get-pages.ts hold the same loop).  Signing a fresh
 * download URL and the HTTP request are the outside world: `net(k)` says
 * what they do at attempt `k`.
 */
module PdfFetch {
  import opened Text
  import opened Backoff

  const MaxAttempts: nat := 3

  /** Where the file is: the URL given, and the storage metadata to sign a new one. */
  datatype Source = Source(url: string, storageType: Option<string>, fileKey: Option<string>)

  /** `storageType && fileKey`: a fresh URL can be signed. */
  predicate HasStorageMetadata(src: Source) {
    Truthy(src.storageType) && Truthy(src.fileKey)
  }

  datatype HttpReply = HttpReply(status: int, body: seq<Byte>)

  /** `response.ok`. */
  predicate Ok(r: HttpReply) {
    200 <= r.status <= 299
  }

  /**
   * One attempt's view of the outside world: the URL `getFile` signs (None:
   * it throws) and the reply of `fetch` (None: it throws).
   */
  datatype AttemptOracle = AttemptOracle(signedUrl: Option<string>, reply: Option<HttpReply>)

  /** Why an attempt failed. */
  datatype FetchError =
    | AuthRejected(status: int)   // 401 or 403
    | BadStatus(status: int)      // any other status that is not ok
    | SigningFailed
    | NetworkFailed

  datatype Outcome = Fetched(body: seq<Byte>) | Failed(error: FetchError)

  /**
   * The record of one attempt: whether the URL was re-signed, the URL
   * requested (None when signing failed and nothing was requested), the
   * outcome and the delay waited after it.
   */
  datatype Attempt = Attempt(regenerated: bool, requestedUrl: Option<string>, outcome: Outcome, waitMs: nat)

  /** The result of the whole loop; `lastError` is the error of the final attempt. */
  datatype FetchResult = Downloaded(body: seq<Byte>) | Exhausted(lastError: FetchError)

  /** The outcome of a reply: ok, rejected as unauthorised, or any other status. */
  function ReplyOutcome(r: HttpReply): (o: Outcome)
    ensures o.Fetched? <==> Ok(r)
    ensures o.Fetched? ==> o.body == r.body
    ensures o.Failed? ==> (o.error.AuthRejected? || o.error.BadStatus?) && o.error.status == r.status
  {
    if Ok(r) then Fetched(r.body)
    else if r.status == 403 || r.status == 401 then Failed(AuthRejected(r.status))
    else Failed(BadStatus(r.status))
  }

  /** The delay after attempt `k`: only after a failure that is not the last allowed attempt. */
  function WaitAfter(k: nat, o: Outcome): nat {
    if o.Failed? && k < MaxAttempts - 1 then BackoffMs(k) else 0
  }

  /** Attempt number `k` (from 0) when the outside world behaves as `o`. */
  function AttemptAt(src: Source, o: AttemptOracle, k: nat): (a: Attempt)
    ensures a.regenerated <==> k > 0 && HasStorageMetadata(src)
    ensures !a.regenerated ==> a.requestedUrl == Some(src.url)
    ensures a.regenerated ==> a.requestedUrl == o.signedUrl
    ensures a.requestedUrl.None? ==> a.outcome == Failed(SigningFailed)
    ensures a.requestedUrl.Some? ==> a.outcome == (if o.reply.None? then Failed(NetworkFailed) else ReplyOutcome(o.reply.value))
    ensures a.waitMs == WaitAfter(k, a.outcome)
  {
    var regenerate := k > 0 && HasStorageMetadata(src);
    if regenerate && o.signedUrl.None? then
      Attempt(true, None, Failed(SigningFailed), WaitAfter(k, Failed(SigningFailed)))
    else
      var url := if regenerate then o.signedUrl.value else src.url;
      var outcome := if o.reply.None? then Failed(NetworkFailed) else ReplyOutcome(o.reply.value);
      Attempt(regenerate, Some(url), outcome, WaitAfter(k, outcome))
  }

  /** The attempts from number `k` on: they stop at the first download or after the last allowed one. */
  function Attempts(src: Source, net: nat -> AttemptOracle, k: nat): seq<Attempt>
    decreases MaxAttempts - k
  {
    if k >= MaxAttempts then []
    else
      var a := AttemptAt(src, net(k), k);
      if a.outcome.Fetched? then [a] else [a] + Attempts(src, net, k + 1)
  }

  /** What the loop ends with: the download of its last attempt, or that attempt's error. */
  function Fetch(src: Source, net: nat -> AttemptOracle): FetchResult {
    var attempts := Attempts(src, net, 0);
    assert attempts != [];
    var last := attempts[|attempts| - 1].outcome;
    if last.Fetched? then Downloaded(last.body) else Exhausted(last.error)
  }

  /**
   * One pass of the retry loop's body: re-sign when due, request, and
   * classify the reply.  `reply` is the response received, if any.
   */
  method TryAttempt(src: Source, o: AttemptOracle, attempt: nat) returns (a: Attempt, reply: Option<HttpReply>)
    ensures a == AttemptAt(src, o, attempt)
    ensures reply.Some? ==> reply == o.reply
    ensures a.outcome.Fetched? <==> reply.Some? && Ok(reply.value)
    ensures a.outcome.Fetched? ==> a.outcome.body == reply.value.body
  {
    reply := None;
    var regenerated := false;
    var fetchUrl: Option<string> := Some(src.url);
    if attempt > 0 && HasStorageMetadata(src) {
      regenerated := true;
      fetchUrl := o.signedUrl;
    }
    var outcome: Outcome;
    if fetchUrl.None? {
      outcome := Failed(SigningFailed);
    } else if o.reply.None? {
      outcome := Failed(NetworkFailed);
    } else {
      reply := o.reply;
      if Ok(reply.value) {
        outcome := Fetched(reply.value.body);
      } else if reply.value.status == 403 || reply.value.status == 401 {
        outcome := Failed(AuthRejected(reply.value.status));
      } else {
        outcome := Failed(BadStatus(reply.value.status));
      }
    }
    var waitMs := 0;
    if outcome.Failed? && attempt < MaxAttempts - 1 {
      waitMs := BackoffMs(attempt);
    }
    a := Attempt(regenerated, fetchUrl, outcome, waitMs);
  }

  /**
   * The retry loop: requests the file up to three times, re-signing the URL
   * before a retry when storage metadata is given, stopping at the first ok
   * reply and waiting 2^attempt seconds after a failure that is not the last.
   */
  method FetchWithRetry(src: Source, net: nat -> AttemptOracle) returns (result: FetchResult, attempts: seq<Attempt>)
    ensures attempts == Attempts(src, net, 0)
    ensures result == Fetch(src, net)
  {
    var response: Option<HttpReply> := None;
    var lastError: Option<FetchError> := None;
    ghost var all := Attempts(src, net, 0);
    AttemptsShape(src, net);
    attempts := [];
    for attempt := 0 to MaxAttempts
      invariant attempt <= |all|
      invariant attempts == all[..attempt]
      invariant forall i | 0 <= i < attempt :: all[i].outcome.Failed?
      invariant attempt > 0 ==> lastError == Some(all[attempt - 1].outcome.error)
      invariant response.Some? ==> !Ok(response.value)
    {
      assert attempt < |all|;
      var a, reply := TryAttempt(src, net(attempt), attempt);
      assert a == all[attempt];
      if reply.Some? {
        response := reply;
      }
      if a.outcome.Fetched? {
        attempts := attempts + [a];
        assert |all| == attempt + 1;
        break;
      }
      lastError := Some(a.outcome.error);
      attempts := attempts + [a];
    }
    assert attempts == all;
    if response.None? || !Ok(response.value) {
      result := Exhausted(lastError.value);
    } else {
      result := Downloaded(response.value.body);
    }
  }

  // ----- properties of the specification -----

  /** The attempts from `k` on are attempts `k`, `k + 1`, …, each the one `AttemptAt` describes. */
  lemma {:induction false} AttemptsFrom(src: Source, net: nat -> AttemptOracle, k: nat)
    requires k <= MaxAttempts
    ensures var s := Attempts(src, net, k);
      && |s| <= MaxAttempts - k
      && (k < MaxAttempts ==> |s| >= 1)
      && (forall i | 0 <= i < |s| :: s[i] == AttemptAt(src, net(k + i), k + i))
      && (forall i | 0 <= i < |s| - 1 :: s[i].outcome.Failed?)
      && (s != [] && k + |s| < MaxAttempts ==> s[|s| - 1].outcome.Fetched?)
    decreases MaxAttempts - k
  {
    if k < MaxAttempts {
      var a := AttemptAt(src, net(k), k);
      if a.outcome.Failed? {
        AttemptsFrom(src, net, k + 1);
        var rest := Attempts(src, net, k + 1);
        var s := Attempts(src, net, k);
        assert s == [a] + rest;
        forall i | 0 < i < |s|
          ensures s[i] == AttemptAt(src, net(k + i), k + i)
        {
          assert s[i] == rest[i - 1];
        }
      }
    }
  }

  /**
   * The shape of the loop: one to three attempts, each the one `AttemptAt`
   * describes; all but the last failed, and fewer than three means the last
   * one downloaded the file.
   */
  lemma AttemptsShape(src: Source, net: nat -> AttemptOracle)
    ensures var s := Attempts(src, net, 0);
      && 1 <= |s| <= MaxAttempts
      && (forall i | 0 <= i < |s| :: s[i] == AttemptAt(src, net(i), i))
      && (forall i | 0 <= i < |s| - 1 :: s[i].outcome.Failed?)
      && (|s| < MaxAttempts ==> s[|s| - 1].outcome.Fetched?)
  {
    AttemptsFrom(src, net, 0);
    var s := Attempts(src, net, 0);
    forall i | 0 <= i < |s|
      ensures s[i] == AttemptAt(src, net(i), i)
    {
      assert s[i] == AttemptAt(src, net(0 + i), 0 + i);
    }
  }

  /** The first attempt always requests the URL as given. */
  lemma FirstAttemptUsesUrl(src: Source, net: nat -> AttemptOracle)
    ensures var s := Attempts(src, net, 0);
      s != [] && !s[0].regenerated && s[0].requestedUrl == Some(src.url)
  {
    AttemptsShape(src, net);
  }

  /**
   * Retries re-sign the URL exactly when storage type and file key are both
   * set; without them every attempt requests the URL as given.
   */
  lemma RegenerationRule(src: Source, net: nat -> AttemptOracle)
    ensures var s := Attempts(src, net, 0);
      && (forall i | 0 <= i < |s| :: s[i].regenerated <==> i > 0 && HasStorageMetadata(src))
      && (!HasStorageMetadata(src) ==> forall i | 0 <= i < |s| :: s[i].requestedUrl == Some(src.url))
  {
    AttemptsShape(src, net);
  }

  /**
   * The waits: one second after a failed first attempt, two after a failed
   * second one, none after the third or after a download.
   */
  lemma Waits(src: Source, net: nat -> AttemptOracle)
    ensures var s := Attempts(src, net, 0);
      && (|s| >= 2 ==> s[0].waitMs == 1000)
      && (|s| >= 3 ==> s[1].waitMs == 2000)
      && s[|s| - 1].waitMs == 0
      && (forall i | 0 <= i < |s| :: s[i].outcome.Fetched? ==> s[i].waitMs == 0)
  {
    AttemptsShape(src, net);
    FirstDelays();
    var s := Attempts(src, net, 0);
    assert s[|s| - 1] == AttemptAt(src, net(|s| - 1), |s| - 1);
  }

  /** Any failure before the last allowed attempt is retried, whatever its kind. */
  lemma FailureRetried(src: Source, net: nat -> AttemptOracle, i: nat)
    requires i < |Attempts(src, net, 0)| && i < MaxAttempts - 1
    requires Attempts(src, net, 0)[i].outcome.Failed?
    ensures |Attempts(src, net, 0)| > i + 1
  {
    AttemptsShape(src, net);
  }

  /**
   * A status other than 401 and 403 (a 500, say) is retried like they are:
   * the throw happens inside the attempt's `try`.
   */
  lemma BadStatusRetried(src: Source, net: nat -> AttemptOracle, r: HttpReply)
    requires net(0).reply == Some(r) && !Ok(r) && r.status != 401 && r.status != 403
    ensures var s := Attempts(src, net, 0);
      |s| >= 2 && s[0].outcome == Failed(BadStatus(r.status)) && s[0].waitMs == 1000
  {
    AttemptsShape(src, net);
    FirstDelays();
  }

  /** Only the first three attempts' behaviour of the outside world matters. */
  lemma {:induction false} OnlyThreeAttempts(src: Source, net: nat -> AttemptOracle, net': nat -> AttemptOracle, k: nat)
    requires forall i | 0 <= i < MaxAttempts :: net(i) == net'(i)
    ensures Attempts(src, net, k) == Attempts(src, net', k)
    decreases MaxAttempts - k
  {
    if k < MaxAttempts {
      OnlyThreeAttempts(src, net, net', k + 1);
    }
  }

  /**
   * The file is downloaded iff one of the three attempts gets an ok reply,
   * and then it is the body of the first such reply.
   */
  lemma DownloadedIffSomeAttemptOk(src: Source, net: nat -> AttemptOracle)
    ensures Fetch(src, net).Downloaded? <==>
      exists i | 0 <= i < MaxAttempts :: AttemptAt(src, net(i), i).outcome.Fetched?
    ensures Fetch(src, net).Downloaded? ==>
      exists i | 0 <= i < MaxAttempts ::
        && AttemptAt(src, net(i), i).outcome == Fetched(Fetch(src, net).body)
        && forall j | 0 <= j < i :: AttemptAt(src, net(j), j).outcome.Failed?
  {
    AttemptsShape(src, net);
    var s := Attempts(src, net, 0);
    var n := |s|;
    assert s[n - 1] == AttemptAt(src, net(n - 1), n - 1);
    if exists i | 0 <= i < MaxAttempts :: AttemptAt(src, net(i), i).outcome.Fetched? {
      var i :| 0 <= i < MaxAttempts && AttemptAt(src, net(i), i).outcome.Fetched?;
      if i > n - 1 {
        assert n < MaxAttempts;
      }
    }
    if Fetch(src, net).Downloaded? {
      forall j | 0 <= j < n - 1
        ensures AttemptAt(src, net(j), j).outcome.Failed?
      {
        assert s[j] == AttemptAt(src, net(j), j);
      }
    }
  }
}
