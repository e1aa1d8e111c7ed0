/**
 * Storing the page image (pages/api/mupdf/convert-page.ts): up to three
 * calls of the storage upload, with a delay of `2^(n-1)` seconds after the
 * n-th failure when another attempt follows.  The storage service is an
 * input: `put(k)` is what the call numbered `k` (from 0) returns, None when
 * it throws.
 */
module Upload {
  import opened Text
  import Backoff

  const MaxUploadAttempts: nat := 3

  /** What the storage upload returns: the storage type and the stored file's reference. */
  datatype Stored = Stored(storageType: Option<string>, data: Option<string>)

  /** The upload request: file name, MIME type, image bytes, team and document folder. */
  datatype UploadRequest = UploadRequest(
    name: string,
    contentType: string,
    bytes: seq<Byte>,
    teamId: string,
    docId: Option<string>)

  /** `data` and `type` are both truthy, the condition for saving the page row. */
  predicate Usable(s: Stored) {
    Truthy(s.data) && Truthy(s.storageType)
  }

  /**
   * The upload loop.  It stops at the first call that returns; `stored` is
   * None when all three threw (the handler then throws).  `waits` are the
   * delays slept between attempts.
   */
  method UploadWithRetry(put: nat -> Option<Stored>) returns (stored: Option<Stored>, attempts: nat, waits: seq<nat>)
    ensures 1 <= attempts <= MaxUploadAttempts
    ensures forall k | 0 <= k < attempts - 1 :: put(k).None?
    ensures stored == put(attempts - 1)
    ensures stored.None? ==> attempts == MaxUploadAttempts
    ensures |waits| == attempts - 1
    ensures forall k | 0 <= k < |waits| :: waits[k] == Backoff.BackoffMs(k)
  {
    stored := None;
    attempts := 0;
    waits := [];
    while attempts < MaxUploadAttempts
      invariant attempts <= MaxUploadAttempts
      invariant stored.None?
      invariant forall k | 0 <= k < attempts :: put(k).None?
      invariant |waits| == if attempts < MaxUploadAttempts then attempts else attempts - 1
      invariant forall k | 0 <= k < |waits| :: waits[k] == Backoff.BackoffMs(k)
    {
      attempts := attempts + 1;
      stored := put(attempts - 1);
      if stored.Some? {
        break;
      }
      if attempts < MaxUploadAttempts {
        waits := waits + [Backoff.BackoffMs(attempts - 1)];
      }
    }
  }

  // ----- properties -----

  /** The delays of a loop that makes all three attempts are one and two seconds. */
  lemma ExhaustedDelays(waits: seq<nat>)
    requires |waits| == MaxUploadAttempts - 1
    requires forall k | 0 <= k < |waits| :: waits[k] == Backoff.BackoffMs(k)
    ensures waits == [1000, 2000]
  {
    Backoff.FirstDelays();
  }
}
