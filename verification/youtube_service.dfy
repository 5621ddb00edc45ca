/** The publishing side of src/services/youtubeService.js: uploadVideo's
    rate-limited, bounded retry on HTTP 503, the conversion of a quota
    rejection into QuotaExceededError, the request defaults, and test mode.
    The videos.insert call is an oracle `api(request, attempt)` giving the
    response of the given (1-based) attempt. */
module YouTube {
  import opened Common
  import RateLimiting

  const MaxRetries: nat := 3
  const RetryDelay: nat := 5000
  /** The simulated upload time in test mode. */
  const TestUploadTime: nat := 2000
  const QuotaMessage := "Daily YouTube API quota exceeded"

  /** What an API failure exposes: the HTTP status of its response (absent
      when there was no response), the reason of the first listed error, and
      its message. */
  datatype ApiError = ApiError(status: Option<int>, firstReason: Option<string>, message: string)

  datatype InsertResponse = Inserted(videoId: string) | Rejected(error: ApiError)

  /** The request body of videos.insert. */
  datatype InsertRequest = InsertRequest(title: string, description: string, tags: seq<string>, privacyStatus: string)

  /** { success: true, videoId, testMode? }: an upload result has no `id`. */
  datatype UploadResult = UploadResult(videoId: string, testMode: bool)

  datatype UploadError = QuotaExceededError | Rethrown(error: ApiError)

  function ErrorMessage(e: UploadError): string {
    match e
    case QuotaExceededError => QuotaMessage
    case Rethrown(err) => err.message
  }

  /** The request body built from an item's metadata: tags default to [] and
      a missing or empty privacy status to "private". */
  function BuildRequest(metadata: Metadata): (r: InsertRequest)
    ensures r.title == metadata.title && r.description == metadata.description
    ensures r.privacyStatus != ""
    ensures metadata.tags == None ==> r.tags == []
    ensures metadata.tags.Some? ==> r.tags == metadata.tags.value
    ensures Truthy(metadata.privacyStatus) ==> r.privacyStatus == metadata.privacyStatus.value
    ensures !Truthy(metadata.privacyStatus) ==> r.privacyStatus == "private"
  {
    InsertRequest(
      metadata.title,
      metadata.description,
      if metadata.tags.Some? then metadata.tags.value else [],
      if Truthy(metadata.privacyStatus) then metadata.privacyStatus.value else "private")
  }

  function Pow2(n: nat): (r: nat)
    ensures r >= 1
  {
    if n == 0 then 1 else 2 * Pow2(n - 1)
  }

  /** retryDelay * 2^(attempt - 1): the wait after a failed attempt. */
  function BackoffDelay(attempt: nat): nat
    requires attempt >= 1
  {
    RetryDelay * Pow2(attempt - 1)
  }

  datatype Action = Retry(delay: nat) | RaiseQuota | RethrowError

  /** The catch block of uploadVideo for a failed attempt: a 503 with attempts
      left is retried; otherwise a first error reason "quotaExceeded" becomes
      QuotaExceededError; anything else is rethrown. */
  function Classify(e: ApiError, attempt: nat): (a: Action)
    requires attempt >= 1
    ensures a.Retry? <==> e.status == Some(503) && attempt < MaxRetries
    ensures a.Retry? ==> a.delay == BackoffDelay(attempt)
    ensures a == RaiseQuota <==> !(e.status == Some(503) && attempt < MaxRetries) && e.firstReason == Some("quotaExceeded")
  {
    if e.status == Some(503) && attempt < MaxRetries then Retry(BackoffDelay(attempt))
    else if e.firstReason == Some("quotaExceeded") then RaiseQuota
    else RethrowError
  }

  /** What one attempt outside test mode ends in: None when it is retried. */
  function AttemptOutcome(response: InsertResponse, attempt: nat): (r: Option<Result<UploadResult, UploadError>>)
    requires attempt >= 1
    ensures r.None? <==> response.Rejected? && response.error.status == Some(503) && attempt < MaxRetries
    ensures r.Some? && r.value.Ok? <==> response.Inserted?
    ensures response.Inserted? ==> r == Some(Ok(UploadResult(response.videoId, false)))
  {
    match response
    case Inserted(id) => Some(Ok(UploadResult(id, false)))
    case Rejected(e) =>
      match Classify(e, attempt)
      case Retry(_) => None
      case RaiseQuota => Some(Err(QuotaExceededError))
      case RethrowError => Some(Err(Rethrown(e)))
  }

  /** The last allowed attempt is never retried, whatever the response: there
      are at most MaxRetries attempts. */
  lemma LastAttemptIsFinal(response: InsertResponse)
    ensures AttemptOutcome(response, MaxRetries).Some?
  {
  }

  /** The backoff before the second and the third attempt: 5000 ms, then
      10000 ms. */
  lemma BackoffSchedule()
    ensures BackoffDelay(1) == 5000 && BackoffDelay(2) == 10000
    ensures forall k :: 1 <= k < MaxRetries ==> BackoffDelay(k + 1) == 2 * BackoffDelay(k)
  {
  }

  /** A quota rejection becomes QuotaExceededError exactly when it is not a
      503 that still has attempts left; a success is never turned into an
      error, and an error that is neither retried nor a quota rejection comes
      back unchanged. */
  lemma {:induction false} RejectionOutcomes(e: ApiError, attempt: nat)
    requires attempt >= 1
    ensures AttemptOutcome(Rejected(e), attempt) == Some(Err(QuotaExceededError))
            <==> e.firstReason == Some("quotaExceeded") && !(e.status == Some(503) && attempt < MaxRetries)
    ensures AttemptOutcome(Rejected(e), attempt) == None <==> e.status == Some(503) && attempt < MaxRetries
    ensures e.firstReason != Some("quotaExceeded") && !(e.status == Some(503) && attempt < MaxRetries)
            ==> AttemptOutcome(Rejected(e), attempt) == Some(Err(Rethrown(e)))
  {
    var a := Classify(e, attempt);
    if a.Retry? {
    } else if a == RaiseQuota {
    } else {
      assert a == RethrowError;
    }
  }

  class YouTubeService {
    const limiter: RateLimiting.RateLimiter
    const testMode: bool

    /** The service shares the process-wide limiter; test mode is on when
        NODE_ENV is "development". */
    constructor (limiter: RateLimiting.RateLimiter, nodeEnv: string)
      ensures this.limiter == limiter && testMode == (nodeEnv == "development")
    {
      this.limiter := limiter;
      testMode := nodeEnv == "development";
    }

    /** uploadVideo(videoPath, metadata): every attempt first takes a
        rate-limiter slot; a 503 is retried after BackoffDelay(attempt) while
        attempts remain. Returns the result or error, the number of attempts,
        the backoff waits, whether a thumbnail upload was tried and the time
        the call ends. The thumbnail call's own outcome is caught and never
        reaches the result, so it is not an input here. */
    method UploadVideo(metadata: Metadata, now: nat, api: (InsertRequest, nat) -> InsertResponse)
      returns (r: Result<UploadResult, UploadError>, attempts: nat, delays: seq<nat>, thumbnailTried: bool, done: nat)
      requires limiter.Valid()
      modifies limiter
      ensures limiter.Valid() && limiter.clock <= done && now <= done
      ensures old(limiter.Steady()) && old(limiter.clock) <= now ==> limiter.Steady()
      ensures 1 <= attempts <= MaxRetries
      ensures |limiter.grants| == |old(limiter.grants)| + attempts
      ensures |delays| == attempts - 1 && forall i :: 0 <= i < |delays| ==> delays[i] == BackoffDelay(i + 1)
      ensures testMode ==> attempts == 1 && r.Ok? && r.value.testMode && StartsWith(r.value.videoId, "TEST-")
      ensures !testMode ==> forall k :: 1 <= k < attempts ==> AttemptOutcome(api(BuildRequest(metadata), k), k) == None
      ensures !testMode ==> AttemptOutcome(api(BuildRequest(metadata), attempts), attempts) == Some(r)
      ensures thumbnailTried <==> !testMode && r.Ok? && Truthy(metadata.thumbnailPath)
    {
      var attempt: nat := 1;
      var t := now;
      delays := [];
      var request := BuildRequest(metadata);
      while true
        invariant 1 <= attempt <= MaxRetries
        invariant limiter.Valid() && now <= t && (attempt > 1 ==> limiter.clock <= t)
        invariant old(limiter.Steady()) && old(limiter.clock) <= now ==> limiter.Steady() && limiter.clock <= t
        invariant |limiter.grants| == |old(limiter.grants)| + attempt - 1
        invariant |delays| == attempt - 1 && forall i :: 0 <= i < |delays| ==> delays[i] == BackoffDelay(i + 1)
        invariant testMode ==> attempt == 1
        invariant !testMode ==> forall k :: 1 <= k < attempt ==> AttemptOutcome(api(request, k), k) == None
        decreases MaxRetries - attempt
      {
        var _, grantedAt, _ := limiter.CanMakeRequest(t);
        t := grantedAt;
        if testMode {
          t := t + TestUploadTime;
          r := Ok(UploadResult("TEST-" + DecimalString(t), true));
          attempts, thumbnailTried, done := attempt, false, t;
          return;
        }
        var response := api(request, attempt);
        match response
        case Inserted(id) =>
          thumbnailTried := Truthy(metadata.thumbnailPath);
          r := Ok(UploadResult(id, false));
          attempts, done := attempt, t;
          return;
        case Rejected(e) =>
          var action := Classify(e, attempt);
          match action
          case Retry(delay) =>
            delays := delays + [delay];
            t := t + delay;
            attempt := attempt + 1;
          case RaiseQuota =>
            r := Err(QuotaExceededError);
            attempts, thumbnailTried, done := attempt, false, t;
            return;
          case RethrowError =>
            r := Err(Rethrown(e));
            attempts, thumbnailTried, done := attempt, false, t;
            return;
      }
    }
  }
}
