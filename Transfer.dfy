/** Moving files to and from blob storage: the download under its retry
    policy, the single-try upload and the queue dispatch. Every collaborator
    call (HTTP stream copy, blob upload, queue send) is an opaque `Attempt`. */
module Transfer {
  import opened Text
  import opened Results

  /** The policy's `retryCount`: retries after the first try. */
  const RetryCount: nat := 5

  /** Tries the download policy makes at most: the first one plus every retry. */
  const MaxAttempts: nat := RetryCount + 1

  function Pow2(k: nat): (r: nat)
    ensures r >= 1 && r > k
  {
    if k == 0 then 1 else 2 * Pow2(k - 1)
  }

  /** The policy's `sleepDurationProvider`, in whole seconds: retry `k` (from 1) waits 2^k. */
  function SleepDuration(retry: nat): (d: nat)
    ensures retry > 0 ==> d == 2 * SleepDuration(retry - 1)
    ensures d > retry
  {
    Pow2(retry)
  }

  /** The waits before the first `n` retries, in order. */
  function Backoff(n: nat): (waits: seq<nat>)
    ensures |waits| == n
    ensures forall k :: 0 <= k < n ==> waits[k] == SleepDuration(k + 1)
    ensures n > 0 ==> waits[0] == 2
    ensures forall k :: 0 < k < n ==> waits[k] == 2 * waits[k - 1]
  {
    seq(n, k requires 0 <= k < n => SleepDuration(k + 1))
  }

  function Sum(s: seq<nat>): nat
    decreases |s|
  {
    if s == [] then 0 else Sum(s[..|s| - 1]) + s[|s| - 1]
  }

  /** Waiting before `n` retries takes 2 + 4 + ... + 2^n = 2^(n+1) - 2 seconds. */
  lemma {:induction false} TotalBackoff(n: nat)
    ensures Sum(Backoff(n)) == Pow2(n + 1) - 2
  {
    if n > 0 {
      TotalBackoff(n - 1);
      assert Backoff(n)[..n - 1] == Backoff(n - 1);
    }
  }

  /** The index of the first try that completes, from `k` on. */
  function FirstCompletedFrom(outcomes: seq<Attempt>, k: nat): (r: Option<nat>)
    requires k <= |outcomes|
    ensures r.Some? ==> k <= r.value < |outcomes| && outcomes[r.value].Completed?
    ensures r.Some? ==> forall j :: k <= j < r.value ==> outcomes[j].Threw?
    ensures r.None? ==> forall j :: k <= j < |outcomes| ==> outcomes[j].Threw?
    decreases |outcomes| - k
  {
    if k == |outcomes| then None
    else if outcomes[k].Completed? then Some(k)
    else FirstCompletedFrom(outcomes, k + 1)
  }

  function FirstCompleted(outcomes: seq<Attempt>): Option<nat> {
    FirstCompletedFrom(outcomes, 0)
  }

  /** What the download returns when try `i` would end as `outcomes[i]`: the
      first completed try's own result, or, when all tries threw, a failure
      naming only the last exception. */
  function DownloadResult(prefix: string, uri: string, fullName: string, outcomes: seq<Attempt>): (r: ExecutionResult)
    requires |outcomes| == MaxAttempts
    ensures r.success <==> exists j :: 0 <= j < MaxAttempts && outcomes[j].Completed?
    ensures r.success ==> HasPrefix(r.output, prefix + ": Downloaded " + uri + " to ") && HasSuffix(r.output, " to " + fullName)
    ensures !r.success ==> HasPrefix(r.output, prefix + ": ERR during download: \"" + outcomes[MaxAttempts - 1].message + "\" ")
    ensures !r.success ==> HasSuffix(r.output, uri)
  {
    match FirstCompleted(outcomes)
    case Some(_) => DownloadedResult(prefix, uri, fullName)
    case None => DownloadFailedResult(prefix, outcomes[RetryCount].message, uri)
  }

  /** `DownloadToAsync`: `outcomes[i]` is how try `i` of the stream copy would
      end; `delays` are the waits taken between tries, in seconds. */
  method DownloadToAsync(uri: string, fullName: string, prefix: string, outcomes: seq<Attempt>)
    returns (r: ExecutionResult, delays: seq<nat>)
    requires |outcomes| == MaxAttempts
    ensures r == DownloadResult(prefix, uri, fullName, outcomes)
    ensures r.success <==> exists j :: 0 <= j < MaxAttempts && outcomes[j].Completed?
    ensures FirstCompleted(outcomes).Some? ==> delays == Backoff(FirstCompleted(outcomes).value)
    ensures FirstCompleted(outcomes).None? ==> delays == Backoff(RetryCount)
    ensures FirstCompleted(outcomes).None? ==> r.output == DownloadFailedResult(prefix, outcomes[MaxAttempts - 1].message, uri).output
  {
    var retries := 0;
    var outcome := outcomes[0];
    delays := [];
    while outcome.Threw? && retries < RetryCount
      invariant 0 <= retries <= RetryCount
      invariant outcome == outcomes[retries]
      invariant forall j :: 0 <= j < retries ==> outcomes[j].Threw?
      invariant delays == Backoff(retries)
      decreases RetryCount - retries
    {
      retries := retries + 1;
      delays := delays + [SleepDuration(retries)];
      outcome := outcomes[retries];
    }
    if outcome.Completed? {
      assert FirstCompletedFrom(outcomes, retries) == Some(retries);
      FirstCompletedSkip(outcomes, retries);
      r := DownloadedResult(prefix, uri, fullName);
    } else {
      FirstCompletedSkip(outcomes, retries);
      r := DownloadFailedResult(prefix, outcome.message, uri);
    }
  }

  /** Tries before `k` that all threw do not change which try completes first. */
  lemma {:induction false} FirstCompletedSkip(outcomes: seq<Attempt>, k: nat)
    requires k <= |outcomes|
    requires forall j :: 0 <= j < k ==> outcomes[j].Threw?
    ensures FirstCompleted(outcomes) == FirstCompletedFrom(outcomes, k)
    decreases k
  {
    if k > 0 {
      FirstCompletedSkip(outcomes, k - 1);
    }
  }

  /** When every try throws, the messages of the first five do not matter:
      only the last exception reaches the result. */
  lemma OnlyLastFailureReported(prefix: string, uri: string, fullName: string, a: seq<Attempt>, b: seq<Attempt>)
    requires |a| == MaxAttempts && |b| == MaxAttempts
    requires forall j :: 0 <= j < MaxAttempts ==> a[j].Threw? && b[j].Threw?
    requires a[MaxAttempts - 1] == b[MaxAttempts - 1]
    ensures DownloadResult(prefix, uri, fullName, a) == DownloadResult(prefix, uri, fullName, b)
  {
    assert FirstCompletedFrom(a, 0).None? && FirstCompletedFrom(b, 0).None?;
  }

  /** The first completed try ends the loop: what later tries would have done
      does not matter. */
  lemma {:induction false} FirstSuccessWins(prefix: string, uri: string, fullName: string, a: seq<Attempt>, b: seq<Attempt>, i: nat)
    requires |a| == MaxAttempts && |b| == MaxAttempts
    requires i < MaxAttempts && a[..i + 1] == b[..i + 1] && a[i].Completed?
    ensures DownloadResult(prefix, uri, fullName, a) == DownloadResult(prefix, uri, fullName, b)
    ensures DownloadResult(prefix, uri, fullName, a).success
  {
    var fa := FirstCompleted(a);
    assert fa.Some? && fa.value <= i;
    assert a[fa.value] == a[..i + 1][fa.value] == b[fa.value];
  }

  /** A source that throws on the first `n` tries and then completes (n at most
      the retry count) yields success after a total wait of 2^(n+1) - 2 seconds. */
  lemma WaitBeforeSuccess(outcomes: seq<Attempt>, n: nat)
    requires |outcomes| == MaxAttempts && n <= RetryCount
    requires forall j :: 0 <= j < n ==> outcomes[j].Threw?
    requires outcomes[n].Completed?
    ensures FirstCompleted(outcomes) == Some(n)
    ensures Sum(Backoff(FirstCompleted(outcomes).value)) == Pow2(n + 1) - 2
  {
    FirstCompletedSkip(outcomes, n);
    TotalBackoff(n);
  }

  /** `UploadToAsync`: one try of the parallel upload and no retry. */
  function UploadToAsync(prefix: string, fullName: string, uri: string, outcome: Attempt): (r: ExecutionResult)
    ensures r.success <==> outcome.Completed?
    ensures outcome.Completed? ==> r == UploadedResult(prefix, fullName, uri)
    ensures outcome.Threw? ==> r == UploadFailedResult(prefix, outcome.message, uri)
    ensures outcome.Completed? ==> HasPrefix(r.output, prefix + ": Uploaded " + fullName + " to ") && HasSuffix(r.output, " to " + uri)
    ensures outcome.Threw? ==> HasPrefix(r.output, prefix + ": ERR during upload: \"" + outcome.message + "\" ") && HasSuffix(r.output, uri)
  {
    match outcome
    case Completed => UploadedResult(prefix, fullName, uri)
    case Threw(message) => UploadFailedResult(prefix, message, uri)
  }

  /** Download retries, upload does not: the same first failure followed by a
      success fails the upload and not the download. */
  lemma UploadDoesNotRetry(prefix: string, fullName: string, uri: string, outcomes: seq<Attempt>)
    requires |outcomes| == MaxAttempts && outcomes[0].Threw? && outcomes[1].Completed?
    ensures !UploadToAsync(prefix, fullName, uri, outcomes[0]).success
    ensures DownloadResult(prefix, uri, fullName, outcomes).success
  {
    WaitBeforeSuccess(outcomes, 1);
  }

  /** A queue as far as dispatch sees it: its absolute URI. */
  datatype Queue = Queue(uri: string)

  /** `DispatchMessage`: a null queue fails before any send; otherwise one send
      of the serialised message, whose exception becomes a failure. */
  function DispatchMessage(queue: Option<Queue>, send: Attempt): (r: ExecutionResult)
    ensures r.success <==> queue.Some? && send.Completed?
    ensures queue.None? ==> r == QueueNullResult()
    ensures queue.Some? && send.Completed? ==> r == QueueSentResult(queue.value.uri)
    ensures queue.Some? && send.Threw? ==> r == QueueFailedResult(send.message, queue.value.uri)
  {
    if queue.None? then QueueNullResult()
    else match send
      case Completed => QueueSentResult(queue.value.uri)
      case Threw(message) => QueueFailedResult(message, queue.value.uri)
  }
}
