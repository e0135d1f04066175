/** `ExecutionResult`, the one value every operation of the utility hands back,
    and the texts its catch paths and success paths build. */
module Results {
  import opened Text

  /** Whether the operation completed, and a human-readable log of what happened. */
  datatype ExecutionResult = ExecutionResult(success: bool, output: string)

  /** What an opaque collaborator (an HTTP download, a blob upload, a queue
      send) did on one try: it completed, or it threw an exception with this message. */
  datatype Attempt = Completed | Threw(message: string)

  /** A failure result whose output is labelled `<prefix>: ` and ends with the
      caught exception's message: the shape of every catch path. */
  predicate ReportsFailure(r: ExecutionResult, prefix: string, message: string) {
    && !r.success
    && HasPrefix(r.output, prefix + ": ")
    && HasSuffix(r.output, message)
  }

  /** The catch around the process run: `<prefix>: Exception <message>`. */
  function ExceptionResult(prefix: string, message: string): (r: ExecutionResult)
    ensures ReportsFailure(r, prefix, message)
    ensures HasPrefix(r.output, prefix + ": Exception ")
  {
    ExecutionResult(false, prefix + ": Exception " + message)
  }

  /** A download attempt that completed. */
  function DownloadedResult(prefix: string, uri: string, fullName: string): (r: ExecutionResult)
    ensures r.success && HasPrefix(r.output, prefix + ": Downloaded " + uri + " to ")
    ensures HasSuffix(r.output, " to " + fullName)
  {
    ExecutionResult(true, prefix + ": Downloaded " + uri + " to " + fullName)
  }

  /** Every download attempt failed: only `message`, the last one's, is reported. */
  function DownloadFailedResult(prefix: string, message: string, uri: string): (r: ExecutionResult)
    ensures !r.success && HasPrefix(r.output, prefix + ": ERR during download: \"" + message + "\" ")
    ensures HasSuffix(r.output, uri)
  {
    ExecutionResult(false, prefix + ": ERR during download: \"" + message + "\" " + uri)
  }

  /** The upload completed. */
  function UploadedResult(prefix: string, fullName: string, uri: string): (r: ExecutionResult)
    ensures r.success && HasPrefix(r.output, prefix + ": Uploaded " + fullName + " to ")
    ensures HasSuffix(r.output, " to " + uri)
  {
    ExecutionResult(true, prefix + ": Uploaded " + fullName + " to " + uri)
  }

  /** The upload threw. */
  function UploadFailedResult(prefix: string, message: string, uri: string): (r: ExecutionResult)
    ensures !r.success && HasPrefix(r.output, prefix + ": ERR during upload: \"" + message + "\" ")
    ensures HasSuffix(r.output, uri)
  {
    ExecutionResult(false, prefix + ": ERR during upload: \"" + message + "\" " + uri)
  }

  /** The label of every queue dispatch result. */
  const QueuePrefix: string := "QUEUE"

  /** Dispatch to a null queue. */
  function QueueNullResult(): (r: ExecutionResult)
    ensures !r.success && HasPrefix(r.output, QueuePrefix + ": ERR ")
    ensures r.output == "QUEUE: ERR queue is null"
  {
    ExecutionResult(false, QueuePrefix + ": ERR queue is null")
  }

  /** The send completed. */
  function QueueSentResult(queueUri: string): (r: ExecutionResult)
    ensures r.success && HasPrefix(r.output, QueuePrefix + ": Sent message to ") && HasSuffix(r.output, queueUri)
  {
    ExecutionResult(true, QueuePrefix + ": Sent message to " + queueUri)
  }

  /** The send threw. */
  function QueueFailedResult(message: string, queueUri: string): (r: ExecutionResult)
    ensures !r.success && HasPrefix(r.output, QueuePrefix + ": ERR " + message + " ") && HasSuffix(r.output, queueUri)
  {
    ExecutionResult(false, QueuePrefix + ": ERR " + message + " " + queueUri)
  }
}
