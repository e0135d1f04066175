# Embedder utilities: execution results, file names, process output and transfer retry

A Dafny model of the statable core of `k8s/embedder.src/Utils.cs`, the helper
layer of the forensic-watermark embedder. Every operation there hands back an
`ExecutionResult` (a success flag and a human-readable output log). The model
covers:

- **File names** (`FileNames`): `AsSafeFileName` walks the platform's invalid
  file-name characters, then `'%'` and `' '`, and replaces every occurrence of
  each by `'_'`. `AsLocalFile` only sanitises. `AsStatsFile`, `AsMmrkFile` and
  `AsWatermarkFileForUser` first rewrite every `".mp4"` and then sanitise. The
  platform's `Path.GetInvalidFileNameChars()` is a parameter.
- **String operations** (`Text`): the .NET operations these rely on:
  `Replace(char, char)`, the ordinal left-to-right non-overlapping
  `Replace(string, string)` and `string.Join`. The code calls no `IndexOf` and
  no `Split`. A first-occurrence `IndexOf` is a reference definition used to
  characterise `Replace`, and `Split` is there so that what a join keeps can be
  stated.
- **Process invocation** (`ProcessRunner`): the space-joined argument line, and
  the environment merge, which `Add`s each extra variable and throws on a key
  that is already present. The output handling is an `OutputCollector` class
  whose methods are the two `DataReceived` callbacks and the `Exited` callback.
  `RunToExit` drives it over the sequence of events received before exit.
  `RunProcessAsync` puts these together and turns a fault into
  `"<prefix>: Exception <message>"`.
- **Transfer** (`Transfer`): the download under its retry policy. The policy
  makes at most 6 tries and waits 2^k seconds before retry k. The first try that
  completes gives the result; otherwise only the last exception is reported.
  Also here: the single-try upload and the queue dispatch. Each collaborator
  call is an opaque outcome, `Completed` or `Threw(message)`.

The operating system's behaviour is the parameter `run` of
`ProcessRunner.RunProcessAsync`. The inherited environment is the parameter
`inherited`. How each download try would end is the sequence `outcomes` given
to `Transfer.DownloadToAsync`. The waits are returned as a sequence of seconds
rather than slept.

Three behaviours of the code that a quick reading could get wrong:

- The policy's `retryCount: 5` (k8s/embedder.src/Utils.cs:157) counts retries
  after the first try. So the download makes up to 6 tries, not 5, and
  `Transfer.MaxAttempts` is 6.
- A process that exits non-zero without writing a line yields `Success = false`
  with an empty `Output` (k8s/embedder.src/Utils.cs:118-119). A failure does not
  always carry a diagnostic. `ProcessRunner.SilentFailureHasEmptyOutput` states this.
- Not every failure becomes an `ExecutionResult`. A duplicate environment key
  throws from `Add` (k8s/embedder.src/Utils.cs:52), which is before the `try` at
  line 56, so the exception reaches the caller. The model reports it as
  `DuplicateKeyThrown`.

## Model

| member | source | states |
|---|---|---|
| `Results.ExceptionResult` | k8s/embedder.src/Utils.cs:60-66 | a caught process exception gives a failure whose output starts with `"<prefix>: Exception "` and ends with the exception message |
| `Results.DownloadedResult` | k8s/embedder.src/Utils.cs:168-172 | a completed download try is a success reading `"<prefix>: Downloaded <uri> to <path>"`: the label and the URI come first, and `" to <path>"` ends it |
| `Results.DownloadFailedResult` | k8s/embedder.src/Utils.cs:181-185 | the exhausted download is a failure labelled `"<prefix>: ERR during download: \"<message>\" "` that ends with the URI |
| `Results.UploadedResult` | k8s/embedder.src/Utils.cs:198 | a completed upload is a success reading `"<prefix>: Uploaded <path> to <uri>"`: the label and the path come first, and `" to <uri>"` ends it |
| `Results.UploadFailedResult` | k8s/embedder.src/Utils.cs:200-203 | a thrown upload is a failure labelled `"<prefix>: ERR during upload: \"<message>\" "` that ends with the URI |
| `Results.QueueNullResult` | k8s/embedder.src/Utils.cs:135-139 | a null queue gives a failure whose output is exactly `"QUEUE: ERR queue is null"` |
| `Results.QueueSentResult` | k8s/embedder.src/Utils.cs:144 | a completed send is a success labelled `"QUEUE: Sent message to "` that ends with the queue URI |
| `Results.QueueFailedResult` | k8s/embedder.src/Utils.cs:146-149 | a thrown send is a failure labelled `"QUEUE: ERR <message> "` that ends with the queue URI |
| `Text.ReplaceChar` | k8s/embedder.src/Utils.cs:74 | the string keeps its length; each position holding the old character holds the new one, and every other position is unchanged; when the two characters differ, the old one no longer occurs; if it occurred, the new one now occurs |
| `Text.ReplaceAll` | k8s/embedder.src/Utils.cs:80-84 | ordinal `Replace(string, string)`: a replacement as long as the pattern keeps the length; what it does at each occurrence is stated by `ReplaceAllNoMatch`, `ReplaceAllFirst` and `ReplaceAllByIndexOf` |
| `Text.IndexOf` | k8s/embedder.src/Utils.cs:80-84 | the result is the first index where the pattern occurs, and nothing when it occurs nowhere |
| `Text.ReplaceAllNoMatch` | k8s/embedder.src/Utils.cs:80-84 | `Replace` leaves a string in which the pattern does not occur unchanged |
| `Text.ReplaceAllFirst` | k8s/embedder.src/Utils.cs:80-84 | `Replace` rewrites the first occurrence and continues scanning right after it, so occurrences never overlap |
| `Text.ReplaceAllByIndexOf` | k8s/embedder.src/Utils.cs:80-84 | `Replace` equals a reference built on `IndexOf`: with no occurrence the string is kept; otherwise the prefix before the first occurrence is kept, the occurrence becomes the replacement, and the rest is rewritten the same way |
| `Text.Join` | k8s/embedder.src/Utils.cs:43 | `string.Join` of a non-empty list starts with its first element; `SplitJoin` and `JoinLength` establish that it holds exactly the pieces, in order, with one separator between neighbours |
| `Text.JoinSplit` | k8s/embedder.src/Utils.cs:118 | the converse of `SplitJoin`, a fact about the reference `Split`: joining the pieces of any split restores the string, so every string is the join of some list of lines |
| `Text.SplitJoin` | k8s/embedder.src/Utils.cs:118 | a non-empty list of pieces that contain no separator is recovered exactly by splitting their join |
| `Text.JoinLength` | k8s/embedder.src/Utils.cs:43 | a join is exactly the pieces' lengths plus one separator between neighbours |
| `FileNames.UnsafeChars` | k8s/embedder.src/Utils.cs:72-73 | the unsafe list holds exactly the platform's invalid characters, `'%'` and `' '` |
| `FileNames.Sanitize` | k8s/embedder.src/Utils.cs:74 | the specification of the sanitiser: the length is kept, safe characters are kept, and when `'_'` is not invalid no unsafe character remains; `AsSafeFileName` is proved equal to it |
| `FileNames.AsSafeFileName` | k8s/embedder.src/Utils.cs:70-76 | the loop over the unsafe list keeps the length; each unsafe character becomes `'_'` and every other character is kept; when `'_'` is not invalid, no unsafe character remains |
| `FileNames.SanitizeIdempotent` | k8s/embedder.src/Utils.cs:74 | sanitising a sanitised name changes nothing, on every platform |
| `FileNames.SanitizeConcat` | k8s/embedder.src/Utils.cs:74 | sanitising works character by character, so it distributes over concatenation |
| `FileNames.SanitizeSafe` | k8s/embedder.src/Utils.cs:74 | a name made only of safe characters is left as it is |
| `FileNames.AsLocalFile` | k8s/embedder.src/Utils.cs:78 | the local file name is the sanitised name and nothing more |
| `FileNames.AsStatsFile` | k8s/embedder.src/Utils.cs:80 | every `".mp4"` is rewritten to `".stats"` and the name is then sanitised; a name without `".mp4"` is only sanitised |
| `FileNames.AsMmrkFile` | k8s/embedder.src/Utils.cs:82 | every `".mp4"` is rewritten to `".mmrk"` and the name is then sanitised; a name without `".mp4"` is only sanitised |
| `FileNames.AsWatermarkFileForUser` | k8s/embedder.src/Utils.cs:84 | every `".mp4"` is rewritten to `"-<userid>.mp4"` and the whole name is then sanitised; a name without `".mp4"` is only sanitised |
| `FileNames.StatsFileOfMp4` | k8s/embedder.src/Utils.cs:80 | for `"<stem>.mp4"` with no earlier `".mp4"`, the stats name is the sanitised stem followed by `".stats"` |
| `FileNames.MmrkFileOfMp4` | k8s/embedder.src/Utils.cs:82 | for `"<stem>.mp4"` with no earlier `".mp4"`, the mark name is the sanitised stem followed by `".mmrk"` |
| `FileNames.WatermarkFileOfMp4` | k8s/embedder.src/Utils.cs:84 | for `"<stem>.mp4"` with no earlier `".mp4"`, the per-user name is the sanitised stem, `"-"`, the sanitised user id and `".mp4"`, so unsafe characters in the user id also become `'_'` |
| `FileNames.AsUri` | k8s/embedder.src/Utils.cs:86 | a null or empty text gives no URI; any other text is passed on |
| `ProcessRunner.Log` | k8s/embedder.src/Utils.cs:110-111 | the list the two callbacks build: at most one line per event, each starting with the prefix; `LogLength`, `LogComplete`, `LogSound` and `LogPreservesOrder` establish exactly which lines and in what order |
| `ProcessRunner.ExitResult` | k8s/embedder.src/Utils.cs:116-119 | the `Exited` result: success iff the exit code is 0; no kept line gives an empty output, and otherwise the output starts with the first logged line; `OutputLinesAreLog` shows its lines are exactly the log |
| `ProcessRunner.LogAppend` | k8s/embedder.src/Utils.cs:110-111 | the log of two consecutive runs of callbacks is the first log followed by the second |
| `ProcessRunner.LogLength` | k8s/embedder.src/Utils.cs:110-111 | the log has one line per non-null, non-empty received line |
| `ProcessRunner.LogComplete` | k8s/embedder.src/Utils.cs:110-111 | every non-empty received line appears in the log with the tag of its stream |
| `ProcessRunner.LogSound` | k8s/embedder.src/Utils.cs:110-111 | every log line is the tagged form of some non-empty received line |
| `ProcessRunner.LogPreservesOrder` | k8s/embedder.src/Utils.cs:110-111 | of two non-empty received lines, the earlier one's tagged line comes earlier in the log |
| `ProcessRunner.OutputLinesAreLog` | k8s/embedder.src/Utils.cs:118 | when no line and not the prefix contain a newline, splitting the output at `"\n"` gives back exactly the log |
| `ProcessRunner.OutputCollector.constructor` | k8s/embedder.src/Utils.cs:101 | the collector starts with an empty list |
| `ProcessRunner.OutputCollector.OnOutputData` | k8s/embedder.src/Utils.cs:110 | a non-empty stdout line is appended as `"<prefix>: <line>"`; a null or empty one appends nothing |
| `ProcessRunner.OutputCollector.OnErrorData` | k8s/embedder.src/Utils.cs:111 | a non-empty stderr line is appended as `"<prefix> ERR: <line>"`; a null or empty one appends nothing |
| `ProcessRunner.OutputCollector.OnExited` | k8s/embedder.src/Utils.cs:116-121 | the result succeeds iff the exit code is 0, and its output is the collected lines joined with `"\n"` |
| `ProcessRunner.RunToExit` | k8s/embedder.src/Utils.cs:99-131 | driving the callbacks over the received events yields the log of exactly those events, joined by `"\n"`; the result is successful iff the exit code is 0 |
| `ProcessRunner.EchoExample` | k8s/embedder.src/Utils.cs:110-119 | `echo hello` with prefix `"TEST"` and exit code 0 gives `{Success = true, Output = "TEST: hello"}` |
| `ProcessRunner.SilentFailureHasEmptyOutput` | k8s/embedder.src/Utils.cs:118-119 | a non-zero exit with no output lines gives a failure whose output is empty |
| `ProcessRunner.JoinArguments` | k8s/embedder.src/Utils.cs:43 | null arguments give a null argument line; otherwise the length is exactly the arguments' lengths plus one space between neighbours |
| `ProcessRunner.ArgumentsRecoverable` | k8s/embedder.src/Utils.cs:43 | arguments without spaces are recovered exactly by splitting the argument line at spaces, so no quoting and no other separator is added |
| `ProcessRunner.MergeEnvironment` | k8s/embedder.src/Utils.cs:48-54 | the merge fails exactly when an extra key is already inherited, and it then names such a key; otherwise the result is the inherited environment plus the extras, or the inherited one when there are no extras |
| `ProcessRunner.RunProcessAsync` | k8s/embedder.src/Utils.cs:35-68 | a key collision escapes as an exception; otherwise the process receives the joined arguments, working directory `"."` and the merged environment, and its exit becomes the folded result while its fault becomes `"<prefix>: Exception <message>"` |
| `Transfer.SleepDuration` | k8s/embedder.src/Utils.cs:158 | the wait before retry k is twice the wait before retry k-1 (2^k seconds), and it grows faster than the retry number |
| `Transfer.Backoff` | k8s/embedder.src/Utils.cs:156-158 | the first wait is 2 seconds and each later wait doubles the previous one, so the k-th wait (k from 1) is 2^k seconds |
| `Transfer.TotalBackoff` | k8s/embedder.src/Utils.cs:156-158 | the waits before n retries add up to 2^(n+1) - 2 seconds |
| `Transfer.FirstCompletedFrom` | k8s/embedder.src/Utils.cs:154-159 | finds the first try from k on that completes, with every try before it having thrown; or reports that all tries threw |
| `Transfer.FirstCompletedSkip` | k8s/embedder.src/Utils.cs:154-159 | leading tries that threw do not change which try completes first |
| `Transfer.DownloadResult` | k8s/embedder.src/Utils.cs:175-186 | the result the download returns: success iff some of the 6 tries completes, with the text `"<prefix>: Downloaded <uri> to <path>"`; otherwise a failure labelled with the last exception's message and ending with the URI |
| `Transfer.DownloadToAsync` | k8s/embedder.src/Utils.cs:152-187 | the download succeeds iff one of the 6 tries completes; it stops at the first completed try after waits 2, 4, ... seconds, one per failed try; when all tries throw it waits 5 times and reports only the sixth exception |
| `Transfer.OnlyLastFailureReported` | k8s/embedder.src/Utils.cs:181-185 | when all tries throw, results that agree on the last exception are equal, whatever the earlier messages |
| `Transfer.FirstSuccessWins` | k8s/embedder.src/Utils.cs:175-178 | a completed try ends the download successfully; later tries do not affect the result |
| `Transfer.WaitBeforeSuccess` | k8s/embedder.src/Utils.cs:154-158 | a source that throws n times (n at most 5) and then completes is read on try n+1, and the waits `DownloadToAsync` returns for it, `Backoff` of that try's index, add up to 2^(n+1) - 2 seconds |
| `Transfer.UploadToAsync` | k8s/embedder.src/Utils.cs:189-204 | the upload succeeds iff its single try completes, and then reads `"<prefix>: Uploaded <path> to <uri>"`; a thrown try gives a failure labelled `"<prefix>: ERR during upload: \"<message>\" "` that ends with the URI |
| `Transfer.UploadDoesNotRetry` | k8s/embedder.src/Utils.cs:189-204 | a first failure followed by a success fails the upload but not the download |
| `Transfer.DispatchMessage` | k8s/embedder.src/Utils.cs:133-150 | dispatch succeeds iff the queue is not null and its send completes; a null queue gives `"QUEUE: ERR queue is null"` without a send |

## Left out

- Process spawning, `ProcessStartInfo` handling by the OS and the real `Exited` event are operating-system I/O. They become the parameter `run`.
- The two output readers call back concurrently and append to an unsynchronised list. The code never calls `WaitForExit`, so lines can still arrive after `Exited` and be lost. The model folds only the events received before exit, in the order given.
- Exceptions raised inside the output callbacks or the exit handler are not modelled.
- `string.Join` renders a null array element as an empty string. The model's argument list has no null elements.
- On Windows, `ProcessStartInfo.Environment` compares keys case-insensitively. The model compares them exactly, as on Linux.
- The order in which the merge visits keys is unspecified. When several keys collide, the model says only that the reported key is one of them.
- `HttpClient` streaming, `FileInfo.OpenWrite` and `CopyToAsync` are network and file I/O. `OpenWrite` does not truncate, so what a shorter later try leaves in the file is file-system behaviour and is not modelled.
- The Azure `CloudBlockBlob`, `CloudQueue.AddMessageAsync`, `LargeFileUploaderUtils.UploadAsync` and the JSON serialisation of the message are unseen library calls. Each is one opaque outcome.
- Polly's real sleeping and time are not modelled; the waits are returned as whole seconds. `Math.Pow` on doubles is replaced by integer powers of two, which are exact for these exponents.
- `FileInfo` construction is not modelled, and neither is the exception it raises for an empty path. `FileInfo.FullName` resolution is environment-dependent and is a parameter.
- Transfer.DownloadToAsync: null URIs are excluded (`uri` is a string). With a null `blobAbsoluteUri` every try throws, and building the failure text then reads `blobAbsoluteUri.AbsoluteUri` (k8s/embedder.src/Utils.cs:184). So that `NullReferenceException` escapes instead of a result being returned, and the model does not capture it.
- Transfer.UploadToAsync: null URIs are excluded. With a null `blobAbsoluteUri`, the `catch` reads `blobAbsoluteUri.AbsoluteUri` (k8s/embedder.src/Utils.cs:202) and throws out of the method instead of returning a failure; the model does not capture this.
- Transfer.DispatchMessage: the queue URI is a string. A queue whose `Uri` is null is not modelled.
- FileNames.AsSafeFileName: null names are excluded. A null `x` makes `x.Replace` throw `NullReferenceException` (k8s/embedder.src/Utils.cs:74).
- FileNames.AsLocalFile: null names are excluded, for the same reason as `AsSafeFileName` (k8s/embedder.src/Utils.cs:78).
- FileNames.AsStatsFile: null names are excluded. A null `filename` makes `filename.Replace` throw (k8s/embedder.src/Utils.cs:80).
- FileNames.AsMmrkFile: null names are excluded, as for `AsStatsFile` (k8s/embedder.src/Utils.cs:82).
- FileNames.AsWatermarkFileForUser: null names are excluded (k8s/embedder.src/Utils.cs:84). A null `userid` is interpolated as empty text, so it is the same as passing `""`.
- FileNames.AsUri: the parse of a non-empty text and any `UriFormatException` it raises are not modelled; the text is passed on unchanged.
- The `Utils` forwarding wrappers (k8s/embedder.src/Utils.cs:29-33) and the fixed `AzureImpl` singleton are modelled by calling the `AzureImpl` members directly.
- The commented-out `StdoutImpl` is not live code.
