/** Running an external program, without the operating system: how the start
    information is built (argument join, environment merge), how the lines the
    two output readers deliver before the exit event are folded into one log,
    and how the outcome becomes an `ExecutionResult`. */
module ProcessRunner {
  import opened Text
  import opened Results

  /** One `DataReceived` callback: the stream it came from and its `Data`, which
      is null (`None`) at the end of the stream. */
  datatype OutputEvent = Stdout(data: Option<string>) | Stderr(data: Option<string>)

  /** `string.IsNullOrEmpty` fails: the callback keeps the line. */
  predicate Kept(e: OutputEvent) {
    e.data.Some? && e.data.value != ""
  }

  /** The log line a kept event becomes. */
  function TaggedLine(prefix: string, e: OutputEvent): string
    requires Kept(e)
  {
    match e
    case Stdout(data) => prefix + ": " + data.value
    case Stderr(data) => prefix + " ERR: " + data.value
  }

  /** What one callback appends to the log. */
  function Tag(prefix: string, e: OutputEvent): seq<string> {
    if Kept(e) then [TaggedLine(prefix, e)] else []
  }

  /** The log after the given callbacks, in the order they ran. */
  function Log(prefix: string, events: seq<OutputEvent>): (log: seq<string>)
    ensures |log| <= |events|
    ensures forall k :: 0 <= k < |log| ==> HasPrefix(log[k], prefix)
    decreases |events|
  {
    if events == [] then [] else Tag(prefix, events[0]) + Log(prefix, events[1..])
  }

  /** The log of a run split in two is the log of the first part followed by
      the log of the second: nothing is reordered across the split. */
  lemma {:induction false} LogAppend(prefix: string, a: seq<OutputEvent>, b: seq<OutputEvent>)
    ensures Log(prefix, a + b) == Log(prefix, a) + Log(prefix, b)
    decreases |a|
  {
    if a == [] {
      assert a + b == b;
    } else {
      assert (a + b)[0] == a[0] && (a + b)[1..] == a[1..] + b;
      LogAppend(prefix, a[1..], b);
    }
  }

  /** Number of events whose line is kept. */
  function KeptCount(events: seq<OutputEvent>): nat
    decreases |events|
  {
    if events == [] then 0 else (if Kept(events[0]) then 1 else 0) + KeptCount(events[1..])
  }

  /** One log line per kept event, none for a null or empty line. */
  lemma {:induction false} LogLength(prefix: string, events: seq<OutputEvent>)
    ensures |Log(prefix, events)| == KeptCount(events)
    decreases |events|
  {
    if events != [] {
      LogLength(prefix, events[1..]);
    }
  }

  /** Every kept event has its tagged line in the log. */
  lemma {:induction false} LogComplete(prefix: string, events: seq<OutputEvent>, i: nat)
    requires i < |events| && Kept(events[i])
    ensures TaggedLine(prefix, events[i]) in Log(prefix, events)
  {
    LogAppend(prefix, events[..i], events[i..]);
    assert events[..i] + events[i..] == events;
    assert events[i..][0] == events[i];
  }

  /** Every log line is the tagged line of a kept event. */
  lemma {:induction false} LogSound(prefix: string, events: seq<OutputEvent>, k: nat)
    requires k < |Log(prefix, events)|
    ensures exists i :: 0 <= i < |events| && Kept(events[i]) && Log(prefix, events)[k] == TaggedLine(prefix, events[i])
    decreases |events|
  {
    var head := Tag(prefix, events[0]);
    if k < |head| {
      assert Kept(events[0]) && Log(prefix, events)[k] == TaggedLine(prefix, events[0]);
    } else {
      LogSound(prefix, events[1..], k - |head|);
      var i :| 0 <= i < |events[1..]| && Kept(events[1..][i])
             && Log(prefix, events[1..])[k - |head|] == TaggedLine(prefix, events[1..][i]);
      assert events[1..][i] == events[i + 1];
    }
  }

  /** Arrival order is kept: of two kept events, the earlier one's line comes first. */
  lemma {:induction false} LogPreservesOrder(prefix: string, events: seq<OutputEvent>, i: nat, j: nat)
    requires i < j < |events| && Kept(events[i]) && Kept(events[j])
    ensures exists p, q ::
      (0 <= p < q < |Log(prefix, events)|
       && Log(prefix, events)[p] == TaggedLine(prefix, events[i])
       && Log(prefix, events)[q] == TaggedLine(prefix, events[j]))
  {
    var a, mid, b := events[..i], events[i + 1..j], events[j + 1..];
    assert events == a + [events[i]] + mid + [events[j]] + b;
    LogAppend(prefix, a + [events[i]] + mid + [events[j]], b);
    LogAppend(prefix, a + [events[i]] + mid, [events[j]]);
    LogAppend(prefix, a + [events[i]], mid);
    LogAppend(prefix, a, [events[i]]);
    var la, lm := Log(prefix, a), Log(prefix, mid);
    assert Log(prefix, [events[i]]) == [TaggedLine(prefix, events[i])];
    assert Log(prefix, [events[j]]) == [TaggedLine(prefix, events[j])];
    var log := Log(prefix, events);
    assert log == la + [TaggedLine(prefix, events[i])] + lm + [TaggedLine(prefix, events[j])] + Log(prefix, b);
    var p, q := |la|, |la| + 1 + |lm|;
    assert log[p] == TaggedLine(prefix, events[i]) && log[q] == TaggedLine(prefix, events[j]);
  }

  /** The result the exit handler builds: the log lines joined with "\n" (so
      no lines give ""), successful exactly when the exit code is 0. */
  function ExitResult(prefix: string, events: seq<OutputEvent>, exitCode: int): (r: ExecutionResult)
    ensures r.success <==> exitCode == 0
    ensures Log(prefix, events) == [] ==> r.output == ""
    ensures Log(prefix, events) != [] ==> HasPrefix(r.output, Log(prefix, events)[0]) && HasPrefix(r.output, prefix)
  {
    ExecutionResult(exitCode == 0, Join(Log(prefix, events), '\n'))
  }

  /** When neither the prefix nor any line contains a newline, the lines of
      the output are exactly the log, in order: joining loses and adds nothing. */
  lemma OutputLinesAreLog(prefix: string, events: seq<OutputEvent>, exitCode: int)
    requires '\n' !in prefix
    requires forall i :: 0 <= i < |events| && events[i].data.Some? ==> '\n' !in events[i].data.value
    requires KeptCount(events) > 0
    ensures Split(ExitResult(prefix, events, exitCode).output, '\n') == Log(prefix, events)
  {
    var log := Log(prefix, events);
    LogLength(prefix, events);
    forall k | 0 <= k < |log| ensures '\n' !in log[k] {
      LogSound(prefix, events, k);
    }
    SplitJoin(log, '\n');
  }

  /** The `List<string>` the two `DataReceived` handlers append to, with the
      handlers and the `Exited` handler as methods. */
  class OutputCollector {
    const prefix: string
    var output: seq<string>

    constructor (prefix: string)
      ensures this.prefix == prefix && output == []
    {
      this.prefix := prefix;
      output := [];
    }

    /** `OutputDataReceived`: a non-empty line is appended as "<prefix>: <line>". */
    method OnOutputData(data: Option<string>)
      modifies this
      ensures output == old(output) + Tag(prefix, Stdout(data))
    {
      if data.Some? && data.value != "" {
        output := output + [prefix + ": " + data.value];
      }
    }

    /** `ErrorDataReceived`: a non-empty line is appended as "<prefix> ERR: <line>". */
    method OnErrorData(data: Option<string>)
      modifies this
      ensures output == old(output) + Tag(prefix, Stderr(data))
    {
      if data.Some? && data.value != "" {
        output := output + [prefix + " ERR: " + data.value];
      }
    }

    /** `Exited`: the collected lines joined with "\n"; success iff the exit code is 0. */
    method OnExited(exitCode: int) returns (r: ExecutionResult)
      ensures r.success <==> exitCode == 0
      ensures r.output == Join(output, '\n')
    {
      r := ExecutionResult(exitCode == 0, Join(output, '\n'));
    }
  }

  /** `AzureImpl.RunProcessAsync` between start and exit, the callbacks taken
      one at a time in the order given: the result is the log of exactly the
      kept lines of `events`, tagged by stream, and its exit status. */
  method RunToExit(prefix: string, events: seq<OutputEvent>, exitCode: int) returns (r: ExecutionResult)
    ensures r.success <==> exitCode == 0
    ensures r == ExitResult(prefix, events, exitCode)
  {
    var collector := new OutputCollector(prefix);
    for n := 0 to |events|
      invariant collector.prefix == prefix
      invariant collector.output == Log(prefix, events[..n])
    {
      LogAppend(prefix, events[..n], [events[n]]);
      assert events[..n + 1] == events[..n] + [events[n]];
      match events[n]
      case Stdout(data) => collector.OnOutputData(data);
      case Stderr(data) => collector.OnErrorData(data);
    }
    assert events[..|events|] == events;
    r := collector.OnExited(exitCode);
  }

  /** `Arguments`: null stays null; otherwise the arguments joined by single spaces. */
  function JoinArguments(arguments: Option<seq<string>>): (r: Option<string>)
    ensures r.None? <==> arguments.None?
    ensures arguments.Some? && |arguments.value| > 0 ==>
      |r.value| == TotalLength(arguments.value) + |arguments.value| - 1
  {
    if arguments.None? then None
    else
      JoinLength(arguments.value, ' ');
      Some(Join(arguments.value, ' '))
  }

  /** Arguments without spaces are recovered from the command line by splitting
      at spaces: the join adds no quoting and no other separator. */
  lemma ArgumentsRecoverable(arguments: seq<string>)
    requires |arguments| > 0
    requires forall i :: 0 <= i < |arguments| ==> ' ' !in arguments[i]
    ensures Split(JoinArguments(Some(arguments)).value, ' ') == arguments
  {
    SplitJoin(arguments, ' ');
  }

  /** The environment after the merge, or the key whose `Add` threw. */
  datatype MergeResult = Merged(environment: map<string, string>) | DuplicateKey(key: string)

  /** The merge: each additional variable is `Add`ed to the inherited
      environment; `Add` throws on a key that is already there. */
  method MergeEnvironment(inherited: map<string, string>, additional: Option<map<string, string>>)
    returns (r: MergeResult)
    ensures r.Merged? <==> additional.None? || additional.value.Keys !! inherited.Keys
    ensures r.Merged? && additional.None? ==> r.environment == inherited
    ensures r.Merged? && additional.Some? ==> r.environment == inherited + additional.value
    ensures r.DuplicateKey? ==> additional.Some? && r.key in additional.value && r.key in inherited
  {
    if additional.None? {
      return Merged(inherited);
    }
    var extra := additional.value;
    var environment := inherited;
    var remaining := extra.Keys;
    while remaining != {}
      invariant remaining <= extra.Keys
      invariant (extra.Keys - remaining) !! inherited.Keys
      invariant environment == inherited + (extra - remaining)
      decreases remaining
    {
      var k :| k in remaining;
      if k in environment {
        return DuplicateKey(k);
      }
      environment := environment[k := extra[k]];
      remaining := remaining - {k};
    }
    assert extra - remaining == extra;
    r := Merged(environment);
  }

  /** The `ProcessStartInfo` handed to the process. */
  datatype StartInfo = StartInfo(
    fileName: string,
    arguments: Option<string>,
    workingDirectory: string,
    environment: map<string, string>)

  /** What the started process did: exited after the given callbacks, or threw
      (executable missing, start refused, ...). */
  datatype ProcessRun = Exited(events: seq<OutputEvent>, exitCode: int) | Faulted(message: string)

  /** How `Utils.RunProcessAsync` ends for its caller: with a result, or with the
      exception of a duplicate environment key, which is raised before the `try`. */
  datatype Invocation = Returned(result: ExecutionResult) | DuplicateKeyThrown(key: string)

  /** `Utils.RunProcessAsync`. `inherited` is the environment the start
      information starts with; `run` is the operating system's behaviour on
      the start information it receives. */
  method RunProcessAsync(
    fileName: string, arguments: Option<seq<string>>, additional: Option<map<string, string>>,
    prefix: string, inherited: map<string, string>, run: StartInfo -> ProcessRun)
    returns (r: Invocation)
    ensures r.DuplicateKeyThrown? <==> additional.Some? && !(additional.value.Keys !! inherited.Keys)
    ensures r.DuplicateKeyThrown? ==> r.key in additional.value && r.key in inherited
    ensures r.Returned? ==>
      var info := StartInfo(fileName, JoinArguments(arguments), ".",
                            if additional.Some? then inherited + additional.value else inherited);
      match run(info)
      case Exited(events, exitCode) => r.result == ExitResult(prefix, events, exitCode)
      case Faulted(message) => r.result == ExceptionResult(prefix, message)
  {
    var merged := MergeEnvironment(inherited, additional);
    if merged.DuplicateKey? {
      return DuplicateKeyThrown(merged.key);
    }
    var info := StartInfo(fileName, JoinArguments(arguments), ".", merged.environment);
    match run(info)
    case Exited(events, exitCode) =>
      var result := RunToExit(prefix, events, exitCode);
      r := Returned(result);
    case Faulted(message) =>
      r := Returned(ExceptionResult(prefix, message));
  }

  /** `echo hello` run with prefix "TEST": one stdout line, then the two
      end-of-stream nulls and exit code 0, gives "TEST: hello". */
  lemma EchoExample()
    ensures ExitResult("TEST", [Stdout(Some("hello")), Stdout(None), Stderr(None)], 0)
         == ExecutionResult(true, "TEST: hello")
  {
    var events := [Stdout(Some("hello")), Stdout(None), Stderr(None)];
    assert Log("TEST", events[2..]) == [];
    assert Log("TEST", events[1..]) == [];
  }

  /** A failing program that wrote nothing yields a failure with an empty output. */
  lemma SilentFailureHasEmptyOutput(prefix: string, exitCode: int)
    requires exitCode != 0
    ensures ExitResult(prefix, [], exitCode) == ExecutionResult(false, "")
  {
  }
}
