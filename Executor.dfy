/**
 * The front end's wrapper around the runner: `substitute_query`, which fills the
 * workflow text's placeholders, and `execute_workflow`, which turns the runner
 * subprocess's outcome (return code, stdout, stderr, or the exception it raised)
 * into a success flag, an error message and a list of log entries. The subprocess,
 * the temporary file and the clock are not modelled: their outcome and the elapsed
 * time are parameters.
 */
module Executor {
  import opened Wrappers
  import opened Text

  // ---------------------------------------------------------------------
  // substitute_query
  // ---------------------------------------------------------------------

  const Url503: string := "https://httpstat.us/503"
  const Url200: string := "https://httpstat.us/200"

  /** The URL the error-recovery workflow is pointed at: 503 only for the query `"simulate failure"`. */
  function UrlFor(query: string): string {
    if query == "simulate failure" then Url503 else Url200
  }

  /** The text `substitute_query` writes for the workflow text `content` read from `workflowPath`. */
  function SubstituteQuery(workflowPath: string, query: string, content: string): string {
    var withQuery := ReplaceAll(content, "{query}", query);
    if Contains(workflowPath, "error_recovery") then ReplaceAll(withQuery, "{url}", UrlFor(query)) else withQuery
  }

  /**
   * Outside the error-recovery workflow only `{query}` is filled: the text is the pieces
   * between its occurrences, joined by the query.
   */
  lemma QueryFilled(workflowPath: string, query: string, content: string)
    requires !Contains(workflowPath, "error_recovery")
    ensures SubstituteQuery(workflowPath, query, content) == Join(Split(content, "{query}"), query)
  {
    ReplaceIsJoinOfSplit(content, "{query}", query);
  }

  /**
   * In the error-recovery workflow `{url}` is filled second, over the text with the
   * query already in place: the pieces between its occurrences are joined by the URL.
   */
  lemma UrlFilledAfterQuery(workflowPath: string, query: string, content: string)
    requires Contains(workflowPath, "error_recovery")
    ensures SubstituteQuery(workflowPath, query, content) ==
            Join(Split(Join(Split(content, "{query}"), query), "{url}"), UrlFor(query))
  {
    ReplaceIsJoinOfSplit(content, "{query}", query);
    ReplaceIsJoinOfSplit(ReplaceAll(content, "{query}", query), "{url}", UrlFor(query));
  }

  /** Text without placeholders passes through unchanged. */
  lemma NoPlaceholders(workflowPath: string, query: string, content: string)
    requires !Contains(content, "{query}") && !Contains(content, "{url}")
    ensures SubstituteQuery(workflowPath, query, content) == content
  {
  }

  /** Because `{url}` is filled after `{query}`, a `{url}` typed into the query is filled too. */
  lemma UrlInsideQuery(workflowPath: string)
    requires Contains(workflowPath, "error_recovery")
    ensures SubstituteQuery(workflowPath, "{url}", "{query}") == Url200
  {
    assert Find("{query}", "{query}") == Some(0);
    assert ReplaceAll("", "{query}", "{url}") == "";
    assert ReplaceAll("{query}", "{query}", "{url}") == "{url}";
    assert Find("{url}", "{url}") == Some(0);
    assert ReplaceAll("", "{url}", Url200) == "";
  }

  /** A lone `{url}` placeholder becomes the 503 URL for `"simulate failure"` and the 200 URL otherwise. */
  lemma UrlChoice(workflowPath: string, query: string)
    requires Contains(workflowPath, "error_recovery")
    ensures SubstituteQuery(workflowPath, query, "{url}") == (if query == "simulate failure" then Url503 else Url200)
  {
    assert !OccursAt("{url}", "{query}", 0);
    assert Find("{url}", "{query}") == None;
    assert Find("{url}", "{url}") == Some(0);
    assert ReplaceAll("", "{url}", UrlFor(query)) == "";
  }

  // ---------------------------------------------------------------------
  // execute_workflow
  // ---------------------------------------------------------------------

  datatype Level = Info | Success | Error | Running

  /** A log line; its timestamp, node id and details are not modelled. */
  datatype LogEntry = LogEntry(level: Level, message: string)

  /** `ExecutionResult`: `nodeOutputs` is the dict's entries. */
  datatype ExecutionResult = ExecutionResult(
    success: bool,
    logs: seq<LogEntry>,
    nodeOutputs: seq<(string, string)>,
    error: Option<string>,
    executionTimeMs: int)

  /** How the runner subprocess ended. */
  datatype Outcome =
    | Completed(returnCode: int, stdout: string, stderr: string)
    | TimedOut
    | Raised(message: string)

  /** The three entries logged before the runner starts. */
  function StartEntries(workflowName: string, query: string): seq<LogEntry> {
    [ LogEntry(Info, "Starting workflow: " + workflowName),
      LogEntry(Info, "Query: " + query),
      LogEntry(Info, "Validating workflow schema...") ]
  }

  /** One info entry per stdout line with something besides white space, holding the stripped line. */
  function StdoutEntries(lines: seq<string>): (r: seq<LogEntry>)
    ensures |r| <= |lines|
  {
    if lines == [] then [] else StdoutEntries(lines[..|lines| - 1]) + StdoutEntry(lines[|lines| - 1])
  }

  /** The entry a single stdout line adds: none for a blank line. */
  function StdoutEntry(line: string): (r: seq<LogEntry>)
    ensures |r| <= 1
  {
    var stripped := Strip(line);
    if stripped != "" then [LogEntry(Info, stripped)] else []
  }

  /** `result.stderr.strip() if result.stderr else "Unknown error"`. */
  function ErrorMessage(stderr: string): string {
    if stderr == "" then "Unknown error" else Strip(stderr)
  }

  /** The texts of the closing entries. */
  function SuccessText(elapsedMs: int): string {
    "Workflow completed successfully in " + IntToString(elapsedMs) + "ms"
  }

  function FailureText(errorMsg: string): string {
    "Workflow failed: " + errorMsg
  }

  function TimeoutText(timeoutSeconds: int): string {
    "Workflow timed out after " + IntToString(timeoutSeconds) + "s"
  }

  function ExceptionText(message: string): string {
    "Execution error: " + message
  }

  /** The texts of a missing workflow file: the log entry names the path, the error the workflow. */
  function NotFoundText(path: string): string {
    "Workflow file not found: " + path
  }

  function NotFoundError(workflowName: string): string {
    "Workflow not found: " + workflowName
  }

  /** The stdout loop of `execute_workflow`, one line at a time. */
  method LogStdout(lines: seq<string>, logs0: seq<LogEntry>) returns (logs: seq<LogEntry>)
    ensures logs == logs0 + StdoutEntries(lines)
  {
    var added: seq<LogEntry> := [];
    for i := 0 to |lines|
      invariant added == StdoutEntries(lines[..i])
    {
      StdoutEntriesStep(lines, i);
      added := LogLine(lines[i], added);
    }
    assert lines[..|lines|] == lines;
    logs := logs0 + added;
  }

  /** One line of the loop over stdout: its stripped text as an info entry, unless it is blank. */
  method LogLine(raw: string, logs0: seq<LogEntry>) returns (logs: seq<LogEntry>)
    ensures logs == logs0 + StdoutEntry(raw)
  {
    logs := logs0;
    var line := Strip(raw);
    if line != "" {
      logs := logs + [LogEntry(Info, line)];
    }
  }

  lemma StdoutEntriesStep(lines: seq<string>, i: nat)
    requires i < |lines|
    ensures StdoutEntries(lines[..i + 1]) == StdoutEntries(lines[..i]) + StdoutEntry(lines[i])
  {
    assert lines[..i + 1][..i] == lines[..i];
  }

  /** `ROOT / 'workflows' / f'{workflow_name}.yaml'`, with `root` standing for the repository directory. */
  function WorkflowPath(root: string, workflowName: string): string {
    root + "/workflows/" + workflowName + ".yaml"
  }

  /** The closing entry and the result once the runner has returned `returnCode`. */
  method Finish(body: seq<LogEntry>, returnCode: int, stderr: string, elapsedMs: int) returns (r: ExecutionResult)
    ensures r.nodeOutputs == [] && r.executionTimeMs == elapsedMs
    ensures |r.logs| == |body| + 1 && r.logs[..|body|] == body
    ensures r.success <==> returnCode == 0
    ensures returnCode == 0 ==> r.error == None && r.logs[|body|] == LogEntry(Success, SuccessText(elapsedMs))
    ensures returnCode != 0 ==>
      r.error == Some(ErrorMessage(stderr)) && r.logs[|body|] == LogEntry(Error, FailureText(ErrorMessage(stderr)))
  {
    var nodeOutputs: seq<(string, string)> := [];
    var logs := body;
    if returnCode == 0 {
      logs := logs + [LogEntry(Success, SuccessText(elapsedMs))];
      return ExecutionResult(true, logs, nodeOutputs, None, elapsedMs);
    } else {
      var errorMsg := if stderr != "" then Strip(stderr) else "Unknown error";
      logs := logs + [LogEntry(Error, FailureText(errorMsg))];
      return ExecutionResult(false, logs, nodeOutputs, Some(errorMsg), elapsedMs);
    }
  }

  /**
   * `execute_workflow`, given whether the workflow file exists, how the runner ended
   * and the elapsed time. The three start entries come first; a run that returned
   * adds its stdout lines and a closing entry, a timeout or exception one error entry.
   */
  method ExecuteWorkflow(root: string, workflowName: string, query: string, timeoutSeconds: int,
                         fileExists: bool, outcome: Outcome, elapsedMs: int) returns (r: ExecutionResult)
    ensures r.nodeOutputs == []
    ensures !fileExists ==>
      && !r.success && r.error == Some(NotFoundError(workflowName))
      && r.logs == [LogEntry(Error, NotFoundText(WorkflowPath(root, workflowName)))]
      && r.executionTimeMs == 0
    ensures fileExists ==> |r.logs| >= 4 && r.logs[..3] == StartEntries(workflowName, query) && r.executionTimeMs == elapsedMs
    ensures fileExists && outcome.Completed? ==>
      && (r.success <==> outcome.returnCode == 0)
      && r.logs[..|r.logs| - 1] == StartEntries(workflowName, query) + StdoutEntries(Split(outcome.stdout, "\n"))
      && (outcome.returnCode == 0 ==>
            r.error == None && r.logs[|r.logs| - 1] == LogEntry(Success, SuccessText(elapsedMs)))
      && (outcome.returnCode != 0 ==>
            r.error == Some(ErrorMessage(outcome.stderr))
            && r.logs[|r.logs| - 1] == LogEntry(Error, FailureText(ErrorMessage(outcome.stderr))))
    ensures fileExists && outcome.TimedOut? ==>
      && !r.success && r.error == Some("Timeout")
      && r.logs == StartEntries(workflowName, query) + [LogEntry(Error, TimeoutText(timeoutSeconds))]
    ensures fileExists && outcome.Raised? ==>
      && !r.success && r.error == Some(outcome.message)
      && r.logs == StartEntries(workflowName, query) + [LogEntry(Error, ExceptionText(outcome.message))]
  {
    if !fileExists {
      var path := WorkflowPath(root, workflowName);
      return ExecutionResult(false, [LogEntry(Error, NotFoundText(path))], [], Some(NotFoundError(workflowName)), 0);
    }
    var logs := LogStart(workflowName, query);
    match outcome {
      case TimedOut =>
        r := Aborted(logs, TimeoutText(timeoutSeconds), "Timeout", elapsedMs);
      case Raised(message) =>
        r := Aborted(logs, ExceptionText(message), message, elapsedMs);
      case Completed(returnCode, stdout, stderr) =>
        r := Returned(logs, Split(stdout, "\n"), returnCode, stderr, elapsedMs);
    }
  }

  /** The three start entries, appended one after the other. */
  method LogStart(workflowName: string, query: string) returns (logs: seq<LogEntry>)
    ensures logs == StartEntries(workflowName, query)
  {
    logs := [];
    logs := logs + [LogEntry(Info, "Starting workflow: " + workflowName)];
    logs := logs + [LogEntry(Info, "Query: " + query)];
    logs := logs + [LogEntry(Info, "Validating workflow schema...")];
  }

  /** A timeout or an exception: one error entry after `start`, and the run fails with `error`. */
  method Aborted(start: seq<LogEntry>, text: string, error: string, elapsedMs: int) returns (r: ExecutionResult)
    ensures !r.success && r.error == Some(error) && r.nodeOutputs == [] && r.executionTimeMs == elapsedMs
    ensures r.logs == start + [LogEntry(Error, text)]
    ensures |r.logs| == |start| + 1 && r.logs[..|start|] == start
  {
    var logs := start + [LogEntry(Error, text)];
    return ExecutionResult(false, logs, [], Some(error), elapsedMs);
  }

  /** A runner that returned: its stdout lines are logged after `start`, then the closing entry. */
  method Returned(start: seq<LogEntry>, lines: seq<string>, returnCode: int, stderr: string, elapsedMs: int)
    returns (r: ExecutionResult)
    ensures r.nodeOutputs == [] && r.executionTimeMs == elapsedMs
    ensures |r.logs| == |start| + |StdoutEntries(lines)| + 1
    ensures r.logs[..|start|] == start
    ensures r.logs[..|r.logs| - 1] == start + StdoutEntries(lines)
    ensures r.success <==> returnCode == 0
    ensures returnCode == 0 ==> r.error == None && r.logs[|r.logs| - 1] == LogEntry(Success, SuccessText(elapsedMs))
    ensures returnCode != 0 ==>
      r.error == Some(ErrorMessage(stderr)) && r.logs[|r.logs| - 1] == LogEntry(Error, FailureText(ErrorMessage(stderr)))
  {
    var logs := LogStdout(lines, start);
    r := Finish(logs, returnCode, stderr, elapsedMs);
    assert r.logs[..|start|] == r.logs[..|logs|][..|start|];
  }

  /** The stdout entries of consecutive chunks of lines are the entries of each chunk, in order. */
  lemma {:induction false} StdoutEntriesAppend(a: seq<string>, b: seq<string>)
    ensures StdoutEntries(a + b) == StdoutEntries(a) + StdoutEntries(b)
    decreases |b|
  {
    if b != [] {
      var b0 := b[..|b| - 1];
      var e := StdoutEntry(b[|b| - 1]);
      StdoutEntriesAppend(a, b0);
      assert (a + b)[..|a + b| - 1] == a + b0;
      assert StdoutEntries(a + b) == StdoutEntries(a + b0) + e;
      assert StdoutEntries(b) == StdoutEntries(b0) + e;
    } else {
      assert a + b == a;
    }
  }

  /** A stdout entry: an info entry holding a stripped, non-blank text. */
  predicate StrippedInfo(e: LogEntry) {
    && e.level == Info && e.message != ""
    && !IsSpace(e.message[0]) && !IsSpace(e.message[|e.message| - 1])
  }

  lemma StdoutEntryShape(line: string)
    ensures forall k :: 0 <= k < |StdoutEntry(line)| ==>
      StrippedInfo(StdoutEntry(line)[k]) && StdoutEntry(line)[k].message == Strip(line)
  {
    StripWithEdges(line, IsSpace);
  }

  /** The stripped lines, in order. */
  function StrippedLines(lines: seq<string>): (r: seq<string>)
    ensures |r| == |lines|
  {
    if lines == [] then [] else StrippedLines(lines[..|lines| - 1]) + [Strip(lines[|lines| - 1])]
  }

  /** Each stdout entry is an info entry whose message is a stripped, non-blank line of the output. */
  lemma {:induction false} StdoutEntriesShape(lines: seq<string>)
    ensures forall k :: 0 <= k < |StdoutEntries(lines)| ==>
      StrippedInfo(StdoutEntries(lines)[k]) && StdoutEntries(lines)[k].message in StrippedLines(lines)
  {
    if lines != [] {
      var init := lines[..|lines| - 1];
      var last := lines[|lines| - 1];
      StdoutEntriesShape(init);
      StdoutEntryShape(last);
      var prev := StdoutEntries(init);
      var tail := StdoutEntry(last);
      var all := StdoutEntries(lines);
      var stripped := StrippedLines(lines);
      assert all == prev + tail;
      assert stripped == StrippedLines(init) + [Strip(last)];
      forall k | 0 <= k < |all| ensures StrippedInfo(all[k]) && all[k].message in stripped {
        if k < |prev| {
          assert all[k] == prev[k];
        } else {
          assert all[k] == tail[k - |prev|];
        }
      }
    }
  }

  /** A line holding only white space adds no entry; one holding anything else adds exactly one. */
  lemma StdoutEntriesSnoc(lines: seq<string>, line: string)
    ensures |StdoutEntries(lines + [line])| == |StdoutEntries(lines)| + (if Strip(line) == "" then 0 else 1)
    ensures Strip(line) == "" <==> forall i :: 0 <= i < |line| ==> IsSpace(line[i])
  {
    assert (lines + [line])[..|lines|] == lines;
    StripWithEmpty(line, IsSpace);
  }
}
